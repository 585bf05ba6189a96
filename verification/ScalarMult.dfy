/** The two table-driven scalar multiplications of Ed25519 on limbs
    (ed25519-donna/ed25519-donna-impl-base.h:246-364).  The points of the curve are the elements of an abelian
    group with affine coordinates in which the group operation is the addition law; that there is such a group is
    assumed.  The results are the limbs that show the right element: every step uses the point formulas of `Points`,
    so what they need is kept too, such as a coordinate t that only some conversions fill, or a table row whose third
    coordinate is usable only once it is multiplied by d. */
module ScalarMult {
  import opened Bits
  import opened Modm
  import opened Recode
  import opened Groups
  import opened Points
  import opened FieldModulus
  import Fe
  import FeBytes

  // ---- the curve

  /** A group of points: `at` gives affine coordinates. */
  ghost predicate Curve<G(!new)>(g: Group<G>, at: G -> Affine) {
    && Abelian(g) && at(g.zero) == Affine(0, 1) && (forall p :: OnCurve(at(p)))
    && (forall p {:trigger g.neg(p)} :: at(g.neg(p)) == Negated(at(p)))
    && (forall p, q {:trigger g.add(p, q)} :: IsSum(at(p), at(q), at(g.add(p, q))))
  }

  lemma CurveFacts<G(!new)>(g: Group<G>, at: G -> Affine, p: G, q: G)
    requires Curve(g, at)
    ensures Abelian(g) && OnCurve(at(p)) && at(g.neg(q)) == Negated(at(q)) && at(g.zero) == Affine(0, 1)
    ensures IsSum(at(p), at(q), at(g.add(p, q))) && IsSum(at(p), at(g.neg(q)), at(g.add(p, g.neg(q))))
    ensures IsSum(at(p), at(p), at(g.add(p, p)))
  {
    hide IsSum, OnCurve, Abelian;
  }

  /** ge25519_double_p1p1 */
  method Double<G(!new)>(g: Group<G>, at: G -> Affine, r: Extended, ghost p: G) returns (t: Completed)
    requires Curve(g, at) && Shows(r, at(p))
    ensures Completes(t, at(g.add(p, p)))
  {
    CurveFacts(g, at, p, p);
    hide *;
    t := DoubleP1P1(r, at(p), at(g.add(p, p)));
  }

  /** The element that an addition with a signbit adds. */
  function Signed<G>(g: Group<G>, q: G, signbit: int): G {
    if signbit == 1 then g.neg(q) else q
  }

  /** `(unsigned char)d >> 7` for a digit d. */
  function SignBit(d: int): (b: int)
    requires -128 <= d < 128
    ensures b == if d < 0 then 1 else 0
  {
    U8(d) / 0x80
  }

  function Abs(d: int): (a: nat)
    ensures a == d || a == -d
  {
    if d < 0 then -d else d
  }

  // ---- [s1] p1 + [s2] basepoint

  ghost predicate IsPniels(t: (Niels, seq<int>), a: Affine) {
    Fe.Tight(t.1) && |t.1| == 10 && Precomputed(t.0, a, Fe.Val(t.1))
  }

  /** The tables of odd multiples x, 3x, 5x, ...: with their own z, and with z = 1. */
  ghost predicate OddPniels<G>(g: Group<G>, at: G -> Affine, table: seq<(Niels, seq<int>)>, x: G) {
    forall i {:trigger table[i]} :: 0 <= i < |table| ==> IsPniels(table[i], at(Times(g, 2 * i + 1, x)))
  }

  ghost predicate OddNiels<G>(g: Group<G>, at: G -> Affine, table: seq<Niels>, x: G) {
    forall i {:trigger table[i]} :: 0 <= i < |table| ==> Precomputed(table[i], at(Times(g, 2 * i + 1, x)), 1)
  }

  /** pre1: p1 and then 2 p1 added over and over. */
  method OddTable<G(!new)>(g: Group<G>, at: G -> Affine, p1: Extended, size: nat, ghost x: G) returns (table: seq<(Niels, seq<int>)>)
    requires Curve(g, at) && size > 0 && ShowsFully(p1, at(x))
    ensures |table| == size && OddPniels(g, at, table, x)
  {
    hide IsPniels, ShowsFully, Shows, Curve, Abelian, IsSum, OnCurve, Times, Precomputed, Completes, Fe.Val, Fe.Tight, Negated;
    FullyShown(p1, at(x));
    CurveFacts(g, at, x, x);
    TimesOne(g, x);
    var t := Double(g, at, p1, x);
    var d1 := ToFull(t, at(g.add(x, x)));
    var q, z := FullToPniels(p1, at(x));
    PnielsIf(q, z, at(x));
    table := [(q, z)];
    assert OddPniels(g, at, table, x);
    for i := 0 to size - 1
      invariant |table| == i + 1 && OddPniels(g, at, table, x)
    {
      var next := NextOdd(g, at, d1, table[i], i, x);
      table := table + [next];
    }
  }

  lemma PnielsIf(q: Niels, z: seq<int>, a: Affine)
    requires Fe.Tight(z) && |z| == 10 && Precomputed(q, a, Fe.Val(z))
    ensures IsPniels((q, z), a)
  {
  }

  /** One turn: from (2 i + 1) x to (2 i + 3) x. */
  method NextOdd<G(!new)>(g: Group<G>, at: G -> Affine, d1: Extended, last: (Niels, seq<int>), ghost i: nat, ghost x: G)
      returns (next: (Niels, seq<int>))
    requires Curve(g, at) && ShowsFully(d1, at(g.add(x, x))) && IsPniels(last, at(Times(g, 2 * i + 1, x)))
    ensures IsPniels(next, at(Times(g, 2 * (i + 1) + 1, x)))
  {
    CurveFacts(g, at, g.add(x, x), Times(g, 2 * i + 1, x));
    hide ShowsFully, Precomputed, Curve, IsSum, OnCurve, Fe.Tight, Fe.Val;
    OddStep(g, i, x);
    hide Times, Abelian;
    var q, z := PnielsAdd(d1, last.0, last.1, at(g.add(x, x)), at(Times(g, 2 * i + 1, x)), at(Times(g, 2 * (i + 1) + 1, x)));
    next := (q, z);
  }

  lemma OddStep<G(!new)>(g: Group<G>, i: nat, x: G)
    requires Abelian(g)
    ensures g.add(g.add(x, x), Times(g, 2 * i + 1, x)) == Times(g, 2 * (i + 1) + 1, x)
  {
    TimesOne(g, x);
    TimesAdd(g, 1, 1, x);
    TimesAdd(g, 2, 2 * i + 1, x);
  }

  /** A window digit selects its own multiple: index abs(d) / 2 of the odd table, sign from bit 7. */
  lemma DigitPoint<G(!new)>(g: Group<G>, size: nat, x: G, d: int)
    requires Abelian(g) && d % 2 == 1 && d < 2 * size && -d < 2 * size && -128 <= d < 128
    ensures Abs(d) / 2 < size && Signed(g, Times(g, 2 * (Abs(d) / 2) + 1, x), SignBit(d)) == Times(g, d, x)
  {
    var i := Abs(d) / 2;
    if d < 0 {
      TimesNeg(g, 2 * i + 1, x);
      assert d == -(2 * i + 1);
    } else {
      assert d == 2 * i + 1;
    }
  }

  /** What the digits from position i up contribute: the value they stand for. */
  function Above(r: seq<int>, i: nat): int
    requires i <= |r|
  {
    Eval(r[i..], 1)
  }

  lemma AboveStep(r: seq<int>, i: nat)
    requires i < |r|
    ensures Above(r, i) == r[i] + 2 * Above(r, i + 1)
  {
    assert r[i..][1..] == r[i + 1..];
    assert Pow2(1) == 2;
  }

  lemma AboveZeros(r: seq<int>, i: nat)
    requires i <= |r| && forall k :: i <= k < |r| ==> r[k] == 0
    ensures Above(r, i) == 0
  {
    EvalZeros(r[i..], 1);
  }

  lemma DigitRange(r: seq<int>, i: nat, w: nat)
    requires |r| == 256 && i < 256 && (w == 5 || w == 7) && Windowed(r, 256, w) && r[i] != 0
    ensures r[i] % 2 == 1
    ensures w == 5 ==> -16 < r[i] < 16
    ensures w == 7 ==> -64 < r[i] < 64
  {
    assert WindowDigit(r, i, w);
    Powers(w);
  }

  lemma DoubleCombine<G(!new)>(g: Group<G>, a: int, b: int, p: G, q: G)
    requires Abelian(g)
    ensures g.add(Combine(g, a, p, b, q), Combine(g, a, p, b, q)) == Combine(g, 2 * a, p, 2 * b, q)
  {
    CombineAdd(g, a, b, a, b, p, q);
  }

  lemma CombineDigit<G(!new)>(g: Group<G>, a: int, b: int, d: int, p: G, q: G)
    requires Abelian(g)
    ensures g.add(Combine(g, a, p, b, q), Times(g, d, p)) == Combine(g, a + d, p, b, q)
    ensures g.add(Combine(g, a, p, b, q), Times(g, d, q)) == Combine(g, a, p, b + d, q)
  {
    CombineLeft(g, d, p, q);
    CombineAdd(g, a, b, d, 0, p, q);
    CombineAdd(g, a, b, 0, d, p, q);
  }

  /** The leading positions without a digit are skipped. */
  method SkipZeros(d1: seq<int>, d2: seq<int>) returns (i: int)
    requires |d1| == |d2| == 256
    ensures -1 <= i <= 255 && Above(d1, i + 1) == 0 && Above(d2, i + 1) == 0
  {
    i := 255;
    while i >= 0 && d1[i] == 0 && d2[i] == 0
      invariant -1 <= i <= 255
      invariant forall k :: i < k < 256 ==> d1[k] == 0 && d2[k] == 0
    {
      i := i - 1;
    }
    AboveZeros(d1, i + 1);
    AboveZeros(d2, i + 1);
  }

  /** The neutral point. */
  const NEUTRAL := Extended([0, 0, 0, 0, 0, 0, 0, 0, 0, 0], [1, 0, 0, 0, 0, 0, 0, 0, 0, 0], [1, 0, 0, 0, 0, 0, 0, 0, 0, 0], [0, 0, 0, 0, 0, 0, 0, 0, 0, 0])

  lemma NeutralShown()
    ensures Shows(NEUTRAL, Affine(0, 1))
  {
    assert Fe.Val(NEUTRAL.x) == 0 && Fe.Val(NEUTRAL.y) == 1 && Fe.Val(NEUTRAL.z) == 1;
    SameRefl(0);
    SameRefl(1);
    SmallUnits();
  }

  /** The main loop from position `from` down. */
  method MainLoop<G(!new)>(g: Group<G>, at: G -> Affine, pre1: seq<(Niels, seq<int>)>, pre2: seq<Niels>, d1: seq<int>, d2: seq<int>,
                           from: int, ghost p: G, ghost q: G)
      returns (r: Extended)
    requires Curve(g, at) && -1 <= from <= 255
    requires |d1| == 256 && Windowed(d1, 256, 5) && |d2| == 256 && Windowed(d2, 256, 7)
    requires |pre1| == 8 && OddPniels(g, at, pre1, p) && |pre2| == 32 && OddNiels(g, at, pre2, q)
    requires Above(d1, from + 1) == 0 && Above(d2, from + 1) == 0
    ensures Shows(r, at(Combine(g, Above(d1, 0), p, Above(d2, 0), q)))
  {
    hide *;
    CurveFacts(g, at, p, q);
    CombineZero(g, p, q);
    NeutralShown();
    r := NEUTRAL;
    var i := from;
    while i >= 0
      invariant -1 <= i <= 255
      invariant Shows(r, at(Combine(g, Above(d1, i + 1), p, Above(d2, i + 1), q)))
    {
      r := LadderStep(g, at, r, pre1, pre2, d1, d2, i, p, q);
      i := i - 1;
    }
  }

  /** ge25519_double_scalarmult_vartime: limbs that show exactly s1 * p1 + s2 * base, for scalars below 2^255. */
  method DoubleScalarMult<G(!new)>(g: Group<G>, at: G -> Affine, p1: Extended, slidingMultiples: seq<Niels>, s1: seq<int>, s2: seq<int>,
                                   ghost p: G, ghost base: G)
      returns (r: Extended)
    requires Curve(g, at) && ShowsFully(p1, at(p))
    requires |slidingMultiples| == 32 && OddNiels(g, at, slidingMultiples, base)
    requires Limbs(s1, 0x10000) && Val(s1) < Pow2(255) && Limbs(s2, 0x10000) && Val(s2) < Pow2(255)
    ensures Shows(r, at(Combine(g, Val(s1), p, Val(s2), base)))
  {
    assert |s1| == |s2| == 9;
    hide *;
    var slide1, slide2 := new int[256], new int[256];
    SlidingWindow(slide1, s1, 5);
    SlidingWindow(slide2, s2, 7);
    var d1, d2 := slide1[..], slide2[..];
    var pre1 := OddTable(g, at, p1, 8, p);
    var i := SkipZeros(d1, d2);
    r := MainLoop(g, at, pre1, slidingMultiples, d1, d2, i, p, base);
    AboveAll(d1);
    AboveAll(d2);
  }

  lemma AboveAll(r: seq<int>)
    ensures Above(r, 0) == Eval(r, 1)
  {
    assert r[0..] == r;
  }

  lemma CombineZero<G(!new)>(g: Group<G>, p: G, q: G)
    requires Abelian(g)
    ensures Combine(g, 0, p, 0, q) == g.zero
  {
    assert Unit(g, g.zero);
  }

  /** `ge25519_p1p1_to_full(r, &t); ge25519_pnielsadd_p1p1(&t, r, &pre1[abs(d) / 2], (unsigned char)d >> 7)` */
  method AddOwnDigit<G(!new)>(g: Group<G>, at: G -> Affine, t: Completed, pre1: seq<(Niels, seq<int>)>, d: int, ghost e: G, ghost x: G)
      returns (t': Completed)
    requires Curve(g, at) && Completes(t, at(e)) && OddPniels(g, at, pre1, x)
    requires d % 2 == 1 && d < 2 * |pre1| && -d < 2 * |pre1| && -128 <= d < 128
    ensures Completes(t', at(g.add(e, Times(g, d, x))))
  {
    var i := Abs(d) / 2;
    ghost var w := Times(g, 2 * i + 1, x);
    CurveFacts(g, at, e, w);
    DigitPoint(g, |pre1|, x, d);
    assert IsPniels(pre1[i], at(w));
    hide Completes, Precomputed, Curve, Abelian, IsSum, OnCurve, Fe.Tight, Fe.Val, Times, OddPniels, Negated;
    var r := ToFull(t, at(e));
    t' := PnielsAddP1P1(r, pre1[i].0, pre1[i].1, SignBit(d), at(e), at(w), at(g.add(e, Times(g, d, x))));
  }

  /** `ge25519_p1p1_to_full(r, &t); ge25519_nielsadd2_p1p1(&t, r, &multiples[abs(d) / 2], (unsigned char)d >> 7)` */
  method AddBaseDigit<G(!new)>(g: Group<G>, at: G -> Affine, t: Completed, pre2: seq<Niels>, d: int, ghost e: G, ghost x: G)
      returns (t': Completed)
    requires Curve(g, at) && Completes(t, at(e)) && OddNiels(g, at, pre2, x)
    requires d % 2 == 1 && d < 2 * |pre2| && -d < 2 * |pre2| && -128 <= d < 128
    ensures Completes(t', at(g.add(e, Times(g, d, x))))
  {
    var i := Abs(d) / 2;
    ghost var w := Times(g, 2 * i + 1, x);
    CurveFacts(g, at, e, w);
    DigitPoint(g, |pre2|, x, d);
    assert Precomputed(pre2[i], at(w), 1);
    hide Completes, Precomputed, Curve, Abelian, IsSum, OnCurve, Times, OddNiels, Negated;
    var r := ToFull(t, at(e));
    t' := NielsAdd2P1P1(r, pre2[i], SignBit(d), at(e), at(w), at(g.add(e, Times(g, d, x))));
  }

  /** One pass of the main loop: double, then add the digit of each scalar at i when there is one. */
  method LadderStep<G(!new)>(g: Group<G>, at: G -> Affine, r: Extended, pre1: seq<(Niels, seq<int>)>, pre2: seq<Niels>,
                             d1: seq<int>, d2: seq<int>, i: int, ghost p: G, ghost q: G)
      returns (r': Extended)
    requires Curve(g, at) && 0 <= i < 256
    requires |d1| == 256 && Windowed(d1, 256, 5) && |d2| == 256 && Windowed(d2, 256, 7)
    requires |pre1| == 8 && OddPniels(g, at, pre1, p) && |pre2| == 32 && OddNiels(g, at, pre2, q)
    requires Shows(r, at(Combine(g, Above(d1, i + 1), p, Above(d2, i + 1), q)))
    ensures Shows(r', at(Combine(g, Above(d1, i), p, Above(d2, i), q)))
  {
    hide *;
    AboveStep(d1, i);
    AboveStep(d2, i);
    CurveFacts(g, at, p, q);
    ghost var a, b := 2 * Above(d1, i + 1), 2 * Above(d2, i + 1);
    DoubleCombine(g, Above(d1, i + 1), Above(d2, i + 1), p, q);
    var t := Double(g, at, r, Combine(g, Above(d1, i + 1), p, Above(d2, i + 1), q));
    if d1[i] != 0 {
      DigitRange(d1, i, 5);
      CombineDigit(g, a, b, d1[i], p, q);
      t := AddOwnDigit(g, at, t, pre1, d1[i], Combine(g, a, p, b, q), p);
    }
    if d2[i] != 0 {
      DigitRange(d2, i, 7);
      CombineDigit(g, a + d1[i], b, d2[i], p, q);
      t := AddBaseDigit(g, at, t, pre2, d2[i], Combine(g, a + d1[i], p, b, q), q);
    }
    r' := ToPartial(t, at(Combine(g, Above(d1, i), p, Above(d2, i), q)));
  }

  // ---- [s] basepoint

  /** 96 bytes that hold y - x, y + x and the third coordinate of a point: 2xy in row 0 of the table (`plain`), and
      2dxy in the others. */
  ghost predicate Packed(e: seq<int>, a: Affine, plain: bool) {
    && |e| == 96 && Bytes(e)
    && Same(LE(e[..32]) % FeBytes.TOP, a.y - a.x) && Same(LE(e[32..64]) % FeBytes.TOP, a.y + a.x)
    && Same(LE(e[64..]) % FeBytes.TOP, Third(a, plain))
  }

  function Third(a: Affine, plain: bool): int {
    if plain then 2 * (a.x * a.y) else (2 * D) * (a.x * a.y)
  }

  /** The packed table: entry 8 pos + i is (i + 1) 256^pos times the base point. */
  ghost predicate CombTable<G>(g: Group<G>, at: G -> Affine, table: seq<seq<int>>, base: G) {
    && |table| == 256
    && forall pos, i {:trigger CombEntry(g, at, table, base, pos, i)} :: 0 <= pos < 32 && 0 <= i < 8 ==> CombEntry(g, at, table, base, pos, i)
  }

  ghost predicate CombEntry<G>(g: Group<G>, at: G -> Affine, table: seq<seq<int>>, base: G, pos: nat, i: nat)
    requires pos < 32 && i < 8 && |table| == 256
  {
    Packed(table[pos * 8 + i], at(Times(g, (i + 1) * Pow2(8 * pos), base)), pos == 0)
  }

  /** ge25519_windowb_equal: 1 when the words are equal, by the borrow out of (b ^ c) - 1. */
  function WindowEqual(b: nat, c: nat): (e: nat)
    requires b < 16 && c < 16
    ensures e == if b == c then 1 else 0
  {
    DifferenceBits(b, c);
    hide Xor;
    U32(Xor(b, c) - 1) / 0x80000000
  }

  lemma DifferenceBits(b: nat, c: nat)
    requires b < 16 && c < 16
    ensures 0 <= Xor(b, c) < 16 && (Xor(b, c) == 0 <==> b == c)
  {
    assert Pow2(4) == 16;
    hide *;
    XorBelow(b, c, 4);
    XorZero(b);
    XorCancel(b, c);
    XorZero(c);
  }

  /** `(b + mask) ^ mask` under mask = 0 or -1 is the absolute value of the digit. */
  lemma AbsByMask(b: int, sign: int, mask: nat)
    requires -8 <= b <= 8 && sign == (if b < 0 then 1 else 0) && mask == U32(-sign)
    ensures Xor(U32(b + mask), mask) == Abs(b)
  {
    XorZero(U32(b));
    Pow2Literals();
    hide Xor, Pow2;
    if b < 0 {
      XorAllOnes(b + 0xffff_ffff, mask, 32);
      assert U32(b + mask) == b + 0xffff_ffff;
    }
  }

  lemma {:induction false} XorAllOnes(x: nat, mask: nat, k: nat)
    requires mask + 1 == Pow2(k) && x <= mask
    ensures Xor(x, mask) == mask - x
    decreases k
  {
    XorZero(mask);
    if x != 0 && mask != 0 {
      assert Pow2(k) == 2 * Pow2(k - 1);
      XorAllOnes(x / 2, mask / 2, k - 1);
    }
  }

  /** A point in limbs as the table row has it. */
  ghost predicate Unpacked(t: Niels, a: Affine, plain: bool) {
    && Fe.Tight(t.ysubx) && Fe.Tight(t.xaddy) && Fe.Tight(t.t2d)
    && Is(t.ysubx, a.y - a.x) && Is(t.xaddy, a.y + a.x) && Is(t.t2d, Third(a, plain))
  }

  /** ge25519_scalarmult_base_choose_niels: scans the eight entries of the row, unpacks and negates by sign;
      the result is b 256^pos times the base point for every digit b in [-8, 8]. */
  method ChooseNiels<G(!new)>(g: Group<G>, at: G -> Affine, table: seq<seq<int>>, pos: nat, b: int, ghost base: G) returns (t: Niels)
    requires Curve(g, at) && CombTable(g, at, table, base) && pos < 32 && -8 <= b <= 8
    ensures Unpacked(t, at(Times(g, b * Pow2(8 * pos), base)), pos == 0)
  {
    var sign := SignBit(b);
    var mask := U32(-sign);
    var u := Xor(U32(b + mask), mask);
    AbsByMask(b, sign, mask);
    assert u == if sign == 1 then -b else b;
    hide *;
    ghost var w := Times(g, u * Pow2(8 * pos), base);
    CurveFacts(g, at, w, w);
    var packed := SelectEntry(g, at, table, pos, u, base);
    t := AdjustSign(packed, sign, at(w), pos == 0);
    if sign == 1 {
      NegateEntry(g, u, b, Pow2(8 * pos), base);
    }
  }

  /** `expand in to t`, `adjust for sign` */
  method AdjustSign(packed: seq<int>, sign: int, ghost a: Affine, ghost plain: bool) returns (t: Niels)
    requires Packed(packed, a, plain) && (sign == 0 || sign == 1)
    ensures Unpacked(t, if sign == 1 then Negated(a) else a, plain)
  {
    var s0, s1, s2 := ExpandEntry(packed, a, plain);
    EntryTight(s0, s1, s2, a, plain);
    hide *;
    var ysubx, xaddy := SwapBySign(s0, s1, sign);
    var t2d := NegateBySign(s2, sign);
    t := Niels(ysubx, xaddy, t2d);
    if sign == 1 {
      NegatedUnpacked(s0, s1, s2, t2d, a, plain);
    }
  }

  /** `curve25519_swap_conditional(t->ysubx, t->xaddy, sign)` */
  method SwapBySign(s0: seq<int>, s1: seq<int>, sign: int) returns (a: seq<int>, b: seq<int>)
    requires Fe.Tight(s0) && Fe.Tight(s1) && (sign == 0 || sign == 1)
    ensures a == if sign == 1 then s1 else s0
    ensures b == if sign == 1 then s0 else s1
  {
    hide *;
    NominalBelow(s0);
    NominalBelow(s1);
    var x := Limbs10(s0);
    var y := Limbs10(s1);
    Fe.SwapConditional(x, y, sign);
    a, b := x[..], y[..];
  }

  /** `curve25519_neg(neg, t->t2d); curve25519_swap_conditional(t->t2d, neg, sign)` */
  method NegateBySign(s: seq<int>, sign: int) returns (t: seq<int>)
    requires Fe.Tight(s) && (sign == 0 || sign == 1)
    ensures |s| == |t| == 10 && Fe.Tight(t)
    ensures if sign == 1 then Same(Fe.Val(t), -Fe.Val(s)) else t == s
  {
    hide *;
    NominalBelow(s);
    var x := Limbs10(s);
    var neg := new int[10];
    Fe.Neg(neg, x);
    NominalBelow(neg[..]);
    Fe.SwapConditional(x, neg, sign);
    t := x[..];
  }

  lemma EntryTight(s0: seq<int>, s1: seq<int>, s2: seq<int>, a: Affine, plain: bool)
    requires Unpacked(Niels(s0, s1, s2), a, plain)
    ensures Fe.Tight(s0) && Fe.Tight(s1) && Fe.Tight(s2)
  {
  }

  /** `expand in to t` */
  method ExpandEntry(packed: seq<int>, ghost a: Affine, ghost plain: bool) returns (s0: seq<int>, s1: seq<int>, s2: seq<int>)
    requires Packed(packed, a, plain)
    ensures Unpacked(Niels(s0, s1, s2), a, plain)
  {
    PackedBytes(packed);
    hide *;
    s0 := FeBytes.Expand(packed[..32]);
    s1 := FeBytes.Expand(packed[32..64]);
    s2 := FeBytes.Expand(packed[64..]);
    ExpandedIs(packed, s0, s1, s2, a, plain);
  }

  lemma PackedBytes(packed: seq<int>)
    requires |packed| == 96 && Bytes(packed)
    ensures Bytes(packed[..32]) && Bytes(packed[32..64]) && Bytes(packed[64..])
  {
  }

  lemma ExpandedIs(packed: seq<int>, s0: seq<int>, s1: seq<int>, s2: seq<int>, a: Affine, plain: bool)
    requires Packed(packed, a, plain)
    requires Fe.Below(s0, 0x4000000, 0x2000000) && Fe.Below(s1, 0x4000000, 0x2000000) && Fe.Below(s2, 0x4000000, 0x2000000)
    requires Fe.Val(s0) == LE(packed[..32]) % FeBytes.TOP && Fe.Val(s1) == LE(packed[32..64]) % FeBytes.TOP
    requires Fe.Val(s2) == LE(packed[64..]) % FeBytes.TOP
    ensures Unpacked(Niels(s0, s1, s2), a, plain)
  {
    hide Same, LE, Bytes, Fe.Val, Third;
  }

  /** A limb array of its own. */
  method Limbs10(s: seq<int>) returns (a: array<int>)
    requires Fe.Tight(s)
    ensures fresh(a) && a.Length == 10 && a[..] == s
  {
    a := new int[10](i requires 0 <= i < 10 => s[i]);
  }

  lemma NominalBelow(s: seq<int>)
    requires Fe.Tight(s)
    ensures |s| == 10 && Fe.Below(s, 0x1_0000_0000, 0x1_0000_0000)
  {
  }

  lemma NegatedUnpacked(s0: seq<int>, s1: seq<int>, s2: seq<int>, n: seq<int>, a: Affine, plain: bool)
    requires Unpacked(Niels(s0, s1, s2), a, plain) && Fe.Tight(n) && |n| == |s2| == 10 && Same(Fe.Val(n), -Fe.Val(s2))
    ensures Unpacked(Niels(s1, s0, n), Negated(a), plain)
  {
    hide Same, Fe.Val, Fe.Tight, Third;
    NegatedThird(a, plain);
    NegatedIs(s2, n, Third(a, plain));
  }

  lemma NegatedIs(s: seq<int>, n: seq<int>, v: int)
    requires Is(s, v) && |n| == 10 && Same(Fe.Val(n), -Fe.Val(s))
    ensures Is(n, -v)
  {
    hide Same, Fe.Val;
    SameRefl(0);
    SameSum(0, 0, Fe.Val(s), v);
    SameTrans(Fe.Val(n), -Fe.Val(s), -v);
  }

  lemma NegatedThird(a: Affine, plain: bool)
    ensures Third(Negated(a), plain) == -Third(a, plain)
  {
    assert (-a.x) * a.y == -(a.x * a.y);
    NegatedProduct(2 * D, a.x * a.y);
  }

  lemma NegateEntry<G(!new)>(g: Group<G>, u: int, b: int, p: int, base: G)
    requires Abelian(g) && u == -b
    ensures Times(g, b * p, base) == g.neg(Times(g, u * p, base))
  {
    TimesNeg(g, u * p, base);
    assert -(u * p) == b * p;
  }

  /** The scan over the eight entries of row pos, starting from the neutral point. */
  method SelectEntry<G(!new)>(g: Group<G>, at: G -> Affine, table: seq<seq<int>>, pos: nat, u: nat, ghost base: G) returns (packed: seq<int>)
    requires Curve(g, at) && CombTable(g, at, table, base) && pos < 32 && u <= 8
    ensures Packed(packed, at(Times(g, u * Pow2(8 * pos), base)), pos == 0)
  {
    CurveFacts(g, at, base, base);
    NeutralPacked(pos == 0);
    packed := NeutralBytes();
    hide WindowEqual, Pow2, Curve, Packed, Abelian;
    for i := 0 to 8
      invariant Packed(packed, at(if 0 < u <= i then Times(g, u * Pow2(8 * pos), base) else g.zero), pos == 0)
    {
      assert CombEntry(g, at, table, base, pos, i);
      if WindowEqual(u, i + 1) == 1 {
        packed := table[pos * 8 + i];
      }
    }
    assert u == 0 ==> u * Pow2(8 * pos) == 0;
  }

  /** `uint8_t packed[96] = {0}; packed[0] = 1; packed[32] = 1` */
  function NeutralBytes(): (e: seq<int>)
    ensures |e| == 96 && Bytes(e)
  {
    [1] + seq(31, _ => 0) + [1] + seq(31, _ => 0) + seq(32, _ => 0)
  }

  lemma NeutralPacked(plain: bool)
    ensures Packed(NeutralBytes(), Affine(0, 1), plain)
  {
    var e := NeutralBytes();
    NeutralParts();
    assert Third(Affine(0, 1), plain) == 0;
    hide LE, NeutralBytes, Same, Third;
    SameRefl(1);
    SameRefl(0);
  }

  lemma NeutralParts()
    ensures LE(NeutralBytes()[..32]) == 1 && LE(NeutralBytes()[32..64]) == 1 && LE(NeutralBytes()[64..]) == 0
  {
    var e, zeros := NeutralBytes(), seq(31, _ => 0);
    assert e[..32] == [1] + zeros && e[32..64] == [1] + zeros && e[64..] == seq(32, _ => 0);
    hide NeutralBytes;
    LEZeros(zeros);
    LEZeros(e[64..]);
    assert ([1] + zeros)[1..] == zeros;
  }

  /** The digits of one parity among the first 2 n, as a base-256 number. */
  function Parity(b: seq<int>, n: nat, odd: nat): int
    requires 2 * n <= |b| && odd <= 1
  {
    if n == 0 then 0 else Parity(b, n - 1, odd) + b[2 * (n - 1) + odd] * Pow2(8 * (n - 1))
  }

  lemma PairValue(p: int, x: int, y: int)
    ensures p * x + (p * 16) * y == x * p + 16 * (y * p)
  {
    assert (p * 16) * y == 16 * (y * p);
  }

  lemma PairSum(even: int, odd: int, p: int, q: int, x: int, y: int)
    requires q == p * 16
    ensures even + 16 * odd + p * x + q * y == (even + x * p) + 16 * (odd + y * p)
  {
    PairValue(p, x, y);
  }

  lemma TwoNibbles(b: seq<int>, m: nat)
    requires m + 2 <= |b|
    ensures Eval(b[..m + 2], 4) == Eval(b[..m], 4) + Pow2(4 * m) * b[m] + Pow2(4 * (m + 1)) * b[m + 1]
  {
    assert b[..m] + [b[m]] == b[..m + 1] && b[..m + 1] + [b[m + 1]] == b[..m + 2];
    hide Eval, Pow2;
    NibbleAppend(b[..m], b[m]);
    NibbleAppend(b[..m + 1], b[m + 1]);
  }

  lemma ParityNext(b: seq<int>, n: nat)
    requires n > 0 && 2 * n <= |b|
    ensures Parity(b, n, 0) == Parity(b, n - 1, 0) + b[2 * n - 2] * Pow2(8 * n - 8)
    ensures Parity(b, n, 1) == Parity(b, n - 1, 1) + b[2 * n - 1] * Pow2(8 * n - 8)
  {
    hide Pow2;
    assert 8 * (n - 1) == 8 * n - 8 && 2 * (n - 1) + 1 == 2 * n - 1;
  }

  lemma {:induction false} ParitySplit(b: seq<int>, n: nat)
    requires 2 * n <= |b|
    ensures Eval(b[..2 * n], 4) == Parity(b, n, 0) + 16 * Parity(b, n, 1)
  {
    if n == 0 {
      assert b[..0] == [];
    } else {
      hide *;
      ParitySplit(b, n - 1);
      TwoNibbles(b, 2 * n - 2);
      NibblePower(8 * n - 8);
      ParityNext(b, n);
      assert 4 * (2 * n - 2) == 8 * n - 8 && 4 * (2 * n - 2 + 1) == 8 * n - 8 + 4 && 2 * (n - 1) == 2 * n - 2;
      PairSum(Parity(b, n - 1, 0), Parity(b, n - 1, 1), Pow2(8 * n - 8), Pow2(8 * n - 8 + 4), b[2 * n - 2], b[2 * n - 1]);
    }
  }

  /** The digits of a scalar in base 16. */
  ghost predicate Nibbles(b: seq<int>) {
    |b| == 64 && forall i :: 0 <= i < 64 ==> -8 <= b[i] <= 8
  }

  lemma NibblesIf(b: seq<int>)
    requires |b| == 64 && forall i :: 0 <= i < 64 ==> -8 <= b[i] <= 8
    ensures Nibbles(b)
  {
  }

  lemma NibbleAt(b: seq<int>, i: nat)
    requires Nibbles(b) && i < 64
    ensures |b| == 64 && -8 <= b[i] <= 8
  {
  }

  lemma FirstParity(b: seq<int>)
    requires |b| >= 2
    ensures Pow2(8 * 0) == 1 && Parity(b, 1, 0) == b[0] && Parity(b, 1, 1) == b[1]
  {
    assert Parity(b, 0, 0) == 0 && Parity(b, 0, 1) == 0;
  }

  /** `signed char b[64]; contract256_window4_modm(b, s);` */
  method Digits16(s: seq<int>) returns (b: seq<int>)
    requires Limbs(s, 0x10000) && Val(s) < Pow2(255)
    ensures |b| == 64 && Nibbles(b) && Eval(b, 4) == Val(s)
  {
    hide *;
    var digits := new int[64];
    Window4(digits, s);
    b := digits[..];
    NibblesIf(b);
  }

  /** ge25519_scalarmult_base_niels: limbs that show exactly s * base for every scalar below 2^255, all four of them. */
  method ScalarMultBase<G(!new)>(g: Group<G>, at: G -> Affine, table: seq<seq<int>>, s: seq<int>, ghost base: G) returns (r: Extended)
    requires Curve(g, at) && CombTable(g, at, table, base)
    requires Limbs(s, 0x10000) && Val(s) < Pow2(255)
    ensures ShowsFully(r, at(Times(g, Val(s), base)))
  {
    assert |s| == 9;
    hide *;
    var b := Digits16(s);
    ParityAll(b);
    r := CombDigits(g, at, table, b, base);
  }

  /** The odd digits, times 16, and the even ones. */
  method CombDigits<G(!new)>(g: Group<G>, at: G -> Affine, table: seq<seq<int>>, b: seq<int>, ghost base: G) returns (r: Extended)
    requires Curve(g, at) && CombTable(g, at, table, base)
    requires |b| == 64 && Nibbles(b)
    ensures ShowsFully(r, at(Times(g, 16 * Parity(b, 32, 1) + Parity(b, 32, 0), base)))
  {
    hide *;
    r := OddDigits(g, at, table, b, base);
    FullyShown(r, at(Times(g, Parity(b, 32, 1), base)));
    r := Times16(g, at, r, Parity(b, 32, 1), base);
    r := EvenDigits(g, at, table, b, r, base);
  }

  lemma ParityAll(b: seq<int>)
    requires |b| == 64
    ensures Eval(b, 4) == Parity(b, 32, 0) + 16 * Parity(b, 32, 1)
  {
    hide *;
    ParitySplit(b, 32);
    assert b[..2 * 32] == b;
  }

  method OddDigits<G(!new)>(g: Group<G>, at: G -> Affine, table: seq<seq<int>>, b: seq<int>, ghost base: G) returns (r: Extended)
    requires Curve(g, at) && CombTable(g, at, table, base)
    requires |b| == 64 && Nibbles(b)
    ensures ShowsFully(r, at(Times(g, Parity(b, 32, 1), base)))
  {
    hide *;
    FirstParity(b);
    NibbleAt(b, 1);
    var t := ChooseNiels(g, at, table, 0, b[1], base);
    r := LoadNiels(t, at(Times(g, Parity(b, 1, 1), base)));
    var i := 3;
    ghost var n := 1;
    while i < 64
      invariant 3 <= i <= 65 && i == 2 * n + 1
      invariant ShowsFully(r, at(Times(g, Parity(b, n, 1), base)))
    {
      r := AddOfParity(g, at, table, b, i, 1, n, 0, r, base);
      i, n := i + 2, n + 1;
    }
  }

  /** One turn of either loop: the next digit of its parity, on top of `acc` from before. */
  method AddOfParity<G(!new)>(g: Group<G>, at: G -> Affine, table: seq<seq<int>>, b: seq<int>, i: int, ghost odd: nat, ghost n: nat,
                              ghost acc: int, r: Extended, ghost base: G)
      returns (r': Extended)
    requires Curve(g, at) && CombTable(g, at, table, base)
    requires |b| == 64 && odd <= 1 && 0 < n < 32 && i == 2 * n + odd && Nibbles(b)
    requires ShowsFully(r, at(Times(g, acc + Parity(b, n, odd), base)))
    ensures ShowsFully(r', at(Times(g, acc + Parity(b, n + 1, odd), base)))
  {
    hide *;
    ParityOf(b, n, odd, i);
    NibbleAt(b, i);
    r' := AddDigit(g, at, table, b[i], i / 2, r, acc + Parity(b, n, odd), base);
  }

  lemma ParityOf(b: seq<int>, n: nat, odd: nat, i: int)
    requires |b| == 64 && odd <= 1 && n < 32 && i == 2 * n + odd
    ensures i / 2 == n && Parity(b, n + 1, odd) == Parity(b, n, odd) + b[i] * Pow2(8 * (i / 2))
  {
  }

  method LoadNiels(t: Niels, ghost a: Affine) returns (r: Extended)
    requires Unpacked(t, a, true)
    ensures ShowsFully(r, a)
  {
    hide Fe.Tight, Is, Same;
    r := LoadComb(t.xaddy, t.ysubx, t.t2d, a);
  }

  /** Three partial doublings and a full one. */
  method Times16<G(!new)>(g: Group<G>, at: G -> Affine, r: Extended, ghost a: int, ghost base: G) returns (r': Extended)
    requires Curve(g, at) && Shows(r, at(Times(g, a, base)))
    ensures ShowsFully(r', at(Times(g, 16 * a, base)))
  {
    hide *;
    CurveFacts(g, at, base, base);
    TimesAdd(g, a, a, base);
    TimesAdd(g, 2 * a, 2 * a, base);
    TimesAdd(g, 4 * a, 4 * a, base);
    TimesAdd(g, 8 * a, 8 * a, base);
    var t := Double(g, at, r, Times(g, a, base));
    r' := ToPartial(t, at(Times(g, 2 * a, base)));
    t := Double(g, at, r', Times(g, 2 * a, base));
    r' := ToPartial(t, at(Times(g, 4 * a, base)));
    t := Double(g, at, r', Times(g, 4 * a, base));
    r' := ToPartial(t, at(Times(g, 8 * a, base)));
    t := Double(g, at, r', Times(g, 8 * a, base));
    r' := ToFull(t, at(Times(g, 16 * a, base)));
  }

  /** Adds the digit at i with its weight 256^(i/2). */
  method AddDigit<G(!new)>(g: Group<G>, at: G -> Affine, table: seq<seq<int>>, d: int, pos: nat, r: Extended, ghost acc: int, ghost base: G)
      returns (r': Extended)
    requires Curve(g, at) && CombTable(g, at, table, base)
    requires 0 < pos < 32 && -8 <= d <= 8 && ShowsFully(r, at(Times(g, acc, base)))
    ensures ShowsFully(r', at(Times(g, acc + d * Pow2(8 * pos), base)))
  {
    hide *;
    ghost var w := Times(g, d * Pow2(8 * pos), base);
    var t := ChooseNiels(g, at, table, pos, d, base);
    CurveFacts(g, at, Times(g, acc, base), w);
    TimesAdd(g, acc, d * Pow2(8 * pos), base);
    ReadyToAdd(t, at(w));
    r' := NielsAdd2(r, t, at(Times(g, acc, base)), at(w), at(Times(g, acc + d * Pow2(8 * pos), base)));
  }

  lemma ReadyToAdd(t: Niels, a: Affine)
    requires Unpacked(t, a, false)
    ensures Precomputed(t, a, 1)
  {
    hide Fe.Tight, Is, Same, Invertible;
    SmallUnits();
    assert (a.x * a.y) * 1 == a.x * a.y;
  }

  lemma LowestWeight(d: int)
    ensures d * Pow2(8 * 0) == d
  {
  }

  /** Adds the lowest digit, whose table row needs the factor d first. */
  method AddFirst<G(!new)>(g: Group<G>, at: G -> Affine, table: seq<seq<int>>, d: int, r: Extended, ghost acc: int, ghost base: G)
      returns (r': Extended)
    requires Curve(g, at) && CombTable(g, at, table, base)
    requires -8 <= d <= 8 && ShowsFully(r, at(Times(g, acc, base)))
    ensures ShowsFully(r', at(Times(g, acc + d, base)))
  {
    hide *;
    LowestWeight(d);
    ghost var w := Times(g, d, base);
    var t := ChooseNiels(g, at, table, 0, d, base);
    CurveFacts(g, at, Times(g, acc, base), w);
    TimesAdd(g, acc, d, base);
    var q := ScaledNiels(t, at(w));
    r' := NielsAdd2(r, q, at(Times(g, acc, base)), at(w), at(Times(g, acc + d, base)));
  }

  method ScaledNiels(t: Niels, ghost a: Affine) returns (q: Niels)
    requires Unpacked(t, a, true)
    ensures Precomputed(q, a, 1)
  {
    hide Fe.Tight, Is, Same;
    q := ScaleByD(t.ysubx, t.xaddy, t.t2d, a);
  }

  method EvenDigits<G(!new)>(g: Group<G>, at: G -> Affine, table: seq<seq<int>>, b: seq<int>, r0: Extended, ghost base: G) returns (r: Extended)
    requires Curve(g, at) && CombTable(g, at, table, base)
    requires |b| == 64 && Nibbles(b)
    requires ShowsFully(r0, at(Times(g, 16 * Parity(b, 32, 1), base)))
    ensures ShowsFully(r, at(Times(g, 16 * Parity(b, 32, 1) + Parity(b, 32, 0), base)))
  {
    hide *;
    FirstParity(b);
    NibbleAt(b, 0);
    ghost var odd := 16 * Parity(b, 32, 1);
    r := AddFirst(g, at, table, b[0], r0, odd, base);
    var i := 2;
    ghost var n := 1;
    while i < 64
      invariant 2 <= i <= 64 && i == 2 * n
      invariant ShowsFully(r, at(Times(g, odd + Parity(b, n, 0), base)))
    {
      r := AddOfParity(g, at, table, b, i, 0, n, odd, r, base);
      i, n := i + 2, n + 1;
    }
  }
}
