/** The Montgomery ladder of curve25519/curve25519-donna.c:580-642: eight buffers, masked swaps, rotating
    pointers. */
module Ladder {
  import opened Bits
  import opened FieldModulus
  import opened Fe
  import opened Donna
  import opened Montgomery

  datatype State = State(r0: Point, r1: Point)

  /** One bit of the ladder of section 5 of RFC 7748, on integers. */
  function LadderStep(s: State, bit: int, q: int): State {
    if bit == 1 then State(Added(s.r0, s.r1, q), Doubled(s.r1))
    else State(Doubled(s.r0), Added(s.r0, s.r1, q))
  }

  /** The state after the t bits of m, most significant first. */
  function Run(m: nat, t: nat, q: int): State {
    if t == 0 then State(Point(1, 0), Point(q, 1)) else LadderStep(Run(m / 2, t - 1, q), m % 2, q)
  }

  predicate SameState(s: State, t: State) {
    SamePoint(s.r0, t.r0) && SamePoint(s.r1, t.r1)
  }

  lemma StepSame(s: State, t: State, bit: int, q: int)
    requires SameState(s, t)
    ensures SameState(LadderStep(s, bit, q), LadderStep(t, bit, q))
  {
    hide FromSquares, Sq, Added, SamePoint;
    var p, r := if bit == 1 then s.r1 else s.r0, if bit == 1 then t.r1 else t.r0;
    SquaresSame(p, r);
    FromSquaresSame(Sq(p.x + p.z), Sq(p.x - p.z), Sq(r.x + r.z), Sq(r.x - r.z));
    AddedSame(s.r0, t.r0, s.r1, t.r1, q);
  }

  // ---- what the ladder computes on a curve

  /** A reading of coordinates: rep(k, p) says that p represents [k]Q.  The laws are those of doubling
      and differential addition on the curve through Q. */
  type Reading = (int, Point) -> bool

  ghost predicate Doubles(rep: Reading, k: int, p: Point) {
    rep(k, p) ==> rep(2 * k, Doubled(p))
  }

  ghost predicate Adds(rep: Reading, k: int, p: Point, r: Point, q: int) {
    rep(k, p) && rep(k + 1, r) ==> rep(2 * k + 1, Added(p, r, q))
  }

  ghost predicate Respects(rep: Reading, k: int, p: Point, r: Point) {
    rep(k, p) && SamePoint(p, r) ==> rep(k, r)
  }

  ghost predicate CurveLaw(rep: Reading, q: int) {
    && rep(0, Point(1, 0)) && rep(1, Point(q, 1))
    && (forall k, p :: k >= 0 ==> Doubles(rep, k, p))
    && (forall k, p, r :: k >= 0 ==> Adds(rep, k, p, r, q))
    && (forall k, p, r :: Respects(rep, k, p, r))
  }

  /** After the bits of m the two points are [m]Q and [m + 1]Q. */
  lemma {:induction false} RunMeans(rep: Reading, m: nat, t: nat, q: int)
    requires CurveLaw(rep, q) && m < Pow2(t)
    ensures rep(m, Run(m, t, q).r0) && rep(m + 1, Run(m, t, q).r1)
    decreases t
  {
    if t > 0 {
      var k := m / 2;
      RunMeans(rep, k, t - 1, q);
      var s := Run(k, t - 1, q);
      assert Doubles(rep, k, s.r0) && Doubles(rep, k + 1, s.r1) && Adds(rep, k, s.r0, s.r1, q);
    }
  }

  // ---- buffers

  /** A limb of the second operand of an XOR swap: `x = swap & (a ^ b); a ^= x; b ^= x` in s32. */
  method SwapWord(swap: int, a: int, b: int) returns (a': int, b': int)
    requires swap == 0 || swap == 0xffff_ffff
    requires -0x8000_0000 <= a < 0x8000_0000 && -0x8000_0000 <= b < 0x8000_0000
    ensures a' == (if swap == 0 then a else b) && b' == if swap == 0 then b else a
  {
    Select(swap, U32(a), U32(b));
    XorCommutes(U32(a), U32(b));
    Select(swap, U32(b), U32(a));
    var x := And(swap, Xor(U32(a), U32(b)));
    hide And, Xor;
    Signed(a);
    Signed(b);
    a', b' := S32(Xor(U32(a), x)), S32(Xor(U32(b), x));
  }

  lemma Signed(a: int)
    requires -0x8000_0000 <= a < 0x8000_0000
    ensures S32(U32(a)) == a
  {
  }

  /** The first ten limbs fit 32 bits. */
  predicate Narrow(s: seq<int>) {
    |s| == 10 && forall k :: 0 <= k < 10 ==> -0x8000_0000 <= s[k] < 0x8000_0000
  }

  /** swap_conditional */
  method SwapConditional(a: array<int>, b: array<int>, iswap: int)
    requires a != b && a.Length == b.Length == 19 && 0 <= iswap <= 1 && Narrow(a[..10]) && Narrow(b[..10])
    modifies a, b
    ensures a[..10] == old(if iswap == 1 then b[..10] else a[..10])
    ensures b[..10] == old(if iswap == 1 then a[..10] else b[..10])
  {
    ghost var x, y := a[..10], b[..10];
    var swap := U32(-iswap);
    for i := 0 to 10
      invariant forall k :: 0 <= k < i ==> a[k] == (if iswap == 1 then y else x)[k] && b[k] == (if iswap == 1 then x else y)[k]
      invariant forall k :: i <= k < 10 ==> a[k] == x[k] && b[k] == y[k]
    {
      assert a[i] == x[i] && b[i] == y[i];
      var u, v := SwapWord(swap, a[i], b[i]);
      a[i], b[i] := u, v;
    }
    assert a[..10] == if iswap == 1 then y else x;
    assert b[..10] == if iswap == 1 then x else y;
  }

  /** `memcpy(a, s, sizeof(limb) * 10)` */
  method Store(a: array<int>, s: seq<int>)
    requires a.Length == 19 && |s| == 10
    modifies a
    ensures a[..10] == s
  {
    for i := 0 to 10
      invariant a[..i] == s[..i]
    {
      a[i] := s[i];
    }
  }

  lemma CoordinatesNarrow(x: seq<int>, z: seq<int>)
    requires Coordinates(x, z)
    ensures Narrow(x) && Narrow(z)
  {
    forall k | 0 <= k < 10
      ensures -0x8000_0000 <= x[k] < 0x8000_0000 && -0x8000_0000 <= z[k] < 0x8000_0000
    {
      assert k == 0 || k == 1 || k == 2 || k == 3 || k == 4 || k == 5 || k == 6 || k == 7 || k == 8 || k == 9;
    }
  }

  predicate Different(s: seq<array<int>>) {
    && |s| == 8 && (forall i :: 0 <= i < 8 ==> s[i].Length == 19)
    && s[0] !in s[1..] && s[1] !in s[2..] && s[2] !in s[3..] && s[3] !in s[4..] && s[4] !in s[5..] && s[5] !in s[6..] && s[6] != s[7]
  }

  /** fmonty on the buffers; x, z, xp and zp are destroyed. */
  method Monty(x2: array<int>, z2: array<int>, x3: array<int>, z3: array<int>,
               x: array<int>, z: array<int>, xp: array<int>, zp: array<int>, q: seq<int>)
    requires Different([x, z, xp, zp, x2, z2, x3, z3])
    requires Coordinates(x[..10], z[..10]) && Coordinates(xp[..10], zp[..10]) && |q| == 10 && Spread(q)
    modifies x2, z2, x3, z3, x, z, xp, zp
    ensures Short(x2[..10]) && Short(z2[..10]) && Short(x3[..10]) && Short(z3[..10])
    ensures SamePoint(At(x2[..10], z2[..10]), old(Doubled(At(x[..10], z[..10]))))
    ensures SamePoint(At(x3[..10], z3[..10]), old(Added(At(x[..10], z[..10]), At(xp[..10], zp[..10]), Val(q))))
  {
    hide Spread, Val, Same, Short, Coordinates, Doubled, Added, SamePoint;
    ghost var p, p' := At(x[..10], z[..10]), At(xp[..10], zp[..10]);
    var s, d := SumAndDifference(x[..10], z[..10]);
    var sp, dp := SumAndDifference(xp[..10], zp[..10]);
    Store(x, s);
    Store(z, d);
    Store(xp, sp);
    Store(zp, dp);
    var a, b := DifferentialAdd(s, d, sp, dp, q, p, p');
    Store(x3, a);
    Store(z3, b);
    a, b := DoublePoint(s, d, p);
    Store(x2, a);
    Store(z2, b);
  }

  /** The four coordinate buffers of the pair of points; the loop has two such sets. */
  datatype Buffers = Buffers(nqx: array<int>, nqz: array<int>, nqpqx: array<int>, nqpqz: array<int>)

  ghost predicate Apart(a: Buffers, b: Buffers) {
    Different([a.nqx, a.nqz, a.nqpqx, a.nqpqz, b.nqx, b.nqz, b.nqpqx, b.nqpqz])
  }

  ghost function Frame(a: Buffers, b: Buffers): set<object> {
    {a.nqx, a.nqz, a.nqpqx, a.nqpqz, b.nqx, b.nqz, b.nqpqx, b.nqpqz}
  }

  /** The buffers hold the two points of the state st. */
  ghost predicate Holding(a: Buffers, st: State)
    reads a.nqx, a.nqz, a.nqpqx, a.nqpqz
  {
    && a.nqx.Length == a.nqz.Length == a.nqpqx.Length == a.nqpqz.Length == 19
    && Coordinates(a.nqx[..10], a.nqz[..10]) && Coordinates(a.nqpqx[..10], a.nqpqz[..10])
    && SameState(State(At(a.nqx[..10], a.nqz[..10]), At(a.nqpqx[..10], a.nqpqz[..10])), st)
  }

  /** One turn of the inner loop up to the pointer rotation: swap, step, swap back. */
  method BitStep(a: Buffers, b: Buffers, bit: int, q: seq<int>, ghost st: State)
    requires Apart(a, b) && Holding(a, st) && 0 <= bit <= 1 && |q| == 10 && Spread(q)
    modifies a.nqx, a.nqz, a.nqpqx, a.nqpqz, b.nqx, b.nqz, b.nqpqx, b.nqpqz
    ensures Holding(b, LadderStep(st, bit, Val(q)))
  {
    hide Spread, Val, Same, Short, Coordinates, Doubled, Added, SamePoint, Narrow;
    var nqx, nqz, nqpqx, nqpqz := a.nqx, a.nqz, a.nqpqx, a.nqpqz;
    var nqx2, nqz2, nqpqx2, nqpqz2 := b.nqx, b.nqz, b.nqpqx, b.nqpqz;
    ghost var p, r := At(nqx[..10], nqz[..10]), At(nqpqx[..10], nqpqz[..10]);
    CoordinatesNarrow(nqx[..10], nqz[..10]);
    CoordinatesNarrow(nqpqx[..10], nqpqz[..10]);
    SwapConditional(nqx, nqpqx, bit);
    SwapConditional(nqz, nqpqz, bit);
    Monty(nqx2, nqz2, nqpqx2, nqpqz2, nqx, nqz, nqpqx, nqpqz, q);
    ShortCoordinates(nqx2[..10], nqz2[..10]);
    ShortCoordinates(nqpqx2[..10], nqpqz2[..10]);
    CoordinatesNarrow(nqx2[..10], nqz2[..10]);
    CoordinatesNarrow(nqpqx2[..10], nqpqz2[..10]);
    ghost var d, s := At(nqx2[..10], nqz2[..10]), At(nqpqx2[..10], nqpqz2[..10]);
    SwapConditional(nqx2, nqpqx2, bit);
    SwapConditional(nqz2, nqpqz2, bit);
    AddedCommutes(p, r, Val(q));
    StepSame(State(p, r), st, bit, Val(q));
    SameStateTrans(if bit == 1 then State(s, d) else State(d, s), LadderStep(State(p, r), bit, Val(q)), LadderStep(st, bit, Val(q)));
  }

  lemma SameStateTrans(s: State, t: State, u: State)
    requires SameState(s, t) && SameState(t, u)
    ensures SameState(s, u)
  {
  }

  /** `const limb bit = byte >> 7; byte <<= 1`: the byte holds the remaining bits r, shifted up. */
  lemma ByteBit(byte: int, r: int, j: int)
    requires 0 <= j < 8 && 0 <= r < Pow2(8 - j) && byte == r * Pow2(j)
    ensures 0 <= byte < 0x100 && 0 <= byte / 0x80 <= 1
    ensures r == byte / 0x80 * Pow2(7 - j) + r % Pow2(7 - j)
    ensures U8(byte * 2) == (r % Pow2(7 - j)) * Pow2(j + 1)
  {
    var p, k := Pow2(7 - j), Pow2(j);
    Pow2Add(7 - j, j);
    assert Pow2(7 - j + j) == Pow2(7) == 0x80 && Pow2(8 - j) == 2 * p && Pow2(j + 1) == 2 * k;
    var a, c := r / p, r % p;
    hide Pow2;
    TopBitOf(r, p, k, byte);
  }

  lemma TopBitOf(r: int, p: int, k: int, byte: int)
    requires 0 < p && 0 < k && p * k == 0x80 && 0 <= r < 2 * p && byte == r * k
    ensures 0 <= byte < 0x100 && byte / 0x80 == r / p && 0 <= r / p <= 1 && r == r / p * p + r % p
    ensures U8(byte * 2) == (r % p) * (2 * k)
  {
    var a, c := r / p, r % p;
    QuotientAtMostOne(r, p);
    if a == 0 {
      assert byte == c * k;
    } else {
      assert byte == (p + c) * k == p * k + c * k;
    }
    MulMono(c + 1, p, k);
    MulMono(0, c, k);
    TwiceByte(byte, a, c * k);
    assert c * (2 * k) == 2 * (c * k);
  }

  lemma TwiceByte(byte: int, a: int, t: int)
    requires byte == a * 0x80 + t && 0 <= t < 0x80 && 0 <= a <= 1
    ensures 0 <= byte < 0x100 && byte / 0x80 == a && U8(byte * 2) == 2 * t
  {
  }

  lemma QuotientAtMostOne(r: int, p: int)
    requires 0 < p && 0 <= r < 2 * p
    ensures r / p == (if r < p then 0 else 1) && r == r / p * p + r % p && r % p == if r < p then r else r - p
  {
    DivModUnique(r, p, if r < p then 0 else 1, if r < p then r else r - p);
  }

  /** Reading one more bit of the scalar: prefix m of t bits, `left` bits of the byte to come. */
  lemma PrefixStep(h: int, b: int, m: int, r: int, j: int, bit: int)
    requires 0 <= j < 8 && 0 <= m && h * 0x100 + b == m * Pow2(8 - j) + r && 0 <= bit <= 1
    requires r == bit * Pow2(7 - j) + r % Pow2(7 - j)
    ensures h * 0x100 + b == (2 * m + bit) * Pow2(7 - j) + r % Pow2(7 - j)
  {
    var p := Pow2(7 - j);
    assert Pow2(8 - j) == 2 * p;
    assert (2 * m + bit) * p == m * (2 * p) + bit * p;
  }

  /** The value of the i most significant bytes. */
  function Top(n: seq<int>, i: int): int
    requires |n| == 32 && 0 <= i <= 32
  {
    LE(n[32 - i..])
  }

  lemma TopByte(n: seq<int>, i: int)
    requires |n| == 32 && Bytes(n) && 0 <= i < 32
    ensures Top(n, i + 1) == 0x100 * Top(n, i) + n[31 - i] && 0 <= n[31 - i] < 0x100
  {
    LE1(n, 31 - i);
  }

  lemma TopEnds(n: seq<int>)
    requires |n| == 32
    ensures Top(n, 0) == 0 && Top(n, 32) == LE(n)
  {
    assert n[32..] == [] && n[0..] == n;
  }

  /** The eight bits of one byte of the scalar.  The two sets of buffers change roles after each bit, so
      that after the byte they are back in place. */
  method ByteSteps(a: Buffers, b: Buffers, byte: int, q: seq<int>, ghost h: nat, ghost t: nat)
    requires |q| == 10 && Spread(q) && 0 <= byte < 0x100 && Apart(a, b) && Holding(a, Run(h, t, Val(q)))
    modifies Frame(a, b)
    ensures Holding(a, Run(h * 0x100 + byte, t + 8, Val(q)))
  {
    hide Spread, Val, Holding, LadderStep, Apart, Run;
    ghost var m: nat, r: int := h, byte;
    var cur, next := a, b;
    var shifted := byte;
    StartByte(byte);
    for j := 0 to 8
      invariant (cur, next) == if j % 2 == 0 then (a, b) else (b, a)
      invariant Apart(cur, next)
      invariant 0 <= r < Pow2(8 - j) && shifted == r * Pow2(j) && h * 0x100 + byte == m * Pow2(8 - j) + r
      invariant Holding(cur, Run(m, t + j, Val(q)))
    {
      ByteBit(shifted, r, j);
      var bit := shifted / 0x80;
      BitStep(cur, next, bit, q, Run(m, t + j, Val(q)));
      RunStep(m, t + j, bit, Val(q));
      PrefixStep(h, byte, m, r, j, bit);
      Rotated(cur, next);
      cur, next := next, cur;
      shifted := U8(shifted * 2);
      m, r := 2 * m + bit, r % Pow2(7 - j);
    }
    EndByte(h, byte, m, r);
  }

  lemma StartByte(b: int)
    requires 0 <= b < 0x100
    ensures b < Pow2(8 - 0) && b == b * Pow2(0) && Pow2(8 - 0) == 0x100
  {
    Pow2Literals();
  }

  lemma EndByte(h: int, b: int, m: int, r: int)
    requires 0 <= r < Pow2(8 - 8) && h * 0x100 + b == m * Pow2(8 - 8) + r
    ensures m == h * 0x100 + b
  {
    assert Pow2(0) == 1;
  }

  lemma RunStep(m: nat, t: nat, bit: int, q: int)
    requires 0 <= bit <= 1
    ensures Run(2 * m + bit, t + 1, q) == LadderStep(Run(m, t, q), bit, q)
  {
    assert (2 * m + bit) / 2 == m && (2 * m + bit) % 2 == bit;
  }

  lemma Rotated(a: Buffers, b: Buffers)
    requires Apart(a, b)
    ensures Apart(b, a)
  {
    var s := [a.nqx, a.nqz, a.nqpqx, a.nqpqz, b.nqx, b.nqz, b.nqpqx, b.nqpqz];
    assert s[0] == a.nqx && s[1] == a.nqz && s[2] == a.nqpqx && s[3] == a.nqpqz;
    assert s[4] == b.nqx && s[5] == b.nqz && s[6] == b.nqpqx && s[7] == b.nqpqz;
  }

  /** `limb a[19] = {v}` */
  method Buffer(v: int) returns (a: array<int>)
    ensures fresh(a) && a.Length == 19 && a[..10] == [v, 0, 0, 0, 0, 0, 0, 0, 0, 0]
  {
    a := new int[19](i => if i == 0 then v else 0);
  }

  /** Four buffers of their own, with the values in the order of `Buffers`. */
  method BufferSet(nqx: int, nqz: int, nqpqx: int, nqpqz: int) returns (a: Buffers)
    ensures fresh(a.nqx) && fresh(a.nqz) && fresh(a.nqpqx) && fresh(a.nqpqz)
    ensures a.nqx != a.nqz && a.nqx != a.nqpqx && a.nqx != a.nqpqz && a.nqz != a.nqpqx && a.nqz != a.nqpqz && a.nqpqx != a.nqpqz
    ensures a.nqx.Length == a.nqz.Length == a.nqpqx.Length == a.nqpqz.Length == 19
    ensures a.nqx[..10] == [nqx, 0, 0, 0, 0, 0, 0, 0, 0, 0] && a.nqz[..10] == [nqz, 0, 0, 0, 0, 0, 0, 0, 0, 0]
    ensures a.nqpqz[..10] == [nqpqz, 0, 0, 0, 0, 0, 0, 0, 0, 0]
  {
    var x := Buffer(nqx);
    var z := Buffer(nqz);
    var x' := Buffer(nqpqx);
    var z' := Buffer(nqpqz);
    a := Buffers(x, z, x', z');
  }

  /** The two sets of buffers as cmult initialises them. */
  method NewBuffers(q: seq<int>) returns (a: Buffers, b: Buffers)
    requires Fresh(q)
    ensures |q| == 10 && Apart(a, b) && Holding(a, Run(0, 0, Val(q)))
    ensures fresh(a.nqx) && fresh(a.nqz) && fresh(a.nqpqx) && fresh(a.nqpqz)
    ensures fresh(b.nqx) && fresh(b.nqz) && fresh(b.nqpqx) && fresh(b.nqpqz)
  {
    assert |q| == 10;
    hide Coordinates, SameState, Fresh, Val, Run, At;
    a := BufferSet(1, 0, 0, 1);
    b := BufferSet(0, 1, 0, 1);
    Store(a.nqpqx, q);
    StartState(a.nqx[..10], a.nqz[..10], q, a.nqpqz[..10]);
  }

  /** The loop of cmult over the bytes, most significant first. */
  method AllBytes(a: Buffers, b: Buffers, n: seq<int>, q: seq<int>) returns (ghost v: nat)
    requires |n| == 32 && Bytes(n) && |q| == 10 && Spread(q) && Apart(a, b) && Holding(a, Run(0, 0, Val(q)))
    modifies Frame(a, b)
    ensures v == LE(n) && Holding(a, Run(v, 256, Val(q)))
  {
    TopEnds(n);
    hide *;
    v := 0;
    ghost var t: nat := 0;
    for i := 0 to 32
      invariant t == 8 * i && v == Top(n, i) && Holding(a, Run(v, t, Val(q)))
    {
      TopByte(n, i);
      var byte := n[31 - i];
      ghost var h, bits := v, t;
      v, t := h * 0x100 + byte, bits + 8;
      ByteSteps(a, b, byte, q, h, bits);
    }
  }

  /** cmult: the ladder over all 256 bits of n. */
  method Multiply(n: seq<int>, q: seq<int>) returns (x: seq<int>, z: seq<int>)
    requires |n| == 32 && Bytes(n) && Fresh(q)
    ensures |q| == |x| == |z| == 10 && Coordinates(x, z) && 0 <= LE(n)
    ensures SamePoint(At(x, z), Run(LE(n), 256, Val(q)).r0)
  {
    FreshIsSpread(q);
    hide Spread, Val, Holding, Fresh, LE, Apart, Run, Coordinates, At, SamePoint;
    var a, b := NewBuffers(q);
    var v := AllBytes(a, b, n, q);
    HeldFirst(a, Run(v, 256, Val(q)));
    x, z := a.nqx[..10], a.nqz[..10];
  }

  lemma HeldFirst(a: Buffers, st: State)
    requires Holding(a, st)
    ensures a.nqx.Length == a.nqz.Length == 19 && Coordinates(a.nqx[..10], a.nqz[..10])
    ensures SamePoint(At(a.nqx[..10], a.nqz[..10]), st.r0)
  {
  }

  lemma FreshIsSpread(q: seq<int>)
    requires Fresh(q)
    ensures Spread(q)
  {
  }

  lemma StartState(x: seq<int>, z: seq<int>, q: seq<int>, one: seq<int>)
    requires x == ONE && one == ONE && z == [0, 0, 0, 0, 0, 0, 0, 0, 0, 0] && Fresh(q)
    ensures Coordinates(x, z) && Coordinates(q, one)
    ensures SameState(State(At(x, z), At(q, one)), Run(0, 0, Val(q)))
  {
  }
}
