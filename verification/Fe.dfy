/** The field modulo p = 2^255 - 19 in ten unsigned limbs of alternately 26 and 25 bits
    (ed25519-donna/curve25519-donna-32bit.h): the representation, its operand shapes, the additions,
    subtractions and the conditional swap. */
module Fe {
  import opened Bits
  import opened FieldModulus

  /** The integer that ten limbs stand for. */
  function Val(s: seq<int>): int
    requires |s| == 10
  {
    s[0] + 0x4000000 * s[1] + 0x8000000000000 * s[2] + 0x20000000000000000000 * s[3] + 0x40000000000000000000000000 * s[4] + 0x100000000000000000000000000000000 * s[5] + 0x200000000000000000000000000000000000000 * s[6] + 0x800000000000000000000000000000000000000000000 * s[7] + 0x1000000000000000000000000000000000000000000000000000 * s[8] + 0x4000000000000000000000000000000000000000000000000000000000 * s[9]
  }

  /** Limbs at even positions below `even`, at odd positions below `odd`. */
  predicate Below(s: seq<int>, even: int, odd: int) {
    && |s| == 10
    && 0 <= s[0] < even && 0 <= s[2] < even && 0 <= s[4] < even && 0 <= s[6] < even && 0 <= s[8] < even
    && 0 <= s[1] < odd && 0 <= s[3] < odd && 0 <= s[5] < odd && 0 <= s[7] < odd && 0 <= s[9] < odd
  }

  /** Limbs of 26 and 25 bits with a little room: what the carrying operations return. */
  predicate Tight(s: seq<int>) {
    Below(s, 0x4002000, 0x2002000)
  }

  /** The uncarried sum of two tight elements. */
  predicate Sum(s: seq<int>) {
    Below(s, 0x8004000, 0x4004000)
  }

  /** What curve25519_sub leaves: it carries through the first four limbs only. */
  predicate Diff(s: seq<int>) {
    && Below(s, 0xc004000, 0x6004000)
    && s[0] < 0x4002000 && s[1] < 0x2002000 && s[2] < 0x4002000 && s[3] < 0x2002000
  }

  /** An operand that the additions and subtractions can hand to the multiplication. */
  predicate Operand(s: seq<int>) {
    Sum(s) || Diff(s)
  }

  predicate Loose(s: seq<int>) {
    Below(s, 0xc004000, 0x6004000)
  }

  /** `out = x; c = out >> 26; out &= reduce_mask_26` */
  method Carry26(x: int) returns (d: int, c: int)
    requires 0 <= x < 0x1_0000_0000
    ensures x == d + 0x4000000 * c && 0 <= d < 0x4000000 && 0 <= c < 0x40
  {
    var t := U32(x);
    Mask26(t);
    c := t / 0x4000000;
    d := And(t, 0x3ffffff);
  }

  /** `out = x; c = out >> 25; out &= reduce_mask_25` */
  method Carry25(x: int) returns (d: int, c: int)
    requires 0 <= x < 0x1_0000_0000
    ensures x == d + 0x2000000 * c && 0 <= d < 0x2000000 && 0 <= c < 0x80
  {
    var t := U32(x);
    Mask25(t);
    c := t / 0x2000000;
    d := And(t, 0x1ffffff);
  }

  lemma Mask26(t: nat)
    ensures And(t, 0x3ffffff) == t % 0x4000000
  {
    Pow2Literals();
    var k, mask := 26, 0x3ffffff;
    AndMask(t, k, mask);
  }

  lemma Mask25(t: nat)
    ensures And(t, 0x1ffffff) == t % 0x2000000
  {
    Pow2Literals();
    var k, mask := 25, 0x1ffffff;
    AndMask(t, k, mask);
  }

  method Store(out: array<int>, s: seq<int>)
    requires out.Length == |s| == 10
    modifies out
    ensures out[..] == s
  {
    out[0], out[1], out[2], out[3], out[4] := s[0], s[1], s[2], s[3], s[4];
    out[5], out[6], out[7], out[8], out[9] := s[5], s[6], s[7], s[8], s[9];
  }

  /** `a + b` in a 32-bit word. */
  method AddLimb(a: int, b: int) returns (d: int)
    requires 0 <= a < 0x10000000 && 0 <= b < 0x10000000
    ensures d == a + b
  {
    d := U32(a + b);
  }

  /** `multiple + a - b` in a 32-bit word, the multiple being a limb of 2p or 4p. */
  method SubLimb(multiple: int, a: int, b: int) returns (d: int)
    requires 0 <= a < 0x10000000 && 0 <= b <= multiple < 0x10000000
    ensures d == multiple + a - b
  {
    d := U32(multiple + a - b);
  }

  method AddLimbs(a: seq<int>, b: seq<int>) returns (s: seq<int>)
    requires Loose(a) && Loose(b)
    ensures |s| == 10 && forall i :: 0 <= i < 10 ==> s[i] == a[i] + b[i]
  {
    var s0 := AddLimb(a[0], b[0]);
    var s1 := AddLimb(a[1], b[1]);
    var s2 := AddLimb(a[2], b[2]);
    var s3 := AddLimb(a[3], b[3]);
    var s4 := AddLimb(a[4], b[4]);
    var s5 := AddLimb(a[5], b[5]);
    var s6 := AddLimb(a[6], b[6]);
    var s7 := AddLimb(a[7], b[7]);
    var s8 := AddLimb(a[8], b[8]);
    var s9 := AddLimb(a[9], b[9]);
    s := [s0, s1, s2, s3, s4, s5, s6, s7, s8, s9];
  }

  lemma AddVal(s: seq<int>, a: seq<int>, b: seq<int>)
    requires |s| == |a| == |b| == 10 && forall i :: 0 <= i < 10 ==> s[i] == a[i] + b[i]
    ensures Val(s) == Val(a) + Val(b)
  {
  }

  lemma SumShape(s: seq<int>, a: seq<int>, b: seq<int>)
    requires |s| == 10 && Tight(a) && Tight(b) && forall i :: 0 <= i < 10 ==> s[i] == a[i] + b[i]
    ensures Sum(s)
  {
  }

  lemma TightLength(s: seq<int>)
    requires Tight(s)
    ensures |s| == 10
  {
  }

  lemma TightIsLoose(s: seq<int>)
    requires Tight(s)
    ensures Loose(s) && Sum(s)
  {
  }

  method SumLimbs(a: seq<int>, b: seq<int>) returns (s: seq<int>)
    requires Tight(a) && Tight(b)
    ensures Sum(s) && Val(s) == Val(a) + Val(b)
  {
    TightIsLoose(a);
    TightIsLoose(b);
    hide Val, Below;
    s := AddLimbs(a, b);
    AddVal(s, a, b);
    SumShape(s, a, b);
  }

  /** curve25519_add: no carry at all.  As everywhere below, out may be a or b. */
  method Add(out: array<int>, a: array<int>, b: array<int>)
    requires out.Length == 10 && Tight(a[..]) && Tight(b[..])
    modifies out
    ensures Sum(out[..]) && Val(out[..]) == old(Val(a[..]) + Val(b[..]))
  {
    var s := SumLimbs(a[..], b[..]);
    Store(out, s);
  }

  /** The full carry chain over ten sums. */
  method CarryPass(x: seq<int>) returns (d: seq<int>, c: int)
    requires |x| == 10 && forall i :: 0 <= i < 10 ==> 0 <= x[i] < 0x30000000
    ensures Below(d, 0x4000000, 0x2000000) && 0 <= c < 0x80 && Val(x) == Val(d) + 0x8000000000000000000000000000000000000000000000000000000000000000 * c
  {
    var d0, c0 := Carry26(x[0]);
    var d1, c1 := Carry25(x[1] + c0);
    var d2, c2 := Carry26(x[2] + c1);
    var d3, c3 := Carry25(x[3] + c2);
    var d4, c4 := Carry26(x[4] + c3);
    var d5, c5 := Carry25(x[5] + c4);
    var d6, c6 := Carry26(x[6] + c5);
    var d7, c7 := Carry25(x[7] + c6);
    var d8, c8 := Carry26(x[8] + c7);
    var d9, c9 := Carry25(x[9] + c8);
    d, c := [d0, d1, d2, d3, d4, d5, d6, d7, d8, d9], c9;
  }

  lemma AddToFirst(d: seq<int>, v: int)
    requires Below(d, 0x4000000, 0x2000000) && 0 <= v < 0x1000
    ensures Tight(d[0 := d[0] + v]) && Val(d[0 := d[0] + v]) == Val(d) + v
  {
  }

  /** ... and the carry out of the top limb comes back times 19: `out[0] += 19 * c`. */
  method CarryAll(x: seq<int>) returns (s: seq<int>)
    requires |x| == 10 && forall i :: 0 <= i < 10 ==> 0 <= x[i] < 0x30000000
    ensures Tight(s) && Same(Val(s), Val(x))
  {
    var d, c := CarryPass(x);
    AddToFirst(d, 19 * c);
    s := d[0 := U32(d[0] + 19 * c)];
    hide Val;
    SameBy(Val(s), Val(x), -c);
  }

  /** Sums and differences of loose elements are small enough for the chain. */
  lemma ChainInput(s: seq<int>, a: seq<int>, b: seq<int>)
    requires |s| == 10 && Loose(a) && Loose(b)
    requires (forall i :: 0 <= i < 10 ==> s[i] == a[i] + b[i]) || (forall i :: 0 <= i < 10 ==> s[i] == FOUR_P[i] + a[i] - b[i])
    ensures forall i :: 0 <= i < 10 ==> 0 <= s[i] < 0x30000000
  {
    assert LimbAt(s, 0) && LimbAt(s, 1) && LimbAt(s, 2) && LimbAt(s, 3) && LimbAt(s, 4);
    assert LimbAt(s, 5) && LimbAt(s, 6) && LimbAt(s, 7) && LimbAt(s, 8) && LimbAt(s, 9);
  }

  predicate LimbAt(s: seq<int>, i: int)
    requires |s| == 10 && 0 <= i < 10
  {
    0 <= s[i] < 0x30000000
  }

  method ReducedSum(a: seq<int>, b: seq<int>) returns (s: seq<int>)
    requires Loose(a) && Loose(b)
    ensures Tight(s) && Same(Val(s), Val(a) + Val(b))
  {
    assert |a| == |b| == 10;
    hide Val, Below;
    var t := AddLimbs(a, b);
    AddVal(t, a, b);
    ChainInput(t, a, b);
    s := CarryAll(t);
  }

  /** curve25519_add_after_basic and curve25519_add_reduce, which are the same code. */
  method AddReduce(out: array<int>, a: array<int>, b: array<int>)
    requires out.Length == 10 && Loose(a[..]) && Loose(b[..])
    modifies out
    ensures Tight(out[..]) && Same(Val(out[..]), old(Val(a[..]) + Val(b[..])))
  {
    var s := ReducedSum(a[..], b[..]);
    Store(out, s);
  }

  /** twoP0, twoP13579, twoP2468 and fourP0, fourP13579, fourP2468 */
  const TWO_P: seq<int> := [0x7ffffda, 0x3fffffe, 0x7fffffe, 0x3fffffe, 0x7fffffe, 0x3fffffe, 0x7fffffe, 0x3fffffe, 0x7fffffe, 0x3fffffe]
  const FOUR_P: seq<int> := [0xfffffb4, 0x7fffffc, 0xffffffc, 0x7fffffc, 0xffffffc, 0x7fffffc, 0xffffffc, 0x7fffffc, 0xffffffc, 0x7fffffc]

  lemma Multiples()
    ensures Val(TWO_P) == 2 * P && Val(FOUR_P) == 4 * P
  {
  }

  lemma SubVal(s: seq<int>, m: seq<int>, a: seq<int>, b: seq<int>)
    requires |s| == |m| == |a| == |b| == 10 && forall i :: 0 <= i < 10 ==> s[i] == m[i] + a[i] - b[i]
    ensures Val(s) == Val(m) + Val(a) - Val(b)
  {
  }

  method SubTwoP(a: seq<int>, b: seq<int>) returns (s: seq<int>)
    requires Tight(a) && Tight(b)
    ensures |s| == 10 && forall i :: 0 <= i < 10 ==> s[i] == TWO_P[i] + a[i] - b[i]
  {
    var s0 := SubLimb(TWO_P[0], a[0], b[0]);
    var s1 := SubLimb(TWO_P[1], a[1], b[1]);
    var s2 := SubLimb(TWO_P[2], a[2], b[2]);
    var s3 := SubLimb(TWO_P[3], a[3], b[3]);
    var s4 := SubLimb(TWO_P[4], a[4], b[4]);
    var s5 := SubLimb(TWO_P[5], a[5], b[5]);
    var s6 := SubLimb(TWO_P[6], a[6], b[6]);
    var s7 := SubLimb(TWO_P[7], a[7], b[7]);
    var s8 := SubLimb(TWO_P[8], a[8], b[8]);
    var s9 := SubLimb(TWO_P[9], a[9], b[9]);
    s := [s0, s1, s2, s3, s4, s5, s6, s7, s8, s9];
  }

  /** `c = out[i] >> ...; out[i] &= ...` through the first four limbs. */
  method CarryFour(x: seq<int>) returns (s: seq<int>)
    requires Below(x, 0xc003000, 0x6003000)
    ensures Diff(s) && Val(s) == Val(x)
  {
    var d0, c0 := Carry26(x[0]);
    var d1, c1 := Carry25(x[1] + c0);
    var d2, c2 := Carry26(x[2] + c1);
    var d3, c3 := Carry25(x[3] + c2);
    var d4 := U32(x[4] + c3);
    s := [d0, d1, d2, d3, d4, x[5], x[6], x[7], x[8], x[9]];
  }

  lemma DiffInput(s: seq<int>, a: seq<int>, b: seq<int>)
    requires |s| == 10 && Tight(a) && Tight(b) && forall i :: 0 <= i < 10 ==> s[i] == TWO_P[i] + a[i] - b[i]
    ensures Below(s, 0xc003000, 0x6003000)
  {
  }

  method DiffLimbs(a: seq<int>, b: seq<int>) returns (s: seq<int>)
    requires Tight(a) && Tight(b)
    ensures Diff(s) && Val(s) == Val(a) - Val(b) + 2 * P
  {
    assert |a| == |b| == 10;
    hide Val, Below;
    var t := SubTwoP(a, b);
    SubVal(t, TWO_P, a, b);
    Multiples();
    DiffInput(t, a, b);
    s := CarryFour(t);
  }

  /** curve25519_sub: carries through limb 3 only. */
  method Sub(out: array<int>, a: array<int>, b: array<int>)
    requires out.Length == 10 && Tight(a[..]) && Tight(b[..])
    modifies out
    ensures Diff(out[..]) && Val(out[..]) == old(Val(a[..]) - Val(b[..])) + 2 * P
  {
    var s := DiffLimbs(a[..], b[..]);
    Store(out, s);
  }

  method SubFourP(a: seq<int>, b: seq<int>) returns (s: seq<int>)
    requires Loose(a) && Loose(b)
    ensures |s| == 10 && forall i :: 0 <= i < 10 ==> s[i] == FOUR_P[i] + a[i] - b[i]
  {
    var s0 := SubLimb(FOUR_P[0], a[0], b[0]);
    var s1 := SubLimb(FOUR_P[1], a[1], b[1]);
    var s2 := SubLimb(FOUR_P[2], a[2], b[2]);
    var s3 := SubLimb(FOUR_P[3], a[3], b[3]);
    var s4 := SubLimb(FOUR_P[4], a[4], b[4]);
    var s5 := SubLimb(FOUR_P[5], a[5], b[5]);
    var s6 := SubLimb(FOUR_P[6], a[6], b[6]);
    var s7 := SubLimb(FOUR_P[7], a[7], b[7]);
    var s8 := SubLimb(FOUR_P[8], a[8], b[8]);
    var s9 := SubLimb(FOUR_P[9], a[9], b[9]);
    s := [s0, s1, s2, s3, s4, s5, s6, s7, s8, s9];
  }

  method ReducedDiff(a: seq<int>, b: seq<int>) returns (s: seq<int>)
    requires Loose(a) && Loose(b)
    ensures Tight(s) && Same(Val(s), Val(a) - Val(b))
  {
    assert |a| == |b| == 10;
    hide Val, Below, Same;
    var t := SubFourP(a, b);
    SubVal(t, FOUR_P, a, b);
    Multiples();
    ChainInput(t, a, b);
    SameBy(Val(t), Val(a) - Val(b), 4);
    s := CarryAll(t);
    assert |s| == 10 by { TightLength(s); }
    SameTrans(Val(s), Val(t), Val(a) - Val(b));
  }

  /** curve25519_sub_after_basic and curve25519_sub_reduce, which are the same code. */
  method SubReduce(out: array<int>, a: array<int>, b: array<int>)
    requires out.Length == 10 && Loose(a[..]) && Loose(b[..])
    modifies out
    ensures Tight(out[..]) && Same(Val(out[..]), old(Val(a[..]) - Val(b[..])))
  {
    var s := ReducedDiff(a[..], b[..]);
    Store(out, s);
  }

  /** curve25519_neg. */
  method Neg(out: array<int>, a: array<int>)
    requires out.Length == 10 && Tight(a[..])
    modifies out
    ensures Tight(out[..]) && Same(Val(out[..]), old(-Val(a[..])))
  {
    assert |a[..]| == 10;
    ghost var zero := [0, 0, 0, 0, 0, 0, 0, 0, 0, 0];
    assert Tight(zero) && Val(zero) == 0;
    hide Val, Below;
    var t := SubTwoP([0, 0, 0, 0, 0, 0, 0, 0, 0, 0], a[..]);
    SubVal(t, TWO_P, zero, a[..]);
    Multiples();
    DiffInput(t, zero, a[..]);
    NegInput(t);
    SameBy(Val(t), -Val(a[..]), 2);
    var s := CarryAll(t);
    Store(out, s);
  }

  lemma NegInput(s: seq<int>)
    requires Below(s, 0xc003000, 0x6003000)
    ensures forall i :: 0 <= i < 10 ==> 0 <= s[i] < 0x30000000
  {
    assert LimbAt(s, 0) && LimbAt(s, 1) && LimbAt(s, 2) && LimbAt(s, 3) && LimbAt(s, 4);
    assert LimbAt(s, 5) && LimbAt(s, 6) && LimbAt(s, 7) && LimbAt(s, 8) && LimbAt(s, 9);
  }

  // ---- curve25519_swap_conditional

  /** `x = swap & (a ^ b); a ^= x; b ^= x` */
  method SwapLimb(swap: int, a: int, b: int) returns (a': int, b': int)
    requires swap == 0 || swap == 0xffff_ffff
    requires 0 <= a < 0x1_0000_0000 && 0 <= b < 0x1_0000_0000
    ensures (a', b') == if swap == 0 then (a, b) else (b, a)
  {
    Select(swap, a, b);
    XorCommutes(a, b);
    Select(swap, b, a);
    var x := And(swap, Xor(a, b));
    a', b' := Xor(a, x), Xor(b, x);
  }

  /** curve25519_swap_conditional: exchanges the two numbers when iswap is 1, without a branch. */
  method SwapConditional(a: array<int>, b: array<int>, iswap: int)
    requires a != b && Below(a[..], 0x1_0000_0000, 0x1_0000_0000) && Below(b[..], 0x1_0000_0000, 0x1_0000_0000)
    requires 0 <= iswap <= 1
    modifies a, b
    ensures a[..] == if iswap == 1 then old(b[..]) else old(a[..])
    ensures b[..] == if iswap == 1 then old(a[..]) else old(b[..])
  {
    ghost var x, y := a[..], b[..];
    var swap := U32(-iswap);
    var a0, b0 := SwapLimb(swap, a[0], b[0]);
    var a1, b1 := SwapLimb(swap, a[1], b[1]);
    var a2, b2 := SwapLimb(swap, a[2], b[2]);
    var a3, b3 := SwapLimb(swap, a[3], b[3]);
    var a4, b4 := SwapLimb(swap, a[4], b[4]);
    var a5, b5 := SwapLimb(swap, a[5], b[5]);
    var a6, b6 := SwapLimb(swap, a[6], b[6]);
    var a7, b7 := SwapLimb(swap, a[7], b[7]);
    var a8, b8 := SwapLimb(swap, a[8], b[8]);
    var a9, b9 := SwapLimb(swap, a[9], b[9]);
    Store(a, [a0, a1, a2, a3, a4, a5, a6, a7, a8, a9]);
    Store(b, [b0, b1, b2, b3, b4, b5, b6, b7, b8, b9]);
  }
}
