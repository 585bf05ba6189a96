/** The field arithmetic of curve25519/curve25519-donna.c: ten signed 64-bit limbs of alternately 26 and
    25 bits.  The columns and the value are those of the unsigned representation. */
module Donna {
  import opened Bits
  import opened FieldModulus
  import opened Fe
  import opened FeMul

  /** int64_t */
  function S64(x: int): (r: int)
    ensures -0x8000_0000_0000_0000 <= x < 0x8000_0000_0000_0000 ==> r == x
  {
    (x + 0x8000_0000_0000_0000) % 0x1_0000_0000_0000_0000 - 0x8000_0000_0000_0000
  }

  /** `(s32) x` */
  function S32(x: int): (r: int)
    ensures -0x8000_0000 <= x < 0x8000_0000 ==> r == x
  {
    (x + 0x8000_0000) % 0x1_0000_0000 - 0x8000_0000
  }

  /** |limb| <= even at even positions and <= odd at odd ones. */
  predicate Within(s: seq<int>, even: int, odd: int) {
    && |s| == 10
    && -even <= s[0] <= even && -odd <= s[1] <= odd && -even <= s[2] <= even && -odd <= s[3] <= odd
    && -even <= s[4] <= even && -odd <= s[5] <= odd && -even <= s[6] <= even && -odd <= s[7] <= odd
    && -even <= s[8] <= even && -odd <= s[9] <= odd
  }

  /** What freduce_coefficients leaves: limb 2 may be 2^26 in size. */
  predicate Short(s: seq<int>) {
    |s| == 10 && Within(s[2 := 0], 0x3ffffff, 0x1ffffff) && -0x4000000 <= s[2] <= 0x4000000
  }

  /** All limbs strictly inside their width: after a second freduce_coefficients. */
  predicate Strict(s: seq<int>) {
    Within(s, 0x3ffffff, 0x1ffffff)
  }

  /** What fexpand returns: only limb 9 may have 26 bits. */
  predicate Fresh(s: seq<int>) {
    |s| == 10 && Within(s[9 := 0], 0x3ffffff, 0x1ffffff) && -0x4000000 < s[9] < 0x4000000
  }

  /** A sum or difference of two short elements. */
  predicate Spread(s: seq<int>) {
    Within(s, 0x8000000, 0x4000000)
  }

  /** fsum */
  method Plus(a: seq<int>, b: seq<int>) returns (s: seq<int>)
    requires Spread(a) && Spread(b)
    ensures |s| == 10 && (forall i :: 0 <= i < 10 ==> s[i] == a[i] + b[i]) && Val(s) == Val(a) + Val(b)
  {
    s := [S64(a[0] + b[0]), S64(a[1] + b[1]), S64(a[2] + b[2]), S64(a[3] + b[3]), S64(a[4] + b[4]), S64(a[5] + b[5]), S64(a[6] + b[6]), S64(a[7] + b[7]), S64(a[8] + b[8]), S64(a[9] + b[9])];
  }

  /** fdifference(b, a): b := a - b */
  method Minus(a: seq<int>, b: seq<int>) returns (s: seq<int>)
    requires Spread(a) && Spread(b)
    ensures |s| == 10 && (forall i :: 0 <= i < 10 ==> s[i] == a[i] - b[i]) && Val(s) == Val(a) - Val(b)
  {
    s := [S64(a[0] - b[0]), S64(a[1] - b[1]), S64(a[2] - b[2]), S64(a[3] - b[3]), S64(a[4] - b[4]), S64(a[5] - b[5]), S64(a[6] - b[6]), S64(a[7] - b[7]), S64(a[8] - b[8]), S64(a[9] - b[9])];
  }

  lemma ShortSums(a: seq<int>, b: seq<int>, s: seq<int>)
    requires Short(a) && Short(b) && |s| == 10
    requires (forall i :: 0 <= i < 10 ==> s[i] == a[i] + b[i]) || (forall i :: 0 <= i < 10 ==> s[i] == a[i] - b[i])
    ensures Spread(s)
  {
  }

  lemma ShortIsSpread(s: seq<int>)
    requires Short(s)
    ensures Spread(s)
  {
  }

  lemma AbsProduct(x: int, y: int, a: int, b: int)
    requires -a <= x <= a && -b <= y <= b
    ensures -(a * b) <= Prod(x, y) <= a * b && Prod(x, y) == Prod(y, x)
  {
    var u, v := if x < 0 then -x else x, if y < 0 then -y else y;
    MulMono(u, a, v);
    MulMono(v, b, a);
    MulMono(0, u, v);
    assert x * y == u * v || x * y == -(u * v);
  }

  /** `m + c * ((limb) ((s32) x)) * ((s32) y)` with |x| <= a, |y| <= b */
  method MulAcc(m: int, c: int, x: int, y: int, a: int, b: int) returns (m': int)
    requires 0 <= a <= 0x8000000 && 0 <= b <= 0x8000000 && -a <= x <= a && -b <= y <= b && 1 <= c <= 4
    requires -0x1000000000000000 <= m <= 0x1000000000000000
    ensures -(a * b) <= Prod(x, y) <= a * b && Prod(x, y) == Prod(y, x)
    ensures m' == m + c * Prod(x, y)
  {
    AbsProduct(x, y, a, b);
    MulMono(a, 0x8000000, b);
    MulMono(b, 0x8000000, 0x8000000);
    assert S32(x) == x && S32(y) == y;
    m' := S64(m + c * Prod(S32(x), S32(y)));
  }

  method Product0(in2: seq<int>, in1: seq<int>) returns (m: int)
    requires Spread(in2) && Spread(in1)
    ensures m == Low0(in1, in2) && -0x40000000000000 <= m <= 0x40000000000000
  {
    hide Prod;
    m := MulAcc(0, 1, in2[0], in1[0], 0x8000000, 0x8000000);
  }

  method Product1(in2: seq<int>, in1: seq<int>) returns (m: int)
    requires Spread(in2) && Spread(in1)
    ensures m == Low1(in1, in2) && -0x40000000000000 <= m <= 0x40000000000000
  {
    hide Prod;
    var t0 := MulAcc(0, 1, in2[0], in1[1], 0x8000000, 0x4000000);
    m := MulAcc(t0, 1, in2[1], in1[0], 0x4000000, 0x8000000);
  }

  method Product2(in2: seq<int>, in1: seq<int>) returns (m: int)
    requires Spread(in2) && Spread(in1)
    ensures m == Low2(in1, in2) && -0xa0000000000000 <= m <= 0xa0000000000000
  {
    hide Prod;
    var t0 := MulAcc(0, 2, in2[1], in1[1], 0x4000000, 0x4000000);
    var t1 := MulAcc(t0, 1, in2[0], in1[2], 0x8000000, 0x8000000);
    m := MulAcc(t1, 1, in2[2], in1[0], 0x8000000, 0x8000000);
  }

  method Product3(in2: seq<int>, in1: seq<int>) returns (m: int)
    requires Spread(in2) && Spread(in1)
    ensures m == Low3(in1, in2) && -0x80000000000000 <= m <= 0x80000000000000
  {
    hide Prod;
    var t0 := MulAcc(0, 1, in2[1], in1[2], 0x4000000, 0x8000000);
    var t1 := MulAcc(t0, 1, in2[2], in1[1], 0x8000000, 0x4000000);
    var t2 := MulAcc(t1, 1, in2[0], in1[3], 0x8000000, 0x4000000);
    m := MulAcc(t2, 1, in2[3], in1[0], 0x4000000, 0x8000000);
  }

  method Product4(in2: seq<int>, in1: seq<int>) returns (m: int)
    requires Spread(in2) && Spread(in1)
    ensures m == Low4(in1, in2) && -0x100000000000000 <= m <= 0x100000000000000
  {
    hide Prod;
    var t0 := MulAcc(0, 1, in2[2], in1[2], 0x8000000, 0x8000000);
    var t1 := MulAcc(t0, 2, in2[1], in1[3], 0x4000000, 0x4000000);
    var t2 := MulAcc(t1, 2, in2[3], in1[1], 0x4000000, 0x4000000);
    var t3 := MulAcc(t2, 1, in2[0], in1[4], 0x8000000, 0x8000000);
    m := MulAcc(t3, 1, in2[4], in1[0], 0x8000000, 0x8000000);
  }

  method Product5(in2: seq<int>, in1: seq<int>) returns (m: int)
    requires Spread(in2) && Spread(in1)
    ensures m == Low5(in1, in2) && -0xc0000000000000 <= m <= 0xc0000000000000
  {
    hide Prod;
    var t0 := MulAcc(0, 1, in2[2], in1[3], 0x8000000, 0x4000000);
    var t1 := MulAcc(t0, 1, in2[3], in1[2], 0x4000000, 0x8000000);
    var t2 := MulAcc(t1, 1, in2[1], in1[4], 0x4000000, 0x8000000);
    var t3 := MulAcc(t2, 1, in2[4], in1[1], 0x8000000, 0x4000000);
    var t4 := MulAcc(t3, 1, in2[0], in1[5], 0x8000000, 0x4000000);
    m := MulAcc(t4, 1, in2[5], in1[0], 0x4000000, 0x8000000);
  }

  method Product6(in2: seq<int>, in1: seq<int>) returns (m: int)
    requires Spread(in2) && Spread(in1)
    ensures m == Low6(in1, in2) && -0x160000000000000 <= m <= 0x160000000000000
  {
    hide Prod;
    var t0 := MulAcc(0, 2, in2[3], in1[3], 0x4000000, 0x4000000);
    var t1 := MulAcc(t0, 2, in2[1], in1[5], 0x4000000, 0x4000000);
    var t2 := MulAcc(t1, 2, in2[5], in1[1], 0x4000000, 0x4000000);
    var t3 := MulAcc(t2, 1, in2[2], in1[4], 0x8000000, 0x8000000);
    var t4 := MulAcc(t3, 1, in2[4], in1[2], 0x8000000, 0x8000000);
    var t5 := MulAcc(t4, 1, in2[0], in1[6], 0x8000000, 0x8000000);
    m := MulAcc(t5, 1, in2[6], in1[0], 0x8000000, 0x8000000);
  }

  method Product7(in2: seq<int>, in1: seq<int>) returns (m: int)
    requires Spread(in2) && Spread(in1)
    ensures m == Low7(in1, in2) && -0x100000000000000 <= m <= 0x100000000000000
  {
    hide Prod;
    var t0 := MulAcc(0, 1, in2[3], in1[4], 0x4000000, 0x8000000);
    var t1 := MulAcc(t0, 1, in2[4], in1[3], 0x8000000, 0x4000000);
    var t2 := MulAcc(t1, 1, in2[2], in1[5], 0x8000000, 0x4000000);
    var t3 := MulAcc(t2, 1, in2[5], in1[2], 0x4000000, 0x8000000);
    var t4 := MulAcc(t3, 1, in2[1], in1[6], 0x4000000, 0x8000000);
    var t5 := MulAcc(t4, 1, in2[6], in1[1], 0x8000000, 0x4000000);
    var t6 := MulAcc(t5, 1, in2[0], in1[7], 0x8000000, 0x4000000);
    m := MulAcc(t6, 1, in2[7], in1[0], 0x4000000, 0x8000000);
  }

  method Product8(in2: seq<int>, in1: seq<int>) returns (m: int)
    requires Spread(in2) && Spread(in1)
    ensures m == Low8(in1, in2) && -0x1c0000000000000 <= m <= 0x1c0000000000000
  {
    hide Prod;
    var t0 := MulAcc(0, 1, in2[4], in1[4], 0x8000000, 0x8000000);
    var t1 := MulAcc(t0, 2, in2[3], in1[5], 0x4000000, 0x4000000);
    var t2 := MulAcc(t1, 2, in2[5], in1[3], 0x4000000, 0x4000000);
    var t3 := MulAcc(t2, 2, in2[1], in1[7], 0x4000000, 0x4000000);
    var t4 := MulAcc(t3, 2, in2[7], in1[1], 0x4000000, 0x4000000);
    var t5 := MulAcc(t4, 1, in2[2], in1[6], 0x8000000, 0x8000000);
    var t6 := MulAcc(t5, 1, in2[6], in1[2], 0x8000000, 0x8000000);
    var t7 := MulAcc(t6, 1, in2[0], in1[8], 0x8000000, 0x8000000);
    m := MulAcc(t7, 1, in2[8], in1[0], 0x8000000, 0x8000000);
  }

  method Product9(in2: seq<int>, in1: seq<int>) returns (m: int)
    requires Spread(in2) && Spread(in1)
    ensures m == Low9(in1, in2) && -0x140000000000000 <= m <= 0x140000000000000
  {
    hide Prod;
    var t0 := MulAcc(0, 1, in2[4], in1[5], 0x8000000, 0x4000000);
    var t1 := MulAcc(t0, 1, in2[5], in1[4], 0x4000000, 0x8000000);
    var t2 := MulAcc(t1, 1, in2[3], in1[6], 0x4000000, 0x8000000);
    var t3 := MulAcc(t2, 1, in2[6], in1[3], 0x8000000, 0x4000000);
    var t4 := MulAcc(t3, 1, in2[2], in1[7], 0x8000000, 0x4000000);
    var t5 := MulAcc(t4, 1, in2[7], in1[2], 0x4000000, 0x8000000);
    var t6 := MulAcc(t5, 1, in2[1], in1[8], 0x4000000, 0x8000000);
    var t7 := MulAcc(t6, 1, in2[8], in1[1], 0x8000000, 0x4000000);
    var t8 := MulAcc(t7, 1, in2[0], in1[9], 0x8000000, 0x4000000);
    m := MulAcc(t8, 1, in2[9], in1[0], 0x4000000, 0x8000000);
  }

  method Product10(in2: seq<int>, in1: seq<int>) returns (m: int)
    requires Spread(in2) && Spread(in1)
    ensures m == High0(in1, in2) && -0x1a0000000000000 <= m <= 0x1a0000000000000
  {
    hide Prod;
    var t0 := MulAcc(0, 2, in2[5], in1[5], 0x4000000, 0x4000000);
    var t1 := MulAcc(t0, 2, in2[3], in1[7], 0x4000000, 0x4000000);
    var t2 := MulAcc(t1, 2, in2[7], in1[3], 0x4000000, 0x4000000);
    var t3 := MulAcc(t2, 2, in2[1], in1[9], 0x4000000, 0x4000000);
    var t4 := MulAcc(t3, 2, in2[9], in1[1], 0x4000000, 0x4000000);
    var t5 := MulAcc(t4, 1, in2[4], in1[6], 0x8000000, 0x8000000);
    var t6 := MulAcc(t5, 1, in2[6], in1[4], 0x8000000, 0x8000000);
    var t7 := MulAcc(t6, 1, in2[2], in1[8], 0x8000000, 0x8000000);
    m := MulAcc(t7, 1, in2[8], in1[2], 0x8000000, 0x8000000);
  }

  method Product11(in2: seq<int>, in1: seq<int>) returns (m: int)
    requires Spread(in2) && Spread(in1)
    ensures m == High1(in1, in2) && -0x100000000000000 <= m <= 0x100000000000000
  {
    hide Prod;
    var t0 := MulAcc(0, 1, in2[5], in1[6], 0x4000000, 0x8000000);
    var t1 := MulAcc(t0, 1, in2[6], in1[5], 0x8000000, 0x4000000);
    var t2 := MulAcc(t1, 1, in2[4], in1[7], 0x8000000, 0x4000000);
    var t3 := MulAcc(t2, 1, in2[7], in1[4], 0x4000000, 0x8000000);
    var t4 := MulAcc(t3, 1, in2[3], in1[8], 0x4000000, 0x8000000);
    var t5 := MulAcc(t4, 1, in2[8], in1[3], 0x8000000, 0x4000000);
    var t6 := MulAcc(t5, 1, in2[2], in1[9], 0x8000000, 0x4000000);
    m := MulAcc(t6, 1, in2[9], in1[2], 0x4000000, 0x8000000);
  }

  method Product12(in2: seq<int>, in1: seq<int>) returns (m: int)
    requires Spread(in2) && Spread(in1)
    ensures m == High2(in1, in2) && -0x140000000000000 <= m <= 0x140000000000000
  {
    hide Prod;
    var t0 := MulAcc(0, 1, in2[6], in1[6], 0x8000000, 0x8000000);
    var t1 := MulAcc(t0, 2, in2[5], in1[7], 0x4000000, 0x4000000);
    var t2 := MulAcc(t1, 2, in2[7], in1[5], 0x4000000, 0x4000000);
    var t3 := MulAcc(t2, 2, in2[3], in1[9], 0x4000000, 0x4000000);
    var t4 := MulAcc(t3, 2, in2[9], in1[3], 0x4000000, 0x4000000);
    var t5 := MulAcc(t4, 1, in2[4], in1[8], 0x8000000, 0x8000000);
    m := MulAcc(t5, 1, in2[8], in1[4], 0x8000000, 0x8000000);
  }

  method Product13(in2: seq<int>, in1: seq<int>) returns (m: int)
    requires Spread(in2) && Spread(in1)
    ensures m == High3(in1, in2) && -0xc0000000000000 <= m <= 0xc0000000000000
  {
    hide Prod;
    var t0 := MulAcc(0, 1, in2[6], in1[7], 0x8000000, 0x4000000);
    var t1 := MulAcc(t0, 1, in2[7], in1[6], 0x4000000, 0x8000000);
    var t2 := MulAcc(t1, 1, in2[5], in1[8], 0x4000000, 0x8000000);
    var t3 := MulAcc(t2, 1, in2[8], in1[5], 0x8000000, 0x4000000);
    var t4 := MulAcc(t3, 1, in2[4], in1[9], 0x8000000, 0x4000000);
    m := MulAcc(t4, 1, in2[9], in1[4], 0x4000000, 0x8000000);
  }

  method Product14(in2: seq<int>, in1: seq<int>) returns (m: int)
    requires Spread(in2) && Spread(in1)
    ensures m == High4(in1, in2) && -0xe0000000000000 <= m <= 0xe0000000000000
  {
    hide Prod;
    var t0 := MulAcc(0, 2, in2[7], in1[7], 0x4000000, 0x4000000);
    var t1 := MulAcc(t0, 2, in2[5], in1[9], 0x4000000, 0x4000000);
    var t2 := MulAcc(t1, 2, in2[9], in1[5], 0x4000000, 0x4000000);
    var t3 := MulAcc(t2, 1, in2[6], in1[8], 0x8000000, 0x8000000);
    m := MulAcc(t3, 1, in2[8], in1[6], 0x8000000, 0x8000000);
  }

  method Product15(in2: seq<int>, in1: seq<int>) returns (m: int)
    requires Spread(in2) && Spread(in1)
    ensures m == High5(in1, in2) && -0x80000000000000 <= m <= 0x80000000000000
  {
    hide Prod;
    var t0 := MulAcc(0, 1, in2[7], in1[8], 0x4000000, 0x8000000);
    var t1 := MulAcc(t0, 1, in2[8], in1[7], 0x8000000, 0x4000000);
    var t2 := MulAcc(t1, 1, in2[6], in1[9], 0x8000000, 0x4000000);
    m := MulAcc(t2, 1, in2[9], in1[6], 0x4000000, 0x8000000);
  }

  method Product16(in2: seq<int>, in1: seq<int>) returns (m: int)
    requires Spread(in2) && Spread(in1)
    ensures m == High6(in1, in2) && -0x80000000000000 <= m <= 0x80000000000000
  {
    hide Prod;
    var t0 := MulAcc(0, 1, in2[8], in1[8], 0x8000000, 0x8000000);
    var t1 := MulAcc(t0, 2, in2[7], in1[9], 0x4000000, 0x4000000);
    m := MulAcc(t1, 2, in2[9], in1[7], 0x4000000, 0x4000000);
  }

  method Product17(in2: seq<int>, in1: seq<int>) returns (m: int)
    requires Spread(in2) && Spread(in1)
    ensures m == High7(in1, in2) && -0x40000000000000 <= m <= 0x40000000000000
  {
    hide Prod;
    var t0 := MulAcc(0, 1, in2[8], in1[9], 0x8000000, 0x4000000);
    m := MulAcc(t0, 1, in2[9], in1[8], 0x4000000, 0x8000000);
  }

  method Product18(in2: seq<int>, in1: seq<int>) returns (m: int)
    requires Spread(in2) && Spread(in1)
    ensures m == High8(in1, in2) && -0x20000000000000 <= m <= 0x20000000000000
  {
    hide Prod;
    m := MulAcc(0, 2, in2[9], in1[9], 0x4000000, 0x4000000);
  }

  method Square0(x: seq<int>) returns (m: int)
    requires Spread(x)
    ensures m == Low0(x, x) && -0x40000000000000 <= m <= 0x40000000000000
  {
    hide Prod;
    m := MulAcc(0, 1, x[0], x[0], 0x8000000, 0x8000000);
  }

  method Square1(x: seq<int>) returns (m: int)
    requires Spread(x)
    ensures m == Low1(x, x) && -0x40000000000000 <= m <= 0x40000000000000
  {
    hide Prod;
    m := MulAcc(0, 2, x[0], x[1], 0x8000000, 0x4000000);
  }

  method Square2(x: seq<int>) returns (m: int)
    requires Spread(x)
    ensures m == Low2(x, x) && -0xa0000000000000 <= m <= 0xa0000000000000
  {
    hide Prod;
    var t0 := MulAcc(0, 2, x[1], x[1], 0x4000000, 0x4000000);
    m := MulAcc(t0, 2, x[0], x[2], 0x8000000, 0x8000000);
  }

  method Square3(x: seq<int>) returns (m: int)
    requires Spread(x)
    ensures m == Low3(x, x) && -0x80000000000000 <= m <= 0x80000000000000
  {
    hide Prod;
    var t0 := MulAcc(0, 2, x[1], x[2], 0x4000000, 0x8000000);
    m := MulAcc(t0, 2, x[0], x[3], 0x8000000, 0x4000000);
  }

  method Square4(x: seq<int>) returns (m: int)
    requires Spread(x)
    ensures m == Low4(x, x) && -0x100000000000000 <= m <= 0x100000000000000
  {
    hide Prod;
    var t0 := MulAcc(0, 1, x[2], x[2], 0x8000000, 0x8000000);
    var t1 := MulAcc(t0, 4, x[1], x[3], 0x4000000, 0x4000000);
    m := MulAcc(t1, 2, x[0], x[4], 0x8000000, 0x8000000);
  }

  method Square5(x: seq<int>) returns (m: int)
    requires Spread(x)
    ensures m == Low5(x, x) && -0xc0000000000000 <= m <= 0xc0000000000000
  {
    hide Prod;
    var t0 := MulAcc(0, 2, x[2], x[3], 0x8000000, 0x4000000);
    var t1 := MulAcc(t0, 2, x[1], x[4], 0x4000000, 0x8000000);
    m := MulAcc(t1, 2, x[0], x[5], 0x8000000, 0x4000000);
  }

  method Square6(x: seq<int>) returns (m: int)
    requires Spread(x)
    ensures m == Low6(x, x) && -0x160000000000000 <= m <= 0x160000000000000
  {
    hide Prod;
    var t0 := MulAcc(0, 2, x[3], x[3], 0x4000000, 0x4000000);
    var t1 := MulAcc(t0, 2, x[2], x[4], 0x8000000, 0x8000000);
    var t2 := MulAcc(t1, 2, x[0], x[6], 0x8000000, 0x8000000);
    m := MulAcc(t2, 4, x[1], x[5], 0x4000000, 0x4000000);
  }

  method Square7(x: seq<int>) returns (m: int)
    requires Spread(x)
    ensures m == Low7(x, x) && -0x100000000000000 <= m <= 0x100000000000000
  {
    hide Prod;
    var t0 := MulAcc(0, 2, x[3], x[4], 0x4000000, 0x8000000);
    var t1 := MulAcc(t0, 2, x[2], x[5], 0x8000000, 0x4000000);
    var t2 := MulAcc(t1, 2, x[1], x[6], 0x4000000, 0x8000000);
    m := MulAcc(t2, 2, x[0], x[7], 0x8000000, 0x4000000);
  }

  method Square8(x: seq<int>) returns (m: int)
    requires Spread(x)
    ensures m == Low8(x, x) && -0x1c0000000000000 <= m <= 0x1c0000000000000
  {
    hide Prod;
    var t0 := MulAcc(0, 1, x[4], x[4], 0x8000000, 0x8000000);
    var t1 := MulAcc(t0, 2, x[2], x[6], 0x8000000, 0x8000000);
    var t2 := MulAcc(t1, 2, x[0], x[8], 0x8000000, 0x8000000);
    var t3 := MulAcc(t2, 4, x[1], x[7], 0x4000000, 0x4000000);
    m := MulAcc(t3, 4, x[3], x[5], 0x4000000, 0x4000000);
  }

  method Square9(x: seq<int>) returns (m: int)
    requires Spread(x)
    ensures m == Low9(x, x) && -0x140000000000000 <= m <= 0x140000000000000
  {
    hide Prod;
    var t0 := MulAcc(0, 2, x[4], x[5], 0x8000000, 0x4000000);
    var t1 := MulAcc(t0, 2, x[3], x[6], 0x4000000, 0x8000000);
    var t2 := MulAcc(t1, 2, x[2], x[7], 0x8000000, 0x4000000);
    var t3 := MulAcc(t2, 2, x[1], x[8], 0x4000000, 0x8000000);
    m := MulAcc(t3, 2, x[0], x[9], 0x8000000, 0x4000000);
  }

  method Square10(x: seq<int>) returns (m: int)
    requires Spread(x)
    ensures m == High0(x, x) && -0x1a0000000000000 <= m <= 0x1a0000000000000
  {
    hide Prod;
    var t0 := MulAcc(0, 2, x[5], x[5], 0x4000000, 0x4000000);
    var t1 := MulAcc(t0, 2, x[4], x[6], 0x8000000, 0x8000000);
    var t2 := MulAcc(t1, 2, x[2], x[8], 0x8000000, 0x8000000);
    var t3 := MulAcc(t2, 4, x[3], x[7], 0x4000000, 0x4000000);
    m := MulAcc(t3, 4, x[1], x[9], 0x4000000, 0x4000000);
  }

  method Square11(x: seq<int>) returns (m: int)
    requires Spread(x)
    ensures m == High1(x, x) && -0x100000000000000 <= m <= 0x100000000000000
  {
    hide Prod;
    var t0 := MulAcc(0, 2, x[5], x[6], 0x4000000, 0x8000000);
    var t1 := MulAcc(t0, 2, x[4], x[7], 0x8000000, 0x4000000);
    var t2 := MulAcc(t1, 2, x[3], x[8], 0x4000000, 0x8000000);
    m := MulAcc(t2, 2, x[2], x[9], 0x8000000, 0x4000000);
  }

  method Square12(x: seq<int>) returns (m: int)
    requires Spread(x)
    ensures m == High2(x, x) && -0x140000000000000 <= m <= 0x140000000000000
  {
    hide Prod;
    var t0 := MulAcc(0, 1, x[6], x[6], 0x8000000, 0x8000000);
    var t1 := MulAcc(t0, 2, x[4], x[8], 0x8000000, 0x8000000);
    var t2 := MulAcc(t1, 4, x[5], x[7], 0x4000000, 0x4000000);
    m := MulAcc(t2, 4, x[3], x[9], 0x4000000, 0x4000000);
  }

  method Square13(x: seq<int>) returns (m: int)
    requires Spread(x)
    ensures m == High3(x, x) && -0xc0000000000000 <= m <= 0xc0000000000000
  {
    hide Prod;
    var t0 := MulAcc(0, 2, x[6], x[7], 0x8000000, 0x4000000);
    var t1 := MulAcc(t0, 2, x[5], x[8], 0x4000000, 0x8000000);
    m := MulAcc(t1, 2, x[4], x[9], 0x8000000, 0x4000000);
  }

  method Square14(x: seq<int>) returns (m: int)
    requires Spread(x)
    ensures m == High4(x, x) && -0xe0000000000000 <= m <= 0xe0000000000000
  {
    hide Prod;
    var t0 := MulAcc(0, 2, x[7], x[7], 0x4000000, 0x4000000);
    var t1 := MulAcc(t0, 2, x[6], x[8], 0x8000000, 0x8000000);
    m := MulAcc(t1, 4, x[5], x[9], 0x4000000, 0x4000000);
  }

  method Square15(x: seq<int>) returns (m: int)
    requires Spread(x)
    ensures m == High5(x, x) && -0x80000000000000 <= m <= 0x80000000000000
  {
    hide Prod;
    var t0 := MulAcc(0, 2, x[7], x[8], 0x4000000, 0x8000000);
    m := MulAcc(t0, 2, x[6], x[9], 0x8000000, 0x4000000);
  }

  method Square16(x: seq<int>) returns (m: int)
    requires Spread(x)
    ensures m == High6(x, x) && -0x80000000000000 <= m <= 0x80000000000000
  {
    hide Prod;
    var t0 := MulAcc(0, 1, x[8], x[8], 0x8000000, 0x8000000);
    m := MulAcc(t0, 4, x[7], x[9], 0x4000000, 0x4000000);
  }

  method Square17(x: seq<int>) returns (m: int)
    requires Spread(x)
    ensures m == High7(x, x) && -0x40000000000000 <= m <= 0x40000000000000
  {
    hide Prod;
    m := MulAcc(0, 2, x[8], x[9], 0x8000000, 0x4000000);
  }

  method Square18(x: seq<int>) returns (m: int)
    requires Spread(x)
    ensures m == High8(x, x) && -0x20000000000000 <= m <= 0x20000000000000
  {
    hide Prod;
    m := MulAcc(0, 2, x[9], x[9], 0x4000000, 0x4000000);
  }

  /** The 19 columns of a product, with their sizes. */
  predicate LongForm(m: seq<int>, a: seq<int>, b: seq<int>)
    requires |a| == |b| == 10
  {
    && |m| == 19
    && m[0] == Low0(a, b) && m[1] == Low1(a, b) && m[2] == Low2(a, b) && m[3] == Low3(a, b) && m[4] == Low4(a, b) && m[5] == Low5(a, b) && m[6] == Low6(a, b) && m[7] == Low7(a, b) && m[8] == Low8(a, b) && m[9] == Low9(a, b) && m[10] == High0(a, b) && m[11] == High1(a, b) && m[12] == High2(a, b) && m[13] == High3(a, b) && m[14] == High4(a, b) && m[15] == High5(a, b) && m[16] == High6(a, b) && m[17] == High7(a, b) && m[18] == High8(a, b)
  }

  /** Bounds of the columns of spread elements. */
  predicate LongBound(m: seq<int>) {
    && |m| == 19
    && -0x40000000000000 <= m[0] <= 0x40000000000000 && -0x40000000000000 <= m[1] <= 0x40000000000000 && -0xa0000000000000 <= m[2] <= 0xa0000000000000 && -0x80000000000000 <= m[3] <= 0x80000000000000 && -0x100000000000000 <= m[4] <= 0x100000000000000 && -0xc0000000000000 <= m[5] <= 0xc0000000000000 && -0x160000000000000 <= m[6] <= 0x160000000000000 && -0x100000000000000 <= m[7] <= 0x100000000000000 && -0x1c0000000000000 <= m[8] <= 0x1c0000000000000 && -0x140000000000000 <= m[9] <= 0x140000000000000 && -0x1a0000000000000 <= m[10] <= 0x1a0000000000000 && -0x100000000000000 <= m[11] <= 0x100000000000000 && -0x140000000000000 <= m[12] <= 0x140000000000000 && -0xc0000000000000 <= m[13] <= 0xc0000000000000 && -0xe0000000000000 <= m[14] <= 0xe0000000000000 && -0x80000000000000 <= m[15] <= 0x80000000000000 && -0x80000000000000 <= m[16] <= 0x80000000000000 && -0x40000000000000 <= m[17] <= 0x40000000000000 && -0x20000000000000 <= m[18] <= 0x20000000000000
  }

  /** The columns of fproduct, in two halves. */
  method LowProducts(in2: seq<int>, in1: seq<int>) returns (m: seq<int>)
    requires Spread(in2) && Spread(in1)
    ensures |in1| == |in2| == 10 && |m| == 10
    ensures m[0] == Low0(in1, in2) && m[1] == Low1(in1, in2) && m[2] == Low2(in1, in2) && m[3] == Low3(in1, in2) && m[4] == Low4(in1, in2)
    ensures m[5] == Low5(in1, in2) && m[6] == Low6(in1, in2) && m[7] == Low7(in1, in2) && m[8] == Low8(in1, in2) && m[9] == Low9(in1, in2)
    ensures -0x40000000000000 <= m[0] <= 0x40000000000000 && -0x40000000000000 <= m[1] <= 0x40000000000000 && -0xa0000000000000 <= m[2] <= 0xa0000000000000
    ensures -0x80000000000000 <= m[3] <= 0x80000000000000 && -0x100000000000000 <= m[4] <= 0x100000000000000 && -0xc0000000000000 <= m[5] <= 0xc0000000000000
    ensures -0x160000000000000 <= m[6] <= 0x160000000000000 && -0x100000000000000 <= m[7] <= 0x100000000000000 && -0x1c0000000000000 <= m[8] <= 0x1c0000000000000
    ensures -0x140000000000000 <= m[9] <= 0x140000000000000
  {
    assert |in1| == |in2| == 10;
    hide Spread, Prod, Low0, Low1, Low2, Low3, Low4, Low5, Low6, Low7, Low8, Low9, High0, High1, High2, High3, High4, High5, High6, High7, High8;
    var m0 := Product0(in2, in1);
    var m1 := Product1(in2, in1);
    var m2 := Product2(in2, in1);
    var m3 := Product3(in2, in1);
    var m4 := Product4(in2, in1);
    var m5 := Product5(in2, in1);
    var m6 := Product6(in2, in1);
    var m7 := Product7(in2, in1);
    var m8 := Product8(in2, in1);
    var m9 := Product9(in2, in1);
    m := [m0, m1, m2, m3, m4, m5, m6, m7, m8, m9];
  }

  method HighProducts(in2: seq<int>, in1: seq<int>) returns (m: seq<int>)
    requires Spread(in2) && Spread(in1)
    ensures |in1| == |in2| == 10 && |m| == 9
    ensures m[0] == High0(in1, in2) && m[1] == High1(in1, in2) && m[2] == High2(in1, in2) && m[3] == High3(in1, in2) && m[4] == High4(in1, in2)
    ensures m[5] == High5(in1, in2) && m[6] == High6(in1, in2) && m[7] == High7(in1, in2) && m[8] == High8(in1, in2)
    ensures -0x1a0000000000000 <= m[0] <= 0x1a0000000000000 && -0x100000000000000 <= m[1] <= 0x100000000000000 && -0x140000000000000 <= m[2] <= 0x140000000000000
    ensures -0xc0000000000000 <= m[3] <= 0xc0000000000000 && -0xe0000000000000 <= m[4] <= 0xe0000000000000 && -0x80000000000000 <= m[5] <= 0x80000000000000
    ensures -0x80000000000000 <= m[6] <= 0x80000000000000 && -0x40000000000000 <= m[7] <= 0x40000000000000 && -0x20000000000000 <= m[8] <= 0x20000000000000
  {
    assert |in1| == |in2| == 10;
    hide Spread, Prod, Low0, Low1, Low2, Low3, Low4, Low5, Low6, Low7, Low8, Low9, High0, High1, High2, High3, High4, High5, High6, High7, High8;
    var m10 := Product10(in2, in1);
    var m11 := Product11(in2, in1);
    var m12 := Product12(in2, in1);
    var m13 := Product13(in2, in1);
    var m14 := Product14(in2, in1);
    var m15 := Product15(in2, in1);
    var m16 := Product16(in2, in1);
    var m17 := Product17(in2, in1);
    var m18 := Product18(in2, in1);
    m := [m10, m11, m12, m13, m14, m15, m16, m17, m18];
  }

  /** fproduct: output = in2 * in, in long form. */
  method Product(in2: seq<int>, in1: seq<int>) returns (m: seq<int>)
    requires Spread(in2) && Spread(in1)
    ensures LongForm(m, in1, in2) && LongBound(m)
  {
    hide Spread, Prod, Low0, Low1, Low2, Low3, Low4, Low5, Low6, Low7, Low8, Low9, High0, High1, High2, High3, High4, High5, High6, High7, High8;
    var low := LowProducts(in2, in1);
    var high := HighProducts(in2, in1);
    m := low + high;
  }

  /** fsquare_inner: the long form of the product of x with itself. */
  method SquareInner(x: seq<int>) returns (m: seq<int>)
    requires Spread(x)
    ensures LongForm(m, x, x) && LongBound(m)
  {
    assert |x| == 10;
    hide Spread, Prod, Low0, Low1, Low2, Low3, Low4, Low5, Low6, Low7, Low8, Low9, High0, High1, High2, High3, High4, High5, High6, High7, High8;
    var m0 := Square0(x);
    var m1 := Square1(x);
    var m2 := Square2(x);
    var m3 := Square3(x);
    var m4 := Square4(x);
    var m5 := Square5(x);
    var m6 := Square6(x);
    var m7 := Square7(x);
    var m8 := Square8(x);
    var m9 := Square9(x);
    var m10 := Square10(x);
    var m11 := Square11(x);
    var m12 := Square12(x);
    var m13 := Square13(x);
    var m14 := Square14(x);
    var m15 := Square15(x);
    var m16 := Square16(x);
    var m17 := Square17(x);
    var m18 := Square18(x);
    m := [m0, m1, m2, m3, m4, m5, m6, m7, m8, m9, m10, m11, m12, m13, m14, m15, m16, m17, m18];
  }

  /** `output[i] += h << 4; output[i] += h << 1; output[i] += h` */
  method AddNineteen(o: int, h: int) returns (o': int)
    requires -0x1000000000000000 <= o <= 0x1000000000000000 && -0x300000000000000 <= h <= 0x300000000000000
    ensures o' == o + 19 * h
  {
    o' := S64(S64(S64(o + S64(h * 16)) + S64(h * 2)) + h);
  }

  /** freduce_degree: 2^255 counts as 19. */
  method ReduceDegree(m: seq<int>) returns (s: seq<int>)
    requires LongBound(m)
    ensures |s| == 10 && s[9] == m[9] && (forall i :: 0 <= i < 9 ==> s[i] == m[i] + 19 * m[i + 10])
    ensures Within(s, 0x3fffffffffffffff, 0x3fffffffffffffff)
  {
    var s0 := AddNineteen(m[0], m[10]);
    var s1 := AddNineteen(m[1], m[11]);
    var s2 := AddNineteen(m[2], m[12]);
    var s3 := AddNineteen(m[3], m[13]);
    var s4 := AddNineteen(m[4], m[14]);
    var s5 := AddNineteen(m[5], m[15]);
    var s6 := AddNineteen(m[6], m[16]);
    var s7 := AddNineteen(m[7], m[17]);
    var s8 := AddNineteen(m[8], m[18]);
    s := [s0, s1, s2, s3, s4, s5, s6, s7, s8, m[9]];
  }

  lemma ReducedDegree(m: seq<int>, s: seq<int>, a: seq<int>, b: seq<int>)
    requires |a| == |b| == |s| == 10 && LongForm(m, a, b) && s[9] == m[9] && forall i :: 0 <= i < 9 ==> s[i] == m[i] + 19 * m[i + 10]
    ensures Same(Val(s), Val(a) * Val(b))
  {
    var l, h := LowColumns(a, b), HighColumns(a, b);
    assert s[0] == l[0] + 19 * h[0] && s[1] == l[1] + 19 * h[1] && s[2] == l[2] + 19 * h[2] && s[3] == l[3] + 19 * h[3] && s[4] == l[4] + 19 * h[4] && s[5] == l[5] + 19 * h[5] && s[6] == l[6] + 19 * h[6] && s[7] == l[7] + 19 * h[7] && s[8] == l[8] + 19 * h[8] && s[9] == l[9] && h[9] == 0 && |l| == |h| == 10;
    hide Prod, Low0, Low1, Low2, Low3, Low4, Low5, Low6, Low7, Low8, Low9, High0, High1, High2, High3, High4, High5, High6, High7, High8, LowColumns, HighColumns;
    assert Val(s) == Weighed(l) + 19 * Weighed(h);
    SumOfRows(a, b);
    ProdIs(Val(a), Val(b));
    var x, y := Weighed(l), Weighed(h);
    hide Val, Weighed;
    SameBy(Val(s), Val(a) * Val(b), -y);
  }

  lemma ProdIs(x: int, y: int)
    ensures Prod(x, y) == x * y
  {
  }

  // ---- freduce_coefficients

  /** div_by_2_26: the quotient rounded towards zero, from shifts and adds. */
  method DivBy26(v: int) returns (q: int)
    requires -0x7fffffff00000000 <= v <= 0x7fffffff00000000
    ensures v >= 0 ==> 0 <= v - 0x4000000 * q < 0x4000000
    ensures v < 0 ==> -0x4000000 < v - 0x4000000 * q <= 0
  {
    var highword := U64(v) / 0x1_0000_0000;
    var sign := if highword >= 0x8000_0000 then 0xffff_ffff else 0;
    var roundoff := sign / 0x40;
    SignWord(v);
    q := S64(v + roundoff) / 0x4000000;
  }

  /** div_by_2_25 */
  method DivBy25(v: int) returns (q: int)
    requires -0x7fffffff00000000 <= v <= 0x7fffffff00000000
    ensures v >= 0 ==> 0 <= v - 0x2000000 * q < 0x2000000
    ensures v < 0 ==> -0x2000000 < v - 0x2000000 * q <= 0
  {
    var highword := U64(v) / 0x1_0000_0000;
    var sign := if highword >= 0x8000_0000 then 0xffff_ffff else 0;
    var roundoff := sign / 0x80;
    SignWord(v);
    q := S64(v + roundoff) / 0x2000000;
  }

  lemma SignWord(v: int)
    requires -0x8000_0000_0000_0000 <= v < 0x8000_0000_0000_0000
    ensures U64(v) / 0x1_0000_0000 >= 0x8000_0000 <==> v < 0
  {
    if v < 0 {
      DivModUnique(v, 0x1_0000_0000_0000_0000, -1, v + 0x1_0000_0000_0000_0000);
    }
  }

  /** `over = div_by_2_26(x); x -= over << 26; next += over` */
  method Over26(x: int, next: int) returns (x': int, next': int)
    requires -0x7ffffff000000000 <= x <= 0x7ffffff000000000 && -0x4000000000000000 <= next <= 0x4000000000000000
    ensures x + 0x4000000 * next == x' + 0x4000000 * next'
    ensures -0x4000000 < x' < 0x4000000 && (-0x4000000 < x < 0x4000000 ==> x' == x && next' == next) && (x == 0x4000000 || x == -0x4000000 ==> x' == 0)
    ensures x >= 0 ==> 0 <= 0x4000000 * (next' - next) <= x
    ensures x < 0 ==> x <= 0x4000000 * (next' - next) <= 0
  {
    var over := DivBy26(x);
    x' := S64(x - S64(over * 0x4000000));
    next' := S64(next + over);
  }

  method Over25(x: int, next: int) returns (x': int, next': int)
    requires -0x7ffffff000000000 <= x <= 0x7ffffff000000000 && -0x4000000000000000 <= next <= 0x4000000000000000
    ensures x + 0x2000000 * next == x' + 0x2000000 * next'
    ensures -0x2000000 < x' < 0x2000000 && (-0x2000000 < x < 0x2000000 ==> x' == x && next' == next)
    ensures x >= 0 ==> 0 <= 0x2000000 * (next' - next) <= x
    ensures x < 0 ==> x <= 0x2000000 * (next' - next) <= 0
  {
    var over := DivBy25(x);
    x' := S64(x - S64(over * 0x2000000));
    next' := S64(next + over);
  }

  /** One turn of the loop of freduce_coefficients. */
  method CarryPair(o0: int, o1: int, o2: int) returns (s0: int, s1: int, c: int)
    requires Small(o0) && Small(o1) && Small(o2)
    ensures o0 + 0x4000000 * o1 + 0x8000000000000 * o2 == s0 + 0x4000000 * s1 + 0x8000000000000 * c
    ensures Inside(s0, s1) && -0x4000008000000000 <= c <= 0x4000008000000000
    ensures Inside(o0, o1) ==> c == o2 && s0 == o0 && s1 == o1
  {
    var x1;
    s0, x1 := Over26(o0, o1);
    s1, c := Over25(x1, o2);
  }

  /** Two turns of the loop of freduce_coefficients, from limb 2 on. */
  method CarryMiddle(o2: int, o3: int, o4: int, o5: int) returns (s2: int, s3: int, s4: int, s5: int, c: int)
    requires -0x4000008000000000 <= o2 <= 0x4000008000000000 && Small(o3) && Small(o4) && Small(o5)
    ensures o2 + 0x4000000 * o3 + 0x8000000000000 * o4 + 0x20000000000000000000 * o5 == s2 + 0x4000000 * s3 + 0x8000000000000 * s4 + 0x20000000000000000000 * s5 + 0x40000000000000000000000000 * c
    ensures Inside(s2, s3) && Inside(s4, s5) && -0x4000000000 < c < 0x4000000000
    ensures Inside(o2, o3) && Inside(o4, o5) ==> c == 0 && s2 == o2 && s3 == o3 && s4 == o4 && s5 == o5
    ensures (o2 == 0x4000000 || o2 == -0x4000000) && Inside(0, o3) && Inside(o4, o5) ==> s2 == 0 && -1 <= c <= 1
    ensures (-0x4000000 - 1 <= o2 <= 0x4000000 + 1) && Inside(0, o3) && Inside(o4, o5) ==> -1 <= c <= 1
  {
    var x3, x4, x5;
    s2, x3 := Over26(o2, o3);
    s3, x4 := Over25(x3, o4);
    s4, x5 := Over26(x4, o5);
    s5, c := Over25(x5, 0);
  }

  predicate Small(x: int) {
    -0x3fffffffffffffff <= x <= 0x3fffffffffffffff
  }

  /** An even and an odd limb inside their widths. */
  predicate Inside(even: int, odd: int) {
    -0x4000000 < even < 0x4000000 && -0x2000000 < odd < 0x2000000
  }

  /** The loop of freduce_coefficients: what leaves limb 9 is collected in limb 10. */
  method CarryLimbs(o: seq<int>) returns (s: seq<int>, top: int)
    requires Within(o, 0x3fffffffffffffff, 0x3fffffffffffffff)
    ensures Strict(s) && -0x4000000000 < top < 0x4000000000 && Val(o) == Val(s) + 0x8000000000000000000000000000000000000000000000000000000000000000 * top
    ensures Short(o) && -0x4000000 < o[2] < 0x4000000 ==> top == 0 && s == o
    ensures Short(o) && (o[2] == 0x4000000 || o[2] == -0x4000000) ==> -1 <= top <= 1 && s[2] == 0
  {
    hide Val, S64;
    var s0, s1, c1 := CarryPair(o[0], o[1], o[2]);
    var s2, s3, s4, s5, c5 := CarryMiddle(c1, o[3], o[4], o[5]);
    var s6, s7, s8, s9, c9 := CarryMiddle(S64(o[6] + c5), o[7], o[8], o[9]);
    s, top := [s0, s1, s2, s3, s4, s5, s6, s7, s8, s9], c9;
    CarriedVal(o, s, c1, c5, top);
  }

  lemma CarriedVal(o: seq<int>, s: seq<int>, c1: int, c5: int, top: int)
    requires |o| == |s| == 10
    requires o[0] + 0x4000000 * o[1] + 0x8000000000000 * o[2] == s[0] + 0x4000000 * s[1] + 0x8000000000000 * c1
    requires c1 + 0x4000000 * o[3] + 0x8000000000000 * o[4] + 0x20000000000000000000 * o[5] == s[2] + 0x4000000 * s[3] + 0x8000000000000 * s[4] + 0x20000000000000000000 * s[5] + 0x40000000000000000000000000 * c5
    requires o[6] + c5 + 0x4000000 * o[7] + 0x8000000000000 * o[8] + 0x20000000000000000000 * o[9] == s[6] + 0x4000000 * s[7] + 0x8000000000000 * s[8] + 0x20000000000000000000 * s[9] + 0x40000000000000000000000000 * top
    ensures Val(o) == Val(s) + 0x8000000000000000000000000000000000000000000000000000000000000000 * top
  {
  }

  /** `output[0] += 19 * output[10]` and the last two carries, the second one in 32 bits. */
  method FoldTop(o: seq<int>, top: int) returns (s: seq<int>)
    requires Strict(o) && -0x4000000000 < top < 0x4000000000
    ensures Short(s) && Val(s) == Val(o) + 19 * top
    ensures top == 0 ==> s == o
    ensures -1 <= top <= 1 && o[2] == 0 ==> Strict(s)
  {
    var x0 := AddNineteen(o[0], top);
    var s0, x1 := Over26(x0, o[1]);
    assert S32(x1) == x1;
    var s1, s2 := Over25(S32(x1), o[2]);
    s := [s0, s1, s2, o[3], o[4], o[5], o[6], o[7], o[8], o[9]];
  }

  /** freduce_coefficients: any limbs below 2^62 become short; short ones become strict. */
  method ReduceCoefficients(o: seq<int>) returns (s: seq<int>)
    requires Within(o, 0x3fffffffffffffff, 0x3fffffffffffffff)
    ensures Short(s) && Same(Val(s), Val(o)) && (Short(o) ==> Strict(s))
  {
    var t, top := CarryLimbs(o);
    s := FoldTop(t, top);
    assert Short(o) ==> Strict(s);
    hide Val, Within, Short, Strict;
    SameBy(Val(s), Val(o), -top);
  }

  /** fmul: the product modulo p, short again. */
  method Mul(in1: seq<int>, in2: seq<int>) returns (s: seq<int>)
    requires Spread(in1) && Spread(in2)
    ensures Short(s) && Same(Val(s), Val(in1) * Val(in2))
  {
    assert |in1| == |in2| == 10;
    hide Spread, Short, Val, LongBound, LongForm, Within;
    var m := Product(in1, in2);
    var t := ReduceDegree(m);
    ReducedDegree(m, t, in2, in1);
    s := ReduceCoefficients(t);
  }

  /** fsquare. */
  method Square(in1: seq<int>) returns (s: seq<int>)
    requires Spread(in1)
    ensures Short(s) && Same(Val(s), Val(in1) * Val(in1))
  {
    assert |in1| == 10;
    hide Spread, Short, Val, LongBound, LongForm, Within;
    var m := SquareInner(in1);
    var t := ReduceDegree(m);
    ReducedDegree(m, t, in1, in1);
    s := ReduceCoefficients(t);
  }

  /** fscalar_product(zz, 121665) and the reduction after it. */
  method ScalarProduct(a: seq<int>) returns (s: seq<int>)
    requires Spread(a)
    ensures Short(s) && Same(Val(s), 121665 * Val(a))
  {
    var t := [S64(a[0] * 121665), S64(a[1] * 121665), S64(a[2] * 121665), S64(a[3] * 121665), S64(a[4] * 121665), S64(a[5] * 121665), S64(a[6] * 121665), S64(a[7] * 121665), S64(a[8] * 121665), S64(a[9] * 121665)];
    assert Within(t, 0x3fffffffffffffff, 0x3fffffffffffffff) && Val(t) == 121665 * Val(a);
    s := ReduceCoefficients(t);
  }
}
