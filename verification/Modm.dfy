/** Scalar arithmetic modulo the Ed25519 group order (ed25519-donna/modm-donna-32bit.h): nine limbs
    of 30 bits, Barrett reduction, addition, multiplication and the byte conversions.

    A `...Line` or `...Limb` method is one source line that repeats with other indices; its contract
    says what the line does to integers, and that none of its words wraps where it must not. */
module Modm {
  import opened Bits

  /** The group order m = 2^252 + 27742317777372353535851937790883648493. */
  const ORDER: nat := 0x1000000000000000000000000000000014def9dea2f79cd65812631a5cf5d3ed

  /** mu = floor(2^512 / m). */
  const MU: nat := 0xfffffffffffffffffffffffffffffffeb2106215d086329a7ed9ce5a30a2c131b

  /** modm_m and modm_mu, least significant limb first. */
  /** 2^252 + 27742317777372353535851937790883648493 */
  lemma OrderIs(n: nat)
    requires n == 252
    ensures ORDER == Pow2(n) + 27742317777372353535851937790883648493
  {
    assert Pow2(7) == 128 && Pow2(14) == 128 * 128;
    var a, b, c, d := 14, 28, 56, 112;
    Pow2Add(a, a);
    Pow2Add(b, b);
    Pow2Add(c, c);
    Pow2Add(d, d);
    hide Pow2;
    Pow2Add(d + d, b);
  }

  const ORDER_LIMBS: seq<int> := [0x1cf5d3ed, 0x20498c69, 0x2f79cd65, 0x37be77a8, 0x14, 0x0, 0x0, 0x0, 0x1000]
  const MU_LIMBS: seq<int> := [0xa2c131b, 0x3673968c, 0x6329a7e, 0x1885742, 0x3fffeb21, 0x3fffffff, 0x3fffffff, 0x3fffffff, 0xfffff]

  /** The integer that nine 30-bit limbs stand for. */
  function Val(s: seq<int>): int
    requires |s| == 9
  {
    s[0]
    + 0x40000000 * s[1] + 0x1000000000000000 * s[2]
    + 0x40000000000000000000000 * s[3] + 0x1000000000000000000000000000000 * s[4]
    + 0x40000000000000000000000000000000000000 * s[5] + 0x1000000000000000000000000000000000000000000000 * s[6]
    + 0x40000000000000000000000000000000000000000000000000000 * s[7] + 0x1000000000000000000000000000000000000000000000000000000000000 * s[8]
  }

  /** Nine limbs, the lower eight below 2^30 and the top one below `top`. */
  predicate Limbs(s: seq<int>, top: int)
  {
    && |s| == 9
    && 0 <= s[0] < 0x40000000 && 0 <= s[1] < 0x40000000 && 0 <= s[2] < 0x40000000
    && 0 <= s[3] < 0x40000000 && 0 <= s[4] < 0x40000000 && 0 <= s[5] < 0x40000000
    && 0 <= s[6] < 0x40000000 && 0 <= s[7] < 0x40000000 && 0 <= s[8] < top
  }

  /** The table modm_m. */
  method OrderLimbs() returns (m: seq<int>)
    ensures Limbs(m, 0x1001) && Val(m) == ORDER
  {
    m := ORDER_LIMBS;
  }

  lemma MuLimbs()
    ensures Limbs(MU_LIMBS, 0x100000) && Val(MU_LIMBS) == MU
    ensures MU * ORDER <= 0x100000000000000000000000000000000000000000000000000000000000000000000000000000000000000000000000000000000000000000000000000000000 < (MU + 1) * ORDER
  {
  }

  /** `x & 0x3fffffff`. */
  function Low30(x: nat): (r: nat)
    ensures r == x % 0x40000000
  {
    Pow2Literals();
    AndMask(x, 30, 0x3fffffff);
    And(x, 0x3fffffff)
  }

  /** lt_modm: the sign bit of the wrapped 32-bit difference. */
  function Lt(a: nat, b: nat): (r: nat)
  {
    U32(a - b) / 0x80000000
  }

  // ---- the borrow chains and reduce256_modm

  /** `pb += y; b = lt_modm(x, pb); t = x - pb + (b << 30)` for a 30-bit limb. */
  method BorrowLimb(x: nat, y: nat, pb: nat) returns (t: nat, b: nat)
    requires x < 0x40000000 && y < 0x40000000 && pb <= 1
    ensures t == x - y - pb + 0x40000000 * b && t < 0x40000000 && b <= 1
  {
    var p := U32(pb + y);
    b := Lt(x, p);
    t := U32(x - p + b * 0x40000000);
  }

  /** The last line of a chain, which puts the borrow back at 2^k = back. */
  method BorrowTop(x: nat, y: nat, pb: nat, back: nat) returns (t: nat, b: nat)
    requires x < 0x80000000 && y < 0x40000000 && pb <= 1 && back <= 0x40000000
    ensures b == if x < y + pb then 1 else 0
    ensures b == 0 ==> t == x - y - pb
    ensures b == 1 && y < back ==> t == x - y - pb + back && t < back
    ensures t < 0x1_0000_0000
  {
    var p := U32(pb + y);
    b := Lt(x, p);
    t := U32(x - p + b * back);
  }

  /** The borrow chain x - y over nine limbs. */
  method SubtractLimbs(x: seq<int>, y: seq<int>, back: nat) returns (t: seq<int>, b: int)
    requires Limbs(x, 0x80000000) && Limbs(y, back) && back <= 0x40000000
    ensures Limbs(t, 0x1_0000_0000)
    ensures b == if Val(x) < Val(y) then 1 else 0
    ensures b == 0 ==> t[8] <= x[8] && Val(t) == Val(x) - Val(y)
    ensures b == 1 ==> t[8] < back && Val(t) == Val(x) - Val(y) + back * 0x1000000000000000000000000000000000000000000000000000000000000
  {
    var t0, b0 := BorrowLimb(x[0], y[0], 0);
    var t1, b1 := BorrowLimb(x[1], y[1], b0);
    var t2, b2 := BorrowLimb(x[2], y[2], b1);
    var t3, b3 := BorrowLimb(x[3], y[3], b2);
    var t4, b4 := BorrowLimb(x[4], y[4], b3);
    var t5, b5 := BorrowLimb(x[5], y[5], b4);
    var t6, b6 := BorrowLimb(x[6], y[6], b5);
    var t7, b7 := BorrowLimb(x[7], y[7], b6);
    var t8, b8 := BorrowTop(x[8], y[8], b7, back);
    ghost var low := t0 + 0x40000000 * t1 + 0x1000000000000000 * t2 + 0x40000000000000000000000 * t3 + 0x1000000000000000000000000000000 * t4 + 0x40000000000000000000000000000000000000 * t5 + 0x1000000000000000000000000000000000000000000000 * t6 + 0x40000000000000000000000000000000000000000000000000000 * t7;
    assert 0 <= low < 0x1000000000000000000000000000000000000000000000000000000000000 && Val(x) - Val(y) == low + 0x1000000000000000000000000000000000000000000000000000000000000 * (x[8] - y[8] - b7);
    t := [t0, t1, t2, t3, t4, t5, t6, t7, t8];
    b := b8;
  }

  /** `r ^= mask & (r ^ t)` */
  method SelectLimb(mask: nat, r: nat, t: nat) returns (s: nat)
    requires mask == 0 || mask == 0xffff_ffff
    requires r < 0x1_0000_0000 && t < 0x1_0000_0000
    ensures s == if mask == 0 then r else t
  {
    Select(mask, r, t);
    s := Xor(r, And(mask, Xor(r, t)));
  }

  /** The limbs reduce256_modm leaves: x - m selected when there was no borrow, x itself otherwise. */
  method ReduceLimbs(x: seq<int>) returns (s: seq<int>)
    requires Limbs(x, 0x80000000)
    ensures Limbs(s, 0x80000000) && s[8] <= x[8]
    ensures Val(s) == if Val(x) < ORDER then Val(x) else Val(x) - ORDER
  {
    var m := OrderLimbs();
    var t, b := SubtractLimbs(x, m, 0x10000);
    var mask := U32(b - 1);
    var s0 := SelectLimb(mask, x[0], t[0]);
    var s1 := SelectLimb(mask, x[1], t[1]);
    var s2 := SelectLimb(mask, x[2], t[2]);
    var s3 := SelectLimb(mask, x[3], t[3]);
    var s4 := SelectLimb(mask, x[4], t[4]);
    var s5 := SelectLimb(mask, x[5], t[5]);
    var s6 := SelectLimb(mask, x[6], t[6]);
    var s7 := SelectLimb(mask, x[7], t[7]);
    var s8 := SelectLimb(mask, x[8], t[8]);
    s := [s0, s1, s2, s3, s4, s5, s6, s7, s8];
    if b == 0 {
      assert s == t;
    } else {
      assert s == x;
    }
  }

  method Store(r: array<int>, s: seq<int>)
    requires r.Length == |s| == 9
    modifies r
    ensures r[..] == s
  {
    r[0], r[1], r[2], r[3], r[4], r[5], r[6], r[7], r[8] := s[0], s[1], s[2], s[3], s[4], s[5], s[6], s[7], s[8];
  }

  /** reduce256_modm: one conditional subtraction of m, in place and without a branch. */
  method Reduce256(r: array<int>)
    requires r.Length == 9 && Limbs(r[..], 0x80000000)
    modifies r
    ensures Limbs(r[..], 0x80000000) && r[8] <= old(r[8])
    ensures Val(r[..]) == var v := Val(old(r[..])); if v < ORDER then v else v - ORDER
  {
    var s := ReduceLimbs(r[..]);
    Store(r, s);
  }

  // ---- Barrett reduction (HAC, Algorithm 14.42)

  /** `c += s; f = c; six' = (f >> 24) & 0x3f; c >>= 30`, the first column whose bits are kept. */
  method QuotientFirst(c: int, s: int) returns (six: int, c': int, ghost lo: int)
    requires 0 <= c < 0x400000000 && 0 <= s < 0xF000000000000000
    ensures c + s == lo + 0x1000000 * six + 0x40000000 * c'
    ensures 0 <= lo < 0x1000000 && 0 <= six < 0x40 && 0 <= c' < 0x400000000
  {
    hide And, Or, Low30;
    var t := U64(c + s);
    var f := U32(t);
    lo := t % 0x1000000;
    Split30(t);
    SixBits(f);
    ShiftedLow(t, f);
    six := And(f / 0x1000000, 0x3f);
    c' := t / 0x40000000;
  }

  /** `c += s; f = c; q |= (f << 6) & 0x3fffffff; six' = (f >> 24) & 0x3f; c >>= 30`: six bits of the
      column start the next limb of the quotient and 24 complete the current one. */
  method QuotientLine(c: int, s: int, six: int) returns (q: int, six': int, c': int, ghost lo: int)
    requires 0 <= c < 0x400000000 && 0 <= s < 0xF000000000000000 && 0 <= six < 0x40
    ensures c + s == lo + 0x1000000 * six' + 0x40000000 * c'
    ensures q == six + 0x40 * lo && 0 <= q < 0x40000000
    ensures 0 <= lo < 0x1000000 && 0 <= six' < 0x40 && 0 <= c' < 0x400000000
  {
    hide And, Or, Low30;
    var t := U64(c + s);
    var f := U32(t);
    lo := t % 0x1000000;
    Split30(t);
    SixBits(f);
    ShiftedLow(t, f);
    OrSix(lo, six);
    q := Or(six, Low30(U32(f * 0x40)));
    six' := And(f / 0x1000000, 0x3f);
    c' := t / 0x40000000;
  }

  /** `c += s; f = c; q |= (f << 6) & 0x3fffffff; top = (uint32_t)(c >> 24)`. */
  method QuotientLast(c: int, s: int, six: int) returns (q: int, top: int, ghost lo: int)
    requires 0 <= c < 0x400000000 && 0 <= s < 0x10000000000000 && 0 <= six < 0x40
    ensures c + s == lo + 0x1000000 * top
    ensures q == six + 0x40 * lo && 0 <= q < 0x40000000
    ensures 0 <= lo < 0x1000000 && 0 <= top < 0x20000000
  {
    hide And, Or, Low30;
    var t := U64(c + s);
    var f := U32(t);
    lo := t % 0x1000000;
    ShiftedLow(t, f);
    OrSix(lo, six);
    q := Or(six, Low30(U32(f * 0x40)));
    top := U32(t / 0x1000000);
  }

  /** Bits 0 to 23, 24 to 29 and 30 up of a word. */
  lemma Split30(t: nat)
    ensures t == t % 0x1000000 + 0x1000000 * (t / 0x1000000 % 0x40) + 0x40000000 * (t / 0x40000000)
  {
    var lo, hi := t % 0x1000000, t / 0x1000000;
    var six, rest := hi % 0x40, hi / 0x40;
    assert t == lo + 0x1000000 * hi && hi == six + 0x40 * rest;
    DivModUnique(t, 0x40000000, rest, lo + 0x1000000 * six);
  }

  lemma SixBits(f: nat)
    ensures And(f / 0x1000000, 0x3f) == f / 0x1000000 % 0x40
  {
    var k := 6;
    assert Pow2(6) == 0x40;
    AndMask(f / 0x1000000, k, 0x3f);
  }

  /** Bits 24 to 29 survive the truncation to 32 bits. */
  lemma TruncatedParts(t: nat, lo: nat, hi: nat)
    requires lo == t % 0x1000000 && hi == t / 0x1000000
    ensures U32(t) == lo + 0x1000000 * (hi % 0x100)
    ensures U32(t) / 0x1000000 % 0x40 == hi % 0x40
  {
    DivModUnique(t, 0x1_0000_0000, hi / 0x100, lo + 0x1000000 * (hi % 0x100));
    DivModUnique(U32(t), 0x1000000, hi % 0x100, lo);
    var q := hi / 0x100;
    DivModUnique(hi, 0x40, 4 * q + hi % 0x100 / 0x40, hi % 0x100 % 0x40);
  }

  lemma ShiftSix(lo: nat, h: nat)
    requires lo < 0x1000000 && h < 0x100
    ensures U32((lo + 0x1000000 * h) * 0x40) % 0x40000000 == lo * 0x40
  {
    DivModUnique((lo + 0x1000000 * h) * 0x40, 0x1_0000_0000, h / 4, 0x40000000 * (h % 4) + lo * 0x40);
    DivModUnique(0x40000000 * (h % 4) + lo * 0x40, 0x40000000, h % 4, lo * 0x40);
  }

  lemma ShiftedLow(t: nat, f: nat)
    requires f == U32(t)
    ensures Low30(U32(f * 0x40)) == t % 0x1000000 * 0x40
    ensures f / 0x1000000 % 0x40 == t / 0x1000000 % 0x40
  {
    hide Low30;
    var lo, hi := t % 0x1000000, t / 0x1000000;
    TruncatedParts(t, lo, hi);
    ShiftSix(lo, hi % 0x100);
  }

  lemma OrSix(lo: nat, six: nat)
    requires six < 0x40
    ensures Or(six, lo * 0x40) == six + 0x40 * lo
  {
    var k := 6;
    assert Pow2(6) == 0x40;
    OrDisjoint(lo, six, k);
  }

  // The columns of mu * q1, column k collecting the products of weight 2^(30 k).

  function MuColumn0(x: seq<int>): (s: int)
    requires Limbs(x, 0x1000000)
    ensures 0 <= s < 0xa000000000000000
  {
    0xa2c131b * x[0]
  }

  function MuColumn1(x: seq<int>): (s: int)
    requires Limbs(x, 0x1000000)
    ensures 0 <= s < 0xa000000000000000
  {
    0xa2c131b * x[1] + 0x3673968c * x[0]
  }

  function MuColumn2(x: seq<int>): (s: int)
    requires Limbs(x, 0x1000000)
    ensures 0 <= s < 0xa000000000000000
  {
    0xa2c131b * x[2] + 0x3673968c * x[1] + 0x6329a7e * x[0]
  }

  function MuColumn3(x: seq<int>): (s: int)
    requires Limbs(x, 0x1000000)
    ensures 0 <= s < 0xa000000000000000
  {
    0xa2c131b * x[3] + 0x3673968c * x[2] + 0x6329a7e * x[1] + 0x1885742 * x[0]
  }

  function MuColumn4(x: seq<int>): (s: int)
    requires Limbs(x, 0x1000000)
    ensures 0 <= s < 0xa000000000000000
  {
    0xa2c131b * x[4] + 0x3673968c * x[3] + 0x6329a7e * x[2] + 0x1885742 * x[1] + 0x3fffeb21 * x[0]
  }

  function MuColumn5(x: seq<int>): (s: int)
    requires Limbs(x, 0x1000000)
    ensures 0 <= s < 0xa000000000000000
  {
    0xa2c131b * x[5] + 0x3673968c * x[4] + 0x6329a7e * x[3] + 0x1885742 * x[2] + 0x3fffeb21 * x[1] + 0x3fffffff * x[0]
  }

  function MuColumn6(x: seq<int>): (s: int)
    requires Limbs(x, 0x1000000)
    ensures 0 <= s < 0xa000000000000000
  {
    0xa2c131b * x[6] + 0x3673968c * x[5] + 0x6329a7e * x[4] + 0x1885742 * x[3] + 0x3fffeb21 * x[2] + 0x3fffffff * x[1] + 0x3fffffff * x[0]
  }

  function MuColumn7(x: seq<int>): (s: int)
    requires Limbs(x, 0x1000000)
    ensures 0 <= s < 0xa000000000000000
  {
    0xa2c131b * x[7] + 0x3673968c * x[6] + 0x6329a7e * x[5] + 0x1885742 * x[4] + 0x3fffeb21 * x[3] + 0x3fffffff * x[2] + 0x3fffffff * x[1] + 0x3fffffff * x[0]
  }

  function MuColumn8(x: seq<int>): (s: int)
    requires Limbs(x, 0x1000000)
    ensures 0 <= s < 0xa000000000000000
  {
    0xa2c131b * x[8] + 0x3673968c * x[7] + 0x6329a7e * x[6] + 0x1885742 * x[5] + 0x3fffeb21 * x[4] + 0x3fffffff * x[3] + 0x3fffffff * x[2] + 0x3fffffff * x[1] + 0xfffff * x[0]
  }

  function MuColumn9(x: seq<int>): (s: int)
    requires Limbs(x, 0x1000000)
    ensures 0 <= s < 0xa000000000000000
  {
    0x3673968c * x[8] + 0x6329a7e * x[7] + 0x1885742 * x[6] + 0x3fffeb21 * x[5] + 0x3fffffff * x[4] + 0x3fffffff * x[3] + 0x3fffffff * x[2] + 0xfffff * x[1]
  }

  function MuColumn10(x: seq<int>): (s: int)
    requires Limbs(x, 0x1000000)
    ensures 0 <= s < 0xa000000000000000
  {
    0x6329a7e * x[8] + 0x1885742 * x[7] + 0x3fffeb21 * x[6] + 0x3fffffff * x[5] + 0x3fffffff * x[4] + 0x3fffffff * x[3] + 0xfffff * x[2]
  }

  function MuColumn11(x: seq<int>): (s: int)
    requires Limbs(x, 0x1000000)
    ensures 0 <= s < 0xa000000000000000
  {
    0x1885742 * x[8] + 0x3fffeb21 * x[7] + 0x3fffffff * x[6] + 0x3fffffff * x[5] + 0x3fffffff * x[4] + 0xfffff * x[3]
  }

  function MuColumn12(x: seq<int>): (s: int)
    requires Limbs(x, 0x1000000)
    ensures 0 <= s < 0xa000000000000000
  {
    0x3fffeb21 * x[8] + 0x3fffffff * x[7] + 0x3fffffff * x[6] + 0x3fffffff * x[5] + 0xfffff * x[4]
  }

  function MuColumn13(x: seq<int>): (s: int)
    requires Limbs(x, 0x1000000)
    ensures 0 <= s < 0xa000000000000000
  {
    0x3fffffff * x[8] + 0x3fffffff * x[7] + 0x3fffffff * x[6] + 0xfffff * x[5]
  }

  function MuColumn14(x: seq<int>): (s: int)
    requires Limbs(x, 0x1000000)
    ensures 0 <= s < 0xa000000000000000
  {
    0x3fffffff * x[8] + 0x3fffffff * x[7] + 0xfffff * x[6]
  }

  function MuColumn15(x: seq<int>): (s: int)
    requires Limbs(x, 0x1000000)
    ensures 0 <= s < 0xa000000000000000
  {
    0x3fffffff * x[8] + 0xfffff * x[7]
  }

  function MuColumn16(x: seq<int>): (s: int)
    requires Limbs(x, 0x1000000)
    ensures 0 <= s < 0x100000000000
  {
    0xfffff * x[8]
  }

  lemma MuProduct(x: seq<int>)
    requires Limbs(x, 0x1000000)
    ensures MU * Val(x) == 0x1 * MuColumn0(x)
      + 0x40000000 * MuColumn1(x)
      + 0x1000000000000000 * MuColumn2(x)
      + 0x40000000000000000000000 * MuColumn3(x)
      + 0x1000000000000000000000000000000 * MuColumn4(x)
      + 0x40000000000000000000000000000000000000 * MuColumn5(x)
      + 0x1000000000000000000000000000000000000000000000 * MuColumn6(x)
      + 0x40000000000000000000000000000000000000000000000000000 * MuColumn7(x)
      + 0x1000000000000000000000000000000000000000000000000000000000000 * MuColumn8(x)
      + 0x40000000000000000000000000000000000000000000000000000000000000000000 * MuColumn9(x)
      + 0x1000000000000000000000000000000000000000000000000000000000000000000000000000 * MuColumn10(x)
      + 0x40000000000000000000000000000000000000000000000000000000000000000000000000000000000 * MuColumn11(x)
      + 0x1000000000000000000000000000000000000000000000000000000000000000000000000000000000000000000 * MuColumn12(x)
      + 0x40000000000000000000000000000000000000000000000000000000000000000000000000000000000000000000000000 * MuColumn13(x)
      + 0x1000000000000000000000000000000000000000000000000000000000000000000000000000000000000000000000000000000000 * MuColumn14(x)
      + 0x40000000000000000000000000000000000000000000000000000000000000000000000000000000000000000000000000000000000000000 * MuColumn15(x)
      + 0x1000000000000000000000000000000000000000000000000000000000000000000000000000000000000000000000000000000000000000000000000 * MuColumn16(x)
  {
    MuProductOf(x[0], x[1], x[2], x[3], x[4], x[5], x[6], x[7], x[8],
      MuColumn0(x), MuColumn1(x), MuColumn2(x), MuColumn3(x), MuColumn4(x), MuColumn5(x), MuColumn6(x), MuColumn7(x), MuColumn8(x), MuColumn9(x), MuColumn10(x), MuColumn11(x), MuColumn12(x), MuColumn13(x), MuColumn14(x), MuColumn15(x), MuColumn16(x));
  }

  lemma MuProductOf(x0: int, x1: int, x2: int, x3: int, x4: int, x5: int, x6: int, x7: int, x8: int,
      s0: int, s1: int, s2: int, s3: int, s4: int, s5: int, s6: int, s7: int, s8: int, s9: int, s10: int, s11: int, s12: int, s13: int, s14: int, s15: int, s16: int)
    requires s0 == 0xa2c131b * x0
    requires s1 == 0xa2c131b * x1 + 0x3673968c * x0
    requires s2 == 0xa2c131b * x2 + 0x3673968c * x1 + 0x6329a7e * x0
    requires s3 == 0xa2c131b * x3 + 0x3673968c * x2 + 0x6329a7e * x1 + 0x1885742 * x0
    requires s4 == 0xa2c131b * x4 + 0x3673968c * x3 + 0x6329a7e * x2 + 0x1885742 * x1 + 0x3fffeb21 * x0
    requires s5 == 0xa2c131b * x5 + 0x3673968c * x4 + 0x6329a7e * x3 + 0x1885742 * x2 + 0x3fffeb21 * x1 + 0x3fffffff * x0
    requires s6 == 0xa2c131b * x6 + 0x3673968c * x5 + 0x6329a7e * x4 + 0x1885742 * x3 + 0x3fffeb21 * x2 + 0x3fffffff * x1 + 0x3fffffff * x0
    requires s7 == 0xa2c131b * x7 + 0x3673968c * x6 + 0x6329a7e * x5 + 0x1885742 * x4 + 0x3fffeb21 * x3 + 0x3fffffff * x2 + 0x3fffffff * x1 + 0x3fffffff * x0
    requires s8 == 0xa2c131b * x8 + 0x3673968c * x7 + 0x6329a7e * x6 + 0x1885742 * x5 + 0x3fffeb21 * x4 + 0x3fffffff * x3 + 0x3fffffff * x2 + 0x3fffffff * x1 + 0xfffff * x0
    requires s9 == 0x3673968c * x8 + 0x6329a7e * x7 + 0x1885742 * x6 + 0x3fffeb21 * x5 + 0x3fffffff * x4 + 0x3fffffff * x3 + 0x3fffffff * x2 + 0xfffff * x1
    requires s10 == 0x6329a7e * x8 + 0x1885742 * x7 + 0x3fffeb21 * x6 + 0x3fffffff * x5 + 0x3fffffff * x4 + 0x3fffffff * x3 + 0xfffff * x2
    requires s11 == 0x1885742 * x8 + 0x3fffeb21 * x7 + 0x3fffffff * x6 + 0x3fffffff * x5 + 0x3fffffff * x4 + 0xfffff * x3
    requires s12 == 0x3fffeb21 * x8 + 0x3fffffff * x7 + 0x3fffffff * x6 + 0x3fffffff * x5 + 0xfffff * x4
    requires s13 == 0x3fffffff * x8 + 0x3fffffff * x7 + 0x3fffffff * x6 + 0xfffff * x5
    requires s14 == 0x3fffffff * x8 + 0x3fffffff * x7 + 0xfffff * x6
    requires s15 == 0x3fffffff * x8 + 0xfffff * x7
    requires s16 == 0xfffff * x8
    ensures MU * (x0 + 0x40000000 * x1 + 0x1000000000000000 * x2 + 0x40000000000000000000000 * x3 + 0x1000000000000000000000000000000 * x4 + 0x40000000000000000000000000000000000000 * x5 + 0x1000000000000000000000000000000000000000000000 * x6 + 0x40000000000000000000000000000000000000000000000000000 * x7 + 0x1000000000000000000000000000000000000000000000000000000000000 * x8) == 0x1 * s0
      + 0x40000000 * s1
      + 0x1000000000000000 * s2
      + 0x40000000000000000000000 * s3
      + 0x1000000000000000000000000000000 * s4
      + 0x40000000000000000000000000000000000000 * s5
      + 0x1000000000000000000000000000000000000000000000 * s6
      + 0x40000000000000000000000000000000000000000000000000000 * s7
      + 0x1000000000000000000000000000000000000000000000000000000000000 * s8
      + 0x40000000000000000000000000000000000000000000000000000000000000000000 * s9
      + 0x1000000000000000000000000000000000000000000000000000000000000000000000000000 * s10
      + 0x40000000000000000000000000000000000000000000000000000000000000000000000000000000000 * s11
      + 0x1000000000000000000000000000000000000000000000000000000000000000000000000000000000000000000 * s12
      + 0x40000000000000000000000000000000000000000000000000000000000000000000000000000000000000000000000000 * s13
      + 0x1000000000000000000000000000000000000000000000000000000000000000000000000000000000000000000000000000000000 * s14
      + 0x40000000000000000000000000000000000000000000000000000000000000000000000000000000000000000000000000000000000000000 * s15
      + 0x1000000000000000000000000000000000000000000000000000000000000000000000000000000000000000000000000000000000000000000000000 * s16
  {
  }

  /** The columns 0 to 6, which the code never computes, are worth less than 2^244. */
  lemma DroppedColumns(x: seq<int>)
    requires Limbs(x, 0x1000000)
    ensures 0 <= MU * Val(x) - (0x40000000000000000000000000000000000000000000000000000 * MuColumn7(x)
      + 0x1000000000000000000000000000000000000000000000000000000000000 * MuColumn8(x)
      + 0x40000000000000000000000000000000000000000000000000000000000000000000 * MuColumn9(x)
      + 0x1000000000000000000000000000000000000000000000000000000000000000000000000000 * MuColumn10(x)
      + 0x40000000000000000000000000000000000000000000000000000000000000000000000000000000000 * MuColumn11(x)
      + 0x1000000000000000000000000000000000000000000000000000000000000000000000000000000000000000000 * MuColumn12(x)
      + 0x40000000000000000000000000000000000000000000000000000000000000000000000000000000000000000000000000 * MuColumn13(x)
      + 0x1000000000000000000000000000000000000000000000000000000000000000000000000000000000000000000000000000000000 * MuColumn14(x)
      + 0x40000000000000000000000000000000000000000000000000000000000000000000000000000000000000000000000000000000000000000 * MuColumn15(x)
      + 0x1000000000000000000000000000000000000000000000000000000000000000000000000000000000000000000000000000000000000000000000000 * MuColumn16(x)) < 0x10000000000000000000000000000000000000000000000000000000000000
  {
    hide MuColumn0, MuColumn1, MuColumn2, MuColumn3, MuColumn4, MuColumn5, MuColumn6, MuColumn7, MuColumn8, MuColumn9, MuColumn10, MuColumn11, MuColumn12, MuColumn13, MuColumn14, MuColumn15, MuColumn16, Val, Limbs;
    MuProduct(x);
  }

  /** The carry chain over the columns 7 to 16 and the extraction of the bits from 264 up. */
  method QuotientLimbs(s7: int, s8: int, s9: int, s10: int, s11: int, s12: int, s13: int, s14: int, s15: int, s16: int)
      returns (q3: seq<int>)
    requires 0 <= s7 < 0xa000000000000000
    requires 0 <= s8 < 0xa000000000000000
    requires 0 <= s9 < 0xa000000000000000
    requires 0 <= s10 < 0xa000000000000000
    requires 0 <= s11 < 0xa000000000000000
    requires 0 <= s12 < 0xa000000000000000
    requires 0 <= s13 < 0xa000000000000000
    requires 0 <= s14 < 0xa000000000000000
    requires 0 <= s15 < 0xa000000000000000
    requires 0 <= s16 < 0x100000000000
    ensures Limbs(q3, 0x40000000) && Val(q3) >= 0
    ensures 0 <= (0x40000000000000000000000000000000000000000000000000000 * s7
      + 0x1000000000000000000000000000000000000000000000000000000000000 * s8
      + 0x40000000000000000000000000000000000000000000000000000000000000000000 * s9
      + 0x1000000000000000000000000000000000000000000000000000000000000000000000000000 * s10
      + 0x40000000000000000000000000000000000000000000000000000000000000000000000000000000000 * s11
      + 0x1000000000000000000000000000000000000000000000000000000000000000000000000000000000000000000 * s12
      + 0x40000000000000000000000000000000000000000000000000000000000000000000000000000000000000000000000000 * s13
      + 0x1000000000000000000000000000000000000000000000000000000000000000000000000000000000000000000000000000000000 * s14
      + 0x40000000000000000000000000000000000000000000000000000000000000000000000000000000000000000000000000000000000000000 * s15
      + 0x1000000000000000000000000000000000000000000000000000000000000000000000000000000000000000000000000000000000000000000000000 * s16) - 0x1000000000000000000000000000000000000000000000000000000000000000000 * Val(q3) < 0x1000000000000000000000000000000000000000000000000000000000000000000
  {
    var c7 := s7 / 0x40000000;
    var six8, c8, lo8 := QuotientFirst(c7, s8);
    var y0, six9, c9, lo9 := QuotientLine(c8, s9, six8);
    var y1, six10, c10, lo10 := QuotientLine(c9, s10, six9);
    var y2, six11, c11, lo11 := QuotientLine(c10, s11, six10);
    var y3, six12, c12, lo12 := QuotientLine(c11, s12, six11);
    var y4, six13, c13, lo13 := QuotientLine(c12, s13, six12);
    var y5, six14, c14, lo14 := QuotientLine(c13, s14, six13);
    var y6, six15, c15, lo15 := QuotientLine(c14, s15, six14);
    var y7, y8, lo16 := QuotientLast(c15, s16, six15);
    q3 := [y0, y1, y2, y3, y4, y5, y6, y7, y8];
    assert 0x40000000000000000000000000000000000000000000000000000 * s7
      + 0x1000000000000000000000000000000000000000000000000000000000000 * s8
      + 0x40000000000000000000000000000000000000000000000000000000000000000000 * s9
      + 0x1000000000000000000000000000000000000000000000000000000000000000000000000000 * s10
      + 0x40000000000000000000000000000000000000000000000000000000000000000000000000000000000 * s11
      + 0x1000000000000000000000000000000000000000000000000000000000000000000000000000000000000000000 * s12
      + 0x40000000000000000000000000000000000000000000000000000000000000000000000000000000000000000000000000 * s13
      + 0x1000000000000000000000000000000000000000000000000000000000000000000000000000000000000000000000000000000000 * s14
      + 0x40000000000000000000000000000000000000000000000000000000000000000000000000000000000000000000000000000000000000000 * s15
      + 0x1000000000000000000000000000000000000000000000000000000000000000000000000000000000000000000000000000000000000000000000000 * s16 == 0x1000000000000000000000000000000000000000000000000000000000000000000 * (y0 + 0x40000000 * y1 + 0x1000000000000000 * y2 + 0x40000000000000000000000 * y3 + 0x1000000000000000000000000000000 * y4 + 0x40000000000000000000000000000000000000 * y5 + 0x1000000000000000000000000000000000000000000000 * y6 + 0x40000000000000000000000000000000000000000000000000000 * y7 + 0x1000000000000000000000000000000000000000000000000000000000000 * y8)
      + 0x1000000000000000000000000000000000000000000000000000000000000 * lo8 + 0x40000000000000000000000000000000000000000000000000000 * (s7 - 0x40000000 * c7);
  }

  /** q3 = (mu * q1) >> 264 with columns 0 to 6 of the product left out: less than 2^244 is lost. */
  method BarrettQuotient(q1: seq<int>) returns (q3: seq<int>)
    requires Limbs(q1, 0x1000000)
    ensures Limbs(q3, 0x40000000) && Val(q3) >= 0
    ensures 0x1000000000000000000000000000000000000000000000000000000000000000000 * Val(q3) <= MU * Val(q1)
    ensures MU * Val(q1) < 0x1000000000000000000000000000000000000000000000000000000000000000000 * (Val(q3) + 1) + 0x10000000000000000000000000000000000000000000000000000000000000
  {
    hide MuColumn0, MuColumn1, MuColumn2, MuColumn3, MuColumn4, MuColumn5, MuColumn6, MuColumn7, MuColumn8, MuColumn9, MuColumn10, MuColumn11, MuColumn12, MuColumn13, MuColumn14, MuColumn15, MuColumn16, Val, Limbs;
    var s7 := U64(MuColumn7(q1));
    DroppedColumns(q1);
    q3 := QuotientLimbs(s7, MuColumn8(q1), MuColumn9(q1), MuColumn10(q1), MuColumn11(q1), MuColumn12(q1),
      MuColumn13(q1), MuColumn14(q1), MuColumn15(q1), MuColumn16(q1));
  }

  /** `c += s; r2 = c & 0x3fffffff; c >>= 30`. */
  method ProductLine(c: int, s: int) returns (d: int, c': int)
    requires 0 <= c < 0x400000000 && 0 <= s < 0xa000000000000000
    ensures c + s == d + 0x40000000 * c' && 0 <= d < 0x40000000 && 0 <= c' < 0x400000000
  {
    hide And;
    var t := U64(c + s);
    d := Low30(t);
    c' := t / 0x40000000;
  }

  /** `c += s; r2 = c & 0xffffff`. */
  method ProductTop(c: int, s: int) returns (d: int, ghost c': int)
    requires 0 <= c < 0x400000000 && 0 <= s < 0xa000000000000000
    ensures c + s == d + 0x1000000 * c' && 0 <= d < 0x1000000
  {
    var t := U64(c + s);
    Low24(t);
    d := And(t, 0xffffff);
    c' := t / 0x1000000;
  }

  lemma Low24(t: nat)
    ensures And(t, 0xffffff) == t % 0x1000000
  {
    Pow2Literals();
    AndMask(t, 24, 0xffffff);
  }

  // The columns of m * q3.

  function OrderColumn0(x: seq<int>): (s: int)
    requires Limbs(x, 0x40000000)
    ensures 0 <= s < 0xa000000000000000
  {
    0x1cf5d3ed * x[0]
  }

  function OrderColumn1(x: seq<int>): (s: int)
    requires Limbs(x, 0x40000000)
    ensures 0 <= s < 0xa000000000000000
  {
    0x1cf5d3ed * x[1] + 0x20498c69 * x[0]
  }

  function OrderColumn2(x: seq<int>): (s: int)
    requires Limbs(x, 0x40000000)
    ensures 0 <= s < 0xa000000000000000
  {
    0x1cf5d3ed * x[2] + 0x20498c69 * x[1] + 0x2f79cd65 * x[0]
  }

  function OrderColumn3(x: seq<int>): (s: int)
    requires Limbs(x, 0x40000000)
    ensures 0 <= s < 0xa000000000000000
  {
    0x1cf5d3ed * x[3] + 0x20498c69 * x[2] + 0x2f79cd65 * x[1] + 0x37be77a8 * x[0]
  }

  function OrderColumn4(x: seq<int>): (s: int)
    requires Limbs(x, 0x40000000)
    ensures 0 <= s < 0xa000000000000000
  {
    0x1cf5d3ed * x[4] + 0x20498c69 * x[3] + 0x2f79cd65 * x[2] + 0x37be77a8 * x[1] + 0x14 * x[0]
  }

  function OrderColumn5(x: seq<int>): (s: int)
    requires Limbs(x, 0x40000000)
    ensures 0 <= s < 0xa000000000000000
  {
    0x1cf5d3ed * x[5] + 0x20498c69 * x[4] + 0x2f79cd65 * x[3] + 0x37be77a8 * x[2] + 0x14 * x[1] + 0x0 * x[0]
  }

  function OrderColumn6(x: seq<int>): (s: int)
    requires Limbs(x, 0x40000000)
    ensures 0 <= s < 0xa000000000000000
  {
    0x1cf5d3ed * x[6] + 0x20498c69 * x[5] + 0x2f79cd65 * x[4] + 0x37be77a8 * x[3] + 0x14 * x[2] + 0x0 * x[1] + 0x0 * x[0]
  }

  function OrderColumn7(x: seq<int>): (s: int)
    requires Limbs(x, 0x40000000)
    ensures 0 <= s < 0xa000000000000000
  {
    0x1cf5d3ed * x[7] + 0x20498c69 * x[6] + 0x2f79cd65 * x[5] + 0x37be77a8 * x[4] + 0x14 * x[3] + 0x0 * x[2] + 0x0 * x[1] + 0x0 * x[0]
  }

  function OrderColumn8(x: seq<int>): (s: int)
    requires Limbs(x, 0x40000000)
    ensures 0 <= s < 0xa000000000000000
  {
    0x1cf5d3ed * x[8] + 0x20498c69 * x[7] + 0x2f79cd65 * x[6] + 0x37be77a8 * x[5] + 0x14 * x[4] + 0x0 * x[3] + 0x0 * x[2] + 0x0 * x[1] + 0x1000 * x[0]
  }

  function OrderColumn9(x: seq<int>): (s: int)
    requires Limbs(x, 0x40000000)
    ensures 0 <= s < 0xa000000000000000
  {
    0x20498c69 * x[8] + 0x2f79cd65 * x[7] + 0x37be77a8 * x[6] + 0x14 * x[5] + 0x0 * x[4] + 0x0 * x[3] + 0x0 * x[2] + 0x1000 * x[1]
  }

  function OrderColumn10(x: seq<int>): (s: int)
    requires Limbs(x, 0x40000000)
    ensures 0 <= s < 0xa000000000000000
  {
    0x2f79cd65 * x[8] + 0x37be77a8 * x[7] + 0x14 * x[6] + 0x0 * x[5] + 0x0 * x[4] + 0x0 * x[3] + 0x1000 * x[2]
  }

  function OrderColumn11(x: seq<int>): (s: int)
    requires Limbs(x, 0x40000000)
    ensures 0 <= s < 0xa000000000000000
  {
    0x37be77a8 * x[8] + 0x14 * x[7] + 0x0 * x[6] + 0x0 * x[5] + 0x0 * x[4] + 0x1000 * x[3]
  }

  function OrderColumn12(x: seq<int>): (s: int)
    requires Limbs(x, 0x40000000)
    ensures 0 <= s < 0xa000000000000000
  {
    0x14 * x[8] + 0x0 * x[7] + 0x0 * x[6] + 0x0 * x[5] + 0x1000 * x[4]
  }

  function OrderColumn13(x: seq<int>): (s: int)
    requires Limbs(x, 0x40000000)
    ensures 0 <= s < 0xa000000000000000
  {
    0x0 * x[8] + 0x0 * x[7] + 0x0 * x[6] + 0x1000 * x[5]
  }

  function OrderColumn14(x: seq<int>): (s: int)
    requires Limbs(x, 0x40000000)
    ensures 0 <= s < 0xa000000000000000
  {
    0x0 * x[8] + 0x0 * x[7] + 0x1000 * x[6]
  }

  function OrderColumn15(x: seq<int>): (s: int)
    requires Limbs(x, 0x40000000)
    ensures 0 <= s < 0xa000000000000000
  {
    0x0 * x[8] + 0x1000 * x[7]
  }

  function OrderColumn16(x: seq<int>): (s: int)
    requires Limbs(x, 0x40000000)
    ensures 0 <= s < 0xa000000000000000
  {
    0x1000 * x[8]
  }

  lemma OrderProduct(x: seq<int>)
    requires Limbs(x, 0x40000000)
    ensures ORDER * Val(x) == OrderColumn0(x)
      + 0x40000000 * OrderColumn1(x)
      + 0x1000000000000000 * OrderColumn2(x)
      + 0x40000000000000000000000 * OrderColumn3(x)
      + 0x1000000000000000000000000000000 * OrderColumn4(x)
      + 0x40000000000000000000000000000000000000 * OrderColumn5(x)
      + 0x1000000000000000000000000000000000000000000000 * OrderColumn6(x)
      + 0x40000000000000000000000000000000000000000000000000000 * OrderColumn7(x)
      + 0x1000000000000000000000000000000000000000000000000000000000000 * OrderColumn8(x)
      + 0x40000000000000000000000000000000000000000000000000000000000000000000 * OrderColumn9(x)
      + 0x1000000000000000000000000000000000000000000000000000000000000000000000000000 * OrderColumn10(x)
      + 0x40000000000000000000000000000000000000000000000000000000000000000000000000000000000 * OrderColumn11(x)
      + 0x1000000000000000000000000000000000000000000000000000000000000000000000000000000000000000000 * OrderColumn12(x)
      + 0x40000000000000000000000000000000000000000000000000000000000000000000000000000000000000000000000000 * OrderColumn13(x)
      + 0x1000000000000000000000000000000000000000000000000000000000000000000000000000000000000000000000000000000000 * OrderColumn14(x)
      + 0x40000000000000000000000000000000000000000000000000000000000000000000000000000000000000000000000000000000000000000 * OrderColumn15(x)
      + 0x1000000000000000000000000000000000000000000000000000000000000000000000000000000000000000000000000000000000000000000000000 * OrderColumn16(x)
  {
    OrderProductOf(x[0], x[1], x[2], x[3], x[4], x[5], x[6], x[7], x[8],
      OrderColumn0(x), OrderColumn1(x), OrderColumn2(x), OrderColumn3(x), OrderColumn4(x), OrderColumn5(x), OrderColumn6(x), OrderColumn7(x), OrderColumn8(x), OrderColumn9(x), OrderColumn10(x), OrderColumn11(x), OrderColumn12(x), OrderColumn13(x), OrderColumn14(x), OrderColumn15(x), OrderColumn16(x));
  }

  lemma OrderProductOf(x0: int, x1: int, x2: int, x3: int, x4: int, x5: int, x6: int, x7: int, x8: int,
      s0: int, s1: int, s2: int, s3: int, s4: int, s5: int, s6: int, s7: int, s8: int, s9: int, s10: int, s11: int, s12: int, s13: int, s14: int, s15: int, s16: int)
    requires s0 == 0x1cf5d3ed * x0
    requires s1 == 0x1cf5d3ed * x1 + 0x20498c69 * x0
    requires s2 == 0x1cf5d3ed * x2 + 0x20498c69 * x1 + 0x2f79cd65 * x0
    requires s3 == 0x1cf5d3ed * x3 + 0x20498c69 * x2 + 0x2f79cd65 * x1 + 0x37be77a8 * x0
    requires s4 == 0x1cf5d3ed * x4 + 0x20498c69 * x3 + 0x2f79cd65 * x2 + 0x37be77a8 * x1 + 0x14 * x0
    requires s5 == 0x1cf5d3ed * x5 + 0x20498c69 * x4 + 0x2f79cd65 * x3 + 0x37be77a8 * x2 + 0x14 * x1 + 0x0 * x0
    requires s6 == 0x1cf5d3ed * x6 + 0x20498c69 * x5 + 0x2f79cd65 * x4 + 0x37be77a8 * x3 + 0x14 * x2 + 0x0 * x1 + 0x0 * x0
    requires s7 == 0x1cf5d3ed * x7 + 0x20498c69 * x6 + 0x2f79cd65 * x5 + 0x37be77a8 * x4 + 0x14 * x3 + 0x0 * x2 + 0x0 * x1 + 0x0 * x0
    requires s8 == 0x1cf5d3ed * x8 + 0x20498c69 * x7 + 0x2f79cd65 * x6 + 0x37be77a8 * x5 + 0x14 * x4 + 0x0 * x3 + 0x0 * x2 + 0x0 * x1 + 0x1000 * x0
    requires s9 == 0x20498c69 * x8 + 0x2f79cd65 * x7 + 0x37be77a8 * x6 + 0x14 * x5 + 0x0 * x4 + 0x0 * x3 + 0x0 * x2 + 0x1000 * x1
    requires s10 == 0x2f79cd65 * x8 + 0x37be77a8 * x7 + 0x14 * x6 + 0x0 * x5 + 0x0 * x4 + 0x0 * x3 + 0x1000 * x2
    requires s11 == 0x37be77a8 * x8 + 0x14 * x7 + 0x0 * x6 + 0x0 * x5 + 0x0 * x4 + 0x1000 * x3
    requires s12 == 0x14 * x8 + 0x0 * x7 + 0x0 * x6 + 0x0 * x5 + 0x1000 * x4
    requires s13 == 0x0 * x8 + 0x0 * x7 + 0x0 * x6 + 0x1000 * x5
    requires s14 == 0x0 * x8 + 0x0 * x7 + 0x1000 * x6
    requires s15 == 0x0 * x8 + 0x1000 * x7
    requires s16 == 0x1000 * x8
    ensures ORDER * (x0 + 0x40000000 * x1 + 0x1000000000000000 * x2 + 0x40000000000000000000000 * x3 + 0x1000000000000000000000000000000 * x4 + 0x40000000000000000000000000000000000000 * x5 + 0x1000000000000000000000000000000000000000000000 * x6 + 0x40000000000000000000000000000000000000000000000000000 * x7 + 0x1000000000000000000000000000000000000000000000000000000000000 * x8) == s0
      + 0x40000000 * s1
      + 0x1000000000000000 * s2
      + 0x40000000000000000000000 * s3
      + 0x1000000000000000000000000000000 * s4
      + 0x40000000000000000000000000000000000000 * s5
      + 0x1000000000000000000000000000000000000000000000 * s6
      + 0x40000000000000000000000000000000000000000000000000000 * s7
      + 0x1000000000000000000000000000000000000000000000000000000000000 * s8
      + 0x40000000000000000000000000000000000000000000000000000000000000000000 * s9
      + 0x1000000000000000000000000000000000000000000000000000000000000000000000000000 * s10
      + 0x40000000000000000000000000000000000000000000000000000000000000000000000000000000000 * s11
      + 0x1000000000000000000000000000000000000000000000000000000000000000000000000000000000000000000 * s12
      + 0x40000000000000000000000000000000000000000000000000000000000000000000000000000000000000000000000000 * s13
      + 0x1000000000000000000000000000000000000000000000000000000000000000000000000000000000000000000000000000000000 * s14
      + 0x40000000000000000000000000000000000000000000000000000000000000000000000000000000000000000000000000000000000000000 * s15
      + 0x1000000000000000000000000000000000000000000000000000000000000000000000000000000000000000000000000000000000000000000000000 * s16
  {
  }

  /** The low 264 bits of the columns 0 to 8. */
  method LowLimbs(s0: int, s1: int, s2: int, s3: int, s4: int, s5: int, s6: int, s7: int, s8: int)
      returns (r2: seq<int>, ghost k: int)
    requires 0 <= s0 < 0xa000000000000000
    requires 0 <= s1 < 0xa000000000000000
    requires 0 <= s2 < 0xa000000000000000
    requires 0 <= s3 < 0xa000000000000000
    requires 0 <= s4 < 0xa000000000000000
    requires 0 <= s5 < 0xa000000000000000
    requires 0 <= s6 < 0xa000000000000000
    requires 0 <= s7 < 0xa000000000000000
    requires 0 <= s8 < 0xa000000000000000
    ensures Limbs(r2, 0x1000000)
    ensures s0
      + 0x40000000 * s1
      + 0x1000000000000000 * s2
      + 0x40000000000000000000000 * s3
      + 0x1000000000000000000000000000000 * s4
      + 0x40000000000000000000000000000000000000 * s5
      + 0x1000000000000000000000000000000000000000000000 * s6
      + 0x40000000000000000000000000000000000000000000000000000 * s7
      + 0x1000000000000000000000000000000000000000000000000000000000000 * s8 == Val(r2) + 0x1000000000000000000000000000000000000000000000000000000000000000000 * k
  {
    var d0, c0 := ProductLine(0, s0);
    var d1, c1 := ProductLine(c0, s1);
    var d2, c2 := ProductLine(c1, s2);
    var d3, c3 := ProductLine(c2, s3);
    var d4, c4 := ProductLine(c3, s4);
    var d5, c5 := ProductLine(c4, s5);
    var d6, c6 := ProductLine(c5, s6);
    var d7, c7 := ProductLine(c6, s7);
    var d8, c8 := ProductTop(c7, s8);
    r2 := [d0, d1, d2, d3, d4, d5, d6, d7, d8];
    k := c8;
  }

  /** r2 = (q3 * m) mod 2^264. */
  method ProductLow264(q3: seq<int>) returns (r2: seq<int>, ghost k: int)
    requires Limbs(q3, 0x40000000)
    ensures Limbs(r2, 0x1000000)
    ensures ORDER * Val(q3) == Val(r2) + 0x1000000000000000000000000000000000000000000000000000000000000000000 * k
  {
    hide OrderColumn0, OrderColumn1, OrderColumn2, OrderColumn3, OrderColumn4, OrderColumn5, OrderColumn6, OrderColumn7, OrderColumn8, OrderColumn9, OrderColumn10, OrderColumn11, OrderColumn12, OrderColumn13, OrderColumn14, OrderColumn15, OrderColumn16, Val, Limbs;
    OrderProduct(q3);
    r2, k := LowLimbs(OrderColumn0(q3), OrderColumn1(q3), OrderColumn2(q3), OrderColumn3(q3), OrderColumn4(q3),
      OrderColumn5(q3), OrderColumn6(q3), OrderColumn7(q3), OrderColumn8(q3));
    k := k + (0x40 * OrderColumn9(q3)
      + 0x1000000000 * OrderColumn10(q3)
      + 0x40000000000000000 * OrderColumn11(q3)
      + 0x1000000000000000000000000 * OrderColumn12(q3)
      + 0x40000000000000000000000000000000 * OrderColumn13(q3)
      + 0x1000000000000000000000000000000000000000 * OrderColumn14(q3)
      + 0x40000000000000000000000000000000000000000000000 * OrderColumn15(q3)
      + 0x1000000000000000000000000000000000000000000000000000000 * OrderColumn16(q3));
  }

  /** The quotient estimate is at most two too small, columns left out included. */
  lemma QuotientError(x: nat, q1: int, q3: int)
    requires x < 0x100000000000000000000000000000000000000000000000000000000000000000000000000000000000000000000000000000000000000000000000000000000 && q1 == x / 0x100000000000000000000000000000000000000000000000000000000000000 && q3 >= 0
    requires 0x1000000000000000000000000000000000000000000000000000000000000000000 * q3 <= MU * q1 < 0x1000000000000000000000000000000000000000000000000000000000000000000 * (q3 + 1) + 0x10000000000000000000000000000000000000000000000000000000000000
    ensures 0 <= x - ORDER * q3 < 3 * ORDER
  {
    var x0 := x % 0x100000000000000000000000000000000000000000000000000000000000000;
    assert x == 0x100000000000000000000000000000000000000000000000000000000000000 * q1 + x0;
    assert 0 <= q1 < 0x1000000000000000000000000000000000000000000000000000000000000000000;
  }

  lemma SameModulo264(a: int, b: int, k: int)
    requires 0 <= a < 0x1000000000000000000000000000000000000000000000000000000000000000000 && 0 <= b < 0x1000000000000000000000000000000000000000000000000000000000000000000 && a == b + 0x1000000000000000000000000000000000000000000000000000000000000000000 * k
    ensures a == b
  {
  }

  lemma ThreeOrders(x: int, q: int, v: int)
    requires v == x - ORDER * q && 0 <= v < 3 * ORDER
    ensures x % ORDER == if v < ORDER then v else if v < 2 * ORDER then v - ORDER else v - 2 * ORDER
  {
    var d := ORDER;
    var j := if v < ORDER then 0 else if v < 2 * ORDER then 1 else 2;
    assert x == (q + j) * d + (v - j * d);
    DivModUnique(x, d, q + j, v - j * d);
  }

  lemma TopBound(s: seq<int>)
    requires Limbs(s, 0x1000000)
    ensures 0 <= Val(s) < 0x1000000000000000000000000000000000000000000000000000000000000000000
  {
  }

  lemma TopLimb(s: seq<int>)
    requires Limbs(s, 0x80000000) && Val(s) < ORDER
    ensures Limbs(s, 0x1001)
  {
  }

  /** barrett_reduce256_modm: from q1 = x >> 248 and r1 = x mod 2^264, exactly x mod m.  The output
      array may be r1 itself, as it is when expand256_modm calls it. */
  method Barrett(r: array<int>, q1: seq<int>, r1: array<int>, ghost x: nat)
    requires r.Length == 9 && r1.Length == 9
    requires x < 0x100000000000000000000000000000000000000000000000000000000000000000000000000000000000000000000000000000000000000000000000000000000
    requires Limbs(q1, 0x1000000) && Val(q1) == x / 0x100000000000000000000000000000000000000000000000000000000000000
    requires Limbs(r1[..], 0x1000000) && Val(r1[..]) == x % 0x1000000000000000000000000000000000000000000000000000000000000000000
    modifies r
    ensures Limbs(r[..], 0x1001) && Val(r[..]) == x % ORDER
  {
    hide Val;
    var q3 := BarrettQuotient(q1);
    QuotientError(x, Val(q1), Val(q3));
    var r2, k := ProductLow264(q3);
    var t, b := SubtractLimbs(r1[..], r2, 0x1000000);
    TopBound(t);
    SameModulo264(x - ORDER * Val(q3), Val(t), x / 0x1000000000000000000000000000000000000000000000000000000000000000000 - k - b);
    ThreeOrders(x, Val(q3), Val(t));
    Store(r, t);
    Reduce256(r);
    Reduce256(r);
    TopLimb(r[..]);
  }

}
