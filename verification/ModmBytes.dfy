/** Byte strings to scalars and back: expand256_modm and contract256_modm
    (ed25519-donna/modm-donna-32bit.h:211-296). */
module ModmBytes {
  import opened Bits
  import opened Modm

  /** One limb of the unpacking, `((lo >> a) | (hi << b)) & 0x3fffffff` with a + b = 32, down = 2^a,
      up = 2^b; keep = 2^(30 - b) says how much of hi fits. */
  method ExpandLimb(lo: int, hi: int, down: int, up: int, ghost b: nat, ghost keep: int) returns (d: int)
    requires 0 <= lo < 0x1_0000_0000 && 0 <= hi < 0x1_0000_0000
    requires up == Pow2(b) && keep > 0 && down == 4 * keep && keep * up == 0x40000000
    ensures d == lo / down + up * (hi % keep)
    ensures 0 <= d < 0x40000000
  {
    hide And, Or;
    assert down * up == 4 * (keep * up);
    FunnelArithmetic(lo, hi, down, up, keep);
    OrDisjoint(hi % down, lo / down, b);
    d := Low30(Or(lo / down, U32(hi * up)));
  }

  lemma FunnelArithmetic(lo: int, hi: int, down: int, up: int, keep: int)
    requires 0 <= lo < 0x1_0000_0000 && 0 <= hi
    requires up > 0 && keep > 0 && down == 4 * keep && keep * up == 0x40000000 && down * up == 0x1_0000_0000
    ensures 0 <= lo / down < up
    ensures U32(hi * up) == (hi % down) * up
    ensures (hi % down * up + lo / down) % 0x40000000 == lo / down + up * (hi % keep)
    ensures 0 <= lo / down + up * (hi % keep) < 0x40000000
  {
    var q, r := hi / down, hi % down;
    var s, t := r / keep, r % keep;
    QuotientBelow(lo, down, up, 0x1_0000_0000);
    TopBits(hi, q, r, down, up);
    LowBits(hi, q, s, t, keep);
    ScaledRemainder(r, keep, up, 0x40000000);
    DivModUnique(r * up + lo / down, 0x40000000, s, t * up + lo / down);
  }

  /** Scaling by up turns the remainder modulo `keep` into the remainder modulo `whole`. */
  lemma ScaledRemainder(r: int, keep: int, up: int, whole: int)
    requires keep > 0 && up > 0 && keep * up == whole
    ensures r * up == (r / keep) * whole + (r % keep) * up
    ensures 0 <= (r % keep) * up <= whole - up
    ensures up * (r % keep) == (r % keep) * up
  {
    var s, t := r / keep, r % keep;
    assert r == keep * s + t;
    assert r * up == s * (keep * up) + t * up;
    MulMono(t, keep - 1, up);
    MulMono(0, t, up);
    assert (keep - 1) * up == keep * up - up;
  }

  lemma TopBits(hi: int, q: int, r: int, down: int, up: int)
    requires hi == down * q + r && 0 <= r < down && up > 0 && down * up == 0x1_0000_0000
    ensures U32(hi * up) == r * up
  {
    DivModUnique(hi, down, q, r);
    ScaledRemainder(hi, down, up, 0x1_0000_0000);
    DivModUnique(hi * up, 0x1_0000_0000, q, r * up);
  }

  lemma LowBits(hi: int, q: int, s: int, t: int, keep: int)
    requires keep > 0 && 0 <= t < keep && hi == (4 * keep) * q + (keep * s + t)
    ensures hi % keep == t
  {
    assert hi == (4 * q + s) * keep + t;
    DivModUnique(hi, keep, 4 * q + s, t);
  }

  /** Powers of two for the shift counts below. */
  lemma ShiftPowers()
    ensures Pow2(2) == 0x4
    ensures Pow2(4) == 0x10
    ensures Pow2(6) == 0x40
    ensures Pow2(8) == 0x100
    ensures Pow2(10) == 0x400
    ensures Pow2(12) == 0x1000
    ensures Pow2(14) == 0x4000
    ensures Pow2(16) == 0x10000
    ensures Pow2(18) == 0x40000
    ensures Pow2(20) == 0x100000
    ensures Pow2(22) == 0x400000
  {
    Pow2Literals();
  }

  /** r1: the low 264 bits of the words. */
  method ExpandLow(x0: int, x1: int, x2: int, x3: int, x4: int, x5: int, x6: int, x7: int, x8: int) returns (r1: seq<int>)
    requires 0 <= x0 < 0x1_0000_0000
    requires 0 <= x1 < 0x1_0000_0000
    requires 0 <= x2 < 0x1_0000_0000
    requires 0 <= x3 < 0x1_0000_0000
    requires 0 <= x4 < 0x1_0000_0000
    requires 0 <= x5 < 0x1_0000_0000
    requires 0 <= x6 < 0x1_0000_0000
    requires 0 <= x7 < 0x1_0000_0000
    requires 0 <= x8 < 0x1_0000_0000
    ensures Limbs(r1, 0x1000000) && Val(r1) == x0 + 0x100000000 * x1 + 0x10000000000000000 * x2 + 0x1000000000000000000000000 * x3 + 0x100000000000000000000000000000000 * x4 + 0x10000000000000000000000000000000000000000 * x5 + 0x1000000000000000000000000000000000000000000000000 * x6 + 0x100000000000000000000000000000000000000000000000000000000 * x7 + 0x10000000000000000000000000000000000000000000000000000000000000000 * (x8 % 0x100)
  {
    ShiftPowers();
    var d0 := Low30(x0);
    var d1 := ExpandLimb(x0, x1, 0x40000000, 0x4, 2, 0x10000000);
    var d2 := ExpandLimb(x1, x2, 0x10000000, 0x10, 4, 0x4000000);
    var d3 := ExpandLimb(x2, x3, 0x4000000, 0x40, 6, 0x1000000);
    var d4 := ExpandLimb(x3, x4, 0x1000000, 0x100, 8, 0x400000);
    var d5 := ExpandLimb(x4, x5, 0x400000, 0x400, 10, 0x100000);
    var d6 := ExpandLimb(x5, x6, 0x100000, 0x1000, 12, 0x40000);
    var d7 := ExpandLimb(x6, x7, 0x40000, 0x4000, 14, 0x10000);
    var d8 := ExpandTop(x7, x8);
    r1 := [d0, d1, d2, d3, d4, d5, d6, d7, d8];
  }

  /** `((x[7] >> 16) | (x[8] << 16)) & 0x00ffffff` */
  method ExpandTop(lo: int, hi: int) returns (d: int)
    requires 0 <= lo < 0x1_0000_0000 && 0 <= hi < 0x1_0000_0000
    ensures d == lo / 0x10000 + 0x10000 * (hi % 0x100) && 0 <= d < 0x1000000
  {
    hide And, Or;
    Pow2Literals();
    TopArithmetic(lo, hi);
    OrDisjoint(hi % 0x10000, lo / 0x10000, 16);
    Low24(Or(lo / 0x10000, U32(hi * 0x10000)));
    d := And(Or(lo / 0x10000, U32(hi * 0x10000)), 0xffffff);
  }

  lemma TopArithmetic(lo: int, hi: int)
    requires 0 <= lo < 0x1_0000_0000 && 0 <= hi
    ensures U32(hi * 0x10000) == hi % 0x10000 * 0x10000
    ensures (hi % 0x10000 * 0x10000 + lo / 0x10000) % 0x1000000 == lo / 0x10000 + 0x10000 * (hi % 0x100)
  {
    var r := hi % 0x10000;
    DivModUnique(hi * 0x10000, 0x1_0000_0000, hi / 0x10000, r * 0x10000);
    DivModUnique(r * 0x10000 + lo / 0x10000, 0x1000000, r / 0x100, r % 0x100 * 0x10000 + lo / 0x10000);
    DivModUnique(hi, 0x100, hi / 0x10000 * 0x100 + r / 0x100, r % 0x100);
  }

  /** q1: the bits of the words from 248 up. */
  method ExpandHigh(x7: int, x8: int, x9: int, x10: int, x11: int, x12: int, x13: int, x14: int, x15: int) returns (q1: seq<int>)
    requires 0 <= x7 < 0x1_0000_0000
    requires 0 <= x8 < 0x1_0000_0000
    requires 0 <= x9 < 0x1_0000_0000
    requires 0 <= x10 < 0x1_0000_0000
    requires 0 <= x11 < 0x1_0000_0000
    requires 0 <= x12 < 0x1_0000_0000
    requires 0 <= x13 < 0x1_0000_0000
    requires 0 <= x14 < 0x1_0000_0000
    requires 0 <= x15 < 0x1_0000_0000
    ensures Limbs(q1, 0x1000000)
    ensures Val(q1) == x7 / 0x1000000 + 0x100 * (x8 + 0x100000000 * x9 + 0x10000000000000000 * x10 + 0x1000000000000000000000000 * x11 + 0x100000000000000000000000000000000 * x12 + 0x10000000000000000000000000000000000000000 * x13 + 0x1000000000000000000000000000000000000000000000000 * x14 + 0x100000000000000000000000000000000000000000000000000000000 * x15)
  {
    ShiftPowers();
    var d0 := ExpandLimb(x7, x8, 0x1000000, 0x100, 8, 0x400000);
    var d1 := ExpandLimb(x8, x9, 0x400000, 0x400, 10, 0x100000);
    var d2 := ExpandLimb(x9, x10, 0x100000, 0x1000, 12, 0x40000);
    var d3 := ExpandLimb(x10, x11, 0x40000, 0x4000, 14, 0x10000);
    var d4 := ExpandLimb(x11, x12, 0x10000, 0x10000, 16, 0x4000);
    var d5 := ExpandLimb(x12, x13, 0x4000, 0x40000, 18, 0x1000);
    var d6 := ExpandLimb(x13, x14, 0x1000, 0x100000, 20, 0x400);
    var d7 := ExpandLimb(x14, x15, 0x400, 0x400000, 22, 0x100);
    q1 := [d0, d1, d2, d3, d4, d5, d6, d7, x15 / 0x100];
  }

  /** The sixteen words of 64 bytes, summed with their weights. */
  lemma WordsOf(s: seq<int>)
    requires |s| == 64 && Bytes(s)
    ensures LE(s) == Load32(s, 0)
      + 0x100000000 * Load32(s, 4)
      + 0x10000000000000000 * Load32(s, 8)
      + 0x1000000000000000000000000 * Load32(s, 12)
      + 0x100000000000000000000000000000000 * Load32(s, 16)
      + 0x10000000000000000000000000000000000000000 * Load32(s, 20)
      + 0x1000000000000000000000000000000000000000000000000 * Load32(s, 24)
      + 0x100000000000000000000000000000000000000000000000000000000 * Load32(s, 28)
      + 0x10000000000000000000000000000000000000000000000000000000000000000 * Load32(s, 32)
      + 0x1000000000000000000000000000000000000000000000000000000000000000000000000 * Load32(s, 36)
      + 0x100000000000000000000000000000000000000000000000000000000000000000000000000000000 * Load32(s, 40)
      + 0x10000000000000000000000000000000000000000000000000000000000000000000000000000000000000000 * Load32(s, 44)
      + 0x1000000000000000000000000000000000000000000000000000000000000000000000000000000000000000000000000 * Load32(s, 48)
      + 0x100000000000000000000000000000000000000000000000000000000000000000000000000000000000000000000000000000000 * Load32(s, 52)
      + 0x10000000000000000000000000000000000000000000000000000000000000000000000000000000000000000000000000000000000000000 * Load32(s, 56)
      + 0x1000000000000000000000000000000000000000000000000000000000000000000000000000000000000000000000000000000000000000000000000 * Load32(s, 60)
  {
    hide Load32;
    assert s[0..] == s && s[64..] == [];
    LowHalf(s);
    HighHalf(s);
  }

  lemma LowHalf(s: seq<int>)
    requires |s| == 64 && Bytes(s)
    ensures LE(s[0..]) == Load32(s, 0) + 0x100000000 * Load32(s, 4) + 0x10000000000000000 * Load32(s, 8) + 0x1000000000000000000000000 * Load32(s, 12) + 0x100000000000000000000000000000000 * Load32(s, 16) + 0x10000000000000000000000000000000000000000 * Load32(s, 20) + 0x1000000000000000000000000000000000000000000000000 * Load32(s, 24) + 0x100000000000000000000000000000000000000000000000000000000 * Load32(s, 28) + 0x10000000000000000000000000000000000000000000000000000000000000000 * LE(s[32..])
  {
    hide Load32, LE;
    LE4(s, 0);
    LE4(s, 4);
    LE4(s, 8);
    LE4(s, 12);
    LE4(s, 16);
    LE4(s, 20);
    LE4(s, 24);
    LE4(s, 28);
  }

  lemma HighHalf(s: seq<int>)
    requires |s| == 64 && Bytes(s)
    ensures LE(s[32..]) == Load32(s, 32) + 0x100000000 * Load32(s, 36) + 0x10000000000000000 * Load32(s, 40) + 0x1000000000000000000000000 * Load32(s, 44) + 0x100000000000000000000000000000000 * Load32(s, 48) + 0x10000000000000000000000000000000000000000 * Load32(s, 52) + 0x1000000000000000000000000000000000000000000000000 * Load32(s, 56) + 0x100000000000000000000000000000000000000000000000000000000 * Load32(s, 60)
  {
    assert LE(s[64..]) == 0;
    hide Load32, LE;
    LE4(s, 32);
    LE4(s, 36);
    LE4(s, 40);
    LE4(s, 44);
    LE4(s, 48);
    LE4(s, 52);
    LE4(s, 56);
    LE4(s, 60);
  }

  lemma ExpandValue(s: seq<int>, x: int, r1: int, q1: int)
    requires |s| == 64 && Bytes(s) && x == LE(s)
    requires r1 == Load32(s, 0) + 0x100000000 * Load32(s, 4) + 0x10000000000000000 * Load32(s, 8) + 0x1000000000000000000000000 * Load32(s, 12) + 0x100000000000000000000000000000000 * Load32(s, 16) + 0x10000000000000000000000000000000000000000 * Load32(s, 20) + 0x1000000000000000000000000000000000000000000000000 * Load32(s, 24) + 0x100000000000000000000000000000000000000000000000000000000 * Load32(s, 28) + 0x10000000000000000000000000000000000000000000000000000000000000000 * (Load32(s, 32) % 0x100)
    requires q1 == Load32(s, 28) / 0x1000000 + 0x100 * (Load32(s, 32) + 0x100000000 * Load32(s, 36) + 0x10000000000000000 * Load32(s, 40) + 0x1000000000000000000000000 * Load32(s, 44) + 0x100000000000000000000000000000000 * Load32(s, 48) + 0x10000000000000000000000000000000000000000 * Load32(s, 52) + 0x1000000000000000000000000000000000000000000000000 * Load32(s, 56) + 0x100000000000000000000000000000000000000000000000000000000 * Load32(s, 60))
    ensures 0 <= x < 0x100000000000000000000000000000000000000000000000000000000000000000000000000000000000000000000000000000000000000000000000000000000 && r1 == x % 0x1000000000000000000000000000000000000000000000000000000000000000000 && q1 == x / 0x100000000000000000000000000000000000000000000000000000000000000
  {
    WordsOf(s);
    ExpandParts(Load32(s, 0), Load32(s, 4), Load32(s, 8), Load32(s, 12), Load32(s, 16), Load32(s, 20), Load32(s, 24), Load32(s, 28), Load32(s, 32), Load32(s, 36), Load32(s, 40), Load32(s, 44), Load32(s, 48), Load32(s, 52), Load32(s, 56), Load32(s, 60), x, r1, q1);
  }

  lemma ExpandParts(x0: int, x1: int, x2: int, x3: int, x4: int, x5: int, x6: int, x7: int, x8: int, x9: int, x10: int, x11: int, x12: int, x13: int, x14: int, x15: int, x: int, r1: int, q1: int)
    requires 0 <= x0 < 0x1_0000_0000
    requires 0 <= x1 < 0x1_0000_0000
    requires 0 <= x2 < 0x1_0000_0000
    requires 0 <= x3 < 0x1_0000_0000
    requires 0 <= x4 < 0x1_0000_0000
    requires 0 <= x5 < 0x1_0000_0000
    requires 0 <= x6 < 0x1_0000_0000
    requires 0 <= x7 < 0x1_0000_0000
    requires 0 <= x8 < 0x1_0000_0000
    requires 0 <= x9 < 0x1_0000_0000
    requires 0 <= x10 < 0x1_0000_0000
    requires 0 <= x11 < 0x1_0000_0000
    requires 0 <= x12 < 0x1_0000_0000
    requires 0 <= x13 < 0x1_0000_0000
    requires 0 <= x14 < 0x1_0000_0000
    requires 0 <= x15 < 0x1_0000_0000
    requires x == x0 + 0x100000000 * x1 + 0x10000000000000000 * x2 + 0x1000000000000000000000000 * x3 + 0x100000000000000000000000000000000 * x4 + 0x10000000000000000000000000000000000000000 * x5 + 0x1000000000000000000000000000000000000000000000000 * x6 + 0x100000000000000000000000000000000000000000000000000000000 * x7 + 0x10000000000000000000000000000000000000000000000000000000000000000 * x8 + 0x1000000000000000000000000000000000000000000000000000000000000000000000000 * x9 + 0x100000000000000000000000000000000000000000000000000000000000000000000000000000000 * x10 + 0x10000000000000000000000000000000000000000000000000000000000000000000000000000000000000000 * x11 + 0x1000000000000000000000000000000000000000000000000000000000000000000000000000000000000000000000000 * x12 + 0x100000000000000000000000000000000000000000000000000000000000000000000000000000000000000000000000000000000 * x13 + 0x10000000000000000000000000000000000000000000000000000000000000000000000000000000000000000000000000000000000000000 * x14 + 0x1000000000000000000000000000000000000000000000000000000000000000000000000000000000000000000000000000000000000000000000000 * x15
    requires r1 == x0 + 0x100000000 * x1 + 0x10000000000000000 * x2 + 0x1000000000000000000000000 * x3 + 0x100000000000000000000000000000000 * x4 + 0x10000000000000000000000000000000000000000 * x5 + 0x1000000000000000000000000000000000000000000000000 * x6 + 0x100000000000000000000000000000000000000000000000000000000 * x7 + 0x10000000000000000000000000000000000000000000000000000000000000000 * (x8 % 0x100)
    requires q1 == x7 / 0x1000000 + 0x100 * (x8 + 0x100000000 * x9 + 0x10000000000000000 * x10 + 0x1000000000000000000000000 * x11 + 0x100000000000000000000000000000000 * x12 + 0x10000000000000000000000000000000000000000 * x13 + 0x1000000000000000000000000000000000000000000000000 * x14 + 0x100000000000000000000000000000000000000000000000000000000 * x15)
    ensures 0 <= x < 0x100000000000000000000000000000000000000000000000000000000000000000000000000000000000000000000000000000000000000000000000000000000 && r1 == x % 0x1000000000000000000000000000000000000000000000000000000000000000000 && q1 == x / 0x100000000000000000000000000000000000000000000000000000000000000
  {
    DivModUnique(x, 0x1000000000000000000000000000000000000000000000000000000000000000000, x8 / 0x100 + 0x1000000 * (x9 + 0x100000000 * x10 + 0x10000000000000000 * x11 + 0x1000000000000000000000000 * x12 + 0x100000000000000000000000000000000 * x13 + 0x10000000000000000000000000000000000000000 * x14 + 0x1000000000000000000000000000000000000000000000000 * x15), r1);
    DivModUnique(x, 0x100000000000000000000000000000000000000000000000000000000000000, q1, x0 + 0x100000000 * x1 + 0x10000000000000000 * x2 + 0x1000000000000000000000000 * x3 + 0x100000000000000000000000000000000 * x4 + 0x10000000000000000000000000000000000000000 * x5 + 0x1000000000000000000000000000000000000000000000000 * x6 + 0x100000000000000000000000000000000000000000000000000000000 * (x7 % 0x1000000));
  }

  /** Scalars of less than 32 bytes need no reduction. */
  lemma ShortScalar(s: seq<int>, n: nat, x: int)
    requires |s| == 64 && Bytes(s) && n < 32 && x == LE(s)
    requires forall i :: n <= i < 64 ==> s[i] == 0
    ensures 0 <= x < 0x100000000000000000000000000000000000000000000000000000000000000 && x % ORDER == x && x % 0x1000000000000000000000000000000000000000000000000000000000000000000 == x
  {
    WordsOf(s);
    assert Load32(s, 28) < 0x1000000;
    assert x == Load32(s, 0) + 0x100000000 * Load32(s, 4) + 0x10000000000000000 * Load32(s, 8) + 0x1000000000000000000000000 * Load32(s, 12) + 0x100000000000000000000000000000000 * Load32(s, 16) + 0x10000000000000000000000000000000000000000 * Load32(s, 20) + 0x1000000000000000000000000000000000000000000000000 * Load32(s, 24) + 0x100000000000000000000000000000000000000000000000000000000 * Load32(s, 28);
    ShortSum(Load32(s, 0), Load32(s, 4), Load32(s, 8), Load32(s, 12), Load32(s, 16), Load32(s, 20), Load32(s, 24), Load32(s, 28), x);
    DivModUnique(x, ORDER, 0, x);
    DivModUnique(x, 0x1000000000000000000000000000000000000000000000000000000000000000000, 0, x);
  }

  lemma ShortSum(x0: int, x1: int, x2: int, x3: int, x4: int, x5: int, x6: int, x7: int, x: int)
    requires 0 <= x0 < 0x1_0000_0000
    requires 0 <= x1 < 0x1_0000_0000
    requires 0 <= x2 < 0x1_0000_0000
    requires 0 <= x3 < 0x1_0000_0000
    requires 0 <= x4 < 0x1_0000_0000
    requires 0 <= x5 < 0x1_0000_0000
    requires 0 <= x6 < 0x1_0000_0000
    requires 0 <= x7 < 0x1_0000_0000
    requires x7 < 0x1000000
    requires x == x0 + 0x100000000 * x1 + 0x10000000000000000 * x2 + 0x1000000000000000000000000 * x3 + 0x100000000000000000000000000000000 * x4 + 0x10000000000000000000000000000000000000000 * x5 + 0x1000000000000000000000000000000000000000000000000 * x6 + 0x100000000000000000000000000000000000000000000000000000000 * x7
    ensures 0 <= x < 0x100000000000000000000000000000000000000000000000000000000000000
  {
  }

  /** expand256_modm: any string of at most 64 bytes, read little-endian, reduced modulo m. */
  method Expand256(out: array<int>, input: seq<int>)
    requires out.Length == 9 && |input| <= 64 && Bytes(input)
    modifies out
    ensures Limbs(out[..], 0x1001) && Val(out[..]) == LE(input) % ORDER
  {
    var work := new int[64](_ => 0);
    for i := 0 to |input|
      invariant work[..] == input[..i] + seq(64 - i, _ => 0)
    {
      work[i] := input[i];
    }
    var s := work[..];
    ghost var x := LE(input);
    PaddedValue(input, s);
    var r1 := LowWords(s, x);
    Store(out, r1);
    if |input| < 32 {
      ShortScalar(s, |input|, x);
      SmallTop(r1);
      return;
    }
    var q1 := HighWords(s, x);
    Barrett(out, q1, out, x);
  }

  lemma SmallTop(s: seq<int>)
    requires Limbs(s, 0x1000000) && Val(s) < 0x100000000000000000000000000000000000000000000000000000000000000
    ensures Limbs(s, 0x1001)
  {
  }

  lemma PaddedValue(input: seq<int>, s: seq<int>)
    requires |input| <= 64 && Bytes(input) && s == input + seq(64 - |input|, _ => 0)
    ensures |s| == 64 && Bytes(s) && LE(s) == LE(input)
  {
    LEPadded(input, seq(64 - |input|, _ => 0));
  }

  method LowWords(s: seq<int>, ghost x: int) returns (r1: seq<int>)
    requires |s| == 64 && Bytes(s) && x == LE(s)
    ensures 0 <= x < 0x100000000000000000000000000000000000000000000000000000000000000000000000000000000000000000000000000000000000000000000000000000000
    ensures Limbs(r1, 0x1000000) && Val(r1) == x % 0x1000000000000000000000000000000000000000000000000000000000000000000
  {
    hide Load32;
    r1 := ExpandLow(Load32(s, 0), Load32(s, 4), Load32(s, 8), Load32(s, 12), Load32(s, 16), Load32(s, 20), Load32(s, 24), Load32(s, 28), Load32(s, 32));
    ghost var q1 := Load32(s, 28) / 0x1000000 + 0x100 * (Load32(s, 32) + 0x100000000 * Load32(s, 36) + 0x10000000000000000 * Load32(s, 40) + 0x1000000000000000000000000 * Load32(s, 44) + 0x100000000000000000000000000000000 * Load32(s, 48) + 0x10000000000000000000000000000000000000000 * Load32(s, 52) + 0x1000000000000000000000000000000000000000000000000 * Load32(s, 56) + 0x100000000000000000000000000000000000000000000000000000000 * Load32(s, 60));
    ExpandValue(s, x, Val(r1), q1);
  }

  method HighWords(s: seq<int>, ghost x: int) returns (q1: seq<int>)
    requires |s| == 64 && Bytes(s) && x == LE(s)
    ensures Limbs(q1, 0x1000000) && Val(q1) == x / 0x100000000000000000000000000000000000000000000000000000000000000
  {
    hide Load32;
    q1 := ExpandHigh(Load32(s, 28), Load32(s, 32), Load32(s, 36), Load32(s, 40), Load32(s, 44), Load32(s, 48), Load32(s, 52), Load32(s, 56), Load32(s, 60));
    ghost var r1 := Load32(s, 0) + 0x100000000 * Load32(s, 4) + 0x10000000000000000 * Load32(s, 8) + 0x1000000000000000000000000 * Load32(s, 12) + 0x100000000000000000000000000000000 * Load32(s, 16) + 0x10000000000000000000000000000000000000000 * Load32(s, 20) + 0x1000000000000000000000000000000000000000000000000 * Load32(s, 24) + 0x100000000000000000000000000000000000000000000000000000000 * Load32(s, 28) + 0x10000000000000000000000000000000000000000000000000000000000000000 * (Load32(s, 32) % 0x100);
    ExpandValue(s, x, r1, Val(q1));
  }

  // ---- packing

  /** One word of the packing, `(lo >> a) | (hi << b)` with down = 2^a, up = 2^b. */
  method ContractWord(lo: int, hi: int, down: int, up: int, ghost b: nat, ghost keep: int) returns (v: int)
    requires 0 <= lo < 0x40000000 && 0 <= hi < 0x40000000
    requires up == Pow2(b) && down > 0 && down * up == 0x40000000 && keep == 4 * down
    ensures v == lo / down + up * (hi % keep) && 0 <= v < 0x1_0000_0000
  {
    hide Or;
    ContractArithmetic(lo, hi, down, up, keep);
    OrDisjoint(hi % keep, lo / down, b);
    v := Or(lo / down, U32(hi * up));
  }

  lemma ContractArithmetic(lo: int, hi: int, down: int, up: int, keep: int)
    requires 0 <= lo < 0x40000000 && 0 <= hi
    requires up > 0 && down > 0 && down * up == 0x40000000 && keep == 4 * down
    ensures 0 <= lo / down < up
    ensures U32(hi * up) == (hi % keep) * up
    ensures 0 <= lo / down + up * (hi % keep) < 0x1_0000_0000
  {
    QuotientBelow(lo, down, up, 0x40000000);
    assert keep * up == 4 * (down * up);
    ScaledRemainder(hi, keep, up, 0x1_0000_0000);
    var r := (hi % keep) * up;
    ScaledQuotient(hi * up, 0x1_0000_0000, hi / keep, r);
  }

  lemma ScaledQuotient(x: int, whole: int, q: int, r: int)
    requires whole == 0x1_0000_0000 && x == q * whole + r && 0 <= r < whole
    ensures U32(x) == r
  {
    DivModUnique(x, whole, q, r);
  }

  lemma QuotientBelow(lo: int, down: int, up: int, whole: int)
    requires 0 <= lo < whole && down > 0 && up > 0 && down * up == whole
    ensures 0 <= lo / down < up
  {
    var q := lo / down;
    assert q * down <= lo;
    if q >= up {
      MulMono(up, q, down);
    }
  }

  method ContractWords(x: seq<int>) returns (w0: int, w1: int, w2: int, w3: int, w4: int, w5: int, w6: int, w7: int)
    requires Limbs(x, 0x10000)
    ensures 0 <= w0 < 0x1_0000_0000
    ensures 0 <= w1 < 0x1_0000_0000
    ensures 0 <= w2 < 0x1_0000_0000
    ensures 0 <= w3 < 0x1_0000_0000
    ensures 0 <= w4 < 0x1_0000_0000
    ensures 0 <= w5 < 0x1_0000_0000
    ensures 0 <= w6 < 0x1_0000_0000
    ensures 0 <= w7 < 0x1_0000_0000
    ensures Val(x) == w0 + 0x100000000 * w1 + 0x10000000000000000 * w2 + 0x1000000000000000000000000 * w3 + 0x100000000000000000000000000000000 * w4 + 0x10000000000000000000000000000000000000000 * w5 + 0x1000000000000000000000000000000000000000000000000 * w6 + 0x100000000000000000000000000000000000000000000000000000000 * w7
  {
    ShiftPowers();
    ShiftPowersHigh();
    w0 := ContractWord(x[0], x[1], 0x1, 0x40000000, 30, 0x4);
    w1 := ContractWord(x[1], x[2], 0x4, 0x10000000, 28, 0x10);
    w2 := ContractWord(x[2], x[3], 0x10, 0x4000000, 26, 0x40);
    w3 := ContractWord(x[3], x[4], 0x40, 0x1000000, 24, 0x100);
    w4 := ContractWord(x[4], x[5], 0x100, 0x400000, 22, 0x400);
    w5 := ContractWord(x[5], x[6], 0x400, 0x100000, 20, 0x1000);
    w6 := ContractWord(x[6], x[7], 0x1000, 0x40000, 18, 0x4000);
    w7 := ContractWord(x[7], x[8], 0x4000, 0x10000, 16, 0x10000);
  }

  lemma ShiftPowersHigh()
    ensures Pow2(24) == 0x1000000
    ensures Pow2(26) == 0x4000000
    ensures Pow2(28) == 0x10000000
    ensures Pow2(30) == 0x40000000
  {
    Pow2Literals();
    assert Pow2(28) == 0x10000000;
  }

  /** contract256_modm: the 32 bytes are the little-endian encoding of the limbs' value. */
  method Contract256(x: seq<int>) returns (out: seq<int>)
    requires Limbs(x, 0x10000)
    ensures |out| == 32 && Bytes(out) && LE(out) == Val(x)
  {
    hide Store32, Val;
    var w0, w1, w2, w3, w4, w5, w6, w7 := ContractWords(x);
    out := Store32(w0) + (Store32(w1) + (Store32(w2) + (Store32(w3) + (Store32(w4) + (Store32(w5) + (Store32(w6) + Store32(w7)))))));
    ConcatWord(w6, Store32(w7));
    ConcatWord(w5, Store32(w6) + (Store32(w7)));
    ConcatWord(w4, Store32(w5) + (Store32(w6) + (Store32(w7))));
    ConcatWord(w3, Store32(w4) + (Store32(w5) + (Store32(w6) + (Store32(w7)))));
    ConcatWord(w2, Store32(w3) + (Store32(w4) + (Store32(w5) + (Store32(w6) + (Store32(w7))))));
    ConcatWord(w1, Store32(w2) + (Store32(w3) + (Store32(w4) + (Store32(w5) + (Store32(w6) + (Store32(w7)))))));
    ConcatWord(w0, Store32(w1) + (Store32(w2) + (Store32(w3) + (Store32(w4) + (Store32(w5) + (Store32(w6) + (Store32(w7))))))));
  }

  lemma ConcatWord(w: int, t: seq<int>)
    requires 0 <= w < 0x1_0000_0000 && Bytes(t)
    ensures LE(Store32(w) + t) == w + 0x1_0000_0000 * LE(t)
    ensures Bytes(Store32(w) + t) && |Store32(w) + t| == 4 + |t|
  {
    Pow2Literals();
    LEConcat(Store32(w), t);
  }

  /** Packing an expanded scalar gives the residue, and packing determines the scalar: two 32-byte
      strings expand to the same limbs exactly when they agree modulo m. */
  method ExpandContract(input: seq<int>) returns (out: seq<int>)
    requires |input| <= 64 && Bytes(input)
    ensures |out| == 32 && Bytes(out) && LE(out) == LE(input) % ORDER
  {
    var s := new int[9];
    Expand256(s, input);
    out := Contract256(s[..]);
  }

}
