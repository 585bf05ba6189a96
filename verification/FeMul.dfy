/** Multiplication and squaring in the field of 2^255 - 19 (ed25519-donna/curve25519-donna-32bit.h:153-400). */
module FeMul {
  import opened Bits
  import opened FieldModulus
  import opened Fe

  /** A product of two limbs. */
  function Prod(x: int, y: int): (p: int) {
    x * y
  }

  lemma ProdBound(x: int, y: int, a: int, b: int)
    requires 0 <= x < a && 0 <= y < b
    ensures 0 <= Prod(x, y) <= a * b
  {
    MulMono(0, x, y);
    MulMono(x, a, y);
    MulMono(y, b, a);
  }

  /** `m + mul32x32_64(x, y)`, where x holds cx times a limb p and y holds cy times a limb q. */
  method MulAdd(m: int, x: int, y: int, ghost cx: int, ghost p: int, ghost cy: int, ghost q: int) returns (m': int)
    requires 0 <= x < 0x1_0000_0000 && 0 <= y < 0x1_0000_0000
    requires x == cx * p && y == cy * q && 0 <= p < 0xc004000 && 0 <= q < 0xc004000
    requires 1 <= cx && 1 <= cy && cx * cy <= 76 && 0 <= m < 0xb000000000000000
    ensures 0 <= Prod(p, q) <= 0x90060010000000 && Prod(p, q) == Prod(q, p)
    ensures m' == m + (cx * cy) * Prod(p, q)
  {
    ProdBound(p, q, 0xc004000, 0xc004000);
    Regroup(cx, p, cy, q);
    MulMono(cx * cy, 76, p * q);
    MulMono(0, cx * cy, p * q);
    m' := U64(m + U64(x * y));
  }

  lemma Regroup(cx: int, p: int, cy: int, q: int)
    ensures (cx * p) * (cy * q) == (cx * cy) * (p * q)
  {
    assert (cx * p) * (cy * q) == cx * (p * (cy * q));
    assert p * (cy * q) == cy * (p * q);
  }

  /** `x * c` in a 32-bit word. */
  method Scale(x: int, c: int) returns (y: int)
    requires 0 <= x && 0 <= c && x * c < 0x1_0000_0000
    ensures y == x * c
  {
    MulMono(0, x, c);
    y := U32(x * c);
  }

  /** `(x / 2) * 19` of a word that was doubled before. */
  method HalfScale(x: int, ghost limb: int) returns (y: int)
    requires x == 2 * limb && 0 <= limb < 0x8000000
    ensures y == limb * 19
  {
    y := U32(x / 2 * 19);
  }

  // The columns of a * b: `Low` k collects the products of weight 2^ceil(25.5 k), `High` k those of
  // weight 2^255 times that.  A product of two odd limbs counts twice.

  function LowEarly0(a: seq<int>, b: seq<int>): int
    requires |a| == |b| == 10
  {
    Prod(b[0], a[0])
  }

  function Low0(a: seq<int>, b: seq<int>): int
    requires |a| == |b| == 10
  {
    LowEarly0(a, b)
  }

  function LowEarly1(a: seq<int>, b: seq<int>): int
    requires |a| == |b| == 10
  {
    Prod(b[0], a[1]) + Prod(b[1], a[0])
  }

  function Low1(a: seq<int>, b: seq<int>): int
    requires |a| == |b| == 10
  {
    LowEarly1(a, b)
  }

  function LowEarly2(a: seq<int>, b: seq<int>): int
    requires |a| == |b| == 10
  {
    Prod(b[0], a[2]) + 2 * Prod(b[1], a[1]) + Prod(b[2], a[0])
  }

  function Low2(a: seq<int>, b: seq<int>): int
    requires |a| == |b| == 10
  {
    LowEarly2(a, b)
  }

  function LowEarly3(a: seq<int>, b: seq<int>): int
    requires |a| == |b| == 10
  {
    Prod(b[0], a[3]) + Prod(b[1], a[2]) + Prod(b[2], a[1]) + Prod(b[3], a[0])
  }

  function Low3(a: seq<int>, b: seq<int>): int
    requires |a| == |b| == 10
  {
    LowEarly3(a, b)
  }

  function LowEarly4(a: seq<int>, b: seq<int>): int
    requires |a| == |b| == 10
  {
    Prod(b[0], a[4]) + 2 * Prod(b[1], a[3]) + Prod(b[2], a[2]) + 2 * Prod(b[3], a[1]) + Prod(b[4], a[0])
  }

  function Low4(a: seq<int>, b: seq<int>): int
    requires |a| == |b| == 10
  {
    LowEarly4(a, b)
  }

  function LowEarly5(a: seq<int>, b: seq<int>): int
    requires |a| == |b| == 10
  {
    Prod(b[0], a[5]) + Prod(b[1], a[4]) + Prod(b[2], a[3]) + Prod(b[3], a[2]) + Prod(b[4], a[1])
  }

  function LowLate5(a: seq<int>, b: seq<int>): int
    requires |a| == |b| == 10
  {
    Prod(b[5], a[0])
  }

  function Low5(a: seq<int>, b: seq<int>): int
    requires |a| == |b| == 10
  {
    LowEarly5(a, b) + LowLate5(a, b)
  }

  function LowEarly6(a: seq<int>, b: seq<int>): int
    requires |a| == |b| == 10
  {
    Prod(b[0], a[6]) + 2 * Prod(b[1], a[5]) + Prod(b[2], a[4]) + 2 * Prod(b[3], a[3]) + Prod(b[4], a[2])
  }

  function LowLate6(a: seq<int>, b: seq<int>): int
    requires |a| == |b| == 10
  {
    2 * Prod(b[5], a[1]) + Prod(b[6], a[0])
  }

  function Low6(a: seq<int>, b: seq<int>): int
    requires |a| == |b| == 10
  {
    LowEarly6(a, b) + LowLate6(a, b)
  }

  function LowEarly7(a: seq<int>, b: seq<int>): int
    requires |a| == |b| == 10
  {
    Prod(b[0], a[7]) + Prod(b[1], a[6]) + Prod(b[2], a[5]) + Prod(b[3], a[4]) + Prod(b[4], a[3])
  }

  function LowLate7(a: seq<int>, b: seq<int>): int
    requires |a| == |b| == 10
  {
    Prod(b[5], a[2]) + Prod(b[6], a[1]) + Prod(b[7], a[0])
  }

  function Low7(a: seq<int>, b: seq<int>): int
    requires |a| == |b| == 10
  {
    LowEarly7(a, b) + LowLate7(a, b)
  }

  function LowEarly8(a: seq<int>, b: seq<int>): int
    requires |a| == |b| == 10
  {
    Prod(b[0], a[8]) + 2 * Prod(b[1], a[7]) + Prod(b[2], a[6]) + 2 * Prod(b[3], a[5]) + Prod(b[4], a[4])
  }

  function LowLate8(a: seq<int>, b: seq<int>): int
    requires |a| == |b| == 10
  {
    2 * Prod(b[5], a[3]) + Prod(b[6], a[2]) + 2 * Prod(b[7], a[1]) + Prod(b[8], a[0])
  }

  function Low8(a: seq<int>, b: seq<int>): int
    requires |a| == |b| == 10
  {
    LowEarly8(a, b) + LowLate8(a, b)
  }

  function LowEarly9(a: seq<int>, b: seq<int>): int
    requires |a| == |b| == 10
  {
    Prod(b[0], a[9]) + Prod(b[1], a[8]) + Prod(b[2], a[7]) + Prod(b[3], a[6]) + Prod(b[4], a[5])
  }

  function LowLate9(a: seq<int>, b: seq<int>): int
    requires |a| == |b| == 10
  {
    Prod(b[5], a[4]) + Prod(b[6], a[3]) + Prod(b[7], a[2]) + Prod(b[8], a[1]) + Prod(b[9], a[0])
  }

  function Low9(a: seq<int>, b: seq<int>): int
    requires |a| == |b| == 10
  {
    LowEarly9(a, b) + LowLate9(a, b)
  }

  function HighEarly0(a: seq<int>, b: seq<int>): int
    requires |a| == |b| == 10
  {
    2 * Prod(b[1], a[9]) + Prod(b[2], a[8]) + 2 * Prod(b[3], a[7]) + Prod(b[4], a[6])
  }

  function HighLate0(a: seq<int>, b: seq<int>): int
    requires |a| == |b| == 10
  {
    2 * Prod(b[5], a[5]) + Prod(b[6], a[4]) + 2 * Prod(b[7], a[3]) + Prod(b[8], a[2]) + 2 * Prod(b[9], a[1])
  }

  function High0(a: seq<int>, b: seq<int>): int
    requires |a| == |b| == 10
  {
    HighEarly0(a, b) + HighLate0(a, b)
  }

  function HighEarly1(a: seq<int>, b: seq<int>): int
    requires |a| == |b| == 10
  {
    Prod(b[2], a[9]) + Prod(b[3], a[8]) + Prod(b[4], a[7])
  }

  function HighLate1(a: seq<int>, b: seq<int>): int
    requires |a| == |b| == 10
  {
    Prod(b[5], a[6]) + Prod(b[6], a[5]) + Prod(b[7], a[4]) + Prod(b[8], a[3]) + Prod(b[9], a[2])
  }

  function High1(a: seq<int>, b: seq<int>): int
    requires |a| == |b| == 10
  {
    HighEarly1(a, b) + HighLate1(a, b)
  }

  function HighEarly2(a: seq<int>, b: seq<int>): int
    requires |a| == |b| == 10
  {
    2 * Prod(b[3], a[9]) + Prod(b[4], a[8])
  }

  function HighLate2(a: seq<int>, b: seq<int>): int
    requires |a| == |b| == 10
  {
    2 * Prod(b[5], a[7]) + Prod(b[6], a[6]) + 2 * Prod(b[7], a[5]) + Prod(b[8], a[4]) + 2 * Prod(b[9], a[3])
  }

  function High2(a: seq<int>, b: seq<int>): int
    requires |a| == |b| == 10
  {
    HighEarly2(a, b) + HighLate2(a, b)
  }

  function HighEarly3(a: seq<int>, b: seq<int>): int
    requires |a| == |b| == 10
  {
    Prod(b[4], a[9])
  }

  function HighLate3(a: seq<int>, b: seq<int>): int
    requires |a| == |b| == 10
  {
    Prod(b[5], a[8]) + Prod(b[6], a[7]) + Prod(b[7], a[6]) + Prod(b[8], a[5]) + Prod(b[9], a[4])
  }

  function High3(a: seq<int>, b: seq<int>): int
    requires |a| == |b| == 10
  {
    HighEarly3(a, b) + HighLate3(a, b)
  }

  function HighLate4(a: seq<int>, b: seq<int>): int
    requires |a| == |b| == 10
  {
    2 * Prod(b[5], a[9]) + Prod(b[6], a[8]) + 2 * Prod(b[7], a[7]) + Prod(b[8], a[6]) + 2 * Prod(b[9], a[5])
  }

  function High4(a: seq<int>, b: seq<int>): int
    requires |a| == |b| == 10
  {
    HighLate4(a, b)
  }

  function HighLate5(a: seq<int>, b: seq<int>): int
    requires |a| == |b| == 10
  {
    Prod(b[6], a[9]) + Prod(b[7], a[8]) + Prod(b[8], a[7]) + Prod(b[9], a[6])
  }

  function High5(a: seq<int>, b: seq<int>): int
    requires |a| == |b| == 10
  {
    HighLate5(a, b)
  }

  function HighLate6(a: seq<int>, b: seq<int>): int
    requires |a| == |b| == 10
  {
    2 * Prod(b[7], a[9]) + Prod(b[8], a[8]) + 2 * Prod(b[9], a[7])
  }

  function High6(a: seq<int>, b: seq<int>): int
    requires |a| == |b| == 10
  {
    HighLate6(a, b)
  }

  function HighLate7(a: seq<int>, b: seq<int>): int
    requires |a| == |b| == 10
  {
    Prod(b[8], a[9]) + Prod(b[9], a[8])
  }

  function High7(a: seq<int>, b: seq<int>): int
    requires |a| == |b| == 10
  {
    HighLate7(a, b)
  }

  function HighLate8(a: seq<int>, b: seq<int>): int
    requires |a| == |b| == 10
  {
    2 * Prod(b[9], a[9])
  }

  function High8(a: seq<int>, b: seq<int>): int
    requires |a| == |b| == 10
  {
    HighLate8(a, b)
  }

  lemma Row(a: seq<int>, y: int)
    requires |a| == 10
    ensures Prod(Val(a), y) == Prod(y, a[0])
      + 0x4000000 * Prod(y, a[1])
      + 0x8000000000000 * Prod(y, a[2])
      + 0x20000000000000000000 * Prod(y, a[3])
      + 0x40000000000000000000000000 * Prod(y, a[4])
      + 0x100000000000000000000000000000000 * Prod(y, a[5])
      + 0x200000000000000000000000000000000000000 * Prod(y, a[6])
      + 0x800000000000000000000000000000000000000000000 * Prod(y, a[7])
      + 0x1000000000000000000000000000000000000000000000000000 * Prod(y, a[8])
      + 0x4000000000000000000000000000000000000000000000000000000000 * Prod(y, a[9])
  {
  }

  lemma Rows(x: int, b: seq<int>)
    requires |b| == 10
    ensures Prod(x, Val(b)) == Prod(x, b[0])
      + 0x4000000 * Prod(x, b[1])
      + 0x8000000000000 * Prod(x, b[2])
      + 0x20000000000000000000 * Prod(x, b[3])
      + 0x40000000000000000000000000 * Prod(x, b[4])
      + 0x100000000000000000000000000000000 * Prod(x, b[5])
      + 0x200000000000000000000000000000000000000 * Prod(x, b[6])
      + 0x800000000000000000000000000000000000000000000 * Prod(x, b[7])
      + 0x1000000000000000000000000000000000000000000000000000 * Prod(x, b[8])
      + 0x4000000000000000000000000000000000000000000000000000000000 * Prod(x, b[9])
  {
  }

  /** The lower five limbs of b. */
  lemma EarlySum(a: seq<int>, b: seq<int>)
    requires |a| == |b| == 10
    ensures Prod(Val(a), b[0]) + 0x4000000 * Prod(Val(a), b[1]) + 0x8000000000000 * Prod(Val(a), b[2]) + 0x20000000000000000000 * Prod(Val(a), b[3]) + 0x40000000000000000000000000 * Prod(Val(a), b[4]) ==
      LowEarly0(a, b)
      + 0x4000000 * LowEarly1(a, b)
      + 0x8000000000000 * LowEarly2(a, b)
      + 0x20000000000000000000 * LowEarly3(a, b)
      + 0x40000000000000000000000000 * LowEarly4(a, b)
      + 0x100000000000000000000000000000000 * LowEarly5(a, b)
      + 0x200000000000000000000000000000000000000 * LowEarly6(a, b)
      + 0x800000000000000000000000000000000000000000000 * LowEarly7(a, b)
      + 0x1000000000000000000000000000000000000000000000000000 * LowEarly8(a, b)
      + 0x4000000000000000000000000000000000000000000000000000000000 * LowEarly9(a, b)
      + 0x8000000000000000000000000000000000000000000000000000000000000000 * HighEarly0(a, b)
      + 0x20000000000000000000000000000000000000000000000000000000000000000000000 * HighEarly1(a, b)
      + 0x40000000000000000000000000000000000000000000000000000000000000000000000000000 * HighEarly2(a, b)
      + 0x100000000000000000000000000000000000000000000000000000000000000000000000000000000000 * HighEarly3(a, b)
  {
    hide Prod, Val;
    Row(a, b[0]);
    Row(a, b[1]);
    Row(a, b[2]);
    Row(a, b[3]);
    Row(a, b[4]);
  }

  /** The upper five limbs of b. */
  lemma LateSum(a: seq<int>, b: seq<int>)
    requires |a| == |b| == 10
    ensures 0x100000000000000000000000000000000 * Prod(Val(a), b[5]) + 0x200000000000000000000000000000000000000 * Prod(Val(a), b[6]) + 0x800000000000000000000000000000000000000000000 * Prod(Val(a), b[7]) + 0x1000000000000000000000000000000000000000000000000000 * Prod(Val(a), b[8]) + 0x4000000000000000000000000000000000000000000000000000000000 * Prod(Val(a), b[9]) ==
      0x100000000000000000000000000000000 * LowLate5(a, b)
      + 0x200000000000000000000000000000000000000 * LowLate6(a, b)
      + 0x800000000000000000000000000000000000000000000 * LowLate7(a, b)
      + 0x1000000000000000000000000000000000000000000000000000 * LowLate8(a, b)
      + 0x4000000000000000000000000000000000000000000000000000000000 * LowLate9(a, b)
      + 0x8000000000000000000000000000000000000000000000000000000000000000 * HighLate0(a, b)
      + 0x20000000000000000000000000000000000000000000000000000000000000000000000 * HighLate1(a, b)
      + 0x40000000000000000000000000000000000000000000000000000000000000000000000000000 * HighLate2(a, b)
      + 0x100000000000000000000000000000000000000000000000000000000000000000000000000000000000 * HighLate3(a, b)
      + 0x200000000000000000000000000000000000000000000000000000000000000000000000000000000000000000 * HighLate4(a, b)
      + 0x800000000000000000000000000000000000000000000000000000000000000000000000000000000000000000000000 * HighLate5(a, b)
      + 0x1000000000000000000000000000000000000000000000000000000000000000000000000000000000000000000000000000000 * HighLate6(a, b)
      + 0x4000000000000000000000000000000000000000000000000000000000000000000000000000000000000000000000000000000000000 * HighLate7(a, b)
      + 0x8000000000000000000000000000000000000000000000000000000000000000000000000000000000000000000000000000000000000000000 * HighLate8(a, b)
  {
    hide Prod, Val;
    Row(a, b[5]);
    Row(a, b[6]);
    Row(a, b[7]);
    Row(a, b[8]);
    Row(a, b[9]);
  }

  /** The product is the low columns plus 2^255 times the high ones. */
  lemma SumOfRows(a: seq<int>, b: seq<int>)
    requires |a| == |b| == 10
    ensures Prod(Val(a), Val(b)) == Weighed(LowColumns(a, b)) + 0x8000000000000000000000000000000000000000000000000000000000000000 * Weighed(HighColumns(a, b))
  {
    hide Prod, HighEarly0, HighEarly1, HighEarly2, HighEarly3, HighLate0, HighLate1, HighLate2, HighLate3, HighLate4, HighLate5, HighLate6, HighLate7, HighLate8, LowEarly0, LowEarly1, LowEarly2, LowEarly3, LowEarly4, LowEarly5, LowEarly6, LowEarly7, LowEarly8, LowEarly9, LowLate5, LowLate6, LowLate7, LowLate8, LowLate9, Val;
    EarlySum(a, b);
    LateSum(a, b);
    Rows(Val(a), b);
  }

  function LowColumns(a: seq<int>, b: seq<int>): seq<int>
    requires |a| == |b| == 10
  {
    [Low0(a, b), Low1(a, b), Low2(a, b), Low3(a, b), Low4(a, b), Low5(a, b), Low6(a, b), Low7(a, b), Low8(a, b), Low9(a, b)]
  }

  function HighColumns(a: seq<int>, b: seq<int>): seq<int>
    requires |a| == |b| == 10
  {
    [High0(a, b), High1(a, b), High2(a, b), High3(a, b), High4(a, b), High5(a, b), High6(a, b), High7(a, b), High8(a, b), 0]
  }

  /** The value of ten columns; the same weights as `Val`. */
  function Weighed(m: seq<int>): int
    requires |m| == 10
  {
    m[0]
      + 0x4000000 * m[1]
      + 0x8000000000000 * m[2]
      + 0x20000000000000000000 * m[3]
      + 0x40000000000000000000000000 * m[4]
      + 0x100000000000000000000000000000000 * m[5]
      + 0x200000000000000000000000000000000000000 * m[6]
      + 0x800000000000000000000000000000000000000000000 * m[7]
      + 0x1000000000000000000000000000000000000000000000000000 * m[8]
      + 0x4000000000000000000000000000000000000000000000000000000000 * m[9]
  }

  /** What the accumulators m0, ..., m9 hold before the carries: 2^255 counts as 19. */
  predicate Columns(m: seq<int>, a: seq<int>, b: seq<int>)
    requires |a| == |b| == 10
  {
    && |m| == 10
    && m[0] == Low0(a, b) + 19 * High0(a, b) && m[1] == Low1(a, b) + 19 * High1(a, b) && m[2] == Low2(a, b) + 19 * High2(a, b) && m[3] == Low3(a, b) + 19 * High3(a, b) && m[4] == Low4(a, b) + 19 * High4(a, b) && m[5] == Low5(a, b) + 19 * High5(a, b) && m[6] == Low6(a, b) + 19 * High6(a, b) && m[7] == Low7(a, b) + 19 * High7(a, b) && m[8] == Low8(a, b) + 19 * High8(a, b) && m[9] == Low9(a, b)
  }

  // ---- the carries

  /** `m += c; r = (uint32_t)m & reduce_mask_26; c = m >> 26` */
  method CarryColumn26(m: int, c: int) returns (r: int, c': int)
    requires 0 <= m && 0 <= c && m + c < 0x1_0000_0000_0000_0000
    ensures m + c == r + 0x4000000 * c' && 0 <= r < 0x4000000 && 0 <= c' < 0x4000000000
  {
    hide And;
    var t := U64(m + c);
    LowBits(t);
    Mask26(U32(t));
    r := And(U32(t), 0x3ffffff);
    c' := t / 0x4000000;
  }

  /** `m += c; r = (uint32_t)m & reduce_mask_25; c = m >> 25` */
  method CarryColumn25(m: int, c: int) returns (r: int, c': int)
    requires 0 <= m && 0 <= c && m + c < 0x1_0000_0000_0000_0000
    ensures m + c == r + 0x2000000 * c' && 0 <= r < 0x2000000 && 0 <= c' < 0x8000000000
  {
    hide And;
    var t := U64(m + c);
    LowBits(t);
    Mask25(U32(t));
    r := And(U32(t), 0x1ffffff);
    c' := t / 0x2000000;
  }

  lemma LowBits(t: nat)
    ensures U32(t) % 0x4000000 == t % 0x4000000 && U32(t) % 0x2000000 == t % 0x2000000
  {
    var q, r := t / 0x1_0000_0000, t % 0x1_0000_0000;
    assert t == q * 0x1_0000_0000 + r;
    DivModUnique(t, 0x4000000, q * 0x40 + r / 0x4000000, r % 0x4000000);
    DivModUnique(t, 0x2000000, q * 0x80 + r / 0x2000000, r % 0x2000000);
  }

  /** The carries of columns 0 to 4, and those of columns 5 to 9. */
  method CarryLow(m0: int, m1: int, m2: int, m3: int, m4: int) returns (r0: int, r1: int, r2: int, r3: int, r4: int, c: int)
    requires 0 <= m0 < 0xfff0000000000000 && 0 <= m1 < 0xfff0000000000000 && 0 <= m2 < 0xfff0000000000000
    requires 0 <= m3 < 0xfff0000000000000 && 0 <= m4 < 0xfff0000000000000
    ensures 0 <= r0 < 0x4000000 && 0 <= r1 < 0x2000000 && 0 <= r2 < 0x4000000 && 0 <= r3 < 0x2000000 && 0 <= r4 < 0x4000000
    ensures 0 <= c < 0x4000000000
    ensures m0 + 0x4000000 * m1 + 0x8000000000000 * m2 + 0x20000000000000000000 * m3 + 0x40000000000000000000000000 * m4 == r0 + 0x4000000 * r1 + 0x8000000000000 * r2 + 0x20000000000000000000 * r3 + 0x40000000000000000000000000 * r4 + 0x100000000000000000000000000000000 * c
  {
    var c0, c1, c2, c3;
    r0, c0 := CarryColumn26(m0, 0);
    r1, c1 := CarryColumn25(m1, c0);
    r2, c2 := CarryColumn26(m2, c1);
    r3, c3 := CarryColumn25(m3, c2);
    r4, c := CarryColumn26(m4, c3);
  }

  method CarryHigh(m5: int, m6: int, m7: int, m8: int, m9: int, c: int) returns (r5: int, r6: int, r7: int, r8: int, r9: int, c': int)
    requires 0 <= m5 < 0xfff0000000000000 && 0 <= m6 < 0xfff0000000000000 && 0 <= m7 < 0xfff0000000000000
    requires 0 <= m8 < 0xfff0000000000000 && 0 <= m9 < 0x1fff00000000000 && 0 <= c < 0x4000000000
    ensures 0 <= r5 < 0x2000000 && 0 <= r6 < 0x4000000 && 0 <= r7 < 0x2000000 && 0 <= r8 < 0x4000000 && 0 <= r9 < 0x2000000
    ensures 0 <= c' < 0x1_0000_0000
    ensures c + m5 + 0x2000000 * m6 + 0x8000000000000 * m7 + 0x10000000000000000000 * m8 + 0x40000000000000000000000000 * m9 == r5 + 0x2000000 * r6 + 0x8000000000000 * r7 + 0x10000000000000000000 * r8 + 0x40000000000000000000000000 * r9 + 0x80000000000000000000000000000000 * c'
  {
    var c5, c6, c7, c8;
    r5, c5 := CarryColumn25(m5, c);
    r6, c6 := CarryColumn26(m6, c5);
    r7, c7 := CarryColumn25(m7, c6);
    r8, c8 := CarryColumn26(m8, c7);
    r9, c' := CarryColumn25(m9, c8);
  }

  /** The carry chain up to the carry out of m9, which must fit 32 bits: `p = (uint32_t)(m9 >> 25)`. */
  method CarryChain(m: seq<int>) returns (r: seq<int>, p: int)
    requires |m| == 10 && forall i :: 0 <= i < 10 ==> 0 <= m[i] < 0xfff0000000000000
    requires m[9] < 0x1fff00000000000
    ensures Below(r, 0x4000000, 0x2000000) && 0 <= p < 0x1_0000_0000
    ensures Weighed(m) == Val(r) + (P + 19) * p
  {
    var r0, r1, r2, r3, r4, c4 := CarryLow(m[0], m[1], m[2], m[3], m[4]);
    var r5, r6, r7, r8, r9, c9 := CarryHigh(m[5], m[6], m[7], m[8], m[9], c4);
    p := U32(c9);
    r := [r0, r1, r2, r3, r4, r5, r6, r7, r8, r9];
  }

  /** `m0 = r0 + mul32x32_64(p, 19); r0 = (uint32_t)m0 & reduce_mask_26; p = (uint32_t)(m0 >> 26); r1 += p` */
  method FoldTop(r: seq<int>, p: int) returns (s: seq<int>)
    requires Below(r, 0x4000000, 0x2000000) && 0 <= p < 0x1_0000_0000
    ensures Tight(s) && Val(s) == Val(r) + 19 * p
  {
    var r0, c := CarryColumn26(r[0] + 19 * p, 0);
    var r1 := U32(r[1] + U32(c));
    s := [r0, r1, r[2], r[3], r[4], r[5], r[6], r[7], r[8], r[9]];
  }

  /** The whole carry: the columns modulo p. */
  method CarryColumns(m: seq<int>) returns (s: seq<int>, ghost k: int)
    requires |m| == 10 && forall i :: 0 <= i < 10 ==> 0 <= m[i] < 0xfff0000000000000
    requires m[9] < 0x1fff00000000000
    ensures Tight(s) && Val(s) == Weighed(m) - P * k
  {
    hide Val, Weighed;
    var r;
    var p;
    r, p := CarryChain(m);
    s := FoldTop(r, p);
    k := p;
  }

  /** The carried columns of a product represent the product. */
  lemma ColumnsProduct(m: seq<int>, s: seq<int>, k: int, a: seq<int>, b: seq<int>)
    requires |s| == |a| == |b| == 10 && Columns(m, a, b) && Val(s) == Weighed(m) - P * k
    ensures Same(Val(s), Val(a) * Val(b))
  {
    var h := Weighed(HighColumns(a, b));
    assert Weighed(m) == Weighed(LowColumns(a, b)) + 19 * h by {
      hide Prod, Low0, Low1, Low2, Low3, Low4, Low5, Low6, Low7, Low8, Low9, High0, High1, High2, High3, High4, High5, High6, High7, High8, Val;
    }
    hide Weighed, Val, Columns, LowColumns, HighColumns;
    SumOfRows(a, b);
    assert Prod(Val(a), Val(b)) == Val(a) * Val(b);
    SameBy(Val(s), Val(a) * Val(b), -h - k);
  }

  lemma TopColumnSumSum(a: seq<int>, b: seq<int>)
    requires Sum(a) && Sum(b)
    ensures 0 <= Low9(a, b) < 0x1fff00000000000
  {
    hide Prod;
    ProdBound(b[0], a[9], 0x8004000, 0x4004000);
    ProdBound(b[1], a[8], 0x4004000, 0x8004000);
    ProdBound(b[2], a[7], 0x8004000, 0x4004000);
    ProdBound(b[3], a[6], 0x4004000, 0x8004000);
    ProdBound(b[4], a[5], 0x8004000, 0x4004000);
    ProdBound(b[5], a[4], 0x4004000, 0x8004000);
    ProdBound(b[6], a[3], 0x8004000, 0x4004000);
    ProdBound(b[7], a[2], 0x4004000, 0x8004000);
    ProdBound(b[8], a[1], 0x8004000, 0x4004000);
    ProdBound(b[9], a[0], 0x4004000, 0x8004000);
  }

  lemma TopColumnSumDiff(a: seq<int>, b: seq<int>)
    requires Sum(a) && Diff(b)
    ensures 0 <= Low9(a, b) < 0x1fff00000000000
  {
    hide Prod;
    ProdBound(b[0], a[9], 0x4002000, 0x4004000);
    ProdBound(b[1], a[8], 0x2002000, 0x8004000);
    ProdBound(b[2], a[7], 0x4002000, 0x4004000);
    ProdBound(b[3], a[6], 0x2002000, 0x8004000);
    ProdBound(b[4], a[5], 0xc004000, 0x4004000);
    ProdBound(b[5], a[4], 0x6004000, 0x8004000);
    ProdBound(b[6], a[3], 0xc004000, 0x4004000);
    ProdBound(b[7], a[2], 0x6004000, 0x8004000);
    ProdBound(b[8], a[1], 0xc004000, 0x4004000);
    ProdBound(b[9], a[0], 0x6004000, 0x8004000);
  }

  lemma TopColumnDiffSum(a: seq<int>, b: seq<int>)
    requires Diff(a) && Sum(b)
    ensures 0 <= Low9(a, b) < 0x1fff00000000000
  {
    hide Prod;
    ProdBound(b[0], a[9], 0x8004000, 0x6004000);
    ProdBound(b[1], a[8], 0x4004000, 0xc004000);
    ProdBound(b[2], a[7], 0x8004000, 0x6004000);
    ProdBound(b[3], a[6], 0x4004000, 0xc004000);
    ProdBound(b[4], a[5], 0x8004000, 0x6004000);
    ProdBound(b[5], a[4], 0x4004000, 0xc004000);
    ProdBound(b[6], a[3], 0x8004000, 0x2002000);
    ProdBound(b[7], a[2], 0x4004000, 0x4002000);
    ProdBound(b[8], a[1], 0x8004000, 0x2002000);
    ProdBound(b[9], a[0], 0x4004000, 0x4002000);
  }

  lemma TopColumnDiffDiff(a: seq<int>, b: seq<int>)
    requires Diff(a) && Diff(b)
    ensures 0 <= Low9(a, b) < 0x1fff00000000000
  {
    hide Prod;
    ProdBound(b[0], a[9], 0x4002000, 0x6004000);
    ProdBound(b[1], a[8], 0x2002000, 0xc004000);
    ProdBound(b[2], a[7], 0x4002000, 0x6004000);
    ProdBound(b[3], a[6], 0x2002000, 0xc004000);
    ProdBound(b[4], a[5], 0xc004000, 0x6004000);
    ProdBound(b[5], a[4], 0x6004000, 0xc004000);
    ProdBound(b[6], a[3], 0xc004000, 0x2002000);
    ProdBound(b[7], a[2], 0x6004000, 0x4002000);
    ProdBound(b[8], a[1], 0xc004000, 0x2002000);
    ProdBound(b[9], a[0], 0x6004000, 0x4002000);
  }

  /** For every pair of operands the carry out of the top column fits 32 bits. */
  lemma TopColumn(a: seq<int>, b: seq<int>)
    requires Operand(a) && Operand(b)
    ensures 0 <= Low9(a, b) < 0x1fff00000000000
  {
    hide Low9, Sum, Diff;
    if Sum(a) && Sum(b) {
      TopColumnSumSum(a, b);
    } else if Sum(a) && Diff(b) {
      TopColumnSumDiff(a, b);
    } else if Diff(a) && Sum(b) {
      TopColumnDiffSum(a, b);
    } else {
      TopColumnDiffDiff(a, b);
    }
  }

  lemma OperandIsLoose(a: seq<int>)
    requires Operand(a)
    ensures Loose(a)
  {
  }

  // ---- curve25519_mul

  method MulLow1(r0: int, r1: int, s0: int, s1: int, ghost a: seq<int>, ghost b: seq<int>) returns (m': int)
    requires Loose(a) && Loose(b)
    requires r0 == b[0]
    requires r1 == b[1]
    requires s0 == a[0]
    requires s1 == a[1]
    ensures m' == Low1(a, b) && 0 <= m' <= 0x1200c0020000000
  {
    hide Prod;
    var t0 := MulAdd(0, r0, s1, 1, b[0], 1, a[1]);
    m' := MulAdd(t0, r1, s0, 1, b[1], 1, a[0]);
  }

  method MulLow3(r0: int, r1: int, r2: int, r3: int, s0: int, s1: int, s2: int, s3: int, ghost a: seq<int>, ghost b: seq<int>) returns (m': int)
    requires Loose(a) && Loose(b)
    requires r0 == b[0]
    requires r1 == b[1]
    requires r2 == b[2]
    requires r3 == b[3]
    requires s0 == a[0]
    requires s1 == a[1]
    requires s2 == a[2]
    requires s3 == a[3]
    ensures m' == Low3(a, b) && 0 <= m' <= 0x240180040000000
  {
    hide Prod;
    var t0 := MulAdd(0, r0, s3, 1, b[0], 1, a[3]);
    var t1 := MulAdd(t0, r1, s2, 1, b[1], 1, a[2]);
    var t2 := MulAdd(t1, r2, s1, 1, b[2], 1, a[1]);
    m' := MulAdd(t2, r3, s0, 1, b[3], 1, a[0]);
  }

  method MulLow5(r0: int, r1: int, r2: int, r3: int, r4: int, r5: int, s0: int, s1: int, s2: int, s3: int, s4: int, s5: int, ghost a: seq<int>, ghost b: seq<int>) returns (m': int)
    requires Loose(a) && Loose(b)
    requires r0 == b[0]
    requires r1 == b[1]
    requires r2 == b[2]
    requires r3 == b[3]
    requires r4 == b[4]
    requires r5 == b[5]
    requires s0 == a[0]
    requires s1 == a[1]
    requires s2 == a[2]
    requires s3 == a[3]
    requires s4 == a[4]
    requires s5 == a[5]
    ensures m' == Low5(a, b) && 0 <= m' <= 0x360240060000000
  {
    hide Prod;
    var t0 := MulAdd(0, r0, s5, 1, b[0], 1, a[5]);
    var t1 := MulAdd(t0, r1, s4, 1, b[1], 1, a[4]);
    var t2 := MulAdd(t1, r2, s3, 1, b[2], 1, a[3]);
    var t3 := MulAdd(t2, r3, s2, 1, b[3], 1, a[2]);
    var t4 := MulAdd(t3, r4, s1, 1, b[4], 1, a[1]);
    m' := MulAdd(t4, r5, s0, 1, b[5], 1, a[0]);
  }

  method MulLow7(r0: int, r1: int, r2: int, r3: int, r4: int, r5: int, r6: int, r7: int, s0: int, s1: int, s2: int, s3: int, s4: int, s5: int, s6: int, s7: int, ghost a: seq<int>, ghost b: seq<int>) returns (m': int)
    requires Loose(a) && Loose(b)
    requires r0 == b[0]
    requires r1 == b[1]
    requires r2 == b[2]
    requires r3 == b[3]
    requires r4 == b[4]
    requires r5 == b[5]
    requires r6 == b[6]
    requires r7 == b[7]
    requires s0 == a[0]
    requires s1 == a[1]
    requires s2 == a[2]
    requires s3 == a[3]
    requires s4 == a[4]
    requires s5 == a[5]
    requires s6 == a[6]
    requires s7 == a[7]
    ensures m' == Low7(a, b) && 0 <= m' <= 0x480300080000000
  {
    hide Prod;
    var t0 := MulAdd(0, r0, s7, 1, b[0], 1, a[7]);
    var t1 := MulAdd(t0, r1, s6, 1, b[1], 1, a[6]);
    var t2 := MulAdd(t1, r2, s5, 1, b[2], 1, a[5]);
    var t3 := MulAdd(t2, r3, s4, 1, b[3], 1, a[4]);
    var t4 := MulAdd(t3, r4, s3, 1, b[4], 1, a[3]);
    var t5 := MulAdd(t4, r5, s2, 1, b[5], 1, a[2]);
    var t6 := MulAdd(t5, r6, s1, 1, b[6], 1, a[1]);
    m' := MulAdd(t6, r7, s0, 1, b[7], 1, a[0]);
  }

  method MulLow9(r0: int, r1: int, r2: int, r3: int, r4: int, r5: int, r6: int, r7: int, r8: int, r9: int, s0: int, s1: int, s2: int, s3: int, s4: int, s5: int, s6: int, s7: int, s8: int, s9: int, ghost a: seq<int>, ghost b: seq<int>) returns (m': int)
    requires Loose(a) && Loose(b)
    requires r0 == b[0]
    requires r1 == b[1]
    requires r2 == b[2]
    requires r3 == b[3]
    requires r4 == b[4]
    requires r5 == b[5]
    requires r6 == b[6]
    requires r7 == b[7]
    requires r8 == b[8]
    requires r9 == b[9]
    requires s0 == a[0]
    requires s1 == a[1]
    requires s2 == a[2]
    requires s3 == a[3]
    requires s4 == a[4]
    requires s5 == a[5]
    requires s6 == a[6]
    requires s7 == a[7]
    requires s8 == a[8]
    requires s9 == a[9]
    ensures m' == Low9(a, b) && 0 <= m' <= 0x5a03c00a0000000
  {
    hide Prod;
    var t0 := MulAdd(0, r0, s9, 1, b[0], 1, a[9]);
    var t1 := MulAdd(t0, r1, s8, 1, b[1], 1, a[8]);
    var t2 := MulAdd(t1, r2, s7, 1, b[2], 1, a[7]);
    var t3 := MulAdd(t2, r3, s6, 1, b[3], 1, a[6]);
    var t4 := MulAdd(t3, r4, s5, 1, b[4], 1, a[5]);
    var t5 := MulAdd(t4, r5, s4, 1, b[5], 1, a[4]);
    var t6 := MulAdd(t5, r6, s3, 1, b[6], 1, a[3]);
    var t7 := MulAdd(t6, r7, s2, 1, b[7], 1, a[2]);
    var t8 := MulAdd(t7, r8, s1, 1, b[8], 1, a[1]);
    m' := MulAdd(t8, r9, s0, 1, b[9], 1, a[0]);
  }

  method MulLow0(r0: int, s0: int, ghost a: seq<int>, ghost b: seq<int>) returns (m': int)
    requires Loose(a) && Loose(b)
    requires r0 == b[0]
    requires s0 == a[0]
    ensures m' == Low0(a, b) && 0 <= m' <= 0x90060010000000
  {
    hide Prod;
    m' := MulAdd(0, r0, s0, 1, b[0], 1, a[0]);
  }

  method MulLow2(r0: int, r1: int, r2: int, s0: int, s1: int, s2: int, ghost a: seq<int>, ghost b: seq<int>) returns (m': int)
    requires Loose(a) && Loose(b)
    requires r0 == b[0]
    requires r1 == 2 * b[1]
    requires r2 == b[2]
    requires s0 == a[0]
    requires s1 == a[1]
    requires s2 == a[2]
    ensures m' == Low2(a, b) && 0 <= m' <= 0x240180040000000
  {
    hide Prod;
    var t0 := MulAdd(0, r0, s2, 1, b[0], 1, a[2]);
    var t1 := MulAdd(t0, r1, s1, 2, b[1], 1, a[1]);
    m' := MulAdd(t1, r2, s0, 1, b[2], 1, a[0]);
  }

  method MulLow4(r0: int, r1: int, r2: int, r3: int, r4: int, s0: int, s1: int, s2: int, s3: int, s4: int, ghost a: seq<int>, ghost b: seq<int>) returns (m': int)
    requires Loose(a) && Loose(b)
    requires r0 == b[0]
    requires r1 == 2 * b[1]
    requires r2 == b[2]
    requires r3 == 2 * b[3]
    requires r4 == b[4]
    requires s0 == a[0]
    requires s1 == a[1]
    requires s2 == a[2]
    requires s3 == a[3]
    requires s4 == a[4]
    ensures m' == Low4(a, b) && 0 <= m' <= 0x3f02a0070000000
  {
    hide Prod;
    var t0 := MulAdd(0, r0, s4, 1, b[0], 1, a[4]);
    var t1 := MulAdd(t0, r1, s3, 2, b[1], 1, a[3]);
    var t2 := MulAdd(t1, r2, s2, 1, b[2], 1, a[2]);
    var t3 := MulAdd(t2, r3, s1, 2, b[3], 1, a[1]);
    m' := MulAdd(t3, r4, s0, 1, b[4], 1, a[0]);
  }

  method MulLow6(r0: int, r1: int, r2: int, r3: int, r4: int, r5: int, r6: int, s0: int, s1: int, s2: int, s3: int, s4: int, s5: int, s6: int, ghost a: seq<int>, ghost b: seq<int>) returns (m': int)
    requires Loose(a) && Loose(b)
    requires r0 == b[0]
    requires r1 == 2 * b[1]
    requires r2 == b[2]
    requires r3 == 2 * b[3]
    requires r4 == b[4]
    requires r5 == 2 * b[5]
    requires r6 == b[6]
    requires s0 == a[0]
    requires s1 == a[1]
    requires s2 == a[2]
    requires s3 == a[3]
    requires s4 == a[4]
    requires s5 == a[5]
    requires s6 == a[6]
    ensures m' == Low6(a, b) && 0 <= m' <= 0x5a03c00a0000000
  {
    hide Prod;
    var t0 := MulAdd(0, r0, s6, 1, b[0], 1, a[6]);
    var t1 := MulAdd(t0, r1, s5, 2, b[1], 1, a[5]);
    var t2 := MulAdd(t1, r2, s4, 1, b[2], 1, a[4]);
    var t3 := MulAdd(t2, r3, s3, 2, b[3], 1, a[3]);
    var t4 := MulAdd(t3, r4, s2, 1, b[4], 1, a[2]);
    var t5 := MulAdd(t4, r5, s1, 2, b[5], 1, a[1]);
    m' := MulAdd(t5, r6, s0, 1, b[6], 1, a[0]);
  }

  method MulLow8(r0: int, r1: int, r2: int, r3: int, r4: int, r5: int, r6: int, r7: int, r8: int, s0: int, s1: int, s2: int, s3: int, s4: int, s5: int, s6: int, s7: int, s8: int, ghost a: seq<int>, ghost b: seq<int>) returns (m': int)
    requires Loose(a) && Loose(b)
    requires r0 == b[0]
    requires r1 == 2 * b[1]
    requires r2 == b[2]
    requires r3 == 2 * b[3]
    requires r4 == b[4]
    requires r5 == 2 * b[5]
    requires r6 == b[6]
    requires r7 == 2 * b[7]
    requires r8 == b[8]
    requires s0 == a[0]
    requires s1 == a[1]
    requires s2 == a[2]
    requires s3 == a[3]
    requires s4 == a[4]
    requires s5 == a[5]
    requires s6 == a[6]
    requires s7 == a[7]
    requires s8 == a[8]
    ensures m' == Low8(a, b) && 0 <= m' <= 0x7504e00d0000000
  {
    hide Prod;
    var t0 := MulAdd(0, r0, s8, 1, b[0], 1, a[8]);
    var t1 := MulAdd(t0, r1, s7, 2, b[1], 1, a[7]);
    var t2 := MulAdd(t1, r2, s6, 1, b[2], 1, a[6]);
    var t3 := MulAdd(t2, r3, s5, 2, b[3], 1, a[5]);
    var t4 := MulAdd(t3, r4, s4, 1, b[4], 1, a[4]);
    var t5 := MulAdd(t4, r5, s3, 2, b[5], 1, a[3]);
    var t6 := MulAdd(t5, r6, s2, 1, b[6], 1, a[2]);
    var t7 := MulAdd(t6, r7, s1, 2, b[7], 1, a[1]);
    m' := MulAdd(t7, r8, s0, 1, b[8], 1, a[0]);
  }

  method MulWrap1(m: int, r2: int, r3: int, r4: int, r5: int, r6: int, r7: int, r8: int, r9: int, s2: int, s3: int, s4: int, s5: int, s6: int, s7: int, s8: int, s9: int, ghost a: seq<int>, ghost b: seq<int>) returns (m': int)
    requires Loose(a) && Loose(b)
    requires r2 == 19 * b[2]
    requires r3 == 19 * b[3]
    requires r4 == 19 * b[4]
    requires r5 == 19 * b[5]
    requires r6 == 19 * b[6]
    requires r7 == 19 * b[7]
    requires r8 == 19 * b[8]
    requires r9 == 19 * b[9]
    requires s2 == a[2]
    requires s3 == a[3]
    requires s4 == a[4]
    requires s5 == a[5]
    requires s6 == a[6]
    requires s7 == a[7]
    requires s8 == a[8]
    requires s9 == a[9]
    requires m == Low1(a, b) && 0 <= m <= 0x1200c0020000000
    ensures m' == Low1(a, b) + 19 * High1(a, b) && 0 <= m' <= 0x56a39c09a0000000
  {
    hide Prod;
    var t0 := MulAdd(m, r9, s2, 19, b[9], 1, a[2]);
    var t1 := MulAdd(t0, r8, s3, 19, b[8], 1, a[3]);
    var t2 := MulAdd(t1, r7, s4, 19, b[7], 1, a[4]);
    var t3 := MulAdd(t2, r6, s5, 19, b[6], 1, a[5]);
    var t4 := MulAdd(t3, r5, s6, 19, b[5], 1, a[6]);
    var t5 := MulAdd(t4, r4, s7, 19, b[4], 1, a[7]);
    var t6 := MulAdd(t5, r3, s8, 19, b[3], 1, a[8]);
    m' := MulAdd(t6, r2, s9, 19, b[2], 1, a[9]);
  }

  method MulWrap3(m: int, r4: int, r5: int, r6: int, r7: int, r8: int, r9: int, s4: int, s5: int, s6: int, s7: int, s8: int, s9: int, ghost a: seq<int>, ghost b: seq<int>) returns (m': int)
    requires Loose(a) && Loose(b)
    requires r4 == 19 * b[4]
    requires r5 == 19 * b[5]
    requires r6 == 19 * b[6]
    requires r7 == 19 * b[7]
    requires r8 == 19 * b[8]
    requires r9 == 19 * b[9]
    requires s4 == a[4]
    requires s5 == a[5]
    requires s6 == a[6]
    requires s7 == a[7]
    requires s8 == a[8]
    requires s9 == a[9]
    requires m == Low3(a, b) && 0 <= m <= 0x240180040000000
    ensures m' == Low3(a, b) + 19 * High3(a, b) && 0 <= m' <= 0x4262c40760000000
  {
    hide Prod;
    var t0 := MulAdd(m, r9, s4, 19, b[9], 1, a[4]);
    var t1 := MulAdd(t0, r8, s5, 19, b[8], 1, a[5]);
    var t2 := MulAdd(t1, r7, s6, 19, b[7], 1, a[6]);
    var t3 := MulAdd(t2, r6, s7, 19, b[6], 1, a[7]);
    var t4 := MulAdd(t3, r5, s8, 19, b[5], 1, a[8]);
    m' := MulAdd(t4, r4, s9, 19, b[4], 1, a[9]);
  }

  method MulWrap5(m: int, r6: int, r7: int, r8: int, r9: int, s6: int, s7: int, s8: int, s9: int, ghost a: seq<int>, ghost b: seq<int>) returns (m': int)
    requires Loose(a) && Loose(b)
    requires r6 == 19 * b[6]
    requires r7 == 19 * b[7]
    requires r8 == 19 * b[8]
    requires r9 == 19 * b[9]
    requires s6 == a[6]
    requires s7 == a[7]
    requires s8 == a[8]
    requires s9 == a[9]
    requires m == Low5(a, b) && 0 <= m <= 0x360240060000000
    ensures m' == Low5(a, b) + 19 * High5(a, b) && 0 <= m' <= 0x2e21ec0520000000
  {
    hide Prod;
    var t0 := MulAdd(m, r9, s6, 19, b[9], 1, a[6]);
    var t1 := MulAdd(t0, r8, s7, 19, b[8], 1, a[7]);
    var t2 := MulAdd(t1, r7, s8, 19, b[7], 1, a[8]);
    m' := MulAdd(t2, r6, s9, 19, b[6], 1, a[9]);
  }

  method MulWrap7(m: int, r8: int, r9: int, s8: int, s9: int, ghost a: seq<int>, ghost b: seq<int>) returns (m': int)
    requires Loose(a) && Loose(b)
    requires r8 == 19 * b[8]
    requires r9 == 19 * b[9]
    requires s8 == a[8]
    requires s9 == a[9]
    requires m == Low7(a, b) && 0 <= m <= 0x480300080000000
    ensures m' == Low7(a, b) + 19 * High7(a, b) && 0 <= m' <= 0x19e11402e0000000
  {
    hide Prod;
    var t0 := MulAdd(m, r9, s8, 19, b[9], 1, a[8]);
    m' := MulAdd(t0, r8, s9, 19, b[8], 1, a[9]);
  }

  method MulWrap0(m: int, r1: int, r2: int, r3: int, r4: int, r5: int, r6: int, r7: int, r8: int, r9: int, s1: int, s2: int, s3: int, s4: int, s5: int, s6: int, s7: int, s8: int, s9: int, ghost a: seq<int>, ghost b: seq<int>) returns (m': int)
    requires Loose(a) && Loose(b)
    requires r1 == 38 * b[1]
    requires r2 == 19 * b[2]
    requires r3 == 38 * b[3]
    requires r4 == 19 * b[4]
    requires r5 == 38 * b[5]
    requires r6 == 19 * b[6]
    requires r7 == 38 * b[7]
    requires r8 == 19 * b[8]
    requires r9 == 38 * b[9]
    requires s1 == a[1]
    requires s2 == a[2]
    requires s3 == a[3]
    requires s4 == a[4]
    requires s5 == a[5]
    requires s6 == a[6]
    requires s7 == a[7]
    requires s8 == a[8]
    requires s9 == a[9]
    requires m == Low0(a, b) && 0 <= m <= 0x90060010000000
    ensures m' == Low0(a, b) + 19 * High0(a, b) && 0 <= m' <= 0x96364210b0000000
  {
    hide Prod;
    var t0 := MulAdd(m, r9, s1, 38, b[9], 1, a[1]);
    var t1 := MulAdd(t0, r8, s2, 19, b[8], 1, a[2]);
    var t2 := MulAdd(t1, r7, s3, 38, b[7], 1, a[3]);
    var t3 := MulAdd(t2, r6, s4, 19, b[6], 1, a[4]);
    var t4 := MulAdd(t3, r5, s5, 38, b[5], 1, a[5]);
    var t5 := MulAdd(t4, r4, s6, 19, b[4], 1, a[6]);
    var t6 := MulAdd(t5, r3, s7, 38, b[3], 1, a[7]);
    var t7 := MulAdd(t6, r2, s8, 19, b[2], 1, a[8]);
    m' := MulAdd(t7, r1, s9, 38, b[1], 1, a[9]);
  }

  method MulWrap2(m: int, r3: int, r4: int, r5: int, r6: int, r7: int, r8: int, r9: int, s3: int, s4: int, s5: int, s6: int, s7: int, s8: int, s9: int, ghost a: seq<int>, ghost b: seq<int>) returns (m': int)
    requires Loose(a) && Loose(b)
    requires r3 == 38 * b[3]
    requires r4 == 19 * b[4]
    requires r5 == 38 * b[5]
    requires r6 == 19 * b[6]
    requires r7 == 38 * b[7]
    requires r8 == 19 * b[8]
    requires r9 == 38 * b[9]
    requires s3 == a[3]
    requires s4 == a[4]
    requires s5 == a[5]
    requires s6 == a[6]
    requires s7 == a[7]
    requires s8 == a[8]
    requires s9 == a[9]
    requires m == Low2(a, b) && 0 <= m <= 0x240180040000000
    ensures m' == Low2(a, b) + 19 * High2(a, b) && 0 <= m' <= 0x77d4fe0d50000000
  {
    hide Prod;
    var t0 := MulAdd(m, r9, s3, 38, b[9], 1, a[3]);
    var t1 := MulAdd(t0, r8, s4, 19, b[8], 1, a[4]);
    var t2 := MulAdd(t1, r7, s5, 38, b[7], 1, a[5]);
    var t3 := MulAdd(t2, r6, s6, 19, b[6], 1, a[6]);
    var t4 := MulAdd(t3, r5, s7, 38, b[5], 1, a[7]);
    var t5 := MulAdd(t4, r4, s8, 19, b[4], 1, a[8]);
    m' := MulAdd(t5, r3, s9, 38, b[3], 1, a[9]);
  }

  method MulWrap4(m: int, r5: int, r6: int, r7: int, r8: int, r9: int, s5: int, s6: int, s7: int, s8: int, s9: int, ghost a: seq<int>, ghost b: seq<int>) returns (m': int)
    requires Loose(a) && Loose(b)
    requires r5 == 38 * b[5]
    requires r6 == 19 * b[6]
    requires r7 == 38 * b[7]
    requires r8 == 19 * b[8]
    requires r9 == 38 * b[9]
    requires s5 == a[5]
    requires s6 == a[6]
    requires s7 == a[7]
    requires s8 == a[8]
    requires s9 == a[9]
    requires m == Low4(a, b) && 0 <= m <= 0x3f02a0070000000
    ensures m' == Low4(a, b) + 19 * High4(a, b) && 0 <= m' <= 0x5973ba09f0000000
  {
    hide Prod;
    var t0 := MulAdd(m, r9, s5, 38, b[9], 1, a[5]);
    var t1 := MulAdd(t0, r8, s6, 19, b[8], 1, a[6]);
    var t2 := MulAdd(t1, r7, s7, 38, b[7], 1, a[7]);
    var t3 := MulAdd(t2, r6, s8, 19, b[6], 1, a[8]);
    m' := MulAdd(t3, r5, s9, 38, b[5], 1, a[9]);
  }

  method MulWrap6(m: int, r7: int, r8: int, r9: int, s7: int, s8: int, s9: int, ghost a: seq<int>, ghost b: seq<int>) returns (m': int)
    requires Loose(a) && Loose(b)
    requires r7 == 38 * b[7]
    requires r8 == 19 * b[8]
    requires r9 == 38 * b[9]
    requires s7 == a[7]
    requires s8 == a[8]
    requires s9 == a[9]
    requires m == Low6(a, b) && 0 <= m <= 0x5a03c00a0000000
    ensures m' == Low6(a, b) + 19 * High6(a, b) && 0 <= m' <= 0x3b12760690000000
  {
    hide Prod;
    var t0 := MulAdd(m, r9, s7, 38, b[9], 1, a[7]);
    var t1 := MulAdd(t0, r8, s8, 19, b[8], 1, a[8]);
    m' := MulAdd(t1, r7, s9, 38, b[7], 1, a[9]);
  }

  method MulWrap8(m: int, r9: int, s9: int, ghost a: seq<int>, ghost b: seq<int>) returns (m': int)
    requires Loose(a) && Loose(b)
    requires r9 == 38 * b[9]
    requires s9 == a[9]
    requires m == Low8(a, b) && 0 <= m <= 0x7504e00d0000000
    ensures m' == Low8(a, b) + 19 * High8(a, b) && 0 <= m' <= 0x1cb1320330000000
  {
    hide Prod;
    m' := MulAdd(m, r9, s9, 38, b[9], 1, a[9]);
  }

  /** The ten accumulators of curve25519_mul. */
  method MulColumns(a: seq<int>, b: seq<int>) returns (m: seq<int>)
    requires Operand(a) && Operand(b)
    ensures Columns(m, a, b) && (forall i :: 0 <= i < 10 ==> 0 <= m[i] < 0xfff0000000000000) && m[9] < 0x1fff00000000000
  {
    OperandIsLoose(a);
    OperandIsLoose(b);
    TopColumn(a, b);
    hide Operand, Prod, Low0, Low1, Low2, Low3, Low4, Low5, Low6, Low7, Low8, Low9, High0, High1, High2, High3, High4, High5, High6, High7, High8, Val;
    var r0, r1, r2, r3, r4, r5, r6, r7, r8, r9 := b[0], b[1], b[2], b[3], b[4], b[5], b[6], b[7], b[8], b[9];
    var s0, s1, s2, s3, s4, s5, s6, s7, s8, s9 := a[0], a[1], a[2], a[3], a[4], a[5], a[6], a[7], a[8], a[9];
    var m1 := MulLow1(r0, r1, s0, s1, a, b);
    var m3 := MulLow3(r0, r1, r2, r3, s0, s1, s2, s3, a, b);
    var m5 := MulLow5(r0, r1, r2, r3, r4, r5, s0, s1, s2, s3, s4, s5, a, b);
    var m7 := MulLow7(r0, r1, r2, r3, r4, r5, r6, r7, s0, s1, s2, s3, s4, s5, s6, s7, a, b);
    var m9 := MulLow9(r0, r1, r2, r3, r4, r5, r6, r7, r8, r9, s0, s1, s2, s3, s4, s5, s6, s7, s8, s9, a, b);
    r1 := Scale(r1, 2);
    r3 := Scale(r3, 2);
    r5 := Scale(r5, 2);
    r7 := Scale(r7, 2);
    var m0 := MulLow0(r0, s0, a, b);
    var m2 := MulLow2(r0, r1, r2, s0, s1, s2, a, b);
    var m4 := MulLow4(r0, r1, r2, r3, r4, s0, s1, s2, s3, s4, a, b);
    var m6 := MulLow6(r0, r1, r2, r3, r4, r5, r6, s0, s1, s2, s3, s4, s5, s6, a, b);
    var m8 := MulLow8(r0, r1, r2, r3, r4, r5, r6, r7, r8, s0, s1, s2, s3, s4, s5, s6, s7, s8, a, b);
    r1 := Scale(r1, 19);
    r2 := Scale(r2, 19);
    r3 := HalfScale(r3, b[3]);
    r4 := Scale(r4, 19);
    r5 := HalfScale(r5, b[5]);
    r6 := Scale(r6, 19);
    r7 := HalfScale(r7, b[7]);
    r8 := Scale(r8, 19);
    r9 := Scale(r9, 19);
    m1 := MulWrap1(m1, r2, r3, r4, r5, r6, r7, r8, r9, s2, s3, s4, s5, s6, s7, s8, s9, a, b);
    m3 := MulWrap3(m3, r4, r5, r6, r7, r8, r9, s4, s5, s6, s7, s8, s9, a, b);
    m5 := MulWrap5(m5, r6, r7, r8, r9, s6, s7, s8, s9, a, b);
    m7 := MulWrap7(m7, r8, r9, s8, s9, a, b);
    r3 := Scale(r3, 2);
    r5 := Scale(r5, 2);
    r7 := Scale(r7, 2);
    r9 := Scale(r9, 2);
    m0 := MulWrap0(m0, r1, r2, r3, r4, r5, r6, r7, r8, r9, s1, s2, s3, s4, s5, s6, s7, s8, s9, a, b);
    m2 := MulWrap2(m2, r3, r4, r5, r6, r7, r8, r9, s3, s4, s5, s6, s7, s8, s9, a, b);
    m4 := MulWrap4(m4, r5, r6, r7, r8, r9, s5, s6, s7, s8, s9, a, b);
    m6 := MulWrap6(m6, r7, r8, r9, s7, s8, s9, a, b);
    m8 := MulWrap8(m8, r9, s9, a, b);
    m := [m0, m1, m2, m3, m4, m5, m6, m7, m8, m9];
  }

  /** curve25519_mul: the product modulo p of any two operands, without losing a bit of any word. */
  method MulLimbs(a: seq<int>, b: seq<int>) returns (s: seq<int>)
    requires Operand(a) && Operand(b)
    ensures Tight(s) && Same(Val(s), Val(a) * Val(b))
  {
    assert |a| == |b| == 10;
    hide Operand, Columns, Val, Weighed;
    var m := MulColumns(a, b);
    ghost var k;
    s, k := CarryColumns(m);
    ColumnsProduct(m, s, k, a, b);
  }

  method Mul(out: array<int>, a: array<int>, b: array<int>)
    requires out.Length == 10 && Operand(a[..]) && Operand(b[..])
    modifies out
    ensures Tight(out[..]) && Same(Val(out[..]), old(Val(a[..]) * Val(b[..])))
  {
    var s := MulLimbs(a[..], b[..]);
    Store(out, s);
  }

  // ---- curve25519_square

  method SquareLow0(r0: int, ghost a: seq<int>) returns (m': int)
    requires Loose(a)
    requires r0 == a[0]
    ensures m' == Low0(a, a) && 0 <= m' <= 0x90060010000000
  {
    hide Prod;
    m' := MulAdd(0, r0, r0, 1, a[0], 1, a[0]);
  }

  method SquareLow1(r0: int, r1: int, ghost a: seq<int>) returns (m': int)
    requires Loose(a)
    requires r0 == 2 * a[0]
    requires r1 == a[1]
    ensures m' == Low1(a, a) && 0 <= m' <= 0x1200c0020000000
  {
    hide Prod;
    m' := MulAdd(0, r0, r1, 2, a[0], 1, a[1]);
  }

  method SquareLow2(r0: int, r1: int, r2: int, ghost a: seq<int>) returns (m': int)
    requires Loose(a)
    requires r0 == 2 * a[0]
    requires r1 == a[1]
    requires r2 == a[2]
    ensures m' == Low2(a, a) && 0 <= m' <= 0x240180040000000
  {
    hide Prod;
    var t0 := MulAdd(0, r0, r2, 2, a[0], 1, a[2]);
    m' := MulAdd(t0, r1, r1 * 2, 1, a[1], 2, a[1]);
  }

  method SquareLow3(r0: int, r1: int, r2: int, r3: int, ghost a: seq<int>) returns (m': int)
    requires Loose(a)
    requires r0 == 2 * a[0]
    requires r1 == 2 * a[1]
    requires r2 == a[2]
    requires r3 == a[3]
    ensures m' == Low3(a, a) && 0 <= m' <= 0x240180040000000
  {
    hide Prod;
    var t0 := MulAdd(0, r0, r3, 2, a[0], 1, a[3]);
    m' := MulAdd(t0, r1, r2, 2, a[1], 1, a[2]);
  }

  method SquareLow4(r0: int, r1: int, r2: int, r3: int, r4: int, ghost a: seq<int>) returns (m': int)
    requires Loose(a)
    requires r0 == 2 * a[0]
    requires r1 == 2 * a[1]
    requires r2 == a[2]
    requires r3 == a[3]
    requires r4 == a[4]
    ensures m' == Low4(a, a) && 0 <= m' <= 0x3f02a0070000000
  {
    hide Prod;
    var t0 := MulAdd(0, r0, r4, 2, a[0], 1, a[4]);
    var t1 := MulAdd(t0, r1, r3 * 2, 2, a[1], 2, a[3]);
    m' := MulAdd(t1, r2, r2, 1, a[2], 1, a[2]);
  }

  method SquareLow5(r0: int, r1: int, r2: int, r3: int, r4: int, r5: int, ghost a: seq<int>) returns (m': int)
    requires Loose(a)
    requires r0 == 2 * a[0]
    requires r1 == 2 * a[1]
    requires r2 == 2 * a[2]
    requires r3 == a[3]
    requires r4 == a[4]
    requires r5 == a[5]
    ensures m' == Low5(a, a) && 0 <= m' <= 0x360240060000000
  {
    hide Prod;
    var t0 := MulAdd(0, r0, r5, 2, a[0], 1, a[5]);
    var t1 := MulAdd(t0, r1, r4, 2, a[1], 1, a[4]);
    m' := MulAdd(t1, r2, r3, 2, a[2], 1, a[3]);
  }

  method SquareLow6(r0: int, r1: int, r2: int, r3: int, r4: int, r5: int, r6: int, ghost a: seq<int>) returns (m': int)
    requires Loose(a)
    requires r0 == 2 * a[0]
    requires r1 == 2 * a[1]
    requires r2 == 2 * a[2]
    requires r3 == a[3]
    requires r4 == a[4]
    requires r5 == a[5]
    requires r6 == a[6]
    ensures m' == Low6(a, a) && 0 <= m' <= 0x5a03c00a0000000
  {
    hide Prod;
    var t0 := MulAdd(0, r0, r6, 2, a[0], 1, a[6]);
    var t1 := MulAdd(t0, r1, r5 * 2, 2, a[1], 2, a[5]);
    var t2 := MulAdd(t1, r2, r4, 2, a[2], 1, a[4]);
    m' := MulAdd(t2, r3, r3 * 2, 1, a[3], 2, a[3]);
  }

  method SquareLow7(r0: int, r1: int, r2: int, r3: int, r4: int, r5: int, r6: int, r7: int, ghost a: seq<int>) returns (m': int)
    requires Loose(a)
    requires r0 == 2 * a[0]
    requires r1 == 2 * a[1]
    requires r2 == 2 * a[2]
    requires r3 == 2 * a[3]
    requires r4 == a[4]
    requires r5 == a[5]
    requires r6 == a[6]
    requires r7 == a[7]
    ensures m' == Low7(a, a) && 0 <= m' <= 0x480300080000000
  {
    hide Prod;
    var t0 := MulAdd(0, r0, r7, 2, a[0], 1, a[7]);
    var t1 := MulAdd(t0, r1, r6, 2, a[1], 1, a[6]);
    var t2 := MulAdd(t1, r2, r5, 2, a[2], 1, a[5]);
    m' := MulAdd(t2, r3, r4, 2, a[3], 1, a[4]);
  }

  method SquareLow8(r0: int, r1: int, r2: int, r3: int, r4: int, r5: int, r6: int, r7: int, r8: int, ghost a: seq<int>) returns (m': int)
    requires Loose(a)
    requires r0 == 2 * a[0]
    requires r1 == 2 * a[1]
    requires r2 == 2 * a[2]
    requires r3 == 2 * a[3]
    requires r4 == a[4]
    requires r5 == a[5]
    requires r6 == a[6]
    requires r7 == a[7]
    requires r8 == a[8]
    ensures m' == Low8(a, a) && 0 <= m' <= 0x7504e00d0000000
  {
    hide Prod;
    var t0 := MulAdd(0, r0, r8, 2, a[0], 1, a[8]);
    var t1 := MulAdd(t0, r1, r7 * 2, 2, a[1], 2, a[7]);
    var t2 := MulAdd(t1, r2, r6, 2, a[2], 1, a[6]);
    var t3 := MulAdd(t2, r3, r5 * 2, 2, a[3], 2, a[5]);
    m' := MulAdd(t3, r4, r4, 1, a[4], 1, a[4]);
  }

  method SquareLow9(r0: int, r1: int, r2: int, r3: int, r4: int, r5: int, r6: int, r7: int, r8: int, r9: int, ghost a: seq<int>) returns (m': int)
    requires Loose(a)
    requires r0 == 2 * a[0]
    requires r1 == 2 * a[1]
    requires r2 == 2 * a[2]
    requires r3 == 2 * a[3]
    requires r4 == a[4]
    requires r5 == a[5]
    requires r6 == a[6]
    requires r7 == a[7]
    requires r8 == a[8]
    requires r9 == a[9]
    ensures m' == Low9(a, a) && 0 <= m' <= 0x5a03c00a0000000
  {
    hide Prod;
    var t0 := MulAdd(0, r0, r9, 2, a[0], 1, a[9]);
    var t1 := MulAdd(t0, r1, r8, 2, a[1], 1, a[8]);
    var t2 := MulAdd(t1, r2, r7, 2, a[2], 1, a[7]);
    var t3 := MulAdd(t2, r3, r6, 2, a[3], 1, a[6]);
    m' := MulAdd(t3, r4, r5 * 2, 1, a[4], 2, a[5]);
  }

  method SquareWrap0(m: int, d6: int, d7: int, d8: int, d9: int, r1: int, r2: int, r3: int, r4: int, r5: int, ghost a: seq<int>) returns (m': int)
    requires Loose(a)
    requires d6 == 19 * a[6]
    requires d7 == 38 * a[7]
    requires d8 == 19 * a[8]
    requires d9 == 38 * a[9]
    requires r1 == 2 * a[1]
    requires r2 == 2 * a[2]
    requires r3 == 2 * a[3]
    requires r4 == a[4]
    requires r5 == a[5]
    requires m == Low0(a, a) && 0 <= m <= 0x90060010000000
    ensures m' == Low0(a, a) + 19 * High0(a, a) && 0 <= m' <= 0x96364210b0000000
  {
    hide Prod;
    var t0 := MulAdd(m, d9, r1, 38, a[9], 2, a[1]);
    var t1 := MulAdd(t0, d8, r2, 19, a[8], 2, a[2]);
    var t2 := MulAdd(t1, d7, r3, 38, a[7], 2, a[3]);
    var t3 := MulAdd(t2, d6, r4 * 2, 19, a[6], 2, a[4]);
    m' := MulAdd(t3, r5, r5 * 2 * 19, 1, a[5], 38, a[5]);
  }

  method SquareWrap1(m: int, d6: int, d7: int, d8: int, d9: int, r2: int, r3: int, r4: int, r5: int, ghost a: seq<int>) returns (m': int)
    requires Loose(a)
    requires d6 == 19 * a[6]
    requires d7 == 38 * a[7]
    requires d8 == 19 * a[8]
    requires d9 == 38 * a[9]
    requires r2 == 2 * a[2]
    requires r3 == 2 * a[3]
    requires r4 == a[4]
    requires r5 == a[5]
    requires m == Low1(a, a) && 0 <= m <= 0x1200c0020000000
    ensures m' == Low1(a, a) + 19 * High1(a, a) && 0 <= m' <= 0x56a39c09a0000000
  {
    hide Prod;
    var t0 := MulAdd(m, d9, r2 / 2, 38, a[9], 1, a[2]);
    var t1 := MulAdd(t0, d8, r3, 19, a[8], 2, a[3]);
    var t2 := MulAdd(t1, d7, r4, 38, a[7], 1, a[4]);
    m' := MulAdd(t2, d6, r5 * 2, 19, a[6], 2, a[5]);
  }

  method SquareWrap2(m: int, d6: int, d7: int, d8: int, d9: int, r3: int, r4: int, r5: int, r6: int, ghost a: seq<int>) returns (m': int)
    requires Loose(a)
    requires d6 == 19 * a[6]
    requires d7 == 38 * a[7]
    requires d8 == 19 * a[8]
    requires d9 == 38 * a[9]
    requires r3 == 2 * a[3]
    requires r4 == a[4]
    requires r5 == a[5]
    requires r6 == a[6]
    requires m == Low2(a, a) && 0 <= m <= 0x240180040000000
    ensures m' == Low2(a, a) + 19 * High2(a, a) && 0 <= m' <= 0x77d4fe0d50000000
  {
    hide Prod;
    var t0 := MulAdd(m, d9, r3, 38, a[9], 2, a[3]);
    var t1 := MulAdd(t0, d8, r4 * 2, 19, a[8], 2, a[4]);
    var t2 := MulAdd(t1, d7, r5 * 2, 38, a[7], 2, a[5]);
    m' := MulAdd(t2, d6, r6, 19, a[6], 1, a[6]);
  }

  method SquareWrap3(m: int, d7: int, d8: int, d9: int, r4: int, r5: int, r6: int, ghost a: seq<int>) returns (m': int)
    requires Loose(a)
    requires d7 == 38 * a[7]
    requires d8 == 19 * a[8]
    requires d9 == 38 * a[9]
    requires r4 == a[4]
    requires r5 == a[5]
    requires r6 == a[6]
    requires m == Low3(a, a) && 0 <= m <= 0x240180040000000
    ensures m' == Low3(a, a) + 19 * High3(a, a) && 0 <= m' <= 0x4262c40760000000
  {
    hide Prod;
    var t0 := MulAdd(m, d9, r4, 38, a[9], 1, a[4]);
    var t1 := MulAdd(t0, d8, r5 * 2, 19, a[8], 2, a[5]);
    m' := MulAdd(t1, d7, r6, 38, a[7], 1, a[6]);
  }

  method SquareWrap4(m: int, d7: int, d8: int, d9: int, r5: int, r6: int, r7: int, ghost a: seq<int>) returns (m': int)
    requires Loose(a)
    requires d7 == 38 * a[7]
    requires d8 == 19 * a[8]
    requires d9 == 38 * a[9]
    requires r5 == a[5]
    requires r6 == a[6]
    requires r7 == a[7]
    requires m == Low4(a, a) && 0 <= m <= 0x3f02a0070000000
    ensures m' == Low4(a, a) + 19 * High4(a, a) && 0 <= m' <= 0x5973ba09f0000000
  {
    hide Prod;
    var t0 := MulAdd(m, d9, r5 * 2, 38, a[9], 2, a[5]);
    var t1 := MulAdd(t0, d8, r6 * 2, 19, a[8], 2, a[6]);
    m' := MulAdd(t1, d7, r7, 38, a[7], 1, a[7]);
  }

  method SquareWrap5(m: int, d8: int, d9: int, r6: int, r7: int, ghost a: seq<int>) returns (m': int)
    requires Loose(a)
    requires d8 == 19 * a[8]
    requires d9 == 38 * a[9]
    requires r6 == a[6]
    requires r7 == a[7]
    requires m == Low5(a, a) && 0 <= m <= 0x360240060000000
    ensures m' == Low5(a, a) + 19 * High5(a, a) && 0 <= m' <= 0x2e21ec0520000000
  {
    hide Prod;
    var t0 := MulAdd(m, d9, r6, 38, a[9], 1, a[6]);
    m' := MulAdd(t0, d8, r7 * 2, 19, a[8], 2, a[7]);
  }

  method SquareWrap6(m: int, d8: int, d9: int, r7: int, r8: int, ghost a: seq<int>) returns (m': int)
    requires Loose(a)
    requires d8 == 19 * a[8]
    requires d9 == 38 * a[9]
    requires r7 == a[7]
    requires r8 == a[8]
    requires m == Low6(a, a) && 0 <= m <= 0x5a03c00a0000000
    ensures m' == Low6(a, a) + 19 * High6(a, a) && 0 <= m' <= 0x3b12760690000000
  {
    hide Prod;
    var t0 := MulAdd(m, d9, r7 * 2, 38, a[9], 2, a[7]);
    m' := MulAdd(t0, d8, r8, 19, a[8], 1, a[8]);
  }

  method SquareWrap7(m: int, d9: int, r8: int, ghost a: seq<int>) returns (m': int)
    requires Loose(a)
    requires d9 == 38 * a[9]
    requires r8 == a[8]
    requires m == Low7(a, a) && 0 <= m <= 0x480300080000000
    ensures m' == Low7(a, a) + 19 * High7(a, a) && 0 <= m' <= 0x19e11402e0000000
  {
    hide Prod;
    m' := MulAdd(m, d9, r8, 38, a[9], 1, a[8]);
  }

  method SquareWrap8(m: int, d9: int, r9: int, ghost a: seq<int>) returns (m': int)
    requires Loose(a)
    requires d9 == 38 * a[9]
    requires r9 == a[9]
    requires m == Low8(a, a) && 0 <= m <= 0x7504e00d0000000
    ensures m' == Low8(a, a) + 19 * High8(a, a) && 0 <= m' <= 0x1cb1320330000000
  {
    hide Prod;
    m' := MulAdd(m, d9, r9, 38, a[9], 1, a[9]);
  }

  /** The ten accumulators of curve25519_square: those of the multiplication of a by itself. */
  method SquareColumns(a: seq<int>) returns (m: seq<int>)
    requires Operand(a)
    ensures Columns(m, a, a) && (forall i :: 0 <= i < 10 ==> 0 <= m[i] < 0xfff0000000000000) && m[9] < 0x1fff00000000000
  {
    OperandIsLoose(a);
    TopColumn(a, a);
    hide Operand, Prod, Low0, Low1, Low2, Low3, Low4, Low5, Low6, Low7, Low8, Low9, High0, High1, High2, High3, High4, High5, High6, High7, High8, Val;
    var r0, r1, r2, r3, r4, r5, r6, r7, r8, r9 := a[0], a[1], a[2], a[3], a[4], a[5], a[6], a[7], a[8], a[9];
    var m0 := SquareLow0(r0, a);
    r0 := Scale(r0, 2);
    var m1 := SquareLow1(r0, r1, a);
    var m2 := SquareLow2(r0, r1, r2, a);
    r1 := Scale(r1, 2);
    var m3 := SquareLow3(r0, r1, r2, r3, a);
    var m4 := SquareLow4(r0, r1, r2, r3, r4, a);
    r2 := Scale(r2, 2);
    var m5 := SquareLow5(r0, r1, r2, r3, r4, r5, a);
    var m6 := SquareLow6(r0, r1, r2, r3, r4, r5, r6, a);
    r3 := Scale(r3, 2);
    var m7 := SquareLow7(r0, r1, r2, r3, r4, r5, r6, r7, a);
    var m8 := SquareLow8(r0, r1, r2, r3, r4, r5, r6, r7, r8, a);
    var m9 := SquareLow9(r0, r1, r2, r3, r4, r5, r6, r7, r8, r9, a);
    var d6 := Scale(r6, 19);
    var d7 := Scale(r7, 38);
    var d8 := Scale(r8, 19);
    var d9 := Scale(r9, 38);
    m0 := SquareWrap0(m0, d6, d7, d8, d9, r1, r2, r3, r4, r5, a);
    m1 := SquareWrap1(m1, d6, d7, d8, d9, r2, r3, r4, r5, a);
    m2 := SquareWrap2(m2, d6, d7, d8, d9, r3, r4, r5, r6, a);
    m3 := SquareWrap3(m3, d7, d8, d9, r4, r5, r6, a);
    m4 := SquareWrap4(m4, d7, d8, d9, r5, r6, r7, a);
    m5 := SquareWrap5(m5, d8, d9, r6, r7, a);
    m6 := SquareWrap6(m6, d8, d9, r7, r8, a);
    m7 := SquareWrap7(m7, d9, r8, a);
    m8 := SquareWrap8(m8, d9, r9, a);
    m := [m0, m1, m2, m3, m4, m5, m6, m7, m8, m9];
  }

  /** curve25519_square. */
  method SquareLimbs(a: seq<int>) returns (s: seq<int>)
    requires Operand(a)
    ensures Tight(s) && Same(Val(s), Val(a) * Val(a))
  {
    assert |a| == 10;
    hide Operand, Columns, Val, Weighed;
    var m := SquareColumns(a);
    ghost var k;
    s, k := CarryColumns(m);
    ColumnsProduct(m, s, k, a, a);
  }

  method Square(out: array<int>, a: array<int>)
    requires out.Length == 10 && Operand(a[..])
    modifies out
    ensures Tight(out[..]) && Same(Val(out[..]), old(Val(a[..]) * Val(a[..])))
  {
    var s := SquareLimbs(a[..]);
    Store(out, s);
  }
}
