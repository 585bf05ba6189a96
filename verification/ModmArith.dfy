/** Addition and multiplication modulo the Ed25519 group order: add256_modm and mul256_modm
    (ed25519-donna/modm-donna-32bit.h:142-209). */
module ModmArith {
  import opened Bits
  import opened Modm

  /** `c += x + y; r = c & 0x3fffffff; c >>= 30`. */
  method AddLine(c: int, x: int, y: int) returns (d: int, c': int)
    requires 0 <= c <= 1 && 0 <= x < 0x40000000 && 0 <= y < 0x40000000
    ensures c + x + y == d + 0x40000000 * c' && 0 <= d < 0x40000000 && 0 <= c' <= 1
  {
    hide And;
    var t := U32(c + x + y);
    d := Low30(t);
    c' := t / 0x40000000;
  }

  /** add256_modm: the sum with one conditional subtraction of m.  r may be x or y. */
  method Add256(r: array<int>, x: array<int>, y: array<int>)
    requires r.Length == x.Length == y.Length == 9
    requires Limbs(x[..], 0x20000000) && Limbs(y[..], 0x20000000)
    modifies r
    ensures Limbs(r[..], 0x80000000)
    ensures Val(r[..]) == var s := old(Val(x[..]) + Val(y[..])); if s < ORDER then s else s - ORDER
  {
    var t := AddLimbs(x[..], y[..]);
    Store(r, t);
    Reduce256(r);
  }

  method AddLimbs(x: seq<int>, y: seq<int>) returns (t: seq<int>)
    requires Limbs(x, 0x20000000) && Limbs(y, 0x20000000)
    ensures Limbs(t, 0x40000001) && Val(t) == Val(x) + Val(y)
  {
    var d0, c0 := AddLine(0, x[0], y[0]);
    var d1, c1 := AddLine(c0, x[1], y[1]);
    var d2, c2 := AddLine(c1, x[2], y[2]);
    var d3, c3 := AddLine(c2, x[3], y[3]);
    var d4, c4 := AddLine(c3, x[4], y[4]);
    var d5, c5 := AddLine(c4, x[5], y[5]);
    var d6, c6 := AddLine(c5, x[6], y[6]);
    var d7, c7 := AddLine(c6, x[7], y[7]);
    var d8 := U32(c7 + x[8] + y[8]);
    t := [d0, d1, d2, d3, d4, d5, d6, d7, d8];
  }

  /** One conditional subtraction makes the sum exact precisely when it is below 2m. */
  lemma AddExactIff(s: nat)
    ensures (if s < ORDER then s else s - ORDER) == s % ORDER <==> s < 2 * ORDER
  {
    var d := ORDER;
    if s < d {
      DivModUnique(s, d, 0, s);
    } else if s < 2 * d {
      DivModUnique(s, d, 1, s - d);
    }
  }

  /** Operands that are too large: 2^256 - 1 twice, which expand_raw256_modm can deliver. */
  lemma AddWideExample()
    ensures var x := [0x3fffffff, 0x3fffffff, 0x3fffffff, 0x3fffffff, 0x3fffffff, 0x3fffffff, 0x3fffffff, 0x3fffffff, 0xffff];
            var s := Val(x) + Val(x);
            Limbs(x, 0x20000000) && (if s < ORDER then s else s - ORDER) != s % ORDER
  {
    AddExactIff(0x20000000000000000000000000000000000000000000000000000000000000000 - 2);
  }

  // ---- multiplication

  /** mul32x32_64 on 30-bit operands. */
  function Mul32(a: int, b: int): (p: int)
    requires 0 <= a < 0x40000000 && 0 <= b < 0x40000000
    ensures 0 <= p < 0x1000000000000000
  {
    ProductBound(a, b);
    a * b
  }

  lemma ProductBound(a: int, b: int)
    requires 0 <= a < 0x40000000 && 0 <= b < 0x40000000
    ensures 0 <= a * b < 0x1000000000000000
  {
    MulMono(0, a, b);
    MulMono(a, 0x3fffffff, b);
  }

  // The columns of x * y.

  function MulColumn0(x: seq<int>, y: seq<int>): (s: int)
    requires Limbs(x, 0x40000000) && Limbs(y, 0x40000000)
    ensures 0 <= s < 0xa000000000000000
  {
    Mul32(x[0], y[0])
  }

  function MulColumn1(x: seq<int>, y: seq<int>): (s: int)
    requires Limbs(x, 0x40000000) && Limbs(y, 0x40000000)
    ensures 0 <= s < 0xa000000000000000
  {
    Mul32(x[0], y[1]) + Mul32(x[1], y[0])
  }

  function MulColumn2(x: seq<int>, y: seq<int>): (s: int)
    requires Limbs(x, 0x40000000) && Limbs(y, 0x40000000)
    ensures 0 <= s < 0xa000000000000000
  {
    Mul32(x[0], y[2]) + Mul32(x[1], y[1]) + Mul32(x[2], y[0])
  }

  function MulColumn3(x: seq<int>, y: seq<int>): (s: int)
    requires Limbs(x, 0x40000000) && Limbs(y, 0x40000000)
    ensures 0 <= s < 0xa000000000000000
  {
    Mul32(x[0], y[3]) + Mul32(x[1], y[2]) + Mul32(x[2], y[1]) + Mul32(x[3], y[0])
  }

  function MulColumn4(x: seq<int>, y: seq<int>): (s: int)
    requires Limbs(x, 0x40000000) && Limbs(y, 0x40000000)
    ensures 0 <= s < 0xa000000000000000
  {
    Mul32(x[0], y[4]) + Mul32(x[1], y[3]) + Mul32(x[2], y[2]) + Mul32(x[3], y[1]) + Mul32(x[4], y[0])
  }

  function MulColumn5(x: seq<int>, y: seq<int>): (s: int)
    requires Limbs(x, 0x40000000) && Limbs(y, 0x40000000)
    ensures 0 <= s < 0xa000000000000000
  {
    Mul32(x[0], y[5]) + Mul32(x[1], y[4]) + Mul32(x[2], y[3]) + Mul32(x[3], y[2]) + Mul32(x[4], y[1]) + Mul32(x[5], y[0])
  }

  function MulColumn6(x: seq<int>, y: seq<int>): (s: int)
    requires Limbs(x, 0x40000000) && Limbs(y, 0x40000000)
    ensures 0 <= s < 0xa000000000000000
  {
    Mul32(x[0], y[6]) + Mul32(x[1], y[5]) + Mul32(x[2], y[4]) + Mul32(x[3], y[3]) + Mul32(x[4], y[2]) + Mul32(x[5], y[1]) + Mul32(x[6], y[0])
  }

  function MulColumn7(x: seq<int>, y: seq<int>): (s: int)
    requires Limbs(x, 0x40000000) && Limbs(y, 0x40000000)
    ensures 0 <= s < 0xa000000000000000
  {
    Mul32(x[0], y[7]) + Mul32(x[1], y[6]) + Mul32(x[2], y[5]) + Mul32(x[3], y[4]) + Mul32(x[4], y[3]) + Mul32(x[5], y[2]) + Mul32(x[6], y[1]) + Mul32(x[7], y[0])
  }

  function MulColumn8(x: seq<int>, y: seq<int>): (s: int)
    requires Limbs(x, 0x40000000) && Limbs(y, 0x40000000)
    ensures 0 <= s < 0xa000000000000000
  {
    Mul32(x[0], y[8]) + Mul32(x[1], y[7]) + Mul32(x[2], y[6]) + Mul32(x[3], y[5]) + Mul32(x[4], y[4]) + Mul32(x[5], y[3]) + Mul32(x[6], y[2]) + Mul32(x[7], y[1]) + Mul32(x[8], y[0])
  }

  function MulColumn9(x: seq<int>, y: seq<int>): (s: int)
    requires Limbs(x, 0x40000000) && Limbs(y, 0x40000000)
    ensures 0 <= s < 0xa000000000000000
  {
    Mul32(x[1], y[8]) + Mul32(x[2], y[7]) + Mul32(x[3], y[6]) + Mul32(x[4], y[5]) + Mul32(x[5], y[4]) + Mul32(x[6], y[3]) + Mul32(x[7], y[2]) + Mul32(x[8], y[1])
  }

  function MulColumn10(x: seq<int>, y: seq<int>): (s: int)
    requires Limbs(x, 0x40000000) && Limbs(y, 0x40000000)
    ensures 0 <= s < 0xa000000000000000
  {
    Mul32(x[2], y[8]) + Mul32(x[3], y[7]) + Mul32(x[4], y[6]) + Mul32(x[5], y[5]) + Mul32(x[6], y[4]) + Mul32(x[7], y[3]) + Mul32(x[8], y[2])
  }

  function MulColumn11(x: seq<int>, y: seq<int>): (s: int)
    requires Limbs(x, 0x40000000) && Limbs(y, 0x40000000)
    ensures 0 <= s < 0xa000000000000000
  {
    Mul32(x[3], y[8]) + Mul32(x[4], y[7]) + Mul32(x[5], y[6]) + Mul32(x[6], y[5]) + Mul32(x[7], y[4]) + Mul32(x[8], y[3])
  }

  function MulColumn12(x: seq<int>, y: seq<int>): (s: int)
    requires Limbs(x, 0x40000000) && Limbs(y, 0x40000000)
    ensures 0 <= s < 0xa000000000000000
  {
    Mul32(x[4], y[8]) + Mul32(x[5], y[7]) + Mul32(x[6], y[6]) + Mul32(x[7], y[5]) + Mul32(x[8], y[4])
  }

  function MulColumn13(x: seq<int>, y: seq<int>): (s: int)
    requires Limbs(x, 0x40000000) && Limbs(y, 0x40000000)
    ensures 0 <= s < 0xa000000000000000
  {
    Mul32(x[5], y[8]) + Mul32(x[6], y[7]) + Mul32(x[7], y[6]) + Mul32(x[8], y[5])
  }

  function MulColumn14(x: seq<int>, y: seq<int>): (s: int)
    requires Limbs(x, 0x40000000) && Limbs(y, 0x40000000)
    ensures 0 <= s < 0xa000000000000000
  {
    Mul32(x[6], y[8]) + Mul32(x[7], y[7]) + Mul32(x[8], y[6])
  }

  function MulColumn15(x: seq<int>, y: seq<int>): (s: int)
    requires Limbs(x, 0x40000000) && Limbs(y, 0x40000000)
    ensures 0 <= s < 0xa000000000000000
  {
    Mul32(x[7], y[8]) + Mul32(x[8], y[7])
  }

  function MulColumn16(x: seq<int>, y: seq<int>): (s: int)
    requires Limbs(x, 0x40000000) && Limbs(y, 0x40000000)
    ensures 0 <= s < 0xa000000000000000
  {
    Mul32(x[8], y[8])
  }

  lemma Row(x: seq<int>, y: int)
    requires Limbs(x, 0x40000000) && 0 <= y < 0x40000000
    ensures Val(x) * y == 0x1 * Mul32(x[0], y)
      + 0x40000000 * Mul32(x[1], y)
      + 0x1000000000000000 * Mul32(x[2], y)
      + 0x40000000000000000000000 * Mul32(x[3], y)
      + 0x1000000000000000000000000000000 * Mul32(x[4], y)
      + 0x40000000000000000000000000000000000000 * Mul32(x[5], y)
      + 0x1000000000000000000000000000000000000000000000 * Mul32(x[6], y)
      + 0x40000000000000000000000000000000000000000000000000000 * Mul32(x[7], y)
      + 0x1000000000000000000000000000000000000000000000000000000000000 * Mul32(x[8], y)
  {
  }

  lemma Rows(X: int, y: seq<int>)
    requires |y| == 9
    ensures X * Val(y) == 0x1 * (X * y[0])
      + 0x40000000 * (X * y[1])
      + 0x1000000000000000 * (X * y[2])
      + 0x40000000000000000000000 * (X * y[3])
      + 0x1000000000000000000000000000000 * (X * y[4])
      + 0x40000000000000000000000000000000000000 * (X * y[5])
      + 0x1000000000000000000000000000000000000000000000 * (X * y[6])
      + 0x40000000000000000000000000000000000000000000000000000 * (X * y[7])
      + 0x1000000000000000000000000000000000000000000000000000000000000 * (X * y[8])
  {
  }

  lemma SumOfRows(x: seq<int>, y: seq<int>)
    requires Limbs(x, 0x40000000) && Limbs(y, 0x40000000)
    ensures Val(x) * Val(y) == 0x1 * MulColumn0(x, y)
      + 0x40000000 * MulColumn1(x, y)
      + 0x1000000000000000 * MulColumn2(x, y)
      + 0x40000000000000000000000 * MulColumn3(x, y)
      + 0x1000000000000000000000000000000 * MulColumn4(x, y)
      + 0x40000000000000000000000000000000000000 * MulColumn5(x, y)
      + 0x1000000000000000000000000000000000000000000000 * MulColumn6(x, y)
      + 0x40000000000000000000000000000000000000000000000000000 * MulColumn7(x, y)
      + 0x1000000000000000000000000000000000000000000000000000000000000 * MulColumn8(x, y)
      + 0x40000000000000000000000000000000000000000000000000000000000000000000 * MulColumn9(x, y)
      + 0x1000000000000000000000000000000000000000000000000000000000000000000000000000 * MulColumn10(x, y)
      + 0x40000000000000000000000000000000000000000000000000000000000000000000000000000000000 * MulColumn11(x, y)
      + 0x1000000000000000000000000000000000000000000000000000000000000000000000000000000000000000000 * MulColumn12(x, y)
      + 0x40000000000000000000000000000000000000000000000000000000000000000000000000000000000000000000000000 * MulColumn13(x, y)
      + 0x1000000000000000000000000000000000000000000000000000000000000000000000000000000000000000000000000000000000 * MulColumn14(x, y)
      + 0x40000000000000000000000000000000000000000000000000000000000000000000000000000000000000000000000000000000000000000 * MulColumn15(x, y)
      + 0x1000000000000000000000000000000000000000000000000000000000000000000000000000000000000000000000000000000000000000000000000 * MulColumn16(x, y)
  {
    hide Mul32, Val;
    Row(x, y[0]);
    Row(x, y[1]);
    Row(x, y[2]);
    Row(x, y[3]);
    Row(x, y[4]);
    Row(x, y[5]);
    Row(x, y[6]);
    Row(x, y[7]);
    Row(x, y[8]);
    Rows(Val(x), y);
  }

  /** `c += s; f = c; r1 = f & 0x3fffffff; c >>= 30`. */
  method LowLine(c: int, s: int) returns (d: int, c': int)
    requires 0 <= c < 0x400000000 && 0 <= s < 0xa000000000000000
    ensures c + s == d + 0x40000000 * c' && 0 <= d < 0x40000000 && 0 <= c' < 0x400000000
  {
    hide And;
    var t := U64(c + s);
    var f := U32(t);
    TruncateThenMask(t);
    d := Low30(f);
    c' := t / 0x40000000;
  }

  lemma TruncateThenMask(t: nat)
    ensures U32(t) % 0x40000000 == t % 0x40000000
    ensures U32(t) % 0x1000000 == t % 0x1000000
    ensures U32(t) % 0x100 == t % 0x100
    ensures U32(t) / 0x100 % 0x400000 == t / 0x100 % 0x400000
    ensures t == t % 0x100 + 0x100 * (t / 0x100 % 0x400000) + 0x40000000 * (t / 0x40000000)
    ensures t % 0x1000000 == t % 0x100 + 0x100 * (t / 0x100 % 0x400000 % 0x10000)
  {
    var a, b := t % 0x100, t / 0x100;
    var m, h := b % 0x400000, b / 0x400000;
    assert t == a + 0x100 * m + 0x40000000 * h;
    var h0, h1 := h % 4, h / 4;
    DivModUnique(t, 0x40000000, h, a + 0x100 * m);
    DivModUnique(t, 0x1_0000_0000, h1, a + 0x100 * m + 0x40000000 * h0);
    var f := U32(t);
    DivModUnique(f, 0x40000000, h0, a + 0x100 * m);
    DivModUnique(f, 0x100, m + 0x400000 * h0, a);
    DivModUnique(m + 0x400000 * h0, 0x400000, h0, m);
    var m0, m1 := m % 0x10000, m / 0x10000;
    DivModUnique(t, 0x1000000, m1 + 0x40 * h, a + 0x100 * m0);
    DivModUnique(f, 0x1000000, m1 + 0x40 * h0, a + 0x100 * m0);
  }

  lemma Mask22(f: nat)
    ensures And(f, 0x3fffff) == f % 0x400000
  {
    Pow2Literals();
    AndMask(f, 22, 0x3fffff);
  }

  /** `c += s; f = c; r1 = f & 0xffffff; q1 = (f >> 8) & 0x3fffff; c >>= 30`: the column that holds
      both bit 248 and bit 264 of the product. */
  method MiddleLine(c: int, s: int) returns (d: int, q: int, c': int, ghost lo: int, ghost hi: int)
    requires 0 <= c < 0x400000000 && 0 <= s < 0xa000000000000000
    ensures c + s == lo + 0x100 * q + 0x40000000 * c'
    ensures d == lo + 0x100 * (q - 0x10000 * hi) && 0 <= d < 0x1000000 && 0 <= hi < 0x40
    ensures 0 <= lo < 0x100 && 0 <= q < 0x400000 && 0 <= c' < 0x400000000
  {
    hide And;
    var t := U64(c + s);
    var f := U32(t);
    TruncateThenMask(t);
    Low24(f);
    Mask22(f / 0x100);
    d := And(f, 0xffffff);
    q := And(f / 0x100, 0x3fffff);
    c' := t / 0x40000000;
    lo := t % 0x100;
    hi := q / 0x10000;
  }

  lemma JoinArithmetic(q: nat, f: nat, low: nat)
    requires q < 0x400000 && low == f % 0x400
    ensures (low * 0x400000 + q) % 0x40000000 == q + 0x400000 * (f % 0x100)
  {
    var a, b := low % 0x100, low / 0x100;
    assert low == a + 0x100 * b && f == low + 0x400 * (f / 0x400);
    DivModUnique(f, 0x100, b + 4 * (f / 0x400), a);
    DivModUnique(low * 0x400000 + q, 0x40000000, b, q + 0x400000 * a);
  }

  lemma Join22(q: nat, f: nat)
    requires q < 0x400000 && f < 0x1_0000_0000
    ensures And(Or(q, U32(f * 0x400000)), 0x3fffffff) == q + 0x400000 * (f % 0x100)
  {
    hide And, Or;
    Pow2Literals();
    var k := 22;
    var low := f % 0x400;
    DivModUnique(f * 0x400000, 0x1_0000_0000, f / 0x400, low * 0x400000);
    OrDisjoint(low, q, k);
    AndMask(low * 0x400000 + q, 30, 0x3fffffff);
    JoinArithmetic(q, f, low);
  }

  /** `c += s; f = c; q = (q | (f << 22)) & 0x3fffffff; q' = (f >> 8) & 0x3fffff; c >>= 30`. */
  method HighLine(c: int, s: int, q: int) returns (d: int, q': int, c': int, ghost lo: int)
    requires 0 <= c < 0x400000000 && 0 <= s < 0xa000000000000000 && 0 <= q < 0x400000
    ensures c + s == lo + 0x100 * q' + 0x40000000 * c'
    ensures d == q + 0x400000 * lo && 0 <= d < 0x40000000
    ensures 0 <= lo < 0x100 && 0 <= q' < 0x400000 && 0 <= c' < 0x400000000
  {
    hide And, Or;
    var t := U64(c + s);
    var f := U32(t);
    TruncateThenMask(t);
    Join22(q, f);
    Mask22(f / 0x100);
    d := And(Or(q, U32(f * 0x400000)), 0x3fffffff);
    q' := And(f / 0x100, 0x3fffff);
    c' := t / 0x40000000;
    lo := t % 0x100;
  }

  /** r1, and the first 22 bits of q1, from the columns 0 to 8. */
  method SplitLow(s0: int, s1: int, s2: int, s3: int, s4: int, s5: int, s6: int, s7: int, s8: int) returns (r1: seq<int>, m8: int, c8: int, ghost low: int, ghost h8: int)
    requires 0 <= s0 < 0xa000000000000000
    requires 0 <= s1 < 0xa000000000000000
    requires 0 <= s2 < 0xa000000000000000
    requires 0 <= s3 < 0xa000000000000000
    requires 0 <= s4 < 0xa000000000000000
    requires 0 <= s5 < 0xa000000000000000
    requires 0 <= s6 < 0xa000000000000000
    requires 0 <= s7 < 0xa000000000000000
    requires 0 <= s8 < 0xa000000000000000
    ensures Limbs(r1, 0x1000000) && 0 <= m8 < 0x400000 && 0 <= c8 < 0x400000000 && 0 <= low < 0x100000000000000000000000000000000000000000000000000000000000000
    ensures s0 + 0x40000000 * s1 + 0x1000000000000000 * s2 + 0x40000000000000000000000 * s3 + 0x1000000000000000000000000000000 * s4 + 0x40000000000000000000000000000000000000 * s5 + 0x1000000000000000000000000000000000000000000000 * s6 + 0x40000000000000000000000000000000000000000000000000000 * s7 + 0x1000000000000000000000000000000000000000000000000000000000000 * s8
      == low + 0x100000000000000000000000000000000000000000000000000000000000000 * m8 + 0x40000000000000000000000000000000000000000000000000000000000000000000 * c8
    ensures low + 0x100000000000000000000000000000000000000000000000000000000000000 * m8 == Val(r1) + 0x1000000000000000000000000000000000000000000000000000000000000000000 * h8
  {
    var d0, c0 := LowLine(0, s0);
    var d1, c1 := LowLine(c0, s1);
    var d2, c2 := LowLine(c1, s2);
    var d3, c3 := LowLine(c2, s3);
    var d4, c4 := LowLine(c3, s4);
    var d5, c5 := LowLine(c4, s5);
    var d6, c6 := LowLine(c5, s6);
    var d7, c7 := LowLine(c6, s7);
    var d8;
    ghost var l8;
    d8, m8, c8, l8, h8 := MiddleLine(c7, s8);
    r1 := [d0, d1, d2, d3, d4, d5, d6, d7, d8];
    low := d0 + 0x40000000 * d1 + 0x1000000000000000 * d2 + 0x40000000000000000000000 * d3 + 0x1000000000000000000000000000000 * d4 + 0x40000000000000000000000000000000000000 * d5 + 0x1000000000000000000000000000000000000000000000 * d6 + 0x40000000000000000000000000000000000000000000000000000 * d7 + 0x1000000000000000000000000000000000000000000000000000000000000 * l8;
  }

  /** The rest of q1 from the columns 9 to 16.  The last line keeps only 22 bits of the top limb, so
      bits 510 and up of the product are lost: `lost` counts them. */
  method SplitHigh(m8: int, c8: int, s9: int, s10: int, s11: int, s12: int, s13: int, s14: int, s15: int, s16: int)
      returns (q1: seq<int>, ghost lost: int, ghost l9: int, ghost k: int)
    requires 0 <= m8 < 0x400000 && 0 <= c8 < 0x400000000
    requires 0 <= s9 < 0xa000000000000000
    requires 0 <= s10 < 0xa000000000000000
    requires 0 <= s11 < 0xa000000000000000
    requires 0 <= s12 < 0xa000000000000000
    requires 0 <= s13 < 0xa000000000000000
    requires 0 <= s14 < 0xa000000000000000
    requires 0 <= s15 < 0xa000000000000000
    requires 0 <= s16 < 0xa000000000000000
    ensures Limbs(q1, 0x400000) && lost >= 0
    ensures m8 + 0x400000 * (c8 + s9 + 0x40000000 * s10 + 0x1000000000000000 * s11 + 0x40000000000000000000000 * s12 + 0x1000000000000000000000000000000 * s13 + 0x40000000000000000000000000000000000000 * s14 + 0x1000000000000000000000000000000000000000000000 * s15 + 0x40000000000000000000000000000000000000000000000000000 * s16) == Val(q1) + 0x400000000000000000000000000000000000000000000000000000000000000000 * lost
    ensures Val(q1) == m8 + 0x400000 * l9 + 0x40000000 * k
  {
    var e0, m9, c9;
    e0, m9, c9, l9 := HighLine(c8, s9, m8);
    var e1, m10, c10, l10 := HighLine(c9, s10, m9);
    var e2, m11, c11, l11 := HighLine(c10, s11, m10);
    var e3, m12, c12, l12 := HighLine(c11, s12, m11);
    var e4, m13, c13, l13 := HighLine(c12, s13, m12);
    var e5, m14, c14, l14 := HighLine(c13, s14, m13);
    var e6, m15, c15, l15 := HighLine(c14, s15, m14);
    var e7, e8, c16, l16 := HighLine(c15, s16, m15);
    q1 := [e0, e1, e2, e3, e4, e5, e6, e7, e8];
    lost := c16;
    k := e1 + 0x40000000 * e2 + 0x1000000000000000 * e3 + 0x40000000000000000000000 * e4 + 0x1000000000000000000000000000000 * e5 + 0x40000000000000000000000000000000000000 * e6 + 0x1000000000000000000000000000000000000000000000 * e7 + 0x40000000000000000000000000000000000000000000000000000 * e8;
  }

  /** r1 and q1 from all the columns. */
  method SplitLimbs(s0: int, s1: int, s2: int, s3: int, s4: int, s5: int, s6: int, s7: int, s8: int, s9: int, s10: int, s11: int, s12: int, s13: int, s14: int, s15: int, s16: int)
      returns (r1: seq<int>, q1: seq<int>, ghost low: int, ghost lost: int, ghost h: int)
    requires 0 <= s0 < 0xa000000000000000
    requires 0 <= s1 < 0xa000000000000000
    requires 0 <= s2 < 0xa000000000000000
    requires 0 <= s3 < 0xa000000000000000
    requires 0 <= s4 < 0xa000000000000000
    requires 0 <= s5 < 0xa000000000000000
    requires 0 <= s6 < 0xa000000000000000
    requires 0 <= s7 < 0xa000000000000000
    requires 0 <= s8 < 0xa000000000000000
    requires 0 <= s9 < 0xa000000000000000
    requires 0 <= s10 < 0xa000000000000000
    requires 0 <= s11 < 0xa000000000000000
    requires 0 <= s12 < 0xa000000000000000
    requires 0 <= s13 < 0xa000000000000000
    requires 0 <= s14 < 0xa000000000000000
    requires 0 <= s15 < 0xa000000000000000
    requires 0 <= s16 < 0xa000000000000000
    ensures Limbs(r1, 0x1000000) && Limbs(q1, 0x400000)
    ensures s0
      + 0x40000000 * s1
      + 0x1000000000000000 * s2
      + 0x40000000000000000000000 * s3
      + 0x1000000000000000000000000000000 * s4
      + 0x40000000000000000000000000000000000000 * s5
      + 0x1000000000000000000000000000000000000000000000 * s6
      + 0x40000000000000000000000000000000000000000000000000000 * s7
      + 0x1000000000000000000000000000000000000000000000000000000000000 * s8
      + 0x40000000000000000000000000000000000000000000000000000000000000000000 * s9
      + 0x1000000000000000000000000000000000000000000000000000000000000000000000000000 * s10
      + 0x40000000000000000000000000000000000000000000000000000000000000000000000000000000000 * s11
      + 0x1000000000000000000000000000000000000000000000000000000000000000000000000000000000000000000 * s12
      + 0x40000000000000000000000000000000000000000000000000000000000000000000000000000000000000000000000000 * s13
      + 0x1000000000000000000000000000000000000000000000000000000000000000000000000000000000000000000000000000000000 * s14
      + 0x40000000000000000000000000000000000000000000000000000000000000000000000000000000000000000000000000000000000000000 * s15
      + 0x1000000000000000000000000000000000000000000000000000000000000000000000000000000000000000000000000000000000000000000000000 * s16
      == 0x100000000000000000000000000000000000000000000000000000000000000 * (Val(q1) + 0x400000000000000000000000000000000000000000000000000000000000000000 * lost) + low
    ensures 0 <= low < 0x100000000000000000000000000000000000000000000000000000000000000 && lost >= 0
    ensures low + 0x100000000000000000000000000000000000000000000000000000000000000 * Val(q1) == Val(r1) + 0x1000000000000000000000000000000000000000000000000000000000000000000 * h
  {
    hide Val, Limbs;
    var m8, c8;
    ghost var h8, l9, k;
    r1, m8, c8, low, h8 := SplitLow(s0, s1, s2, s3, s4, s5, s6, s7, s8);
    q1, lost, l9, k := SplitHigh(m8, c8, s9, s10, s11, s12, s13, s14, s15, s16);
    h := h8 + 0x40 * l9 + 0x4000 * k;
  }

  lemma LimbsBelow(s: seq<int>)
    requires Limbs(s, 0x400000)
    ensures 0 <= Val(s) < 0x400000000000000000000000000000000000000000000000000000000000000000
  {
  }

  lemma LimbsBelow264(s: seq<int>)
    requires Limbs(s, 0x1000000)
    ensures 0 <= Val(s) < 0x1000000000000000000000000000000000000000000000000000000000000000000
  {
  }

  /** What r1 and q1 hold, of the product without its bits from 510 up. */
  lemma Pieces(p: int, q: int, r: int, low: int, lost: int, h: int)
    requires 0 <= q < 0x400000000000000000000000000000000000000000000000000000000000000000 && 0 <= r < 0x1000000000000000000000000000000000000000000000000000000000000000000 && 0 <= low < 0x100000000000000000000000000000000000000000000000000000000000000
    requires p == 0x100000000000000000000000000000000000000000000000000000000000000 * (q + 0x400000000000000000000000000000000000000000000000000000000000000000 * lost) + low
    requires low + 0x100000000000000000000000000000000000000000000000000000000000000 * q == r + 0x1000000000000000000000000000000000000000000000000000000000000000000 * h
    ensures var x := p % 0x40000000000000000000000000000000000000000000000000000000000000000000000000000000000000000000000000000000000000000000000000000000; 0 <= x < 0x40000000000000000000000000000000000000000000000000000000000000000000000000000000000000000000000000000000000000000000000000000000 && x / 0x100000000000000000000000000000000000000000000000000000000000000 == q && x % 0x1000000000000000000000000000000000000000000000000000000000000000000 == r
  {
    var x := low + 0x100000000000000000000000000000000000000000000000000000000000000 * q;
    DivModUnique(p, 0x40000000000000000000000000000000000000000000000000000000000000000000000000000000000000000000000000000000000000000000000000000000, lost, x);
    DivModUnique(x, 0x100000000000000000000000000000000000000000000000000000000000000, q, low);
    DivModUnique(x, 0x1000000000000000000000000000000000000000000000000000000000000000000, h, r);
  }

  /** mul256_modm: the low 510 bits of the product, reduced modulo m.  r may be x or y. */
  method Mul256(r: array<int>, x: array<int>, y: array<int>)
    requires r.Length == x.Length == y.Length == 9
    requires Limbs(x[..], 0x40000000) && Limbs(y[..], 0x40000000)
    modifies r
    ensures Limbs(r[..], 0x1001)
    ensures Val(r[..]) == old(Val(x[..]) * Val(y[..])) % 0x40000000000000000000000000000000000000000000000000000000000000000000000000000000000000000000000000000000000000000000000000000000 % ORDER
  {
    var q1, r1, p := MulPieces(x[..], y[..]);
    var rest := new int[9];
    Store(rest, r1);
    Barrett(r, q1, rest, p % 0x40000000000000000000000000000000000000000000000000000000000000000000000000000000000000000000000000000000000000000000000000000000);
  }

  method MulPieces(x: seq<int>, y: seq<int>) returns (q1: seq<int>, r1: seq<int>, ghost p: int)
    requires Limbs(x, 0x40000000) && Limbs(y, 0x40000000)
    ensures p == Val(x) * Val(y)
    ensures Limbs(r1, 0x1000000) && Val(r1) == p % 0x40000000000000000000000000000000000000000000000000000000000000000000000000000000000000000000000000000000000000000000000000000000 % 0x1000000000000000000000000000000000000000000000000000000000000000000
    ensures Limbs(q1, 0x1000000) && Val(q1) == p % 0x40000000000000000000000000000000000000000000000000000000000000000000000000000000000000000000000000000000000000000000000000000000 / 0x100000000000000000000000000000000000000000000000000000000000000
  {
    p := Val(x) * Val(y);
    hide MulColumn0, MulColumn1, MulColumn2, MulColumn3, MulColumn4, MulColumn5, MulColumn6, MulColumn7, MulColumn8, MulColumn9, MulColumn10, MulColumn11, MulColumn12, MulColumn13, MulColumn14, MulColumn15, MulColumn16, Val, Limbs;
    SumOfRows(x, y);
    ghost var low, lost, h;
    r1, q1, low, lost, h := SplitLimbs(MulColumn0(x, y), MulColumn1(x, y), MulColumn2(x, y), MulColumn3(x, y), MulColumn4(x, y), MulColumn5(x, y), MulColumn6(x, y), MulColumn7(x, y), MulColumn8(x, y), MulColumn9(x, y), MulColumn10(x, y), MulColumn11(x, y), MulColumn12(x, y), MulColumn13(x, y), MulColumn14(x, y), MulColumn15(x, y), MulColumn16(x, y));
    LimbsBelow(q1);
    LimbsBelow264(r1);
    Pieces(p, Val(q1), Val(r1), low, lost, h);
    Widen(q1);
  }

  lemma Widen(s: seq<int>)
    requires Limbs(s, 0x400000)
    ensures Limbs(s, 0x1000000)
  {
  }

  /** 2^510, from where mul256_modm drops the bits of the product. */
  const DROPPED: nat := 0x40000000000000000000000000000000000000000000000000000000000000000000000000000000000000000000000000000000000000000000000000000000

  lemma DroppedPower()
    ensures Pow2(510) == DROPPED
  {
    Pow2Literals();
    var k := 30;
    assert Pow2(k) == 0x40000000;
    hide Pow2;
    Pow2Add(k, k);
    Pow2Add(2 * k, 2 * k);
    Pow2Add(4 * k, 4 * k);
    Pow2Add(8 * k, 8 * k);
    Pow2Add(16 * k, k);
  }

  lemma HalfMultiple(x: int, k: int)
    requires 2 * x == ORDER * k
    ensures k % 2 == 0 && x == ORDER * (k / 2)
  {
  }

  /** m is odd: a multiple of m stays one when a power of two is divided out. */
  lemma {:induction false} OddCancels(n: nat, t: int, k: int) returns (j: int)
    requires Pow2(n) * t == ORDER * k
    ensures t == ORDER * j
  {
    if n == 0 {
      j := k;
    } else {
      var h := Pow2(n - 1);
      assert Pow2(n) * t == 2 * (h * t);
      hide Pow2;
      HalfMultiple(h * t, k);
      j := OddCancels(n - 1, t, k / 2);
    }
  }

  lemma NotMultiple(top: int, k: int)
    requires 1 <= top < ORDER
    ensures DROPPED * top != ORDER * k
  {
    DroppedPower();
    hide Pow2;
    if DROPPED * top == ORDER * k {
      var j := OddCancels(510, top, k);
      if j >= 1 {
        MulMono(1, j, ORDER);
      } else {
        MulMono(j, 0, ORDER);
      }
    }
  }

  /** mul256_modm is exact precisely for products below 2^510: the bits it drops are never a multiple of m.
      The range covers every product of two nine-limb numbers, and more.  Operands below 2^255, reduced ones
      among them, are always exact. */
  lemma MulExactIff(p: nat)
    requires p < DROPPED * ORDER
    ensures p % DROPPED % ORDER == p % ORDER <==> p < DROPPED
  {
    var d, top, rest := ORDER, p / DROPPED, p % DROPPED;
    assert p == DROPPED * top + rest;
    if p >= DROPPED {
      if rest % d == p % d {
        var k := p / d - rest / d;
        assert p == (p / d) * d + p % d && rest == (rest / d) * d + rest % d;
        NotMultiple(top, k);
      }
    }
  }

  /** A product that is too wide: (2^256 - 1)^2, with limbs the types allow. */
  lemma MulWideExample()
    ensures var x := [0x3fffffff, 0x3fffffff, 0x3fffffff, 0x3fffffff, 0x3fffffff, 0x3fffffff, 0x3fffffff, 0x3fffffff, 0xffff];
            Limbs(x, 0x10000) && Val(x) * Val(x) % 0x40000000000000000000000000000000000000000000000000000000000000000000000000000000000000000000000000000000000000000000000000000000 % ORDER != Val(x) * Val(x) % ORDER
  {
    var x := [0x3fffffff, 0x3fffffff, 0x3fffffff, 0x3fffffff, 0x3fffffff, 0x3fffffff, 0x3fffffff, 0x3fffffff, 0xffff];
    assert Val(x) == 0x10000000000000000000000000000000000000000000000000000000000000000 - 1;
    MulExactIff((0x10000000000000000000000000000000000000000000000000000000000000000 - 1) * (0x10000000000000000000000000000000000000000000000000000000000000000 - 1));
  }

}
