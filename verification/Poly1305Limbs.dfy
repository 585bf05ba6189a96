/** The limb arithmetic of poly1305-opt-master/poly1305.c: five limbs of 26 bits in words of type
    `unsigned long`, which has 32 bits on some of the targets and 64 on others.  `word` is 2^32 or 2^64. */
module Poly1305Limbs {
  import opened Bits
  import opened Poly1305Spec

  predicate Word(word: int) {
    word == 0x1_0000_0000 || word == 0x1_0000_0000_0000_0000
  }

  /** The integer that five limbs stand for. */
  function Val(h: seq<int>): int
    requires |h| == 5
  {
    h[0] + 0x4000000 * h[1] + 0x10000000000000 * h[2] + 0x40000000000000000000 * h[3] + 0x100000000000000000000000000 * h[4]
  }

  /** The accumulator between blocks: only limb 1 may stick out, by a little. */
  predicate Carried(h: seq<int>) {
    && |h| == 5
    && 0 <= h[0] < 0x4000000 && 0 <= h[1] < 0x4000000 + 0x40 && 0 <= h[2] < 0x4000000 && 0 <= h[3] < 0x4000000 && 0 <= h[4] < 0x4000000
  }

  /** The accumulator with a block added. */
  predicate Fed(h: seq<int>) {
    && |h| == 5
    && 0 <= h[0] < 0x8000000 && 0 <= h[1] < 0x8000000 + 0x40 && 0 <= h[2] < 0x8000000 && 0 <= h[3] < 0x8000000 && 0 <= h[4] < 0x6000000
  }

  /** The clamped multiplier. */
  predicate Multiplier(r: seq<int>) {
    && |r| == 5
    && 0 <= r[0] < 0x4000000 && 0 <= r[1] < 0x4000000 && 0 <= r[2] < 0x4000000 && 0 <= r[3] < 0x4000000 && 0 <= r[4] < 0x100000
  }

  /** Limbs of nominal width. */
  predicate Nominal(h: seq<int>) {
    && |h| == 5
    && 0 <= h[0] < 0x4000000 && 0 <= h[1] < 0x4000000 && 0 <= h[2] < 0x4000000 && 0 <= h[3] < 0x4000000 && 0 <= h[4] < 0x4000000
  }

  // ---- reading 26-bit pieces

  /** `And` works piecewise. */
  lemma {:induction false} AndSplit(a: nat, x: nat, b: nat, y: nat, k: nat)
    requires x < Pow2(k) && y < Pow2(k)
    ensures And(a * Pow2(k) + x, b * Pow2(k) + y) == And(a, b) * Pow2(k) + And(x, y)
    decreases k
  {
    if k == 0 {
      assert Pow2(0) == 1;
    } else {
      HalfOf(a, x, k);
      HalfOf(b, y, k);
      DoubleShift(And(a, b), k);
      AndSplit(a, x / 2, b, y / 2, k - 1);
      AndStep(a * Pow2(k) + x, b * Pow2(k) + y);
      AndStep(x, y);
    }
  }

  lemma AndStep(u: nat, v: nat)
    ensures And(u, v) == 2 * And(u / 2, v / 2) + (if u % 2 == 1 && v % 2 == 1 then 1 else 0)
  {
    if u == 0 || v == 0 {
    }
  }

  /** The words that poly1305_init and poly1305_blocks load: from every 26th bit of 16 bytes on. */
  function Words(m: seq<int>): (x: seq<int>)
    requires Bytes(m) && |m| >= 16
    ensures |x| == 5 && 0 <= x[0] && 0 <= x[1] && 0 <= x[2] && 0 <= x[3] && 0 <= x[4]
  {
    [Load32(m, 0), Load32(m, 3) / 0x4, Load32(m, 6) / 0x10, Load32(m, 9) / 0x40, Load32(m, 12) / 0x100]
  }

  /** The low 26 bits of each. */
  function Pieces(m: seq<int>): (x: seq<int>)
    requires Bytes(m) && |m| >= 16
    ensures Nominal(x) && x[4] < 0x1000000
  {
    PieceBytes(m);
    var x := Words(m);
    [x[0] % 0x4000000, x[1] % 0x4000000, x[2] % 0x4000000, x[3] % 0x4000000, x[4]]
  }

  lemma PieceA(w: int, a: int, b: int, c: int, d: int)
    requires 0 <= a < 0x100 && 0 <= b < 0x100 && 0 <= c < 0x100 && 0 <= d < 0x100
    requires w == a + 0x100 * b + 0x10000 * c + 0x1000000 * d
    ensures w % 0x4000000 == a + 0x100 * b + 0x10000 * c + 0x1000000 * (d % 4)
  {
    DivModUnique(w, 0x4000000, d / 4, a + 0x100 * b + 0x10000 * c + 0x1000000 * (d % 4));
  }

  lemma PieceB(w: int, a: int, b: int, c: int, d: int)
    requires 0 <= a < 0x100 && 0 <= b < 0x100 && 0 <= c < 0x100 && 0 <= d < 0x100
    requires w == a + 0x100 * b + 0x10000 * c + 0x1000000 * d
    ensures w / 0x4 % 0x4000000 == a / 4 + 0x40 * b + 0x4000 * c + 0x400000 * (d % 16)
  {
    DivModUnique(w, 0x4, a / 4 + 0x40 * b + 0x4000 * c + 0x400000 * d, a % 4);
    DivModUnique(w / 0x4, 0x4000000, d / 16, a / 4 + 0x40 * b + 0x4000 * c + 0x400000 * (d % 16));
  }

  lemma PieceC(w: int, a: int, b: int, c: int, d: int)
    requires 0 <= a < 0x100 && 0 <= b < 0x100 && 0 <= c < 0x100 && 0 <= d < 0x100
    requires w == a + 0x100 * b + 0x10000 * c + 0x1000000 * d
    ensures w / 0x10 % 0x4000000 == a / 16 + 0x10 * b + 0x1000 * c + 0x100000 * (d % 64)
  {
    DivModUnique(w, 0x10, a / 16 + 0x10 * b + 0x1000 * c + 0x100000 * d, a % 16);
    DivModUnique(w / 0x10, 0x4000000, d / 64, a / 16 + 0x10 * b + 0x1000 * c + 0x100000 * (d % 64));
  }

  lemma PieceD(w: int, a: int, b: int, c: int, d: int)
    requires 0 <= a < 0x100 && 0 <= b < 0x100 && 0 <= c < 0x100 && 0 <= d < 0x100
    requires w == a + 0x100 * b + 0x10000 * c + 0x1000000 * d
    ensures w / 0x40 == a / 64 + 0x4 * b + 0x400 * c + 0x40000 * d
  {
    DivModUnique(w, 0x40, a / 64 + 0x4 * b + 0x400 * c + 0x40000 * d, a % 64);
  }

  lemma PieceE(w: int, a: int, b: int, c: int, d: int)
    requires 0 <= a < 0x100 && 0 <= b < 0x100 && 0 <= c < 0x100 && 0 <= d < 0x100
    requires w == a + 0x100 * b + 0x10000 * c + 0x1000000 * d
    ensures w / 0x100 == b + 0x100 * c + 0x10000 * d
  {
    DivModUnique(w, 0x100, b + 0x100 * c + 0x10000 * d, a);
  }

  lemma PieceBytes(m: seq<int>)
    requires Bytes(m) && |m| >= 16
    ensures Words(m)[0] % 0x4000000 == m[0] + 0x100 * m[1] + 0x10000 * m[2] + 0x1000000 * (m[3] % 4)
    ensures Words(m)[1] % 0x4000000 == m[3] / 4 + 0x40 * m[4] + 0x4000 * m[5] + 0x400000 * (m[6] % 16)
    ensures Words(m)[2] % 0x4000000 == m[6] / 16 + 0x10 * m[7] + 0x1000 * m[8] + 0x100000 * (m[9] % 64)
    ensures Words(m)[3] == m[9] / 64 + 0x4 * m[10] + 0x400 * m[11] + 0x40000 * m[12] < 0x4000000
    ensures Words(m)[4] == m[13] + 0x100 * m[14] + 0x10000 * m[15] < 0x1000000
  {
    hide Load32;
    PieceA(Load32(m, 0), m[0], m[1], m[2], m[3]);
    PieceB(Load32(m, 3), m[3], m[4], m[5], m[6]);
    PieceC(Load32(m, 6), m[6], m[7], m[8], m[9]);
    PieceD(Load32(m, 9), m[9], m[10], m[11], m[12]);
    PieceE(Load32(m, 12), m[12], m[13], m[14], m[15]);
  }

  /** The pieces make up the number of the 16 bytes. */
  lemma PiecesVal(m: seq<int>)
    requires Bytes(m) && |m| == 16
    ensures Val(Pieces(m)) == LE(m)
  {
    PieceBytes(m);
    SixteenBytes(m);
    var x := Pieces(m);
    assert x[0] == Words(m)[0] % 0x4000000 && x[1] == Words(m)[1] % 0x4000000 && x[2] == Words(m)[2] % 0x4000000;
    assert x[3] == Words(m)[3] && x[4] == Words(m)[4];
    hide Words, LE, Pieces;
    var a, b, c := m[3], m[6], m[9];
    assert a == 4 * (a / 4) + a % 4 && b == 16 * (b / 16) + b % 16 && c == 64 * (c / 64) + c % 64;
  }

  lemma SixteenBytes(m: seq<int>)
    requires Bytes(m) && |m| == 16
    ensures LE(m) == m[0] + 0x100 * m[1] + 0x10000 * m[2] + 0x1000000 * m[3]
      + 0x100000000 * m[4] + 0x10000000000 * m[5] + 0x1000000000000 * m[6] + 0x100000000000000 * m[7] + 0x10000000000000000 * m[8] + 0x1000000000000000000 * m[9] + 0x100000000000000000000 * m[10] + 0x10000000000000000000000 * m[11]
      + 0x1000000000000000000000000 * m[12] + 0x100000000000000000000000000 * m[13] + 0x10000000000000000000000000000 * m[14] + 0x1000000000000000000000000000000 * m[15]
  {
    hide Load32;
    LE4(m, 0);
    LE4(m, 4);
    LE4(m, 8);
    LE4(m, 12);
    assert m[0..] == m && m[16..] == [];
  }

  // ---- the clamp

  /** A mask of at most 26 bits only sees the low 26 bits. */
  lemma AndLow(x: nat, mask: nat)
    requires mask < 0x4000000
    ensures And(x, mask) == And(x % 0x4000000, mask)
  {
    Pow2Literals();
    var k := 26;
    AndSplit(x / 0x4000000, x % 0x4000000, 0, mask, k);
    assert And(x / 0x4000000, 0) == 0;
    assert x / 0x4000000 * Pow2(k) + x % 0x4000000 == x;
  }

  lemma {:induction false} AndAtMost(x: nat, mask: nat)
    ensures And(x, mask) <= mask
  {
    if x != 0 && mask != 0 {
      AndAtMost(x / 2, mask / 2);
    }
  }

  lemma AndHorner(a: nat, x: nat, b: nat, y: nat)
    requires x < 0x4000000 && y < 0x4000000
    ensures And(a * 0x4000000 + x, b * 0x4000000 + y) == And(a, b) * 0x4000000 + And(x, y)
  {
    Pow2Literals();
    var k := 26;
    AndSplit(a, x, b, y, k);
  }

  /** The masks of poly1305_init clear the bits that the clamp of RFC 8439 clears. */
  lemma MasksClamp(p: seq<int>)
    requires Nominal(p) && p[4] < 0x1000000
    ensures Val([And(p[0], 0x3ffffff), And(p[1], 0x3ffff03), And(p[2], 0x3ffc0ff), And(p[3], 0x3f03fff), And(p[4], 0xfffff)])
         == Clamp(Val(p))
  {
    hide And;
    var a3 := p[4] * 0x4000000 + p[3];
    var a2 := a3 * 0x4000000 + p[2];
    var a1 := a2 * 0x4000000 + p[1];
    AndHorner(p[4], p[3], 0xfffff, 0x3f03fff);
    AndHorner(a3, p[2], 0xfffff * 0x4000000 + 0x3f03fff, 0x3ffc0ff);
    AndHorner(a2, p[1], (0xfffff * 0x4000000 + 0x3f03fff) * 0x4000000 + 0x3ffc0ff, 0x3ffff03);
    AndHorner(a1, p[0], ((0xfffff * 0x4000000 + 0x3f03fff) * 0x4000000 + 0x3ffc0ff) * 0x4000000 + 0x3ffff03, 0x3ffffff);
    assert Val(p) == a1 * 0x4000000 + p[0];
  }

  /** The first part of poly1305_init. */
  method LoadR(key: seq<int>) returns (r: seq<int>)
    requires Bytes(key) && |key| == 32
    ensures Multiplier(r) && Bytes(key[..16]) && LE(key[..16]) >= 0 && Val(r) == Clamp(LE(key[..16]))
  {
    var k := key[..16];
    LEBound(k);
    assert Words(key) == Words(k);
    var x := Words(key);
    PiecesVal(k);
    AndLow(x[0], 0x3ffffff);
    AndLow(x[1], 0x3ffff03);
    AndLow(x[2], 0x3ffc0ff);
    AndLow(x[3], 0x3f03fff);
    AndLow(x[4], 0xfffff);
    PieceBytes(k);
    MasksClamp(Pieces(k));
    AndAtMost(x[0], 0x3ffffff);
    AndAtMost(x[1], 0x3ffff03);
    AndAtMost(x[2], 0x3ffc0ff);
    AndAtMost(x[3], 0x3f03fff);
    AndAtMost(x[4], 0xfffff);
    r := [And(x[0], 0x3ffffff), And(x[1], 0x3ffff03), And(x[2], 0x3ffc0ff), And(x[3], 0x3f03fff), And(x[4], 0xfffff)];
  }

  // ---- one block

  /** `h0 += (U8TO32(m + 0)) & 0x3ffffff; ...; h4 += (U8TO32(m + 12) >> 8) | hibit` */
  method Feed(h: seq<int>, m: seq<int>, hibit: int) returns (h': seq<int>)
    requires Carried(h) && Bytes(m) && |m| == 16 && (hibit == 0 || hibit == 0x1000000)
    ensures Fed(h') && Val(h') == Val(h) + LE(m) + 0x100000000000000000000000000 * hibit
  {
    hide And, Or, LE;
    var x := Words(m);
    PieceBytes(m);
    PiecesVal(m);
    hide Words;
    Pow2Literals();
    hide Pow2;
    var k, mask := 26, 0x3ffffff;
    AndMask(x[0], k, mask);
    AndMask(x[1], k, mask);
    AndMask(x[2], k, mask);
    AndMask(x[3], k, mask);
    OrDisjoint(hibit / 0x1000000, x[4], 24);
    h' := [h[0] + And(x[0], mask), h[1] + And(x[1], mask), h[2] + And(x[2], mask), h[3] + And(x[3], mask), h[4] + Or(x[4], hibit)];
  }

  function Prod(x: int, y: int): (p: int) {
    x * y
  }

  /** `d + (unsigned long long)x * y`, where y is c times a limb q of the multiplier. */
  method MulAdd(d: int, x: int, y: int, ghost c: int, ghost q: int, ghost a: int, ghost b: int) returns (d': int)
    requires 0 <= x < a <= 0x8000040 && y == c * q && 0 <= q < b <= 0x4000000 && 1 <= c <= 5 && 0 <= d < 0x1000000000000000
    ensures 0 <= Prod(x, q) <= a * b && d' == d + c * Prod(x, q)
  {
    MulMono(0, x, q);
    MulMono(x, a, q);
    MulMono(q, b, a);
    MulMono(a, 0x8000040, b);
    assert x * (c * q) == c * (x * q);
    MulMono(c, 5, x * q);
    MulMono(0, c, x * q);
    d' := (d + x * y) % 0x1_0000_0000_0000_0000;
  }

  function Column0(h: seq<int>, r: seq<int>): int
    requires |h| == |r| == 5
  {
    Prod(h[0], r[0]) + 5 * Prod(h[1], r[4]) + 5 * Prod(h[2], r[3]) + 5 * Prod(h[3], r[2]) + 5 * Prod(h[4], r[1])
  }

  function Column1(h: seq<int>, r: seq<int>): int
    requires |h| == |r| == 5
  {
    Prod(h[0], r[1]) + Prod(h[1], r[0]) + 5 * Prod(h[2], r[4]) + 5 * Prod(h[3], r[3]) + 5 * Prod(h[4], r[2])
  }

  function Column2(h: seq<int>, r: seq<int>): int
    requires |h| == |r| == 5
  {
    Prod(h[0], r[2]) + Prod(h[1], r[1]) + Prod(h[2], r[0]) + 5 * Prod(h[3], r[4]) + 5 * Prod(h[4], r[3])
  }

  function Column3(h: seq<int>, r: seq<int>): int
    requires |h| == |r| == 5
  {
    Prod(h[0], r[3]) + Prod(h[1], r[2]) + Prod(h[2], r[1]) + Prod(h[3], r[0]) + 5 * Prod(h[4], r[4])
  }

  function Column4(h: seq<int>, r: seq<int>): int
    requires |h| == |r| == 5
  {
    Prod(h[0], r[4]) + Prod(h[1], r[3]) + Prod(h[2], r[2]) + Prod(h[3], r[1]) + Prod(h[4], r[0])
  }

  method MulColumn0(h: seq<int>, r: seq<int>, s1: int, s2: int, s3: int, s4: int) returns (d: int)
    requires Fed(h) && Multiplier(r) && s1 == 5 * r[1] && s2 == 5 * r[2] && s3 == 5 * r[3] && s4 == 5 * r[4]
    ensures d == Column0(h, r) && 0 <= d <= 0x1da800014000000
  {
    hide Prod;
    var t0 := MulAdd(0, h[0], r[0], 1, r[0], 0x8000000, 0x4000000);
    var t1 := MulAdd(t0, h[1], s4, 5, r[4], 0x8000040, 0x100000);
    var t2 := MulAdd(t1, h[2], s3, 5, r[3], 0x8000000, 0x4000000);
    var t3 := MulAdd(t2, h[3], s2, 5, r[2], 0x8000000, 0x4000000);
    d := MulAdd(t3, h[4], s1, 5, r[1], 0x6000000, 0x4000000);
  }

  method MulColumn1(h: seq<int>, r: seq<int>, s2: int, s3: int, s4: int) returns (d: int)
    requires Fed(h) && Multiplier(r) && s2 == 5 * r[2] && s3 == 5 * r[3] && s4 == 5 * r[4]
    ensures d == Column1(h, r) && 0 <= d <= 0x15a800100000000
  {
    hide Prod;
    var t0 := MulAdd(0, h[0], r[1], 1, r[1], 0x8000000, 0x4000000);
    var t1 := MulAdd(t0, h[1], r[0], 1, r[0], 0x8000040, 0x4000000);
    var t2 := MulAdd(t1, h[2], s4, 5, r[4], 0x8000000, 0x100000);
    var t3 := MulAdd(t2, h[3], s3, 5, r[3], 0x8000000, 0x4000000);
    d := MulAdd(t3, h[4], s2, 5, r[2], 0x6000000, 0x4000000);
  }

  method MulColumn2(h: seq<int>, r: seq<int>, s3: int, s4: int) returns (d: int)
    requires Fed(h) && Multiplier(r) && s3 == 5 * r[3] && s4 == 5 * r[4]
    ensures d == Column2(h, r) && 0 <= d <= 0xda800100000000
  {
    hide Prod;
    var t0 := MulAdd(0, h[0], r[2], 1, r[2], 0x8000000, 0x4000000);
    var t1 := MulAdd(t0, h[1], r[1], 1, r[1], 0x8000040, 0x4000000);
    var t2 := MulAdd(t1, h[2], r[0], 1, r[0], 0x8000000, 0x4000000);
    var t3 := MulAdd(t2, h[3], s4, 5, r[4], 0x8000000, 0x100000);
    d := MulAdd(t3, h[4], s3, 5, r[3], 0x6000000, 0x4000000);
  }

  method MulColumn3(h: seq<int>, r: seq<int>, s4: int) returns (d: int)
    requires Fed(h) && Multiplier(r) && s4 == 5 * r[4]
    ensures d == Column3(h, r) && 0 <= d <= 0x81e00100000000
  {
    hide Prod;
    var t0 := MulAdd(0, h[0], r[3], 1, r[3], 0x8000000, 0x4000000);
    var t1 := MulAdd(t0, h[1], r[2], 1, r[2], 0x8000040, 0x4000000);
    var t2 := MulAdd(t1, h[2], r[1], 1, r[1], 0x8000000, 0x4000000);
    var t3 := MulAdd(t2, h[3], r[0], 1, r[0], 0x8000000, 0x4000000);
    d := MulAdd(t3, h[4], s4, 5, r[4], 0x6000000, 0x100000);
  }

  method MulColumn4(h: seq<int>, r: seq<int>) returns (d: int)
    requires Fed(h) && Multiplier(r)
    ensures d == Column4(h, r) && 0 <= d <= 0x78800100000000
  {
    hide Prod;
    var t0 := MulAdd(0, h[0], r[4], 1, r[4], 0x8000000, 0x100000);
    var t1 := MulAdd(t0, h[1], r[3], 1, r[3], 0x8000040, 0x4000000);
    var t2 := MulAdd(t1, h[2], r[2], 1, r[2], 0x8000000, 0x4000000);
    var t3 := MulAdd(t2, h[3], r[1], 1, r[1], 0x8000000, 0x4000000);
    d := MulAdd(t3, h[4], r[0], 1, r[0], 0x6000000, 0x4000000);
  }

  lemma Row(h: seq<int>, y: int)
    requires |h| == 5
    ensures Prod(Val(h), y) == Prod(h[0], y) + 0x4000000 * Prod(h[1], y) + 0x10000000000000 * Prod(h[2], y) + 0x40000000000000000000 * Prod(h[3], y) + 0x100000000000000000000000000 * Prod(h[4], y)
  {
  }

  lemma Rows(x: int, r: seq<int>)
    requires |r| == 5
    ensures Prod(x, Val(r)) == Prod(x, r[0]) + 0x4000000 * Prod(x, r[1]) + 0x10000000000000 * Prod(x, r[2]) + 0x40000000000000000000 * Prod(x, r[3]) + 0x100000000000000000000000000 * Prod(x, r[4])
  {
  }

  function Columns(h: seq<int>, r: seq<int>): (c: seq<int>)
    requires |h| == |r| == 5
    ensures |c| == 5
  {
    [Column0(h, r), Column1(h, r), Column2(h, r), Column3(h, r), Column4(h, r)]
  }

  /** The columns are the product with 2^130 counted as 5. */
  lemma ColumnSum(h: seq<int>, r: seq<int>) returns (k: int)
    requires |h| == |r| == 5
    ensures Prod(Val(h), Val(r)) == Val(Columns(h, r)) + P1305 * k
  {
    k := (Prod(h[1], r[4]) + Prod(h[2], r[3]) + Prod(h[3], r[2]) + Prod(h[4], r[1])) + 0x4000000 * (Prod(h[2], r[4]) + Prod(h[3], r[3]) + Prod(h[4], r[2])) + 0x10000000000000 * (Prod(h[3], r[4]) + Prod(h[4], r[3])) + 0x40000000000000000000 * (Prod(h[4], r[4]));
    assert Val(Columns(h, r)) == Column0(h, r) + 0x4000000 * Column1(h, r) + 0x10000000000000 * Column2(h, r) + 0x40000000000000000000 * Column3(h, r) + 0x100000000000000000000000000 * Column4(h, r);
    hide Prod, Val;
    Row(h, r[0]);
    Row(h, r[1]);
    Row(h, r[2]);
    Row(h, r[3]);
    Row(h, r[4]);
    Rows(Val(h), r);
  }

  /** `d += c; c = (unsigned long)(d >> 26); h = (unsigned long)d & 0x3ffffff` */
  method CarryLine(d: int, c: int, word: int) returns (h: int, c': int)
    requires Word(word) && 0 <= d <= 0x400000000000000 - 0x100000000 && 0 <= c < 0x100000000
    ensures d + c == h + 0x4000000 * c' && 0 <= h < 0x4000000 && 0 <= c' < 0x100000000
  {
    hide And;
    var t := (d + c) % 0x1_0000_0000_0000_0000;
    Pow2Literals();
    var k, mask := 26, 0x3ffffff;
    WordLow(t, word);
    AndMask(t % word, k, mask);
    h := And(t % word, mask);
    c' := t / 0x4000000 % word;
  }

  lemma WordLow(t: nat, word: int)
    requires Word(word) && t < 0x400000000000000
    ensures t % word % 0x4000000 == t % 0x4000000 && t / 0x4000000 % word == t / 0x4000000
  {
    var q, r := t / 0x1_0000_0000, t % 0x1_0000_0000;
    assert t == q * 0x1_0000_0000 + r;
    DivModUnique(t, 0x4000000, q * 0x40 + r / 0x4000000, r % 0x4000000);
  }

  /** `h &= 0x3ffffff` of a word, and the carry out of it. */
  method CarryWord(x: int) returns (h: int, c: int)
    requires 0 <= x < 0x1_0000_0000
    ensures x == h + 0x4000000 * c && 0 <= h < 0x4000000 && 0 <= c < 0x40
  {
    Pow2Literals();
    var k, mask := 26, 0x3ffffff;
    AndMask(x, k, mask);
    c := x / 0x4000000;
    h := And(x, mask);
  }

  /** The partial reduction after the columns. */
  method CarryColumns(d0: int, d1: int, d2: int, d3: int, d4: int, word: int) returns (h: seq<int>, ghost k: int)
    requires Word(word) && 0 <= d0 <= 0x1da800014000000 && 0 <= d1 <= 0x15a800100000000 && 0 <= d2 <= 0xda800100000000 && 0 <= d3 <= 0x81e00100000000 && 0 <= d4 <= 0x78800100000000
    ensures Carried(h) && Val(h) == Val([d0, d1, d2, d3, d4]) - P1305 * k
  {
    var h0, c0 := CarryLine(d0, 0, word);
    var h1, c1 := CarryLine(d1, c0, word);
    var h2, c2 := CarryLine(d2, c1, word);
    var h3, c3 := CarryLine(d3, c2, word);
    var h4, c4 := CarryLine(d4, c3, word);
    var c;
    h0, c := CarryWord((h0 + c4 * 5) % word);
    h := [h0, h1 + c, h2, h3, h4];
    k := c4;
  }

  /** One pass of the loop of poly1305_blocks: h becomes (h + block) * r. */
  method Block(h: seq<int>, r: seq<int>, m: seq<int>, hibit: int, word: int) returns (h': seq<int>)
    requires Word(word) && Carried(h) && Multiplier(r) && Bytes(m) && |m| == 16 && (hibit == 0 || hibit == 0x1000000)
    ensures Carried(h') && Same1305(Val(h'), (Val(h) + LE(m) + 0x100000000000000000000000000 * hibit) * Val(r))
  {
    hide LE, Val, Column0, Column1, Column2, Column3, Column4;
    var s1, s2, s3, s4 := r[1] * 5 % word, r[2] * 5 % word, r[3] * 5 % word, r[4] * 5 % word;
    var x := Feed(h, m, hibit);
    var d0 := MulColumn0(x, r, s1, s2, s3, s4);
    var d1 := MulColumn1(x, r, s2, s3, s4);
    var d2 := MulColumn2(x, r, s3, s4);
    var d3 := MulColumn3(x, r, s4);
    var d4 := MulColumn4(x, r);
    ghost var k;
    h', k := CarryColumns(d0, d1, d2, d3, d4, word);
    ghost var j := ColumnSum(x, r);
    SameBy1305(Val(h'), Val(x) * Val(r), -(j + k));
  }
}
