/** Bytes to signed limbs and back: fexpand and fcontract (curve25519/curve25519-donna.c:402-513). */
module DonnaBytes {
  import opened Bits
  import opened FieldModulus
  import opened Fe
  import opened FeBytes
  import opened Donna

  // Four bytes shifted down and cut: what of each byte stays.

  lemma Piece0(w: int, a: int, b: int, c: int, d: int)
    requires 0 <= a < 0x100 && 0 <= b < 0x100 && 0 <= c < 0x100 && 0 <= d < 0x100
    requires w == a + 0x100 * b + 0x10000 * c + 0x1000000 * d
    ensures w / 0x1 % 0x4000000 == a / 0x1 + 0x100 * b + 0x10000 * c + 0x1000000 * (d % 0x4)
  {
    DivModUnique(w, 0x1, a / 0x1 + 0x100 * b + 0x10000 * c + 0x1000000 * d, a % 0x1);
    DivModUnique(w / 0x1, 0x4000000, d / 0x4, a / 0x1 + 0x100 * b + 0x10000 * c + 0x1000000 * (d % 0x4));
  }

  lemma Piece1(w: int, a: int, b: int, c: int, d: int)
    requires 0 <= a < 0x100 && 0 <= b < 0x100 && 0 <= c < 0x100 && 0 <= d < 0x100
    requires w == a + 0x100 * b + 0x10000 * c + 0x1000000 * d
    ensures w / 0x4 % 0x2000000 == a / 0x4 + 0x40 * b + 0x4000 * c + 0x400000 * (d % 0x8)
  {
    DivModUnique(w, 0x4, a / 0x4 + 0x40 * b + 0x4000 * c + 0x400000 * d, a % 0x4);
    DivModUnique(w / 0x4, 0x2000000, d / 0x8, a / 0x4 + 0x40 * b + 0x4000 * c + 0x400000 * (d % 0x8));
  }

  lemma Piece2(w: int, a: int, b: int, c: int, d: int)
    requires 0 <= a < 0x100 && 0 <= b < 0x100 && 0 <= c < 0x100 && 0 <= d < 0x100
    requires w == a + 0x100 * b + 0x10000 * c + 0x1000000 * d
    ensures w / 0x8 % 0x4000000 == a / 0x8 + 0x20 * b + 0x2000 * c + 0x200000 * (d % 0x20)
  {
    DivModUnique(w, 0x8, a / 0x8 + 0x20 * b + 0x2000 * c + 0x200000 * d, a % 0x8);
    DivModUnique(w / 0x8, 0x4000000, d / 0x20, a / 0x8 + 0x20 * b + 0x2000 * c + 0x200000 * (d % 0x20));
  }

  lemma Piece3(w: int, a: int, b: int, c: int, d: int)
    requires 0 <= a < 0x100 && 0 <= b < 0x100 && 0 <= c < 0x100 && 0 <= d < 0x100
    requires w == a + 0x100 * b + 0x10000 * c + 0x1000000 * d
    ensures w / 0x20 % 0x2000000 == a / 0x20 + 0x8 * b + 0x800 * c + 0x80000 * (d % 0x40)
  {
    DivModUnique(w, 0x20, a / 0x20 + 0x8 * b + 0x800 * c + 0x80000 * d, a % 0x20);
    DivModUnique(w / 0x20, 0x2000000, d / 0x40, a / 0x20 + 0x8 * b + 0x800 * c + 0x80000 * (d % 0x40));
  }

  lemma Piece4(w: int, a: int, b: int, c: int, d: int)
    requires 0 <= a < 0x100 && 0 <= b < 0x100 && 0 <= c < 0x100 && 0 <= d < 0x100
    requires w == a + 0x100 * b + 0x10000 * c + 0x1000000 * d
    ensures w / 0x40 % 0x4000000 == a / 0x40 + 0x4 * b + 0x400 * c + 0x40000 * (d % 0x100)
  {
    DivModUnique(w, 0x40, a / 0x40 + 0x4 * b + 0x400 * c + 0x40000 * d, a % 0x40);
    DivModUnique(w / 0x40, 0x4000000, d / 0x100, a / 0x40 + 0x4 * b + 0x400 * c + 0x40000 * (d % 0x100));
  }

  lemma Piece5(w: int, a: int, b: int, c: int, d: int)
    requires 0 <= a < 0x100 && 0 <= b < 0x100 && 0 <= c < 0x100 && 0 <= d < 0x100
    requires w == a + 0x100 * b + 0x10000 * c + 0x1000000 * d
    ensures w / 0x1 % 0x2000000 == a / 0x1 + 0x100 * b + 0x10000 * c + 0x1000000 * (d % 0x2)
  {
    DivModUnique(w, 0x1, a / 0x1 + 0x100 * b + 0x10000 * c + 0x1000000 * d, a % 0x1);
    DivModUnique(w / 0x1, 0x2000000, d / 0x2, a / 0x1 + 0x100 * b + 0x10000 * c + 0x1000000 * (d % 0x2));
  }

  lemma Piece6(w: int, a: int, b: int, c: int, d: int)
    requires 0 <= a < 0x100 && 0 <= b < 0x100 && 0 <= c < 0x100 && 0 <= d < 0x100
    requires w == a + 0x100 * b + 0x10000 * c + 0x1000000 * d
    ensures w / 0x2 % 0x4000000 == a / 0x2 + 0x80 * b + 0x8000 * c + 0x800000 * (d % 0x8)
  {
    DivModUnique(w, 0x2, a / 0x2 + 0x80 * b + 0x8000 * c + 0x800000 * d, a % 0x2);
    DivModUnique(w / 0x2, 0x4000000, d / 0x8, a / 0x2 + 0x80 * b + 0x8000 * c + 0x800000 * (d % 0x8));
  }

  lemma Piece7(w: int, a: int, b: int, c: int, d: int)
    requires 0 <= a < 0x100 && 0 <= b < 0x100 && 0 <= c < 0x100 && 0 <= d < 0x100
    requires w == a + 0x100 * b + 0x10000 * c + 0x1000000 * d
    ensures w / 0x8 % 0x2000000 == a / 0x8 + 0x20 * b + 0x2000 * c + 0x200000 * (d % 0x10)
  {
    DivModUnique(w, 0x8, a / 0x8 + 0x20 * b + 0x2000 * c + 0x200000 * d, a % 0x8);
    DivModUnique(w / 0x8, 0x2000000, d / 0x10, a / 0x8 + 0x20 * b + 0x2000 * c + 0x200000 * (d % 0x10));
  }

  lemma Piece8(w: int, a: int, b: int, c: int, d: int)
    requires 0 <= a < 0x100 && 0 <= b < 0x100 && 0 <= c < 0x100 && 0 <= d < 0x100
    requires w == a + 0x100 * b + 0x10000 * c + 0x1000000 * d
    ensures w / 0x10 % 0x4000000 == a / 0x10 + 0x10 * b + 0x1000 * c + 0x100000 * (d % 0x40)
  {
    DivModUnique(w, 0x10, a / 0x10 + 0x10 * b + 0x1000 * c + 0x100000 * d, a % 0x10);
    DivModUnique(w / 0x10, 0x4000000, d / 0x40, a / 0x10 + 0x10 * b + 0x1000 * c + 0x100000 * (d % 0x40));
  }

  lemma Piece9(w: int, a: int, b: int, c: int, d: int)
    requires 0 <= a < 0x100 && 0 <= b < 0x100 && 0 <= c < 0x100 && 0 <= d < 0x100
    requires w == a + 0x100 * b + 0x10000 * c + 0x1000000 * d
    ensures w / 0x40 % 0x4000000 == a / 0x40 + 0x4 * b + 0x400 * c + 0x40000 * (d % 0x100)
  {
    DivModUnique(w, 0x40, a / 0x40 + 0x4 * b + 0x400 * c + 0x40000 * d, a % 0x40);
    DivModUnique(w / 0x40, 0x4000000, d / 0x100, a / 0x40 + 0x4 * b + 0x400 * c + 0x40000 * (d % 0x100));
  }


  /** F(n, start, shift, mask), k = 2^shift */
  method ExpandPiece(input: seq<int>, start: nat, k: int, mask: int, ghost bits: nat) returns (d: int)
    requires Bytes(input) && start + 4 <= |input| && k > 0 && mask >= 0 && mask + 1 == Pow2(bits)
    ensures d == Load32(input, start) / k % (mask + 1) && 0 <= d <= mask
  {
    hide And;
    AndMask(Load32(input, start) / k, bits, mask);
    d := And(Load32(input, start) / k, mask);
  }

  /** Limbs 0 to 4 from the bytes 0 to 15. */
  method ExpandLow(input: seq<int>) returns (d0: int, d1: int, d2: int, d3: int, d4: int)
    requires |input| == 32 && Bytes(input)
    ensures 0 <= d0 < 0x4000000 && 0 <= d1 < 0x2000000 && 0 <= d2 < 0x4000000 && 0 <= d3 < 0x2000000 && 0 <= d4 < 0x4000000
    ensures LE(input[..16]) == d0 + 0x4000000 * d1 + 0x8000000000000 * d2 + 0x20000000000000000000 * d3 + 0x40000000000000000000000000 * d4
  {
    hide Pow2, Load32, LE;
    Pow2Literals();
    d0 := ExpandPiece(input, 0, 0x1, 0x3ffffff, 26);
    Piece0(Load32(input, 0), input[0], input[1], input[2], input[3]);
    d1 := ExpandPiece(input, 3, 0x4, 0x1ffffff, 25);
    Piece1(Load32(input, 3), input[3], input[4], input[5], input[6]);
    d2 := ExpandPiece(input, 6, 0x8, 0x3ffffff, 26);
    Piece2(Load32(input, 6), input[6], input[7], input[8], input[9]);
    d3 := ExpandPiece(input, 9, 0x20, 0x1ffffff, 25);
    Piece3(Load32(input, 9), input[9], input[10], input[11], input[12]);
    d4 := ExpandPiece(input, 12, 0x40, 0x3ffffff, 26);
    Piece4(Load32(input, 12), input[12], input[13], input[14], input[15]);
    Bytes16(input[..16]);
    LowSum(input, d0, d1, d2, d3, d4);
  }

  /** Limbs 5 to 9 from the bytes 16 to 31. */
  method ExpandHigh(input: seq<int>) returns (d5: int, d6: int, d7: int, d8: int, d9: int)
    requires |input| == 32 && Bytes(input)
    ensures 0 <= d5 < 0x2000000 && 0 <= d6 < 0x4000000 && 0 <= d7 < 0x2000000 && 0 <= d8 < 0x4000000 && 0 <= d9 < 0x4000000
    ensures LE(input[16..]) == d5 + 0x2000000 * d6 + 0x8000000000000 * d7 + 0x10000000000000000000 * d8 + 0x40000000000000000000000000 * d9
  {
    hide Pow2, Load32, LE;
    Pow2Literals();
    d5 := ExpandPiece(input, 16, 0x1, 0x1ffffff, 25);
    Piece5(Load32(input, 16), input[16], input[17], input[18], input[19]);
    d6 := ExpandPiece(input, 19, 0x2, 0x3ffffff, 26);
    Piece6(Load32(input, 19), input[19], input[20], input[21], input[22]);
    d7 := ExpandPiece(input, 22, 0x8, 0x1ffffff, 25);
    Piece7(Load32(input, 22), input[22], input[23], input[24], input[25]);
    d8 := ExpandPiece(input, 25, 0x10, 0x3ffffff, 26);
    Piece8(Load32(input, 25), input[25], input[26], input[27], input[28]);
    d9 := ExpandPiece(input, 28, 0x40, 0x3ffffff, 26);
    Piece9(Load32(input, 28), input[28], input[29], input[30], input[31]);
    Bytes16(input[16..]);
    HighSum(input, d5, d6, d7, d8, d9);
  }

  lemma LowSum(b: seq<int>, s0: int, s1: int, s2: int, s3: int, s4: int)
    requires |b| == 32 && Bytes(b)
    requires s0 == b[0] / 0x1 + 0x100 * b[1] + 0x10000 * b[2] + 0x1000000 * (b[3] % 0x4)
    requires s1 == b[3] / 0x4 + 0x40 * b[4] + 0x4000 * b[5] + 0x400000 * (b[6] % 0x8)
    requires s2 == b[6] / 0x8 + 0x20 * b[7] + 0x2000 * b[8] + 0x200000 * (b[9] % 0x20)
    requires s3 == b[9] / 0x20 + 0x8 * b[10] + 0x800 * b[11] + 0x80000 * (b[12] % 0x40)
    requires s4 == b[12] / 0x40 + 0x4 * b[13] + 0x400 * b[14] + 0x40000 * (b[15] % 0x100)
    ensures s0 + 0x4000000 * s1 + 0x8000000000000 * s2 + 0x20000000000000000000 * s3 + 0x40000000000000000000000000 * s4 == b[0] + 0x100 * b[1] + 0x10000 * b[2] + 0x1000000 * b[3] + 0x100000000 * b[4] + 0x10000000000 * b[5] + 0x1000000000000 * b[6] + 0x100000000000000 * b[7] + 0x10000000000000000 * b[8] + 0x1000000000000000000 * b[9] + 0x100000000000000000000 * b[10] + 0x10000000000000000000000 * b[11] + 0x1000000000000000000000000 * b[12] + 0x100000000000000000000000000 * b[13] + 0x10000000000000000000000000000 * b[14] + 0x1000000000000000000000000000000 * b[15]
  {
  }

  lemma HighSum(b: seq<int>, s5: int, s6: int, s7: int, s8: int, s9: int)
    requires |b| == 32 && Bytes(b)
    requires s5 == b[16] / 0x1 + 0x100 * b[17] + 0x10000 * b[18] + 0x1000000 * (b[19] % 0x2)
    requires s6 == b[19] / 0x2 + 0x80 * b[20] + 0x8000 * b[21] + 0x800000 * (b[22] % 0x8)
    requires s7 == b[22] / 0x8 + 0x20 * b[23] + 0x2000 * b[24] + 0x200000 * (b[25] % 0x10)
    requires s8 == b[25] / 0x10 + 0x10 * b[26] + 0x1000 * b[27] + 0x100000 * (b[28] % 0x40)
    requires s9 == b[28] / 0x40 + 0x4 * b[29] + 0x400 * b[30] + 0x40000 * (b[31] % 0x100)
    ensures s5 + 0x2000000 * s6 + 0x8000000000000 * s7 + 0x10000000000000000000 * s8 + 0x40000000000000000000000000 * s9 == b[16] + 0x100 * b[17] + 0x10000 * b[18] + 0x1000000 * b[19] + 0x100000000 * b[20] + 0x10000000000 * b[21] + 0x1000000000000 * b[22] + 0x100000000000000 * b[23] + 0x10000000000000000 * b[24] + 0x1000000000000000000 * b[25] + 0x100000000000000000000 * b[26] + 0x10000000000000000000000 * b[27] + 0x1000000000000000000000000 * b[28] + 0x100000000000000000000000000 * b[29] + 0x10000000000000000000000000000 * b[30] + 0x1000000000000000000000000000000 * b[31]
  {
  }

  /** fexpand keeps all 256 bits: bit 255 stays in limb 9. */
  method Expand(input: seq<int>) returns (s: seq<int>)
    requires |input| == 32 && Bytes(input)
    ensures Fresh(s) && Val(s) == LE(input)
  {
    var d0, d1, d2, d3, d4 := ExpandLow(input);
    var d5, d6, d7, d8, d9 := ExpandHigh(input);
    s := [d0, d1, d2, d3, d4, d5, d6, d7, d8, d9];
    LEConcat(input[..16], input[16..]);
    assert input == input[..16] + input[16..];
    Pow128();
  }

  // ---- fcontract

  /** `mask = (s32)x >> 31; carry = -(((s32)x & mask) >> bits); x += carry << bits; next -= carry * times`
      with whole = 2^bits: a negative limb borrows from the next one. */
  method Borrow(x: int, next: int, whole: int, times: int) returns (x': int, next': int, c: int)
    requires (whole == 0x4000000 || whole == 0x2000000) && -whole <= x < 0x10000000 && -0x10000000 < next < 0x10000000 && (times == 1 || times == 19)
    ensures c == (if x < 0 then 1 else 0) && x' == x + whole * c && next' == next - times * c
  {
    var mask := if S32(x) < 0 then 0xffff_ffff else 0;
    var masked := S32(And(U32(S32(x)), mask));
    SignMasked(x, mask);
    BorrowCount(masked, whole);
    c := -(masked / whole);
    x' := S32(S32(x) + c * whole);
    next' := S32(S32(next) - c * times);
  }

  /** `x & (x >> 31)` keeps negative words and clears the others. */
  lemma SignMasked(x: int, mask: nat)
    requires -0x8000_0000 <= x < 0x8000_0000 && mask == if x < 0 then 0xffff_ffff else 0
    ensures S32(And(U32(x), mask)) == if x < 0 then x else 0
  {
    var w, k := U32(x), 32;
    if x < 0 {
      Pow2Literals();
      AndMask(w, k, mask);
      DivModUnique(x, 0x1_0000_0000, -1, x + 0x1_0000_0000);
    } else {
      AndNothing(w);
    }
  }

  lemma AndNothing(w: nat)
    ensures And(w, 0) == 0
  {
  }

  lemma BorrowCount(x: int, whole: int)
    requires whole > 0 && -whole <= x <= 0
    ensures x / whole == if x < 0 then -1 else 0
  {
    if x < 0 {
      DivModUnique(x, whole, -1, x + whole);
    } else {
      DivModUnique(x, whole, 0, 0);
    }
  }

  /** Limbs 1 to 9 nominal, and nothing below zero but perhaps limb 0. */
  predicate Settled(s: seq<int>) {
    && |s| == 10 && -19 <= s[0] < 0x4000000
    && 0 <= s[1] < 0x2000000 && 0 <= s[2] < 0x4000000 && 0 <= s[3] < 0x2000000 && 0 <= s[4] < 0x4000000
    && 0 <= s[5] < 0x2000000 && 0 <= s[6] < 0x4000000 && 0 <= s[7] < 0x2000000 && 0 <= s[8] < 0x4000000 && 0 <= s[9] < 0x2000000
  }

  /** The borrows of four limbs from an even one on. */
  method BorrowFour(a: int, b: int, c: int, d: int, e: int) returns (a': int, b': int, c': int, d': int, e': int, ghost out: int)
    requires -0x4000000 <= a < 0x4000000 && -0x2000000 < b < 0x2000000 && -0x4000000 < c < 0x4000000 && -0x2000000 < d < 0x2000000 && -0x4000000 < e < 0x4000000
    ensures a' == (if a < 0 then a + 0x4000000 else a)
    ensures 0 <= a' < 0x4000000 && 0 <= b' < 0x2000000 && 0 <= c' < 0x4000000 && 0 <= d' < 0x2000000 && 0 <= out <= 1 && e' == e - out
    ensures a + 0x4000000 * b + 0x8000000000000 * c + 0x20000000000000000000 * d == a' + 0x4000000 * b' + 0x8000000000000 * c' + 0x20000000000000000000 * d' - 0x40000000000000000000000000 * out
  {
    var x, y, z;
    ghost var i, j, k;
    a', x, i := Borrow(a, b, 0x4000000, 1);
    b', y, j := Borrow(x, c, 0x2000000, 1);
    c', z, k := Borrow(y, d, 0x4000000, 1);
    d', e', out := Borrow(z, e, 0x2000000, 1);
  }

  /** The loop over limbs 0 to 8: the value stays, only limb 9 may be negative. */
  method BorrowNine(s: seq<int>) returns (u: seq<int>)
    requires Strict(s) || Settled(s)
    ensures |u| == |s| == 10 && Below(u[9 := 0], 0x4000000, 0x2000000) && -0x2000000 <= u[9] < 0x2000000 && Val(u) == Val(s)
    ensures u[0] == if s[0] < 0 then s[0] + 0x4000000 else s[0]
  {
    Enterable(s);
    hide Val, Strict, Settled;
    var t0, t1, t2, t3, x4, i := BorrowFour(s[0], s[1], s[2], s[3], s[4]);
    var t4, t5, t6, t7, x8, j := BorrowFour(x4, s[5], s[6], s[7], s[8]);
    var t8, x9, k := Borrow(x8, s[9], 0x4000000, 1);
    u := [t0, t1, t2, t3, t4, t5, t6, t7, t8, x9];
    PassVal(s, u, i, j, k);
  }

  /** One borrow-propagation pass; a borrow out of the top limb takes 19 from limb 0.  It happens
      exactly for negative numbers. */
  method BorrowPass(s: seq<int>) returns (t: seq<int>, ghost c: int)
    requires Strict(s) || Settled(s)
    ensures Settled(t) && c == (if Val(s) < 0 then 1 else 0) && Val(t) == Val(s) + P * c
    ensures Settled(s) ==> t[0] >= 0
  {
    assert |s| == 10;
    hide Val, Strict;
    var u := BorrowNine(s);
    var t9, t0, l := Borrow(u[9], u[0], 0x2000000, 19);
    t, c := u[9 := t9][0 := t0], l;
    TopBorrow(u, t, c);
    if Settled(s) {
      SettledSign(s, u[0], c);
    }
  }

  lemma TopBorrow(u: seq<int>, t: seq<int>, c: int)
    requires |u| == 10 && Below(u[9 := 0], 0x4000000, 0x2000000) && -0x2000000 <= u[9] < 0x2000000 && c == if u[9] < 0 then 1 else 0
    requires t == u[9 := u[9] + 0x2000000 * c][0 := u[0] - 19 * c]
    ensures Settled(t) && Val(t) == Val(u) + P * c && (c == 1 <==> Val(u) < 0)
  {
    NarrowVal(u[9 := u[9] + 0x2000000 * c]);
  }

  lemma Enterable(s: seq<int>)
    requires Strict(s) || Settled(s)
    ensures |s| == 10 && -0x4000000 < s[0] < 0x4000000 && -0x2000000 < s[1] < 0x2000000 && -0x4000000 < s[2] < 0x4000000 && -0x2000000 < s[3] < 0x2000000
    ensures -0x4000000 < s[4] < 0x4000000 && -0x2000000 < s[5] < 0x2000000 && -0x4000000 < s[6] < 0x4000000 && -0x2000000 < s[7] < 0x2000000
    ensures -0x4000000 < s[8] < 0x4000000 && -0x2000000 < s[9] < 0x2000000
  {
  }

  lemma PassVal(s: seq<int>, t: seq<int>, i: int, j: int, k: int)
    requires |s| == |t| == 10
    requires s[0] + 0x4000000 * s[1] + 0x8000000000000 * s[2] + 0x20000000000000000000 * s[3] == t[0] + 0x4000000 * t[1] + 0x8000000000000 * t[2] + 0x20000000000000000000 * t[3] - 0x40000000000000000000000000 * i
    requires s[4] - i + 0x4000000 * s[5] + 0x8000000000000 * s[6] + 0x20000000000000000000 * s[7] == t[4] + 0x4000000 * t[5] + 0x8000000000000 * t[6] + 0x20000000000000000000 * t[7] - 0x40000000000000000000000000 * j
    requires t[8] == s[8] - j + 0x4000000 * k && t[9] == s[9] - k
    ensures Val(s) == Val(t)
  {
  }

  /** The second pass leaves nothing negative: if it borrows at all, limb 0 has become large. */
  lemma SettledSign(s: seq<int>, t0: int, c: int)
    requires Settled(s) && 0 <= c <= 1 && (c == 1 ==> Val(s) < 0) && 0 <= t0 < 0x4000000
    requires s[0] >= 0 ==> t0 == s[0]
    requires s[0] < 0 ==> t0 == s[0] + 0x4000000
    ensures t0 - 19 * c >= 0
  {
    if s[0] >= 0 {
      assert Val(s) >= 0;
    }
  }

  /** What fcontract encodes. */
  function Lifted(v: int): int {
    if v >= 0 then v else if v >= -P then v + P else v + 2 * P
  }

  lemma StrictRange(s: seq<int>)
    requires Strict(s)
    ensures -TOP < Val(s) < TOP
  {
  }

  /** fcontract: a congruent number below 2^255 in 32 bytes. */
  method Contract(s: seq<int>) returns (b: seq<int>)
    requires Strict(s)
    ensures |b| == 32 && Bytes(b) && LE(b) == Lifted(Val(s)) && 0 <= LE(b) < TOP && Same(LE(b), Val(s))
  {
    StrictRange(s);
    var t, c := BorrowPass(s);
    var u, d := BorrowPass(t);
    SameBy(Val(u), Val(s), c + d);
    var u0, u1, e := Borrow(u[0], u[1], 0x4000000, 1);
    var f := [u0, u1, u[2], u[3], u[4], u[5], u[6], u[7], u[8], u[9]];
    assert f == u;
    NarrowVal(f);
    b := PackLimbs(f);
  }

  /** The encoding is the canonical one exactly for numbers below p. */
  lemma ContractCanonicalIff(v: int)
    requires -TOP < v < TOP
    ensures Lifted(v) == v % P <==> v < P
  {
    if v >= P {
      DivModUnique(v, P, 1, v - P);
    } else if v >= 0 {
      DivModUnique(v, P, 0, v);
    } else if v >= -P {
      DivModUnique(v, P, -1, v + P);
    } else {
      DivModUnique(v, P, -2, v + 2 * P);
    }
  }

  /** Limbs that fcontract accepts and encodes as p itself, not as 0. */
  lemma ContractWideExample()
    ensures var s := [0x3ffffed, 0x1ffffff, 0x3ffffff, 0x1ffffff, 0x3ffffff, 0x1ffffff, 0x3ffffff, 0x1ffffff, 0x3ffffff, 0x1ffffff];
      Strict(s) && Val(s) == P && Lifted(Val(s)) == P && Val(s) % P == 0
  {
    ContractCanonicalIff(P);
  }
}
