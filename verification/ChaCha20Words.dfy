/** The rounds of ChaCha20 on 32-bit machine words.  What `ChaCha20` does with numbers is addition, exclusive or and
    rotation of bit vectors; so the values that sections 2.1.1 and 2.3.2 of RFC 8439 give for a quarter round and for a
    block can be computed on bit vectors. */
module ChaCha20Words {
  import opened Bits
  import opened ChaCha20
  import FeBytes

  // ---- words as numbers

  function Digit(x: bv32, m: bv32): nat {
    if x & m != 0 then 1 else 0
  }

  function Nibble(x: bv32): nat {
    Digit(x, 0x1) + 2 * Digit(x, 0x2) + 4 * Digit(x, 0x4) + 8 * Digit(x, 0x8)
  }

  /** Hexadecimal digit i of a word, and its number. */
  function NibbleAt(x: bv32, i: nat): (n: nat)
    requires i < 8
    ensures n < 16
  {
    if i == 0 then Nibble(x & 0xf) else if i == 1 then Nibble((x >> 4) & 0xf) else if i == 2 then Nibble((x >> 8) & 0xf)
    else if i == 3 then Nibble((x >> 12) & 0xf) else if i == 4 then Nibble((x >> 16) & 0xf) else if i == 5 then Nibble((x >> 20) & 0xf)
    else if i == 6 then Nibble((x >> 24) & 0xf) else Nibble(x >> 28)
  }

  function Horner(p0: nat, p1: nat, p2: nat, p3: nat, p4: nat, p5: nat, p6: nat, p7: nat): nat {
    p0 + 0x10 * (p1 + 0x10 * (p2 + 0x10 * (p3 + 0x10 * (p4 + 0x10 * (p5 + 0x10 * (p6 + 0x10 * p7))))))
  }

  function Number(x: bv32): (n: nat)
    ensures n < 0x1_0000_0000
  {
    hide NibbleAt;
    Horner(NibbleAt(x, 0), NibbleAt(x, 1), NibbleAt(x, 2), NibbleAt(x, 3), NibbleAt(x, 4), NibbleAt(x, 5), NibbleAt(x, 6), NibbleAt(x, 7))
  }

  lemma XorNibbles(x: bv32, y: bv32, a: nat, b: nat)
    ensures Xor(Nibble(x) + 0x10 * a, Nibble(y) + 0x10 * b) == Nibble(x ^ y) + 0x10 * Xor(a, b)
  {
    DigitXor(x, y);
    hide Digit, Xor;
    XorFour(Digit(x, 1), Digit(x, 2), Digit(x, 4), Digit(x, 8), Digit(y, 1), Digit(y, 2), Digit(y, 4), Digit(y, 8), a, b);
  }

  function Differ(d: nat, e: nat): nat {
    if d == e then 0 else 1
  }

  lemma XorFour(d0: nat, d1: nat, d2: nat, d3: nat, e0: nat, e1: nat, e2: nat, e3: nat, a: nat, b: nat)
    requires d0 <= 1 && d1 <= 1 && d2 <= 1 && d3 <= 1 && e0 <= 1 && e1 <= 1 && e2 <= 1 && e3 <= 1
    ensures Xor(d0 + 2 * d1 + 4 * d2 + 8 * d3 + 0x10 * a, e0 + 2 * e1 + 4 * e2 + 8 * e3 + 0x10 * b)
      == Differ(d0, e0) + 2 * Differ(d1, e1) + 4 * Differ(d2, e2) + 8 * Differ(d3, e3) + 0x10 * Xor(a, b)
  {
    hide Xor, Differ;
    XorDigits(d3, e3, a, b);
    XorDigits(d2, e2, d3 + 2 * a, e3 + 2 * b);
    XorDigits(d1, e1, d2 + 2 * (d3 + 2 * a), e2 + 2 * (e3 + 2 * b));
    XorDigits(d0, e0, d1 + 2 * (d2 + 2 * (d3 + 2 * a)), e1 + 2 * (e2 + 2 * (e3 + 2 * b)));
  }

  lemma DigitXor(x: bv32, y: bv32)
    ensures Digit(x ^ y, 1) == Differ(Digit(x, 1), Digit(y, 1)) && Digit(x ^ y, 2) == Differ(Digit(x, 2), Digit(y, 2))
    ensures Digit(x ^ y, 4) == Differ(Digit(x, 4), Digit(y, 4)) && Digit(x ^ y, 8) == Differ(Digit(x, 8), Digit(y, 8))
    ensures Digit(x, 1) <= 1 && Digit(x, 2) <= 1 && Digit(x, 4) <= 1 && Digit(x, 8) <= 1
    ensures Digit(y, 1) <= 1 && Digit(y, 2) <= 1 && Digit(y, 4) <= 1 && Digit(y, 8) <= 1
  {
  }

  lemma XorDigits(d: nat, e: nat, a: nat, b: nat)
    requires d <= 1 && e <= 1
    ensures Xor(d + 2 * a, e + 2 * b) == Differ(d, e) + 2 * Xor(a, b)
  {
    XorZero(a);
    XorCommutes(a, 0);
    XorZero(b);
    XorCommutes(b, 0);
  }

  lemma XorNumbers(x: bv32, y: bv32)
    ensures Xor(Number(x), Number(y)) == Number(x ^ y)
  {
    NibbleXor0(x, y);
    NibbleXor1(x, y);
    NibbleXor2(x, y);
    NibbleXor3(x, y);
    NibbleXor4(x, y);
    NibbleXor5(x, y);
    NibbleXor6(x, y);
    NibbleXor7(x, y);
    hide Xor, NibbleAt, Horner;
    XorEight(NibbleAt(x, 0), NibbleAt(x, 1), NibbleAt(x, 2), NibbleAt(x, 3), NibbleAt(x, 4), NibbleAt(x, 5), NibbleAt(x, 6), NibbleAt(x, 7),
             NibbleAt(y, 0), NibbleAt(y, 1), NibbleAt(y, 2), NibbleAt(y, 3), NibbleAt(y, 4), NibbleAt(y, 5), NibbleAt(y, 6), NibbleAt(y, 7));
  }

  lemma NibbleXor(x: bv32, y: bv32)
    ensures Xor(Nibble(x), Nibble(y)) == Nibble(x ^ y)
  {
    XorNibbles(x, y, 0, 0);
    XorZero(0);
  }

  lemma NibbleXor0(x: bv32, y: bv32)
    ensures Xor(NibbleAt(x, 0), NibbleAt(y, 0)) == NibbleAt(x ^ y, 0)
  {
    assert (x ^ y) & 0xf == (x & 0xf) ^ (y & 0xf);
    hide Xor, Nibble;
    NibbleXor(x & 0xf, y & 0xf);
  }

  lemma NibbleXor1(x: bv32, y: bv32)
    ensures Xor(NibbleAt(x, 1), NibbleAt(y, 1)) == NibbleAt(x ^ y, 1)
  {
    assert ((x ^ y) >> 4) & 0xf == ((x >> 4) & 0xf) ^ ((y >> 4) & 0xf);
    hide Xor, Nibble;
    NibbleXor((x >> 4) & 0xf, (y >> 4) & 0xf);
  }

  lemma NibbleXor2(x: bv32, y: bv32)
    ensures Xor(NibbleAt(x, 2), NibbleAt(y, 2)) == NibbleAt(x ^ y, 2)
  {
    assert ((x ^ y) >> 8) & 0xf == ((x >> 8) & 0xf) ^ ((y >> 8) & 0xf);
    hide Xor, Nibble;
    NibbleXor((x >> 8) & 0xf, (y >> 8) & 0xf);
  }

  lemma NibbleXor3(x: bv32, y: bv32)
    ensures Xor(NibbleAt(x, 3), NibbleAt(y, 3)) == NibbleAt(x ^ y, 3)
  {
    assert ((x ^ y) >> 12) & 0xf == ((x >> 12) & 0xf) ^ ((y >> 12) & 0xf);
    hide Xor, Nibble;
    NibbleXor((x >> 12) & 0xf, (y >> 12) & 0xf);
  }

  lemma NibbleXor4(x: bv32, y: bv32)
    ensures Xor(NibbleAt(x, 4), NibbleAt(y, 4)) == NibbleAt(x ^ y, 4)
  {
    assert ((x ^ y) >> 16) & 0xf == ((x >> 16) & 0xf) ^ ((y >> 16) & 0xf);
    hide Xor, Nibble;
    NibbleXor((x >> 16) & 0xf, (y >> 16) & 0xf);
  }

  lemma NibbleXor5(x: bv32, y: bv32)
    ensures Xor(NibbleAt(x, 5), NibbleAt(y, 5)) == NibbleAt(x ^ y, 5)
  {
    assert ((x ^ y) >> 20) & 0xf == ((x >> 20) & 0xf) ^ ((y >> 20) & 0xf);
    hide Xor, Nibble;
    NibbleXor((x >> 20) & 0xf, (y >> 20) & 0xf);
  }

  lemma NibbleXor6(x: bv32, y: bv32)
    ensures Xor(NibbleAt(x, 6), NibbleAt(y, 6)) == NibbleAt(x ^ y, 6)
  {
    assert ((x ^ y) >> 24) & 0xf == ((x >> 24) & 0xf) ^ ((y >> 24) & 0xf);
    hide Xor, Nibble;
    NibbleXor((x >> 24) & 0xf, (y >> 24) & 0xf);
  }

  lemma NibbleXor7(x: bv32, y: bv32)
    ensures Xor(NibbleAt(x, 7), NibbleAt(y, 7)) == NibbleAt(x ^ y, 7)
  {
    assert (x ^ y) >> 28 == (x >> 28) ^ (y >> 28);
    hide Xor, Nibble;
    NibbleXor(x >> 28, y >> 28);
  }

  lemma XorEight(p0: nat, p1: nat, p2: nat, p3: nat, p4: nat, p5: nat, p6: nat, p7: nat, q0: nat, q1: nat, q2: nat, q3: nat, q4: nat, q5: nat, q6: nat, q7: nat)
    requires p0 < 16 && p1 < 16 && p2 < 16 && p3 < 16 && p4 < 16 && p5 < 16 && p6 < 16
    requires q0 < 16 && q1 < 16 && q2 < 16 && q3 < 16 && q4 < 16 && q5 < 16 && q6 < 16
    ensures Xor(Horner(p0, p1, p2, p3, p4, p5, p6, p7), Horner(q0, q1, q2, q3, q4, q5, q6, q7))
      == Horner(Xor(p0, q0), Xor(p1, q1), Xor(p2, q2), Xor(p3, q3), Xor(p4, q4), Xor(p5, q5), Xor(p6, q6), Xor(p7, q7))
  {
    hide Xor;
    XorFourNibbles(p4, p5, p6, p7, q4, q5, q6, q7);
    XorOnTop(p0, p1, p2, p3, q0, q1, q2, q3, Half4(p4, p5, p6, p7), Half4(q4, q5, q6, q7));
  }

  function Half4(p0: nat, p1: nat, p2: nat, p3: nat): nat {
    p0 + 0x10 * (p1 + 0x10 * (p2 + 0x10 * p3))
  }

  lemma XorFourNibbles(p0: nat, p1: nat, p2: nat, p3: nat, q0: nat, q1: nat, q2: nat, q3: nat)
    requires p0 < 16 && p1 < 16 && p2 < 16 && q0 < 16 && q1 < 16 && q2 < 16
    ensures Xor(Half4(p0, p1, p2, p3), Half4(q0, q1, q2, q3)) == Half4(Xor(p0, q0), Xor(p1, q1), Xor(p2, q2), Xor(p3, q3))
  {
    hide Xor;
    var a2, b2 := p2 + 0x10 * p3, q2 + 0x10 * q3;
    XorSplit(p2, q2, p3, q3);
    XorSplit(p1, q1, a2, b2);
    XorSplit(p0, q0, p1 + 0x10 * a2, q1 + 0x10 * b2);
  }

  lemma XorOnTop(p0: nat, p1: nat, p2: nat, p3: nat, q0: nat, q1: nat, q2: nat, q3: nat, a: nat, b: nat)
    requires p0 < 16 && p1 < 16 && p2 < 16 && p3 < 16 && q0 < 16 && q1 < 16 && q2 < 16 && q3 < 16
    ensures Xor(Half4(p0, p1, p2, p3 + 0x10 * a), Half4(q0, q1, q2, q3 + 0x10 * b))
      == Half4(Xor(p0, q0), Xor(p1, q1), Xor(p2, q2), Xor(p3, q3) + 0x10 * Xor(a, b))
  {
    hide Xor;
    XorSplit(p3, q3, a, b);
    hide Half4;
    XorFourNibbles(p0, p1, p2, p3 + 0x10 * a, q0, q1, q2, q3 + 0x10 * b);
  }

  lemma NibbleBits(p: nat) returns (d0: nat, d1: nat, d2: nat, d3: nat)
    requires p < 16
    ensures d0 <= 1 && d1 <= 1 && d2 <= 1 && d3 <= 1 && p == d0 + 2 * d1 + 4 * d2 + 8 * d3
  {
    d0, d1, d2, d3 := p % 2, p / 2 % 2, p / 4 % 2, p / 8;
  }

  lemma XorSplit(p: nat, q: nat, a: nat, b: nat)
    requires p < 16 && q < 16
    ensures Xor(p + 0x10 * a, q + 0x10 * b) == Xor(p, q) + 0x10 * Xor(a, b)
  {
    XorZero(0);
    hide *;
    var d0, d1, d2, d3 := NibbleBits(p);
    var e0, e1, e2, e3 := NibbleBits(q);
    XorFour(d0, d1, d2, d3, e0, e1, e2, e3, a, b);
    XorFour(d0, d1, d2, d3, e0, e1, e2, e3, 0, 0);
  }

  lemma Nibbles16(x: bv32)
    ensures NibbleAt(x.RotateLeft(16), 0) == NibbleAt(x, 4)
    ensures NibbleAt(x.RotateLeft(16), 1) == NibbleAt(x, 5)
    ensures NibbleAt(x.RotateLeft(16), 2) == NibbleAt(x, 6)
    ensures NibbleAt(x.RotateLeft(16), 3) == NibbleAt(x, 7)
    ensures NibbleAt(x.RotateLeft(16), 4) == NibbleAt(x, 0)
    ensures NibbleAt(x.RotateLeft(16), 5) == NibbleAt(x, 1)
    ensures NibbleAt(x.RotateLeft(16), 6) == NibbleAt(x, 2)
    ensures NibbleAt(x.RotateLeft(16), 7) == NibbleAt(x, 3)
  {
    hide Nibble;
  }

  lemma Nibbles12(x: bv32)
    ensures NibbleAt(x.RotateLeft(12), 0) == NibbleAt(x, 5)
    ensures NibbleAt(x.RotateLeft(12), 1) == NibbleAt(x, 6)
    ensures NibbleAt(x.RotateLeft(12), 2) == NibbleAt(x, 7)
    ensures NibbleAt(x.RotateLeft(12), 3) == NibbleAt(x, 0)
    ensures NibbleAt(x.RotateLeft(12), 4) == NibbleAt(x, 1)
    ensures NibbleAt(x.RotateLeft(12), 5) == NibbleAt(x, 2)
    ensures NibbleAt(x.RotateLeft(12), 6) == NibbleAt(x, 3)
    ensures NibbleAt(x.RotateLeft(12), 7) == NibbleAt(x, 4)
  {
    hide Nibble;
  }

  lemma Nibbles8(x: bv32)
    ensures NibbleAt(x.RotateLeft(8), 0) == NibbleAt(x, 6)
    ensures NibbleAt(x.RotateLeft(8), 1) == NibbleAt(x, 7)
    ensures NibbleAt(x.RotateLeft(8), 2) == NibbleAt(x, 0)
    ensures NibbleAt(x.RotateLeft(8), 3) == NibbleAt(x, 1)
    ensures NibbleAt(x.RotateLeft(8), 4) == NibbleAt(x, 2)
    ensures NibbleAt(x.RotateLeft(8), 5) == NibbleAt(x, 3)
    ensures NibbleAt(x.RotateLeft(8), 6) == NibbleAt(x, 4)
    ensures NibbleAt(x.RotateLeft(8), 7) == NibbleAt(x, 5)
  {
    hide Nibble;
  }

  /** By seven places: the upper three digits of one nibble and the lowest of the next. */
  lemma Astride(y: bv32, low: bv32, high: bv32)
    requires y & 0xf == ((low >> 1) & 0x7) | ((high & 1) << 3)
    ensures Nibble(y) == Nibble(low) / 2 + 8 * (Nibble(high) % 2)
  {
    assert Digit(y, 1) == Digit(low, 2) && Digit(y, 2) == Digit(low, 4) && Digit(y, 4) == Digit(low, 8) && Digit(y, 8) == Digit(high, 1);
    assert Digit(low, 1) <= 1 && Digit(high, 1) <= 1;
    hide Digit;
  }

  lemma Nibble7At0(x: bv32)
    ensures NibbleAt(x.RotateLeft(7), 0) == NibbleAt(x, 6) / 2 + 8 * (NibbleAt(x, 7) % 2)
  {
    hide Nibble;
    Astride(x.RotateLeft(7) & 0xf, (x >> 24) & 0xf, x >> 28);
  }

  lemma Nibble7At1(x: bv32)
    ensures NibbleAt(x.RotateLeft(7), 1) == NibbleAt(x, 7) / 2 + 8 * (NibbleAt(x, 0) % 2)
  {
    hide Nibble;
    Astride((x.RotateLeft(7) >> 4) & 0xf, x >> 28, x & 0xf);
  }

  lemma Nibble7At2(x: bv32)
    ensures NibbleAt(x.RotateLeft(7), 2) == NibbleAt(x, 0) / 2 + 8 * (NibbleAt(x, 1) % 2)
  {
    hide Nibble;
    Astride((x.RotateLeft(7) >> 8) & 0xf, x & 0xf, (x >> 4) & 0xf);
  }

  lemma Nibble7At3(x: bv32)
    ensures NibbleAt(x.RotateLeft(7), 3) == NibbleAt(x, 1) / 2 + 8 * (NibbleAt(x, 2) % 2)
  {
    hide Nibble;
    Astride((x.RotateLeft(7) >> 12) & 0xf, (x >> 4) & 0xf, (x >> 8) & 0xf);
  }

  lemma Nibble7At4(x: bv32)
    ensures NibbleAt(x.RotateLeft(7), 4) == NibbleAt(x, 2) / 2 + 8 * (NibbleAt(x, 3) % 2)
  {
    hide Nibble;
    Astride((x.RotateLeft(7) >> 16) & 0xf, (x >> 8) & 0xf, (x >> 12) & 0xf);
  }

  lemma Nibble7At5(x: bv32)
    ensures NibbleAt(x.RotateLeft(7), 5) == NibbleAt(x, 3) / 2 + 8 * (NibbleAt(x, 4) % 2)
  {
    hide Nibble;
    Astride((x.RotateLeft(7) >> 20) & 0xf, (x >> 12) & 0xf, (x >> 16) & 0xf);
  }

  lemma Nibble7At6(x: bv32)
    ensures NibbleAt(x.RotateLeft(7), 6) == NibbleAt(x, 4) / 2 + 8 * (NibbleAt(x, 5) % 2)
  {
    hide Nibble;
    Astride((x.RotateLeft(7) >> 24) & 0xf, (x >> 16) & 0xf, (x >> 20) & 0xf);
  }

  lemma Nibble7At7(x: bv32)
    ensures NibbleAt(x.RotateLeft(7), 7) == NibbleAt(x, 5) / 2 + 8 * (NibbleAt(x, 6) % 2)
  {
    hide Nibble;
    Astride(x.RotateLeft(7) >> 28, (x >> 20) & 0xf, (x >> 24) & 0xf);
  }

  lemma Powers()
    ensures Pow2(7) == 0x80 && Pow2(8) == 0x100 && Pow2(12) == 0x1000 && Pow2(16) == 0x10000
    ensures Pow2(20) == 0x100000 && Pow2(24) == 0x1000000 && Pow2(25) == 0x2000000
  {
    Pow2Literals();
    var k := 8;
    Pow2Add(k, 12);
    Pow2Add(k, 16);
    Pow2Add(k, 17);
    Pow2Add(1, 16);
  }

  lemma Rotate16(x: bv32)
    ensures Rotl(Number(x), 16) == Number(x.RotateLeft(16))
  {
    Powers();
    Nibbles16(x);
    hide NibbleAt, Pow2, Rotl;
    var l, h := NibbleAt(x, 0) + 0x10 * (NibbleAt(x, 1) + 0x10 * (NibbleAt(x, 2) + 0x10 * (NibbleAt(x, 3)))), NibbleAt(x, 4) + 0x10 * (NibbleAt(x, 5) + 0x10 * (NibbleAt(x, 6) + 0x10 * (NibbleAt(x, 7))));
    RotlBy(Number(x), 16, 0x10000, 0x10000, h, l);
  }

  lemma Rotate12(x: bv32)
    ensures Rotl(Number(x), 12) == Number(x.RotateLeft(12))
  {
    Powers();
    Nibbles12(x);
    hide NibbleAt, Pow2, Rotl;
    var l, h := NibbleAt(x, 0) + 0x10 * (NibbleAt(x, 1) + 0x10 * (NibbleAt(x, 2) + 0x10 * (NibbleAt(x, 3) + 0x10 * (NibbleAt(x, 4))))), NibbleAt(x, 5) + 0x10 * (NibbleAt(x, 6) + 0x10 * (NibbleAt(x, 7)));
    RotlBy(Number(x), 12, 0x1000, 0x100000, h, l);
  }

  lemma Rotate8(x: bv32)
    ensures Rotl(Number(x), 8) == Number(x.RotateLeft(8))
  {
    Powers();
    Nibbles8(x);
    hide NibbleAt, Pow2, Rotl;
    var l, h := NibbleAt(x, 0) + 0x10 * (NibbleAt(x, 1) + 0x10 * (NibbleAt(x, 2) + 0x10 * (NibbleAt(x, 3) + 0x10 * (NibbleAt(x, 4) + 0x10 * (NibbleAt(x, 5)))))), NibbleAt(x, 6) + 0x10 * (NibbleAt(x, 7));
    RotlBy(Number(x), 8, 0x100, 0x1000000, h, l);
  }

  lemma Rotate7(x: bv32)
    ensures Rotl(Number(x), 7) == Number(x.RotateLeft(7))
  {
    Powers();
    Nibble7At0(x);
    Nibble7At1(x);
    Nibble7At2(x);
    Nibble7At3(x);
    Nibble7At4(x);
    Nibble7At5(x);
    Nibble7At6(x);
    Nibble7At7(x);
    hide NibbleAt, Pow2, Rotl;
    var l, h := NibbleAt(x, 0) + 0x10 * (NibbleAt(x, 1) + 0x10 * (NibbleAt(x, 2) + 0x10 * (NibbleAt(x, 3) + 0x10 * (NibbleAt(x, 4) + 0x10 * (NibbleAt(x, 5)))))) + 0x1000000 * (NibbleAt(x, 6) % 2), NibbleAt(x, 6) / 2 + 8 * NibbleAt(x, 7);
    RotlBy(Number(x), 7, 0x80, 0x2000000, h, l);
  }

  // ---- addition

  /** The words of an adder: operands, carries in, sum and carries out, place by place. */
  predicate Adder(x: bv32, y: bv32, c: bv32, s: bv32, o: bv32) {
    c == x ^ y ^ s && o == (x & y) | (c & (x | y))
  }

  lemma NibbleAdder(x: bv32, y: bv32, c: bv32, s: bv32, o: bv32)
    requires Adder(x, y, c, s, o)
    ensures Nibble(x) + Nibble(y) + Nibble(c) == Nibble(s) + 2 * Nibble(o)
  {
    AdderAt(x, y, c, s, o);
    hide Adder, Digit;
  }

  lemma AdderAt(x: bv32, y: bv32, c: bv32, s: bv32, o: bv32)
    requires Adder(x, y, c, s, o)
    ensures Digit(x, 1) + Digit(y, 1) + Digit(c, 1) == Digit(s, 1) + 2 * Digit(o, 1)
    ensures Digit(x, 2) + Digit(y, 2) + Digit(c, 2) == Digit(s, 2) + 2 * Digit(o, 2)
    ensures Digit(x, 4) + Digit(y, 4) + Digit(c, 4) == Digit(s, 4) + 2 * Digit(o, 4)
    ensures Digit(x, 8) + Digit(y, 8) + Digit(c, 8) == Digit(s, 8) + 2 * Digit(o, 8)
  {
  }

  lemma AdderPart0(x: bv32, y: bv32, c: bv32, s: bv32, o: bv32)
    requires Adder(x, y, c, s, o)
    ensures Adder(x & 0xf, y & 0xf, c & 0xf, s & 0xf, o & 0xf)
  {
  }

  lemma NibbleAdder0(x: bv32, y: bv32, c: bv32, s: bv32, o: bv32)
    requires Adder(x, y, c, s, o)
    ensures NibbleAt(x, 0) + NibbleAt(y, 0) + NibbleAt(c, 0) == NibbleAt(s, 0) + 2 * NibbleAt(o, 0)
  {
    hide Nibble, Adder;
    AdderPart0(x, y, c, s, o);
    NibbleAdder(x & 0xf, y & 0xf, c & 0xf, s & 0xf, o & 0xf);
  }

  lemma AdderPart1(x: bv32, y: bv32, c: bv32, s: bv32, o: bv32)
    requires Adder(x, y, c, s, o)
    ensures Adder((x >> 4) & 0xf, (y >> 4) & 0xf, (c >> 4) & 0xf, (s >> 4) & 0xf, (o >> 4) & 0xf)
  {
  }

  lemma NibbleAdder1(x: bv32, y: bv32, c: bv32, s: bv32, o: bv32)
    requires Adder(x, y, c, s, o)
    ensures NibbleAt(x, 1) + NibbleAt(y, 1) + NibbleAt(c, 1) == NibbleAt(s, 1) + 2 * NibbleAt(o, 1)
  {
    hide Nibble, Adder;
    AdderPart1(x, y, c, s, o);
    NibbleAdder((x >> 4) & 0xf, (y >> 4) & 0xf, (c >> 4) & 0xf, (s >> 4) & 0xf, (o >> 4) & 0xf);
  }

  lemma AdderPart2(x: bv32, y: bv32, c: bv32, s: bv32, o: bv32)
    requires Adder(x, y, c, s, o)
    ensures Adder((x >> 8) & 0xf, (y >> 8) & 0xf, (c >> 8) & 0xf, (s >> 8) & 0xf, (o >> 8) & 0xf)
  {
  }

  lemma NibbleAdder2(x: bv32, y: bv32, c: bv32, s: bv32, o: bv32)
    requires Adder(x, y, c, s, o)
    ensures NibbleAt(x, 2) + NibbleAt(y, 2) + NibbleAt(c, 2) == NibbleAt(s, 2) + 2 * NibbleAt(o, 2)
  {
    hide Nibble, Adder;
    AdderPart2(x, y, c, s, o);
    NibbleAdder((x >> 8) & 0xf, (y >> 8) & 0xf, (c >> 8) & 0xf, (s >> 8) & 0xf, (o >> 8) & 0xf);
  }

  lemma AdderPart3(x: bv32, y: bv32, c: bv32, s: bv32, o: bv32)
    requires Adder(x, y, c, s, o)
    ensures Adder((x >> 12) & 0xf, (y >> 12) & 0xf, (c >> 12) & 0xf, (s >> 12) & 0xf, (o >> 12) & 0xf)
  {
  }

  lemma NibbleAdder3(x: bv32, y: bv32, c: bv32, s: bv32, o: bv32)
    requires Adder(x, y, c, s, o)
    ensures NibbleAt(x, 3) + NibbleAt(y, 3) + NibbleAt(c, 3) == NibbleAt(s, 3) + 2 * NibbleAt(o, 3)
  {
    hide Nibble, Adder;
    AdderPart3(x, y, c, s, o);
    NibbleAdder((x >> 12) & 0xf, (y >> 12) & 0xf, (c >> 12) & 0xf, (s >> 12) & 0xf, (o >> 12) & 0xf);
  }

  lemma AdderPart4(x: bv32, y: bv32, c: bv32, s: bv32, o: bv32)
    requires Adder(x, y, c, s, o)
    ensures Adder((x >> 16) & 0xf, (y >> 16) & 0xf, (c >> 16) & 0xf, (s >> 16) & 0xf, (o >> 16) & 0xf)
  {
  }

  lemma NibbleAdder4(x: bv32, y: bv32, c: bv32, s: bv32, o: bv32)
    requires Adder(x, y, c, s, o)
    ensures NibbleAt(x, 4) + NibbleAt(y, 4) + NibbleAt(c, 4) == NibbleAt(s, 4) + 2 * NibbleAt(o, 4)
  {
    hide Nibble, Adder;
    AdderPart4(x, y, c, s, o);
    NibbleAdder((x >> 16) & 0xf, (y >> 16) & 0xf, (c >> 16) & 0xf, (s >> 16) & 0xf, (o >> 16) & 0xf);
  }

  lemma AdderPart5(x: bv32, y: bv32, c: bv32, s: bv32, o: bv32)
    requires Adder(x, y, c, s, o)
    ensures Adder((x >> 20) & 0xf, (y >> 20) & 0xf, (c >> 20) & 0xf, (s >> 20) & 0xf, (o >> 20) & 0xf)
  {
  }

  lemma NibbleAdder5(x: bv32, y: bv32, c: bv32, s: bv32, o: bv32)
    requires Adder(x, y, c, s, o)
    ensures NibbleAt(x, 5) + NibbleAt(y, 5) + NibbleAt(c, 5) == NibbleAt(s, 5) + 2 * NibbleAt(o, 5)
  {
    hide Nibble, Adder;
    AdderPart5(x, y, c, s, o);
    NibbleAdder((x >> 20) & 0xf, (y >> 20) & 0xf, (c >> 20) & 0xf, (s >> 20) & 0xf, (o >> 20) & 0xf);
  }

  lemma AdderPart6(x: bv32, y: bv32, c: bv32, s: bv32, o: bv32)
    requires Adder(x, y, c, s, o)
    ensures Adder((x >> 24) & 0xf, (y >> 24) & 0xf, (c >> 24) & 0xf, (s >> 24) & 0xf, (o >> 24) & 0xf)
  {
  }

  lemma NibbleAdder6(x: bv32, y: bv32, c: bv32, s: bv32, o: bv32)
    requires Adder(x, y, c, s, o)
    ensures NibbleAt(x, 6) + NibbleAt(y, 6) + NibbleAt(c, 6) == NibbleAt(s, 6) + 2 * NibbleAt(o, 6)
  {
    hide Nibble, Adder;
    AdderPart6(x, y, c, s, o);
    NibbleAdder((x >> 24) & 0xf, (y >> 24) & 0xf, (c >> 24) & 0xf, (s >> 24) & 0xf, (o >> 24) & 0xf);
  }

  lemma AdderPart7(x: bv32, y: bv32, c: bv32, s: bv32, o: bv32)
    requires Adder(x, y, c, s, o)
    ensures Adder(x >> 28, y >> 28, c >> 28, s >> 28, o >> 28)
  {
  }

  lemma NibbleAdder7(x: bv32, y: bv32, c: bv32, s: bv32, o: bv32)
    requires Adder(x, y, c, s, o)
    ensures NibbleAt(x, 7) + NibbleAt(y, 7) + NibbleAt(c, 7) == NibbleAt(s, 7) + 2 * NibbleAt(o, 7)
  {
    hide Nibble, Adder;
    AdderPart7(x, y, c, s, o);
    NibbleAdder(x >> 28, y >> 28, c >> 28, s >> 28, o >> 28);
  }

  lemma NumberAdder(x: bv32, y: bv32, c: bv32, s: bv32, o: bv32)
    requires Adder(x, y, c, s, o)
    ensures Number(x) + Number(y) + Number(c) == Number(s) + 2 * Number(o)
  {
    NibbleAdder0(x, y, c, s, o);
    NibbleAdder1(x, y, c, s, o);
    NibbleAdder2(x, y, c, s, o);
    NibbleAdder3(x, y, c, s, o);
    NibbleAdder4(x, y, c, s, o);
    NibbleAdder5(x, y, c, s, o);
    NibbleAdder6(x, y, c, s, o);
    NibbleAdder7(x, y, c, s, o);
    hide NibbleAt, Adder;
  }

  /** The carries into each place of x + y, and out of it. */
  function Carries(x: bv32, y: bv32): bv32 {
    x ^ y ^ (x + y)
  }

  function CarriesOut(x: bv32, y: bv32): bv32 {
    (x & y) | (Carries(x, y) & (x | y))
  }

  lemma Moves0(x: bv32, y: bv32)
    ensures Carries(x, y) & 0x1 == 0
    ensures (Carries(x, y) & 0x2 != 0) == (CarriesOut(x, y) & 0x1 != 0)
    ensures (Carries(x, y) & 0x4 != 0) == (CarriesOut(x, y) & 0x2 != 0)
    ensures (Carries(x, y) & 0x8 != 0) == (CarriesOut(x, y) & 0x4 != 0)
    ensures (Carries(x, y) & 0x10 != 0) == (CarriesOut(x, y) & 0x8 != 0)
  {
  }

  lemma Moves1(x: bv32, y: bv32)
    ensures (Carries(x, y) & 0x20 != 0) == (CarriesOut(x, y) & 0x10 != 0)
    ensures (Carries(x, y) & 0x40 != 0) == (CarriesOut(x, y) & 0x20 != 0)
    ensures (Carries(x, y) & 0x80 != 0) == (CarriesOut(x, y) & 0x40 != 0)
    ensures (Carries(x, y) & 0x100 != 0) == (CarriesOut(x, y) & 0x80 != 0)
  {
  }

  lemma Moves2(x: bv32, y: bv32)
    ensures (Carries(x, y) & 0x200 != 0) == (CarriesOut(x, y) & 0x100 != 0)
    ensures (Carries(x, y) & 0x400 != 0) == (CarriesOut(x, y) & 0x200 != 0)
    ensures (Carries(x, y) & 0x800 != 0) == (CarriesOut(x, y) & 0x400 != 0)
    ensures (Carries(x, y) & 0x1000 != 0) == (CarriesOut(x, y) & 0x800 != 0)
  {
  }

  lemma Moves3(x: bv32, y: bv32)
    ensures (Carries(x, y) & 0x2000 != 0) == (CarriesOut(x, y) & 0x1000 != 0)
    ensures (Carries(x, y) & 0x4000 != 0) == (CarriesOut(x, y) & 0x2000 != 0)
    ensures (Carries(x, y) & 0x8000 != 0) == (CarriesOut(x, y) & 0x4000 != 0)
    ensures (Carries(x, y) & 0x10000 != 0) == (CarriesOut(x, y) & 0x8000 != 0)
  {
  }

  lemma Moves4(x: bv32, y: bv32)
    ensures (Carries(x, y) & 0x20000 != 0) == (CarriesOut(x, y) & 0x10000 != 0)
    ensures (Carries(x, y) & 0x40000 != 0) == (CarriesOut(x, y) & 0x20000 != 0)
    ensures (Carries(x, y) & 0x80000 != 0) == (CarriesOut(x, y) & 0x40000 != 0)
    ensures (Carries(x, y) & 0x100000 != 0) == (CarriesOut(x, y) & 0x80000 != 0)
  {
  }

  lemma Moves5(x: bv32, y: bv32)
    ensures (Carries(x, y) & 0x200000 != 0) == (CarriesOut(x, y) & 0x100000 != 0)
    ensures (Carries(x, y) & 0x400000 != 0) == (CarriesOut(x, y) & 0x200000 != 0)
    ensures (Carries(x, y) & 0x800000 != 0) == (CarriesOut(x, y) & 0x400000 != 0)
    ensures (Carries(x, y) & 0x1000000 != 0) == (CarriesOut(x, y) & 0x800000 != 0)
  {
  }

  lemma Moves6(x: bv32, y: bv32)
    ensures (Carries(x, y) & 0x2000000 != 0) == (CarriesOut(x, y) & 0x1000000 != 0)
    ensures (Carries(x, y) & 0x4000000 != 0) == (CarriesOut(x, y) & 0x2000000 != 0)
    ensures (Carries(x, y) & 0x8000000 != 0) == (CarriesOut(x, y) & 0x4000000 != 0)
    ensures (Carries(x, y) & 0x10000000 != 0) == (CarriesOut(x, y) & 0x8000000 != 0)
  {
  }

  lemma Moves7(x: bv32, y: bv32)
    ensures (Carries(x, y) & 0x20000000 != 0) == (CarriesOut(x, y) & 0x10000000 != 0)
    ensures (Carries(x, y) & 0x40000000 != 0) == (CarriesOut(x, y) & 0x20000000 != 0)
    ensures (Carries(x, y) & 0x80000000 != 0) == (CarriesOut(x, y) & 0x40000000 != 0)
  {
  }

  /** A carry goes to the next place. */
  lemma CarriesMove(x: bv32, y: bv32)
    ensures Carries(x, y) == CarriesOut(x, y) << 1
  {
    Moves0(x, y);
    Moves1(x, y);
    Moves2(x, y);
    Moves3(x, y);
    Moves4(x, y);
    Moves5(x, y);
    Moves6(x, y);
    Moves7(x, y);
    hide Carries, CarriesOut;
  }

  lemma Doubles(y: bv32, high: bv32, low: bv32)
    requires y & 0xf == ((high & 0x7) << 1) | ((low & 0x8) >> 3)
    ensures Nibble(y) == 2 * (Nibble(high) % 8) + Nibble(low) / 8
  {
    DoublesDigits(y, high, low);
    hide Digit;
    Halves(Digit(low, 1), Digit(low, 2), Digit(low, 4), Digit(low, 8));
    Halves(Digit(high, 1), Digit(high, 2), Digit(high, 4), Digit(high, 8));
  }

  lemma Halves(a: nat, b: nat, c: nat, d: nat)
    requires a <= 1 && b <= 1 && c <= 1
    ensures (a + 2 * b + 4 * c + 8 * d) / 8 == d && (a + 2 * b + 4 * c + 8 * d) % 8 == a + 2 * b + 4 * c
  {
  }

  lemma DoublesDigits(y: bv32, high: bv32, low: bv32)
    requires y & 0xf == ((high & 0x7) << 1) | ((low & 0x8) >> 3)
    ensures Digit(y, 1) == Digit(low, 8) && Digit(y, 2) == Digit(high, 1) && Digit(y, 4) == Digit(high, 2) && Digit(y, 8) == Digit(high, 4)
    ensures Digit(low, 1) <= 1 && Digit(low, 2) <= 1 && Digit(low, 4) <= 1 && Digit(high, 1) <= 1 && Digit(high, 2) <= 1 && Digit(high, 4) <= 1
  {
  }

  lemma Doubled0(o: bv32)
    ensures NibbleAt(o << 1, 0) == 2 * (NibbleAt(o, 0) % 8)
  {
    assert Nibble(0) == 0;
    hide Nibble;
    Doubles((o << 1) & 0xf, o & 0xf, 0);
  }

  lemma Doubled1(o: bv32)
    ensures NibbleAt(o << 1, 1) == 2 * (NibbleAt(o, 1) % 8) + NibbleAt(o, 0) / 8
  {
    hide Nibble;
    Doubles(((o << 1) >> 4) & 0xf, (o >> 4) & 0xf, o & 0xf);
  }

  lemma Doubled2(o: bv32)
    ensures NibbleAt(o << 1, 2) == 2 * (NibbleAt(o, 2) % 8) + NibbleAt(o, 1) / 8
  {
    hide Nibble;
    Doubles(((o << 1) >> 8) & 0xf, (o >> 8) & 0xf, (o >> 4) & 0xf);
  }

  lemma Doubled3(o: bv32)
    ensures NibbleAt(o << 1, 3) == 2 * (NibbleAt(o, 3) % 8) + NibbleAt(o, 2) / 8
  {
    hide Nibble;
    Doubles(((o << 1) >> 12) & 0xf, (o >> 12) & 0xf, (o >> 8) & 0xf);
  }

  lemma Doubled4(o: bv32)
    ensures NibbleAt(o << 1, 4) == 2 * (NibbleAt(o, 4) % 8) + NibbleAt(o, 3) / 8
  {
    hide Nibble;
    Doubles(((o << 1) >> 16) & 0xf, (o >> 16) & 0xf, (o >> 12) & 0xf);
  }

  lemma Doubled5(o: bv32)
    ensures NibbleAt(o << 1, 5) == 2 * (NibbleAt(o, 5) % 8) + NibbleAt(o, 4) / 8
  {
    hide Nibble;
    Doubles(((o << 1) >> 20) & 0xf, (o >> 20) & 0xf, (o >> 16) & 0xf);
  }

  lemma Doubled6(o: bv32)
    ensures NibbleAt(o << 1, 6) == 2 * (NibbleAt(o, 6) % 8) + NibbleAt(o, 5) / 8
  {
    hide Nibble;
    Doubles(((o << 1) >> 24) & 0xf, (o >> 24) & 0xf, (o >> 20) & 0xf);
  }

  lemma Doubled7(o: bv32)
    ensures NibbleAt(o << 1, 7) == 2 * (NibbleAt(o, 7) % 8) + NibbleAt(o, 6) / 8
  {
    hide Nibble;
    Doubles((o << 1) >> 28, o >> 28, (o >> 24) & 0xf);
  }

  lemma NumberDoubled(o: bv32)
    ensures Number(o << 1) + 0x1_0000_0000 * (NibbleAt(o, 7) / 8) == 2 * Number(o) && 0 <= NibbleAt(o, 7) / 8 <= 1
  {
    Doubled0(o);
    Doubled1(o);
    Doubled2(o);
    Doubled3(o);
    Doubled4(o);
    Doubled5(o);
    Doubled6(o);
    Doubled7(o);
    hide NibbleAt;
  }

  lemma AddNumbers(x: bv32, y: bv32)
    ensures Number(x + y) == U32(Number(x) + Number(y))
  {
    hide *;
    AdderOf(x, y);
    CarriesMove(x, y);
    AddBy(x, y, Carries(x, y), x + y, CarriesOut(x, y));
  }

  lemma AddBy(x: bv32, y: bv32, c: bv32, s: bv32, o: bv32)
    requires Adder(x, y, c, s, o) && c == o << 1
    ensures Number(s) == U32(Number(x) + Number(y))
  {
    hide *;
    NumberAdder(x, y, c, s, o);
    NumberDoubled(o);
    Wraps(Number(x) + Number(y), Number(s), NibbleAt(o, 7) / 8);
  }

  lemma AdderOf(x: bv32, y: bv32)
    ensures Adder(x, y, Carries(x, y), x + y, CarriesOut(x, y))
  {
  }

  lemma Wraps(n: int, s: int, t: int)
    requires n == s + 0x1_0000_0000 * t && 0 <= s < 0x1_0000_0000
    ensures U32(n) == s
  {
    DivModUnique(n, 0x1_0000_0000, t, s);
  }

  // ---- evaluation

  /** The sum of the binary digits, byte by byte. */
  function Flat(x: bv32): nat {
    Byte0(x) + Byte1(x) + Byte2(x) + Byte3(x)
  }

  function Byte0(x: bv32): nat {
    (if x & 0x1 != 0 then 0x1 else 0) + (if x & 0x2 != 0 then 0x2 else 0) + (if x & 0x4 != 0 then 0x4 else 0) + (if x & 0x8 != 0 then 0x8 else 0)
    + (if x & 0x10 != 0 then 0x10 else 0) + (if x & 0x20 != 0 then 0x20 else 0) + (if x & 0x40 != 0 then 0x40 else 0) + (if x & 0x80 != 0 then 0x80 else 0)
  }

  function Byte1(x: bv32): nat {
    (if x & 0x100 != 0 then 0x100 else 0) + (if x & 0x200 != 0 then 0x200 else 0) + (if x & 0x400 != 0 then 0x400 else 0) + (if x & 0x800 != 0 then 0x800 else 0)
    + (if x & 0x1000 != 0 then 0x1000 else 0) + (if x & 0x2000 != 0 then 0x2000 else 0) + (if x & 0x4000 != 0 then 0x4000 else 0) + (if x & 0x8000 != 0 then 0x8000 else 0)
  }

  function Byte2(x: bv32): nat {
    (if x & 0x10000 != 0 then 0x10000 else 0) + (if x & 0x20000 != 0 then 0x20000 else 0) + (if x & 0x40000 != 0 then 0x40000 else 0) + (if x & 0x80000 != 0 then 0x80000 else 0)
    + (if x & 0x100000 != 0 then 0x100000 else 0) + (if x & 0x200000 != 0 then 0x200000 else 0) + (if x & 0x400000 != 0 then 0x400000 else 0) + (if x & 0x800000 != 0 then 0x800000 else 0)
  }

  function Byte3(x: bv32): nat {
    (if x & 0x1000000 != 0 then 0x1000000 else 0) + (if x & 0x2000000 != 0 then 0x2000000 else 0) + (if x & 0x4000000 != 0 then 0x4000000 else 0) + (if x & 0x8000000 != 0 then 0x8000000 else 0)
    + (if x & 0x10000000 != 0 then 0x10000000 else 0) + (if x & 0x20000000 != 0 then 0x20000000 else 0) + (if x & 0x40000000 != 0 then 0x40000000 else 0) + (if x & 0x80000000 != 0 then 0x80000000 else 0)
  }

  lemma NibbleDigits(x: bv32)
    ensures NibbleAt(x, 0) == Digit(x, 0x1) + 2 * Digit(x, 0x2) + 4 * Digit(x, 0x4) + 8 * Digit(x, 0x8)
    ensures NibbleAt(x, 1) == Digit(x, 0x10) + 2 * Digit(x, 0x20) + 4 * Digit(x, 0x40) + 8 * Digit(x, 0x80)
    ensures NibbleAt(x, 2) == Digit(x, 0x100) + 2 * Digit(x, 0x200) + 4 * Digit(x, 0x400) + 8 * Digit(x, 0x800)
    ensures NibbleAt(x, 3) == Digit(x, 0x1000) + 2 * Digit(x, 0x2000) + 4 * Digit(x, 0x4000) + 8 * Digit(x, 0x8000)
    ensures NibbleAt(x, 4) == Digit(x, 0x10000) + 2 * Digit(x, 0x20000) + 4 * Digit(x, 0x40000) + 8 * Digit(x, 0x80000)
    ensures NibbleAt(x, 5) == Digit(x, 0x100000) + 2 * Digit(x, 0x200000) + 4 * Digit(x, 0x400000) + 8 * Digit(x, 0x800000)
    ensures NibbleAt(x, 6) == Digit(x, 0x1000000) + 2 * Digit(x, 0x2000000) + 4 * Digit(x, 0x4000000) + 8 * Digit(x, 0x8000000)
    ensures NibbleAt(x, 7) == Digit(x, 0x10000000) + 2 * Digit(x, 0x20000000) + 4 * Digit(x, 0x40000000) + 8 * Digit(x, 0x80000000)
  {
  }

  lemma Digits0(x: bv32)
    ensures Byte0(x) == (Digit(x, 0x1) + 2 * Digit(x, 0x2) + 4 * Digit(x, 0x4) + 8 * Digit(x, 0x8))
      + 0x10 * (Digit(x, 0x10) + 2 * Digit(x, 0x20) + 4 * Digit(x, 0x40) + 8 * Digit(x, 0x80))
  {
  }

  lemma Digits1(x: bv32)
    ensures Byte1(x) == 0x100 * (Digit(x, 0x100) + 2 * Digit(x, 0x200) + 4 * Digit(x, 0x400) + 8 * Digit(x, 0x800))
      + 0x1000 * (Digit(x, 0x1000) + 2 * Digit(x, 0x2000) + 4 * Digit(x, 0x4000) + 8 * Digit(x, 0x8000))
  {
  }

  lemma Digits2(x: bv32)
    ensures Byte2(x) == 0x10000 * (Digit(x, 0x10000) + 2 * Digit(x, 0x20000) + 4 * Digit(x, 0x40000) + 8 * Digit(x, 0x80000))
      + 0x100000 * (Digit(x, 0x100000) + 2 * Digit(x, 0x200000) + 4 * Digit(x, 0x400000) + 8 * Digit(x, 0x800000))
  {
  }

  lemma Digits3(x: bv32)
    ensures Byte3(x) == 0x1000000 * (Digit(x, 0x1000000) + 2 * Digit(x, 0x2000000) + 4 * Digit(x, 0x4000000) + 8 * Digit(x, 0x8000000))
      + 0x10000000 * (Digit(x, 0x10000000) + 2 * Digit(x, 0x20000000) + 4 * Digit(x, 0x40000000) + 8 * Digit(x, 0x80000000))
  {
  }

  lemma NumberIsFlat(x: bv32)
    ensures Number(x) == Flat(x)
  {
    NibbleDigits(x);
    Digits0(x);
    Digits1(x);
    Digits2(x);
    Digits3(x);
    hide NibbleAt, Digit, Byte0, Byte1, Byte2, Byte3;
  }

  // ---- the rounds

  function WordHalf16(x: bv32, y: bv32, z: bv32): (bv32, bv32) {
    (x + y, (z ^ (x + y)).RotateLeft(16))
  }

  function WordHalf12(x: bv32, y: bv32, z: bv32): (bv32, bv32) {
    (x + y, (z ^ (x + y)).RotateLeft(12))
  }

  function WordHalf8(x: bv32, y: bv32, z: bv32): (bv32, bv32) {
    (x + y, (z ^ (x + y)).RotateLeft(8))
  }

  function WordHalf7(x: bv32, y: bv32, z: bv32): (bv32, bv32) {
    (x + y, (z ^ (x + y)).RotateLeft(7))
  }

  lemma Half16(x: bv32, y: bv32, z: bv32)
    ensures var r := WordHalf16(x, y, z); Half(Number(x), Number(y), Number(z), 16) == (Number(r.0), Number(r.1))
  {
    var s := x + y;
    AddNumbers(x, y);
    XorNumbers(z, s);
    Rotate16(z ^ s);
    hide Number, Rotl, Xor, U32;
  }

  lemma Half12(x: bv32, y: bv32, z: bv32)
    ensures var r := WordHalf12(x, y, z); Half(Number(x), Number(y), Number(z), 12) == (Number(r.0), Number(r.1))
  {
    var s := x + y;
    AddNumbers(x, y);
    XorNumbers(z, s);
    Rotate12(z ^ s);
    hide Number, Rotl, Xor, U32;
  }

  lemma Half8(x: bv32, y: bv32, z: bv32)
    ensures var r := WordHalf8(x, y, z); Half(Number(x), Number(y), Number(z), 8) == (Number(r.0), Number(r.1))
  {
    var s := x + y;
    AddNumbers(x, y);
    XorNumbers(z, s);
    Rotate8(z ^ s);
    hide Number, Rotl, Xor, U32;
  }

  lemma Half7(x: bv32, y: bv32, z: bv32)
    ensures var r := WordHalf7(x, y, z); Half(Number(x), Number(y), Number(z), 7) == (Number(r.0), Number(r.1))
  {
    var s := x + y;
    AddNumbers(x, y);
    XorNumbers(z, s);
    Rotate7(z ^ s);
    hide Number, Rotl, Xor, U32;
  }

  /** The quarter round on words. */
  function WordQuarter(a: bv32, b: bv32, c: bv32, d: bv32): (bv32, bv32, bv32, bv32) {
    var (a1, d1) := WordHalf16(a, b, d);
    var (c1, b1) := WordHalf12(c, d1, b);
    var (a2, d2) := WordHalf8(a1, b1, d1);
    var (c2, b2) := WordHalf7(c1, d2, b1);
    (a2, b2, c2, d2)
  }

  /** The quarter round of the model is the one on words. */
  lemma QuarterOnWords(a: bv32, b: bv32, c: bv32, d: bv32)
    ensures var q := WordQuarter(a, b, c, d);
      Quarter(Number(a), Number(b), Number(c), Number(d)) == (Number(q.0), Number(q.1), Number(q.2), Number(q.3))
  {
    hide Number, Half, WordHalf16, WordHalf12, WordHalf8, WordHalf7;
    var (a1, d1) := WordHalf16(a, b, d);
    var (c1, b1) := WordHalf12(c, d1, b);
    var (a2, d2) := WordHalf8(a1, b1, d1);
    Half16(a, b, d);
    Half12(c, d1, b);
    Half8(a1, b1, d1);
    Half7(c1, d2, b1);
  }

  datatype WordState = WordState(x0: bv32, x1: bv32, x2: bv32, x3: bv32, x4: bv32, x5: bv32, x6: bv32, x7: bv32,
                                 x8: bv32, x9: bv32, x10: bv32, x11: bv32, x12: bv32, x13: bv32, x14: bv32, x15: bv32)

  type Word32 = n: nat | n < 0x1_0000_0000

  function Sixteen(n0: Word32, n1: Word32, n2: Word32, n3: Word32, n4: Word32, n5: Word32, n6: Word32, n7: Word32,
                   n8: Word32, n9: Word32, n10: Word32, n11: Word32, n12: Word32, n13: Word32, n14: Word32, n15: Word32): (n: seq<int>)
    ensures |n| == 16 && Words(n)
  {
    [n0, n1, n2, n3, n4, n5, n6, n7, n8, n9, n10, n11, n12, n13, n14, n15]
  }

  function Numbers(s: WordState): (n: seq<int>)
    ensures |n| == 16 && Words(n)
  {
    hide Number, Sixteen;
    Sixteen(Number(s.x0), Number(s.x1), Number(s.x2), Number(s.x3), Number(s.x4), Number(s.x5), Number(s.x6), Number(s.x7),
            Number(s.x8), Number(s.x9), Number(s.x10), Number(s.x11), Number(s.x12), Number(s.x13), Number(s.x14), Number(s.x15))
  }

  lemma SixteenAt(n0: Word32, n1: Word32, n2: Word32, n3: Word32, n4: Word32, n5: Word32, n6: Word32, n7: Word32, n8: Word32, n9: Word32, n10: Word32, n11: Word32, n12: Word32, n13: Word32, n14: Word32, n15: Word32)
    ensures var n := Sixteen(n0, n1, n2, n3, n4, n5, n6, n7, n8, n9, n10, n11, n12, n13, n14, n15);
      && n[0] == n0 && n[1] == n1 && n[2] == n2 && n[3] == n3 && n[4] == n4 && n[5] == n5 && n[6] == n6 && n[7] == n7
      && n[8] == n8 && n[9] == n9 && n[10] == n10 && n[11] == n11 && n[12] == n12 && n[13] == n13 && n[14] == n14 && n[15] == n15
  {
  }

  lemma NumbersAt(s: WordState)
    ensures Numbers(s)[0] == Number(s.x0) && Numbers(s)[1] == Number(s.x1) && Numbers(s)[2] == Number(s.x2) && Numbers(s)[3] == Number(s.x3)
    ensures Numbers(s)[4] == Number(s.x4) && Numbers(s)[5] == Number(s.x5) && Numbers(s)[6] == Number(s.x6) && Numbers(s)[7] == Number(s.x7)
    ensures Numbers(s)[8] == Number(s.x8) && Numbers(s)[9] == Number(s.x9) && Numbers(s)[10] == Number(s.x10) && Numbers(s)[11] == Number(s.x11)
    ensures Numbers(s)[12] == Number(s.x12) && Numbers(s)[13] == Number(s.x13) && Numbers(s)[14] == Number(s.x14) && Numbers(s)[15] == Number(s.x15)
  {
    hide Number, Sixteen;
    SixteenAt(Number(s.x0), Number(s.x1), Number(s.x2), Number(s.x3), Number(s.x4), Number(s.x5), Number(s.x6), Number(s.x7),
              Number(s.x8), Number(s.x9), Number(s.x10), Number(s.x11), Number(s.x12), Number(s.x13), Number(s.x14), Number(s.x15));
  }

  function WordColumns(s: WordState): WordState {
    var (x0, x4, x8, x12) := WordQuarter(s.x0, s.x4, s.x8, s.x12);
    var (x1, x5, x9, x13) := WordQuarter(s.x1, s.x5, s.x9, s.x13);
    var (x2, x6, x10, x14) := WordQuarter(s.x2, s.x6, s.x10, s.x14);
    var (x3, x7, x11, x15) := WordQuarter(s.x3, s.x7, s.x11, s.x15);
    WordState(x0, x1, x2, x3, x4, x5, x6, x7, x8, x9, x10, x11, x12, x13, x14, x15)
  }

  function WordDiagonals(s: WordState): WordState {
    var (x0, x5, x10, x15) := WordQuarter(s.x0, s.x5, s.x10, s.x15);
    var (x1, x6, x11, x12) := WordQuarter(s.x1, s.x6, s.x11, s.x12);
    var (x2, x7, x8, x13) := WordQuarter(s.x2, s.x7, s.x8, s.x13);
    var (x3, x4, x9, x14) := WordQuarter(s.x3, s.x4, s.x9, s.x14);
    WordState(x0, x1, x2, x3, x4, x5, x6, x7, x8, x9, x10, x11, x12, x13, x14, x15)
  }

  /** ... and so is the double round. */
  lemma DoubleRoundWords(s: WordState)
    ensures DoubleRound(Numbers(s)) == Numbers(WordDiagonals(WordColumns(s)))
  {
    ColumnsWords(s);
    DiagonalsWords(WordColumns(s));
    hide Numbers, QuarterAt, WordColumns, WordDiagonals;
  }

  lemma ColumnsBy(s: seq<int>, t: seq<int>)
    requires |s| == |t| == 16 && Words(s) && Words(t)
    requires Quarter(s[0], s[4], s[8], s[12]) == (t[0], t[4], t[8], t[12])
    requires Quarter(s[1], s[5], s[9], s[13]) == (t[1], t[5], t[9], t[13])
    requires Quarter(s[2], s[6], s[10], s[14]) == (t[2], t[6], t[10], t[14])
    requires Quarter(s[3], s[7], s[11], s[15]) == (t[3], t[7], t[11], t[15])
    ensures QuarterAt(QuarterAt(QuarterAt(QuarterAt(s, 0, 4, 8, 12), 1, 5, 9, 13), 2, 6, 10, 14), 3, 7, 11, 15) == t
  {
    hide Quarter;
  }

  lemma ColumnsWords(s: WordState)
    ensures QuarterAt(QuarterAt(QuarterAt(QuarterAt(Numbers(s), 0, 4, 8, 12), 1, 5, 9, 13), 2, 6, 10, 14), 3, 7, 11, 15)
      == Numbers(WordColumns(s))
  {
    QuarterOnWords(s.x0, s.x4, s.x8, s.x12);
    QuarterOnWords(s.x1, s.x5, s.x9, s.x13);
    QuarterOnWords(s.x2, s.x6, s.x10, s.x14);
    QuarterOnWords(s.x3, s.x7, s.x11, s.x15);
    NumbersAt(s);
    NumbersAt(WordColumns(s));
    hide Number, Numbers, Sixteen, Quarter, WordQuarter, QuarterAt, Words;
    ColumnsBy(Numbers(s), Numbers(WordColumns(s)));
  }

  lemma DiagonalsBy(s: seq<int>, t: seq<int>)
    requires |s| == |t| == 16 && Words(s) && Words(t)
    requires Quarter(s[0], s[5], s[10], s[15]) == (t[0], t[5], t[10], t[15])
    requires Quarter(s[1], s[6], s[11], s[12]) == (t[1], t[6], t[11], t[12])
    requires Quarter(s[2], s[7], s[8], s[13]) == (t[2], t[7], t[8], t[13])
    requires Quarter(s[3], s[4], s[9], s[14]) == (t[3], t[4], t[9], t[14])
    ensures QuarterAt(QuarterAt(QuarterAt(QuarterAt(s, 0, 5, 10, 15), 1, 6, 11, 12), 2, 7, 8, 13), 3, 4, 9, 14) == t
  {
    hide Quarter;
  }

  lemma DiagonalsWords(s: WordState)
    ensures QuarterAt(QuarterAt(QuarterAt(QuarterAt(Numbers(s), 0, 5, 10, 15), 1, 6, 11, 12), 2, 7, 8, 13), 3, 4, 9, 14)
      == Numbers(WordDiagonals(s))
  {
    QuarterOnWords(s.x0, s.x5, s.x10, s.x15);
    QuarterOnWords(s.x1, s.x6, s.x11, s.x12);
    QuarterOnWords(s.x2, s.x7, s.x8, s.x13);
    QuarterOnWords(s.x3, s.x4, s.x9, s.x14);
    NumbersAt(s);
    NumbersAt(WordDiagonals(s));
    hide Number, Numbers, Sixteen, Quarter, WordQuarter, QuarterAt, Words;
    DiagonalsBy(Numbers(s), Numbers(WordDiagonals(s)));
  }

  function WordRounds(s: WordState, n: nat): WordState {
    if n == 0 then s else WordDiagonals(WordColumns(WordRounds(s, n - 1)))
  }

  lemma {:induction false} RoundsWords(s: WordState, n: nat)
    ensures Rounds(Numbers(s), n) == Numbers(WordRounds(s, n))
  {
    hide WordDiagonals, WordColumns, Numbers, DoubleRound;
    if n > 0 {
      RoundsWords(s, n - 1);
      DoubleRoundWords(WordRounds(s, n - 1));
    }
  }

  // ---- the values of the standard

  /** Section 2.1.1. */
  lemma QuarterVector()
    ensures Quarter(0x11111111, 0x01020304, 0x9b8d6f43, 0x01234567) == (0xea2a92f4, 0xcb1cf8ce, 0x4581472e, 0x5881c4bb)
  {
    hide Quarter, Number;
    QuarterOnWords(0x11111111, 0x01020304, 0x9b8d6f43, 0x01234567);
    assert WordQuarter(0x11111111, 0x01020304, 0x9b8d6f43, 0x01234567) == (0xea2a92f4, 0xcb1cf8ce, 0x4581472e, 0x5881c4bb);
    FourFlat(0x11111111, 0x01020304, 0x9b8d6f43, 0x01234567);
    FourFlat(0xea2a92f4, 0xcb1cf8ce, 0x4581472e, 0x5881c4bb);
  }

  lemma FourFlat(a: bv32, b: bv32, c: bv32, d: bv32)
    ensures Number(a) == Flat(a) && Number(b) == Flat(b) && Number(c) == Flat(c) && Number(d) == Flat(d)
  {
    hide *;
    NumberIsFlat(a);
    NumberIsFlat(b);
    NumberIsFlat(c);
    NumberIsFlat(d);
  }

  const VECTOR_START := WordState(0x61707865, 0x3320646e, 0x79622d32, 0x6b206574, 0x03020100, 0x07060504, 0x0b0a0908, 0x0f0e0d0c,
                                  0x13121110, 0x17161514, 0x1b1a1918, 0x1f1e1d1c, 0x00000001, 0x09000000, 0x4a000000, 0x00000000)

  const VECTOR_ROUNDS := WordState(0x837778ab, 0xe238d763, 0xa67ae21e, 0x5950bb2f, 0xc4f2d0c7, 0xfc62bb2f, 0x8fa018fc, 0x3f5ec7b7,
                                   0x335271c2, 0xf29489f3, 0xeabda8fc, 0x82e46ebd, 0xd19c12b4, 0xb04e16de, 0x9e83d0cb, 0x4e3c50a2)

  /** Ten double rounds on words. */
  lemma TenRounds()
    ensures WordRounds(VECTOR_START, 10) == VECTOR_ROUNDS
  {
    var s := VECTOR_START;
    assert WordRounds(s, 2) == WordDiagonals(WordColumns(WordRounds(s, 1))) && WordRounds(s, 1) == WordDiagonals(WordColumns(s));
    assert WordRounds(s, 4) == WordDiagonals(WordColumns(WordRounds(s, 3))) && WordRounds(s, 3) == WordDiagonals(WordColumns(WordRounds(s, 2)));
    assert WordRounds(s, 6) == WordDiagonals(WordColumns(WordRounds(s, 5))) && WordRounds(s, 5) == WordDiagonals(WordColumns(WordRounds(s, 4)));
    assert WordRounds(s, 8) == WordDiagonals(WordColumns(WordRounds(s, 7))) && WordRounds(s, 7) == WordDiagonals(WordColumns(WordRounds(s, 6)));
    assert WordRounds(s, 10) == WordDiagonals(WordColumns(WordRounds(s, 9))) && WordRounds(s, 9) == WordDiagonals(WordColumns(WordRounds(s, 8)));
  }

  lemma VectorNumbers(w: WordState, n: seq<int>)
    requires |n| == 16
    requires n == [Flat(w.x0), Flat(w.x1), Flat(w.x2), Flat(w.x3), Flat(w.x4), Flat(w.x5), Flat(w.x6), Flat(w.x7),
                   Flat(w.x8), Flat(w.x9), Flat(w.x10), Flat(w.x11), Flat(w.x12), Flat(w.x13), Flat(w.x14), Flat(w.x15)]
    ensures Numbers(w) == n
  {
    FourFlat(w.x0, w.x1, w.x2, w.x3);
    FourFlat(w.x4, w.x5, w.x6, w.x7);
    FourFlat(w.x8, w.x9, w.x10, w.x11);
    FourFlat(w.x12, w.x13, w.x14, w.x15);
    hide Number, Flat;
  }

  /** The state of the example: key 00 01 ... 1f, counter 1, nonce 00 00 00 09 00 00 00 4a 00 00 00 00. */
  function ExampleKey(): (k: seq<int>)
    ensures |k| == 32 && Bytes(k)
  {
    seq(32, i => i)
  }

  const EXAMPLE_NONCE: seq<int> := [0, 0, 0, 0x09, 0, 0, 0, 0x4a, 0, 0, 0, 0]

  const VECTOR_NUMBERS: seq<int> := [0x61707865, 0x3320646e, 0x79622d32, 0x6b206574, 0x03020100, 0x07060504, 0x0b0a0908, 0x0f0e0d0c,
                                     0x13121110, 0x17161514, 0x1b1a1918, 0x1f1e1d1c, 0x00000001, 0x09000000, 0x4a000000, 0x00000000]

  const VECTOR_RESULT: seq<int> := [0x837778ab, 0xe238d763, 0xa67ae21e, 0x5950bb2f, 0xc4f2d0c7, 0xfc62bb2f, 0x8fa018fc, 0x3f5ec7b7,
                                    0x335271c2, 0xf29489f3, 0xeabda8fc, 0x82e46ebd, 0xd19c12b4, 0xb04e16de, 0x9e83d0cb, 0x4e3c50a2]

  lemma ExampleState()
    ensures Bytes(EXAMPLE_NONCE) && Rfc8439State(ExampleKey(), 1, EXAMPLE_NONCE) == VECTOR_NUMBERS
  {
    var k, n := ExampleKey(), EXAMPLE_NONCE;
    assert forall i :: 0 <= i < 32 ==> k[i] == i;
    hide ExampleKey;
  }

  lemma StartNumbers()
    ensures Numbers(VECTOR_START) == VECTOR_NUMBERS
  {
    hide Numbers;
    VectorNumbers(VECTOR_START, VECTOR_NUMBERS);
  }

  lemma ResultNumbers()
    ensures Numbers(VECTOR_ROUNDS) == VECTOR_RESULT
  {
    hide Numbers;
    VectorNumbers(VECTOR_ROUNDS, VECTOR_RESULT);
  }

  /** The block, in rows of four words. */
  const VECTOR_ROWS: seq<seq<int>> := [
    [0x10, 0xf1, 0xe7, 0xe4, 0xd1, 0x3b, 0x59, 0x15, 0x50, 0x0f, 0xdd, 0x1f, 0xa3, 0x20, 0x71, 0xc4],
    [0xc7, 0xd1, 0xf4, 0xc7, 0x33, 0xc0, 0x68, 0x03, 0x04, 0x22, 0xaa, 0x9a, 0xc3, 0xd4, 0x6c, 0x4e],
    [0xd2, 0x82, 0x64, 0x46, 0x07, 0x9f, 0xaa, 0x09, 0x14, 0xc2, 0xd7, 0x05, 0xd9, 0x8b, 0x02, 0xa2],
    [0xb5, 0x12, 0x9c, 0xd1, 0xde, 0x16, 0x4e, 0xb9, 0xcb, 0xd0, 0x83, 0xe8, 0xa2, 0x50, 0x3c, 0x4e]]

  /** The bytes of a word, read back. */
  lemma StoredIs(v: nat, b: seq<int>, i: nat)
    requires Bytes(b) && i + 4 <= |b| && v < 0x1_0000_0000 && Load32(b, i) == v
    ensures Store32(v) == b[i..i + 4]
  {
    var s := b[i..i + 4];
    hide Store32, Load32;
    assert s[0] == b[i] && s[1] == b[i + 1] && s[2] == b[i + 2] && s[3] == b[i + 3];
    LE4(s, 0);
    assert s[0..] == s && s[4..] == [];
    FeBytes.LEInjective(s, Store32(v));
  }

  /** Row r of the block, with the words it comes from. */
  predicate RowIs(x: seq<int>, s: seq<int>, r: nat, b: seq<int>)
    requires |x| == |s| == 16 && r < 4
  {
    && |b| == 16 && Bytes(b)
    && Load32(b, 0) == U32(x[4 * r] + s[4 * r]) && Load32(b, 4) == U32(x[4 * r + 1] + s[4 * r + 1])
    && Load32(b, 8) == U32(x[4 * r + 2] + s[4 * r + 2]) && Load32(b, 12) == U32(x[4 * r + 3] + s[4 * r + 3])
  }

  lemma RowStored(x: seq<int>, s: seq<int>, r: nat, b: seq<int>)
    requires |x| == |s| == 16 && r < 4 && RowIs(x, s, r, b)
    ensures Serialised(x, s, 4 * r) == b + Serialised(x, s, 4 * r + 4)
  {
    var i := 4 * r;
    hide Store32, Load32, Bytes, Serialised;
    WordStored(x, s, i, b, 0);
    WordStored(x, s, i + 1, b, 4);
    WordStored(x, s, i + 2, b, 8);
    WordStored(x, s, i + 3, b, 12);
    FourPieces(b, Serialised(x, s, i), Serialised(x, s, i + 1), Serialised(x, s, i + 2), Serialised(x, s, i + 3), Serialised(x, s, i + 4));
  }

  lemma WordStored(x: seq<int>, s: seq<int>, i: nat, b: seq<int>, j: nat)
    requires |x| == |s| == 16 && i < 16 && Bytes(b) && j + 4 <= |b| && Load32(b, j) == U32(x[i] + s[i])
    ensures Serialised(x, s, i) == b[j..j + 4] + Serialised(x, s, i + 1)
  {
    hide Store32, Load32, Bytes;
    StoredIs(U32(x[i] + s[i]), b, j);
  }

  lemma FourPieces(b: seq<int>, r0: seq<int>, r1: seq<int>, r2: seq<int>, r3: seq<int>, r4: seq<int>)
    requires |b| == 16 && r0 == b[0..4] + r1 && r1 == b[4..8] + r2 && r2 == b[8..12] + r3 && r3 == b[12..16] + r4
    ensures r0 == b + r4
  {
    assert b[0..4] + (b[4..8] + (b[8..12] + b[12..16])) == b;
  }

  lemma Row0()
    ensures RowIs(VECTOR_RESULT, VECTOR_NUMBERS, 0, VECTOR_ROWS[0])
  {
    var b := VECTOR_ROWS[0];
    assert |b| == 16 && Bytes(b);
    hide Load32, Bytes;
  }

  lemma Row1()
    ensures RowIs(VECTOR_RESULT, VECTOR_NUMBERS, 1, VECTOR_ROWS[1])
  {
    var b := VECTOR_ROWS[1];
    assert |b| == 16 && Bytes(b);
    hide Load32, Bytes;
  }

  lemma Row2()
    ensures RowIs(VECTOR_RESULT, VECTOR_NUMBERS, 2, VECTOR_ROWS[2])
  {
    var b := VECTOR_ROWS[2];
    assert |b| == 16 && Bytes(b);
    hide Load32, Bytes;
  }

  lemma Row3()
    ensures RowIs(VECTOR_RESULT, VECTOR_NUMBERS, 3, VECTOR_ROWS[3])
  {
    var b := VECTOR_ROWS[3];
    assert |b| == 16 && Bytes(b);
    hide Load32, Bytes;
  }

  lemma VectorRounds()
    ensures |VECTOR_NUMBERS| == |VECTOR_RESULT| == 16 && Words(VECTOR_NUMBERS) && Words(VECTOR_RESULT)
    ensures Rounds(VECTOR_NUMBERS, 10) == VECTOR_RESULT
  {
    hide *;
    StartNumbers();
    ResultNumbers();
    TenRounds();
    RoundsWords(VECTOR_START, 10);
  }

  /** Section 2.3.2. */
  lemma BlockVector()
    ensures Bytes(EXAMPLE_NONCE) && Words(Rfc8439State(ExampleKey(), 1, EXAMPLE_NONCE))
    ensures BlockOf(Rfc8439State(ExampleKey(), 1, EXAMPLE_NONCE)) == VECTOR_ROWS[0] + VECTOR_ROWS[1] + VECTOR_ROWS[2] + VECTOR_ROWS[3]
  {
    assert |VECTOR_ROWS| == 4;
    hide *;
    ExampleState();
    VectorRounds();
    Row0();
    Row1();
    Row2();
    Row3();
    BlockIs(VECTOR_NUMBERS, VECTOR_RESULT, VECTOR_ROWS[0], VECTOR_ROWS[1], VECTOR_ROWS[2], VECTOR_ROWS[3]);
  }

  lemma BlockIs(s: seq<int>, x: seq<int>, b0: seq<int>, b1: seq<int>, b2: seq<int>, b3: seq<int>)
    requires |s| == |x| == 16 && Words(s) && Words(x) && Rounds(s, 10) == x
    requires RowIs(x, s, 0, b0) && RowIs(x, s, 1, b1) && RowIs(x, s, 2, b2) && RowIs(x, s, 3, b3)
    ensures BlockOf(s) == b0 + b1 + b2 + b3
  {
    var r0, r1, r2, r3, r4 := Serialised(x, s, 0), Serialised(x, s, 4), Serialised(x, s, 8), Serialised(x, s, 12), Serialised(x, s, 16);
    assert BlockOf(s) == r0 && r4 == [];
    hide *;
    RowStored(x, s, 0, b0);
    RowStored(x, s, 1, b1);
    RowStored(x, s, 2, b2);
    RowStored(x, s, 3, b3);
    FourRows(r0, r1, r2, r3, r4, b0, b1, b2, b3);
  }

  lemma FourRows(r0: seq<int>, r1: seq<int>, r2: seq<int>, r3: seq<int>, r4: seq<int>, b0: seq<int>, b1: seq<int>, b2: seq<int>, b3: seq<int>)
    requires r0 == b0 + r1 && r1 == b1 + r2 && r2 == b2 + r3 && r3 == b3 + r4 && r4 == []
    ensures r0 == b0 + b1 + b2 + b3
  {
    assert r3 == b3 && r0 == b0 + (b1 + (b2 + b3));
  }
}
