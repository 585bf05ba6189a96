/** The value that section 2.5.2 of RFC 8439 gives for the one-time authenticator, and its clamp by words. */
module Poly1305Vector {
  import opened Bits
  import opened Poly1305Spec
  import Poly1305Limbs

  /** The clamp: the top four bits of each word are cleared, and the bottom two of all words but the first. */
  lemma ClampIs(a: nat, b: nat, c: nat, d: nat)
    requires a < 0x1_0000_0000 && b < 0x1_0000_0000 && c < 0x1_0000_0000 && d < 0x1_0000_0000
    ensures Clamp(a + 0x1_0000_0000 * b + 0x1_0000_0000_0000_0000 * c + 0x1_0000_0000_0000_0000_0000_0000 * d)
      == a % 0x10000000 + 0x1_0000_0000 * (b % 0x10000000 - b % 4) + 0x1_0000_0000_0000_0000 * (c % 0x10000000 - c % 4)
       + 0x1_0000_0000_0000_0000_0000_0000 * (d % 0x10000000 - d % 4)
  {
    hide And;
    var k := 32;
    Pow2Literals();
    Top(a);
    TopAndBottom(b);
    TopAndBottom(c);
    TopAndBottom(d);
    var m := 0x0ffffffc;
    Poly1305Limbs.AndSplit(d, c, m, m, k);
    Poly1305Limbs.AndSplit(d * 0x1_0000_0000 + c, b, m * 0x1_0000_0000 + m, m, k);
    Poly1305Limbs.AndSplit((d * 0x1_0000_0000 + c) * 0x1_0000_0000 + b, a, (m * 0x1_0000_0000 + m) * 0x1_0000_0000 + m, 0x0fffffff, k);
  }

  lemma Top(a: nat)
    ensures And(a, 0x0fffffff) == a % 0x10000000
  {
    var k := 28;
    TwentyEight();
    hide And, Pow2;
    AndMask(a, k, 0x0fffffff);
  }

  lemma TwentyEight()
    ensures Pow2(28) == 0x10000000 && Pow2(26) == 0x4000000 && Pow2(2) == 4
  {
    Pow2Literals();
    var k := 26;
    Pow2Add(2, k);
  }

  lemma TopAndBottom(b: nat)
    ensures And(b, 0x0ffffffc) == b % 0x10000000 - b % 4
  {
    var k, j := 26, 2;
    TwentyEight();
    AndNothing(b % 4);
    hide And, Pow2;
    AndMask(b / 4, k, 0x3ffffff);
    Poly1305Limbs.AndSplit(b / 4, b % 4, 0x3ffffff, 0, j);
    QuarterRest(b);
  }

  lemma AndNothing(x: nat)
    ensures And(x, 0) == 0
  {
  }

  lemma QuarterRest(b: nat)
    ensures b / 4 % 0x4000000 * 4 == b % 0x10000000 - b % 4
  {
    var q := b / 4 / 0x4000000;
    DivModUnique(b, 0x10000000, q, b / 4 % 0x4000000 * 4 + b % 4);
  }

  const KEY_R: seq<int> := [0x85, 0xd6, 0xbe, 0x78, 0x57, 0x55, 0x6d, 0x33, 0x7f, 0x44, 0x52, 0xfe, 0x42, 0xd5, 0x06, 0xa8]
  const KEY_S: seq<int> := [0x01, 0x03, 0x80, 0x8a, 0xfb, 0x0d, 0xb2, 0xfd, 0x4a, 0xbf, 0xf6, 0xaf, 0x41, 0x49, 0xf5, 0x1b]
  const BLOCK0: seq<int> := [0x43, 0x72, 0x79, 0x70, 0x74, 0x6f, 0x67, 0x72, 0x61, 0x70, 0x68, 0x69, 0x63, 0x20, 0x46, 0x6f]
  const BLOCK1: seq<int> := [0x72, 0x75, 0x6d, 0x20, 0x52, 0x65, 0x73, 0x65, 0x61, 0x72, 0x63, 0x68, 0x20, 0x47, 0x72, 0x6f]
  const BLOCK2: seq<int> := [0x75, 0x70]

  /** Sixteen bytes by words. */
  lemma FourWords(s: seq<int>)
    requires Bytes(s) && |s| == 16
    ensures LE(s) == Load32(s, 0) + 0x1_0000_0000 * (Load32(s, 4) + 0x1_0000_0000 * (Load32(s, 8) + 0x1_0000_0000 * Load32(s, 12)))
  {
    hide Load32;
    LE4(s, 0);
    LE4(s, 4);
    LE4(s, 8);
    LE4(s, 12);
    assert s[0..] == s && s[16..] == [];
  }

  lemma NumberR()
    ensures Bytes(KEY_R) && LE(KEY_R) == 0xa806d542fe52447f336d555778bed685
  {
    assert Bytes(KEY_R);
    hide Load32, LE;
    FourWords(KEY_R);
  }

  lemma NumberS()
    ensures Bytes(KEY_S) && LE(KEY_S) == 0x1bf54941aff6bf4afdb20dfb8a800301
  {
    assert Bytes(KEY_S);
    hide Load32, LE;
    FourWords(KEY_S);
  }

  lemma Number0()
    ensures Bytes(BLOCK0) && LE(BLOCK0) == 0x6f4620636968706172676f7470797243
  {
    assert Bytes(BLOCK0);
    hide Load32, LE;
    FourWords(BLOCK0);
  }

  lemma Number1()
    ensures Bytes(BLOCK1) && LE(BLOCK1) == 0x6f7247206863726165736552206d7572
  {
    assert Bytes(BLOCK1);
    hide Load32, LE;
    FourWords(BLOCK1);
  }

  lemma ClampedR()
    ensures Clamp(0xa806d542fe52447f336d555778bed685) == 0x806d5400e52447c036d555408bed685
  {
    hide Clamp;
    ClampIs(0x78bed685, 0x336d5557, 0xfe52447f, 0xa806d542);
  }

  lemma BlockNumbers()
    ensures BlockNumber(BLOCK0) == 0x16f4620636968706172676f7470797243 && BlockNumber(BLOCK1) == 0x16f7247206863726165736552206d7572
    ensures BlockNumber(BLOCK2) == 0x17075
  {
    hide BlockNumber, LE;
    Number0();
    Number1();
    FullBlock(BLOCK0);
    FullBlock(BLOCK1);
    ShortBlock();
  }

  lemma FullBlock(s: seq<int>)
    requires |s| == 16
    ensures BlockNumber(s) == LE(s) + 0x1_0000_0000_0000_0000_0000_0000_0000_0000
  {
    OneByte();
    hide Pow2, LE;
    Weight128(8 * |s|);
    LEConcat(s, [1]);
  }

  lemma OneByte()
    ensures LE([1]) == 1
  {
    assert [1][1..] == [];
  }

  lemma Weight128(n: nat)
    requires n == 128
    ensures Pow2(n) == 0x1_0000_0000_0000_0000_0000_0000_0000_0000
  {
    Pow2Literals();
    hide Pow2;
    var j, k := 32, 64;
    Pow2Add(j, j);
    Pow2Add(k, k);
  }

  lemma ShortBlock()
    ensures BlockNumber(BLOCK2) == 0x17075
  {
    OneByte();
    assert BLOCK2 + [1] == [0x75, 0x70, 1];
    TwoBytes(0x70, [1]);
    TwoBytes(0x75, [0x70, 1]);
    assert [0x70] + [1] == [0x70, 1] && [0x75] + [0x70, 1] == [0x75, 0x70, 1];
  }

  lemma TwoBytes(a: int, s: seq<int>)
    ensures LE([a] + s) == a + 0x100 * LE(s)
  {
    assert ([a] + s)[1..] == s;
  }

  /** The accumulator after each block. */
  lemma Accumulators()
    ensures Absorb(0, 0x806d5400e52447c036d555408bed685, BLOCK0 + BLOCK1 + BLOCK2) == 0x28d31b7caff946c77c8844335369d03a7
  {
    var r, m := 0x806d5400e52447c036d555408bed685, BLOCK0 + BLOCK1 + BLOCK2;
    BlockNumbers();
    assert m[..16] == BLOCK0 && m[16..][..16] == BLOCK1 && m[16..][16..] == BLOCK2;
    hide BlockNumber;
    Remainder(0x0 + 0x16f4620636968706172676f7470797243, r, 0x2e0ffa647299a001224557735a7a109, 0x2c88c77849d64ae9147ddeb88e69c83fc);
    Remainder(0x2c88c77849d64ae9147ddeb88e69c83fc + 0x16f7247206863726165736552206d7572, r, 0x8773264b431966e900dbd96edfe2158, 0x2d8adaf23b0337fa7cccfb4ea344b30de);
    Remainder(0x2d8adaf23b0337fa7cccfb4ea344b30de + 0x17075, r, 0x5b6382283cff87793f9285521ab29e8, 0x28d31b7caff946c77c8844335369d03a7);
    assert Absorb(0, r, m) == Absorb(0x2c88c77849d64ae9147ddeb88e69c83fc, r, m[16..]);
    assert Absorb(0x2c88c77849d64ae9147ddeb88e69c83fc, r, m[16..]) == Absorb(0x2d8adaf23b0337fa7cccfb4ea344b30de, r, BLOCK2);
    AbsorbBlock(0x2d8adaf23b0337fa7cccfb4ea344b30de, r, BLOCK2);
  }

  lemma Remainder(x: int, r: int, q: int, a: int)
    requires x * r == q * P1305 + a && 0 <= a < P1305
    ensures x * r % P1305 == a
  {
    DivModUnique(x * r, P1305, q, a);
  }

  const VECTOR_TAG: seq<int> := [0xa8, 0x06, 0x1d, 0xc1, 0x30, 0x51, 0x36, 0xc6, 0xc2, 0x2b, 0x8b, 0xaf, 0x0c, 0x01, 0x27, 0xa9]

  /** Section 2.5.2: the tag of "Cryptographic Forum Research Group". */
  lemma TagVector()
    ensures Bytes(KEY_R + KEY_S) && |KEY_R + KEY_S| == 32
    ensures TagNumber(KEY_R + KEY_S, BLOCK0 + BLOCK1 + BLOCK2) == LE(VECTOR_TAG)
  {
    var k, t := KEY_R + KEY_S, VECTOR_TAG;
    KeyParts();
    hide *;
    NumberR();
    NumberS();
    NumberTag();
    ClampedR();
    Accumulators();
    BytesJoin(KEY_R, KEY_S);
    TagIs(k, BLOCK0 + BLOCK1 + BLOCK2);
    Sum();
  }

  lemma KeyParts()
    ensures |KEY_R| == |KEY_S| == 16 && (KEY_R + KEY_S)[..16] == KEY_R && (KEY_R + KEY_S)[16..] == KEY_S
  {
  }
  lemma NumberTag()
    ensures Bytes(VECTOR_TAG) && LE(VECTOR_TAG) == 0xa927010caf8b2bc2c6365130c11d06a8
  {
    assert Bytes(VECTOR_TAG);
    hide Load32, LE;
    FourWords(VECTOR_TAG);
  }

  lemma BytesJoin(a: seq<int>, b: seq<int>)
    requires Bytes(a) && Bytes(b)
    ensures Bytes(a + b)
  {
  }

  lemma TagIs(key: seq<int>, m: seq<int>)
    requires |key| == 32 && Bytes(key)
    ensures LE(key[..16]) >= 0
    ensures TagNumber(key, m) == (Absorb(0, Clamp(LE(key[..16])), m) + LE(key[16..])) % 0x1_0000_0000_0000_0000_0000_0000_0000_0000
  {
    LEBound(key[..16]);
  }

  lemma Sum()
    ensures (0x28d31b7caff946c77c8844335369d03a7 + 0x1bf54941aff6bf4afdb20dfb8a800301) % 0x1_0000_0000_0000_0000_0000_0000_0000_0000 == 0xa927010caf8b2bc2c6365130c11d06a8
  {
  }
}
