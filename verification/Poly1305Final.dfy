/** The end of poly1305_finish (poly1305-opt-master/poly1305.c:228-282): full carry, subtraction of p by
    a masked select, addition of the pad. */
module Poly1305Final {
  import opened Bits
  import opened Congruence
  import opened Poly1305Spec
  import opened Poly1305Limbs

  /** The single carry pass is enough: limb 1 never reaches 2^26 again. */
  method FullCarry(h: seq<int>, word: int) returns (g: seq<int>)
    requires Word(word) && Carried(h)
    ensures Nominal(g) && Same1305(Val(g), Val(h))
  {
    var h1, c1 := CarryWord(h[1]);
    var h2, c2 := CarryWord(h[2] + c1);
    var h3, c3 := CarryWord(h[3] + c2);
    var h4, c4 := CarryWord(h[4] + c3);
    var h0, c0 := CarryWord((h[0] + c4 * 5) % word);
    g := [h0, h1 + c0, h2, h3, h4];
    hide Same1305;
    SameBy1305(Val(g), Val(h), -c4);
  }

  lemma NominalVal(h: seq<int>)
    requires Nominal(h)
    ensures 0 <= Val(h) < 0x400000000000000000000000000000000
  {
  }

  /** h + 5 - 2^130, with the sign in the top bit of the last word. */
  method SubtractP(h: seq<int>, word: int) returns (g: seq<int>, mask: int)
    requires Word(word) && Nominal(h)
    ensures |g| == 5 && 0 <= g[0] < word && 0 <= g[1] < word && 0 <= g[2] < word && 0 <= g[3] < word && 0 <= g[4] < word
    ensures Val(h) < P1305 ==> mask == 0
    ensures Val(h) >= P1305 ==> mask == word - 1 && Nominal(g) && Val(g) == Val(h) - P1305
  {
    var g0, c0 := CarryWord(h[0] + 5);
    var g1, c1 := CarryWord(h[1] + c0);
    var g2, c2 := CarryWord(h[2] + c1);
    var g3, c3 := CarryWord(h[3] + c2);
    var g4, m := TopWord(h[4] + c3, word);
    g, mask := [g0, g1, g2, g3, g4], m;
    assert Val(h) + 5 == g0 + 0x4000000 * g1 + 0x10000000000000 * g2 + 0x40000000000000000000 * g3 + 0x100000000000000000000000000 * (h[4] + c3);
  }

  /** `g4 = h4 + c - (1 << 26); mask = (g4 >> ((sizeof(unsigned long) * 8) - 1)) - 1` */
  method TopWord(t: int, word: int) returns (g: int, mask: int)
    requires Word(word) && 0 <= t <= 0x4000000
    ensures 0 <= g < word
    ensures t < 0x4000000 ==> mask == 0
    ensures t >= 0x4000000 ==> mask == word - 1 && g == t - 0x4000000
  {
    g := (t - 0x4000000) % word;
    SignBit(t, g, word);
    mask := (g / (word / 2) - 1) % word;
  }

  lemma SignBit(t: int, g: int, word: int)
    requires Word(word) && 0 <= t <= 0x4000000 && g == (t - 0x4000000) % word
    ensures g == (if t < 0x4000000 then t - 0x4000000 + word else t - 0x4000000)
    ensures g / (word / 2) == (if t < 0x4000000 then 1 else 0) && (0 - 1) % word == word - 1
  {
    DivModUnique(t - 0x4000000, word, if t < 0x4000000 then -1 else 0, g);
    if word == 0x1_0000_0000 {
    } else {
    }
  }

  lemma PowWord(word: int) returns (k: nat)
    requires Word(word)
    ensures Pow2(k) == word
  {
    Pow2Literals();
    k := 32;
    if word != 0x1_0000_0000 {
      Pow2Add(k, k);
      k := 64;
    }
  }

  /** `(h & ~mask) | (g & mask)` */
  method SelectWord(h: int, g: int, mask: int, word: int) returns (s: int)
    requires Word(word) && (mask == 0 || mask == word - 1) && 0 <= h < word && 0 <= g < word
    ensures s == if mask == 0 then h else g
  {
    hide And, Pow2;
    var k := PowWord(word);
    AndMask(h, k, word - 1);
    AndMask(g, k, word - 1);
    AndZero(h);
    AndZero(g);
    s := Or(And(h, word - 1 - mask), And(g, mask));
  }

  lemma AndZero(x: nat)
    ensures And(x, 0) == 0
  {
  }

  /** The canonical residue. */
  method Canonical(h: seq<int>, word: int) returns (s: seq<int>)
    requires Word(word) && Nominal(h)
    ensures Nominal(s) && Val(s) == Val(h) % P1305
  {
    NominalVal(h);
    var g, mask := SubtractP(h, word);
    var s0 := SelectWord(h[0], g[0], mask, word);
    var s1 := SelectWord(h[1], g[1], mask, word);
    var s2 := SelectWord(h[2], g[2], mask, word);
    var s3 := SelectWord(h[3], g[3], mask, word);
    var s4 := SelectWord(h[4], g[4], mask, word);
    s := [s0, s1, s2, s3, s4];
    assert s == if mask == 0 then h else g;
    hide Val;
    if mask == 0 {
      DivModUnique(Val(h), P1305, 0, Val(h));
    } else {
      DivModUnique(Val(h), P1305, 1, Val(h) - P1305);
    }
  }

  // ---- four words of 32 bits

  /** `((lo >> s) | (hi << t)) & 0xffffffff`, with down = 2^s, up = 2^t, keep = 2^(32 - t): the bits of
      hi above the word fall off, in the shift or in the mask. */
  method PackWord(lo: int, down: int, hi: int, up: int, keep: int, ghost t: nat, word: int) returns (w: int)
    requires Word(word) && 0 <= lo < 0x4000000 && 0 <= hi < 0x4000000 && down > 0 && 0 < up <= 0x4000000 && up == Pow2(t) && keep > 0
    requires keep * up == 0x100000000 && lo / down < up
    ensures w == lo / down + up * (hi % keep) && 0 <= w < 0x100000000
  {
    hide And, Or;
    Pow2Literals();
    hide Pow2;
    Shifted(hi, up, keep, word);
    QuotientNonNegative(lo, down);
    ghost var x := hi * up % word / up;
    OrDisjoint(x, lo / down, t);
    var k, mask := 32, 0xffff_ffff;
    w := And(Or(lo / down, hi * up % word), mask);
    ScaledSum(x, lo / down, keep, up);
    AndMask(x * up + lo / down, k, mask);
  }

  lemma QuotientNonNegative(x: int, d: int)
    requires x >= 0 && d > 0
    ensures x / d >= 0
  {
  }

  /** The shifted word is up times x, and x agrees with hi in the bits that matter. */
  lemma Shifted(hi: int, up: int, keep: int, word: int)
    requires Word(word) && 0 <= hi < 0x4000000 && 0 < up <= 0x4000000 && keep > 0 && keep * up == 0x100000000
    ensures var x := hi * up % word / up; hi * up % word == x * up && x % keep == hi % keep && x >= 0
  {
    MulMono(hi, 0x4000000, up);
    MulMono(0, hi, up);
    if word == 0x100000000 {
      var q, r := hi / keep, hi % keep;
      assert hi == keep * q + r;
      assert hi * up == q * (keep * up) + r * up;
      MulMono(r + 1, keep, up);
      MulMono(0, r, up);
      DivModUnique(hi * up, 0x100000000, q, r * up);
      DivModUnique(r * up, up, r, 0);
      DivModUnique(r, keep, 0, r);
    } else {
      DivModUnique(hi * up, word, 0, hi * up);
      DivModUnique(hi * up, up, hi, 0);
    }
  }

  lemma ScaledSum(x: int, low: int, keep: int, up: int)
    requires keep > 0 && up > 0 && keep * up == 0x100000000 && 0 <= low < up && x >= 0
    ensures (x * up + low) % 0x100000000 == low + up * (x % keep) && x * up >= 0
  {
    var s, t := x / keep, x % keep;
    assert x == keep * s + t;
    assert x * up == s * (keep * up) + t * up;
    MulMono(t + 1, keep, up);
    MulMono(0, t, up);
    MulMono(0, x, up);
    DivModUnique(x * up + low, 0x100000000, s, t * up + low);
  }

  /** h % 2^128 in four words. */
  method PackWords(h: seq<int>, word: int) returns (w: seq<int>)
    requires Word(word) && Nominal(h)
    ensures |w| == 4 && Four(w, 0x100000000) && Val4(w) == Val(h) % 0x100000000000000000000000000000000
  {
    assert Pow2(8) == 0x100 && Pow2(14) == 0x4000 && Pow2(20) == 0x100000;
    Pow2Literals();
    hide Pow2, And, Or;
    var w0 := PackWord(h[0], 1, h[1], 0x4000000, 0x40, 26, word);
    var w1 := PackWord(h[1], 0x40, h[2], 0x100000, 0x1000, 20, word);
    var w2 := PackWord(h[2], 0x1000, h[3], 0x4000, 0x40000, 14, word);
    var w3 := PackWord(h[3], 0x40000, h[4], 0x100, 0x1000000, 8, word);
    w := [w0, w1, w2, w3];
    WordsVal(h, w);
  }

  lemma WordsVal(h: seq<int>, w: seq<int>)
    requires Nominal(h) && |w| == 4 && Four(w, 0x100000000)
    requires w[0] == h[0] + 0x4000000 * (h[1] % 0x40) && w[1] == h[1] / 0x40 + 0x100000 * (h[2] % 0x1000)
    requires w[2] == h[2] / 0x1000 + 0x4000 * (h[3] % 0x40000) && w[3] == h[3] / 0x40000 + 0x100 * (h[4] % 0x1000000)
    ensures Val4(w) == Val(h) % 0x100000000000000000000000000000000
  {
    assert Val(h) == Val4(w) + 0x100000000000000000000000000000000 * (h[4] / 0x1000000);
    assert 0 <= Val4(w) < 0x100000000000000000000000000000000;
    DivModUnique(Val(h), 0x100000000000000000000000000000000, h[4] / 0x1000000, Val4(w));
  }

  predicate Four(w: seq<int>, bound: int)
    requires |w| == 4
  {
    0 <= w[0] < bound && 0 <= w[1] < bound && 0 <= w[2] < bound && 0 <= w[3] < bound
  }

  function Val4(w: seq<int>): int
    requires |w| == 4
  {
    w[0] + 0x100000000 * w[1] + 0x10000000000000000 * w[2] + 0x1000000000000000000000000 * w[3]
  }

  // ---- the pad and the bytes

  /** U32TO8: the low four bytes of a word, whatever its width. */
  method StoreWord(v: int) returns (s: seq<int>)
    requires 0 <= v < 0x10000000000000000
    ensures |s| == 4 && Bytes(s) && LE(s) == v % 0x100000000
  {
    hide And;
    Pow2Literals();
    hide Pow2;
    var k, mask := 8, 0xff;
    AndMask(v, k, mask);
    AndMask(v / 0x100, k, mask);
    AndMask(v / 0x10000, k, mask);
    AndMask(v / 0x1000000, k, mask);
    s := [And(v, mask), And(v / 0x100, mask), And(v / 0x10000, mask), And(v / 0x1000000, mask)];
    FourBytes(v, v % 0x100000000);
    StoredWord(v % 0x100000000, s);
  }

  lemma FourBytes(v: int, u: int)
    requires 0 <= v && u == v % 0x100000000
    ensures v % 0x100 == u % 0x100 && v / 0x100 % 0x100 == u / 0x100 % 0x100
    ensures v / 0x10000 % 0x100 == u / 0x10000 % 0x100 && v / 0x1000000 % 0x100 == u / 0x1000000 % 0x100
  {
    var q := v / 0x100000000;
    assert v == q * 0x100000000 + u;
    DivModUnique(v, 0x100, q * 0x1000000 + u / 0x100, u % 0x100);
    DivModUnique(v, 0x10000, q * 0x10000 + u / 0x10000, u % 0x10000);
    DivModUnique(v, 0x1000000, q * 0x100 + u / 0x1000000, u % 0x1000000);
    DivModUnique(q * 0x1000000 + u / 0x100, 0x100, q * 0x10000 + u / 0x100 / 0x100, u / 0x100 % 0x100);
    DivModUnique(q * 0x10000 + u / 0x10000, 0x100, q * 0x100 + u / 0x10000 / 0x100, u / 0x10000 % 0x100);
    DivModUnique(q * 0x100 + u / 0x1000000, 0x100, q + u / 0x1000000 / 0x100, u / 0x1000000 % 0x100);
  }

  /** `f = (unsigned long long)h + pad + (f >> 32); h = (unsigned long)f` */
  method AddWord(h: int, pad: int, f: int, word: int) returns (f': int, h': int)
    requires Word(word) && 0 <= h < 0x100000000 && 0 <= pad < 0x100000000 && 0 <= f < 0x400000000
    ensures f' == h + pad + f / 0x100000000 && 0 <= f' < 0x400000000
    ensures 0 <= h' < 0x10000000000000000 && h' % 0x100000000 == f' % 0x100000000
  {
    f' := (h + pad + f / 0x100000000) % 0x10000000000000000;
    h' := f' % word;
  }

  /** mac = (h + pad) % 2^128, stored. */
  method AddPad(h: seq<int>, pad: seq<int>, word: int) returns (mac: seq<int>)
    requires Word(word) && |h| == |pad| == 4 && Four(h, 0x100000000) && Four(pad, 0x100000000)
    ensures |mac| == 16 && Bytes(mac) && LE(mac) == (Val4(h) + Val4(pad)) % 0x100000000000000000000000000000000
  {
    hide LE;
    var f0, h0 := AddWord(h[0], pad[0], 0, word);
    var f1, h1 := AddWord(h[1], pad[1], f0, word);
    var f2, h2 := AddWord(h[2], pad[2], f1, word);
    var f3, h3 := AddWord(h[3], pad[3], f2, word);
    var b0 := StoreWord(h0);
    var b1 := StoreWord(h1);
    var b2 := StoreWord(h2);
    var b3 := StoreWord(h3);
    mac := b0 + b1 + b2 + b3;
    ConcatWords(b0, b1, b2, b3);
    SumWords(h, pad, f0, f1, f2, f3);
  }

  lemma SumWords(h: seq<int>, pad: seq<int>, f0: int, f1: int, f2: int, f3: int)
    requires |h| == |pad| == 4 && Four(h, 0x100000000) && Four(pad, 0x100000000)
    requires f0 == h[0] + pad[0] && f1 == h[1] + pad[1] + f0 / 0x100000000 && f2 == h[2] + pad[2] + f1 / 0x100000000 && f3 == h[3] + pad[3] + f2 / 0x100000000
    ensures f0 % 0x100000000 + 0x100000000 * (f1 % 0x100000000) + 0x10000000000000000 * (f2 % 0x100000000) + 0x1000000000000000000000000 * (f3 % 0x100000000) == (Val4(h) + Val4(pad)) % 0x100000000000000000000000000000000
  {
    var s := f0 % 0x100000000 + 0x100000000 * (f1 % 0x100000000) + 0x10000000000000000 * (f2 % 0x100000000) + 0x1000000000000000000000000 * (f3 % 0x100000000);
    assert Val4(h) + Val4(pad) == s + 0x100000000000000000000000000000000 * (f3 / 0x100000000);
    DivModUnique(Val4(h) + Val4(pad), 0x100000000000000000000000000000000, f3 / 0x100000000, s);
  }

  lemma ConcatWords(a: seq<int>, b: seq<int>, c: seq<int>, d: seq<int>)
    requires |a| == |b| == |c| == |d| == 4
    ensures LE(a + b + c + d) == LE(a) + 0x100000000 * LE(b) + 0x10000000000000000 * LE(c) + 0x1000000000000000000000000 * LE(d)
  {
    Pow2Literals();
    var k := 32;
    Pow2Add(k, k);
    Pow2Add(64, k);
    hide LE, Pow2;
    LEConcat(a + b + c, d);
    LEConcat(a + b, c);
    LEConcat(a, b);
  }

  /** poly1305_finish from the accumulator on. */
  method Tag(h: seq<int>, pad: seq<int>, word: int, ghost acc: int) returns (mac: seq<int>)
    requires Word(word) && Carried(h) && |pad| == 4 && Four(pad, 0x100000000)
    requires Same1305(Val(h), acc) && 0 <= acc < P1305
    ensures |mac| == 16 && Bytes(mac) && LE(mac) == (acc + Val4(pad)) % 0x100000000000000000000000000000000
  {
    var g := FullCarry(h, word);
    CongIff(Val(g), Val(h), P1305);
    CongIff(Val(h), acc, P1305);
    DivModUnique(acc, P1305, 0, acc);
    hide Val, Val4, LE;
    g := Canonical(g, word);
    assert Val(g) == acc;
    var w := PackWords(g, word);
    mac := AddPad(w, pad, word);
    DropHigh(acc, Val4(pad));
  }

  lemma DropHigh(x: int, y: int)
    ensures (x % 0x100000000000000000000000000000000 + y) % 0x100000000000000000000000000000000 == (x + y) % 0x100000000000000000000000000000000
  {
    var q, r := x / 0x100000000000000000000000000000000, x % 0x100000000000000000000000000000000;
    var p, s := (r + y) / 0x100000000000000000000000000000000, (r + y) % 0x100000000000000000000000000000000;
    assert r + y == p * 0x100000000000000000000000000000000 + s && x == q * 0x100000000000000000000000000000000 + r;
    DivModUnique(x + y, 0x100000000000000000000000000000000, q + p, s);
  }
}
