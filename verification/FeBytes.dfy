/** Bytes to field elements and back: curve25519_expand and curve25519_contract
    (ed25519-donna/curve25519-donna-32bit.h:403-527). */
module FeBytes {
  import opened Bits
  import opened FieldModulus
  import opened Fe

  const TOP: int := 0x8000000000000000000000000000000000000000000000000000000000000000

  /** Scaling by up turns the remainder modulo `keep` into the remainder modulo keep * up. */
  lemma ScaledRemainder(hi: int, low: int, keep: int, up: int, whole: int)
    requires keep > 0 && up > 0 && keep * up == whole && 0 <= low < up && hi >= 0
    ensures (hi * up + low) % whole == low + up * (hi % keep)
    ensures 0 <= low + up * (hi % keep) < whole
  {
    var s, t := hi / keep, hi % keep;
    assert hi == keep * s + t;
    assert hi * up == s * (keep * up) + t * up;
    MulMono(t, keep - 1, up);
    MulMono(0, t, up);
    assert (keep - 1) * up == keep * up - up;
    DivModUnique(hi * up + low, whole, s, t * up + low);
  }

  lemma QuotientBound(lo: int, down: int, up: int)
    requires 0 <= lo < 0x1_0000_0000 && down > 0 && up > 0 && down * up == 0x1_0000_0000
    ensures 0 <= lo / down < up
  {
    var q := lo / down;
    assert q * down <= lo;
    if q >= up {
      MulMono(up, q, down);
    }
  }

  lemma WideShift(lo: int, hi: int, down: int, up: int)
    requires 0 <= lo && 0 <= hi && down > 0 && down * up == 0x1_0000_0000
    ensures (hi * 0x1_0000_0000 + lo) / down == hi * up + lo / down
  {
    assert hi * 0x1_0000_0000 == (hi * up) * down;
    DivModUnique(hi * 0x1_0000_0000 + lo, down, hi * up + lo / down, lo % down);
  }

  /** `((((uint64_t)hi << 32) | lo) >> s) & mask`, with down = 2^s, up = 2^(32 - s) and mask = keep * up - 1. */
  method ExpandLimb(hi: int, lo: int, down: int, up: int, keep: int, mask: int, ghost k: nat) returns (d: int)
    requires 0 <= lo < 0x1_0000_0000 && 0 <= hi < 0x1_0000_0000
    requires down > 0 && up > 0 && keep > 0 && down * up == 0x1_0000_0000 && keep * up == mask + 1 == Pow2(k)
    ensures d == lo / down + up * (hi % keep) && 0 <= d < mask + 1
  {
    hide And, Or;
    Pow2Literals();
    OrDisjoint(hi, lo, 32);
    WideShift(lo, hi, down, up);
    QuotientBound(lo, down, up);
    ScaledRemainder(hi, lo / down, keep, up, mask + 1);
    var x := Or(U64(hi * 0x1_0000_0000), lo);
    MulMono(0, hi, up);
    AndMask(x / down, k, mask);
    d := And(x / down, mask);
  }

  method ExpandWords(x0: int, x1: int, x2: int, x3: int, x4: int, x5: int, x6: int, x7: int) returns (s: seq<int>)
    requires 0 <= x0 < 0x100000000 && 0 <= x1 < 0x100000000 && 0 <= x2 < 0x100000000 && 0 <= x3 < 0x100000000
    requires 0 <= x4 < 0x100000000 && 0 <= x5 < 0x100000000 && 0 <= x6 < 0x100000000 && 0 <= x7 < 0x100000000
    ensures Below(s, 0x4000000, 0x2000000)
    ensures Val(s) + TOP * (x7 / 0x80000000) == x0 + 0x100000000 * x1 + 0x10000000000000000 * x2 + 0x1000000000000000000000000 * x3 + 0x100000000000000000000000000000000 * x4 + 0x10000000000000000000000000000000000000000 * x5 + 0x1000000000000000000000000000000000000000000000000 * x6 + 0x100000000000000000000000000000000000000000000000000000000 * x7
  {
    hide And, Pow2;
    Pow2Literals();
    Mask26(x0);
    Mask26(x3 / 0x40);
    Mask25(x4);
    Mask25(x7 / 0x40);
    var d0 := And(x0, 0x3ffffff);
    var d1 := ExpandLimb(x1, x0, 0x4000000, 0x40, 0x80000, 0x1ffffff, 25);
    var d2 := ExpandLimb(x2, x1, 0x80000, 0x2000, 0x2000, 0x3ffffff, 26);
    var d3 := ExpandLimb(x3, x2, 0x2000, 0x80000, 0x40, 0x1ffffff, 25);
    var d4 := And(x3 / 0x40, 0x3ffffff);
    var d5 := And(x4, 0x1ffffff);
    var d6 := ExpandLimb(x5, x4, 0x2000000, 0x80, 0x80000, 0x3ffffff, 26);
    var d7 := ExpandLimb(x6, x5, 0x80000, 0x2000, 0x1000, 0x1ffffff, 25);
    var d8 := ExpandLimb(x7, x6, 0x1000, 0x100000, 0x40, 0x3ffffff, 26);
    var d9 := And(x7 / 0x40, 0x1ffffff);
    TopBit(x7);
    s := [d0, d1, d2, d3, d4, d5, d6, d7, d8, d9];
  }

  lemma TopBit(x: nat)
    requires x < 0x1_0000_0000
    ensures x / 0x40 == x / 0x40 % 0x2000000 + 0x2000000 * (x / 0x80000000)
    ensures x / 0x40 % 0x4000000 == x / 0x40
  {
    var q, r := x / 0x40, x % 0x40;
    var a, b := q / 0x2000000, q % 0x2000000;
    assert x == (a * 0x80000000) + (b * 0x40 + r);
    DivModUnique(x, 0x80000000, a, b * 0x40 + r);
  }

  lemma FourWords(s: seq<int>, i: nat)
    requires Bytes(s) && i + 16 <= |s|
    ensures LE(s[i..]) == Load32(s, i) + 0x100000000 * Load32(s, i + 4) + 0x10000000000000000 * Load32(s, i + 8) + 0x1000000000000000000000000 * Load32(s, i + 12)
                          + 0x100000000000000000000000000000000 * LE(s[i + 16..])
  {
    hide Load32;
    LE4(s, i);
    LE4(s, i + 4);
    LE4(s, i + 8);
    LE4(s, i + 12);
  }

  /** The value of 32 bytes by words. */
  lemma Words(s: seq<int>)
    requires |s| == 32 && Bytes(s)
    ensures LE(s) == Load32(s, 0) + 0x100000000 * Load32(s, 4) + 0x10000000000000000 * Load32(s, 8) + 0x1000000000000000000000000 * Load32(s, 12) + 0x100000000000000000000000000000000 * Load32(s, 16) + 0x10000000000000000000000000000000000000000 * Load32(s, 20) + 0x1000000000000000000000000000000000000000000000000 * Load32(s, 24) + 0x100000000000000000000000000000000000000000000000000000000 * Load32(s, 28)
  {
    assert s[0..] == s && s[32..] == [] && LE([]) == 0;
    hide Load32, LE;
    FourWords(s, 0);
    FourWords(s, 16);
  }

  /** curve25519_expand: the low 255 bits of the 32 bytes. */
  method Expand(input: seq<int>) returns (s: seq<int>)
    requires |input| == 32 && Bytes(input)
    ensures Below(s, 0x4000000, 0x2000000) && Val(s) == LE(input) % TOP
  {
    Words(input);
    hide Load32, Val;
    s := ExpandWords(Load32(input, 0), Load32(input, 4), Load32(input, 8), Load32(input, 12),
                     Load32(input, 16), Load32(input, 20), Load32(input, 24), Load32(input, 28));
    NarrowVal(s);
    DivModUnique(LE(input), TOP, Load32(input, 28) / 0x80000000, Val(s));
  }

  lemma NarrowVal(s: seq<int>)
    requires Below(s, 0x4000000, 0x2000000)
    ensures 0 <= Val(s) < TOP
  {
  }

  // ---- curve25519_contract

  /** `f[i + 1] += f[i] >> 26; f[i] &= reduce_mask_26` */
  method Pass26(f: int, next: int) returns (f': int, next': int)
    requires 0 <= f < 0x1_0000_0000 && 0 <= next < 0x80001000
    ensures f + 0x4000000 * next == f' + 0x4000000 * next' && 0 <= f' < 0x4000000
    ensures next <= next' < next + 0x40 && (f < 0x4000000 ==> next' == next)
  {
    Mask26(f);
    next' := U32(next + f / 0x4000000);
    f' := And(f, 0x3ffffff);
  }

  method Pass25(f: int, next: int) returns (f': int, next': int)
    requires 0 <= f < 0x1_0000_0000 && 0 <= next < 0x80001000
    ensures f + 0x2000000 * next == f' + 0x2000000 * next' && 0 <= f' < 0x2000000
    ensures next <= next' < next + 0x80 && (f < 0x2000000 ==> next' == next)
  {
    Mask25(f);
    next' := U32(next + f / 0x2000000);
    f' := And(f, 0x1ffffff);
  }

  /** carry_pass: everything above the nominal width moves up, up to limb 9. */
  method CarryUp(f: seq<int>) returns (g: seq<int>)
    requires Below(f, 0x80000800, 0x80000800)
    ensures |g| == 10 && Below(g[9 := 0], 0x4000000, 0x2000000) && 0 <= g[9] < 0x80000840 && Val(g) == Val(f)
  {
    var g0, f1 := Pass26(f[0], f[1]);
    var g1, f2 := Pass25(f1, f[2]);
    var g2, f3 := Pass26(f2, f[3]);
    var g3, f4 := Pass25(f3, f[4]);
    var g4, f5 := Pass26(f4, f[5]);
    var g5, f6 := Pass25(f5, f[6]);
    var g6, f7 := Pass26(f6, f[7]);
    var g7, f8 := Pass25(f7, f[8]);
    var g8, f9 := Pass26(f8, f[9]);
    g := [g0, g1, g2, g3, g4, g5, g6, g7, g8, f9];
  }

  /** carry_pass_full: what leaves the top limb comes back times 19. */
  method CarryFull(f: seq<int>) returns (g: seq<int>, c: int)
    requires Below(f, 0x80000800, 0x80000800)
    ensures |g| == 10 && 0 <= c <= 64 && Val(g) == Val(f) - P * c
    ensures Below(g, 0x4000000 + 0x800, 0x2000000) && Below(g[0 := g[0] - 19 * c], 0x4000000, 0x2000000)
    ensures c == Val(f) / TOP
  {
    hide Val, And;
    var h := CarryUp(f);
    Mask25(h[9]);
    c := h[9] / 0x2000000;
    ghost var low := h[9 := h[9] % 0x2000000];
    g := h[9 := And(h[9], 0x1ffffff)][0 := U32(h[0] + 19 * c)];
    FoldValue(h, low, g, c);
    TopCarry(low, c, Val(f));
  }

  lemma FoldValue(h: seq<int>, low: seq<int>, g: seq<int>, c: int)
    requires |h| == 10 && Below(h[9 := 0], 0x4000000, 0x2000000) && 0 <= h[9] && c == h[9] / 0x2000000 && low == h[9 := h[9] % 0x2000000]
    requires g == low[0 := h[0] + 19 * c]
    ensures Below(low, 0x4000000, 0x2000000) && Val(h) == Val(low) + TOP * c && Val(g) == Val(low) + 19 * c
  {
  }

  lemma TopCarry(s: seq<int>, c: int, v: int)
    requires Below(s, 0x4000000, 0x2000000) && v == Val(s) + TOP * c
    ensures c == v / TOP
  {
    NarrowVal(s);
    hide Val;
    DivModUnique(v, TOP, c, Val(s));
  }

  /** After two full passes the number is below 2^255 with limbs of nominal width: if the second pass
      carried out of the top, what is left is tiny. */
  lemma Settled(g: seq<int>, c: int, v: int)
    requires |g| == 10 && Below(g[0 := g[0] - 19 * c], 0x4000000, 0x2000000) && Below(g, 0x4000000 + 0x800, 0x2000000)
    requires 0 <= v < TOP + 0x800 && c == v / TOP && Val(g) == v - P * c
    ensures Below(g, 0x4000000, 0x2000000)
  {
    if c >= 1 {
      DivModUnique(v, TOP, 1, v - TOP);
      assert Val(g) < 0x1000;
    }
  }

  lemma WideVal(f: seq<int>, c: int)
    requires |f| == 10 && Below(f[0 := f[0] - 19 * c], 0x4000000, 0x2000000) && 0 <= c <= 64
    ensures 0 <= Val(f) < TOP + 0x800
  {
    NarrowVal(f[0 := f[0] - 19 * c]);
  }

  /** The first half of curve25519_contract: below 2^255 and nominal limbs. */
  method Settle(f: seq<int>) returns (g: seq<int>)
    requires Below(f, 0x80000000, 0x80000000)
    ensures Below(g, 0x4000000, 0x2000000) && Same(Val(g), Val(f))
  {
    hide Val;
    var h, c := CarryFull(f);
    WideVal(h, c);
    var d;
    g, d := CarryFull(h);
    Settled(g, d, Val(h));
    SameBy(Val(g), Val(f), -c - d);
  }

  lemma OffsetValue(v: int, c: int)
    requires 0 <= v < TOP && c == (v + 19) / TOP
    ensures 0 <= c <= 1 && v + 19 - P * c == v % P + 19
  {
    if v >= P {
      DivModUnique(v, P, 1, v - P);
      DivModUnique(v + 19, TOP, 1, v + 19 - TOP);
    } else {
      DivModUnique(v, P, 0, v);
      DivModUnique(v + 19, TOP, 0, v + 19);
    }
  }

  lemma RaiseFirst(f: seq<int>, g: seq<int>, c: int)
    requires Below(f, 0x4000000, 0x2000000) && |g| == 10 && 0 <= c <= 1 && Below(g[0 := g[0] - 19 * c], 0x4000000, 0x2000000)
    ensures Below(f[0 := f[0] + 19], 0x80000800, 0x80000800) && Val(f[0 := f[0] + 19]) == Val(f) + 19
    ensures Below(g, 0x4000000 + 0x20, 0x2000000)
  {
  }

  /** `f[0] += 19`, a full pass, and the canonical value shifted up by 19 is left. */
  method Offset(f: seq<int>) returns (g: seq<int>)
    requires Below(f, 0x4000000, 0x2000000)
    ensures Below(g, 0x4000000 + 0x20, 0x2000000) && Val(g) == Val(f) % P + 19
  {
    NarrowVal(f);
    RaiseFirst(f, f, 0);
    var x := U32(f[0] + 19);
    assert x == f[0] + 19;
    hide Val, Below;
    var c;
    g, c := CarryFull(f[0 := x]);
    OffsetValue(Val(f), c);
    RaiseFirst(f, g, c);
  }

  /** `f[0] += (1 << 26) - 19; f[1] += (1 << 25) - 1; ...`: the limbs of 2^255 - 19 added. */
  method AddBias(f: seq<int>) returns (a: seq<int>)
    requires Below(f, 0x4000000 + 0x20, 0x2000000)
    ensures Below(a, 0x80000800, 0x80000800) && Val(a) == Val(f) + TOP - 19
  {
    var a0 := AddLimb(f[0], 0x3ffffed);
    var a1 := AddLimb(f[1], 0x1ffffff);
    var a2 := AddLimb(f[2], 0x3ffffff);
    var a3 := AddLimb(f[3], 0x1ffffff);
    var a4 := AddLimb(f[4], 0x3ffffff);
    var a5 := AddLimb(f[5], 0x1ffffff);
    var a6 := AddLimb(f[6], 0x3ffffff);
    var a7 := AddLimb(f[7], 0x1ffffff);
    var a8 := AddLimb(f[8], 0x3ffffff);
    var a9 := AddLimb(f[9], 0x1ffffff);
    a := [a0, a1, a2, a3, a4, a5, a6, a7, a8, a9];
  }

  /** carry_pass_final: the carry into bit 255 is dropped. */
  method CarryFinal(f: seq<int>) returns (g: seq<int>)
    requires Below(f, 0x80000800, 0x80000800)
    ensures Below(g, 0x4000000, 0x2000000) && Val(g) == Val(f) % TOP
  {
    var h := CarryUp(f);
    Mask25(h[9]);
    g := h[9 := And(h[9], 0x1ffffff)];
    TopCarry(g, h[9] / 0x2000000, Val(f));
    NarrowVal(g);
    DivModUnique(Val(f), TOP, h[9] / 0x2000000, Val(g));
  }

  method Canonical(f: seq<int>) returns (g: seq<int>)
    requires Below(f, 0x4000000 + 0x20, 0x2000000) && 19 <= Val(f) < TOP
    ensures Below(g, 0x4000000, 0x2000000) && Val(g) == Val(f) - 19
  {
    assert |f| == 10;
    hide Val, Below;
    var a := AddBias(f);
    DivModUnique(Val(a), TOP, 1, Val(f) - 19);
    g := CarryFinal(a);
  }

  /** `g & 0xff, (g >> 8) & 0xff, (g >> 16) & 0xff, (g >> 24) & 0xff` */
  method SplitBytes(g: int) returns (b0: int, b1: int, b2: int, b3: int)
    requires 0 <= g < 0x1_0000_0000
    ensures b0 == g % 0x100 && 0 <= b1 < 0x100 && 0 <= b2 < 0x100 && b3 == g / 0x1000000
    ensures g == b0 + 0x100 * b1 + 0x10000 * b2 + 0x1000000 * b3
  {
    Pow2Literals();
    hide And, Pow2;
    var eight := 8;
    AndMask(g, eight, 0xff);
    AndMask(g / 0x100, eight, 0xff);
    AndMask(g / 0x10000, eight, 0xff);
    AndMask(g / 0x1000000, eight, 0xff);
    FourBytes(g);
    b0 := And(g, 0xff);
    b1 := And(g / 0x100, 0xff);
    b2 := And(g / 0x10000, 0xff);
    b3 := And(g / 0x1000000, 0xff);
  }

  /** F(i, s): `out[s] |= f & 0xff; out[s+1] = (f >> 8) & 0xff; ...` of a limb shifted up by its bit
      offset, k = 2^offset. */
  method Pack(prior: int, f: int, k: int, cap: int, rest: int, ghost offset: nat) returns (b0: int, b1: int, b2: int, b3: int)
    requires 0 <= prior < k == Pow2(offset) && 0 <= f < cap && 0 < k && k * cap == 0x1000000 * rest && rest <= 0x100
    requires 0x100 % k == 0
    ensures 0 <= b0 < 0x100 && 0 <= b1 < 0x100 && 0 <= b2 < 0x100 && 0 <= b3 < rest
    ensures b0 + 0x100 * b1 + 0x10000 * b2 + 0x1000000 * b3 == prior + k * f
  {
    hide Or;
    ShiftFits(f, cap, k, rest);
    var low;
    low, b1, b2, b3 := SplitBytes(U32(f * k));
    LowByte(f, k);
    OrDisjoint(f % (0x100 / k), prior, offset);
    ByteRoom(f, k, prior);
    b0 := Or(prior, low);
  }

  lemma ShiftFits(f: int, cap: int, k: int, rest: int)
    requires 0 <= f < cap && 0 < k && k * cap == 0x1000000 * rest && rest <= 0x100
    ensures 0 <= f * k < 0x1_0000_0000 && f * k == k * f && 0 <= f * k / 0x1000000 < rest
  {
    MulMono(f + 1, cap, k);
    MulMono(0, f, k);
    assert (f + 1) * k == f * k + k && cap * k == k * cap;
    TopByteBelow(f * k, rest);
  }

  lemma TopByteBelow(g: int, rest: int)
    requires 0 <= g < 0x1000000 * rest
    ensures 0 <= g / 0x1000000 < rest
  {
  }

  lemma LowByte(f: int, k: int)
    requires 0 <= f && 0 < k && 0x100 % k == 0
    ensures 0x100 / k > 0 && (f * k) % 0x100 == (f % (0x100 / k)) * k
  {
    var n := 0x100 / k;
    assert 0x100 == n * k;
    if n <= 0 {
      MulMono(n, 0, k);
    }
    ScaledRemainder(f, 0, n, k, 0x100);
    assert k * (f % n) == (f % n) * k;
  }

  lemma ByteRoom(f: int, k: int, prior: int)
    requires 0 <= f && 0 < k && 0x100 % k == 0 && 0 <= prior < k
    ensures 0x100 / k > 0 && (f % (0x100 / k)) * k + prior < 0x100
  {
    var n := 0x100 / k;
    assert 0x100 == n * k;
    if n <= 0 {
      MulMono(n, 0, k);
    }
    MulMono(f % n + 1, n, k);
  }

  lemma FourBytes(g: nat)
    requires g < 0x1_0000_0000
    ensures g == g % 0x100 + 0x100 * (g / 0x100 % 0x100) + 0x10000 * (g / 0x10000 % 0x100) + 0x1000000 * (g / 0x1000000 % 0x100)
    ensures g / 0x1000000 % 0x100 == g / 0x1000000
  {
    var a, b := g / 0x100, g / 0x10000;
    DivModUnique(g, 0x10000, a / 0x100, a % 0x100 * 0x100 + g % 0x100);
    DivModUnique(g, 0x1000000, b / 0x100, b % 0x100 * 0x10000 + g % 0x10000);
  }

  lemma Bytes16(b: seq<int>)
    requires |b| == 16 && Bytes(b)
    ensures LE(b) == Load32(b, 0) + 0x100000000 * Load32(b, 4) + 0x10000000000000000 * Load32(b, 8) + 0x1000000000000000000000000 * Load32(b, 12)
  {
    hide Load32;
    LE4(b, 0);
    LE4(b, 4);
    LE4(b, 8);
    LE4(b, 12);
    assert b[0..] == b && b[16..] == [];
  }

  lemma Offsets()
    ensures Pow2(0) == 1 && Pow2(1) == 2 && Pow2(2) == 4 && Pow2(3) == 8 && Pow2(4) == 0x10 && Pow2(5) == 0x20 && Pow2(6) == 0x40
  {
  }

  /** F(0, 0) to F(4, 12): limbs 0 to 4 fill the bytes 0 to 15. */
  method PackLow(f: seq<int>) returns (b: seq<int>)
    requires Below(f, 0x4000000, 0x2000000)
    ensures |b| == 16 && Bytes(b) && LE(b) == f[0] + 0x4000000 * f[1] + 0x8000000000000 * f[2] + 0x20000000000000000000 * f[3] + 0x40000000000000000000000000 * f[4]
  {
    hide Pow2, Val;
    Offsets();
    var b0, b1, b2, b3_ := Pack(0, f[0], 0x1, 0x4000000, 0x4, 0);
    var b3, b4, b5, b6_ := Pack(b3_, f[1], 0x4, 0x2000000, 0x8, 2);
    var b6, b7, b8, b9_ := Pack(b6_, f[2], 0x8, 0x4000000, 0x20, 3);
    var b9, b10, b11, b12_ := Pack(b9_, f[3], 0x20, 0x2000000, 0x40, 5);
    var b12, b13, b14, b15 := Pack(b12_, f[4], 0x40, 0x4000000, 0x100, 6);
    b := [b0, b1, b2, b3, b4, b5, b6, b7, b8, b9, b10, b11, b12, b13, b14, b15];
    Bytes16(b);
  }

  /** F(5, 16) to F(9, 28): limbs 5 to 9 fill the bytes 16 to 31. */
  method PackHigh(f: seq<int>) returns (b: seq<int>)
    requires Below(f, 0x4000000, 0x2000000)
    ensures |b| == 16 && Bytes(b) && LE(b) == f[5] + 0x2000000 * f[6] + 0x8000000000000 * f[7] + 0x10000000000000000000 * f[8] + 0x40000000000000000000000000 * f[9]
  {
    hide Pow2, Val;
    Offsets();
    var b16, b17, b18, b19_ := Pack(0, f[5], 0x1, 0x2000000, 0x2, 0);
    var b19, b20, b21, b22_ := Pack(b19_, f[6], 0x2, 0x4000000, 0x8, 1);
    var b22, b23, b24, b25_ := Pack(b22_, f[7], 0x8, 0x2000000, 0x10, 3);
    var b25, b26, b27, b28_ := Pack(b25_, f[8], 0x10, 0x4000000, 0x40, 4);
    var b28, b29, b30, b31 := Pack(b28_, f[9], 0x40, 0x2000000, 0x80, 6);
    b := [b16, b17, b18, b19, b20, b21, b22, b23, b24, b25, b26, b27, b28, b29, b30, b31];
    Bytes16(b);
  }

  method PackLimbs(f: seq<int>) returns (b: seq<int>)
    requires Below(f, 0x4000000, 0x2000000)
    ensures |b| == 32 && Bytes(b) && LE(b) == Val(f)
  {
    var low := PackLow(f);
    var high := PackHigh(f);
    Pow128();
    LEConcat(low, high);
    b := low + high;
  }

  lemma Pow128()
    ensures Pow2(8 * 16) == 0x100000000000000000000000000000000
  {
    var k := 16;
    Pow2Literals();
    hide Pow2;
    Pow2Add(32, 32);
    Pow2Add(64, 64);
  }

  /** curve25519_contract: the one canonical encoding, for any limbs below 2^31. */
  method Contract(f: seq<int>) returns (b: seq<int>)
    requires Below(f, 0x80000000, 0x80000000)
    ensures |b| == 32 && Bytes(b) && LE(b) == Val(f) % P
  {
    var g := Settle(f);
    NarrowVal(g);
    SameIff(Val(g), Val(f));
    var h := Offset(g);
    h := Canonical(h);
    hide Val;
    b := PackLimbs(h);
  }

  /** Contraction after expansion: the low 255 bits reduced modulo p. */
  method ExpandContract(input: seq<int>) returns (b: seq<int>)
    requires |input| == 32 && Bytes(input)
    ensures |b| == 32 && Bytes(b) && LE(b) == LE(input) % TOP % P
    ensures LE(input) < P ==> b == input
  {
    var s := Expand(input);
    hide Val;
    b := Contract(s);
    LEBound(input);
    if LE(input) < P {
      DivModUnique(LE(input), TOP, 0, LE(input));
      DivModUnique(LE(input), P, 0, LE(input));
      LEInjective(b, input);
    }
  }

  lemma {:induction false} LEInjective(s: seq<int>, t: seq<int>)
    requires Bytes(s) && Bytes(t) && |s| == |t| && LE(s) == LE(t)
    ensures s == t
  {
    if s != [] {
      LEInjective(s[1..], t[1..]);
      assert s == [s[0]] + s[1..] && t == [t[0]] + t[1..];
    }
  }
}
