/** The stream cipher of Chacha20/chacha20_simple.c: block function, 128-bit counter and buffered
    keystream.  Any sequence of calls XORs the concatenated input with one keystream. */
module ChaCha20 {
  import opened Bits

  predicate Words(s: seq<int>) {
    forall i :: 0 <= i < |s| ==> 0 <= s[i] < 0x1_0000_0000
  }

  lemma XorWord(a: nat, b: nat)
    requires a < 0x1_0000_0000 && b < 0x1_0000_0000
    ensures Xor(a, b) < 0x1_0000_0000
  {
    var k := 32;
    Pow2Literals();
    XorBelow(a, b, k);
  }

  lemma XorByte(a: nat, b: nat)
    requires a < 0x100 && b < 0x100
    ensures Xor(a, b) < 0x100
  {
    var k := 8;
    Pow2Literals();
    XorBelow(a, b, k);
  }

  /** ROTL32: the low 32 - n bits move up by n places, and the high n bits come in below them. */
  function Rotl(v: nat, n: nat): (r: nat)
    requires v < 0x1_0000_0000 && 1 <= n < 32
    ensures r == (v % Pow2(32 - n)) * Pow2(n) + v / Pow2(32 - n) < 0x1_0000_0000
  {
    hide Or, Pow2;
    RotlParts(v, n, Pow2(n), Pow2(32 - n));
    Or(U32(v * Pow2(n)), v / Pow2(32 - n))
  }

  /** The two parts of a rotation do not overlap: it is the low part moved up plus the high part. */
  lemma RotlParts(v: nat, n: nat, p: nat, q: nat)
    requires v < 0x1_0000_0000 && 1 <= n < 32 && p == Pow2(n) && q == Pow2(32 - n)
    ensures v * p >= 0 && v / q >= 0 && Or(U32(v * p), v / q) == (v % q) * p + v / q < 0x1_0000_0000
  {
    PowSplit(n, 32);
    hide Pow2, Or;
    var h, l := v / q, v % q;
    QuotientBelow(v, p, q);
    ShiftUp(v, h, l, p, q);
    OrParts(l, h, n, p);
  }

  lemma OrParts(l: nat, h: nat, n: nat, p: nat)
    requires p == Pow2(n) && h < p
    ensures Or(l * p, h) == l * p + h
  {
    OrDisjoint(l, h, n);
  }

  lemma PowSplit(n: nat, k: nat)
    requires n <= k == 32
    ensures Pow2(n) * Pow2(32 - n) == 0x1_0000_0000
  {
    Pow2Literals();
    Pow2Add(n, k - n);
  }

  lemma ShiftUp(v: int, h: int, l: int, p: int, q: int)
    requires p > 0 && q > 0 && p * q == 0x1_0000_0000 && v == h * q + l && 0 <= l < q && 0 <= h < p
    ensures U32(v * p) == l * p && 0 <= l * p && l * p + h < 0x1_0000_0000 && v * p >= 0
  {
    assert v * p == h * (p * q) + l * p;
    MulMono(l + 1, q, p);
    MulMono(0, l, p);
    DivModUnique(v * p, 0x1_0000_0000, h, l * p);
  }

  lemma QuotientBelow(v: int, p: int, q: int)
    requires 0 <= v < 0x1_0000_0000 && p > 0 && q > 0 && p * q == 0x1_0000_0000
    ensures 0 <= v / q < p
  {
    if v / q >= p {
      MulMono(p, v / q, q);
    }
  }

  /** The quarter round of section 2.1 of RFC 8439. */
  function Quarter(a: nat, b: nat, c: nat, d: nat): (r: (nat, nat, nat, nat))
    requires a < 0x1_0000_0000 && b < 0x1_0000_0000 && c < 0x1_0000_0000 && d < 0x1_0000_0000
    ensures r.0 < 0x1_0000_0000 && r.1 < 0x1_0000_0000 && r.2 < 0x1_0000_0000 && r.3 < 0x1_0000_0000
  {
    var (a1, d1) := Half(a, b, d, 16);
    var (c1, b1) := Half(c, d1, b, 12);
    var (a2, d2) := Half(a1, b1, d1, 8);
    var (c2, b2) := Half(c1, d2, b1, 7);
    (a2, b2, c2, d2)
  }

  /** `x += y; z = ROTL32(z ^ x, n)` */
  function Half(x: nat, y: nat, z: nat, n: nat): (r: (nat, nat))
    requires x < 0x1_0000_0000 && y < 0x1_0000_0000 && z < 0x1_0000_0000 && 1 <= n < 32
    ensures r.0 < 0x1_0000_0000 && r.1 < 0x1_0000_0000
  {
    XorWord(z, U32(x + y));
    (U32(x + y), Rotl(Xor(z, U32(x + y)), n))
  }

  lemma RotlBy(v: nat, n: nat, p: nat, q: nat, h: nat, l: nat)
    requires v < 0x1_0000_0000 && 1 <= n < 32 && p == Pow2(n) && q == Pow2(32 - n) && v == h * q + l && l < q
    ensures Rotl(v, n) == l * p + h < 0x1_0000_0000
  {
    hide *;
    DivModUnique(v, q, h, l);
  }

  /** Rotating by n and by 32 - n. */
  lemma RotlBack(v: nat, n: nat)
    requires v < 0x1_0000_0000 && 1 <= n < 32
    ensures Rotl(Rotl(v, n), 32 - n) == v
  {
    var p, q := Pow2(n), Pow2(32 - n);
    PowSplit(n, 32);
    hide Pow2, Rotl;
    var h, l := v / q, v % q;
    QuotientBelow(v, p, q);
    var m := 32 - n;
    assert 32 - m == n && v == h * q + l;
    RotlBy(v, n, p, q, h, l);
    RotlBy(l * p + h, m, q, p, l, h);
  }

  /** What a half step did, undone. */
  function HalfBack(s: nat, y: nat, r: nat, n: nat): (nat, nat)
    requires s < 0x1_0000_0000 && r < 0x1_0000_0000 && 1 <= n < 32
  {
    (U32(s - y), Xor(Rotl(r, 32 - n), s))
  }

  lemma HalfUndone(x: nat, y: nat, z: nat, n: nat)
    requires x < 0x1_0000_0000 && y < 0x1_0000_0000 && z < 0x1_0000_0000 && 1 <= n < 32
    ensures var h := Half(x, y, z, n); HalfBack(h.0, y, h.1, n) == (x, z)
  {
    var s := U32(x + y);
    XorWord(z, s);
    XorSwap(z, s);
    hide Rotl, Xor;
    RotlBack(Xor(z, s), n);
    SumUndone(x, y);
  }

  lemma SumUndone(x: nat, y: nat)
    requires x < 0x1_0000_0000 && y < 0x1_0000_0000
    ensures U32(U32(x + y) - y) == x
  {
  }

  /** The quarter round backwards. */
  function QuarterBack(q: (nat, nat, nat, nat)): (nat, nat, nat, nat)
    requires q.0 < 0x1_0000_0000 && q.1 < 0x1_0000_0000 && q.2 < 0x1_0000_0000 && q.3 < 0x1_0000_0000
  {
    hide Xor, Rotl;
    var (c1, b1) := HalfBack(q.2, q.3, q.1, 7);
    BackBelow(q.2, q.3, q.1, 7);
    var (a1, d1) := HalfBack(q.0, b1, q.3, 8);
    BackBelow(q.0, b1, q.3, 8);
    var (c, b) := HalfBack(c1, d1, b1, 12);
    BackBelow(c1, d1, b1, 12);
    var (a, d) := HalfBack(a1, b, d1, 16);
    (a, b, c, d)
  }

  lemma BackBelow(s: nat, y: nat, r: nat, n: nat)
    requires s < 0x1_0000_0000 && r < 0x1_0000_0000 && 1 <= n < 32
    ensures HalfBack(s, y, r, n).0 < 0x1_0000_0000 && HalfBack(s, y, r, n).1 < 0x1_0000_0000
  {
    XorWord(Rotl(r, 32 - n), s);
    hide Xor, Rotl;
  }

  /** It undoes the quarter round, */
  lemma QuarterUndone(a: nat, b: nat, c: nat, d: nat)
    requires a < 0x1_0000_0000 && b < 0x1_0000_0000 && c < 0x1_0000_0000 && d < 0x1_0000_0000
    ensures QuarterBack(Quarter(a, b, c, d)) == (a, b, c, d)
  {
    hide Half, HalfBack;
    var (a1, d1) := Half(a, b, d, 16);
    var (c1, b1) := Half(c, d1, b, 12);
    var (a2, d2) := Half(a1, b1, d1, 8);
    HalfUndone(a, b, d, 16);
    HalfUndone(c, d1, b, 12);
    HalfUndone(a1, b1, d1, 8);
    HalfUndone(c1, d2, b1, 7);
  }

  /** ... which therefore loses nothing. */
  lemma QuarterInvertible(a: nat, b: nat, c: nat, d: nat, a': nat, b': nat, c': nat, d': nat)
    requires a < 0x1_0000_0000 && b < 0x1_0000_0000 && c < 0x1_0000_0000 && d < 0x1_0000_0000
    requires a' < 0x1_0000_0000 && b' < 0x1_0000_0000 && c' < 0x1_0000_0000 && d' < 0x1_0000_0000
    requires Quarter(a, b, c, d) == Quarter(a', b', c', d')
    ensures a == a' && b == b' && c == c' && d == d'
  {
    hide Half, HalfBack;
    QuarterUndone(a, b, c, d);
    QuarterUndone(a', b', c', d');
  }

  function QuarterAt(s: seq<int>, a: nat, b: nat, c: nat, d: nat): (r: seq<int>)
    requires |s| == 16 && Words(s) && a < 16 && b < 16 && c < 16 && d < 16
    ensures |r| == 16 && Words(r)
  {
    hide Quarter;
    var q := Quarter(s[a], s[b], s[c], s[d]);
    s[a := q.0][b := q.1][c := q.2][d := q.3]
  }

  /** A column round and a diagonal round. */
  function DoubleRound(s: seq<int>): (r: seq<int>)
    requires |s| == 16 && Words(s)
    ensures |r| == 16 && Words(r)
  {
    hide QuarterAt;
    var c0 := QuarterAt(s, 0, 4, 8, 12);
    var c1 := QuarterAt(c0, 1, 5, 9, 13);
    var c2 := QuarterAt(c1, 2, 6, 10, 14);
    var c3 := QuarterAt(c2, 3, 7, 11, 15);
    var d0 := QuarterAt(c3, 0, 5, 10, 15);
    var d1 := QuarterAt(d0, 1, 6, 11, 12);
    var d2 := QuarterAt(d1, 2, 7, 8, 13);
    QuarterAt(d2, 3, 4, 9, 14)
  }

  function Rounds(s: seq<int>, n: nat): (r: seq<int>)
    requires |s| == 16 && Words(s)
    ensures |r| == 16 && Words(r)
  {
    hide DoubleRound;
    if n == 0 then s else DoubleRound(Rounds(s, n - 1))
  }

  /** The words i, ..., 15 of the sum, serialised. */
  function Serialised(x: seq<int>, s: seq<int>, i: nat): (b: seq<int>)
    requires |x| == |s| == 16 && i <= 16
    ensures |b| == 64 - 4 * i && Bytes(b)
    decreases 16 - i
  {
    hide Store32;
    if i == 16 then [] else Store32(U32(x[i] + s[i])) + Serialised(x, s, i + 1)
  }

  /** The block function of section 2.3 of RFC 8439. */
  function BlockOf(s: seq<int>): (b: seq<int>)
    requires |s| == 16 && Words(s)
    ensures |b| == 64 && Bytes(b)
  {
    Serialised(Rounds(s, 10), s, 0)
  }

  /** `x += y; z = ROTL32(z ^ x, n)` on words. */
  method HalfStep(x: nat, y: nat, z: nat, n: nat) returns (x': nat, z': nat)
    requires x < 0x1_0000_0000 && y < 0x1_0000_0000 && z < 0x1_0000_0000 && 1 <= n < 32
    ensures (x', z') == Half(x, y, z, n)
  {
    hide Rotl, Xor;
    x' := U32(x + y);
    XorWord(z, x');
    z' := Rotl(Xor(z, x'), n);
  }

  method QuarterWords(a: nat, b: nat, c: nat, d: nat) returns (a': nat, b': nat, c': nat, d': nat)
    requires a < 0x1_0000_0000 && b < 0x1_0000_0000 && c < 0x1_0000_0000 && d < 0x1_0000_0000
    ensures (a', b', c', d') == Quarter(a, b, c, d)
  {
    hide Half;
    a', d' := HalfStep(a, b, d, 16);
    c', b' := HalfStep(c, d', b, 12);
    a', d' := HalfStep(a', b', d', 8);
    c', b' := HalfStep(c', d', b', 7);
  }

  /** QUARTERROUND on the output array. */
  method QuarterRound(x: array<int>, a: nat, b: nat, c: nat, d: nat)
    requires x.Length == 16 && Words(x[..]) && a < 16 && b < 16 && c < 16 && d < 16
    requires a != b && a != c && a != d && b != c && b != d && c != d
    modifies x
    ensures Words(x[..]) && x[..] == QuarterAt(old(x[..]), a, b, c, d)
  {
    hide Quarter;
    ghost var s := x[..];
    assert s[a] == x[a] && s[b] == x[b] && s[c] == x[c] && s[d] == x[d];
    x[a], x[b], x[c], x[d] := QuarterWords(x[a], x[b], x[c], x[d]);
    assert x[..] == QuarterAt(s, a, b, c, d);
  }

  // ---- the counter

  /** The words 12 to 15 hold a 128-bit number. */
  const CYCLE: int := 0x1_0000_0000_0000_0000_0000_0000_0000_0000

  function Counter(s: seq<int>): int
    requires |s| == 16
  {
    s[12] + 0x1_0000_0000 * s[13] + 0x1_0000_0000_0000_0000 * s[14] + 0x1_0000_0000_0000_0000_0000_0000 * s[15]
  }

  /** The schedule with the first twelve words of `s` and the counter c. */
  function WithCounter(s: seq<int>, c: int): (t: seq<int>)
    requires |s| == 16 && Words(s) && 0 <= c < CYCLE
    ensures |t| == 16 && Words(t) && Counter(t) == c && t[..12] == s[..12]
  {
    var a, b, d := c / 0x1_0000_0000, c / 0x1_0000_0000_0000_0000, c / 0x1_0000_0000_0000_0000_0000_0000;
    CounterDigits(c);
    s[..12] + [c % 0x1_0000_0000, a % 0x1_0000_0000, b % 0x1_0000_0000, d % 0x1_0000_0000]
  }

  lemma CounterDigits(c: int)
    requires 0 <= c < CYCLE
    ensures c == c % 0x1_0000_0000 + 0x1_0000_0000 * (c / 0x1_0000_0000 % 0x1_0000_0000)
      + 0x1_0000_0000_0000_0000 * (c / 0x1_0000_0000_0000_0000 % 0x1_0000_0000)
      + 0x1_0000_0000_0000_0000_0000_0000 * (c / 0x1_0000_0000_0000_0000_0000_0000 % 0x1_0000_0000)
  {
    var m := 0x1_0000_0000;
    var a := c / m;
    var b := a / m;
    var d := b / m;
    assert c == m * a + c % m && a == m * b + a % m && b == m * d + b % m;
    DivModUnique(c, 0x1_0000_0000_0000_0000, b, m * (a % m) + c % m);
    DivModUnique(c, 0x1_0000_0000_0000_0000_0000_0000, d, 0x1_0000_0000_0000_0000 * (b % m) + m * (a % m) + c % m);
  }

  lemma TwoDigits(a: int, x: int, e: int, y: int)
    requires 0 <= a < 0x1_0000_0000 && 0 <= e < 0x1_0000_0000 && a + 0x1_0000_0000 * x == e + 0x1_0000_0000 * y
    ensures a == e && x == y
  {
  }

  /** A schedule is determined by its first twelve words and its counter. */
  lemma SameSchedule(s: seq<int>, t: seq<int>)
    requires |s| == |t| == 16 && Words(s) && Words(t) && s[..12] == t[..12] && Counter(s) == Counter(t)
    ensures s == t
  {
    CounterRange(s);
    CounterRange(t);
    var m := 0x1_0000_0000;
    TwoDigits(s[12], s[13] + m * (s[14] + m * s[15]), t[12], t[13] + m * (t[14] + m * t[15]));
    TwoDigits(s[13], s[14] + m * s[15], t[13], t[14] + m * t[15]);
    TwoDigits(s[14], s[15], t[14], t[15]);
    assert s == s[..12] + [s[12], s[13], s[14], s[15]];
    assert t == t[..12] + [t[12], t[13], t[14], t[15]];
  }

  /** `if (!++nonce[0] && !++nonce[1] && !++nonce[2]) { ++nonce[3]; }` */
  method Increment(s: seq<int>) returns (t: seq<int>)
    requires |s| == 16 && Words(s)
    ensures |t| == 16 && Words(t) && t[..12] == s[..12] && Counter(t) == (Counter(s) + 1) % CYCLE
  {
    CounterRange(s);
    var a, b, c, d := s[12], s[13], s[14], s[15];
    a := U32(a + 1);
    if a == 0 {
      b := U32(b + 1);
      if b == 0 {
        c := U32(c + 1);
        if c == 0 {
          d := U32(d + 1);
        }
      }
    }
    t := s[12 := a][13 := b][14 := c][15 := d];
    NextCounter(s[12], s[13], s[14], s[15], a, b, c, d);
  }

  lemma NextCounter(s0: int, s1: int, s2: int, s3: int, a: int, b: int, c: int, d: int)
    requires 0 <= s0 < 0x1_0000_0000 && 0 <= s1 < 0x1_0000_0000 && 0 <= s2 < 0x1_0000_0000 && 0 <= s3 < 0x1_0000_0000
    requires a == U32(s0 + 1) && b == (if a == 0 then U32(s1 + 1) else s1)
    requires c == (if a == 0 && b == 0 then U32(s2 + 1) else s2)
    requires d == if a == 0 && b == 0 && c == 0 then U32(s3 + 1) else s3
    ensures a + 0x1_0000_0000 * b + 0x1_0000_0000_0000_0000 * c + 0x1_0000_0000_0000_0000_0000_0000 * d
      == (s0 + 0x1_0000_0000 * s1 + 0x1_0000_0000_0000_0000 * s2 + 0x1_0000_0000_0000_0000_0000_0000 * s3 + 1) % CYCLE
  {
    var u := s0 + 0x1_0000_0000 * s1 + 0x1_0000_0000_0000_0000 * s2 + 0x1_0000_0000_0000_0000_0000_0000 * s3;
    var v := a + 0x1_0000_0000 * b + 0x1_0000_0000_0000_0000 * c + 0x1_0000_0000_0000_0000_0000_0000 * d;
    assert v == if u + 1 == CYCLE then 0 else u + 1;
  }

  lemma CounterRange(s: seq<int>)
    requires |s| == 16 && Words(s)
    ensures 0 <= Counter(s) < CYCLE
    ensures 0 <= s[12] < 0x1_0000_0000 && 0 <= s[13] < 0x1_0000_0000 && 0 <= s[14] < 0x1_0000_0000 && 0 <= s[15] < 0x1_0000_0000
  {
    assert 0 <= s[12] < 0x1_0000_0000 && 0 <= s[13] < 0x1_0000_0000 && 0 <= s[14] < 0x1_0000_0000 && 0 <= s[15] < 0x1_0000_0000;
  }

  // ---- the keystream

  /** Byte n of the keystream that starts with the schedule `s`. */
  function Stream(s: seq<int>, n: nat): (b: int)
    requires |s| == 16 && Words(s)
    ensures 0 <= b < 0x100
  {
    BlockOf(WithCounter(s, (Counter(s) + n / 64) % CYCLE))[n % 64]
  }

  /** A byte XORed with byte n of the keystream. */
  function Masked(b: int, s: seq<int>, n: nat): (c: int)
    requires 0 <= b < 0x100 && |s| == 16 && Words(s)
    ensures 0 <= c < 0x100
  {
    hide Stream, Xor;
    XorByte(b, Stream(s, n));
    Xor(b, Stream(s, n))
  }

  /** XOR with the keystream from position n on. */
  function Xored(s: seq<int>, n: nat, m: seq<int>): (c: seq<int>)
    requires |s| == 16 && Words(s) && Bytes(m)
    ensures |c| == |m| && Bytes(c)
  {
    hide Masked;
    seq(|m|, i requires 0 <= i < |m| => Masked(m[i], s, n + i))
  }

  /** Pieces of the input may be processed one after the other. */
  lemma XoredConcat(s: seq<int>, n: nat, a: seq<int>, b: seq<int>)
    requires |s| == 16 && Words(s) && Bytes(a) && Bytes(b)
    ensures Bytes(a + b) && Xored(s, n, a + b) == Xored(s, n, a) + Xored(s, n + |a|, b)
  {
    hide Masked;
    var c, d := Xored(s, n, a), Xored(s, n + |a|, b);
    forall i | 0 <= i < |a + b| ensures Xored(s, n, a + b)[i] == (c + d)[i] {
      if i >= |a| {
        assert n + |a| + (i - |a|) == n + i && d[i - |a|] == Masked(b[i - |a|], s, n + |a| + (i - |a|));
      }
    }
  }

  /** Encrypting twice from the same position gives the input back. */
  lemma XoredTwice(s: seq<int>, n: nat, m: seq<int>)
    requires |s| == 16 && Words(s) && Bytes(m)
    ensures Xored(s, n, Xored(s, n, m)) == m
  {
    hide Masked;
    var c := Xored(s, n, m);
    forall i | 0 <= i < |m| ensures Xored(s, n, c)[i] == m[i] {
      MaskedTwice(m[i], s, n + i);
    }
  }

  lemma MaskedTwice(b: int, s: seq<int>, n: nat)
    requires 0 <= b < 0x100 && |s| == 16 && Words(s)
    ensures Masked(Masked(b, s, n), s, n) == b
  {
    hide Stream, Xor;
    XorSwap(b, Stream(s, n));
  }

  lemma XorSwap(a: nat, b: nat)
    ensures Xor(Xor(a, b), b) == a
  {
    XorCommutes(a, b);
    XorCancel(b, a);
    XorCommutes(b, Xor(a, b));
    assert Xor(Xor(a, b), b) == Xor(b, Xor(b, a));
  }

  // ---- the stream object

  /** "expand 32-byte k" and "expand 16-byte k" as words */
  const SIGMA: seq<int> := [0x61707865, 0x3320646e, 0x79622d32, 0x6b206574]
  const TAU: seq<int> := [0x61707865, 0x3120646e, 0x79622d36, 0x6b206574]

  /** Four characters of a text as a little-endian word. */
  function Letters(s: string, k: nat): int
    requires k + 4 <= |s|
  {
    s[k] as int + 0x100 * s[k + 1] as int + 0x10000 * s[k + 2] as int + 0x1000000 * s[k + 3] as int
  }

  lemma ConstantTexts(i: nat)
    requires i < 4
    ensures SIGMA[i] == Letters("expand 32-byte k", 4 * i) && TAU[i] == Letters("expand 16-byte k", 4 * i)
  {
    if i == 0 {
    } else if i == 1 {
    } else if i == 2 {
    } else {
    }
  }

  function KeyWords(key: seq<int>): (s: seq<int>)
    requires Bytes(key) && (|key| == 16 || |key| == 32)
    ensures |s| == 8 && Words(s)
  {
    hide Load32;
    [Load32(key, 0), Load32(key, 4), Load32(key, 8), Load32(key, 12),
     Load32(key, 16 % |key|), Load32(key, 20 % |key|), Load32(key, 24 % |key|), Load32(key, 28 % |key|)]
  }

  /** The schedule of chacha20_setup; a 16-byte key is used twice. */
  function Schedule(key: seq<int>, nonce: seq<int>): (s: seq<int>)
    requires Bytes(key) && (|key| == 16 || |key| == 32) && Bytes(nonce) && |nonce| == 8
    ensures |s| == 16 && Words(s)
  {
    hide Load32, KeyWords;
    var c := if |key| == 32 then SIGMA else TAU;
    assert Words(c);
    c + KeyWords(key) + [0, 0, Load32(nonce, 0), Load32(nonce, 4)]
  }

  /** The state of section 2.3 of RFC 8439: constants, key, 32-bit counter, 96-bit nonce. */
  function Rfc8439State(key: seq<int>, counter: int, nonce: seq<int>): (s: seq<int>)
    requires Bytes(key) && |key| == 32 && Bytes(nonce) && |nonce| == 12 && 0 <= counter < 0x1_0000_0000
    ensures |s| == 16
  {
    SIGMA
    + [Load32(key, 0), Load32(key, 4), Load32(key, 8), Load32(key, 12), Load32(key, 16), Load32(key, 20), Load32(key, 24), Load32(key, 28)]
    + [counter, Load32(nonce, 0), Load32(nonce, 4), Load32(nonce, 8)]
  }

  lemma ExtendedNonce(nonce: seq<int>)
    requires Bytes(nonce) && |nonce| == 8
    ensures Bytes([0, 0, 0, 0] + nonce)
    ensures var n := [0, 0, 0, 0] + nonce;
      Load32(n, 0) == 0 && Load32(n, 4) == Load32(nonce, 0) && Load32(n, 8) == Load32(nonce, 4)
  {
    hide Load32;
    var n := [0, 0, 0, 0] + nonce;
    assert forall j :: 0 <= j < 8 ==> n[4 + j] == nonce[j];
    assert n[0] == 0 && n[1] == 0 && n[2] == 0 && n[3] == 0;
  }

  /** The two states agree except in the counter words, where the schedule still has 0. */
  lemma ScheduleParts(key: seq<int>, nonce: seq<int>, i: nat)
    requires Bytes(key) && |key| == 32 && Bytes(nonce) && |nonce| == 8 && i < 0x1_0000_0000
    ensures Bytes([0, 0, 0, 0] + nonce)
    ensures var s, t := Schedule(key, nonce), Rfc8439State(key, i, [0, 0, 0, 0] + nonce);
      s[..12] == t[..12] && s[14..] == t[14..] && s[12] == s[13] == 0 && t[12] == i && t[13] == 0
  {
    hide Load32;
    ExtendedNonce(nonce);
  }

  /** Below 2^32 blocks the cipher is that of RFC 8439 with the nonce extended by four zero bytes. */
  lemma SameAsRfc8439(key: seq<int>, nonce: seq<int>, i: nat)
    requires Bytes(key) && |key| == 32 && Bytes(nonce) && |nonce| == 8 && i < 0x1_0000_0000
    ensures Bytes([0, 0, 0, 0] + nonce)
    ensures var s := Schedule(key, nonce);
      WithCounter(s, (Counter(s) + i) % CYCLE) == Rfc8439State(key, i, [0, 0, 0, 0] + nonce)
  {
    hide Schedule, Rfc8439State, WithCounter;
    ScheduleParts(key, nonce, i);
    var s, t := Schedule(key, nonce), Rfc8439State(key, i, [0, 0, 0, 0] + nonce);
    assert t[14] == t[14..][0] == s[14..][0] == s[14] && t[15] == t[14..][1] == s[14..][1] == s[15];
    CounterRange(s);
    assert Counter(s) + i == Counter(t) < CYCLE;
    SameSchedule(t, WithCounter(s, Counter(s) + i));
  }

  /** Byte n of the stream is byte n mod 64 of block n / 64. */
  lemma StreamIs(key: seq<int>, nonce: seq<int>, n: nat)
    requires Bytes(key) && |key| == 32 && Bytes(nonce) && |nonce| == 8 && n / 64 < 0x1_0000_0000
    ensures Bytes([0, 0, 0, 0] + nonce) && Words(Rfc8439State(key, n / 64, [0, 0, 0, 0] + nonce))
    ensures Stream(Schedule(key, nonce), n) == BlockOf(Rfc8439State(key, n / 64, [0, 0, 0, 0] + nonce))[n % 64]
  {
    hide Schedule, BlockOf, WithCounter, Rfc8439State, Counter;
    SameAsRfc8439(key, nonce, n / 64);
  }

  lemma XoredAt(s: seq<int>, n: nat, m: seq<int>, i: nat)
    requires |s| == 16 && Words(s) && Bytes(m) && i < |m|
    ensures Xored(s, n, m)[i] == Xor(m[i], Stream(s, n + i))
  {
    hide Stream, Xor;
  }

  /** Consecutive bytes of the stream. */
  ghost predicate StreamSlice(k: seq<int>, s: seq<int>, n: nat)
    requires |s| == 16 && Words(s)
  {
    forall i :: 0 <= i < |k| ==> k[i] == Stream(s, n + i)
  }

  lemma RoundsStep(s: seq<int>, n: nat)
    requires |s| == 16 && Words(s)
    ensures Rounds(s, 0) == s && Rounds(s, n + 1) == DoubleRound(Rounds(s, n))
  {
  }

  class Context {
    var schedule: seq<int>
    var keystream: seq<int>
    var available: int
    ghost var start: seq<int>  // the schedule the stream started with
    ghost var position: nat    // bytes processed since

    /** The schedule counts the blocks begun; the last one's unused bytes are in the keystream buffer. */
    ghost predicate Valid()
      reads this
    {
      && |schedule| == |start| == 16 && Words(schedule) && Words(start) && |keystream| == 64 && Bytes(keystream)
      && schedule[..12] == start[..12]
      && 0 <= available < 64 && (position + available) % 64 == 0
      && Counter(schedule) == (Counter(start) + (position + available) / 64) % CYCLE
      && (available > 0 ==>
            keystream == BlockOf(WithCounter(start, (Counter(start) + (position + available) / 64 - 1) % CYCLE)))
    }

    /** chacha20_setup */
    constructor (key: seq<int>, nonce: seq<int>)
      requires Bytes(key) && (|key| == 16 || |key| == 32) && Bytes(nonce) && |nonce| == 8
      ensures Valid() && start == Schedule(key, nonce) && position == 0
    {
      hide Schedule, BlockOf, WithCounter, Words, Counter;
      schedule, start, position, available := Schedule(key, nonce), Schedule(key, nonce), 0, 0;
      keystream := seq(64, _ => 0);
      new;
      CounterRange(schedule);
    }

    /** chacha20_counter_set: words 12 and 13, and the buffer is dropped. */
    method CounterSet(counter: int)
      requires |schedule| == 16 && Words(schedule) && |keystream| == 64 && Bytes(keystream)
      requires 0 <= counter < 0x1_0000_0000_0000_0000
      modifies this
      ensures Valid() && position == 0
      ensures start[..12] == old(schedule[..12]) && Counter(start) == counter + old(Counter(schedule)) / 0x1_0000_0000_0000_0000 * 0x1_0000_0000_0000_0000
    {
      ghost var before := schedule;
      CounterRange(schedule);
      schedule := schedule[12 := counter % 0x1_0000_0000][13 := counter / 0x1_0000_0000];
      available := 0;
      start, position := schedule, 0;
      CounterRange(schedule);
      CounterParts(before, schedule, counter);
    }

    static lemma CounterParts(s: seq<int>, t: seq<int>, counter: int)
      requires |s| == |t| == 16 && Words(s) && t[14] == s[14] && t[15] == s[15] && counter == t[12] + 0x1_0000_0000 * t[13]
      ensures Counter(t) == counter + Counter(s) / 0x1_0000_0000_0000_0000 * 0x1_0000_0000_0000_0000
    {
      CounterRange(s);
      var low, high := s[12] + 0x1_0000_0000 * s[13], s[14] + 0x1_0000_0000 * s[15];
      DivModUnique(Counter(s), 0x1_0000_0000_0000_0000, high, low);
    }

    /** chacha20_block: the block of the current counter; the counter moves on. */
    method Block() returns (output: seq<int>)
      requires |schedule| == 16 && Words(schedule)
      modifies this`schedule
      ensures |output| == 64 && Bytes(output) && output == BlockOf(old(schedule))
      ensures |schedule| == 16 && Words(schedule) && schedule[..12] == old(schedule[..12])
      ensures Counter(schedule) == (old(Counter(schedule)) + 1) % CYCLE
    {
      hide Rounds, Serialised;
      var x := RunRounds(schedule, 10);
      output := Serialise(x, schedule);
      schedule := Increment(schedule);
    }

    /** The column and the diagonal quarter rounds. */
    static method DoubleRoundInPlace(x: array<int>)
      requires x.Length == 16 && Words(x[..])
      modifies x
      ensures Words(x[..]) && x[..] == DoubleRound(old(x[..]))
    {
      hide QuarterAt, Words;
      QuarterRound(x, 0, 4, 8, 12);
      QuarterRound(x, 1, 5, 9, 13);
      QuarterRound(x, 2, 6, 10, 14);
      QuarterRound(x, 3, 7, 11, 15);
      QuarterRound(x, 0, 5, 10, 15);
      QuarterRound(x, 1, 6, 11, 12);
      QuarterRound(x, 2, 7, 8, 13);
      QuarterRound(x, 3, 4, 9, 14);
    }

    /** `memcpy(output, ctx->schedule, sizeof(ctx->schedule))` */
    static method Copy(s: seq<int>) returns (x: array<int>)
      requires |s| == 16
      ensures fresh(x) && x.Length == 16 && x[..] == s
    {
      x := new int[16];
      for i := 0 to 16
        invariant x[..i] == s[..i]
      {
        x[i] := s[i];
      }
    }

    /** `while (i--)`, for the 10 of the source as n */
    static method RunRounds(s: seq<int>, n: nat) returns (output: seq<int>)
      requires |s| == 16 && Words(s)
      ensures output == Rounds(s, n)
    {
      hide DoubleRound, Rounds, Words;
      var x := Copy(s);
      RoundsStep(s, 0);
      var i := n;
      ghost var done: nat := 0;
      while i > 0
        invariant 0 <= i <= n && done == n - i && Words(x[..]) && x[..] == Rounds(s, done)
      {
        i := i - 1;
        DoubleRoundInPlace(x);
        RoundsStep(s, done);
        done := done + 1;
      }
      output := x[..];
    }

    /** `result = output[i] + schedule[i]; FROMLE(output + i, result)` */
    static method Serialise(x: seq<int>, s: seq<int>) returns (output: seq<int>)
      requires |x| == |s| == 16 && Words(x) && Words(s)
      ensures output == Serialised(x, s, 0)
    {
      hide *;
      output := [];
      for i := 0 to 16
        invariant Serialised(x, s, 0) == output + Serialised(x, s, i)
      {
        NextWord(x, s, i);
        output := output + Store32(U32(x[i] + s[i]));
      }
      NextWord(x, s, 16);
    }

    static lemma NextWord(x: seq<int>, s: seq<int>, i: nat)
      requires |x| == |s| == 16 && Words(x) && Words(s) && i <= 16
      ensures i < 16 ==> 0 <= U32(x[i] + s[i]) < 0x1_0000_0000 && Serialised(x, s, i) == Store32(U32(x[i] + s[i])) + Serialised(x, s, i + 1)
      ensures i == 16 ==> Serialised(x, s, i) == []
    {
    }

    /** chacha20_xor */
    static method XorBytes(keystream: seq<int>, m: seq<int>, ghost s: seq<int>, ghost n: nat) returns (out: seq<int>)
      requires Bytes(keystream) && Bytes(m) && |m| <= |keystream| && |s| == 16 && Words(s)
      requires StreamSlice(keystream, s, n)
      ensures out == Xored(s, n, m)
    {
      hide Stream, Xor;
      out := [];
      for i := 0 to |m|
        invariant |out| == i && forall k :: 0 <= k < i ==> out[k] == Masked(m[k], s, n + k)
      {
        out := out + [Xor(m[i], keystream[i])];
      }
    }

    /** What the buffer holds: the next `available` bytes of the stream. */
    lemma Buffered()
      requires Valid() && available > 0
      ensures StreamSlice(keystream[64 - available..], start, position)
    {
      hide BlockOf, WithCounter, Counter;
      var k, q, c := keystream[64 - available..], (position + available) / 64, Counter(start);
      forall i | 0 <= i < |k| ensures k[i] == Stream(start, position + i) {
        DivModUnique(position + i, 64, q - 1, 64 - available + i);
        assert c + q - 1 == c + (q - 1);
      }
    }

    /** The block that the current counter gives is the next 64 bytes of the stream. */
    lemma NextBlock()
      requires Valid() && available == 0
      ensures StreamSlice(BlockOf(schedule), start, position)
    {
      hide BlockOf, WithCounter, Counter;
      var q := position / 64;
      SameSchedule(schedule, WithCounter(start, (Counter(start) + q) % CYCLE));
      forall i | 0 <= i < 64 ensures BlockOf(schedule)[i] == Stream(start, position + i) {
        DivModUnique(position + i, 64, q, i);
      }
    }

    /** `First, use any buffered keystream from previous calls` */
    method FromBuffer(m: seq<int>) returns (out: seq<int>)
      requires Valid() && available > 0 && Bytes(m) && |m| > 0
      modifies this`available, this`position
      ensures Valid() && start == old(start)
      ensures |out| <= |m| && out == Xored(start, old(position), m[..|out|]) && position == old(position) + |out|
      ensures available == 0 || |out| == |m|
    {
      hide BlockOf, WithCounter, Stream, Xored;
      var amount := if |m| < available then |m| else available;
      Buffered();
      out := XorBytes(keystream[64 - available..], m[..amount], start, position);
      available := available - amount;
      position := position + amount;
    }

    /** `Then, handle new blocks` */
    method FromBlock(m: seq<int>) returns (out: seq<int>)
      requires Valid() && available == 0 && Bytes(m) && |m| > 0
      modifies this
      ensures Valid() && start == old(start)
      ensures 0 < |out| <= |m| && out == Xored(start, old(position), m[..|out|]) && position == old(position) + |out|
      ensures available == 0 || |out| == |m|
    {
      hide BlockOf, WithCounter, Stream, Xored, Counter;
      var amount := if |m| < 64 then |m| else 64;
      NextBlock();
      ghost var q := position / 64;
      CounterStep(Counter(start), q, Counter(schedule));
      SameSchedule(schedule, WithCounter(start, (Counter(start) + q) % CYCLE));
      keystream := Block();
      out := XorBytes(keystream, m[..amount], start, position);
      position := position + amount;
      available := 64 - amount;
      DivModUnique(position + available, 64, q + 1, 0);
    }

    static lemma CounterStep(c: int, q: int, now: int)
      requires now == (c + q) % CYCLE
      ensures (now + 1) % CYCLE == (c + (q + 1)) % CYCLE
    {
      var k, r := (c + q) / CYCLE, (c + q) % CYCLE;
      var j, t := (r + 1) / CYCLE, (r + 1) % CYCLE;
      assert c + (q + 1) == (k + j) * CYCLE + t;
      DivModUnique(c + (q + 1), CYCLE, k + j, t);
    }

    /** chacha20_encrypt, which is also chacha20_decrypt: the next |m| bytes of the stream XORed onto m. */
    method Encrypt(m: seq<int>) returns (out: seq<int>)
      requires Valid() && Bytes(m)
      modifies this
      ensures Valid() && start == old(start) && position == old(position) + |m|
      ensures out == Xored(start, old(position), m)
    {
      hide BlockOf, WithCounter, Counter, Xored;
      out := [];
      if |m| > 0 {
        ghost var n := position;
        if available > 0 {
          out := FromBuffer(m);
        }
        while |out| < |m|
          invariant Valid() && start == old(start) && |out| <= |m| && position == n + |out|
          invariant out == Xored(start, n, m[..|out|]) && (available == 0 || |out| == |m|)
        {
          var part := FromBlock(m[|out|..]);
          Joined(start, n, m, |out|, |part|);
          out := out + part;
        }
        assert m[..|out|] == m;
      }
    }

    static lemma Joined(s: seq<int>, n: nat, m: seq<int>, i: nat, k: nat)
      requires |s| == 16 && Words(s) && Bytes(m) && i + k <= |m|
      ensures Xored(s, n, m[..i + k]) == Xored(s, n, m[..i]) + Xored(s, n + i, m[i..][..k])
    {
      hide Xored, Xor, Stream;
      assert m[..i + k] == m[..i] + m[i..][..k];
      XoredConcat(s, n, m[..i], m[i..][..k]);
    }
  }

  lemma StartWords(ctx: Context)
    requires ctx.Valid()
    ensures |ctx.start| == 16 && Words(ctx.start)
  {
  }

  /** Several calls in a row. */
  method EncryptChunks(ctx: Context, chunks: seq<seq<int>>) returns (out: seq<int>)
    requires ctx.Valid() && forall i :: 0 <= i < |chunks| ==> Bytes(chunks[i])
    modifies ctx
    ensures ctx.Valid() && ctx.start == old(ctx.start) && Bytes(Flatten(chunks))
    ensures out == Xored(ctx.start, old(ctx.position), Flatten(chunks)) && ctx.position == old(ctx.position) + |Flatten(chunks)|
  {
    out := [];
    ghost var n, s := ctx.position, ctx.start;
    FlattenEnds(chunks);
    assert Xored(s, n, []) == [];
    StartWords(ctx);
    hide *;
    ghost var done: seq<int> := [];
    for i := 0 to |chunks|
      invariant ctx.Valid() && ctx.start == s && |s| == 16 && Words(s) && done == Flatten(chunks[..i]) && Bytes(done)
      invariant out == Xored(s, n, done) && ctx.position == n + |done|
    {
      FlattenSteps(chunks, i);
      out := Continue(ctx, chunks[i], out, done, n);
      done := done + chunks[i];
    }
  }

  /** The next call: more of the message under the same keystream. */
  method Continue(ctx: Context, chunk: seq<int>, out: seq<int>, ghost done: seq<int>, ghost n: nat) returns (out': seq<int>)
    requires ctx.Valid() && Bytes(chunk) && Bytes(done)
    requires |ctx.start| == 16 && Words(ctx.start) && out == Xored(ctx.start, n, done) && ctx.position == n + |done|
    modifies ctx
    ensures ctx.Valid() && ctx.start == old(ctx.start) && ctx.position == n + |done + chunk|
    ensures Bytes(done + chunk) && out' == Xored(ctx.start, n, done + chunk)
  {
    BytesConcat(done, chunk);
    hide *;
    XoredConcat(ctx.start, n, done, chunk);
    var part := ctx.Encrypt(chunk);
    out' := out + part;
  }

  lemma BytesConcat(a: seq<int>, b: seq<int>)
    requires Bytes(a) && Bytes(b)
    ensures Bytes(a + b)
  {
  }

  /** Decryption undoes encryption, however either side cuts the data into calls. */
  method RoundTrip(key: seq<int>, nonce: seq<int>, plain: seq<seq<int>>, cipher: seq<seq<int>>) returns (sent: seq<int>, received: seq<int>)
    requires Bytes(key) && (|key| == 16 || |key| == 32) && Bytes(nonce) && |nonce| == 8
    requires forall i :: 0 <= i < |plain| ==> Bytes(plain[i])
    requires forall i :: 0 <= i < |cipher| ==> Bytes(cipher[i])
    ensures Bytes(Flatten(plain)) && sent == Xored(Schedule(key, nonce), 0, Flatten(plain))
    ensures Bytes(Flatten(cipher)) && received == Xored(Schedule(key, nonce), 0, Flatten(cipher))
    ensures Flatten(cipher) == sent ==> received == Flatten(plain)
  {
    hide Context.Valid, Xored, Schedule;
    var c := new Context(key, nonce);
    sent := EncryptChunks(c, plain);
    var d := new Context(key, nonce);
    received := EncryptChunks(d, cipher);
    XoredTwice(Schedule(key, nonce), 0, Flatten(plain));
  }
}
