/** The inversion chain of curve25519/curve25519-donna.c:648-712 and the whole function curve25519_donna. */
module X25519 {
  import opened Bits
  import opened FieldModulus
  import opened Groups
  import opened Primes
  import Fe
  import opened Donna
  import DonnaBytes
  import FeBytes
  import opened Montgomery
  import Ladder
  import MontgomeryCurve

  /** A short element that is v to the power e. */
  predicate Holds(s: seq<int>, v: int, e: nat) {
    |s| == 10 && Short(s) && Raised(Fe.Val(s), v, e)
  }

  method SquareLink(a: seq<int>, ghost v: int, ghost e: nat) returns (s: seq<int>)
    requires Holds(a, v, e)
    ensures Holds(s, v, 2 * e)
  {
    ShortIsSpread(a);
    hide Short, Raised, Fe.Val, Power;
    s := Square(a);
    assert |s| == 10 by {
      ShortLength(s);
    }
    RaisedMul(Fe.Val(s), Fe.Val(a), Fe.Val(a), v, e, e);
  }

  lemma ShortLength(s: seq<int>)
    requires Short(s)
    ensures |s| == 10
  {
  }

  method MulLink(a: seq<int>, b: seq<int>, ghost v: int, ghost d: nat, ghost e: nat) returns (s: seq<int>)
    requires Holds(a, v, d) && Holds(b, v, e)
    ensures Holds(s, v, d + e)
  {
    ShortIsSpread(a);
    ShortIsSpread(b);
    hide Short, Raised, Fe.Val, Power;
    s := Mul(a, b);
    assert |s| == 10 by {
      ShortLength(s);
    }
    RaisedMul(Fe.Val(s), Fe.Val(a), Fe.Val(b), v, d, e);
  }

  lemma DoubleExponent(e: nat, n: nat)
    ensures 2 * (e * Pow2(n)) == e * Pow2(n + 1) && e * Pow2(n) >= 0
  {
    assert 2 * (e * Pow2(n)) == e * (2 * Pow2(n));
  }

  predicate HoldsAt(s: seq<int>, v: int, e: nat, n: nat) {
    e * Pow2(n) >= 0 && Holds(s, v, e * Pow2(n))
  }

  /** Two squarings. */
  method SquareTwice(a: seq<int>, ghost v: int, ghost e: nat, ghost i: nat) returns (t: seq<int>)
    requires HoldsAt(a, v, e, i)
    ensures HoldsAt(t, v, e, i + 2)
  {
    hide Holds, Pow2;
    DoubleExponent(e, i);
    DoubleExponent(e, i + 1);
    var s := SquareLink(a, v, e * Pow2(i));
    t := SquareLink(s, v, 2 * (e * Pow2(i)));
  }

  /** n squarings, as the chain does them: two by hand and a loop that does two at a time. */
  method SquareRun(a: seq<int>, n: nat, ghost v: int, ghost e: nat) returns (t: seq<int>)
    requires Holds(a, v, e) && n >= 2 && n % 2 == 0
    ensures HoldsAt(t, v, e, n)
  {
    assert Pow2(0) == 1 && e * Pow2(0) == e;
    var i := 0;
    assert HoldsAt(a, v, e, i);
    hide *;
    t := SquareTwice(a, v, e, i);
    i := i + 2;
    while i < n
      invariant 2 <= i <= n && i % 2 == 0 && HoldsAt(t, v, e, i)
    {
      t := SquareTwice(t, v, e, i);
      i := i + 2;
    }
  }

  /** n squarings of a = v^(2^m - 1) and a multiplication with b = v^(2^n - 1). */
  method Link(a: seq<int>, b: seq<int>, m: nat, n: nat, ghost v: int) returns (r: seq<int>)
    requires n >= 2 && n % 2 == 0 && Holds(a, v, Pow2(m) - 1) && Holds(b, v, Pow2(n) - 1)
    ensures Holds(r, v, Pow2(m + n) - 1)
  {
    hide Holds;
    ghost var e: nat := Pow2(m) - 1;
    var t := SquareRun(a, n, v, e);
    ChainLink(m, n);
    r := MulLink(t, b, v, e * Pow2(n), Pow2(n) - 1);
  }

  /** Five squarings in a row. */
  method FiveSquares(a: seq<int>, ghost v: int, ghost e: nat) returns (t: seq<int>)
    requires Holds(a, v, e)
    ensures Holds(t, v, 32 * e)
  {
    hide Holds;
    t := SquareLink(a, v, e);
    t := SquareLink(t, v, 2 * e);
    t := SquareLink(t, v, 4 * e);
    t := SquareLink(t, v, 8 * e);
    t := SquareLink(t, v, 16 * e);
  }

  /** The start of the chain: v^11 and v^(2^5 - 1). */
  method Start(z: seq<int>) returns (z11: seq<int>, z31: seq<int>)
    requires |z| == 10 && Short(z)
    ensures Holds(z11, Fe.Val(z), 11) && Holds(z31, Fe.Val(z), 31)
  {
    ghost var v := Fe.Val(z);
    RaisedOne(v);
    hide Short, Raised, Fe.Val;
    var z2 := SquareLink(z, v, 1);
    var t1 := SquareLink(z2, v, 2);
    var t0 := SquareLink(t1, v, 4);
    var z9 := MulLink(t0, z, v, 8, 1);
    z11 := MulLink(z9, z2, v, 9, 2);
    t0 := SquareLink(z11, v, 11);
    z31 := MulLink(t0, z9, v, 22, 9);
  }

  lemma FiveBits()
    ensures Pow2(5) == 32 && Pow2(10) == 1024
  {
  }

  /** crecip: z^(p - 2). */
  method Recip(z: seq<int>) returns (out: seq<int>)
    requires |z| == 10 && Short(z)
    ensures Holds(out, Fe.Val(z), P - 2)
  {
    ghost var v := Fe.Val(z);
    var z11, z5 := Start(z);
    hide *;
    var z250 := Middle(z5, v);
    ghost var e: nat := Pow2(250) - 1;
    var t := FiveSquares(z250, v, e);
    LastExponent(e);
    out := MulLink(t, z11, v, 32 * e, 11);
  }

  lemma LastExponent(e: nat)
    requires e == Pow2(250) - 1
    ensures 32 * e + 11 == P - 2
  {
    ChainEnds(Pow2(250));
    FiveBits();
  }

  /** From v^(2^5 - 1) to v^(2^250 - 1). */
  method Middle(z5: seq<int>, ghost v: int) returns (z250: seq<int>)
    requires Holds(z5, v, 31)
    ensures Holds(z250, v, Pow2(250) - 1)
  {
    FiveBits();
    hide *;
    var t := FiveSquares(z5, v, 31);
    var z10 := MulLink(t, z5, v, 992, 31);
    var z20 := Link(z10, z10, 10, 10, v);
    var z40 := Link(z20, z20, 20, 20, v);
    var z50 := Link(z40, z10, 40, 10, v);
    var z100 := Link(z50, z50, 50, 50, v);
    var z200 := Link(z100, z100, 100, 100, v);
    z250 := Link(z200, z50, 200, 50, v);
  }

  /** The two inverters of the repository agree on every element, whatever the representation: both are
      z^(p - 2). */
  lemma InvertersAgree(r: int, s: int, z: int, z': int)
    requires Raised(r, z, P - 2) && Raised(s, z', P - 2) && Same(z, z')
    ensures Same(r, s)
  {
    var n := P - 2;
    hide Power;
    SamePower(z, z', n);
  }

  // ---- curve25519_donna

  /** `e[0] &= 248; e[31] &= 127; e[31] |= 64` */
  function Clamped(secret: seq<int>): (e: seq<int>)
    requires |secret| == 32 && Bytes(secret)
    ensures |e| == 32 && Bytes(e)
  {
    ClampBytes(secret[0], secret[31]);
    secret[0 := And(secret[0], 248)][31 := Or(And(secret[31], 127), 64)]
  }

  /** The scalar has bit 254 set, bits 0 to 2 and 255 clear, and the rest from the secret. */
  lemma ClampedIs(secret: seq<int>)
    requires |secret| == 32 && Bytes(secret)
    ensures LE(Clamped(secret)) == Pow2(254) + 8 * (LE(secret) / 8 % Pow2(251))
  {
    hide *;
    Ends(secret);
    ClampedEnds(secret);
    ClampPowers();
    ClampSum(secret[0], secret[31], LE(secret[1..31]), Pow2(240), LE(secret), LE(Clamped(secret)), Pow2(251), Pow2(254));
  }

  lemma ClampedEnds(secret: seq<int>)
    requires |secret| == 32 && Bytes(secret)
    ensures 0 <= secret[0] < 0x100 && 0 <= secret[31] < 0x100 && 0 <= LE(secret[1..31]) < Pow2(240)
    ensures LE(Clamped(secret))
      == secret[0] - secret[0] % 8 + 0x100 * LE(secret[1..31]) + 0x100 * Pow2(240) * (64 + secret[31] % 64)
  {
    ClampedParts(secret);
    hide *;
    Ends(Clamped(secret));
    LEBound(secret[1..31]);
    assert 8 * |secret[1..31]| == 240;
  }

  lemma ClampSum(a: int, b: int, m: int, w: int, v: int, c: int, p: int, q: int)
    requires 0 <= a < 0x100 && 0 <= b < 0x100 && 0 <= m < w && p == 0x800 * w && q == 0x4000 * w
    requires v == a + 0x100 * m + 0x100 * w * b && c == a - a % 8 + 0x100 * m + 0x100 * w * (64 + b % 64)
    ensures c == q + 8 * (v / 8 % p)
  {
    EighthOf(a, b, m, w);
    ClampValue(a, b, m, w);
  }

  lemma ClampedParts(secret: seq<int>)
    requires |secret| == 32 && Bytes(secret)
    ensures var e := Clamped(secret);
      e[0] == secret[0] - secret[0] % 8 && e[31] == 64 + secret[31] % 64 && e[1..31] == secret[1..31]
    ensures Bytes(secret[1..31]) && 0 <= secret[0] < 0x100 && 0 <= secret[31] < 0x100
  {
    ClampBytes(secret[0], secret[31]);
  }

  lemma Ends(s: seq<int>)
    requires |s| == 32 && Bytes(s)
    ensures LE(s) == s[0] + 0x100 * LE(s[1..31]) + 0x100 * Pow2(240) * s[31]
  {
    var t := s[1..];
    assert t[..30] == s[1..31] && t[30..] == [s[31]] && t == t[..30] + t[30..];
    LEConcat(t[..30], t[30..]);
    assert LE([s[31]]) == s[31] + 0x100 * LE([]);
  }

  lemma ClampPowers()
    ensures Pow2(251) == 0x800 * Pow2(240) && Pow2(254) == 0x4000 * Pow2(240) && Pow2(8 * 30) == Pow2(240)
  {
    var k := 240;
    Pow2Add(11, k);
    Pow2Add(14, k);
    assert Pow2(11) == 0x800 && Pow2(14) == 0x4000;
  }

  lemma EighthOf(a: int, b: int, m: int, w: int)
    requires 0 <= a < 0x100 && 0 <= b
    ensures (a + 0x100 * m + 0x100 * w * b) / 8 == a / 8 + 0x20 * m + 0x20 * (w * b)
  {
    DivModUnique(a + 0x100 * m + 0x100 * w * b, 8, a / 8 + 0x20 * m + 0x20 * (w * b), a % 8);
  }

  lemma ClampValue(a: int, b: int, m: int, w: int)
    requires 0 <= a < 0x100 && 0 <= b < 0x100 && 0 <= m < w
    ensures a - a % 8 + 0x100 * m + 0x100 * w * (64 + b % 64)
      == 0x4000 * w + 8 * ((a / 8 + 0x20 * m + 0x20 * (w * b)) % (0x800 * w))
  {
    var h, l := b / 64, b % 64;
    TopBits(w, h, l, a / 8 + 0x20 * m);
    assert b == 64 * h + l;
    assert 0x100 * w * (64 + l) == 0x4000 * w + 0x100 * (w * l);
  }

  lemma TopBits(w: int, h: int, l: int, low: int)
    requires 0 <= low < 0x20 * w && 0 <= l < 64
    ensures (low + 0x20 * (w * (64 * h + l))) % (0x800 * w) == low + 0x20 * (w * l)
  {
    assert w * (64 * h + l) == 64 * (w * h) + w * l;
    assert h * (0x800 * w) == 0x800 * (w * h);
    MulMono(0, l, w);
    MulMono(l, 63, w);
    assert l * w == w * l && 63 * w == w * 63;
    hide *;
    DivModUnique(low + 0x20 * (w * (64 * h + l)), 0x800 * w, h, low + 0x20 * (w * l));
  }

  lemma ClampBytes(a: int, b: int)
    requires 0 <= a < 0x100 && 0 <= b < 0x100
    ensures And(a, 248) == a - a % 8
    ensures Or(And(b, 127), 64) == 64 + b % 64
  {
    ClampLow(a, 31, 248, 3, 5);
    ClampHigh(b, 127, 64, 6, 7);
  }

  lemma ClampLow(a: int, mask: nat, shifted: nat, three: nat, five: nat)
    requires 0 <= a < 0x100 && mask == 31 && shifted == 248 && three == 3 && five == 5
    ensures And(a, shifted) == a - a % 8
  {
    assert Pow2(three) == 8 && Pow2(five) == 32;
    hide And, Pow2;
    var q := a / 8;
    AndShifted(a, mask, three, shifted, q);
    AndMask(q, five, mask);
    DivModUnique(q, 32, 0, q);
  }

  lemma ClampHigh(b: int, mask: nat, bit: nat, six: nat, seven: nat)
    requires 0 <= b < 0x100 && mask == 127 && bit == 64 && six == 6 && seven == 7
    ensures Or(And(b, mask), bit) == 64 + b % 64
  {
    assert Pow2(six) == 64 && Pow2(seven) == 128;
    hide And, Or, Pow2;
    AndMask(b, seven, mask);
    var c := b % 128;
    var hi, lo := c / 64, c % 64;
    OrShifted(hi, 1, lo, six);
    OrBit(hi);
    assert c == hi * 64 + lo;
    LowSix(b);
  }

  lemma LowSix(b: int)
    requires b >= 0
    ensures b % 128 % 64 == b % 64
  {
    var q, r := b / 128, b % 128;
    DivModUnique(b, 64, 2 * q + r / 64, r % 64);
  }

  lemma OrBit(x: nat)
    requires x <= 1
    ensures Or(x, 1) == 1
  {
  }

  lemma CoordinateShapes(x: seq<int>, z: seq<int>)
    requires Coordinates(x, z)
    ensures |x| == |z| == 10 && Spread(x) && Short(z)
  {
  }

  /** curve25519_donna.  The output is x / z of the ladder's first point, by way of z^(p - 2); all 256 bits
      of the base point are used, and the output is below 2^255 but not always reduced. */
  method Donna25519(secret: seq<int>, basepoint: seq<int>) returns (out: seq<int>, ghost p: Point)
    requires |secret| == |basepoint| == 32 && Bytes(secret) && Bytes(basepoint)
    ensures |out| == 32 && Bytes(out) && 0 <= LE(out) < FeBytes.TOP
    ensures LE(Clamped(secret)) >= 0 && SamePoint(p, Ladder.Run(LE(Clamped(secret)), 256, LE(basepoint)).r0)
    ensures Same(LE(out), p.x * Power(p.z, P - 2))
  {
    var bp := DonnaBytes.Expand(basepoint);
    hide Clamped, Short, Spread, Fresh, Coordinates, Power, LE, Ladder.Run, Strict, Same, SamePoint;
    var x, z := Ladder.Multiply(Clamped(secret), bp);
    CoordinateShapes(x, z);
    p := At(x, z);
    var zmone := Recip(z);
    ShortIsSpread(zmone);
    var t := Mul(x, zmone);
    var r := ReduceCoefficients(t) by { ShortWithin(t); }
    out := DonnaBytes.Contract(r);
    Quotient(Fe.Val(x), Fe.Val(zmone), Fe.Val(t), Fe.Val(r), LE(out), p.z);
  }

  lemma ShortWithin(t: seq<int>)
    requires Short(t)
    ensures Within(t, 0x3fffffffffffffff, 0x3fffffffffffffff)
  {
  }

  lemma Quotient(x: int, inv: int, t: int, r: int, out: int, z: int)
    requires Raised(inv, z, P - 2) && Same(t, x * inv) && Same(r, t) && Same(out, r)
    ensures Same(out, x * Power(z, P - 2))
  {
    var e := Power(z, P - 2);
    hide Power;
    SameRefl(x);
    SameMul(x, x, inv, e);
  }

  /** On a curve whose laws the formulas satisfy, the point read off is [n]Q for the clamped scalar n. */
  lemma Donna25519Means(rep: Ladder.Reading, n: nat, q: int, p: Point)
    requires Ladder.CurveLaw(rep, q) && n < Pow2(256) && SamePoint(p, Ladder.Run(n, 256, q).r0)
    ensures rep(n, p)
  {
    var t := 256;
    var s := Ladder.Run(n, t, q);
    hide Ladder.Run, Pow2, Same, SamePoint;
    Ladder.RunMeans(rep, n, t, q);
    SamePointSym(p, s.r0);
    assert Ladder.Respects(rep, n, s.r0, p);
  }

  /** curve25519_donna on the curve: for every point base with the coordinate given, the output is the u-coordinate
      of [n]base for the clamped scalar n, or 0 if that is infinity. */
  lemma Donna25519Reads<G(!new)>(g: Group<G>, at: G -> MontgomeryCurve.Spot, base: G, secret: seq<int>, basepoint: seq<int>,
                                 out: seq<int>, p: Point)
    requires Prime(P) && MontgomeryCurve.Curve(g, at) && at(base).Finite? && Same(at(base).u, LE(basepoint))
    requires |secret| == 32 && Bytes(secret) && LE(Clamped(secret)) >= 0
    requires SamePoint(p, Ladder.Run(LE(Clamped(secret)), 256, LE(basepoint)).r0) && Same(LE(out), p.x * Power(p.z, P - 2))
    ensures MontgomeryCurve.Reads(LE(out), at(Times(g, LE(Clamped(secret)), base)))
  {
    hide *;
    var n: nat, t := LE(Clamped(secret)), 256;
    LEBound(Clamped(secret));
    assert |Clamped(secret)| * 8 == t;
    MontgomeryCurve.LadderReads(g, at, base, LE(basepoint), n, t, p, LE(out));
  }

  /** Both inverters invert, if p is prime; 0 stays 0. */
  lemma InverterInverts(r: int, z: int)
    requires Prime(P) && Raised(r, z, P - 2)
    ensures !Same(z, 0) ==> Same(z * r, 1)
    ensures Same(z, 0) ==> Same(r, 0)
  {
    var w := Power(z, P - 2);
    RaisedIs(r, z, P - 2);
    SameIff(z, 0);
    assert 0 % P == 0;
    hide *;
    MontgomeryCurve.FermatSame(z);
    SameRefl(z);
    SameMul(z, z, r, w);
    if !Same(z, 0) {
      SameTrans(z * r, z * w, 1);
    } else {
      SameTrans(r, w, 0);
    }
  }

  lemma RaisedIs(r: int, z: int, e: nat)
    requires Raised(r, z, e)
    ensures Same(r, Power(z, e))
  {
  }

  lemma SamePointSym(p: Point, r: Point)
    requires SamePoint(p, r)
    ensures SamePoint(r, p)
  {
  }
}
