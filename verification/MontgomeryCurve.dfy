/** The curve v^2 = u^3 + 486662 u^2 + u with its chord-and-tangent law, and what the ladder computes on it: the
    u-coordinate of a multiple, from the u-coordinate of the point.  That p is prime and that the law makes the points
    an abelian group are hypotheses. */
module MontgomeryCurve {
  import opened Bits
  import opened FieldModulus
  import opened Groups
  import opened Montgomery
  import opened Primes
  import Ladder

  // ---- residues modulo a prime

  lemma UnitOrZero(x: int)
    requires Prime(P)
    ensures Same(x, 0) || Invertible(x)
  {
    if x % P != 0 {
      var i := HasInverse(x, P);
      assert Inverts(x, i);
    } else {
      SameIff(x, 0);
    }
  }

  lemma ZeroTimes(x: int, i: int)
    requires Same(x, 0)
    ensures !Inverts(x, i)
  {
    SameRefl(i);
    SameMul(x, 0, i, i);
    SameIff(x * i, 0 * i);
    SameIff(x * i, 1);
    assert 0 * i % P == 0;
  }

  lemma ZeroNoUnit(x: int)
    requires Same(x, 0)
    ensures !Invertible(x)
  {
    hide Same, Inverts;
    forall i ensures !Inverts(x, i) {
      ZeroTimes(x, i);
    }
  }

  lemma ZeroProduct(x: int, y: int)
    requires Prime(P) && Same(x * y, 0)
    ensures Same(x, 0) || Same(y, 0)
  {
    hide Same, Invertible;
    UnitOrZero(x);
    if Invertible(x) {
      CommonUnit(x, y);
    }
  }

  lemma CommonUnit(x: int, y: int)
    requires Invertible(x) && Same(x * y, 0)
    ensures Same(y, 0)
  {
    assert y * x == x * y && 0 * x == 0;
    CancelUnit(y, 0, x);
  }

  // ---- the curve

  datatype Spot = Infinity | Finite(u: int, v: int)

  function Cubic(u: int): int {
    u * (u * u) + A * (u * u) + u
  }

  predicate OnCurve(s: Spot) {
    s.Finite? ==> Same(s.v * s.v, Cubic(s.u))
  }

  predicate Alike(s: Spot, t: Spot) {
    s.Finite? == t.Finite? && (s.Finite? ==> Same(s.u, t.u) && Same(s.v, t.v))
  }

  predicate Opposite(s: Spot, t: Spot) {
    s.Finite? == t.Finite? && (s.Finite? ==> Same(s.u, t.u) && Same(s.v, -t.v))
  }

  /** l is the slope of the line through a and b, which is the tangent if they have the same u. */
  predicate Slope(a: Spot, b: Spot, l: int)
    requires a.Finite? && b.Finite?
  {
    if Same(a.u, b.u) then Same(l * (2 * a.v), 3 * (a.u * a.u) + 2 * A * a.u + 1) else Same(l * (a.u - b.u), a.v - b.v)
  }

  /** c is the mirror image of the third point of that line. */
  predicate OnLine(a: Spot, b: Spot, c: Spot, l: int)
    requires a.Finite? && b.Finite? && c.Finite?
  {
    Slope(a, b, l) && Same(c.u, l * l - A - a.u - b.u) && Same(c.v, l * (a.u - c.u) - a.v)
  }

  ghost predicate IsSum(a: Spot, b: Spot, c: Spot) {
    if a.Infinity? then Alike(c, b)
    else if b.Infinity? then Alike(c, a)
    else if Opposite(a, b) then c.Infinity?
    else c.Finite? && exists l :: OnLine(a, b, c, l)
  }

  /** The u-coordinate of the double, by the tangent. */
  lemma TangentU(u: int, v: int, l: int, w: int)
    requires Same(v * v, Cubic(u)) && Same(l * (2 * v), 3 * (u * u) + 2 * A * u + 1) && Same(w, l * l - A - u - u)
    ensures Same((4 * Cubic(u)) * w, Sq(u * u - 1))
  {
    var f, n, c := Cubic(u), 3 * (u * u) + 2 * A * u + 1, A + 2 * u;
    TangentIdentity(u, f, n, c);
    hide *;
    SameRefl(4);
    SameRefl(c);
    SameMul(4, 4, v * v, f);
    SameSym(4 * (v * v), 4 * f);
    SameMul(4 * f, 4 * (v * v), w, l * l - A - u - u);
    SameMul(l * (2 * v), n, l * (2 * v), n);
    SameMul(c, c, 4 * (v * v), 4 * f);
    SameSum((l * (2 * v)) * (l * (2 * v)), n * n, c * (4 * (v * v)), c * (4 * f));
    TangentSides(l, v, c);
    assert l * l - A - u - u == l * l - c;
    SameTrans((4 * f) * w, (4 * (v * v)) * (l * l - c), n * n - c * (4 * f));
  }

  lemma TangentIdentity(u: int, f: int, n: int, c: int)
    requires f == Cubic(u) && n == 3 * (u * u) + 2 * A * u + 1 && c == A + 2 * u
    ensures n * n - c * (4 * f) == Sq(u * u - 1)
  {
  }

  lemma TangentSides(l: int, v: int, c: int)
    ensures (4 * (v * v)) * (l * l - c) == (l * (2 * v)) * (l * (2 * v)) - c * (4 * (v * v))
  {
    assert (l * (2 * v)) * (l * (2 * v)) == (4 * (v * v)) * (l * l);
  }

  /** The u-coordinates of sum and difference, by the two chords. */
  lemma ChordU(u: int, v: int, u': int, v': int, l: int, m: int, w: int, x: int)
    requires Same(v * v, Cubic(u)) && Same(v' * v', Cubic(u')) && Invertible(u - u')
    requires Same(l * (u - u'), v - v') && Same(m * (u - u'), v + v')
    requires Same(w, l * l - A - u - u') && Same(x, m * m - A - u - u')
    ensures Same(Sq(u - u') * (w * x), Sq(u * u' - 1))
  {
    var d, c := Sq(u - u'), A + u + u';
    assert d == (u - u') * (u - u');
    hide *;
    ChordPart(l, u - u', v - v', w, c);
    ChordPart(m, u - u', v + v', x, c);
    var g, h := (v - v') * (v - v') - c * d, (v + v') * (v + v') - c * d;
    SameMul(d * w, g, d * x, h);
    ChordProduct(u, v, u', v');
    SameTrans((d * w) * (d * x), g * h, d * Sq(u * u' - 1));
    InvertibleMul(u - u', u - u');
    Outer(d, w, x, Sq(u * u' - 1));
    CancelUnit(d * (w * x), Sq(u * u' - 1), d);
  }

  lemma Outer(d: int, w: int, x: int, n: int)
    ensures (d * w) * (d * x) == (d * (w * x)) * d && d * n == n * d
  {
    assert (d * w) * (d * x) == d * (w * (d * x)) == d * (d * (w * x));
  }

  lemma ChordPart(l: int, d: int, n: int, w: int, c: int)
    requires Same(l * d, n) && Same(w, l * l - c)
    ensures Same((d * d) * w, n * n - c * (d * d))
  {
    hide *;
    SameRefl(d * d);
    SameRefl(c * (d * d));
    SameMul(d * d, d * d, w, l * l - c);
    SameMul(l * d, n, l * d, n);
    SameSum((l * d) * (l * d), n * n, c * (d * d), c * (d * d));
    assert (d * d) * (l * l - c) == (l * d) * (l * d) - c * (d * d);
    SameTrans((d * d) * w, (d * d) * (l * l - c), n * n - c * (d * d));
  }

  lemma ChordProduct(u: int, v: int, u': int, v': int)
    requires Same(v * v, Cubic(u)) && Same(v' * v', Cubic(u'))
    ensures var d, c := (u - u') * (u - u'), A + u + u';
      Same(((v - v') * (v - v') - c * d) * ((v + v') * (v + v') - c * d), d * Sq(u * u' - 1))
  {
    var d, c := (u - u') * (u - u'), A + u + u';
    ChordIdentity(u, u', Cubic(u), Cubic(u'), d, c);
    hide *;
    SquaresProduct(v, v', c * d);
    SymmetricSame(v * v, v' * v', Cubic(u), Cubic(u'), c * d, ((v - v') * (v - v') - c * d) * ((v + v') * (v + v') - c * d), d * Sq(u * u' - 1));
  }

  lemma SymmetricSame(e: int, e': int, f: int, f': int, k: int, x: int, y: int)
    requires Same(e, f) && Same(e', f')
    requires x == (e - e') * (e - e') - k * (2 * (e + e')) + k * k
    requires y == (f - f') * (f - f') - k * (2 * (f + f')) + k * k
    ensures Same(x, y)
  {
    hide *;
    SameRefl(2);
    SameRefl(k);
    SameRefl(k * k);
    SameSum(e, f, e', f');
    SameMul(e - e', f - f', e - e', f - f');
    SameMul(2, 2, e + e', f + f');
    SameMul(k, k, 2 * (e + e'), 2 * (f + f'));
    SameSum((e - e') * (e - e'), (f - f') * (f - f'), k * (2 * (e + e')), k * (2 * (f + f')));
    SameSum((e - e') * (e - e') - k * (2 * (e + e')), (f - f') * (f - f') - k * (2 * (f + f')), k * k, k * k);
  }

  lemma SquaresProduct(v: int, v': int, k: int)
    ensures ((v - v') * (v - v') - k) * ((v + v') * (v + v') - k)
      == (v * v - v' * v') * (v * v - v' * v') - k * (2 * (v * v + v' * v')) + k * k
  {
    var s, t := v * v, v' * v';
    var m := v * v';
    assert m * m == s * t by {
      assert (v * v') * (v * v') == v * (v' * (v * v')) == v * (v * (v' * v'));
    }
    assert (v - v') * (v - v') == s - 2 * m + t && (v + v') * (v + v') == s + 2 * m + t;
    assert (s - 2 * m + t - k) * (s + 2 * m + t - k) == (s + t - k) * (s + t - k) - 4 * (m * m);
  }

  lemma ChordIdentity(u: int, u': int, f: int, f': int, d: int, c: int)
    requires f == Cubic(u) && f' == Cubic(u') && d == (u - u') * (u - u') && c == A + u + u'
    ensures (f - f') * (f - f') - (c * d) * (2 * (f + f')) + (c * d) * (c * d) == d * Sq(u * u' - 1)
  {
    var s, m, b := u + u', u * u', u * u + u * u' + u' * u' + A * (u + u') + 1;
    CubicDifference(u, u', b);
    SumOfCubics(u, u', s, m);
    InSymmetric(u, u', s, m, b);
    hide *;
    Symmetric(A, s, m, b, c, d, f + f');
    SquareOfProduct(f - f', u - u', b);
    FactorD(b, c, d, f + f');
  }

  lemma CubicDifference(u: int, u': int, b: int)
    requires b == u * u + u * u' + u' * u' + A * (u + u') + 1
    ensures Cubic(u) - Cubic(u') == (u - u') * b
  {
    var e := u - u';
    assert e * (A * (u + u')) == A * (u * u) - A * (u' * u');
    assert e * (u * u + u * u' + u' * u') == u * (u * u) - u' * (u' * u');
    assert e * b == e * (u * u + u * u' + u' * u') + e * (A * (u + u')) + e;
  }

  lemma InSymmetric(u: int, u': int, s: int, m: int, b: int)
    requires s == u + u' && m == u * u' && b == u * u + u * u' + u' * u' + A * (u + u') + 1
    ensures (u - u') * (u - u') == s * s - 4 * m && b == s * s - m + 1 + A * s
  {
  }

  lemma SquareOfProduct(f: int, e: int, b: int)
    requires f == e * b
    ensures f * f == (e * e) * (b * b)
  {
    assert (e * b) * (e * b) == (e * e) * (b * b);
  }

  lemma FactorD(b: int, c: int, d: int, g: int)
    ensures d * (b * b) - (c * d) * (2 * g) + (c * d) * (c * d) == d * (b * b - 2 * (c * g) + c * c * d)
  {
    assert (c * d) * (2 * g) == d * (2 * (c * g)) && (c * d) * (c * d) == d * (c * c * d);
  }

  lemma SumOfCubics(u: int, u': int, s: int, m: int)
    requires s == u + u' && m == u * u'
    ensures Cubic(u) + Cubic(u') == s * (s * s) - 3 * (m * s) + s + A * (s * s - 2 * m)
  {
    assert s * s == u * u + 2 * m + u' * u';
    assert s * (s * s) == u * (u * u) + u' * (u' * u') + 3 * (m * s) by {
      assert s * (s * s) == u * (u * u) + 3 * (u * (u * u')) + 3 * (u' * (u * u')) + u' * (u' * u');
      assert m * s == m * u + m * u' && m * u == u * (u * u') && m * u' == u' * (u * u');
    }
  }

  /** The coefficients of k^2, of k and of 1. */
  lemma Symmetric(k: int, s: int, m: int, b: int, c: int, d: int, h: int)
    requires b == s * s - m + 1 + k * s && c == k + s && d == s * s - 4 * m
    requires h == s * (s * s) - 3 * (m * s) + s + k * (s * s - 2 * m)
    ensures b * b - 2 * (c * h) + c * c * d == Sq(m - 1)
  {
    var a, t, e := s * s - m + 1, s * (s * s) - 3 * (m * s) + s, s * s - 2 * m;
    ConstantPart(s, m, a, t, d);
    LinearPart(s, m, a, t, e, d);
    hide *;
    Square1(a, k, s);
    Product2(k, s, t, e);
    Square3(k, s, d);
    Linear4(k, a * s, t, s * e, s * d);
    Linear5(k * k, s * s, e, d);
  }

  lemma ConstantPart(s: int, m: int, a: int, t: int, g: int)
    requires a == s * s - m + 1 && t == s * (s * s) - 3 * (m * s) + s && g == s * s - 4 * m
    ensures a * a - 2 * (s * t) + (s * s) * g == Sq(m - 1)
  {
    var q := s * s;
    assert s * t == q * q - 3 * (m * q) + q by {
      assert s * (s * q) == q * q && s * (m * s) == m * q;
    }
    assert (q - m + 1) * (q - m + 1) == q * q + m * m + 1 - 2 * (m * q) + 2 * q - 2 * m;
    assert q * g == q * q - 4 * (m * q);
  }

  lemma LinearPart(s: int, m: int, a: int, t: int, e: int, g: int)
    requires a == s * s - m + 1 && t == s * (s * s) - 3 * (m * s) + s && e == s * s - 2 * m && g == s * s - 4 * m
    ensures a * s - t - s * e + s * g == 0 && s * s - 2 * e + g == 0
  {
  }

  lemma Square1(a: int, k: int, s: int)
    ensures (a + k * s) * (a + k * s) == a * a + 2 * (k * (a * s)) + (k * k) * (s * s)
  {
    assert (k * s) * (k * s) == (k * k) * (s * s) && a * (k * s) == k * (a * s);
  }

  lemma Product2(k: int, s: int, t: int, e: int)
    ensures (k + s) * (t + k * e) == k * t + (k * k) * e + s * t + k * (s * e)
  {
    assert k * (k * e) == (k * k) * e && s * (k * e) == k * (s * e);
  }

  lemma Square3(k: int, s: int, g: int)
    ensures (k + s) * (k + s) * g == (k * k) * g + 2 * (k * (s * g)) + (s * s) * g
  {
    assert (k + s) * (k + s) == k * k + 2 * (k * s) + s * s;
    assert (k * s) * g == k * (s * g);
  }

  lemma Linear4(k: int, x: int, t: int, y: int, z: int)
    requires x - t - y + z == 0
    ensures k * x - k * t - k * y + k * z == 0
  {
    assert k * x - k * t - k * y + k * z == k * (x - t - y + z);
  }

  lemma Linear5(k: int, q: int, e: int, g: int)
    requires q - 2 * e + g == 0
    ensures k * q - 2 * (k * e) + k * g == 0
  {
    assert k * q - 2 * (k * e) + k * g == k * (q - 2 * e + g);
  }

  // ---- coordinates (x : z)

  ghost predicate Shows(p: Point, s: Spot) {
    match s
    case Infinity => Invertible(p.x) && Same(p.z, 0)
    case Finite(u, _) => Invertible(p.z) && Same(p.x, u * p.z)
  }

  lemma ShowsSame(p: Point, r: Point, s: Spot)
    requires Shows(p, s) && SamePoint(r, p)
    ensures Shows(r, s)
  {
    hide Same, Invertible;
    SameSym(r.x, p.x);
    SameSym(r.z, p.z);
    match s
    case Infinity =>
      InvertibleSame(p.x, r.x);
      SameTrans(r.z, p.z, 0);
    case Finite(u, _) =>
      InvertibleSame(p.z, r.z);
      SameTrans(r.x, p.x, u * p.z);
      SameRefl(u);
      SameMul(u, u, p.z, r.z);
      SameTrans(r.x, u * p.z, u * r.z);
  }

  /** Doubling and addition respect congruence. */
  lemma DoubledShows(p: Point, r: Point, s: Spot)
    requires Shows(Doubled(r), s) && SamePoint(p, r)
    ensures Shows(Doubled(p), s)
  {
    hide Shows, Same, FromSquares;
    SquaresSame(p, r);
    FromSquaresSame(Sq(p.x + p.z), Sq(p.x - p.z), Sq(r.x + r.z), Sq(r.x - r.z));
    ShowsSame(Doubled(r), Doubled(p), s);
  }

  lemma AddedShows(p: Point, p': Point, r: Point, r': Point, q: int, s: Spot)
    requires Shows(Added(p', r', q), s) && SamePoint(p, p') && SamePoint(r, r')
    ensures Shows(Added(p, r, q), s)
  {
    hide Shows, Same, Added;
    AddedSame(p, p', r, r', q);
    ShowsSame(Added(p', r', q), Added(p, r, q), s);
  }

  /** From a known pair of factors: (w n : (w d)) shows u when d u is n. */
  lemma ShowsQuotient(w: int, n: int, d: int, u: int, v: int)
    requires Invertible(w) && Invertible(d) && Same(d * u, n)
    ensures Shows(Point(w * n, w * d), Finite(u, v))
  {
    hide Same, Invertible;
    InvertibleMul(w, d);
    SameRefl(w);
    SameSym(d * u, n);
    SameMul(w, w, n, d * u);
    assert w * (d * u) == u * (w * d);
  }

  lemma ShowsInfinity(w: int, n: int, d: int)
    requires Invertible(w) && Invertible(n) && Same(d, 0)
    ensures Shows(Point(w * n, w * d), Infinity)
  {
    hide Same, Invertible;
    InvertibleMul(w, n);
    SameRefl(w);
    SameMul(w, w, d, 0);
    assert w * 0 == 0;
  }

  // ---- doubling

  lemma DoubledAt(u: int, z: int)
    ensures Doubled(Point(u * z, z)) == Point(Sq(z * z) * Sq(u * u - 1), Sq(z * z) * (4 * Cubic(u)))
  {
    var p, y := Point(u * z, z), z * z;
    DoubledIs(p);
    assert p.x * p.x == (u * u) * y && p.x * p.z == u * y && p.z * p.z == y by {
      assert (u * z) * (u * z) == (u * u) * (z * z) && (u * z) * z == u * (z * z);
    }
    hide Doubled;
    assert p.x * p.x - p.z * p.z == (u * u - 1) * y;
    SquareFactor(u * u - 1, y);
    CubicFactor(u, y);
  }

  lemma SquareFactor(n: int, y: int)
    ensures Sq(n * y) == Sq(y) * Sq(n)
  {
    assert (n * y) * (n * y) == (y * y) * (n * n);
  }

  lemma CubicFactor(u: int, y: int)
    ensures 4 * (u * y) * ((u * u) * y + A * (u * y) + y) == Sq(y) * (4 * Cubic(u))
  {
    var t := u * u + A * u + 1;
    assert (u * u) * y + A * (u * y) + y == t * y;
    assert u * t == Cubic(u) by {
      assert u * (A * u) == A * (u * u);
    }
    assert (u * y) * (t * y) == (y * y) * (u * t);
  }

  /** Where v is 0, u^2 is not 1: A^2 - 4 is no multiple of p. */
  lemma NotOne(u: int)
    requires Prime(P)
    ensures Same(Cubic(u), 0) ==> Invertible(u * u - 1)
  {
    var n := u * u - 1;
    UnitOrZero(n);
    if Same(Cubic(u), 0) && Same(n, 0) {
      var t := 2 + A * u;
      assert u * Cubic(u) == t + n * (u * u + A * u + 2) by {
        OneIdentity(u, n);
      }
      hide *;
      SameRefl(u);
      SameMul(u, u, Cubic(u), 0);
      SameRefl(u * u + A * u + 2);
      SameMul(n, 0, u * u + A * u + 2, u * u + A * u + 2);
      SameSum(u * Cubic(u), u * 0, n * (u * u + A * u + 2), 0 * (u * u + A * u + 2));
      assert u * 0 - 0 * (u * u + A * u + 2) == 0;
      FourIsNot(u, n, t);
    }
  }

  lemma OneIdentity(u: int, n: int)
    requires n == u * u - 1
    ensures u * Cubic(u) == 2 + A * u + n * (u * u + A * u + 2)
  {
    var q := u * u;
    assert u * (u * q) == q * q && u * (A * q) == A * (u * q) && (q - 1) * (q + A * u + 2) == q * q + A * (u * q) + 2 * q - q - A * u - 2;
  }

  lemma FourIsNot(u: int, n: int, t: int)
    requires n == u * u - 1 && t == 2 + A * u && Same(n, 0)
    ensures !Same(t, 0)
  {
    if Same(t, 0) {
      assert t * (A * u - 2) == A * A * n + (A * A - 4) by {
        assert (A * u) * (A * u) == A * A * (u * u);
      }
      SameRefl(A * u - 2);
      SameMul(t, 0, A * u - 2, A * u - 2);
      SameRefl(A * A);
      SameMul(A * A, A * A, n, 0);
      SameSum(t * (A * u - 2), 0 * (A * u - 2), A * A * n, A * A * 0);
      SameIff(A * A - 4, 0);
      assert false;
    }
  }

  lemma HalfOf(v: int)
    requires Same(v, -v)
    ensures Same(v, 0)
  {
    hide Same, Invertible;
    SameRefl(v);
    SameSum(v, -v, v, v);
    SmallUnits();
    assert v + v == v * 2 && -v + v == 0 * 2;
    CancelUnit(v, 0, 2);
  }

  lemma ZeroSquare(v: int, f: int)
    requires Same(v * v, f) && Same(v, 0)
    ensures Same(f, 0) && Same(4 * f, 0)
  {
    hide Same;
    SameMul(v, 0, v, 0);
    SameSym(v * v, f);
    SameTrans(f, v * v, 0);
    SameRefl(4);
    SameMul(4, 4, f, 0);
  }

  lemma FourUnit(v: int, f: int)
    requires Same(v * v, f) && Invertible(v)
    ensures Invertible(f) && Invertible(4 * f)
  {
    hide Same, Invertible;
    InvertibleMul(v, v);
    InvertibleSame(v * v, f);
    SmallUnits();
    InvertibleMul(2, 2);
    InvertibleMul(4, f);
  }

  /** Doubling: what the formulas show is the sum of the point with itself, infinity and points of order 2
      included. */
  lemma DoubleShows(p: Point, a: Spot, c: Spot)
    requires Prime(P) && Shows(p, a) && OnCurve(a) && IsSum(a, a, c)
    ensures Shows(Doubled(p), c)
  {
    hide Same, Invertible, Doubled, Prime;
    match a
    case Infinity =>
      DoubleInfinity(p);
    case Finite(u, v) =>
      var z := p.z;
      SameRefl(z);
      DoubledAt(u, z);
      InvertibleMul(z, z);
      InvertibleMul(z * z, z * z);
      SameRefl(u);
      if Same(v, -v) {
        HalfOf(v);
        ZeroSquare(v, Cubic(u));
        NotOne(u);
        InvertibleMul(u * u - 1, u * u - 1);
        ShowsInfinity(Sq(z * z), Sq(u * u - 1), 4 * Cubic(u));
      } else {
        NonzeroV(v);
        FourUnit(v, Cubic(u));
        var l :| OnLine(a, a, c, l);
        TangentU(u, v, l, c.u);
        ShowsQuotient(Sq(z * z), Sq(u * u - 1), 4 * Cubic(u), c.u, c.v);
      }
      DoubledShows(p, Point(u * z, z), c);
  }

  lemma NonzeroV(v: int)
    requires Prime(P) && !Same(v, -v)
    ensures Invertible(v)
  {
    hide Same, Invertible;
    UnitOrZero(v);
    if Same(v, 0) {
      SameSum(0, 0, v, 0) by {
        SameRefl(0);
      }
      assert 0 - v == -v && 0 - 0 == 0;
      SameSym(-v, 0);
      SameTrans(v, 0, -v);
    }
  }

  lemma DoubleInfinity(p: Point)
    requires Shows(p, Infinity)
    ensures Shows(Doubled(p), Infinity)
  {
    hide Same, Invertible, Doubled;
    var x := p.x;
    DoubledIs(Point(x, 0));
    InvertibleMul(x, x);
    InvertibleMul(x * x, x * x);
    SameRefl(0);
    SameRefl(x);
    assert Doubled(Point(x, 0)) == Point(Sq(x * x), 0) by {
      assert x * 0 == 0 && 0 * 0 == 0;
    }
    DoubledShows(p, Point(x, 0), Infinity);
  }

  // ---- differential addition

  lemma AddedAt(u: int, z: int, u': int, z': int, q: int)
    ensures Added(Point(u * z, z), Point(u' * z', z'), q) == Point(4 * Sq(z * z') * Sq(u * u' - 1), 4 * Sq(z * z') * (Sq(u - u') * q))
  {
    var p, r, y := Point(u * z, z), Point(u' * z', z'), z * z';
    AddedIs(p, r, q);
    assert p.x * r.x - p.z * r.z == (u * u' - 1) * y && p.x * r.z - p.z * r.x == (u - u') * y by {
      assert (u * z) * (u' * z') == (u * u') * y && (u * z) * z' == u * y && z * (u' * z') == u' * y;
    }
    hide Added;
    SquareFactor(u * u' - 1, y);
    SquareFactor(u - u', y);
    Reorder(Sq(y), Sq(u * u' - 1), Sq(u - u'), q);
  }

  lemma Reorder(w: int, n: int, d: int, q: int)
    ensures 4 * (w * n) == 4 * w * n && 4 * (w * d) * q == 4 * w * (d * q)
  {
    assert (w * d) * q == w * (d * q);
  }

  /** One of the points is infinity: the other one is, up to its sign, the difference. */
  lemma AddInfinity(p: Point, r: Point, q: int, s: Spot)
    requires Shows(p, Infinity) && Shows(r, s) && s.Finite? && Same(s.u, q) && Invertible(q)
    ensures Shows(Added(p, r, q), s)
  {
    hide Same, Invertible, Added, Shows;
    ShowsAre(p, r, s);
    var x, z := p.x, r.z;
    AddedIs(Point(x, 0), Point(s.u * z, z), q);
    assert x * (s.u * z) - 0 * z == s.u * (x * z) && x * z - 0 * (s.u * z) == x * z;
    SquareFactor(s.u, x * z);
    assert 4 * Sq(x * z) * q == 4 * Sq(x * z) * (1 * q);
    Reorder(Sq(x * z), Sq(s.u), 1, q);
    InvertibleMul(x, z);
    FourTimesSquare(x * z);
    SameSym(s.u, q);
    SameRefl(s.u);
    SameMul(q, s.u, s.u, s.u);
    ShowsQuotient(4 * Sq(x * z), Sq(s.u), q, s.u, s.v);
    SameRefl(x);
    SameRefl(z);
    AddedShows(p, Point(x, 0), r, Point(s.u * z, z), q, s);
  }

  lemma ShowsAre(p: Point, r: Point, s: Spot)
    requires Shows(p, Infinity) && Shows(r, s) && s.Finite?
    ensures Invertible(p.x) && Same(p.z, 0) && Invertible(r.z) && Same(r.x, s.u * r.z)
  {
  }

  lemma FourTimesSquare(y: int)
    requires Invertible(y)
    ensures Invertible(4 * Sq(y))
  {
    hide Invertible;
    SmallUnits();
    InvertibleMul(2, 2);
    InvertibleMul(y, y);
    InvertibleMul(4, y * y);
  }

  /** Both are finite and not opposite, nor the same: sum and difference lie on the two chords. */
  lemma AddChord(u: int, v: int, u': int, v': int, l: int, m: int, w: int, v'': int, q: int, z: int, z': int)
    requires Same(v * v, Cubic(u)) && Same(v' * v', Cubic(u')) && Invertible(u - u') && Invertible(q)
    requires Same(l * (u - u'), v - v') && Same(m * (u - u'), v + v')
    requires Same(w, l * l - A - u - u') && Same(q, m * m - A - u - u') && Invertible(z) && Invertible(z')
    ensures Shows(Added(Point(u * z, z), Point(u' * z', z'), q), Finite(w, v''))
  {
    hide *;
    ChordU(u, v, u', v', l, m, w, q);
    AddQuotient(u, u', w, v'', q, z, z');
  }

  lemma AddQuotient(u: int, u': int, w: int, v'': int, q: int, z: int, z': int)
    requires Same(Sq(u - u') * (w * q), Sq(u * u' - 1))
    requires Invertible(u - u') && Invertible(q) && Invertible(z) && Invertible(z')
    ensures Shows(Added(Point(u * z, z), Point(u' * z', z'), q), Finite(w, v''))
  {
    hide *;
    AddedAt(u, z, u', z', q);
    InvertibleMul(z, z');
    FourTimesSquare(z * z');
    SquareUnit(u - u');
    InvertibleMul(Sq(u - u'), q);
    LastFirst(Sq(u - u'), q, w);
    ShowsQuotient(4 * Sq(z * z'), Sq(u * u' - 1), Sq(u - u') * q, w, v'');
  }

  lemma LastFirst(d: int, q: int, w: int)
    ensures (d * q) * w == d * (w * q)
  {
  }

  lemma SquareUnit(x: int)
    requires Invertible(x)
    ensures Invertible(Sq(x))
  {
    hide Invertible;
    InvertibleMul(x, x);
  }

  /** Opposite points: the sum is infinity, and the difference the double of one of them. */
  lemma AddOpposite(u: int, v: int, u': int, l: int, q: int, z: int, z': int)
    requires Prime(P) && Same(v * v, Cubic(u)) && Same(u, u') && Invertible(q) && Invertible(z) && Invertible(z')
    requires Same(l * (2 * v), 3 * (u * u) + 2 * A * u + 1) && Same(q, l * l - A - u - u) && Invertible(v)
    ensures Shows(Added(Point(u * z, z), Point(u' * z', z'), q), Infinity)
  {
    TangentU(u, v, l, q);
    FourUnit(v, Cubic(u));
    hide *;
    InvertibleMul(4 * Cubic(u), q);
    InvertibleSame((4 * Cubic(u)) * q, Sq(u * u - 1));
    SquareSame(u, u');
    InvertibleSame(Sq(u * u - 1), Sq(u * u' - 1));
    ZeroDifference(u, u', q);
    AddedAt(u, z, u', z', q);
    InvertibleMul(z, z');
    FourTimesSquare(z * z');
    ShowsInfinity(4 * Sq(z * z'), Sq(u * u' - 1), Sq(u - u') * q);
  }

  lemma SquareSame(u: int, u': int)
    requires Same(u, u')
    ensures Same(Sq(u * u - 1), Sq(u * u' - 1))
  {
    hide Same;
    SameRefl(u);
    SameRefl(1);
    SameMul(u, u, u, u');
    SameSum(u * u, u * u', 1, 1);
    SameMul(u * u - 1, u * u' - 1, u * u - 1, u * u' - 1);
  }

  lemma ZeroDifference(u: int, u': int, q: int)
    requires Same(u, u')
    ensures Same(Sq(u - u') * q, 0)
  {
    hide Same;
    SameRefl(u');
    SameRefl(q);
    SameSum(u, u', u', u');
    assert u' - u' == 0;
    SameMul(u - u', 0, u - u', 0);
    SameMul(Sq(u - u'), 0, q, q);
    assert 0 * q == 0;
  }

  lemma ShowsAlike(p: Point, s: Spot, t: Spot)
    requires Shows(p, s) && Alike(t, s)
    ensures Shows(p, t)
  {
    hide Same, Invertible;
    if s.Finite? {
      SameRefl(p.z);
      SameSym(t.u, s.u);
      SameMul(s.u, t.u, p.z, p.z);
      SameTrans(p.x, s.u * p.z, t.u * p.z);
    }
  }

  lemma Chain(x: int, y: int, z: int)
    requires Same(x, y) && Same(x, z)
    ensures Same(y, z)
  {
    hide Same;
    SameSym(x, y);
    SameTrans(y, x, z);
  }

  lemma Distinct(x: int, y: int)
    requires Prime(P) && !Same(x, y)
    ensures Invertible(x - y)
  {
    hide Same, Invertible;
    UnitOrZero(x - y);
    if Same(x - y, 0) {
      ZeroGap(x, y);
    }
  }

  lemma ZeroGap(x: int, y: int)
    requires Same(x - y, 0)
    ensures Same(x, y)
  {
    hide Same;
    SameRefl(y);
    SameSum(x - y, 0, y, y);
    assert x - y + y == x && 0 + y == y;
  }

  lemma NegSame(x: int, y: int)
    requires Same(x, y)
    ensures Same(-x, -y)
  {
    hide Same;
    SameRefl(0);
    SameSum(0, 0, x, y);
  }

  /** a and b are not opposite, so neither are b and -a: they are different, or the same. */
  lemma SameU(a: Spot, b: Spot)
    requires Prime(P) && a.Finite? && b.Finite? && OnCurve(a) && OnCurve(b) && Same(b.u, a.u) && !Same(b.v, -a.v)
    ensures Same(b.v, a.v)
  {
    hide Same, Invertible, Prime;
    CubicSame(b.u, a.u);
    SameTrans(b.v * b.v, Cubic(b.u), Cubic(a.u));
    SameSym(a.v * a.v, Cubic(a.u));
    SameTrans(b.v * b.v, Cubic(a.u), a.v * a.v);
    SameRefl(a.v * a.v);
    SameSum(b.v * b.v, a.v * a.v, a.v * a.v, a.v * a.v);
    assert (b.v - a.v) * (b.v - -a.v) == b.v * b.v - a.v * a.v && a.v * a.v - a.v * a.v == 0;
    if !Same(b.v, a.v) {
      Distinct(b.v, a.v);
      Distinct(b.v, -a.v);
      InvertibleMul(b.v - a.v, b.v - -a.v);
      ZeroNoUnit((b.v - a.v) * (b.v - -a.v));
    }
  }

  lemma CubicSame(u: int, w: int)
    requires Same(u, w)
    ensures Same(Cubic(u), Cubic(w))
  {
    hide Same;
    SameMul(u, w, u, w);
    SameMul(u, w, u * u, w * w);
    SameRefl(A);
    SameMul(A, A, u * u, w * w);
    SameSum(u * (u * u), w * (w * w), A * (u * u), A * (w * w));
    SameSum(u * (u * u) + A * (u * u), w * (w * w) + A * (w * w), u, w);
  }

  /** The u-coordinate of b - a, with a in the place of its mirror image n. */
  lemma Mirrored(a: Spot, n: Spot, b: Spot, d: Spot, m: int, q: int)
    requires a.Finite? && n.Finite? && b.Finite? && d.Finite? && Opposite(n, a)
    requires Same(d.u, m * m - A - b.u - n.u) && Same(d.u, q)
    ensures Same(q, m * m - A - b.u - a.u)
    ensures Same(m * (b.u - n.u), b.v - n.v) ==> Same(m * (b.u - a.u), b.v + a.v)
  {
    hide Same;
    Chain(d.u, q, m * m - A - b.u - n.u);
    SameRefl(m * m - A - b.u);
    SameSum(m * m - A - b.u, m * m - A - b.u, n.u, a.u);
    SameTrans(q, m * m - A - b.u - n.u, m * m - A - b.u - a.u);
    if Same(m * (b.u - n.u), b.v - n.v) {
      SameRefl(m);
      SameRefl(b.u);
      SameRefl(b.v);
      SameSum(b.u, b.u, n.u, a.u);
      SameMul(m, m, b.u - n.u, b.u - a.u);
      SameSum(b.v, b.v, n.v, -a.v);
      Chain(m * (b.u - n.u), m * (b.u - a.u), b.v - n.v);
      SameTrans(m * (b.u - a.u), b.v - n.v, b.v - -a.v);
    }
  }

  /** Differential addition: if b - a has the coordinate q, not 0, then what the formulas show is a + b,
      infinity and opposite points included. */
  lemma AddShows(p: Point, r: Point, a: Spot, b: Spot, n: Spot, c: Spot, d: Spot, q: int)
    requires Prime(P) && Shows(p, a) && Shows(r, b) && OnCurve(a) && OnCurve(b) && Opposite(n, a)
    requires IsSum(b, a, c) && IsSum(b, n, d) && d.Finite? && Same(d.u, q) && Invertible(q)
    ensures Shows(Added(p, r, q), c)
  {
    hide Same, Invertible, Prime, Added, Shows, OnLine;
    if a.Infinity? {
      Chain(d.u, b.u, q);
      AddInfinity(p, r, q, b);
      ShowsAlike(Added(p, r, q), b, c);
    } else if b.Infinity? {
      SameTrans(d.u, n.u, a.u);
      Chain(d.u, a.u, q);
      AddedCommutes(p, r, q);
      AddInfinity(r, p, q, a);
      ShowsAlike(Added(p, r, q), a, c);
    } else {
      AddFinite(p, r, a, b, n, c, d, q);
    }
  }

  lemma FiniteShows(p: Point, s: Spot)
    requires Shows(p, s) && s.Finite?
    ensures Invertible(p.z) && SamePoint(p, Point(s.u * p.z, p.z))
  {
    SameRefl(p.z);
  }

  lemma AddFinite(p: Point, r: Point, a: Spot, b: Spot, n: Spot, c: Spot, d: Spot, q: int)
    requires Prime(P) && Shows(p, a) && Shows(r, b) && OnCurve(a) && OnCurve(b) && Opposite(n, a) && a.Finite? && b.Finite?
    requires IsSum(b, a, c) && IsSum(b, n, d) && d.Finite? && Same(d.u, q) && Invertible(q)
    ensures Shows(Added(p, r, q), c)
  {
    hide Same, Invertible, Prime, Added, Shows;
    FiniteShows(p, a);
    FiniteShows(r, b);
    NegSame(n.v, -a.v);
    var m :| OnLine(b, n, d, m);
    Mirrored(a, n, b, d, m, q);
    SameSym(n.u, a.u);
    if Same(b.u, a.u) {
      SameTrans(b.u, a.u, n.u);
      if Same(b.v, -a.v) {
        NotItself(a, b, n);
        NonzeroV(b.v);
        SameRefl(m * m - A - b.u);
        SameSym(b.u, a.u);
        SameSum(m * m - A - b.u, m * m - A - b.u, a.u, b.u);
        SameTrans(q, m * m - A - b.u - a.u, m * m - A - b.u - b.u);
        AddOpposite(b.u, b.v, a.u, m, q, r.z, p.z);
      } else {
        SameU(a, b);
        SameSym(-n.v, - -a.v);
        SameTrans(b.v, a.v, -n.v);
      }
    } else {
      if Same(b.u, n.u) {
        SameTrans(b.u, n.u, a.u);
      }
      Distinct(b.u, a.u);
      var l :| OnLine(b, a, c, l);
      AddChord(b.u, b.v, a.u, a.v, l, m, c.u, c.v, q, r.z, p.z);
    }
    AddedShows(r, Point(b.u * r.z, r.z), p, Point(a.u * p.z, p.z), q, c);
    AddedCommutes(p, r, q);
  }

  lemma NotItself(a: Spot, b: Spot, n: Spot)
    requires a.Finite? && b.Finite? && n.Finite? && Same(b.v, -a.v) && Same(n.v, -a.v) && !Same(b.v, -n.v)
    ensures !Same(b.v, -b.v)
  {
    hide Same;
    if Same(b.v, -b.v) {
      Chain(n.v, -a.v, n.v) by {
        SameRefl(n.v);
      }
      SameTrans(b.v, -a.v, n.v);
      NegSame(b.v, n.v);
      SameTrans(b.v, -b.v, -n.v);
    }
  }

  // ---- the ladder

  /** A group of points: `at` gives their coordinates. */
  ghost predicate Curve<G(!new)>(g: Group<G>, at: G -> Spot) {
    && Abelian(g) && at(g.zero) == Infinity && (forall p :: OnCurve(at(p)))
    && (forall p {:trigger g.neg(p)} :: Opposite(at(g.neg(p)), at(p)))
    && (forall p, q {:trigger g.add(p, q)} :: IsSum(at(p), at(q), at(g.add(p, q))))
  }

  /** p shows [k]base. */
  ghost predicate Multiple<G>(g: Group<G>, at: G -> Spot, base: G, k: int, p: Point) {
    Shows(p, at(Times(g, k, base)))
  }

  ghost function Multiples<G>(g: Group<G>, at: G -> Spot, base: G): Ladder.Reading {
    (k: int, p: Point) => Multiple(g, at, base, k, p)
  }

  lemma CurveFacts<G(!new)>(g: Group<G>, at: G -> Spot, p: G, q: G)
    requires Curve(g, at)
    ensures Abelian(g) && at(g.zero) == Infinity && OnCurve(at(p)) && OnCurve(at(q)) && Opposite(at(g.neg(p)), at(p))
    ensures IsSum(at(q), at(p), at(g.add(q, p))) && IsSum(at(q), at(g.neg(p)), at(g.add(q, g.neg(p))))
    ensures IsSum(at(p), at(p), at(g.add(p, p)))
  {
    hide IsSum, OnCurve, Abelian, Opposite;
  }

  lemma MultipleDoubles<G(!new)>(g: Group<G>, at: G -> Spot, base: G, k: int, p: Point)
    requires Prime(P) && Curve(g, at) && Multiple(g, at, base, k, p)
    ensures Multiple(g, at, base, 2 * k, Doubled(p))
  {
    hide Curve, Prime, Shows, IsSum, OnCurve, Doubled, Times, Opposite;
    var e := Times(g, k, base);
    CurveFacts(g, at, e, e);
    TimesAdd(g, k, k, base);
    assert k + k == 2 * k;
    DoubleShows(p, at(e), at(g.add(e, e)));
  }

  lemma MultipleAdds<G(!new)>(g: Group<G>, at: G -> Spot, base: G, k: int, p: Point, r: Point, q: int)
    requires Prime(P) && Curve(g, at) && at(base).Finite? && Same(at(base).u, q) && Invertible(q)
    requires Multiple(g, at, base, k, p) && Multiple(g, at, base, k + 1, r)
    ensures Multiple(g, at, base, 2 * k + 1, Added(p, r, q))
  {
    hide Curve, Prime, Shows, IsSum, OnCurve, Added, Times, Same, Invertible, Opposite, Abelian;
    var e, f := Times(g, k, base), Times(g, k + 1, base);
    CurveFacts(g, at, e, f);
    TimesAdd(g, k + 1, k, base);
    TimesAdd(g, k + 1, -k, base);
    TimesNeg(g, k, base);
    TimesOne(g, base);
    assert k + 1 + k == 2 * k + 1 && k + 1 + -k == 1;
    AddShows(p, r, at(e), at(f), at(g.neg(e)), at(g.add(f, e)), at(g.add(f, g.neg(e))), q);
  }

  /** The formulas of the step are doubling and differential addition on the curve: for any point whose
      u-coordinate q is not 0 they obey the laws that the ladder needs. */
  lemma LadderLaw<G(!new)>(g: Group<G>, at: G -> Spot, base: G, q: int)
    requires Prime(P) && Curve(g, at) && at(base).Finite? && Same(at(base).u, q) && Invertible(q)
    ensures Ladder.CurveLaw(Multiples(g, at, base), q)
  {
    var rep := Multiples(g, at, base);
    hide Curve, Prime, Shows, Doubled, Added, Times, Same, Invertible;
    LadderStart(g, at, base, q);
    forall k, p | k >= 0 ensures Ladder.Doubles(rep, k, p) {
      if Multiple(g, at, base, k, p) {
        MultipleDoubles(g, at, base, k, p);
      }
    }
    forall k, p, r | k >= 0 ensures Ladder.Adds(rep, k, p, r, q) {
      if Multiple(g, at, base, k, p) && Multiple(g, at, base, k + 1, r) {
        MultipleAdds(g, at, base, k, p, r, q);
      }
    }
    forall k, p, r ensures Ladder.Respects(rep, k, p, r) {
      if Multiple(g, at, base, k, p) && SamePoint(p, r) {
        SamePointBack(p, r);
        ShowsSame(p, r, at(Times(g, k, base)));
      }
    }
  }

  lemma SamePointBack(p: Point, r: Point)
    requires SamePoint(p, r)
    ensures SamePoint(r, p)
  {
  }

  lemma LadderStart<G(!new)>(g: Group<G>, at: G -> Spot, base: G, q: int)
    requires Curve(g, at) && at(base).Finite? && Same(at(base).u, q)
    ensures Multiple(g, at, base, 0, Point(1, 0)) && Multiple(g, at, base, 1, Point(q, 1))
  {
    CurveFacts(g, at, base, base);
    hide Curve, Same, Invertible, OnCurve, IsSum, Times, Opposite, Abelian;
    TimesOne(g, base);
    SmallUnits();
    SameRefl(0);
    SameSym(at(base).u, q);
    assert at(base).u * 1 == at(base).u;
  }

  // ---- the point with u = 0

  /** Its ladder keeps x z at 0, so that x z^(p - 2) is 0. */
  predicate Flat(p: Point) {
    Same(p.x * p.z, 0)
  }

  lemma FlatBy(p: Point, f: int, h: int)
    requires p.z == f * h && Same(f, 0)
    ensures Flat(p)
  {
    hide Same;
    SameRefl(p.x * h);
    SameMul(f, 0, p.x * h, p.x * h);
    assert p.x * (f * h) == f * (p.x * h) && 0 * (p.x * h) == 0;
  }

  lemma FlatDoubles(p: Point)
    requires Flat(p)
    ensures Flat(Doubled(p))
  {
    DoubledIs(p);
    hide Same, Doubled;
    var w := p.x * p.x + A * (p.x * p.z) + p.z * p.z;
    assert 4 * (p.x * p.z) * w == (p.x * p.z) * (4 * w);
    FlatBy(Doubled(p), p.x * p.z, 4 * w);
  }

  lemma FlatAdds(p: Point, r: Point, q: int)
    requires Same(q, 0)
    ensures Flat(Added(p, r, q))
  {
    AddedIs(p, r, q);
    hide Same, Added;
    var w := 4 * Sq(p.x * r.z - p.z * r.x);
    assert w * q == q * w;
    FlatBy(Added(p, r, q), q, w);
  }

  lemma {:induction false} FlatRun(m: nat, t: nat, q: int)
    requires Same(q, 0)
    ensures Flat(Ladder.Run(m, t, q).r0) && Flat(Ladder.Run(m, t, q).r1)
  {
    if t == 0 {
      SameRefl(0);
      assert 1 * 0 == 0 && q * 1 == q;
    } else {
      FlatRun(m / 2, t - 1, q);
      var s := Ladder.Run(m / 2, t - 1, q);
      hide Same, Doubled, Added, Flat;
      FlatDoubles(s.r0);
      FlatDoubles(s.r1);
      FlatAdds(s.r0, s.r1, q);
    }
  }

  predicate NoHeight(s: Spot) {
    s.Finite? ==> Same(s.u, 0) && Same(s.v, 0)
  }

  lemma NoHeightSum(a: Spot, b: Spot, c: Spot)
    requires NoHeight(a) && NoHeight(b) && IsSum(a, b, c)
    ensures NoHeight(c)
  {
    hide Same, OnLine;
    if a.Finite? && b.Finite? {
      NegSame(b.v, 0);
      SameSym(b.u, 0);
      SameSym(-b.v, -0);
      SameTrans(a.u, 0, b.u);
      SameTrans(a.v, 0, -b.v);
    } else if a.Finite? {
      SameTrans(c.u, a.u, 0);
      SameTrans(c.v, a.v, 0);
    } else if b.Finite? {
      SameTrans(c.u, b.u, 0);
      SameTrans(c.v, b.v, 0);
    }
  }

  /** It has order 2: all its multiples are itself or infinity. */
  lemma {:induction false} NoHeightTimes<G(!new)>(g: Group<G>, at: G -> Spot, base: G, n: nat)
    requires Curve(g, at) && NoHeight(at(base))
    ensures NoHeight(at(Times(g, n, base)))
  {
    if n == 0 {
    } else {
      NoHeightTimes(g, at, base, n - 1);
      var e := Times(g, n - 1, base);
      assert Times(g, n, base) == g.add(base, e);
      CurveFacts(g, at, e, base);
      hide *;
      NoHeightSum(at(base), at(e), at(g.add(base, e)));
    }
  }

  lemma RootHasNoHeight(s: Spot)
    requires Prime(P) && OnCurve(s) && s.Finite? && Same(s.u, 0)
    ensures NoHeight(s)
  {
    hide Same, Prime;
    CubicSame(s.u, 0);
    assert Cubic(0) == 0;
    SameTrans(s.v * s.v, Cubic(s.u), 0);
    ZeroProduct(s.v, s.v);
  }

  // ---- the quotient

  /** What section 5 of RFC 7748 returns: the u-coordinate, and 0 for infinity. */
  predicate Reads(out: int, s: Spot) {
    match s
    case Infinity => Same(out, 0)
    case Finite(u, _) => Same(out, u)
  }

  /** x z^(p - 2) is the u-coordinate that (x : z) shows. */
  lemma QuotientReads(out: int, p: Point, s: Spot)
    requires Prime(P) && Shows(p, s) && Same(out, p.x * Power(p.z, P - 2))
    ensures Reads(out, s)
  {
    var w := Power(p.z, P - 2);
    hide *;
    FermatSame(p.z);
    ZeroOrInverse(p, s, w);
    match s
    case Infinity =>
      SameRefl(p.x);
      SameMul(p.x, p.x, w, 0);
      assert p.x * 0 == 0;
      SameTrans(out, p.x * w, 0);
      ReadsInfinity(out);
    case Finite(u, v) =>
      QuotientSame(p.x, p.z, w, u);
      SameTrans(out, p.x * w, u);
      ReadsFinite(out, u, v);
  }

  lemma QuotientSame(x: int, z: int, w: int, u: int)
    requires Same(x, u * z) && Same(z * w, 1)
    ensures Same(x * w, u)
  {
    hide *;
    SameRefl(w);
    SameRefl(u);
    SameMul(x, u * z, w, w);
    SameMul(u, u, z * w, 1);
    assert u * 1 == u;
    Associates(u, z, w);
    SameTrans(x * w, (u * z) * w, u);
  }

  lemma Associates(u: int, z: int, w: int)
    ensures (u * z) * w == u * (z * w)
  {
  }

  lemma ReadsInfinity(out: int)
    requires Same(out, 0)
    ensures Reads(out, Infinity)
  {
  }

  lemma ReadsFinite(out: int, u: int, v: int)
    requires Same(out, u)
    ensures Reads(out, Finite(u, v))
  {
  }

  lemma FermatSame(z: int)
    requires Prime(P)
    ensures z % P != 0 ==> Same(z * Power(z, P - 2), 1)
    ensures z % P == 0 ==> Same(Power(z, P - 2), 0)
  {
    hide Power, Prime;
    FermatInverse(P, z);
  }

  lemma ZeroOrInverse(p: Point, s: Spot, w: int)
    requires Shows(p, s) && (p.z % P != 0 ==> Same(p.z * w, 1)) && (p.z % P == 0 ==> Same(w, 0))
    ensures s.Infinity? ==> Same(w, 0)
    ensures s.Finite? ==> Same(p.z * w, 1) && Same(p.x, s.u * p.z)
  {
    SameIff(p.z, 0);
    if Same(p.z, 0) {
      ZeroNoUnit(p.z);
    }
  }

  lemma FlatReads(out: int, p: Point, s: Spot)
    requires Flat(p) && NoHeight(s) && Same(out, p.x * Power(p.z, P - 2))
    ensures Reads(out, s)
  {
    var e: nat := P - 3;
    var w := Power(p.z, e);
    assert Power(p.z, e + 1) == p.z * w;
    hide Power, Same;
    SameRefl(w);
    SameMul(p.x * p.z, 0, w, w);
    assert p.x * (p.z * w) == (p.x * p.z) * w && 0 * w == 0;
    SameTrans(out, p.x * (p.z * w), 0);
    if s.Finite? {
      SameSym(s.u, 0);
      SameTrans(out, 0, s.u);
    }
  }

  lemma FlatSame(p: Point, r: Point)
    requires SamePoint(p, r) && Flat(r)
    ensures Flat(p)
  {
    hide Same;
    SameMul(p.x, r.x, p.z, r.z);
    SameTrans(p.x * p.z, r.x * r.z, 0);
  }

  /** X25519 on the curve: for every point base and every scalar n below 2^t, the ladder from its u-coordinate
      and the power z^(p - 2) give the u-coordinate of [n]base, 0 standing for infinity. */
  lemma LadderReads<G(!new)>(g: Group<G>, at: G -> Spot, base: G, q: int, n: nat, t: nat, p: Point, out: int)
    requires Prime(P) && Curve(g, at) && at(base).Finite? && Same(at(base).u, q) && n < Pow2(t)
    requires SamePoint(p, Ladder.Run(n, t, q).r0) && Same(out, p.x * Power(p.z, P - 2))
    ensures Reads(out, at(Times(g, n, base)))
  {
    var r := Ladder.Run(n, t, q).r0;
    CurveFacts(g, at, base, base);
    hide *;
    UnitOrZero(q);
    if Invertible(q) {
      LadderLaw(g, at, base, q);
      Ladder.RunMeans(Multiples(g, at, base), n, t, q);
      MultipleShows(g, at, base, n, r);
      ShowsSame(r, p, at(Times(g, n, base)));
      QuotientReads(out, p, at(Times(g, n, base)));
    } else {
      SameTrans(at(base).u, q, 0);
      RootHasNoHeight(at(base));
      NoHeightTimes(g, at, base, n);
      FlatRun(n, t, q);
      FlatSame(p, r);
      FlatReads(out, p, at(Times(g, n, base)));
    }
  }

  lemma MultipleShows<G(!new)>(g: Group<G>, at: G -> Spot, base: G, n: nat, r: Point)
    requires Multiples(g, at, base)(n, r)
    ensures Shows(r, at(Times(g, n, base)))
  {
  }
}
