/** One step of the Montgomery ladder on limbs: fmonty (curve25519/curve25519-donna.c:515-573) against the
    formulas of section 5 of RFC 7748. */
module Montgomery {
  import opened Bits
  import opened FieldModulus
  import opened Fe
  import opened Donna

  datatype Point = Point(x: int, z: int)

  const A24 := 121665

  /** The coefficient of the curve v^2 = u^3 + A u^2 + u. */
  const A := 486662

  function Sq(x: int): int {
    x * x
  }

  /** x_2, z_2: from the coordinates of a point those of its double. */
  function Doubled(p: Point): Point {
    FromSquares(Sq(p.x + p.z), Sq(p.x - p.z))
  }

  function FromSquares(aa: int, bb: int): Point {
    var e := aa - bb;
    Point(aa * bb, e * (A24 * e + aa))
  }

  /** x_3, z_3: the sum of two points whose difference has the affine coordinate x1. */
  function Added(p: Point, q: Point, x1: int): Point {
    var da, cb := (q.x + q.z) * (p.x - p.z), (p.x + p.z) * (q.x - q.z);
    Point(Sq(da + cb), Sq(da - cb) * x1)
  }

  /** The sum does not depend on the order of the points. */
  lemma AddedCommutes(p: Point, q: Point, x1: int)
    ensures Added(p, q, x1) == Added(q, p, x1)
  {
    var da, cb := (q.x + q.z) * (p.x - p.z), (p.x + p.z) * (q.x - q.z);
    assert (p.x + p.z) * (q.x - q.z) == cb && (q.x + q.z) * (p.x - p.z) == da;
    assert Sq(da - cb) == Sq(cb - da) by {
      SquareNeg(da - cb);
    }
    assert da + cb == cb + da;
  }

  lemma SquareNeg(x: int)
    ensures Sq(x) == Sq(-x)
  {
  }

  /** Doubling multiplied out. */
  lemma DoubledIs(p: Point)
    ensures Doubled(p) == Point(Sq(p.x * p.x - p.z * p.z), 4 * (p.x * p.z) * (p.x * p.x + A * (p.x * p.z) + p.z * p.z))
  {
    var a, b, c := p.x * p.x, p.x * p.z, p.z * p.z;
    assert Sq(p.x + p.z) == a + 2 * b + c && Sq(p.x - p.z) == a - 2 * b + c;
    assert a * c == b * b by {
      assert (p.x * p.x) * (p.z * p.z) == p.x * (p.x * (p.z * p.z)) == p.x * (p.z * (p.x * p.z));
    }
    hide *;
    SquareProducts(a, b, c);
  }

  lemma SquareProducts(a: int, b: int, c: int)
    requires a * c == b * b
    ensures FromSquares(a + 2 * b + c, a - 2 * b + c) == Point(Sq(a - c), 4 * b * (a + A * b + c))
  {
    var aa, bb := a + 2 * b + c, a - 2 * b + c;
    assert aa * bb == (a + c) * (a + c) - 4 * (b * b);
    assert (a + c) * (a + c) == (a - c) * (a - c) + 4 * (a * c);
    assert aa - bb == 4 * b && A24 * (aa - bb) + aa == a + A * b + c;
  }

  /** Differential addition multiplied out. */
  lemma AddedIs(p: Point, q: Point, x1: int)
    ensures Added(p, q, x1) == Point(4 * Sq(p.x * q.x - p.z * q.z), 4 * Sq(p.x * q.z - p.z * q.x) * x1)
  {
    var da, cb := (q.x + q.z) * (p.x - p.z), (p.x + p.z) * (q.x - q.z);
    var m, n := p.x * q.x - p.z * q.z, p.x * q.z - p.z * q.x;
    assert da == p.x * q.x - p.z * q.z + (p.x * q.z - p.z * q.x);
    assert cb == p.x * q.x - p.z * q.z - (p.x * q.z - p.z * q.x);
    assert da + cb == 2 * m && da - cb == 2 * n;
    hide *;
    TwiceSquared(m);
    TwiceSquared(n);
    AddedFrom(p, q, x1, da, cb);
  }

  lemma TwiceSquared(m: int)
    ensures Sq(2 * m) == 4 * Sq(m)
  {
  }

  lemma AddedFrom(p: Point, q: Point, x1: int, da: int, cb: int)
    requires da == (q.x + q.z) * (p.x - p.z) && cb == (p.x + p.z) * (q.x - q.z)
    ensures Added(p, q, x1) == Point(Sq(da + cb), Sq(da - cb) * x1)
  {
  }

  predicate SamePoint(p: Point, q: Point) {
    Same(p.x, q.x) && Same(p.z, q.z)
  }

  lemma SquaresSame(p: Point, q: Point)
    requires SamePoint(p, q)
    ensures Same(Sq(p.x + p.z), Sq(q.x + q.z)) && Same(Sq(p.x - p.z), Sq(q.x - q.z))
  {
    hide Same;
    SameSum(p.x, q.x, p.z, q.z);
    SameMul(p.x + p.z, q.x + q.z, p.x + p.z, q.x + q.z);
    SameMul(p.x - p.z, q.x - q.z, p.x - p.z, q.x - q.z);
  }

  lemma FromSquaresSame(aa: int, bb: int, aa': int, bb': int)
    requires Same(aa, aa') && Same(bb, bb')
    ensures SamePoint(FromSquares(aa, bb), FromSquares(aa', bb'))
  {
    hide Same;
    SameMul(aa, aa', bb, bb');
    SameSum(aa, aa', bb, bb');
    var e, e' := aa - bb, aa' - bb';
    SameRefl(A24);
    SameMul(A24, A24, e, e');
    SameSum(A24 * e, A24 * e', aa, aa');
    SameMul(e, e', A24 * e + aa, A24 * e' + aa');
  }

  lemma AddedSame(p: Point, p': Point, q: Point, q': Point, x1: int)
    requires SamePoint(p, p') && SamePoint(q, q')
    ensures SamePoint(Added(p, q, x1), Added(p', q', x1))
  {
    hide Same;
    SameSum(p.x, p'.x, p.z, p'.z);
    SameSum(q.x, q'.x, q.z, q'.z);
    SameMul(q.x + q.z, q'.x + q'.z, p.x - p.z, p'.x - p'.z);
    SameMul(p.x + p.z, p'.x + p'.z, q.x - q.z, q'.x - q'.z);
    var da, cb := (q.x + q.z) * (p.x - p.z), (p.x + p.z) * (q.x - q.z);
    var da', cb' := (q'.x + q'.z) * (p'.x - p'.z), (p'.x + p'.z) * (q'.x - q'.z);
    SameSum(da, da', cb, cb');
    SameMul(da + cb, da' + cb', da + cb, da' + cb');
    SameMul(da - cb, da' - cb', da - cb, da' - cb');
    SameRefl(x1);
    SameMul(Sq(da - cb), Sq(da' - cb'), x1, x1);
  }

  // ---- limbs

  const ONE: seq<int> := [1, 0, 0, 0, 0, 0, 0, 0, 0, 0]

  /** Coordinates that fmonty takes: short ones, or the input point with z = 1. */
  predicate Coordinates(x: seq<int>, z: seq<int>) {
    (Short(x) && Short(z)) || (Fresh(x) && z == ONE)
  }

  function At(x: seq<int>, z: seq<int>): Point
    requires |x| == |z| == 10
  {
    Point(Val(x), Val(z))
  }

  lemma CoordinateSums(x: seq<int>, z: seq<int>)
    requires Coordinates(x, z)
    ensures |x| == |z| == 10 && Spread(x) && Spread(z)
    ensures forall s: seq<int> :: |s| == 10 && (forall i :: 0 <= i < 10 ==> s[i] == x[i] + z[i]) ==> Spread(s)
    ensures forall s: seq<int> :: |s| == 10 && (forall i :: 0 <= i < 10 ==> s[i] == x[i] - z[i]) ==> Spread(s)
  {
  }

  /** `memcpy(origx, x); fsum(x, z); fdifference(z, origx)` */
  method SumAndDifference(x: seq<int>, z: seq<int>) returns (s: seq<int>, d: seq<int>)
    requires Coordinates(x, z)
    ensures |x| == |z| == |s| == |d| == 10 && Spread(s) && Spread(d)
    ensures Val(s) == Val(x) + Val(z) && Val(d) == Val(x) - Val(z)
  {
    CoordinateSums(x, z);
    hide Spread, Val, Coordinates;
    s := Plus(x, z);
    d := Minus(x, z);
  }

  lemma ShortCoordinates(x: seq<int>, z: seq<int>)
    requires Short(x) && Short(z)
    ensures Coordinates(x, z) && Spread(x) && Spread(z)
  {
  }

  /** The doubling half of fmonty, from x + z and x - z. */
  method DoublePoint(xs: seq<int>, zd: seq<int>, ghost p: Point) returns (x2: seq<int>, z2: seq<int>)
    requires Spread(xs) && Spread(zd) && |xs| == |zd| == 10 && Val(xs) == p.x + p.z && Val(zd) == p.x - p.z
    ensures |x2| == |z2| == 10 && Short(x2) && Short(z2) && SamePoint(At(x2, z2), Doubled(p))
  {
    hide Spread, Val, Same;
    var xx := Square(xs);
    var zz := Square(zd);
    ShortCoordinates(xx, zz);
    x2 := Mul(xx, zz);
    ghost var aa, bb := Sq(p.x + p.z), Sq(p.x - p.z);
    assert Short(x2) && |xx| == |zz| == 10;
    SameMul(Val(xx), aa, Val(zz), bb);
    SameTrans(Val(x2), Val(xx) * Val(zz), aa * bb);
    SameSum(Val(xx), aa, Val(zz), bb);
    var e := Minus(xx, zz);
    ShortSums(xx, zz, e);
    var zzz := ScalarProduct(e);
    assert |zzz| == 10;
    var t := Plus(zzz, xx) by { ShortCoordinates(zzz, xx); }
    ShortSums(zzz, xx, t);
    z2 := Mul(e, t);
    DoubleZ(Val(e), Val(zzz), Val(t), Val(xx), Val(z2), aa, aa - bb);
  }

  lemma DoubleZ(e: int, zzz: int, t: int, xx: int, z2: int, aa: int, e': int)
    requires Same(e, e') && Same(zzz, A24 * e) && t == zzz + xx && Same(xx, aa) && Same(z2, e * t)
    ensures Same(z2, e' * (A24 * e' + aa))
  {
    hide Same;
    SameRefl(A24);
    SameMul(A24, A24, e, e');
    SameTrans(zzz, A24 * e, A24 * e');
    SameSum(zzz, A24 * e', xx, aa);
    SameMul(e, e', t, A24 * e' + aa);
    SameTrans(z2, e * t, e' * (A24 * e' + aa));
  }

  /** The differential addition half. */
  method DifferentialAdd(xs: seq<int>, zd: seq<int>, xps: seq<int>, zpd: seq<int>, q: seq<int>, ghost p: Point, ghost p': Point)
      returns (x3: seq<int>, z3: seq<int>)
    requires Spread(xs) && Spread(zd) && Spread(xps) && Spread(zpd) && Spread(q)
    requires |xs| == |zd| == |xps| == |zpd| == |q| == 10
    requires Val(xs) == p.x + p.z && Val(zd) == p.x - p.z && Val(xps) == p'.x + p'.z && Val(zpd) == p'.x - p'.z
    ensures |x3| == |z3| == 10 && Short(x3) && Short(z3) && SamePoint(At(x3, z3), Added(p, p', Val(q)))
  {
    hide Spread, Val, Same;
    var a := Mul(xps, zd);
    var b := Mul(xs, zpd);
    ShortCoordinates(a, b);
    ghost var da, cb := (p'.x + p'.z) * (p.x - p.z), (p.x + p.z) * (p'.x - p'.z);
    var s, d := SumAndDifference(a, b);
    SameSum(Val(a), da, Val(b), cb);
    x3 := Square(s);
    var t := Square(d);
    ShortCoordinates(t, x3);
    z3 := Mul(t, q);
    assert |t| == |x3| == |z3| == 10;
    AddCoordinates(Val(s), Val(d), Val(x3), Val(t), Val(z3), da + cb, da - cb, Val(q));
  }

  lemma AddCoordinates(s: int, d: int, x3: int, t: int, z3: int, s': int, d': int, q: int)
    requires Same(s, s') && Same(d, d') && Same(x3, s * s) && Same(t, d * d) && Same(z3, t * q)
    ensures Same(x3, Sq(s')) && Same(z3, Sq(d') * q)
  {
    hide Same;
    SameMul(s, s', s, s');
    SameTrans(x3, s * s, Sq(s'));
    SameMul(d, d', d, d');
    SameTrans(t, d * d, Sq(d'));
    SameRefl(q);
    SameMul(t, Sq(d'), q, q);
    SameTrans(z3, t * q, Sq(d') * q);
  }

  /** fmonty: from Q and Q' and the coordinate of their difference to 2Q and Q + Q'. */
  method Step(x: seq<int>, z: seq<int>, xp: seq<int>, zp: seq<int>, q: seq<int>)
      returns (x2: seq<int>, z2: seq<int>, x3: seq<int>, z3: seq<int>)
    requires Coordinates(x, z) && Coordinates(xp, zp) && Spread(q) && |x| == |z| == |xp| == |zp| == |q| == 10
    ensures |x2| == |z2| == |x3| == |z3| == 10 && Short(x2) && Short(z2) && Short(x3) && Short(z3)
    ensures SamePoint(At(x2, z2), Doubled(At(x, z)))
    ensures SamePoint(At(x3, z3), Added(At(x, z), At(xp, zp), Val(q)))
  {
    hide Spread, Val, Same, Short, Coordinates, Doubled, Added;
    var s, d := SumAndDifference(x, z);
    var sp, dp := SumAndDifference(xp, zp);
    x3, z3 := DifferentialAdd(s, d, sp, dp, q, At(x, z), At(xp, zp));
    x2, z2 := DoublePoint(s, d, At(x, z));
  }
}
