/** The point formulas of Ed25519 on limbs (ed25519-donna/ed25519-donna-impl-base.h:5-172): every operand
    that reaches the field multiplication is within its bounds, and the coordinates computed are those of
    the sum by the affine addition law of the twisted Edwards curve -x^2 + y^2 = 1 + d x^2 y^2. */
module Points {
  import opened FieldModulus
  import opened Fe
  import opened FeMul

  // ---- field elements that stand for known residues

  predicate Is(s: seq<int>, v: int) {
    |s| == 10 && Same(Val(s), v)
  }

  /** What a product or a carrying operation accepts. */
  predicate Fit(s: seq<int>) {
    Tight(s) || Operand(s)
  }

  lemma FitIs(s: seq<int>)
    requires Fit(s)
    ensures |s| == 10 && Operand(s) && Loose(s)
  {
    if Tight(s) {
      TightIsLoose(s);
    } else {
      OperandIsLoose(s);
    }
  }

  method Plus(a: seq<int>, b: seq<int>, ghost u: int, ghost v: int) returns (s: seq<int>)
    requires Tight(a) && Tight(b) && Is(a, u) && Is(b, v)
    ensures Fit(s) && Is(s, u + v)
  {
    s := SumLimbs(a, b);
    assert |s| == 10;
    hide Val, Tight, Sum, Diff;
    SameSum(Val(a), u, Val(b), v);
  }

  method Minus(a: seq<int>, b: seq<int>, ghost u: int, ghost v: int) returns (s: seq<int>)
    requires Tight(a) && Tight(b) && Is(a, u) && Is(b, v)
    ensures Fit(s) && Is(s, u - v)
  {
    s := DiffLimbs(a, b);
    assert |s| == 10;
    hide Val, Tight, Sum, Diff;
    SameSum(Val(a), u, Val(b), v);
    SameBy(Val(s), Val(a) - Val(b), 2);
  }

  method PlusCarried(a: seq<int>, b: seq<int>, ghost u: int, ghost v: int) returns (s: seq<int>)
    requires Fit(a) && Fit(b) && Is(a, u) && Is(b, v)
    ensures Tight(s) && Is(s, u + v)
  {
    FitIs(a);
    FitIs(b);
    s := ReducedSum(a, b);
    TightLength(s);
    hide Val, Tight;
    SameSum(Val(a), u, Val(b), v);
  }

  method MinusCarried(a: seq<int>, b: seq<int>, ghost u: int, ghost v: int) returns (s: seq<int>)
    requires Fit(a) && Fit(b) && Is(a, u) && Is(b, v)
    ensures Tight(s) && Is(s, u - v)
  {
    FitIs(a);
    FitIs(b);
    s := ReducedDiff(a, b);
    TightLength(s);
    hide Val, Tight;
    SameSum(Val(a), u, Val(b), v);
  }

  method Product(a: seq<int>, b: seq<int>, ghost u: int, ghost v: int) returns (s: seq<int>)
    requires Fit(a) && Fit(b) && Is(a, u) && Is(b, v)
    ensures Tight(s) && Is(s, u * v)
  {
    FitIs(a);
    FitIs(b);
    s := MulLimbs(a, b);
    TightLength(s);
    hide Val, Tight;
    SameMul(Val(a), u, Val(b), v);
  }

  method Squared(a: seq<int>, ghost u: int) returns (s: seq<int>)
    requires Fit(a) && Is(a, u)
    ensures Tight(s) && Is(s, u * u)
  {
    FitIs(a);
    s := SquareLimbs(a);
    TightLength(s);
    hide Val, Tight;
    SameMul(Val(a), u, Val(a), u);
  }

  // ---- the addition law

  datatype Affine = Affine(x: int, y: int)

  const D: int := 37095705934669439343138083508754565189542113879843219016388785533085940283555

  /** c is the sum of a and b by the addition law of the curve: its denominators are units modulo p and, multiplied
      out, give its numerators. */
  ghost predicate IsSum(a: Affine, b: Affine, c: Affine) {
    var w := D * ((a.x * a.y) * (b.x * b.y));
    Invertible(1 + w) && Invertible(1 - w) && Same(c.x * (1 + w), a.x * b.y + a.y * b.x) && Same(c.y * (1 - w), a.y * b.y + a.x * b.x)
  }

  /** The law determines the sum. */
  lemma SumOnce(a: Affine, b: Affine, c: Affine, c': Affine)
    requires IsSum(a, b, c) && IsSum(a, b, c')
    ensures Same(c.x, c'.x) && Same(c.y, c'.y)
  {
    var w := D * ((a.x * a.y) * (b.x * b.y));
    hide Same, Invertible;
    SharedQuotient(c.x, c'.x, 1 + w, a.x * b.y + a.y * b.x);
    SharedQuotient(c.y, c'.y, 1 - w, a.y * b.y + a.x * b.x);
  }

  lemma SharedQuotient(x: int, y: int, z: int, n: int)
    requires Same(x * z, n) && Same(y * z, n) && Invertible(z)
    ensures Same(x, y)
  {
    hide *;
    SameSym(y * z, n);
    SameTrans(x * z, n, y * z);
    CancelUnit(x, y, z);
  }

  predicate OnCurve(a: Affine) {
    Same(a.y * a.y - a.x * a.x, 1 + D * ((a.x * a.y) * (a.x * a.y)))
  }

  function Negated(a: Affine): Affine {
    Affine(-a.x, a.y)
  }

  lemma Cross(u: int, v: int, u': int, v': int)
    ensures (v + u) * (v' + u') - (v - u) * (v' - u') == 2 * (u * v' + v * u')
    ensures (v + u) * (v' + u') + (v - u) * (v' - u') == 2 * (v * v' + u * u')
  {
    assert (v + u) * (v' + u') == v * v' + v * u' + u * v' + u * u';
    assert (v - u) * (v' - u') == v * v' - v * u' - u * v' + u * u';
  }

  lemma Factor(m: int, p: int, q: int)
    ensures 2 * (p * m + q * m) == (2 * m) * (p + q)
  {
  }

  lemma Coefficient(d: int, n: int, m: int)
    ensures (2 * d) * (n * m) == (2 * m) * (d * n)
  {
    assert (2 * d) * (n * m) == 2 * (d * (n * m));
    assert d * (n * m) == m * (d * n);
  }

  lemma Outwards(x: int, c: int, y: int)
    ensures x * (c * y) == c * (x * y) && (x * y) * c == c * (x * y)
  {
  }

  /** The third coordinates: (x1 y1 z1) (2 d x2 y2 z2) is 2 z1 z2 times d x1 y1 x2 y2. */
  lemma ThirdProduct(a: int, z: int, b: int, z': int, d: int)
    ensures (a * z) * ((2 * d) * (b * z')) == (2 * (z * z')) * (d * (a * b))
  {
    Outwards(a * z, 2 * d, b * z');
    FourFactors(a, z, b, z');
    Coefficient(d, a * b, z * z');
  }

  /** Scaling both sides of a law c f = g by s. */
  lemma Scaled(c: int, f: int, g: int, s: int, lhs: int, rhs: int)
    requires Same(c * f, g) && lhs == s * g && rhs == s * f
    ensures Same(lhs, c * rhs)
  {
    hide Same;
    SameRefl(s);
    SameMul(s, s, c * f, g);
    assert s * (c * f) == c * (s * f);
    SameSym(s * (c * f), s * g);
  }

  /** The quotients that the addition formulas leave are those of the addition law. */
  lemma AdditionLaw(a: Affine, z: int, b: Affine, z': int, c: Affine)
    requires IsSum(a, b, c) && Invertible(z) && Invertible(z')
    ensures var u, v, u', v' := a.x * z, a.y * z, b.x * z', b.y * z';
      var m, k := z * z', ((a.x * a.y) * z) * ((2 * D) * ((b.x * b.y) * z'));
      && Same((v + u) * (v' + u') - (v - u) * (v' - u'), c.x * (m + m + k))
      && Same((v + u) * (v' + u') + (v - u) * (v' - u'), c.y * (m + m - k))
      && Invertible(m + m + k) && Invertible(m + m - k)
  {
    var u, v, u', v' := a.x * z, a.y * z, b.x * z', b.y * z';
    var m, w := z * z', D * ((a.x * a.y) * (b.x * b.y));
    var k := ((a.x * a.y) * z) * ((2 * D) * ((b.x * b.y) * z'));
    hide Same, Invertible;
    Cross(u, v, u', v');
    FourFactors(a.x, z, b.y, z');
    FourFactors(a.y, z, b.x, z');
    FourFactors(a.y, z, b.y, z');
    FourFactors(a.x, z, b.x, z');
    Factor(m, a.x * b.y, a.y * b.x);
    Factor(m, a.y * b.y, a.x * b.x);
    ThirdProduct(a.x * a.y, z, b.x * b.y, z', D);
    var s := 2 * m;
    assert s * (1 + w) == m + m + k && s * (1 - w) == m + m - k;
    Scaled(c.x, 1 + w, a.x * b.y + a.y * b.x, s, s * (a.x * b.y + a.y * b.x), m + m + k);
    Scaled(c.y, 1 - w, a.y * b.y + a.x * b.x, s, s * (a.y * b.y + a.x * b.x), m + m - k);
    UnitScale(z, z', 1 + w, m + m + k);
    UnitScale(z, z', 1 - w, m + m - k);
  }

  lemma UnitScale(z: int, z': int, f: int, r: int)
    requires Invertible(z) && Invertible(z') && Invertible(f) && r == (2 * (z * z')) * f
    ensures Invertible(r)
  {
    hide *;
    SmallUnits();
    InvertibleMul(z, z');
    InvertibleMul(2, z * z');
    InvertibleMul(2 * (z * z'), f);
  }

  lemma Squares(x: int, y: int, z: int)
    ensures (x * z) * (x * z) == (z * z) * (x * x) && (y * z) * (y * z) == (z * z) * (y * y)
    ensures (x * z + y * z) * (x * z + y * z) - ((y * z) * (y * z) + (x * z) * (x * z)) == (z * z) * (x * y + y * x)
  {
    FourFactors(x, z, x, z);
    FourFactors(y, z, y, z);
    FourFactors(x, z, y, z);
    var u, v := x * z, y * z;
    assert (u + v) * (u + v) == u * u + 2 * (u * v) + v * v;
    assert (x * y) * (z * z) == (z * z) * (x * y);
  }

  lemma Doubled(u: int, v: int, x2: int, y2: int, n: int, w: int)
    requires u * u == n * x2 && v * v == n * y2
    ensures v * v - u * u == n * (y2 - x2) && v * v + u * u == n * (y2 + x2)
    ensures n + n - n * (1 + w) == n * (1 - w)
  {
  }

  /** ... and so are those of the doubling formulas, on the curve. */
  lemma DoublingLaw(a: Affine, z: int, c: Affine)
    requires IsSum(a, a, c) && OnCurve(a) && Invertible(z)
    ensures var u, v, n := a.x * z, a.y * z, z * z;
      && Same((u + v) * (u + v) - (v * v + u * u), c.x * (v * v - u * u))
      && Same(v * v + u * u, c.y * (n + n - (v * v - u * u)))
      && Invertible(v * v - u * u) && Invertible(n + n - (v * v - u * u))
  {
    var n, f := z * z, a.y * a.y - a.x * a.x;
    var w := D * ((a.x * a.y) * (a.x * a.y));
    hide Same, Invertible;
    Squares(a.x, a.y, z);
    Doubled(a.x * z, a.y * z, a.x * a.x, a.y * a.y, n, w);
    SameRefl(n);
    SameRefl(n + n);
    SameMul(n, n, f, 1 + w);
    SameSum(n + n, n + n, n * f, n * (1 + w));
    Scaled(c.x, 1 + w, a.x * a.y + a.y * a.x, n, n * (a.x * a.y + a.y * a.x), n * (1 + w));
    Scaled(c.y, 1 - w, a.y * a.y + a.x * a.x, n, n * (a.y * a.y + a.x * a.x), n * (1 - w));
    Replace(c.x, n * (1 + w), n * f, n * (a.x * a.y + a.y * a.x));
    Replace(c.y, n * (1 - w), n + n - n * f, n * (a.y * a.y + a.x * a.x));
    UnitSquare(z, 1 + w, n * f);
    UnitSquare(z, 1 - w, n + n - n * f);
  }

  lemma UnitSquare(z: int, f: int, r: int)
    requires Invertible(z) && Invertible(f) && Same(r, (z * z) * f)
    ensures Invertible(r)
  {
    hide *;
    InvertibleMul(z, z);
    InvertibleMul(z * z, f);
    SameSym(r, (z * z) * f);
    InvertibleSame((z * z) * f, r);
  }

  lemma Replace(c: int, f: int, f': int, g: int)
    requires Same(g, c * f) && Same(f', f)
    ensures Same(g, c * f')
  {
    hide Same;
    SameRefl(c);
    SameMul(c, c, f', f);
    SameSym(c * f', c * f);
    SameTrans(g, c * f, c * f');
  }

  // ---- coordinates

  /** ge25519: the point (x/z, y/z), with t = x y / z where it is up to date. */
  datatype Extended = Extended(x: seq<int>, y: seq<int>, z: seq<int>, t: seq<int>)

  /** ge25519_p1p1: the point (x/z, y/t). */
  datatype Completed = Completed(x: seq<int>, y: seq<int>, z: seq<int>, t: seq<int>)

  /** ge25519_niels and, with its own z, ge25519_pniels: y - x, y + x and 2 d x y. */
  datatype Niels = Niels(ysubx: seq<int>, xaddy: seq<int>, t2d: seq<int>)

  ghost predicate Shows(p: Extended, a: Affine) {
    && Tight(p.x) && Tight(p.y) && Tight(p.z) && |p.z| == 10 && Invertible(Val(p.z))
    && Is(p.x, a.x * Val(p.z)) && Is(p.y, a.y * Val(p.z))
  }

  ghost predicate ShowsFully(p: Extended, a: Affine) {
    Shows(p, a) && Tight(p.t) && Is(p.t, (a.x * a.y) * Val(p.z))
  }

  ghost predicate Completes(r: Completed, a: Affine) {
    && Fit(r.x) && Fit(r.y) && Fit(r.z) && Fit(r.t) && |r.z| == |r.t| == 10
    && Invertible(Val(r.z)) && Invertible(Val(r.t)) && Is(r.x, a.x * Val(r.z)) && Is(r.y, a.y * Val(r.t))
  }

  /** A precomputed point at the scale z. */
  ghost predicate Precomputed(q: Niels, a: Affine, z: int) {
    && Fit(q.ysubx) && Fit(q.xaddy) && Tight(q.t2d) && Invertible(z)
    && Is(q.ysubx, a.y * z - a.x * z) && Is(q.xaddy, a.y * z + a.x * z)
    && Is(q.t2d, (2 * D) * ((a.x * a.y) * z))
  }

  /** Limbs show one point only. */
  lemma ShowsOnce(p: Extended, a: Affine, b: Affine)
    requires Shows(p, a) && Shows(p, b)
    ensures Same(a.x, b.x) && Same(a.y, b.y)
  {
    hide Same, Val, Tight, Invertible;
    var z := Val(p.z);
    SameSym(Val(p.x), a.x * z);
    SameSym(Val(p.y), a.y * z);
    SameSym(Val(p.x), b.x * z);
    SameSym(Val(p.y), b.y * z);
    SharedQuotient(a.x, b.x, z, Val(p.x));
    SharedQuotient(a.y, b.y, z, Val(p.y));
  }

  lemma Itself(s: seq<int>)
    requires |s| == 10
    ensures Is(s, Val(s))
  {
    SameRefl(Val(s));
  }

  /** From the polynomials that the coordinates stand for to the point. */
  lemma CompletesBy(r: Completed, c: Affine, e: int, h: int, g: int, f: int)
    requires Fit(r.x) && Fit(r.y) && Fit(r.z) && Fit(r.t)
    requires Is(r.x, e) && Is(r.y, h) && Is(r.z, g) && Is(r.t, f) && Same(e, c.x * g) && Same(h, c.y * f)
    requires Invertible(g) && Invertible(f)
    ensures Completes(r, c)
  {
    hide Same, Val, Fit, Invertible;
    UnitIs(r.z, g);
    UnitIs(r.t, f);
    Replace(c.x, g, Val(r.z), e);
    Replace(c.y, f, Val(r.t), h);
    SameTrans(Val(r.x), e, c.x * Val(r.z));
    SameTrans(Val(r.y), h, c.y * Val(r.t));
  }

  lemma UnitIs(s: seq<int>, v: int)
    requires Is(s, v) && Invertible(v)
    ensures |s| == 10 && Invertible(Val(s))
  {
    hide Same, Val, Invertible;
    SameSym(Val(s), v);
    InvertibleSame(v, Val(s));
  }

  /** A coordinate at a scale known up to congruence. */
  lemma Rescaled(s: seq<int>, c: int, f: int, z: seq<int>)
    requires Is(s, c * f) && Is(z, f)
    ensures |z| == 10 && Is(s, c * Val(z))
  {
    hide Same, Val;
    Replace(c, f, Val(z), Val(s));
  }

  // ---- conversions

  lemma CompletedParts(p: Completed, a: Affine)
    requires Completes(p, a)
    ensures Fit(p.x) && Fit(p.y) && Fit(p.z) && Fit(p.t) && |p.z| == |p.t| == 10
    ensures Is(p.x, a.x * Val(p.z)) && Is(p.y, a.y * Val(p.t)) && Is(p.z, Val(p.z)) && Is(p.t, Val(p.t))
    ensures Invertible(Val(p.z)) && Invertible(Val(p.t))
  {
    hide Val, Fit, Invertible;
  }

  lemma ShownBy(r: Extended, a: Affine, g: int, f: int)
    requires Tight(r.x) && Tight(r.y) && Tight(r.z)
    requires Is(r.x, (a.x * g) * f) && Is(r.y, (a.y * f) * g) && Is(r.z, g * f) && Invertible(g) && Invertible(f)
    ensures Shows(r, a)
    ensures Tight(r.t) && Is(r.t, (a.x * g) * (a.y * f)) ==> ShowsFully(r, a)
  {
    hide *;
    InvertibleMul(g, f);
    UnitIs(r.z, g * f);
    Inwards(a.x, g, f);
    Inwards(a.y, f, g);
    assert f * g == g * f;
    FourFactors(a.x, g, a.y, f);
    Rescaled(r.x, a.x, g * f, r.z);
    Rescaled(r.y, a.y, g * f, r.z);
    if Is(r.t, (a.x * g) * (a.y * f)) {
      Rescaled(r.t, a.x * a.y, g * f, r.z);
    }
    ShownIf(r, a);
  }

  lemma Inwards(c: int, g: int, f: int)
    ensures (c * g) * f == c * (g * f)
  {
  }

  lemma ShownIf(r: Extended, a: Affine)
    requires Tight(r.x) && Tight(r.y) && Tight(r.z) && |r.z| == 10 && Is(r.x, a.x * Val(r.z)) && Is(r.y, a.y * Val(r.z))
    requires Invertible(Val(r.z))
    ensures Shows(r, a) && (Tight(r.t) && Is(r.t, (a.x * a.y) * Val(r.z)) ==> ShowsFully(r, a))
  {
  }

  /** ge25519_p1p1_to_partial */
  method ToPartial(p: Completed, ghost a: Affine) returns (r: Extended)
    requires Completes(p, a)
    ensures Shows(r, a)
  {
    hide *;
    CompletedParts(p, a);
    ghost var g, f := Val(p.z), Val(p.t);
    var x := Product(p.x, p.t, a.x * g, f);
    var y := Product(p.y, p.z, a.y * f, g);
    var z := Product(p.z, p.t, g, f);
    r := Extended(x, y, z, []);
    ShownBy(r, a, g, f);
  }

  /** ge25519_p1p1_to_full */
  method ToFull(p: Completed, ghost a: Affine) returns (r: Extended)
    requires Completes(p, a)
    ensures ShowsFully(r, a)
  {
    hide *;
    CompletedParts(p, a);
    ghost var g, f := Val(p.z), Val(p.t);
    var x := Product(p.x, p.t, a.x * g, f);
    var y := Product(p.y, p.z, a.y * f, g);
    var z := Product(p.z, p.t, g, f);
    var t := Product(p.x, p.y, a.x * g, a.y * f);
    r := Extended(x, y, z, t);
    ShownBy(r, a, g, f);
  }

  // ---- additions

  lemma ShownParts(p: Extended, a: Affine)
    requires Shows(p, a)
    ensures Tight(p.x) && Tight(p.y) && Tight(p.z) && Fit(p.x) && Fit(p.y) && Fit(p.z) && |p.z| == 10
    ensures Is(p.x, a.x * Val(p.z)) && Is(p.y, a.y * Val(p.z)) && Is(p.z, Val(p.z)) && Invertible(Val(p.z))
    ensures ShowsFully(p, a) ==> Tight(p.t) && Fit(p.t) && Is(p.t, (a.x * a.y) * Val(p.z))
  {
    hide Val, Tight, Invertible;
  }

  /** The two products of every addition: (y - x) times q0 and (y + x) times q1. */
  method Products(y: seq<int>, x: seq<int>, q0: seq<int>, q1: seq<int>, ghost v: int, ghost u: int, ghost s: int, ghost t: int)
      returns (e: seq<int>, f: seq<int>)
    requires Tight(y) && Tight(x) && Fit(q0) && Fit(q1) && Is(y, v) && Is(x, u) && Is(q0, s) && Is(q1, t)
    ensures Tight(e) && Tight(f) && Is(e, (v - u) * s) && Is(f, (v + u) * t)
  {
    hide *;
    e := Minus(y, x, v, u);
    f := Plus(y, x, v, u);
    e := Product(e, q0, v - u, s);
    f := Product(f, q1, v + u, t);
  }

  /** The end of the additions that carry: x = f - e, y = f + e, z = d + c, t = d - c. */
  method Finish(e: seq<int>, f: seq<int>, d: seq<int>, c: seq<int>, ghost ev: int, ghost fv: int, ghost m: int, ghost k: int)
      returns (r: Completed)
    requires Tight(e) && Tight(f) && Fit(d) && Tight(c) && Is(e, ev) && Is(f, fv) && Is(d, m) && Is(c, k)
    ensures Fit(r.x) && Fit(r.y) && Fit(r.z) && Fit(r.t)
    ensures Is(r.x, fv - ev) && Is(r.y, fv + ev) && Is(r.z, m + k) && Is(r.t, m - k)
  {
    hide *;
    TightFit(c);
    var x := Minus(f, e, fv, ev);
    var y := Plus(f, e, fv, ev);
    var z := PlusCarried(d, c, m, k);
    var t := MinusCarried(d, c, m, k);
    TightFit(z);
    TightFit(t);
    r := Completed(x, y, z, t);
  }

  /** `curve25519_mul(c, p->t, q->t); curve25519_mul(c, c, ge25519_ec2d)` */
  method ThirdProducts(p: seq<int>, q: seq<int>, ghost t1: int, ghost t2: int) returns (c: seq<int>)
    requires Fit(p) && Fit(q) && Is(p, t1) && Is(q, t2)
    ensures Tight(c) && Is(c, t1 * ((2 * D) * t2))
  {
    hide *;
    Constants();
    c := Product(p, q, t1, t2);
    TightFit(c);
    c := Product(c, EC2D, t1 * t2, 2 * D);
    Outwards(t1, 2 * D, t2);
  }

  /** ge25519_add_p1p1: on fully shown points the sum, from operands that never exceed a multiplication's bounds. */
  method AddP1P1(p: Extended, q: Extended, ghost a: Affine, ghost b: Affine, ghost s: Affine) returns (r: Completed)
    requires ShowsFully(p, a) && ShowsFully(q, b) && IsSum(a, b, s)
    ensures Completes(r, s)
  {
    FullyShown(p, a);
    FullyShown(q, b);
    hide *;
    ShownParts(p, a);
    ShownParts(q, b);
    ghost var z, z' := Val(p.z), Val(q.z);
    ghost var u, v, u', v' := a.x * z, a.y * z, b.x * z', b.y * z';
    ghost var t1, t2 := (a.x * a.y) * z, (b.x * b.y) * z';
    var t := Minus(q.y, q.x, v', u');
    var w := Plus(q.y, q.x, v', u');
    var e, f := Products(p.y, p.x, t, w, v, u, v' - u', v' + u');
    var c := ThirdProducts(p.t, q.t, t1, t2);
    var d := Product(p.z, q.z, z, z');
    d := Plus(d, d, z * z', z * z');
    r := Finish(e, f, d, c, (v - u) * (v' - u'), (v + u) * (v' + u'), z * z' + z * z', t1 * ((2 * D) * t2));
    SumCompletes(r, a, z, b, z', s, (v - u) * (v' - u'), (v + u) * (v' + u'), z * z' + z * z', t1 * ((2 * D) * t2));
  }

  /** What every addition comes to in the end. */
  lemma SumCompletes(r: Completed, a: Affine, z: int, b: Affine, z': int, s: Affine, ev: int, fv: int, m: int, k: int)
    requires IsSum(a, b, s) && Fit(r.x) && Fit(r.y) && Fit(r.z) && Fit(r.t) && Invertible(z) && Invertible(z')
    requires ev == (a.y * z - a.x * z) * (b.y * z' - b.x * z') && fv == (a.y * z + a.x * z) * (b.y * z' + b.x * z')
    requires m == z * z' + z * z' && k == ((a.x * a.y) * z) * ((2 * D) * ((b.x * b.y) * z'))
    requires Is(r.x, fv - ev) && Is(r.y, fv + ev) && Is(r.z, m + k) && Is(r.t, m - k)
    ensures Completes(r, s)
  {
    hide *;
    AdditionLaw(a, z, b, z', s);
    CompletesBy(r, s, fv - ev, fv + ev, m + k, m - k);
  }

  lemma FullyShown(p: Extended, a: Affine)
    requires ShowsFully(p, a)
    ensures Shows(p, a)
  {
  }

  lemma TightFit(s: seq<int>)
    requires Tight(s)
    ensures Fit(s) && |s| == 10
  {
    TightLength(s);
  }

  /** ge25519_double_p1p1: on the curve the double, also of a point whose t is not up to date. */
  method DoubleP1P1(p: Extended, ghost a: Affine, ghost s: Affine) returns (r: Completed)
    requires Shows(p, a) && OnCurve(a) && IsSum(a, a, s)
    ensures Completes(r, s)
  {
    hide *;
    ShownParts(p, a);
    ghost var z := Val(p.z);
    ghost var u, v, n := a.x * z, a.y * z, z * z;
    var e := Squared(p.x, u);
    var f := Squared(p.y, v);
    var c := Squared(p.z, z);
    TightFit(c);
    c := PlusCarried(c, c, n, n);
    var x := Plus(p.x, p.y, u, v);
    x := Squared(x, u + v);
    var y := Plus(f, e, v * v, u * u);
    var zz := Minus(f, e, v * v, u * u);
    TightFit(x);
    TightFit(c);
    x := MinusCarried(x, y, (u + v) * (u + v), v * v + u * u);
    var tt := MinusCarried(c, zz, n + n, v * v - u * u);
    TightFit(x);
    TightFit(tt);
    r := Completed(x, y, zz, tt);
    DoublingLaw(a, z, s);
    CompletesBy(r, s, (u + v) * (u + v) - (v * v + u * u), v * v + u * u, v * v - u * u, n + n - (v * v - u * u));
  }

  // ---- additions of a precomputed point

  lemma PrecomputedParts(q: Niels, a: Affine, z: int)
    requires Precomputed(q, a, z)
    ensures Fit(q.ysubx) && Fit(q.xaddy) && Tight(q.t2d) && Fit(q.t2d) && Invertible(z)
    ensures Is(q.ysubx, a.y * z - a.x * z) && Is(q.xaddy, a.y * z + a.x * z) && Is(q.t2d, (2 * D) * ((a.x * a.y) * z))
  {
    hide Tight;
  }

  /** With the signbit the entries y - x and y + x change places, and 2 d x y changes its sign: the negative. */
  lemma NegatedParts(a: Affine, z: int)
    ensures var n := Negated(a);
      && a.y * z + a.x * z == n.y * z - n.x * z && a.y * z - a.x * z == n.y * z + n.x * z
      && (2 * D) * ((n.x * n.y) * z) == -((2 * D) * ((a.x * a.y) * z))
  {
    var x, y := a.x, a.y;
    assert (-x) * z == -(x * z) && (-x) * y == -(x * y);
    assert (-(x * y)) * z == -((x * y) * z);
  }

  lemma NegatedProduct(t: int, k: int)
    ensures t * (-k) == -(t * k)
  {
  }

  /** ge25519_nielsadd2_p1p1 and ge25519_pnielsadd_p1p1 from the doubled product of the two z on: adds the
      precomputed point, or subtracts it when signbit is set. */
  method AddPrecomputed(p: Extended, q: Niels, d: seq<int>, signbit: int, ghost a: Affine, ghost b: Affine, ghost z': int, ghost s: Affine)
      returns (r: Completed)
    requires ShowsFully(p, a) && Precomputed(q, b, z') && (signbit == 0 || signbit == 1)
    requires |p.z| == 10 && Tight(d) && Is(d, Val(p.z) * z' + Val(p.z) * z')
    requires IsSum(a, if signbit == 1 then Negated(b) else b, s)
    ensures Completes(r, s)
  {
    FullyShown(p, a);
    hide *;
    ShownParts(p, a);
    PrecomputedParts(q, b, z');
    NegatedParts(b, z');
    ghost var b' := if signbit == 1 then Negated(b) else b;
    ghost var z, m := Val(p.z), Val(p.z) * z' + Val(p.z) * z';
    ghost var u, v, u', v' := a.x * z, a.y * z, b'.x * z', b'.y * z';
    ghost var k := ((a.x * a.y) * z) * ((2 * D) * ((b'.x * b'.y) * z'));
    NegatedProduct((a.x * a.y) * z, (2 * D) * ((b.x * b.y) * z'));
    var e, f;
    if signbit == 0 {
      e, f := Products(p.y, p.x, q.ysubx, q.xaddy, v, u, v' - u', v' + u');
    } else {
      e, f := Products(p.y, p.x, q.xaddy, q.ysubx, v, u, v' - u', v' + u');
    }
    var c := Product(p.t, q.t2d, (a.x * a.y) * z, (2 * D) * ((b.x * b.y) * z'));
    r := FinishSigned(e, f, d, c, signbit, (v - u) * (v' - u'), (v + u) * (v' + u'), m, k);
    SumCompletes(r, a, z, b', z', s, (v - u) * (v' - u'), (v + u) * (v' + u'), m, k);
  }

  /** The end of the additions with a signbit, which tells where c is added and where it is subtracted. */
  method FinishSigned(e: seq<int>, f: seq<int>, d: seq<int>, c: seq<int>, signbit: int,
                      ghost ev: int, ghost fv: int, ghost m: int, ghost k: int)
      returns (r: Completed)
    requires Tight(e) && Tight(f) && Tight(d) && Tight(c) && (signbit == 0 || signbit == 1)
    requires Is(e, ev) && Is(f, fv) && Is(d, m) && Is(c, if signbit == 1 then -k else k)
    ensures Fit(r.x) && Fit(r.y) && Fit(r.z) && Fit(r.t)
    ensures Is(r.x, fv - ev) && Is(r.y, fv + ev) && Is(r.z, m + k) && Is(r.t, m - k)
  {
    hide *;
    var y := Plus(f, e, fv, ev);
    var x := Minus(f, e, fv, ev);
    var sum := Plus(d, c, m, if signbit == 1 then -k else k);
    var difference := Minus(d, c, m, if signbit == 1 then -k else k);
    r := if signbit == 0 then Completed(x, y, sum, difference) else Completed(x, y, difference, sum);
  }

  /** ge25519_nielsadd2_p1p1: the precomputed point has z = 1. */
  method NielsAdd2P1P1(p: Extended, q: Niels, signbit: int, ghost a: Affine, ghost b: Affine, ghost s: Affine) returns (r: Completed)
    requires ShowsFully(p, a) && Precomputed(q, b, 1) && (signbit == 0 || signbit == 1)
    requires IsSum(a, if signbit == 1 then Negated(b) else b, s)
    ensures Completes(r, s)
  {
    FullyShown(p, a);
    hide *;
    ShownParts(p, a);
    var d := PlusCarried(p.z, p.z, Val(p.z), Val(p.z));
    r := AddPrecomputed(p, q, d, signbit, a, b, 1, s);
  }

  /** ge25519_pnielsadd_p1p1: the precomputed point comes with its own z. */
  method PnielsAddP1P1(p: Extended, q: Niels, qz: seq<int>, signbit: int, ghost a: Affine, ghost b: Affine, ghost s: Affine) returns (r: Completed)
    requires ShowsFully(p, a) && Tight(qz) && |qz| == 10 && Precomputed(q, b, Val(qz)) && (signbit == 0 || signbit == 1)
    requires IsSum(a, if signbit == 1 then Negated(b) else b, s)
    ensures Completes(r, s)
  {
    FullyShown(p, a);
    hide *;
    ShownParts(p, a);
    Itself(qz);
    TightFit(qz);
    ghost var m := Val(p.z) * Val(qz);
    var d := Product(p.z, qz, Val(p.z), Val(qz));
    TightFit(d);
    d := PlusCarried(d, d, m, m);
    r := AddPrecomputed(p, q, d, signbit, a, b, Val(qz), s);
  }

  /** ge25519_nielsadd2: the accumulator with a precomputed point added to it. */
  method NielsAdd2(p: Extended, q: Niels, ghost a: Affine, ghost b: Affine, ghost s: Affine) returns (r: Extended)
    requires ShowsFully(p, a) && Precomputed(q, b, 1) && IsSum(a, b, s)
    ensures ShowsFully(r, s)
  {
    var d := DoubledZ(p, a);
    var t := AddCarried(p, q, d, a, b, 1, s);
    r := ToFull(t, s);
  }

  method DoubledZ(p: Extended, ghost a: Affine) returns (d: seq<int>)
    requires Shows(p, a)
    ensures Fit(d) && |p.z| == 10 && Is(d, Val(p.z) * 1 + Val(p.z) * 1)
  {
    hide *;
    ShownParts(p, a);
    d := Plus(p.z, p.z, Val(p.z), Val(p.z));
  }

  /** ge25519_nielsadd2 and ge25519_pnielsadd up to the completed point. */
  method AddCarried(p: Extended, q: Niels, d: seq<int>, ghost a: Affine, ghost b: Affine, ghost z': int, ghost s: Affine)
      returns (r: Completed)
    requires ShowsFully(p, a) && Precomputed(q, b, z') && IsSum(a, b, s)
    requires |p.z| == 10 && Fit(d) && Is(d, Val(p.z) * z' + Val(p.z) * z')
    ensures Completes(r, s)
  {
    FullyShown(p, a);
    hide *;
    ShownParts(p, a);
    PrecomputedParts(q, b, z');
    ghost var z := Val(p.z);
    ghost var u, v, u', v' := a.x * z, a.y * z, b.x * z', b.y * z';
    ghost var t1, k2 := (a.x * a.y) * z, (2 * D) * ((b.x * b.y) * z');
    var e, f := Products(p.y, p.x, q.ysubx, q.xaddy, v, u, v' - u', v' + u');
    var c := Product(p.t, q.t2d, t1, k2);
    r := Finish(e, f, d, c, (v - u) * (v' - u'), (v + u) * (v' + u'), z * z' + z * z', t1 * k2);
    SumCompletes(r, a, z, b, z', s, (v - u) * (v' - u'), (v + u) * (v' + u'), z * z' + z * z', t1 * k2);
  }

  // ---- precomputing

  /** ge25519_full_to_pniels */
  method FullToPniels(r: Extended, ghost a: Affine) returns (q: Niels, qz: seq<int>)
    requires ShowsFully(r, a)
    ensures Tight(qz) && |qz| == 10 && Precomputed(q, a, Val(qz))
  {
    FullyShown(r, a);
    hide *;
    ShownParts(r, a);
    Constants();
    ghost var z := Val(r.z);
    var ysubx := Minus(r.y, r.x, a.y * z, a.x * z);
    var xaddy := Plus(r.y, r.x, a.y * z, a.x * z);
    var t2d := Product(r.t, EC2D, (a.x * a.y) * z, 2 * D);
    assert ((a.x * a.y) * z) * (2 * D) == (2 * D) * ((a.x * a.y) * z);
    q, qz := Niels(ysubx, xaddy, t2d), r.z;
    PrecomputedIf(q, a, z);
  }

  /** ge25519_pnielsadd: the sum, precomputed again. */
  method PnielsAdd(p: Extended, q: Niels, qz: seq<int>, ghost a: Affine, ghost b: Affine, ghost s: Affine) returns (r: Niels, rz: seq<int>)
    requires ShowsFully(p, a) && Tight(qz) && |qz| == 10 && Precomputed(q, b, Val(qz)) && IsSum(a, b, s)
    ensures Tight(rz) && |rz| == 10 && Precomputed(r, s, Val(rz))
  {
    FullyShown(p, a);
    hide *;
    ShownParts(p, a);
    Itself(qz);
    TightFit(qz);
    ghost var m := Val(p.z) * Val(qz);
    var t := Product(p.z, qz, Val(p.z), Val(qz));
    t := Plus(t, t, m, m);
    var sum := AddCarried(p, q, t, a, b, Val(qz), s);
    var full := ToFull(sum, s);
    r, rz := FullToPniels(full, s);
  }

  /** `curve25519_mul(t.t2d, t.t2d, ge25519_ecd)`: an entry of row 0 made into one for the addition. */
  method ScaleByD(ysubx: seq<int>, xaddy: seq<int>, t2xy: seq<int>, ghost a: Affine) returns (q: Niels)
    requires Fit(ysubx) && Fit(xaddy) && Tight(t2xy)
    requires Is(ysubx, a.y - a.x) && Is(xaddy, a.y + a.x) && Is(t2xy, 2 * (a.x * a.y))
    ensures Precomputed(q, a, 1)
  {
    hide *;
    Constants();
    TightFit(t2xy);
    var t2d := Product(t2xy, ECD, 2 * (a.x * a.y), D);
    q := Niels(ysubx, xaddy, t2d);
    Outwards(a.x * a.y, 2, D);
    SmallUnits();
    PrecomputedIf(q, a, 1);
  }

  lemma PrecomputedIf(q: Niels, a: Affine, z: int)
    requires Fit(q.ysubx) && Fit(q.xaddy) && Tight(q.t2d) && Invertible(z)
    requires Is(q.ysubx, a.y * z - a.x * z) && Is(q.xaddy, a.y * z + a.x * z) && Is(q.t2d, (2 * D) * ((a.x * a.y) * z))
    ensures Precomputed(q, a, z)
  {
  }

  /** ge25519_scalarmult_base_niels, first entry: y + x - (y - x) = 2x, y + x + (y - x) = 2y, z = 2 and, as row 0
      of the comb table holds it, t = 2 x y. */
  method LoadComb(xaddy: seq<int>, ysubx: seq<int>, t2xy: seq<int>, ghost a: Affine) returns (r: Extended)
    requires Fit(ysubx) && Fit(xaddy) && Tight(t2xy)
    requires Is(ysubx, a.y - a.x) && Is(xaddy, a.y + a.x) && Is(t2xy, 2 * (a.x * a.y))
    ensures ShowsFully(r, a)
  {
    Two();
    hide *;
    SmallUnits();
    var x := MinusCarried(xaddy, ysubx, a.y + a.x, a.y - a.x);
    var y := PlusCarried(xaddy, ysubx, a.y + a.x, a.y - a.x);
    r := Extended(x, y, TWO, t2xy);
    assert a.y + a.x - (a.y - a.x) == a.x * 2 && a.y + a.x + (a.y - a.x) == a.y * 2;
    ShownIf(r, a);
  }

  const TWO: seq<int> := [2, 0, 0, 0, 0, 0, 0, 0, 0, 0]

  lemma Two()
    ensures Tight(TWO) && |TWO| == 10 && Val(TWO) == 2
  {
  }

  /** ge25519_ecd and ge25519_ec2d */
  const ECD: seq<int> := [0x035978a3, 0x00d37284, 0x03156ebd, 0x006a0a0e, 0x0001c029, 0x0179e898, 0x03a03cbb, 0x01ce7198, 0x02e2b6ff, 0x01480db3]
  const EC2D: seq<int> := [0x02b2f159, 0x01a6e509, 0x022add7a, 0x00d4141d, 0x00038052, 0x00f3d130, 0x03407977, 0x019ce331, 0x01c56dff, 0x00901b67]

  /** The tables hold d and 2 d, with d = -121665/121666. */
  lemma Constants()
    ensures Fit(ECD) && Is(ECD, D) && Fit(EC2D) && Is(EC2D, 2 * D) && Same(D * 121666, -121665)
  {
    assert Tight(ECD) && Val(ECD) == D;
    assert Tight(EC2D) && Val(EC2D) == 2 * D - P;
    SameRefl(D);
    SameBy(Val(EC2D), 2 * D, -1);
    SameBy(D * 121666, -121665, (D * 121666 + 121665) / P);
  }
}
