/** Arithmetic modulo p = 2^255 - 19 on plain integers: congruence and powers.  Both field
    representations of the repository are stated against it. */
module FieldModulus {
  import opened Bits
  import opened Congruence

  const P: int := 0x8000000000000000000000000000000000000000000000000000000000000000 - 19

  predicate Same(x: int, y: int) {
    Cong(x, y, P)
  }

  lemma SameIff(x: int, y: int)
    ensures Same(x, y) <==> x % P == y % P
  {
    CongIff(x, y, P);
  }

  lemma SameRefl(x: int)
    ensures Same(x, x)
  {
  }

  lemma SameSym(x: int, y: int)
    requires Same(x, y)
    ensures Same(y, x)
  {
  }

  lemma SameTrans(x: int, y: int, z: int)
    requires Same(x, y) && Same(y, z)
    ensures Same(x, z)
  {
  }

  lemma SameBy(x: int, y: int, k: int)
    requires x == y + P * k
    ensures Same(x, y)
  {
    CongBy(x, y, k, P);
  }

  lemma SameMul(x: int, x': int, y: int, y': int)
    requires Same(x, x') && Same(y, y')
    ensures Same(x * y, x' * y')
  {
    CongMul(x, x', y, y', P);
  }

  lemma SameSum(x: int, x': int, y: int, y': int)
    requires Same(x, x') && Same(y, y')
    ensures Same(x + y, x' + y') && Same(x - y, x' - y')
  {
    CongSum(x, x', y, y', P);
  }

  lemma SamePower(x: int, y: int, n: nat)
    requires Same(x, y)
    ensures Same(Power(x, n), Power(y, n))
  {
    CongPower(x, y, n, P);
  }

  // ---- units

  predicate Inverts(x: int, i: int) {
    Same(x * i, 1)
  }

  ghost predicate Invertible(x: int) {
    exists i :: Inverts(x, i)
  }

  lemma SmallUnits()
    ensures Invertible(1) && Invertible(2)
  {
    SameRefl(1);
    assert Inverts(1, 1);
    SameBy(2 * ((P + 1) / 2), 1, 1);
    assert Inverts(2, (P + 1) / 2);
  }

  lemma InvertibleSame(x: int, y: int)
    requires Same(x, y) && Invertible(x)
    ensures Invertible(y)
  {
    hide Same;
    var i :| Inverts(x, i);
    SameRefl(i);
    SameMul(x, y, i, i);
    SameSym(x * i, y * i);
    SameTrans(y * i, x * i, 1);
    assert Inverts(y, i);
  }

  lemma InvertibleMul(x: int, y: int)
    requires Invertible(x) && Invertible(y)
    ensures Invertible(x * y)
  {
    hide Same;
    var i :| Inverts(x, i);
    var j :| Inverts(y, j);
    SameMul(x * i, 1, y * j, 1);
    FourFactors(x, i, y, j);
    assert Inverts(x * y, i * j);
  }

  lemma FourFactors(a: int, b: int, c: int, d: int)
    ensures (a * b) * (c * d) == (a * c) * (b * d)
  {
    assert (a * b) * (c * d) == a * (b * (c * d)) == a * (c * (b * d));
  }

  /** A unit can be divided out. */
  lemma CancelUnit(x: int, y: int, z: int)
    requires Invertible(z) && Same(x * z, y * z)
    ensures Same(x, y)
  {
    hide Same;
    var i :| Inverts(z, i);
    SameRefl(i);
    SameMul(x * z, y * z, i, i);
    TimesUnit(x, z, i);
    TimesUnit(y, z, i);
    SameSym((x * z) * i, x);
    SameTrans(x, (x * z) * i, (y * z) * i);
    SameTrans(x, (y * z) * i, y);
  }

  lemma TimesUnit(x: int, z: int, i: int)
    requires Inverts(z, i)
    ensures Same((x * z) * i, x)
  {
    hide Same;
    SameRefl(x);
    SameMul(x, x, z * i, 1);
    assert x * (z * i) == (x * z) * i && x * 1 == x;
  }

  /** x is v to the power e, modulo p. */
  predicate Raised(x: int, v: int, e: nat) {
    Same(x, Power(v, e))
  }

  lemma RaisedOne(v: int)
    ensures Raised(v, v, 1)
  {
    assert Power(v, 1) == v * Power(v, 0);
  }

  lemma RaisedMul(r: int, x: int, y: int, v: int, d: nat, e: nat)
    requires Same(r, x * y) && Raised(x, v, d) && Raised(y, v, e)
    ensures Raised(r, v, d + e)
  {
    SameMul(x, Power(v, d), y, Power(v, e));
    PowerAdd(v, d, e);
  }

  lemma RaisedPower(r: int, x: int, v: int, e: nat, n: nat)
    requires Raised(r, x, n) && Raised(x, v, e)
    ensures e * n >= 0 && Raised(r, v, e * n)
  {
    SamePower(x, Power(v, e), n);
    PowerMul(v, e, n);
  }

  lemma Distribute(a: int, b: int)
    ensures (a - 1) * b == a * b - b
  {
  }

  /** (2^m - 1) 2^n + (2^n - 1) = 2^(m + n) - 1: each link of the exponentiation chains. */
  lemma ChainLink(m: nat, n: nat)
    ensures (Pow2(m) - 1) * Pow2(n) + (Pow2(n) - 1) == Pow2(m + n) - 1
  {
    hide Pow2;
    Pow2Add(m, n);
    Distribute(Pow2(m), Pow2(n));
  }

  lemma SquaredPow(n: nat, x: int, y: int)
    requires Pow2(n) == x && x * x == y
    ensures Pow2(2 * n) == y
  {
    Pow2Add(n, n);
  }

  lemma Pow250(n: nat, m: nat)
    requires n == 25 && m == 200
    ensures Pow2(250) == 0x400000000000000000000000000000000000000000000000000000000000000
  {
    Pow2Literals();
    hide Pow2;
    SquaredPow(n, 0x2000000, 0x4000000000000);
    SquaredPow(2 * n, 0x4000000000000, 0x10000000000000000000000000);
    SquaredPow(4 * n, 0x10000000000000000000000000, 0x100000000000000000000000000000000000000000000000000);
    Pow2Add(m, 2 * n);
  }

  /** Where the exponents p - 2 and (p - 5) / 8 come from. */
  lemma ChainEnds(b: nat)
    requires b == Pow2(250)
    ensures (b - 1) * Pow2(5) + 11 == P - 2
    ensures (b - 1) * Pow2(2) + 1 == (P - 5) / 8
  {
    Pow250(25, 200);
    assert Pow2(5) == 32 && Pow2(2) == 4;
  }
}
