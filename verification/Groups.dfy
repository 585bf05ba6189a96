/** Abelian groups, integer multiples and the two-generator combinations the scalar multiplications
    compute.  The laws are stated through named instances (`Assoc`, `Comm`, ...) so that a proof picks
    the instances it uses. */
module Groups {

  datatype Group<!G> = Group(zero: G, add: (G, G) -> G, neg: G -> G)

  ghost predicate Assoc<G>(g: Group<G>, x: G, y: G, z: G) {
    g.add(g.add(x, y), z) == g.add(x, g.add(y, z))
  }

  ghost predicate Comm<G>(g: Group<G>, x: G, y: G) {
    g.add(x, y) == g.add(y, x)
  }

  ghost predicate Unit<G>(g: Group<G>, x: G) {
    g.add(g.zero, x) == x
  }

  ghost predicate Inverse<G>(g: Group<G>, x: G) {
    g.add(g.neg(x), x) == g.zero
  }

  ghost predicate Abelian<G(!new)>(g: Group<G>) {
    && (forall x, y, z :: Assoc(g, x, y, z))
    && (forall x, y :: Comm(g, x, y))
    && (forall x :: Unit(g, x))
    && (forall x :: Inverse(g, x))
  }

  /** n * x for any integer n. */
  ghost function Times<G>(g: Group<G>, n: int, x: G): G
    decreases if n < 0 then -n else n
  {
    if n == 0 then g.zero
    else if n > 0 then g.add(x, Times(g, n - 1, x))
    else g.add(g.neg(x), Times(g, n + 1, x))
  }

  lemma CancelLeft<G(!new)>(g: Group<G>, x: G, y: G)
    requires Abelian(g)
    ensures g.add(g.neg(x), g.add(x, y)) == y && g.add(x, g.add(g.neg(x), y)) == y
  {
    assert Assoc(g, g.neg(x), x, y) && Inverse(g, x) && Unit(g, y);
    assert Assoc(g, x, g.neg(x), y) && Comm(g, x, g.neg(x));
  }

  lemma TimesSucc<G(!new)>(g: Group<G>, n: int, x: G)
    requires Abelian(g)
    ensures Times(g, n + 1, x) == g.add(x, Times(g, n, x))
    ensures Times(g, n - 1, x) == g.add(g.neg(x), Times(g, n, x))
  {
    if n >= 0 {
      if n > 0 {
        CancelLeft(g, x, Times(g, n - 1, x));
      }
    }
    if n < 0 {
      CancelLeft(g, x, Times(g, n + 1, x));
    }
  }

  lemma {:induction false} TimesAdd<G(!new)>(g: Group<G>, a: int, b: int, x: G)
    requires Abelian(g)
    ensures Times(g, a + b, x) == g.add(Times(g, a, x), Times(g, b, x))
    decreases if a < 0 then -a else a
  {
    if a == 0 {
      assert Unit(g, Times(g, b, x));
    } else if a > 0 {
      TimesAdd(g, a - 1, b, x);
      TimesSucc(g, a - 1, x);
      TimesSucc(g, a - 1 + b, x);
      assert Assoc(g, x, Times(g, a - 1, x), Times(g, b, x));
    } else {
      TimesAdd(g, a + 1, b, x);
      TimesSucc(g, a + 1, x);
      TimesSucc(g, a + 1 + b, x);
      assert Assoc(g, g.neg(x), Times(g, a + 1, x), Times(g, b, x));
    }
  }

  lemma TimesOne<G(!new)>(g: Group<G>, x: G)
    requires Abelian(g)
    ensures Times(g, 1, x) == x && Times(g, 0, x) == g.zero
  {
    assert Times(g, 1, x) == g.add(x, Times(g, 0, x));
    assert Comm(g, x, g.zero) && Unit(g, x);
  }

  lemma NegUnique<G(!new)>(g: Group<G>, x: G, y: G)
    requires Abelian(g) && g.add(x, y) == g.zero
    ensures y == g.neg(x)
  {
    CancelLeft(g, x, y);
    assert Comm(g, g.neg(x), g.zero) && Unit(g, g.neg(x));
  }

  lemma TimesNeg<G(!new)>(g: Group<G>, a: int, x: G)
    requires Abelian(g)
    ensures Times(g, -a, x) == g.neg(Times(g, a, x))
  {
    TimesAdd(g, a, -a, x);
    TimesOne(g, x);
    NegUnique(g, Times(g, a, x), Times(g, -a, x));
  }

  lemma {:induction false} TimesTimes<G(!new)>(g: Group<G>, a: int, b: int, x: G)
    requires Abelian(g)
    ensures Times(g, a, Times(g, b, x)) == Times(g, a * b, x)
    decreases if a < 0 then -a else a
  {
    if a == 0 {
      assert a * b == 0;
    } else if a > 0 {
      TimesTimes(g, a - 1, b, x);
      TimesAdd(g, b, (a - 1) * b, x);
      assert b + (a - 1) * b == a * b;
    } else {
      TimesTimes(g, a + 1, b, x);
      TimesNeg(g, b, x);
      TimesAdd(g, -b, (a + 1) * b, x);
      assert -b + (a + 1) * b == a * b;
    }
  }

  /** (x + y) + (z + w) == (x + z) + (y + w) */
  lemma Exchange<G(!new)>(g: Group<G>, x: G, y: G, z: G, w: G)
    requires Abelian(g)
    ensures g.add(g.add(x, y), g.add(z, w)) == g.add(g.add(x, z), g.add(y, w))
  {
    assert Assoc(g, x, y, g.add(z, w)) && Assoc(g, y, z, w) && Comm(g, y, z) && Assoc(g, z, y, w);
    assert Assoc(g, x, z, g.add(y, w));
  }

  lemma {:induction false} TimesDistributes<G(!new)>(g: Group<G>, a: int, x: G, y: G)
    requires Abelian(g)
    ensures Times(g, a, g.add(x, y)) == g.add(Times(g, a, x), Times(g, a, y))
    decreases if a < 0 then -a else a
  {
    if a == 0 {
      assert Unit(g, g.zero);
    } else if a > 0 {
      TimesDistributes(g, a - 1, x, y);
      Exchange(g, x, y, Times(g, a - 1, x), Times(g, a - 1, y));
    } else {
      TimesDistributes(g, a + 1, x, y);
      NegAdd(g, x, y);
      Exchange(g, g.neg(x), g.neg(y), Times(g, a + 1, x), Times(g, a + 1, y));
    }
  }

  lemma NegAdd<G(!new)>(g: Group<G>, x: G, y: G)
    requires Abelian(g)
    ensures g.neg(g.add(x, y)) == g.add(g.neg(x), g.neg(y))
  {
    Exchange(g, x, y, g.neg(x), g.neg(y));
    assert Comm(g, x, g.neg(x)) && Inverse(g, x) && Comm(g, y, g.neg(y)) && Inverse(g, y) && Unit(g, g.zero);
    NegUnique(g, g.add(x, y), g.add(g.neg(x), g.neg(y)));
  }

  /** a * p + b * q */
  ghost function Combine<G>(g: Group<G>, a: int, p: G, b: int, q: G): G {
    g.add(Times(g, a, p), Times(g, b, q))
  }

  lemma CombineAdd<G(!new)>(g: Group<G>, a: int, b: int, c: int, d: int, p: G, q: G)
    requires Abelian(g)
    ensures g.add(Combine(g, a, p, b, q), Combine(g, c, p, d, q)) == Combine(g, a + c, p, b + d, q)
  {
    Exchange(g, Times(g, a, p), Times(g, b, q), Times(g, c, p), Times(g, d, q));
    TimesAdd(g, a, c, p);
    TimesAdd(g, b, d, q);
  }

  lemma CombineLeft<G(!new)>(g: Group<G>, a: int, p: G, q: G)
    requires Abelian(g)
    ensures Combine(g, a, p, 0, q) == Times(g, a, p) && Combine(g, 0, p, a, q) == Times(g, a, q)
  {
    assert Comm(g, Times(g, a, p), g.zero) && Unit(g, Times(g, a, p)) && Unit(g, Times(g, a, q));
  }
}
