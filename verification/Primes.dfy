/** What a prime modulus gives: every residue but 0 is a unit, and Fermat's theorem. */
module Primes {
  import opened Bits
  import opened Congruence

  predicate Factors(n: int, a: int, b: int) {
    a > 1 && b > 1 && a * b == n
  }

  ghost predicate Prime(n: int) {
    n > 1 && forall a, b :: !Factors(n, a, b)
  }

  /** The greatest common divisor as a combination of a and b. */
  lemma {:induction false} Bezout(a: nat, b: nat) returns (d: int, s: int, t: int)
    requires b > 0
    ensures d > 0 && d == s * a + t * b && a % d == 0 && b % d == 0
    decreases a
  {
    if a == 0 {
      d, s, t := b, 0, 1;
      DivModUnique(b, b, 1, 0);
    } else {
      var q, r := b / a, b % a;
      var i, j;
      d, i, j := Bezout(r, a);
      s, t := j - i * q, i;
      Combination(a, b, q, r, i, j);
      var x, y := a / d, r / d;
      assert a == x * d && r == y * d;
      assert b == (q * x + y) * d by {
        assert q * (x * d) == (q * x) * d;
      }
      DivModUnique(b, d, q * x + y, 0);
    }
  }

  lemma Combination(a: int, b: int, q: int, r: int, i: int, j: int)
    requires b == q * a + r
    ensures i * r + j * a == (j - i * q) * a + i * b
  {
    assert i * b == i * (q * a) + i * r && i * (q * a) == (i * q) * a;
  }

  /** Modulo a prime, a number that is not 0 has an inverse. */
  lemma HasInverse(x: int, n: int) returns (i: int)
    requires Prime(n) && x % n != 0
    ensures Cong(x * i, 1, n)
  {
    var r := x % n;
    var d, s, t := Bezout(r, n);
    OnlyOne(r, n, d);
    var q := x / n;
    i := s;
    assert x == q * n + r;
    InverseOf(x, n, q, r, s, t);
  }

  lemma OnlyOne(r: int, n: int, d: int)
    requires Prime(n) && 0 < r < n && d > 0 && r % d == 0 && n % d == 0
    ensures d == 1
  {
    assert !Factors(n, d, n / d);
    var c, e := n / d, r / d;
    assert n == d * c && r == d * e;
    if c == 1 {
      if e >= 1 {
        MulMono(1, e, d);
      } else {
        MulMono(e, 0, d);
      }
    } else if c < 1 {
      MulMono(c, 0, d);
    }
  }

  lemma InverseOf(x: int, n: int, q: int, r: int, s: int, t: int)
    requires n > 0 && x == q * n + r && 1 == s * r + t * n
    ensures Cong(x * s, 1, n)
  {
    assert (q * n + r) * s == (q * s) * n + s * r;
    assert n * (q * s - t) == (q * s) * n - t * n;
    CongBy(x * s, 1, q * s - t, n);
  }

  /** A prime that divides a product divides a factor. */
  lemma Euclid(k: int, c: int, n: int)
    requires Prime(n) && k * c % n == 0 && k % n != 0
    ensures c % n == 0
  {
    var i := HasInverse(k, n);
    CongIff(c, c, n);
    CongMul(k * i, 1, c, c, n);
    assert (k * i) * c == (k * c) * i && 1 * c == c;
    MultipleOf(k * c, i, n);
    CongIff((k * c) * i, c, n);
  }

  lemma MultipleOf(a: int, i: int, n: int)
    requires n > 0 && a % n == 0
    ensures a * i % n == 0
  {
    var q := a / n;
    assert a * i == (q * i) * n by {
      assert a == q * n;
    }
    DivModUnique(a * i, n, q * i, 0);
  }

  // ---- binomial coefficients

  function Choose(n: nat, k: nat): nat {
    if k == 0 then 1 else if n == 0 then 0 else Choose(n - 1, k) + Choose(n - 1, k - 1)
  }

  lemma {:induction false} ChooseNone(n: nat, k: nat)
    requires k > n
    ensures Choose(n, k) == 0
  {
    if n > 0 {
      ChooseNone(n - 1, k);
      ChooseNone(n - 1, k - 1);
    }
  }

  lemma {:induction false} ChooseAll(n: nat)
    ensures Choose(n, n) == 1
  {
    if n > 0 {
      ChooseAll(n - 1);
      ChooseNone(n - 1, n);
    }
  }

  lemma {:induction false} ChooseAbsorb(n: nat, k: nat)
    requires n > 0 && k > 0
    ensures k * Choose(n, k) == n * Choose(n - 1, k - 1)
    decreases n
  {
    if n == 1 {
      if k > 1 {
        ChooseNone(1, k);
        ChooseNone(0, k - 1);
      }
    } else if k == 1 {
      ChooseAbsorb(n - 1, 1);
      assert Choose(n, 1) == Choose(n - 1, 1) + Choose(n - 1, 0);
    } else {
      ChooseAbsorb(n - 1, k);
      ChooseAbsorb(n - 1, k - 1);
      var a, b := Choose(n - 1, k), Choose(n - 1, k - 1);
      var c, d := Choose(n - 2, k - 1), Choose(n - 2, k - 2);
      assert b == c + d && Choose(n, k) == a + b;
      hide Choose;
      PascalProduct(n, k, a, b, c, d);
    }
  }

  lemma PascalProduct(n: int, k: int, a: int, b: int, c: int, d: int)
    requires b == c + d && k * a == (n - 1) * c && (k - 1) * b == (n - 1) * d
    ensures k * (a + b) == n * b
  {
    assert k * (a + b) == k * a + (k - 1) * b + b;
    assert (n - 1) * c + (n - 1) * d == (n - 1) * (c + d);
  }

  /** The terms below k of the binomial expansion of (x + 1)^n. */
  function Expansion(n: nat, x: int, k: nat): int {
    if k == 0 then 0 else Expansion(n, x, k - 1) + Choose(n, k - 1) * Power(x, k - 1)
  }

  lemma {:induction false} ExpansionStep(n: nat, x: int, k: nat)
    ensures Expansion(n + 1, x, k + 1) == Expansion(n, x, k + 1) + x * Expansion(n, x, k)
    decreases k
  {
    if k == 0 {
      assert Expansion(n + 1, x, 1) == Choose(n + 1, 0) * Power(x, 0) + Expansion(n + 1, x, 0);
      assert Expansion(n, x, 1) == Choose(n, 0) * Power(x, 0) + Expansion(n, x, 0);
    } else {
      ExpansionStep(n, x, k - 1);
      var c, d, w := Choose(n, k), Choose(n, k - 1), Power(x, k - 1);
      assert Power(x, k) == x * w && Choose(n + 1, k) == c + d;
      assert Expansion(n, x, k) == Expansion(n, x, k - 1) + d * w;
      assert Expansion(n, x, k + 1) == Expansion(n, x, k) + c * (x * w);
      assert Expansion(n + 1, x, k + 1) == Expansion(n + 1, x, k) + (c + d) * (x * w);
      hide *;
      Regroup(x, c, d, w, Expansion(n, x, k - 1));
    }
  }

  lemma Regroup(x: int, c: int, d: int, w: int, e: int)
    ensures (c + d) * (x * w) == c * (x * w) + d * (x * w) && x * (e + d * w) == x * e + d * (x * w)
  {
    assert x * (d * w) == d * (x * w);
  }

  lemma {:induction false} Binomial(n: nat, x: int)
    ensures Power(x + 1, n) == Expansion(n, x, n + 1)
  {
    if n == 0 {
      assert Expansion(0, x, 1) == Expansion(0, x, 0) + Choose(0, 0) * Power(x, 0);
    } else {
      Binomial(n - 1, x);
      ExpansionStep(n - 1, x, n);
      ChooseNone(n - 1, n);
      assert Expansion(n - 1, x, n + 1) == Expansion(n - 1, x, n);
      assert Power(x + 1, n) == (x + 1) * Power(x + 1, n - 1);
    }
  }

  // ---- Fermat

  lemma ChoosePrime(n: nat, k: nat)
    requires Prime(n) && 0 < k < n
    ensures Choose(n, k) % n == 0
  {
    ChooseAbsorb(n, k);
    hide Choose, Prime;
    DivModUnique(k, n, 0, k);
    DivModUnique(n, n, 1, 0);
    MultipleOf(n, Choose(n - 1, k - 1), n);
    IsAbove(n);
    Euclid(k, Choose(n, k), n);
  }

  lemma IsAbove(n: int)
    requires Prime(n)
    ensures n > 1
  {
  }

  lemma {:induction false} ExpansionPrime(n: nat, x: int, k: nat)
    requires Prime(n) && 0 < k <= n
    ensures Cong(Expansion(n, x, k), 1, n)
    decreases k
  {
    if k == 1 {
      assert Expansion(n, x, 1) == Expansion(n, x, 0) + Choose(n, 0) * Power(x, 0);
      CongIff(1, 1, n);
    } else {
      ExpansionPrime(n, x, k - 1);
      ChoosePrime(n, k - 1);
      var c := Choose(n, k - 1);
      MultipleOf(c, Power(x, k - 1), n);
      ZeroTerm(c * Power(x, k - 1), n);
      CongSum(Expansion(n, x, k - 1), 1, c * Power(x, k - 1), 0, n);
    }
  }

  lemma ZeroTerm(x: int, n: int)
    requires n > 0 && x % n == 0
    ensures Cong(x, 0, n)
  {
    DivModUnique(0, n, 0, 0);
    CongIff(x, 0, n);
  }

  /** Fermat: x^n is x modulo a prime n. */
  lemma {:induction false} Fermat(n: nat, x: nat)
    requires Prime(n)
    ensures Cong(Power(x, n), x, n)
    decreases x
  {
    if x == 0 {
      assert Power(0, n) == 0 * Power(0, n - 1);
      CongIff(0, 0, n);
    } else {
      Fermat(n, x - 1);
      Binomial(n, x - 1);
      ExpansionPrime(n, x - 1, n);
      ChooseAll(n);
      assert Expansion(n, x - 1, n + 1) == Expansion(n, x - 1, n) + Choose(n, n) * Power(x - 1, n);
      CongSum(Expansion(n, x - 1, n), 1, Power(x - 1, n), x - 1, n);
    }
  }

  /** x^(n - 2) is the inverse of x, if it has one, and 0 for 0. */
  lemma FermatInverse(n: nat, x: int)
    requires Prime(n) && n > 2
    ensures x % n != 0 ==> Cong(x * Power(x, n - 2), 1, n)
    ensures x % n == 0 ==> Cong(Power(x, n - 2), 0, n)
  {
    var r := x % n;
    CongMod(x, n);
    CongIff(r, x, n);
    if r == 0 {
      ZeroTerm(x, n);
      CongPower(x, 0, n - 2, n);
      assert Power(0, n - 2) == 0 * Power(0, n - 3);
    } else {
      Fermat(n, r);
      CongPower(r, x, n, n);
      var i := HasInverse(x, n);
      var w := Power(x, n - 2);
      assert Power(x, n - 1) == x * w && Power(x, n) == x * (x * w);
      hide *;
      DivideOut(n, x, i, x * w, r, Power(r, n));
    }
  }

  lemma DivideOut(n: int, x: int, i: int, y: int, r: int, e: int)
    requires n > 0 && Cong(x * i, 1, n) && Cong(r, x, n) && Cong(e, r, n) && Cong(e, x * y, n)
    ensures Cong(y, 1, n)
  {
    CongIff(e, r, n);
    CongIff(r, x, n);
    CongIff(e, x * y, n);
    CongIff(x * y, x, n);
    CongIff(i, i, n);
    CongIff(y, y, n);
    CongMul(x * y, x, i, i, n);
    CongMul(x * i, 1, y, y, n);
    assert (x * y) * i == (x * i) * y && 1 * y == y;
    CongIff((x * i) * y, x * i, n);
    CongIff((x * i) * y, y, n);
    CongIff(x * i, 1, n);
    CongIff(y, 1, n);
  }
}
