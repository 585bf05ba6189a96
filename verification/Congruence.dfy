/** Congruence of integers modulo any n > 0. */
module Congruence {
  import opened Bits

  /** The remainder of x on division by n, reached in steps of n. */
  function Residue(x: int, n: int): (r: int)
    requires n > 0
    ensures 0 <= r < n
    decreases if x < 0 then n - x else x
  {
    if x < 0 then Residue(x + n, n) else if x < n then x else Residue(x - n, n)
  }

  lemma {:induction false} ResidueIs(x: int, n: int)
    requires n > 0
    ensures Residue(x, n) == x % n
    decreases if x < 0 then n - x else x
  {
    var next := if x < 0 then x + n else if x < n then x else x - n;
    var q, r := next / n, next % n;
    assert next == q * n + r;
    if x < 0 {
      ResidueIs(x + n, n);
      DivModUnique(x, n, q - 1, r);
    } else if x < n {
      DivModUnique(x, n, 0, x);
    } else {
      ResidueIs(x - n, n);
      DivModUnique(x, n, q + 1, r);
    }
  }

  predicate Cong(x: int, y: int, n: int)
    requires n > 0
  {
    Residue(x, n) == Residue(y, n)
  }

  lemma CongIff(x: int, y: int, n: int)
    requires n > 0
    ensures Cong(x, y, n) <==> x % n == y % n
  {
    ResidueIs(x, n);
    ResidueIs(y, n);
  }

  lemma CongBy(x: int, y: int, k: int, n: int)
    requires n > 0 && x == y + n * k
    ensures Cong(x, y, n)
  {
    var q, r := y / n, y % n;
    assert y == n * q + r;
    assert (q + k) * n == n * q + n * k;
    DivModUnique(x, n, q + k, r);
    DivModUnique(y, n, q, r);
    CongIff(x, y, n);
  }

  lemma CongDiff(x: int, y: int, n: int) returns (k: int)
    requires n > 0 && Cong(x, y, n)
    ensures x == y + n * k
  {
    CongIff(x, y, n);
    hide *;
    k := x / n - y / n;
    assert x == n * (x / n) + x % n && y == n * (y / n) + y % n;
    assert n * k == n * (x / n) - n * (y / n);
  }

  lemma CongSum(x: int, x': int, y: int, y': int, n: int)
    requires n > 0 && Cong(x, x', n) && Cong(y, y', n)
    ensures Cong(x + y, x' + y', n) && Cong(x - y, x' - y', n)
  {
    var i := CongDiff(x, x', n);
    var j := CongDiff(y, y', n);
    assert n * (i + j) == n * i + n * j && n * (i - j) == n * i - n * j;
    CongBy(x + y, x' + y', i + j, n);
    CongBy(x - y, x' - y', i - j, n);
  }

  lemma CongMul(x: int, x': int, y: int, y': int, n: int)
    requires n > 0 && Cong(x, x', n) && Cong(y, y', n)
    ensures Cong(x * y, x' * y', n)
  {
    var i := CongDiff(x, x', n);
    var j := CongDiff(y, y', n);
    ProductShift(x', y, n, i);
    ProductShift(y', x', n, j);
    assert x' * y == y * x' && x' * y' == y' * x';
    assert n * (i * y + j * x') == n * (i * y) + n * (j * x');
    CongBy(x * y, x' * y', i * y + j * x', n);
  }

  lemma ProductShift(x: int, y: int, n: int, i: int)
    ensures (x + n * i) * y == x * y + n * (i * y)
    ensures y * (x + n * i) == x * y + n * (i * y)
  {
    assert (n * i) * y == n * (i * y);
  }

  lemma {:induction false} CongPower(x: int, y: int, e: nat, n: int)
    requires n > 0 && Cong(x, y, n)
    ensures Cong(Power(x, e), Power(y, e), n)
  {
    if e > 0 {
      CongPower(x, y, e - 1, n);
      CongMul(x, y, Power(x, e - 1), Power(y, e - 1), n);
    }
  }

  lemma CongMod(x: int, n: int)
    requires n > 0
    ensures Cong(x % n, x, n) && 0 <= x % n < n
  {
    DivModUnique(x % n, n, 0, x % n);
    CongIff(x % n, x, n);
  }
}
