/** Numbers as most-significant-first digit sequences: what the big-integer and text conversions of the SRP
    library agree on. */
module Radix {
  import opened Bits

  predicate Digits(d: seq<int>, base: int) {
    forall i :: 0 <= i < |d| ==> 0 <= d[i] < base
  }

  function Value(d: seq<int>, base: int): int {
    if |d| == 0 then 0 else Value(d[..|d| - 1], base) * base + d[|d| - 1]
  }

  lemma ValueAppend(d: seq<int>, x: int, base: int)
    ensures Value(d + [x], base) == Value(d, base) * base + x
  {
    assert (d + [x])[..|d|] == d;
  }

  lemma {:induction false} ValueConcat(a: seq<int>, b: seq<int>, base: int)
    ensures Value(a + b, base) == Value(a, base) * Power(base, |b|) + Value(b, base)
    decreases |b|
  {
    if |b| == 0 {
      assert a + b == a;
    } else {
      var c, x := b[..|b| - 1], b[|b| - 1];
      assert a + b == (a + c) + [x] && b == c + [x];
      ValueConcat(a, c, base);
      ValueAppend(a + c, x, base);
      ValueAppend(c, x, base);
      Distribute(Value(a, base), Power(base, |c|), Value(c, base), base);
    }
  }

  lemma Distribute(v: int, p: int, w: int, base: int)
    ensures (v * p + w) * base == v * (base * p) + w * base
  {
    assert (v * p) * base == v * (base * p);
  }

  lemma {:induction false} PowerPositive(base: int, n: nat)
    requires base > 0
    ensures Power(base, n) > 0
  {
    if n > 0 {
      PowerPositive(base, n - 1);
      MulMono(1, Power(base, n - 1), base);
    }
  }

  lemma NextBound(v: int, p: int, x: int, base: int)
    requires 0 <= v < p && 0 <= x < base
    ensures 0 <= v * base + x < base * p
  {
    MulMono(v + 1, p, base);
    MulMono(0, v, base);
  }

  lemma {:induction false} ValueBound(d: seq<int>, base: int)
    requires base > 0 && Digits(d, base)
    ensures 0 <= Value(d, base) < Power(base, |d|)
    decreases |d|
  {
    if |d| > 0 {
      ValueBound(d[..|d| - 1], base);
      NextBound(Value(d[..|d| - 1], base), Power(base, |d| - 1), d[|d| - 1], base);
    }
  }

  /** No leading zero. */
  predicate Minimal(d: seq<int>) {
    |d| > 0 ==> d[0] != 0
  }

  /** A number has one digit sequence without leading zeros. */
  lemma {:induction false} MinimalUnique(d: seq<int>, e: seq<int>, base: int)
    requires base > 1 && Digits(d, base) && Digits(e, base) && Minimal(d) && Minimal(e) && Value(d, base) == Value(e, base)
    ensures d == e
    decreases |d| + |e|
  {
    if |d| == 0 {
      if |e| > 0 {
        MinimalPositive(e, base);
      }
    } else if |e| == 0 {
      MinimalPositive(d, base);
    } else {
      var a, x, b, y := d[..|d| - 1], d[|d| - 1], e[..|e| - 1], e[|e| - 1];
      assert d == a + [x] && e == b + [y];
      DivModUnique(Value(d, base), base, Value(a, base), x);
      DivModUnique(Value(e, base), base, Value(b, base), y);
      MinimalUnique(a, b, base);
    }
  }

  lemma {:induction false} MinimalPositive(d: seq<int>, base: int)
    requires base > 1 && Digits(d, base) && |d| > 0 && d[0] != 0
    ensures Value(d, base) > 0
    decreases |d|
  {
    var a := d[..|d| - 1];
    if |d| == 1 {
      assert Value(a, base) == 0;
    } else {
      MinimalPositive(a, base);
      MulMono(1, Value(a, base), base);
    }
  }

  function Strip(d: seq<int>): (r: seq<int>)
    ensures Minimal(r) && |r| <= |d| && r == d[|d| - |r|..]
  {
    if |d| > 0 && d[0] == 0 then Strip(d[1..]) else d
  }

  lemma {:induction false} LeadingZero(d: seq<int>, base: int)
    ensures Value([0] + d, base) == Value(d, base)
    decreases |d|
  {
    if |d| == 0 {
      assert [0] + d == [] + [0];
      ValueAppend([], 0, base);
    } else {
      var c, x := d[..|d| - 1], d[|d| - 1];
      assert [0] + d == ([0] + c) + [x];
      ValueAppend([0] + c, x, base);
      LeadingZero(c, base);
    }
  }

  lemma {:induction false} StripValue(d: seq<int>, base: int)
    ensures Value(Strip(d), base) == Value(d, base)
    decreases |d|
  {
    if |d| > 0 && d[0] == 0 {
      StripValue(d[1..], base);
      assert d == [0] + d[1..];
      LeadingZero(d[1..], base);
    }
  }
}
