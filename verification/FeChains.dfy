/** Repeated squaring and the exponentiation chains over it
    (ed25519-donna/curve25519-donna-32bit.h:327-400, ed25519-donna/curve25519-donna-helpers.h:9-67). */
module FeChains {
  import opened Bits
  import opened FieldModulus
  import opened Fe
  import opened FeMul

  /** An element that is v to the power e. */
  predicate Holds(s: seq<int>, v: int, e: nat) {
    |s| == 10 && Tight(s) && Raised(Val(s), v, e)
  }

  lemma TightIsOperand(s: seq<int>)
    requires Tight(s)
    ensures Operand(s)
  {
    TightIsLoose(s);
  }

  lemma SquaredOnce(a: seq<int>, s: seq<int>, v: int, n: nat)
    requires Holds(a, v, Pow2(n)) && |a| == 10 && Tight(s) && Same(Val(s), Val(a) * Val(a))
    ensures Holds(s, v, Pow2(n + 1))
  {
    hide Val, Same, Power;
    RaisedMul(Val(s), Val(a), Val(a), v, Pow2(n), Pow2(n));
  }

  /** curve25519_square_times: `count` squarings, that is, the power 2^count.  The loop body repeats
      curve25519_square word for word. */
  method SquareTimes(a: seq<int>, count: int) returns (s: seq<int>)
    requires Tight(a) && count >= 1
    ensures Holds(s, Val(a), Pow2(count))
  {
    ItselfOnce(a);
    TightIsOperand(a);
    assert Pow2(0) == 1;
    hide *;
    ghost var v := Val(a);
    s := a;
    var left := count;
    while true
      invariant 1 <= left <= count && Holds(s, v, Pow2(count - left)) && Operand(s)
      decreases left
    {
      ghost var before := s;
      s := SquareLimbs(s);
      SquaredOnce(before, s, v, count - left);
      TightIsOperand(s);
      left := left - 1;
      if left == 0 {
        break;
      }
    }
  }

  /** One squaring run on an element known to be a power. */
  method SquareLink(a: seq<int>, count: int, ghost v: int, ghost e: nat) returns (s: seq<int>)
    requires Holds(a, v, e) && count >= 1
    ensures e * Pow2(count) >= 0 && Holds(s, v, e * Pow2(count))
  {
    hide Tight, Val, Raised, Power;
    s := SquareTimes(a, count);
    RaisedPower(Val(s), Val(a), v, e, Pow2(count));
  }

  method MulLink(a: seq<int>, b: seq<int>, ghost v: int, ghost d: nat, ghost e: nat) returns (s: seq<int>)
    requires Holds(a, v, d) && Holds(b, v, e)
    ensures Holds(s, v, d + e)
  {
    TightIsOperand(a);
    TightIsOperand(b);
    hide Tight, Operand, Val, Raised, Power;
    s := MulLimbs(a, b);
    RaisedMul(Val(s), Val(a), Val(b), v, d, e);
  }

  /** `square_times(t0, a, n); mul(r, t0, b)` from a = v^(2^m - 1), b = v^(2^n - 1). */
  method Link(a: seq<int>, b: seq<int>, m: nat, n: nat, ghost v: int) returns (r: seq<int>)
    requires n >= 1 && Holds(a, v, Pow2(m) - 1) && Holds(b, v, Pow2(n) - 1)
    ensures Holds(r, v, Pow2(m + n) - 1)
  {
    hide Tight, Val, Raised, Power, Holds;
    ghost var e: nat := Pow2(m) - 1;
    var t := SquareLink(a, n, v, e);
    ChainLink(m, n);
    r := MulLink(t, b, v, e * Pow2(n), Pow2(n) - 1);
  }

  /** curve25519_pow_two5mtwo0_two250mtwo0: from v^(2^5 - 1) to v^(2^250 - 1). */
  method PowTwo250(b5: seq<int>, ghost v: int) returns (b: seq<int>)
    requires Holds(b5, v, Pow2(5) - 1)
    ensures Holds(b, v, Pow2(250) - 1)
  {
    hide Holds, Pow2;
    var b10 := Link(b5, b5, 5, 5, v);
    var c20 := Link(b10, b10, 10, 10, v);
    var t40 := Link(c20, c20, 20, 20, v);
    var b50 := Link(t40, b10, 40, 10, v);
    var c100 := Link(b50, b50, 50, 50, v);
    var t200 := Link(c100, c100, 100, 100, v);
    b := Link(t200, b50, 200, 50, v);
  }

  /** The common start: v^9, v^11 and v^(2^5 - 1). */
  method PowStart(z: seq<int>) returns (z11: seq<int>, b: seq<int>)
    requires Tight(z)
    ensures Holds(z11, Val(z), 11) && Holds(b, Val(z), Pow2(5) - 1)
  {
    ghost var v := Val(z);
    RaisedOne(v);
    assert Pow2(1) == 2 && Pow2(2) == 4 && Pow2(5) == 32;
    hide Tight, Val, Raised, Power, Pow2;
    var z2 := SquareLink(z, 1, v, 1);
    var t8 := SquareLink(z2, 2, v, 2);
    var z9 := MulLink(t8, z, v, 8, 1);
    z11 := MulLink(z9, z2, v, 9, 2);
    var t22 := SquareLink(z11, 1, v, 11);
    b := MulLink(t22, z9, v, 22, 9);
  }

  /** The common middle: from z to z^(2^250 - 1). */
  method PowMiddle(z: seq<int>) returns (z11: seq<int>, b: seq<int>)
    requires Tight(z)
    ensures Holds(z11, Val(z), 11) && Holds(b, Val(z), Pow2(250) - 1)
  {
    assert |z| == 10;
    hide *;
    var b5;
    z11, b5 := PowStart(z);
    b := PowTwo250(b5, Val(z));
  }

  /** The end of both chains: n more squarings and a multiplication with z^k. */
  method PowEnd(b: seq<int>, n: nat, m: seq<int>, ghost v: int, ghost e: nat, ghost k: nat) returns (out: seq<int>)
    requires n >= 1 && Holds(b, v, e) && Holds(m, v, k)
    ensures e * Pow2(n) >= 0 && Holds(out, v, e * Pow2(n) + k)
  {
    hide *;
    var t := SquareLink(b, n, v, e);
    out := MulLink(t, m, v, e * Pow2(n), k);
  }

  /** curve25519_recip: z^(p - 2). */
  method Recip(z: seq<int>) returns (out: seq<int>)
    requires Tight(z)
    ensures Holds(out, Val(z), P - 2)
  {
    assert |z| == 10;
    hide *;
    var a, b := PowMiddle(z);
    ghost var e: nat := Pow2(250) - 1;
    ChainEnds(Pow2(250));
    out := PowEnd(b, 5, a, Val(z), e, 11);
  }

  lemma ItselfOnce(z: seq<int>)
    requires Tight(z)
    ensures |z| == 10 && Holds(z, Val(z), 1)
  {
    RaisedOne(Val(z));
  }

  /** curve25519_pow_two252m3: z^((p - 5) / 8), the exponent of the square-root computation. */
  method PowTwo252m3(z: seq<int>) returns (out: seq<int>)
    requires Tight(z)
    ensures Holds(out, Val(z), (P - 5) / 8)
  {
    hide *;
    ItselfOnce(z);
    var c, b := PowMiddle(z);
    ghost var e: nat := Pow2(250) - 1;
    ChainEnds(Pow2(250));
    out := PowEnd(b, 2, z, Val(z), e, 1);
  }
}
