/** The variable-time helpers of batch verification that look at the low `limbsize` + 1 limbs only
    (ed25519-donna/modm-donna-32bit.h:377-470), and why that is enough. */
module BatchScalars {
  import opened Bits
  import opened Modm

  /** A scalar with normal limbs. */
  predicate Norm(s: seq<int>) {
    Limbs(s, 0x40000000)
  }

  /** The value of the limbs below n. */
  function Head(s: seq<int>, n: nat): int
    requires |s| == 9 && n <= 9
  {
    if n == 0 then 0 else Head(s, n - 1) + s[n - 1] * Pow2(30 * (n - 1))
  }

  lemma LimbWeights()
    ensures Pow2(0) == 1 && Pow2(30) == 0x40000000 && Pow2(60) == 0x1000000000000000
    ensures Pow2(90) == 0x1000000000000000 * 0x40000000 && Pow2(120) == 0x1000000000000000 * 0x1000000000000000
    ensures Pow2(150) == 0x40000000 * Pow2(120) && Pow2(180) == 0x40000000 * Pow2(150)
    ensures Pow2(210) == 0x40000000 * Pow2(180) && Pow2(240) == 0x40000000 * Pow2(210)
    ensures Pow2(270) == 0x40000000 * Pow2(240)
  {
    var k := 30;
    Pow2Literals();
    Pow2Add(k, 30);
    Pow2Add(k, 60);
    Pow2Add(k, 90);
    Pow2Add(k, 120);
    Pow2Add(k, 150);
    Pow2Add(k, 180);
    Pow2Add(k, 210);
    Pow2Add(k, 240);
  }

  lemma HeadIsVal(s: seq<int>)
    requires |s| == 9
    ensures Head(s, 9) == Val(s)
  {
    LimbWeights();
    hide Pow2;
    assert Head(s, 1) == s[0] && Head(s, 2) == s[0] + s[1] * 0x40000000;
    assert Head(s, 3) == Head(s, 2) + s[2] * Pow2(60);
    assert Head(s, 4) == Head(s, 3) + s[3] * Pow2(90);
    assert Head(s, 5) == Head(s, 4) + s[4] * Pow2(120);
    assert Head(s, 6) == Head(s, 5) + s[5] * Pow2(150);
    assert Head(s, 7) == Head(s, 6) + s[6] * Pow2(180);
    assert Head(s, 8) == Head(s, 7) + s[7] * Pow2(210);
    assert Head(s, 9) == Head(s, 8) + s[8] * Pow2(240);
  }

  lemma LimbRoom(h: int, x: int, p: int)
    requires 0 <= h < p && 0 <= x < 0x40000000
    ensures 0 <= h + x * p < 0x40000000 * p
  {
    MulMono(x, 0x3fffffff, p);
    MulMono(0, x, p);
  }

  lemma WeightStep(n: nat)
    requires n > 0
    ensures Pow2(30 * n) == 0x40000000 * Pow2(30 * (n - 1))
  {
    var k := 30;
    Pow2Add(k, 30 * (n - 1));
    Pow2Literals();
  }

  lemma {:induction false} HeadBound(s: seq<int>, n: nat)
    requires Norm(s) && n <= 9
    ensures 0 <= Head(s, n) < Pow2(30 * n)
  {
    if n > 0 {
      HeadBound(s, n - 1);
      NormLimb(s, n - 1);
      WeightStep(n);
      hide Pow2, Norm;
      LimbRoom(Head(s, n - 1), s[n - 1], Pow2(30 * (n - 1)));
    }
  }

  /** lt256_modm_batch: compares the limbs limbsize, ..., 0. */
  function LtBatch(a: seq<int>, b: seq<int>, limbsize: nat): bool
    requires |a| == |b| == 9 && limbsize <= 8
  {
    if a[limbsize] > b[limbsize] then false
    else if a[limbsize] < b[limbsize] then true
    else if limbsize == 0 then false
    else LtBatch(a, b, limbsize - 1)
  }

  /** lte256_modm_batch. */
  function LteBatch(a: seq<int>, b: seq<int>, limbsize: nat): bool
    requires |a| == |b| == 9 && limbsize <= 8
  {
    if a[limbsize] > b[limbsize] then false
    else if a[limbsize] < b[limbsize] then true
    else if limbsize == 0 then true
    else LteBatch(a, b, limbsize - 1)
  }

  lemma {:induction false} CompareHeads(a: seq<int>, b: seq<int>, n: nat)
    requires Norm(a) && Norm(b) && n <= 8
    ensures LtBatch(a, b, n) <==> Head(a, n + 1) < Head(b, n + 1)
    ensures LteBatch(a, b, n) <==> Head(a, n + 1) <= Head(b, n + 1)
  {
    HeadBound(a, n);
    HeadBound(b, n);
    if n > 0 {
      CompareHeads(a, b, n - 1);
    } else {
      assert Pow2(0) == 1;
    }
    hide Limbs;
    TopLimbDecides(Head(a, n), Head(b, n), a[n], b[n], Pow2(30 * n));
  }

  lemma TopLimbDecides(x: int, y: int, a: int, b: int, p: int)
    requires 0 <= x < p && 0 <= y < p
    ensures a > b ==> x + a * p > y + b * p
    ensures a < b ==> x + a * p < y + b * p
  {
    if a > b {
      MulMono(b + 1, a, p);
    } else if a < b {
      MulMono(a + 1, b, p);
    }
  }

  /** The limbs above `limbsize` are zero. */
  predicate Fits(s: seq<int>, limbsize: nat)
    requires |s| == 9 && limbsize <= 8
  {
    forall i :: limbsize < i < 9 ==> s[i] == 0
  }

  lemma {:induction false} HeadOfFitting(s: seq<int>, limbsize: nat, n: nat)
    requires |s| == 9 && limbsize <= 8 && Fits(s, limbsize) && limbsize < n <= 9
    ensures Head(s, n) == Head(s, limbsize + 1)
  {
    if n > limbsize + 1 {
      HeadOfFitting(s, limbsize, n - 1);
    }
  }

  /** Width narrowing is sound for comparisons: with zero limbs above, the truncated comparisons
      compare the whole scalars. */
  lemma CompareNarrow(a: seq<int>, b: seq<int>, limbsize: nat)
    requires Norm(a) && Norm(b) && limbsize <= 8 && Fits(a, limbsize) && Fits(b, limbsize)
    ensures LtBatch(a, b, limbsize) <==> Val(a) < Val(b)
    ensures LteBatch(a, b, limbsize) <==> Val(a) <= Val(b)
  {
    CompareHeads(a, b, limbsize);
    HeadOfFitting(a, limbsize, 9);
    HeadOfFitting(b, limbsize, 9);
    HeadIsVal(a);
    HeadIsVal(b);
  }

  lemma ValNonNegative(s: seq<int>)
    requires Norm(s)
    ensures 0 <= Val(s)
  {
    HeadIsVal(s);
    HeadBound(s, 9);
  }

  /** A scalar fits `limbsize` exactly when its value is below 2^(30 (limbsize + 1)). */
  lemma FitsIff(s: seq<int>, limbsize: nat)
    requires Norm(s) && limbsize <= 8
    ensures Fits(s, limbsize) <==> Val(s) < Pow2(30 * (limbsize + 1))
  {
    HeadIsVal(s);
    if Fits(s, limbsize) {
      HeadOfFitting(s, limbsize, 9);
      HeadBound(s, limbsize + 1);
    } else {
      var i :| limbsize < i < 9 && s[i] != 0;
      HeadGrows(s, i + 1, 9);
      HeadBound(s, i);
      MulMono(1, s[i], Pow2(30 * i));
      PowMono(30 * (limbsize + 1), 30 * i);
    }
  }

  lemma {:induction false} HeadGrows(s: seq<int>, m: nat, n: nat)
    requires Norm(s) && m <= n <= 9
    ensures Head(s, m) <= Head(s, n)
  {
    if m < n {
      HeadGrows(s, m, n - 1);
      MulMono(0, s[n - 1], Pow2(30 * (n - 1)));
    }
  }

  lemma {:induction false} PowMono(a: nat, b: nat)
    requires a <= b
    ensures Pow2(a) <= Pow2(b)
  {
    if a < b {
      PowMono(a, b - 1);
    }
  }

  /** `out[i] = (a[i] - b[i]) - carry; carry = out[i] >> 31; out[i] &= 0x3fffffff` */
  method SubLimb(a: int, b: int, carry: int) returns (d: int, carry': int)
    requires 0 <= a < 0x40000000 && 0 <= b < 0x40000000 && 0 <= carry <= 1
    ensures d == a - b - carry + 0x40000000 * carry' && 0 <= d < 0x40000000 && 0 <= carry' <= 1
  {
    hide And;
    var t := U32(a - b - carry);
    carry' := t / 0x80000000;
    d := Low30(t);
  }

  /** sub256_modm_batch: subtracts the low limbs only and leaves the others as they were. */
  method SubBatch(a: seq<int>, b: seq<int>, limbsize: nat) returns (out: seq<int>)
    requires Norm(a) && Norm(b) && limbsize <= 8
    requires Fits(a, limbsize) && Fits(b, limbsize) && Val(b) <= Val(a)
    ensures Norm(out) && Fits(out, limbsize) && Val(out) == Val(a) - Val(b)
  {
    out := a;
    var carry := 0;
    var i := 0;
    NormLength(a);
    NormLength(b);
    HeadStart(out, a, b);
    hide *;
    while i < limbsize
      invariant 0 <= i <= limbsize && 0 <= carry <= 1 && |out| == 9
      invariant forall k :: 0 <= k < i ==> 0 <= out[k] < 0x40000000
      invariant forall k :: i <= k < 9 ==> out[k] == a[k]
      invariant Head(out, i) == Head(a, i) - Head(b, i) + carry * Pow2(30 * i)
    {
      ghost var before := out;
      NormLimb(a, i);
      NormLimb(b, i);
      var d, c := SubLimb(a[i], b[i], carry);
      out := out[i := d];
      HeadUntouched(before, out, i);
      SubStep(out, a, b, i, carry, c);
      carry := c;
      i := i + 1;
    }
    ghost var before := out;
    LastLimb(a, b, out, limbsize, carry);
    out := out[limbsize := U32(a[limbsize] - b[limbsize] - carry)];
    HeadUntouched(before, out, limbsize);
    SubDone(out, a, b, limbsize, carry);
  }

  lemma HeadStart(out: seq<int>, a: seq<int>, b: seq<int>)
    requires |out| == |a| == |b| == 9
    ensures Head(out, 0) == Head(a, 0) - Head(b, 0) + 0 * Pow2(30 * 0)
  {
  }

  lemma NormLength(s: seq<int>)
    requires Norm(s)
    ensures |s| == 9
  {
  }

  lemma NormLimb(s: seq<int>, i: nat)
    requires Norm(s) && i < 9
    ensures 0 <= s[i] < 0x40000000
  {
    assert i == 0 || i == 1 || i == 2 || i == 3 || i == 4 || i == 5 || i == 6 || i == 7 || i == 8;
  }

  predicate Limb(a: seq<int>, i: nat)
    requires |a| == 9 && i < 9
  {
    0 <= a[i] < 0x40000000
  }

  lemma {:induction false} HeadUntouched(s: seq<int>, t: seq<int>, n: nat)
    requires |s| == |t| == 9 && n <= 9 && forall k :: 0 <= k < n ==> s[k] == t[k]
    ensures Head(s, n) == Head(t, n)
  {
    if n > 0 {
      HeadUntouched(s, t, n - 1);
    }
  }

  lemma SubStep(out: seq<int>, a: seq<int>, b: seq<int>, i: nat, carry: int, c: int)
    requires |out| == |a| == |b| == 9 && i < 9
    requires Head(out, i) == Head(a, i) - Head(b, i) + carry * Pow2(30 * i)
    requires out[i] == a[i] - b[i] - carry + 0x40000000 * c
    ensures Head(out, i + 1) == Head(a, i + 1) - Head(b, i + 1) + c * Pow2(30 * (i + 1))
  {
    var p, k := Pow2(30 * i), 30;
    Pow2Add(k, 30 * i);
    Pow2Literals();
    assert Pow2(30 * (i + 1)) == 0x40000000 * p;
    assert Head(out, i + 1) == Head(out, i) + out[i] * p;
    assert Head(a, i + 1) == Head(a, i) + a[i] * p && Head(b, i + 1) == Head(b, i) + b[i] * p;
    hide Head, Pow2;
    assert (a[i] - b[i] - carry + 0x40000000 * c) * p == a[i] * p - b[i] * p - carry * p + c * (0x40000000 * p);
  }

  /** Since a >= b, the last limb of the difference cannot be negative. */
  lemma LastLimb(a: seq<int>, b: seq<int>, out: seq<int>, n: nat, carry: int)
    requires Norm(a) && Norm(b) && n <= 8 && |out| == 9
    requires Fits(a, n) && Fits(b, n) && Val(b) <= Val(a) && 0 <= carry <= 1
    requires forall k :: 0 <= k < n ==> 0 <= out[k] < 0x40000000
    requires Head(out, n) == Head(a, n) - Head(b, n) + carry * Pow2(30 * n)
    ensures 0 <= a[n] - b[n] - carry < 0x40000000
  {
    NormLimb(a, n);
    NormLimb(b, n);
    hide Val, Limbs;
    HeadIsVal(a);
    HeadIsVal(b);
    HeadOfFitting(a, n, 9);
    HeadOfFitting(b, n, 9);
    LowBound(out, n);
    var p := Pow2(30 * n);
    assert Head(a, n + 1) == Head(a, n) + a[n] * p && Head(b, n + 1) == Head(b, n) + b[n] * p;
    hide Head, Pow2;
    TopDigitSign(Head(out, n), a[n], b[n], carry, p);
  }

  lemma TopDigitSign(x: int, a: int, b: int, carry: int, p: int)
    requires 0 <= x < p && x + a * p - b * p - carry * p >= 0
    ensures a - b - carry >= 0
  {
    var d := a - b - carry;
    assert d * p == a * p - b * p - carry * p;
    if d < 0 {
      MulMono(d, -1, p);
    }
  }

  lemma {:induction false} LowBound(s: seq<int>, n: nat)
    requires |s| == 9 && n <= 9 && forall k :: 0 <= k < n ==> 0 <= s[k] < 0x40000000
    ensures 0 <= Head(s, n) < Pow2(30 * n)
  {
    if n > 0 {
      LowBound(s, n - 1);
      WeightStep(n);
      hide Pow2;
      LimbRoom(Head(s, n - 1), s[n - 1], Pow2(30 * (n - 1)));
    }
  }

  lemma SubDone(out: seq<int>, a: seq<int>, b: seq<int>, n: nat, carry: int)
    requires Norm(a) && Norm(b) && n <= 8 && |out| == 9
    requires Fits(a, n) && Fits(b, n)
    requires forall k :: 0 <= k < n ==> 0 <= out[k] < 0x40000000
    requires forall k :: n < k < 9 ==> out[k] == a[k]
    requires out[n] == a[n] - b[n] - carry && 0 <= out[n] < 0x40000000
    requires Head(out, n) == Head(a, n) - Head(b, n) + carry * Pow2(30 * n)
    ensures Norm(out) && Fits(out, n) && Val(out) == Val(a) - Val(b)
  {
    SubNorm(out, a, n);
    SubStep(out, a, b, n, carry, 0);
    assert 0 * Pow2(30 * (n + 1)) == 0;
    HeadIsVal(a);
    HeadIsVal(b);
    HeadIsVal(out);
    hide Val, Head, Pow2, Limbs;
    HeadOfFitting(a, n, 9);
    HeadOfFitting(b, n, 9);
    HeadOfFitting(out, n, 9);
  }

  lemma SubNorm(out: seq<int>, a: seq<int>, n: nat)
    requires Norm(a) && n <= 8 && |out| == 9 && Fits(a, n)
    requires forall k :: 0 <= k < n ==> 0 <= out[k] < 0x40000000
    requires forall k :: n < k < 9 ==> out[k] == a[k]
    requires 0 <= out[n] < 0x40000000
    ensures Norm(out) && Fits(out, n)
  {
    assert forall k :: 0 <= k < 9 ==> Limb(out, k);
    assert Limb(out, 0) && Limb(out, 1) && Limb(out, 2) && Limb(out, 3) && Limb(out, 4);
    assert Limb(out, 5) && Limb(out, 6) && Limb(out, 7) && Limb(out, 8);
  }

  /** iszero256_modm_batch. */
  method IsZeroBatch(a: seq<int>) returns (zero: bool)
    requires Norm(a)
    ensures zero <==> Val(a) == 0
  {
    ZeroLimbs(a);
    hide Val, Limbs;
    for i := 0 to 9
      invariant forall k :: 0 <= k < i ==> a[k] == 0
    {
      if a[i] != 0 {
        return false;
      }
    }
    return true;
  }

  lemma ZeroLimbs(a: seq<int>)
    requires Norm(a)
    ensures Val(a) == 0 <==> forall k :: 0 <= k < 9 ==> a[k] == 0
  {
    if Val(a) == 0 {
      forall k | 0 <= k < 9 ensures a[k] == 0 {
        assert k == 0 || k == 1 || k == 2 || k == 3 || k == 4 || k == 5 || k == 6 || k == 7 || k == 8;
      }
    }
  }

  /** isone256_modm_batch. */
  method IsOneBatch(a: seq<int>) returns (one: bool)
    requires Norm(a)
    ensures one <==> Val(a) == 1
  {
    if a[0] != 1 {
      OneLimb(a);
      return false;
    }
    hide Val, Limbs;
    for i := 1 to 9
      invariant forall k :: 1 <= k < i ==> a[k] == 0
    {
      if a[i] != 0 {
        OneLimbs(a);
        return false;
      }
    }
    OneLimbs(a);
    return true;
  }

  lemma OneLimb(a: seq<int>)
    requires Norm(a) && a[0] != 1
    ensures Val(a) != 1
  {
  }

  lemma OneLimbs(a: seq<int>)
    requires Norm(a) && a[0] == 1
    ensures Val(a) == 1 <==> forall k :: 1 <= k < 9 ==> a[k] == 0
  {
    ZeroLimbs(a[0 := 0]);
  }

  lemma {:induction false} OrZero(a: nat, b: nat)
    ensures Or(a, b) == 0 <==> a == 0 && b == 0
  {
    if a != 0 && b != 0 {
      OrZero(a / 2, b / 2);
    }
  }

  /** `a[4] & 0x3fffff00` tests the bits from 128 up. */
  lemma HighMask(x: nat)
    requires x < 0x40000000
    ensures And(x, 0x3fffff00) == 0 <==> x < 0x100
  {
    HighPart(x, 8, 22, 0x3fffff, 0x3fffff00, x / 0x100);
  }

  lemma HighPart(x: nat, k: nat, width: nat, ones: nat, mask: nat, q: nat)
    requires k == 8 && width == 22 && ones == 0x3fffff && mask == 0x3fffff00 && q == x / 0x100 && q <= ones
    ensures And(x, mask) == q * 0x100
  {
    Pow2Literals();
    hide And, Pow2;
    AndShifted(x, ones, k, mask, q);
    AndMask(q, width, ones);
    DivModUnique(q, ones + 1, 0, q);
  }

  /** isatmost128bits256_modm_batch. */
  predicate AtMost128(a: seq<int>)
    requires Norm(a)
  {
    Or(Or(Or(Or(a[8], a[7]), a[6]), a[5]), And(a[4], 0x3fffff00)) == 0
  }

  lemma AtMost128Iff(a: seq<int>)
    requires Norm(a)
    ensures AtMost128(a) <==> Val(a) < 0x1_0000_0000_0000_0000_0000_0000_0000_0000
  {
    hide Or, And;
    HighMask(a[4]);
    OrZero(Or(Or(Or(a[8], a[7]), a[6]), a[5]), And(a[4], 0x3fffff00));
    OrZero(Or(Or(a[8], a[7]), a[6]), a[5]);
    OrZero(Or(a[8], a[7]), a[6]);
    OrZero(a[8], a[7]);
  }
}
