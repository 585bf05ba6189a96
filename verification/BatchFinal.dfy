/** The last step of the batch multiplication, ge25519_multi_scalarmult_vartime_final, and the whole of
    ge25519_multi_scalarmult_vartime (ed25519-donna/ed25519-donna-batchverify.h:88-190).  The final
    multiplication starts from the point and then processes the leading bit again, so it is off for
    every scalar from 2 on: the lemmas here say by how much and when that does no harm. */
module BatchFinal {
  import opened Bits
  import opened Modm
  import opened Groups
  import opened BatchScalars
  import opened BosCoster

  function BitLength(n: nat): nat {
    if n == 0 then 0 else 1 + BitLength(n / 2)
  }

  /** 2^(BitLength(n) - 1) <= n < 2^BitLength(n) */
  lemma {:induction false} BitLengthBounds(n: nat)
    ensures n < Pow2(BitLength(n)) && (n > 0 ==> Pow2(BitLength(n)) <= 2 * n)
  {
    if n > 0 {
      BitLengthBounds(n / 2);
    }
  }

  /** n with its leading bit counted once more, one place higher. */
  function Doubled(n: nat): nat {
    n + Pow2(BitLength(n))
  }

  /** The part of a scalar that is looked at: its limbs 0 to 5. */
  ghost function Seen(s: seq<int>): nat
    requires Norm(s)
  {
    HeadBound(s, 6);
    Head(s, 6)
  }

  /** The multiple that is computed: limbs above the fifth are not looked at, and from 2 on the
      leading bit counts once more, one place higher. */
  ghost function FinalMultiple(s: seq<int>): int
    requires Norm(s)
  {
    if Val(s) <= 1 then Val(s) else Doubled(Seen(s))
  }

  /** The value of the limbs i, ..., 5. */
  function Rest(s: seq<int>, i: nat): int
    requires |s| == 9
    decreases 6 - i
  {
    if i >= 6 then 0 else s[i] + 0x40000000 * Rest(s, i + 1)
  }

  lemma {:induction false} RestIsHead(s: seq<int>, i: nat)
    requires |s| == 9 && i <= 6
    ensures Head(s, 6) == Head(s, i) + Pow2(30 * i) * Rest(s, i)
    decreases 6 - i
  {
    if i < 6 {
      RestIsHead(s, i + 1);
      var k, p := 30, Pow2(30 * i);
      Pow2Add(k, 30 * i);
      Pow2Literals();
      assert Head(s, i + 1) == Head(s, i) + s[i] * p;
      var x, r := s[i], Rest(s, i + 1);
      hide Head, Pow2;
      MulDistribute(p, x, 0x40000000, r);
      assert (p * 0x40000000) * r == Pow2(30 * (i + 1)) * r;
    }
  }

  lemma {:induction false} RestNonNegative(s: seq<int>, i: nat)
    requires Norm(s) && i <= 6
    ensures Rest(s, i) >= 0 && (Rest(s, i) == 0 ==> forall k :: i <= k < 6 ==> s[k] == 0)
    decreases 6 - i
  {
    if i < 6 {
      RestNonNegative(s, i + 1);
      NormLimb(s, i);
    }
  }

  lemma LowestBit(q: nat, one: nat)
    requires one == 1
    ensures And(q, one) == q % 2
  {
    assert And(q / 2, 0) == 0;
  }

  /** `x & flag` looks at the bit of weight flag. */
  lemma TestBit(x: nat, k: nat, flag: nat)
    requires flag == Pow2(k)
    ensures And(x, flag) == 0 <==> x / Pow2(k) % 2 == 0
  {
    hide *;
    AndShifted(x, 1, k, flag, x / Pow2(k));
    LowestBit(x / Pow2(k), 1);
    Multiples(Pow2(k));
  }

  lemma Multiples(p: int)
    ensures 0 * p == 0 && 1 * p == p
  {
  }

  lemma QuotientStep(x: nat, k: nat)
    ensures x / Pow2(k) == 2 * (x / Pow2(k + 1)) + x / Pow2(k) % 2
  {
    HalfQuotient(x, Pow2(k));
  }

  lemma HalfQuotient(x: nat, p: nat)
    requires p > 0
    ensures x / p / 2 == x / (2 * p)
  {
    var q, r := x / p, x % p;
    assert x == q * p + r;
    assert q * p == (q / 2) * (2 * p) + (q % 2) * p;
    MulMono(q % 2, 1, p);
    DivModUnique(x, 2 * p, q / 2, (q % 2) * p + r);
  }

  /** What has been read when the flag stands at bit k of limb i: the bits above it. */
  ghost function Prefix(s: seq<int>, i: nat, k: int): int
    requires |s| == 9 && i < 6 && -1 <= k < 30
    requires s[i] >= 0
  {
    Rest(s, i + 1) * Pow2(29 - k) + s[i] / Pow2(k + 1)
  }

  lemma PrefixStep(s: seq<int>, i: nat, k: nat, flag: nat)
    requires Norm(s) && i < 6 && k < 30 && 0 <= s[i] && flag == Pow2(k)
    ensures Prefix(s, i, k - 1) == 2 * Prefix(s, i, k) + (if And(s[i], flag) != 0 then 1 else 0)
  {
    TestBit(s[i], k, flag);
    QuotientStep(s[i], k);
    var j := 30 - k;
    assert Pow2(j) == 2 * Pow2(j - 1);
    hide *;
    DoubleProduct(Rest(s, i + 1), Pow2(j - 1));
    PrefixIs(s, i, k);
    PrefixIs(s, i, k - 1);
  }

  lemma PrefixIs(s: seq<int>, i: nat, k: int)
    requires |s| == 9 && i < 6 && -1 <= k < 30 && s[i] >= 0
    ensures Prefix(s, i, k) == Rest(s, i + 1) * Pow2(29 - k) + s[i] / Pow2(k + 1)
  {
  }

  lemma DoubleProduct(a: int, p: int)
    ensures a * (2 * p) == 2 * (a * p)
  {
  }

  /** From the last bit of a limb to the first of the next. */
  lemma PrefixLimb(s: seq<int>, i: nat)
    requires Norm(s) && i < 6 && 0 <= s[i] && (i > 0 ==> 0 <= s[i - 1])
    ensures Prefix(s, i, -1) == Rest(s, i)
    ensures i > 0 ==> Prefix(s, i - 1, 29) == Rest(s, i)
  {
    Pow2Literals();
    assert Pow2(0) == 1;
    if i > 0 {
      NormLimb(s, i - 1);
      var x := s[i - 1];
      assert x / 0x40000000 == 0;
    }
  }

  method FindBit(x: nat) returns (flag: nat, ghost k: nat)
    requires 0 < x < 0x40000000
    ensures k < 30 && flag == Pow2(k) && And(x, flag) != 0 && x / Pow2(k + 1) == 0
  {
    hide And;
    Pow2Literals();
    flag, k := 0x20000000, 29;
    assert Pow2(30) == 2 * Pow2(29) && Pow2(0) == 1 && x / 1 == x;
    while And(x, flag) == 0
      invariant k < 30 && flag == Pow2(k) && x / Pow2(k + 1) == 0
      decreases k
    {
      TestBit(x, k, flag);
      QuotientStep(x, k);
      assert k > 0 && Pow2(k) == 2 * Pow2(k - 1);
      flag, k := flag / 2, k - 1;
    }
  }

  /** `ge25519_double(r, r); if (scalar[limb] & flag) ge25519_add(r, r, point)` */
  method DoubleAdd<G(!new)>(g: Group<G>, r: G, point: G, bit: bool, ghost m: int) returns (r': G)
    requires Abelian(g) && r == Times(g, m, point)
    ensures r' == Times(g, 2 * m + (if bit then 1 else 0), point)
  {
    r' := g.add(r, r);
    TimesAdd(g, m, m, point);
    assert m + m == 2 * m;
    if bit {
      r' := g.add(r', point);
      TimesOne(g, point);
      TimesAdd(g, 2 * m, 1, point);
    }
  }

  lemma LengthStep(p: int, q: int, b: int)
    requires 0 <= p && q == 2 * p + b && 0 <= b <= 1 && q > 0
    ensures q >= 0 && BitLength(q) == BitLength(p) + 1
    ensures Doubled(q) == 2 * Doubled(p) + b
  {
    assert q / 2 == p;
  }

  lemma QuotientNonNegative(x: int, p: int)
    requires x >= 0 && p > 0
    ensures x / p >= 0
  {
  }

  /** One bit of the exponentiation. */
  method BitStep<G(!new)>(g: Group<G>, s: seq<int>, point: G, limb: nat, flag: nat, ghost k: nat, r: G) returns (r': G)
    requires Abelian(g) && Norm(s) && limb < 6 && 0 <= s[limb] && k < 30 && flag == Pow2(k)
    requires Prefix(s, limb, k) >= 0
    requires r == Times(g, Doubled(Prefix(s, limb, k)), point)
    requires Prefix(s, limb, k) > 0 || And(s[limb], flag) != 0
    ensures Prefix(s, limb, k - 1) > 0
    ensures r' == Times(g, Doubled(Prefix(s, limb, k - 1)), point)
  {
    hide And, Times, Prefix;
    ghost var p, b := Prefix(s, limb, k), if And(s[limb], flag) != 0 then 1 else 0;
    PrefixStep(s, limb, k, flag);
    LengthStep(p, 2 * p + b, b);
    r' := DoubleAdd(g, r, point, And(s[limb], flag) != 0, Doubled(p));
  }

  lemma FlagStep(flag: nat, k: nat)
    requires flag == Pow2(k)
    ensures flag / 2 == 0 <==> k == 0
    ensures k > 0 ==> flag / 2 == Pow2(k - 1)
  {
  }

  lemma TopFlag()
    ensures Pow2(29) == 0x20000000
  {
    Pow2Literals();
    assert Pow2(30) == 2 * Pow2(29);
  }

  /** The loop over the bits from the leading one down. */
  method Exponentiate<G(!new)>(g: Group<G>, s: seq<int>, point: G, top: nat, topFlag: nat, ghost topBit: nat) returns (r: G)
    requires Abelian(g) && Norm(s) && top < 6 && 0 <= s[top] && topBit < 30 && topFlag == Pow2(topBit)
    requires Prefix(s, top, topBit) == 0 && And(s[top], topFlag) != 0
    ensures Rest(s, 0) >= 0 && r == Times(g, Doubled(Rest(s, 0)), point)
  {
    assert |s| == 9;
    TimesOne(g, point);
    assert Doubled(0) == 1;
    hide And, Times, Prefix, Limbs, Pow2, Doubled, Rest, Abelian;
    r := point;
    var limb: nat, flag: nat := top, topFlag;
    ghost var k: nat := topBit;
    while true
      invariant |s| == 9 && limb < 6 && 0 <= s[limb] && k < 30 && flag == Pow2(k)
      invariant Prefix(s, limb, k) >= 0 && (Prefix(s, limb, k) > 0 || And(s[limb], flag) != 0)
      invariant r == Times(g, Doubled(Prefix(s, limb, k)), point)
      decreases limb, k
    {
      r := BitStep(g, s, point, limb, flag, k, r);
      FlagStep(flag, k);
      flag := flag / 2;
      if flag == 0 {
        if limb > 0 {
          NormLimb(s, limb - 1);
        }
        PrefixLimb(s, limb);
        if limb == 0 {
          break;
        }
        limb := limb - 1;
        flag, k := 0x20000000, 29;
        TopFlag();
      } else {
        k := k - 1;
      }
    }
  }

  /** With nothing above the leading bit nothing has been read. */
  lemma NothingRead(s: seq<int>, limb: nat, k: nat)
    requires |s| == 9 && limb < 6 && k < 30 && 0 < s[limb] && Rest(s, limb + 1) == 0 && s[limb] / Pow2(k + 1) == 0
    ensures Prefix(s, limb, k) == 0
  {
    assert 0 * Pow2(29 - k) == 0;
  }

  /** ge25519_multi_scalarmult_vartime_final.  `ok` is false when the search for the first nonzero limb
      runs below limb 0, which the C code does not check. */
  method Final<G(!new)>(g: Group<G>, point: G, s: seq<int>) returns (ok: bool, r: G)
    requires Abelian(g) && Norm(s)
    ensures ok <==> Val(s) <= 1 || Head(s, 6) != 0
    ensures ok ==> r == Times(g, FinalMultiple(s), point)
  {
    hide Val, And, Times, Prefix;
    var one := IsOneBatch(s);
    ValNonNegative(s);
    TimesOne(g, point);
    if one {
      return true, point;
    }
    var zero := IsZeroBatch(s);
    if zero {
      return true, g.zero;
    }
    RestIsHead(s, 0);
    assert Pow2(0) == 1 && Head(s, 0) == 0;
    var limb := 5;
    while limb >= 0 && s[limb] == 0
      invariant -1 <= limb <= 5 && Rest(s, limb + 1) == 0
    {
      limb := limb - 1;
    }
    r := point;
    if limb < 0 {
      return false, r;
    }
    NormLimb(s, limb);
    RestNonNegative(s, 0);
    var flag, k := FindBit(s[limb]);
    NothingRead(s, limb, k);
    r := Exponentiate(g, s, point, limb, flag, k);
    ok := true;
  }

  /** 2^k kills a point of odd order only if the point is the identity. */
  lemma {:induction false} OddOrder<G(!new)>(g: Group<G>, d: int, k: nat, p: G)
    requires Abelian(g) && d > 0 && d % 2 == 1 && Times(g, d, p) == g.zero && Times(g, Pow2(k), p) == g.zero
    ensures p == g.zero
    decreases k
  {
    TimesOne(g, p);
    if k == 0 {
      assert Pow2(0) == 1;
    } else {
      var m := Pow2(k - 1);
      var q := Times(g, m, p);
      TimesTimes(g, 2, m, p);
      TimesTimes(g, d, m, p);
      TimesTimes(g, m, d, p);
      TimesZero(g, m);
      assert m * d == d * m;
      var h := d / 2;
      TimesTimes(g, h, 2, q);
      TimesZero(g, h);
      TimesAdd(g, h * 2, 1, q);
      TimesOne(g, q);
      assert h * 2 + 1 == d;
      assert Unit(g, q);
      OddOrder(g, d, k - 1, p);
    }
  }

  lemma {:induction false} TimesZero<G(!new)>(g: Group<G>, n: nat)
    requires Abelian(g)
    ensures Times(g, n, g.zero) == g.zero
  {
    if n > 0 {
      TimesZero(g, n - 1);
      assert Unit(g, g.zero);
    }
  }

  /** When the final multiplication is right: for 0 and 1, and for a larger scalar exactly when the point is
      killed by the difference between the power of two above the limbs looked at and the limbs not looked at. */
  lemma FinalExactIff<G(!new)>(g: Group<G>, point: G, s: seq<int>)
    requires Abelian(g) && Norm(s)
    ensures Times(g, FinalMultiple(s), point) == Times(g, Val(s), point)
      <==> Val(s) <= 1 || Times(g, Pow2(BitLength(Seen(s))) - (Val(s) - Seen(s)), point) == g.zero
  {
    hide Val, Times, Head;
    if Val(s) > 1 {
      var n, e := Val(s), Pow2(BitLength(Seen(s))) - (Val(s) - Seen(s));
      assert FinalMultiple(s) == n + e;
      TimesAdd(g, n, e, point);
      CancelLeft(g, Times(g, n, point), Times(g, e, point));
      var t := Times(g, n, point);
      assert Comm(g, t, g.zero) && Unit(g, t);
      assert Comm(g, g.neg(t), t) && Inverse(g, t);
    }
  }

  /** The limbs that are not looked at weigh a multiple of 2^180. */
  lemma LimbsAbove(s: seq<int>) returns (q: int)
    requires Norm(s)
    ensures q >= 0 && Val(s) == Seen(s) + q * Pow2(180)
  {
    HeadIsVal(s);
    LimbWeights();
    NormLimb(s, 6);
    NormLimb(s, 7);
    NormLimb(s, 8);
    q := s[6] + 0x40000000 * (s[7] + 0x40000000 * s[8]);
    var p, m := Pow2(180), 30;
    assert Head(s, 7) == Head(s, 6) + s[6] * Pow2(m * 6);
    assert Head(s, 8) == Head(s, 7) + s[7] * Pow2(m * 7);
    assert Head(s, 9) == Head(s, 8) + s[8] * Pow2(m * 8);
    hide Head, Val, Pow2;
    WeightSum(s[6], s[7], s[8], p);
  }

  lemma WeightSum(x: int, y: int, z: int, p: int)
    ensures (x + 0x40000000 * (y + 0x40000000 * z)) * p == x * p + y * (0x40000000 * p) + z * (0x40000000 * (0x40000000 * p))
  {
  }

  lemma SeenLength(s: seq<int>)
    requires Norm(s)
    ensures BitLength(Seen(s)) <= 180 && Pow2(BitLength(Seen(s))) <= Pow2(180)
  {
    var n, k := Seen(s), 180;
    HeadBound(s, 6);
    BitLengthBounds(n);
    hide Head, BitLength;
    if BitLength(n) > k {
      PowMono(k + 1, BitLength(n));
    } else {
      PowMono(BitLength(n), k);
    }
  }

  /** 1 less the limbs not looked at, these in units of the power of two above the limbs looked at. */
  ghost function Excess(s: seq<int>): int
    requires Norm(s)
  {
    1 - (Val(s) - Seen(s)) / Pow2(BitLength(Seen(s)))
  }

  /** In a group of odd order, such as the prime-order subgroup of Ed25519, the power of two can be divided
      out; if no limb is left out that says: the scalar is 0 or 1, or the point is the identity. */
  lemma FinalExactOddOrder<G(!new)>(g: Group<G>, point: G, s: seq<int>, d: int)
    requires Abelian(g) && Norm(s) && d > 0 && d % 2 == 1 && Times(g, d, point) == g.zero
    ensures Times(g, FinalMultiple(s), point) == Times(g, Val(s), point)
      <==> Val(s) <= 1 || Times(g, Excess(s), point) == g.zero
  {
    hide *;
    NormLength(s);
    FinalExactIff(g, point, s);
    LeadingFactor(s, BitLength(Seen(s)));
    OddFactor(g, d, BitLength(Seen(s)), Excess(s), point);
  }

  lemma OddFactor<G(!new)>(g: Group<G>, d: int, l: nat, w: int, point: G)
    requires Abelian(g) && d > 0 && d % 2 == 1 && Times(g, d, point) == g.zero
    ensures Times(g, Pow2(l) * w, point) == g.zero <==> Times(g, w, point) == g.zero
  {
    hide *;
    var p, q := Pow2(l), Times(g, w, point);
    TimesTimes(g, p, w, point);
    TimesTimes(g, d, w, point);
    TimesTimes(g, w, d, point);
    assert d * w == w * d;
    KilledMultiple(g, w);
    KilledMultiple(g, p);
    if Times(g, p, q) == g.zero {
      OddOrder(g, d, l, q);
    }
  }

  lemma LeadingFactor(s: seq<int>, l: nat)
    requires Norm(s) && l == BitLength(Seen(s))
    ensures Pow2(l) - (Val(s) - Seen(s)) == Pow2(l) * Excess(s)
  {
    assert |s| == 9;
    ExcessIs(s);
    hide *;
    SeenLength(s);
    var q := LimbsAbove(s);
    var rest: nat := 180 - l;
    Pow2Add(l, rest);
    FactorOut(Pow2(l), Pow2(rest), Pow2(180), q, Val(s) - Seen(s), Excess(s));
  }

  lemma ExcessIs(s: seq<int>)
    requires Norm(s)
    ensures IsExcess(Excess(s), Val(s) - Seen(s), Pow2(BitLength(Seen(s))))
  {
  }

  predicate IsExcess(e: int, h: int, p: int) {
    p > 0 && e == 1 - h / p
  }

  lemma FactorOut(p: int, r: int, w: int, q: int, h: int, e: int)
    requires IsExcess(e, h, p) && w == p * r && h == q * w
    ensures p - h == p * e
  {
    var z := q * r;
    assert q * (p * r) == z * p;
    DivModUnique(h, p, z, 0);
    assert p * (1 - z) == p - p * z;
  }

  lemma KilledMultiple<G(!new)>(g: Group<G>, n: int)
    requires Abelian(g)
    ensures Times(g, n, g.zero) == g.zero
  {
    if n >= 0 {
      TimesZero(g, n);
    } else {
      TimesZero(g, -n);
      TimesNeg(g, -n, g.zero);
      assert Unit(g, g.neg(g.zero)) && Comm(g, g.neg(g.zero), g.zero) && Inverse(g, g.zero);
    }
  }

  /** What FinalExactIff asks to be annihilated lies strictly between -m and m. */
  lemma SmallExcess(s: seq<int>)
    requires Norm(s) && Val(s) < ORDER
    ensures 0 - ORDER < Pow2(BitLength(Seen(s))) - (Val(s) - Seen(s)) < ORDER
  {
    assert |s| == 9;
    hide *;
    SeenLength(s);
    Weight180();
    SeenBelow(s);
  }

  lemma SeenBelow(s: seq<int>)
    requires Norm(s)
    ensures 0 <= Seen(s) <= Val(s) && Pow2(BitLength(Seen(s))) > 0
  {
    assert |s| == 9;
    var q := LimbsAbove(s);
    hide *;
    MulMono(0, q, Pow2(180));
  }

  lemma Weight180()
    ensures Pow2(180) < ORDER
  {
    LimbWeights();
  }

  lemma SmallMultiple(e: int)
    requires 0 - ORDER < e < ORDER && e % ORDER == 0
    ensures e == 0
  {
    if e < 0 {
      DivModUnique(e, ORDER, -1, e + ORDER);
    } else {
      DivModUnique(e, ORDER, 0, e);
    }
  }

  /** For a point of the order m of the prime-order subgroup and a reduced scalar the condition can be read off
      the scalar: it is 0 or 1, or its limbs above the fifth are the power of two above the limbs looked at. */
  lemma FinalExactPrimeOrder<G(!new)>(g: Group<G>, point: G, s: seq<int>)
    requires Abelian(g) && Norm(s) && Val(s) < ORDER
    requires forall k :: Times(g, k, point) == g.zero ==> k % ORDER == 0
    ensures Times(g, FinalMultiple(s), point) == Times(g, Val(s), point)
      <==> Val(s) <= 1 || Val(s) - Seen(s) == Pow2(BitLength(Seen(s)))
  {
    assert |s| == 9;
    hide *;
    FinalExactIff(g, point, s);
    var e := Pow2(BitLength(Seen(s))) - (Val(s) - Seen(s));
    SmallExcess(s);
    TimesOne(g, point);
    if Times(g, e, point) == g.zero {
      SmallMultiple(e);
    }
  }

  lemma TwoIsWrong() returns (s: seq<int>)
    ensures s == [2, 0, 0, 0, 0, 0, 0, 0, 0] && Norm(s) && Val(s) == 2 && FinalMultiple(s) == 6
    ensures Excess(s) == 1
  {
    s := [2, 0, 0, 0, 0, 0, 0, 0, 0];
    HeadOfFitting(s, 0, 6);
    assert Head(s, 1) == Head(s, 0) + s[0] * Pow2(30 * 0) && Head(s, 0) == 0 && Pow2(0) == 1;
    assert Seen(s) == 2 && BitLength(2) == 1 + BitLength(1) && BitLength(1) == 1 + BitLength(0) && Pow2(2) == 4;
  }

  /** The scalar 2: the multiple computed is 6, which is wrong for every point of odd order but the identity. */
  lemma FinalWrongExample<G(!new)>(g: Group<G>, point: G, d: int)
    requires Abelian(g) && d > 0 && d % 2 == 1 && Times(g, d, point) == g.zero && point != g.zero
    ensures var s := [2, 0, 0, 0, 0, 0, 0, 0, 0];
      Norm(s) && Val(s) == 2 && FinalMultiple(s) == 6 && Times(g, FinalMultiple(s), point) != Times(g, Val(s), point)
  {
    var s := TwoIsWrong();
    hide *;
    FinalExactOddOrder(g, point, s, d);
    TimesOne(g, point);
  }

  // ---- the whole multiplication

  /** No common divisor but 1. */
  ghost predicate Coprime(sc: seq<seq<int>>, n: int)
    requires Loaded(sc, n)
  {
    forall d :: d > 1 ==> !DividesAll(d, sc, n)
  }

  lemma CoprimeExtends(sc: seq<seq<int>>, m: int, n: int)
    requires Loaded(sc, n) && 0 <= m <= n && Loaded(sc, m) && Coprime(sc, m)
    ensures Coprime(sc, n)
  {
    hide Val;
    forall d | d > 1 ensures !DividesAll(d, sc, n) {
      assert !DividesAll(d, sc, m);
    }
  }

  lemma CoprimeSmall(sc: seq<seq<int>>, n: int)
    requires Loaded(sc, n) && Coprime(sc, n)
    ensures SmallDivisors(sc, n)
  {
    hide DividesAll;
  }

  /** A number whose divisors are the common divisors of coprime scalars is 1. */
  lemma CoprimeIsOne(sc: seq<seq<int>>, n: int, v: int)
    requires Loaded(sc, n) && Coprime(sc, n) && v >= 0
    requires forall d :: d > 0 ==> (DividesAll(d, sc, n) <==> v % d == 0)
    ensures v == 1
  {
    hide Val;
    var d := if v == 0 then 2 else v;
    DivModUnique(v, d, if v == 0 then 0 else 1, 0);
    assert DividesAll(d, sc, n) <==> v % d == 0;
  }

  /** ge25519_multi_scalarmult_vartime.  Whatever `extended` says, coprime scalars in the heap give the
      sum over the heap, which is the whole input exactly when the first half has two nonzero scalars and
      their greatest common divisor has at most 128 bits; for a coprime first half, when two are nonzero.
      (With only one the 128-bit half is never added.) */
  method MultiScalarMult<G(!new)>(g: Group<G>, heap: BatchHeap<G>, count: int) returns (ok: bool, r: G, extended: bool)
    requires Abelian(g) && heap.Shape()
    requires 5 <= count <= HEAP_BATCH_SIZE && count % 2 == 1
    requires Loaded(heap.scalars, count) && Tail128(heap.scalars, count)
    modifies heap
    ensures heap.size == if extended then count else FirstHalf(count)
    ensures 3 <= heap.size <= count && Loaded(old(heap.scalars), heap.size)
    ensures Coprime(old(heap.scalars), heap.size) ==>
      ok && r == Total(g, old(heap.scalars), old(heap.points), heap.size)
    ensures 3 <= FirstHalf(count) <= count && Loaded(old(heap.scalars), FirstHalf(count))
    ensures extended <==>
      TwoNonzero(old(heap.scalars), FirstHalf(count)) && SmallDivisors(old(heap.scalars), FirstHalf(count))
    ensures Coprime(old(heap.scalars), FirstHalf(count)) ==>
      (extended <==> TwoNonzero(old(heap.scalars), FirstHalf(count)))
    ensures Coprime(old(heap.scalars), FirstHalf(count)) && extended ==>
      ok && r == Total(g, old(heap.scalars), old(heap.points), count)
  {
    hide Val, Times, Total, Tail128;
    ghost var sc := heap.scalars;
    FirstHalfOdd(count);
    var max1;
    max1, extended := heap.Reduce(g, count);
    assert Norm(heap.scalars[max1]);
    ghost var v := Val(heap.scalars[max1]);
    ValNonNegative(heap.scalars[max1]);
    ok, r := Final(g, heap.points[max1], heap.scalars[max1]);
    if Coprime(sc, heap.size) {
      CoprimeIsOne(sc, heap.size, v);
    }
    if Coprime(sc, FirstHalf(count)) {
      CoprimeExtends(sc, FirstHalf(count), count);
      CoprimeSmall(sc, FirstHalf(count));
    }
  }
}

