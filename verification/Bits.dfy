/** Machine words as natural numbers, and the C operators on them.

    A word is an integer; where the C code relies on (or could suffer) wrap-around the model
    says so with `U32` or `U64`.  The bitwise operators are defined bit by bit, so that an `&`
    with a mask, an `|` of two pieces or an XOR select in a model is the operator of the source,
    and the lemmas below say what arithmetic it amounts to. */
module Bits {

  function U8(x: int): (r: nat)
    ensures r < 0x100
  {
    x % 0x100
  }

  function U32(x: int): (r: nat)
    ensures r < 0x1_0000_0000
  {
    x % 0x1_0000_0000
  }

  function U64(x: int): (r: nat)
    ensures r < 0x1_0000_0000_0000_0000
  {
    x % 0x1_0000_0000_0000_0000
  }

  function Pow2(n: nat): (p: nat)
    ensures p > 0
  {
    if n == 0 then 1 else 2 * Pow2(n - 1)
  }

  /** x to the n */
  function Power(x: int, n: nat): int {
    if n == 0 then 1 else x * Power(x, n - 1)
  }

  lemma {:induction false} PowerAdd(x: int, m: nat, n: nat)
    ensures Power(x, m + n) == Power(x, m) * Power(x, n)
  {
    if m > 0 {
      PowerAdd(x, m - 1, n);
      var a, b := Power(x, m - 1), Power(x, n);
      assert x * (a * b) == (x * a) * b;
    }
  }

  lemma {:induction false} PowerMul(x: int, m: nat, n: nat)
    ensures m * n >= 0 && Power(x, m * n) == Power(Power(x, m), n)
  {
    if n > 0 {
      PowerMul(x, m, n - 1);
      assert m * n == m + m * (n - 1);
      PowerAdd(x, m, m * (n - 1));
    }
  }

  function And(a: nat, b: nat): (r: nat)
  {
    if a == 0 || b == 0 then 0
    else 2 * And(a / 2, b / 2) + (if a % 2 == 1 && b % 2 == 1 then 1 else 0)
  }

  function Or(a: nat, b: nat): (r: nat)
  {
    if a == 0 then b
    else if b == 0 then a
    else 2 * Or(a / 2, b / 2) + (if a % 2 == 1 || b % 2 == 1 then 1 else 0)
  }

  function Xor(a: nat, b: nat): (r: nat)
  {
    if a == 0 then b
    else if b == 0 then a
    else 2 * Xor(a / 2, b / 2) + (if a % 2 != b % 2 then 1 else 0)
  }

  /** Binary digit k. */
  function Bit(a: nat, k: nat): (b: nat)
    ensures b <= 1
  {
    a / Pow2(k) % 2
  }

  lemma BitHalf(a: nat, k: nat)
    ensures k > 0 ==> Bit(a, k) == Bit(a / 2, k - 1)
    ensures Bit(a, 0) == a % 2
  {
    if k > 0 {
      var p := Pow2(k - 1);
      assert Pow2(k) == 2 * p;
      hide Pow2;
      var q, r := a / 2 / p, a / 2 % p;
      assert a / 2 == q * p + r;
      TwiceQuotient(a, p, q, r);
    }
  }

  lemma TwiceQuotient(a: nat, p: nat, q: int, r: int)
    requires p > 0 && a / 2 == q * p + r && 0 <= r < p
    ensures a / (2 * p) == q
  {
    assert a == q * (2 * p) + (2 * r + a % 2) by {
      assert q * (2 * p) == 2 * (q * p);
    }
    DivModUnique(a, 2 * p, q, 2 * r + a % 2);
  }

  /** And, Or and Xor digit by digit. */
  lemma {:induction false} BitwiseIs(a: nat, b: nat, k: nat)
    ensures Bit(And(a, b), k) == if Bit(a, k) == 1 && Bit(b, k) == 1 then 1 else 0
    ensures Bit(Or(a, b), k) == if Bit(a, k) == 1 || Bit(b, k) == 1 then 1 else 0
    ensures Bit(Xor(a, b), k) == if Bit(a, k) != Bit(b, k) then 1 else 0
    decreases k
  {
    BitHalf(a, k);
    BitHalf(b, k);
    BitHalf(And(a, b), k);
    BitHalf(Or(a, b), k);
    BitHalf(Xor(a, b), k);
    LowDigits(a, b);
    hide *;
    if k > 0 {
      BitwiseIs(a / 2, b / 2, k - 1);
    }
  }

  lemma LowDigits(a: nat, b: nat)
    ensures And(a, b) / 2 == And(a / 2, b / 2) && And(a, b) % 2 == if a % 2 == 1 && b % 2 == 1 then 1 else 0
    ensures Or(a, b) / 2 == Or(a / 2, b / 2) && Or(a, b) % 2 == if a % 2 == 1 || b % 2 == 1 then 1 else 0
    ensures Xor(a, b) / 2 == Xor(a / 2, b / 2) && Xor(a, b) % 2 == if a % 2 != b % 2 then 1 else 0
  {
    if a == 0 || b == 0 {
      NothingElse(a);
      NothingElse(b);
      NothingElse(a / 2);
      NothingElse(b / 2);
      hide *;
    }
  }

  lemma NothingElse(x: nat)
    ensures And(x, 0) == 0 == And(0, x) && Or(x, 0) == x == Or(0, x) && Xor(x, 0) == x == Xor(0, x)
  {
  }

  lemma Pow2Add(a: nat, b: nat)
    ensures Pow2(a + b) == Pow2(a) * Pow2(b)
  {
    if a == 0 {
    } else {
      Pow2Add(a - 1, b);
    }
  }

  /** The values the limb code uses. */
  lemma Pow2Literals()
    ensures Pow2(8) == 0x100 && Pow2(16) == 0x1_0000 && Pow2(22) == 0x40_0000 && Pow2(24) == 0x100_0000
    ensures Pow2(25) == 0x200_0000 && Pow2(26) == 0x400_0000 && Pow2(30) == 0x4000_0000
    ensures Pow2(32) == 0x1_0000_0000
  {
    assert Pow2(8) == 0x100;
    assert Pow2(16) == 0x1_0000;
    assert Pow2(22) == 0x40_0000;
    assert Pow2(26) == 0x400_0000;
    assert Pow2(30) == 0x4000_0000;
  }

  lemma MulMono(a: int, b: int, d: int)
    requires a <= b && 0 <= d
    ensures a * d <= b * d
  {
  }

  lemma MulDistribute(p: int, a: int, q: int, e: int)
    ensures p * (a + q * e) == p * a + (p * q) * e
  {
    assert p * (q * e) == (p * q) * e;
  }

  /** The quotient and remainder of a Euclidean division are the only ones. */
  lemma DivModUnique(x: int, d: int, q: int, r: int)
    requires d > 0 && 0 <= r < d && x == q * d + r
    ensures x / d == q && x % d == r
  {
    var q', r' := x / d, x % d;
    assert x == q' * d + r';
    if q > q' {
      MulMono(q' + 1, q, d);
    } else if q < q' {
      MulMono(q + 1, q', d);
    }
  }

  /** Dropping the low bit commutes with reducing modulo a power of two. */
  lemma HalfMod(x: nat, p: nat)
    requires p > 0
    ensures x % (2 * p) == 2 * ((x / 2) % p) + x % 2
    ensures x / (2 * p) == (x / 2) / p
  {
    var q, r := (x / 2) / p, (x / 2) % p;
    assert x / 2 == q * p + r;
    assert q * (2 * p) == 2 * (q * p);
    DivModUnique(x, 2 * p, q, 2 * r + x % 2);
  }

  /** Keeping the low k bits with an all-ones mask is reduction modulo 2^k. */
  lemma {:induction false} AndMask(x: nat, k: nat, mask: nat)
    requires mask + 1 == Pow2(k)
    ensures And(x, mask) == x % (mask + 1)
    decreases k
  {
    if k == 0 || x == 0 {
    } else {
      var half: nat := mask / 2;
      assert Pow2(k) == 2 * Pow2(k - 1);
      assert half + 1 == Pow2(k - 1) && mask % 2 == 1;
      AndMask(x / 2, k - 1, half);
      HalfMod(x, half + 1);
      assert And(x, mask) == 2 * And(x / 2, half) + x % 2;
    }
  }

  lemma DoubleShift(hi: nat, k: nat)
    requires k > 0
    ensures hi * Pow2(k) == 2 * (hi * Pow2(k - 1))
  {
    var p: nat := Pow2(k - 1);
    assert hi * (2 * p) == 2 * (hi * p);
  }

  /** `|` of two numbers that share no bit is addition. */
  lemma {:induction false} OrDisjoint(hi: nat, lo: nat, k: nat)
    requires lo < Pow2(k)
    ensures Or(hi * Pow2(k), lo) == hi * Pow2(k) + lo
    ensures Or(lo, hi * Pow2(k)) == hi * Pow2(k) + lo
    decreases k
  {
    if k == 0 || lo == 0 || hi * Pow2(k) == 0 {
    } else {
      DoubleShift(hi, k);
      OrDisjoint(hi, lo / 2, k - 1);
      var y: nat := hi * Pow2(k - 1);
      var x: nat := hi * Pow2(k);
      assert x / 2 == y && x % 2 == 0;
    }
  }

  lemma AndEven(x: nat, half: nat)
    ensures And(x, 2 * half) == 2 * And(x / 2, half)
  {
  }

  /** A mask shifted up by k bits looks at the bits from k on. */
  lemma {:induction false} AndShifted(x: nat, mask: nat, k: nat, shifted: nat, q: nat)
    requires shifted == mask * Pow2(k) && q == x / Pow2(k)
    ensures And(x, shifted) == And(q, mask) * Pow2(k)
    decreases k
  {
    if k == 0 {
      assert Pow2(0) == 1;
    } else {
      var half := shifted / 2;
      DoubleShift(mask, k);
      HalfMod(x, Pow2(k - 1));
      AndShifted(x / 2, mask, k - 1, half, q);
      AndEven(x, half);
      DoubleShift(And(q, mask), k);
    }
  }

  /** A word with bits above k or-ed in: the low k bits stay. */
  lemma {:induction false} OrShifted(hi: nat, y: nat, lo: nat, k: nat)
    requires lo < Pow2(k)
    ensures Or(hi * Pow2(k) + lo, y * Pow2(k)) == Or(hi, y) * Pow2(k) + lo
    decreases k
  {
    if k == 0 {
      assert Pow2(0) == 1;
    } else {
      DoubleShift(Or(hi, y), k);
      OrShifted(hi, y, lo / 2, k - 1);
      HalfOf(hi, lo, k);
      HalfOf(y, 0, k);
      OrStep(hi * Pow2(k) + lo, y * Pow2(k));
    }
  }

  lemma HalfOf(a: nat, x: nat, k: nat)
    requires k > 0
    ensures (a * Pow2(k) + x) / 2 == a * Pow2(k - 1) + x / 2 && (a * Pow2(k) + x) % 2 == x % 2
    ensures a * Pow2(k) >= 0
  {
    DoubleShift(a, k);
  }

  lemma OrStep(u: nat, v: nat)
    ensures Or(u, v) == 2 * Or(u / 2, v / 2) + (if u % 2 == 1 || v % 2 == 1 then 1 else 0)
  {
    if u == 0 || v == 0 {
      assert Or(u / 2, 0) == u / 2 && Or(0, v / 2) == v / 2;
    }
  }

  lemma {:induction false} XorZero(a: nat)
    ensures Xor(a, 0) == a && Xor(0, a) == a && Xor(a, a) == 0
  {
    if a != 0 {
      XorZero(a / 2);
    }
  }

  lemma {:induction false} XorCancel(a: nat, b: nat)
    ensures Xor(a, Xor(a, b)) == b
  {
    if a == 0 || b == 0 {
      XorZero(a);
    } else {
      XorCancel(a / 2, b / 2);
      XorZero(a);
      assert Xor(a, b) / 2 == Xor(a / 2, b / 2);
      if Xor(a, b) == 0 {
        assert Xor(a / 2, b / 2) == 0;
        XorZero(a / 2);
      }
    }
  }

  lemma {:induction false} XorBelow(a: nat, b: nat, k: nat)
    requires a < Pow2(k) && b < Pow2(k)
    ensures Xor(a, b) < Pow2(k)
  {
    if a != 0 && b != 0 {
      XorBelow(a / 2, b / 2, k - 1);
    }
  }

  lemma {:induction false} XorCommutes(a: nat, b: nat)
    ensures Xor(a, b) == Xor(b, a)
  {
    if a != 0 && b != 0 {
      XorCommutes(a / 2, b / 2);
    }
  }

  lemma {:induction false} AndCommutes(a: nat, b: nat)
    ensures And(a, b) == And(b, a)
  {
    if a != 0 && b != 0 {
      AndCommutes(a / 2, b / 2);
    }
  }

  /** The constant-time select `r ^ (mask & (r ^ t))` picks t under an all-ones mask and r under 0. */
  lemma Select(mask: nat, r: nat, t: nat)
    requires mask == 0 || mask == 0xffff_ffff
    requires r < 0x1_0000_0000 && t < 0x1_0000_0000
    ensures Xor(r, And(mask, Xor(r, t))) == if mask == 0 then r else t
  {
    XorZero(r);
    if mask != 0 {
      AndAllOnes(Xor(r, t), mask, r, t);
      XorCancel(r, t);
    }
  }

  lemma AndAllOnes(x: nat, mask: nat, r: nat, t: nat)
    requires mask == 0xffff_ffff && r < 0x1_0000_0000 && t < 0x1_0000_0000 && x == Xor(r, t)
    ensures And(mask, x) == x
  {
    Pow2Literals();
    var k := 32;
    XorBelow(r, t, k);
    AndCommutes(mask, x);
    AndMask(x, k, mask);
  }

  // ---- byte strings

  predicate Bytes(s: seq<int>) {
    forall i :: 0 <= i < |s| ==> 0 <= s[i] < 0x100
  }

  /** The pieces of a stream, put together. */
  function Flatten(chunks: seq<seq<int>>): seq<int> {
    if |chunks| == 0 then [] else Flatten(chunks[..|chunks| - 1]) + chunks[|chunks| - 1]
  }

  lemma FlattenSteps(chunks: seq<seq<int>>, i: nat)
    requires i < |chunks|
    ensures Flatten(chunks[..i + 1]) == Flatten(chunks[..i]) + chunks[i]
  {
    assert chunks[..i + 1][..i] == chunks[..i];
  }

  lemma FlattenEnds(chunks: seq<seq<int>>)
    ensures Flatten(chunks[..0]) == [] && Flatten(chunks[..|chunks|]) == Flatten(chunks)
  {
    assert chunks[..|chunks|] == chunks;
  }

  /** The little-endian value of a byte string. */
  function LE(s: seq<int>): int {
    if |s| == 0 then 0 else s[0] + 0x100 * LE(s[1..])
  }

  /** U8TO32_LE: four bytes assembled with shifts and `|`. */
  function Load32(s: seq<int>, i: nat): (r: int)
    requires Bytes(s) && i + 4 <= |s|
    ensures r == s[i] + 0x100 * s[i + 1] + 0x10000 * s[i + 2] + 0x1000000 * s[i + 3]
    ensures 0 <= r < 0x1_0000_0000
  {
    Pow2Literals();
    OrDisjoint(s[i + 1], s[i], 8);
    OrDisjoint(s[i + 2], s[i] + 0x100 * s[i + 1], 16);
    OrDisjoint(s[i + 3], s[i] + 0x100 * s[i + 1] + 0x10000 * s[i + 2], 24);
    Or(Or(Or(s[i], s[i + 1] * 0x100), s[i + 2] * 0x10000), s[i + 3] * 0x1000000)
  }

  /** U32TO8_LE: the four bytes of a word. */
  function Store32(v: nat): (s: seq<int>)
    requires v < 0x1_0000_0000
    ensures |s| == 4 && Bytes(s) && LE(s) == v
  {
    var s := [v % 0x100, v / 0x100 % 0x100, v / 0x10000 % 0x100, v / 0x1000000 % 0x100];
    StoredWord(v, s);
    s
  }

  lemma StoredWord(v: nat, s: seq<int>)
    requires v < 0x1_0000_0000
    requires s == [v % 0x100, v / 0x100 % 0x100, v / 0x10000 % 0x100, v / 0x1000000 % 0x100]
    ensures LE(s) == v
  {
    var a, b, c := v / 0x100, v / 0x10000, v / 0x1000000;
    DivModUnique(v, 0x10000, a / 0x100, a % 0x100 * 0x100 + v % 0x100);
    DivModUnique(v, 0x1000000, b / 0x100, b % 0x100 * 0x10000 + v % 0x10000);
    assert v % 0x100 + 0x100 * (a % 0x100) + 0x10000 * (b % 0x100) + 0x1000000 * (c % 0x100) == v;
    hide Load32;
    LE4(s, 0);
    assert s[0..] == s && s[4..] == [];
  }

  lemma LE1(s: seq<int>, i: nat)
    requires i < |s|
    ensures LE(s[i..]) == s[i] + 0x100 * LE(s[i + 1..])
  {
    assert s[i..][1..] == s[i + 1..];
  }

  lemma LE4(s: seq<int>, i: nat)
    requires Bytes(s) && i + 4 <= |s|
    ensures LE(s[i..]) == Load32(s, i) + 0x1_0000_0000 * LE(s[i + 4..])
  {
    LE1(s, i);
    LE1(s, i + 1);
    LE1(s, i + 2);
    LE1(s, i + 3);
  }

  lemma {:induction false} LEConcat(a: seq<int>, b: seq<int>)
    ensures LE(a + b) == LE(a) + Pow2(8 * |a|) * LE(b)
  {
    if a == [] {
      assert a + b == b;
    } else {
      LEConcat(a[1..], b);
      assert (a + b)[1..] == a[1..] + b;
      var n := 8 * |a[1..]|;
      Pow2Add(8, n);
      Pow2Literals();
      var p, l := Pow2(n), LE(b);
      assert 0x100 * (p * l) == (0x100 * p) * l;
    }
  }

  lemma {:induction false} LEZeros(z: seq<int>)
    requires forall i :: 0 <= i < |z| ==> z[i] == 0
    ensures LE(z) == 0
  {
    if z != [] {
      LEZeros(z[1..]);
    }
  }

  lemma LEPadded(a: seq<int>, z: seq<int>)
    requires forall i :: 0 <= i < |z| ==> z[i] == 0
    ensures LE(a + z) == LE(a)
  {
    LEConcat(a, z);
    LEZeros(z);
  }

  lemma {:induction false} LEBound(s: seq<int>)
    requires Bytes(s)
    ensures 0 <= LE(s) < Pow2(8 * |s|)
  {
    if s != [] {
      LEBound(s[1..]);
      Pow2Add(8, 8 * |s[1..]|);
      Pow2Literals();
    }
  }
}
