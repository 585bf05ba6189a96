/** The two signed-digit recodings of a scalar, done in place on an array of signed digits
    (ed25519-donna/modm-donna-32bit.h:299-374). */
module Recode {
  import opened Bits
  import opened Modm

  /** The integer a digit string stands for in base 2^w, least significant digit first. */
  function Eval(r: seq<int>, w: nat): int {
    if |r| == 0 then 0 else r[0] + Pow2(w) * Eval(r[1..], w)
  }

  lemma {:induction false} EvalUpdate(r: seq<int>, w: nat, i: nat, v: int)
    requires i < |r|
    ensures Eval(r[i := v], w) == Eval(r, w) + Pow2(w * i) * (v - r[i])
  {
    if i == 0 {
      assert r[0 := v][1..] == r[1..];
      assert Pow2(w * 0) == 1;
    } else {
      EvalUpdate(r[1..], w, i - 1, v);
      assert r[i := v][1..] == r[1..][i - 1 := v];
      var n := w * (i - 1);
      assert w * i == w + n;
      Pow2Add(w, n);
      MulDistribute(Pow2(w), Eval(r[1..], w), Pow2(n), v - r[i]);
    }
  }

  lemma {:induction false} EvalConcat(a: seq<int>, b: seq<int>, w: nat)
    ensures Eval(a + b, w) == Eval(a, w) + Pow2(w * |a|) * Eval(b, w)
  {
    if a == [] {
      assert a + b == b;
      assert Pow2(w * 0) == 1;
    } else {
      EvalConcat(a[1..], b, w);
      assert (a + b)[1..] == a[1..] + b;
      var n := w * |a[1..]|;
      assert w * |a| == w + n;
      Pow2Add(w, n);
      MulDistribute(Pow2(w), Eval(a[1..], w), Pow2(n), Eval(b, w));
    }
  }

  lemma {:induction false} EvalZeros(r: seq<int>, w: nat)
    requires forall i :: 0 <= i < |r| ==> r[i] == 0
    ensures Eval(r, w) == 0
  {
    if r != [] {
      EvalZeros(r[1..], w);
    }
  }

  // ---- the sliding window (contract256_slidingwindow_modm)

  /** All digits from position k on are still bits of the binary expansion. */
  predicate BitsFrom(r: seq<int>, k: nat) {
    forall i :: k <= i < |r| ==> r[i] == 0 || r[i] == 1
  }

  predicate ZeroBetween(r: seq<int>, lo: nat, hi: nat) {
    forall i :: lo <= i < hi && i < |r| ==> r[i] == 0
  }

  /** The top digit is clear, or everything from k up to it is: a carry into position k or above
      always finds a clear digit. */
  predicate RoomForCarry(r: seq<int>, k: nat) {
    |r| == 256 && (r[255] == 0 || ZeroBetween(r, k, 255))
  }

  /** A digit of a width-w recoding: odd, below 2^(w-1) in magnitude and followed by w - 1 zeros. */
  predicate WindowDigit(r: seq<int>, i: nat, w: nat)
    requires i < |r| && w > 0
  {
    r[i] != 0 ==> r[i] % 2 == 1 && r[i] < Pow2(w - 1) && -r[i] < Pow2(w - 1) && ZeroBetween(r, i + 1, i + w)
  }

  predicate Windowed(r: seq<int>, k: nat, w: nat)
    requires k <= |r| && w > 0
  {
    forall i :: 0 <= i < k ==> WindowDigit(r, i, w)
  }

  /** The carry loop: adds 2^k0 to the binary tail that starts at k0. */
  method PropagateCarry(r: array<int>, k0: nat)
    requires r.Length == 256 && k0 < 256 && BitsFrom(r[..], k0) && r[255] == 0
    modifies r
    ensures BitsFrom(r[..], k0) && RoomForCarry(r[..], k0)
    ensures r[..k0] == old(r[..k0]) && (old(r[k0]) == 1 ==> r[k0] == 0)
    ensures Eval(r[..], 1) == old(Eval(r[..], 1)) + Pow2(k0)
  {
    var k := k0;
    while k < 256
      invariant k0 <= k <= 255
      invariant BitsFrom(r[..], k0) && ZeroBetween(r[..], k0, k) && r[255] == 0
      invariant r[..k0] == old(r[..k0]) && (k == k0 ==> r[k0] == old(r[k0]))
      invariant Eval(r[..], 1) == old(Eval(r[..], 1)) + Pow2(k0) - Pow2(k)
    {
      ghost var before := r[..];
      if r[k] == 0 {
        EvalUpdate(before, 1, k, 1);
        r[k] := 1;
        assert r[..] == before[k := 1];
        break;
      }
      EvalUpdate(before, 1, k, 0);
      r[k] := 0;
      assert r[..] == before[k := 0];
      k := k + 1;
    }
  }

  /** The digit under construction after b - 1 steps: odd and in range; still positive and below 2^b
      as long as no step could have made it negative. */
  predicate Growing(d: int, b: nat, w: nat)
    requires w > 0
  {
    && d % 2 == 1 && d < Pow2(w - 1) && -d < Pow2(w - 1)
    && (b < w ==> 0 < d < Pow2(b))
  }

  lemma Powers(w: nat)
    requires w == 5 || w == 7
    ensures Pow2(1) == 2 && Pow2(2) == 4 && Pow2(3) == 8 && Pow2(4) == 16 && Pow2(5) == 32 && Pow2(6) == 64
  {
  }

  /** Which of the three branches a set bit takes, and what the digit becomes. */
  lemma Branches(d: int, b: nat, w: nat)
    requires (w == 5 || w == 7) && 1 <= b <= 6 && Growing(d, b, w)
    ensures b < w - 1 ==> d + Pow2(b) <= Pow2(w - 1) - 1 && Growing(d + Pow2(b), b + 1, w)
    ensures b == w - 1 ==> d + Pow2(b) > Pow2(w - 1) - 1 && d - Pow2(b) >= 1 - Pow2(w - 1)
    ensures b == w - 1 ==> Growing(d - Pow2(b), b + 1, w)
    ensures b >= w ==> d + Pow2(b) > Pow2(w - 1) - 1 && d - Pow2(b) < 1 - Pow2(w - 1)
    ensures Growing(d, b + 1, w) || b == w - 1
    ensures b == w - 1 ==> Growing(d, b + 1, w)
    ensures d <= Pow2(w - 1) - 1
  {
    Powers(w);
  }

  /** Moving the set bit at j + b into the digit at j keeps the value. */
  lemma Absorb(r: seq<int>, j: nat, b: nat)
    requires j + b < |r| && b > 0 && r[j + b] == 1
    ensures Eval(r[j := r[j] + Pow2(b)][j + b := 0], 1) == Eval(r, 1)
    ensures Eval(r[j := r[j] - Pow2(b)], 1) == Eval(r, 1) - Pow2(j + b)
  {
    EvalUpdate(r, 1, j, r[j] + Pow2(b));
    EvalUpdate(r[j := r[j] + Pow2(b)], 1, j + b, 0);
    EvalUpdate(r, 1, j, r[j] - Pow2(b));
    Pow2Add(j, b);
    assert Pow2(j) * (0 - Pow2(b)) == -(Pow2(j) * Pow2(b));
  }

  /** What holds after b - 1 steps of the inner loop at j, started from `was`. */
  predicate Window(r: seq<int>, was: seq<int>, j: nat, b: nat, w: nat)
    requires w > 0
  {
    && |r| == |was| == 256 && j < 256
    && Growing(r[j], b, w)
    && BitsFrom(r, j + 1) && RoomForCarry(r, j + 1)
    && (b < w ==> j == 255 || r[255] == 0)
    && ZeroBetween(r, j + 1, if b < w then j + b else j + w)
    && r[..j] == was[..j] && Eval(r, 1) == Eval(was, 1)
  }

  lemma WindowKeep(r: seq<int>, was: seq<int>, j: nat, b: nat, w: nat)
    requires (w == 5 || w == 7) && 1 <= b <= 6 && Window(r, was, j, b, w) && j + b < 256
    requires r[j + b] == 0
    ensures Window(r, was, j, b + 1, w)
  {
    Branches(r[j], b, w);
  }

  lemma WindowAbsorb(r: seq<int>, was: seq<int>, j: nat, b: nat, w: nat)
    requires (w == 5 || w == 7) && 1 <= b < w - 1 && Window(r, was, j, b, w) && j + b < 256
    requires r[j + b] == 1
    ensures Window(r[j := r[j] + Pow2(b)][j + b := 0], was, j, b + 1, w)
  {
    Branches(r[j], b, w);
    Absorb(r, j, b);
    var r' := r[j := r[j] + Pow2(b)][j + b := 0];
    assert r'[..j] == r[..j];
  }

  lemma WindowCarry(r: seq<int>, r': seq<int>, was: seq<int>, j: nat, w: nat)
    requires (w == 5 || w == 7) && Window(r, was, j, w - 1, w) && j + w - 1 < 256
    requires r[j + w - 1] == 1 && |r'| == 256
    requires BitsFrom(r', j + w - 1) && RoomForCarry(r', j + w - 1) && r'[j + w - 1] == 0
    requires r'[..j + w - 1] == r[j := r[j] - Pow2(w - 1)][..j + w - 1]
    requires Eval(r', 1) == Eval(r[j := r[j] - Pow2(w - 1)], 1) + Pow2(j + w - 1)
    ensures Window(r', was, j, w, w)
  {
    var c := j + w - 1;
    Branches(r[j], w - 1, w);
    Absorb(r, j, w - 1);
    assert r'[j] == r'[..c][j] == r[j] - Pow2(w - 1);
    forall i | j < i < c ensures r'[i] == 0 {
      assert r'[i] == r'[..c][i] == r[i];
    }
    forall i | 0 <= i < j ensures r'[i] == was[i] {
      assert r'[i] == r'[..c][i] == r[i] == r[..j][i] == was[..j][i];
    }
    assert r'[..j] == was[..j];
  }

  lemma WindowOpen(r: seq<int>, j: nat, w: nat)
    requires |r| == 256 && j < 256 && (w == 5 || w == 7)
    requires BitsFrom(r, j) && r[j] == 1 && RoomForCarry(r, j)
    ensures Window(r, r, j, 1, w)
  {
    Powers(w);
  }

  lemma WindowClose(r: seq<int>, was: seq<int>, j: nat, b: nat, w: nat)
    requires (w == 5 || w == 7) && Window(r, was, j, b, w)
    requires b >= w || j + b == 256
    ensures BitsFrom(r, j + 1) && RoomForCarry(r, j + 1) && WindowDigit(r, j, w)
    ensures r[..j] == was[..j] && Eval(r, 1) == Eval(was, 1)
  {
  }

  /** The inner loop: turns the set bit at j into a window digit. */
  method WindowAt(r: array<int>, j: nat, w: nat)
    requires r.Length == 256 && j < 256 && (w == 5 || w == 7)
    requires BitsFrom(r[..], j) && r[j] == 1 && RoomForCarry(r[..], j)
    modifies r
    ensures BitsFrom(r[..], j + 1) && RoomForCarry(r[..], j + 1) && WindowDigit(r[..], j, w)
    ensures r[..j] == old(r[..j])
    ensures Eval(r[..], 1) == old(Eval(r[..], 1))
  {
    ghost var was := r[..];
    var m: int := Pow2(w - 1) - 1;
    var b := 1;
    WindowOpen(was, j, w);
    while b < 256 - j && b <= 6
      invariant 1 <= b <= 7 && b <= 256 - j
      invariant Window(r[..], was, j, b, w)
    {
      ghost var before := r[..];
      var bit := r[j + b];
      WindowStep(before, was, j, b, w, m);
      if r[j] + r[j + b] * Pow2(b) <= m {
        r[j] := r[j] + r[j + b] * Pow2(b);
        r[j + b] := 0;
        assert r[..] == before[j := before[j] + bit * Pow2(b)][j + b := 0];
      } else if r[j] - r[j + b] * Pow2(b) >= -m {
        r[j] := r[j] - r[j + b] * Pow2(b);
        assert r[..] == before[j := before[j] - Pow2(b)];
        PropagateCarry(r, j + b);
        WindowCarry(before, r[..], was, j, w);
      } else if r[j + b] != 0 {
        break;
      }
      b := b + 1;
    }
    WindowClose(r[..], was, j, b, w);
  }

  /** The branch the loop takes is settled by the bit and by b. */
  lemma WindowStep(r: seq<int>, was: seq<int>, j: nat, b: nat, w: nat, m: int)
    requires (w == 5 || w == 7) && 1 <= b <= 6 && Window(r, was, j, b, w) && j + b < 256 && m == Pow2(w - 1) - 1
    ensures r[j + b] == 0 || r[j + b] == 1
    ensures r[j] + r[j + b] * Pow2(b) <= m <==> r[j + b] == 0 || b < w - 1
    ensures r[j] + r[j + b] * Pow2(b) <= m ==>
      Window(r[j := r[j] + r[j + b] * Pow2(b)][j + b := 0], was, j, b + 1, w)
    ensures r[j + b] == 1 ==> (r[j] - r[j + b] * Pow2(b) >= -m <==> b <= w - 1)
    ensures r[j + b] == 1 && b == w - 1 ==> r[255] == 0 && BitsFrom(r[j := r[j] - Pow2(b)], j + b)
  {
    Branches(r[j], b, w);
    if r[j + b] == 0 {
      ClearBitStep(r, was, j, b, w);
    } else {
      hide Growing, Pow2;
      assert r[j + b] * Pow2(b) == Pow2(b);
      if b < w - 1 {
        WindowAbsorb(r, was, j, b, w);
      }
    }
  }

  lemma ClearBitStep(r: seq<int>, was: seq<int>, j: nat, b: nat, w: nat)
    requires (w == 5 || w == 7) && 1 <= b <= 6 && Window(r, was, j, b, w) && j + b < 256
    requires r[j + b] == 0
    ensures r[j + b] * Pow2(b) == 0
    ensures Window(r[j := r[j] + r[j + b] * Pow2(b)][j + b := 0], was, j, b + 1, w)
  {
    WindowKeep(r, was, j, b, w);
    assert r[j + b] * Pow2(b) == 0;
    assert r[j := r[j]][j + b := 0] == r;
  }

  /** Value of the limbs from i on, in units of limb i. */
  function Rest(s: seq<int>, i: nat): int
    requires |s| == 9 && i <= 9
    decreases 9 - i
  {
    if i == 9 then 0 else s[i] + 0x40000000 * Rest(s, i + 1)
  }

  lemma RestIsVal(s: seq<int>)
    requires |s| == 9
    ensures Rest(s, 0) == Val(s)
  {
    hide Val;
    assert Rest(s, 9) == 0 && Rest(s, 8) == s[8] && Rest(s, 7) == s[7] + 0x40000000 * s[8];
    assert Rest(s, 6) == s[6] + 0x40000000 * Rest(s, 7);
    assert Rest(s, 5) == s[5] + 0x40000000 * Rest(s, 6);
    assert Rest(s, 4) == s[4] + 0x40000000 * Rest(s, 5);
    assert Rest(s, 3) == s[3] + 0x40000000 * Rest(s, 4);
    assert Rest(s, 2) == s[2] + 0x40000000 * Rest(s, 3);
    assert Rest(s, 1) == s[1] + 0x40000000 * Rest(s, 2);
    assert Rest(s, 0) == s[0] + 0x40000000 * Rest(s, 1);
    ValUnfold(s);
  }

  lemma ValUnfold(s: seq<int>)
    requires |s| == 9
    ensures Val(s) == s[0] + 0x40000000 * (s[1] + 0x40000000 * (s[2] + 0x40000000 * (s[3] + 0x40000000 * (s[4]
      + 0x40000000 * (s[5] + 0x40000000 * (s[6] + 0x40000000 * (s[7] + 0x40000000 * s[8])))))))
  {
  }

  lemma RadixSplit(p: int, v: int, d: int)
    requires d > 0
    ensures p * (v % d) + (p * d) * (v / d) == p * v
  {
    var b, h := v % d, v / d;
    assert v == b + d * h;
    MulDistribute(p, b, d, h);
  }

  lemma EvalAppend(r: seq<int>, d: int)
    ensures Eval(r + [d], 1) == Eval(r, 1) + Pow2(|r|) * d
  {
    EvalConcat(r, [d], 1);
    assert Eval([d], 1) == d;
  }

  /** One bit of the expansion: `*bits++ = (v & 1)`, `v >>= 1`. */
  lemma BitStep(r: seq<int>, v: nat)
    ensures Eval(r + [v % 2], 1) + Pow2(|r| + 1) * (v / 2) == Eval(r, 1) + Pow2(|r|) * v
  {
    var b, h := v % 2, v / 2;
    EvalAppend(r, b);
    assert Pow2(|r| + 1) == Pow2(|r|) * 2;
    hide Eval, Pow2;
    RadixSplit(Pow2(|r|), v, 2);
  }

  lemma LowBit(v: nat)
    ensures And(v, 1) == v % 2
  {
    assert Pow2(1) == 2;
    AndMask(v, 1, 1);
  }

  /** The inner expansion loop: n bits of a limb, starting at position pos. */
  method UnpackLimb(r: array<int>, pos: nat, limb: int, n: nat)
    requires pos + n <= r.Length && 0 <= limb < Pow2(n)
    modifies r
    ensures r[..pos] == old(r[..pos]) && forall i :: pos <= i < pos + n ==> r[i] == 0 || r[i] == 1
    ensures Eval(r[..pos + n], 1) == Eval(old(r[..pos]), 1) + Pow2(pos) * limb
  {
    var v: nat := limb;
    for j := 0 to n
      invariant v < Pow2(n - j)
      invariant r[..pos] == old(r[..pos]) && forall i :: pos <= i < pos + j ==> r[i] == 0 || r[i] == 1
      invariant Eval(r[..pos + j], 1) + Pow2(pos + j) * v == Eval(old(r[..pos]), 1) + Pow2(pos) * limb
    {
      ghost var before := r[..pos + j];
      BitStep(before, v);
      LowBit(v);
      r[pos + j] := And(v, 1);
      assert r[..pos + j + 1] == before + [v % 2];
      v := v / 2;
    }
  }

  /** The first i limbs are expanded. */
  predicate Unpacked(r: seq<int>, s: seq<int>, i: nat)
    requires |s| == 9 && i <= 9
  {
    && |r| == 256 && 30 * i <= 256
    && (forall k :: 0 <= k < 30 * i ==> r[k] == 0 || r[k] == 1)
    && Eval(r[..30 * i], 1) + Pow2(30 * i) * Rest(s, i) == Val(s)
  }

  method UnpackNext(r: array<int>, s: seq<int>, i: nat)
    requires r.Length == 256 && Limbs(s, 0x10000) && i < 8 && Unpacked(r[..], s, i)
    modifies r
    ensures Unpacked(r[..], s, i + 1)
  {
    hide Val;
    ghost var before := r[..];
    Pow2Literals();
    var limb, n := s[i], 30;
    assert Rest(s, i) == limb + 0x40000000 * Rest(s, i + 1);
    RestStep(30 * i, n, limb, Rest(s, i + 1));
    hide Pow2, Eval, Rest;
    UnpackLimb(r, 30 * i, limb, n);
    assert r[..][..30 * i] == before[..30 * i] && r[..][..30 * i + n] == r[..30 * i + n];
    forall k | 0 <= k < 30 * i ensures r[k] == 0 || r[k] == 1 {
      assert r[k] == r[..30 * i][k] == before[k];
    }
  }

  /** The binary expansion of a scalar of 256 bits. */
  method UnpackBits(r: array<int>, s: seq<int>)
    requires r.Length == 256 && Limbs(s, 0x10000)
    modifies r
    ensures BitsFrom(r[..], 0) && Eval(r[..], 1) == Val(s)
  {
    RestIsVal(s);
    hide Val, Rest;
    Pow2Literals();
    for i := 0 to 8
      invariant Unpacked(r[..], s, i)
    {
      UnpackNext(r, s, i);
    }
    ghost var before := r[..];
    RestTop(s);
    UnpackLimb(r, 240, s[8], 16);
    assert r[..][..240] == before[..240] && r[..256] == r[..];
    forall k | 0 <= k < 240 ensures r[k] == 0 || r[k] == 1 {
      assert r[k] == r[..240][k] == before[k];
    }
  }

  lemma RestTop(s: seq<int>)
    requires |s| == 9
    ensures Rest(s, 8) == s[8]
  {
  }

  lemma RestStep(a: nat, n: nat, limb: int, rest: int)
    requires n == 30
    ensures Pow2(a) * (limb + 0x40000000 * rest) == Pow2(a) * limb + Pow2(a + n) * rest
  {
    Pow2Add(a, n);
    Pow2Literals();
    MulDistribute(Pow2(a), limb, Pow2(n), rest);
  }

  /** The top bit of the expansion is clear for a scalar below 2^255. */
  lemma TopBitClear(r: seq<int>, v: int)
    requires |r| == 256 && BitsFrom(r, 0) && Eval(r, 1) == v < Pow2(255)
    ensures r[255] == 0
  {
    EvalConcat(r[..255], r[255..], 1);
    assert r[..255] + r[255..] == r;
    EvalNonNegative(r[..255]);
    assert Eval(r[255..], 1) == r[255];
  }

  lemma {:induction false} EvalNonNegative(r: seq<int>)
    requires BitsFrom(r, 0)
    ensures Eval(r, 1) >= 0
  {
    if r != [] {
      EvalNonNegative(r[1..]);
    }
  }

  /** contract256_slidingwindow_modm, for every scalar below 2^255 (reduced scalars are below 2^253):
      the digits still sum to the scalar, every nonzero digit is odd and below 2^(w-1) in magnitude,
      and any w consecutive digits hold at most one nonzero. */
  method SlidingWindow(r: array<int>, s: seq<int>, windowsize: int)
    requires r.Length == 256 && Limbs(s, 0x10000) && Val(s) < Pow2(255)
    requires windowsize == 5 || windowsize == 7
    modifies r
    ensures Eval(r[..], 1) == Val(s)
    ensures Windowed(r[..], 256, windowsize)
  {
    hide Val;
    UnpackBits(r, s);
    TopBitClear(r[..], Val(s));
    for j := 0 to 256
      invariant BitsFrom(r[..], j) && RoomForCarry(r[..], j) && Windowed(r[..], j, windowsize)
      invariant Eval(r[..], 1) == Val(s)
    {
      if r[j] != 0 {
        ghost var before := r[..];
        WindowAt(r, j, windowsize);
        StillWindowed(before, r[..], j, windowsize);
      }
    }
  }

  /** Digits already finished survive the work at j: their zeros reach past it or end before it. */
  lemma StillWindowed(before: seq<int>, after: seq<int>, j: nat, w: nat)
    requires |before| == |after| == 256 && j < 256 && w > 0
    requires Windowed(before, j, w) && before[j] != 0 && after[..j] == before[..j] && WindowDigit(after, j, w)
    ensures Windowed(after, j + 1, w)
  {
    forall i | 0 <= i < j ensures WindowDigit(after, i, w) {
      assert WindowDigit(before, i, w);
      assert after[i] == after[..j][i] == before[i];
      if before[i] != 0 {
        assert j >= i + w;
        forall k | i + 1 <= k < i + w ensures after[k] == 0 {
          assert after[k] == after[..j][k] == before[k];
        }
      }
    }
  }

  // ---- the signed base-16 digits (contract256_window4_modm)

  lemma LowNibble(v: nat)
    ensures And(v, 15) == v % 16
  {
    assert Pow2(4) == 16;
    AndMask(v, 4, 15);
  }

  lemma NibbleAppend(r: seq<int>, d: int)
    ensures Eval(r + [d], 4) == Eval(r, 4) + Pow2(4 * |r|) * d
  {
    EvalConcat(r, [d], 4);
    assert Eval([d], 4) == d;
  }

  lemma NibblePower(a: nat)
    ensures Pow2(a + 4) == Pow2(a) * 16
  {
    assert Pow2(a + 4) == 2 * Pow2(a + 3) && Pow2(a + 3) == 2 * Pow2(a + 2) && Pow2(a + 2) == 2 * Pow2(a + 1);
  }

  lemma NibbleArithmetic(e: int, e': int, p: int, p': int, v: nat)
    requires e' == e + p * (v % 16) && p' == p * 16
    ensures e' + p' * (v / 16) == e + p * v
  {
    RadixSplit(p, v, 16);
  }

  lemma NibbleStep(r: seq<int>, v: nat)
    ensures Eval(r + [v % 16], 4) + Pow2(4 * (|r| + 1)) * (v / 16) == Eval(r, 4) + Pow2(4 * |r|) * v
  {
    hide *;
    NibbleAppend(r, v % 16);
    NibblePower(4 * |r|);
    assert 4 * (|r| + 1) == 4 * |r| + 4;
    NibbleArithmetic(Eval(r, 4), Eval(r + [v % 16], 4), Pow2(4 * |r|), Pow2(4 * (|r| + 1)), v);
  }

  lemma ShiftBound(v: nat, n: nat, j: nat, limb: int)
    requires j < n && v * Pow2(4 * j) <= limb
    ensures v / 16 * Pow2(4 * (j + 1)) <= limb
  {
    Pow2Add(4, 4 * j);
    assert Pow2(4) == 16;
    var q, p := v / 16, Pow2(4 * j);
    assert q * (16 * p) == (16 * q) * p;
    MulMono(16 * q, v, p);
  }

  /** n nibbles of v, starting at position pos; what is left of v comes back. */
  method UnpackNibbles(r: array<int>, pos: nat, limb: int, n: nat) returns (v: int)
    requires pos + n <= r.Length && 0 <= limb
    modifies r
    ensures 0 <= v && v * Pow2(4 * n) <= limb
    ensures forall i :: 0 <= i < r.Length && !(pos <= i < pos + n) ==> r[i] == old(r[i])
    ensures forall i :: pos <= i < pos + n ==> 0 <= r[i] <= 15
    ensures Eval(r[..pos + n], 4) + Pow2(4 * (pos + n)) * v == Eval(old(r[..pos]), 4) + Pow2(4 * pos) * limb
  {
    v := limb;
    assert Pow2(0) == 1;
    for j := 0 to n
      invariant 0 <= v && v * Pow2(4 * j) <= limb
      invariant forall i :: 0 <= i < r.Length && !(pos <= i < pos + j) ==> r[i] == old(r[i])
      invariant forall i :: pos <= i < pos + j ==> 0 <= r[i] <= 15
      invariant Eval(r[..pos + j], 4) + Pow2(4 * (pos + j)) * v == Eval(old(r[..pos]), 4) + Pow2(4 * pos) * limb
    {
      ghost var before := r[..pos + j];
      NibbleStep(before, v);
      LowNibble(v);
      ShiftBound(v, n, j, limb);
      r[pos + j] := And(v, 15);
      assert r[..pos + j + 1] == before + [v % 16];
      v := v / 16;
    }
  }

  /** The first 2 p limbs are expanded into 15 p nibbles. */
  predicate Nibbled(r: seq<int>, s: seq<int>, p: nat)
    requires |s| == 9 && p <= 4
  {
    && |r| == 64
    && (forall k :: 0 <= k < 15 * p ==> 0 <= r[k] <= 15)
    && Eval(r[..15 * p], 4) + Pow2(60 * p) * Rest(s, 2 * p) == Val(s)
  }

  /** `v |= (in[i+1] << 2)` after seven nibbles: two bits of one limb and thirty of the next. */
  method JoinLimbs(v: int, next: int) returns (w: int)
    requires 0 <= v < 4 && 0 <= next < 0x40000000
    ensures w == v + 4 * next
  {
    assert Pow2(2) == 4;
    OrDisjoint(next, v, 2);
    hide Or;
    w := Or(v, U32(next * 4));
  }

  lemma PairStep(a: nat, v: int, limb: int, next: int, e0: int, e1: int)
    requires e1 + Pow2(a + 28) * v == e0 + Pow2(a) * limb
    ensures e1 + Pow2(a + 28) * (v + 4 * next) == e0 + Pow2(a) * (limb + 0x40000000 * next)
  {
    PairPowers(a);
    hide Pow2;
    var p := Pow2(a);
    assert p * (limb + 0x40000000 * next) == p * limb + 0x40000000 * (p * next);
    assert 0x10000000 * p * (v + 4 * next) == 0x10000000 * p * v + 0x40000000 * (p * next);
  }

  lemma PairWeight(a: nat, pair: int, rest: int)
    ensures Pow2(a) * (pair + 0x1000000000000000 * rest) == Pow2(a) * pair + Pow2(a + 60) * rest
  {
    PairPowers(a);
    hide Pow2;
    MulDistribute(Pow2(a), pair, 0x1000000000000000, rest);
  }

  lemma PairPowers(a: nat)
    ensures Pow2(a + 28) == 0x10000000 * Pow2(a)
    ensures Pow2(a + 60) == 0x1000000000000000 * Pow2(a)
  {
    var k, l := 28, 60;
    Pow2Literals();
    assert Pow2(28) == 0x10000000;
    Pow2Add(28, 32);
    Pow2Add(a, k);
    Pow2Add(a, l);
  }

  /** Fifteen nibbles from two limbs. */
  method NibbleRow(r: array<int>, pos: nat, limb: int, next: int)
    requires pos + 15 <= r.Length && 0 <= limb < 0x40000000 && 0 <= next < 0x40000000
    modifies r
    ensures forall i :: 0 <= i < r.Length && !(pos <= i < pos + 15) ==> r[i] == old(r[i])
    ensures forall i :: pos <= i < pos + 15 ==> 0 <= r[i] <= 15
    ensures Eval(r[..pos + 15], 4) == Eval(old(r[..pos]), 4) + Pow2(4 * pos) * (limb + 0x40000000 * next)
  {
    ghost var e0 := Eval(r[..pos], 4);
    Pow2Literals();
    assert Pow2(28) == 0x10000000;
    hide Eval, Pow2;
    var v := UnpackNibbles(r, pos, limb, 7);
    PairStep(4 * pos, v, limb, next, e0, Eval(r[..pos + 7], 4));
    v := JoinLimbs(v, next);
    ghost var left := v;
    v := UnpackNibbles(r, pos + 7, v, 8);
    NothingLeft(v, left);
  }

  method NibblePair(r: array<int>, s: seq<int>, p: nat)
    requires r.Length == 64 && Limbs(s, 0x10000) && p < 4 && Nibbled(r[..], s, p)
    modifies r
    ensures Nibbled(r[..], s, p + 1)
  {
    hide Val;
    ghost var before := r[..];
    var limb, next := s[2 * p], s[2 * p + 1];
    assert Rest(s, 2 * p) == limb + 0x40000000 * Rest(s, 2 * p + 1);
    assert Rest(s, 2 * p + 1) == next + 0x40000000 * Rest(s, 2 * p + 2);
    hide Rest, Eval, Pow2;
    PairWeight(60 * p, limb + 0x40000000 * next, Rest(s, 2 * p + 2));
    assert before[..15 * p] == r[..15 * p];
    NibbleRow(r, 15 * p, limb, next);
    assert r[..][..15 * p + 15] == r[..15 * p + 15];
  }

  lemma NothingLeft(v: int, w: int)
    requires 0 <= v && v * Pow2(4 * 8) <= w < 0x1_0000_0000
    ensures v == 0
  {
    Pow2Literals();
    hide Pow2;
    assert v * 0x1_0000_0000 <= w;
  }

  /** The sixty-four nibbles of a 256-bit scalar. */
  method UnpackQuads(r: array<int>, s: seq<int>)
    requires r.Length == 64 && Limbs(s, 0x10000)
    modifies r
    ensures forall i :: 0 <= i < 64 ==> 0 <= r[i] <= 15
    ensures Eval(r[..], 4) == Val(s)
  {
    NibbledStart(r[..], s);
    hide Nibbled, Eval, Val;
    var i := 0;
    while i < 8
      invariant 0 <= i <= 8 && i % 2 == 0 && Nibbled(r[..], s, i / 2)
    {
      NibblePair(r, s, i / 2);
      i := i + 2;
    }
    UnpackTop(r, s);
  }

  lemma NibbledStart(r: seq<int>, s: seq<int>)
    requires |r| == 64 && |s| == 9
    ensures Nibbled(r, s, 0)
  {
    RestIsVal(s);
    assert r[..0] == [] && Pow2(0) == 1;
  }

  /** The last four nibbles, from limb 8. */
  method UnpackTop(r: array<int>, s: seq<int>)
    requires r.Length == 64 && Limbs(s, 0x10000) && Nibbled(r[..], s, 4)
    modifies r
    ensures forall i :: 0 <= i < 64 ==> 0 <= r[i] <= 15
    ensures Eval(r[..], 4) == Val(s)
  {
    RestTop(s);
    Pow2Literals();
    assert r[..][..60] == r[..60];
    hide Pow2, Eval, Rest, Val;
    var v := UnpackNibbles(r, 60, s[8], 4);
    assert r[..64] == r[..];
    LastNibbles(v, s[8]);
  }

  lemma LastNibbles(v: int, w: int)
    requires 0 <= v && v * Pow2(4 * 4) <= w < 0x10000
    ensures v == 0
  {
    Pow2Literals();
    hide Pow2;
    assert v * 0x10000 <= w;
  }

  /** One step of the signing loop: nibble x = r[i] + carry in [0, 16] becomes a digit in [-8, 7]
      with one carry, direct or through r[i + 1]. */
  method SignedNibble(x: int) returns (q: int, d: int, carry: int)
    requires 0 <= x <= 16
    ensures x == d + 16 * (q + carry) && -8 <= d <= 7
    ensures 0 <= q && 0 <= carry && q + carry <= 1
  {
    LowNibble(x);
    q := x / 16;
    var y := And(x, 15);
    carry := y / 8;
    d := y - carry * 16;
  }

  /** `r[i + 1] += r[i] >> 4; r[i] &= 15; carry = r[i] >> 3; r[i] -= carry << 4`, after r[i] += carry. */
  method SignedDigit(r: array<int>, i: int, carry: int) returns (c: int)
    requires r.Length == 64 && 0 <= i < 63 && 0 <= carry <= 1 && 0 <= r[i] + carry <= 16
    modifies r
    ensures 0 <= c <= 1 && -8 <= r[i] <= 7
    ensures r[i + 1] >= old(r[i + 1]) && r[i + 1] + c <= old(r[i + 1]) + 1
    ensures forall k :: 0 <= k < 64 && k != i && k != i + 1 ==> r[k] == old(r[k])
    ensures Eval(r[..], 4) + Pow2(4 * (i + 1)) * c == Eval(old(r[..]), 4) + Pow2(4 * i) * carry
  {
    hide Eval, Pow2;
    ghost var before := r[..];
    var q, d;
    q, d, c := SignedNibble(r[i] + carry);
    r[i + 1] := r[i + 1] + q;
    r[i] := d;
    assert r[..] == before[i := d][i + 1 := before[i + 1] + q];
    CarryStep(before, i, d, q, carry, c);
  }

  /** contract256_window4_modm, for every scalar below 2^255: the digits still sum to the scalar and
      all lie in [-8, 8], the last one alone reaching 8. */
  method Window4(r: array<int>, s: seq<int>)
    requires r.Length == 64 && Limbs(s, 0x10000) && Val(s) < Pow2(255)
    modifies r
    ensures Eval(r[..], 4) == Val(s)
    ensures forall i :: 0 <= i < 63 ==> -8 <= r[i] <= 7
    ensures 0 <= r[63] <= 8
  {
    hide Val, Eval, Pow2;
    UnpackQuads(r, s);
    TopNibble(r[..], Val(s));
    var carry := 0;
    for i := 0 to 63
      invariant 0 <= carry <= 1 && 0 <= r[i] && r[i] + carry <= 16
      invariant forall k :: 0 <= k < i ==> -8 <= r[k] <= 7
      invariant forall k :: i < k < 64 ==> 0 <= r[k] <= 15
      invariant if i < 63 then r[63] <= 7 else r[63] + carry <= 8
      invariant Eval(r[..], 4) + Pow2(4 * i) * carry == Val(s)
    {
      carry := SignedDigit(r, i, carry);
    }
    LastDigit(r[..], carry);
    r[63] := r[63] + carry;
  }

  lemma LastDigit(r: seq<int>, carry: int)
    requires |r| == 64
    ensures Eval(r[63 := r[63] + carry], 4) == Eval(r, 4) + Pow2(4 * 63) * carry
  {
    var i := 63;
    EvalUpdate(r, 4, i, r[i] + carry);
  }

  lemma CarryStep(r: seq<int>, i: nat, d: int, q: int, carry: int, c: int)
    requires i + 1 < |r| && r[i] + carry == d + 16 * (q + c)
    ensures Eval(r[i := d][i + 1 := r[i + 1] + q], 4) + Pow2(4 * (i + 1)) * c == Eval(r, 4) + Pow2(4 * i) * carry
  {
    EvalUpdate(r, 4, i, d);
    EvalUpdate(r[i := d], 4, i + 1, r[i + 1] + q);
    NibblePower(4 * i);
    var p := Pow2(4 * i);
    assert 4 * (i + 1) == 4 * i + 4;
    hide Eval, Pow2;
    assert p * (d - r[i]) == p * (carry - 16 * (q + c));
    assert p * (carry - 16 * (q + c)) == p * carry - (p * 16) * q - (p * 16) * c;
  }

  lemma {:induction false} NibblesNonNegative(r: seq<int>)
    requires forall i :: 0 <= i < |r| ==> 0 <= r[i]
    ensures Eval(r, 4) >= 0
  {
    if r != [] {
      NibblesNonNegative(r[1..]);
    }
  }

  lemma TopPower(a: nat, b: nat)
    requires b == a + 3
    ensures Pow2(b) == 8 * Pow2(a)
  {
    assert Pow2(b) == 2 * Pow2(b - 1) && Pow2(b - 1) == 2 * Pow2(b - 2);
  }

  lemma TopDigit(low: int, p: int, d: int, v: int)
    requires 0 <= low && v == low + p * d && v < 8 * p && p > 0
    ensures d <= 7
  {
    if d >= 8 {
      MulMono(8, d, p);
    }
  }

  /** The top nibble of a scalar below 2^255 is at most 7. */
  lemma TopNibble(r: seq<int>, v: int)
    requires |r| == 64 && (forall i :: 0 <= i < 64 ==> 0 <= r[i] <= 15) && Eval(r, 4) == v < Pow2(255)
    ensures r[63] <= 7
  {
    hide *;
    NibblesNonNegative(r[..63]);
    NibbleAppend(r[..63], r[63]);
    assert r[..63] + [r[63]] == r;
    TopPower(252, 255);
    TopDigit(Eval(r[..63], 4), Pow2(252), r[63], v);
  }
}
