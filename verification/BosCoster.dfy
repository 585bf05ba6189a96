/** Bos-Coster multi-scalar multiplication on an index heap (ed25519-donna/ed25519-donna-batchverify.h:1-188). */
module BosCoster {
  import opened Bits
  import opened Modm
  import opened Groups
  import opened BatchScalars
  import opened HeapOrder

  /** max_batch_size * 2 + 1 */
  const HEAP_BATCH_SIZE: nat := 129

  ghost predicate Indexed(sc: seq<seq<int>>, h: seq<int>, n: int) {
    && 0 <= n <= |h|
    && forall i :: 0 <= i < n ==> 0 <= h[i] < |sc| && Norm(sc[h[i]])
  }

  /** The scalars in heap order, as integers. */
  ghost function Keys(sc: seq<seq<int>>, h: seq<int>, n: int): (k: seq<int>)
    requires Indexed(sc, h, n)
    ensures |k| == n && forall i :: 0 <= i < n ==> k[i] == Val(sc[h[i]])
  {
    seq(n, i requires 0 <= i < n => Val(sc[h[i]]))
  }

  lemma KeysSwap(sc: seq<seq<int>>, h: seq<int>, n: int, a: int, b: int)
    requires Indexed(sc, h, n) && 0 <= a < n && 0 <= b < n
    ensures Indexed(sc, Swap(h, a, b), n)
    ensures Keys(sc, Swap(h, a, b), n) == Swap(Keys(sc, h, n), a, b)
  {
    hide Val;
    var h' := Swap(h, a, b);
    forall i | 0 <= i < n ensures 0 <= h'[i] < |sc| && Norm(sc[h'[i]]) {
    }
    assert Keys(sc, h', n) == Swap(Keys(sc, h, n), a, b);
  }

  // ---- what the loop conserves

  ghost predicate Loaded(sc: seq<seq<int>>, n: int) {
    0 <= n <= |sc| && forall i :: 0 <= i < n ==> Norm(sc[i])
  }

  /** The group sum of the first n scalar multiples. */
  ghost function Total<G>(g: Group<G>, sc: seq<seq<int>>, pts: seq<G>, n: int): G
    requires Loaded(sc, n) && n <= |pts|
    decreases n
  {
    if n == 0 then g.zero else g.add(Total(g, sc, pts, n - 1), Times(g, Val(sc[n - 1]), pts[n - 1]))
  }

  /** The sum of the first n scalars: what the loop decreases. */
  ghost function SumVals(sc: seq<seq<int>>, n: int): (r: int)
    requires Loaded(sc, n)
    ensures r >= 0
    decreases n
  {
    if n == 0 then 0
    else
      ValNonNegative(sc[n - 1]);
      SumVals(sc, n - 1) + Val(sc[n - 1])
  }

  /** d is a common divisor of the first n scalars. */
  ghost predicate DividesAll(d: int, sc: seq<seq<int>>, n: int)
    requires Loaded(sc, n) && d > 0
  {
    forall i :: 0 <= i < n ==> Val(sc[i]) % d == 0
  }

  /** Equal common divisors, hence equal greatest common divisors. */
  ghost predicate SameDivisors(sc: seq<seq<int>>, sc': seq<seq<int>>, n: int)
    requires Loaded(sc, n) && Loaded(sc', n)
  {
    forall d :: d > 0 ==> (DividesAll(d, sc, n) <==> DividesAll(d, sc', n))
  }

  lemma {:induction false} SumUpdate(sc: seq<seq<int>>, n: int, i: int, v: seq<int>)
    requires Loaded(sc, n) && 0 <= i < n && Norm(v)
    ensures Loaded(sc[i := v], n)
    ensures SumVals(sc[i := v], n) == SumVals(sc, n) + Val(v) - Val(sc[i])
    decreases n
  {
    hide Val;
    if i == n - 1 {
      SumFrame(sc, sc[i := v], n - 1);
    } else {
      SumUpdate(sc, n - 1, i, v);
    }
  }

  lemma {:induction false} SumFrame(sc: seq<seq<int>>, sc': seq<seq<int>>, n: int)
    requires Loaded(sc, n) && Loaded(sc', n) && forall i :: 0 <= i < n ==> sc[i] == sc'[i]
    ensures SumVals(sc, n) == SumVals(sc', n)
    decreases n
  {
    if n > 0 {
      SumFrame(sc, sc', n - 1);
    }
  }

  lemma {:induction false} TotalFrame<G(!new)>(g: Group<G>, sc: seq<seq<int>>, sc': seq<seq<int>>, pts: seq<G>, pts': seq<G>, n: int)
    requires Loaded(sc, n) && Loaded(sc', n) && n <= |pts| && n <= |pts'|
    requires forall i :: 0 <= i < n ==> sc[i] == sc'[i] && pts[i] == pts'[i]
    ensures Total(g, sc, pts, n) == Total(g, sc', pts', n)
    decreases n
  {
    if n > 0 {
      TotalFrame(g, sc, sc', pts, pts', n - 1);
    }
  }

  lemma SwapLast<G(!new)>(g: Group<G>, t: G, a: G, b: G)
    requires Abelian(g)
    ensures g.add(g.add(t, a), b) == g.add(g.add(t, b), a)
  {
    assert Assoc(g, t, a, b) && Assoc(g, t, b, a) && Comm(g, a, b);
  }

  /** Replacing one term t_i by u: total' + t_i = total + u. */
  lemma {:induction false} TotalUpdate<G(!new)>(g: Group<G>, sc: seq<seq<int>>, pts: seq<G>, n: int, i: int, v: seq<int>, q: G)
    requires Abelian(g) && Loaded(sc, n) && n <= |pts| && 0 <= i < n && Norm(v)
    ensures Loaded(sc[i := v], n)
    ensures g.add(Total(g, sc[i := v], pts[i := q], n), Times(g, Val(sc[i]), pts[i]))
         == g.add(Total(g, sc, pts, n), Times(g, Val(v), q))
    decreases n
  {
    hide Val, Times;
    var sc', pts' := sc[i := v], pts[i := q];
    var t, u := Times(g, Val(sc[i]), pts[i]), Times(g, Val(v), q);
    if i == n - 1 {
      TotalFrame(g, sc, sc', pts, pts', n - 1);
      SwapLast(g, Total(g, sc, pts, n - 1), t, u);
    } else {
      TotalUpdate(g, sc, pts, n - 1, i, v, q);
      var last := Times(g, Val(sc[n - 1]), pts[n - 1]);
      SwapLast(g, Total(g, sc', pts', n - 1), last, t);
      SwapLast(g, Total(g, sc, pts, n - 1), u, last);
    }
  }

  lemma CancelRight<G(!new)>(g: Group<G>, a: G, b: G, c: G)
    requires Abelian(g) && g.add(a, c) == g.add(b, c)
    ensures a == b
  {
    assert Comm(g, a, c) && Comm(g, b, c);
    CancelLeft(g, c, a);
    CancelLeft(g, c, b);
  }

  /** One step of the loop conserves the group sum: (s1 - s2) P1 + s2 (P2 + P1) = s1 P1 + s2 P2. */
  lemma StepTotal<G(!new)>(g: Group<G>, sc: seq<seq<int>>, pts: seq<G>, n: int, m1: int, m2: int, diff: seq<int>)
    requires Abelian(g) && Loaded(sc, n) && n <= |pts| && 0 <= m1 < n && 0 <= m2 < n && m1 != m2
    requires Norm(diff) && Val(diff) == Val(sc[m1]) - Val(sc[m2])
    ensures Loaded(sc[m1 := diff], n)
    ensures Total(g, sc[m1 := diff], pts[m2 := g.add(pts[m2], pts[m1])], n) == Total(g, sc, pts, n)
  {
    hide Val, Total;
    var s1, s2, p1, p2 := Val(sc[m1]), Val(sc[m2]), pts[m1], pts[m2];
    var sc' := sc[m1 := diff];
    TotalUpdate(g, sc, pts, n, m1, diff, p1);
    assert pts[m1 := p1] == pts;
    TotalUpdate(g, sc', pts, n, m2, sc'[m2], g.add(p2, p1));
    assert sc'[m2 := sc'[m2]] == sc';
    var a, b, c := Total(g, sc, pts, n), Total(g, sc', pts, n), Total(g, sc', pts[m2 := g.add(p2, p1)], n);
    TimesAdd(g, s1 - s2, s2, p1);
    TimesDistributes(g, s2, p2, p1);
    Balance(g, a, b, c, Times(g, s1 - s2, p1), Times(g, s2, p1), Times(g, s2, p2));
  }

  lemma Balance<G(!new)>(g: Group<G>, a: G, b: G, c: G, d1: G, e1: G, e2: G)
    requires Abelian(g)
    requires g.add(b, g.add(d1, e1)) == g.add(a, d1)
    requires g.add(c, e2) == g.add(b, g.add(e2, e1))
    ensures c == a
  {
    assert Comm(g, d1, e1) && Assoc(g, b, e1, d1);
    CancelRight(g, g.add(b, e1), a, d1);
    assert Comm(g, e2, e1) && Assoc(g, b, e1, e2);
    CancelRight(g, c, a, e2);
  }

  /** ... and the common divisors. */
  lemma StepDivisors(sc: seq<seq<int>>, n: int, m1: int, m2: int, diff: seq<int>)
    requires Loaded(sc, n) && 0 <= m1 < n && 0 <= m2 < n && m1 != m2
    requires Norm(diff) && Val(diff) == Val(sc[m1]) - Val(sc[m2])
    ensures Loaded(sc[m1 := diff], n) && SameDivisors(sc[m1 := diff], sc, n)
  {
    hide Val;
    var sc' := sc[m1 := diff];
    forall d | d > 0 ensures DividesAll(d, sc', n) <==> DividesAll(d, sc, n) {
      if DividesAll(d, sc', n) {
        assert Val(sc'[m2]) % d == 0 && Val(sc'[m1]) % d == 0;
        SumDivides(d, Val(diff), Val(sc[m2]));
        forall i | 0 <= i < n ensures Val(sc[i]) % d == 0 {
          assert i != m1 ==> sc'[i] == sc[i];
        }
      }
      if DividesAll(d, sc, n) {
        assert Val(sc[m2]) % d == 0 && Val(sc[m1]) % d == 0;
        SumDivides(d, Val(sc[m1]), -Val(sc[m2]));
        NegDivides(d, Val(sc[m2]));
      }
    }
  }

  lemma SumDivides(d: int, a: int, b: int)
    requires d > 0
    ensures a % d == 0 && b % d == 0 ==> (a + b) % d == 0
  {
    if a % d == 0 && b % d == 0 {
      var p, q := a / d, b / d;
      assert a == d * p && b == d * q;
      assert a + b == (p + q) * d + 0;
      DivModUnique(a + b, d, p + q, 0);
    }
  }

  lemma NegDivides(d: int, a: int)
    requires d > 0 && a % d == 0
    ensures (-a) % d == 0
  {
    var p := a / d;
    assert a == d * p;
    assert -a == (-p) * d + 0;
    DivModUnique(-a, d, -p, 0);
  }

  /** When all scalars but one are zero, that one carries the whole sum and all the divisors. */
  lemma {:induction false} TotalSingle<G(!new)>(g: Group<G>, sc: seq<seq<int>>, pts: seq<G>, n: int, m: int)
    requires Abelian(g) && Loaded(sc, n) && n <= |pts| && 0 <= m
    requires forall i :: 0 <= i < n && i != m ==> Val(sc[i]) == 0
    ensures Total(g, sc, pts, n) == if m < n then Times(g, Val(sc[m]), pts[m]) else g.zero
    decreases n
  {
    hide Val;
    if n > 0 {
      TotalSingle(g, sc, pts, n - 1, m);
      var t := Times(g, Val(sc[n - 1]), pts[n - 1]);
      if m == n - 1 {
        assert Unit(g, t);
      } else {
        assert t == g.zero;
        var u := Total(g, sc, pts, n - 1);
        assert Comm(g, u, g.zero) && Unit(g, u);
      }
    }
  }

  lemma DivisorsSingle(sc: seq<seq<int>>, n: int, m: int)
    requires Loaded(sc, n) && 0 <= m < n
    requires forall i :: 0 <= i < n && i != m ==> Val(sc[i]) == 0
    ensures forall d :: d > 0 ==> (DividesAll(d, sc, n) <==> Val(sc[m]) % d == 0)
  {
    hide Val;
    forall d | d > 0 ensures DividesAll(d, sc, n) <==> Val(sc[m]) % d == 0 {
      forall i | 0 <= i < n && i != m ensures Val(sc[i]) % d == 0 {
        DivModUnique(0, d, 0, 0);
      }
    }
  }

  /** `((count + 1) / 2) | 1` */
  function FirstHalf(count: int): int
    requires count >= 0
  {
    Or((count + 1) / 2, 1)
  }

  lemma OrOne(x: nat)
    ensures Or(x, 1) == x - x % 2 + 1
  {
    if x != 0 {
      assert Or(x / 2, 0) == x / 2;
    }
  }

  /** The least odd number that is at least half of count. */
  lemma FirstHalfOdd(count: int)
    requires count >= 5
    ensures 3 <= FirstHalf(count) <= count && FirstHalf(count) % 2 == 1
    ensures 2 * FirstHalf(count) >= count > 2 * (FirstHalf(count) - 2)
  {
    OrOne((count + 1) / 2);
  }

  /** The entries past the first half are 128-bit scalars. */
  ghost predicate Tail128(sc: seq<seq<int>>, count: int)
    requires Loaded(sc, count) && count >= 0
  {
    forall i :: FirstHalf(count) <= i < count ==> Val(sc[i]) < 0x1_0000_0000_0000_0000_0000_0000_0000_0000
  }

  ghost predicate TwoNonzero(sc: seq<seq<int>>, n: int)
    requires Loaded(sc, n)
  {
    exists i, j :: 0 <= i < n && 0 <= j < n && i != j && Val(sc[i]) != 0 && Val(sc[j]) != 0
  }

  /** The greatest common divisor of the first n scalars has at most 128 bits. */
  ghost predicate SmallDivisors(sc: seq<seq<int>>, n: int)
    requires Loaded(sc, n)
  {
    forall d :: d > 0 && DividesAll(d, sc, n) ==> d < 0x1_0000_0000_0000_0000_0000_0000_0000_0000
  }

  lemma DivisorsOf(sc: seq<seq<int>>, sc0: seq<seq<int>>, n: int, m: int)
    requires Loaded(sc, n) && Loaded(sc0, n) && SameDivisors(sc, sc0, n) && 0 <= m < n && Val(sc[m]) != 0
    ensures Val(sc[m]) < 0x1_0000_0000_0000_0000_0000_0000_0000_0000 ==> SmallDivisors(sc0, n)
  {
    hide Val;
    ValNonNegative(sc[m]);
    forall d | d > 0 && DividesAll(d, sc0, n) ensures d <= Val(sc[m]) {
      assert DividesAll(d, sc, n);
      if d > Val(sc[m]) {
        DivModUnique(Val(sc[m]), d, 0, Val(sc[m]));
      }
    }
  }

  /** The scalar left over is a common divisor itself. */
  lemma LargeDivisor(sc: seq<seq<int>>, n: int, v: int)
    requires Loaded(sc, n) && v >= 0x1_0000_0000_0000_0000_0000_0000_0000_0000
    requires forall d :: d > 0 ==> (DividesAll(d, sc, n) <==> v % d == 0)
    ensures !SmallDivisors(sc, n)
  {
    hide Val;
    DivModUnique(v, v, 1, 0);
    assert DividesAll(v, sc, n);
  }

  lemma OnlyOne(sc: seq<seq<int>>, n: int, m: int)
    requires Loaded(sc, n) && forall x :: 0 <= x < n && x != m ==> Val(sc[x]) == 0
    ensures !TwoNonzero(sc, n)
  {
    hide Val;
  }

  lemma TwoSeen(sc: seq<seq<int>>, n: int, i: int, j: int)
    requires Loaded(sc, n) && 0 <= i < n && 0 <= j < n && i != j && Val(sc[j]) != 0 && Val(sc[j]) <= Val(sc[i])
    ensures TwoNonzero(sc, n)
  {
    hide Val;
    ValNonNegative(sc[j]);
  }

  lemma Fits128(s: seq<int>, limbsize: int)
    requires Norm(s) && 4 <= limbsize <= 8 && Val(s) < 0x1_0000_0000_0000_0000_0000_0000_0000_0000
    ensures Fits(s, limbsize)
  {
    FitsIff(s, limbsize);
    LimbWeights();
    PowMono(150, 30 * (limbsize + 1));
  }

  /** A value from 2^127 on has a nonzero limb 4 or above. */
  lemma LimbFour(s: seq<int>)
    requires Norm(s)
    ensures Val(s) >= 0x8000_0000_0000_0000_0000_0000_0000_0000 && Fits(s, 4) ==> s[4] != 0
  {
  }

  /** With the top compared limb zero the scalar fits one limb less; it is not limb 0 unless the
      scalar is zero. */
  lemma TopLimbZero(s: seq<int>, limbsize: int)
    requires Norm(s) && 0 <= limbsize <= 8 && Fits(s, limbsize) && s[limbsize] == 0 && Val(s) != 0
    ensures limbsize > 0 && Fits(s, limbsize - 1)
  {
    if limbsize == 0 {
      ZeroLimbs(s);
    }
  }

  lemma TotalExtend<G(!new)>(g: Group<G>, sc: seq<seq<int>>, sc': seq<seq<int>>, pts: seq<G>, pts': seq<G>, m: int, n: int)
    requires Loaded(sc, n) && Loaded(sc', n) && 0 <= m <= n <= |pts| && n <= |pts'|
    requires forall i :: m <= i < n ==> sc[i] == sc'[i] && pts[i] == pts'[i]
    requires Total(g, sc, pts, m) == Total(g, sc', pts', m)
    ensures Total(g, sc, pts, n) == Total(g, sc', pts', n)
    decreases n - m
  {
    if m < n {
      TotalExtend(g, sc, sc', pts, pts', m + 1, n);
    }
  }

  lemma DivisorsExtend(sc: seq<seq<int>>, sc': seq<seq<int>>, m: int, n: int)
    requires Loaded(sc, n) && Loaded(sc', n) && 0 <= m <= n
    requires Loaded(sc, m) && Loaded(sc', m) && SameDivisors(sc, sc', m)
    requires forall i :: m <= i < n ==> sc[i] == sc'[i]
    ensures SameDivisors(sc, sc', n)
  {
    hide Val;
    forall d | d > 0 ensures DividesAll(d, sc, n) <==> DividesAll(d, sc', n) {
      assert DividesAll(d, sc, m) <==> DividesAll(d, sc', m);
      if DividesAll(d, sc, n) {
        assert DividesAll(d, sc, m);
      }
      if DividesAll(d, sc', n) {
        assert DividesAll(d, sc', m);
      }
    }
  }

  /** Changing the scalar at the root changes the first key only. */
  lemma RootChanged(sc: seq<seq<int>>, v: seq<int>, h: seq<int>, where: seq<int>, n: int)
    requires Indexed(sc, h, n) && Permutation(h, where, n) && n > 0 && Norm(v)
    ensures Indexed(sc[h[0] := v], h, n)
    ensures Keys(sc[h[0] := v], h, n) == Keys(sc, h, n)[0 := Val(v)]
  {
    hide Val;
    var sc' := sc[h[0] := v];
    forall i | 0 < i < n ensures h[i] != h[0] {
      assert where[h[i]] == i;
    }
    forall i | 0 <= i < n ensures 0 <= h[i] < |sc'| && Norm(sc'[h[i]]) {
    }
    assert Keys(sc', h, n) == Keys(sc, h, n)[0 := Val(v)];
  }

  ghost predicate Reach128(sc: seq<seq<int>>, x: int, y: int)
    requires 0 <= x < |sc| && 0 <= y < |sc|
  {
    |sc[x]| == |sc[y]| == 9 && Val(sc[x]) + Val(sc[y]) >= 0x1_0000_0000_0000_0000_0000_0000_0000_0000
  }

  class BatchHeap<G(!new)> {
    var scalars: seq<seq<int>>
    var points: seq<G>
    var heap: seq<int>
    var size: int
    ghost var where: seq<int>  // the inverse of `heap` on 0..size

    constructor (scalars: seq<seq<int>>, points: seq<G>)
      requires |scalars| == |points| == HEAP_BATCH_SIZE
      ensures this.scalars == scalars && this.points == points && size == 0
      ensures Shape()
    {
      this.scalars, this.points := scalars, points;
      heap, where := seq(HEAP_BATCH_SIZE, _ => 0), seq(HEAP_BATCH_SIZE, _ => 0);
      size := 0;
    }

    ghost predicate Shape()
      reads this
    {
      && |scalars| == |points| == |heap| == |where| == HEAP_BATCH_SIZE
      && Permutation(heap, where, size)
      && Indexed(scalars, heap, size)
    }

    /** A heap in order. */
    ghost predicate Valid()
      reads this
    {
      Shape() && Ordered(Keys(scalars, heap, size))
    }

    /** All scalars in the heap fit into the compared width. */
    ghost predicate Narrow(limbsize: int)
      reads this
    {
      0 <= limbsize <= 8 && |scalars| == HEAP_BATCH_SIZE && size <= HEAP_BATCH_SIZE
      && forall x :: 0 <= x < size ==> |scalars[x]| == 9 && Fits(scalars[x], limbsize)
    }

    /** heap_swap. */
    method HeapSwap(a: int, b: int)
      requires Shape() && 0 <= a < size && 0 <= b < size
      modifies this
      ensures Shape() && scalars == old(scalars) && points == old(points) && size == old(size)
      ensures Keys(scalars, heap, size) == Swap(old(Keys(scalars, heap, size)), a, b)
    {
      SwapPermutation(heap, where, size, a, b);
      KeysSwap(scalars, heap, size, a, b);
      where := where[heap[a] := b][heap[b] := a];
      heap := Swap(heap, a, b);
    }

    /** The comparison of two heap entries at the current width is the comparison of their keys. */
    lemma Compare(a: int, b: int, limbsize: int)
      requires Shape() && Narrow(limbsize) && 0 <= a < size && 0 <= b < size
      ensures LtBatch(scalars[heap[a]], scalars[heap[b]], limbsize)
          <==> Keys(scalars, heap, size)[a] < Keys(scalars, heap, size)[b]
      ensures LteBatch(scalars[heap[a]], scalars[heap[b]], limbsize)
          <==> Keys(scalars, heap, size)[a] <= Keys(scalars, heap, size)[b]
    {
      CompareNarrow(scalars[heap[a]], scalars[heap[b]], limbsize);
    }

    /** The first loop of heap_updated_root: the root sinks to a leaf along the larger children. */
    method SinkRoot(limbsize: int) returns (node: int)
      requires Shape() && Narrow(limbsize) && size % 2 == 1 && size >= 3
      requires OrderedBelow(Keys(scalars, heap, size), 0)
      modifies this
      ensures Shape() && scalars == old(scalars) && points == old(points) && size == old(size)
      ensures 0 < node < size && OrderedAbove(Keys(scalars, heap, size), node)
    {
      hide LtBatch, LteBatch, Val, Fits;
      var parent, childl, childr := 0, 1, 2;
      node := 1;
      while childr < size
        invariant 0 <= parent < size && childl == parent * 2 + 1 && childr == childl + 1
        invariant Shape() && scalars == old(scalars) && points == old(points) && size == old(size)
        invariant Narrow(limbsize)
        invariant OrderedBelow(Keys(scalars, heap, size), parent)
        invariant parent > 0 ==> node == parent
        decreases size - parent
      {
        Compare(childl, childr, limbsize);
        node := if LtBatch(scalars[heap[childl]], scalars[heap[childr]], limbsize) then childr else childl;
        DownStep(Keys(scalars, heap, size), parent, node);
        HeapSwap(parent, node);
        parent := node;
        childl := parent * 2 + 1;
        childr := childl + 1;
      }
      DownEnd(Keys(scalars, heap, size), parent);
    }

    /** heap_updated_root: restores the order of any heap of odd size whose root was changed. */
    method UpdatedRoot(limbsize: int)
      requires Shape() && Narrow(limbsize) && size % 2 == 1 && size >= 3
      requires OrderedBelow(Keys(scalars, heap, size), 0)
      modifies this
      ensures Valid() && scalars == old(scalars) && points == old(points) && size == old(size)
    {
      hide LtBatch, LteBatch, Val, Fits;
      var node := SinkRoot(limbsize);
      var parent := (node - 1) / 2;
      while node > 0 && LteBatch(scalars[heap[parent]], scalars[heap[node]], limbsize)
        invariant 0 <= node < size && (node > 0 ==> parent == Parent(node))
        invariant Shape() && scalars == old(scalars) && points == old(points) && size == old(size)
        invariant Narrow(limbsize)
        invariant OrderedAbove(Keys(scalars, heap, size), node)
        decreases node
      {
        Compare(parent, node, limbsize);
        UpStep(Keys(scalars, heap, size), node);
        HeapSwap(parent, node);
        node := parent;
        parent := (node - 1) / 2;
      }
      if node > 0 {
        Compare(parent, node, limbsize);
      }
      UpEnd(Keys(scalars, heap, size), node);
    }

    /** heap_insert_next: the scalar at index `size` joins the heap. */
    method InsertNext()
      requires Valid() && size < HEAP_BATCH_SIZE && Norm(scalars[size])
      modifies this
      ensures Valid() && scalars == old(scalars) && points == old(points) && size == old(size) + 1
    {
      hide LtBatch, LteBatch, Val;
      ghost var keys := Keys(scalars, heap, size);
      var node := size;
      heap := heap[node := node];
      where := where[node := node];
      size := size + 1;
      AllFit();
      Appended(keys, Val(scalars[node]));
      assert Keys(scalars, heap, size) == keys + [Val(scalars[node])];
      var parent := (node - 1) / 2;
      while node > 0 && LtBatch(scalars[heap[parent]], scalars[heap[node]], 8)
        invariant 0 <= node < size && (node > 0 ==> parent == Parent(node))
        invariant Shape() && scalars == old(scalars) && points == old(points) && size == old(size) + 1
        invariant Narrow(8)
        invariant OrderedAbove(Keys(scalars, heap, size), node)
        decreases node
      {
        Compare(parent, node, 8);
        UpStep(Keys(scalars, heap, size), node);
        HeapSwap(parent, node);
        node := parent;
        parent := (node - 1) / 2;
      }
      if node > 0 {
        Compare(parent, node, 8);
      }
      UpEnd(Keys(scalars, heap, size), node);
    }

    /** At full width every scalar fits. */
    lemma AllFit()
      requires Shape()
      ensures Narrow(8)
    {
      forall x | 0 <= x < size ensures |scalars[x]| == 9 && Fits(scalars[x], 8) {
        assert heap[where[x]] == x;
      }
    }

    /** heap_extend; heap_build is the same loop from an empty heap. */
    method Extend(newCount: int)
      requires Valid() && size <= newCount <= HEAP_BATCH_SIZE
      requires forall i :: size <= i < newCount ==> Norm(scalars[i])
      modifies this
      ensures Valid() && scalars == old(scalars) && points == old(points) && size == newCount
    {
      while size < newCount
        invariant Valid() && scalars == old(scalars) && points == old(points) && old(size) <= size <= newCount
      {
        InsertNext();
      }
    }

    /** heap_build. */
    method Build(count: int)
      requires Shape() && 3 <= count <= HEAP_BATCH_SIZE
      requires forall i :: 0 <= i < count ==> Norm(scalars[i])
      modifies this
      ensures Valid() && scalars == old(scalars) && points == old(points) && size == count
    {
      heap := heap[0 := 0];
      size := 0;
      Extend(count);
    }

    /** heap_get_top2: indices of a largest scalar and of a largest one among the others. */
    method GetTop2(limbsize: int) returns (max1: int, max2: int)
      requires Valid() && Narrow(limbsize) && size >= 3
      ensures 0 <= max1 < size && 0 <= max2 < size && max1 != max2 && max1 == heap[0]
      ensures forall x :: 0 <= x < size ==> Norm(scalars[x]) && Val(scalars[x]) <= Val(scalars[max1])
      ensures forall x :: 0 <= x < size && x != max1 ==> Val(scalars[x]) <= Val(scalars[max2])
    {
      hide LtBatch, Val;
      var h0, h1, h2 := heap[0], heap[1], heap[2];
      Compare(1, 2, limbsize);
      if LtBatch(scalars[h1], scalars[h2], limbsize) {
        h1 := h2;
      }
      max1, max2 := h0, h1;
      assert where[heap[0]] == 0 && where[heap[1]] == 1 && where[heap[2]] == 2;
      forall x | 0 <= x < size
        ensures Norm(scalars[x]) && Val(scalars[x]) <= Val(scalars[max1])
        ensures x != max1 ==> Val(scalars[x]) <= Val(scalars[max2])
      {
        assert heap[where[x]] == x;
        Maxima(Keys(scalars, heap, size), where[x]);
      }
    }

    // ---- the main loop

    /** What the loop conserves from scalars sc0 and points pts0 on: the group sum and the common
        divisors of the heap, and everything outside it. */
    ghost predicate Conserving(g: Group<G>, count: int, limbsize: int, extended: bool, sc0: seq<seq<int>>, pts0: seq<G>)
      reads this
    {
      && Valid() && Narrow(limbsize)
      && 5 <= count <= HEAP_BATCH_SIZE && count % 2 == 1
      && size == (if extended then count else FirstHalf(count)) && 3 <= size <= count
      && |sc0| == |pts0| == HEAP_BATCH_SIZE
      && Loaded(scalars, count) && Loaded(sc0, count) && Loaded(scalars, size) && Loaded(sc0, size)
      && (forall i :: size <= i < count ==> scalars[i] == sc0[i] && points[i] == pts0[i])
      && Total(g, scalars, points, size) == Total(g, sc0, pts0, size)
      && SameDivisors(scalars, sc0, size)
      && (!extended ==> Tail128(sc0, count))
    }

    /** What every pass of the loop keeps. */
    ghost predicate Running(g: Group<G>, count: int, limbsize: int, extended: bool, sc0: seq<seq<int>>, pts0: seq<G>)
      reads this
    {
      && Conserving(g, count, limbsize, extended, sc0, pts0)
      && (!extended ==> WideEnough(limbsize) && (scalars == sc0 || TopSum()))
      && 0 <= FirstHalf(count) <= size && Loaded(sc0, FirstHalf(count))
      && (extended || scalars != sc0 ==> TwoNonzero(sc0, FirstHalf(count)))
      && (extended ==> SmallDivisors(sc0, FirstHalf(count)))
    }

    /** Two scalars of the heap reach 2^128 together. */
    ghost predicate TopSum()
      requires Valid()
      reads this
    {
      exists x, y :: 0 <= x < size && 0 <= y < size && x != y && Reach128(scalars, x, y)
    }

    /** ... so if all but one are zero, that one does. */
    lemma OneReaches(max1: int)
      requires Valid() && TopSum() && 0 <= max1 < size && Loaded(scalars, size)
      requires forall x :: 0 <= x < size && x != max1 ==> Val(scalars[x]) == 0
      ensures Val(scalars[max1]) >= 0x1_0000_0000_0000_0000_0000_0000_0000_0000
    {
      hide Val;
      var x, y :| 0 <= x < size && 0 <= y < size && x != y && Reach128(scalars, x, y);
      ValNonNegative(scalars[x]);
      ValNonNegative(scalars[y]);
    }

    /** Before the extension the width cannot drop below the limb of bit 127 ... */
    ghost predicate WideEnough(limbsize: int)
      requires Valid() && size >= 3
      reads this
    {
      limbsize >= 5 || (limbsize == 4 && AboveHalf())
    }

    /** ... because the maximum stays at or above 2^127. */
    ghost predicate AboveHalf()
      requires Valid() && size >= 3
      reads this
    {
      Val(scalars[heap[0]]) >= 0x8000_0000_0000_0000_0000_0000_0000_0000
    }

    /** `if (!heap->scalars[max1][limbsize]) limbsize -= 1`: the width still covers every scalar. */
    method NarrowWidth(limbsize: int, max1: int, max2: int) returns (limbsize': int)
      requires Valid() && Narrow(limbsize) && 0 <= max1 < size && 0 <= max2 < size
      requires forall x :: 0 <= x < size ==> Norm(scalars[x]) && Val(scalars[x]) <= Val(scalars[max1])
      requires Val(scalars[max2]) != 0
      ensures Narrow(limbsize') && limbsize - 1 <= limbsize' <= limbsize
      ensures limbsize == 4 && Val(scalars[max1]) >= 0x8000_0000_0000_0000_0000_0000_0000_0000 ==> limbsize' == 4
    {
      hide Val, Fits;
      limbsize' := limbsize;
      FitsIff(scalars[max1], limbsize);
      ValNonNegative(scalars[max2]);
      LimbFour(scalars[max1]);
      if scalars[max1][limbsize] == 0 {
        TopLimbZero(scalars[max1], limbsize);
        forall x | 0 <= x < size ensures |scalars[x]| == 9 && Fits(scalars[x], limbsize - 1) {
          FitsIff(scalars[x], limbsize - 1);
          FitsIff(scalars[max1], limbsize - 1);
        }
        limbsize' := limbsize - 1;
      }
    }

    /** `heap_extend(heap, count)`: the 128-bit scalars join, and they fit the current width. */
    method ExtendTo(g: Group<G>, count: int, limbsize: int, ghost sc0: seq<seq<int>>, ghost pts0: seq<G>)
      requires Conserving(g, count, limbsize, false, sc0, pts0) && limbsize >= 4
      modifies this
      ensures Conserving(g, count, limbsize, true, sc0, pts0)
      ensures scalars == old(scalars) && points == old(points) && size == count
    {
      hide Val, Limbs, Fits;
      FirstHalfOdd(count);
      ghost var before := size;
      Extend(count);
      StillNarrow(before, count, limbsize, sc0);
      TotalExtend(g, scalars, sc0, points, pts0, before, count);
      DivisorsExtend(scalars, sc0, before, count);
    }

    /** `if (!extended && isatmost128bits256_modm_batch(...))` */
    method ExtendWhenSmall(g: Group<G>, count: int, limbsize: int, extended: bool, max1: int, max2: int,
          ghost sc0: seq<seq<int>>, ghost pts0: seq<G>)
      returns (max1': int, max2': int, extended': bool)
      requires Conserving(g, count, limbsize, extended, sc0, pts0) && (!extended ==> limbsize >= 4)
      requires 0 <= FirstHalf(count) <= size && Loaded(sc0, FirstHalf(count))
      requires 0 <= max1 < size && 0 <= max2 < size && max1 != max2 && max1 == heap[0]
      requires Val(scalars[max2]) <= Val(scalars[max1]) && Val(scalars[max2]) != 0
      modifies this
      ensures Conserving(g, count, limbsize, extended', sc0, pts0)
      ensures scalars == old(scalars) && points == old(points)
      ensures 0 <= max1' < size && 0 <= max2' < size && max1' != max2' && max1' == heap[0]
      ensures Val(scalars[max2']) <= Val(scalars[max1']) && Val(scalars[max2']) != 0
      ensures extended ==> extended'
      ensures extended == extended' ==> size == old(size)
      ensures extended' && !extended ==> SmallDivisors(sc0, FirstHalf(count))
      ensures !extended' ==> Val(scalars[max1']) >= 0x1_0000_0000_0000_0000_0000_0000_0000_0000
    {
      hide Val, Fits, Total, SameDivisors, Tail128, FirstHalf;
      max1', max2', extended' := max1, max2, extended;
      AtMost128Iff(scalars[max1]);
      if !extended && AtMost128(scalars[max1]) {
        ValNonNegative(scalars[max2]);
        DivisorsOf(scalars, sc0, size, max1);
        ExtendTo(g, count, limbsize, sc0, pts0);
        max1', max2' := GetTop2(limbsize);
        extended' := true;
        ValNonNegative(scalars[max2]);
        assert Val(scalars[if max1' == max1 then max2 else max1]) <= Val(scalars[max2']);
      }
    }

    lemma StillNarrow(before: int, count: int, limbsize: int, sc0: seq<seq<int>>)
      requires Shape() && 4 <= limbsize <= 8 && size == count && 5 <= count
      requires 0 <= before <= count && before == FirstHalf(count)
      requires forall x :: 0 <= x < before ==> |scalars[x]| == 9 && Fits(scalars[x], limbsize)
      requires Loaded(scalars, count) && Loaded(sc0, count) && Tail128(sc0, count)
      requires forall i :: before <= i < count ==> scalars[i] == sc0[i]
      ensures Narrow(limbsize)
    {
      hide Val, Fits;
      forall x | 0 <= x < size ensures |scalars[x]| == 9 && Fits(scalars[x], limbsize) {
        if before <= x {
          Fits128(scalars[x], limbsize);
        }
      }
    }

    /** The heap after the root's scalar was replaced: back in order at the same width. */
    method ReplaceRoot(diff: seq<int>, limbsize: int)
      requires Valid() && Narrow(limbsize) && size % 2 == 1 && size >= 3
      requires Norm(diff) && Fits(diff, limbsize)
      modifies this
      ensures Valid() && Narrow(limbsize) && points == old(points) && size == old(size)
      ensures 0 <= old(heap[0]) < |old(scalars)| && scalars == old(scalars)[old(heap[0]) := diff]
    {
      hide Val, Fits;
      ghost var sc, keys := scalars, Keys(scalars, heap, size);
      RootChanged(sc, diff, heap, where, size);
      RootReplaced(keys, Val(diff));
      scalars := scalars[heap[0] := diff];
      UpdatedRoot(limbsize);
    }

    /** One subtraction and one point addition, and the heap back in order. */
    method SubtractStep(g: Group<G>, count: int, limbsize: int, extended: bool, max1: int, max2: int, ghost sc0: seq<seq<int>>, ghost pts0: seq<G>)
      requires Abelian(g) && Conserving(g, count, limbsize, extended, sc0, pts0)
      requires 0 <= max1 < size && 0 <= max2 < size && max1 != max2 && max1 == heap[0]
      requires Val(scalars[max2]) <= Val(scalars[max1]) && Val(scalars[max2]) != 0
      requires !extended ==> limbsize >= 4
      requires !extended ==> Val(scalars[max1]) >= 0x1_0000_0000_0000_0000_0000_0000_0000_0000
      requires 0 <= FirstHalf(count) <= size && Loaded(sc0, FirstHalf(count)) && TwoNonzero(sc0, FirstHalf(count))
      requires extended ==> SmallDivisors(sc0, FirstHalf(count))
      modifies this
      ensures Running(g, count, limbsize, extended, sc0, pts0)
      ensures SumVals(scalars, size) < SumVals(old(scalars), size)
    {
      hide Val, Fits, Norm, TwoNonzero, SmallDivisors;
      FirstHalfOdd(count);
      ghost var sc, pts := scalars, points;
      ValNonNegative(scalars[max2]);
      var diff := SubBatch(scalars[max1], scalars[max2], limbsize);
      StepTotal(g, sc, pts, size, max1, max2, diff);
      StepDivisors(sc, size, max1, max2, diff);
      SumUpdate(sc, size, max1, diff);
      ReplaceRoot(diff, limbsize);
      points := points[max2 := g.add(points[max2], points[max1])];
      if !extended {
        assert Reach128(scalars, max1, max2);
        RootStaysHigh(max1, max2);
      }
    }

    /** After the step the maximum is at least half of what it was. */
    lemma RootStaysHigh(max1: int, max2: int)
      requires Valid() && size >= 3 && 0 <= max1 < size && 0 <= max2 < size
      requires Norm(scalars[max1]) && Norm(scalars[max2])
      requires Val(scalars[max1]) + Val(scalars[max2]) >= 0x1_0000_0000_0000_0000_0000_0000_0000_0000
      ensures AboveHalf()
    {
      hide Val, Limbs;
      assert heap[where[max1]] == max1 && heap[where[max2]] == max2;
      Maxima(Keys(scalars, heap, size), where[max1]);
      Maxima(Keys(scalars, heap, size), where[max2]);
    }

    /** The loop of ge25519_multi_scalarmult_vartime.  At exit one scalar is left, the greatest common
        divisor of those in the heap, and its multiple of its point is the heap's whole sum.  The heap
        holds all `count` entries, that is, it was extended, exactly when two scalars of the first half
        are nonzero and their greatest common divisor has at most 128 bits. */
    method Reduce(g: Group<G>, count: int) returns (max1: int, extended: bool)
      requires Abelian(g) && Shape()
      requires 5 <= count <= HEAP_BATCH_SIZE && count % 2 == 1
      requires Loaded(scalars, count) && Tail128(scalars, count)
      modifies this
      ensures |scalars| == |points| == HEAP_BATCH_SIZE
      ensures size == if extended then count else FirstHalf(count)
      ensures 3 <= size <= count && Loaded(scalars, size) && Loaded(old(scalars), count)
      ensures 0 <= max1 < size && forall x :: 0 <= x < size && x != max1 ==> Val(scalars[x]) == 0
      ensures Times(g, Val(scalars[max1]), points[max1]) == Total(g, old(scalars), old(points), size)
      ensures forall d :: d > 0 ==> (DividesAll(d, old(scalars), size) <==> Val(scalars[max1]) % d == 0)
      ensures 3 <= FirstHalf(count) <= count && Loaded(old(scalars), FirstHalf(count))
      ensures extended <==> TwoNonzero(old(scalars), FirstHalf(count)) && SmallDivisors(old(scalars), FirstHalf(count))
    {
      hide Val, Limbs, Fits, Total, SumVals, FirstHalf, TwoNonzero, SmallDivisors, TopSum;
      ghost var sc0, pts0 := scalars, points;
      FirstHalfOdd(count);
      var limbsize := 8;
      extended := false;
      Build(FirstHalf(count));
      AllFit();
      var max2;
      while true
        invariant Running(g, count, limbsize, extended, sc0, pts0)
        decreases if extended then 0 else 1, SumVals(scalars, size)
      {
        max1, max2 := GetTop2(limbsize);
        var zero := IsZeroBatch(scalars[max2]);
        if zero {
          break;
        }
        if !extended && scalars == sc0 {
          TwoSeen(sc0, FirstHalf(count), max1, max2);
        }
        limbsize := NarrowWidth(limbsize, max1, max2);
        max1, max2, extended := ExtendWhenSmall(g, count, limbsize, extended, max1, max2, sc0, pts0);
        SubtractStep(g, count, limbsize, extended, max1, max2, sc0, pts0);
      }
      forall x | 0 <= x < size && x != max1 ensures Val(scalars[x]) == 0 {
        ValNonNegative(scalars[x]);
      }
      TotalSingle(g, scalars, points, size, max1);
      DivisorsSingle(scalars, size, max1);
      if !extended {
        if scalars == sc0 {
          OnlyOne(sc0, size, max1);
        } else {
          OneReaches(max1);
          LargeDivisor(sc0, size, Val(scalars[max1]));
        }
      }
    }
  }
}
