/** Max-heap order on a sequence of keys, and the two sifts of the batch verification heap
    (ed25519-donna/ed25519-donna-batchverify.h:24-77) one swap at a time. */
module HeapOrder {

  function Parent(i: int): int {
    (i - 1) / 2
  }

  predicate OrderAt(k: seq<int>, i: int)
    requires 1 <= i < |k|
  {
    k[Parent(i)] >= k[i]
  }

  predicate Ordered(k: seq<int>) {
    forall i :: 1 <= i < |k| ==> OrderAt(k, i)
  }

  function Swap<T>(k: seq<T>, a: int, b: int): (r: seq<T>)
    requires 0 <= a < |k| && 0 <= b < |k|
    ensures |r| == |k| && r[a] == k[b] && r[b] == k[a]
    ensures forall i :: 0 <= i < |k| && i != a && i != b ==> r[i] == k[i]
  {
    k[a := k[b]][b := k[a]]
  }

  /** Order holds except between p and its children, and the children do not exceed p's parent. */
  predicate OrderedBelow(k: seq<int>, p: int) {
    && 0 <= p < |k|
    && (forall i :: 1 <= i < |k| && i != p && Parent(i) != p ==> OrderAt(k, i))
    && (p > 0 ==> forall i :: 1 <= i < |k| && Parent(i) == p ==> k[Parent(p)] >= k[i])
  }

  /** Order holds except between p and its parent, and p's children do not exceed p's parent. */
  predicate OrderedAbove(k: seq<int>, p: int) {
    && 0 <= p < |k|
    && (forall i :: 1 <= i < |k| && i != p ==> OrderAt(k, i))
    && (p > 0 ==> forall i :: 1 <= i < |k| && Parent(i) == p ==> k[Parent(p)] >= k[i])
  }

  /** Any key may be put at the root of an ordered heap. */
  lemma RootReplaced(k: seq<int>, v: int)
    requires |k| > 0 && Ordered(k)
    ensures OrderedBelow(k[0 := v], 0)
  {
    var k' := k[0 := v];
    forall i | 1 <= i < |k'| && i != 0 && Parent(i) != 0 ensures OrderAt(k', i) {
      assert OrderAt(k, i);
    }
  }

  /** Sifting down: the larger child moves up, whatever the key that goes down. */
  lemma DownStep(k: seq<int>, p: int, c: int)
    requires OrderedBelow(k, p) && 2 * p + 2 < |k|
    requires c == if k[2 * p + 1] < k[2 * p + 2] then 2 * p + 2 else 2 * p + 1
    ensures OrderedBelow(Swap(k, p, c), c)
  {
    var k' := Swap(k, p, c);
    assert Parent(c) == p;
    assert OrderAt(k, c) || !OrderAt(k, c);
    forall i | 1 <= i < |k'| && i != c && Parent(i) != c ensures OrderAt(k', i) {
      assert OrderAt(k, i) || !OrderAt(k, i);
      if Parent(i) == p {
        assert i == 2 * p + 1 || i == 2 * p + 2;
      }
    }
    forall i | 1 <= i < |k'| && Parent(i) == c ensures k'[Parent(c)] >= k'[i] {
      assert OrderAt(k, i);
    }
  }

  /** At a leaf there is nothing left below. */
  lemma DownEnd(k: seq<int>, p: int)
    requires OrderedBelow(k, p) && 2 * p + 1 >= |k|
    ensures OrderedAbove(k, p)
  {
  }

  /** A new key at the bottom. */
  lemma Appended(k: seq<int>, v: int)
    requires Ordered(k)
    ensures OrderedAbove(k + [v], |k|)
  {
    var k' := k + [v];
    forall i | 1 <= i < |k'| && i != |k| ensures OrderAt(k', i) {
      assert OrderAt(k, i);
    }
  }

  lemma UpStep(k: seq<int>, p: int)
    requires OrderedAbove(k, p) && p > 0 && k[Parent(p)] <= k[p]
    ensures OrderedAbove(Swap(k, Parent(p), p), Parent(p))
  {
    var q := Parent(p);
    var k' := Swap(k, q, p);
    forall i | 1 <= i < |k'| && i != q ensures OrderAt(k', i) {
      assert OrderAt(k, i) || !OrderAt(k, i);
    }
    if q > 0 {
      assert OrderAt(k, q);
      forall i | 1 <= i < |k'| && Parent(i) == q ensures k'[Parent(q)] >= k'[i] {
        assert OrderAt(k, i) || !OrderAt(k, i);
      }
    }
  }

  lemma UpEnd(k: seq<int>, p: int)
    requires OrderedAbove(k, p) && (p == 0 || k[Parent(p)] >= k[p])
    ensures Ordered(k)
  {
    forall i | 1 <= i < |k| ensures OrderAt(k, i) {
      assert i != p ==> OrderAt(k, i);
    }
  }

  /** The root is a maximum, and the larger of its children a maximum of the rest. */
  lemma {:induction false} Maxima(k: seq<int>, i: int)
    requires Ordered(k) && 0 <= i < |k|
    ensures k[0] >= k[i]
    ensures i > 0 && |k| >= 3 ==> k[i] <= k[1] || k[i] <= k[2]
    decreases i
  {
    if i > 0 {
      assert OrderAt(k, i);
      Maxima(k, Parent(i));
    }
  }

  /** An index heap over 0..n: `where` is the inverse permutation. */
  predicate Permutation(h: seq<int>, where: seq<int>, n: int) {
    && 0 <= n <= |h| && n <= |where|
    && (forall i :: 0 <= i < n ==> 0 <= h[i] < n && where[h[i]] == i)
    && (forall x :: 0 <= x < n ==> 0 <= where[x] < n && h[where[x]] == x)
  }

  lemma SwapPermutation(h: seq<int>, where: seq<int>, n: int, a: int, b: int)
    requires Permutation(h, where, n) && 0 <= a < n && 0 <= b < n
    ensures Permutation(Swap(h, a, b), where[h[a] := b][h[b] := a], n)
  {
    var h', w' := Swap(h, a, b), where[h[a] := b][h[b] := a];
    assert where[h[a]] == a && where[h[b]] == b;
    forall i | 0 <= i < n ensures 0 <= h'[i] < n && w'[h'[i]] == i {
      assert where[h[i]] == i;
    }
    forall x | 0 <= x < n ensures 0 <= w'[x] < n && h'[w'[x]] == x {
      assert h[where[x]] == x;
    }
  }
}
