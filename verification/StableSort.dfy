/** Stable sorting by a numeric key, as a permutation of positions. */
module StableSort {
  /** Position `i` comes before position `j` in a stable sort by key. */
  predicate Precedes(keys: seq<int>, i: nat, j: nat)
    requires i < |keys| && j < |keys|
  {
    keys[i] < keys[j] || (keys[i] == keys[j] && i < j)
  }

  /** `order` is the stable argsort of the first `n` keys: every index once, each preceding all that come after it. */
  ghost predicate IsArgSort(keys: seq<int>, order: seq<nat>, n: nat)
    requires n <= |keys|
  {
    |order| == n
    && (forall k :: 0 <= k < n ==> order[k] < n)
    && (forall k: nat :: k < n ==> k in order)
    && (forall a, b :: 0 <= a < b < n ==> Precedes(keys, order[a], order[b]))
  }

  /** The stable argsort, as `sorted` and `np.argsort` give it. */
  function ArgSort(keys: seq<int>): (order: seq<nat>)
    ensures IsArgSort(keys, order, |keys|)
  {
    ArgSortOf(keys, |keys|)
  }

  function ArgSortOf(keys: seq<int>, n: nat): (order: seq<nat>)
    requires n <= |keys|
    ensures IsArgSort(keys, order, n)
  {
    if n == 0 then []
    else
      var before := ArgSortOf(keys, n - 1);
      var at := InsertionPoint(keys, before, n - 1, n - 1);
      InsertSorts(keys, before, n - 1, at);
      before[..at] + [n - 1] + before[at..]
  }

  /** Where position `n` goes, looking from place `at` of the order to the left. */
  function InsertionPoint(keys: seq<int>, order: seq<nat>, n: nat, at: nat): (r: nat)
    requires n < |keys| && IsArgSort(keys, order, n) && at <= n
    requires forall q :: at <= q < n ==> Precedes(keys, n, order[q])
    ensures r <= at
    ensures forall q :: r <= q < n ==> Precedes(keys, n, order[q])
    ensures forall q :: 0 <= q < r ==> Precedes(keys, order[q], n)
  {
    if at > 0 && keys[order[at - 1]] > keys[n] then InsertionPoint(keys, order, n, at - 1)
    else
      assert forall q :: 0 <= q < at - 1 ==> Precedes(keys, order[q], order[at - 1]);
      at
  }

  lemma InsertSorts(keys: seq<int>, order: seq<nat>, n: nat, at: nat)
    requires n < |keys| && IsArgSort(keys, order, n) && at <= n
    requires forall q :: at <= q < n ==> Precedes(keys, n, order[q])
    requires forall q :: 0 <= q < at ==> Precedes(keys, order[q], n)
    ensures IsArgSort(keys, order[..at] + [n] + order[at..], n + 1)
  {
    hide Precedes;
    InsertCovers(order, n, at);
    var order' := order[..at] + [n] + order[at..];
    forall a, b | 0 <= a < b < n + 1 ensures Precedes(keys, order'[a], order'[b]) {
      var a', b' := if a < at then a else a - 1, if b < at then b else b - 1;
      if a != at && b != at {
        assert Precedes(keys, order[a'], order[b']);
      }
    }
  }

  lemma InsertCovers(order: seq<nat>, n: nat, at: nat)
    requires |order| == n && at <= n && forall k: nat :: k < n ==> k in order
    ensures forall k: nat :: k < n + 1 ==> k in order[..at] + [n] + order[at..]
  {
    var order' := order[..at] + [n] + order[at..];
    assert order'[at] == n;
    forall k: nat | k < n ensures k in order' {
      assert k in order;
      var q :| 0 <= q < n && order[q] == k;
      assert order'[if q < at then q else q + 1] == k;
    }
  }

  /** Where two argsorts agree before `k`, what the one has at `k` comes no earlier in the other. */
  lemma FoundLater(keys: seq<int>, a: seq<nat>, b: seq<nat>, n: nat, k: nat) returns (q: nat)
    requires n <= |keys| && IsArgSort(keys, a, n) && IsArgSort(keys, b, n)
    requires k < n && forall i :: 0 <= i < k ==> a[i] == b[i]
    ensures k <= q < n && b[q] == a[k] && (q == k || Precedes(keys, b[k], a[k]))
  {
    assert a[k] in b;
    q :| 0 <= q < n && b[q] == a[k];
    assert forall i :: 0 <= i < k ==> Precedes(keys, a[i], a[k]);
    assert k < q ==> Precedes(keys, b[k], b[q]);
  }

  lemma SameNext(keys: seq<int>, a: seq<nat>, b: seq<nat>, n: nat, k: nat)
    requires n <= |keys| && IsArgSort(keys, a, n) && IsArgSort(keys, b, n)
    requires k < n && forall i :: 0 <= i < k ==> a[i] == b[i]
    ensures a[k] == b[k]
  {
    var q := FoundLater(keys, a, b, n, k);
    var p := FoundLater(keys, b, a, n, k);
  }

  /** There is one stable argsort. */
  lemma ArgSortUnique(keys: seq<int>, a: seq<nat>, b: seq<nat>, n: nat)
    requires n <= |keys| && IsArgSort(keys, a, n) && IsArgSort(keys, b, n)
    ensures a == b
  {
    for k := 0 to n
      invariant forall i :: 0 <= i < k ==> a[i] == b[i]
    {
      SameNext(keys, a, b, n, k);
    }
  }

  function Picked<T>(xs: seq<T>, order: seq<nat>): (r: seq<T>)
    requires forall k :: 0 <= k < |order| ==> order[k] < |xs|
  {
    seq(|order|, k requires 0 <= k < |order| => xs[order[k]])
  }
}
