/** Occurrences of one sequence inside another, shared by the scanners and the stream filters. */
module Search {

  /** `m` stands in `s` with its first element at index `p`. */
  predicate OccursAt<T(==)>(s: seq<T>, p: int, m: seq<T>) {
    0 <= p && p + |m| <= |s| && s[p..p + |m|] == m
  }

  /** An occurrence that ends inside a prefix of the text is an occurrence in that prefix. */
  lemma OccursInPrefix<T>(s: seq<T>, n: nat, p: int, m: seq<T>)
    requires n <= |s|
    ensures OccursAt(s[..n], p, m) <==> OccursAt(s, p, m) && p + |m| <= n
  {
    if 0 <= p && p + |m| <= n {
      assert s[..n][p..p + |m|] == s[p..p + |m|];
    }
  }

  /** An occurrence that starts inside a suffix of the text is an occurrence in that suffix. */
  lemma OccursInSuffix<T>(s: seq<T>, n: nat, p: int, m: seq<T>)
    requires n <= |s| && n <= p
    ensures OccursAt(s[n..], p - n, m) <==> OccursAt(s, p, m)
  {
    if p + |m| <= |s| {
      assert s[n..][p - n..p - n + |m|] == s[p..p + |m|];
    }
  }

  /** A part of an occurrence is the text at that place. */
  lemma PartOfOccurrence<T>(s: seq<T>, p: int, m: seq<T>, o: nat, n: nat)
    requires OccursAt(s, p, m) && o <= n <= |m|
    ensures m[o..n] == s[p + o..p + n]
  {
    var a, b := s[p..p + |m|][o..n], s[p + o..p + n];
    assert forall k :: 0 <= k < n - o ==> a[k] == b[k];
  }

  lemma HeadOfOccurrence<T>(s: seq<T>, p: int, m: seq<T>)
    requires m != []
    ensures OccursAt(s, p, m) ==> m[0] == s[p]
  {
    if OccursAt(s, p, m) {
      assert s[p..p + |m|][0] == s[p];
    }
  }

  /** Index of the first occurrence of `m` at or after `from`, or `|s| + 1` when there is none. */
  function FirstFrom<T(==)>(s: seq<T>, from: nat, m: seq<T>): (k: nat)
    requires from <= |s|
    ensures k <= |s| ==> from <= k && OccursAt(s, k, m)
    ensures |s| < k ==> k == |s| + 1
    ensures forall q :: from <= q < k ==> !OccursAt(s, q, m)
    decreases |s| - from
  {
    if OccursAt(s, from, m) then from
    else if from == |s| then |s| + 1
    else FirstFrom(s, from + 1, m)
  }
}
