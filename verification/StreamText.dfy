/** Text that arrives in chunks: holding back what could still become a marker. */
module StreamText {
  import opened Search

  function Flatten(chunks: seq<string>): string {
    if chunks == [] then "" else chunks[0] + Flatten(chunks[1..])
  }

  /** `k` characters at the end of `text` are a proper prefix of `marker`. */
  predicate EndsWithStart(text: string, marker: string, k: int) {
    0 < k < |marker| && k <= |text| && text[|text| - k..] == marker[..k]
  }

  /** The longest suffix of `text` that is a proper prefix of `marker`. */
  method PartialSuffixLen(text: string, marker: string) returns (n: nat)
    ensures n <= |text| && (n > 0 ==> EndsWithStart(text, marker, n))
    ensures forall k :: EndsWithStart(text, marker, k) ==> k <= n
  {
    var maxLen: int := if |text| < |marker| - 1 then |text| else |marker| - 1;
    var k := maxLen;
    while k > 0
      invariant k <= maxLen && (maxLen >= 0 ==> k >= 0)
      invariant forall q :: EndsWithStart(text, marker, q) ==> q <= k
      decreases k
    {
      if text[|text| - k..] == marker[..k] {
        return k;
      }
      k := k - 1;
    }
    return 0;
  }

  /** An occurrence that is complete only in `text + more` starts inside any suffix of `text` that is at least as long
      as every partial match. */
  lemma HoldBack(text: string, more: string, marker: string, hold: nat, q: int)
    requires hold <= |text| && forall k :: EndsWithStart(text, marker, k) ==> k <= hold
    requires OccursAt(text + more, q, marker) && !OccursAt(text, q, marker)
    ensures |text| - hold <= q
  {
    OccursInPrefix(text + more, |text|, q, marker);
    assert (text + more)[..|text|] == text;
    if q < |text| {
      var k := |text| - q;
      assert text[q..] == (text + more)[q..q + |marker|][..k];
      assert EndsWithStart(text, marker, k);
    }
  }

  /** When more text arrives, a partial match that reaches back beyond what was held is not new. */
  lemma PartialMatchesHeld(text: string, more: string, marker: string, hold: nat, k: int)
    requires hold <= |text| && forall q :: EndsWithStart(text, marker, q) ==> q <= hold
    requires EndsWithStart(text + more, marker, k)
    ensures k <= hold + |more|
    ensures EndsWithStart(text[|text| - hold..] + more, marker, k)
  {
    var n := k - |more|;
    var all := text + more;
    if n > 0 {
      assert all[|all| - k..][..n] == text[|text| - n..] && marker[..k][..n] == marker[..n];
      assert EndsWithStart(text, marker, n);
    }
    var pending := text[|text| - hold..] + more;
    assert k <= |pending| ==> pending[|pending| - k..] == all[|all| - k..];
  }
}
