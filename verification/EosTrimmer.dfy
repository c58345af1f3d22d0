/** The filter that keeps end-of-sequence markers out of streamed text. */
module EosTrimmer {
  import opened Search
  import opened StreamText

  /** The constructor drops empty strings. */
  predicate NonEmpty(eos: seq<string>) {
    forall k :: 0 <= k < |eos| ==> eos[k] != ""
  }

  /** Some EOS string starts at `q`. */
  predicate EosAt(eos: seq<string>, text: string, q: int) {
    exists k :: 0 <= k < |eos| && OccursAt(text, q, eos[k])
  }

  ghost predicate HasEos(eos: seq<string>, text: string) {
    exists q :: EosAt(eos, text, q)
  }

  /** Where the earliest EOS string starts, `|text| + 1` when there is none. */
  function FirstEosFrom(eos: seq<string>, text: string, from: nat): (q: nat)
    requires from <= |text|
    ensures from <= q <= |text| + 1
    ensures q <= |text| ==> EosAt(eos, text, q)
    ensures forall p :: from <= p < q ==> !EosAt(eos, text, p)
    decreases |text| - from
  {
    if EosAt(eos, text, from) then from
    else if from == |text| then |text| + 1
    else FirstEosFrom(eos, text, from + 1)
  }

  /** The text cut at its earliest EOS occurrence. */
  function Cut(eos: seq<string>, text: string): (r: string)
    ensures r <= text
    ensures HasEos(eos, text) <==> FirstEosFrom(eos, text, 0) <= |text|
  {
    var q := FirstEosFrom(eos, text, 0);
    if q <= |text| then text[..q] else text
  }

  lemma CutIsClean(eos: seq<string>, text: string)
    requires NonEmpty(eos)
    ensures !HasEos(eos, Cut(eos, text))
  {
    var r := Cut(eos, text);
    forall q ensures !EosAt(eos, r, q) {
      if k :| 0 <= k < |eos| && OccursAt(r, q, eos[k]) {
        OccursInPrefix(text, |r|, q, eos[k]);
        assert EosAt(eos, text, q);
      }
    }
  }

  lemma CutAt(eos: seq<string>, text: string, q: nat)
    requires q <= |text| && EosAt(eos, text, q) && forall p :: 0 <= p < q ==> !EosAt(eos, text, p)
    ensures HasEos(eos, text) && Cut(eos, text) == text[..q]
  {
  }

  // ---- what a stream of chunks shows ----

  /** Still open with everything that was fed, or closed with what was shown before the marker. */
  datatype Stream = Open(fed: string) | Closed(shown: string)

  ghost function FeedStream(eos: seq<string>, s: Stream, text: string): Stream {
    if s.Closed? then s
    else if HasEos(eos, s.fed + text) then Closed(Cut(eos, s.fed + text))
    else Open(s.fed + text)
  }

  ghost function FeedAll(eos: seq<string>, s: Stream, chunks: seq<string>): Stream
    decreases |chunks|
  {
    if chunks == [] then s else FeedAll(eos, FeedStream(eos, s, chunks[0]), chunks[1..])
  }

  /** What is on display once the stream is finished. */
  function Shown(s: Stream): string {
    if s.Open? then s.fed else s.shown
  }

  ghost function Streamed(eos: seq<string>, chunks: seq<string>): string {
    Shown(FeedAll(eos, Open(""), chunks))
  }

  // ---- the filter ----

  /** Nothing is held back but the start of some EOS string, and never all of it. */
  ghost predicate MayGrow(eos: seq<string>, pending: string) {
    pending != "" ==> exists k :: 0 <= k < |eos| && pending < eos[k]
  }

  class EosTextTrimmer {
    const eosStrings: seq<string>
    var pending: string
    var done: bool
    var emitted: string
    ghost var stream: Stream

    ghost predicate Valid()
      reads this
    {
      NonEmpty(eosStrings)
      && match stream
         case Closed(shown) => done && pending == "" && emitted == shown
         case Open(fed) =>
           !done && emitted + pending == fed && !HasEos(eosStrings, fed)
           && (forall k, n :: 0 <= k < |eosStrings| && EndsWithStart(fed, eosStrings[k], n) ==> n <= |pending|)
           && MayGrow(eosStrings, pending)
    }

    constructor (eos: seq<string>)
      ensures Valid() && stream == Open("") && emitted == ""
      ensures eosStrings == NonEmptyStrings(eos)
    {
      eosStrings := NonEmptyStrings(eos);
      pending, done, emitted := "", false, "";
      stream := Open("");
      new;
      forall q ensures !EosAt(eosStrings, "", q) {
      }
    }

    /** Shows what cannot be part of an EOS string any more, and closes at the first EOS string. */
    method Feed(text: string)
      requires Valid()
      modifies this
      ensures Valid() && stream == FeedStream(eosStrings, old(stream), text)
      ensures old(emitted) <= emitted
    {
      hide HasEos, Cut, EosAt, EndsWithStart, MayGrow;
      if done || text == "" {
        if !done {
          assert stream.fed + text == stream.fed;
        }
        return;
      }
      ghost var fed := stream.fed;
      pending := pending + text;
      assert emitted + pending == fed + text;
      OnlyInPending(eosStrings, fed, text, |emitted|);
      var first := MinPosition(eosStrings, pending);
      if first <= |pending| {
        CutInPending(eosStrings, emitted, pending, first);
        stream := Closed(Cut(eosStrings, fed + text));
        emitted := emitted + pending[..first];
        pending, done := "", true;
        return;
      }
      NoEosYet(eosStrings, emitted, pending);
      var hold := MaxHold(eosStrings, pending);
      HoldCovers(eosStrings, fed, text, |emitted|, hold);
      stream := Open(fed + text);
      if |pending| > hold {
        emitted := emitted + pending[..|pending| - hold];
        pending := pending[|pending| - hold..];
      } else {
        assert pending == pending[|pending| - hold..];
      }
    }

    /** Shows what was held back when no EOS string completed. */
    method Finish()
      requires Valid()
      modifies this
      ensures emitted == Shown(stream) && pending == "" && stream == old(stream) && done == old(done)
    {
      if !done && pending != "" {
        emitted := emitted + pending;
      }
      pending := "";
    }
  }

  function NonEmptyStrings(eos: seq<string>): (r: seq<string>)
    ensures NonEmpty(r)
    ensures forall s :: s in r <==> s in eos && s != ""
  {
    if eos == [] then []
    else (if eos[0] == "" then [] else [eos[0]]) + NonEmptyStrings(eos[1..])
  }

  method MinPosition(eos: seq<string>, text: string) returns (first: nat)
    ensures first <= |text| ==> EosAt(eos, text, first)
    ensures first <= |text| + 1 && forall q :: 0 <= q < first ==> !EosAt(eos, text, q)
  {
    first := |text| + 1;
    for k := 0 to |eos|
      invariant first <= |text| + 1 && (first <= |text| ==> EosAt(eos, text, first))
      invariant forall q, j :: 0 <= q < first && 0 <= j < k ==> !OccursAt(text, q, eos[j])
    {
      var idx := FirstFrom(text, 0, eos[k]);
      if idx < first {
        assert OccursAt(text, idx, eos[k]);
        first := idx;
      }
    }
  }

  method MaxHold(eos: seq<string>, text: string) returns (hold: nat)
    ensures hold <= |text|
    ensures forall k, n :: 0 <= k < |eos| && EndsWithStart(text, eos[k], n) ==> n <= hold
    ensures MayGrow(eos, text[|text| - hold..])
  {
    hold := 0;
    for k := 0 to |eos|
      invariant hold <= |text|
      invariant hold > 0 ==> exists j :: 0 <= j < k && EndsWithStart(text, eos[j], hold)
      invariant forall j, n :: 0 <= j < k && EndsWithStart(text, eos[j], n) ==> n <= hold
    {
      var n := PartialSuffixLen(text, eos[k]);
      hold := if n > hold then n else hold;
    }
  }

  /** New text completes no EOS string that starts before what is held back. */
  lemma OnlyInPending(eos: seq<string>, fed: string, text: string, shown: nat)
    requires shown <= |fed| && !HasEos(eos, fed)
    requires forall k, n :: 0 <= k < |eos| && EndsWithStart(fed, eos[k], n) ==> n <= |fed| - shown
    ensures forall q :: EosAt(eos, fed + text, q) ==> shown <= q
  {
    forall q | EosAt(eos, fed + text, q) ensures shown <= q {
      var k :| 0 <= k < |eos| && OccursAt(fed + text, q, eos[k]);
      assert !EosAt(eos, fed, q);
      HoldBack(fed, text, eos[k], |fed| - shown, q);
    }
  }

  lemma EosInSuffix(eos: seq<string>, a: string, b: string, q: int)
    requires |a| <= q
    ensures EosAt(eos, a + b, q) <==> EosAt(eos, b, q - |a|)
  {
    assert (a + b)[|a|..] == b;
    forall k | 0 <= k < |eos| ensures OccursAt(a + b, q, eos[k]) <==> OccursAt(b, q - |a|, eos[k]) {
      OccursInSuffix(a + b, |a|, q, eos[k]);
    }
  }

  lemma CutInPending(eos: seq<string>, shown: string, pending: string, first: nat)
    requires first <= |pending| && EosAt(eos, pending, first)
    requires forall q :: 0 <= q < first ==> !EosAt(eos, pending, q)
    requires forall q :: EosAt(eos, shown + pending, q) ==> |shown| <= q
    ensures HasEos(eos, shown + pending) && Cut(eos, shown + pending) == shown + pending[..first]
  {
    var text, q := shown + pending, |shown| + first;
    EosInSuffix(eos, shown, pending, q);
    forall p | 0 <= p < q ensures !EosAt(eos, text, p) {
      if |shown| <= p {
        EosInSuffix(eos, shown, pending, p);
      }
    }
    CutAt(eos, text, q);
  }

  lemma NoEosYet(eos: seq<string>, shown: string, pending: string)
    requires forall q :: 0 <= q <= |pending| ==> !EosAt(eos, pending, q)
    requires forall q :: EosAt(eos, shown + pending, q) ==> |shown| <= q
    ensures !HasEos(eos, shown + pending)
  {
    forall q ensures !EosAt(eos, shown + pending, q) {
      if |shown| <= q {
        EosInSuffix(eos, shown, pending, q);
        assert EosAt(eos, pending, q - |shown|) ==> q - |shown| <= |pending|;
      }
    }
  }

  /** What the new hold keeps back covers every partial match of the whole text. */
  lemma HoldCovers(eos: seq<string>, fed: string, text: string, shown: nat, hold: nat)
    requires shown <= |fed|
    requires forall k, n :: 0 <= k < |eos| && EndsWithStart(fed, eos[k], n) ==> n <= |fed| - shown
    requires forall k, n :: 0 <= k < |eos| && EndsWithStart(fed[shown..] + text, eos[k], n) ==> n <= hold
    ensures forall k, n :: 0 <= k < |eos| && EndsWithStart(fed + text, eos[k], n) ==> n <= hold
  {
    forall k, n | 0 <= k < |eos| && EndsWithStart(fed + text, eos[k], n) ensures n <= hold {
      PartialMatchesHeld(fed, text, eos[k], |fed| - shown, n);
    }
  }

  /** The streaming loop of a turn: feed every chunk, then finish. The display is a prefix of the whole text and
      shows no EOS string; what it is exactly is `Streamed`. */
  method TrimAll(eos: seq<string>, chunks: seq<string>) returns (shown: string)
    ensures shown == Streamed(NonEmptyStrings(eos), chunks)
    ensures shown <= Flatten(chunks)
    ensures forall k, q :: 0 <= k < |eos| && eos[k] != "" ==> !OccursAt(shown, q, eos[k])
  {
    var trimmer := new EosTextTrimmer(eos);
    for i := 0 to |chunks|
      invariant trimmer.Valid() && trimmer.eosStrings == NonEmptyStrings(eos)
      invariant FeedAll(NonEmptyStrings(eos), trimmer.stream, chunks[i..])
             == FeedAll(NonEmptyStrings(eos), Open(""), chunks)
    {
      assert chunks[i..][0] == chunks[i] && chunks[i..][1..] == chunks[i + 1..];
      trimmer.Feed(chunks[i]);
    }
    trimmer.Finish();
    shown := trimmer.emitted;
    StreamedIsClean(NonEmptyStrings(eos), chunks);
    forall k, q | 0 <= k < |eos| && eos[k] != "" ensures !OccursAt(shown, q, eos[k]) {
      assert eos[k] in NonEmptyStrings(eos);
      assert !EosAt(NonEmptyStrings(eos), shown, q);
    }
  }

  lemma StreamedIsClean(eos: seq<string>, chunks: seq<string>)
    requires NonEmpty(eos)
    ensures Streamed(eos, chunks) <= Flatten(chunks) && !HasEos(eos, Streamed(eos, chunks))
  {
    NoEosInNothing(eos);
    FedIsClean(eos, Open(""), chunks);
  }

  lemma NoEosInNothing(eos: seq<string>)
    requires NonEmpty(eos)
    ensures !HasEos(eos, "")
  {
    forall q ensures !EosAt(eos, "", q) {
    }
  }

  lemma {:induction false} FedIsClean(eos: seq<string>, s: Stream, chunks: seq<string>)
    requires NonEmpty(eos) && !HasEos(eos, Shown(s))
    ensures var r := FeedAll(eos, s, chunks);
            Shown(r) <= Shown(s) + Flatten(chunks) && !HasEos(eos, Shown(r)) && (s.Closed? ==> r == s)
    decreases |chunks|
  {
    hide HasEos, Cut;
    if chunks == [] {
    } else {
      var s' := FeedStream(eos, s, chunks[0]);
      if s.Open? {
        CutIsClean(eos, s.fed + chunks[0]);
      }
      FedIsClean(eos, s', chunks[1..]);
      assert Shown(s) + Flatten(chunks) == (Shown(s) + chunks[0]) + Flatten(chunks[1..]);
    }
  }

  /** The display stops at the earliest EOS string of the text that has arrived with the first chunk that completes
      one; without any, it is the whole text. */
  lemma StreamedAtFirst(eos: seq<string>, chunks: seq<string>, j: nat)
    requires NonEmpty(eos) && j <= |chunks|
    requires forall i :: 0 <= i < j ==> !HasEos(eos, Flatten(chunks[..i]))
    ensures HasEos(eos, Flatten(chunks[..j])) ==> Streamed(eos, chunks) == Cut(eos, Flatten(chunks[..j]))
    ensures !HasEos(eos, Flatten(chunks)) ==> Streamed(eos, chunks) == Flatten(chunks)
  {
    NoEosInNothing(eos);
    hide HasEos, FeedAll, Cut, Flatten;
    if HasEos(eos, Flatten(chunks[..j])) {
      assert forall i :: 0 <= i <= j ==> "" + Flatten(chunks[..i]) == Flatten(chunks[..i]);
      FedUpTo(eos, "", chunks, j);
    }
    if !HasEos(eos, Flatten(chunks)) {
      assert "" + Flatten(chunks) == Flatten(chunks);
      FedAll(eos, "", chunks);
    }
  }

  lemma {:induction false} FedUpTo(eos: seq<string>, fed: string, chunks: seq<string>, j: nat)
    requires j <= |chunks| && !HasEos(eos, fed) && HasEos(eos, fed + Flatten(chunks[..j]))
    requires forall i :: 0 <= i < j ==> !HasEos(eos, fed + Flatten(chunks[..i]))
    ensures Shown(FeedAll(eos, Open(fed), chunks)) == Cut(eos, fed + Flatten(chunks[..j]))
    decreases |chunks|
  {
    hide HasEos, Cut;
    assert fed + "" == fed;
    assert j > 0;
    var more, rest := fed + chunks[0], chunks[1..];
    forall i | 0 < i <= j ensures fed + Flatten(chunks[..i]) == more + Flatten(rest[..i - 1]) {
      FlattenHead(chunks, i);
    }
    assert more + Flatten(rest[..0]) == more;
    assert j > 1 ==> !HasEos(eos, fed + Flatten(chunks[..1]));
    if HasEos(eos, more) {
      assert j == 1;
      ClosedStays(eos, Closed(Cut(eos, more)), rest);
    } else {
      forall i | 0 <= i < j - 1 ensures !HasEos(eos, more + Flatten(rest[..i])) {
        assert fed + Flatten(chunks[..i + 1]) == more + Flatten(rest[..i]);
      }
      FedUpTo(eos, more, rest, j - 1);
    }
  }

  lemma FlattenHead(chunks: seq<string>, i: nat)
    requires 0 < i <= |chunks|
    ensures Flatten(chunks[..i]) == chunks[0] + Flatten(chunks[1..][..i - 1])
  {
    assert chunks[..i][1..] == chunks[1..][..i - 1];
  }

  lemma {:induction false} FedAll(eos: seq<string>, fed: string, chunks: seq<string>)
    requires !HasEos(eos, fed + Flatten(chunks))
    ensures FeedAll(eos, Open(fed), chunks) == Open(fed + Flatten(chunks))
    decreases |chunks|
  {
    assert fed + "" == fed;
    if chunks != [] {
      var more, rest := fed + chunks[0], Flatten(chunks[1..]);
      assert fed + Flatten(chunks) == more + rest;
      EosStays(eos, more, rest);
      hide HasEos;
      FedAll(eos, more, chunks[1..]);
    }
  }

  lemma EosStays(eos: seq<string>, text: string, more: string)
    ensures HasEos(eos, text) ==> HasEos(eos, text + more)
  {
    if !HasEos(eos, text) {
      return;
    }
    var q :| EosAt(eos, text, q);
    var k :| 0 <= k < |eos| && OccursAt(text, q, eos[k]);
    assert (text + more)[..|text|] == text;
    OccursInPrefix(text + more, |text|, q, eos[k]);
    assert EosAt(eos, text + more, q);
  }

  // ---- when the chunking does not matter ----

  /** An EOS string inside another at a positive offset that ends before it would complete first and start later. It
      does no harm when yet another one starts the outer string and completes no later than the inner one. */
  ghost predicate NestedHarmless(eos: seq<string>) {
    forall i, j, o ::
      0 <= i < |eos| && 0 <= j < |eos| && 0 < o && OccursAt(eos[i], o, eos[j]) && o + |eos[j]| < |eos[i]|
      ==> StartsWithEos(eos, eos[i], o + |eos[j]|)
  }

  /** Some EOS string is a prefix of the first `n` characters. */
  ghost predicate StartsWithEos(eos: seq<string>, s: string, n: int) {
    exists u :: 0 <= u < |eos| && |eos[u]| <= n && OccursAt(s, 0, eos[u])
  }

  /** A single EOS string is never nested in this way. */
  lemma SingleIsHarmless(s: string)
    requires s != ""
    ensures NestedHarmless([s])
  {
  }

  /** The earliest EOS occurrence of the whole text is the earliest of the first prefix that has one. */
  lemma EarliestInPrefix(eos: seq<string>, text: string, more: string)
    requires NonEmpty(eos) && NestedHarmless(eos) && HasEos(eos, text)
    ensures Cut(eos, text + more) == Cut(eos, text)
  {
    var all, q := text + more, FirstEosFrom(eos, text, 0);
    assert all[..|text|] == text;
    var j :| 0 <= j < |eos| && OccursAt(text, q, eos[j]);
    OccursInPrefix(all, |text|, q, eos[j]);
    assert EosAt(eos, all, q);
    forall p | 0 <= p < q ensures !EosAt(eos, all, p) {
      if EosAt(eos, all, p) {
        var i :| 0 <= i < |eos| && OccursAt(all, p, eos[i]);
        OccursInPrefix(all, |text|, p, eos[i]);
        assert !EosAt(eos, text, p);
        NestedStart(eos, all, |text|, p, q, i, j);
      }
    }
    CutAt(eos, all, q);
  }

  /** `eos[i]` at `p` is not complete within the first `n` characters, `eos[j]` at `q > p` is: then some EOS string
      is complete at `p` as well. */
  lemma NestedStart(eos: seq<string>, all: string, n: nat, p: nat, q: nat, i: nat, j: nat)
    requires NonEmpty(eos) && NestedHarmless(eos) && n <= |all| && i < |eos| && j < |eos| && p < q
    requires OccursAt(all, p, eos[i]) && n < p + |eos[i]|
    requires OccursAt(all, q, eos[j]) && q + |eos[j]| <= n
    ensures EosAt(eos, all[..n], p)
  {
    var o := q - p;
    PartOfOccurrence(all, p, eos[i], o, o + |eos[j]|);
    assert OccursAt(eos[i], o, eos[j]);
    var u :| 0 <= u < |eos| && |eos[u]| <= o + |eos[j]| && OccursAt(eos[i], 0, eos[u]);
    PartOfOccurrence(all, p, eos[i], 0, |eos[u]|);
    OccursInPrefix(all, n, p, eos[u]);
  }

  lemma {:induction false} ChunksDoNotMatter(eos: seq<string>, fed: string, chunks: seq<string>)
    requires NonEmpty(eos) && NestedHarmless(eos) && !HasEos(eos, fed)
    ensures Shown(FeedAll(eos, Open(fed), chunks)) == Cut(eos, fed + Flatten(chunks))
    decreases |chunks|
  {
    hide HasEos, NestedHarmless, Cut;
    if chunks == [] {
      NothingToCut(eos, fed);
      assert fed + "" == fed;
    } else {
      var text, rest := fed + chunks[0], Flatten(chunks[1..]);
      assert fed + Flatten(chunks) == text + rest;
      if HasEos(eos, text) {
        EarliestInPrefix(eos, text, rest);
        ClosedStays(eos, Closed(Cut(eos, text)), chunks[1..]);
      } else {
        ChunksDoNotMatter(eos, text, chunks[1..]);
      }
    }
  }

  lemma NothingToCut(eos: seq<string>, text: string)
    requires !HasEos(eos, text)
    ensures Cut(eos, text) == text
  {
  }

  lemma {:induction false} ClosedStays(eos: seq<string>, s: Stream, chunks: seq<string>)
    requires s.Closed?
    ensures FeedAll(eos, s, chunks) == s
    decreases |chunks|
  {
    if chunks != [] {
      ClosedStays(eos, s, chunks[1..]);
    }
  }

  /** Otherwise some text shows differently: feeding the outer string up to the end of the inner one first. */
  lemma ChunksMatter(eos: seq<string>) returns (chunks: seq<string>)
    requires NonEmpty(eos) && !NestedHarmless(eos)
    ensures Streamed(eos, chunks) != Cut(eos, Flatten(chunks))
  {
    hide HasEos, Cut, EosAt, Streamed;
    var i, j, o :| 0 <= i < |eos| && 0 <= j < |eos| && 0 < o && OccursAt(eos[i], o, eos[j])
      && o + |eos[j]| < |eos[i]| && !StartsWithEos(eos, eos[i], o + |eos[j]|);
    var s, n := eos[i], o + |eos[j]|;
    chunks := [s[..n], s[n..]];
    WholeCut(eos, i);
    InnerFirst(eos, i, j, o);
    CutIsPositive(eos, s[..n], o);
    TwoChunks(eos, s[..n], s[n..]);
    assert s[..n] + s[n..] == s;
  }

  /** For instance, `bc` within `abcd`: the text `abcd` shows nothing when it comes at once, and `a` when `d` comes
      late. */
  lemma NestedExample()
    ensures var eos := ["abcd", "bc"];
            && !NestedHarmless(eos)
            && Streamed(eos, ["abcd"]) == "" && Streamed(eos, ["abc", "d"]) == "a" && "abc" + "d" == "abcd"
  {
    var eos := ["abcd", "bc"];
    Nested();
    InTheMiddle();
    hide NestedHarmless, HasEos, Cut, Streamed;
    TwoChunks(eos, "abc", "d");
    WholeCut(eos, 0);
    assert eos[0] == "abcd";
    StartsAtOnce(eos, 0);
    OneChunk(eos, "abcd");
  }

  lemma Nested()
    ensures !NestedHarmless(["abcd", "bc"])
  {
    var eos := ["abcd", "bc"];
    assert OccursAt("abcd", 1, "bc") && eos[0] == "abcd" && eos[1] == "bc";
    HeadOfOccurrence("abcd", 0, "bc");
    assert !StartsWithEos(eos, eos[0], 3);
  }

  lemma InTheMiddle()
    ensures HasEos(["abcd", "bc"], "abc") && Cut(["abcd", "bc"], "abc") == "a"
  {
    var eos := ["abcd", "bc"];
    assert OccursAt("abc", 1, "bc") && eos[0] == "abcd" && eos[1] == "bc";
    HeadOfOccurrence("abc", 0, "bc");
    assert EosAt(eos, "abc", 1) && !EosAt(eos, "abc", 0);
    CutAt(eos, "abc", 1);
    assert "abc"[..1] == "a";
  }

  lemma StartsAtOnce(eos: seq<string>, i: nat)
    requires i < |eos|
    ensures HasEos(eos, eos[i])
  {
    assert OccursAt(eos[i], 0, eos[i]);
    assert EosAt(eos, eos[i], 0);
  }

  lemma OneChunk(eos: seq<string>, a: string)
    requires HasEos(eos, a)
    ensures Streamed(eos, [a]) == Cut(eos, a)
  {
    hide HasEos, Cut;
    assert "" + a == a && [a][1..] == [];
    ClosedStays(eos, Closed(Cut(eos, a)), []);
  }

  /** An EOS string alone is cut to nothing. */
  lemma WholeCut(eos: seq<string>, i: nat)
    requires i < |eos|
    ensures Cut(eos, eos[i]) == ""
  {
    assert OccursAt(eos[i], 0, eos[i]);
    assert EosAt(eos, eos[i], 0);
    CutAt(eos, eos[i], 0);
  }

  lemma InnerFirst(eos: seq<string>, i: nat, j: nat, o: nat)
    requires i < |eos| && j < |eos| && OccursAt(eos[i], o, eos[j]) && o + |eos[j]| < |eos[i]|
    requires !StartsWithEos(eos, eos[i], o + |eos[j]|)
    ensures EosAt(eos, eos[i][..o + |eos[j]|], o) && !EosAt(eos, eos[i][..o + |eos[j]|], 0)
  {
    var s, n := eos[i], o + |eos[j]|;
    OccursInPrefix(s, n, o, eos[j]);
    forall u | 0 <= u < |eos| ensures !OccursAt(s[..n], 0, eos[u]) {
      OccursInPrefix(s, n, 0, eos[u]);
    }
  }

  /** A marker in the first of two chunks closes the stream there. */
  lemma TwoChunks(eos: seq<string>, a: string, b: string)
    requires HasEos(eos, a)
    ensures Streamed(eos, [a, b]) == Cut(eos, a) && Flatten([a, b]) == a + b
  {
    hide HasEos, Cut;
    assert "" + a == a && b + "" == b;
    assert [a, b][1..] == [b] && [b][1..] == [];
    assert Flatten([b]) == b + Flatten([]);
    ClosedStays(eos, Closed(Cut(eos, a)), [b]);
  }

  lemma CutIsPositive(eos: seq<string>, text: string, q: nat)
    requires EosAt(eos, text, q) && !EosAt(eos, text, 0)
    ensures HasEos(eos, text) && Cut(eos, text) != ""
  {
    var k :| 0 <= k < |eos| && OccursAt(text, q, eos[k]);
  }

  /** The display equals the text cut at its earliest EOS occurrence, however the text is chunked, exactly when every
      nesting among the EOS strings is harmless. */
  lemma ChunkingIndependence(eos: seq<string>)
    requires NonEmpty(eos)
    ensures (forall chunks :: Streamed(eos, chunks) == Cut(eos, Flatten(chunks))) <==> NestedHarmless(eos)
  {
    if NestedHarmless(eos) {
      NoEosInNothing(eos);
      forall chunks ensures Streamed(eos, chunks) == Cut(eos, Flatten(chunks)) {
        ChunksDoNotMatter(eos, "", chunks);
        assert "" + Flatten(chunks) == Flatten(chunks);
      }
    } else {
      var chunks := ChunksMatter(eos);
    }
  }
}
