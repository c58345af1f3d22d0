/** What a role mask is: the spans a greedy-left scan finds in a token row, and the positions they keep. */
module RoleMask {
  import opened Options
  import opened Search

  /** `train_on_eos`: which end-of-turn markers contribute to the loss. */
  datatype EosMode = TurnEnds | AllEnds | NoEnds | LastEnd

  /** Empty `endTokens` means the end of the row closes the span. */
  datatype RoleBoundary = RoleBoundary(
    role: string,
    startTokens: seq<int>,
    endTokens: seq<int>,
    includeStart: bool,
    includeEnd: bool)

  type Row = seq<int>

  /** A marker match; an empty marker never matches. */
  predicate MarkerAt(row: Row, p: int, marker: seq<int>) {
    marker != [] && OccursAt(row, p, marker)
  }

  /** Boundary `a` is preferred to `b`: a longer start marker, and among equals the one listed first. */
  predicate Beats(bs: seq<RoleBoundary>, a: nat, b: nat)
    requires a < |bs| && b < |bs|
  {
    |bs[a].startTokens| > |bs[b].startTokens|
    || (|bs[a].startTokens| == |bs[b].startTokens| && a < b)
  }

  predicate StartsAt(row: Row, bs: seq<RoleBoundary>, j: int, k: int) {
    0 <= k < |bs| && MarkerAt(row, j, bs[k].startTokens)
  }

  /** `w` is the boundary the scan must choose at `j`: it matches and beats every other match. */
  ghost predicate IsWinner(row: Row, bs: seq<RoleBoundary>, j: int, w: int) {
    StartsAt(row, bs, j, w)
    && forall k :: StartsAt(row, bs, j, k) && k != w ==> Beats(bs, w, k)
  }

  /** The winner at `j` among the first `n` boundaries, -1 when none of them matches. */
  function WinnerAmong(row: Row, bs: seq<RoleBoundary>, j: int, n: nat): (w: int)
    requires n <= |bs|
    ensures w == -1 || 0 <= w < n
    ensures w == -1 ==> forall k :: 0 <= k < n ==> !StartsAt(row, bs, j, k)
    ensures w >= 0 ==> StartsAt(row, bs, j, w)
    ensures w >= 0 ==> forall k :: 0 <= k < n && StartsAt(row, bs, j, k) && k != w ==> Beats(bs, w, k)
  {
    if n == 0 then -1
    else
      var w := WinnerAmong(row, bs, j, n - 1);
      if StartsAt(row, bs, j, n - 1) && (w == -1 || Beats(bs, n - 1, w)) then n - 1 else w
  }

  function Winner(row: Row, bs: seq<RoleBoundary>, j: int): (w: int)
    ensures w == -1 ==> forall k :: !StartsAt(row, bs, j, k)
    ensures w != -1 ==> IsWinner(row, bs, j, w)
  {
    WinnerAmong(row, bs, j, |bs|)
  }

  /** There is one winner at most, so any two ways of choosing it agree. */
  lemma WinnerUnique(row: Row, bs: seq<RoleBoundary>, j: int, w: int)
    requires IsWinner(row, bs, j, w)
    ensures Winner(row, bs, j) == w
  {
    var v := Winner(row, bs, j);
    assert StartsAt(row, bs, j, w);
    assert IsWinner(row, bs, j, v);
  }

  /** The winner's start marker stands at `j`; none that stands there is longer, and none as long is listed first. An
      empty marker stands nowhere. */
  lemma WinnerIsLongest(row: Row, bs: seq<RoleBoundary>, j: nat)
    ensures var w := Winner(row, bs, j);
            forall k :: 0 <= k < |bs| ==>
              var m := bs[k].startTokens;
              var stands := m != [] && j + |m| <= |row| && row[j..j + |m|] == m;
              && (w == k ==> stands)
              && (stands ==> 0 <= w < |bs| && |m| <= |bs[w].startTokens| && (|m| == |bs[w].startTokens| ==> w <= k))
  {
    var w := Winner(row, bs, j);
    forall k | 0 <= k < |bs| && StartsAt(row, bs, j, k) && k != w ensures w != -1 && Beats(bs, w, k) {
      assert IsWinner(row, bs, j, w);
    }
    assert forall k :: 0 <= k < |bs| ==>
      (StartsAt(row, bs, j, k)
       <==> bs[k].startTokens != [] && j + |bs[k].startTokens| <= |row|
            && row[j..j + |bs[k].startTokens|] == bs[k].startTokens);
  }

  /** One matched span: `[start, content)` is the start marker, `[content, contentEnd)` the body,
      `[contentEnd, after)` the end marker, which is there only when the span is `closed`. */
  datatype Span = Span(boundary: nat, start: nat, content: nat, contentEnd: nat, after: nat, closed: bool)

  /** The span boundary `w` opens at `j`: up to the first end marker after the start marker, else to the end. */
  function SpanAt(row: Row, bs: seq<RoleBoundary>, j: nat, w: nat): (s: Span)
    requires StartsAt(row, bs, j, w)
    ensures s.boundary == w && j == s.start < s.content <= s.contentEnd <= s.after <= |row|
    ensures s.content == j + |bs[w].startTokens|
    ensures s.closed ==> MarkerAt(row, s.contentEnd, bs[w].endTokens) && s.after == s.contentEnd + |bs[w].endTokens|
    ensures !s.closed ==> s.contentEnd == s.after == |row|
    ensures forall q :: s.content <= q < s.contentEnd ==> !MarkerAt(row, q, bs[w].endTokens)
  {
    var b := bs[w];
    var content := j + |b.startTokens|;
    if b.endTokens == [] then Span(w, j, content, |row|, |row|, false)
    else
      var k := FirstFrom(row, content, b.endTokens);
      if k <= |row| then Span(w, j, content, k, k + |b.endTokens|, true)
      else Span(w, j, content, |row|, |row|, false)
  }

  predicate SpanOf(row: Row, bs: seq<RoleBoundary>, s: Span) {
    StartsAt(row, bs, s.start, s.boundary) && s == SpanAt(row, bs, s.start, s.boundary)
  }

  /** Where the scan goes on: an end marker that is not included is left to start the next span. */
  function Resume(bs: seq<RoleBoundary>, s: Span): nat
    requires s.boundary < |bs|
  {
    if s.closed && !bs[s.boundary].includeEnd then s.contentEnd else s.after
  }

  /** All spans the scan finds from `j` on. Trained roles and the end-of-turn mode play no part. */
  function Spans(row: Row, bs: seq<RoleBoundary>, j: nat): (spans: seq<Span>)
    requires j <= |row|
    ensures forall k :: 0 <= k < |spans| ==> spans[k].boundary < |bs| && SpanOf(row, bs, spans[k])
    decreases |row| - j
  {
    if j == |row| then []
    else
      var w := Winner(row, bs, j);
      if w == -1 then Spans(row, bs, j + 1)
      else
        var s := SpanAt(row, bs, j, w);
        [s] + Spans(row, bs, Resume(bs, s))
  }

  /** One scan step: nothing matches at `j`, or the winner's span is the next one. */
  lemma SpansStep(row: Row, bs: seq<RoleBoundary>, done: seq<Span>, j: nat)
    requires j < |row| && Spans(row, bs, 0) == done + Spans(row, bs, j)
    ensures var w := Winner(row, bs, j);
            if w == -1 then Spans(row, bs, 0) == done + Spans(row, bs, j + 1)
            else
              var s := SpanAt(row, bs, j, w);
              j < Resume(bs, s) <= |row| && Spans(row, bs, 0) == (done + [s]) + Spans(row, bs, Resume(bs, s))
  {
    var w := Winner(row, bs, j);
    if w != -1 {
      var s := SpanAt(row, bs, j, w);
      assert Spans(row, bs, j) == [s] + Spans(row, bs, Resume(bs, s));
    }
  }

  predicate Trained(bs: seq<RoleBoundary>, roles: set<string>, s: Span)
    requires s.boundary < |bs|
  {
    bs[s.boundary].role in roles
  }

  /** `p` belongs to the body of a trained span (or to its start marker, where that is included). */
  predicate InBody(bs: seq<RoleBoundary>, roles: set<string>, s: Span, p: int)
    requires s.boundary < |bs|
  {
    Trained(bs, roles, s)
    && ((bs[s.boundary].includeStart && s.start <= p < s.content) || s.content <= p < s.contentEnd)
  }

  /** The span was closed by a marker that may contribute. */
  predicate HasEnd(bs: seq<RoleBoundary>, s: Span)
    requires s.boundary < |bs|
  {
    s.closed && bs[s.boundary].includeEnd
  }

  predicate InEnd(bs: seq<RoleBoundary>, s: Span, p: int)
    requires s.boundary < |bs|
  {
    HasEnd(bs, s) && s.contentEnd <= p < s.after
  }

  /** What one span contributes while scanning; `LastEnd` adds its marker only after the scan. */
  predicate SpanKeeps(bs: seq<RoleBoundary>, roles: set<string>, mode: EosMode, s: Span, p: int)
    requires s.boundary < |bs|
  {
    InBody(bs, roles, s, p)
    || (InEnd(bs, s, p) && (mode == AllEnds || (mode == TurnEnds && Trained(bs, roles, s))))
  }

  predicate Bounded(bs: seq<RoleBoundary>, spans: seq<Span>) {
    forall k :: 0 <= k < |spans| ==> spans[k].boundary < |bs|
  }

  ghost predicate AnyKeeps(bs: seq<RoleBoundary>, roles: set<string>, mode: EosMode, spans: seq<Span>, p: int)
    requires Bounded(bs, spans)
  {
    exists k :: 0 <= k < |spans| && SpanKeeps(bs, roles, mode, spans[k], p)
  }

  /** `k` is the last trained span with an end marker of its own. */
  ghost predicate IsLastEnd(bs: seq<RoleBoundary>, roles: set<string>, spans: seq<Span>, k: int)
    requires Bounded(bs, spans)
  {
    0 <= k < |spans| && Trained(bs, roles, spans[k]) && HasEnd(bs, spans[k])
    && forall m :: k < m < |spans| ==> !(Trained(bs, roles, spans[m]) && HasEnd(bs, spans[m]))
  }

  /** The positions a list of spans keeps under a mode. */
  ghost predicate Keeps(bs: seq<RoleBoundary>, roles: set<string>, mode: EosMode, spans: seq<Span>, p: int)
    requires Bounded(bs, spans)
  {
    AnyKeeps(bs, roles, mode, spans, p)
    || (mode == LastEnd && exists k :: IsLastEnd(bs, roles, spans, k) && InEnd(bs, spans[k], p))
  }

  /** The role mask of a row. */
  ghost predicate Kept(row: Row, bs: seq<RoleBoundary>, roles: set<string>, mode: EosMode, p: int) {
    Keeps(bs, roles, mode, Spans(row, bs, 0), p)
  }

  /** A tensor of token ids: `labels` is `|labels|` by `width`. */
  predicate Rectangular(labels: seq<Row>, width: nat) {
    forall i :: 0 <= i < |labels| ==> |labels[i]| == width
  }

  /** `mask` is the role mask of every row of `labels`. */
  ghost predicate IsKeepMask(
    labels: seq<Row>, bs: seq<RoleBoundary>, roles: set<string>, mode: EosMode, mask: seq<seq<bool>>)
  {
    |mask| == |labels|
    && forall i :: 0 <= i < |labels| ==> IsRowMask(labels[i], bs, roles, mode, mask[i])
  }

  ghost predicate IsRowMask(
    row: Row, bs: seq<RoleBoundary>, roles: set<string>, mode: EosMode, mask: seq<bool>)
  {
    |mask| == |row| && forall p :: 0 <= p < |row| ==> (mask[p] <==> Kept(row, bs, roles, mode, p))
  }

  /** A matrix has one role mask, so two scanners that both compute it return the same matrix. */
  lemma KeepMaskUnique(
    labels: seq<Row>, bs: seq<RoleBoundary>, roles: set<string>, mode: EosMode,
    mask: seq<seq<bool>>, mask': seq<seq<bool>>)
    requires IsKeepMask(labels, bs, roles, mode, mask) && IsKeepMask(labels, bs, roles, mode, mask')
    ensures mask == mask'
  {
    forall i | 0 <= i < |labels| ensures mask[i] == mask'[i] {
      assert IsRowMask(labels[i], bs, roles, mode, mask[i]) && IsRowMask(labels[i], bs, roles, mode, mask'[i]);
    }
  }

  /** What a row mask must show after the spans `done` have been written. */
  ghost predicate Marks(
    bs: seq<RoleBoundary>, roles: set<string>, mode: EosMode, done: seq<Span>, mask: seq<bool>)
  {
    Bounded(bs, done) && forall p :: 0 <= p < |mask| ==> (mask[p] <==> AnyKeeps(bs, roles, mode, done, p))
  }

  /** Writing one more span gives the marks of one more span. */
  lemma MarksSnoc(
    bs: seq<RoleBoundary>, roles: set<string>, mode: EosMode, done: seq<Span>, s: Span,
    mask: seq<bool>, mask': seq<bool>)
    requires Marks(bs, roles, mode, done, mask) && s.boundary < |bs| && |mask| == |mask'|
    requires forall p :: 0 <= p < |mask| ==> mask'[p] == (mask[p] || SpanKeeps(bs, roles, mode, s, p))
    ensures Marks(bs, roles, mode, done + [s], mask')
  {
    var all := done + [s];
    assert forall k :: 0 <= k < |done| ==> all[k] == done[k];
    assert all[|done|] == s;
  }

  /** The end marker of the last trained span that has one, as the half-open interval it covers. */
  function FinalEnd(bs: seq<RoleBoundary>, roles: set<string>, spans: seq<Span>): (e: Option<(nat, nat)>)
    requires Bounded(bs, spans)
    ensures e.None? ==> forall k :: !IsLastEnd(bs, roles, spans, k)
    ensures e.Some? ==> exists k :: IsLastEnd(bs, roles, spans, k) && e.value == (spans[k].contentEnd, spans[k].after)
  {
    if spans == [] then None
    else
      var s := spans[|spans| - 1];
      var before := spans[..|spans| - 1];
      assert forall k :: 0 <= k < |before| ==> before[k] == spans[k];
      if Trained(bs, roles, s) && HasEnd(bs, s) then
        assert IsLastEnd(bs, roles, spans, |spans| - 1);
        Some((s.contentEnd, s.after))
      else
        assert forall k :: IsLastEnd(bs, roles, spans, k) <==> IsLastEnd(bs, roles, before, k);
        FinalEnd(bs, roles, before)
  }

  /** The state of a scan that stands at `j` after the spans `done`: the marks written so far and the end
      marker remembered for "last". */
  ghost predicate Scanned(
    row: Row, bs: seq<RoleBoundary>, roles: set<string>, mode: EosMode,
    done: seq<Span>, j: nat, mask: seq<bool>, lastEnd: Option<(nat, nat)>)
  {
    j <= |row| == |mask|
    && Spans(row, bs, 0) == done + Spans(row, bs, j)
    && Marks(bs, roles, mode, done, mask)
    && lastEnd == (if mode == LastEnd then FinalEnd(bs, roles, done) else None)
  }

  lemma ScanStarts(row: Row, bs: seq<RoleBoundary>, roles: set<string>, mode: EosMode, mask: seq<bool>)
    requires |mask| == |row| && forall p :: 0 <= p < |row| ==> !mask[p]
    ensures Scanned(row, bs, roles, mode, [], 0, mask, None)
  {
  }

  lemma ScanSkips(
    row: Row, bs: seq<RoleBoundary>, roles: set<string>, mode: EosMode,
    done: seq<Span>, j: nat, mask: seq<bool>, lastEnd: Option<(nat, nat)>)
    requires j < |row| && Scanned(row, bs, roles, mode, done, j, mask, lastEnd) && Winner(row, bs, j) == -1
    ensures Scanned(row, bs, roles, mode, done, j + 1, mask, lastEnd)
  {
    SpansStep(row, bs, done, j);
  }

  /** Writing the winner's span, remembering its end marker, and resuming where it says. */
  lemma ScanAdvances(
    row: Row, bs: seq<RoleBoundary>, roles: set<string>, mode: EosMode,
    done: seq<Span>, j: nat, mask: seq<bool>, lastEnd: Option<(nat, nat)>, s: Span, mask': seq<bool>)
    requires j < |row| && Scanned(row, bs, roles, mode, done, j, mask, lastEnd)
    requires Winner(row, bs, j) != -1 && s == SpanAt(row, bs, j, Winner(row, bs, j))
    requires |mask'| == |mask|
    requires forall p :: 0 <= p < |mask| ==> mask'[p] == (mask[p] || SpanKeeps(bs, roles, mode, s, p))
    ensures j < Resume(bs, s) <= |row|
    ensures Scanned(row, bs, roles, mode, done + [s], Resume(bs, s), mask',
                    if Trained(bs, roles, s) && HasEnd(bs, s) && mode == LastEnd then Some((s.contentEnd, s.after))
                    else lastEnd)
  {
    SpansStep(row, bs, done, j);
    MarksSnoc(bs, roles, mode, done, s, mask, mask');
    assert (done + [s])[..|done|] == done;
  }

  /** At the end of the row the marks, with the remembered marker added in "last", are the role mask. */
  lemma ScanEnds(
    row: Row, bs: seq<RoleBoundary>, roles: set<string>, mode: EosMode,
    done: seq<Span>, mask: seq<bool>, lastEnd: Option<(nat, nat)>, mask': seq<bool>)
    requires Scanned(row, bs, roles, mode, done, |row|, mask, lastEnd) && |mask'| == |mask|
    requires forall p :: 0 <= p < |mask| ==>
               mask'[p] == (mask[p] || (lastEnd.Some? && lastEnd.value.0 <= p < lastEnd.value.1))
    ensures IsRowMask(row, bs, roles, mode, mask')
  {
    assert Spans(row, bs, 0) == done;
    if lastEnd.Some? {
      var k :| IsLastEnd(bs, roles, done, k) && lastEnd.value == (done[k].contentEnd, done[k].after);
      assert forall m :: IsLastEnd(bs, roles, done, m) ==> m == k;
    }
  }

  /** The remembered marker lies within the row. */
  lemma RememberedInRow(
    row: Row, bs: seq<RoleBoundary>, roles: set<string>, mode: EosMode,
    done: seq<Span>, j: nat, mask: seq<bool>, lastEnd: Option<(nat, nat)>)
    requires Scanned(row, bs, roles, mode, done, j, mask, lastEnd) && lastEnd.Some?
    ensures lastEnd.value.0 <= lastEnd.value.1 <= |row|
  {
    var k :| IsLastEnd(bs, roles, done, k) && lastEnd.value == (done[k].contentEnd, done[k].after);
    assert Spans(row, bs, 0)[k] == done[k];
  }

  // ---- what the scan guarantees whatever the boundaries are ----

  /** The spans of a row from `lo` on, in order: each one starts where the one before let the scan resume or
      later, and consumes at least its own start marker. */
  ghost predicate Ordered(bs: seq<RoleBoundary>, spans: seq<Span>, lo: nat, hi: nat)
  {
    Bounded(bs, spans)
    && (forall k :: 0 <= k < |spans| ==>
          lo <= spans[k].start < spans[k].content <= spans[k].contentEnd <= spans[k].after <= hi)
    && (forall k :: 0 <= k < |spans| ==> spans[k].content <= Resume(bs, spans[k]))
    && (forall k, m :: 0 <= k < m < |spans| ==> Resume(bs, spans[k]) <= spans[m].start)
  }

  lemma OrderedCons(bs: seq<RoleBoundary>, s: Span, rest: seq<Span>, hi: nat)
    requires s.boundary < |bs| && s.start < s.content <= s.contentEnd <= s.after <= hi
    requires Ordered(bs, rest, Resume(bs, s), hi)
    ensures Ordered(bs, [s] + rest, s.start, hi)
  {
    var all := [s] + rest;
    assert forall k :: 1 <= k < |all| ==> all[k] == rest[k - 1];
  }

  lemma OrderedNil(bs: seq<RoleBoundary>, lo: nat, hi: nat)
    ensures Ordered(bs, [], lo, hi)
  {
  }

  lemma OrderedLower(bs: seq<RoleBoundary>, spans: seq<Span>, lo: nat, lo': nat, hi: nat)
    requires lo' <= lo && Ordered(bs, spans, lo, hi)
    ensures Ordered(bs, spans, lo', hi)
  {
  }

  /** The spans the scan finds are ordered and what they consume is disjoint, also after a rewind. */
  lemma {:induction false} SpansOrdered(row: Row, bs: seq<RoleBoundary>, j: nat)
    requires j <= |row|
    ensures Ordered(bs, Spans(row, bs, j), j, |row|)
    decreases |row| - j
  {
    hide Ordered, Spans;
    SpansFrom(row, bs, j);
    hide Winner, StartsAt;
    if j == |row| {
      OrderedNil(bs, j, |row|);
    } else if Winner(row, bs, j) == -1 {
      SpansOrdered(row, bs, j + 1);
      OrderedLower(bs, Spans(row, bs, j + 1), j + 1, j, |row|);
    } else {
      var s := SpanAt(row, bs, j, Winner(row, bs, j));
      SpansOrdered(row, bs, Resume(bs, s));
      OrderedCons(bs, s, Spans(row, bs, Resume(bs, s)), |row|);
    }
  }

  /** The spans from `j` on: none at the end, those from the next position on, or the winner's and those after it. */
  lemma SpansFrom(row: Row, bs: seq<RoleBoundary>, j: nat)
    requires j <= |row|
    ensures j == |row| ==> Spans(row, bs, j) == []
    ensures j < |row| && Winner(row, bs, j) == -1 ==> Spans(row, bs, j) == Spans(row, bs, j + 1)
    ensures j < |row| && Winner(row, bs, j) != -1 ==>
              var s := SpanAt(row, bs, j, Winner(row, bs, j));
              j < Resume(bs, s) <= |row| && Spans(row, bs, j) == [s] + Spans(row, bs, Resume(bs, s))
  {
  }

  /** `q` lies inside one of the spans, its end marker included. */
  ghost predicate Covered(spans: seq<Span>, q: int) {
    exists m :: 0 <= m < |spans| && spans[m].start <= q < spans[m].after
  }

  lemma CoveredCons(s: Span, rest: seq<Span>, q: int)
    requires (s.start <= q < s.after) || Covered(rest, q)
    ensures Covered([s] + rest, q)
  {
    var all := [s] + rest;
    assert all[0] == s && forall m :: 0 <= m < |rest| ==> all[m + 1] == rest[m];
  }

  /** Nothing is skipped: a position where a start marker stands lies inside a span. */
  lemma {:induction false} NothingSkipped(row: Row, bs: seq<RoleBoundary>, j: nat, q: nat, k: nat)
    requires j <= q < |row| && StartsAt(row, bs, q, k)
    ensures Covered(Spans(row, bs, j), q)
    decreases |row| - j
  {
    hide Winner, Covered;
    if Winner(row, bs, j) == -1 {
      NothingSkipped(row, bs, j + 1, q, k);
    } else {
      var s := SpanAt(row, bs, j, Winner(row, bs, j));
      if s.after <= q {
        NothingSkipped(row, bs, Resume(bs, s), q, k);
      }
      CoveredCons(s, Spans(row, bs, Resume(bs, s)), q);
    }
  }

  /** Where the next span is looked for: at an end marker that is not included, else behind the span. */
  function From(bs: seq<RoleBoundary>, spans: seq<Span>, k: nat, j: nat): nat
    requires Bounded(bs, spans) && k <= |spans|
  {
    if k == 0 then j
    else
      var s := spans[k - 1];
      if s.closed && !bs[s.boundary].includeEnd then s.contentEnd else s.after
  }

  /** And there it is: no marker stands in between, the span starts with the winner, and after the last one no marker
      stands any more. So a marker that ends one span and is not included in it starts the next if it can. */
  lemma {:induction false} SpansAreGreedy(row: Row, bs: seq<RoleBoundary>, j: nat, k: nat)
    requires j <= |row| && k <= |Spans(row, bs, j)|
    ensures var spans := Spans(row, bs, j);
            var from := From(bs, spans, k, j);
            var next := if k < |spans| then spans[k].start else |row|;
            && from <= next
            && (forall p, b :: from <= p < next ==> !StartsAt(row, bs, p, b))
            && (k < |spans| ==> IsWinner(row, bs, next, spans[k].boundary))
    decreases |row| - j
  {
    hide Spans, Winner, SpanOf, From, Resume, MarkerAt;
    SpansFrom(row, bs, j);
    var spans := Spans(row, bs, j);
    FromFirst(bs, spans, j);
    if j < |row| {
      var w := Winner(row, bs, j);
      if w == -1 {
        SpansAreGreedy(row, bs, j + 1, k);
        FromFirst(bs, spans, j + 1);
        FromSame(bs, spans, k, j, j + 1);
      } else if k > 0 {
        var s := SpanAt(row, bs, j, w);
        var rest := Spans(row, bs, Resume(bs, s));
        SpansAreGreedy(row, bs, Resume(bs, s), k - 1);
        FromRest(bs, s, rest, k, j);
      }
    }
  }

  lemma FromFirst(bs: seq<RoleBoundary>, spans: seq<Span>, j: nat)
    requires Bounded(bs, spans)
    ensures From(bs, spans, 0, j) == j
  {
  }

  lemma FromSame(bs: seq<RoleBoundary>, spans: seq<Span>, k: nat, j: nat, j': nat)
    requires Bounded(bs, spans) && k <= |spans|
    ensures k > 0 ==> From(bs, spans, k, j) == From(bs, spans, k, j')
  {
  }

  lemma FromRest(bs: seq<RoleBoundary>, s: Span, rest: seq<Span>, k: nat, j: nat)
    requires Bounded(bs, [s] + rest) && s.boundary < |bs| && Bounded(bs, rest) && 0 < k <= |rest| + 1
    ensures From(bs, [s] + rest, k, j) == From(bs, rest, k - 1, Resume(bs, s))
  {
  }

  /** Two spans that could both keep a position are the same span, and it is not both body and end marker. */
  lemma RegionsDisjoint(bs: seq<RoleBoundary>, roles: set<string>, spans: seq<Span>, n: nat, k: nat, m: nat, p: int)
    requires Ordered(bs, spans, 0, n) && k < |spans| && m < |spans|
    requires InBody(bs, roles, spans[k], p) || InEnd(bs, spans[k], p)
    requires InBody(bs, roles, spans[m], p) || InEnd(bs, spans[m], p)
    ensures k == m
    ensures !(InBody(bs, roles, spans[k], p) && InEnd(bs, spans[k], p))
  {
  }

  /** What a mode says of a position inside an end marker is decided by that marker's own span. */
  lemma EndDecides(
    bs: seq<RoleBoundary>, roles: set<string>, mode: EosMode, spans: seq<Span>, n: nat, k: nat, p: int)
    requires Ordered(bs, spans, 0, n) && k < |spans| && InEnd(bs, spans[k], p)
    ensures Keeps(bs, roles, mode, spans, p)
            <==> (mode == AllEnds
                  || (mode == TurnEnds && Trained(bs, roles, spans[k]))
                  || (mode == LastEnd && IsLastEnd(bs, roles, spans, k)))
  {
    if m :| 0 <= m < |spans| && SpanKeeps(bs, roles, mode, spans[m], p) {
      RegionsDisjoint(bs, roles, spans, n, k, m, p);
    }
    if m :| IsLastEnd(bs, roles, spans, m) && InEnd(bs, spans[m], p) {
      RegionsDisjoint(bs, roles, spans, n, k, m, p);
    }
    assert (mode == AllEnds || (mode == TurnEnds && Trained(bs, roles, spans[k])))
      ==> SpanKeeps(bs, roles, mode, spans[k], p);
  }

  /** A position that a span consumes is kept by that span alone, if at all. */
  lemma KeptByOwner(
    bs: seq<RoleBoundary>, roles: set<string>, spans: seq<Span>, n: nat, k: nat, m: nat, p: int)
    requires Ordered(bs, spans, 0, n) && k < |spans| && m < |spans|
    requires spans[k].start <= p < Resume(bs, spans[k])
    requires InBody(bs, roles, spans[m], p) || InEnd(bs, spans[m], p)
    ensures k == m
  {
  }

  /** What is kept of a span, whatever the mode: its start marker when its role is trained and its boundary includes the
      start, its body when its role is trained. Of an end marker that is included, "all" keeps every one, "turn" those
      of trained roles, and "last" the one after which no trained span has one. */
  lemma KeptWithin(row: Row, bs: seq<RoleBoundary>, roles: set<string>, mode: EosMode, k: nat, p: int)
    requires k < |Spans(row, bs, 0)|
    ensures var spans := Spans(row, bs, 0);
            var s, b := spans[k], bs[spans[k].boundary];
            && (s.start <= p < s.content ==> (Kept(row, bs, roles, mode, p) <==> b.role in roles && b.includeStart))
            && (s.content <= p < s.contentEnd ==> (Kept(row, bs, roles, mode, p) <==> b.role in roles))
            && (s.contentEnd <= p < s.after && b.includeEnd ==>
                  (Kept(row, bs, roles, mode, p)
                   <==> mode == AllEnds
                        || (mode == TurnEnds && b.role in roles)
                        || (mode == LastEnd && b.role in roles
                            && forall m :: k < m < |spans| ==>
                                 var c := bs[spans[m].boundary];
                                 !(c.role in roles && spans[m].closed && c.includeEnd))))
  {
    var spans := Spans(row, bs, 0);
    SpansOrdered(row, bs, 0);
    var s := spans[k];
    if s.start <= p < s.contentEnd {
      KeptOfBody(bs, roles, mode, spans, |row|, k, p);
    } else if s.contentEnd <= p < s.after && bs[s.boundary].includeEnd {
      assert s.closed;
      EndDecides(bs, roles, mode, spans, |row|, k, p);
    }
  }

  lemma KeptOfBody(
    bs: seq<RoleBoundary>, roles: set<string>, mode: EosMode, spans: seq<Span>, n: nat, k: nat, p: int)
    requires Ordered(bs, spans, 0, n) && k < |spans| && spans[k].start <= p < spans[k].contentEnd
    ensures Keeps(bs, roles, mode, spans, p) <==> InBody(bs, roles, spans[k], p)
  {
    WithinConsumed(bs, spans, n, k);
    assert Bounded(bs, spans);
    hide Ordered;
    forall m | 0 <= m < |spans| && (InBody(bs, roles, spans[m], p) || InEnd(bs, spans[m], p))
      ensures k == m
    {
      KeptByOwner(bs, roles, spans, n, k, m, p);
    }
    if InBody(bs, roles, spans[k], p) {
      assert SpanKeeps(bs, roles, mode, spans[k], p);
    }
  }

  lemma WithinConsumed(bs: seq<RoleBoundary>, spans: seq<Span>, n: nat, k: nat)
    requires Ordered(bs, spans, 0, n) && k < |spans|
    ensures spans[k].contentEnd <= Resume(bs, spans[k])
  {
  }

  /** Nothing else is kept: neither outside the spans, nor in an end marker that is not included and starts no span. */
  lemma KeptOutside(row: Row, bs: seq<RoleBoundary>, roles: set<string>, mode: EosMode, p: int)
    requires var spans := Spans(row, bs, 0);
             forall k :: 0 <= k < |spans| ==>
               var s := spans[k];
               !(s.start <= p < s.contentEnd) && !(bs[s.boundary].includeEnd && s.contentEnd <= p < s.after)
    ensures !Kept(row, bs, roles, mode, p)
  {
    var spans := Spans(row, bs, 0);
    SpansOrdered(row, bs, 0);
    forall k | 0 <= k < |spans| ensures !InBody(bs, roles, spans[k], p) && !InEnd(bs, spans[k], p) {
      var s := spans[k];
      assert s.start < s.content <= s.contentEnd;
      assert !(s.start <= p < s.contentEnd);
    }
    assert forall k :: 0 <= k < |spans| ==> !SpanKeeps(bs, roles, mode, spans[k], p);
  }

  /** Outside the end markers all modes agree. */
  lemma ModesAgreeOutsideEnds(
    bs: seq<RoleBoundary>, roles: set<string>, mode: EosMode, spans: seq<Span>, p: int)
    requires Bounded(bs, spans) && forall k :: 0 <= k < |spans| ==> !InEnd(bs, spans[k], p)
    ensures Keeps(bs, roles, mode, spans, p) <==> Keeps(bs, roles, NoEnds, spans, p)
  {
    assert forall k :: 0 <= k < |spans| ==>
      (SpanKeeps(bs, roles, mode, spans[k], p) <==> SpanKeeps(bs, roles, NoEnds, spans[k], p));
  }

  /** none is within last, last within turn, turn within all; and each inclusion is exact: a position two
      modes disagree on lies in one end marker `k`, which "last" keeps only if it is the final trained one,
      "turn" only if its role is trained, and "none" never. */
  lemma MasksNested(row: Row, bs: seq<RoleBoundary>, roles: set<string>, p: int)
    ensures Kept(row, bs, roles, NoEnds, p) ==> Kept(row, bs, roles, LastEnd, p)
    ensures Kept(row, bs, roles, LastEnd, p) ==> Kept(row, bs, roles, TurnEnds, p)
    ensures Kept(row, bs, roles, TurnEnds, p) ==> Kept(row, bs, roles, AllEnds, p)
    ensures Kept(row, bs, roles, LastEnd, p) && !Kept(row, bs, roles, NoEnds, p)
            <==> exists k :: IsLastEnd(bs, roles, Spans(row, bs, 0), k) && InEnd(bs, Spans(row, bs, 0)[k], p)
    ensures Kept(row, bs, roles, AllEnds, p) && !Kept(row, bs, roles, TurnEnds, p)
            <==> exists k :: 0 <= k < |Spans(row, bs, 0)| && InEnd(bs, Spans(row, bs, 0)[k], p)
                             && !Trained(bs, roles, Spans(row, bs, 0)[k])
  {
    var spans := Spans(row, bs, 0);
    SpansOrdered(row, bs, 0);
    if k :| 0 <= k < |spans| && InEnd(bs, spans[k], p) {
      NestedInMarker(bs, roles, spans, |row|, k, p);
    } else {
      ModesAgreeOutsideEnds(bs, roles, LastEnd, spans, p);
      ModesAgreeOutsideEnds(bs, roles, TurnEnds, spans, p);
      ModesAgreeOutsideEnds(bs, roles, AllEnds, spans, p);
    }
  }

  lemma NestedInMarker(bs: seq<RoleBoundary>, roles: set<string>, spans: seq<Span>, n: nat, k: nat, p: int)
    requires Ordered(bs, spans, 0, n) && k < |spans| && InEnd(bs, spans[k], p)
    ensures !Keeps(bs, roles, NoEnds, spans, p)
    ensures Keeps(bs, roles, LastEnd, spans, p) <==> IsLastEnd(bs, roles, spans, k)
    ensures Keeps(bs, roles, TurnEnds, spans, p) <==> Trained(bs, roles, spans[k])
    ensures Keeps(bs, roles, AllEnds, spans, p)
    ensures forall m :: 0 <= m < |spans| && InEnd(bs, spans[m], p) ==> m == k
  {
    EndDecides(bs, roles, NoEnds, spans, n, k, p);
    EndDecides(bs, roles, LastEnd, spans, n, k, p);
    EndDecides(bs, roles, TurnEnds, spans, n, k, p);
    EndDecides(bs, roles, AllEnds, spans, n, k, p);
    forall m | 0 <= m < |spans| && InEnd(bs, spans[m], p) ensures m == k {
      RegionsDisjoint(bs, roles, spans, n, k, m, p);
    }
  }
}
