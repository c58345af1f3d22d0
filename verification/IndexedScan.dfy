/** The indexed scanner: start winners and end positions are computed up front, and the scan looks them up. */
module IndexedScan {
  import opened Options
  import opened RoleMask
  import opened DirectScan
  import opened StableSort

  // ---- the order in which boundaries claim start positions ----

  /** Every boundary once, each one beating all that come after it. */
  ghost predicate LongestFirst(bs: seq<RoleBoundary>, order: seq<nat>) {
    (forall q :: 0 <= q < |order| ==> order[q] < |bs|)
    && (forall k :: 0 <= k < |bs| ==> k in order)
    && (forall p, q :: 0 <= p < q < |order| ==> Beats(bs, order[p], order[q]))
  }

  /** `indexed.sort(key=lambda ib: -len(ib[1].start_tokens))`: the boundary indices in that order. */
  function SortLongestFirst(bs: seq<RoleBoundary>): (order: seq<nat>)
    ensures LongestFirst(bs, order)
  {
    var keys := seq<int>(|bs|, k requires 0 <= k < |bs| => -|bs[k].startTokens|);
    ArgSort(keys)
  }

  // ---- start winners ----

  /** Where the marker matches, one entry per window of its length; no window fits when it is longer than the row. */
  function Windows(row: Row, tok: seq<int>): (w: seq<bool>)
    requires tok != []
    ensures |w| == if |tok| > |row| then 0 else |row| - |tok| + 1
    ensures forall p :: 0 <= p < |w| ==> (w[p] <==> MarkerAt(row, p, tok))
    ensures forall p :: |w| <= p ==> !MarkerAt(row, p, tok)
  {
    if |tok| > |row| then []
    else seq(|row| - |tok| + 1, p requires 0 <= p <= |row| - |tok| => row[p..p + |tok|] == tok)
  }

  /** The windows padded with misses, so that positions of the row index it. */
  function Padded(row: Row, tok: seq<int>): (m: seq<bool>)
    requires tok != []
    ensures |m| == |row| && forall p :: 0 <= p < |row| ==> (m[p] <==> MarkerAt(row, p, tok))
  {
    var w := Windows(row, tok);
    w + seq(|row| - |w|, _ => false)
  }

  /** The table after the boundaries `done` have claimed positions: `winner[j]` beats every one of them that
      matches at `j`, and `lens[j]` is the length of its start marker. */
  ghost predicate Claimed(
    row: Row, bs: seq<RoleBoundary>, done: seq<nat>, winner: seq<int>, lens: seq<nat>)
  {
    |winner| == |lens| == |row|
    && (forall q :: 0 <= q < |done| ==> done[q] < |bs|)
    && forall j :: 0 <= j < |row| ==> ClaimedAt(row, bs, done, j, winner[j], lens[j])
  }

  ghost predicate ClaimedAt(row: Row, bs: seq<RoleBoundary>, done: seq<nat>, j: nat, w: int, len: nat)
    requires forall q :: 0 <= q < |done| ==> done[q] < |bs|
  {
    if w == -1 then len == 0 && forall q :: 0 <= q < |done| ==> !StartsAt(row, bs, j, done[q])
    else
      w in done && StartsAt(row, bs, j, w) && len == |bs[w].startTokens|
      && forall q :: 0 <= q < |done| && StartsAt(row, bs, j, done[q]) && done[q] != w ==> Beats(bs, w, done[q])
  }

  /** One boundary claims the positions where it matches and is strictly longer than the claim so far. */
  method ClaimRow(
    row: Row, bs: seq<RoleBoundary>, ghost done: seq<nat>, k: nat, winner: seq<int>, lens: seq<nat>)
    returns (winner': seq<int>, lens': seq<nat>)
    requires k < |bs| && bs[k].startTokens != [] && Claimed(row, bs, done, winner, lens)
    requires forall q :: 0 <= q < |done| ==> Beats(bs, done[q], k)
    ensures Claimed(row, bs, done + [k], winner', lens')
  {
    var sLen := |bs[k].startTokens|;
    var startMask := Padded(row, bs[k].startTokens);
    winner' := seq(|row|, j requires 0 <= j < |row| => if startMask[j] && lens[j] < sLen then k else winner[j]);
    lens' := seq(|row|, j requires 0 <= j < |row| => if startMask[j] && lens[j] < sLen then sLen else lens[j]);
    forall j | 0 <= j < |row| ensures ClaimedAt(row, bs, done + [k], j, winner'[j], lens'[j]) {
      ClaimStep(row, bs, done, k, j, winner[j], lens[j]);
    }
  }

  lemma ClaimStep(row: Row, bs: seq<RoleBoundary>, done: seq<nat>, k: nat, j: nat, w: int, len: nat)
    requires k < |bs| && bs[k].startTokens != []
    requires forall q :: 0 <= q < |done| ==> done[q] < |bs| && Beats(bs, done[q], k)
    requires ClaimedAt(row, bs, done, j, w, len)
    ensures var update := StartsAt(row, bs, j, k) && len < |bs[k].startTokens|;
            ClaimedAt(row, bs, done + [k], j, if update then k else w, if update then |bs[k].startTokens| else len)
  {
    var done' := done + [k];
    assert forall q :: 0 <= q < |done| ==> done'[q] == done[q];
    assert done'[|done|] == k;
  }

  /** A boundary whose start marker is empty matches nowhere, so passing it over claims nothing. */
  lemma EmptyStartClaims(row: Row, bs: seq<RoleBoundary>, done: seq<nat>, k: nat, winner: seq<int>, lens: seq<nat>)
    requires k < |bs| && bs[k].startTokens == [] && Claimed(row, bs, done, winner, lens)
    ensures Claimed(row, bs, done + [k], winner, lens)
  {
    var done' := done + [k];
    forall j | 0 <= j < |row| ensures ClaimedAt(row, bs, done', j, winner[j], lens[j]) {
      assert ClaimedAt(row, bs, done, j, winner[j], lens[j]);
      assert forall q :: 0 <= q < |done'| ==> done'[q] == (if q == |done| then k else done[q]);
    }
  }

  lemma AllClaimed(row: Row, bs: seq<RoleBoundary>, order: seq<nat>, winner: seq<int>, lens: seq<nat>)
    requires LongestFirst(bs, order) && Claimed(row, bs, order, winner, lens)
    ensures IsWinnerTable(row, bs, winner)
  {
    forall j | 0 <= j < |row| ensures winner[j] == Winner(row, bs, j) {
      assert ClaimedAt(row, bs, order, j, winner[j], lens[j]);
      forall k | StartsAt(row, bs, j, k) ensures winner[j] != -1 && (k == winner[j] || Beats(bs, winner[j], k)) {
        assert k in order;
      }
      if winner[j] != -1 {
        WinnerUnique(row, bs, j, winner[j]);
      }
    }
  }

  ghost predicate IsWinnerTable(row: Row, bs: seq<RoleBoundary>, winner: seq<int>) {
    |winner| == |row| && forall j :: 0 <= j < |row| ==> winner[j] == Winner(row, bs, j)
  }

  // ---- end positions ----

  /** The positions where the marker matches, in increasing order. */
  ghost predicate IsPositions(row: Row, tok: seq<int>, positions: seq<nat>) {
    (forall a, b :: 0 <= a < b < |positions| ==> positions[a] < positions[b])
    && (forall a :: 0 <= a < |positions| ==> MarkerAt(row, positions[a], tok))
    && (forall c: nat :: MarkerAt(row, c, tok) ==> c in positions)
  }

  method EndPositions(row: Row, tok: seq<int>) returns (positions: seq<nat>)
    requires tok != []
    ensures IsPositions(row, tok, positions)
  {
    var w := Windows(row, tok);
    positions := [];
    for c := 0 to |w|
      invariant forall a, b :: 0 <= a < b < |positions| ==> positions[a] < positions[b]
      invariant forall a :: 0 <= a < |positions| ==> positions[a] < c && MarkerAt(row, positions[a], tok)
      invariant forall c': nat :: c' < c && MarkerAt(row, c', tok) ==> c' in positions
    {
      if w[c] {
        positions := positions + [c];
      }
    }
  }

  /** The insertion point of `x` that has every smaller entry before it and no smaller one after it. */
  method BisectLeft(positions: seq<nat>, x: nat) returns (idx: nat)
    requires forall a, b :: 0 <= a < b < |positions| ==> positions[a] < positions[b]
    ensures idx <= |positions|
    ensures forall a :: 0 <= a < idx ==> positions[a] < x
    ensures forall a :: idx <= a < |positions| ==> x <= positions[a]
  {
    var lo, hi := 0, |positions|;
    while lo < hi
      invariant 0 <= lo <= hi <= |positions|
      invariant forall a :: 0 <= a < lo ==> positions[a] < x
      invariant forall a :: hi <= a < |positions| ==> x <= positions[a]
    {
      var mid := (lo + hi) / 2;
      if positions[mid] < x {
        lo := mid + 1;
      } else {
        hi := mid;
      }
    }
    return lo;
  }

  /** The end positions of every boundary in one row; none are kept for a boundary that cannot win or whose
      span runs to the end of the row. */
  ghost predicate IsEndTable(row: Row, bs: seq<RoleBoundary>, ends: seq<Option<seq<nat>>>) {
    |ends| == |bs|
    && forall k :: 0 <= k < |bs| && bs[k].startTokens != [] && bs[k].endTokens != [] ==>
         ends[k].Some? && IsPositions(row, bs[k].endTokens, ends[k].value)
  }

  // ---- tables of one row and of the matrix ----

  method IndexRow(row: Row, bs: seq<RoleBoundary>, order: seq<nat>)
    returns (winner: seq<int>, ends: seq<Option<seq<nat>>>)
    requires LongestFirst(bs, order)
    ensures IsWinnerTable(row, bs, winner) && IsEndTable(row, bs, ends)
  {
    winner := seq(|row|, _ => -1);
    var lens: seq<nat> := seq(|row|, _ => 0);
    assert Claimed(row, bs, [], winner, lens);
    hide Claimed, IsPositions;
    ends := seq(|bs|, _ => None);
    for m := 0 to |order|
      invariant |ends| == |bs|
      invariant Claimed(row, bs, order[..m], winner, lens)
      invariant forall q :: 0 <= q < m && bs[order[q]].startTokens != [] && bs[order[q]].endTokens != [] ==>
                  ends[order[q]].Some? && IsPositions(row, bs[order[q]].endTokens, ends[order[q]].value)
    {
      var k := order[m];
      assert order[..m + 1] == order[..m] + [k];
      if bs[k].startTokens == [] {
        EmptyStartClaims(row, bs, order[..m], k, winner, lens);
        continue;
      }
      winner, lens := ClaimRow(row, bs, order[..m], k, winner, lens);
      if bs[k].endTokens != [] {
        var positions := EndPositions(row, bs[k].endTokens);
        ends := ends[k := Some(positions)];
      }
    }
    assert order[..|order|] == order;
    AllClaimed(row, bs, order, winner, lens);
    forall k | 0 <= k < |bs| && bs[k].startTokens != [] && bs[k].endTokens != []
      ensures ends[k].Some? && IsPositions(row, bs[k].endTokens, ends[k].value)
    {
      assert k in order;
    }
  }

  // ---- the scan ----

  /** The span boundary `w` opens at `j`, its end looked up by bisection. */
  method LookUpSpan(row: Row, bs: seq<RoleBoundary>, ends: seq<Option<seq<nat>>>, j: nat, w: nat) returns (s: Span)
    requires StartsAt(row, bs, j, w) && IsEndTable(row, bs, ends)
    ensures s == SpanAt(row, bs, j, w)
  {
    var n := |row|;
    var startOfContent := j + |bs[w].startTokens|;
    var eLen := |bs[w].endTokens|;
    if eLen == 0 {
      return Span(w, j, startOfContent, n, n, false);
    }
    var positions := ends[w].value;
    var limit := n - eLen;
    var idx := BisectLeft(positions, startOfContent);
    if idx < |positions| && positions[idx] <= limit {
      s := Span(w, j, startOfContent, positions[idx], positions[idx] + eLen, true);
    } else {
      s := Span(w, j, startOfContent, n, n, false);
    }
    SpanFromPositions(row, bs, j, w, positions, idx, s);
  }

  /** The first listed position at or after the content start is where the span closes. */
  lemma SpanFromPositions(
    row: Row, bs: seq<RoleBoundary>, j: nat, w: nat, positions: seq<nat>, idx: nat, s: Span)
    requires StartsAt(row, bs, j, w) && bs[w].endTokens != []
    requires IsPositions(row, bs[w].endTokens, positions)
    requires var content := j + |bs[w].startTokens|;
             && idx <= |positions|
             && (forall a :: 0 <= a < idx ==> positions[a] < content)
             && (forall a :: idx <= a < |positions| ==> content <= positions[a])
             && s == (if idx < |positions|
                      then Span(w, j, content, positions[idx], positions[idx] + |bs[w].endTokens|, true)
                      else Span(w, j, content, |row|, |row|, false))
    ensures s == SpanAt(row, bs, j, w)
  {
    var t := SpanAt(row, bs, j, w);
    var content := j + |bs[w].startTokens|;
    if t.closed {
      assert MarkerAt(row, t.contentEnd, bs[w].endTokens);
      var a :| 0 <= a < |positions| && positions[a] == t.contentEnd;
      assert idx <= a;
    }
  }

  /** The byte writes of one span, and the end marker to remember for "last" afterwards. */
  method WriteSpan(
    rowMask: array<bool>, bs: seq<RoleBoundary>, roles: set<string>, mode: EosMode, s: Span, last: Option<(nat, nat)>)
    returns (last': Option<(nat, nat)>)
    requires s.boundary < |bs| && s.start <= s.content <= s.contentEnd <= s.after <= rowMask.Length
    modifies rowMask
    ensures forall p :: 0 <= p < rowMask.Length ==>
              rowMask[..][p] == (old(rowMask[..])[p] || SpanKeeps(bs, roles, mode, s, p))
    ensures last' == if Trained(bs, roles, s) && HasEnd(bs, s) && mode == LastEnd then Some((s.contentEnd, s.after))
                     else last
  {
    var b := bs[s.boundary];
    var markerCounts := s.closed && b.includeEnd;
    last' := last;
    if b.role in roles {
      if b.includeStart {
        Fill(rowMask, s.start, s.content);
      }
      Fill(rowMask, s.content, s.contentEnd);
      if markerCounts && mode !in {NoEnds, LastEnd} {
        Fill(rowMask, s.contentEnd, s.after);
      }
      if markerCounts && mode == LastEnd {
        last' := Some((s.contentEnd, s.after));
      }
    } else if markerCounts && mode == AllEnds {
      Fill(rowMask, s.contentEnd, s.after);
    }
  }

  method ScanIndexedRow(
    rowMask: array<bool>, row: Row, winner: seq<int>, ends: seq<Option<seq<nat>>>,
    bs: seq<RoleBoundary>, roles: set<string>, mode: EosMode)
    requires rowMask.Length == |row| && forall p :: 0 <= p < |row| ==> !rowMask[p]
    requires IsWinnerTable(row, bs, winner) && IsEndTable(row, bs, ends)
    modifies rowMask
    ensures IsRowMask(row, bs, roles, mode, rowMask[..])
  {
    hide Scanned, Spans, Winner, SpanAt, SpanKeeps, IsRowMask, IsEndTable;
    var lastTrainableEnd: Option<(nat, nat)> := None;
    var j, n := 0, |row|;
    ghost var done: seq<Span> := [];
    ScanStarts(row, bs, roles, mode, rowMask[..]);
    while j < n
      invariant 0 <= j <= n
      invariant Scanned(row, bs, roles, mode, done, j, rowMask[..], lastTrainableEnd)
      invariant lastTrainableEnd.Some? ==> mode == LastEnd
    {
      var w := winner[j];
      if w == -1 {
        ScanSkips(row, bs, roles, mode, done, j, rowMask[..], lastTrainableEnd);
        j := j + 1;
        continue;
      }
      var b := bs[w];
      var s := LookUpSpan(row, bs, ends, j, w);
      ghost var before, remembered := rowMask[..], lastTrainableEnd;
      lastTrainableEnd := WriteSpan(rowMask, bs, roles, mode, s, lastTrainableEnd);
      ScanAdvances(row, bs, roles, mode, done, j, before, remembered, s, rowMask[..]);
      if s.closed && !b.includeEnd && b.endTokens != [] {
        j := s.after - |b.endTokens|;
      } else {
        j := s.after;
      }
      done := done + [s];
    }
    ghost var scanned := rowMask[..];
    if mode == LastEnd && lastTrainableEnd.Some? {
      RememberedInRow(row, bs, roles, mode, done, j, scanned, lastTrainableEnd);
      var (s, e) := lastTrainableEnd.value;
      Fill(rowMask, s, e);
    }
    ScanEnds(row, bs, roles, mode, done, scanned, lastTrainableEnd, rowMask[..]);
  }

  /** No boundary, no span: the mask is all zeros. */
  lemma {:induction false} NoBoundaryNoSpan(row: Row, j: nat)
    requires j <= |row|
    ensures Spans(row, [], j) == []
    decreases |row| - j
  {
    if j < |row| {
      NoBoundaryNoSpan(row, j + 1);
    }
  }

  lemma NoBoundaryKeepsNothing(row: Row, roles: set<string>, mode: EosMode)
    ensures forall p :: !Kept(row, [], roles, mode, p)
  {
    NoBoundaryNoSpan(row, 0);
    forall p ensures !Keeps([], roles, mode, [], p) {
    }
  }

  lemma ZerosAreTheMask(
    labels: seq<Row>, width: nat, bs: seq<RoleBoundary>, roles: set<string>, mode: EosMode, zeros: seq<seq<bool>>)
    requires Rectangular(labels, width) && (|labels| == 0 || width == 0 || bs == [])
    requires |zeros| == |labels| && forall i :: 0 <= i < |labels| ==> zeros[i] == seq(width, _ => false)
    ensures IsKeepMask(labels, bs, roles, mode, zeros)
  {
    hide Kept;
    forall i | 0 <= i < |labels| ensures IsRowMask(labels[i], bs, roles, mode, zeros[i]) {
      if bs == [] {
        NoBoundaryKeepsNothing(labels[i], roles, mode);
      }
    }
  }

  method ComputeRoleKeepMaskVectorized(
    labels: seq<Row>, width: nat, bs: seq<RoleBoundary>, roles: set<string>, mode: EosMode)
    returns (keep: seq<seq<bool>>)
    requires Rectangular(labels, width)
    ensures IsKeepMask(labels, bs, roles, mode, keep)
  {
    hide IsRowMask, IsWinnerTable, IsEndTable, LongestFirst;
    var zeros := seq(width, _ => false);
    if |labels| * width == 0 || bs == [] {
      keep := seq(|labels|, _ => zeros);
      ZerosAreTheMask(labels, width, bs, roles, mode, keep);
      return;
    }
    var order := SortLongestFirst(bs);
    keep := [];
    for i := 0 to |labels|
      invariant |keep| == i
      invariant forall k :: 0 <= k < i ==> IsRowMask(labels[k], bs, roles, mode, keep[k])
    {
      var winner, ends := IndexRow(labels[i], bs, order);
      var rowMask := new bool[width](_ => false);
      ScanIndexedRow(rowMask, labels[i], winner, ends, bs, roles, mode);
      var marks := rowMask[..];
      assert forall p :: 0 <= p < width ==> marks[p] in marks;
      if true !in marks {
        assert forall p :: 0 <= p < width ==> marks[p] == zeros[p];
        assert marks == zeros;
      }
      keep := keep + [if true in marks then marks else zeros];
    }
  }

  /** The strategy's keep mask. Which scanner runs depends on the thread count; what it returns does not. */
  method MaskNonAssistantKeep(
    labels: seq<Row>, width: nat, bs: seq<RoleBoundary>, roles: set<string>, mode: EosMode,
    trainOnInputs: bool, threads: nat)
    returns (keep: seq<seq<bool>>)
    requires Rectangular(labels, width)
    ensures trainOnInputs || bs == [] ==>
              |keep| == |labels| && forall i :: 0 <= i < |labels| ==> keep[i] == seq(width, _ => true)
    ensures !(trainOnInputs || bs == []) ==> IsKeepMask(labels, bs, roles, mode, keep)
  {
    if trainOnInputs || bs == [] {
      return seq(|labels|, _ => seq(width, _ => true));
    }
    if threads == 1 {
      keep := ComputeRoleKeepMaskVectorized(labels, width, bs, roles, mode);
    } else {
      keep := ComputeRoleKeepMask(labels, bs, roles, mode);
    }
  }

  /** Both scanners return the same matrix. */
  method ScannersAgree(
    labels: seq<Row>, width: nat, bs: seq<RoleBoundary>, roles: set<string>, mode: EosMode)
    returns (direct: seq<seq<bool>>, indexed: seq<seq<bool>>)
    requires Rectangular(labels, width)
    ensures direct == indexed && IsKeepMask(labels, bs, roles, mode, indexed)
  {
    direct := ComputeRoleKeepMask(labels, bs, roles, mode);
    indexed := ComputeRoleKeepMaskVectorized(labels, width, bs, roles, mode);
    KeepMaskUnique(labels, bs, roles, mode, direct, indexed);
  }
}
