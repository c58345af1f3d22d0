/** The direct scanner: prefix matching at every position, a linear search for every end marker. */
module DirectScan {
  import opened Options
  import opened RoleMask

  method MatchPrefix(row: Row, startPos: nat, tokSeq: seq<int>) returns (r: bool)
    ensures r <==> MarkerAt(row, startPos, tokSeq)
  {
    if tokSeq == [] || startPos + |tokSeq| > |row| {
      return false;
    }
    return row[startPos..startPos + |tokSeq|] == tokSeq;
  }

  /** The position after the first end marker at or after `startPos`, and whether there is one. */
  method FindEnd(row: Row, startPos: nat, endTok: seq<int>) returns (endAfter: nat, found: bool)
    requires startPos <= |row|
    ensures !found ==> endAfter == |row| && forall q :: startPos <= q <= |row| ==> !MarkerAt(row, q, endTok)
    ensures found ==> startPos <= endAfter - |endTok| && MarkerAt(row, endAfter - |endTok|, endTok)
    ensures found ==> forall q :: startPos <= q < endAfter - |endTok| ==> !MarkerAt(row, q, endTok)
  {
    if endTok == [] {
      return |row|, false;
    }
    var k := startPos;
    while k < |row|
      invariant startPos <= k <= |row|
      invariant forall q :: startPos <= q < k ==> !MarkerAt(row, q, endTok)
    {
      var hit := MatchPrefix(row, k, endTok);
      if hit {
        return k + |endTok|, true;
      }
      k := k + 1;
    }
    return k, false;
  }

  /** The boundary with the longest matching start marker, the first listed among equals; -1 for none. */
  method BestMatch(row: Row, bs: seq<RoleBoundary>, j: nat) returns (best: int)
    ensures best == Winner(row, bs, j)
  {
    best := -1;
    for k := 0 to |bs|
      invariant best == WinnerAmong(row, bs, j, k)
    {
      var hit := MatchPrefix(row, j, bs[k].startTokens);
      if hit {
        if best == -1 || |bs[k].startTokens| > |bs[best].startTokens| {
          best := k;
        }
      }
    }
  }

  /** `mask[from:to] = 1`. */
  method Fill(mask: array<bool>, from: nat, to: nat)
    requires from <= to <= mask.Length
    modifies mask
    ensures forall p :: 0 <= p < mask.Length ==> mask[..][p] == (old(mask[..])[p] || from <= p < to)
  {
    forall p | from <= p < to {
      mask[p] := true;
    }
  }

  /** The writes of one span: start marker, body, end marker. */
  method MarkSpan(mask: array<bool>, bs: seq<RoleBoundary>, roles: set<string>, mode: EosMode, s: Span)
    requires s.boundary < |bs| && s.start <= s.content <= s.contentEnd <= s.after <= mask.Length
    modifies mask
    ensures forall p :: 0 <= p < mask.Length ==>
              mask[..][p] == (old(mask[..])[p] || SpanKeeps(bs, roles, mode, s, p))
  {
    var b := bs[s.boundary];
    if b.role in roles {
      if b.includeStart {
        Fill(mask, s.start, s.content);
      }
      Fill(mask, s.content, s.contentEnd);
      if s.closed && b.includeEnd && mode != NoEnds && mode != LastEnd {
        Fill(mask, s.contentEnd, s.after);
      }
    } else {
      if s.closed && b.includeEnd && mode == AllEnds {
        Fill(mask, s.contentEnd, s.after);
      }
    }
  }

  /** The span boundary `best` opens at `j`. */
  method FindSpan(row: Row, bs: seq<RoleBoundary>, j: nat, best: nat) returns (s: Span)
    requires StartsAt(row, bs, j, best)
    ensures s == SpanAt(row, bs, j, best)
  {
    var b := bs[best];
    var startOfContent := j + |b.startTokens|;
    var endAfter, found := FindEnd(row, startOfContent, b.endTokens);
    var contentEnd := if found then endAfter - |b.endTokens| else endAfter;
    s := Span(best, j, startOfContent, contentEnd, endAfter, found);
  }

  method ScanRow(mask: array<bool>, row: Row, bs: seq<RoleBoundary>, roles: set<string>, mode: EosMode)
    requires mask.Length == |row| && forall p :: 0 <= p < |row| ==> !mask[p]
    modifies mask
    ensures IsRowMask(row, bs, roles, mode, mask[..])
  {
    hide Scanned, Spans, Winner, SpanAt, SpanKeeps, IsRowMask;
    var lastTrainableEnd: Option<(nat, nat)> := None;
    var j, n := 0, |row|;
    ghost var done: seq<Span> := [];
    ScanStarts(row, bs, roles, mode, mask[..]);
    while j < n
      invariant 0 <= j <= n
      invariant Scanned(row, bs, roles, mode, done, j, mask[..], lastTrainableEnd)
      invariant lastTrainableEnd.Some? ==> mode == LastEnd
    {
      var best := BestMatch(row, bs, j);
      if best == -1 {
        ScanSkips(row, bs, roles, mode, done, j, mask[..], lastTrainableEnd);
        j := j + 1;
        continue;
      }
      var b := bs[best];
      var s := FindSpan(row, bs, j, best);
      ghost var before, remembered := mask[..], lastTrainableEnd;
      MarkSpan(mask, bs, roles, mode, s);
      ScanAdvances(row, bs, roles, mode, done, j, before, remembered, s, mask[..]);
      if b.role in roles && s.closed && b.includeEnd && mode == LastEnd {
        lastTrainableEnd := Some((s.contentEnd, s.after));
      }
      if s.closed && !b.includeEnd && b.endTokens != [] {
        j := s.after - |b.endTokens|;
      } else {
        j := s.after;
      }
      done := done + [s];
    }
    ghost var scanned := mask[..];
    if mode == LastEnd && lastTrainableEnd.Some? {
      RememberedInRow(row, bs, roles, mode, done, j, scanned, lastTrainableEnd);
      var (s, e) := lastTrainableEnd.value;
      Fill(mask, s, e);
    }
    ScanEnds(row, bs, roles, mode, done, scanned, lastTrainableEnd, mask[..]);
  }

  method ComputeRoleKeepMask(labels: seq<Row>, bs: seq<RoleBoundary>, roles: set<string>, mode: EosMode)
    returns (keep: seq<seq<bool>>)
    ensures IsKeepMask(labels, bs, roles, mode, keep)
  {
    keep := [];
    for i := 0 to |labels|
      invariant |keep| == i
      invariant forall k :: 0 <= k < i ==> IsRowMask(labels[k], bs, roles, mode, keep[k])
    {
      var mask := new bool[|labels[i]|](_ => false);
      ScanRow(mask, labels[i], bs, roles, mode);
      keep := keep + [mask[..]];
    }
  }
}
