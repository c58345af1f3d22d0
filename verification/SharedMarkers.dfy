/** The template whose `[/INST]` both ends the user turn and starts the assistant turn, and what scanning its
    renderings keeps. */
module SharedMarkers {
  import opened Options
  import opened RoleMask

  datatype Markers = Markers(sysStart: int, sysEnd: int, instStart: int, instEnd: int, eos: int)
  datatype ChatTurn = ChatTurn(user: seq<int>, assistant: seq<int>)

  /** The built-in boundaries: the user turn leaves `[/INST]` for the assistant turn to start with. */
  function Boundaries(m: Markers): seq<RoleBoundary> {
    [RoleBoundary("system", [m.sysStart], [m.sysEnd], false, true),
     RoleBoundary("user", [m.instStart], [m.instEnd], false, false),
     RoleBoundary("assistant", [m.instEnd], [m.eos], false, true)]
  }

  /** The three start markers are different tokens. Nothing is asked of the two pure end markers. */
  predicate DistinctStarts(m: Markers) {
    m.sysStart != m.instStart && m.sysStart != m.instEnd && m.instStart != m.instEnd
  }

  predicate CleanTurns(m: Markers, turns: seq<ChatTurn>) {
    forall t :: 0 <= t < |turns| ==> m.instEnd !in turns[t].user && m.eos !in turns[t].assistant
  }

  function RenderTurn(m: Markers, t: ChatTurn): Row {
    [m.instStart] + t.user + [m.instEnd] + t.assistant + [m.eos]
  }

  function RenderTurns(m: Markers, turns: seq<ChatTurn>): Row {
    if turns == [] then [] else RenderTurn(m, turns[0]) + RenderTurns(m, turns[1..])
  }

  function RenderSystem(m: Markers, system: Option<seq<int>>): Row {
    if system.None? then [] else [m.sysStart] + system.value + [m.sysEnd]
  }

  function Render(m: Markers, system: Option<seq<int>>, turns: seq<ChatTurn>): Row {
    RenderSystem(m, system) + RenderTurns(m, turns)
  }

  /** One flag a token: true for the assistant bodies and their EOS, false for everything else. */
  function Flags(value: bool, n: nat): (r: seq<bool>)
    ensures |r| == n && forall k :: 0 <= k < n ==> r[k] == value
  {
    seq(n, _ => value)
  }

  function TurnFlags(t: ChatTurn): seq<bool> {
    Flags(false, |t.user| + 2) + Flags(true, |t.assistant| + 1)
  }

  function TurnsFlags(m: Markers, turns: seq<ChatTurn>): (r: seq<bool>)
    ensures |r| == |RenderTurns(m, turns)|
  {
    if turns == [] then [] else TurnFlags(turns[0]) + TurnsFlags(m, turns[1..])
  }

  function AssistantFlags(m: Markers, system: Option<seq<int>>, turns: seq<ChatTurn>): (r: seq<bool>)
    ensures |r| == |Render(m, system, turns)|
  {
    Flags(false, |RenderSystem(m, system)|) + TurnsFlags(m, turns)
  }

  // ---- the spans of a rendering ----

  /** The token at `j` decides the boundary: start markers are single, different tokens. */
  lemma TokenDecides(row: Row, m: Markers, j: nat, w: nat)
    requires w < 3 && DistinctStarts(m) && j < |row| && [row[j]] == Boundaries(m)[w].startTokens
    ensures Winner(row, Boundaries(m), j) == w
  {
    var bs := Boundaries(m);
    assert row[j..j + 1] == [row[j]];
    assert StartsAt(row, bs, j, w);
    forall k | StartsAt(row, bs, j, k) ensures k == w {
      assert bs[k].startTokens == [row[j]];
    }
    WinnerUnique(row, bs, j, w);
  }

  /** The first end token after the content start closes the span. */
  lemma TokenCloses(row: Row, bs: seq<RoleBoundary>, j: nat, w: nat, e: nat)
    requires StartsAt(row, bs, j, w) && |bs[w].startTokens| == 1 == |bs[w].endTokens|
    requires j < e < |row| && row[e] == bs[w].endTokens[0]
    requires forall q :: j < q < e ==> row[q] != bs[w].endTokens[0]
    ensures SpanAt(row, bs, j, w) == Span(w, j, j + 1, e, e + 1, true)
  {
    assert row[e..e + 1] == bs[w].endTokens;
    assert MarkerAt(row, e, bs[w].endTokens);
    forall q | j < q < e ensures !MarkerAt(row, q, bs[w].endTokens) {
      assert row[q..q + 1][0] == row[q];
    }
  }

  /** Where the token at `j` starts boundary `w` and its end token first follows after `body`, the scan opens
      exactly that span. */
  lemma BlockSpan(row: Row, m: Markers, j: nat, w: nat, body: seq<int>, rest: Row)
    requires w < 3 && DistinctStarts(m) && j <= |row|
    requires row[j..] == Boundaries(m)[w].startTokens + body + Boundaries(m)[w].endTokens + rest
    requires Boundaries(m)[w].endTokens[0] !in body
    ensures Winner(row, Boundaries(m), j) == w
    ensures SpanAt(row, Boundaries(m), j, w) == BlockAt(j, w, body)
  {
    hide Winner, SpanAt;
    var bs, block := Boundaries(m), row[j..];
    assert block[0] == bs[w].startTokens[0] && block[1 + |body|] == bs[w].endTokens[0];
    assert forall q :: 0 <= q < |block| ==> block[q] == row[j + q];
    TokenDecides(row, m, j, w);
    forall q | j < q < j + 1 + |body| ensures row[q] != bs[w].endTokens[0] {
      assert row[q] == block[q - j] && block[q - j] == body[q - j - 1];
    }
    TokenCloses(row, bs, j, w, j + 1 + |body|);
  }

  function BlockAt(j: nat, w: nat, body: seq<int>): Span {
    Span(w, j, j + 1, j + 1 + |body|, j + 2 + |body|, true)
  }

  /** The scan step over such a block, and what is left of the row after its body and after its end token. */
  lemma BlockStep(row: Row, m: Markers, j: nat, w: nat, body: seq<int>, rest: Row)
    requires w < 3 && DistinctStarts(m) && j <= |row|
    requires row[j..] == Boundaries(m)[w].startTokens + body + Boundaries(m)[w].endTokens + rest
    requires Boundaries(m)[w].endTokens[0] !in body
    ensures j + 2 + |body| <= |row|
    ensures row[j + 1 + |body|..] == Boundaries(m)[w].endTokens + rest && row[j + 2 + |body|..] == rest
    ensures Spans(row, Boundaries(m), j)
            == [BlockAt(j, w, body)] + Spans(row, Boundaries(m), Resume(Boundaries(m), BlockAt(j, w, body)))
  {
    BlockSpan(row, m, j, w, body, rest);
    assert row[j + 1 + |body|..] == row[j..][1 + |body|..];
    assert row[j + 2 + |body|..] == row[j..][2 + |body|..];
  }

  function UserSpan(j: nat, t: ChatTurn): Span {
    BlockAt(j, 1, t.user)
  }

  function AssistantSpan(j: nat, t: ChatTurn): Span {
    BlockAt(j + 1 + |t.user|, 2, t.assistant)
  }

  function TurnSpans(m: Markers, j: nat, turns: seq<ChatTurn>): seq<Span>
    decreases |turns|
  {
    if turns == [] then []
    else [UserSpan(j, turns[0]), AssistantSpan(j, turns[0])]
         + TurnSpans(m, j + |RenderTurn(m, turns[0])|, turns[1..])
  }

  /** The two spans of one turn: the user span stops short of `[/INST]`, the assistant span starts with it. */
  lemma OneTurn(row: Row, m: Markers, j: nat, t: ChatTurn, rest: Row)
    requires DistinctStarts(m) && m.instEnd !in t.user && m.eos !in t.assistant
    requires j <= |row| && row[j..] == RenderTurn(m, t) + rest
    ensures var j' := j + |RenderTurn(m, t)|;
            j' <= |row| && row[j'..] == rest
            && Spans(row, Boundaries(m), j) == [UserSpan(j, t), AssistantSpan(j, t)] + Spans(row, Boundaries(m), j')
  {
    hide *;
    var afterUser := t.assistant + [m.eos] + rest;
    TurnShape(m, j, t, rest);
    BlockStep(row, m, j, 1, t.user, afterUser);
    BlockStep(row, m, j + 1 + |t.user|, 2, t.assistant, rest);
    assert [UserSpan(j, t)] + ([AssistantSpan(j, t)] + Spans(row, Boundaries(m), j + |RenderTurn(m, t)|))
        == [UserSpan(j, t), AssistantSpan(j, t)] + Spans(row, Boundaries(m), j + |RenderTurn(m, t)|);
  }

  /** A rendered turn read as two blocks that share `[/INST]`, and where the scan resumes after each. */
  lemma TurnShape(m: Markers, j: nat, t: ChatTurn, rest: Row)
    ensures var bs, k, afterUser := Boundaries(m), j + 1 + |t.user|, t.assistant + [m.eos] + rest;
            && |bs| == 3 && bs[1].endTokens == [m.instEnd] && bs[2].endTokens == [m.eos]
            && RenderTurn(m, t) + rest == bs[1].startTokens + t.user + bs[1].endTokens + afterUser
            && bs[1].endTokens + afterUser == bs[2].startTokens + t.assistant + bs[2].endTokens + rest
            && UserSpan(j, t) == BlockAt(j, 1, t.user) && AssistantSpan(j, t) == BlockAt(k, 2, t.assistant)
            && Resume(bs, UserSpan(j, t)) == k
            && Resume(bs, AssistantSpan(j, t)) == j + |RenderTurn(m, t)| == k + 2 + |t.assistant|
  {
  }

  /** The first turn and the rest. */
  lemma FirstTurn(m: Markers, j: nat, turns: seq<ChatTurn>)
    requires turns != []
    ensures RenderTurns(m, turns) == RenderTurn(m, turns[0]) + RenderTurns(m, turns[1..])
    ensures TurnSpans(m, j, turns)
            == [UserSpan(j, turns[0]), AssistantSpan(j, turns[0])]
               + TurnSpans(m, j + |RenderTurn(m, turns[0])|, turns[1..])
  {
    hide RenderTurn, UserSpan, AssistantSpan;
  }

  lemma NoTurns(row: Row, m: Markers, j: nat)
    requires j <= |row| && row[j..] == RenderTurns(m, [])
    ensures Spans(row, Boundaries(m), j) == TurnSpans(m, j, []) == []
  {
    assert j == |row|;
  }

  lemma FirstTurnClean(m: Markers, turns: seq<ChatTurn>)
    requires turns != [] && CleanTurns(m, turns)
    ensures CleanTurns(m, turns[1..]) && m.instEnd !in turns[0].user && m.eos !in turns[0].assistant
  {
  }

  lemma {:induction false} AllTurns(row: Row, m: Markers, j: nat, turns: seq<ChatTurn>)
    requires DistinctStarts(m) && CleanTurns(m, turns)
    requires j <= |row| && row[j..] == RenderTurns(m, turns)
    ensures Spans(row, Boundaries(m), j) == TurnSpans(m, j, turns)
    decreases |turns|
  {
    hide *;
    if turns == [] {
      NoTurns(row, m, j);
    } else {
      FirstTurn(m, j, turns);
      FirstTurnClean(m, turns);
      OneTurn(row, m, j, turns[0], RenderTurns(m, turns[1..]));
      AllTurns(row, m, j + |RenderTurn(m, turns[0])|, turns[1..]);
    }
  }

  // ---- what the spans keep ----

  const TRAINED := {"assistant"}

  /** `p` is flagged when the flags are laid out from `j` on. */
  predicate Flagged(flags: seq<bool>, j: int, p: int) {
    j <= p < j + |flags| && flags[p - j]
  }

  lemma FlaggedConcat(a: seq<bool>, b: seq<bool>, j: int, p: int)
    ensures Flagged(a + b, j, p) <==> Flagged(a, j, p) || Flagged(b, j + |a|, p)
  {
  }

  /** The spans of one turn keep its assistant body and EOS. */
  lemma TurnKeeps(m: Markers, j: nat, t: ChatTurn, p: int)
    ensures !SpanKeeps(Boundaries(m), TRAINED, TurnEnds, UserSpan(j, t), p)
    ensures SpanKeeps(Boundaries(m), TRAINED, TurnEnds, AssistantSpan(j, t), p) <==> Flagged(TurnFlags(t), j, p)
    ensures |TurnFlags(t)| == |RenderTurn(m, t)|
    ensures UserSpan(j, t).boundary < |Boundaries(m)| && AssistantSpan(j, t).boundary < |Boundaries(m)|
  {
  }

  /** The spans of the turns keep exactly the flagged positions. */
  lemma {:induction false} TurnsKeep(m: Markers, j: nat, turns: seq<ChatTurn>, p: int)
    ensures Bounded(Boundaries(m), TurnSpans(m, j, turns))
    ensures AnyKeeps(Boundaries(m), TRAINED, TurnEnds, TurnSpans(m, j, turns), p)
            <==> Flagged(TurnsFlags(m, turns), j, p)
    decreases |turns|
  {
    hide *;
    if turns == [] {
      NoFlags(m, j, p);
    } else {
      var t, rest := turns[0], turns[1..];
      var u, a := UserSpan(j, t), AssistantSpan(j, t);
      var spans := TurnSpans(m, j + |RenderTurn(m, t)|, rest);
      FirstTurn(m, j, turns);
      FirstTurnFlags(m, turns);
      TurnsKeep(m, j + |RenderTurn(m, t)|, rest, p);
      TurnKeeps(m, j, t, p);
      FlaggedConcat(TurnFlags(t), TurnsFlags(m, rest), j, p);
      KeepsCons(Boundaries(m), TRAINED, TurnEnds, a, spans, p);
      KeepsCons(Boundaries(m), TRAINED, TurnEnds, u, [a] + spans, p);
      assert [u, a] + spans == [u] + ([a] + spans);
    }
  }

  lemma NoFlags(m: Markers, j: nat, p: int)
    ensures Bounded(Boundaries(m), TurnSpans(m, j, []))
    ensures !AnyKeeps(Boundaries(m), TRAINED, TurnEnds, TurnSpans(m, j, []), p)
    ensures !Flagged(TurnsFlags(m, []), j, p)
  {
  }

  lemma FirstTurnFlags(m: Markers, turns: seq<ChatTurn>)
    requires turns != []
    ensures TurnsFlags(m, turns) == TurnFlags(turns[0]) + TurnsFlags(m, turns[1..])
  {
    hide TurnFlags;
  }

  lemma KeepsCons(bs: seq<RoleBoundary>, roles: set<string>, mode: EosMode, s: Span, rest: seq<Span>, p: int)
    requires s.boundary < |bs| && Bounded(bs, rest)
    ensures Bounded(bs, [s] + rest)
    ensures AnyKeeps(bs, roles, mode, [s] + rest, p)
            <==> SpanKeeps(bs, roles, mode, s, p) || AnyKeeps(bs, roles, mode, rest, p)
  {
    var all := [s] + rest;
    assert all[0] == s;
    assert forall k :: 0 <= k < |rest| ==> all[k + 1] == rest[k];
  }

  /** Scanning inverts rendering: the default mask of a rendered conversation keeps every assistant body with its
      EOS, and nothing else, for any system block and any number of turns. */
  lemma ScanInvertsRendering(m: Markers, system: Option<seq<int>>, turns: seq<ChatTurn>)
    requires DistinctStarts(m) && CleanTurns(m, turns)
    requires system.Some? ==> m.sysEnd !in system.value
    ensures IsRowMask(Render(m, system, turns), Boundaries(m), TRAINED, TurnEnds, AssistantFlags(m, system, turns))
  {
    hide Spans, Kept, AnyKeeps, Boundaries;
    var row, bs := Render(m, system, turns), Boundaries(m);
    var flags := AssistantFlags(m, system, turns);
    forall p | 0 <= p < |row| ensures Kept(row, bs, TRAINED, TurnEnds, p) <==> flags[p] {
      RenderedKept(m, system, turns, p);
      TurnsKeep(m, |RenderSystem(m, system)|, turns, p);
    }
  }

  /** The system block keeps nothing: what is kept is what the spans of the turns keep. */
  lemma RenderedKept(m: Markers, system: Option<seq<int>>, turns: seq<ChatTurn>, p: int)
    requires DistinctStarts(m) && CleanTurns(m, turns)
    requires system.Some? ==> m.sysEnd !in system.value
    ensures var spans := TurnSpans(m, |RenderSystem(m, system)|, turns);
            Bounded(Boundaries(m), spans)
            && (Kept(Render(m, system, turns), Boundaries(m), TRAINED, TurnEnds, p)
                <==> AnyKeeps(Boundaries(m), TRAINED, TurnEnds, spans, p))
  {
    hide Spans, AnyKeeps;
    var row, bs, j := Render(m, system, turns), Boundaries(m), |RenderSystem(m, system)|;
    assert row[j..] == RenderTurns(m, turns);
    AllTurns(row, m, j, turns);
    var spans := TurnSpans(m, j, turns);
    TurnsKeep(m, j, turns, p);
    if system.Some? {
      var body := system.value;
      assert row[0..] == bs[0].startTokens + body + bs[0].endTokens + RenderTurns(m, turns);
      BlockStep(row, m, 0, 0, body, RenderTurns(m, turns));
      KeepsCons(bs, TRAINED, TurnEnds, BlockAt(0, 0, body), spans, p);
    }
  }
}
