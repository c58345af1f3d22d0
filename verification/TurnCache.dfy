/** The key-value cache that is kept between chat turns, and the token list that says what it encodes. */
module TurnCache {
  import opened Options

  type Token = int
  type Tokens = seq<Token>

  /** How a turn ends. `reply` and `encoded` say what the model had generated and how much of the prompt plus reply
      it had put into the cache by then. A reply that was interrupted and drained is a `Finished` one with fewer
      tokens. `WorkerError` is an error of the model, `Escaped` an interrupt that leaves the turn. The others are any
      other exception that leaves it: from rendering the prompt, before the cache is touched; `DisplayError` from then
      on, as out of the text callback; `ReplyError` once the tokens have been recorded, as from decoding the reply. */
  datatype Ending = Finished | WorkerError | Escaped | RenderError | DisplayError | ReplyError
  datatype Outcome = Outcome(ending: Ending, reply: Tokens, encoded: nat)

  /** One thing the session does: a turn over a rendered prompt, or clearing the conversation. `cropWorks` says whether
      the cache layers of this turn can be cropped. */
  datatype Event =
    | Turn(ids: Tokens, cropWorks: bool, outcome: Outcome)
    | Clear

  /** The cache (nothing before the first turn) as the tokens it encodes, and the recorded tokens. */
  datatype State = State(cache: Option<Tokens>, cachedIds: Tokens)

  const EMPTY := State(None, [])

  /** The cache encodes exactly the recorded tokens. */
  predicate InSync(s: State) {
    if s.cache.Some? then s.cache.value == s.cachedIds else s.cachedIds == []
  }

  /** The length of the longest common prefix. */
  method LongestCommonPrefixLen(a: Tokens, b: Tokens) returns (n: nat)
    ensures IsCommonPrefixLen(a, b, n)
  {
    var m := if |a| < |b| then |a| else |b|;
    for i := 0 to m
      invariant a[..i] == b[..i]
    {
      if a[i] != b[i] {
        return i;
      }
    }
    return m;
  }

  predicate IsCommonPrefixLen(a: Tokens, b: Tokens, n: nat) {
    n <= |a| && n <= |b| && a[..n] == b[..n] && (n < |a| && n < |b| ==> a[n] != b[n])
  }

  function CommonPrefixLen(a: Tokens, b: Tokens): (n: nat)
    ensures IsCommonPrefixLen(a, b, n)
  {
    if a == [] || b == [] || a[0] != b[0] then 0
    else
      var n := CommonPrefixLen(a[1..], b[1..]);
      assert a[..n + 1] == [a[0]] + a[1..][..n] && b[..n + 1] == [b[0]] + b[1..][..n];
      n + 1
  }

  lemma CommonPrefixUnique(a: Tokens, b: Tokens, n: nat)
    requires IsCommonPrefixLen(a, b, n)
    ensures n == CommonPrefixLen(a, b)
  {
    var m := CommonPrefixLen(a, b);
    assert forall k :: 0 <= k < m ==> a[k] == a[..m][k] && b[k] == b[..m][k];
    assert forall k :: 0 <= k < n ==> a[k] == a[..n][k] && b[k] == b[..n][k];
  }

  // ---- what one turn does to the state ----

  /** The prompt tokens worth keeping: the common prefix, but one token must be left for the model. */
  function Keep(s: State, ids: Tokens): int {
    var common := CommonPrefixLen(s.cachedIds, ids);
    if common < |ids| - 1 then common else |ids| - 1
  }

  function Prepared(s: State, ids: Tokens, cropWorks: bool): State {
    var keep := Keep(s, ids);
    if s.cache.None? || keep <= 0 then State(Some([]), [])
    else if keep < |s.cachedIds| then
      if !cropWorks then State(Some([]), [])
      else
        var cut := keep - |s.cachedIds|;
        State(Some(Crop(s.cache.value, cut)), s.cachedIds[..keep])
    else s
  }

  /** `cache.crop` with a negative argument drops that many tokens from the end. */
  function Crop(cache: Tokens, n: int): Tokens
    requires n <= 0
  {
    if |cache| + n >= 0 then cache[..|cache| + n] else []
  }

  /** The model feeds itself the prompt and its reply from where the cache ends, so the cache grows by the part of
      the sequence past its own length. */
  function Generated(cache: Tokens, ids: Tokens, reply: Tokens, encoded: nat): Tokens {
    var sequence := ids + reply;
    if |cache| <= encoded <= |sequence| then cache + sequence[|cache|..encoded] else cache
  }

  /** The generator's state when a turn ends: only a turn that gets to its reply records the tokens its cache encodes,
      and a worker error resets. */
  function AfterGenerating(s: State, ids: Tokens, cropWorks: bool, outcome: Outcome): State {
    var p := Prepared(s, ids, cropWorks);
    var cache, sequence := Generated(p.cache.value, ids, outcome.reply, outcome.encoded), ids + outcome.reply;
    match outcome.ending
    case Finished | ReplyError => State(Some(cache), if |cache| <= |sequence| then sequence[..|cache|] else sequence)
    case WorkerError => EMPTY
    case Escaped | DisplayError => State(Some(cache), p.cachedIds)
    case RenderError => s
  }

  /** What one event does to the session: the session loop resets after an escaped interrupt. */
  function Step(s: State, e: Event): State {
    match e
    case Turn(ids, cropWorks, outcome) =>
      if outcome.ending == Escaped then EMPTY else AfterGenerating(s, ids, cropWorks, outcome)
    case Clear => EMPTY
  }

  function Run(s: State, events: seq<Event>): State
    decreases |events|
  {
    if events == [] then s else Run(Step(s, events[0]), events[1..])
  }

  // ---- the generator and the session loop ----

  datatype TurnEnd = Returned(reused: nat) | Raised | Interrupted

  class CausalTurnGenerator {
    var cache: Option<Tokens>
    var cachedIds: Tokens

    function Now(): State
      reads this
    {
      State(cache, cachedIds)
    }

    constructor ()
      ensures Now() == EMPTY
    {
      cache, cachedIds := None, [];
    }

    method ResetCache()
      modifies this
      ensures Now() == EMPTY
    {
      cache, cachedIds := None, [];
    }

    /** Crops or resets the cache so that it holds a prefix of the prompt; returns the number of reused tokens. */
    method PrepareCache(ids: Tokens, cropWorks: bool) returns (reused: nat)
      modifies this
      ensures Now() == Prepared(old(Now()), ids, cropWorks) && reused == |cachedIds|
    {
      var common := LongestCommonPrefixLen(cachedIds, ids);
      CommonPrefixUnique(cachedIds, ids, common);
      var keep := if common < |ids| - 1 then common else |ids| - 1;
      if cache.None? || keep <= 0 {
        cache, cachedIds := Some([]), [];
        return 0;
      }
      if keep < |cachedIds| {
        if cropWorks {
          cache := Some(Crop(cache.value, keep - |cachedIds|));
          cachedIds := cachedIds[..keep];
        } else {
          cache, cachedIds := Some([]), [];
          return 0;
        }
      }
      return |cachedIds|;
    }

    /** One turn. The model extends the cache in place while it generates, whatever becomes of the turn. */
    method GenerateTurn(ids: Tokens, cropWorks: bool, outcome: Outcome) returns (end: TurnEnd)
      modifies this
      ensures Now() == AfterGenerating(old(Now()), ids, cropWorks, outcome)
      ensures match outcome.ending
              case Finished => end == Returned(|Prepared(old(Now()), ids, cropWorks).cachedIds|)
              case Escaped => end == Interrupted
              case _ => end == Raised
    {
      if outcome.ending == RenderError {
        return Raised;
      }
      var reused := PrepareCache(ids, cropWorks);
      cache := Some(Generated(cache.value, ids, outcome.reply, outcome.encoded));
      if outcome.ending == Escaped {
        return Interrupted;
      }
      if outcome.ending == DisplayError {
        return Raised;
      }
      if outcome.ending == WorkerError {
        ResetCache();
        return Raised;
      }
      var sequence := ids + outcome.reply;
      var n := |cache.value|;
      cachedIds := if n <= |sequence| then sequence[..n] else sequence;
      return if outcome.ending == Finished then Returned(reused) else Raised;
    }
  }

  class ChatRepl {
    const generator: CausalTurnGenerator

    constructor (generator: CausalTurnGenerator)
      ensures this.generator == generator
    {
      this.generator := generator;
    }

    method GenerateTurn(ids: Tokens, cropWorks: bool, outcome: Outcome)
      modifies generator
      ensures generator.Now() == Step(old(generator.Now()), Turn(ids, cropWorks, outcome))
    {
      var end := generator.GenerateTurn(ids, cropWorks, outcome);
      if end.Interrupted? {
        generator.ResetCache();
      }
    }

    method CmdNew()
      modifies generator
      ensures generator.Now() == Step(old(generator.Now()), Clear)
    {
      generator.ResetCache();
    }
  }

  /** A whole session. */
  method Session(events: seq<Event>) returns (final: State)
    ensures final == Run(EMPTY, events)
    ensures (forall k :: 0 <= k < |events| ==> !Displays(events[k])) ==> InSync(final)
  {
    var generator := new CausalTurnGenerator();
    var repl := new ChatRepl(generator);
    for i := 0 to |events|
      invariant Run(generator.Now(), events[i..]) == Run(EMPTY, events)
    {
      assert events[i..][0] == events[i] && events[i..][1..] == events[i + 1..];
      match events[i]
      case Turn(ids, cropWorks, outcome) => repl.GenerateTurn(ids, cropWorks, outcome);
      case Clear => repl.CmdNew();
    }
    if forall k :: 0 <= k < |events| ==> !Displays(events[k]) {
      RunKeepsSync(EMPTY, events);
    }
    return generator.Now();
  }

  // ---- what holds over every run ----

  /** Preparing keeps the cache in step with the recorded tokens, and for a non-empty prompt leaves a strict prefix
      of the prompt in it: as long as can be reused when nothing has to be cropped or cropping works. */
  lemma PreparedIsPrefix(s: State, ids: Tokens, cropWorks: bool)
    requires InSync(s)
    ensures var p := Prepared(s, ids, cropWorks);
            && p.cache.Some? && InSync(p)
            && (ids != [] ==> p.cachedIds < ids)
            && (s.cache.Some? && (cropWorks || Keep(s, ids) == |s.cachedIds|) && Keep(s, ids) >= 0 ==>
                  |p.cachedIds| == Keep(s, ids))
  {
    var p, keep := Prepared(s, ids, cropWorks), Keep(s, ids);
    var common := CommonPrefixLen(s.cachedIds, ids);
    if s.cache.Some? && keep > 0 {
      assert s.cachedIds[..keep] == s.cachedIds[..common][..keep] && ids[..keep] == ids[..common][..keep];
      assert keep == |s.cachedIds| ==> s.cachedIds[..keep] == s.cachedIds;
    }
  }

  /** How much is reused: the `n` tokens, fewer than the prompt has, of the longest prefix shared with the recorded
      ones; but nothing when that needs a crop that fails, before the first turn, and for an empty prompt. */
  lemma ReusedLength(s: State, ids: Tokens, cropWorks: bool, n: nat)
    requires InSync(s)
    requires ids != [] ==> n < |ids| && n <= |s.cachedIds| && s.cachedIds[..n] == ids[..n]
    requires forall m :: n < m < |ids| && m <= |s.cachedIds| ==> s.cachedIds[..m] != ids[..m]
    ensures var reused := if ids == [] || (n < |s.cachedIds| && !cropWorks) then [] else ids[..n];
            Prepared(s, ids, cropWorks) == State(Some(reused), reused)
  {
    var common := CommonPrefixLen(s.cachedIds, ids);
    if ids != [] {
      PrefixOfCommon(s.cachedIds, ids, common, n);
      var keep := Keep(s, ids);
      PrefixOfPrefix(s.cachedIds, ids, common, keep);
      assert keep == n;
    }
    assert s.cachedIds[..|s.cachedIds|] == s.cachedIds;
  }

  lemma PrefixOfPrefix(a: Tokens, b: Tokens, n: nat, m: nat)
    requires m <= n <= |a| && n <= |b| && a[..n] == b[..n]
    ensures a[..m] == b[..m]
  {
    assert a[..m] == a[..n][..m] && b[..m] == b[..n][..m];
  }

  lemma PrefixOfCommon(a: Tokens, b: Tokens, common: nat, n: nat)
    requires IsCommonPrefixLen(a, b, common) && n <= |a| && n <= |b| && a[..n] == b[..n]
    ensures n <= common
  {
    assert forall k :: 0 <= k < n ==> a[k] == a[..n][k] && b[k] == b[..n][k];
  }

  /** Clearing, an error of the model and an escaped interrupt lose the cache: whatever it was, the next prompt reuses
      nothing. */
  lemma NothingReused(s: State, e: Event, ids: Tokens, cropWorks: bool)
    requires e == Clear || (e.Turn? && e.outcome.ending in {WorkerError, Escaped})
    ensures Step(s, e) == State(None, [])
    ensures Prepared(Step(s, e), ids, cropWorks) == State(Some([]), [])
  {
  }

  /** A turn that gets to its reply records just what the model has put into the cache, at least what was reused. One
      that is left before still has that in its cache, but what was reused is recorded; one that never gets to the cache
      changes nothing. */
  lemma Recorded(s: State, ids: Tokens, cropWorks: bool, outcome: Outcome)
    requires InSync(s)
    ensures var reused := Prepared(s, ids, cropWorks).cachedIds;
            var sequence := ids + outcome.reply;
            var n := if |reused| <= outcome.encoded <= |sequence| then outcome.encoded else |reused|;
            var after := AfterGenerating(s, ids, cropWorks, outcome);
            && n <= |sequence|
            && (outcome.ending in {Finished, ReplyError} ==> after == State(Some(sequence[..n]), sequence[..n]))
            && (outcome.ending in {Escaped, DisplayError} ==> after == State(Some(sequence[..n]), reused))
            && (outcome.ending == RenderError ==> after == s)
            && (outcome.ending != Escaped ==> Step(s, Turn(ids, cropWorks, outcome)) == after)
  {
    GeneratedIsPrefix(s, ids, cropWorks, outcome.reply, outcome.encoded);
    PreparedIsPrefix(s, ids, cropWorks);
    hide Prepared;
  }

  /** The turn ended in an exception, between preparing the cache and recording the tokens, that the session loop
      reports without resetting. */
  predicate Displays(e: Event) {
    e.Turn? && e.outcome.ending == DisplayError
  }

  /** The cache of a prepared turn after generating: the first `encoded` tokens of prompt plus reply. */
  lemma GeneratedIsPrefix(s: State, ids: Tokens, cropWorks: bool, reply: Tokens, encoded: nat)
    requires InSync(s)
    ensures var p := Prepared(s, ids, cropWorks);
            var cache := Generated(p.cache.value, ids, reply, encoded);
            && |cache| <= |ids + reply| && cache == (ids + reply)[..|cache|]
            && (cache == p.cachedIds <==> !(|p.cachedIds| < encoded <= |ids + reply|))
  {
    PreparedIsPrefix(s, ids, cropWorks);
    var cache, sequence := Prepared(s, ids, cropWorks).cache.value, ids + reply;
    PrefixOfSequence(cache, ids, reply);
    if |cache| <= encoded <= |sequence| {
      assert cache + sequence[|cache|..encoded] == sequence[..encoded];
    }
  }

  lemma PrefixOfSequence(cache: Tokens, ids: Tokens, reply: Tokens)
    requires if ids != [] then cache < ids else cache == []
    ensures |cache| <= |ids + reply| && (ids + reply)[..|cache|] == cache
  {
  }

  /** Such an exception comes after the model has extended the cache. */
  predicate Outgrows(s: State, e: Event) {
    Displays(e) && |Prepared(s, e.ids, e.cropWorks).cachedIds| < e.outcome.encoded <= |e.ids + e.outcome.reply|
  }

  /** A turn or clear keeps the cache in step, except, exactly, one that outgrows the recorded tokens. */
  lemma StepSync(s: State, e: Event)
    requires InSync(s)
    ensures InSync(Step(s, e)) <==> !Outgrows(s, e)
  {
    match e
    case Clear =>
    case Turn(ids, cropWorks, outcome) =>
      hide Generated, Prepared;
      PreparedIsPrefix(s, ids, cropWorks);
      GeneratedIsPrefix(s, ids, cropWorks, outcome.reply, outcome.encoded);
  }

  /** Over every sequence of turns and clears, whatever the crops, worker errors and escaped interrupts, the cache is
      in step at every point, as long as nothing else was raised through a turn. */
  lemma {:induction false} RunKeepsSync(s: State, events: seq<Event>)
    requires InSync(s) && forall k :: 0 <= k < |events| ==> !Displays(events[k])
    ensures InSync(Run(s, events))
    decreases |events|
  {
    if events != [] {
      hide Step;
      assert !Displays(events[0]);
      StepSync(s, events[0]);
      RunKeepsSync(Step(s, events[0]), events[1..]);
    }
  }

  /** A session is in step at every point exactly when no event of it outgrows the recorded tokens. */
  lemma SessionSync(events: seq<Event>)
    ensures (forall k: nat :: k <= |events| ==> InSync(Run(EMPTY, events[..k])))
            <==> (forall k: nat :: k < |events| ==> !Outgrows(Run(EMPTY, events[..k]), events[k]))
  {
    hide Step, Run, Outgrows;
    if forall k: nat :: k <= |events| ==> InSync(Run(EMPTY, events[..k])) {
      forall k: nat | k < |events| ensures !Outgrows(Run(EMPTY, events[..k]), events[k]) {
        RunSnoc(EMPTY, events[..k], events[k]);
        assert events[..k + 1] == events[..k] + [events[k]];
        StepSync(Run(EMPTY, events[..k]), events[k]);
      }
    }
    if forall k: nat :: k < |events| ==> !Outgrows(Run(EMPTY, events[..k]), events[k]) {
      forall k: nat | k <= |events| ensures InSync(Run(EMPTY, events[..k])) {
        PrefixSync(events, k);
      }
    }
  }

  lemma {:induction false} PrefixSync(events: seq<Event>, k: nat)
    requires k <= |events| && forall j: nat :: j < k ==> !Outgrows(Run(EMPTY, events[..j]), events[j])
    ensures InSync(Run(EMPTY, events[..k]))
    decreases k
  {
    hide Step, Outgrows;
    if k > 0 {
      PrefixSync(events, k - 1);
      assert events[..k] == events[..k - 1] + [events[k - 1]];
      RunSnoc(EMPTY, events[..k - 1], events[k - 1]);
      StepSync(Run(EMPTY, events[..k - 1]), events[k - 1]);
    }
  }

  lemma {:induction false} RunSnoc(s: State, events: seq<Event>, e: Event)
    ensures Run(s, events + [e]) == Step(Run(s, events), e)
    decreases |events|
  {
    hide Step;
    if events == [] {
      assert [] + [e] == [e] && [e][1..] == [] && Run(Step(s, e), []) == Step(s, e);
    } else {
      assert (events + [e])[0] == events[0] && (events + [e])[1..] == events[1..] + [e];
      RunSnoc(Step(s, events[0]), events[1..], e);
    }
  }

  /** In every run, a turn over a non-empty prompt hands the model a cache that encodes a strict prefix of the prompt,
      of the reported length. */
  lemma EveryTurnReusesAPrefix(events: seq<Event>, ids: Tokens, cropWorks: bool)
    requires ids != [] && forall k :: 0 <= k < |events| ==> !Displays(events[k])
    ensures var p := Prepared(Run(EMPTY, events), ids, cropWorks);
            p.cache.Some? && p.cache.value < ids && p.cache.value == p.cachedIds
  {
    RunKeepsSync(EMPTY, events);
    PreparedIsPrefix(Run(EMPTY, events), ids, cropWorks);
  }

  /** After such an exception the next prompt that goes on from the recorded tokens is handed the unrecorded ones too:
      the cache is reused as it is, and is no prefix of the prompt unless the prompt happens to continue like it. */
  lemma StaleReuse(c: Tokens, ids: Tokens, cropWorks: bool, outcome: Outcome, next: Tokens)
    requires c != [] && c < ids && c < next && outcome.ending == DisplayError
    requires |c| < outcome.encoded <= |ids + outcome.reply|
    ensures var s := Step(State(Some(c), c), Turn(ids, cropWorks, outcome));
            Prepared(s, next, cropWorks) == State(Some((ids + outcome.reply)[..outcome.encoded]), c)
  {
    ExtensionIsKept(State(Some(c), c), ids, cropWorks);
    var cache := (ids + outcome.reply)[..outcome.encoded];
    assert c + (ids + outcome.reply)[|c|..outcome.encoded] == cache;
    ExtensionIsKept(State(Some(cache), c), next, cropWorks);
  }

  /** A prompt that properly extends the recorded tokens leaves the state as it is. */
  lemma ExtensionIsKept(s: State, ids: Tokens, cropWorks: bool)
    requires s.cache.Some? && s.cachedIds != [] && s.cachedIds < ids
    ensures Prepared(s, ids, cropWorks) == s
  {
    assert s.cachedIds[..|s.cachedIds|] == s.cachedIds == ids[..|s.cachedIds|];
    CommonPrefixUnique(s.cachedIds, ids, |s.cachedIds|);
  }

  /** For instance: a finished turn whose last token is not in the cache yet, then a turn that ends in such an
      exception. 4 and 5 stay in the cache that a prompt going on with 8 and 9 is given, and two tokens are reported as
      reused. */
  lemma StaleExample()
    ensures var first := Turn([1], true, Outcome(Finished, [2, 3], 2));
            var second := Turn([1, 2, 4], true, Outcome(DisplayError, [5, 6], 4));
            var s := Run(EMPTY, [first, second]);
            var p := Prepared(s, [1, 2, 8, 9], true);
            && InSync(Run(EMPTY, [first])) && !InSync(s)
            && p == State(Some([1, 2, 4, 5]), [1, 2]) && !(p.cache.value <= [1, 2, 8, 9])
  {
    hide Step, Prepared;
    var first := Turn([1], true, Outcome(Finished, [2, 3], 2));
    var second := Turn([1, 2, 4], true, Outcome(DisplayError, [5, 6], 4));
    RunTwo(EMPTY, first, second);
    FirstTurn();
    SecondTurn();
    assert [1, 2, 4, 5][2] != [1, 2, 8, 9][2];
  }

  lemma RunTwo(s: State, a: Event, b: Event)
    ensures Run(s, [a]) == Step(s, a) && Run(s, [a, b]) == Step(Step(s, a), b)
  {
    hide Step;
    assert [a, b][1..] == [b] && [b][1..] == [] && [a][1..] == [];
    assert Run(s, [a, b]) == Run(Step(s, a), [b]) == Run(Step(Step(s, a), b), []);
  }

  lemma FirstTurn()
    ensures Step(EMPTY, Turn([1], true, Outcome(Finished, [2, 3], 2))) == State(Some([1, 2]), [1, 2])
  {
    assert [1] + [2, 3] == [1, 2, 3] && [] + [1, 2, 3][0..2] == [1, 2] == [1, 2, 3][..2];
  }

  lemma SecondTurn()
    ensures var s := Step(State(Some([1, 2]), [1, 2]), Turn([1, 2, 4], true, Outcome(DisplayError, [5, 6], 4)));
            && s == State(Some([1, 2, 4, 5]), [1, 2])
            && Prepared(s, [1, 2, 8, 9], true) == s
  {
    ExtensionIsKept(State(Some([1, 2]), [1, 2]), [1, 2, 4], true);
    assert [1, 2, 4] + [5, 6] == [1, 2, 4, 5, 6] && [1, 2] + [1, 2, 4, 5, 6][2..4] == [1, 2, 4, 5];
    hide Prepared;
    ExtensionIsKept(State(Some([1, 2, 4, 5]), [1, 2]), [1, 2, 8, 9], true);
  }
}
