/** The renderer that takes a leading thinking block out of streamed text. */
module ThinkRenderer {
  import opened Search
  import opened StreamText

  // ---- stripping ----

  /** What `str.lstrip()` strips: the Unicode white space characters of Python. */
  predicate IsSpace(c: char) {
    var n := c as int;
    9 <= n <= 13 || 28 <= n <= 32 || n == 133 || n == 160 || n == 5760 || 8192 <= n <= 8202
    || n == 8232 || n == 8233 || n == 8239 || n == 8287 || n == 12288
  }

  /** Length of the longest prefix of characters that satisfy `p`. */
  function Leading(text: string, p: char -> bool): (n: nat)
    ensures n <= |text| && (n < |text| ==> !p(text[n])) && forall k :: 0 <= k < n ==> p(text[k])
  {
    if text == "" || !p(text[0]) then 0 else 1 + Leading(text[1..], p)
  }

  function LStrip(text: string): string {
    text[Leading(text, IsSpace)..]
  }

  function Newlines(text: string): (n: nat)
    ensures n <= |text|
  {
    Leading(text, c => c == '\n')
  }

  /** All newlines at the start, and no more. */
  lemma NewlinesAre(text: string, n: nat)
    requires n <= |text| && (n < |text| ==> text[n] != '\n') && forall k :: 0 <= k < n ==> text[k] == '\n'
    ensures Newlines(text) == n
  {
  }

  /** Leading characters of a prefix: as many as the whole text has, or all of the prefix. */
  lemma LeadingOfPrefix(text: string, more: string, p: char -> bool)
    ensures Leading(text, p) == if Leading(text + more, p) < |text| then Leading(text + more, p) else |text|
  {
    assert forall k :: 0 <= k < |text| ==> (text + more)[k] == text[k];
  }

  // ---- what a text means ----

  /** The text starts, after white space, with the open marker. */
  predicate Led(text: string, open: string) {
    open <= LStrip(text)
  }

  /** What follows the open marker of a led text. */
  function Body(text: string, open: string): string
    requires Led(text, open)
  {
    LedFind(text, open);
    text[FirstFrom(text, 0, open) + |open|..]
  }

  /** In a led text the first open marker is the leading one; an empty marker is at the very start. */
  lemma LedFind(text: string, open: string)
    requires Led(text, open)
    ensures FirstFrom(text, 0, open) == if open == "" then 0 else Leading(text, IsSpace)
    ensures FirstFrom(text, 0, open) + |open| <= |text|
  {
    var w := Leading(text, IsSpace);
    if open == "" {
      assert text[0..0] == "";
    } else {
      assert LStrip(text)[..|open|] == open;
      PrefixAt(text, w, open);
      assert open[0] == LStrip(text)[0] == text[w];
      forall q | 0 <= q < w ensures !OccursAt(text, q, open) {
        HeadOfOccurrence(text, q, open);
      }
    }
  }

  lemma PrefixAt(text: string, w: nat, m: string)
    requires w <= |text| && m <= text[w..]
    ensures OccursAt(text, w, m)
  {
    assert text[w..][..|m|] == text[w..w + |m|];
  }

  /** The stages of rendering: nothing decided yet, inside the thinking block, or printing the reply. */
  datatype View = Waiting(fed: string) | Thinking(body: string) | Replying(think: string, shown: string)

  datatype Markers = Markers(open: string, close: string)

  /** A body whose close marker is there is split at the first one; newlines directly after it are dropped. */
  function AtClose(m: Markers, body: string): View {
    var k := FirstFrom(body, 0, m.close);
    if k <= |body| then
      var after := body[k + |m.close|..];
      Replying(body[..k], after[Newlines(after)..])
    else Thinking(body)
  }

  /** What a text that arrives all at once leads to. */
  function Decide(m: Markers, text: string): View {
    if Led(text, m.open) then AtClose(m, Body(text, m.open))
    else if LStrip(text) <= m.open then Waiting(text)
    else Replying("", text)
  }

  function FeedView(m: Markers, v: View, text: string): View {
    match v
    case Waiting(fed) => Decide(m, fed + text)
    case Thinking(body) => AtClose(m, body + text)
    case Replying(think, shown) => Replying(think, shown + text)
  }

  function FeedViews(m: Markers, v: View, chunks: seq<string>): View
    decreases |chunks|
  {
    if chunks == [] then v else FeedViews(m, FeedView(m, v, chunks[0]), chunks[1..])
  }

  /** The thinking text and the printed text once the turn is finished. */
  function Rendered(v: View): (string, string) {
    match v
    case Waiting(fed) => ("", fed)
    case Thinking(body) => (body, "")
    case Replying(think, shown) => (think, shown)
  }

  // ---- the renderer ----

  datatype Mode = DetectMode | ThinkMode | ReplyMode

  class ThinkStreamRenderer {
    const collapse: bool
    const markers: Markers
    var mode: Mode
    var pending: string
    var thinkText: string
    var printed: string
    ghost var view: View

    ghost predicate Valid()
      reads this
    {
      collapse ==>
        match view
        case Waiting(fed) => mode == DetectMode && pending == fed && thinkText == "" && printed == ""
        case Thinking(body) =>
          mode == ThinkMode && printed == "" && HeldBody(thinkText, pending, markers.close)
          && thinkText + pending == body && FirstFrom(body, 0, markers.close) > |body|
          && (pending == "" || pending < markers.close)
        case Replying(think, shown) => mode == ReplyMode && pending == "" && thinkText == think && printed == shown
    }

    constructor (collapse: bool, markers: Markers)
      ensures Valid() && view == Waiting("") && this.collapse == collapse && this.markers == markers
      ensures thinkText == "" && printed == ""
    {
      this.collapse, this.markers := collapse, markers;
      mode, pending, thinkText, printed := DetectMode, "", "", "";
      view := Waiting("");
    }

    method Feed(text: string)
      requires Valid()
      modifies this
      ensures Valid()
      ensures collapse ==> view == FeedView(markers, old(view), text)
      ensures !collapse ==> printed == old(printed) + text && thinkText == old(thinkText)
    {
      if !collapse {
        printed := printed + text;
        return;
      }
      ghost var before := pending;
      pending := pending + text;
      if view.Thinking? {
        HeldMore(thinkText, before, text, markers.close);
        assert view.body + text == thinkText + pending;
      }
      view := FeedView(markers, view, text);
      Process();
    }

    /** Runs the stages until the pending text is used up or has to wait. */
    method Process()
      requires collapse && Aimed()
      modifies this
      ensures Valid() && view == old(view)
    {
      hide Decide, AtClose, Led, LStrip, Body, FirstFrom, EndsWithStart, HeldBody, Newlines, Leading;
      while true
        invariant Aimed() && view == old(view)
        decreases match mode { case DetectMode => 2 case ThinkMode => 1 case ReplyMode => 0 }
      {
        if mode == DetectMode {
          var stripped := LStrip(pending);
          if markers.open <= stripped {
            DecideLed(markers, pending);
            BodyOf(pending, markers.open);
            var idx := FirstFrom(pending, 0, markers.open);
            pending := pending[idx + |markers.open|..];
            HeldNothing(pending, markers.close);
            mode := ThinkMode;
            continue;
          }
          DecideOther(markers, pending);
          if stripped == "" || stripped <= markers.open {
            return;
          }
          assert printed + pending == pending;
          mode := ReplyMode;
          continue;
        }
        if mode == ThinkMode {
          CloseCases(markers, thinkText, pending);
          var idx := FirstFrom(pending, 0, markers.close);
          if idx <= |pending| {
            thinkText := thinkText + pending[..idx];
            var after := pending[idx + |markers.close|..];
            pending := after[Newlines(after)..];
            assert printed + pending == pending;
            mode := ReplyMode;
            continue;
          }
          var keep := PartialSuffixLen(pending, markers.close);
          var emitUntil := |pending| - keep;
          HeldLess(thinkText, pending, markers.close, keep);
          AllOrStart(pending, markers.close, keep);
          thinkText := thinkText + pending[..emitUntil];
          pending := pending[emitUntil..];
          return;
        }
        assert pending == "" ==> printed + pending == printed;
        if pending != "" {
          printed := printed + pending;
          pending := "";
        }
        return;
      }
    }

    /** The pending text, handled from the present mode on, leads to `view`. */
    ghost predicate Aimed()
      reads this
    {
      match mode
      case DetectMode => thinkText == "" && printed == "" && view == Decide(markers, pending)
      case ThinkMode =>
        printed == "" && HeldBody(thinkText, pending, markers.close) && view == AtClose(markers, thinkText + pending)
      case ReplyMode => view == Replying(thinkText, printed + pending)
    }

    method Finish()
      requires Valid()
      modifies this
      ensures collapse ==> (thinkText, printed) == Rendered(old(view))
      ensures !collapse ==> thinkText == old(thinkText) && printed == old(printed)
    {
      if !collapse {
        return;
      }
      if mode == ThinkMode {
        thinkText := thinkText + pending;
        pending := "";
      } else if pending != "" {
        assert "" + pending == pending;
        printed := printed + pending;
        pending := "";
      }
    }
  }

  /** No close marker starts in the text taken so far, complete or partial. */
  ghost predicate HeldBody(taken: string, pending: string, close: string) {
    (forall q :: 0 <= q < |taken| ==> !OccursAt(taken + pending, q, close))
    && (forall k :: EndsWithStart(taken + pending, close, k) ==> k <= |pending|)
  }

  lemma HeldNothing(pending: string, close: string)
    ensures HeldBody("", pending, close) && "" + pending == pending
  {
  }

  /** What stays pending is nothing, or the start of a close marker. */
  lemma AllOrStart(pending: string, close: string, keep: nat)
    requires keep <= |pending| && (keep > 0 ==> EndsWithStart(pending, close, keep))
    ensures var held := pending[|pending| - keep..]; held == "" || held < close
  {
  }

  lemma HeldMore(taken: string, pending: string, text: string, close: string)
    requires HeldBody(taken, pending, close)
    requires FirstFrom(taken + pending, 0, close) > |taken + pending|
    ensures HeldBody(taken, pending + text, close)
    ensures taken + (pending + text) == (taken + pending) + text
  {
    var body := taken + pending;
    assert taken + (pending + text) == body + text;
    forall q | 0 <= q < |taken| ensures !OccursAt(body + text, q, close) {
      if OccursAt(body + text, q, close) {
        HoldBack(body, text, close, |pending|, q);
      }
    }
    forall k | EndsWithStart(body + text, close, k) ensures k <= |pending + text| {
      PartialMatchesHeld(body, text, close, |pending|, k);
    }
  }

  /** Taking all but the longest partial match keeps every possible close marker pending. */
  lemma HeldLess(taken: string, pending: string, close: string, keep: nat)
    requires HeldBody(taken, pending, close) && keep <= |pending|
    requires FirstFrom(taken + pending, 0, close) > |taken + pending|
    requires forall k :: EndsWithStart(pending, close, k) ==> k <= keep
    ensures var n := |pending| - keep;
            HeldBody(taken + pending[..n], pending[n..], close)
            && (taken + pending[..n]) + pending[n..] == taken + pending
  {
    var n, body := |pending| - keep, taken + pending;
    assert (taken + pending[..n]) + pending[n..] == body;
    forall k | EndsWithStart(body, close, k) ensures k <= keep {
      assert k <= |pending| && body[|body| - k..] == pending[|pending| - k..];
      assert EndsWithStart(pending, close, k);
    }
  }

  lemma DecideLed(m: Markers, text: string)
    requires m.open <= LStrip(text) || Led(text, m.open)
    ensures Led(text, m.open) && Decide(m, text) == AtClose(m, Body(text, m.open))
  {
    hide AtClose, Body;
  }

  lemma BodyOf(text: string, open: string)
    requires Led(text, open)
    ensures FirstFrom(text, 0, open) + |open| <= |text|
    ensures Body(text, open) == text[FirstFrom(text, 0, open) + |open|..]
  {
    hide FirstFrom;
    LedFind(text, open);
  }

  lemma DecideOther(m: Markers, text: string)
    requires !(m.open <= LStrip(text))
    ensures Decide(m, text) == if LStrip(text) <= m.open then Waiting(text) else Replying("", text)
  {
    hide AtClose, Body;
  }

  lemma FirstInPending(taken: string, pending: string, close: string)
    requires HeldBody(taken, pending, close)
    ensures FirstFrom(taken + pending, 0, close) == |taken| + FirstFrom(pending, 0, close)
  {
    var body := taken + pending;
    assert body[|taken|..] == pending;
    forall q | |taken| <= q ensures OccursAt(body, q, close) <==> OccursAt(pending, q - |taken|, close) {
      OccursInSuffix(body, |taken|, q, close);
    }
    var k := FirstFrom(pending, 0, close);
    assert k <= |pending| ==> OccursAt(body, |taken| + k, close);
  }

  /** The first close marker of the body is the first one of the pending text. */
  lemma CloseCases(m: Markers, taken: string, pending: string)
    requires HeldBody(taken, pending, m.close)
    ensures var k := FirstFrom(pending, 0, m.close);
            if k <= |pending| then
              k + |m.close| <= |pending|
              && var after := pending[k + |m.close|..];
                 AtClose(m, taken + pending) == Replying(taken + pending[..k], after[Newlines(after)..])
            else AtClose(m, taken + pending) == Thinking(taken + pending)
                 && FirstFrom(taken + pending, 0, m.close) > |taken + pending|
  {
    hide Newlines, HeldBody, FirstFrom;
    var k := FirstFrom(pending, 0, m.close);
    FirstInPending(taken, pending, m.close);
    if k <= |pending| {
      SplitBody(taken, pending, k, |m.close|);
    }
  }

  lemma SplitBody(taken: string, pending: string, k: nat, n: nat)
    requires k + n <= |pending|
    ensures (taken + pending)[..|taken| + k] == taken + pending[..k]
    ensures (taken + pending)[|taken| + k + n..] == pending[k + n..]
  {
  }

  // ---- every chunking against the whole text ----

  /** How much of the text has arrived with the first chunk that brings it to `need` characters. */
  function Arrived(fed: nat, chunks: seq<string>, need: nat): nat
    decreases |chunks|
  {
    if chunks == [] then fed
    else if fed + |chunks[0]| >= need then fed + |chunks[0]|
    else Arrived(fed + |chunks[0]|, chunks[1..], need)
  }

  /** All that comes with chunk `j`, the first one to bring the text to `need` characters. */
  lemma {:induction false} ArrivedWith(fed: nat, chunks: seq<string>, need: nat, j: nat)
    requires 0 < j <= |chunks| && need <= fed + |Flatten(chunks[..j])|
    requires forall i :: 0 < i < j ==> fed + |Flatten(chunks[..i])| < need
    ensures Arrived(fed, chunks, need) == fed + |Flatten(chunks[..j])|
    decreases |chunks|
  {
    assert chunks[..1] == [chunks[0]] && Flatten(chunks[..1]) == chunks[0] + Flatten(chunks[..1][1..]);
    assert Flatten(chunks[..1]) == chunks[0] + "";
    if j > 1 {
      var rest := chunks[1..];
      forall i | 0 < i < j ensures |Flatten(chunks[..i + 1])| == |chunks[0]| + |Flatten(rest[..i])| {
        assert chunks[..i + 1][1..] == rest[..i];
      }
      forall i | 0 < i < j - 1 ensures fed + |chunks[0]| + |Flatten(rest[..i])| < need {
        assert fed + |Flatten(chunks[..i + 1])| < need;
      }
      ArrivedWith(fed + |chunks[0]|, rest, need, j - 1);
    }
  }

  /** The rendering of a text. A text that is not led is printed verbatim. Of a led text, what lies between the open
      marker and the first close marker (or the end) is the thinking text, and what follows the close marker is
      printed, less those of its leading newlines that had arrived together with the close marker. */
  ghost predicate RendersAs(
    m: Markers, text: string, fed: nat, chunks: seq<string>, think: string, printed: string)
  {
    if !Led(text, m.open) then think == "" && printed == text
    else
      var start := FirstFrom(text, 0, m.open) + |m.open|;
      start <= |text|
      && var close := FirstFrom(text, start, m.close);
         if close > |text| then think == text[start..] && printed == ""
         else
           var end := close + |m.close|;
           var arrived := Arrived(fed, chunks, end);
           end <= arrived <= |text|
           && think == text[start..close]
           && printed == text[end..][Newlines(text[end..arrived])..]
  }

  // White space and markers of a prefix of the text.

  lemma LStripOfPrefix(t: string, rest: string)
    ensures if LStrip(t) != ""
            then LStrip(t + rest) == LStrip(t) + rest && Leading(t + rest, IsSpace) == Leading(t, IsSpace)
            else Leading(t + rest, IsSpace) >= |t|
  {
    LeadingOfPrefix(t, rest, IsSpace);
  }

  lemma LedPrefix(open: string, t: string, rest: string)
    ensures Led(t, open) ==>
              Led(t + rest, open) && FirstFrom(t + rest, 0, open) == FirstFrom(t, 0, open)
              && Body(t + rest, open) == Body(t, open) + rest
    ensures Led(t + rest, open) && FirstFrom(t + rest, 0, open) + |open| <= |t| ==> Led(t, open)
    ensures Led(t + rest, open) && !Led(t, open) ==> LStrip(t) <= open
  {
    hide FirstFrom, LStrip, Leading;
    LStripOfPrefix(t, rest);
    LStripPart(t);
    if Led(t, open) {
      LedExtends(open, t, rest);
    }
    if Led(t + rest, open) && open != "" {
      LedFind(t + rest, open);
      LedShrinks(open, LStrip(t), rest, LStrip(t + rest));
    }
    EmptyOpen(t, open);
  }

  lemma EmptyOpen(t: string, open: string)
    ensures open == "" ==> Led(t, open)
  {
  }

  lemma LStripPart(t: string)
    ensures |LStrip(t)| == |t| - Leading(t, IsSpace)
  {
  }

  /** Of two prefixes of a text the shorter is a prefix of the longer. */
  lemma LedShrinks(open: string, a: string, rest: string, b: string)
    requires open <= b && (a != "" ==> b == a + rest)
    ensures a <= open || open <= a
    ensures a != "" && |open| <= |a| ==> open <= a
  {
    if a != "" {
      assert forall k :: 0 <= k < |a| ==> b[k] == a[k];
    }
  }

  lemma LedExtends(open: string, t: string, rest: string)
    requires Led(t, open)
    ensures Led(t + rest, open) && FirstFrom(t + rest, 0, open) == FirstFrom(t, 0, open)
    ensures Body(t + rest, open) == Body(t, open) + rest
  {
    hide FirstFrom, Leading;
    LStripOfPrefix(t, rest);
    EmptyOpen(t + rest, open);
    assert open != "" ==> LStrip(t) != "" && open <= LStrip(t) + rest;
    LedFind(t, open);
    LedFind(t + rest, open);
    BodyOf(t, open);
    BodyOf(t + rest, open);
  }

  lemma FirstOfPrefix(t: string, rest: string, from: nat, m: string)
    requires from <= |t|
    ensures FirstFrom(t, from, m) <= |t| || FirstFrom(t + rest, from, m) + |m| <= |t| ==>
              FirstFrom(t + rest, from, m) == FirstFrom(t, from, m) <= |t| - |m|
  {
    var a, b := FirstFrom(t, from, m), FirstFrom(t + rest, from, m);
    assert (t + rest)[..|t|] == t;
    OccursInPrefix(t + rest, |t|, a, m);
    OccursInPrefix(t + rest, |t|, b, m);
  }

  lemma FirstOfSuffix(t: string, n: nat, m: string)
    requires n <= |t|
    ensures FirstFrom(t, n, m) == n + FirstFrom(t[n..], 0, m)
  {
    forall q | n <= q ensures OccursAt(t, q, m) <==> OccursAt(t[n..], q - n, m) {
      OccursInSuffix(t, n, q, m);
    }
    var k := FirstFrom(t[n..], 0, m);
    assert k <= |t[n..]| ==> OccursAt(t, n + k, m);
  }

  /** Feeding a chunk to an undecided stream is deciding on the longer text. */
  lemma FeedDecides(m: Markers, t: string, c: string)
    requires !Decide(m, t).Replying?
    ensures FeedView(m, Decide(m, t), c) == Decide(m, t + c)
  {
    hide Led, Body, AtClose, LStrip;
    LedPrefix(m.open, t, c);
    if Led(t, m.open) {
      AtCloseWaits(m, Body(t, m.open));
    }
  }

  lemma AtCloseWaits(m: Markers, body: string)
    ensures AtClose(m, body).Thinking? ==> AtClose(m, body) == Thinking(body)
    ensures !AtClose(m, body).Waiting?
  {
  }

  /** A text in which the close marker is complete is decided. */
  lemma CloseDecides(m: Markers, t: string, rest: string)
    requires Led(t + rest, m.open) && FirstFrom(t + rest, 0, m.open) + |m.open| <= |t|
    requires FirstFrom(t + rest, FirstFrom(t + rest, 0, m.open) + |m.open|, m.close) + |m.close| <= |t|
    ensures Decide(m, t).Replying?
  {
    hide FirstFrom, Newlines, LStrip, Led;
    LedPrefix(m.open, t, rest);
    var start := FirstFrom(t, 0, m.open) + |m.open|;
    LedExtends(m.open, t, rest);
    FirstOfPrefix(t, rest, start, m.close);
    BodyOf(t, m.open);
    FirstOfSuffix(t, start, m.close);
  }

  /** The rendering of a text that is still undecided at its end. */
  lemma UndecidedRendering(m: Markers, text: string, fed: nat)
    requires !Decide(m, text).Replying?
    ensures var (think, printed) := Rendered(Decide(m, text)); RendersAs(m, text, fed, [], think, printed)
  {
    hide FirstFrom, LStrip, Newlines, Arrived;
    if Led(text, m.open) {
      BodyOf(text, m.open);
      FirstOfSuffix(text, FirstFrom(text, 0, m.open) + |m.open|, m.close);
    }
  }

  /** A led text with a complete close marker, cut up. */
  lemma DecidedParts(m: Markers, t: string, start: nat, close: nat)
    requires Led(t, m.open) && Decide(m, t).Replying?
    requires start == FirstFrom(t, 0, m.open) + |m.open| && start <= |t| && close == FirstFrom(t, start, m.close)
    ensures start <= close && close + |m.close| <= |t|
    ensures var after := t[close + |m.close|..];
            Decide(m, t) == Replying(t[start..close], after[Newlines(after)..])
  {
    hide LStrip, Newlines, Led, FirstFrom, Decide, AtClose, Body;
    BodyOf(t, m.open);
    DecideLed(m, t);
    FirstOfSuffix(t, start, m.close);
    CloseFits(m, t[start..]);
    AtCloseParts(m, t[start..], close - start);
    SplitBehind(t, start, close - start, |m.close|);
  }

  lemma CloseFits(m: Markers, body: string)
    requires AtClose(m, body).Replying?
    ensures FirstFrom(body, 0, m.close) + |m.close| <= |body|
  {
    hide Newlines, FirstFrom;
    FirstFits(body, m.close);
  }

  lemma AtCloseParts(m: Markers, body: string, k: nat)
    requires k == FirstFrom(body, 0, m.close) && k + |m.close| <= |body|
    ensures var after := body[k + |m.close|..];
            AtClose(m, body) == Replying(body[..k], after[Newlines(after)..])
  {
    hide Newlines, FirstFrom;
  }

  lemma SplitBehind(t: string, start: nat, k: nat, n: nat)
    requires start + k + n <= |t|
    ensures t[start..][..k] == t[start..start + k] && t[start..][k + n..] == t[start + k + n..]
  {
  }

  lemma FirstFits(text: string, m: string)
    ensures FirstFrom(text, 0, m) <= |text| ==> FirstFrom(text, 0, m) + |m| <= |text|
  {
  }

  /** The rendering of a text that is decided once `t` has arrived; `rest` is printed as it comes. */
  lemma DecidedRendering(m: Markers, fed: nat, c: string, t: string, chunks: seq<string>)
    requires Decide(m, t).Replying? && fed + |c| == |t|
    ensures var rest := Flatten(chunks);
            var v := Decide(m, t);
            RendersAs(m, t + rest, fed, [c] + chunks, v.think, v.shown + rest)
  {
    var rest := Flatten(chunks);
    LedPrefix(m.open, t, rest);
    if Led(t, m.open) {
      LedRendering(m, fed, c, t, chunks);
    } else {
      NotLedRendering(m, t);
    }
  }

  lemma NotLedRendering(m: Markers, t: string)
    requires !Led(t, m.open) && Decide(m, t).Replying?
    ensures Decide(m, t) == Replying("", t) && !(LStrip(t) <= m.open)
  {
  }

  lemma LedRendering(m: Markers, fed: nat, c: string, t: string, chunks: seq<string>)
    requires Led(t, m.open) && Decide(m, t).Replying? && fed + |c| == |t|
    ensures var rest := Flatten(chunks);
            var v := Decide(m, t);
            RendersAs(m, t + rest, fed, [c] + chunks, v.think, v.shown + rest)
  {
    hide FirstFrom, LStrip, Newlines, Led, Decide, Flatten;
    var rest := Flatten(chunks);
    LedExtends(m.open, t, rest);
    FirstFromBound(t, 0, m.open);
    BodyOf(t, m.open);
    var start := FirstFrom(t, 0, m.open) + |m.open|;
    var close := FirstFrom(t, start, m.close);
    var end := close + |m.close|;
    DecidedParts(m, t, start, close);
    FirstOfPrefix(t, rest, start, m.close);
    assert Arrived(fed, [c] + chunks, end) == |t|;
    ReplyTexts(t, rest, start, close, end);
  }

  lemma ReplyTexts(t: string, rest: string, start: nat, close: nat, end: nat)
    requires start <= close <= end <= |t|
    ensures t[start..close] == (t + rest)[start..close]
    ensures t[end..] == (t + rest)[end..|t|]
    ensures (t + rest)[end..] == t[end..] + rest
    ensures forall n :: 0 <= n <= |t| - end ==> t[end..][n..] + rest == (t + rest)[end..][n..]
  {
  }

  lemma {:induction false} RepliesAppend(m: Markers, think: string, shown: string, chunks: seq<string>)
    ensures FeedViews(m, Replying(think, shown), chunks) == Replying(think, shown + Flatten(chunks))
    decreases |chunks|
  {
    if chunks == [] {
      assert shown + "" == shown;
    } else {
      RepliesAppend(m, think, shown + chunks[0], chunks[1..]);
      assert (shown + chunks[0]) + Flatten(chunks[1..]) == shown + Flatten(chunks);
    }
  }

  lemma {:induction false} UndecidedRun(m: Markers, t: string, chunks: seq<string>)
    requires !Decide(m, t).Replying?
    ensures var (think, printed) := Rendered(FeedViews(m, Decide(m, t), chunks));
            RendersAs(m, t + Flatten(chunks), |t|, chunks, think, printed)
    decreases |chunks|
  {
    hide Decide, RendersAs, Arrived;
    if chunks == [] {
      assert t + "" == t;
      UndecidedRendering(m, t, |t|);
    } else {
      FeedDecides(m, t, chunks[0]);
      DecidedRun(m, |t|, t + chunks[0], chunks);
      assert (t + chunks[0]) + Flatten(chunks[1..]) == t + Flatten(chunks);
    }
  }

  /** From the first chunk on, with the text decided or not. */
  lemma {:induction false} DecidedRun(m: Markers, fed: nat, t: string, chunks: seq<string>)
    requires chunks != [] && fed + |chunks[0]| == |t|
    ensures var (think, printed) := Rendered(FeedViews(m, Decide(m, t), chunks[1..]));
            RendersAs(m, t + Flatten(chunks[1..]), fed, chunks, think, printed)
    decreases |chunks|, 0
  {
    hide Decide, RendersAs;
    var v, rest := Decide(m, t), chunks[1..];
    assert [chunks[0]] + rest == chunks;
    if v.Replying? {
      RepliesAppend(m, v.think, v.shown, rest);
      DecidedRendering(m, fed, chunks[0], t, rest);
    } else {
      UndecidedRun(m, t, rest);
      var (think, printed) := Rendered(FeedViews(m, v, rest));
      SameArrival(m, fed, t, chunks, think, printed);
    }
  }

  /** While the text is undecided the close marker has not arrived, so skipping a chunk changes no arrival. */
  lemma SameArrival(m: Markers, fed: nat, t: string, chunks: seq<string>, think: string, printed: string)
    requires chunks != [] && fed + |chunks[0]| == |t| && !Decide(m, t).Replying?
    requires RendersAs(m, t + Flatten(chunks[1..]), |t|, chunks[1..], think, printed)
    ensures RendersAs(m, t + Flatten(chunks[1..]), fed, chunks, think, printed)
  {
    hide Decide, FirstFrom, Led, Newlines;
    var rest := Flatten(chunks[1..]);
    var text := t + rest;
    if Led(text, m.open) {
      var start := FirstFrom(text, 0, m.open) + |m.open|;
      var close := FirstFrom(text, start, m.close);
      if close <= |text| && close + |m.close| <= |t| {
        FirstFromBound(text, start, m.close);
        CloseDecides(m, t, rest);
      }
    }
  }

  lemma FirstFromBound(text: string, start: nat, m: string)
    requires start <= |text|
    ensures start <= FirstFrom(text, start, m)
  {
  }

  /** However a text is chunked, it is rendered as `RendersAs` says. */
  lemma EveryChunking(m: Markers, chunks: seq<string>)
    ensures var (think, printed) := Rendered(FeedViews(m, Waiting(""), chunks));
            RendersAs(m, Flatten(chunks), 0, chunks, think, printed)
  {
    if chunks == [] {
      NothingFed(m);
    } else {
      hide Decide, RendersAs;
      assert "" + chunks[0] == chunks[0];
      DecidedRun(m, 0, chunks[0], chunks);
    }
  }

  lemma NothingFed(m: Markers)
    ensures RendersAs(m, "", 0, [], "", "")
  {
    hide FirstFrom, LStrip, Newlines, Led;
    EmptyText(m.open);
    if Led("", m.open) {
      LedFind("", m.open);
      FirstFits("", m.close);
    }
  }

  lemma EmptyText(open: string)
    ensures Led("", open) ==> open == ""
  {
    LStripPart("");
  }

  // ---- what is held back while a turn runs ----

  /** The text starts with the open marker after all its white space. */
  lemma LedMeans(text: string, open: string, w: nat)
    requires w <= |text| && (w < |text| ==> !IsSpace(text[w])) && forall k :: 0 <= k < w ==> IsSpace(text[k])
    ensures LStrip(text) == text[w..] && (Led(text, open) <==> open <= text[w..])
  {
    assert Leading(text, IsSpace) == w;
  }

  predicate OnlySpaces(text: string) {
    forall k :: 0 <= k < |text| ==> IsSpace(text[k])
  }

  /** More of it can make the text start with the open marker. */
  ghost predicate CanBeLed(text: string, open: string) {
    exists more :: Led(text + more, open)
  }

  /** Nothing is printed yet exactly when the text is not led, but is white space or could be led with more of it. */
  lemma WaitsWhileUnclear(m: Markers, text: string)
    ensures Decide(m, text).Waiting? <==> !Led(text, m.open) && (OnlySpaces(text) || CanBeLed(text, m.open))
  {
    hide IsSpace;
    if !Led(text, m.open) {
      if LStrip(text) == "" {
        assert Leading(text, IsSpace) == |text|;
      } else if LStrip(text) <= m.open {
        Completed(text, m.open);
      } else {
        forall more ensures !Led(text + more, m.open) {
          LedPrefix(m.open, text, more);
        }
      }
    }
  }

  lemma Completed(text: string, open: string)
    requires LStrip(text) <= open && LStrip(text) != ""
    ensures CanBeLed(text, open)
  {
    var s := LStrip(text);
    var more := open[|s|..];
    assert s + more == open;
    LStripOfPrefix(text, more);
    assert Led(text + more, open);
  }

  /** So it is at every point of a turn. */
  lemma WaitingTurn(m: Markers, chunks: seq<string>)
    requires chunks != []
    ensures var text := Flatten(chunks);
            FeedViews(m, Waiting(""), chunks).Waiting?
            <==> !Led(text, m.open) && (OnlySpaces(text) || CanBeLed(text, m.open))
  {
    hide Decide;
    assert "" + chunks[0] == chunks[0];
    StillWaiting(m, chunks[0], chunks[1..]);
    WaitsWhileUnclear(m, Flatten(chunks));
  }

  lemma {:induction false} StillWaiting(m: Markers, t: string, chunks: seq<string>)
    ensures FeedViews(m, Decide(m, t), chunks).Waiting? <==> Decide(m, t + Flatten(chunks)).Waiting?
    decreases |chunks|
  {
    hide Decide, FirstFrom, Led;
    var v, rest := Decide(m, t), Flatten(chunks);
    if chunks == [] {
      assert t + "" == t;
    } else if v.Replying? {
      RepliesAppend(m, v.think, v.shown, chunks);
      NeverWaitsAgain(m, t, rest);
    } else {
      FeedDecides(m, t, chunks[0]);
      StillWaiting(m, t + chunks[0], chunks[1..]);
      assert (t + chunks[0]) + Flatten(chunks[1..]) == t + rest;
    }
  }

  lemma NeverWaitsAgain(m: Markers, t: string, rest: string)
    requires !Decide(m, t).Waiting?
    ensures !Decide(m, t + rest).Waiting?
  {
    hide Decide, Led, IsSpace;
    WaitsWhileUnclear(m, t);
    WaitsWhileUnclear(m, t + rest);
    LedPrefix(m.open, t, rest);
    forall more | Led(t + rest + more, m.open) ensures Led(t + (rest + more), m.open) {
      assert t + rest + more == t + (rest + more);
    }
    assert OnlySpaces(t + rest) ==> OnlySpaces(t) by {
      assert forall k :: 0 <= k < |t| ==> (t + rest)[k] == t[k];
    }
  }

  /** The newlines that are dropped are all those after the close marker exactly when they all arrived with it. */
  lemma DroppedNewlines(after: string, n: nat)
    requires n <= |after|
    ensures Newlines(after[..n]) == if Newlines(after) < n then Newlines(after) else n
    ensures after[Newlines(after[..n])..] == after[Newlines(after)..] <==> Newlines(after) <= n
  {
    LeadingOfPrefix(after[..n], after[n..], c => c == '\n');
    assert after[..n] + after[n..] == after;
    assert |after[Newlines(after[..n])..]| == |after| - Newlines(after[..n]);
  }

  /** The same, of a reply that starts at `end` of a text of which `arrived` characters were there. */
  lemma DroppedFrom(text: string, end: nat, arrived: nat)
    requires end <= arrived <= |text|
    ensures text[end..][Newlines(text[end..arrived])..] == text[end..][Newlines(text[end..])..]
            <==> end + Newlines(text[end..]) <= arrived
  {
    assert text[end..arrived] == text[end..][..arrived - end];
    DroppedNewlines(text[end..], arrived - end);
  }

  /** Where the reply of a led text with a close marker starts. */
  function ReplyStart(m: Markers, text: string): (end: nat)
    requires HasReply(m, text)
    ensures end <= |text|
  {
    FirstFrom(text, FirstFrom(text, 0, m.open) + |m.open|, m.close) + |m.close|
  }

  predicate HasReply(m: Markers, text: string) {
    Led(text, m.open)
    && var start := FirstFrom(text, 0, m.open) + |m.open|;
       start <= |text| && FirstFrom(text, start, m.close) <= |text|
  }

  lemma ReplyPrinted(m: Markers, chunks: seq<string>, think: string, printed: string)
    ensures HasReply(m, Flatten(chunks)) && RendersAs(m, Flatten(chunks), 0, chunks, think, printed) ==>
              var text := Flatten(chunks);
              var end := ReplyStart(m, text);
              var arrived := Arrived(0, chunks, end);
              end <= arrived <= |text| && printed == text[end..][Newlines(text[end..arrived])..]
  {
    hide Led, FirstFrom, Arrived, Newlines, Flatten;
  }

  /** What a turn prints is without the newlines after the close marker exactly when all of them had arrived with the
      chunk that completed the marker. */
  lemma AllNewlinesDropped(m: Markers, chunks: seq<string>)
    requires HasReply(m, Flatten(chunks))
    ensures var text := Flatten(chunks);
            var end := ReplyStart(m, text);
            Rendered(FeedViews(m, Waiting(""), chunks)).1 == text[end..][Newlines(text[end..])..]
            <==> end + Newlines(text[end..]) <= Arrived(0, chunks, end)
  {
    hide RendersAs, HasReply, ReplyStart, Arrived, Newlines, Flatten, FeedViews;
    EveryChunking(m, chunks);
    var (think, printed) := Rendered(FeedViews(m, Waiting(""), chunks));
    ReplyPrinted(m, chunks, think, printed);
    var end := ReplyStart(m, Flatten(chunks));
    DroppedFrom(Flatten(chunks), end, Arrived(0, chunks, end));
  }

  const DEFAULT := Markers("<think>", "</think>")

  /** A reply with its thinking block complete. */
  lemma ShortBlock(rest: string)
    ensures Decide(DEFAULT, "<think>a</think>" + rest) == Replying("a", rest[Newlines(rest)..])
  {
    var text, body := "<think>a</think>" + rest, "a</think>" + rest;
    assert LStrip(text) == text == "<think>" + body;
    LedFind(text, DEFAULT.open);
    assert Body(text, DEFAULT.open) == body;
    assert body[0] == 'a' && DEFAULT.close[0] == '<';
    assert !OccursAt(body, 0, DEFAULT.close) && OccursAt(body, 1, DEFAULT.close);
    assert FirstFrom(body, 0, DEFAULT.close) == 1;
    assert body[..1] == "a" && body[1 + |DEFAULT.close|..] == rest;
  }

  /** One text, two chunkings: the second newline is dropped only when it comes with the close marker. */
  lemma NewlineCanRemain()
    ensures "<think>a</think>\n" + "\nb" == "<think>a</think>\n\nb"
    ensures Rendered(FeedViews(DEFAULT, Waiting(""), ["<think>a</think>\n\nb"])) == ("a", "b")
    ensures Rendered(FeedViews(DEFAULT, Waiting(""), ["<think>a</think>\n", "\nb"])) == ("a", "\nb")
  {
    hide Decide;
    var whole, first := "<think>a</think>\n\nb", "<think>a</think>\n";
    assert whole == "<think>a</think>" + "\n\nb" && first == "<think>a</think>" + "\n";
    ShortBlock("\n\nb");
    ShortBlock("\n");
    assert "" + whole == whole && "" + first == first;
    assert [whole][1..] == [] && [first, "\nb"][1..] == ["\nb"] && ["\nb"][1..] == [];
    TwoNewlines();
    assert "" + "\nb" == "\nb";
  }

  lemma TwoNewlines()
    ensures "\n\nb"[Newlines("\n\nb")..] == "b" && "\n"[Newlines("\n")..] == ""
  {
    assert "\n\nb"[1..] == "\nb" && "\nb"[1..] == "b" && "\n"[1..] == "";
  }

  /** One turn: every chunk is fed, then the renderer is finished. */
  method RenderAll(collapse: bool, m: Markers, chunks: seq<string>) returns (think: string, printed: string)
    ensures !collapse ==> think == "" && printed == Flatten(chunks)
    ensures collapse ==> RendersAs(m, Flatten(chunks), 0, chunks, think, printed)
  {
    var r := new ThinkStreamRenderer(collapse, m);
    for i := 0 to |chunks|
      invariant r.Valid() && r.collapse == collapse && r.markers == m
      invariant collapse ==> FeedViews(m, r.view, chunks[i..]) == FeedViews(m, Waiting(""), chunks)
      invariant !collapse ==> r.thinkText == "" && r.printed + Flatten(chunks[i..]) == Flatten(chunks)
    {
      assert chunks[i..][0] == chunks[i] && chunks[i..][1..] == chunks[i + 1..];
      r.Feed(chunks[i]);
    }
    r.Finish();
    hide RendersAs;
    EveryChunking(m, chunks);
    return r.thinkText, r.printed;
  }
}
