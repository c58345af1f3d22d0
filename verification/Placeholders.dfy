/** Image placeholders in a prompt: splitting, expanding each into its token grid, and undoing that. */
module Placeholders {
  import opened Options
  import opened Search
  import opened NemotronGrid

  const START := "<|image_start|>"
  const PAD := "<|image_pad|>"
  const BREAK := "<|image_break|>"
  const END := "<|image_end|>"

  // ---- markers do not overlap ----

  /** Opened by the only `<` and closed by the only `>`. */
  predicate IsMarker(m: string) {
    |m| >= 2
    && (forall k :: 0 <= k < |m| ==> (m[k] == '<' <==> k == 0))
    && (forall k :: 0 <= k < |m| ==> (m[k] == '>' <==> k == |m| - 1))
  }

  lemma Markers()
    ensures IsMarker(START) && IsMarker(PAD) && IsMarker(BREAK) && IsMarker(END)
    ensures START != PAD && START != BREAK && START != END && PAD != BREAK && PAD != END && BREAK != END
  {
    assert START[8] == 's' && PAD[8] == 'p' && BREAK[8] == 'b' && END[8] == 'e';
  }

  /** No occurrence of `m` in `a + b` lies partly in `a` and partly in `b`. */
  ghost predicate CleanSeam(a: string, b: string, m: string) {
    forall q :: 0 <= q < |a| && OccursAt(a + b, q, m) ==> q + |m| <= |a|
  }

  /** Text on the other side of a marker's edge cannot complete a marker. */
  lemma MarkerEdge(a: string, b: string, m: string)
    requires IsMarker(m)
    requires a == "" || b == "" || b[0] == '<' || a[|a| - 1] == '>'
    ensures CleanSeam(a, b, m)
  {
    var s := a + b;
    forall q | 0 <= q < |a| && OccursAt(s, q, m) ensures q + |m| <= |a| {
      assert forall k :: 0 <= k < |m| ==> m[k] == s[q + k];
      assert s[|a| - 1] == a[|a| - 1] && (b != "" ==> s[|a|] == b[0]);
    }
  }

  // ---- counting ----

  /** Occurrences from the left, not overlapping, as `str.count` finds them. */
  function Count(s: string, m: string): nat
    requires m != ""
  {
    if |s| < |m| then 0
    else if s[..|m|] == m then 1 + Count(s[|m|..], m)
    else Count(s[1..], m)
  }

  lemma {:induction false} CountConcat(a: string, b: string, m: string)
    requires m != "" && CleanSeam(a, b, m)
    ensures Count(a + b, m) == Count(a, m) + Count(b, m)
    decreases |a|
  {
    var s := a + b;
    if a == "" {
      assert s == b;
    } else if |m| <= |s| && s[..|m|] == m {
      assert OccursAt(s, 0, m);
      assert a[..|m|] == m && s[|m|..] == a[|m|..] + b;
      SeamSuffix(a, b, m, |m|);
      CountConcat(a[|m|..], b, m);
    } else {
      assert |m| <= |a| ==> a[..|m|] == s[..|m|];
      assert s[1..] == a[1..] + b;
      SeamSuffix(a, b, m, 1);
      CountConcat(a[1..], b, m);
      if |a| < |m| {
        assert Count(a[1..], m) == 0;
      }
      if |s| < |m| {
        assert Count(b, m) == 0;
      }
    }
  }

  lemma SeamSuffix(a: string, b: string, m: string, n: nat)
    requires CleanSeam(a, b, m) && n <= |a|
    ensures CleanSeam(a[n..], b, m)
  {
    var s := a + b;
    assert s[n..] == a[n..] + b;
    forall q | 0 <= q < |a[n..]| && OccursAt(a[n..] + b, q, m) ensures q + |m| <= |a[n..]| {
      OccursInSuffix(s, n, q + n, m);
    }
  }

  /** A marker counts once in itself and not in another marker. */
  lemma CountInMarker(m: string, k: string)
    requires IsMarker(m) && IsMarker(k)
    ensures Count(k, m) == if k == m then 1 else 0
  {
    assert m[..|m|] == m;
    if |m| <= |k| && k[..|m|] == m {
      assert k[|m| - 1] == '>';
      assert k == m && k[|m|..] == "";
    } else {
      NoOpenerNoCount(k[1..], m);
    }
  }

  lemma {:induction false} NoOpenerNoCount(s: string, m: string)
    requires IsMarker(m) && forall k :: 0 <= k < |s| ==> s[k] != '<'
    ensures Count(s, m) == 0
    decreases |s|
  {
    if |m| <= |s| {
      assert s[..|m|][0] == s[0];
      NoOpenerNoCount(s[1..], m);
    }
  }

  // ---- lists of markers ----

  predicate AllMarkers(ms: seq<string>) {
    forall k :: 0 <= k < |ms| ==> IsMarker(ms[k])
  }

  function Concat(ms: seq<string>): string {
    if ms == [] then "" else ms[0] + Concat(ms[1..])
  }

  function Tally(ms: seq<string>, m: string): nat {
    if ms == [] then 0 else (if ms[0] == m then 1 else 0) + Tally(ms[1..], m)
  }

  lemma {:induction false} ConcatEdges(ms: seq<string>)
    requires AllMarkers(ms) && ms != []
    ensures Concat(ms) != "" && Concat(ms)[0] == '<' && Concat(ms)[|Concat(ms)| - 1] == '>'
    decreases |ms|
  {
    if |ms| > 1 {
      ConcatEdges(ms[1..]);
    } else {
      assert Concat(ms[1..]) == "";
    }
  }

  /** Counting a marker in a run of markers is counting the list. */
  lemma {:induction false} CountRun(ms: seq<string>, m: string)
    requires AllMarkers(ms) && IsMarker(m)
    ensures Count(Concat(ms), m) == Tally(ms, m)
    decreases |ms|
  {
    if ms != [] {
      CountRun(ms[1..], m);
      MarkerEdge(ms[0], Concat(ms[1..]), m);
      CountConcat(ms[0], Concat(ms[1..]), m);
      CountInMarker(m, ms[0]);
    }
  }

  /** In a run of markers other than `m`, followed by `m`, the first occurrence of `m` is at the end of the run. */
  lemma {:induction false} FirstAfterRun(ms: seq<string>, m: string, rest: string)
    requires AllMarkers(ms) && IsMarker(m) && m !in ms
    ensures forall q :: 0 <= q < |Concat(ms)| ==> !OccursAt(Concat(ms) + m + rest, q, m)
    decreases |ms|
  {
    if ms != [] {
      var k, tail := ms[0], Concat(ms[1..]) + m + rest;
      var s := Concat(ms) + m + rest;
      assert s == k + tail;
      FirstAfterRun(ms[1..], m, rest);
      forall q | 0 <= q < |Concat(ms)| ensures !OccursAt(s, q, m) {
        if q < |k| {
          NotInOther(k, tail, q, m);
        } else {
          OccursInSuffix(s, |k|, q, m);
          assert s[|k|..] == tail;
        }
      }
    }
  }

  /** Two markers in the same text, one at its start and one starting within it, are the same marker. */
  lemma SameMarker(k: string, tail: string, q: nat, m: string)
    requires IsMarker(k) && IsMarker(m) && q < |k| && OccursAt(k + tail, q, m)
    ensures k == m
  {
    var s := k + tail;
    assert forall i :: 0 <= i < |k| ==> s[i] == k[i];
    assert forall i :: 0 <= i < |m| ==> m[i] == s[q + i];
    assert m[0] == s[q];
    assert s[|k| - 1] == '>' && m[|m| - 1] == s[|m| - 1];
  }

  lemma NotInOther(k: string, tail: string, q: nat, m: string)
    requires IsMarker(k) && IsMarker(m) && k != m && q < |k|
    ensures !OccursAt(k + tail, q, m)
  {
    if OccursAt(k + tail, q, m) {
      SameMarker(k, tail, q, m);
    }
  }

  // ---- the token grid of one image ----

  function Repeat(m: string, n: nat): string {
    if n == 0 then "" else m + Repeat(m, n - 1)
  }

  /** `sep.join([part] * n)`. */
  function JoinCopies(sep: string, part: string, n: nat): string {
    if n == 0 then "" else if n == 1 then part else part + sep + JoinCopies(sep, part, n - 1)
  }

  /** The token string of a resized image, or nothing when the grid is not at least 1x1. */
  function ImageTokenString(height: int, width: int): Option<string> {
    var rows, columns := height / TOKEN_SIDE, width / TOKEN_SIDE;
    if rows < 1 || columns < 1 then None
    else Some(START + JoinCopies(BREAK, Repeat(PAD, columns), rows) + END)
  }

  /** The markers between START and END: `rows` rows of pads, separated by breaks. */
  function GridMarkers(rows: nat, columns: nat): seq<string> {
    if rows == 0 then []
    else if rows == 1 then seq(columns, _ => PAD)
    else seq(columns, _ => PAD) + [BREAK] + GridMarkers(rows - 1, columns)
  }

  lemma {:induction false} ConcatAppend(a: seq<string>, b: seq<string>)
    ensures Concat(a + b) == Concat(a) + Concat(b)
    decreases |a|
  {
    if a == [] {
      assert a + b == b;
    } else {
      assert (a + b)[1..] == a[1..] + b;
      ConcatAppend(a[1..], b);
      assert a[0] + (Concat(a[1..]) + Concat(b)) == (a[0] + Concat(a[1..])) + Concat(b);
    }
  }

  lemma {:induction false} TallyAppend(a: seq<string>, b: seq<string>, m: string)
    ensures Tally(a + b, m) == Tally(a, m) + Tally(b, m)
    decreases |a|
  {
    if a == [] {
      assert a + b == b;
    } else {
      assert (a + b)[1..] == a[1..] + b;
      TallyAppend(a[1..], b, m);
    }
  }

  lemma {:induction false} RepeatIsConcat(n: nat, m: string)
    ensures Repeat(PAD, n) == Concat(seq(n, _ => PAD))
    ensures Tally(seq(n, _ => PAD), m) == if m == PAD then n else 0
  {
    if n > 0 {
      var pads := seq(n, _ => PAD);
      assert pads[1..] == seq(n - 1, _ => PAD);
      RepeatIsConcat(n - 1, m);
    }
  }

  /** The joined rows are the grid's markers in a row. */
  lemma {:induction false} GridIsMarkers(rows: nat, columns: nat)
    requires rows >= 1
    ensures JoinCopies(BREAK, Repeat(PAD, columns), rows) == Concat(GridMarkers(rows, columns))
    decreases rows
  {
    hide Repeat, Concat;
    RepeatIsConcat(columns, PAD);
    var pads := seq(columns, _ => PAD);
    if rows > 1 {
      GridIsMarkers(rows - 1, columns);
      ConcatAppend(pads + [BREAK], GridMarkers(rows - 1, columns));
      ConcatAppend(pads, [BREAK]);
      ConcatOne(BREAK);
    }
  }

  lemma ConcatOne(m: string)
    ensures Concat([m]) == m
  {
    assert [m][1..] == [];
  }

  /** How often each marker stands in the grid. */
  lemma {:induction false} GridTally(rows: nat, columns: nat, m: string)
    requires rows >= 1
    ensures Tally(GridMarkers(rows, columns), m)
            == if m == PAD then rows * columns else if m == BREAK then rows - 1 else 0
    decreases rows
  {
    PadIsNotBreak();
    RepeatIsConcat(columns, m);
    if rows > 1 {
      hide Tally;
      var pads, rest := seq(columns, _ => PAD), GridMarkers(rows - 1, columns);
      GridTally(rows - 1, columns, m);
      TallyAppend(pads + [BREAK], rest, m);
      TallyAppend(pads, [BREAK], m);
      TallyOne(BREAK, m);
      OneMoreRow(rows, columns);
    } else {
      assert rows * columns == columns;
    }
  }

  lemma OneMoreRow(rows: nat, columns: nat)
    requires rows >= 1
    ensures rows * columns == (rows - 1) * columns + columns
  {
  }

  /** Pads and breaks are all there is between START and END. */
  lemma {:induction false} GridKinds(rows: nat, columns: nat)
    requires rows >= 1
    ensures |GridMarkers(rows, columns)| == rows * columns + (rows - 1)
    ensures PadsAndBreaks(GridMarkers(rows, columns))
    decreases rows
  {
    OneMoreRow(rows, columns);
    if rows > 1 {
      GridKinds(rows - 1, columns);
    }
  }

  predicate PadsAndBreaks(ms: seq<string>) {
    forall k :: 0 <= k < |ms| ==> ms[k] == PAD || ms[k] == BREAK
  }

  lemma TallyOne(k: string, m: string)
    ensures Tally([k], m) == if k == m then 1 else 0
  {
    assert [k][1..] == [];
  }

  lemma PadIsNotBreak()
    ensures PAD != BREAK
  {
    Markers();
  }

  /** The token string is START, the grid's markers, END: a run of markers, the number of which is the token count. */
  function TokenMarkers(rows: nat, columns: nat): seq<string> {
    [START] + GridMarkers(rows, columns) + [END]
  }

  lemma TokenStringIsMarkers(height: int, width: int)
    ensures var rows, columns := height / TOKEN_SIDE, width / TOKEN_SIDE;
            if rows < 1 || columns < 1 then ImageTokenString(height, width) == None
            else ImageTokenString(height, width) == Some(Concat(TokenMarkers(rows, columns)))
                 && AllMarkers(TokenMarkers(rows, columns))
  {
    var rows, columns := height / TOKEN_SIDE, width / TOKEN_SIDE;
    if rows >= 1 && columns >= 1 {
      hide Concat, JoinCopies, Repeat;
      var grid := GridMarkers(rows, columns);
      GridIsMarkers(rows, columns);
      ConcatAppend([START] + grid, [END]);
      ConcatAppend([START], grid);
      ConcatOne(START);
      ConcatOne(END);
      MarkersAround(rows, columns);
    }
  }

  lemma MarkersAround(rows: nat, columns: nat)
    requires rows >= 1
    ensures AllMarkers(TokenMarkers(rows, columns))
  {
    hide IsMarker;
    Markers();
    GridKinds(rows, columns);
  }

  /** Each kind of marker in the token string of an at least 1x1 grid, and none formed where two meet. */
  lemma TokenStringCounts(height: int, width: int, m: string)
    requires IsMarker(m) && ImageTokenString(height, width).Some?
    ensures var rows, columns := height / TOKEN_SIDE, width / TOKEN_SIDE;
            Count(ImageTokenString(height, width).value, m)
            == if m == START || m == END then 1
               else if m == PAD then rows * columns
               else if m == BREAK then rows - 1 else 0
  {
    hide *;
    var rows, columns := TokenRows(height, width);
    var grid := GridMarkers(rows, columns);
    TokenStringIsMarkers(height, width);
    CountRun(TokenMarkers(rows, columns), m);
    GridTally(rows, columns, m);
    EndsTally(rows, columns, m);
  }

  lemma TokenRows(height: int, width: int) returns (rows: nat, columns: nat)
    requires ImageTokenString(height, width).Some?
    ensures rows == height / TOKEN_SIDE >= 1 && columns == width / TOKEN_SIDE >= 1
  {
    rows, columns := height / TOKEN_SIDE, width / TOKEN_SIDE;
  }

  lemma EndsTally(rows: nat, columns: nat, m: string)
    requires IsMarker(m)
    ensures Tally(TokenMarkers(rows, columns), m)
            == Tally(GridMarkers(rows, columns), m) + if m == START || m == END then 1 else 0
    ensures m == PAD || m == BREAK ==> m != START && m != END
  {
    hide Tally, IsMarker;
    Markers();
    var grid := GridMarkers(rows, columns);
    TallyAppend([START] + grid, [END], m);
    TallyAppend([START], grid, m);
    TallyOne(START, m);
    TallyOne(END, m);
  }

  /** The token count of an image is the number of markers in its token string, for every size whose scaled sides
      survive; every other positive size has no token string. */
  lemma TokenCountIsMarkers(maxSize: nat, height: int, width: int)
    requires ValidMaxSize(maxSize) && height > 0 && width > 0
    ensures ImageSize(maxSize, height, width).Some? && ImageTokenCount(maxSize, height, width).Some?
    ensures var (h, w) := ImageSize(maxSize, height, width).value;
            ImageTokenString(h, w).Some? <==> BothSidesSurvive(maxSize, height, width)
    ensures var (h, w) := ImageSize(maxSize, height, width).value;
            BothSidesSurvive(maxSize, height, width) ==>
              var s := ImageTokenString(h, w).value;
              && ImageTokenCount(maxSize, height, width)
                 == Some(Count(s, START) + Count(s, PAD) + Count(s, BREAK) + Count(s, END))
              && MergedPatchCount(h, w) == Some(Count(s, PAD))
  {
    hide Count, JoinCopies, Repeat, BothSidesSurvive, IsMarker, ScaledSide;
    GridBounds(maxSize, height, width);
    ResizeStable(maxSize, height, width);
    if BothSidesSurvive(maxSize, height, width) {
      var (h, w) := ImageSize(maxSize, height, width).value;
      Markers();
      TokenStringCounts(h, w, START);
      TokenStringCounts(h, w, PAD);
      TokenStringCounts(h, w, BREAK);
      TokenStringCounts(h, w, END);
    }
  }

  // ---- where the breaks stand ----

  /** Place `c` of row `r`, its break included, in the run of markers. */
  function PlaceOf(r: nat, c: nat, columns: nat): nat {
    r * (columns + 1) + c
  }

  lemma NextRow(r: nat, c: nat, columns: nat)
    ensures PlaceOf(r + 1, c, columns) == PlaceOf(r, c, columns) + (columns + 1)
  {
    assert (r + 1) * (columns + 1) == r * (columns + 1) + (columns + 1);
  }

  /** A row is its pads, and after every row but the last stands a break. */
  lemma {:induction false} GridMarkerAt(rows: nat, columns: nat, r: nat, c: nat)
    requires r < rows && c <= columns && (c == columns ==> r < rows - 1)
    ensures var k := PlaceOf(r, c, columns);
            k < |GridMarkers(rows, columns)| && GridMarkers(rows, columns)[k] == if c == columns then BREAK else PAD
    decreases r
  {
    if r == 0 {
      assert PlaceOf(0, c, columns) == c;
    } else {
      GridMarkerAt(rows - 1, columns, r - 1, c);
      NextRow(r - 1, c, columns);
      hide PlaceOf;
      var first := seq(columns, _ => PAD) + [BREAK];
      assert GridMarkers(rows, columns) == first + GridMarkers(rows - 1, columns);
    }
  }

  /** The token string of a size, marker by marker: START, then the pads of each row with a break after each but the
      last, then END. */
  lemma TokenStringLayout(height: int, width: int) returns (ms: seq<string>)
    requires ImageTokenString(height, width).Some?
    ensures var rows, columns := height / TOKEN_SIDE, width / TOKEN_SIDE;
            && rows >= 1 && columns >= 1 && |ms| == rows * columns + (rows - 1)
            && ImageTokenString(height, width) == Some(START + Concat(ms) + END)
            && forall r: nat, c: nat :: r < rows && c <= columns && (c == columns ==> r < rows - 1) ==>
                 var k := PlaceOf(r, c, columns); k < |ms| && ms[k] == if c == columns then BREAK else PAD
  {
    var rows, columns := TokenRows(height, width);
    ms := GridMarkers(rows, columns);
    GridKinds(rows, columns);
    GridIsMarkers(rows, columns);
    forall r: nat, c: nat | r < rows && c <= columns && (c == columns ==> r < rows - 1)
      ensures var k := PlaceOf(r, c, columns); k < |ms| && ms[k] == if c == columns then BREAK else PAD
    {
      GridMarkerAt(rows, columns, r, c);
    }
  }
}
