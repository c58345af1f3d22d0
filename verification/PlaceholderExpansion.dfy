/** Expanding the image placeholders of a prompt into token grids, and why nothing is lost. */
module PlaceholderExpansion {
  import opened Options
  import opened Search
  import opened NemotronGrid
  import opened Placeholders

  /** `str.split`: the text before, between and after the occurrences, found from the left. */
  function Split(s: string, m: string): (pieces: seq<string>)
    requires m != ""
    ensures |pieces| == Count(s, m) + 1
  {
    if |s| < |m| then [s]
    else if s[..|m|] == m then [""] + Split(s[|m|..], m)
    else
      var rest := Split(s[1..], m);
      [[s[0]] + rest[0]] + rest[1..]
  }

  /** The pieces with one fill between each two. */
  function Interleave(pieces: seq<string>, fills: seq<string>): string
    requires |pieces| == |fills| + 1
  {
    if fills == [] then pieces[0]
    else pieces[0] + (fills[0] + Interleave(pieces[1..], fills[1..]))
  }

  /** Pieces and fills in turn: piece `k`, then fill `k`, then piece `k + 1`. */
  function InTurn(pieces: seq<string>, fills: seq<string>): seq<string>
    requires |pieces| == |fills| + 1
  {
    seq(2 * |fills| + 1, i requires 0 <= i <= 2 * |fills| => if i % 2 == 0 then pieces[i / 2] else fills[i / 2])
  }

  lemma {:induction false} InterleavedInTurn(pieces: seq<string>, fills: seq<string>)
    requires |pieces| == |fills| + 1
    ensures Interleave(pieces, fills) == Concat(InTurn(pieces, fills))
    decreases |fills|
  {
    var all := InTurn(pieces, fills);
    if fills == [] {
      assert all == [pieces[0]];
      ConcatOne(pieces[0]);
    } else {
      InterleavedInTurn(pieces[1..], fills[1..]);
      var rest := InTurn(pieces[1..], fills[1..]);
      InTurnStep(pieces, fills);
      hide InTurn, Concat;
      ConcatAppend([pieces[0]], [fills[0]] + rest);
      ConcatAppend([fills[0]], rest);
      ConcatOne(pieces[0]);
      ConcatOne(fills[0]);
    }
  }

  lemma InTurnStep(pieces: seq<string>, fills: seq<string>)
    requires |pieces| == |fills| + 1 && fills != []
    ensures InTurn(pieces, fills) == [pieces[0]] + ([fills[0]] + InTurn(pieces[1..], fills[1..]))
  {
    var all, rest := InTurn(pieces, fills), InTurn(pieces[1..], fills[1..]);
    forall i | 2 <= i < |all| ensures all[i] == rest[i - 2] {
      assert (i - 2) / 2 == i / 2 - 1 && (i - 2) % 2 == i % 2;
    }
  }

  function Copies(m: string, n: nat): seq<string> {
    seq(n, _ => m)
  }

  /** Splitting loses nothing. */
  lemma {:induction false} SplitRejoins(s: string, m: string)
    requires m != ""
    ensures Interleave(Split(s, m), Copies(m, Count(s, m))) == s
    decreases |s|
  {
    var pieces, n := Split(s, m), Count(s, m);
    if |s| < |m| {
      assert Copies(m, 0) == [];
    } else if s[..|m|] == m {
      SplitRejoins(s[|m|..], m);
      assert pieces[1..] == Split(s[|m|..], m) && Copies(m, n)[1..] == Copies(m, n - 1);
      assert Interleave(pieces, Copies(m, n)) == "" + (m + s[|m|..]);
    } else {
      SplitRejoins(s[1..], m);
      InterleaveHead([s[0]], Split(s[1..], m), Copies(m, n));
      assert [s[0]] + s[1..] == s;
    }
  }

  /** Splitting leaves no occurrence in any piece. */
  lemma {:induction false} SplitClean(s: string, m: string)
    requires IsMarker(m)
    ensures forall k, q :: 0 <= k < |Split(s, m)| ==> !OccursAt(Split(s, m)[k], q, m)
    decreases |s|
  {
    if |s| < |m| {
    } else if s[..|m|] == m {
      SplitClean(s[|m|..], m);
    } else {
      SplitClean(s[1..], m);
      HeadPiece(s, m, Split(s[1..], m));
    }
  }

  lemma InterleaveHead(head: string, pieces: seq<string>, fills: seq<string>)
    requires |pieces| == |fills| + 1
    ensures Interleave([head + pieces[0]] + pieces[1..], fills) == head + Interleave(pieces, fills)
  {
    if fills != [] {
      assert ([head + pieces[0]] + pieces[1..])[1..] == pieces[1..];
    }
  }

  /** The piece that grows by a character no marker starts at still has no occurrence. */
  lemma HeadPiece(s: string, m: string, rest: seq<string>)
    requires IsMarker(m) && |m| <= |s| && s[..|m|] != m
    requires rest == Split(s[1..], m) && forall q :: !OccursAt(rest[0], q, m)
    ensures forall q :: !OccursAt([s[0]] + rest[0], q, m)
  {
    var p := [s[0]] + rest[0];
    FirstPieceIsPrefix(s[1..], m);
    assert s[..|p|] == p;
    OccursInPrefix(s, |p|, 0, m);
    forall q ensures !OccursAt(p, q, m) {
      if q >= 1 {
        assert p[1..] == rest[0];
        OccursInSuffix(p, 1, q, m);
      }
    }
  }

  lemma {:induction false} FirstPieceIsPrefix(s: string, m: string)
    requires m != ""
    ensures Split(s, m)[0] <= s
    decreases |s|
  {
    if |s| >= |m| && s[..|m|] != m {
      FirstPieceIsPrefix(s[1..], m);
      assert s == [s[0]] + s[1..];
    }
  }

  // ---- undoing an expansion ----

  /** Every `open` up to the next `close` replaced by `open`; text after an `open` without `close` is left alone. */
  function Collapse(s: string, open: string, close: string): string
    requires open != ""
    decreases |s|
  {
    if s == "" then ""
    else if open <= s then
      var e := FirstFrom(s, |open|, close);
      if e <= |s| then
        assert e + |close| <= |s|;
        open + Collapse(s[e + |close|..], open, close)
      else s
    else [s[0]] + Collapse(s[1..], open, close)
  }

  lemma {:induction false} CollapsePiece(piece: string, rest: string, open: string, close: string)
    requires IsMarker(open)
    requires forall q :: !OccursAt(piece, q, open)
    requires rest == "" || rest[0] == '<'
    ensures Collapse(piece + rest, open, close) == piece + Collapse(rest, open, close)
    decreases |piece|
  {
    if piece == "" {
      assert piece + rest == rest;
    } else {
      var s := piece + rest;
      NoMarkerAhead(piece, rest, open);
      assert s[1..] == piece[1..] + rest;
      forall q ensures !OccursAt(piece[1..], q, open) {
        if q >= 0 {
          OccursInSuffix(piece, 1, q + 1, open);
        }
      }
      CollapsePiece(piece[1..], rest, open, close);
      CollapseStep(s, open, close);
      assert [s[0]] + (piece[1..] + Collapse(rest, open, close)) == piece + Collapse(rest, open, close);
    }
  }

  lemma CollapseStep(s: string, open: string, close: string)
    requires open != "" && s != "" && !(open <= s)
    ensures Collapse(s, open, close) == [s[0]] + Collapse(s[1..], open, close)
  {
  }

  lemma NoMarkerAhead(piece: string, rest: string, m: string)
    requires IsMarker(m) && piece != "" && forall q :: !OccursAt(piece, q, m)
    requires rest == "" || rest[0] == '<'
    ensures !(m <= piece + rest)
  {
    hide IsMarker;
    MarkerEdge(piece, rest, m);
    var s := piece + rest;
    if m <= s {
      assert OccursAt(s, 0, m);
      assert s[..|piece|] == piece;
      OccursInPrefix(s, |piece|, 0, m);
    }
  }

  /** A token grid collapses to its START. */
  lemma CollapseGrid(rows: nat, columns: nat, rest: string)
    requires rows >= 1
    ensures Collapse(Concat(TokenMarkers(rows, columns)) + rest, START, END) == START + Collapse(rest, START, END)
  {
    hide Collapse, FirstFrom, Concat, IsMarker, GridMarkers, OccursAt;
    var grid := GridMarkers(rows, columns);
    var body := Concat(grid);
    var s := Concat(TokenMarkers(rows, columns)) + rest;
    GridText(rows, columns);
    assert s == START + (body + END + rest);
    FirstEnd(rows, columns, rest);
    CollapseBlock(s, START, body, END, rest);
  }

  lemma GridText(rows: nat, columns: nat)
    ensures Concat(TokenMarkers(rows, columns)) == START + Concat(GridMarkers(rows, columns)) + END
  {
    hide Concat;
    var grid := GridMarkers(rows, columns);
    ConcatAppend([START] + grid, [END]);
    ConcatAppend([START], grid);
    ConcatOne(START);
    ConcatOne(END);
  }

  lemma FirstEnd(rows: nat, columns: nat, rest: string)
    requires rows >= 1
    ensures var body := Concat(GridMarkers(rows, columns));
            forall q :: 0 <= q < |body| ==> !OccursAt(body + END + rest, q, END)
  {
    hide Concat, IsMarker, OccursAt;
    Markers();
    GridKinds(rows, columns);
    FirstAfterRun(GridMarkers(rows, columns), END, rest);
  }

  lemma CollapseBlock(s: string, open: string, body: string, close: string, rest: string)
    requires open != "" && s == open + (body + close + rest)
    requires forall q :: 0 <= q < |body| ==> !OccursAt(body + close + rest, q, close)
    ensures Collapse(s, open, close) == open + Collapse(rest, open, close)
  {
    FirstFromAfter(s, open, body, close, rest);
  }

  lemma FirstFromAfter(s: string, a: string, body: string, m: string, rest: string)
    requires s == a + (body + m + rest)
    requires forall q :: 0 <= q < |body| ==> !OccursAt(body + m + rest, q, m)
    ensures FirstFrom(s, |a|, m) == |a| + |body| && s[|a| + |body| + |m|..] == rest && a <= s
  {
    var tail := body + m + rest;
    assert s[|a|..] == tail && tail[|body|..|body| + |m|] == m;
    OccursInSuffix(s, |a|, |a| + |body|, m);
    forall q | |a| <= q < |a| + |body| ensures !OccursAt(s, q, m) {
      OccursInSuffix(s, |a|, q, m);
    }
    assert s[|a| + |body| + |m|..] == tail[|body| + |m|..];
  }

  // ---- the expansion ----

  type Size = (int, int)

  predicate Drawable(size: Size) {
    ImageTokenString(size.0, size.1).Some?
  }

  predicate AllDrawable(sizes: seq<Size>) {
    forall k :: 0 <= k < |sizes| ==> Drawable(sizes[k])
  }

  function Grids(sizes: seq<Size>): (grids: seq<string>)
    requires AllDrawable(sizes)
    ensures |grids| == |sizes|
    ensures forall k :: 0 <= k < |sizes| ==> Some(grids[k]) == ImageTokenString(sizes[k].0, sizes[k].1)
  {
    seq(|sizes|, k requires 0 <= k < |sizes| => ImageTokenString(sizes[k].0, sizes[k].1).value)
  }

  /** Merged patches of all images; for a resized image this is `merged_patch_count`. */
  function PatchTotal(sizes: seq<Size>): int {
    if sizes == [] then 0 else (sizes[0].0 / TOKEN_SIDE) * (sizes[0].1 / TOKEN_SIDE) + PatchTotal(sizes[1..])
  }

  lemma GridEdges(size: Size)
    requires Drawable(size)
    ensures var g := ImageTokenString(size.0, size.1).value; g != "" && g[0] == '<' && g[|g| - 1] == '>'
  {
    hide Concat, IsMarker, ImageTokenString, TokenMarkers;
    var rows, columns := TokenRows(size.0, size.1);
    TokenStringIsMarkers(size.0, size.1);
    TokenMarkersNonempty(rows, columns);
    ConcatEdges(TokenMarkers(rows, columns));
  }

  lemma TokenMarkersNonempty(rows: nat, columns: nat)
    ensures TokenMarkers(rows, columns) != []
  {
  }

  /** Collapsing an expansion gives back the prompt the pieces came from. */
  lemma {:induction false} CollapseInterleave(pieces: seq<string>, sizes: seq<Size>)
    requires |pieces| == |sizes| + 1 && AllDrawable(sizes)
    requires forall k, q :: 0 <= k < |pieces| ==> !OccursAt(pieces[k], q, START)
    ensures Collapse(Interleave(pieces, Grids(sizes)), START, END) == Interleave(pieces, Copies(START, |sizes|))
    decreases |sizes|
  {
    hide OccursAt, Collapse, ImageTokenString, IsMarker, Concat, TokenMarkers;
    Markers();
    var fills := Grids(sizes);
    if sizes == [] {
      assert pieces[0] + "" == pieces[0];
      CollapsePiece(pieces[0], "", START, END);
      CollapseEmpty(START, END);
    } else {
      var rest := Interleave(pieces[1..], fills[1..]);
      assert Grids(sizes[1..]) == fills[1..];
      assert Copies(START, |sizes|)[1..] == Copies(START, |sizes| - 1);
      GridEdges(sizes[0]);
      CollapsePiece(pieces[0], fills[0] + rest, START, END);
      var rows, columns := TokenRows(sizes[0].0, sizes[0].1);
      TokenStringIsMarkers(sizes[0].0, sizes[0].1);
      CollapseGrid(rows, columns, rest);
      CollapseInterleave(pieces[1..], sizes[1..]);
    }
  }

  lemma CollapseEmpty(open: string, close: string)
    requires open != ""
    ensures Collapse("", open, close) == ""
  {
  }

  function CountAll(parts: seq<string>, m: string): nat
    requires m != ""
  {
    if parts == [] then 0 else Count(parts[0], m) + CountAll(parts[1..], m)
  }

  /** Fills that start and end like a marker form no marker with the text around them. */
  lemma {:induction false} CountInterleave(pieces: seq<string>, fills: seq<string>, m: string)
    requires IsMarker(m) && |pieces| == |fills| + 1
    requires forall k :: 0 <= k < |fills| ==> fills[k] != "" && fills[k][0] == '<' && fills[k][|fills[k]| - 1] == '>'
    ensures Count(Interleave(pieces, fills), m) == CountAll(pieces, m) + CountAll(fills, m)
    decreases |fills|
  {
    hide Count, IsMarker, CleanSeam;
    NotEmpty(m);
    if fills == [] {
      assert pieces[1..] == [];
    } else {
      var rest := Interleave(pieces[1..], fills[1..]);
      CountInterleave(pieces[1..], fills[1..], m);
      MarkerEdge(fills[0], rest, m);
      CountConcat(fills[0], rest, m);
      MarkerEdge(pieces[0], fills[0] + rest, m);
      CountConcat(pieces[0], fills[0] + rest, m);
    }
  }

  lemma NotEmpty(m: string)
    requires IsMarker(m)
    ensures m != ""
  {
  }

  lemma {:induction false} CountCopies(m: string, k: string, n: nat)
    requires IsMarker(m) && IsMarker(k)
    ensures CountAll(Copies(k, n), m) == if k == m then n else 0
    decreases n
  {
    if n > 0 {
      assert Copies(k, n)[1..] == Copies(k, n - 1);
      CountCopies(m, k, n - 1);
      CountInMarker(m, k);
    }
  }

  lemma {:induction false} CountGrids(sizes: seq<Size>)
    requires AllDrawable(sizes)
    ensures CountAll(Grids(sizes), START) == |sizes|
    ensures CountAll(Grids(sizes), PAD) == PatchTotal(sizes)
    decreases |sizes|
  {
    hide Count, ImageTokenString, IsMarker;
    if sizes != [] {
      assert Grids(sizes)[1..] == Grids(sizes[1..]);
      CountGrids(sizes[1..]);
      Markers();
      TokenStringCounts(sizes[0].0, sizes[0].1, START);
      TokenStringCounts(sizes[0].0, sizes[0].1, PAD);
    }
  }

  lemma {:induction false} InterleaveSnoc(pieces: seq<string>, fills: seq<string>, fill: string, piece: string)
    requires |pieces| == |fills| + 1
    ensures Interleave(pieces + [piece], fills + [fill]) == Interleave(pieces, fills) + (fill + piece)
    decreases |fills|
  {
    var ps, fs := pieces + [piece], fills + [fill];
    if fills == [] {
      assert ps[1..] == [piece] && fs[1..] == [];
    } else {
      assert ps[1..] == pieces[1..] + [piece] && fs[1..] == fills[1..] + [fill];
      InterleaveSnoc(pieces[1..], fills[1..], fill, piece);
    }
  }

  /** Expansion succeeds exactly when there is one drawable size for each placeholder. The result has the k-th image's
      grid at the k-th placeholder, collapses back to the prompt, holds one START for each image, and has gained
      exactly the images' merged patches as pads. */
  method ExpandImagePlaceholders(prompt: string, sizes: seq<Size>) returns (r: Option<string>)
    ensures r.Some? <==> Count(prompt, START) == |sizes| && AllDrawable(sizes)
    ensures r.Some? ==> r.value == Interleave(Split(prompt, START), Grids(sizes))
    ensures r.Some? ==> Collapse(r.value, START, END) == prompt
    ensures r.Some? ==> Count(r.value, START) == |sizes|
    ensures r.Some? ==> Count(r.value, PAD) == Count(prompt, PAD) + PatchTotal(sizes)
  {
    hide Interleave, Count, Split, Collapse, ImageTokenString, OccursAt, IsMarker, Concat;
    var placeholders := Count(prompt, START);
    if placeholders != |sizes| {
      return None;
    }
    var pieces := Split(prompt, START);
    var expanded := [pieces[0]];
    ghost var grids := [];
    ConcatOne(pieces[0]);
    InterleaveOne(pieces[0]);
    assert pieces[..1] == [pieces[0]];
    for i := 0 to |sizes|
      invariant |grids| == i && forall k :: 0 <= k < i ==> Drawable(sizes[k])
      invariant forall k :: 0 <= k < i ==> grids[k] == ImageTokenString(sizes[k].0, sizes[k].1).value
      invariant Concat(expanded) == Interleave(pieces[..i + 1], grids)
    {
      var (height, width) := sizes[i];
      var grid := ImageTokenString(height, width);
      if grid.None? {
        assert !Drawable(sizes[i]);
        return None;
      }
      ConcatTwo(expanded, grid.value, pieces[i + 1]);
      InterleaveSnoc(pieces[..i + 1], grids, grid.value, pieces[i + 1]);
      assert pieces[..i + 1] + [pieces[i + 1]] == pieces[..i + 2];
      expanded := expanded + [grid.value, pieces[i + 1]];
      grids := grids + [grid.value];
    }
    assert pieces[..|sizes| + 1] == pieces && grids == Grids(sizes);
    ExpansionFacts(prompt, sizes);
    return Some(Concat(expanded));
  }

  lemma InterleaveOne(piece: string)
    ensures Interleave([piece], []) == piece
  {
  }

  lemma ConcatTwo(parts: seq<string>, a: string, b: string)
    ensures Concat(parts + [a, b]) == Concat(parts) + (a + b)
  {
    hide Concat;
    ConcatAppend(parts, [a, b]);
    ConcatAppend([a], [b]);
    ConcatOne(a);
    ConcatOne(b);
    assert [a] + [b] == [a, b];
  }

  /** What holds of a prompt's pieces with the grids between them. */
  lemma ExpansionFacts(prompt: string, sizes: seq<Size>)
    requires Count(prompt, START) == |sizes| && AllDrawable(sizes)
    ensures var s := Interleave(Split(prompt, START), Grids(sizes));
            && Collapse(s, START, END) == prompt
            && Count(s, START) == |sizes|
            && Count(s, PAD) == Count(prompt, PAD) + PatchTotal(sizes)
  {
    var pieces, starts, grids := Split(prompt, START), Copies(START, |sizes|), Grids(sizes);
    assert START != "" && PAD != "";
    hide *;
    Markers();
    SplitRejoins(prompt, START);
    SplitClean(prompt, START);
    CollapseInterleave(pieces, sizes);
    GridsEdges(sizes);
    StartsEdges(|sizes|);
    CountGrids(sizes);
    CountInterleave(pieces, grids, START);
    CountInterleave(pieces, starts, START);
    CountCopies(START, START, |sizes|);
    CountInterleave(pieces, grids, PAD);
    CountInterleave(pieces, starts, PAD);
    CountCopies(PAD, START, |sizes|);
  }

  lemma GridsEdges(sizes: seq<Size>)
    requires AllDrawable(sizes)
    ensures |Grids(sizes)| == |sizes|
    ensures forall k :: 0 <= k < |sizes| ==>
              var g := Grids(sizes)[k]; g != "" && g[0] == '<' && g[|g| - 1] == '>'
  {
    hide ImageTokenString;
    forall k | 0 <= k < |sizes| ensures var g := Grids(sizes)[k]; g != "" && g[0] == '<' && g[|g| - 1] == '>' {
      GridEdges(sizes[k]);
    }
  }

  lemma StartsEdges(n: nat)
    ensures |Copies(START, n)| == n
    ensures forall k :: 0 <= k < n ==>
              var g := Copies(START, n)[k]; g != "" && g[0] == '<' && g[|g| - 1] == '>'
  {
  }
}
