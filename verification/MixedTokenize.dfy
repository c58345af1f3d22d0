/** Tokenizing a data set of media and text rows one modality at a time, and putting the survivors back in order. */
module MixedTokenize {
  import opened Options
  import opened StableSort

  // Tokenizing a row is a function `tok`; a row without a result is dropped.

  // ---- the plain in-order pass ----

  lemma IncreasingSnoc(s: seq<nat>, n: nat)
    requires Increasing(s) && forall i :: i in s ==> i < n
    ensures Increasing(s + [n]) && forall i :: i in s + [n] <==> i in s || i == n
  {
    assert forall k :: 0 <= k < |s| ==> s[k] in s;
  }

  /** The indices of the rows that survive, in order. */
  function Survivors<Row, Out>(rows: seq<Row>, tok: Row -> Option<Out>): (r: seq<nat>)
    ensures Increasing(r) && forall i :: i in r <==> 0 <= i < |rows| && tok(rows[i]).Some?
  {
    if rows == [] then []
    else
      var n := |rows| - 1;
      var before := Survivors(rows[..n], tok);
      IncreasingSnoc(before, n);
      if tok(rows[n]).Some? then before + [n] else before
  }

  predicate Increasing(s: seq<nat>) {
    forall a, b :: 0 <= a < b < |s| ==> s[a] < s[b]
  }

  /** The tokenized rows with these indices. */
  function Tokenized<Row, Out>(rows: seq<Row>, tok: Row -> Option<Out>, indices: seq<nat>): (r: seq<Out>)
    requires AllSurvive(rows, tok, indices)
  {
    seq(|indices|, k requires 0 <= k < |indices| => tok(rows[indices[k]]).value)
  }

  predicate AllSurvive<Row, Out>(rows: seq<Row>, tok: Row -> Option<Out>, indices: seq<nat>) {
    forall k :: 0 <= k < |indices| ==> indices[k] < |rows| && tok(rows[indices[k]]).Some?
  }

  /** What one pass over the rows in order gives. */
  function InOrder<Row, Out>(rows: seq<Row>, tok: Row -> Option<Out>): seq<Out> {
    var indices := Survivors(rows, tok);
    assert forall k :: 0 <= k < |indices| ==> indices[k] in indices;
    Tokenized(rows, tok, indices)
  }

  /** Increasing lists with the same elements are the same list. */
  lemma {:induction false} IncreasingUnique(a: seq<nat>, b: seq<nat>)
    requires Increasing(a) && Increasing(b) && forall x :: x in a <==> x in b
    ensures a == b
    decreases |a|
  {
    if a == [] {
      assert forall k :: 0 <= k < |b| ==> b[k] in b;
    } else {
      var x, y := a[|a| - 1], b;
      assert a[|a| - 1] in b;
      assert b[|b| - 1] in a;
      assert a[|a| - 1] == b[|b| - 1];
      var a', b' := a[..|a| - 1], b[..|b| - 1];
      assert a == a' + [x] && b == b' + [x];
      forall z ensures z in a' <==> z in b' {
        assert z in a' ==> z in a && z < x;
        assert z in b' ==> z in b && z < x;
      }
      IncreasingUnique(a', b');
    }
  }

  // ---- splitting by modality ----

  /** `np.flatnonzero` of the mask or of its complement. */
  function Positions(mask: seq<bool>, value: bool): (r: seq<nat>)
    ensures Increasing(r) && forall i :: i in r <==> 0 <= i < |mask| && mask[i] == value
  {
    if mask == [] then []
    else
      var n := |mask| - 1;
      var before := Positions(mask[..n], value);
      IncreasingSnoc(before, n);
      if mask[n] == value then before + [n] else before
  }

  lemma {:induction false} PositionsPartition(mask: seq<bool>)
    ensures |Positions(mask, true)| + |Positions(mask, false)| == |mask|
    decreases |mask|
  {
    if mask != [] {
      PositionsPartition(mask[..|mask| - 1]);
    }
  }

  /** The two index lists, or nothing when one of them is empty. */
  function SplitMediaIndices(mask: seq<bool>): Option<(seq<nat>, seq<nat>)> {
    var media, text := Positions(mask, true), Positions(mask, false);
    if media == [] || text == [] then None else Some((media, text))
  }

  /** Rows of both kinds are split; with only one kind there is nothing to split. */
  lemma SplitsWhenMixed(mask: seq<bool>)
    ensures SplitMediaIndices(mask).Some? <==> true in mask && false in mask
    ensures SplitMediaIndices(mask).Some? ==>
              var (media, text) := SplitMediaIndices(mask).value;
              && (forall i :: i in media <==> 0 <= i < |mask| && mask[i])
              && (forall i :: i in text <==> 0 <= i < |mask| && !mask[i])
  {
    var media, text := Positions(mask, true), Positions(mask, false);
    if true in mask {
      var i :| 0 <= i < |mask| && mask[i] == true;
      assert i in media;
    }
    if false in mask {
      var i :| 0 <= i < |mask| && mask[i] == false;
      assert i in text;
    }
    assert media != [] ==> media[0] in media;
    assert text != [] ==> text[0] in text;
  }

  // ---- tokenizing one part ----

  /** `rows` and `ids` are the survivors of `part` and where in it they were. */
  ghost predicate Tracked<Row, Out>(part: seq<Row>, tok: Row -> Option<Out>, rows: seq<Out>, ids: seq<nat>) {
    ids == Survivors(part, tok) && AllSurvive(part, tok, ids) && rows == Tokenized(part, tok, ids)
  }

  lemma TrackedSnoc<Row, Out>(part: seq<Row>, tok: Row -> Option<Out>, rows: seq<Out>, ids: seq<nat>, row: Row)
    requires Tracked(part, tok, rows, ids)
    ensures match tok(row)
            case None => Tracked(part + [row], tok, rows, ids)
            case Some(out) => Tracked(part + [row], tok, rows + [out], ids + [|part|])
  {
    SurvivorsSnoc(part, tok, row);
    hide Survivors;
    var part' := part + [row];
    assert forall k :: 0 <= k < |ids| ==> part'[ids[k]] == part[ids[k]];
    assert Tokenized(part', tok, ids) == rows;
    if tok(row).Some? {
      assert AllSurvive(part', tok, ids + [|part|]);
      assert Tokenized(part', tok, ids + [|part|]) == rows + [tok(row).value];
    }
  }

  lemma SurvivorsSnoc<Row, Out>(part: seq<Row>, tok: Row -> Option<Out>, row: Row)
    ensures Survivors(part + [row], tok) == Survivors(part, tok) + if tok(row).Some? then [|part|] else []
  {
    assert (part + [row])[..|part|] == part;
  }

  /** The in-order pass, row by row: every row that gives a result adds it, and no other. */
  lemma InOrderSnoc<Row, Out>(rows: seq<Row>, tok: Row -> Option<Out>, row: Row)
    ensures InOrder([], tok) == []
    ensures InOrder(rows + [row], tok)
            == InOrder(rows, tok) + match tok(row) { case None => [] case Some(out) => [out] }
  {
    var ids := Survivors(rows, tok);
    assert forall k :: 0 <= k < |ids| ==> ids[k] in ids;
    TrackedSnoc(rows, tok, InOrder(rows, tok), ids, row);
    hide Survivors;
  }

  /** One batch, row by row; survivors carry their index in the part. */
  method TokenizeRowTracked<Row, Out>(
    ghost done: seq<Row>, batch: seq<Row>, first: nat, tok: Row -> Option<Out>, rows0: seq<Out>, ids0: seq<nat>)
    returns (rows: seq<Out>, ids: seq<nat>)
    requires Tracked(done, tok, rows0, ids0) && first == |done|
    ensures Tracked(done + batch, tok, rows, ids)
  {
    hide Tracked;
    rows, ids := rows0, ids0;
    assert done + batch[..0] == done;
    for i := 0 to |batch|
      invariant Tracked(done + batch[..i], tok, rows, ids)
    {
      TrackedSnoc(done + batch[..i], tok, rows, ids, batch[i]);
      assert done + batch[..i] + [batch[i]] == done + batch[..i + 1];
      match tok(batch[i])
      case None =>
      case Some(out) =>
        rows := rows + [out];
        ids := ids + [first + i];
    }
    assert batch[..|batch|] == batch;
  }

  /** `row.get(key)`. */
  function Get<V>(row: map<string, V>, key: string): Option<V> {
    if key in row then Some(row[key]) else None
  }

  /** The columns a batch of tokenized rows is written as: every key of some row, a null where a row lacks it. */
  method ToColumns<V>(rows: seq<map<string, V>>) returns (columns: map<string, seq<Option<V>>>)
    ensures forall key :: key in columns <==> exists i :: 0 <= i < |rows| && key in rows[i]
    ensures forall key :: key in columns ==>
              |columns[key]| == |rows| && forall i :: 0 <= i < |rows| ==> columns[key][i] == Get(rows[i], key)
  {
    var keys: set<string> := {};
    for i := 0 to |rows|
      invariant forall key :: key in keys <==> exists k :: 0 <= k < i && key in rows[k]
    {
      keys := keys + rows[i].Keys;
    }
    columns := map key | key in keys :: seq(|rows|, i requires 0 <= i < |rows| => Get(rows[i], key));
  }

  /** What a row of the columns holds besides nulls. */
  function RowOf<V>(columns: map<string, seq<Option<V>>>, i: nat): map<string, V> {
    map key | key in columns && i < |columns[key]| && columns[key][i].Some? :: columns[key][i].value
  }

  /** Every tokenized row can be read back from the columns. */
  lemma ColumnsKeepRows<V>(rows: seq<map<string, V>>, columns: map<string, seq<Option<V>>>, i: nat)
    requires forall key :: key in columns <==> exists k :: 0 <= k < |rows| && key in rows[k]
    requires forall key :: key in columns ==>
               |columns[key]| == |rows| && forall k :: 0 <= k < |rows| ==> columns[key][k] == Get(rows[k], key)
    requires i < |rows|
    ensures RowOf(columns, i) == rows[i]
  {
    var r := RowOf(columns, i);
    forall key ensures key in r <==> key in rows[i] {
      if key in rows[i] {
        assert key in columns && columns[key][i] == Get(rows[i], key);
      }
    }
  }

  /** A part in batches; a batch size that is not positive means one batch. */
  method TokenizePart<Row, Out>(part: seq<Row>, tok: Row -> Option<Out>, batchSize: int)
    returns (rows: seq<Out>, ids: seq<nat>)
    ensures Tracked(part, tok, rows, ids)
  {
    rows, ids := [], [];
    var start := 0;
    assert part[..0] == [];
    while start < |part|
      invariant 0 <= start <= |part|
      invariant Tracked(part[..start], tok, rows, ids)
    {
      hide Tracked;
      var end := if batchSize <= 0 || start + batchSize > |part| then |part| else start + batchSize;
      rows, ids := TokenizeRowTracked(part[..start], part[start..end], start, tok, rows, ids);
      assert part[..start] + part[start..end] == part[..end];
      start := end;
    }
    assert part[..|part|] == part;
  }

  // ---- the whole mixed branch ----

  /** The indices of a part's rows in the data set, applied to the part-relative ones. */
  ghost predicate SourceRows<Row, Out>(
    dataset: seq<Row>, tok: Row -> Option<Out>, merged: seq<Out>, sources: seq<nat>, covered: set<nat>)
  {
    AllSurvive(dataset, tok, sources) && merged == Tokenized(dataset, tok, sources)
    && (forall a, b :: 0 <= a < b < |sources| ==> sources[a] != sources[b])
    && (forall i :: i in sources <==> i in covered && i < |dataset| && tok(dataset[i]).Some?)
  }

  /** The part-relative indices of the survivors, read as indices of the data set. */
  lemma PickedSurvivors<Row, Out>(
    dataset: seq<Row>, tok: Row -> Option<Out>, indices: seq<nat>, part: seq<Row>, ids: seq<nat>)
    requires forall k :: 0 <= k < |indices| ==> indices[k] < |dataset|
    requires |part| == |indices| && forall k :: 0 <= k < |part| ==> part[k] == dataset[indices[k]]
    requires ids == Survivors(part, tok)
    ensures forall k :: 0 <= k < |ids| ==> ids[k] < |indices|
    ensures forall i :: i in Picked(indices, ids) <==> i in indices && tok(dataset[i]).Some?
  {
    assert forall k :: 0 <= k < |ids| ==> ids[k] in ids;
    var picked := Picked(indices, ids);
    forall i ensures i in picked <==> i in indices && tok(dataset[i]).Some? {
      if i in picked {
        var k :| 0 <= k < |picked| && picked[k] == i;
        assert indices[ids[k]] in indices;
      }
      if i in indices && tok(dataset[i]).Some? {
        var j :| 0 <= j < |indices| && indices[j] == i;
        assert tok(part[j]).Some? && j in ids;
        var k :| 0 <= k < |ids| && ids[k] == j;
        assert picked[k] == i;
      }
    }
  }

  lemma PickedIncreasing(indices: seq<nat>, ids: seq<nat>)
    requires Increasing(indices) && Increasing(ids) && forall k :: 0 <= k < |ids| ==> ids[k] < |indices|
    ensures Increasing(Picked(indices, ids))
  {
  }

  /** Appending a part's survivors, with their source indices. */
  lemma AppendPart<Row, Out>(
    dataset: seq<Row>, tok: Row -> Option<Out>, merged: seq<Out>, sources: seq<nat>, covered: set<nat>,
    indices: seq<nat>, part: seq<Row>, rows: seq<Out>, ids: seq<nat>)
    requires SourceRows(dataset, tok, merged, sources, covered)
    requires Increasing(indices) && forall k :: 0 <= k < |indices| ==> indices[k] < |dataset| && indices[k] !in covered
    requires |part| == |indices| && forall k :: 0 <= k < |part| ==> part[k] == dataset[indices[k]]
    requires Tracked(part, tok, rows, ids)
    ensures forall k :: 0 <= k < |ids| ==> ids[k] < |indices|
    ensures SourceRows(dataset, tok, merged + rows, sources + Picked(indices, ids), covered + (set i | i in indices))
  {
    PickedSurvivors(dataset, tok, indices, part, ids);
    PickedIncreasing(indices, ids);
    var picked := Picked(indices, ids);
    assert forall k :: 0 <= k < |picked| ==> picked[k] in picked;
    assert rows == Tokenized(dataset, tok, picked);
    JoinSources(dataset, tok, merged, sources, covered, rows, picked, set i | i in indices);
  }

  lemma JoinSources<Row, Out>(
    dataset: seq<Row>, tok: Row -> Option<Out>, merged: seq<Out>, sources: seq<nat>, covered: set<nat>,
    rows: seq<Out>, picked: seq<nat>, more: set<nat>)
    requires SourceRows(dataset, tok, merged, sources, covered) && covered !! more
    requires SourceRows(dataset, tok, rows, picked, more)
    ensures SourceRows(dataset, tok, merged + rows, sources + picked, covered + more)
  {
    assert forall k :: 0 <= k < |picked| ==> picked[k] in picked;
    assert forall k :: 0 <= k < |sources| ==> sources[k] in sources;
    assert AllSurvive(dataset, tok, sources + picked);
    assert merged + rows == Tokenized(dataset, tok, sources + picked);
  }

  /** Picking by the argsort of the source indices gives the in-order pass. */
  lemma RestoreIsInOrder<Row, Out>(
    dataset: seq<Row>, tok: Row -> Option<Out>, merged: seq<Out>, sources: seq<nat>, covered: set<nat>, order: seq<nat>)
    requires SourceRows(dataset, tok, merged, sources, covered) && forall i: nat :: i < |dataset| ==> i in covered
    requires IsArgSort(sources, order, |sources|)
    ensures |merged| == |sources| == |Survivors(dataset, tok)|
    ensures Picked(merged, order) == InOrder(dataset, tok)
  {
    var sorted := Picked(sources, order);
    assert Increasing(sorted);
    forall i ensures i in sorted <==> i in Survivors(dataset, tok) {
      if i in sources {
        var k :| 0 <= k < |sources| && sources[k] == i;
        assert k in order;
        var q :| 0 <= q < |order| && order[q] == k;
        assert sorted[q] == i;
      }
      if i in sorted {
        var q :| 0 <= q < |sorted| && sorted[q] == i;
        assert sources[order[q]] in sources;
      }
    }
    IncreasingUnique(sorted, Survivors(dataset, tok));
    assert forall k :: 0 <= k < |order| ==> Picked(merged, order)[k] == tok(dataset[sorted[k]]).value;
  }

  /** One modality: select its rows, tokenize them, and keep their outputs with their source indices. */
  method AddPart<Row, Out>(
    dataset: seq<Row>, tok: Row -> Option<Out>, batchSize: int, indices: seq<nat>,
    merged: seq<Out>, sources: seq<nat>, ghost covered: set<nat>)
    returns (merged': seq<Out>, sources': seq<nat>)
    requires SourceRows(dataset, tok, merged, sources, covered)
    requires Increasing(indices) && forall k :: 0 <= k < |indices| ==> indices[k] < |dataset| && indices[k] !in covered
    ensures SourceRows(dataset, tok, merged', sources', covered + (set i | i in indices))
  {
    hide SourceRows, Tracked;
    var part := Picked(dataset, indices);
    var rows, ids := TokenizePart(part, tok, batchSize);
    AppendPart(dataset, tok, merged, sources, covered, indices, part, rows, ids);
    TrackedLengths(part, tok, rows, ids);
    var picked := Picked(indices, ids);
    merged', sources' := merged, sources;
    if rows != [] {
      merged', sources' := merged + rows, sources + picked;
    } else {
      assert merged + rows == merged && sources + picked == sources;
    }
  }

  lemma TrackedLengths<Row, Out>(part: seq<Row>, tok: Row -> Option<Out>, rows: seq<Out>, ids: seq<nat>)
    requires Tracked(part, tok, rows, ids)
    ensures |rows| == |ids|
  {
  }

  lemma SplitCovers(mask: seq<bool>)
    ensures var media, text := Positions(mask, true), Positions(mask, false);
            && (forall k :: 0 <= k < |media| ==> media[k] < |mask|)
            && (forall k :: 0 <= k < |text| ==> text[k] < |mask| && text[k] !in media)
            && (forall i: nat :: i < |mask| ==> i in media || i in text)
  {
    var media, text := Positions(mask, true), Positions(mask, false);
    assert forall k :: 0 <= k < |media| ==> media[k] in media;
    assert forall k :: 0 <= k < |text| ==> text[k] in text;
  }

  lemma OrderInRange(keys: seq<nat>, order: seq<nat>)
    requires IsArgSort(keys, order, |keys|)
    ensures forall k :: 0 <= k < |order| ==> order[k] < |keys|
  {
  }

  /** Media rows first, then text rows, then back into source order. The result is what one pass in order would give.
      The number of dropped rows is reported when some rows were dropped but not all of them. */
  method ProcessMixed<Row, Out>(dataset: seq<Row>, mask: seq<bool>, tok: Row -> Option<Out>, batchSize: int)
    returns (result: seq<Out>, reported: Option<int>)
    requires |mask| == |dataset| && SplitMediaIndices(mask).Some?
    ensures result == InOrder(dataset, tok)
    ensures reported.Some? <==> AnySurvives(dataset, tok) && AnyDropped(dataset, tok)
    ensures reported.Some? ==> reported.value == |dataset| - |result|
  {
    assert SourceRows<Row, Out>(dataset, tok, [], [], {});
    hide SourceRows, InOrder, IsArgSort, AnySurvives, AnyDropped;
    var (media, text) := SplitMediaIndices(mask).value;
    assert media == Positions(mask, true) && text == Positions(mask, false);
    SplitCovers(mask);
    assert forall k :: 0 <= k < |text| ==> text[k] < |dataset| && text[k] !in media;
    var merged: seq<Out>, sources: seq<nat> := [], [];
    merged, sources := AddPart(dataset, tok, batchSize, media, merged, sources, {});
    ghost var covered := {} + (set i | i in media);
    merged, sources := AddPart(dataset, tok, batchSize, text, merged, sources, covered);
    covered := covered + (set i | i in text);
    var order := ArgSort(sources);
    RestoreIsInOrder(dataset, tok, merged, sources, covered, order);
    OrderInRange(sources, order);
    SurvivorsFit(dataset, tok);
    result := Picked(merged, order);
    if merged == [] {
      return [], None;
    }
    PositionsPartition(mask);
    var dropped := |media| + |text| - |merged|;
    reported := if dropped != 0 then Some(dropped) else None;
  }

  ghost predicate AnySurvives<Row, Out>(rows: seq<Row>, tok: Row -> Option<Out>) {
    exists i :: 0 <= i < |rows| && tok(rows[i]).Some?
  }

  ghost predicate AnyDropped<Row, Out>(rows: seq<Row>, tok: Row -> Option<Out>) {
    exists i :: 0 <= i < |rows| && tok(rows[i]).None?
  }

  lemma AnySnoc<Row, Out>(rows: seq<Row>, tok: Row -> Option<Out>, row: Row)
    ensures AnySurvives(rows + [row], tok) <==> AnySurvives(rows, tok) || tok(row).Some?
    ensures AnyDropped(rows + [row], tok) <==> AnyDropped(rows, tok) || tok(row).None?
  {
    var all := rows + [row];
    assert all[|rows|] == row && forall i :: 0 <= i < |rows| ==> all[i] == rows[i];
  }

  /** The number of survivors says whether any row survives, and whether any is dropped. */
  lemma {:induction false} SurvivorsFit<Row, Out>(rows: seq<Row>, tok: Row -> Option<Out>)
    ensures |Survivors(rows, tok)| <= |rows| && |InOrder(rows, tok)| == |Survivors(rows, tok)|
    ensures AnySurvives(rows, tok) <==> |Survivors(rows, tok)| > 0
    ensures AnyDropped(rows, tok) <==> |Survivors(rows, tok)| < |rows|
    decreases |rows|
  {
    assert rows == [] ==> !AnySurvives(rows, tok) && !AnyDropped(rows, tok) && Survivors(rows, tok) == [];
    hide AnySurvives, AnyDropped, Survivors, AllSurvive;
    if rows != [] {
      var before, row := rows[..|rows| - 1], rows[|rows| - 1];
      assert before + [row] == rows;
      SurvivorsFit(before, tok);
      SurvivorsSnoc(before, tok, row);
      AnySnoc(before, tok, row);
    }
  }

  /** When no row survives nothing is reported, although rows were dropped. */
  lemma AllDropped()
    ensures var tok: int -> Option<int> := _ => None;
            AnyDropped([0, 1], tok) && !AnySurvives([0, 1], tok) && SplitMediaIndices([true, false]).Some?
  {
    var tok: int -> Option<int> := _ => None;
    assert tok([0, 1][0]).None?;
    assert true == [true, false][0] && false == [true, false][1];
    assert 0 in Positions([true, false], true) && 1 in Positions([true, false], false);
  }
}
