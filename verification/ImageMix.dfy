/** Building train, dev and test splits of image questions whose images cannot overlap. */
module ImageMix {
  import opened Options
  import opened Sequences
  import opened StableSort

  // Hashes are taken as injective: a digest stands for the image bytes, a state key for the state with its digests.

  datatype Record = Record(source: string, id: string, group: string, state: string)

  /** A row of a source: whether it has an image, what it normalizes to, and the image's digest and size if its bytes
      can be read. */
  datatype Row = Row(present: bool, record: Option<Record>, image: Option<(string, nat)>)

  /** A materialized record. */
  datatype Kept = Kept(record: Record, digest: string)
  {
    function StateKey(): (string, string) {
      (record.state, digest)
    }
  }

  datatype Error = DuplicateId | TooFewCandidates | NoBytes | TooFewRecords | GroupOverlap | ImageOverlap

  datatype Result<+T> = Ok(value: T) | Err(error: Error)

  datatype Drops = Drops(noImage: nat, invalid: nat, stateOverlap: nat, imageOverlap: nat)

  datatype Materialized = Materialized(records: seq<Kept>, drops: Drops, scanned: nat)

  // ---- the images on disk ----

  datatype Extension = Png | Jpg
  {
    function Suffix(): string {
      if Png? then ".png" else ".jpg"
    }
  }

  /** The images of a run and the files of its directory, by path and by the digest of what is in them. The payload,
      and so the digest, decides the extension. */
  class ImageStore {
    const extension: string -> Extension
    var written: map<string, nat>
    var files: map<string, string>

    function PathOf(digest: string): string {
      "images/" + digest + extension(digest).Suffix()
    }

    /** Every image of the run is in its file. */
    ghost predicate Valid()
      reads this
    {
      forall d :: d in written ==> Holds(d)
    }

    ghost predicate Holds(digest: string)
      reads this
    {
      PathOf(digest) in files && files[PathOf(digest)] == digest
    }

    constructor (extension: string -> Extension, files: map<string, string>)
      ensures Valid() && written == map[] && this.files == files && this.extension == extension
    {
      this.extension, this.files := extension, files;
      written := map[];
    }

    lemma PathsDiffer(a: string, b: string)
      requires PathOf(a) == PathOf(b)
      ensures a == b
    {
      assert PathOf(a)[7..|PathOf(a)| - 4] == a;
      assert PathOf(b)[7..|PathOf(b)| - 4] == b;
    }

    /** Writes an image once and keeps the first size. What the file held before does not matter, and no other file is
        touched. */
    method PutPayload(digest: string, size: nat) returns (relative: string)
      requires Valid()
      modifies this
      ensures Valid() && relative == PathOf(digest) && Holds(digest)
      ensures written.Keys == old(written.Keys) + {digest}
      ensures forall d :: d in written ==> written[d] == if d in old(written) then old(written)[d] else size
      ensures forall p :: p != relative ==>
                (p in files <==> p in old(files)) && (p in files ==> files[p] == old(files)[p])
    {
      relative := PathOf(digest);
      if digest !in written {
        if relative !in files || files[relative] != digest {
          forall d | d in written ensures PathOf(d) != relative {
            if PathOf(d) == relative {
              PathsDiffer(d, digest);
            }
          }
          files := files[relative := digest];
        }
        written := written[digest := size];
      }
    }
  }

  // ---- candidates ----

  /** A row with an image that normalizes to a record. */
  predicate IsCandidate(row: Row) {
    row.present && row.record.Some?
  }

  function Candidates(rows: seq<Row>): (r: seq<Row>)
    ensures forall k :: 0 <= k < |r| ==> IsCandidate(r[k])
  {
    if rows == [] then []
    else
      var n := |rows| - 1;
      Candidates(rows[..n]) + if IsCandidate(rows[n]) then [rows[n]] else []
  }

  /** How many rows satisfy `p`. */
  function Tally(rows: seq<Row>, p: Row -> bool): nat {
    if rows == [] then 0 else Tally(rows[..|rows| - 1], p) + if p(rows[|rows| - 1]) then 1 else 0
  }

  lemma TallySnoc(rows: seq<Row>, row: Row, p: Row -> bool)
    ensures Tally(rows + [row], p) == Tally(rows, p) + if p(row) then 1 else 0
  {
    assert (rows + [row])[..|rows|] == rows;
  }

  const WithoutImage := (row: Row) => !row.present
  const NotNormalized := (row: Row) => row.present && row.record.None?

  function IdOf(row: Row): string {
    if row.record.Some? then row.record.value.id else ""
  }

  function Ids(candidates: seq<Row>): set<string> {
    set c | c in candidates :: IdOf(c)
  }

  /** Two candidates carry the same id. */
  ghost predicate DuplicateIds(candidates: seq<Row>) {
    exists a, b :: 0 <= a < b < |candidates| && IdOf(candidates[a]) == IdOf(candidates[b])
  }

  function Ranks(candidates: seq<Row>, rank: string -> nat): (r: seq<nat>)
    ensures |r| == |candidates| && forall k :: 0 <= k < |r| ==> r[k] == rank(IdOf(candidates[k]))
  {
    seq<nat>(|candidates|, k requires 0 <= k < |candidates| => rank(IdOf(candidates[k])))
  }

  /** The candidates sorted by rank, equal ranks in row order. */
  ghost predicate InRankOrder(candidates: seq<Row>, rank: string -> nat, ordered: seq<Row>) {
    exists order :: IsArgSort(Ranks(candidates, rank), order, |candidates|) && ordered == Picked(candidates, order)
  }

  function Ranked(candidates: seq<Row>, rank: string -> nat): (ordered: seq<Row>)
    ensures InRankOrder(candidates, rank, ordered)
  {
    Picked(candidates, ArgSort(Ranks(candidates, rank)))
  }

  lemma RankOrderUnique(candidates: seq<Row>, rank: string -> nat, ordered: seq<Row>)
    requires InRankOrder(candidates, rank, ordered)
    ensures ordered == Ranked(candidates, rank)
  {
    var n, keys := |candidates|, Ranks(candidates, rank);
    var order :| IsArgSort(keys, order, n) && ordered == Picked(candidates, order);
    ArgSortUnique(keys, order, ArgSort(keys), n);
  }

  method CollectCandidates(rows: seq<Row>) returns (r: Result<seq<Row>>, noImage: nat, invalid: nat)
    ensures r.Err? <==> DuplicateIds(Candidates(rows))
    ensures r.Err? ==> r.error == DuplicateId
    ensures r.Ok? ==> r.value == Candidates(rows) && |rows| == noImage + invalid + |r.value|
    ensures r.Ok? ==> noImage == Tally(rows, WithoutImage) && invalid == Tally(rows, NotNormalized)
  {
    var candidates: seq<Row> := [];
    var seen: set<string> := {};
    noImage, invalid := 0, 0;
    assert rows[..0] == [] && !DuplicateIds([]) && Ids([]) == {};
    hide DuplicateIds, Ids;
    for i := 0 to |rows|
      invariant candidates == Candidates(rows[..i]) && !DuplicateIds(candidates)
      invariant seen == Ids(candidates)
      invariant i == noImage + invalid + |candidates|
      invariant noImage == Tally(rows[..i], WithoutImage) && invalid == Tally(rows[..i], NotNormalized)
    {
      var row := rows[i];
      assert rows[..i + 1][..i] == rows[..i];
      if !row.present {
        noImage := noImage + 1;
        continue;
      }
      if row.record.None? {
        invalid := invalid + 1;
        continue;
      }
      if row.record.value.id in seen {
        DuplicateFound(candidates, row);
        DuplicateStays(rows, i + 1);
        return Err(DuplicateId), noImage, invalid;
      }
      NoDuplicateYet(candidates, row);
      seen := seen + {row.record.value.id};
      candidates := candidates + [row];
    }
    assert rows[..|rows|] == rows;
    r := Ok(candidates);
  }

  lemma DuplicateFound(candidates: seq<Row>, row: Row)
    requires IdOf(row) in Ids(candidates)
    ensures DuplicateIds(candidates + [row])
  {
    var c :| c in candidates && IdOf(c) == IdOf(row);
    var a :| 0 <= a < |candidates| && candidates[a] == c;
    assert (candidates + [row])[a] == c && (candidates + [row])[|candidates|] == row;
  }

  lemma NoDuplicateYet(candidates: seq<Row>, row: Row)
    requires IdOf(row) !in Ids(candidates) && !DuplicateIds(candidates)
    ensures !DuplicateIds(candidates + [row])
    ensures Ids(candidates + [row]) == Ids(candidates) + {IdOf(row)}
  {
    assert forall a :: 0 <= a < |candidates| ==> candidates[a] in candidates && IdOf(candidates[a]) in Ids(candidates);
  }

  lemma {:induction false} DuplicateStays(rows: seq<Row>, n: nat)
    requires n <= |rows| && DuplicateIds(Candidates(rows[..n]))
    ensures DuplicateIds(Candidates(rows))
    decreases |rows| - n
  {
    if n == |rows| {
      assert rows[..n] == rows;
    } else {
      var before, after := Candidates(rows[..n]), Candidates(rows[..n + 1]);
      assert rows[..n + 1][..n] == rows[..n];
      assert forall k :: 0 <= k < |before| ==> after[k] == before[k];
      DuplicateStays(rows, n + 1);
    }
  }

  // ---- the scan in rank order ----

  datatype Exclusion = Exclusion(states: set<(string, string)>, images: set<string>)

  predicate StateOverlaps(row: Row, ex: Exclusion) {
    IsCandidate(row) && row.image.Some? && (row.record.value.state, row.image.value.0) in ex.states
  }

  predicate ImageOverlaps(row: Row, ex: Exclusion) {
    row.image.Some? && row.image.value.0 in ex.images
  }

  function StateDrop(ex: Exclusion): Row -> bool {
    (row: Row) => StateOverlaps(row, ex)
  }

  /** An image is looked at only when the state does not overlap already. */
  function ImageDrop(ex: Exclusion): Row -> bool {
    (row: Row) => !StateOverlaps(row, ex) && ImageOverlaps(row, ex)
  }

  /** A candidate whose image can be read and overlaps nothing excluded. */
  predicate Usable(row: Row, ex: Exclusion) {
    IsCandidate(row) && row.image.Some? && !StateOverlaps(row, ex) && !ImageOverlaps(row, ex)
  }

  /** The usable rows, in order, as records. */
  function UsableRecords(rows: seq<Row>, ex: Exclusion): (r: seq<Kept>)
    ensures forall k :: 0 <= k < |r| ==> r[k].digest !in ex.images && r[k].StateKey() !in ex.states
  {
    if rows == [] then []
    else
      var n := |rows| - 1;
      UsableRecords(rows[..n], ex)
      + if Usable(rows[n], ex) then [Kept(rows[n].record.value, rows[n].image.value.0)] else []
  }

  lemma {:induction false} UsableAppend(a: seq<Row>, b: seq<Row>, ex: Exclusion)
    ensures UsableRecords(a + b, ex) == UsableRecords(a, ex) + UsableRecords(b, ex)
    decreases |b|
  {
    if b == [] {
      assert a + b == a;
    } else {
      var n := |b| - 1;
      assert (a + b)[..|a| + n] == a + b[..n];
      UsableAppend(a, b[..n], ex);
    }
  }

  /** The first `limit` of a list; all of it for limit 0. */
  function First(records: seq<Kept>, limit: nat): seq<Kept> {
    if limit == 0 || |records| <= limit then records else records[..limit]
  }

  function Digests(records: seq<Kept>): set<string> {
    set r | r in records :: r.digest
  }

  function States(records: seq<Kept>): set<(string, string)> {
    set r | r in records :: r.StateKey()
  }

  /** The scan comes to row `k` and cannot read its image: the limit is not reached with the rows before it. */
  ghost predicate Unreadable(ordered: seq<Row>, limit: nat, ex: Exclusion, k: nat) {
    k < |ordered| && ordered[k].image.None? && (limit == 0 || |UsableRecords(ordered[..k], ex)| < limit)
  }

  lemma UsableGrows(ordered: seq<Row>, n: nat, k: nat, ex: Exclusion)
    requires n <= k <= |ordered|
    ensures |UsableRecords(ordered[..n], ex)| <= |UsableRecords(ordered[..k], ex)|
  {
    assert ordered[..n] + ordered[n..k] == ordered[..k];
    UsableAppend(ordered[..n], ordered[n..k], ex);
  }

  /** The scan looks at the first `scanned` rows: no fewer than it needs for `limit` records, and no more. */
  ghost predicate StopsAt(ordered: seq<Row>, limit: nat, ex: Exclusion, scanned: nat) {
    scanned <= |ordered|
    && (forall k :: 0 <= k < scanned ==> limit == 0 || |UsableRecords(ordered[..k], ex)| < limit)
    && (scanned < |ordered| ==> limit != 0 && |UsableRecords(ordered[..scanned], ex)| == limit)
  }

  /** What a scan has to show for the rows it has looked at. */
  ghost predicate ScanOf(looked: seq<Row>, ex: Exclusion, records: seq<Kept>, stateOverlap: nat, imageOverlap: nat) {
    && records == UsableRecords(looked, ex)
    && stateOverlap == Tally(looked, StateDrop(ex))
    && imageOverlap == Tally(looked, ImageDrop(ex))
    && |looked| == |records| + stateOverlap + imageOverlap
  }

  /** The scan stands before row `i`. */
  ghost predicate Scanning(
    ordered: seq<Row>, limit: nat, ex: Exclusion, i: nat, records: seq<Kept>, stateOverlap: nat, imageOverlap: nat)
  {
    && i <= |ordered| && ScanOf(ordered[..i], ex, records, stateOverlap, imageOverlap)
    && (limit == 0 || |records| <= limit)
    && forall k :: 0 <= k < i ==>
         ordered[k].image.Some? && (limit == 0 || |UsableRecords(ordered[..k], ex)| < limit)
  }

  lemma ScanBegins(ordered: seq<Row>, limit: nat, ex: Exclusion)
    ensures Scanning(ordered, limit, ex, 0, [], 0, 0)
  {
    assert ordered[..0] == [];
  }

  /** A row that is looked at is dropped for its state, dropped for its image, or kept. */
  lemma ScanRow(
    ordered: seq<Row>, limit: nat, ex: Exclusion, i: nat, records: seq<Kept>, stateOverlap: nat, imageOverlap: nat)
    requires Scanning(ordered, limit, ex, i, records, stateOverlap, imageOverlap)
    requires i < |ordered| && IsCandidate(ordered[i]) && ordered[i].image.Some? && (limit == 0 || |records| < limit)
    ensures var state, digest := ordered[i].record.value.state, ordered[i].image.value.0;
            if (state, digest) in ex.states then
              Scanning(ordered, limit, ex, i + 1, records, stateOverlap + 1, imageOverlap)
            else if digest in ex.images then
              Scanning(ordered, limit, ex, i + 1, records, stateOverlap, imageOverlap + 1)
            else
              var kept := Kept(ordered[i].record.value, digest);
              Scanning(ordered, limit, ex, i + 1, records + [kept], stateOverlap, imageOverlap)
  {
    hide Tally;
    var looked, row := ordered[..i], ordered[i];
    assert ordered[..i + 1] == looked + [row] && (looked + [row])[..i] == looked;
    TallySnoc(looked, row, StateDrop(ex));
    TallySnoc(looked, row, ImageDrop(ex));
  }

  lemma ScanRaises(
    ordered: seq<Row>, limit: nat, ex: Exclusion, i: nat, records: seq<Kept>, stateOverlap: nat, imageOverlap: nat)
    requires Scanning(ordered, limit, ex, i, records, stateOverlap, imageOverlap)
    requires i < |ordered| && ordered[i].image.None? && (limit == 0 || |records| < limit)
    ensures Unreadable(ordered, limit, ex, i)
  {
  }

  lemma ScanStops(
    ordered: seq<Row>, limit: nat, ex: Exclusion, i: nat, records: seq<Kept>, stateOverlap: nat, imageOverlap: nat)
    requires Scanning(ordered, limit, ex, i, records, stateOverlap, imageOverlap)
    requires i == |ordered| || (limit != 0 && |records| == limit)
    ensures StopsAt(ordered, limit, ex, i)
    ensures ScanOf(ordered[..i], ex, records, stateOverlap, imageOverlap)
    ensures records == First(UsableRecords(ordered, ex), limit)
    ensures forall k: nat :: !Unreadable(ordered, limit, ex, k)
  {
    hide Tally, UsableRecords, Unreadable, First;
    ScanComplete(ordered, limit, ex, i);
  }

  /** Goes down the ranking until `limit` records are kept. */
  method ScanRanking(ordered: seq<Row>, limit: nat, ex: Exclusion, store: ImageStore)
    returns (r: Result<(seq<Kept>, nat, nat, nat)>)
    requires (forall k :: 0 <= k < |ordered| ==> IsCandidate(ordered[k])) && store.Valid()
    modifies store
    ensures store.Valid()
    ensures r.Err? <==> exists k :: Unreadable(ordered, limit, ex, k)
    ensures r.Err? ==> r.error == NoBytes
    ensures r.Ok? ==>
              var (records, stateOverlap, imageOverlap, scanned) := r.value;
              && StopsAt(ordered, limit, ex, scanned)
              && ScanOf(ordered[..scanned], ex, records, stateOverlap, imageOverlap)
              && records == First(UsableRecords(ordered, ex), limit)
              && store.written.Keys == old(store.written.Keys) + Digests(records)
  {
    hide ImageStore.Valid, Scanning, ScanOf, StopsAt, Unreadable, UsableRecords, Digests;
    var records: seq<Kept> := [];
    var stateOverlap, imageOverlap, scanned := 0, 0, 0;
    ScanBegins(ordered, limit, ex);
    NoRecords();
    var i := 0;
    while i < |ordered|
      invariant i == scanned <= |ordered| && store.Valid()
      invariant Scanning(ordered, limit, ex, i, records, stateOverlap, imageOverlap)
      invariant limit == 0 || |records| <= limit
      invariant store.written.Keys == old(store.written.Keys) + Digests(records)
    {
      if limit != 0 && |records| == limit {
        break;
      }
      var row := ordered[i];
      scanned := scanned + 1;
      if row.image.None? {
        ScanRaises(ordered, limit, ex, i, records, stateOverlap, imageOverlap);
        return Err(NoBytes);
      }
      ScanRow(ordered, limit, ex, i, records, stateOverlap, imageOverlap);
      i := i + 1;
      var (digest, size) := row.image.value;
      if (row.record.value.state, digest) in ex.states {
        stateOverlap := stateOverlap + 1;
        continue;
      }
      if digest in ex.images {
        imageOverlap := imageOverlap + 1;
        continue;
      }
      var _ := store.PutPayload(digest, size);
      DigestsSnoc(records, Kept(row.record.value, digest));
      records := records + [Kept(row.record.value, digest)];
    }
    ScanStops(ordered, limit, ex, i, records, stateOverlap, imageOverlap);
    r := Ok((records, stateOverlap, imageOverlap, scanned));
  }

  /** Rows past the point where the scan stops make no difference. */
  lemma ScanComplete(ordered: seq<Row>, limit: nat, ex: Exclusion, scanned: nat)
    requires StopsAt(ordered, limit, ex, scanned) && forall k :: 0 <= k < scanned ==> ordered[k].image.Some?
    requires limit == 0 || |UsableRecords(ordered[..scanned], ex)| <= limit
    ensures UsableRecords(ordered[..scanned], ex) == First(UsableRecords(ordered, ex), limit)
    ensures forall k: nat :: !Unreadable(ordered, limit, ex, k)
  {
    assert ordered[..scanned] + ordered[scanned..] == ordered;
    UsableAppend(ordered[..scanned], ordered[scanned..], ex);
    forall k: nat ensures !Unreadable(ordered, limit, ex, k) {
      if scanned <= k < |ordered| {
        UsableGrows(ordered, scanned, k, ex);
      }
    }
  }

  lemma DigestsSnoc(records: seq<Kept>, k: Kept)
    ensures Digests(records + [k]) == Digests(records) + {k.digest}
    ensures States(records + [k]) == States(records) + {k.StateKey()}
  {
    var all := records + [k];
    assert k in all && forall r :: r in all <==> r in records || r == k;
  }

  /** What comes of one source and split. */
  ghost function Outcome(rows: seq<Row>, rank: string -> nat, limit: nat, ex: Exclusion): Result<seq<Kept>> {
    var ordered := Ranked(Candidates(rows), rank);
    if DuplicateIds(Candidates(rows)) then Err(DuplicateId)
    else if |Candidates(rows)| < limit then Err(TooFewCandidates)
    else if exists k :: Unreadable(ordered, limit, ex, k) then Err(NoBytes)
    else if |UsableRecords(ordered, ex)| < limit then Err(TooFewRecords)
    else Ok(First(UsableRecords(ordered, ex), limit))
  }

  /** One source and split. The records are exactly the first `limit` usable candidates in rank order, every row and
      every scanned candidate is accounted for, and it raises exactly when and what `Outcome` says. */
  method Materialize(rows: seq<Row>, rank: string -> nat, limit: nat, ex: Exclusion, store: ImageStore)
    returns (r: Result<Materialized>)
    requires store.Valid()
    modifies store
    ensures store.Valid()
    ensures Outcome(rows, rank, limit, ex) == (if r.Err? then Err(r.error) else Ok(r.value.records))
    ensures r.Ok? ==> MaterializedFrom(rows, rank, limit, ex, r.value)
    ensures r.Ok? ==> store.written.Keys == old(store.written.Keys) + Digests(r.value.records)
  {
    hide ImageStore.Valid, UsableRecords, Tally, StopsAt, ScanOf;
    var collected, noImage, invalid := CollectCandidates(rows);
    if collected.Err? {
      return Err(collected.error);
    }
    var candidates := collected.value;
    if limit != 0 && |candidates| < limit {
      return Err(TooFewCandidates);
    }
    var ordered := Ranked(candidates, rank);
    var scan := ScanRanking(ordered, limit, ex, store);
    if scan.Err? {
      return Err(scan.error);
    }
    var (records, stateOverlap, imageOverlap, scanned) := scan.value;
    if limit != 0 && |records| < limit {
      return Err(TooFewRecords);
    }
    r := Ok(Materialized(records, Drops(noImage, invalid, stateOverlap, imageOverlap), scanned));
  }

  ghost predicate MaterializedFrom(rows: seq<Row>, rank: string -> nat, limit: nat, ex: Exclusion, m: Materialized) {
    var ordered := Ranked(Candidates(rows), rank);
    && !DuplicateIds(Candidates(rows))
    && m.records == First(UsableRecords(ordered, ex), limit)
    && (limit != 0 ==> |m.records| == limit)
    && StopsAt(ordered, limit, ex, m.scanned)
    && ScanOf(ordered[..m.scanned], ex, m.records, m.drops.stateOverlap, m.drops.imageOverlap)
    && m.drops.noImage == Tally(rows, WithoutImage) && m.drops.invalid == Tally(rows, NotNormalized)
    && |rows| == m.drops.noImage + m.drops.invalid + |Candidates(rows)|
  }

  /** What is materialized avoids everything excluded. */
  lemma MaterializedAvoids(rows: seq<Row>, rank: string -> nat, limit: nat, ex: Exclusion, m: Materialized)
    requires MaterializedFrom(rows, rank, limit, ex, m)
    ensures Avoids(m.records, ex)
  {
    var usable := UsableRecords(Ranked(Candidates(rows), rank), ex);
    assert forall k :: 0 <= k < |m.records| ==> m.records[k] == usable[k];
  }

  ghost predicate Avoids(records: seq<Kept>, ex: Exclusion) {
    Digests(records) !! ex.images && States(records) !! ex.states
  }

  // ---- what is materialized, in terms of the rows ----

  /** `order` sorts the candidates by the rank of their ids, equal ranks in row order. */
  ghost predicate Sorts(candidates: seq<Row>, rank: string -> nat, order: seq<nat>, ordered: seq<Row>) {
    && (forall k :: 0 <= k < |candidates| ==> candidates[k].record.Some?)
    && |order| == |ordered| == |candidates|
    && (forall k :: 0 <= k < |order| ==> order[k] < |candidates| && ordered[k] == candidates[order[k]])
    && (forall c: nat :: c < |candidates| ==> c in order)
    && (forall i, j :: 0 <= i < j < |order| ==>
          var a, b := rank(candidates[order[i]].record.value.id), rank(candidates[order[j]].record.value.id);
          a < b || (a == b && order[i] < order[j]))
  }

  /** The rank order is a permutation of the candidates, sorted by the rank of the ids, and stable. */
  lemma RankedSorts(candidates: seq<Row>, rank: string -> nat) returns (order: seq<nat>)
    requires forall k :: 0 <= k < |candidates| ==> IsCandidate(candidates[k])
    ensures Sorts(candidates, rank, order, Ranked(candidates, rank))
  {
    var keys := Ranks(candidates, rank);
    order := ArgSort(keys);
    assert forall i, j :: 0 <= i < j < |order| ==> Precedes(keys, order[i], order[j]);
    assert forall k :: 0 <= k < |candidates| ==> keys[k] == rank(candidates[k].record.value.id);
  }

  /** The row has an image that can be read, normalizes, and overlaps nothing excluded. */
  predicate Takes(row: Row, ex: Exclusion, k: Kept) {
    && row.present && row.record == Some(k.record) && row.image.Some? && row.image.value.0 == k.digest
    && k.digest !in ex.images && (k.record.state, k.digest) !in ex.states
  }

  /** Where the usable rows stand: at the increasing positions `at`. */
  ghost predicate UsableAt(rows: seq<Row>, ex: Exclusion, records: seq<Kept>, at: seq<nat>) {
    && |at| == |records|
    && (forall i :: 0 <= i < |at| ==> at[i] < |rows| && Takes(rows[at[i]], ex, records[i]))
    && (forall i, j :: 0 <= i < j < |at| ==> at[i] < at[j])
    && (forall q: nat, k :: q < |rows| && Takes(rows[q], ex, k) ==> q in at)
  }

  lemma {:induction false} UsablePositions(rows: seq<Row>, ex: Exclusion) returns (at: seq<nat>)
    ensures UsableAt(rows, ex, UsableRecords(rows, ex), at)
    decreases |rows|
  {
    if rows == [] {
      at := [];
    } else {
      var n := |rows| - 1;
      at := UsablePositions(rows[..n], ex);
      if Usable(rows[n], ex) {
        at := at + [n];
      }
    }
  }

  /** The kept records are in order of rank, of different ids, and each comes from a row that may be taken. A row that
      may be taken but was not ranks behind all of them, and then the limit is reached. */
  lemma MaterializedExactly(rows: seq<Row>, rank: string -> nat, limit: nat, ex: Exclusion, m: Materialized)
    requires MaterializedFrom(rows, rank, limit, ex, m)
    ensures forall k :: k in m.records ==> exists row :: row in rows && Takes(row, ex, k)
    ensures forall row, k :: row in rows && Takes(row, ex, k) && k !in m.records ==>
              0 < limit == |m.records| && forall j :: j in m.records ==> rank(j.record.id) <= rank(k.record.id)
    ensures forall i, j :: 0 <= i < j < |m.records| ==>
              rank(m.records[i].record.id) <= rank(m.records[j].record.id)
              && m.records[i].record.id != m.records[j].record.id
  {
    var candidates := Candidates(rows);
    var ordered := Ranked(candidates, rank);
    var order := RankedSorts(candidates, rank);
    var at := UsablePositions(ordered, ex);
    CandidateRows(rows);
    hide MaterializedFrom, Ranked, Candidates, UsableRecords;
    KeptRecords(rows, rank, limit, ex, m);
    FirstOnes(candidates, rank, limit, ex, ordered, order, at, UsableRecords(ordered, ex));
  }

  lemma KeptRecords(rows: seq<Row>, rank: string -> nat, limit: nat, ex: Exclusion, m: Materialized)
    requires MaterializedFrom(rows, rank, limit, ex, m)
    ensures m.records == First(UsableRecords(Ranked(Candidates(rows), rank), ex), limit)
    ensures !DuplicateIds(Candidates(rows))
  {
  }

  lemma {:induction false} CandidateRows(rows: seq<Row>)
    ensures forall row :: row in Candidates(rows) <==> row in rows && row.present && row.record.Some?
    decreases |rows|
  {
    if rows != [] {
      var n := |rows| - 1;
      CandidateRows(rows[..n]);
      assert rows == rows[..n] + [rows[n]];
    }
  }

  /** The first `limit` of the usable candidates in rank order. */
  lemma FirstOnes(
    candidates: seq<Row>, rank: string -> nat, limit: nat, ex: Exclusion, ordered: seq<Row>, order: seq<nat>,
    at: seq<nat>, usable: seq<Kept>)
    requires (forall k :: 0 <= k < |candidates| ==> IsCandidate(candidates[k])) && !DuplicateIds(candidates)
    requires Sorts(candidates, rank, order, ordered) && UsableAt(ordered, ex, usable, at)
    ensures var records := First(usable, limit);
            && (forall k :: k in records ==> exists row :: row in candidates && Takes(row, ex, k))
            && (forall row, k :: row in candidates && Takes(row, ex, k) && k !in records ==>
                  0 < limit == |records| && forall j :: j in records ==> rank(j.record.id) <= rank(k.record.id))
            && (forall i, j :: 0 <= i < j < |records| ==>
                  rank(records[i].record.id) <= rank(records[j].record.id)
                  && records[i].record.id != records[j].record.id)
  {
    var records := First(usable, limit);
    assert forall i :: 0 <= i < |records| ==> records[i] == usable[i];
    UsableSorted(candidates, rank, ex, ordered, order, at, usable);
    forall k | k in records ensures exists row :: row in candidates && Takes(row, ex, k) {
      var i :| 0 <= i < |records| && records[i] == k;
      assert ordered[at[i]] in candidates && Takes(ordered[at[i]], ex, k);
    }
    hide Takes;
    forall row, k | row in candidates && Takes(row, ex, k) && k !in records
      ensures 0 < limit == |records| && forall j :: j in records ==> rank(j.record.id) <= rank(k.record.id)
    {
      var i := UsablePlace(candidates, rank, ex, ordered, order, at, usable, row, k);
      assert usable[i] == k && i >= |records|;
    }
  }

  lemma UsablePlace(
    candidates: seq<Row>, rank: string -> nat, ex: Exclusion, ordered: seq<Row>, order: seq<nat>,
    at: seq<nat>, usable: seq<Kept>, row: Row, k: Kept) returns (i: nat)
    requires Sorts(candidates, rank, order, ordered) && UsableAt(ordered, ex, usable, at)
    requires row in candidates && Takes(row, ex, k)
    ensures i < |usable| && usable[i] == k
  {
    var c :| 0 <= c < |candidates| && candidates[c] == row;
    assert c in order;
    var q: nat :| q < |order| && order[q] == c;
    assert Takes(ordered[q], ex, k) && q in at;
    i :| 0 <= i < |at| && at[i] == q;
  }

  lemma UsableSorted(
    candidates: seq<Row>, rank: string -> nat, ex: Exclusion, ordered: seq<Row>, order: seq<nat>,
    at: seq<nat>, usable: seq<Kept>)
    requires (forall k :: 0 <= k < |candidates| ==> IsCandidate(candidates[k])) && !DuplicateIds(candidates)
    requires Sorts(candidates, rank, order, ordered) && UsableAt(ordered, ex, usable, at)
    ensures forall i, j :: 0 <= i < j < |usable| ==>
              rank(usable[i].record.id) <= rank(usable[j].record.id) && usable[i].record.id != usable[j].record.id
  {
    forall i, j | 0 <= i < j < |usable|
      ensures rank(usable[i].record.id) <= rank(usable[j].record.id) && usable[i].record.id != usable[j].record.id
    {
      var a, b := order[at[i]], order[at[j]];
      assert at[i] < at[j] && a != b;
      assert Takes(candidates[a], ex, usable[i]) && Takes(candidates[b], ex, usable[j]);
      DifferentIds(candidates, a, b);
    }
  }

  lemma DifferentIds(candidates: seq<Row>, a: nat, b: nat)
    requires !DuplicateIds(candidates) && a < |candidates| && b < |candidates| && a != b
    requires IsCandidate(candidates[a]) && IsCandidate(candidates[b])
    ensures candidates[a].record.value.id != candidates[b].record.value.id
  {
    assert IdOf(candidates[a]) != IdOf(candidates[b]);
  }

  /** The candidates stand at the increasing positions `at`. */
  ghost predicate CandidatesAt(rows: seq<Row>, at: seq<nat>) {
    && (forall i :: 0 <= i < |at| ==> at[i] < |rows|)
    && (forall q: nat :: q in at <==> q < |rows| && rows[q].present && rows[q].record.Some?)
    && (forall i, j :: 0 <= i < j < |at| ==> at[i] < at[j])
  }

  lemma {:induction false} CandidatePositions(rows: seq<Row>) returns (at: seq<nat>)
    ensures CandidatesAt(rows, at) && |Candidates(rows)| == |at|
    ensures forall i :: 0 <= i < |at| ==> Candidates(rows)[i] == rows[at[i]]
    decreases |rows|
  {
    if rows == [] {
      at := [];
    } else {
      var n := |rows| - 1;
      at := CandidatePositions(rows[..n]);
      if IsCandidate(rows[n]) {
        at := at + [n];
      }
    }
  }

  ghost predicate TwiceAt(rows: seq<Row>, at: seq<nat>)
    requires CandidatesAt(rows, at)
  {
    exists i, j :: 0 <= i < j < |at| && IdOf(rows[at[i]]) == IdOf(rows[at[j]])
  }

  ghost predicate UnreadableAt(rows: seq<Row>, at: seq<nat>)
    requires CandidatesAt(rows, at)
  {
    exists i :: 0 <= i < |at| && rows[at[i]].image.None?
  }

  /** What a split of a source fails with, in turn: an id that comes twice, and then fewer candidates than the limit.
      When every usable row is wanted only an unreadable image is left to fail with. */
  lemma ErrorsInTurn(rows: seq<Row>, rank: string -> nat, limit: nat, ex: Exclusion) returns (at: seq<nat>)
    ensures CandidatesAt(rows, at)
    ensures Outcome(rows, rank, limit, ex) == Err(DuplicateId) <==> TwiceAt(rows, at)
    ensures Outcome(rows, rank, limit, ex) == Err(TooFewCandidates) <==> !TwiceAt(rows, at) && |at| < limit
    ensures limit == 0 && !TwiceAt(rows, at) ==>
              if UnreadableAt(rows, at) then Outcome(rows, rank, limit, ex) == Err(NoBytes)
              else Outcome(rows, rank, limit, ex).Ok?
  {
    hide CandidatesAt, Candidates, Ranked, UsableRecords, First, DuplicateIds, Unreadable, TwiceAt, UnreadableAt;
    at := CandidatePositions(rows);
    DuplicatesAt(rows, at);
    UnreadableAnywhere(rows, rank, ex, at);
  }

  lemma DuplicatesAt(rows: seq<Row>, at: seq<nat>)
    requires CandidatesAt(rows, at) && |Candidates(rows)| == |at|
    requires forall i :: 0 <= i < |at| ==> Candidates(rows)[i] == rows[at[i]]
    ensures DuplicateIds(Candidates(rows)) <==> TwiceAt(rows, at)
  {
    hide Candidates;
  }

  /** Without a limit the scan comes to every candidate. */
  lemma UnreadableAnywhere(rows: seq<Row>, rank: string -> nat, ex: Exclusion, at: seq<nat>)
    requires CandidatesAt(rows, at) && |Candidates(rows)| == |at|
    requires forall i :: 0 <= i < |at| ==> Candidates(rows)[i] == rows[at[i]]
    ensures (exists k :: Unreadable(Ranked(Candidates(rows), rank), 0, ex, k)) <==> UnreadableAt(rows, at)
  {
    var order := RankedSorts(Candidates(rows), rank);
    SameImages(Candidates(rows), rank, order, Ranked(Candidates(rows), rank));
    NoLimit(Ranked(Candidates(rows), rank), ex);
    hide Candidates, Ranked, Sorts, Unreadable;
    assert UnreadableAt(rows, at) <==> exists i: nat :: i < |Candidates(rows)| && Candidates(rows)[i].image.None?;
  }

  lemma NoLimit(ordered: seq<Row>, ex: Exclusion)
    ensures (exists k :: Unreadable(ordered, 0, ex, k)) <==> exists q: nat :: q < |ordered| && ordered[q].image.None?
  {
    hide UsableRecords;
    if q: nat :| q < |ordered| && ordered[q].image.None? {
      assert Unreadable(ordered, 0, ex, q);
    }
  }

  lemma SameImages(candidates: seq<Row>, rank: string -> nat, order: seq<nat>, ordered: seq<Row>)
    requires Sorts(candidates, rank, order, ordered)
    ensures (exists i: nat :: i < |candidates| && candidates[i].image.None?)
            <==> (exists q: nat :: q < |ordered| && ordered[q].image.None?)
  {
    if i: nat :| i < |candidates| && candidates[i].image.None? {
      assert i in order;
      var q: nat :| q < |order| && order[q] == i;
      assert ordered[q].image.None?;
    }
    if q: nat :| q < |ordered| && ordered[q].image.None? {
      assert candidates[order[q]].image.None?;
    }
  }

  // ---- the splits ----

  /** A source has the rows of each split and a ranking for each. */
  datatype Source = Source(train: seq<Row>, dev: seq<Row>, test: seq<Row>, rank: (string, string) -> nat)

  datatype Split = Train | Dev | Test

  function RowsOf(s: Source, split: Split): seq<Row> {
    match split case Train => s.train case Dev => s.dev case Test => s.test
  }

  function SplitName(split: Split): string {
    match split case Train => "train" case Dev => "dev" case Test => "test"
  }

  function RankOf(s: Source, split: Split): (r: string -> nat)
    ensures forall id :: r(id) == s.rank(SplitName(split), id)
  {
    (id: string) => s.rank(SplitName(split), id)
  }

  /** The rows and the ranking of each split of a source, by the split's name. */
  lemma SplitParts(s: Source, id: string)
    ensures RowsOf(s, Train) == s.train && RankOf(s, Train)(id) == s.rank("train", id)
    ensures RowsOf(s, Dev) == s.dev && RankOf(s, Dev)(id) == s.rank("dev", id)
    ensures RowsOf(s, Test) == s.test && RankOf(s, Test)(id) == s.rank("test", id)
  {
  }

  function AllRecords(parts: seq<Materialized>): seq<Kept> {
    if parts == [] then [] else AllRecords(parts[..|parts| - 1]) + parts[|parts| - 1].records
  }

  /** The records of a split are those materialized from its sources, one after the other. */
  ghost predicate SplitFrom(sources: seq<Source>, split: Split, limit: nat, ex: Exclusion, records: seq<Kept>) {
    exists parts :: PartsFrom(sources, split, limit, ex, parts) && records == AllRecords(parts)
  }

  ghost predicate PartsFrom(sources: seq<Source>, split: Split, limit: nat, ex: Exclusion, parts: seq<Materialized>) {
    |parts| == |sources|
    && forall i :: 0 <= i < |sources| ==> PartFrom(sources[i], split, limit, ex, parts[i])
  }

  ghost predicate PartFrom(source: Source, split: Split, limit: nat, ex: Exclusion, m: Materialized) {
    MaterializedFrom(RowsOf(source, split), RankOf(source, split), limit, ex, m)
  }

  ghost function SourceOutcome(source: Source, split: Split, limit: nat, ex: Exclusion): Result<seq<Kept>> {
    Outcome(RowsOf(source, split), RankOf(source, split), limit, ex)
  }

  /** What comes of the sources of a split, one after the other. */
  ghost function SplitOutcome(sources: seq<Source>, split: Split, limit: nat, ex: Exclusion): Result<seq<Kept>> {
    if sources == [] then Ok([])
    else
      var before := SplitOutcome(sources[..|sources| - 1], split, limit, ex);
      if before.Err? then before
      else
        var here := SourceOutcome(sources[|sources| - 1], split, limit, ex);
        if here.Err? then here else Ok(before.value + here.value)
  }

  /** Source `i` is the first one that fails. */
  ghost predicate FailsFirst(sources: seq<Source>, split: Split, limit: nat, ex: Exclusion, i: nat, error: Error) {
    i < |sources| && SourceOutcome(sources[i], split, limit, ex) == Err(error)
    && forall j :: 0 <= j < i ==> SourceOutcome(sources[j], split, limit, ex).Ok?
  }

  /** A split fails exactly with the error of the first source that does. */
  lemma {:induction false} SplitFails(sources: seq<Source>, split: Split, limit: nat, ex: Exclusion, error: Error)
    ensures SplitOutcome(sources, split, limit, ex) == Err(error)
            <==> exists i: nat :: FailsFirst(sources, split, limit, ex, i, error)
    ensures SplitOutcome(sources, split, limit, ex).Ok?
            ==> forall i :: 0 <= i < |sources| ==> SourceOutcome(sources[i], split, limit, ex).Ok?
    decreases |sources|
  {
    hide SourceOutcome;
    if sources != [] {
      var n := |sources| - 1;
      var before := sources[..n];
      SplitFails(before, split, limit, ex, error);
      forall i: nat | FailsFirst(before, split, limit, ex, i, error)
        ensures FailsFirst(sources, split, limit, ex, i, error)
      {
        assert forall j :: 0 <= j <= i ==> before[j] == sources[j];
      }
      if SplitOutcome(before, split, limit, ex).Err? {
        var e := SplitOutcome(before, split, limit, ex).error;
        SplitFails(before, split, limit, ex, e);
        var k: nat :| FailsFirst(before, split, limit, ex, k, e);
        assert forall j :: 0 <= j <= k ==> before[j] == sources[j];
        assert SourceOutcome(sources[k], split, limit, ex).Err?;
        forall i: nat | FailsFirst(sources, split, limit, ex, i, error)
          ensures FailsFirst(before, split, limit, ex, i, error)
        {
          assert i != n;
          assert forall j :: 0 <= j <= i ==> before[j] == sources[j];
        }
      } else {
        assert forall j :: 0 <= j < n ==> before[j] == sources[j];
        assert SourceOutcome(sources[n], split, limit, ex) == Err(error)
          ==> FailsFirst(sources, split, limit, ex, n, error);
      }
    }
  }

  /** All sources of one split, with the same exclusions: it fails as its first failing source does. */
  method MaterializeAll(sources: seq<Source>, split: Split, limit: nat, ex: Exclusion, store: ImageStore)
    returns (r: Result<seq<Kept>>)
    requires store.Valid()
    modifies store
    ensures store.Valid()
    ensures r == SplitOutcome(sources, split, limit, ex)
    ensures r.Ok? ==> SplitFrom(sources, split, limit, ex, r.value) && Avoids(r.value, ex)
    ensures r.Ok? ==> store.written.Keys == old(store.written.Keys) + Digests(r.value)
    ensures forall e :: r == Err(e) <==> exists i: nat :: FailsFirst(sources, split, limit, ex, i, e)
  {
    hide MaterializedFrom, PartsFrom, AllRecords, Avoids, Digests, Outcome, ImageStore.Valid, FailsFirst, SplitOutcome;
    forall e ensures SplitOutcome(sources, split, limit, ex) == Err(e)
                     <==> exists i: nat :: FailsFirst(sources, split, limit, ex, i, e)
    {
      SplitFails(sources, split, limit, ex, e);
    }
    var records: seq<Kept> := [];
    NoRecords();
    NoParts(split, limit, ex);
    assert sources[..0] == [];
    ghost var parts: seq<Materialized> := [];
    for i := 0 to |sources|
      invariant |parts| == i && PartsFrom(sources[..i], split, limit, ex, parts) && records == AllRecords(parts)
      invariant store.Valid() && SplitOutcome(sources[..i], split, limit, ex) == Ok(records)
      invariant Avoids(records, ex) && store.written.Keys == old(store.written.Keys) + Digests(records)
    {
      var source := sources[i];
      var m := Materialize(RowsOf(source, split), RankOf(source, split), limit, ex, store);
      NextOutcome(sources, split, limit, ex, i);
      if m.Err? {
        EarlierFailure(sources, split, limit, ex, i + 1);
        return Err(m.error);
      }
      MaterializedAvoids(RowsOf(source, split), RankOf(source, split), limit, ex, m.value);
      DigestsAppend(records, m.value.records);
      AvoidsAppend(records, m.value.records, ex);
      assert PartFrom(source, split, limit, ex, m.value);
      PartsSnoc(sources[..i], source, split, limit, ex, parts, m.value);
      assert sources[..i + 1] == sources[..i] + [source];
      AllRecordsSnoc(parts, m.value);
      records := records + m.value.records;
      parts := parts + [m.value];
    }
    assert sources[..|sources|] == sources;
    r := Ok(records);
  }

  lemma NoRecords()
    ensures Digests([]) == {}
  {
  }

  lemma NoParts(split: Split, limit: nat, ex: Exclusion)
    ensures PartsFrom([], split, limit, ex, []) && AllRecords([]) == [] && Avoids([], ex)
    ensures SplitOutcome([], split, limit, ex) == Ok([])
  {
  }

  lemma NextOutcome(sources: seq<Source>, split: Split, limit: nat, ex: Exclusion, i: nat)
    requires i < |sources| && SplitOutcome(sources[..i], split, limit, ex).Ok?
    ensures var here := SourceOutcome(sources[i], split, limit, ex);
            SplitOutcome(sources[..i + 1], split, limit, ex)
            == if here.Err? then here else Ok(SplitOutcome(sources[..i], split, limit, ex).value + here.value)
  {
    assert sources[..i + 1][..i] == sources[..i];
  }

  lemma {:induction false} EarlierFailure(sources: seq<Source>, split: Split, limit: nat, ex: Exclusion, n: nat)
    requires n <= |sources| && SplitOutcome(sources[..n], split, limit, ex).Err?
    ensures SplitOutcome(sources, split, limit, ex) == SplitOutcome(sources[..n], split, limit, ex)
    decreases |sources| - n
  {
    if n == |sources| {
      assert sources[..n] == sources;
    } else {
      assert sources[..n + 1][..n] == sources[..n];
      EarlierFailure(sources, split, limit, ex, n + 1);
    }
  }

  lemma PartsSnoc(
    before: seq<Source>, source: Source, split: Split, limit: nat, ex: Exclusion, parts: seq<Materialized>,
    m: Materialized)
    ensures PartsFrom(before, split, limit, ex, parts) && PartFrom(source, split, limit, ex, m) ==>
              PartsFrom(before + [source], split, limit, ex, parts + [m])
  {
    hide PartFrom, AllRecords, Usable, Avoids;
    if PartsFrom(before, split, limit, ex, parts) && PartFrom(source, split, limit, ex, m) {
      forall i | 0 <= i < |parts| + 1 ensures PartFrom((before + [source])[i], split, limit, ex, (parts + [m])[i]) {
        if i < |parts| {
          assert PartFrom(before[i], split, limit, ex, parts[i]);
        }
      }
    }
  }

  lemma AllRecordsSnoc(parts: seq<Materialized>, m: Materialized)
    ensures AllRecords(parts + [m]) == AllRecords(parts) + m.records
  {
    assert (parts + [m])[..|parts|] == parts;
  }

  lemma AvoidsAppend(a: seq<Kept>, b: seq<Kept>, ex: Exclusion)
    requires Avoids(a, ex) && Avoids(b, ex)
    ensures Avoids(a + b, ex)
  {
    DigestsAppend(a, b);
  }

  lemma DigestsAppend(a: seq<Kept>, b: seq<Kept>)
    ensures Digests(a + b) == Digests(a) + Digests(b) && States(a + b) == States(a) + States(b)
  {
    assert forall r :: r in a + b <==> r in a || r in b;
  }

  /** Every key of the first `s` splits is recorded with its split, and nothing else is. */
  ghost predicate Origins<K>(splits: seq<seq<K>>, s: nat, origins: map<K, nat>)
    requires s <= |splits|
  {
    (forall k :: k in origins ==> origins[k] < s && k in splits[origins[k]])
    && (forall a, k :: 0 <= a < s && k in splits[a] ==> k in origins && origins[k] == a)
  }

  /** Records the origin of every key, split by split: false when a key is met in two splits. */
  method Isolated<K(==)>(splits: seq<seq<K>>) returns (ok: bool)
    ensures ok <==> forall a, b :: 0 <= a < b < |splits| ==> Elements(splits[a]) !! Elements(splits[b])
  {
    var origins: map<K, nat> := map[];
    for s := 0 to |splits|
      invariant Origins(splits, s, origins)
    {
      var before := origins;
      for i := 0 to |splits[s]|
        invariant origins.Keys == before.Keys + Elements(splits[s][..i])
        invariant forall k :: k in before ==> origins[k] == before[k]
        invariant forall k :: k in origins && k !in before ==> origins[k] == s
        invariant forall k :: k in before ==> k !in splits[s][..i]
      {
        var key := splits[s][i];
        assert splits[s][..i + 1] == splits[s][..i] + [key];
        if key in origins && origins[key] != s {
          assert key in Elements(splits[origins[key]]) && key in Elements(splits[s]);
          return false;
        }
        origins := origins[key := s];
      }
      assert splits[s][..|splits[s]|] == splits[s];
    }
    IsolatedWhenDone(splits, origins);
    ok := true;
  }

  lemma IsolatedWhenDone<K>(splits: seq<seq<K>>, origins: map<K, nat>)
    requires Origins(splits, |splits|, origins)
    ensures forall a, b :: 0 <= a < b < |splits| ==> Elements(splits[a]) !! Elements(splits[b])
  {
    forall a, b | 0 <= a < b < |splits| ensures Elements(splits[a]) !! Elements(splits[b]) {
      forall k | k in splits[a] ensures k !in splits[b] {
        assert origins[k] == a;
      }
    }
  }

  function DigestList(records: seq<Kept>): (r: seq<string>)
    ensures Elements(r) == Digests(records)
  {
    var r := seq(|records|, k requires 0 <= k < |records| => records[k].digest);
    assert forall k :: 0 <= k < |records| ==> r[k] == records[k].digest && records[k] in records;
    r
  }

  function GroupList(records: seq<Kept>): (r: seq<(string, string)>)
    ensures |r| == |records|
    ensures forall k :: 0 <= k < |r| ==> r[k] == (records[k].record.source, records[k].record.group)
  {
    seq(|records|, k requires 0 <= k < |records| => (records[k].record.source, records[k].record.group))
  }

  datatype Splits = Splits(train: seq<Kept>, dev: seq<Kept>, test: seq<Kept>)

  /** What is excluded once these records have been materialized. */
  function Excluding(ex: Exclusion, records: seq<Kept>): Exclusion {
    Exclusion(ex.states + States(records), ex.images + Digests(records))
  }

  const NOTHING := Exclusion({}, {})

  /** The three splits, when all of them can be materialized: test first, then train without the test images and
      states, then dev without either. */
  ghost function Planned(
    trainSources: seq<Source>, testSources: seq<Source>, trainLimit: nat, devLimit: nat, testLimit: nat): Result<Splits>
  {
    var test := SplitOutcome(testSources, Test, testLimit, NOTHING);
    if test.Err? then Err(test.error)
    else
      var ex := Excluding(NOTHING, test.value);
      var train := SplitOutcome(trainSources, Train, trainLimit, ex);
      if train.Err? then Err(train.error)
      else
        var dev := SplitOutcome(trainSources, Dev, devLimit, Excluding(ex, train.value));
        if dev.Err? then Err(dev.error) else Ok(Splits(train.value, dev.value, test.value))
  }

  predicate GroupsApart(splits: Splits) {
    Elements(GroupList(splits.train)) !! Elements(GroupList(splits.dev)) !! Elements(GroupList(splits.test))
  }

  /** It succeeds exactly when the three splits can be materialized and share no group, and otherwise raises the error
      of the first source that fails, or the one for groups. The images and states of the splits are pairwise disjoint,
      so the image check never fails. Every image of the splits, and nothing else, is in the store and in its file. */
  method Build(
    trainSources: seq<Source>, testSources: seq<Source>, trainLimit: nat, devLimit: nat, testLimit: nat,
    extension: string -> Extension, files: map<string, string>)
    returns (r: Result<Splits>, store: ImageStore)
    ensures var planned := Planned(trainSources, testSources, trainLimit, devLimit, testLimit);
            && (r.Ok? <==> planned.Ok? && GroupsApart(planned.value))
            && (r == Err(GroupOverlap) <==> planned.Ok? && !GroupsApart(planned.value))
            && (r.Ok? || planned.Err? ==> r == planned)
    ensures r.Err? ==> !r.error.ImageOverlap?
    ensures r.Ok? ==>
              var Splits(train, dev, test) := r.value;
              && SplitFrom(testSources, Test, testLimit, NOTHING, test)
              && SplitFrom(trainSources, Train, trainLimit, Excluding(NOTHING, test), train)
              && SplitFrom(trainSources, Dev, devLimit, Excluding(Excluding(NOTHING, test), train), dev)
    ensures r.Ok? ==>
              var Splits(train, dev, test) := r.value;
              && Digests(train) !! Digests(dev) !! Digests(test)
              && States(train) !! States(dev) !! States(test)
              && GroupsApart(r.value)
              && store.Valid() && store.written.Keys == Digests(train) + Digests(dev) + Digests(test)
  {
    hide SplitFrom, SplitOutcome, FailsFirst, ImageStore.Valid;
    store := new ImageStore(extension, files);
    var test := MaterializeAll(testSources, Test, testLimit, NOTHING, store);
    MaterializingErrors(testSources, Test, testLimit, NOTHING);
    if test.Err? {
      return Err(test.error), store;
    }
    var ex := Excluding(NOTHING, test.value);
    var train := MaterializeAll(trainSources, Train, trainLimit, ex, store);
    MaterializingErrors(trainSources, Train, trainLimit, ex);
    if train.Err? {
      return Err(train.error), store;
    }
    ex := Excluding(ex, train.value);
    var dev := MaterializeAll(trainSources, Dev, devLimit, ex, store);
    MaterializingErrors(trainSources, Dev, devLimit, ex);
    if dev.Err? {
      return Err(dev.error), store;
    }
    var splits := Splits(train.value, dev.value, test.value);
    var groupsIsolated := GroupsIsolated(splits);
    if !groupsIsolated {
      return Err(GroupOverlap), store;
    }
    var imagesIsolated := ImagesIsolated(splits);
    if !imagesIsolated {
      return Err(ImageOverlap), store;
    }
    r := Ok(splits);
  }

  method GroupsIsolated(splits: Splits) returns (ok: bool)
    ensures ok <==> GroupsApart(splits)
  {
    var groups := [GroupList(splits.train), GroupList(splits.dev), GroupList(splits.test)];
    ok := Isolated(groups);
    assert groups[0] == GroupList(splits.train);
    assert groups[1] == GroupList(splits.dev) && groups[2] == GroupList(splits.test);
  }

  method ImagesIsolated(splits: Splits) returns (ok: bool)
    ensures ok <==> Digests(splits.train) !! Digests(splits.dev) !! Digests(splits.test)
  {
    var digests := [DigestList(splits.train), DigestList(splits.dev), DigestList(splits.test)];
    ok := Isolated(digests);
    assert digests[0] == DigestList(splits.train);
    assert digests[1] == DigestList(splits.dev) && digests[2] == DigestList(splits.test);
  }

  /** No source fails with an error of the final checks. */
  lemma {:induction false} MaterializingErrors(sources: seq<Source>, split: Split, limit: nat, ex: Exclusion)
    ensures var r := SplitOutcome(sources, split, limit, ex);
            r.Err? ==> !r.error.GroupOverlap? && !r.error.ImageOverlap?
    decreases |sources|
  {
    hide SourceOutcome;
    if sources != [] {
      MaterializingErrors(sources[..|sources| - 1], split, limit, ex);
      SourceErrors(sources[|sources| - 1], split, limit, ex);
    }
  }

  lemma SourceErrors(source: Source, split: Split, limit: nat, ex: Exclusion)
    ensures var r := SourceOutcome(source, split, limit, ex);
            r.Err? ==> !r.error.GroupOverlap? && !r.error.ImageOverlap?
  {
    hide Candidates, Ranked, DuplicateIds, Unreadable, UsableRecords, First;
  }

  // ---- when the group check passes ----

  /** The groups of the candidate rows of a split. */
  ghost function RowGroups(sources: seq<Source>, split: Split): set<(string, string)> {
    set i: nat, row | i < |sources| && row in Candidates(RowsOf(sources[i], split)) :: GroupOf(row)
  }

  function GroupOf(row: Row): (string, string) {
    if row.record.Some? then (row.record.value.source, row.record.value.group) else ("", "")
  }

  predicate ComesFrom(k: Kept, rows: seq<Row>) {
    exists row :: row in rows && IsCandidate(row) && k.record == row.record.value
  }

  lemma {:induction false} UsableComeFrom(rows: seq<Row>, ex: Exclusion)
    ensures forall k :: k in UsableRecords(rows, ex) ==> ComesFrom(k, rows)
    decreases |rows|
  {
    if rows != [] {
      var n := |rows| - 1;
      UsableComeFrom(rows[..n], ex);
      forall k | k in UsableRecords(rows, ex) ensures ComesFrom(k, rows) {
        if k in UsableRecords(rows[..n], ex) {
          var row :| row in rows[..n] && IsCandidate(row) && k.record == row.record.value;
          assert row in rows;
        } else {
          assert rows[n] in rows;
        }
      }
    }
  }

  /** A source's records come from its candidates. */
  lemma OutcomeComesFrom(rows: seq<Row>, rank: string -> nat, limit: nat, ex: Exclusion)
    requires Outcome(rows, rank, limit, ex).Ok?
    ensures forall k :: k in Outcome(rows, rank, limit, ex).value ==> ComesFrom(k, Candidates(rows))
  {
    hide DuplicateIds, Unreadable, UsableRecords, Candidates;
    var ordered := Ranked(Candidates(rows), rank);
    UsableComeFrom(ordered, ex);
    assert forall row :: row in ordered ==> row in Candidates(rows);
    hide Ranked;
    forall k | k in Outcome(rows, rank, limit, ex).value ensures ComesFrom(k, Candidates(rows)) {
      assert k in UsableRecords(ordered, ex);
      var row :| row in ordered && IsCandidate(row) && k.record == row.record.value;
      assert row in Candidates(rows);
    }
  }

  /** The groups of a materialized split are groups of its candidate rows. */
  lemma {:induction false} SplitGroups(sources: seq<Source>, split: Split, limit: nat, ex: Exclusion)
    requires SplitOutcome(sources, split, limit, ex).Ok?
    ensures Elements(GroupList(SplitOutcome(sources, split, limit, ex).value)) <= RowGroups(sources, split)
    decreases |sources|
  {
    hide Outcome;
    if sources != [] {
      var n := |sources| - 1;
      SplitGroups(sources[..n], split, limit, ex);
      var before := SplitOutcome(sources[..n], split, limit, ex).value;
      var here := SourceOutcome(sources[n], split, limit, ex).value;
      OutcomeComesFrom(RowsOf(sources[n], split), RankOf(sources[n], split), limit, ex);
      SourceGroups(sources, split, n, here);
      MoreGroups(sources, split);
      GroupsAppend(before, here);
    }
  }

  lemma SourceGroups(sources: seq<Source>, split: Split, i: nat, records: seq<Kept>)
    requires i < |sources| && forall k :: k in records ==> ComesFrom(k, Candidates(RowsOf(sources[i], split)))
    ensures Elements(GroupList(records)) <= RowGroups(sources, split)
  {
    forall g | g in Elements(GroupList(records)) ensures g in RowGroups(sources, split) {
      var m :| 0 <= m < |records| && GroupList(records)[m] == g;
      assert records[m] in records;
      var row :| row in Candidates(RowsOf(sources[i], split)) && IsCandidate(row)
        && records[m].record == row.record.value;
      assert g == GroupOf(row);
    }
  }

  lemma MoreGroups(sources: seq<Source>, split: Split)
    requires sources != []
    ensures RowGroups(sources[..|sources| - 1], split) <= RowGroups(sources, split)
  {
    var before := sources[..|sources| - 1];
    assert forall i :: 0 <= i < |before| ==> before[i] == sources[i];
  }

  lemma GroupsAppend(a: seq<Kept>, b: seq<Kept>)
    ensures Elements(GroupList(a + b)) == Elements(GroupList(a)) + Elements(GroupList(b))
  {
    assert GroupList(a + b) == GroupList(a) + GroupList(b);
  }

  /** If no group occurs among the candidate rows of two splits, the group check cannot fail. */
  lemma ApartWhenRowsAre(
    trainSources: seq<Source>, testSources: seq<Source>, trainLimit: nat, devLimit: nat, testLimit: nat)
    requires RowGroups(trainSources, Train) !! RowGroups(trainSources, Dev) !! RowGroups(testSources, Test)
    ensures var planned := Planned(trainSources, testSources, trainLimit, devLimit, testLimit);
            planned.Ok? ==> GroupsApart(planned.value)
  {
    hide SplitOutcome, RowGroups, GroupList;
    var planned := Planned(trainSources, testSources, trainLimit, devLimit, testLimit);
    if planned.Ok? {
      var ex := Excluding(NOTHING, planned.value.test);
      SplitGroups(testSources, Test, testLimit, NOTHING);
      SplitGroups(trainSources, Train, trainLimit, ex);
      SplitGroups(trainSources, Dev, devLimit, Excluding(ex, planned.value.train));
    }
  }

  // ---- and when it fails ----

  /** A usable row alone is materialized. */
  lemma OneRow(row: Row, rank: string -> nat, ex: Exclusion)
    requires Usable(row, ex)
    ensures Outcome([row], rank, 1, ex) == Ok([Kept(row.record.value, row.image.value.0)])
  {
    hide Candidates, Ranked, UsableRecords, Usable;
    OneCandidate(row, rank, ex);
  }

  lemma OneCandidate(row: Row, rank: string -> nat, ex: Exclusion)
    requires Usable(row, ex)
    ensures IsCandidate(row) && row.image.Some?
    ensures Candidates([row]) == [row] == Ranked([row], rank)
    ensures UsableRecords([row], ex) == [Kept(row.record.value, row.image.value.0)]
  {
    assert [row][..0] == [] && Candidates([]) == [] && UsableRecords([], ex) == [];
  }

  /** Two sources with a usable row each. */
  lemma TwoSources(sources: seq<Source>, split: Split, a: Row, b: Row, ex: Exclusion)
    requires |sources| == 2 && RowsOf(sources[0], split) == [a] && RowsOf(sources[1], split) == [b]
    requires Usable(a, ex) && Usable(b, ex)
    ensures SplitOutcome(sources, split, 1, ex) == Ok([KeptRow(a), KeptRow(b)])
  {
    hide Outcome;
    assert sources[..0] == [] && sources[..1][..0] == [] && sources[..2] == sources;
    assert [] + [KeptRow(a)] == [KeptRow(a)] && [KeptRow(a)] + [KeptRow(b)] == [KeptRow(a), KeptRow(b)];
    OneRow(a, RankOf(sources[0], split), ex);
    OneRow(b, RankOf(sources[1], split), ex);
    NextOutcome(sources, split, 1, ex, 0);
    NextOutcome(sources, split, 1, ex, 1);
  }

  /** One source with a usable row. */
  lemma OneSource(source: Source, split: Split, row: Row, ex: Exclusion)
    requires RowsOf(source, split) == [row] && Usable(row, ex)
    ensures SplitOutcome([source], split, 1, ex) == Ok([KeptRow(row)])
  {
    hide Outcome;
    assert [source][..0] == [] && [source][..1] == [source] && [] + [KeptRow(row)] == [KeptRow(row)];
    OneRow(row, RankOf(source, split), ex);
    NextOutcome([source], split, 1, ex, 0);
  }

  /** A row whose id is its group too. */
  function Question(source: string, id: string, question: string, digest: string): Row {
    Row(true, Some(Record(source, id, id, question)), Some((digest, 1)))
  }

  function KeptRow(row: Row): Kept
    requires IsCandidate(row) && row.image.Some?
  {
    Kept(row.record.value, row.image.value.0)
  }

  predicate Readable(row: Row) {
    IsCandidate(row) && row.image.Some?
  }

  function DigestOf(row: Row): string
    requires Readable(row)
  {
    row.image.value.0
  }

  /** One row in every source and split, and all images different: the plan keeps all of them. */
  lemma PlanOfFive(train: seq<Source>, test: Source, a: Row, a': Row, b: Row, b': Row, c: Row)
    requires |train| == 2 && train[0].train == [a] && train[1].train == [a']
    requires train[0].dev == [b] && train[1].dev == [b'] && test.test == [c]
    requires Readable(a) && Readable(a') && Readable(b) && Readable(b') && Readable(c)
    requires {DigestOf(a), DigestOf(a')} !! {DigestOf(b), DigestOf(b')} !! {DigestOf(c)}
    ensures Planned(train, [test], 1, 1, 1)
            == Ok(Splits([KeptRow(a), KeptRow(a')], [KeptRow(b), KeptRow(b')], [KeptRow(c)]))
  {
    hide SplitOutcome, Outcome;
    var ex := Excluding(NOTHING, [KeptRow(c)]);
    var ex' := Excluding(ex, [KeptRow(a), KeptRow(a')]);
    assert ex.images == {DigestOf(c)} && ex'.images == {DigestOf(c), DigestOf(a), DigestOf(a')};
    OtherDigest([KeptRow(c)], a);
    OtherDigest([KeptRow(c)], a');
    forall row | row == b || row == b' ensures Usable(row, ex') {
      OtherDigest([KeptRow(c)], row);
      OtherDigest([KeptRow(a), KeptRow(a')], row);
    }
    OneSource(test, Test, c, NOTHING);
    TwoSources(train, Train, a, a', ex);
    TwoSources(train, Dev, b, b', ex');
  }

  /** A state key holds the image's digest, so another image is another state. */
  lemma OtherDigest(records: seq<Kept>, row: Row)
    requires Readable(row) && DigestOf(row) !in Digests(records)
    ensures (row.record.value.state, DigestOf(row)) !in States(records)
  {
    forall k | k in records ensures k.StateKey() != (row.record.value.state, DigestOf(row)) {
      assert k.digest in Digests(records);
    }
  }

  /** A question id of one source that occurs in train and in dev, with another image and another question: both rows
      are kept, and the groups meet. */
  lemma GroupsCanMeet() returns (train: seq<Source>, test: Source)
    ensures |train| == 2
    ensures var planned := Planned(train, [test], 1, 1, 1); planned.Ok? && !GroupsApart(planned.value)
  {
    hide SplitOutcome, GroupsApart, Planned;
    var a, b := Question("aokvqa", "q", "how many", "1"), Question("aokvqa", "q", "what colour", "2");
    var a', b' := Question("scienceqa", "train-0", "which", "3"), Question("scienceqa", "validation-0", "where", "4");
    var c := Question("cvbench", "test-0", "how far", "5");
    train := [Source([a], [b], [], (_, _) => 0), Source([a'], [b'], [], (_, _) => 0)];
    test := Source([], [], [c], (_, _) => 0);
    assert "1"[0] == '1' && "2"[0] == '2' && "3"[0] == '3' && "4"[0] == '4' && "5"[0] == '5';
    PlanOfFive(train, test, a, a', b, b', c);
    SharedGroup(Splits([KeptRow(a), KeptRow(a')], [KeptRow(b), KeptRow(b')], [KeptRow(c)]), 0, 0);
  }

  lemma SharedGroup(splits: Splits, a: nat, b: nat)
    requires a < |splits.train| && b < |splits.dev|
    requires GroupList(splits.train)[a] == GroupList(splits.dev)[b]
    ensures !GroupsApart(splits)
  {
    assert GroupList(splits.train)[a] in Elements(GroupList(splits.train));
    assert GroupList(splits.train)[a] in Elements(GroupList(splits.dev));
  }
}
