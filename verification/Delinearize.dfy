/** Fusing per-expert projection weights back into one tensor per layer, while entries are deleted on the way. */
module Delinearize {
  import opened Options

  // ---- matrices ----

  datatype Matrix<T> = Matrix(rows: nat, cols: nat, data: seq<seq<T>>)
  {
    predicate Valid() {
      |data| == rows && forall r :: 0 <= r < rows ==> |data[r]| == cols
    }

    predicate Shaped(r: nat, c: nat) {
      Valid() && rows == r && cols == c
    }

    function At(r: nat, c: nat): T
      requires Valid() && r < rows && c < cols
    {
      data[r][c]
    }
  }

  /** `transpose(0, 1)`. */
  function Transpose<T>(m: Matrix<T>): (t: Matrix<T>)
    requires m.Valid()
    ensures t.Shaped(m.cols, m.rows)
    ensures forall r, c :: 0 <= r < m.rows && 0 <= c < m.cols ==> t.At(c, r) == m.At(r, c)
  {
    Matrix(m.cols, m.rows,
           seq(m.cols, c requires 0 <= c < m.cols => seq(m.rows, r requires 0 <= r < m.rows => m.At(r, c))))
  }

  /** Columns of `a`, then columns of `b`. */
  function Beside<T>(a: Matrix<T>, b: Matrix<T>): (t: Matrix<T>)
    requires a.Valid() && b.Valid() && a.rows == b.rows
    ensures t.Shaped(a.rows, a.cols + b.cols)
    ensures forall r, c :: 0 <= r < a.rows && 0 <= c < a.cols ==> t.At(r, c) == a.At(r, c)
    ensures forall r, c :: 0 <= r < a.rows && 0 <= c < b.cols ==> t.At(r, a.cols + c) == b.At(r, c)
  {
    Matrix(a.rows, a.cols + b.cols, seq(a.rows, r requires 0 <= r < a.rows => a.data[r] + b.data[r]))
  }

  /** The columns from `lo` up to `hi`. */
  function Columns<T>(m: Matrix<T>, lo: nat, hi: nat): (t: Matrix<T>)
    requires m.Valid() && lo <= hi <= m.cols
    ensures t.Shaped(m.rows, hi - lo)
    ensures forall r, c :: 0 <= r < m.rows && 0 <= c < hi - lo ==> t.At(r, c) == m.At(r, lo + c)
  {
    Matrix(m.rows, hi - lo, seq(m.rows, r requires 0 <= r < m.rows => m.data[r][lo..hi]))
  }

  lemma MatrixEqual<T>(a: Matrix<T>, b: Matrix<T>)
    requires a.Valid() && b.Valid() && a.rows == b.rows && a.cols == b.cols
    requires forall r, c :: 0 <= r < a.rows && 0 <= c < a.cols ==> a.At(r, c) == b.At(r, c)
    ensures a == b
  {
    forall r | 0 <= r < a.rows ensures a.data[r] == b.data[r] {
      assert forall c :: 0 <= c < a.cols ==> a.data[r][c] == a.At(r, c) && b.data[r][c] == b.At(r, c);
    }
  }

  lemma TransposeTwice<T>(m: Matrix<T>)
    requires m.Valid()
    ensures Transpose(Transpose(m)) == m
  {
    MatrixEqual(Transpose(Transpose(m)), m);
  }

  /** Either side can be cut out again. */
  lemma BesideColumns<T>(a: Matrix<T>, b: Matrix<T>)
    requires a.Valid() && b.Valid() && a.rows == b.rows
    ensures Columns(Beside(a, b), 0, a.cols) == a && Columns(Beside(a, b), a.cols, a.cols + b.cols) == b
  {
    var ab := Beside(a, b);
    assert forall r :: 0 <= r < a.rows ==>
      ab.data[r][0..a.cols] == a.data[r] && ab.data[r][a.cols..a.cols + b.cols] == b.data[r];
  }

  // ---- keys ----

  datatype Projection = Gate | Up | Down

  /** A key of the state dict: outside the experts, one of the three projections of an expert, or anything else under
      the experts. */
  datatype Key =
    | Plain(name: string)
    | Expert(prefix: string, projection: Projection, index: nat)
    | OtherExpert(name: string)

  datatype FusedKey = PlainKey(name: string) | GateUpProj(prefix: string) | DownProj(prefix: string)

  datatype Tensor<T> = Single(m: Matrix<T>) | Stacked(experts: seq<Matrix<T>>)

  type Entries<T> = map<Key, Matrix<T>>
  type Output<T> = seq<(FusedKey, Tensor<T>)>

  /** `torch.stack` of the transposed weights of all experts; nothing when one is missing, there are none, or their
      shapes differ. */
  function Stack<T>(entries: Entries<T>, prefix: string, p: Projection, n: nat): Option<seq<Matrix<T>>>
    requires AllValid(entries)
  {
    if n == 0 || (exists i :: 0 <= i < n && Expert(prefix, p, i) !in entries) then None
    else
      var all := seq(n, i requires 0 <= i < n => Transpose(entries[Expert(prefix, p, i)]));
      if forall i :: 0 <= i < n ==> all[i].rows == all[0].rows && all[i].cols == all[0].cols then Some(all) else None
  }

  predicate AllValid<T>(entries: Entries<T>) {
    forall k :: k in entries ==> entries[k].Valid()
  }

  /** `torch.cat` along the last dimension; nothing when the other dimensions differ. */
  function CatLast<T>(a: seq<Matrix<T>>, b: seq<Matrix<T>>): Option<seq<Matrix<T>>>
    requires |a| == |b| && forall i :: 0 <= i < |a| ==> a[i].Valid() && b[i].Valid()
  {
    if forall i :: 0 <= i < |a| ==> a[i].rows == b[i].rows
    then Some(seq(|a|, i requires 0 <= i < |a| => Beside(a[i], b[i])))
    else None
  }

  /** The fused gate and up projections of a layer. */
  function GateUp<T>(entries: Entries<T>, prefix: string, n: nat): Option<seq<Matrix<T>>>
    requires AllValid(entries)
  {
    var gate, up := Stack(entries, prefix, Gate, n), Stack(entries, prefix, Up, n);
    if gate.None? || up.None? then None else CatLast(gate.value, up.value)
  }

  /** A projection can be stacked exactly when all experts have it, at least one, and in one shape. */
  lemma StacksExactly<T>(entries: Entries<T>, prefix: string, p: Projection, n: nat)
    requires AllValid(entries)
    ensures Stack(entries, prefix, p, n).Some?
            <==> n > 0 && (forall i: nat :: i < n ==> Expert(prefix, p, i) in entries)
                 && forall i: nat :: i < n ==>
                      && entries[Expert(prefix, p, i)].rows == entries[Expert(prefix, p, 0)].rows
                      && entries[Expert(prefix, p, i)].cols == entries[Expert(prefix, p, 0)].cols
    ensures Stack(entries, prefix, p, n).Some? ==>
              var all := Stack(entries, prefix, p, n).value;
              && |all| == n
              && forall i: nat :: i < n ==> all[i] == Transpose(entries[Expert(prefix, p, i)])
  {
    if n > 0 && forall i: nat :: i < n ==> Expert(prefix, p, i) in entries {
      var all := seq(n, i requires 0 <= i < n => Transpose(entries[Expert(prefix, p, i)]));
      assert forall i: nat :: i < n ==> all[i].rows == entries[Expert(prefix, p, i)].cols;
      assert forall i: nat :: i < n ==> all[i].cols == entries[Expert(prefix, p, i)].rows;
    }
  }

  /** And gate and up weights can be joined exactly when, transposed, they have as many rows. */
  lemma FusesExactly<T>(entries: Entries<T>, prefix: string, n: nat)
    requires AllValid(entries) && Stack(entries, prefix, Gate, n).Some? && Stack(entries, prefix, Up, n).Some?
    ensures Expert(prefix, Gate, 0) in entries && Expert(prefix, Up, 0) in entries
    ensures GateUp(entries, prefix, n).Some?
            <==> entries[Expert(prefix, Gate, 0)].cols == entries[Expert(prefix, Up, 0)].cols
  {
    StacksExactly(entries, prefix, Gate, n);
    StacksExactly(entries, prefix, Up, n);
    hide Stack;
  }

  // ---- the conversion ----

  /** The entries the loop deletes when it comes to them. */
  predicate Deletes(k: Key) {
    k.Expert? && !k.projection.Gate? && k.index != 0
  }

  class ModelState<T> {
    var entries: Entries<T>

    constructor (entries: Entries<T>)
      ensures this.entries == entries
    {
      this.entries := entries;
    }
  }

  function Without<T>(entries: Entries<T>, keys: seq<Key>): Entries<T> {
    entries - set k | k in keys && Deletes(k)
  }

  /** Of the entries handled so far, the up and down weights of every expert but the first are gone; the others are
      unchanged. */
  lemma LeftEntries<T>(entries: Entries<T>, keys: seq<Key>, k: Key)
    ensures k in Without(entries, keys)
            <==> k in entries
                 && !(k in keys && exists prefix, index: nat ::
                        index > 0 && (k == Expert(prefix, Up, index) || k == Expert(prefix, Down, index)))
    ensures k in Without(entries, keys) ==> Without(entries, keys)[k] == entries[k]
  {
    if k.Expert? && k.index > 0 {
      assert k == Expert(k.prefix, k.projection, k.index);
    }
  }

  /** What one key yields from the entries that are left when its turn comes; nothing when a lookup or a stack fails. */
  function Yield<T>(entries: Entries<T>, k: Key, n: nat): Option<Output<T>>
    requires AllValid(entries) && (k.Plain? ==> k in entries)
  {
    match k
    case Plain(name) => Some([(PlainKey(name), Single(entries[k]))])
    case OtherExpert(_) => Some([])
    case Expert(_, Gate, _) => Some([])
    case Expert(prefix, Up, index) =>
      if index != 0 then Some([])
      else
        var fused := GateUp(entries, prefix, n);
        if fused.None? then None else Some([(GateUpProj(prefix), Stacked(fused.value))])
    case Expert(prefix, Down, index) =>
      if index != 0 then Some([])
      else
        var stacked := Stack(entries, prefix, Down, n);
        if stacked.None? then None else Some([(DownProj(prefix), Stacked(stacked.value))])
  }

  /** What the keys from position `i` on yield, each from the entries left at its turn. */
  function Yields<T>(entries: Entries<T>, keys: seq<Key>, i: nat, n: nat): Option<Output<T>>
    requires AllValid(entries) && i <= |keys| && forall k :: k in keys ==> k in entries
    decreases |keys| - i
  {
    if i == |keys| then Some([])
    else
      assert keys[i] in keys;
      var here := Yield(Without(entries, keys[..i]), keys[i], n);
      var rest := Yields(entries, keys, i + 1, n);
      if here.None? || rest.None? then None else Some(here.value + rest.value)
  }

  /** What the keys before position `i` yield. */
  function YieldsBefore<T>(entries: Entries<T>, keys: seq<Key>, i: nat, n: nat): Option<Output<T>>
    requires AllValid(entries) && i <= |keys| && forall k :: k in keys ==> k in entries
  {
    if i == 0 then Some([])
    else
      assert keys[i - 1] in keys;
      var before := YieldsBefore(entries, keys, i - 1, n);
      var here := Yield(Without(entries, keys[..i - 1]), keys[i - 1], n);
      if before.None? || here.None? then None else Some(before.value + here.value)
  }

  /** The keys before position `i` have yielded `out` and left the other entries, and key `i` yields nothing. */
  ghost predicate RaisesAt<T>(entries: Entries<T>, keys: seq<Key>, n: nat, i: nat, out: Output<T>, left: Entries<T>)
    requires AllValid(entries) && forall k :: k in keys ==> k in entries
  {
    && i < |keys| && YieldsBefore(entries, keys, i, n) == Some(out) && left == Without(entries, keys[..i])
    && YieldsBefore(entries, keys, i + 1, n).None?
  }

  /** The generator, run to its end over a snapshot of the keys. `ok` is false when it raises, and then `out` is what it
      has yielded by then. */
  method IterConvert<T>(state: ModelState<T>, keys: seq<Key>, n: nat) returns (out: Output<T>, ok: bool)
    requires AllValid(state.entries) && (forall k :: k in keys <==> k in state.entries)
    requires forall a, b :: 0 <= a < b < |keys| ==> keys[a] != keys[b]
    modifies state
    ensures ok <==> Yields(old(state.entries), keys, 0, n).Some?
    ensures ok ==> out == Yields(old(state.entries), keys, 0, n).value
    ensures ok ==> state.entries == Without(old(state.entries), keys)
    ensures !ok ==> exists i :: RaisesAt(old(state.entries), keys, n, i, out, state.entries)
  {
    hide Yield, Yields, YieldsBefore, Without, RaisesAt;
    ghost var start := state.entries;
    out := [];
    NothingYielded(start, keys, n);
    for i := 0 to |keys|
      invariant state.entries == Without(start, keys[..i]) && YieldsBefore(start, keys, i, n) == Some(out)
      invariant Yields(start, keys, 0, n).Some? <==> Yields(start, keys, i, n).Some?
      invariant Yields(start, keys, i, n).Some? ==>
                  Yields(start, keys, 0, n).value == out + Yields(start, keys, i, n).value
    {
      var k := keys[i];
      assert k in keys && k in start;
      NotYetDeleted(start, keys, i);
      WithoutNext(start, keys, i);
      YieldsStep(start, keys, i, n, out);
      var here := Yield(state.entries, k, n);
      match here
      case None =>
        RaisesNow(start, keys, n, i, out);
        return out, false;
      case Some(items) => out := out + items;
      if Deletes(k) {
        state.entries := state.entries - {k};
      }
    }
    assert keys[..|keys|] == keys;
    ok := true;
  }

  lemma NothingYielded<T>(entries: Entries<T>, keys: seq<Key>, n: nat)
    requires AllValid(entries) && forall k :: k in keys ==> k in entries
    ensures Without(entries, keys[..0]) == entries
    ensures YieldsBefore(entries, keys, 0, n) == Some([]) && Yields(entries, keys, |keys|, n) == Some([])
  {
  }

  lemma RaisesNow<T>(entries: Entries<T>, keys: seq<Key>, n: nat, i: nat, out: Output<T>)
    requires AllValid(entries) && i < |keys| && forall k :: k in keys ==> k in entries
    requires keys[i].Plain? ==> keys[i] in Without(entries, keys[..i])
    requires YieldsBefore(entries, keys, i, n) == Some(out) && Yield(Without(entries, keys[..i]), keys[i], n).None?
    ensures RaisesAt(entries, keys, n, i, out, Without(entries, keys[..i]))
  {
    hide Yield, Without;
  }

  lemma YieldsStep<T>(entries: Entries<T>, keys: seq<Key>, i: nat, n: nat, out: Output<T>)
    requires AllValid(entries) && i < |keys| && forall k :: k in keys ==> k in entries
    requires keys[i].Plain? ==> keys[i] in Without(entries, keys[..i])
    ensures var here, rest := Yield(Without(entries, keys[..i]), keys[i], n), Yields(entries, keys, i + 1, n);
            && (Yields(entries, keys, i, n).Some? <==> here.Some? && rest.Some?)
            && (Yields(entries, keys, i, n).Some? ==>
                  out + Yields(entries, keys, i, n).value == (out + here.value) + rest.value)
            && (YieldsBefore(entries, keys, i, n) == Some(out) && here.Some? ==>
                  YieldsBefore(entries, keys, i + 1, n) == Some(out + here.value))
  {
    hide Yield;
  }

  lemma NotYetDeleted<T>(entries: Entries<T>, keys: seq<Key>, i: nat)
    requires i < |keys| && keys[i] in entries
    requires forall a, b :: 0 <= a < b < |keys| ==> keys[a] != keys[b]
    ensures keys[i] in Without(entries, keys[..i])
    ensures AllValid(entries) ==> AllValid(Without(entries, keys[..i]))
  {
  }

  lemma WithoutNext<T>(entries: Entries<T>, keys: seq<Key>, i: nat)
    requires i < |keys|
    ensures Without(entries, keys[..i + 1])
            == if Deletes(keys[i]) then Without(entries, keys[..i]) - {keys[i]} else Without(entries, keys[..i])
  {
    assert keys[..i + 1] == keys[..i] + [keys[i]];
  }

  // ---- when it succeeds ----

  /** The snapshot lists every key once. */
  ghost predicate Snapshot<T>(entries: Entries<T>, keys: seq<Key>) {
    (forall k :: k in keys <==> k in entries)
    && forall a, b :: 0 <= a < b < |keys| ==> keys[a] != keys[b]
  }

  /** A layer has all three projections of all `n` experts, in matching shapes. */
  ghost predicate CompleteLayer<T>(entries: Entries<T>, prefix: string, n: nat) {
    (forall p, i: nat :: i < n ==> Expert(prefix, p, i) in entries)
    && (forall p, i: nat :: Expert(prefix, p, i) in entries ==> i < n)
    && (n > 0 ==>
          (forall p, i: nat :: i < n ==>
             entries[Expert(prefix, p, i)].rows == entries[Expert(prefix, p, 0)].rows
             && entries[Expert(prefix, p, i)].cols == entries[Expert(prefix, p, 0)].cols)
          && entries[Expert(prefix, Gate, 0)].cols == entries[Expert(prefix, Up, 0)].cols)
  }

  ghost predicate Complete<T>(entries: Entries<T>, n: nat) {
    n >= 1 && AllValid(entries)
    && forall prefix, p, i: nat :: Expert(prefix, p, i) in entries ==> CompleteLayer(entries, prefix, n)
  }

  /** In key order, expert 0 of an up or down projection comes before the other experts of it. */
  ghost predicate ZeroFirst(keys: seq<Key>) {
    forall a, b :: 0 <= a < |keys| && 0 <= b < |keys| && Deletes(keys[a]) && keys[b] == ZeroOf(keys[a]) ==> b < a
  }

  function ZeroOf(k: Key): Key
    requires k.Expert?
  {
    Expert(k.prefix, k.projection, 0)
  }

  /** No lookup at expert 0's turn hits a deleted key, so the deletions do not show. */
  lemma StackUnaffected<T>(entries: Entries<T>, keys: seq<Key>, i: nat, prefix: string, p: Projection, n: nat)
    requires Complete(entries, n) && Snapshot(entries, keys) && ZeroFirst(keys) && i < |keys|
    requires Expert(prefix, p, 0) in entries
    requires p.Gate? || keys[i] == Expert(prefix, p, 0)
    ensures Stack(Without(entries, keys[..i]), prefix, p, n) == Stack(entries, prefix, p, n)
    ensures Stack(entries, prefix, p, n).Some?
  {
    var left := Without(entries, keys[..i]);
    assert CompleteLayer(entries, prefix, n);
    forall a | 0 <= a < i && Deletes(keys[a]) ensures ZeroOf(keys[a]) != keys[i] {
    }
    forall e | 0 <= e < n
      ensures Expert(prefix, p, e) in left && left[Expert(prefix, p, e)] == entries[Expert(prefix, p, e)]
    {
      var k := Expert(prefix, p, e);
      assert k in entries && (Deletes(k) ==> ZeroOf(k) == keys[i]);
    }
    StackCongruent(left, entries, prefix, p, n);
    StackWorks(entries, prefix, p, n);
  }

  lemma StackCongruent<T>(a: Entries<T>, b: Entries<T>, prefix: string, p: Projection, n: nat)
    requires AllValid(a) && AllValid(b)
    requires forall e :: 0 <= e < n ==>
               && Expert(prefix, p, e) in a && Expert(prefix, p, e) in b
               && a[Expert(prefix, p, e)] == b[Expert(prefix, p, e)]
    ensures Stack(a, prefix, p, n) == Stack(b, prefix, p, n)
  {
    if n > 0 {
      assert seq(n, i requires 0 <= i < n => Transpose(a[Expert(prefix, p, i)]))
          == seq(n, i requires 0 <= i < n => Transpose(b[Expert(prefix, p, i)]));
    }
  }

  lemma StackWorks<T>(entries: Entries<T>, prefix: string, p: Projection, n: nat)
    requires n >= 1 && AllValid(entries) && CompleteLayer(entries, prefix, n)
    ensures Stack(entries, prefix, p, n).Some?
    ensures var all := Stack(entries, prefix, p, n).value;
            |all| == n && forall i :: 0 <= i < n ==> all[i] == Transpose(entries[Expert(prefix, p, i)])
  {
  }

  lemma YieldUnaffected<T>(entries: Entries<T>, keys: seq<Key>, i: nat, n: nat)
    requires Complete(entries, n) && Snapshot(entries, keys) && ZeroFirst(keys) && i < |keys|
    ensures keys[i] in entries && (keys[i].Plain? ==> keys[i] in Without(entries, keys[..i]))
    ensures Yield(Without(entries, keys[..i]), keys[i], n) == Yield(entries, keys[i], n)
    ensures Yield(entries, keys[i], n).Some?
  {
    hide Complete, Stack, ZeroFirst;
    var k := keys[i];
    assert k in keys;
    CompleteValid(entries, n);
    if k.Expert? && !k.projection.Gate? && k.index == 0 {
      CompleteAt(entries, k.prefix, k.projection, 0, n);
      StackUnaffected(entries, keys, i, k.prefix, k.projection, n);
      if k.projection.Up? {
        StackUnaffected(entries, keys, i, k.prefix, Gate, n);
        GateUpWorks(entries, k.prefix, n);
      }
    }
  }

  lemma CompleteValid<T>(entries: Entries<T>, n: nat)
    requires Complete(entries, n)
    ensures AllValid(entries) && n >= 1
  {
  }

  lemma CompleteAt<T>(entries: Entries<T>, prefix: string, p: Projection, i: nat, n: nat)
    requires Complete(entries, n) && Expert(prefix, p, i) in entries
    ensures CompleteLayer(entries, prefix, n)
    ensures forall q :: Expert(prefix, q, 0) in entries
  {
  }

  lemma GateUpWorks<T>(entries: Entries<T>, prefix: string, n: nat)
    requires n >= 1 && AllValid(entries) && CompleteLayer(entries, prefix, n)
    ensures GateUp(entries, prefix, n).Some?
    ensures var all := GateUp(entries, prefix, n).value;
            |all| == n && forall i :: 0 <= i < n ==>
              var g, u := Transpose(entries[Expert(prefix, Gate, i)]), Transpose(entries[Expert(prefix, Up, i)]);
              g.rows == u.rows && all[i] == Beside(g, u)
  {
    hide Stack;
    StackWorks(entries, prefix, Gate, n);
    StackWorks(entries, prefix, Up, n);
  }

  lemma {:induction false} ZeroFirstYields<T>(entries: Entries<T>, keys: seq<Key>, i: nat, n: nat)
    requires Complete(entries, n) && Snapshot(entries, keys) && ZeroFirst(keys) && i <= |keys|
    ensures AllValid(entries) && Yields(entries, keys, i, n).Some?
    decreases |keys| - i
  {
    hide Complete, ZeroFirst, Yield;
    CompleteValid(entries, n);
    if i < |keys| {
      YieldUnaffected(entries, keys, i, n);
      ZeroFirstYields(entries, keys, i + 1, n);
    }
  }

  /** A failure at one key's turn is a failure of the run. */
  lemma {:induction false} FailsFrom<T>(entries: Entries<T>, keys: seq<Key>, i: nat, b: nat, n: nat)
    requires AllValid(entries) && Snapshot(entries, keys) && i <= b < |keys|
    requires keys[b].Plain? ==> keys[b] in Without(entries, keys[..b])
    requires Yield(Without(entries, keys[..b]), keys[b], n).None?
    ensures Yields(entries, keys, i, n).None?
    decreases b - i
  {
    if i < b {
      FailsFrom(entries, keys, i + 1, b, n);
    }
  }

  /** With all experts' weights there, the conversion succeeds exactly when expert 0 comes first in key order. */
  lemma ConvertsIffZeroFirst<T>(entries: Entries<T>, keys: seq<Key>, n: nat)
    requires Complete(entries, n) && Snapshot(entries, keys)
    ensures Yields(entries, keys, 0, n).Some? <==> ZeroFirst(keys)
  {
    if ZeroFirst(keys) {
      ZeroFirstYields(entries, keys, 0, n);
    } else {
      var a, b :| 0 <= a < |keys| && 0 <= b < |keys| && Deletes(keys[a]) && keys[b] == ZeroOf(keys[a]) && a <= b;
      var k := keys[a];
      assert a < b && k in keys[..b];
      assert k in keys && k in entries;
      CompleteAt(entries, k.prefix, k.projection, k.index, n);
      assert k !in Without(entries, keys[..b]);
      MissingStackFails(Without(entries, keys[..b]), k, n);
      FailsFrom(entries, keys, 0, b, n);
    }
  }

  lemma MissingStackFails<T>(entries: Entries<T>, k: Key, n: nat)
    requires AllValid(entries) && k.Expert? && !k.projection.Gate? && k !in entries && k.index < n
    ensures Yield(entries, ZeroOf(k), n).None?
  {
  }

  // ---- and then loses nothing ----

  /** The entry at whose turn an item is yielded. */
  function SourceKey(fused: FusedKey): Key {
    match fused
    case PlainKey(name) => Plain(name)
    case GateUpProj(prefix) => Expert(prefix, Up, 0)
    case DownProj(prefix) => Expert(prefix, Down, 0)
  }

  /** The items of the output are those of the keys, one each, and no fused key comes twice. */
  ghost predicate ItemsFrom<T>(entries: Entries<T>, keys: seq<Key>, i: nat, n: nat, out: Output<T>)
    requires AllValid(entries) && i <= |keys| && forall k :: k in keys ==> k in entries
  {
    (forall x :: x in out ==> SourceKey(x.0) in keys[i..] && Yield(entries, SourceKey(x.0), n) == Some([x]))
    && (forall k :: k in keys[i..] ==>
          Yield(entries, k, n).Some? && forall x :: x in Yield(entries, k, n).value ==> x in out)
    && (forall a, b :: 0 <= a < b < |out| ==> out[a].0 != out[b].0)
  }

  lemma YieldItem<T>(entries: Entries<T>, k: Key, n: nat)
    requires AllValid(entries) && k in entries && Yield(entries, k, n).Some?
    ensures var items := Yield(entries, k, n).value;
            items == [] || (|items| == 1 && SourceKey(items[0].0) == k)
  {
  }

  lemma {:induction false} YieldsItems<T>(entries: Entries<T>, keys: seq<Key>, i: nat, n: nat)
    requires Complete(entries, n) && Snapshot(entries, keys) && ZeroFirst(keys) && i <= |keys|
    ensures AllValid(entries) && Yields(entries, keys, i, n).Some?
    ensures ItemsFrom(entries, keys, i, n, Yields(entries, keys, i, n).value)
    decreases |keys| - i
  {
    hide Complete, ZeroFirst, Yield, ItemsFrom;
    CompleteValid(entries, n);
    if i == |keys| {
      NoItems(entries, keys, n);
    } else {
      assert keys[i] in keys;
      YieldUnaffected(entries, keys, i, n);
      YieldsItems(entries, keys, i + 1, n);
      YieldItem(entries, keys[i], n);
      MoreItems(entries, keys, i, n, Yields(entries, keys, i + 1, n).value);
    }
  }

  lemma NoItems<T>(entries: Entries<T>, keys: seq<Key>, n: nat)
    requires AllValid(entries) && forall k :: k in keys ==> k in entries
    ensures ItemsFrom(entries, keys, |keys|, n, [])
  {
  }

  lemma MoreItems<T>(entries: Entries<T>, keys: seq<Key>, i: nat, n: nat, rest: Output<T>)
    requires AllValid(entries) && Snapshot(entries, keys) && i < |keys| && Yield(entries, keys[i], n).Some?
    requires ItemsFrom(entries, keys, i + 1, n, rest)
    requires var items := Yield(entries, keys[i], n).value;
             items == [] || (|items| == 1 && SourceKey(items[0].0) == keys[i])
    ensures ItemsFrom(entries, keys, i, n, Yield(entries, keys[i], n).value + rest)
  {
    hide Yield;
    var items := Yield(entries, keys[i], n).value;
    var out := items + rest;
    assert keys[i..] == [keys[i]] + keys[i + 1..];
    assert keys[i] !in keys[i + 1..];
    forall a | 0 <= a < |rest| ensures SourceKey(rest[a].0) in keys[i + 1..] {
      assert rest[a] in rest;
    }
    if items == [] {
      assert out == rest;
    } else {
      assert items == [items[0]] && out == [items[0]] + rest;
    }
  }

  /** Items come in the order of the keys they are yielded at. */
  lemma InKeyOrder<T>(entries: Entries<T>, keys: seq<Key>, n: nat, a: nat, b: nat)
    requires AllValid(entries) && Snapshot(entries, keys) && Yields(entries, keys, 0, n).Some?
    requires a < b < |Yields(entries, keys, 0, n).value|
    ensures var out := Yields(entries, keys, 0, n).value;
            exists i, j :: 0 <= i < j < |keys| && keys[i] == SourceKey(out[a].0) && keys[j] == SourceKey(out[b].0)
  {
    hide Yields, Snapshot;
    var at := Places(entries, keys, 0, n);
    assert at[a] < at[b];
  }

  lemma {:induction false} Places<T>(entries: Entries<T>, keys: seq<Key>, i: nat, n: nat) returns (at: seq<nat>)
    requires AllValid(entries) && Snapshot(entries, keys) && i <= |keys| && Yields(entries, keys, i, n).Some?
    ensures var out := Yields(entries, keys, i, n).value;
            && |at| == |out|
            && (forall a :: 0 <= a < |at| ==> i <= at[a] < |keys| && keys[at[a]] == SourceKey(out[a].0))
            && (forall a, b :: 0 <= a < b < |at| ==> at[a] < at[b])
    decreases |keys| - i
  {
    hide Yield, Without;
    if i == |keys| {
      at := [];
    } else {
      assert keys[i] in keys;
      NotYetDeleted(entries, keys, i);
      var rest := Places(entries, keys, i + 1, n);
      var here := Yield(Without(entries, keys[..i]), keys[i], n);
      YieldItem(Without(entries, keys[..i]), keys[i], n);
      at := if here.value == [] then rest else [i] + rest;
    }
  }

  /** Every element is there, once: plain entries unchanged; of each layer, one stack in which expert `i` holds its gate
      and up weights side by side, transposed, and one with its transposed down weight. Cutting and transposing back
      gives the weights that went in. Entries under the experts that are none of the three are left out. */
  lemma Lossless<T>(entries: Entries<T>, keys: seq<Key>, n: nat, prefix: string)
    requires Complete(entries, n) && Snapshot(entries, keys) && ZeroFirst(keys)
    ensures Yields(entries, keys, 0, n).Some?
    ensures var out := Yields(entries, keys, 0, n).value;
            && (forall a, b :: 0 <= a < b < |out| ==> out[a].0 != out[b].0)
            && (forall x :: x in out ==> SourceKey(x.0) in entries)
            && (forall name :: Plain(name) in entries ==> (PlainKey(name), Single(entries[Plain(name)])) in out)
            && (Expert(prefix, Up, 0) in entries ==>
                  exists all :: (GateUpProj(prefix), Stacked(all)) in out && HoldsGateUp(entries, prefix, n, all))
            && (Expert(prefix, Down, 0) in entries ==>
                  exists all :: (DownProj(prefix), Stacked(all)) in out && HoldsDown(entries, prefix, n, all))
  {
    hide Yields, Complete, ZeroFirst, HoldsGateUp, HoldsDown, GateUp, Stack, Yield;
    CompleteValid(entries, n);
    YieldsItems(entries, keys, 0, n);
    var out := Yields(entries, keys, 0, n).value;
    assert keys[0..] == keys;
    forall name | Plain(name) in entries ensures (PlainKey(name), Single(entries[Plain(name)])) in out {
      PlainItem(entries, keys, n, out, name);
    }
    if Expert(prefix, Up, 0) in entries {
      CompleteAt(entries, prefix, Up, 0, n);
      GateUpItem(entries, keys, n, out, prefix);
    }
    if Expert(prefix, Down, 0) in entries {
      CompleteAt(entries, prefix, Down, 0, n);
      DownItem(entries, keys, n, out, prefix);
    }
  }

  lemma PlainItem<T>(entries: Entries<T>, keys: seq<Key>, n: nat, out: Output<T>, name: string)
    requires AllValid(entries) && Snapshot(entries, keys) && ItemsFrom(entries, keys, 0, n, out)
    requires Plain(name) in entries
    ensures (PlainKey(name), Single(entries[Plain(name)])) in out
  {
    assert keys[0..] == keys;
    assert Plain(name) in keys[0..];
    assert (PlainKey(name), Single(entries[Plain(name)])) in Yield(entries, Plain(name), n).value;
  }

  lemma GateUpItem<T>(entries: Entries<T>, keys: seq<Key>, n: nat, out: Output<T>, prefix: string)
    requires n >= 1 && AllValid(entries) && Snapshot(entries, keys) && ItemsFrom(entries, keys, 0, n, out)
    requires CompleteLayer(entries, prefix, n)
    ensures exists all :: (GateUpProj(prefix), Stacked(all)) in out && HoldsGateUp(entries, prefix, n, all)
  {
    hide HoldsGateUp, GateUp;
    GateUpRecovered(entries, prefix, n);
    var all := GateUp(entries, prefix, n).value;
    var k := Expert(prefix, Up, 0);
    assert keys[0..] == keys;
    assert k in keys[0..];
    assert (GateUpProj(prefix), Stacked(all)) in Yield(entries, k, n).value;
  }

  lemma DownItem<T>(entries: Entries<T>, keys: seq<Key>, n: nat, out: Output<T>, prefix: string)
    requires n >= 1 && AllValid(entries) && Snapshot(entries, keys) && ItemsFrom(entries, keys, 0, n, out)
    requires CompleteLayer(entries, prefix, n)
    ensures exists all :: (DownProj(prefix), Stacked(all)) in out && HoldsDown(entries, prefix, n, all)
  {
    hide HoldsDown, Stack;
    DownRecovered(entries, prefix, n);
    var all := Stack(entries, prefix, Down, n).value;
    var k := Expert(prefix, Down, 0);
    assert keys[0..] == keys;
    assert k in keys[0..];
    assert (DownProj(prefix), Stacked(all)) in Yield(entries, k, n).value;
  }

  ghost predicate HoldsGateUp<T>(entries: Entries<T>, prefix: string, n: nat, all: seq<Matrix<T>>) {
    |all| == n
    && forall i :: 0 <= i < n ==>
         Expert(prefix, Gate, i) in entries && Expert(prefix, Up, i) in entries
         && Splits(all[i], entries[Expert(prefix, Gate, i)], entries[Expert(prefix, Up, i)])
  }

  /** Cut after the gate's columns and transposed, the fused matrix gives the gate and the up weight. */
  ghost predicate Splits<T>(fused: Matrix<T>, gate: Matrix<T>, up: Matrix<T>) {
    gate.Valid() && up.Valid() && fused.Shaped(gate.cols, gate.rows + up.rows)
    && Transpose(Columns(fused, 0, gate.rows)) == gate
    && Transpose(Columns(fused, gate.rows, gate.rows + up.rows)) == up
  }

  ghost predicate HoldsDown<T>(entries: Entries<T>, prefix: string, n: nat, all: seq<Matrix<T>>) {
    |all| == n
    && forall i :: 0 <= i < n ==>
         Expert(prefix, Down, i) in entries && all[i].Valid() && Transpose(all[i]) == entries[Expert(prefix, Down, i)]
  }

  /** Element by element: the fused matrix of expert `i` has the transposed gate weight on the left and the transposed
      up weight on its right. */
  lemma GateUpPlaced<T>(entries: Entries<T>, prefix: string, n: nat, all: seq<Matrix<T>>, i: nat, r: nat, c: nat)
    requires AllValid(entries) && HoldsGateUp(entries, prefix, n, all) && i < n
    ensures var gate, up, fused := entries[Expert(prefix, Gate, i)], entries[Expert(prefix, Up, i)], all[i];
            && fused.Shaped(gate.cols, gate.rows + up.rows)
            && (r < gate.rows && c < gate.cols ==> fused.At(c, r) == gate.At(r, c))
            && (r < up.rows && c < gate.cols ==> c < up.cols && fused.At(c, gate.rows + r) == up.At(r, c))
  {
    var gate, up, fused := entries[Expert(prefix, Gate, i)], entries[Expert(prefix, Up, i)], all[i];
    assert Splits(fused, gate, up);
    if r < gate.rows && c < gate.cols {
      assert Transpose(Columns(fused, 0, gate.rows)).At(r, c) == Columns(fused, 0, gate.rows).At(c, r);
    }
    if r < up.rows && c < gate.cols {
      var right := Columns(fused, gate.rows, gate.rows + up.rows);
      assert Transpose(right).At(r, c) == right.At(c, r);
    }
  }

  lemma DownPlaced<T>(entries: Entries<T>, prefix: string, n: nat, all: seq<Matrix<T>>, i: nat, r: nat, c: nat)
    requires AllValid(entries) && HoldsDown(entries, prefix, n, all) && i < n
    ensures var down := entries[Expert(prefix, Down, i)];
            && all[i].Shaped(down.cols, down.rows)
            && (r < down.rows && c < down.cols ==> all[i].At(c, r) == down.At(r, c))
  {
  }

  lemma GateUpRecovered<T>(entries: Entries<T>, prefix: string, n: nat)
    requires n >= 1 && AllValid(entries) && CompleteLayer(entries, prefix, n)
    ensures GateUp(entries, prefix, n).Some? && HoldsGateUp(entries, prefix, n, GateUp(entries, prefix, n).value)
  {
    hide GateUp;
    GateUpWorks(entries, prefix, n);
    var all := GateUp(entries, prefix, n).value;
    forall i | 0 <= i < n
      ensures Splits(all[i], entries[Expert(prefix, Gate, i)], entries[Expert(prefix, Up, i)])
    {
      var gate, up := entries[Expert(prefix, Gate, i)], entries[Expert(prefix, Up, i)];
      BesideColumns(Transpose(gate), Transpose(up));
      TransposeTwice(gate);
      TransposeTwice(up);
    }
  }

  lemma DownRecovered<T>(entries: Entries<T>, prefix: string, n: nat)
    requires n >= 1 && AllValid(entries) && CompleteLayer(entries, prefix, n)
    ensures Stack(entries, prefix, Down, n).Some?
    ensures HoldsDown(entries, prefix, n, Stack(entries, prefix, Down, n).value)
  {
    hide Stack;
    StackWorks(entries, prefix, Down, n);
    forall i | 0 <= i < n
      ensures Transpose(Transpose(entries[Expert(prefix, Down, i)])) == entries[Expert(prefix, Down, i)]
    {
      TransposeTwice(entries[Expert(prefix, Down, i)]);
    }
  }
}
