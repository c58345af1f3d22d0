/** Which tests a changed source module reaches through the modules that import it. */
module SelectorImpact {
  import opened Options
  import opened Sequences
  import opened SelectorHelpers
  import opened SelectorEdges

  /** The import graph and the edges each module carries itself; modules without edges are decided by importers. */
  datatype Graph = Graph(importers: map<Path, set<Path>>, ownEdges: Path -> Option<Edges>)
  {
    function Importers(m: Path): set<Path> {
      if m in importers then importers[m] else {}
    }

    /** A chain of importers from `p[0]`, climbing only through modules without edges. */
    ghost predicate Climb(p: seq<Path>) {
      p != [] && forall i :: 0 <= i < |p| - 1 ==> ownEdges(p[i]).None? && p[i + 1] in Importers(p[i])
    }

    /** `m` is reached from `rel` by climbing at least once. */
    ghost predicate Reached(rel: Path, m: Path) {
      exists p :: Climb(p) && |p| >= 2 && p[0] == rel && p[|p| - 1] == m
    }

    predicate WholeScope(m: Path) {
      ownEdges(m) == Some(Edges(None))
    }

    ghost predicate ReachesAll(rel: Path) {
      exists m :: Reached(rel, m) && WholeScope(m)
    }

    ghost predicate ReachesTests(rel: Path, t: Path) {
      exists m :: Reached(rel, m) && Carries(m, t)
    }

    predicate Carries(m: Path, t: Path) {
      ownEdges(m).Some? && ownEdges(m).value.tests.Some? && t in ownEdges(m).value.tests.value
    }

    ghost predicate ReachesNothing(rel: Path) {
      forall m :: Reached(rel, m) ==> ownEdges(m).None?
    }

    /** The impact of a change to `rel`. A module with edges has its own. Any other has the union over the modules
        with edges that are reached through importers without; the whole scope when one of those has it, or when no
        module with edges is reached (no importers at all is a case of that). */
    ghost predicate IsImpact(rel: Path, r: Option<set<Path>>) {
      if ownEdges(rel).Some? then r == ownEdges(rel).value.tests
      else
        (r.None? <==> ReachesAll(rel) || ReachesNothing(rel))
        && (r.Some? ==> forall t :: t in r.value <==> ReachesTests(rel, t))
    }

    /** The impact is determined: the order of the traversal cannot change it. */
    lemma ImpactUnique(rel: Path, r: Option<set<Path>>, r': Option<set<Path>>)
      requires IsImpact(rel, r) && IsImpact(rel, r')
      ensures r == r'
    {
      hide ReachesAll, ReachesNothing, ReachesTests;
      if ownEdges(rel).None? && r.Some? {
        assert r.value == r'.value;
      }
    }

    lemma ReachedOnce(rel: Path, m: Path)
      requires ownEdges(rel).None? && m in Importers(rel)
      ensures Reached(rel, m)
    {
      assert Climb([rel, m]);
    }

    lemma ReachedNext(rel: Path, m: Path, n: Path)
      requires Reached(rel, m) && ownEdges(m).None? && n in Importers(m)
      ensures Reached(rel, n)
    {
      var p :| Climb(p) && |p| >= 2 && p[0] == rel && p[|p| - 1] == m;
      var q := p + [n];
      assert forall i :: 0 <= i < |p| ==> q[i] == p[i];
      assert Climb(q);
    }

    /** One step of the climb: to an importer, or on from one without edges. */
    lemma ReachedByStep(rel: Path, m: Path)
      requires ownEdges(rel).None?
      ensures Reached(rel, m)
              <==> exists p :: p in Importers(rel) && (m == p || (ownEdges(p).None? && Reached(p, m)))
    {
      if Reached(rel, m) {
        var c :| Climb(c) && |c| >= 2 && c[0] == rel && c[|c| - 1] == m;
        var rest := c[1..];
        assert Climb(rest) && rest[0] in Importers(rel);
        assert |rest| >= 2 ==> Reached(rest[0], m);
      }
      if p :| p in Importers(rel) && (m == p || (ownEdges(p).None? && Reached(p, m))) {
        if m == p {
          ReachedOnce(rel, m);
        } else {
          var c :| Climb(c) && |c| >= 2 && c[0] == p && c[|c| - 1] == m;
          assert Climb([rel] + c);
        }
      }
    }

    /** A module without edges gets what its importers give. Everything runs when one of them runs everything, or when
        none leads to a module with edges, as when there are no importers. Otherwise it is exactly the tests of those
        with edges and what is reached from the others. */
    lemma ImpactByImporters(rel: Path, hits: Option<set<Path>>)
      requires ownEdges(rel).None? && IsImpact(rel, hits)
      ensures hits.None?
              <==> (exists p :: p in Importers(rel)
                                && (ownEdges(p) == Some(Edges(None)) || (ownEdges(p).None? && ReachesAll(p))))
                   || (forall p :: p in Importers(rel) ==> ownEdges(p).None? && ReachesNothing(p))
      ensures hits.Some? ==>
                forall t :: t in hits.value
                            <==> exists p :: p in Importers(rel)
                                             && (Carries(p, t) || (ownEdges(p).None? && ReachesTests(p, t)))
    {
      AllByStep(rel);
      NothingByStep(rel);
      forall t ensures ReachesTests(rel, t)
                       <==> exists p :: p in Importers(rel)
                                        && (Carries(p, t) || (ownEdges(p).None? && ReachesTests(p, t))) {
        TestsByStep(rel, t);
      }
      hide ReachesAll, ReachesNothing, ReachesTests;
    }

    /** A module with edges has just those. */
    lemma ImpactByEdges(rel: Path, tests: Option<set<Path>>, hits: Option<set<Path>>)
      requires ownEdges(rel) == Some(Edges(tests))
      ensures IsImpact(rel, hits) <==> hits == tests
    {
    }

    lemma AllByStep(rel: Path)
      requires ownEdges(rel).None?
      ensures ReachesAll(rel)
              <==> exists p :: p in Importers(rel) && (WholeScope(p) || (ownEdges(p).None? && ReachesAll(p)))
    {
      forall m ensures Reached(rel, m)
                       <==> exists p :: p in Importers(rel) && (m == p || (ownEdges(p).None? && Reached(p, m))) {
        ReachedByStep(rel, m);
      }
      hide Reached;
    }

    lemma NothingByStep(rel: Path)
      requires ownEdges(rel).None?
      ensures ReachesNothing(rel)
              <==> forall p :: p in Importers(rel) ==> ownEdges(p).None? && ReachesNothing(p)
    {
      forall m ensures Reached(rel, m)
                       <==> exists p :: p in Importers(rel) && (m == p || (ownEdges(p).None? && Reached(p, m))) {
        ReachedByStep(rel, m);
      }
      hide Reached;
      forall p | p in Importers(rel) ensures Reached(rel, p) {
      }
      forall p, m | p in Importers(rel) && ownEdges(p).None? && Reached(p, m) ensures Reached(rel, m) {
      }
    }

    lemma TestsByStep(rel: Path, t: Path)
      requires ownEdges(rel).None?
      ensures ReachesTests(rel, t)
              <==> exists p :: p in Importers(rel) && (Carries(p, t) || (ownEdges(p).None? && ReachesTests(p, t)))
    {
      forall m ensures Reached(rel, m)
                       <==> exists p :: p in Importers(rel) && (m == p || (ownEdges(p).None? && Reached(p, m))) {
        ReachedByStep(rel, m);
      }
      hide Reached;
    }

    /** All modules that can be reached at all. */
    function Universe(rel: Path): set<Path> {
      {rel} + importers.Keys + (set m, n | m in importers && n in importers[m] :: n)
    }
  }

  /** Where the walk stands: `seen` is discovered, `open` (part of it) still to be expanded. */
  ghost predicate Walking(g: Graph, rel: Path, seen: set<Path>, open: set<Path>) {
    rel in seen && open <= seen && seen <= g.Universe(rel)
    && (forall m :: m in seen && m != rel ==> g.Reached(rel, m))
    && (forall m :: m in open ==> g.ownEdges(m).None?)
    && (forall m :: m in seen && m !in open && g.ownEdges(m).None? ==> g.Importers(m) <= seen)
  }

  /** What the walk has collected from the discovered modules with edges. */
  ghost predicate Collected(g: Graph, rel: Path, seen: set<Path>, hits: set<Path>, explained: bool) {
    (forall m :: m in seen && m != rel ==> !g.WholeScope(m))
    && (explained <==> exists m :: m in seen && m != rel && g.ownEdges(m).Some?)
    && (forall t :: t in hits <==> exists m :: m in seen && m != rel && g.Carries(m, t))
  }

  lemma WalkStarts(g: Graph, rel: Path)
    requires g.ownEdges(rel).None?
    ensures Walking(g, rel, {rel}, {rel}) && Collected(g, rel, {rel}, {}, false)
  {
  }

  /** An importer of an open module is discovered; it is expanded later when it has no edges of its own. */
  lemma Discover(g: Graph, rel: Path, seen: set<Path>, open: set<Path>, m: Path, parent: Path)
    requires Walking(g, rel, seen, open) && m in open && parent in g.Importers(m) && parent !in seen
    ensures g.Reached(rel, parent)
    ensures Walking(g, rel, seen + {parent}, if g.ownEdges(parent).None? then open + {parent} else open)
  {
    if m == rel {
      g.ReachedOnce(rel, parent);
    } else {
      g.ReachedNext(rel, m, parent);
    }
    assert parent in g.Universe(rel);
  }

  /** A module whose importers have all been discovered is done. */
  lemma Expanded(g: Graph, rel: Path, seen: set<Path>, open: set<Path>, m: Path)
    requires Walking(g, rel, seen, open + {m}) && g.Importers(m) <= seen
    ensures Walking(g, rel, seen, open)
  {
  }

  lemma WalkBounds(g: Graph, rel: Path, seen: set<Path>, open: set<Path>)
    requires Walking(g, rel, seen, open)
    ensures seen <= g.Universe(rel) && rel in seen
  {
  }

  lemma Collect(g: Graph, rel: Path, seen: set<Path>, hits: set<Path>, explained: bool, parent: Path)
    requires Collected(g, rel, seen, hits, explained) && rel in seen && parent !in seen && !g.WholeScope(parent)
    ensures var tests := if g.ownEdges(parent).Some? then g.ownEdges(parent).value.tests.value else {};
            Collected(g, rel, seen + {parent}, hits + tests, explained || g.ownEdges(parent).Some?)
  {
    var seen' := seen + {parent};
    var tests := if g.ownEdges(parent).Some? then g.ownEdges(parent).value.tests.value else {};
    forall t | t in hits + tests ensures exists m :: m in seen' && m != rel && g.Carries(m, t) {
      if t in hits {
        var m :| m in seen && m != rel && g.Carries(m, t);
        assert m in seen';
      } else {
        assert g.Carries(parent, t);
      }
    }
  }

  /** When nothing is left to expand, everything reached has been discovered. */
  lemma {:induction false} AllDiscovered(g: Graph, rel: Path, seen: set<Path>, p: seq<Path>)
    requires Walking(g, rel, seen, {}) && g.Climb(p) && p[0] == rel
    ensures p[|p| - 1] in seen
    decreases |p|
  {
    if |p| > 1 {
      var q := p[..|p| - 1];
      assert forall i :: 0 <= i < |q| ==> q[i] == p[i];
      AllDiscovered(g, rel, seen, q);
      assert p[|p| - 2] == q[|q| - 1];
    }
  }

  lemma WalkEnds(g: Graph, rel: Path, seen: set<Path>, hits: set<Path>, explained: bool)
    requires g.ownEdges(rel).None? && Walking(g, rel, seen, {}) && Collected(g, rel, seen, hits, explained)
    ensures g.IsImpact(rel, if explained then Some(hits) else None)
  {
    forall m | g.Reached(rel, m) ensures m in seen {
      var p :| g.Climb(p) && |p| >= 2 && p[0] == rel && p[|p| - 1] == m;
      AllDiscovered(g, rel, seen, p);
    }
    forall t ensures t in hits <==> g.ReachesTests(rel, t) {
      if t in hits {
        var m :| m in seen && m != rel && g.Carries(m, t);
        assert g.Reached(rel, m);
      }
      if g.ReachesTests(rel, t) {
        var m :| g.Reached(rel, m) && g.Carries(m, t);
        assert m in seen;
      }
    }
    if explained {
      var m :| m in seen && m != rel && g.ownEdges(m).Some?;
      assert g.Reached(rel, m);
    }
  }

  /** The import graph of a tree, with the edges its modules carry. */
  function ImportGraph(model: Model): Graph {
    Graph(model.importers, m => model.OwnEdges(m))
  }

  lemma NoFiles(model: Model, directory: Path)
    ensures model.EntriesOf(directory, {}) == model.NamedOf(directory, {}) == {}
  {
  }

  class Selector {
    const model: Model
    const graph: Graph
    var edgeCache: map<Path, Option<Edges>>
    var registryCache: map<Path, bool>
    var valueCache: map<Path, set<Path>>

    /** The memo tables hold what recomputation would return. */
    ghost predicate Valid()
      reads this
    {
      && graph == ImportGraph(model)
      && (forall m :: m in edgeCache ==> edgeCache[m] == model.OwnEdges(m))
      && (forall d :: d in registryCache ==> registryCache[d] == model.IsRegistryDir(d))
      && (forall m :: m in valueCache ==> valueCache[m] == model.ValueEdges(m))
    }

    constructor (model: Model)
      ensures Valid() && this.model == model && this.graph == ImportGraph(model)
    {
      this.model, this.graph := model, ImportGraph(model);
      edgeCache, registryCache, valueCache := map[], map[], map[];
    }

    method ValueEdges(rel: Path) returns (tests: set<Path>)
      requires Valid()
      modifies this
      ensures Valid() && tests == model.ValueEdges(rel)
    {
      hide Model.OwnEdges, Model.IsRegistryDir, Model.ValueEdges;
      if rel in valueCache {
        return valueCache[rel];
      }
      tests := model.ValueEdges(rel);
      valueCache := valueCache[rel := tests];
    }

    /** The entries of a directory, each with whether a config value names it, from its files in any order. */
    method NamedByEntry(directory: Path) returns (entries: map<string, bool>)
      requires Valid()
      modifies this
      ensures Valid() && entries.Keys == model.EntriesOf(directory, model.src.files)
      ensures (set e | e in entries && entries[e]) == model.NamedOf(directory, model.src.files)
    {
      hide Selector.Valid, Model.EntriesOf, Model.NamedOf, Model.ValueEdges;
      entries := map[];
      var todo, done := model.src.files, {};
      NoFiles(model, directory);
      while todo != {}
        invariant Valid() && todo + done == model.src.files
        invariant entries.Keys == model.EntriesOf(directory, done)
        invariant (set e | e in entries && entries[e]) == model.NamedOf(directory, done)
        decreases todo
      {
        var rel :| rel in todo;
        model.OneMoreFile(directory, done, rel);
        todo, done := todo - {rel}, done + {rel};
        if Counts(directory, rel) {
          var entry := EntryOf(directory, rel);
          var named := ValueEdges(rel);
          entries := entries[entry := (entry in entries && entries[entry]) || named != {}];
        }
      }
      assert done == model.src.files;
    }

    method IsRegistryDir(directory: Path) returns (r: bool)
      requires Valid()
      modifies this
      ensures Valid() && r == model.IsRegistryDir(directory)
    {
      if directory in registryCache {
        return registryCache[directory];
      }
      if directory == SRC_ROOT {
        return false;
      }
      var entries := NamedByEntry(directory);
      var named := set e | e in entries && entries[e];
      r := model.EnoughEntries(directory, entries.Keys, named);
      registryCache := registryCache[directory := r];
    }

    method RegistryEntry(rel: Path) returns (entry: Option<Path>)
      requires Valid()
      modifies this
      ensures Valid() && entry == model.RegistryEntry(rel)
    {
      hide Selector.Valid, Model.IsRegistryDir;
      var directory := Parent(rel);
      var here := IsRegistryDir(directory);
      if here {
        return Some(rel);
      }
      var above := IsRegistryDir(Parent(directory));
      return if above then Some(directory) else None;
    }

    method ComputeOwnEdges(rel: Path) returns (e: Option<Edges>)
      requires Valid()
      modifies this
      ensures Valid() && e == model.OwnEdges(rel)
    {
      hide Selector.Valid, Model.RegistryEntry, Model.IsRegistryLeaf;
      hide Model.ValueEdges, Model.ImportEdges, Model.KeyEdges;
      if rel in model.src.scripts {
        return WHOLE_SCOPE;
      }
      if rel in model.src.declared {
        var keys := model.src.declared[rel];
        if keys == [] || !(Elements(keys) <= model.src.allFields) {
          return WHOLE_SCOPE;
        }
        return SomeTests(model.KeyEdges(Elements(keys)));
      }
      var names := model.NamesOf(rel);
      if names.None? {
        return WHOLE_SCOPE;
      }
      var read := names.value * model.universe;
      var discriminating := read - model.ubiquitous;
      var keyHits := model.KeyEdges(discriminating);
      var imported := model.ImportEdges(rel);
      var named := ValueEdges(rel);
      var entry := RegistryEntry(rel);
      if entry.Some? {
        if named == {} {
          var init := entry.value + "/" + INIT;
          if init != rel && init in model.src.files {
            named := ValueEdges(init);
          }
        }
        if named != {} {
          return SomeTests(named + (imported + keyHits));
        }
        if model.IsRegistryLeaf(entry.value) {
          return SomeTests(imported + keyHits);
        }
      }
      if read * model.ubiquitous != {} {
        return WHOLE_SCOPE;
      }
      var hits := named + (imported + keyHits);
      if hits != {} || discriminating != {} {
        return SomeTests(hits);
      }
      return None;
    }

    method OwnEdges(rel: Path) returns (e: Option<Edges>)
      requires Valid()
      modifies this
      ensures Valid() && e == graph.ownEdges(rel)
    {
      hide Model.OwnEdges, Model.IsRegistryDir, Model.ValueEdges;
      if rel in edgeCache {
        return edgeCache[rel];
      }
      e := ComputeOwnEdges(rel);
      edgeCache := edgeCache[rel := e];
    }

    /** Discovers the importers of one module, in any order. `all` means one of them has the whole scope. */
    method VisitParents(
      rel: Path, importer: Path, frontier: seq<Path>, seen: set<Path>, hits: set<Path>, explained: bool)
      returns (frontier': seq<Path>, seen': set<Path>, hits': set<Path>, explained': bool, all: bool)
      requires Valid() && rel in seen && rel !in frontier
      requires Walking(graph, rel, seen, Elements(frontier) + {importer})
      requires Collected(graph, rel, seen, hits, explained)
      modifies this
      ensures Valid()
      ensures all ==> graph.ReachesAll(rel)
      ensures !all ==> Walking(graph, rel, seen', Elements(frontier'))
      ensures !all ==> Collected(graph, rel, seen', hits', explained')
      ensures !all ==> rel !in frontier' && seen <= seen' && (seen' == seen ==> |frontier'| == |frontier|)
    {
      hide Walking, Collected, Elements, Graph.Reached, Graph.Universe;
      frontier', seen', hits', explained', all := frontier, seen, hits, explained, false;
      var parents := graph.Importers(importer) - seen;
      while parents != {}
        invariant Valid()
        invariant Walking(graph, rel, seen', Elements(frontier') + {importer})
        invariant Collected(graph, rel, seen', hits', explained')
        invariant rel in seen' && rel !in frontier' && parents !! seen'
        invariant parents <= graph.Importers(importer) <= seen' + parents
        invariant seen <= seen' && (seen' == seen ==> |frontier'| == |frontier|)
      {
        var parent :| parent in parents;
        Discover(graph, rel, seen', Elements(frontier') + {importer}, importer, parent);
        parents := parents - {parent};
        var edges := OwnEdges(parent);
        if edges.Some? && edges.value.tests.None? {
          assert graph.WholeScope(parent);
          all := true;
          return;
        }
        Collect(graph, rel, seen', hits', explained', parent);
        seen' := seen' + {parent};
        if edges.None? {
          ElementsSnoc(frontier', parent);
          assert Elements(frontier') + {parent} + {importer} == Elements(frontier') + {importer} + {parent};
          frontier' := frontier' + [parent];
          assert hits' + {} == hits';
        } else {
          hits' := hits' + edges.value.tests.value;
          explained' := true;
        }
      }
      Expanded(graph, rel, seen', Elements(frontier'), importer);
    }

    /** Climbs importers until every branch ends at a module with edges. */
    method ImpactOfSource(rel: Path) returns (r: Option<set<Path>>)
      requires Valid()
      modifies this
      ensures Valid() && graph.IsImpact(rel, r)
    {
      hide Walking, Collected, Elements, Graph.Reached, Graph.Universe, Graph.ReachesAll, Graph.ReachesNothing;
      var own := OwnEdges(rel);
      if own.Some? {
        return own.value.tests;
      }
      var hits: set<Path> := {};
      var seen, frontier := {rel}, [rel];
      var explained := false;
      WalkStarts(graph, rel);
      ElementsEmpty<Path>();
      while frontier != []
        invariant Valid()
        invariant Walking(graph, rel, seen, Elements(frontier)) && Collected(graph, rel, seen, hits, explained)
        invariant rel in frontier ==> frontier == [rel] && seen == {rel} && !explained
        decreases graph.Universe(rel) - seen, |frontier|
      {
        var importer, rest := frontier[|frontier| - 1], frontier[..|frontier| - 1];
        ElementsSnoc(rest, importer);
        assert rest + [importer] == frontier;
        WalkBounds(graph, rel, seen, Elements(frontier));
        if graph.Importers(importer) - seen == {} && importer == rel {
          Expanded(graph, rel, seen, Elements(rest), importer);
          ElementsEmpty<Path>();
          WalkEnds(graph, rel, seen, hits, explained);
          return None;
        }
        ghost var before := seen;
        var all;
        frontier, seen, hits, explained, all := VisitParents(rel, importer, rest, seen, hits, explained);
        if all {
          return None;
        }
        WalkBounds(graph, rel, seen, Elements(frontier));
      }
      ElementsEmpty<Path>();
      WalkEnds(graph, rel, seen, hits, explained);
      r := if explained then Some(hits) else None;
    }
  }
}
