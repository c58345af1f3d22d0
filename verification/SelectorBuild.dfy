/** What the selector derives from the facts of all files: who imports whom, and which keys carry a signal. */
module SelectorBuild {
  import opened Options
  import opened SelectorHelpers
  import opened SelectorEdges

  // ---- counting keys ----

  function With(sets: map<Path, set<string>>, done: set<Path>, key: string): set<Path> {
    set m | m in done && m in sets && key in sets[m]
  }

  /** `counts` has the keys that occur in some set of `done`, each with in how many. */
  ghost predicate Counted(sets: map<Path, set<string>>, keys: set<string>, done: set<Path>, counts: map<string, nat>) {
    (forall k :: k in counts <==> k in keys && With(sets, done, k) != {})
    && forall k :: k in counts ==> counts[k] == |With(sets, done, k)|
  }

  /** The same, with one more for the keys in `more`. */
  ghost predicate Counting(
    sets: map<Path, set<string>>, keys: set<string>, done: set<Path>, more: set<string>, counts: map<string, nat>)
  {
    (forall k :: k in counts <==> k in keys && (With(sets, done, k) != {} || k in more))
    && forall k :: k in counts ==> counts[k] == |With(sets, done, k)| + if k in more then 1 else 0
  }

  lemma CountingStep(
    sets: map<Path, set<string>>, keys: set<string>, done: set<Path>, more: set<string>, counts: map<string, nat>,
    k: string)
    requires Counting(sets, keys, done, more, counts) && k in keys && k !in more
    ensures Counting(sets, keys, done, more + {k}, counts[k := (if k in counts then counts[k] else 0) + 1])
  {
  }

  lemma CountingEnds(
    sets: map<Path, set<string>>, keys: set<string>, done: set<Path>, m: Path, counts: map<string, nat>)
    requires m in sets && m !in done && Counting(sets, keys, done, sets[m] * keys, counts)
    ensures Counted(sets, keys, done + {m}, counts)
  {
    forall k ensures With(sets, done + {m}, k) == With(sets, done, k) + if k in sets[m] then {m} else {} {
    }
  }

  lemma CountedAll(sets: map<Path, set<string>>, keys: set<string>, counts: map<string, nat>)
    requires Counted(sets, keys, sets.Keys, counts)
    ensures forall k :: k in counts <==> k in keys && Having(sets, k) != {}
    ensures forall k :: k in counts ==> counts[k] == |Having(sets, k)|
  {
    assert forall k :: With(sets, sets.Keys, k) == Having(sets, k);
  }

  /** Counts the keys of one more set. */
  method CountSet(
    sets: map<Path, set<string>>, keys: set<string>, ghost done: set<Path>, m: Path, counts0: map<string, nat>)
    returns (counts: map<string, nat>)
    requires m in sets && m !in done && Counted(sets, keys, done, counts0)
    ensures Counted(sets, keys, done + {m}, counts)
  {
    assert Counting(sets, keys, done, {}, counts0);
    hide Counted, Counting;
    counts := counts0;
    var rest := sets[m] * keys;
    ghost var all, more: set<string> := rest, {};
    while rest != {}
      invariant rest <= all && more == all - rest && all <= keys && Counting(sets, keys, done, more, counts)
      decreases rest
    {
      var k :| k in rest;
      CountingStep(sets, keys, done, more, counts, k);
      counts := counts[k := (if k in counts then counts[k] else 0) + 1];
      rest := rest - {k};
      more := more + {k};
    }
    assert more == all;
    CountingEnds(sets, keys, done, m, counts);
  }

  /** In how many of the sets each key occurs, for the keys that occur at all; files and keys come in any order. */
  method CountKeys(sets: map<Path, set<string>>, keys: set<string>) returns (counts: map<string, nat>)
    ensures forall k :: k in counts <==> k in keys && Having(sets, k) != {}
    ensures forall k :: k in counts ==> counts[k] == |Having(sets, k)|
  {
    counts := map[];
    ghost var done: set<Path> := {};
    var todo := sets.Keys;
    assert Counted(sets, keys, {}, map[]);
    while todo != {}
      invariant todo <= sets.Keys && done == sets.Keys - todo && Counted(sets, keys, done, counts)
      decreases todo
    {
      hide Counted;
      var m :| m in todo;
      counts := CountSet(sets, keys, done, m, counts);
      todo, done := todo - {m}, done + {m};
    }
    assert done == sets.Keys;
    hide Counted;
    CountedAll(sets, keys, counts);
  }

  // ---- importers ----

  /** `importers` has exactly the imports of the files in `done`, and of `rel` those that `imps` say. */
  ghost predicate Importing(
    src: Sources, done: set<Path>, rel: Path, imps: set<string>, importers: map<Path, set<Path>>)
  {
    forall t, m :: t in importers && m in importers[t]
                   <==> (m in done && src.Imports(m, t))
                        || (m == rel && m != t && src.Hits(imps, t))
  }

  lemma ImportingStep(
    src: Sources, done: set<Path>, rel: Path, imps: set<string>, importers: map<Path, set<Path>>, imp: string)
    requires Importing(src, done, rel, imps, importers)
    ensures var target := src.TargetOf(imp);
            Importing(src, done, rel, imps + {imp},
                      if target.None? || target.value == rel then importers
                      else AddImporter(importers, target.value, rel))
  {
    hide Sources.Imports, Sources.TargetOf, Sources.Hits;
    var target := src.TargetOf(imp);
    forall t ensures src.Hits(imps + {imp}, t) <==> src.Hits(imps, t) || target == Some(t) {
      src.HitsOneMore(imps, imp, t);
    }
    if target.Some? && target.value != rel {
      var more := AddImporter(importers, target.value, rel);
      forall t, m
        ensures t in more && m in more[t] <==> (t in importers && m in importers[t]) || (t == target.value && m == rel)
      {
      }
    }
  }

  function AddImporter(importers: map<Path, set<Path>>, target: Path, rel: Path): map<Path, set<Path>> {
    importers[target := (if target in importers then importers[target] else {}) + {rel}]
  }

  lemma ImportingEnds(src: Sources, done: set<Path>, rel: Path, next: Path, importers: map<Path, set<Path>>)
    requires rel in src.imports && Importing(src, done, rel, src.imports[rel], importers)
    ensures Importing(src, done + {rel}, next, {}, importers)
  {
    assert forall t :: !src.Hits({}, t);
  }

  lemma ImportingBegins(src: Sources, rel: Path)
    ensures Importing(src, {}, rel, {}, map[])
  {
    assert forall t :: !src.Hits({}, t);
  }

  lemma OtherFile(src: Sources, done: set<Path>, rel: Path, next: Path, importers: map<Path, set<Path>>)
    requires Importing(src, done, rel, {}, importers)
    ensures Importing(src, done, next, {}, importers)
  {
    assert forall t :: !src.Hits({}, t);
  }

  /** The loop over the files and their imports, in any order. */
  method ImportersOf(src: Sources) returns (importers: map<Path, set<Path>>)
    ensures forall t, m :: t in importers && m in importers[t] <==> src.Imports(m, t)
  {
    importers := map[];
    ghost var done: set<Path> := {};
    var todo := src.imports.Keys;
    ImportingBegins(src, "");
    while todo != {}
      invariant done !! todo && done + todo == src.imports.Keys && Importing(src, done, "", {}, importers)
      decreases todo
    {
      hide Importing, AddImporter;
      var rel :| rel in todo;
      var rest := src.imports[rel];
      ghost var imps: set<string> := {};
      OtherFile(src, done, "", rel, importers);
      while rest != {}
        invariant imps + rest == src.imports[rel] && Importing(src, done, rel, imps, importers)
        decreases rest
      {
        var imp :| imp in rest;
        ImportingStep(src, done, rel, imps, importers, imp);
        var target := src.TargetOf(imp);
        if target.Some? && target.value != rel {
          importers := AddImporter(importers, target.value, rel);
        }
        rest, imps := rest - {imp}, imps + {imp};
      }
      assert imps == src.imports[rel];
      ImportingEnds(src, done, rel, "", importers);
      todo, done := todo - {rel}, done + {rel};
    }
    assert done == src.imports.Keys;
  }

  // ---- the model ----

  /** `build`, from the facts of the tests on. */
  method BuildModel(testFacts: map<Path, Facts>, src: Sources) returns (model: Model)
    ensures model.testFacts == testFacts && model.src == src && model.Consistent()
  {
    var importers := ImportersOf(src);
    var universe := UniverseOf(Model(testFacts, src, importers, {}, {}));
    var ubiquitous := UbiquitousOf(Model(testFacts, src, importers, universe, {}));
    model := Model(testFacts, src, importers, universe, ubiquitous);
  }

  method UniverseOf(model: Model) returns (universe: set<string>)
    ensures forall k :: k in universe <==> model.InUniverse(k)
  {
    var used := set t, k | t in model.testFacts && k in model.testFacts[t].keys :: k;
    var readers := CountKeys(model.src.names, model.src.allFields * used);
    universe := set k | k in model.src.allFields * used && (k in readers ==> 5 * readers[k] < |model.src.names|);
    UniverseBuilt(model, universe, used, readers);
  }

  method UbiquitousOf(model: Model) returns (ubiquitous: set<string>)
    ensures forall k :: k in ubiquitous <==> model.IsUbiquitous(k)
  {
    var counts := CountKeys(model.Configured(), model.universe);
    ubiquitous := set k | k in counts && 2 * counts[k] >= |model.Configured()|;
  }

  lemma UniverseBuilt(model: Model, universe: set<string>, used: set<string>, readers: map<string, nat>)
    requires used == set t, k | t in model.testFacts && k in model.testFacts[t].keys :: k
    requires forall k :: k in readers <==> k in model.src.allFields * used && Having(model.src.names, k) != {}
    requires forall k :: k in readers ==> readers[k] == |Having(model.src.names, k)|
    requires universe
             == set k | k in model.src.allFields * used && (k in readers ==> 5 * readers[k] < |model.src.names|)
    ensures forall k :: k in universe <==> model.InUniverse(k)
  {
    forall k ensures k in used <==> Having(model.TestKeys(), k) != {} {
      if k in used {
        var t :| t in model.testFacts && k in model.testFacts[t].keys;
        assert t in Having(model.TestKeys(), k);
      }
      if Having(model.TestKeys(), k) != {} {
        var t :| t in Having(model.TestKeys(), k);
        assert k in model.testFacts[t].keys;
      }
    }
  }
}
