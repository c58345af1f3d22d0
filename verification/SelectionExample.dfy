/** A tree on which the selector runs less than its documentation says. */
module SelectionExample {
  import opened Options
  import opened Sequences
  import opened SelectorHelpers
  import opened SelectorEdges
  import opened SelectorImpact
  import opened Selection

  /** The files of the example: two tests, a test of another scope, a helper, a module, one that imports it, and a file
      that is no module. */
  datatype Example = Example(a: Path, b: Path, other: Path, helper: Path, mod: Path, importer: Path, data: Path)
  {
    predicate Fits() {
      AreTests() && AreSources()
    }

    predicate AreTests() {
      && a != b && other !in {a, b} && helper !in {a, b}
      && TESTS_DIR <= a && TESTS_DIR <= b && TESTS_DIR <= other && TESTS_DIR <= helper
      && EndsWith(other, ".py") && IsTestName(other) && !IsTestName(helper)
    }

    predicate AreSources() {
      && mod != importer && IsSourceModule(mod) && Parent(mod) == SRC_ROOT == Parent(importer)
      && SRC_DIR <= data && !EndsWith(data, ".py")
    }

    function Src(): Sources {
      Sources({mod, importer}, map[mod := {}, importer := {}], map[mod := {}, importer := {"axolotl.x"}],
              map["axolotl.x" := mod, "axolotl.y" := importer], _ => None, map[], {}, {}, {"ka", "kb"},
              (f: Facts, rel: Path) => (rel == mod && "axolotl.x" in f.imports)
                                       || (rel == importer && "axolotl.y" in f.imports),
              (_, _) => false)
    }

    /** The tests set a key each; the first one imports the importer, which alone imports the module. */
    function Derived(): Model {
      Model(map[a := Facts({"ka"}, {}, {"axolotl.y"}), b := Facts({"kb"}, {}, {})],
            Src(), map[mod := {importer}], {"ka", "kb"}, {"ka", "kb"})
    }

    /** The tree, with a helper of the first test. */
    function Built(): Tree {
      Tree([a, b], _ => false, _ => false, map[helper := {a}], [], Roots([]), _ => {}, _ => {}, ImportGraph(Derived()))
    }
  }

  const TEST_A := "tests/e2e/test_a.py"
  const TEST_B := "tests/e2e/test_b.py"
  const OTHER := "tests/unit/test_c.py"
  const HELPER := "tests/e2e/util.py"
  const MODULE := "src/axolotl/x.py"
  const IMPORTER := "src/axolotl/y.py"
  const DATA := "src/axolotl/data.json"

  /** There are such files. */
  lemma SuchFiles()
    ensures Example(TEST_A, TEST_B, OTHER, HELPER, MODULE, IMPORTER, DATA).Fits()
  {
    OtherTest();
    HelperFile();
    Modules();
    hide IsTestName, Parent, IsSourceModule, EndsWith;
    assert TEST_A[15] == 'a' && TEST_B[15] == 'b';
  }

  lemma OtherTest()
    ensures TESTS_DIR <= OTHER && EndsWith(OTHER, ".py") && IsTestName(OTHER) && OTHER !in {TEST_A, TEST_B}
  {
    PathParts("tests/unit", "test_c.py");
    hide Name;
    assert OTHER == "tests/unit" + "/" + "test_c.py" && OTHER[6] == 'u' && TEST_A[6] == 'e' == TEST_B[6];
  }

  lemma HelperFile()
    ensures TESTS_DIR <= HELPER && !IsTestName(HELPER) && HELPER !in {TEST_A, TEST_B}
  {
    PathParts("tests/e2e", "util.py");
    hide Name;
    assert HELPER == "tests/e2e" + "/" + "util.py" && "util.py"[0] == 'u';
    assert HELPER[10] == 'u' && TEST_A[10] == 't' == TEST_B[10];
  }

  lemma Modules()
    ensures IsSourceModule(MODULE) && Parent(MODULE) == SRC_ROOT == Parent(IMPORTER) && MODULE != IMPORTER
    ensures SRC_DIR <= DATA && !EndsWith(DATA, ".py")
  {
    PathParts(SRC_ROOT, "x.py");
    PathParts(SRC_ROOT, "y.py");
    hide Parent;
    assert MODULE == SRC_ROOT + "/" + "x.py" && IMPORTER == SRC_ROOT + "/" + "y.py";
    assert MODULE[12] == 'x' && IMPORTER[12] == 'y' && DATA[|DATA| - 1] == 'n' && ".py"[2] == 'y';
  }

  /** A changed test of another scope runs nothing, a changed helper and a changed module without edges run one test of
      two, and a deleted file of the source tree that is no module runs nothing. */
  lemma LessThanDocumented(e: Example)
    requires e.Fits()
    ensures e.Derived().Consistent() && e.Built().graph == ImportGraph(e.Derived()) && e.Built().InScope()
    ensures forall t :: !e.Built().Runs({e.other}, {}, t)
    ensures forall t :: e.Built().Runs({e.helper}, {}, t) <==> t == e.a
    ensures forall t :: e.Built().Runs({e.mod}, {}, t) <==> t == e.a
    ensures forall t :: !e.Built().Runs({}, {e.data}, t)
  {
    var tree := e.Built();
    DerivedConsistent(e);
    Effects(e);
    hide Example.Built, Example.Fits, Tree.FileEffect, Tree.Runs, Model.Consistent, Tree.InScope, Tree.DeletionRunsAll;
    forall t
      ensures !tree.Runs({e.other}, {}, t)
      ensures tree.Runs({e.helper}, {}, t) <==> t == e.a
      ensures tree.Runs({e.mod}, {}, t) <==> t == e.a
      ensures !tree.Runs({}, {e.data}, t)
    {
      OneEffect(tree, e.other, {}, t);
      OneEffect(tree, e.helper, {e.a}, t);
      OneEffect(tree, e.mod, {e.a}, t);
      OneDeletion(tree, e.data, t);
    }
  }

  lemma OneEffect(tree: Tree, path: Path, tests: set<Path>, t: Path)
    requires tree.InScope() && tree.FileEffect(path) == Some(tests) && path != PYPROJECT
    requires !tree.runAllPattern(path) && tree.opaqueTests == []
    ensures tree.Runs({path}, {}, t) <==> t in tests
  {
    assert tree.Effect(path) == Some(tests);
    if t in tests {
      assert tree.Holds(tree.Effect(path), t);
      HitsInScope(tree, {path}, t);
    }
  }

  lemma OneDeletion(tree: Tree, path: Path, t: Path)
    requires !tree.runAllPattern(path) && !tree.DeletionRunsAll(path)
    ensures !tree.Runs({}, {path}, t)
  {
  }

  lemma Effects(e: Example)
    requires e.Fits()
    ensures var tree := e.Built();
            && tree.graph == ImportGraph(e.Derived())
            && tree.InScope() && tree.opaqueTests == [] && (forall p :: !tree.runAllPattern(p))
            && tree.FileEffect(e.other) == Some({})
            && tree.FileEffect(e.helper) == Some({e.a})
            && tree.FileEffect(e.mod) == Some({e.a})
            && !tree.DeletionRunsAll(e.data)
            && PYPROJECT !in {e.other, e.helper, e.mod}
  {
    InScope(e);
    TestEffects(e);
    SourceEffects(e);
    hide Example.Derived, Example.Fits, Tree.FileEffect, Tree.DeletionRunsAll, Tree.InScope;
  }

  lemma TestEffects(e: Example)
    requires e.AreTests()
    ensures e.Built().FileEffect(e.other) == Some({}) && e.Built().FileEffect(e.helper) == Some({e.a})
    ensures PYPROJECT !in {e.other, e.helper}
  {
    hide Tree.ImpactOf, Example.Derived, Name;
    assert e.other[0] == 't' == e.helper[0] && TESTS_DIR[0] == 't' && PYPROJECT[0] == 'p';
  }

  lemma SourceEffects(e: Example)
    requires e.Fits()
    ensures e.Built().FileEffect(e.mod) == Some({e.a}) && !e.Built().DeletionRunsAll(e.data) && e.mod != PYPROJECT
  {
    Impact(e);
    DataDeletion(e);
    NoTest(e.mod);
    assert IsSourceModule(e.mod) && TESTS_DIR <= e.a && TESTS_DIR <= e.b;
    hide Example.Fits, Example.Derived, Tree.ImpactOf, Tree.DeletionRunsAll, IsSourceModule, IsTestName, EndsWith;
  }

  lemma NoTest(path: Path)
    requires SRC_DIR <= path
    ensures !(TESTS_DIR <= path) && path != PYPROJECT
  {
    assert path[0] == 's' && TESTS_DIR[0] == 't' && PYPROJECT[0] == 'p';
  }

  lemma DataDeletion(e: Example)
    requires SRC_DIR <= e.data && !EndsWith(e.data, ".py")
    ensures !e.Built().DeletionRunsAll(e.data)
  {
    hide Tree.ImpactOf, Example.Derived, Name;
    assert e.data[0] == 's' && TESTS_DIR[0] == 't' && PYPROJECT[0] == 'p';
  }

  lemma InScope(e: Example)
    ensures e.Built().InScope()
  {
    hide Example.Src;
    assert e.a in e.Built().Scope() && e.b in e.Built().Scope();
    BuiltInScope(e.Built(), e.Derived());
  }

  // The tree is one that `build` makes.

  lemma DerivedConsistent(e: Example)
    requires e.Fits()
    ensures e.Derived().Consistent()
  {
    Imports(e);
    BothKeys(e);
    hide Sources.Imports, Model.InUniverse, Model.IsUbiquitous, Example.Fits, Example.Derived;
  }

  lemma BothKeys(e: Example)
    requires e.a != e.b
    ensures forall k :: k in e.Derived().universe <==> e.Derived().InUniverse(k)
    ensures forall k :: k in e.Derived().ubiquitous <==> e.Derived().IsUbiquitous(k)
  {
    assert "ka"[1] == 'a' && "kb"[1] == 'b';
    KeysOf(e);
    hide Model.TestKeys, Model.InUniverse, Model.IsUbiquitous;
    TwoKeys(e.Derived(), e.a, e.b, "ka", "kb");
  }

  lemma KeysOf(e: Example)
    requires e.a != e.b
    ensures e.Derived().TestKeys() == map[e.a := {"ka"}, e.b := {"kb"}]
  {
  }

  lemma Imports(e: Example)
    requires e.mod != e.importer
    ensures forall t, m :: t in e.Derived().importers && m in e.Derived().importers[t]
                           <==> e.Derived().src.Imports(m, t)
  {
    var src := e.Src();
    assert src.TargetOf("axolotl.x") == Some(e.mod);
    assert forall t :: src.Hits({"axolotl.x"}, t) <==> t == e.mod;
    assert forall t :: !src.Hits({}, t);
  }

  /** Two tests that set a key each, which no file reads: both keys are in the universe, and ubiquitous. */
  lemma TwoKeys(model: Model, a: Path, b: Path, ka: string, kb: string)
    requires a != b && ka != kb && model.TestKeys() == map[a := {ka}, b := {kb}]
    requires model.universe == model.ubiquitous == model.src.allFields == {ka, kb}
    requires forall f :: f in model.src.names ==> model.src.names[f] == {}
    ensures forall k :: k in model.universe <==> model.InUniverse(k)
    ensures forall k :: k in model.ubiquitous <==> model.IsUbiquitous(k)
  {
    hide Model.Configured, Having, Model.InUniverse, Model.IsUbiquitous;
    TwoSets(model.TestKeys(), a, b, ka, kb);
    BothConfigured(model, a, b, ka, kb);
    hide Model.TestKeys;
    forall k ensures k in model.universe <==> model.InUniverse(k) {
      NobodyReads(model.src.names, k);
      KeyInUniverse(model, k);
    }
    forall k ensures k in model.ubiquitous <==> model.IsUbiquitous(k) {
      KeyIsUbiquitous(model, k);
    }
  }

  lemma NobodyReads(names: map<Path, set<string>>, key: string)
    requires forall f :: f in names ==> names[f] == {}
    ensures Having(names, key) == {}
  {
  }

  lemma KeyInUniverse(model: Model, key: string)
    requires Having(model.src.names, key) == {}
    ensures model.InUniverse(key) <==> key in model.src.allFields && Having(model.TestKeys(), key) != {}
  {
  }

  lemma KeyIsUbiquitous(model: Model, key: string)
    requires |model.Configured()| == 2 && (key in model.universe ==> Having(model.Configured(), key) != {})
    ensures model.IsUbiquitous(key) <==> key in model.universe
  {
  }

  lemma BothConfigured(model: Model, a: Path, b: Path, ka: string, kb: string)
    requires model.TestKeys() == map[a := {ka}, b := {kb}] && {ka, kb} <= model.universe
    ensures model.Configured() == model.TestKeys()
  {
    var keys := model.TestKeys();
    forall t | t in model.testFacts ensures model.testFacts[t].keys * model.universe != {} {
      assert t in keys && keys[t] == model.testFacts[t].keys;
      assert ka in keys[t] * model.universe || kb in keys[t] * model.universe;
    }
    assert model.Configured() == keys;
  }

  lemma TwoSets(keys: map<Path, set<string>>, a: Path, b: Path, ka: string, kb: string)
    requires a != b && ka != kb && keys == map[a := {ka}, b := {kb}]
    ensures Having(keys, ka) == {a} && Having(keys, kb) == {b} && |keys| == 2
  {
    assert keys.Keys == {a, b};
    KeyCount(keys);
  }

  /** No registry is there to answer. */
  lemma NoRegistry(e: Example, rel: Path)
    requires Parent(rel) == SRC_ROOT
    ensures e.Derived().RegistryEntry(rel) == None
  {
    assert SRC_ROOT == "src" + "/" + "axolotl";
    PathParts("src", "axolotl");
    hide Parent, Example.Src;
    NothingNamed(e, "src");
  }

  lemma NothingNamed(e: Example, directory: Path)
    ensures !e.Derived().IsRegistryDir(directory)
  {
    var model := e.Derived();
    assert forall rel :: model.ValueEdges(rel) == {};
    assert model.NamedOf(directory, model.src.files) == {};
    assert (set x | x in model.EntriesOf(directory, model.src.files) && directory + "/" + x in {}) == {};
  }

  lemma Edges(e: Example)
    requires e.Fits()
    ensures e.Derived().OwnEdges(e.mod) == None && e.Derived().OwnEdges(e.importer) == SomeTests({e.a})
  {
    NoRegistry(e, e.mod);
    NoRegistry(e, e.importer);
    Direct(e);
    hide Example.Derived, Example.Fits;
    OnlyImported(e.Derived(), e.mod);
    OnlyImported(e.Derived(), e.importer);
  }

  lemma Direct(e: Example)
    requires e.a != e.b && e.mod != e.importer
    ensures var model := e.Derived();
            && model.ImportEdges(e.mod) == {} && model.ImportEdges(e.importer) == {e.a}
            && (forall f :: model.ValueEdges(f) == {}) && model.src.scripts == {} && model.src.declared == map[]
            && model.NamesOf(e.mod) == Some({}) == model.NamesOf(e.importer)
  {
  }

  /** A module that reads nothing and that nothing names has the tests that import it, or no edges. */
  lemma OnlyImported(model: Model, rel: Path)
    requires rel !in model.src.scripts && rel !in model.src.declared && model.NamesOf(rel) == Some({})
    requires model.RegistryEntry(rel) == None && model.ValueEdges(rel) == {}
    ensures model.OwnEdges(rel)
            == if model.ImportEdges(rel) == {} then None else SomeTests(model.ImportEdges(rel))
  {
    hide Model.RegistryEntry, Model.ValueEdges, Model.ImportEdges;
    assert {} * model.universe == {} && {} - model.ubiquitous == {} && {} * model.ubiquitous == {};
    assert model.KeyEdges({}) == {};
    assert {} + (model.ImportEdges(rel) + {}) == model.ImportEdges(rel);
  }

  lemma Impact(e: Example)
    requires e.Fits()
    ensures e.Built().ImpactOf(e.mod) == Some({e.a})
  {
    var tree := e.Built();
    var g := tree.graph;
    Edges(e);
    assert e.mod != e.importer;
    hide Model.OwnEdges, Example.Src, Example.Fits;
    g.ReachedOnce(e.mod, e.importer);
    forall m | g.Reached(e.mod, m) ensures m == e.importer {
      var p :| g.Climb(p) && |p| >= 2 && p[0] == e.mod && p[|p| - 1] == m;
      assert p[1] in g.Importers(p[0]);
      assert g.ownEdges(p[1]).Some?;
    }
    assert g.Carries(e.importer, e.a) && e.a in tree.Scope();
    assert !g.ReachesAll(e.mod) && !g.ReachesNothing(e.mod);
    assert forall t :: g.ReachesTests(e.mod, t) <==> t == e.a;
    assert (set t | t in tree.Scope() && g.ReachesTests(e.mod, t)) == {e.a};
  }
}
