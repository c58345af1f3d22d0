/** The decision of the test selector: which in-scope tests a diff runs. */
module Selection {
  import opened Options
  import opened Sequences
  import opened SelectorHelpers
  import opened SelectorEdges
  import opened SelectorBuild
  import opened SelectorImpact

  const PYPROJECT := "pyproject.toml"
  const SRC_DIR := "src/axolotl/"
  const TESTS_DIR := "tests/"

  predicate EndsWith(path: Path, suffix: string) {
    |suffix| <= |path| && path[|path| - |suffix|..] == suffix
  }

  predicate IsTestName(path: Path) {
    "test_" <= Name(path)
  }

  predicate IsSourceModule(path: Path) {
    SRC_DIR <= path && EndsWith(path, ".py")
  }

  /** What changed in the project file: something that cannot be followed, or requirements, and then the import roots
      of every distribution concerned. */
  datatype ProjectChange = Unclear | Roots(distributions: seq<seq<string>>)

  /** A built tree at a fixed base: the in-scope tests, the two sets of patterns, the helpers' tests, the tests without
      visible config, what changed in the project file, the modules and the tests that import a root, and the import
      graph. */
  datatype Tree = Tree(
    tests: seq<Path>,
    runAllPattern: Path -> bool,
    inert: Path -> bool,
    helperTests: map<Path, set<Path>>,
    opaqueTests: seq<Path>,
    project: ProjectChange,
    rootImporters: string -> set<Path>,
    rootTests: string -> set<Path>,
    graph: Graph)
  {
    function Scope(): set<Path> {
      Elements(tests)
    }

    /** Everything that can be selected is in scope. */
    ghost predicate InScope() {
      (forall h :: h in helperTests ==> helperTests[h] <= Scope())
      && Elements(opaqueTests) <= Scope()
      && (forall r, t :: t in rootTests(r) ==> t in Scope())
      && (forall m, t :: graph.Carries(m, t) ==> t in Scope())
    }

    /** The impact of a source module as a set of in-scope tests; nothing means all of them. */
    ghost function ImpactOf(rel: Path): Option<set<Path>> {
      if graph.ownEdges(rel).Some? then graph.ownEdges(rel).value.tests
      else if graph.ReachesAll(rel) || graph.ReachesNothing(rel) then None
      else Some(set t | t in Scope() && graph.ReachesTests(rel, t))
    }

    lemma ImpactOfIsImpact(rel: Path)
      requires InScope()
      ensures graph.IsImpact(rel, ImpactOf(rel))
      ensures ImpactOf(rel).Some? ==> ImpactOf(rel).value <= Scope()
    {
      if r :| ImpactOf(rel) == Some(r) && graph.ownEdges(rel).None? {
        forall t | graph.ReachesTests(rel, t) ensures t in Scope() {
          var m :| graph.Reached(rel, m) && graph.Carries(m, t);
        }
      } else if graph.ownEdges(rel).Some? && graph.ownEdges(rel).value.tests.Some? {
        forall t | t in graph.ownEdges(rel).value.tests.value ensures t in Scope() {
          assert graph.Carries(rel, t);
        }
      }
    }

    /** A root runs everything when nothing imports it, or when one of its importers does. */
    ghost predicate RootRunsAll(root: string) {
      (rootImporters(root) == {} && rootTests(root) == {})
      || exists m :: m in rootImporters(root) && ImpactOf(m).None?
    }

    ghost predicate RootHits(root: string, t: Path) {
      t in rootTests(root) || exists m :: m in rootImporters(root) && Holds(ImpactOf(m), t)
    }

    /** One of the changed distributions has this root. */
    predicate ChangedRoot(root: string) {
      project.Roots? && exists d :: 0 <= d < |project.distributions| && root in project.distributions[d]
    }

    ghost predicate ProjectRunsAll() {
      project.Unclear? || [] in project.distributions || exists r :: ChangedRoot(r) && RootRunsAll(r)
    }

    /** What the change of the project file selects. */
    ghost function Requirements(): Option<set<Path>> {
      if ProjectRunsAll() then None
      else Some(set t | t in Scope() && exists r :: ChangedRoot(r) && RootHits(r, t))
    }

    /** What one changed file selects; nothing means it runs the whole scope. */
    ghost function Effect(path: Path): Option<set<Path>> {
      if path == PYPROJECT then Requirements() else FileEffect(path)
    }

    ghost function FileEffect(path: Path): Option<set<Path>> {
      if path in tests then Some({path})
      else if TESTS_DIR <= path then
        if EndsWith(path, ".py") && IsTestName(path) then Some({})
        else if path in helperTests then Some(helperTests[path])
        else None
      else if IsSourceModule(path) then ImpactOf(path)
      else if inert(path) then Some({})
      else None
    }

    /** What the deletion of a file other than the project file means. */
    predicate DeletionOutsideModel(path: Path) {
      IsSourceModule(path)
      || (TESTS_DIR <= path && !IsTestName(path))
      || (!inert(path) && !(TESTS_DIR <= path) && !(SRC_DIR <= path))
    }

    predicate DeletionRunsAll(path: Path) {
      path == PYPROJECT || DeletionOutsideModel(path)
    }

    ghost predicate RunsAll(changed: set<Path>, deleted: set<Path>) {
      (exists p :: p in changed + deleted && runAllPattern(p))
      || (exists p :: p in deleted && DeletionRunsAll(p))
      || (exists p :: p in changed && Effect(p).None?)
    }

    predicate Holds(e: Option<set<Path>>, t: Path) {
      e.Some? && t in e.value
    }

    /** Some changed file selects the test. */
    ghost predicate Hit(changed: set<Path>, t: Path) {
      exists p :: p in changed && Holds(Effect(p), t)
    }

    /** The tests a diff runs. */
    ghost predicate Runs(changed: set<Path>, deleted: set<Path>, t: Path) {
      t in Scope()
      && (RunsAll(changed, deleted)
          || Hit(changed, t)
          || (t in opaqueTests && exists u :: Hit(changed, u)))
    }

    // ---- what the decision guarantees ----

    lemma RunsAllDistributes(c: set<Path>, d: set<Path>, c': set<Path>, d': set<Path>)
      ensures RunsAll(c + c', d + d') <==> RunsAll(c, d) || RunsAll(c', d')
    {
    }

    lemma HitDistributes(c: set<Path>, c': set<Path>, t: Path)
      ensures Hit(c + c', t) <==> Hit(c, t) || Hit(c', t)
    {
    }

    /** Selection distributes over diffs. */
    lemma SelectionDistributes(c: set<Path>, d: set<Path>, c': set<Path>, d': set<Path>, t: Path)
      ensures Runs(c + c', d + d', t) <==> Runs(c, d, t) || Runs(c', d', t)
    {
      hide Hit, RunsAll;
      RunsAllDistributes(c, d, c', d');
      HitDistributes(c, c', t);
      forall u ensures Hit(c + c', u) <==> Hit(c, u) || Hit(c', u) {
        HitDistributes(c, c', u);
      }
    }

    /** More changed or deleted files never drop a test. */
    lemma SelectionMonotone(c: set<Path>, d: set<Path>, c': set<Path>, d': set<Path>, t: Path)
      requires c <= c' && d <= d' && Runs(c, d, t)
      ensures Runs(c', d', t)
    {
      assert c + c' == c' && d + d' == d';
      SelectionDistributes(c, d, c', d', t);
    }

    /** A diff runs what its files run one by one; a test without visible config rides along with any of them. */
    lemma SelectionByFile(c: set<Path>, d: set<Path>, t: Path)
      ensures Runs(c, d, t)
              <==> (exists p :: p in c && Runs({p}, {}, t)) || (exists p :: p in d && Runs({}, {p}, t))
    {
      if Runs(c, d, t) {
        if p :| p in c && (runAllPattern(p) || Effect(p).None? || Holds(Effect(p), t)) {
          assert p in {p} && Runs({p}, {}, t);
        } else if p :| p in d && (runAllPattern(p) || DeletionRunsAll(p)) {
          assert p in {p} && Runs({}, {p}, t);
        } else {
          var u :| Hit(c, u);
          var p :| p in c && Holds(Effect(p), u);
          assert p in {p} && Hit({p}, u) && Runs({p}, {}, t);
        }
      }
      forall p | p in c && Runs({p}, {}, t) ensures Runs(c, d, t) {
        SelectionMonotone({p}, {}, c, d, t);
      }
      forall p | p in d && Runs({}, {p}, t) ensures Runs(c, d, t) {
        SelectionMonotone({}, {p}, c, d, t);
      }
    }

    /** A changed test that is in scope runs. */
    lemma ChangedTestRuns(c: set<Path>, d: set<Path>, t: Path)
      requires t in c && t in tests && t != PYPROJECT
      ensures Runs(c, d, t)
    {
      assert Holds(Effect(t), t);
    }

    /** And alone it runs nothing else but the tests without visible config. */
    lemma ChangedTestAlone(t: Path, u: Path)
      requires t in tests && t != PYPROJECT && !runAllPattern(t)
      ensures Runs({t}, {}, u) <==> u in Scope() && (u == t || u in opaqueTests)
    {
      assert Effect(t) == Some({t}) && Hit({t}, t);
    }

    /** A file under the tests' directory runs everything exactly when it is no test and no known helper. */
    lemma TestSupportRunsAll(path: Path)
      requires TESTS_DIR <= path && !runAllPattern(path)
      ensures RunsAll({path}, {})
              <==> path !in tests && !(EndsWith(path, ".py") && IsTestName(path)) && path !in helperTests
    {
      assert path[0] == 't' && PYPROJECT[0] == 'p';
      assert path in {path} + {};
    }

    /** A test that imports a changed module, names it, or sets a discriminating key it reads, runs. */
    lemma DirectTestRuns(model: Model, c: set<Path>, d: set<Path>, rel: Path, t: Path)
      requires graph == ImportGraph(model) && rel !in model.src.declared && model.Direct(rel, t)
      requires rel in c && rel !in tests && IsSourceModule(rel) && t in Scope()
      ensures Runs(c, d, t)
    {
      model.DirectTestsKept(rel, t);
      assert rel[0] == 's' && PYPROJECT[0] == 'p' && TESTS_DIR[0] == 't';
      assert Effect(rel) == ImpactOf(rel) == graph.ownEdges(rel).value.tests;
      assert Effect(rel).None? || Holds(Effect(rel), t);
    }

    // ---- single files, by their paths ----

    /** A deleted module, deleted test support, or a deleted file that is neither inert nor in the two directories runs
        everything, whatever else the diff holds; so does a run-all pattern and the project file. */
    lemma DeletedFileRunsAll(c: set<Path>, d: set<Path>, path: Path, inside: string, t: Path)
      requires path in d && t in Scope()
      ensures path == "src/axolotl/" + inside + ".py" ==> Runs(c, d, t)
      ensures path == "tests/" + inside && !("test_" <= Name(path)) ==> Runs(c, d, t)
      ensures !inert(path) && !("tests/" <= path) && !("src/axolotl/" <= path) ==> Runs(c, d, t)
      ensures path == "pyproject.toml" || runAllPattern(path) ==> Runs(c, d, t)
    {
      if path == "src/axolotl/" + inside + ".py" {
        assert path[..|SRC_DIR|] == SRC_DIR && path[|path| - 3..] == ".py";
      } else if path == "tests/" + inside {
        assert path[..|TESTS_DIR|] == TESTS_DIR;
      }
      assert DeletionRunsAll(path) ==> RunsAll(c, d);
    }

    /** A deletion alone runs a test only for one of these reasons. */
    lemma DeletedFileAlone(path: Path, t: Path)
      requires Runs({}, {path}, t)
      ensures || (exists inside :: path == "src/axolotl/" + inside + ".py")
              || ("tests/" <= path && !("test_" <= Name(path)))
              || (!inert(path) && !("tests/" <= path) && !("src/axolotl/" <= path))
              || path == "pyproject.toml" || runAllPattern(path)
    {
      assert !Hit({}, t);
      if IsSourceModule(path) {
        ModulePath(path);
      }
    }

    lemma ModulePath(path: Path)
      requires IsSourceModule(path)
      ensures exists inside :: path == "src/axolotl/" + inside + ".py"
    {
      var n := |SRC_DIR|;
      assert path[..n] == SRC_DIR && path[n - 1] == '/';
      assert |path| - 3 >= n by {
        assert path[|path| - 3..][0] == '.' && path[|path| - 3..][1] == 'p' && path[|path| - 3..][2] == 'y';
      }
      assert path == "src/axolotl/" + path[n..|path| - 3] + ".py";
    }

    /** A changed file that no part of the model covers runs everything when it is not inert, and nothing when it is. */
    lemma UnmodeledFile(c: set<Path>, d: set<Path>, path: Path, t: Path)
      requires path !in tests && path != "pyproject.toml" && !("tests/" <= path)
      requires !("src/axolotl/" <= path && |path| >= 3 && path[|path| - 3..] == ".py")
      ensures path in c && t in Scope() && !inert(path) ==> Runs(c, d, t)
      ensures !runAllPattern(path) ==> (Runs({path}, {}, t) <==> t in Scope() && !inert(path))
    {
      assert Effect(path) == if inert(path) then Some({}) else None;
      assert path in {path} + {};
    }

    /** A changed file that matches a run-all pattern runs everything. */
    lemma PatternRunsAll(c: set<Path>, d: set<Path>, path: Path, t: Path)
      requires path in c && runAllPattern(path) && t in Scope()
      ensures Runs(c, d, t)
    {
      assert path in c + d;
    }

    /** A changed helper alone runs its tests, and if there are any, those without visible config. */
    lemma HelperAlone(path: Path, t: Path)
      requires "tests/" <= path && path !in tests && path in helperTests && !runAllPattern(path)
      requires !("test_" <= Name(path) && path[|path| - 3..] == ".py")
      ensures Runs({path}, {}, t)
              <==> t in Scope() && (t in helperTests[path] || (t in opaqueTests && helperTests[path] != {}))
    {
      assert path[0] == 't' && PYPROJECT[0] == 'p';
      assert |path| >= 6;
      assert Effect(path) == Some(helperTests[path]);
      if u :| u in helperTests[path] {
        assert Hit({path}, u);
      }
    }

    /** A changed module alone runs its impact: everything, or those tests and then the ones without visible config. */
    lemma ModuleAlone(path: Path, hits: Option<set<Path>>, t: Path)
      requires InScope() && "src/axolotl/" <= path && path[|path| - 3..] == ".py"
      requires path !in tests && !runAllPattern(path) && graph.IsImpact(path, hits)
      ensures Runs({path}, {}, t)
              <==> t in Scope() && (hits.None? || t in hits.value || (t in opaqueTests && hits.value != {}))
    {
      assert path[0] == 's' && PYPROJECT[0] == 'p' && TESTS_DIR[0] == 't';
      ImpactOfIsImpact(path);
      graph.ImpactUnique(path, hits, ImpactOf(path));
      assert Effect(path) == hits;
      hide ImpactOf, InScope;
      if hits.Some? && hits.value != {} {
        var u :| u in hits.value;
        assert Hit({path}, u);
      }
    }

    /** What a change of the project file runs: everything if it cannot be followed, if a distribution has no roots, or
        if a root is imported nowhere; and what the tests and modules that import a root lead to. */
    lemma ProjectFileRuns(c: set<Path>, d: set<Path>, k: nat, root: string, t: Path)
      requires PYPROJECT in c && t in Scope()
      requires project.Roots? ==> k < |project.distributions|
      ensures project.Unclear? || project.distributions[k] == [] ==> Runs(c, d, t)
      ensures project.Roots? && root in project.distributions[k] ==>
                && (rootImporters(root) + rootTests(root) == {} || t in rootTests(root) ==> Runs(c, d, t))
                && (forall m :: m in rootImporters(root) && (ImpactOf(m).None? || t in ImpactOf(m).value) ==>
                      Runs(c, d, t))
    {
      hide ImpactOf;
      if project.Roots? && root in project.distributions[k] {
        assert ChangedRoot(root);
        if rootImporters(root) + rootTests(root) == {} {
          assert rootImporters(root) == {} && rootTests(root) == {};
          assert RootRunsAll(root);
        } else if t in rootTests(root) {
          assert RootHits(root, t);
        }
        forall m | m in rootImporters(root) && (ImpactOf(m).None? || t in ImpactOf(m).value) ensures Runs(c, d, t) {
          assert RootRunsAll(root) || RootHits(root, t);
        }
      }
      assert Effect(PYPROJECT) == Requirements();
      assert Requirements().None? || Holds(Requirements(), t) ==> Runs(c, d, t);
    }

    /** And the change alone runs a test only for one of these reasons, or since it has no visible config. */
    lemma ProjectFileAlone(t: Path)
      requires Runs({PYPROJECT}, {}, t) && !runAllPattern(PYPROJECT) && t !in opaqueTests && project.Roots?
      ensures exists k :: 0 <= k < |project.distributions| &&
                (project.distributions[k] == []
                 || exists root :: root in project.distributions[k] &&
                      (rootImporters(root) + rootTests(root) == {} || t in rootTests(root)
                       || exists m :: m in rootImporters(root) && (ImpactOf(m).None? || t in ImpactOf(m).value)))
    {
      hide ImpactOf;
      assert Effect(PYPROJECT) == Requirements();
      if [] !in project.distributions {
        if ProjectRunsAll() {
          var root :| ChangedRoot(root) && RootRunsAll(root);
        } else {
          var root :| ChangedRoot(root) && RootHits(root, t);
        }
      }
    }
  }

  // ---- building the tree ----

  /** Tests that set no key of the universe. */
  function Opaque(tests: seq<Path>, facts: map<Path, Facts>, universe: set<string>): (r: seq<Path>)
    requires forall t :: t in tests ==> t in facts
    ensures forall t :: t in r <==> t in tests && facts[t].keys * universe == {}
  {
    if tests == [] then []
    else
      (if facts[tests[0]].keys * universe == {} then [tests[0]] else []) + Opaque(tests[1..], facts, universe)
  }

  /** Tests whose facts name an import root. */
  function RootTests(facts: map<Path, Facts>, namesRoot: (Facts, string) -> bool, root: string): set<Path> {
    set t | t in facts && namesRoot(facts[t], root)
  }

  /** `build`: the facts of the tests, the edges' model, the tree, and a selector with empty memo tables. */
  method BuildTree(
    helpers: Helpers, conftests: seq<Conftest>, tests: seq<Path>, trees: map<Path, Option<Facts>>, src: Sources,
    runAllPattern: Path -> bool, inert: Path -> bool,
    project: ProjectChange, rootImporters: string -> set<Path>, namesRoot: (Facts, string) -> bool)
    returns (tree: Tree, selector: Selector, model: Model)
    requires forall t :: t in tests ==> t in trees
    ensures fresh(selector) && selector.Valid() && selector.graph == tree.graph == ImportGraph(model)
    ensures tree.InScope() && tree.tests == tests && model.src == src && model.Consistent()
    ensures model.testFacts.Keys == tree.Scope()
    ensures forall t :: t in tests ==>
              TestBuilt(helpers, conftests, t, trees[t], model.testFacts[t], ReachedBy(helpers, conftests, t, trees[t]))
    ensures forall h, t :: h in tree.helperTests && t in tree.helperTests[h]
                           <==> t in tests && h in ReachedBy(helpers, conftests, t, trees[t])
    ensures forall t :: t in tree.opaqueTests <==> t in tests && t !in model.Configured()
  {
    hide TestBuilt, ReachedBy, Model.Consistent, Tree.InScope, Selector.Valid, ImportGraph;
    var build := BuildTests(helpers, conftests, tests, trees);
    var facts := build.testFacts;
    model := BuildModel(facts, src);
    selector := new Selector(model);
    tree := Tree(tests, runAllPattern, inert, build.helperTests, Opaque(tests, facts, model.universe),
                 project, rootImporters, (root: string) => RootTests(facts, namesRoot, root), selector.graph);
    BuiltInScope(tree, model);
  }

  /** Everything that a built tree can select is one of its tests. */
  lemma BuiltInScope(tree: Tree, model: Model)
    requires model.testFacts.Keys == tree.Scope() && tree.graph == ImportGraph(model)
    requires forall h, t :: h in tree.helperTests && t in tree.helperTests[h] ==> t in tree.tests
    requires forall t :: t in tree.opaqueTests ==> t in tree.tests
    requires forall r, t :: t in tree.rootTests(r) ==> t in tree.Scope()
    ensures tree.InScope()
  {
    hide Model.OwnEdges;
    forall m, t | tree.graph.Carries(m, t) ensures t in tree.Scope() {
      model.EdgesAreTests(m);
    }
  }

  datatype Mode = All | Nothing | Subset
  datatype Selected = Selected(mode: Mode, tests: set<Path>)
  datatype Diff = Diff(changed: seq<Path>, deleted: seq<Path>)

  /** The union of the files' effects on top of `start`, and whether one of them runs the whole scope. */
  ghost predicate Accumulated(
    tree: Tree, changed: set<Path>, start: set<Path>, selected: set<Path>, runAll: bool)
  {
    (runAll <==> exists p :: p in changed && tree.FileEffect(p).None?)
    && (forall t :: t in selected <==> t in start || exists p :: p in changed && tree.Holds(tree.FileEffect(p), t))
  }

  lemma AccumulateOne(
    tree: Tree, changed: set<Path>, start: set<Path>, selected: set<Path>, runAll: bool, path: Path)
    requires Accumulated(tree, changed, start, selected, runAll)
    ensures var e := tree.FileEffect(path);
            var selected' := if e.Some? then selected + e.value else selected;
            Accumulated(tree, changed + {path}, start, selected', runAll || e.None?)
  {
    var e := tree.FileEffect(path);
    forall t | t in selected
      ensures t in start || exists p :: p in changed + {path} && tree.Holds(tree.FileEffect(p), t)
    {
      if t !in start {
        var p :| p in changed && tree.Holds(tree.FileEffect(p), t);
        assert p in changed + {path};
      }
    }
    if e.Some? {
      assert forall t :: t in e.value ==> tree.Holds(tree.FileEffect(path), t);
      assert path in changed + {path};
    }
  }

  /** The loop over the changed files. */
  method SelectChanged(tree: Tree, selector: Selector, changed: seq<Path>, start: set<Path>)
    returns (selected: set<Path>, runAll: bool)
    requires tree.InScope() && selector.graph == tree.graph && selector.Valid()
    modifies selector
    ensures selector.Valid() && Accumulated(tree, Elements(changed), start, selected, runAll)
  {
    assert Accumulated(tree, {}, start, start, false);
    hide Accumulated, Elements;
    selected, runAll := start, false;
    ElementsEmpty<Path>();
    assert changed[..0] == [];
    for i := 0 to |changed|
      invariant selector.Valid() && Accumulated(tree, Elements(changed[..i]), start, selected, runAll)
    {
      var path := changed[i];
      var hits := FileImpact(tree, selector, path);
      AccumulateOne(tree, Elements(changed[..i]), start, selected, runAll, path);
      assert changed[..i + 1] == changed[..i] + [path];
      ElementsSnoc(changed[..i], path);
      match hits
      case None => runAll := true;
      case Some(tests) => selected := selected + tests;
    }
    assert changed[..|changed|] == changed;
  }

  /** The branches for one changed file. */
  method FileImpact(tree: Tree, selector: Selector, path: Path) returns (hits: Option<set<Path>>)
    requires tree.InScope() && selector.graph == tree.graph && selector.Valid()
    modifies selector
    ensures selector.Valid() && hits == tree.FileEffect(path)
  {
    if path in tree.tests {
      return Some({path});
    }
    if TESTS_DIR <= path {
      if EndsWith(path, ".py") && IsTestName(path) {
        return Some({});
      }
      if path in tree.helperTests {
        return Some(tree.helperTests[path]);
      }
      return None;
    }
    if IsSourceModule(path) {
      hits := ImpactOfModule(tree, selector, path);
      return;
    }
    return if tree.inert(path) then Some({}) else None;
  }

  // ---- the project file ----

  /** One root: the impact of the modules that import it, and the tests that do. */
  method ImpactOfRoot(tree: Tree, selector: Selector, root: string) returns (hits: Option<set<Path>>)
    requires tree.InScope() && selector.graph == tree.graph && selector.Valid()
    modifies selector
    ensures selector.Valid()
    ensures hits.None? <==> tree.RootRunsAll(root)
    ensures hits.Some? ==> forall t :: t in hits.value <==> tree.RootHits(root, t)
  {
    hide Selector.Valid, Tree.InScope, Tree.ImpactOf;
    var importers, tests := tree.rootImporters(root), tree.rootTests(root);
    if importers == {} && tests == {} {
      return None;
    }
    var reached: set<Path> := {};
    var todo := importers;
    while todo != {}
      invariant selector.Valid() && todo <= importers
      invariant forall m :: m in importers - todo ==> tree.ImpactOf(m).Some?
      invariant forall t :: t in reached <==> exists m :: m in importers - todo && tree.Holds(tree.ImpactOf(m), t)
      decreases todo
    {
      var m :| m in todo;
      var impact := ImpactOfModule(tree, selector, m);
      if impact.None? {
        return None;
      }
      ghost var before := reached;
      reached := reached + impact.value;
      assert importers - (todo - {m}) == importers - todo + {m};
      todo := todo - {m};
    }
    hits := Some(reached + tests);
  }

  method ImpactOfModule(tree: Tree, selector: Selector, rel: Path) returns (hits: Option<set<Path>>)
    requires tree.InScope() && selector.graph == tree.graph && selector.Valid()
    modifies selector
    ensures selector.Valid() && hits == tree.ImpactOf(rel)
  {
    hits := selector.ImpactOfSource(rel);
    tree.ImpactOfIsImpact(rel);
    tree.graph.ImpactUnique(rel, hits, tree.ImpactOf(rel));
  }

  /** All roots of one distribution; one that maps to no root runs everything. */
  method ImpactOfDistribution(tree: Tree, selector: Selector, roots: seq<string>) returns (hits: Option<set<Path>>)
    requires tree.InScope() && selector.graph == tree.graph && selector.Valid()
    modifies selector
    ensures selector.Valid()
    ensures hits.None? <==> roots == [] || exists r :: r in roots && tree.RootRunsAll(r)
    ensures hits.Some? ==> forall t :: t in hits.value <==> exists r :: r in roots && tree.RootHits(r, t)
  {
    hide Selector.Valid, Tree.InScope, Tree.RootRunsAll, Tree.RootHits;
    if roots == [] {
      return None;
    }
    var reached: set<Path> := {};
    for i := 0 to |roots|
      invariant selector.Valid()
      invariant forall r :: r in roots[..i] ==> !tree.RootRunsAll(r)
      invariant forall t :: t in reached <==> exists r :: r in roots[..i] && tree.RootHits(r, t)
    {
      var impact := ImpactOfRoot(tree, selector, roots[i]);
      if impact.None? {
        assert roots[i] in roots;
        return None;
      }
      assert roots[..i + 1] == roots[..i] + [roots[i]];
      reached := reached + impact.value;
    }
    assert roots[..|roots|] == roots;
    hits := Some(reached);
  }

  /** The branch for the project file. */
  method ImpactOfPyproject(tree: Tree, selector: Selector) returns (hits: Option<set<Path>>)
    requires tree.InScope() && selector.graph == tree.graph && selector.Valid()
    modifies selector
    ensures selector.Valid() && hits == tree.Requirements()
  {
    hide Selector.Valid, Tree.InScope, Tree.RootRunsAll, Tree.RootHits, Tree.Requirements;
    if tree.project.Unclear? {
      RequirementsAre(tree, None);
      return None;
    }
    var ds := tree.project.distributions;
    var reached: set<Path> := {};
    for i := 0 to |ds|
      invariant selector.Valid()
      invariant forall k :: 0 <= k < i ==> ds[k] != [] && forall r :: r in ds[k] ==> !tree.RootRunsAll(r)
      invariant forall t :: t in reached <==> exists k, r :: 0 <= k < i && r in ds[k] && tree.RootHits(r, t)
    {
      var impact := ImpactOfDistribution(tree, selector, ds[i]);
      if impact.None? {
        DistributionRunsAll(tree, i);
        return None;
      }
      reached := reached + impact.value;
    }
    hits := Some(reached);
    RequirementsAre(tree, hits);
  }

  lemma DistributionRunsAll(tree: Tree, i: nat)
    requires tree.project.Roots? && i < |tree.project.distributions|
    requires var d := tree.project.distributions[i]; d == [] || exists r :: r in d && tree.RootRunsAll(r)
    ensures tree.Requirements().None?
  {
    hide Tree.RootRunsAll;
    var d := tree.project.distributions[i];
    if d != [] {
      var r :| r in d && tree.RootRunsAll(r);
      assert tree.ChangedRoot(r);
    }
  }

  /** Nothing for a change that cannot be followed; else the tests some root hits, if none runs everything. */
  lemma RequirementsAre(tree: Tree, hits: Option<set<Path>>)
    requires tree.InScope() && hits.Some? == tree.project.Roots?
    requires hits.Some? ==>
               var ds := tree.project.distributions;
               && (forall k :: 0 <= k < |ds| ==> ds[k] != [] && forall r :: r in ds[k] ==> !tree.RootRunsAll(r))
               && (forall t :: t in hits.value <==> exists k, r :: 0 <= k < |ds| && r in ds[k] && tree.RootHits(r, t))
    ensures hits == tree.Requirements()
  {
    hide Tree.RootRunsAll, Tree.RootHits, Tree.InScope;
    if hits.Some? {
      var ds := tree.project.distributions;
      assert forall k, r :: 0 <= k < |ds| && r in ds[k] ==> tree.ChangedRoot(r);
      forall t | t in hits.value ensures t in tree.Scope() {
        var k, r :| 0 <= k < |ds| && r in ds[k] && tree.RootHits(r, t);
        RootHitsInScope(tree, r, t);
      }
      assert hits.value == tree.Requirements().value;
    }
  }

  lemma RootHitsInScope(tree: Tree, root: string, t: Path)
    requires tree.InScope() && tree.RootHits(root, t)
    ensures t in tree.Scope()
  {
    if t !in tree.rootTests(root) {
      var m :| m in tree.rootImporters(root) && tree.Holds(tree.ImpactOf(m), t);
      tree.ImpactOfIsImpact(m);
    }
  }

  method AnyPattern(tree: Tree, paths: seq<Path>) returns (any: bool)
    ensures any <==> exists p :: p in paths && tree.runAllPattern(p)
  {
    any := false;
    for i := 0 to |paths|
      invariant any <==> exists p :: p in paths[..i] && tree.runAllPattern(p)
    {
      assert paths[..i + 1] == paths[..i] + [paths[i]];
      if tree.runAllPattern(paths[i]) {
        any := true;
      }
    }
    assert paths[..|paths|] == paths;
  }

  /** Deleted modules, deleted test support and deleted files outside the model run everything. */
  method AnyDeletion(tree: Tree, deleted: seq<Path>) returns (any: bool)
    ensures any <==> exists p :: p in deleted && tree.DeletionOutsideModel(p)
  {
    any := false;
    for i := 0 to |deleted|
      invariant any <==> exists p :: p in deleted[..i] && tree.DeletionOutsideModel(p)
    {
      assert deleted[..i + 1] == deleted[..i] + [deleted[i]];
      var path := deleted[i];
      ghost var before := any;
      if IsSourceModule(path) {
        any := true;
      } else if TESTS_DIR <= path && !IsTestName(path) {
        any := true;
      } else if !tree.inert(path) && !(TESTS_DIR <= path || SRC_DIR <= path) {
        any := true;
      }
      assert any <==> before || tree.DeletionOutsideModel(path);
    }
    assert deleted[..|deleted|] == deleted;
  }

  function Without(paths: seq<Path>, x: Path): (r: seq<Path>)
    ensures forall p :: p in r <==> p in paths && p != x
  {
    if paths == [] then []
    else (if paths[0] == x then [] else [paths[0]]) + Without(paths[1..], x)
  }

  /** Whether everything runs, put together from what the decision looks at. */
  lemma RunAllParts(tree: Tree, changed: seq<Path>, deleted: seq<Path>, others: seq<Path>, start: set<Path>,
                    selected: set<Path>, changedAll: bool)
    requires PYPROJECT !in deleted && forall p :: p in others <==> p in changed && p != PYPROJECT
    requires Accumulated(tree, Elements(others), start, selected, changedAll)
    ensures tree.RunsAll(Elements(changed), Elements(deleted))
            <==> (exists p :: p in changed + deleted && tree.runAllPattern(p))
                 || (PYPROJECT in changed && tree.Requirements().None?)
                 || (exists p :: p in deleted && tree.DeletionOutsideModel(p))
                 || changedAll
  {
    var c, d := Elements(changed), Elements(deleted);
    assert forall p :: p in changed + deleted <==> p in c + d;
    assert forall p :: p in c && p != PYPROJECT ==> p in Elements(others);
    if exists p :: p in deleted && tree.DeletionOutsideModel(p) {
      var p :| p in deleted && tree.DeletionOutsideModel(p);
      assert p in d && tree.DeletionRunsAll(p);
    }
    if PYPROJECT in changed && tree.Requirements().None? {
      assert tree.Effect(PYPROJECT).None?;
    }
    if changedAll {
      var p :| p in Elements(others) && tree.FileEffect(p).None?;
      assert p in c && tree.Effect(p).None?;
    }
  }

  /** When not everything runs: the accumulated tests are those some changed file selects. */
  lemma SelectedAreHits(tree: Tree, changed: seq<Path>, others: seq<Path>, start: set<Path>, selected: set<Path>,
                        changedAll: bool)
    requires forall p :: p in others <==> p in changed && p != PYPROJECT
    requires start == (if PYPROJECT in changed && tree.Requirements().Some? then tree.Requirements().value else {})
    requires Accumulated(tree, Elements(others), start, selected, changedAll)
    ensures forall t :: t in selected <==> tree.Hit(Elements(changed), t)
  {
    forall t ensures t in selected <==> tree.Hit(Elements(changed), t) {
      if t in start {
        assert tree.Holds(tree.Effect(PYPROJECT), t) && PYPROJECT in Elements(changed);
      } else if t in selected {
        var p :| p in Elements(others) && tree.Holds(tree.FileEffect(p), t);
        assert p in Elements(changed) && tree.Holds(tree.Effect(p), t);
      }
      if tree.Hit(Elements(changed), t) {
        var p :| p in Elements(changed) && tree.Holds(tree.Effect(p), t);
        assert p != PYPROJECT ==> p in Elements(others);
      }
    }
  }

  lemma HitsInScope(tree: Tree, changed: set<Path>, t: Path)
    requires tree.InScope() && tree.Hit(changed, t)
    ensures t in tree.Scope()
  {
    var p :| p in changed && tree.Holds(tree.Effect(p), t);
    tree.ImpactOfIsImpact(p);
  }

  lemma SelectedRuns(tree: Tree, changed: set<Path>, deleted: set<Path>, hits: set<Path>, selected: set<Path>)
    requires tree.InScope() && !tree.RunsAll(changed, deleted)
    requires forall t :: t in hits <==> tree.Hit(changed, t)
    requires selected == if hits == {} then {} else hits + Elements(tree.opaqueTests)
    ensures forall t :: t in selected <==> tree.Runs(changed, deleted, t)
  {
    hide Tree.Hit, Tree.RunsAll;
    forall t | t in hits ensures t in tree.Scope() {
      HitsInScope(tree, changed, t);
    }
    assert (exists u :: tree.Hit(changed, u)) <==> hits != {} by {
      if u :| tree.Hit(changed, u) {
        assert u in hits;
      }
      if hits != {} {
        var u :| u in hits;
        assert tree.Hit(changed, u);
      }
    }
  }

  lemma EverythingRuns(tree: Tree, changed: set<Path>, deleted: set<Path>)
    requires tree.RunsAll(changed, deleted)
    ensures forall t :: t in tree.Scope() <==> tree.Runs(changed, deleted, t)
  {
  }

  /** The decision. Without a diff to go by, or when a commit message asks for it, everything in scope runs. */
  method Select(tree: Tree, selector: Selector, hasBase: bool, diff: Option<Diff>, forced: bool)
    returns (sel: Selected)
    requires tree.InScope() && selector.graph == tree.graph && selector.Valid()
    modifies selector
    ensures selector.Valid()
    ensures !hasBase || diff.None? || forced ==> sel == Selected(All, tree.Scope())
    ensures hasBase && diff.Some? && !forced ==>
              var c, d := Elements(diff.value.changed), Elements(diff.value.deleted);
              && (forall t :: t in sel.tests <==> tree.Runs(c, d, t))
              && (sel.mode == Nothing <==> sel.tests == {} && !tree.RunsAll(c, d))
              && (sel.mode == All <==> tree.RunsAll(c, d) || (sel.tests != {} && |sel.tests| == |tree.tests|))
  {
    if !hasBase || diff.None? || forced {
      return Selected(All, tree.Scope());
    }
    hide Accumulated, Tree.Hit, Tree.RunsAll, Tree.Runs, Tree.Requirements, Elements;
    var Diff(changed, deleted) := diff.value;
    ghost var c, d := Elements(changed), Elements(deleted);
    var runAll := AnyPattern(tree, changed + deleted);
    var start: set<Path> := {};
    var others := changed;
    if PYPROJECT in deleted {
      ProjectDeleted(tree, changed, deleted);
      runAll := true;
    } else if PYPROJECT in changed {
      others := Without(changed, PYPROJECT);
      var hits := ImpactOfPyproject(tree, selector);
      match hits
      case None => runAll := true;
      case Some(tests) => start := tests;
    }
    var deletion := AnyDeletion(tree, deleted);
    var selected, changedAll := SelectChanged(tree, selector, others, start);
    if PYPROJECT !in deleted {
      RunAllParts(tree, changed, deleted, others, start, selected, changedAll);
    }
    if runAll || deletion || changedAll {
      EverythingRuns(tree, c, d);
      return Selected(All, tree.Scope());
    }
    SelectedAreHits(tree, changed, others, start, selected, changedAll);
    ghost var hits := selected;
    if selected != {} {
      selected := selected + Elements(tree.opaqueTests);
    }
    SelectedRuns(tree, c, d, hits, selected);
    sel := Selected(if selected == {} then Nothing else if |selected| == |tree.tests| then All else Subset, selected);
  }

  lemma ProjectDeleted(tree: Tree, changed: seq<Path>, deleted: seq<Path>)
    requires PYPROJECT in deleted
    ensures tree.RunsAll(Elements(changed), Elements(deleted))
  {
    assert PYPROJECT in Elements(deleted) && tree.DeletionRunsAll(PYPROJECT);
  }
}
