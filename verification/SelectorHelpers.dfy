/** What the test selector attributes to a test: its own facts, its conftests', and those of the helpers it reaches. */
module SelectorHelpers {
  import opened Options
  import opened Sequences

  type Path = string

  /** Config keys, string constants and imports found in a file. */
  datatype Facts = Facts(keys: set<string>, strings: set<string>, imports: set<string>)

  const NO_FACTS := Facts({}, {}, {})

  /** A conftest applies to the tests under its directory; one that does not parse has no facts. */
  datatype Conftest = Conftest(dir: string, facts: Option<Facts>)

  /** The helper files with their facts, and the rule by which a file names one of them. */
  datatype Helpers = Helpers(
    files: map<Path, Facts>,
    names: (Path, Path, set<string>, set<string>) -> bool)
  {
    /** `helper_refs`: the helpers a file with these strings and imports names. */
    function Refs(rel: Path, strings: set<string>, imports: set<string>): set<Path> {
      set h | h in files && names(h, rel, strings, imports)
    }

    function Next(h: Path): set<Path>
      requires h in files
    {
      Refs(h, files[h].strings, files[h].imports)
    }

    ghost predicate Closed(s: set<Path>) {
      s <= files.Keys && forall h :: h in s ==> Next(h) <= s
    }

    /** The least set of helpers that contains the seeds and everything its members name. */
    ghost predicate IsClosure(seeds: set<Path>, s: set<Path>) {
      seeds <= s && Closed(s) && forall t :: Closed(t) && seeds <= t ==> s <= t
    }

    lemma ClosureUnique(seeds: set<Path>, s: set<Path>, t: set<Path>)
      requires IsClosure(seeds, s) && IsClosure(seeds, t)
      ensures s == t
    {
    }

    /** The same set written out: what no closed set that contains the seeds can do without. */
    ghost function Closure(seeds: set<Path>): set<Path> {
      set h | h in files && forall t :: Closed(t) && seeds <= t ==> h in t
    }

    lemma ClosureIsLeast(seeds: set<Path>, s: set<Path>)
      requires IsClosure(seeds, s)
      ensures s == Closure(seeds)
    {
    }

    /** Each helper of the chain is named by the one before it, and the first by a file with these facts. */
    ghost predicate Chain(rel: Path, strings: set<string>, imports: set<string>, c: seq<Path>) {
      && c != [] && (forall i :: 0 <= i < |c| ==> c[i] in files)
      && names(c[0], rel, strings, imports)
      && forall i :: 0 < i < |c| ==> names(c[i], c[i - 1], files[c[i - 1]].strings, files[c[i - 1]].imports)
    }

    /** The closure holds exactly the helpers at the end of a chain. */
    lemma ClosureByChains(rel: Path, strings: set<string>, imports: set<string>, s: set<Path>, h: Path)
      requires IsClosure(Refs(rel, strings, imports), s)
      ensures h in s <==> exists c :: Chain(rel, strings, imports, c) && c[|c| - 1] == h
    {
      var t := set g | g in files && exists c :: Chain(rel, strings, imports, c) && c[|c| - 1] == g;
      forall g, g' | g in t && g' in Next(g) ensures g' in t {
        var c :| Chain(rel, strings, imports, c) && c[|c| - 1] == g;
        assert Chain(rel, strings, imports, c + [g']);
      }
      forall g | g in Refs(rel, strings, imports) ensures g in t {
        assert Chain(rel, strings, imports, [g]);
      }
      assert Closed(t);
      if c :| Chain(rel, strings, imports, c) && c[|c| - 1] == h {
        ChainInClosure(rel, strings, imports, s, c);
      }
    }

    lemma {:induction false} ChainInClosure(
      rel: Path, strings: set<string>, imports: set<string>, s: set<Path>, c: seq<Path>)
      requires IsClosure(Refs(rel, strings, imports), s) && Chain(rel, strings, imports, c)
      ensures c[|c| - 1] in s
      decreases |c|
    {
      if |c| == 1 {
        assert c[0] in Refs(rel, strings, imports);
      } else {
        var g := c[|c| - 2];
        ChainInClosure(rel, strings, imports, s, c[..|c| - 1]);
        assert c[..|c| - 1][|c| - 2] == g && c[|c| - 1] in Next(g);
      }
    }

    /** What a set of helpers contributes. */
    ghost function Contribution(s: set<Path>): Facts
      requires s <= files.Keys
    {
      Facts(set h, x | h in s && x in files[h].keys :: x,
            set h, x | h in s && x in files[h].strings :: x,
            set h, x | h in s && x in files[h].imports :: x)
    }

    lemma ContributionStep(start: Facts, s: set<Path>, h: Path)
      requires s <= files.Keys && h in files
      ensures Plus(start, Contribution(s + {h})) == Plus(Plus(start, Contribution(s)), files[h])
    {
      var a, b := Plus(start, Contribution(s + {h})), Plus(Plus(start, Contribution(s)), files[h]);
      assert a.keys == b.keys;
      assert a.strings == b.strings;
      assert a.imports == b.imports;
    }

    lemma NoContribution(start: Facts)
      ensures Plus(start, Contribution({})) == start
    {
      assert Contribution({}) == NO_FACTS;
    }
  }

  function Plus(a: Facts, b: Facts): Facts {
    Facts(a.keys + b.keys, a.strings + b.strings, a.imports + b.imports)
  }

  /** The search has visited `seen` and still has `frontier` to look at: together they hold the seeds and everything
      the visited helpers name, and nothing a closed set could do without. */
  ghost predicate Searching(helpers: Helpers, seeds: set<Path>, seen: set<Path>, frontier: set<Path>) {
    seen + frontier <= helpers.files.Keys && seeds <= seen + frontier
    && (forall h :: h in seen ==> helpers.Next(h) <= seen + frontier)
    && (forall t :: helpers.Closed(t) && seeds <= t ==> seen + frontier <= t)
  }

  lemma SearchStep(helpers: Helpers, seeds: set<Path>, seen: set<Path>, frontier: set<Path>, h: Path)
    requires Searching(helpers, seeds, seen, frontier) && h in frontier
    ensures h in helpers.files
    ensures h in seen ==> Searching(helpers, seeds, seen, frontier - {h})
    ensures h !in seen ==>
              var seen' := seen + {h};
              Searching(helpers, seeds, seen', frontier - {h} + (helpers.Next(h) - seen'))
  {
    if h in seen {
      assert seen + (frontier - {h}) == seen + frontier;
    } else {
      var seen' := seen + {h};
      assert seen' + (frontier - {h} + (helpers.Next(h) - seen')) == seen + frontier + helpers.Next(h);
    }
  }

  lemma SearchDone(helpers: Helpers, seeds: set<Path>, seen: set<Path>)
    requires Searching(helpers, seeds, seen, {})
    ensures helpers.IsClosure(seeds, seen)
  {
    assert seen + {} == seen;
  }

  /** Follows helper references from `seeds`, popping the frontier in any order, and adds up the facts on the way. */
  method CollectHelpers(helpers: Helpers, seeds: set<Path>, start: Facts) returns (facts: Facts, seen: set<Path>)
    requires seeds <= helpers.files.Keys
    ensures helpers.IsClosure(seeds, seen)
    ensures facts == Plus(start, helpers.Contribution(seen))
  {
    hide Helpers.Contribution, Helpers.Closed, Helpers.IsClosure, Plus;
    facts, seen := start, {};
    var frontier := seeds;
    helpers.NoContribution(start);
    assert {} + seeds == seeds;
    while frontier != {}
      invariant seen <= helpers.files.Keys && Searching(helpers, seeds, seen, frontier)
      invariant facts == Plus(start, helpers.Contribution(seen))
      decreases helpers.files.Keys - seen, frontier
    {
      hide Searching;
      var helper :| helper in frontier;
      SearchStep(helpers, seeds, seen, frontier, helper);
      frontier := frontier - {helper};
      if helper in seen {
        continue;
      }
      helpers.ContributionStep(start, seen, helper);
      seen := seen + {helper};
      var f := helpers.files[helper];
      facts := Plus(facts, f);
      frontier := frontier + (helpers.Refs(helper, f.strings, f.imports) - seen);
    }
    SearchDone(helpers, seeds, seen);
  }

  /** The conftests on the test's path contribute keys and strings, not imports. */
  function OwnFacts(rel: Path, tree: Option<Facts>, conftests: seq<Conftest>): Facts {
    var own := if tree.Some? then tree.value else NO_FACTS;
    FromConftests(rel, own, conftests)
  }

  function FromConftests(rel: Path, facts: Facts, conftests: seq<Conftest>): Facts {
    if conftests == [] then facts
    else
      var c := conftests[|conftests| - 1];
      var before := FromConftests(rel, facts, conftests[..|conftests| - 1]);
      if c.facts.Some? && c.dir <= rel
      then Facts(before.keys + c.facts.value.keys, before.strings + c.facts.value.strings, before.imports)
      else before
  }

  /** A conftest that does not apply changes nothing; of one that does, keys and strings are there in the end. */
  lemma {:induction false} ConftestsContribute(rel: Path, facts: Facts, conftests: seq<Conftest>)
    ensures var r := FromConftests(rel, facts, conftests);
            && r.imports == facts.imports
            && (forall x :: x in r.keys <==>
                  || x in facts.keys
                  || exists k :: 0 <= k < |conftests| && Applies(conftests[k], rel)
                                 && x in conftests[k].facts.value.keys)
            && (forall x :: x in r.strings <==>
                  || x in facts.strings
                  || exists k :: 0 <= k < |conftests| && Applies(conftests[k], rel)
                                 && x in conftests[k].facts.value.strings)
    decreases |conftests|
  {
    if conftests != [] {
      var n := |conftests| - 1;
      var before := conftests[..n];
      ConftestsContribute(rel, facts, before);
      assert forall k :: 0 <= k < n ==> before[k] == conftests[k];
    }
  }

  predicate Applies(c: Conftest, rel: Path) {
    c.facts.Some? && c.dir <= rel
  }

  /** Every test's facts, and for every helper the tests that reach it. */
  datatype Build = Build(testFacts: map<Path, Facts>, helperTests: map<Path, set<Path>>)

  /** `facts` and `reached` are right for the test: its own and its conftests' facts plus those of exactly the helpers
      in the least closed set. */
  ghost predicate TestBuilt(
    helpers: Helpers, conftests: seq<Conftest>, rel: Path, tree: Option<Facts>, facts: Facts, reached: set<Path>)
  {
    var own := OwnFacts(rel, tree, conftests);
    helpers.IsClosure(helpers.Refs(rel, own.strings, own.imports), reached)
    && facts == Plus(own, helpers.Contribution(reached))
  }

  /** The facts of a test: those of its own file, of every conftest above it except imports, and of every helper it
      reaches. */
  lemma FactsOfTest(
    helpers: Helpers, conftests: seq<Conftest>, rel: Path, tree: Option<Facts>, facts: Facts, reached: set<Path>)
    requires TestBuilt(helpers, conftests, rel, tree, facts, reached)
    ensures forall x :: x in facts.keys <==>
              || (tree.Some? && x in tree.value.keys)
              || (exists k :: 0 <= k < |conftests| && conftests[k].facts.Some? && conftests[k].dir <= rel
                              && x in conftests[k].facts.value.keys)
              || (exists h :: h in reached && h in helpers.files && x in helpers.files[h].keys)
    ensures forall x :: x in facts.strings <==>
              || (tree.Some? && x in tree.value.strings)
              || (exists k :: 0 <= k < |conftests| && conftests[k].facts.Some? && conftests[k].dir <= rel
                              && x in conftests[k].facts.value.strings)
              || (exists h :: h in reached && h in helpers.files && x in helpers.files[h].strings)
    ensures forall x :: x in facts.imports <==>
              || (tree.Some? && x in tree.value.imports)
              || (exists h :: h in reached && h in helpers.files && x in helpers.files[h].imports)
  {
    var own := if tree.Some? then tree.value else NO_FACTS;
    ConftestsContribute(rel, own, conftests);
    hide FromConftests, Helpers.IsClosure;
    ClosedIn(helpers, conftests, rel, tree, facts, reached);
  }

  lemma ClosedIn(
    helpers: Helpers, conftests: seq<Conftest>, rel: Path, tree: Option<Facts>, facts: Facts, reached: set<Path>)
    requires TestBuilt(helpers, conftests, rel, tree, facts, reached)
    ensures reached <= helpers.files.Keys
  {
  }

  /** A test reaches exactly the helpers that a chain of references leads to, from a file that has the test's own
      imports, and its own strings with those of the conftests above it. */
  lemma HelpersOfTest(
    helpers: Helpers, conftests: seq<Conftest>, rel: Path, tree: Option<Facts>, facts: Facts, reached: set<Path>,
    strings: set<string>, imports: set<string>, h: Path)
    requires TestBuilt(helpers, conftests, rel, tree, facts, reached)
    requires forall x :: x in strings <==>
               || (tree.Some? && x in tree.value.strings)
               || (exists k :: 0 <= k < |conftests| && conftests[k].facts.Some? && conftests[k].dir <= rel
                               && x in conftests[k].facts.value.strings)
    requires imports == if tree.Some? then tree.value.imports else {}
    ensures h in reached <==> exists c :: helpers.Chain(rel, strings, imports, c) && c[|c| - 1] == h
  {
    var own := if tree.Some? then tree.value else NO_FACTS;
    ConftestsContribute(rel, own, conftests);
    var before := OwnFacts(rel, tree, conftests);
    hide FromConftests;
    assert before.strings == strings && before.imports == imports;
    helpers.ClosureByChains(rel, strings, imports, reached, h);
  }

  function TestsOf(reached: map<Path, set<Path>>, h: Path): set<Path> {
    set t | t in reached && h in reached[t]
  }

  /** `helper_tests` is the inverse of the tests' reached sets. */
  ghost predicate Inverse(reached: map<Path, set<Path>>, helperTests: map<Path, set<Path>>) {
    (forall h :: h in helperTests ==> helperTests[h] == TestsOf(reached, h))
    && (forall t, h :: t in reached && h in reached[t] ==> h in helperTests)
    && (forall h :: h in helperTests ==> helperTests[h] != {})
  }

  lemma Built(
    helpers: Helpers, conftests: seq<Conftest>, rel: Path, tree: Option<Facts>, facts: Facts, seen: set<Path>)
    requires var own := OwnFacts(rel, tree, conftests);
             helpers.IsClosure(helpers.Refs(rel, own.strings, own.imports), seen)
             && facts == Plus(own, helpers.Contribution(seen))
    ensures TestBuilt(helpers, conftests, rel, tree, facts, seen)
  {
  }

  /** What a test is attributed is determined: no order of the search can change it. */
  lemma BuiltUnique(
    helpers: Helpers, conftests: seq<Conftest>, rel: Path, tree: Option<Facts>,
    facts: Facts, reached: set<Path>, facts': Facts, reached': set<Path>)
    requires TestBuilt(helpers, conftests, rel, tree, facts, reached)
    requires TestBuilt(helpers, conftests, rel, tree, facts', reached')
    ensures facts == facts' && reached == reached'
  {
    var own := OwnFacts(rel, tree, conftests);
    helpers.ClosureUnique(helpers.Refs(rel, own.strings, own.imports), reached, reached');
  }

  /** The helpers a test reaches. */
  ghost function ReachedBy(helpers: Helpers, conftests: seq<Conftest>, rel: Path, tree: Option<Facts>): set<Path> {
    var own := OwnFacts(rel, tree, conftests);
    helpers.Closure(helpers.Refs(rel, own.strings, own.imports))
  }

  lemma BuiltReaches(
    helpers: Helpers, conftests: seq<Conftest>, rel: Path, tree: Option<Facts>, facts: Facts, reached: set<Path>)
    requires TestBuilt(helpers, conftests, rel, tree, facts, reached)
    ensures reached == ReachedBy(helpers, conftests, rel, tree)
  {
    var own := OwnFacts(rel, tree, conftests);
    helpers.ClosureIsLeast(helpers.Refs(rel, own.strings, own.imports), reached);
  }

  lemma InverseOfReached(
    helpers: Helpers, conftests: seq<Conftest>, tests: seq<Path>, trees: map<Path, Option<Facts>>,
    reached: map<Path, set<Path>>, helperTests: map<Path, set<Path>>)
    requires Inverse(reached, helperTests) && reached.Keys == Elements(tests)
    requires forall t :: t in tests ==> t in trees && reached[t] == ReachedBy(helpers, conftests, t, trees[t])
    ensures forall h, t :: h in helperTests && t in helperTests[h]
                           <==> t in tests && h in ReachedBy(helpers, conftests, t, trees[t])
    ensures forall h :: h in helperTests ==> helperTests[h] != {}
  {
    hide ReachedBy;
  }

  /** The tests handled so far have their facts and the helpers they reach. */
  ghost predicate AllBuilt(
    helpers: Helpers, conftests: seq<Conftest>, done: seq<Path>, trees: map<Path, Option<Facts>>,
    testFacts: map<Path, Facts>, reached: map<Path, set<Path>>)
  {
    testFacts.Keys == reached.Keys == Elements(done)
    && forall t :: t in done ==> t in trees && TestBuilt(helpers, conftests, t, trees[t], testFacts[t], reached[t])
  }

  /** A test that comes again is given what it was given before. */
  lemma OneMoreBuilt(
    helpers: Helpers, conftests: seq<Conftest>, done: seq<Path>, trees: map<Path, Option<Facts>>,
    testFacts: map<Path, Facts>, reached: map<Path, set<Path>>, rel: Path, facts: Facts, seen: set<Path>)
    requires AllBuilt(helpers, conftests, done, trees, testFacts, reached)
    requires rel in trees && TestBuilt(helpers, conftests, rel, trees[rel], facts, seen)
    ensures rel in reached ==> reached[rel] == seen
    ensures AllBuilt(helpers, conftests, done + [rel], trees, testFacts[rel := facts], reached[rel := seen])
  {
    hide TestBuilt;
    if rel in reached {
      BuiltUnique(helpers, conftests, rel, trees[rel], testFacts[rel], reached[rel], facts, seen);
    }
  }

  lemma BuiltFacts(
    helpers: Helpers, conftests: seq<Conftest>, tests: seq<Path>, trees: map<Path, Option<Facts>>,
    testFacts: map<Path, Facts>, reached: map<Path, set<Path>>)
    requires AllBuilt(helpers, conftests, tests, trees, testFacts, reached)
    ensures testFacts.Keys == reached.Keys == Elements(tests)
    ensures forall t :: t in tests ==> t in trees && reached[t] == ReachedBy(helpers, conftests, t, trees[t])
    ensures forall t :: t in tests ==>
              TestBuilt(helpers, conftests, t, trees[t], testFacts[t], ReachedBy(helpers, conftests, t, trees[t]))
  {
    hide TestBuilt, ReachedBy;
    forall t | t in tests ensures reached[t] == ReachedBy(helpers, conftests, t, trees[t]) {
      BuiltReaches(helpers, conftests, t, trees[t], testFacts[t], reached[t]);
    }
  }

  /** Every test's facts, and the helpers' tests as exactly the inverse of what the tests reach. */
  method BuildTests(helpers: Helpers, conftests: seq<Conftest>, tests: seq<Path>, trees: map<Path, Option<Facts>>)
    returns (build: Build)
    requires forall t :: t in tests ==> t in trees
    ensures build.testFacts.Keys == Elements(tests)
    ensures forall t :: t in tests ==>
              TestBuilt(helpers, conftests, t, trees[t], build.testFacts[t], ReachedBy(helpers, conftests, t, trees[t]))
    ensures forall h, t :: h in build.helperTests && t in build.helperTests[h]
                           <==> t in tests && h in ReachedBy(helpers, conftests, t, trees[t])
    ensures forall h :: h in build.helperTests ==> build.helperTests[h] != {}
  {
    var testFacts: map<Path, Facts> := map[];
    var helperTests: map<Path, set<Path>> := map[];
    ghost var reached: map<Path, set<Path>> := map[];
    assert Inverse(reached, helperTests) && AllBuilt(helpers, conftests, tests[..0], trees, testFacts, reached);
    hide Inverse, TestBuilt, ReachedBy, AllBuilt;
    for i := 0 to |tests|
      invariant AllBuilt(helpers, conftests, tests[..i], trees, testFacts, reached)
      invariant Inverse(reached, helperTests)
    {
      var rel := tests[i];
      var own := OwnFacts(rel, trees[rel], conftests);
      var facts, seen := CollectHelpers(helpers, helpers.Refs(rel, own.strings, own.imports), own);
      Built(helpers, conftests, rel, trees[rel], facts, seen);
      OneMoreBuilt(helpers, conftests, tests[..i], trees, testFacts, reached, rel, facts, seen);
      testFacts := testFacts[rel := facts];
      helperTests := AddTest(helperTests, seen, rel, reached);
      reached := reached[rel := seen];
      assert tests[..i + 1] == tests[..i] + [tests[i]];
    }
    assert tests[..|tests|] == tests;
    BuiltFacts(helpers, conftests, tests, trees, testFacts, reached);
    InverseOfReached(helpers, conftests, tests, trees, reached, helperTests);
    build := Build(testFacts, helperTests);
  }

  function Entry(helperTests: map<Path, set<Path>>, h: Path): set<Path> {
    if h in helperTests then helperTests[h] else {}
  }

  /** `rel` has been added for the helpers in `done`. */
  ghost predicate Added(helperTests: map<Path, set<Path>>, done: set<Path>, rel: Path, r: map<Path, set<Path>>) {
    r.Keys == helperTests.Keys + done
    && forall h :: h in r ==> r[h] == Entry(helperTests, h) + if h in done then {rel} else {}
  }

  lemma AddedOne(helperTests: map<Path, set<Path>>, done: set<Path>, rel: Path, r: map<Path, set<Path>>, h: Path)
    requires Added(helperTests, done, rel, r) && h !in done
    ensures Added(helperTests, done + {h}, rel, r[h := Entry(r, h) + {rel}])
  {
  }

  /** `for helper in seen: helper_tests[helper].add(rel)`. */
  method AddTest(
    helperTests: map<Path, set<Path>>, seen: set<Path>, rel: Path, ghost reached: map<Path, set<Path>>)
    returns (r: map<Path, set<Path>>)
    requires Inverse(reached, helperTests) && (rel in reached ==> reached[rel] == seen)
    ensures Inverse(reached[rel := seen], r)
  {
    assert Added(helperTests, {}, rel, helperTests);
    hide Inverse, Added, Entry;
    r := helperTests;
    var todo := seen;
    ghost var done: set<Path> := {};
    while todo != {}
      invariant done !! todo && done + todo == seen && Added(helperTests, done, rel, r)
      decreases todo
    {
      var h :| h in todo;
      AddedOne(helperTests, done, rel, r, h);
      r := r[h := Entry(r, h) + {rel}];
      todo, done := todo - {h}, done + {h};
    }
    assert done == seen;
    InverseStep(helperTests, seen, rel, reached, r);
  }

  lemma InverseStep(
    helperTests: map<Path, set<Path>>, seen: set<Path>, rel: Path, reached: map<Path, set<Path>>,
    r: map<Path, set<Path>>)
    requires Inverse(reached, helperTests) && (rel in reached ==> reached[rel] == seen)
    requires Added(helperTests, seen, rel, r)
    ensures Inverse(reached[rel := seen], r)
  {
    forall h | h in r
      ensures r[h] == TestsOf(reached[rel := seen], h)
    {
      InverseEntry(helperTests, seen, rel, reached, h);
    }
  }

  /** The tests that reach `h`, with `rel` added if it does. */
  lemma InverseEntry(
    helperTests: map<Path, set<Path>>, seen: set<Path>, rel: Path, reached: map<Path, set<Path>>, h: Path)
    requires Inverse(reached, helperTests) && (rel in reached ==> reached[rel] == seen)
    ensures TestsOf(reached[rel := seen], h)
            == Entry(helperTests, h) + if h in seen then {rel} else {}
  {
    var before := TestsOf(reached, h);
    assert before == Entry(helperTests, h);
  }
}
