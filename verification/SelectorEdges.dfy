/** The tests a source module carries itself: those that import it, name it in a config value, or set a key it reads. */
module SelectorEdges {
  import opened Options
  import opened Sequences
  import opened SelectorHelpers

  const SRC_ROOT := "src/axolotl"
  const INIT := "__init__.py"
  const MIN_REGISTRY_ENTRIES := 3

  /** What a module with edges of its own reaches; nothing stands for the whole scope. */
  datatype Edges = Edges(tests: Option<set<Path>>)

  const WHOLE_SCOPE := Some(Edges(None))

  function SomeTests(tests: set<Path>): Option<Edges> {
    Some(Edges(Some(tests)))
  }

  // ---- paths ----

  /** Position after the last occurrence of a character, 0 when there is none. */
  function AfterLast(s: string, c: char): (n: nat)
    ensures n <= |s| && (n > 0 ==> s[n - 1] == c) && forall k :: n <= k < |s| ==> s[k] != c
  {
    if s == "" then 0
    else if s[|s| - 1] == c then |s|
    else AfterLast(s[..|s| - 1], c)
  }

  /** `str(Path(path).parent)` of a relative path. */
  function Parent(path: Path): Path {
    var n := AfterLast(path, '/');
    if n == 0 then "." else path[..n - 1]
  }

  /** `Path(path).name`. */
  function Name(path: Path): string {
    path[AfterLast(path, '/')..]
  }

  lemma PathParts(directory: Path, name: string)
    requires '/' !in name
    ensures Parent(directory + "/" + name) == directory && Name(directory + "/" + name) == name
  {
    var path := directory + "/" + name;
    assert path[|directory|] == '/' && forall k :: 0 <= k < |name| ==> path[|directory| + 1 + k] == name[k];
    assert AfterLast(path, '/') == |directory| + 1;
  }

  /** Everything before the first slash. */
  function Head(path: Path): (h: string)
    ensures '/' !in h && |h| <= |path| && path[..|h|] == h && (|h| < |path| ==> path[|h|] == '/')
  {
    if path == "" || path[0] == '/' then "" else [path[0]] + Head(path[1..])
  }

  predicate Under(directory: Path, rel: Path) {
    directory + "/" <= rel
  }

  /** The entry of a directory that holds the file. */
  function EntryOf(directory: Path, rel: Path): string
    requires Under(directory, rel)
  {
    Head(rel[|directory| + 1..])
  }

  /** A file under the directory other than its own initializer. */
  predicate Counts(directory: Path, rel: Path) {
    Under(directory, rel) && EntryOf(directory, rel) != INIT
  }

  /** The file is this entry of the directory, or lies under it. */
  predicate InEntry(directory: Path, e: string, rel: Path) {
    '/' !in e && e != "__init__.py" && (rel == directory + "/" + e || directory + "/" + e + "/" <= rel)
  }

  lemma EntryIs(directory: Path, e: string, rel: Path)
    ensures Counts(directory, rel) && EntryOf(directory, rel) == e <==> InEntry(directory, e, rel)
  {
    var n := |directory| + 1;
    if InEntry(directory, e, rel) {
      assert rel[..n] == directory + "/";
      var rest := rel[n + |e|..];
      assert rel[n..] == e + rest;
      HeadOf(e, rest);
    }
    if Counts(directory, rel) && EntryOf(directory, rel) == e {
      assert rel[..n] == directory + "/" && rel[n..][..|e|] == e;
      if n + |e| < |rel| {
        assert rel[n..][|e|] == '/';
        assert rel[..n + |e| + 1] == directory + "/" + e + "/";
      } else {
        assert rel == directory + "/" + e;
      }
    }
  }

  // ---- the built tree ----

  /** What the source files contain: all of them, the names and the imports of those that parse, the module names, the
      names in a file that is parsed on the spot (nothing when it does not parse), declared keys, console scripts, entry
      points and config fields, and the rules by which a test's facts import or name a module. */
  datatype Sources = Sources(
    files: set<Path>,
    names: map<Path, set<string>>,
    imports: map<Path, set<string>>,
    modules: map<string, Path>,
    reparsed: Path -> Option<set<string>>,
    declared: map<Path, seq<string>>,
    scripts: set<Path>,
    entryPointDirs: set<Path>,
    allFields: set<string>,
    importsIt: (Facts, Path) -> bool,
    namesIt: (Facts, Path) -> bool)
  {
    /** The file an import refers to: the module itself, or the one the imported name is in. */
    function TargetOf(imp: string): Option<Path> {
      if imp in modules then Some(modules[imp])
      else if AfterLast(imp, '.') > 0 && imp[..AfterLast(imp, '.') - 1] in modules
      then Some(modules[imp[..AfterLast(imp, '.') - 1]])
      else None
    }

    /** A name imported from a package is a module of it if there is one, and else in the package itself. */
    lemma TargetOfName(package: string, name: string)
      requires '.' !in name
      ensures var imp := package + "." + name;
              TargetOf(imp) == if imp in modules then Some(modules[imp])
                               else if package in modules then Some(modules[package])
                               else None
      ensures TargetOf(name) == if name in modules then Some(modules[name]) else None
    {
      var imp := package + "." + name;
      assert imp[|package|] == '.' && forall k :: 0 <= k < |name| ==> imp[|package| + 1 + k] == name[k];
      assert AfterLast(imp, '.') == |package| + 1 && imp[..|package|] == package;
      assert AfterLast(name, '.') == 0;
    }

    /** One of the imports refers to the file. */
    predicate Hits(imps: set<string>, target: Path) {
      exists imp :: imp in imps && TargetOf(imp) == Some(target)
    }

    lemma HitsOneMore(imps: set<string>, imp: string, target: Path)
      ensures Hits(imps + {imp}, target) <==> Hits(imps, target) || TargetOf(imp) == Some(target)
    {
      if TargetOf(imp) == Some(target) {
        assert imp in imps + {imp};
      }
      if i :| i in imps && TargetOf(i) == Some(target) {
        assert i in imps + {imp};
      }
    }

    predicate Imports(rel: Path, target: Path) {
      rel in imports && rel != target && Hits(imports[rel], target)
    }
  }

  /** The sets that contain `key`. */
  function Having(sets: map<Path, set<string>>, key: string): set<Path> {
    set m | m in sets && key in sets[m]
  }

  /** The facts of the tests and of the source files, who imports whom, the keys that carry a signal, and those of them
      that most configured tests set. */
  datatype Model = Model(
    testFacts: map<Path, Facts>,
    src: Sources,
    importers: map<Path, set<Path>>,
    universe: set<string>,
    ubiquitous: set<string>)
  {
    /** The tests with their keys. */
    function TestKeys(): map<Path, set<string>> {
      map t | t in testFacts :: testFacts[t].keys
    }

    /** Config fields that some test sets and less than a fifth of the parsed files read. */
    predicate InUniverse(key: string) {
      key in src.allFields && Having(TestKeys(), key) != {}
      && (Having(src.names, key) == {} || 5 * |Having(src.names, key)| < |src.names|)
    }

    /** The tests that set a key of the universe. */
    function Configured(): map<Path, set<string>> {
      map t | t in testFacts && testFacts[t].keys * universe != {} :: testFacts[t].keys
    }

    /** Keys of the universe that at least half of the configured tests set. */
    predicate IsUbiquitous(key: string) {
      key in universe && Having(Configured(), key) != {} && 2 * |Having(Configured(), key)| >= |Configured()|
    }

    /** What `build` derives from the facts. */
    ghost predicate Consistent() {
      && (forall t, m :: t in importers && m in importers[t] <==> src.Imports(m, t))
      && (forall k :: k in universe <==> InUniverse(k))
      && (forall k :: k in ubiquitous <==> IsUbiquitous(k))
    }

    /** Which keys carry a signal: a config field that some test sets, unless a fifth of the parsed files read it. */
    lemma SignalKeys(key: string, readers: set<Path>)
      requires Consistent() && forall m :: m in readers <==> m in src.names && key in src.names[m]
      ensures key in universe
              <==> key in src.allFields && (exists t :: t in testFacts && key in testFacts[t].keys)
                   && (readers == {} || 5 * |readers| < |src.names|)
    {
      assert readers == Having(src.names, key);
      if t :| t in testFacts && key in testFacts[t].keys {
        assert t in Having(TestKeys(), key);
      }
      if t :| t in Having(TestKeys(), key) {
        assert key in testFacts[t].keys;
      }
    }

    /** And which of them say too little: those that half of the tests with any of them set. */
    lemma CoreKeys(key: string, configured: set<Path>, setters: set<Path>)
      requires Consistent()
      requires forall t :: t in configured
                           <==> t in testFacts && exists k :: k in testFacts[t].keys && k in universe
      requires forall t :: t in setters <==> t in configured && key in testFacts[t].keys
      ensures key in ubiquitous <==> key in universe && setters != {} && 2 * |setters| >= |configured|
    {
      assert Configured().Keys == configured by {
        forall t | t in testFacts
          ensures testFacts[t].keys * universe != {} <==> exists k :: k in testFacts[t].keys && k in universe
        {
          if k :| k in testFacts[t].keys && k in universe {
            assert k in testFacts[t].keys * universe;
          }
        }
      }
      KeyCount(Configured());
      assert setters == Having(Configured(), key);
    }

    function KeyEdges(keys: set<string>): set<Path> {
      set t | t in testFacts && testFacts[t].keys * keys != {}
    }

    function ImportEdges(rel: Path): set<Path> {
      set t | t in testFacts && src.importsIt(testFacts[t], rel)
    }

    function ValueEdges(rel: Path): set<Path> {
      set t | t in testFacts && src.namesIt(testFacts[t], rel)
    }

    // ---- registries ----

    function EntriesOf(directory: Path, files: set<Path>): set<string> {
      set rel | rel in files && Counts(directory, rel) :: EntryOf(directory, rel)
    }

    /** Entries with a file that some config value names. */
    function NamedOf(directory: Path, files: set<Path>): set<string> {
      EntriesOf(directory, set rel | rel in files && ValueEdges(rel) != {})
    }

    lemma OneMoreFile(directory: Path, files: set<Path>, rel: Path)
      ensures EntriesOf(directory, files + {rel})
              == EntriesOf(directory, files) + if Counts(directory, rel) then {EntryOf(directory, rel)} else {}
      ensures NamedOf(directory, files + {rel})
              == NamedOf(directory, files)
                 + if Counts(directory, rel) && ValueEdges(rel) != {} then {EntryOf(directory, rel)} else {}
    {
    }

    predicate EnoughEntries(directory: Path, entries: set<string>, named: set<string>) {
      (|named| >= MIN_REGISTRY_ENTRIES && 3 * |named| >= |entries|)
      || |set e | e in entries && directory + "/" + e in src.entryPointDirs| >= MIN_REGISTRY_ENTRIES
    }

    /** A directory at least three and a third of whose entries are named by config values, or with three entry
        points. */
    predicate IsRegistryDir(directory: Path) {
      directory != SRC_ROOT && EnoughEntries(directory, EntriesOf(directory, src.files), NamedOf(directory, src.files))
    }

    /** What makes a directory a registry, by its entries: a third of them, but at least three, hold a file that a
        test names, or three of them are registered as entry points. */
    lemma RegistryByEntries(directory: Path, entries: set<string>, named: set<string>, points: set<string>)
      requires forall e :: e in entries <==> exists rel :: rel in src.files && InEntry(directory, e, rel)
      requires forall e :: e in named
                           <==> exists rel, t :: rel in src.files && InEntry(directory, e, rel)
                                                 && t in testFacts && src.namesIt(testFacts[t], rel)
      requires forall e :: e in points <==> e in entries && directory + "/" + e in src.entryPointDirs
      ensures IsRegistryDir(directory)
              <==> directory != "src/axolotl" && ((|named| >= 3 && 3 * |named| >= |entries|) || |points| >= 3)
    {
      forall e, rel
        ensures Counts(directory, rel) && EntryOf(directory, rel) == e <==> InEntry(directory, e, rel)
        ensures ValueEdges(rel) == {} <==> forall t :: t in testFacts ==> !src.namesIt(testFacts[t], rel)
      {
        EntryIs(directory, e, rel);
        NoValueEdges(rel);
      }
      hide InEntry, Counts, EntryOf, ValueEdges;
      assert entries == EntriesOf(directory, src.files);
      assert named == NamedOf(directory, src.files);
      assert points == set e | e in entries && directory + "/" + e in src.entryPointDirs;
    }

    /** The registry entry that holds a module: the file or its package directory. */
    function RegistryEntry(rel: Path): Option<Path> {
      if IsRegistryDir(Parent(rel)) then Some(rel)
      else if IsRegistryDir(Parent(Parent(rel))) then Some(Parent(rel))
      else None
    }

    /** A file of a registry is its own entry; one below it belongs to its package's. */
    lemma RegistryEntryOf(directory: Path, package: string, name: string)
      requires '/' !in package && '/' !in name
      ensures IsRegistryDir(directory) ==> RegistryEntry(directory + "/" + name) == Some(directory + "/" + name)
      ensures var inner := directory + "/" + package;
              !IsRegistryDir(inner) ==>
                RegistryEntry(inner + "/" + name) == if IsRegistryDir(directory) then Some(inner) else None
    {
      hide IsRegistryDir;
      PathParts(directory, name);
      PathParts(directory, package);
      PathParts(directory + "/" + package, name);
    }

    predicate Within(rel: Path, entry: Path) {
      rel == entry || Under(entry, rel)
    }

    /** Nothing outside the entry imports any of it. */
    predicate IsRegistryLeaf(entry: Path) {
      forall m, i :: m in src.files && Within(m, entry) && m in importers && i in importers[m] ==> Within(i, entry)
    }

    /** Exactly when no file outside the entry imports one of its files. */
    lemma LeafMeans(entry: Path)
      requires Consistent()
      ensures IsRegistryLeaf(entry)
              <==> !exists m, i :: m in src.files && (m == entry || entry + "/" <= m) && src.Imports(i, m)
                                   && i != entry && !(entry + "/" <= i)
    {
      hide Sources.Imports;
      if m, i :| m in src.files && Within(m, entry) && src.Imports(i, m) && !Within(i, entry) {
        assert m in importers && i in importers[m] && !IsRegistryLeaf(entry);
      }
      if m, i :| m in src.files && Within(m, entry) && m in importers && i in importers[m] && !Within(i, entry) {
        assert src.Imports(i, m);
      }
    }

    /** The tests that name a registry module: by its own name, else by that of its entry's package. */
    function RegistryNamed(rel: Path, entry: Path): set<Path> {
      var init := entry + "/" + INIT;
      if ValueEdges(rel) == {} && init != rel && init in src.files then ValueEdges(init) else ValueEdges(rel)
    }

    // ---- a module's own edges ----

    function NamesOf(rel: Path): Option<set<string>> {
      if rel in src.names then Some(src.names[rel]) else src.reparsed(rel)
    }

    /** `_compute_own_edges`: nothing when the module has no edges and its importers decide. */
    function OwnEdges(rel: Path): Option<Edges> {
      if rel in src.scripts then WHOLE_SCOPE
      else if rel in src.declared then
        if src.declared[rel] == [] || !(Elements(src.declared[rel]) <= src.allFields) then WHOLE_SCOPE
        else SomeTests(KeyEdges(Elements(src.declared[rel])))
      else if NamesOf(rel).None? then WHOLE_SCOPE
      else
        var read := NamesOf(rel).value * universe;
        var direct := ImportEdges(rel) + KeyEdges(read - ubiquitous);
        var entry := RegistryEntry(rel);
        if entry.Some? && RegistryNamed(rel, entry.value) != {} then SomeTests(RegistryNamed(rel, entry.value) + direct)
        else if entry.Some? && IsRegistryLeaf(entry.value) then SomeTests(direct)
        else if read * ubiquitous != {} then WHOLE_SCOPE
        else
          var hits := (if entry.Some? then {} else ValueEdges(rel)) + direct;
          if hits != {} || read - ubiquitous != {} then SomeTests(hits) else None
    }

    /** Only tests of the tree are ever reached. */
    lemma EdgesAreTests(rel: Path)
      ensures OwnEdges(rel).Some? && OwnEdges(rel).value.tests.Some? ==>
                OwnEdges(rel).value.tests.value <= testFacts.Keys
    {
    }

    /** A test that imports the module, names it, or sets a key the module reads that carries a signal. */
    predicate Direct(rel: Path, t: Path) {
      && t in testFacts
      && (src.importsIt(testFacts[t], rel)
          || src.namesIt(testFacts[t], rel)
          || (NamesOf(rel).Some?
              && exists k :: k in testFacts[t].keys && k in NamesOf(rel).value && k in universe && k !in ubiquitous))
    }

    predicate Reaches(rel: Path, t: Path) {
      OwnEdges(rel).Some? && (OwnEdges(rel).value.tests.Some? ==> t in OwnEdges(rel).value.tests.value)
    }

    lemma DirectParts(rel: Path, t: Path)
      ensures Direct(rel, t)
              <==> t in ImportEdges(rel) + ValueEdges(rel)
                   || (NamesOf(rel).Some? && t in KeyEdges(NamesOf(rel).value * universe - ubiquitous))
    {
      hide NamesOf;
      if t in testFacts && NamesOf(rel).Some? {
        var names, keys := NamesOf(rel).value, testFacts[t].keys;
        if keys * (names * universe - ubiquitous) != {} {
          var k :| k in keys * (names * universe - ubiquitous);
        }
        if k :| k in keys && k in names && k in universe && k !in ubiquitous {
          assert k in keys * (names * universe - ubiquitous);
        }
      }
    }

    lemma NoValueEdges(rel: Path)
      ensures ValueEdges(rel) == {} <==> forall u :: u in testFacts ==> !src.namesIt(testFacts[u], rel)
    {
      if u :| u in testFacts && src.namesIt(testFacts[u], rel) {
        assert u in ValueEdges(rel);
      }
    }

    /** No test with a direct connection is lost, whatever the branch, unless the module declares its keys. */
    lemma DirectTestsKept(rel: Path, t: Path)
      requires Direct(rel, t) && rel !in src.declared
      ensures Reaches(rel, t)
    {
      DirectParts(rel, t);
      hide Direct, RegistryEntry, IsRegistryLeaf, ImportEdges, ValueEdges, KeyEdges;
      if rel !in src.scripts && NamesOf(rel).Some? && t in ValueEdges(rel) && RegistryEntry(rel).Some? {
        assert t in RegistryNamed(rel, RegistryEntry(rel).value);
      }
    }

    /** Of a module without declared keys nothing else is reached but what names the package it is registered as, and
        that only when nothing names the module itself. */
    lemma OnlyDirectTests(rel: Path, t: Path)
      requires rel !in src.scripts && rel !in src.declared && NamesOf(rel).Some?
      requires OwnEdges(rel).Some? && OwnEdges(rel).value.tests.Some? && t in OwnEdges(rel).value.tests.value
      ensures || Direct(rel, t)
              || (RegistryEntry(rel).Some? && t in testFacts
                  && src.namesIt(testFacts[t], RegistryEntry(rel).value + "/" + "__init__.py")
                  && forall u :: u in testFacts ==> !src.namesIt(testFacts[u], rel))
    {
      DirectParts(rel, t);
      NoValueEdges(rel);
      hide Direct, RegistryEntry;
    }

    /** A member of a registered package that no test names is reached by the tests that name the package. */
    lemma PackageTestsReached(rel: Path, t: Path)
      requires rel !in src.scripts && rel !in src.declared && NamesOf(rel).Some? && RegistryEntry(rel).Some?
      requires var init := RegistryEntry(rel).value + "/" + "__init__.py";
               init != rel && init in src.files && t in testFacts && src.namesIt(testFacts[t], init)
      requires forall u :: u in testFacts ==> !src.namesIt(testFacts[u], rel)
      ensures OwnEdges(rel).Some? && OwnEdges(rel).value.tests.Some? && t in OwnEdges(rel).value.tests.value
    {
      NoValueEdges(rel);
      hide RegistryEntry;
      assert t in RegistryNamed(rel, RegistryEntry(rel).value);
    }

    /** A module that declares its keys reaches exactly the tests that set one of them, or everything when it declares
        none or one that is no config field. */
    lemma DeclaredKeysDecide(rel: Path)
      requires rel !in src.scripts && rel in src.declared
      ensures if src.declared[rel] != [] && forall k :: k in src.declared[rel] ==> k in src.allFields
              then
                && OwnEdges(rel).Some? && OwnEdges(rel).value.tests.Some?
                && forall t :: t in OwnEdges(rel).value.tests.value
                               <==> t in testFacts && exists k :: k in src.declared[rel] && k in testFacts[t].keys
              else OwnEdges(rel) == Some(Edges(None))
    {
      var keys := src.declared[rel];
      forall t | t in testFacts
        ensures testFacts[t].keys * Elements(keys) != {} <==> exists k :: k in keys && k in testFacts[t].keys
      {
        if k :| k in keys && k in testFacts[t].keys {
          assert k in testFacts[t].keys * Elements(keys);
        }
      }
    }

    /** A console script, and a module that does not parse, run everything. */
    lemma ScriptsRunAll(rel: Path)
      requires rel in src.scripts || (rel !in src.declared && rel !in src.names && src.reparsed(rel).None?)
      ensures OwnEdges(rel) == Some(Edges(None))
    {
    }

    /** Importers decide exactly for a module that no test is connected to, that reads no key of the universe, and that
        is not in a registry nobody imports from or whose package is named. */
    lemma ImportersDecide(rel: Path)
      requires rel !in src.scripts && rel !in src.declared && NamesOf(rel).Some?
      ensures OwnEdges(rel).None?
              <==> (forall k :: k in NamesOf(rel).value ==> k !in universe)
                   && (forall t :: !Direct(rel, t))
                   && (RegistryEntry(rel).Some? ==>
                         && !IsRegistryLeaf(RegistryEntry(rel).value)
                         && RegistryNamed(rel, RegistryEntry(rel).value) == {})
    {
      hide Direct, RegistryEntry, IsRegistryLeaf;
      var read := NamesOf(rel).value * universe;
      var hits := ImportEdges(rel) + ValueEdges(rel) + KeyEdges(read - ubiquitous);
      assert hits == {} <==> forall t :: !Direct(rel, t) by {
        forall t ensures Direct(rel, t) <==> t in hits {
          DirectParts(rel, t);
        }
      }
      assert forall k :: k in read <==> k in NamesOf(rel).value && k in universe;
      assert read == read * ubiquitous + (read - ubiquitous);
      if RegistryEntry(rel).Some? && RegistryNamed(rel, RegistryEntry(rel).value) == {} {
        assert ValueEdges(rel) == {};
        assert hits == ImportEdges(rel) + KeyEdges(read - ubiquitous);
      }
    }

    /** A module that parses and declares no keys runs the whole scope exactly when it reads a ubiquitous key and no
        registry answers first. */
    lemma CoreRunsAll(rel: Path)
      requires rel !in src.scripts && rel !in src.declared && NamesOf(rel).Some?
      ensures OwnEdges(rel) == Some(Edges(None))
              <==> (exists k :: k in NamesOf(rel).value && k in universe && k in ubiquitous)
                   && !(RegistryEntry(rel).Some?
                        && (RegistryNamed(rel, RegistryEntry(rel).value) != {}
                            || IsRegistryLeaf(RegistryEntry(rel).value)))
    {
      hide RegistryEntry, IsRegistryLeaf, RegistryNamed, KeyEdges, ImportEdges, ValueEdges;
      var core := NamesOf(rel).value * universe * ubiquitous;
      assert forall k :: k in core <==> k in NamesOf(rel).value && k in universe && k in ubiquitous;
    }
  }

  // ---- a registry that answers first ----

  const PACKAGES := "src/axolotl/integrations"
  const TEST := "tests/e2e/test_a.py"

  function Package(c: char): Path {
    PACKAGES + "/" + [c]
  }

  function Initializer(c: char): Path {
    Package(c) + "/" + INIT
  }

  /** A module beside the packages. */
  function ModuleFile(c: char): Path {
    SRC_ROOT + "/" + [c] + ".py"
  }

  function RegistryFiles(): set<Path> {
    {Initializer('a'), Initializer('b'), Initializer('c'), ModuleFile('x'), ModuleFile('y'), ModuleFile('z')}
  }

  function RegistryNames(): map<Path, set<string>> {
    map f | f in RegistryFiles() :: if f == Initializer('a') then {"k"} else {}
  }

  function RegistryModules(): map<string, Path> {
    map["axolotl.integrations.a" := Initializer('a'), "axolotl.integrations.b" := Initializer('b'),
        "axolotl.integrations.c" := Initializer('c'), "axolotl.x" := ModuleFile('x'), "axolotl.y" := ModuleFile('y'),
        "axolotl.z" := ModuleFile('z')]
  }

  function RegistrySources(): Sources {
    Sources(RegistryFiles(), RegistryNames(), map f | f in RegistryFiles() :: {}, RegistryModules(), _ => None, map[],
            {}, {Package('a'), Package('b'), Package('c')}, {"k"}, (_, _) => false, (_, _) => false)
  }

  /** Three packages with entry points and three modules. The first package reads the one key, which the test sets. */
  function Registry(): Model {
    Model(map[TEST := Facts({"k"}, {}, {})], RegistrySources(), map[], {"k"}, {"k"})
  }

  /** On a tree as `build` makes it, the package's initializer reads a ubiquitous key, and still no test is reached. */
  lemma RegistryAnswersFirst()
    ensures var model, file := Registry(), Initializer('a');
            && model.Consistent() && file in model.src.files
            && model.NamesOf(file) == Some({"k"}) && "k" in model.universe * model.ubiquitous
            && model.OwnEdges(file) == SomeTests({})
  {
    var model, file, entry := Registry(), Initializer('a'), Package('a');
    RegistryConsistent();
    RegistryParts();
    hide Model.RegistryEntry, Model.RegistryNamed, Model.IsRegistryLeaf, Model.Consistent;
    hide Initializer, ModuleFile, Package;
    assert model.NamesOf(file) == Some({"k"});
    assert model.NamesOf(file).value * model.universe - model.ubiquitous == {};
    assert model.ImportEdges(file) + model.KeyEdges({}) == {};
  }

  // One file of six reads the key, and the only test sets it.

  lemma RegistryConsistent()
    ensures Registry().Consistent()
  {
    RegistryUniverse();
    RegistryUbiquitous();
    hide Model.InUniverse, Model.IsUbiquitous, RegistryNames, RegistryFiles;
  }

  lemma RegistryUniverse()
    ensures forall k :: k in Registry().universe <==> Registry().InUniverse(k)
  {
    SixFiles();
    hide Initializer, ModuleFile;
    var keys := Registry().TestKeys();
    assert keys == map[TEST := {"k"}];
    assert TEST in Having(keys, "k");
    assert Having(RegistryNames(), "k") == {Initializer('a')};
    assert RegistryNames().Keys == RegistryFiles();
    KeyCount(RegistryNames());
  }

  lemma KeyCount(names: map<Path, set<string>>)
    ensures |names| == |names.Keys|
  {
  }

  lemma RegistryUbiquitous()
    ensures forall k :: k in Registry().ubiquitous <==> Registry().IsUbiquitous(k)
  {
    var model := Registry();
    hide RegistrySources;
    assert "k" in model.testFacts[TEST].keys * model.universe;
    assert model.Configured() == map[TEST := {"k"}];
    assert Having(model.Configured(), "k") == {TEST};
  }

  function LetterOf(rel: Path): char {
    if |rel| > |PACKAGES| + 1 then rel[|PACKAGES| + 1]
    else if |rel| > |SRC_ROOT| + 1 then rel[|SRC_ROOT| + 1]
    else '.'
  }

  lemma Letters(c: char)
    ensures LetterOf(Initializer(c)) == c && LetterOf(ModuleFile(c)) == c
  {
  }

  lemma SixFiles()
    ensures |RegistryFiles()| == 6
  {
    Letters('a');
    Letters('b');
    Letters('c');
    Letters('x');
    Letters('y');
    Letters('z');
    hide LetterOf, Initializer, ModuleFile;
  }

  // The packages' directory is a registry, a package's own is not, and nothing names or imports the initializer.

  lemma RegistryParts()
    ensures var model, file, entry := Registry(), Initializer('a'), Package('a');
            && model.RegistryEntry(file) == Some(entry)
            && model.RegistryNamed(file, entry) == {} && model.IsRegistryLeaf(entry)
  {
    hide Model.IsRegistryDir;
    RegistryDir();
    NoRegistryDir();
    PathParts(PACKAGES, "a");
    PathParts(Package('a'), INIT);
  }

  lemma NoRegistryDir()
    ensures !Registry().IsRegistryDir(Package('a'))
  {
    forall rel | rel in RegistryFiles() ensures !Counts(Package('a'), rel) {
      NotCounted(rel);
    }
    hide RegistryFiles, Package, Counts;
    NoEntries(Registry(), Package('a'));
  }

  lemma NotCounted(rel: Path)
    requires rel in RegistryFiles()
    ensures !Counts(Package('a'), rel)
  {
    if Under(Package('a'), rel) {
      FirstPackage(rel);
      assert rel[|Package('a')| + 1..] == INIT;
      HeadOf(INIT, "");
      assert INIT + "" == INIT;
    }
  }

  lemma NoEntries(model: Model, directory: Path)
    requires forall rel :: rel in model.src.files ==> !Counts(directory, rel)
    ensures !model.IsRegistryDir(directory)
  {
    assert model.EntriesOf(directory, model.src.files) == {} == model.NamedOf(directory, model.src.files);
    assert (set e | e in {} && directory + "/" + e in model.src.entryPointDirs) == {};
  }

  lemma FirstPackage(rel: Path)
    requires rel in RegistryFiles() && Under(Package('a'), rel)
    ensures rel == Initializer('a')
  {
    assert rel[..|Package('a')| + 1] == Package('a') + "/";
    assert LetterOf(rel) == 'a';
    Letters('b');
    Letters('c');
    Letters('x');
    Letters('y');
    Letters('z');
    hide LetterOf, Initializer, ModuleFile;
  }

  lemma {:induction false} HeadOf(name: string, rest: string)
    requires '/' !in name && (rest == "" || rest[0] == '/')
    ensures Head(name + rest) == name
    decreases |name|
  {
    if name != "" {
      assert (name + rest)[1..] == name[1..] + rest;
      HeadOf(name[1..], rest);
    }
  }

  lemma RegistryDir()
    ensures Registry().IsRegistryDir(PACKAGES)
  {
    var model := Registry();
    InRegistry('a');
    InRegistry('b');
    InRegistry('c');
    hide Model.EntriesOf, Model.NamedOf, Registry;
    ThreePoints(model, model.EntriesOf(PACKAGES, model.src.files), model.NamedOf(PACKAGES, model.src.files));
  }

  lemma ThreePoints(model: Model, entries: set<string>, named: set<string>)
    requires forall c :: c in {'a', 'b', 'c'} ==> [c] in entries && PACKAGES + "/" + [c] in model.src.entryPointDirs
    ensures model.EnoughEntries(PACKAGES, entries, named)
  {
    var points := set e | e in entries && PACKAGES + "/" + e in model.src.entryPointDirs;
    var three := {['a'], ['b'], ['c']};
    assert forall c :: c in {'a', 'b', 'c'} ==> [c] in points;
    assert ['a'][0] == 'a' && ['b'][0] == 'b' && ['c'][0] == 'c' && |three| == 3;
    SubsetSize(three, points);
  }

  lemma InRegistry(c: char)
    requires c in {'a', 'b', 'c'}
    ensures [c] in Registry().EntriesOf(PACKAGES, Registry().src.files)
    ensures PACKAGES + "/" + [c] in Registry().src.entryPointDirs
  {
    var rel := Initializer(c);
    assert rel[|PACKAGES| + 1..] == [c] + ("/" + INIT);
    HeadOf([c], "/" + INIT);
    assert rel[..|PACKAGES| + 1] == PACKAGES + "/";
    assert Under(PACKAGES, rel) && EntryOf(PACKAGES, rel) == [c] && |INIT| > 1;
    assert rel in Registry().src.files;
  }

  lemma SubsetSize<T>(a: set<T>, b: set<T>)
    requires a <= b
    ensures |a| <= |b|
    decreases |a|
  {
    if x :| x in a {
      SubsetSize(a - {x}, b - {x});
    }
  }
}
