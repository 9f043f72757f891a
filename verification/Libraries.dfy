// load_testcase_from_lib and unload_lib as wholes: when the registries hold exactly
// what the libraries still listed have put there.

module Libraries {
  import opened LibList
  import CaseRegistry

  /** What loading the library behind a handle adds to one registry of names, and
      what unloading it removes from there, whatever the open count. */
  datatype Effect = Effect(adds: Handle -> set<string>, removes: Handle -> set<string>)

  function OnCases(contents: Handle -> CaseRegistry.Library, board: bv32): Effect {
    Effect((h: Handle) => CaseRegistry.BoardCases(contents(h), board),
           (h: Handle) => CaseRegistry.AllCases(contents(h)))
  }

  function OnGroups(contents: Handle -> CaseRegistry.Library): Effect {
    Effect((h: Handle) => CaseRegistry.AllGroups(contents(h)), (h: Handle) => CaseRegistry.AllGroups(contents(h)))
  }

  function OnSuites(contents: Handle -> CaseRegistry.Library): Effect {
    Effect((h: Handle) => CaseRegistry.AllSuites(contents(h)), (h: Handle) => {})
  }

  /** The list of libraries and one registry. */
  datatype Loaded = Loaded(list: seq<Entry>, names: set<string>)

  /** The command gets as far as the registries. */
  predicate Takes(host: Host, list: seq<Entry>, c: Command) {
    c.name in host.files &&
    if c.LoadLib? then host.files[c.name] in host.withGroups else CountHandle(list, host.files[c.name]) > 0
  }

  function Step(host: Host, effect: Effect, s: Loaded, c: Command): Loaded {
    if !Takes(host, s.list, c) then s
    else
      var h := host.files[c.name];
      Loaded(Perform(host, s.list, c),
             if c.LoadLib? then s.names + effect.adds(h) else s.names - effect.removes(h))
  }

  class Loader {
    const registry: Registry
    const registries: CaseRegistry.Registries
    const contents: Handle -> CaseRegistry.Library
    const board: bv32

    constructor (registry: Registry, contents: Handle -> CaseRegistry.Library, board: bv32)
      ensures this.registry == registry && this.contents == contents && this.board == board
      ensures fresh(registries) && registries.Known() == CaseRegistry.Names({}, {}, {})
    {
      this.registry, this.contents, this.board := registry, contents, board;
      registries := new CaseRegistry.Registries();
    }

    ghost function Cases(): Loaded
      reads registry, registries
    {
      Loaded(registry.list, registries.cases)
    }

    ghost function Groups(): Loaded
      reads registry, registries
    {
      Loaded(registry.list, registries.groups)
    }

    ghost function Suites(): Loaded
      reads registry, registries
    {
      Loaded(registry.list, registries.suites)
    }

    ghost function KnownHost(): Host { Host(registry.files, registry.withGroups) }

    /** load_testcase_from_lib */
    method Load(lib: string) returns (ok: bool)
      requires registry.Valid()
      modifies registry, registries
      ensures registry.Valid() && forall n :: n in registry.spine && n !in old(registry.spine) ==> fresh(n)
      ensures ok == Takes(KnownHost(), old(registry.list), LoadLib(lib))
      ensures Cases() == Step(KnownHost(), OnCases(contents, board), old(Cases()), LoadLib(lib))
      ensures Groups() == Step(KnownHost(), OnGroups(contents), old(Groups()), LoadLib(lib))
      ensures Suites() == Step(KnownHost(), OnSuites(contents), old(Suites()), LoadLib(lib))
    {
      ok := registry.Load(lib);
      if ok {
        registries.Load(contents(registry.files[lib]), board);
      }
    }

    /** unload_lib; what it removes from the registries does not depend on the list,
        so it does not matter that the source removes from them first. */
    method Unload(lib: string) returns (ok: bool)
      requires registry.Valid()
      modifies registry, registries, registry.spine
      ensures registry.Valid() && forall n :: n in registry.spine ==> n in old(registry.spine)
      ensures ok == Takes(KnownHost(), old(registry.list), UnloadLib(lib))
      ensures Cases() == Step(KnownHost(), OnCases(contents, board), old(Cases()), UnloadLib(lib))
      ensures Groups() == Step(KnownHost(), OnGroups(contents), old(Groups()), UnloadLib(lib))
      ensures Suites() == Step(KnownHost(), OnSuites(contents), old(Suites()), UnloadLib(lib))
    {
      ok := registry.Unload(lib);
      if ok {
        registries.Unload(contents(registry.files[lib]));
      }
    }
  }

  // ------------------------------------------------ the registry and the list

  /** Everything the listed libraries have put into the registry. */
  function Listed(effect: Effect, list: seq<Entry>): set<string> {
    if list == [] then {} else effect.adds(list[0].handle) + Listed(effect, list[1..])
  }

  /** The registry holds exactly that, beside what stood there before. */
  predicate InSync(effect: Effect, base: set<string>, s: Loaded) {
    s.names == base + Listed(effect, s.list)
  }

  /** An unload names nothing that something else still accounts for, another copy of
      the same library included, and leaves nothing of its own. */
  predicate Clean(host: Host, effect: Effect, base: set<string>, list: seq<Entry>, c: Command) {
    c.UnloadLib? && Takes(host, list, c) ==>
      var h := host.files[c.name];
      var others := base + Listed(effect, WithoutFirst(list, h));
      others !! effect.removes(h) && effect.adds(h) <= others + effect.removes(h)
  }

  lemma {:induction false} ListedWithout(effect: Effect, list: seq<Entry>, h: Handle)
    requires CountHandle(list, h) > 0
    ensures Listed(effect, list) == effect.adds(h) + Listed(effect, WithoutFirst(list, h))
  {
    if list[0].handle != h {
      ListedWithout(effect, list[1..], h);
      var rest := WithoutFirst(list[1..], h);
      assert WithoutFirst(list, h)[1..] == rest;
    }
  }

  lemma TakenBack(others: set<string>, adds: set<string>, removes: set<string>)
    ensures others + adds - removes == others <==> others !! removes && adds <= others + removes
  {
    if others + adds - removes == others {
      forall x | x in adds
        ensures x in others + removes
      {
        assert x in removes || x in others + adds - removes;
      }
    }
  }

  lemma StepInSync(host: Host, effect: Effect, base: set<string>, s: Loaded, c: Command)
    requires InSync(effect, base, s)
    ensures InSync(effect, base, Step(host, effect, s, c)) <==> Clean(host, effect, base, s.list, c)
  {
    if Takes(host, s.list, c) {
      var h := host.files[c.name];
      if c.LoadLib? {
        assert Perform(host, s.list, c)[1..] == s.list;
      } else {
        ListedWithout(effect, s.list, h);
        var others := base + Listed(effect, WithoutFirst(s.list, h));
        assert s.names == others + effect.adds(h);
        TakenBack(others, effect.adds(h), effect.removes(h));
      }
    }
  }

  ghost predicate AlwaysInSync(host: Host, effect: Effect, base: set<string>, s: Loaded, cs: seq<Command>)
    decreases |cs|
  {
    InSync(effect, base, s) && (cs == [] || AlwaysInSync(host, effect, base, Step(host, effect, s, cs[0]), cs[1..]))
  }

  /** Read off the list alone, ahead of each unload. */
  ghost predicate AlwaysClean(host: Host, effect: Effect, base: set<string>, list: seq<Entry>, cs: seq<Command>)
    decreases |cs|
  {
    cs == [] ||
    (Clean(host, effect, base, list, cs[0]) && AlwaysClean(host, effect, base, Perform(host, list, cs[0]), cs[1..]))
  }

  /** Over every sequence of loads and unloads the registry follows the list of
      libraries throughout if and only if every unload is clean. */
  lemma {:induction false} InSyncExactlyWhenClean(host: Host, effect: Effect, base: set<string>, s: Loaded,
                                                  cs: seq<Command>)
    requires InSync(effect, base, s)
    ensures AlwaysInSync(host, effect, base, s, cs) <==> AlwaysClean(host, effect, base, s.list, cs)
    decreases |cs|
  {
    if cs != [] {
      StepInSync(host, effect, base, s, cs[0]);
      var s' := Step(host, effect, s, cs[0]);
      assert s'.list == Perform(host, s.list, cs[0]);
      if InSync(effect, base, s') {
        InSyncExactlyWhenClean(host, effect, base, s', cs[1..]);
      }
    }
  }

  // ----------------------------------------------------------- the three registries

  lemma CasesCome(lib: CaseRegistry.Library, board: bv32)
    ensures CaseRegistry.BoardCases(lib, board) <= CaseRegistry.AllCases(lib)
  {
  }

  lemma {:induction false} ListedAre(effect: Effect, list: seq<Entry>, x: string)
    ensures x in Listed(effect, list) <==> exists i :: 0 <= i < |list| && x in effect.adds(list[i].handle)
  {
    if list != [] {
      ListedAre(effect, list[1..], x);
      if i :| 0 <= i < |list| && x in effect.adds(list[i].handle) {
        assert i > 0 ==> x in effect.adds(list[1..][i - 1].handle);
      }
      if x in Listed(effect, list[1..]) {
        var i :| 0 <= i < |list[1..]| && x in effect.adds(list[1..][i].handle);
        assert x in effect.adds(list[i + 1].handle);
      }
    }
  }

  /** Libraries of different handles share no name, with each other or with base. */
  ghost predicate Separate(effect: Effect, base: set<string>) {
    && (forall h: Handle :: effect.adds(h) <= effect.removes(h) && effect.removes(h) !! base)
    && (forall h: Handle, k: Handle :: h != k ==> effect.removes(h) !! effect.removes(k))
  }

  lemma SharedWithItself(effect: Effect, base: set<string>, list: seq<Entry>, h: Handle, x: string)
    requires Separate(effect, base) && x in Listed(effect, list) && x in effect.removes(h)
    ensures CountHandle(list, h) > 0 && x in effect.adds(h)
  {
    ListedAre(effect, list, x);
    var i :| 0 <= i < |list| && x in effect.adds(list[i].handle);
    assert x in effect.removes(list[i].handle);
    CountAt(list, i);
  }

  /** With libraries that share nothing, an unload is clean if and only if the
      library is listed once, or has put nothing into the registry. */
  lemma CleanWhenListedOnce(host: Host, effect: Effect, base: set<string>, list: seq<Entry>, name: string)
    requires Separate(effect, base) && Takes(host, list, UnloadLib(name))
    ensures var h := host.files[name];
            Clean(host, effect, base, list, UnloadLib(name)) <==> CountHandle(list, h) == 1 || effect.adds(h) == {}
  {
    var h := host.files[name];
    var rest := WithoutFirst(list, h);
    RemovedCounts(list, h);
    if CountHandle(rest, h) > 0 {
      ListedWithout(effect, rest, h);
    }
    forall x | x in Listed(effect, rest) && x in effect.removes(h)
      ensures CountHandle(rest, h) > 0 && x in effect.adds(h)
    {
      SharedWithItself(effect, base, rest, h, x);
    }
  }

  /** Both the cases and the groups of libraries without common names are such. */
  lemma SeparateLibraries(contents: Handle -> CaseRegistry.Library, board: bv32, base: set<string>)
    ensures (forall h: Handle :: CaseRegistry.AllCases(contents(h)) !! base)
            && (forall h: Handle, k: Handle :: h != k ==>
                  CaseRegistry.AllCases(contents(h)) !! CaseRegistry.AllCases(contents(k)))
            <==> Separate(OnCases(contents, board), base)
    ensures (forall h: Handle :: CaseRegistry.AllGroups(contents(h)) !! base)
            && (forall h: Handle, k: Handle :: h != k ==>
                  CaseRegistry.AllGroups(contents(h)) !! CaseRegistry.AllGroups(contents(k)))
            <==> Separate(OnGroups(contents), base)
  {
    var cases, groups := OnCases(contents, board), OnGroups(contents);
    forall h: Handle
      ensures cases.adds(h) <= cases.removes(h) && cases.removes(h) == CaseRegistry.AllCases(contents(h))
      ensures groups.adds(h) == groups.removes(h) == CaseRegistry.AllGroups(contents(h))
    {
      CasesCome(contents(h), board);
    }
  }

  lemma {:induction false} CountAt(list: seq<Entry>, i: nat)
    requires i < |list|
    ensures CountHandle(list, list[i].handle) > 0
  {
    if i > 0 {
      CountAt(list[1..], i - 1);
    }
  }

  /** Loading a library twice and unloading it once leaves it listed, open, and
      without a single case. */
  lemma SecondCopyLosesItsCases(host: Host, contents: Handle -> CaseRegistry.Library, board: bv32, name: string)
    requires name in host.files && host.files[name] in host.withGroups
    ensures var effect := OnCases(contents, board);
            var once := Step(host, effect, Loaded([], {}), LoadLib(name));
            var s := Step(host, effect, Step(host, effect, once, LoadLib(name)), UnloadLib(name));
            s.list == once.list == [Entry(name, host.files[name])] && s.names == {}
  {
    var h := host.files[name];
    CasesCome(contents(h), board);
    assert [Entry(name, h)] + [] == [Entry(name, h)];
    assert ([Entry(name, h)] + [Entry(name, h)])[1..] == [Entry(name, h)];
  }

  /** Suites: an unload is clean exactly if others still account for all of the
      library's suites, since none is ever removed. */
  lemma CleanForSuites(host: Host, contents: Handle -> CaseRegistry.Library, base: set<string>, list: seq<Entry>,
                       name: string)
    requires Takes(host, list, UnloadLib(name))
    ensures var h := host.files[name];
            Clean(host, OnSuites(contents), base, list, UnloadLib(name)) <==>
            CaseRegistry.AllSuites(contents(h)) <= base + Listed(OnSuites(contents), WithoutFirst(list, h))
  {
  }
}
