// The registries of cases, suites and groups while libraries come and go: the
// nested loops of load_testcase_from_lib and unload_lib.

module CaseRegistry {
  datatype TestCase = TestCase(name: string, validBoard: bv32)
  datatype Suite = Suite(name: string, tests: seq<TestCase>)
  datatype Group = Group(name: string, suites: seq<Suite>)
  type Library = seq<Group>

  /** The registries, as the sets of names they know. */
  datatype Names = Names(cases: set<string>, suites: set<string>, groups: set<string>)

  predicate OnBoard(t: TestCase, board: bv32) { t.validBoard & board != 0 }

  function CasesOfSuite(tests: seq<TestCase>, board: bv32): set<string> {
    set t | t in tests && OnBoard(t, board) :: t.name
  }

  function CasesOfGroup(suites: seq<Suite>, board: bv32): set<string> {
    set s, t | s in suites && t in s.tests && OnBoard(t, board) :: t.name
  }

  /** The cases a load registers on this board. */
  function BoardCases(lib: Library, board: bv32): set<string> {
    set g, s, t | g in lib && s in g.suites && t in s.tests && OnBoard(t, board) :: t.name
  }

  function AllOfSuite(tests: seq<TestCase>): set<string> { set t | t in tests :: t.name }

  function AllOfGroup(suites: seq<Suite>): set<string> { set s, t | s in suites && t in s.tests :: t.name }

  /** Every case name in the library, whatever its board. */
  function AllCases(lib: Library): set<string> {
    set g, s, t | g in lib && s in g.suites && t in s.tests :: t.name
  }

  function SuitesOfGroup(suites: seq<Suite>): set<string> { set s | s in suites :: s.name }

  function AllSuites(lib: Library): set<string> { set g, s | g in lib && s in g.suites :: s.name }

  function AllGroups(lib: Library): set<string> { set g | g in lib :: g.name }

  function AfterLoad(n: Names, lib: Library, board: bv32): Names {
    Names(n.cases + BoardCases(lib, board), n.suites + AllSuites(lib), n.groups + AllGroups(lib))
  }

  function AfterUnload(n: Names, lib: Library): Names {
    Names(n.cases - AllCases(lib), n.suites, n.groups - AllGroups(lib))
  }

  // One more element at a time.

  lemma NextTest(tests: seq<TestCase>, j: nat, board: bv32)
    requires j < |tests|
    ensures CasesOfSuite(tests[..j + 1], board) ==
            CasesOfSuite(tests[..j], board) + (if OnBoard(tests[j], board) then {tests[j].name} else {})
    ensures AllOfSuite(tests[..j + 1]) == AllOfSuite(tests[..j]) + {tests[j].name}
  {
    assert tests[..j + 1] == tests[..j] + [tests[j]];
  }

  lemma NextSuite(suites: seq<Suite>, i: nat, board: bv32)
    requires i < |suites|
    ensures CasesOfGroup(suites[..i + 1], board) ==
            CasesOfGroup(suites[..i], board) + CasesOfSuite(suites[i].tests, board)
    ensures AllOfGroup(suites[..i + 1]) == AllOfGroup(suites[..i]) + AllOfSuite(suites[i].tests)
    ensures SuitesOfGroup(suites[..i + 1]) == SuitesOfGroup(suites[..i]) + {suites[i].name}
  {
    assert suites[..i + 1] == suites[..i] + [suites[i]];
  }

  lemma NextGroup(lib: Library, k: nat, board: bv32)
    requires k < |lib|
    ensures BoardCases(lib[..k + 1], board) == BoardCases(lib[..k], board) + CasesOfGroup(lib[k].suites, board)
    ensures AllCases(lib[..k + 1]) == AllCases(lib[..k]) + AllOfGroup(lib[k].suites)
    ensures AllSuites(lib[..k + 1]) == AllSuites(lib[..k]) + SuitesOfGroup(lib[k].suites)
    ensures AllGroups(lib[..k + 1]) == AllGroups(lib[..k]) + {lib[k].name}
  {
    assert lib[..k + 1] == lib[..k] + [lib[k]];
  }

  lemma Assoc(a: set<string>, b: set<string>, c: set<string>)
    ensures a + b + c == a + (b + c)
  {
  }

  class Registries {
    var cases: set<string>
    var suites: set<string>
    var groups: set<string>

    function Known(): Names
      reads this
    {
      Names(cases, suites, groups)
    }

    constructor ()
      ensures Known() == Names({}, {}, {})
    {
      cases, suites, groups := {}, {}, {};
    }

    /** The registration loops of load_testcase_from_lib. */
    method Load(lib: Library, board: bv32)
      modifies this
      ensures Known() == AfterLoad(old(Known()), lib, board)
    {
      for k := 0 to |lib|
        invariant cases == old(cases) + BoardCases(lib[..k], board)
        invariant suites == old(suites) + AllSuites(lib[..k])
        invariant groups == old(groups) + AllGroups(lib[..k])
      {
        NextGroup(lib, k, board);
        Assoc(old(cases), BoardCases(lib[..k], board), CasesOfGroup(lib[k].suites, board));
        Assoc(old(suites), AllSuites(lib[..k]), SuitesOfGroup(lib[k].suites));
        Assoc(old(groups), AllGroups(lib[..k]), {lib[k].name});
        LoadGroup(lib[k], board);
      }
      assert lib[..|lib|] == lib;
    }

    method LoadGroup(group: Group, board: bv32)
      modifies this
      ensures cases == old(cases) + CasesOfGroup(group.suites, board)
      ensures suites == old(suites) + SuitesOfGroup(group.suites)
      ensures groups == old(groups) + {group.name}
    {
      groups := groups + {group.name};
      LoadSuites(group.suites, board);
    }

    method LoadSuites(all: seq<Suite>, board: bv32)
      modifies this`cases, this`suites
      ensures cases == old(cases) + CasesOfGroup(all, board)
      ensures suites == old(suites) + SuitesOfGroup(all)
    {
      for i := 0 to |all|
        invariant cases == old(cases) + CasesOfGroup(all[..i], board)
        invariant suites == old(suites) + SuitesOfGroup(all[..i])
      {
        NextSuite(all, i, board);
        suites := suites + {all[i].name};
        LoadTests(all[i].tests, board);
      }
      assert all[..|all|] == all;
    }

    method LoadTests(tests: seq<TestCase>, board: bv32)
      modifies this`cases
      ensures cases == old(cases) + CasesOfSuite(tests, board)
    {
      for j := 0 to |tests|
        invariant cases == old(cases) + CasesOfSuite(tests[..j], board)
      {
        NextTest(tests, j, board);
        if tests[j].validBoard & board != 0 {
          if tests[j].name !in cases {
            cases := cases + {tests[j].name};
          }
        }
      }
      assert tests[..|tests|] == tests;
    }

    /** The removal loops of unload_lib: cases whatever their board, and groups;
        suites are not removed. */
    method Unload(lib: Library)
      modifies this`cases, this`groups
      ensures Known() == AfterUnload(old(Known()), lib)
    {
      for k := 0 to |lib|
        invariant cases == old(cases) - AllCases(lib[..k])
        invariant groups == old(groups) - AllGroups(lib[..k])
      {
        NextGroup(lib, k, 0);
        UnloadSuites(lib[k].suites);
        groups := groups - {lib[k].name};
      }
      assert lib[..|lib|] == lib;
    }

    method UnloadSuites(all: seq<Suite>)
      modifies this`cases
      ensures cases == old(cases) - AllOfGroup(all)
    {
      for i := 0 to |all|
        invariant cases == old(cases) - AllOfGroup(all[..i])
      {
        NextSuite(all, i, 0);
        for j := 0 to |all[i].tests|
          invariant cases == old(cases) - AllOfGroup(all[..i]) - AllOfSuite(all[i].tests[..j])
        {
          NextTest(all[i].tests, j, 0);
          cases := cases - {all[i].tests[j].name};
        }
        assert all[i].tests[..|all[i].tests|] == all[i].tests;
      }
      assert all[..|all|] == all;
    }
  }

  /** What a load leaves known, name by name: a case is known exactly if it was
      before, or the library carries it with a board mask that shares a bit with this
      board; suites and groups whatever their cases. */
  lemma KnownAfterLoad(n: Names, lib: Library, board: bv32, x: string)
    ensures var m := AfterLoad(n, lib, board);
            && (x in m.cases <==>
                  x in n.cases ||
                  exists g, s, t ::
                    g in lib && s in g.suites && t in s.tests && t.name == x && t.validBoard & board != 0)
            && (x in m.suites <==> x in n.suites || exists g, s :: g in lib && s in g.suites && s.name == x)
            && (x in m.groups <==> x in n.groups || exists g :: g in lib && g.name == x)
  {
    if x in BoardCases(lib, board) {
      var g, s, t :| g in lib && s in g.suites && t in s.tests && OnBoard(t, board) && t.name == x;
      assert t.validBoard & board != 0;
    }
    if g, s, t :| g in lib && s in g.suites && t in s.tests && t.name == x && t.validBoard & board != 0 {
      assert OnBoard(t, board);
    }
  }

  /** And an unload: no name the library carries as a case, whatever its board, or as
      a group is known any more; everything else is as before. */
  lemma KnownAfterUnload(n: Names, lib: Library, x: string)
    ensures var m := AfterUnload(n, lib);
            && (x in m.cases <==>
                  x in n.cases && !exists g, s, t :: g in lib && s in g.suites && t in s.tests && t.name == x)
            && (x in m.groups <==> x in n.groups && !exists g :: g in lib && g.name == x)
            && m.suites == n.suites
  {
  }

  /** Unloading what was loaded restores each registry exactly under its own
      condition: cases and groups when the library shares no name with what was
      registered before, whatever the board and the repeats inside the library;
      suites, which are never removed, when they were all known already. */
  lemma UnloadUndoesLoadExactly(n: Names, lib: Library, board: bv32)
    ensures var m := AfterUnload(AfterLoad(n, lib, board), lib);
            && (m.cases == n.cases <==> n.cases !! AllCases(lib))
            && (m.groups == n.groups <==> n.groups !! AllGroups(lib))
            && (m.suites == n.suites <==> AllSuites(lib) <= n.suites)
  {
    var m := AfterUnload(AfterLoad(n, lib, board), lib);
    BoardCasesAreCases(lib, board);
    assert m.cases == n.cases - AllCases(lib);
    assert m.groups == n.groups - AllGroups(lib);
  }

  lemma BoardCasesAreCases(lib: Library, board: bv32)
    ensures BoardCases(lib, board) <= AllCases(lib)
  {
  }

  /** With two libraries loaded, unloading the second leaves exactly the first
      one's cases the second does not name. */
  lemma UnloadHitsSharedCases(n: Names, first: Library, second: Library, board: bv32)
    requires n.cases !! AllCases(second)
    ensures AfterUnload(AfterLoad(AfterLoad(n, first, board), second, board), second).cases
            == n.cases + (BoardCases(first, board) - AllCases(second))
  {
    BoardCasesAreCases(second, board);
  }
}
