// Printing a tree of groups, suites, descriptions and test entries and parsing
// the file again makes exactly the tree's calls.

module GroupFileRoundTrip {
  import opened Optional
  import opened Rescan
  import opened GroupFile

  datatype Item = Descr(text: string) | Entry(args: seq<string>) | Exec(text: string)
  datatype SuiteTree = SuiteTree(name: string, items: seq<Item>)
  datatype GroupTree = GroupTree(name: string, suites: seq<SuiteTree>)

  // ----------------------------------------------------- printing, and the calls

  function Spaced(args: seq<string>): string {
    if args == [] then "" else if |args| == 1 then args[0] else args[0] + " " + Spaced(args[1..])
  }

  function ItemLine(item: Item): string {
    match item
    case Descr(text) => "DESCR(" + text + ")"
    case Entry(args) => "TC(" + Spaced(args) + ")"
    case Exec(text) => "EXEC(" + text + ")"
  }

  function ItemLines(items: seq<Item>): seq<string> {
    if items == [] then [] else [ItemLine(items[0])] + ItemLines(items[1..])
  }

  function SuiteText(suite: SuiteTree): seq<string> {
    ["SUITE(" + suite.name + ")"] + ItemLines(suite.items) + ["END_SUITE"]
  }

  function SuiteLines(suites: seq<SuiteTree>): seq<string> {
    if suites == [] then [] else SuiteText(suites[0]) + SuiteLines(suites[1..])
  }

  function GroupText(group: GroupTree): seq<string> {
    ["GROUP(" + group.name + ")"] + SuiteLines(group.suites) + ["END_GROUP"]
  }

  function GroupLines(groups: seq<GroupTree>): seq<string> {
    if groups == [] then [] else GroupText(groups[0]) + GroupLines(groups[1..])
  }

  /** The call an item makes: an entry whose case is not registered makes none. */
  function ItemCall(known: set<string>, item: Item): seq<Event> {
    match item
    case Descr(text) => [Describe(text)]
    case Entry(args) => if args != [] && args[0] in known then [AddTest(args)] else []
    case Exec(text) => [Execute(text)]
  }

  function ItemCalls(known: set<string>, items: seq<Item>): seq<Event> {
    if items == [] then [] else ItemCall(known, items[0]) + ItemCalls(known, items[1..])
  }

  function SuiteCalls(known: set<string>, suites: seq<SuiteTree>): seq<Event> {
    if suites == [] then []
    else [AddSuite(suites[0].name), Attach(Some(suites[0].name))]
         + ItemCalls(known, suites[0].items) + SuiteCalls(known, suites[1..])
  }

  function GroupCalls(known: set<string>, groups: seq<GroupTree>): seq<Event> {
    if groups == [] then []
    else [AddGroup(groups[0].name)] + SuiteCalls(known, groups[0].suites) + GroupCalls(known, groups[1..])
  }

  // ------------------------------------------------------ what can be printed

  predicate GoodToken(token: string) {
    token != "" && ' ' !in token && '\n' !in token && Find(token, "DESCR(").None?
  }

  predicate GoodItem(item: Item) {
    match item
    case Descr(text) => '\n' !in text
    case Entry(args) => 0 < |args| < 32 && forall k :: 0 <= k < |args| ==> GoodToken(args[k])
    case Exec(text) => '\n' !in text && Find(text, "DESCR(").None? && Find(text, "TC(").None?
  }

  predicate GoodSuite(suite: SuiteTree) {
    suite.name != "" && '\n' !in suite.name && forall k :: 0 <= k < |suite.items| ==> GoodItem(suite.items[k])
  }

  predicate GoodGroup(group: GroupTree) {
    group.name != "" && '\n' !in group.name && forall k :: 0 <= k < |group.suites| ==> GoodSuite(group.suites[k])
  }

  /** The registered cases are the known ones, which reading a group file does not
      change. */
  ghost predicate KnowsExactly(db: Db, known: set<string>) {
    forall trace, name :: db.knows(trace, name) <==> name in known
  }

  /** And suites can be added to their groups. */
  ghost predicate Serves(db: Db, known: set<string>) {
    KnowsExactly(db, known) && forall trace :: db.attaches(trace)
  }

  // ------------------------------------------------------- reading one line

  lemma StripsNewline(line: string)
    ensures Strip(line + "\n") == line
  {
  }

  lemma LastParenthesisCloses(text: string)
    ensures BeforeLast(text + ")", ')') == Some(text)
  {
    assert (text + ")")[..|text|] == text;
  }

  /** A keyword line gives back its text, whatever the text contains. */
  lemma KeywordLine(keyword: string, text: string)
    requires keyword != ""
    ensures ArgumentOf(keyword + text + ")", keyword) == Text(text)
  {
    var line := keyword + text + ")";
    assert line[0..|keyword|] == keyword;
    assert FirstAt(line, keyword, 0);
    FirstIsUnique(line, keyword, 0, Find(line, keyword).value);
    assert line[0 + |keyword|..] == text + ")";
    LastParenthesisCloses(text);
  }

  lemma LacksChar(line: string, keyword: string, c: char)
    requires c in keyword && c !in line
    ensures Find(line, keyword).None? && ArgumentOf(line, keyword) == Absent
  {
    var k :| 0 <= k < |keyword| && keyword[k] == c;
    forall i
      ensures !At(line, keyword, i)
    {
      if 0 <= i && i + |keyword| <= |line| {
        assert line[i..i + |keyword|][k] == line[i + k] != c;
      }
    }
  }

  // An occurrence of p does not reach across a character p lacks.
  lemma NotAcross(a: string, c: char, b: string, p: string)
    requires c !in p && p != "" && !Contains(a, p) && !Contains(b, p)
    ensures !Contains(a + [c] + b, p)
  {
    var s := a + [c] + b;
    forall i
      ensures !At(s, p, i)
    {
      if 0 <= i && i + |p| <= |s| {
        if i + |p| <= |a| {
          assert s[i..i + |p|] == a[i..i + |p|];
          assert !At(a, p, i);
        } else if i > |a| {
          assert s[i..i + |p|] == b[i - |a| - 1..i - |a| - 1 + |p|];
          assert !At(b, p, i - |a| - 1);
        } else {
          assert s[i..i + |p|][|a| - i] == c;
        }
      }
    }
  }

  lemma {:induction false} SpacedLacks(args: seq<string>, p: string)
    requires p != "" && ' ' !in p && forall k :: 0 <= k < |args| ==> !Contains(args[k], p)
    ensures !Contains(Spaced(args), p)
  {
    if args == [] {
    } else if |args| > 1 {
      SpacedLacks(args[1..], p);
      NotAcross(args[0], ' ', Spaced(args[1..]), p);
      assert Spaced(args) == args[0] + [' '] + Spaced(args[1..]);
    }
  }

  // A line in another keyword's parentheses, with tokens that lack keyword p.
  lemma SpacedIsNo(a: string, args: seq<string>, p: string)
    requires p != "" && p[0] !in a && ')' !in p && ' ' !in p
    requires forall k :: 0 <= k < |args| ==> !Contains(args[k], p)
    ensures ArgumentOf(a + Spaced(args) + ")", p) == Absent
  {
    SpacedLacks(args, p);
    WrappedLacks(a, Spaced(args), p);
  }

  lemma UnlikeKeywords(a: string, p: string)
    requires a == "TC(" && p == "DESCR("
    ensures p != "" && p[0] !in a && ')' !in p && ' ' !in p
  {
  }

  lemma EntryIsNoDescription(args: seq<string>)
    requires forall k :: 0 <= k < |args| ==> GoodToken(args[k])
    ensures ArgumentOf("TC(" + Spaced(args) + ")", "DESCR(") == Absent
  {
    var a, p := "TC(", "DESCR(";
    UnlikeKeywords(a, p);
    forall k | 0 <= k < |args|
      ensures !Contains(args[k], p)
    {
      assert GoodToken(args[k]);
    }
    SpacedIsNo(a, args, p);
  }

  lemma WrappedLacks(a: string, body: string, p: string)
    requires p != "" && p[0] !in a && ')' !in p && !Contains(body, p)
    ensures ArgumentOf(a + body + ")", p) == Absent
  {
    NotAcross(body, ')', "", p);
    assert body + [')'] + "" == body + ")";
    NotBefore(a, body + ")", p);
    assert a + (body + ")") == a + body + ")";
  }

  // An occurrence of p does not start in a prefix without p's first character.
  lemma NotBefore(a: string, b: string, p: string)
    requires p != "" && p[0] !in a && !Contains(b, p)
    ensures !Contains(a + b, p)
  {
    var s := a + b;
    forall i
      ensures !At(s, p, i)
    {
      if 0 <= i < |a| && i + |p| <= |s| {
        assert s[i..i + |p|][0] == a[i] != p[0];
      } else if |a| <= i {
        AtDrop(s, p, |a|, i - |a|);
        assert s[|a|..] == b;
      }
    }
  }

  lemma {:induction false} TokensOfSpaced(args: seq<string>)
    requires forall k :: 0 <= k < |args| ==> GoodToken(args[k])
    ensures Tokens(Spaced(args)) == args
  {
    if args != [] {
      if |args| == 1 {
        WordEnds(args[0], "");
        assert args[0] + "" == args[0] == Spaced(args) && [args[0]] == args;
      } else {
        TokensOfSpaced(args[1..]);
        FirstOfTokens(args[0], Spaced(args[1..]));
        assert args == [args[0]] + args[1..];
      }
    }
  }

  lemma FirstOfTokens(w: string, rest: string)
    requires w != "" && ' ' !in w
    ensures Tokens(w + " " + rest) == [w] + Tokens(rest)
  {
    var s, tail := w + " " + rest, " " + rest;
    assert s == w + tail;
    WordEnds(w, tail);
    assert s[..|w|] == w && s[|w|..] == tail && tail[1..] == rest;
  }

  lemma {:induction false} WordEnds(w: string, rest: string)
    requires ' ' !in w && (rest == "" || rest[0] == ' ')
    ensures WordLength(w + rest) == |w|
  {
    if w == "" {
      assert w + rest == rest;
    } else {
      assert (w + rest)[1..] == w[1..] + rest;
      WordEnds(w[1..], rest);
    }
  }

  // ------------------------------------------------------ reading the printed

  function Raw(lines: seq<string>): seq<string> {
    if lines == [] then [] else [lines[0] + "\n"] + Raw(lines[1..])
  }

  lemma {:induction false} RawConcat(a: seq<string>, b: seq<string>)
    ensures Raw(a + b) == Raw(a) + Raw(b)
  {
    if a == [] {
      assert a + b == b;
    } else {
      assert (a + b)[1..] == a[1..] + b;
      RawConcat(a[1..], b);
    }
  }

  lemma {:induction false} FlatConcat(db: Db, mode: Mode, trace: seq<Event>, a: seq<string>, b: seq<string>)
    ensures var (mode', trace') := Flat(db, mode, trace, a);
            Flat(db, mode, trace, a + b) == Flat(db, mode', trace', b)
    decreases |a|
  {
    if a == [] {
      assert a + b == b;
    } else {
      assert (a + b)[1..] == a[1..] + b;
      var (mode', trace') := Step(db, mode, trace, a[0]);
      FlatConcat(db, mode', trace', a[1..], b);
    }
  }

  lemma Then(db: Db, m0: Mode, t0: seq<Event>, a: seq<string>, m1: Mode, t1: seq<Event>, b: seq<string>)
    requires Flat(db, m0, t0, Raw(a)) == (m1, t1)
    ensures Flat(db, m0, t0, Raw(a + b)) == Flat(db, m1, t1, Raw(b))
  {
    RawConcat(a, b);
    FlatConcat(db, m0, t0, Raw(a), Raw(b));
  }

  // Sequence bookkeeping, kept apart from the readings.

  lemma NothingAdded(trace: seq<Event>, calls: seq<Event>)
    requires calls == []
    ensures trace + calls == trace
  {
  }

  lemma UnknownCallsNothing(known: set<string>, trace: seq<Event>, item: Item)
    ensures item.Entry? && item.args != [] && item.args[0] !in known ==> trace + ItemCall(known, item) == trace
  {
  }

  lemma FirstItemCalls(known: set<string>, trace: seq<Event>, items: seq<Item>)
    requires items != []
    ensures trace + ItemCalls(known, items) == trace + ItemCall(known, items[0]) + ItemCalls(known, items[1..])
  {
  }

  lemma FirstSuiteCalls(known: set<string>, trace: seq<Event>, suites: seq<SuiteTree>)
    requires suites != []
    ensures var s := suites[0];
            trace + SuiteCalls(known, suites)
            == trace + [AddSuite(s.name), Attach(Some(s.name))] + ItemCalls(known, s.items)
               + SuiteCalls(known, suites[1..])
  {
  }

  lemma FirstGroupCalls(known: set<string>, trace: seq<Event>, groups: seq<GroupTree>)
    requires groups != []
    ensures trace + GroupCalls(known, groups)
            == trace + [AddGroup(groups[0].name)] + SuiteCalls(known, groups[0].suites)
               + GroupCalls(known, groups[1..])
  {
  }

  lemma OneLine(db: Db, mode: Mode, trace: seq<Event>, line: string)
    requires |line| > 0 && line[0] != '#'
    ensures Flat(db, mode, trace, Raw([line])) == Read(db, mode, trace, line)
  {
    assert Raw([line]) == [line + "\n"];
    StripsNewline(line);
    FlatCons(db, mode, trace, line + "\n", []);
    assert [line + "\n"] + [] == [line + "\n"];
  }

  lemma ReadItem(db: Db, known: set<string>, suite: Option<string>, trace: seq<Event>, item: Item)
    requires KnowsExactly(db, known) && GoodItem(item)
    ensures Flat(db, InSuite(suite), trace, Raw([ItemLine(item)])) == (InSuite(suite), trace + ItemCall(known, item))
  {
    OneLine(db, InSuite(suite), trace, ItemLine(item));
    UnknownCallsNothing(known, trace, item);
    match item
    case Descr(text) => KeywordLine("DESCR(", text);
    case Entry(args) =>
      EntryIsNoDescription(args);
      KeywordLine("TC(", Spaced(args));
      TokensOfSpaced(args);
    case Exec(text) =>
      ExecIsNoOther(text);
      KeywordLine("EXEC(", text);
  }

  lemma ExecIsNoOther(text: string)
    requires Find(text, "DESCR(").None? && Find(text, "TC(").None?
    ensures ArgumentOf("EXEC(" + text + ")", "DESCR(") == Absent
    ensures ArgumentOf("EXEC(" + text + ")", "TC(") == Absent
  {
    var a, d, t := "EXEC(", "DESCR(", "TC(";
    WrappedLacks(a, text, d);
    WrappedLacks(a, text, t);
  }

  lemma {:induction false} ReadItems(db: Db, known: set<string>, suite: Option<string>, trace: seq<Event>,
                                     items: seq<Item>)
    requires KnowsExactly(db, known) && forall k :: 0 <= k < |items| ==> GoodItem(items[k])
    ensures Flat(db, InSuite(suite), trace, Raw(ItemLines(items))) == (InSuite(suite), trace + ItemCalls(known, items))
    decreases |items|
  {
    if items == [] {
      NothingAdded(trace, ItemCalls(known, items));
    } else {
      var t := trace + ItemCall(known, items[0]);
      ReadItem(db, known, suite, trace, items[0]);
      Then(db, InSuite(suite), trace, [ItemLine(items[0])], InSuite(suite), t, ItemLines(items[1..]));
      ReadItems(db, known, suite, t, items[1..]);
      FirstItemCalls(known, trace, items);
    }
  }

  lemma EndSuite(db: Db, suite: Option<string>, trace: seq<Event>)
    ensures Flat(db, InSuite(suite), trace, Raw(["END_SUITE"])) == (InGroup(suite), trace)
  {
    OneLine(db, InSuite(suite), trace, "END_SUITE");
    EndSuiteLine(db, suite, trace);
  }

  lemma EndSuiteLine(db: Db, suite: Option<string>, trace: seq<Event>)
    ensures StepSuite(db, "END_SUITE", suite, trace) == (InGroup(suite), trace)
  {
    var line := "END_SUITE";
    LacksChar(line, "DESCR(", '(');
    LacksChar(line, "TC(", '(');
    LacksChar(line, "EXEC(", '(');
    Itself(line);
  }

  lemma Itself(line: string)
    ensures Find(line, line).Some?
  {
    assert line[0..|line|] == line;
    assert At(line, line, 0);
  }

  lemma EndGroup(db: Db, suite: Option<string>, trace: seq<Event>)
    ensures Flat(db, InGroup(suite), trace, Raw(["END_GROUP"])) == (Top, trace)
  {
    OneLine(db, InGroup(suite), trace, "END_GROUP");
    EndGroupLine(db, suite, trace);
  }

  lemma EndGroupLine(db: Db, suite: Option<string>, trace: seq<Event>)
    ensures StepGroup(db, "END_GROUP", suite, trace) == (Top, trace)
  {
    LacksChar("END_GROUP", "SUITE(", '(');
    Itself("END_GROUP");
  }

  /** The suite remembered after a run of suites. */
  function LastSuite(before: Option<string>, suites: seq<SuiteTree>): Option<string> {
    if suites == [] then before else Some(suites[|suites| - 1].name)
  }

  lemma OpenSuite(db: Db, known: set<string>, before: Option<string>, trace: seq<Event>, name: string)
    requires Serves(db, known) && name != ""
    ensures Flat(db, InGroup(before), trace, Raw(["SUITE(" + name + ")"]))
            == (InSuite(Some(name)), trace + [AddSuite(name), Attach(Some(name))])
  {
    OneLine(db, InGroup(before), trace, "SUITE(" + name + ")");
    KeywordLine("SUITE(", name);
    assert trace + [AddSuite(name)] + [Attach(Some(name))] == trace + [AddSuite(name), Attach(Some(name))];
  }

  lemma ReadSuite(db: Db, known: set<string>, before: Option<string>, trace: seq<Event>, suite: SuiteTree)
    requires Serves(db, known) && GoodSuite(suite)
    ensures Flat(db, InGroup(before), trace, Raw(SuiteText(suite)))
            == (InGroup(Some(suite.name)),
                trace + [AddSuite(suite.name), Attach(Some(suite.name))] + ItemCalls(known, suite.items))
  {
    var now, opening, items := Some(suite.name), ["SUITE(" + suite.name + ")"], ItemLines(suite.items);
    var t := trace + [AddSuite(suite.name), Attach(now)];
    OpenSuite(db, known, before, trace, suite.name);
    Then(db, InGroup(before), trace, opening, InSuite(now), t, items);
    ReadItems(db, known, now, t, suite.items);
    Then(db, InGroup(before), trace, opening + items, InSuite(now), t + ItemCalls(known, suite.items), ["END_SUITE"]);
    EndSuite(db, now, t + ItemCalls(known, suite.items));
  }

  lemma {:induction false} ReadSuites(db: Db, known: set<string>, before: Option<string>, trace: seq<Event>,
                                      suites: seq<SuiteTree>)
    requires Serves(db, known) && forall k :: 0 <= k < |suites| ==> GoodSuite(suites[k])
    ensures Flat(db, InGroup(before), trace, Raw(SuiteLines(suites)))
            == (InGroup(LastSuite(before, suites)), trace + SuiteCalls(known, suites))
    decreases |suites|
  {
    if suites == [] {
      NothingAdded(trace, SuiteCalls(known, suites));
    } else {
      var s, now := suites[0], Some(suites[0].name);
      var t := trace + [AddSuite(s.name), Attach(now)] + ItemCalls(known, s.items);
      ReadSuite(db, known, before, trace, s);
      Then(db, InGroup(before), trace, SuiteText(s), InGroup(now), t, SuiteLines(suites[1..]));
      ReadSuites(db, known, now, t, suites[1..]);
      FirstSuiteCalls(known, trace, suites);
      LastOfRest(before, suites);
    }
  }

  lemma LastOfRest(before: Option<string>, suites: seq<SuiteTree>)
    requires suites != []
    ensures LastSuite(before, suites) == LastSuite(Some(suites[0].name), suites[1..])
  {
  }

  lemma OpenGroup(db: Db, trace: seq<Event>, name: string)
    requires name != ""
    ensures Flat(db, Top, trace, Raw(["GROUP(" + name + ")"])) == (InGroup(None), trace + [AddGroup(name)])
  {
    OneLine(db, Top, trace, "GROUP(" + name + ")");
    KeywordLine("GROUP(", name);
  }

  lemma ReadGroup(db: Db, known: set<string>, trace: seq<Event>, group: GroupTree)
    requires Serves(db, known) && GoodGroup(group)
    ensures Flat(db, Top, trace, Raw(GroupText(group)))
            == (Top, trace + [AddGroup(group.name)] + SuiteCalls(known, group.suites))
  {
    var opening, suites := ["GROUP(" + group.name + ")"], SuiteLines(group.suites);
    var last := LastSuite(None, group.suites);
    var t := trace + [AddGroup(group.name)];
    OpenGroup(db, trace, group.name);
    Then(db, Top, trace, opening, InGroup(None), t, suites);
    ReadSuites(db, known, None, t, group.suites);
    Then(db, Top, trace, opening + suites, InGroup(last), t + SuiteCalls(known, group.suites), ["END_GROUP"]);
    EndGroup(db, last, t + SuiteCalls(known, group.suites));
  }

  lemma {:induction false} ReadGroups(db: Db, known: set<string>, trace: seq<Event>, groups: seq<GroupTree>)
    requires Serves(db, known) && forall k :: 0 <= k < |groups| ==> GoodGroup(groups[k])
    ensures Flat(db, Top, trace, Raw(GroupLines(groups))) == (Top, trace + GroupCalls(known, groups))
    decreases |groups|
  {
    if groups == [] {
      NothingAdded(trace, GroupCalls(known, groups));
    } else {
      var g := groups[0];
      var t := trace + [AddGroup(g.name)] + SuiteCalls(known, g.suites);
      ReadGroup(db, known, trace, g);
      Then(db, Top, trace, GroupText(g), Top, t, GroupLines(groups[1..]));
      ReadGroups(db, known, t, groups[1..]);
      FirstGroupCalls(known, trace, groups);
    }
  }

  // --------------------------------------------- comments, blank lines, the file

  function WithoutNoise(lines: seq<string>): seq<string> {
    if lines == [] then []
    else if |lines[0]| <= 1 || lines[0][0] == '#' then WithoutNoise(lines[1..])
    else [lines[0]] + WithoutNoise(lines[1..])
  }

  lemma {:induction false} NoiseIsSkipped(db: Db, mode: Mode, trace: seq<Event>, lines: seq<string>)
    ensures Flat(db, mode, trace, lines) == Flat(db, mode, trace, WithoutNoise(lines))
    decreases |lines|
  {
    if lines != [] {
      var (mode', trace') := Step(db, mode, trace, lines[0]);
      NoiseIsSkipped(db, mode', trace', lines[1..]);
      if !Noise(lines[0]) {
        FlatCons(db, mode, trace, lines[0], WithoutNoise(lines[1..]));
      }
    }
  }

  /** A whole line that fits the buffer beside its terminator. */
  predicate WholeLine(line: string, size: nat) {
    0 < |line| < size && line[|line| - 1] == '\n' && '\n' !in line[..|line| - 1]
  }

  function Flatten(lines: seq<string>): string {
    if lines == [] then "" else lines[0] + Flatten(lines[1..])
  }

  lemma {:induction false} LineLengthIs(line: string, rest: string, size: nat)
    requires size > 1 && WholeLine(line, size)
    ensures LineLength(line + rest, size) == |line|
    decreases |line|
  {
    if |line| > 1 {
      assert line[0] == line[..|line| - 1][0];
      assert (line + rest)[1..] == line[1..] + rest;
      assert line[1..][..|line[1..]| - 1] == line[..|line| - 1][1..];
      LineLengthIs(line[1..], rest, size - 1);
    }
  }

  /** fgets gives back the lines a file was written from. */
  lemma {:induction false} LinesOfFlatten(lines: seq<string>, size: nat)
    requires size > 1 && forall k :: 0 <= k < |lines| ==> WholeLine(lines[k], size)
    ensures Lines(Flatten(lines), size) == lines
    decreases |lines|
  {
    if lines != [] {
      var text := Flatten(lines);
      LineLengthIs(lines[0], Flatten(lines[1..]), size);
      assert text[..|lines[0]|] == lines[0] && text[|lines[0]|..] == Flatten(lines[1..]);
      LinesOfFlatten(lines[1..], size);
    }
  }

  /** And whatever the text, nothing of it is lost between the reads. */
  lemma {:induction false} LinesAreTheText(text: string, size: nat)
    requires size > 1
    ensures Flatten(Lines(text, size)) == text
    decreases |text|
  {
    if text != [] {
      LinesAreTheText(text[LineLength(text, size)..], size);
    }
  }

  /** The round trip: a file that is the printed tree with comment and blank lines
      anywhere in between, every line within the buffer, makes exactly the tree's
      calls and ends at the top level. */
  lemma RoundTrip(db: Db, known: set<string>, groups: seq<GroupTree>, lines: seq<string>, size: nat)
    requires Serves(db, known) && forall k :: 0 <= k < |groups| ==> GoodGroup(groups[k])
    requires size > 1 && forall k :: 0 <= k < |lines| ==> WholeLine(lines[k], size)
    requires WithoutNoise(lines) == Raw(GroupLines(groups))
    ensures Flat(db, Top, [], Lines(Flatten(lines), size)) == (Top, GroupCalls(known, groups))
  {
    LinesOfFlatten(lines, size);
    NoiseIsSkipped(db, Top, [], lines);
    ReadGroups(db, known, [], groups);
    assert [] + GroupCalls(known, groups) == GroupCalls(known, groups);
  }

  /** add_group_from_file on such a file: the databases see the tree's calls, in
      order, and nothing else. */
  method ReadBack(db: Db, ghost known: set<string>, ghost groups: seq<GroupTree>, lines: seq<string>, size: nat)
    returns (calls: seq<Event>, faulted: bool)
    requires Serves(db, known) && forall k :: 0 <= k < |groups| ==> GoodGroup(groups[k])
    requires size > 1 && forall k :: 0 <= k < |lines| ==> WholeLine(lines[k], size)
    requires WithoutNoise(lines) == Raw(GroupLines(groups))
    ensures calls == GroupCalls(known, groups) && !faulted
  {
    RoundTrip(db, known, groups, lines, size);
    var parser := new Parser(db, Flatten(lines), size);
    parser.AddGroupFromFile();
    return parser.trace, parser.faulted;
  }

  /** With every case of a suite registered nothing is dropped: one call for each
      item, in order, with its text or all its tokens. */
  lemma {:induction false} NothingIsDropped(known: set<string>, items: seq<Item>)
    requires forall k :: 0 <= k < |items| && items[k].Entry? ==> items[k].args != [] && items[k].args[0] in known
    ensures |ItemCalls(known, items)| == |items|
    ensures forall k :: 0 <= k < |items| ==>
              ItemCalls(known, items)[k] == match items[k]
                                            case Descr(text) => Describe(text)
                                            case Entry(args) => AddTest(args)
                                            case Exec(text) => Execute(text)
  {
    if items != [] {
      NothingIsDropped(known, items[1..]);
    }
  }

  /** The printed tree itself is such a file, as long as its lines fit the buffer. */
  lemma PrintedReadsBack(db: Db, known: set<string>, groups: seq<GroupTree>, size: nat)
    requires Serves(db, known) && forall k :: 0 <= k < |groups| ==> GoodGroup(groups[k])
    requires size > 1 && forall k :: 0 <= k < |GroupLines(groups)| ==> |GroupLines(groups)[k]| + 1 < size
    ensures Flat(db, Top, [], Lines(Flatten(Raw(GroupLines(groups))), size)) == (Top, GroupCalls(known, groups))
  {
    GroupsLoud(groups);
    LoudStays(GroupLines(groups), size);
    RoundTrip(db, known, groups, Raw(GroupLines(groups)), size);
  }

  /** Neither noise nor broken by a newline. */
  ghost predicate Loud(lines: seq<string>) {
    forall k :: 0 <= k < |lines| ==> |lines[k]| > 0 && lines[k][0] != '#' && '\n' !in lines[k]
  }

  lemma {:induction false} LoudStays(lines: seq<string>, size: nat)
    requires Loud(lines) && forall k :: 0 <= k < |lines| ==> |lines[k]| + 1 < size
    ensures WithoutNoise(Raw(lines)) == Raw(lines)
    ensures forall k :: 0 <= k < |Raw(lines)| ==> WholeLine(Raw(lines)[k], size)
  {
    if lines != [] {
      LoudStays(lines[1..], size);
      assert (lines[0] + "\n")[..|lines[0]|] == lines[0];
    }
  }

  lemma {:induction false} SpacedHasNoNewline(args: seq<string>)
    requires forall k :: 0 <= k < |args| ==> '\n' !in args[k]
    ensures '\n' !in Spaced(args)
  {
    if args != [] {
      SpacedHasNoNewline(args[1..]);
    }
  }

  lemma {:induction false} ItemsLoud(items: seq<Item>)
    requires forall k :: 0 <= k < |items| ==> GoodItem(items[k])
    ensures Loud(ItemLines(items))
  {
    if items != [] {
      if items[0].Entry? {
        SpacedHasNoNewline(items[0].args);
      }
      ItemsLoud(items[1..]);
    }
  }

  lemma {:induction false} SuitesLoud(suites: seq<SuiteTree>)
    requires forall k :: 0 <= k < |suites| ==> GoodSuite(suites[k])
    ensures Loud(SuiteLines(suites))
  {
    if suites != [] {
      ItemsLoud(suites[0].items);
      SuitesLoud(suites[1..]);
    }
  }

  lemma {:induction false} GroupsLoud(groups: seq<GroupTree>)
    requires forall k :: 0 <= k < |groups| ==> GoodGroup(groups[k])
    ensures Loud(GroupLines(groups))
  {
    if groups != [] {
      SuitesLoud(groups[0].suites);
      GroupsLoud(groups[1..]);
    }
  }
}
