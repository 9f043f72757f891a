// Group files as people write them: indented lines, blanks at line ends and between
// tokens, and suites the database refuses.

module GroupFileLayout {
  import opened Optional
  import opened Rescan
  import opened GroupFile
  import opened GroupFileRoundTrip

  // --------------------------------------------------------- blanks between tokens

  function Blanks(n: nat): string {
    if n == 0 then "" else " " + Blanks(n - 1)
  }

  /** The words with gaps[0] blanks in front, gaps[k] behind the k-th. */
  function Padded(words: seq<string>, gaps: seq<nat>): string
    requires |gaps| == |words| + 1
  {
    Blanks(gaps[0]) + (if words == [] then "" else words[0] + Padded(words[1..], gaps[1..]))
  }

  lemma {:induction false} TokensSkipBlanks(n: nat, s: string)
    ensures Tokens(Blanks(n) + s) == Tokens(s)
  {
    if n == 0 {
      assert Blanks(0) + s == s;
    } else {
      TokensSkipBlanks(n - 1, s);
      assert (Blanks(n) + s)[1..] == Blanks(n - 1) + s;
    }
  }

  /** However many blanks there are in front, behind and in between, the tokens are the
      words. */
  lemma {:induction false} TokensOfPadded(words: seq<string>, gaps: seq<nat>)
    requires |gaps| == |words| + 1
    requires forall k :: 0 <= k < |words| ==> words[k] != "" && ' ' !in words[k]
    requires forall k :: 0 < k < |words| ==> gaps[k] > 0
    ensures Tokens(Padded(words, gaps)) == words
  {
    if words == [] {
      TokensSkipBlanks(gaps[0], "");
    } else {
      var w, rest := words[0], Padded(words[1..], gaps[1..]);
      TokensSkipBlanks(gaps[0], w + rest);
      TokensOfPadded(words[1..], gaps[1..]);
      RestStartsBlank(words[1..], gaps[1..]);
      FirstToken(w, rest);
      assert words == [w] + words[1..];
    }
  }

  lemma RestStartsBlank(words: seq<string>, gaps: seq<nat>)
    requires |gaps| == |words| + 1 && (words != [] ==> gaps[0] > 0)
    ensures Padded(words, gaps) == "" || Padded(words, gaps)[0] == ' '
  {
  }

  lemma FirstToken(w: string, rest: string)
    requires w != "" && ' ' !in w && (rest == "" || rest[0] == ' ')
    ensures Tokens(w + rest) == [w] + Tokens(rest)
  {
    WordEnds(w, rest);
    assert (w + rest)[..|w|] == w && (w + rest)[|w|..] == rest;
  }

  // ----------------------------------------------------------------- indentation

  predicate IsWhite(c: char) { c == ' ' || c == '\t' }

  predicate White(s: string) { forall k :: 0 <= k < |s| ==> IsWhite(s[k]) }

  predicate Solid(s: string) { s != "" && forall k :: 0 <= k < |s| ==> !IsWhite(s[k]) }

  lemma AtInside(before: string, line: string, after: string, k: string, i: int)
    requires White(before) && White(after) && Solid(k)
    ensures At(before + line + after, k, i) <==> At(line, k, i - |before|)
  {
    var s, n := before + line + after, |before|;
    if At(s, k, i) {
      AtChar(s, k, i, 0);
      AtChar(s, k, i, |k| - 1);
      assert n <= i && i + |k| <= n + |line|;
      assert s[i..i + |k|] == line[i - n..i - n + |k|];
    }
    if At(line, k, i - n) {
      assert s[i..i + |k|] == line[i - n..i - n + |k|];
    }
  }

  lemma FindInside(before: string, line: string, after: string, k: string)
    requires White(before) && White(after) && Solid(k)
    ensures Find(before + line + after, k)
            == match Find(line, k) case None => None case Some(i) => Some(|before| + i)
  {
    var s, n := before + line + after, |before|;
    forall i
      ensures At(s, k, i) <==> At(line, k, i - n)
    {
      AtInside(before, line, after, k, i);
    }
    match Find(line, k)
    case None =>
    case Some(i) =>
      assert At(s, k, n + i);
      FirstIsUnique(s, k, n + i, Find(s, k).value);
  }

  lemma {:induction false} BeforeLastTail(s: string, after: string, c: char)
    requires c !in after
    ensures BeforeLast(s + after, c) == BeforeLast(s, c)
    decreases |after|
  {
    if after == "" {
      assert s + after == s;
    } else {
      var n := |after| - 1;
      assert (s + after)[..|s| + n] == s + after[..n];
      BeforeLastTail(s, after[..n], c);
    }
  }

  lemma DropInside(before: string, line: string, after: string, n: nat)
    requires n <= |line|
    ensures (before + line + after)[|before| + n..] == line[n..] + after
  {
  }

  lemma ArgumentInside(before: string, line: string, after: string, k: string)
    requires White(before) && White(after) && Solid(k)
    ensures ArgumentOf(before + line + after, k) == ArgumentOf(line, k)
  {
    FindInside(before, line, after, k);
    match Find(line, k)
    case None =>
    case Some(i) =>
      DropInside(before, line, after, i + |k|);
      BeforeLastTail(line[i + |k|..], after, ')');
  }

  lemma Keywords(k: string)
    requires k in ["GROUP(", "SUITE(", "DESCR(", "TC(", "EXEC(", "END_GROUP", "END_SUITE"]
    ensures Solid(k)
  {
  }

  /** Blanks and tabs around a line change nothing. */
  lemma ReadInside(db: Db, mode: Mode, trace: seq<Event>, before: string, line: string, after: string)
    requires White(before) && White(after)
    ensures Read(db, mode, trace, before + line + after) == Read(db, mode, trace, line)
  {
    match mode
    case Top =>
      InsideTop(before, line, after);
      TopAlike(trace, before + line + after, line);
    case InGroup(suite) =>
      InsideGroup(before, line, after);
      GroupAlike(db, suite, trace, before + line + after, line);
    case InSuite(suite) =>
      InsideSuite(before, line, after);
      SuiteAlike(db, suite, trace, before + line + after, line);
    case Fault =>
  }

  // Lines with the same arguments are read alike.

  lemma TopAlike(trace: seq<Event>, a: string, b: string)
    requires ArgumentOf(a, "GROUP(") == ArgumentOf(b, "GROUP(")
    ensures StepTop(a, trace) == StepTop(b, trace)
  {
  }

  lemma GroupAlike(db: Db, suite: Option<string>, trace: seq<Event>, a: string, b: string)
    requires ArgumentOf(a, "SUITE(") == ArgumentOf(b, "SUITE(")
    requires Find(a, "END_GROUP").Some? <==> Find(b, "END_GROUP").Some?
    ensures StepGroup(db, a, suite, trace) == StepGroup(db, b, suite, trace)
  {
  }

  lemma SuiteAlike(db: Db, suite: Option<string>, trace: seq<Event>, a: string, b: string)
    requires ArgumentOf(a, "DESCR(") == ArgumentOf(b, "DESCR(") && ArgumentOf(a, "TC(") == ArgumentOf(b, "TC(")
    requires ArgumentOf(a, "EXEC(") == ArgumentOf(b, "EXEC(")
    requires Find(a, "END_SUITE").Some? <==> Find(b, "END_SUITE").Some?
    ensures StepSuite(db, a, suite, trace) == StepSuite(db, b, suite, trace)
  {
  }

  lemma InsideTop(before: string, line: string, after: string)
    requires White(before) && White(after)
    ensures ArgumentOf(before + line + after, "GROUP(") == ArgumentOf(line, "GROUP(")
  {
    Keywords("GROUP(");
    ArgumentInside(before, line, after, "GROUP(");
  }

  lemma InsideGroup(before: string, line: string, after: string)
    requires White(before) && White(after)
    ensures ArgumentOf(before + line + after, "SUITE(") == ArgumentOf(line, "SUITE(")
    ensures Find(before + line + after, "END_GROUP").Some? <==> Find(line, "END_GROUP").Some?
  {
    Keywords("SUITE(");
    Keywords("END_GROUP");
    ArgumentInside(before, line, after, "SUITE(");
    FindInside(before, line, after, "END_GROUP");
  }

  lemma InsideSuite(before: string, line: string, after: string)
    requires White(before) && White(after)
    ensures ArgumentOf(before + line + after, "DESCR(") == ArgumentOf(line, "DESCR(")
    ensures ArgumentOf(before + line + after, "TC(") == ArgumentOf(line, "TC(")
    ensures ArgumentOf(before + line + after, "EXEC(") == ArgumentOf(line, "EXEC(")
    ensures Find(before + line + after, "END_SUITE").Some? <==> Find(line, "END_SUITE").Some?
  {
    Keywords("DESCR(");
    Keywords("TC(");
    Keywords("EXEC(");
    Keywords("END_SUITE");
    ArgumentInside(before, line, after, "DESCR(");
    ArgumentInside(before, line, after, "TC(");
    ArgumentInside(before, line, after, "EXEC(");
    FindInside(before, line, after, "END_SUITE");
  }

  /** The raw line is this line with blanks and tabs around it. */
  ghost predicate Dresses(raw: string, line: string) {
    exists before, after :: White(before) && White(after) && raw == before + line + after + "\n"
  }

  ghost predicate AllDress(raws: seq<string>, lines: seq<string>) {
    |raws| == |lines| && forall k :: 0 <= k < |raws| ==> Dresses(raws[k], lines[k])
  }

  lemma StepInside(db: Db, mode: Mode, trace: seq<Event>, raw: string, line: string)
    requires line != "" && line[0] != '#' && Dresses(raw, line)
    ensures Step(db, mode, trace, raw) == Read(db, mode, trace, line)
  {
    var before, after :| White(before) && White(after) && raw == before + line + after + "\n";
    assert raw[0] != '#' by {
      assert raw[0] == if before == "" then line[0] else before[0];
    }
    StripsNewline(before + line + after);
    ReadInside(db, mode, trace, before, line, after);
  }

  lemma {:induction false} FlatInside(db: Db, mode: Mode, trace: seq<Event>, raws: seq<string>, lines: seq<string>)
    requires AllDress(raws, lines) && forall k :: 0 <= k < |lines| ==> lines[k] != "" && lines[k][0] != '#'
    ensures Flat(db, mode, trace, raws) == Flat(db, mode, trace, Raw(lines))
    decreases |lines|
  {
    if lines != [] {
      var (mode', trace') := Read(db, mode, trace, lines[0]);
      assert Dresses(raws[0], lines[0]);
      StepInside(db, mode, trace, raws[0], lines[0]);
      StepPlain(db, mode, trace, lines[0]);
      FlatCons(db, mode, trace, lines[0] + "\n", Raw(lines[1..]));
      assert AllDress(raws[1..], lines[1..]);
      FlatInside(db, mode', trace', raws[1..], lines[1..]);
    }
  }

  lemma StepPlain(db: Db, mode: Mode, trace: seq<Event>, line: string)
    requires line != "" && line[0] != '#'
    ensures Step(db, mode, trace, line + "\n") == Read(db, mode, trace, line)
  {
    StripsNewline(line);
  }

  /** The round trip on a file as it may be laid out: the lines of the tree with blanks
      and tabs around them, and comment and blank lines anywhere in between. */
  lemma LaidOutRoundTrip(db: Db, known: set<string>, groups: seq<GroupTree>, lines: seq<string>, size: nat)
    requires Serves(db, known) && forall k :: 0 <= k < |groups| ==> GoodGroup(groups[k])
    requires size > 1 && forall k :: 0 <= k < |lines| ==> WholeLine(lines[k], size)
    requires AllDress(WithoutNoise(lines), GroupLines(groups))
    ensures Flat(db, Top, [], Lines(Flatten(lines), size)) == (Top, GroupCalls(known, groups))
  {
    LinesOfFlatten(lines, size);
    NoiseIsSkipped(db, Top, [], lines);
    GroupsLoud(groups);
    FlatInside(db, Top, [], WithoutNoise(lines), GroupLines(groups));
    ReadGroups(db, known, [], groups);
    assert [] + GroupCalls(known, groups) == GroupCalls(known, groups);
  }

  // ----------------------------------------------------- suites that are refused

  /** The calls of a group's suites on a database that may refuse some: everything up
      to and with the first refused attachment, and nothing of the group after that. */
  ghost function SuitesUntilRefused(db: Db, known: set<string>, trace: seq<Event>, suites: seq<SuiteTree>)
    : (bool, seq<Event>)
    decreases |suites|
  {
    if suites == [] then (true, trace)
    else
      var s := suites[0];
      var calls := trace + [AddSuite(s.name), Attach(Some(s.name))];
      if !db.attaches(calls) then (false, calls)
      else SuitesUntilRefused(db, known, calls + ItemCalls(known, s.items), suites[1..])
  }

  ghost function GroupsUntilRefused(db: Db, known: set<string>, trace: seq<Event>, groups: seq<GroupTree>): seq<Event>
    decreases |groups|
  {
    if groups == [] then trace
    else
      var t := trace + [AddGroup(groups[0].name)];
      GroupsUntilRefused(db, known, SuitesUntilRefused(db, known, t, groups[0].suites).1, groups[1..])
  }

  lemma {:induction false} IgnoredAtTop(db: Db, trace: seq<Event>, lines: seq<string>)
    requires forall k :: 0 <= k < |lines| ==> lines[k] != "" && lines[k][0] != '#' && !Contains(lines[k], "GROUP(")
    ensures Flat(db, Top, trace, Raw(lines)) == (Top, trace)
    decreases |lines|
  {
    if lines != [] {
      StepPlain(db, Top, trace, lines[0]);
      ArgumentExactly(lines[0], "GROUP(");
      FlatCons(db, Top, trace, lines[0] + "\n", Raw(lines[1..]));
      IgnoredAtTop(db, trace, lines[1..]);
    }
  }

  lemma OpenAnySuite(db: Db, before: Option<string>, trace: seq<Event>, name: string)
    requires name != ""
    ensures var calls := trace + [AddSuite(name), Attach(Some(name))];
            Flat(db, InGroup(before), trace, Raw(["SUITE(" + name + ")"]))
            == (if db.attaches(calls) then InSuite(Some(name)) else Top, calls)
  {
    OneLine(db, InGroup(before), trace, "SUITE(" + name + ")");
    KeywordLine("SUITE(", name);
    assert trace + [AddSuite(name)] + [Attach(Some(name))] == trace + [AddSuite(name), Attach(Some(name))];
  }

  lemma RefusedAtOnce(db: Db, before: Option<string>, trace: seq<Event>, suites: seq<SuiteTree>)
    requires suites != [] && GoodSuite(suites[0])
    requires var s := suites[0]; !db.attaches(trace + [AddSuite(s.name), Attach(Some(s.name))])
    requires Loud(SuiteLines(suites))
    requires forall k :: 0 <= k < |SuiteLines(suites)| ==> !Contains(SuiteLines(suites)[k], "GROUP(")
    ensures var s := suites[0];
            Flat(db, InGroup(before), trace, Raw(SuiteLines(suites)))
            == (Top, trace + [AddSuite(s.name), Attach(Some(s.name))])
  {
    var s, lines := suites[0], SuiteLines(suites);
    var opening, calls := ["SUITE(" + s.name + ")"], trace + [AddSuite(s.name), Attach(Some(s.name))];
    OpensWith(suites);
    OpenAnySuite(db, before, trace, s.name);
    Then(db, InGroup(before), trace, opening, Top, calls, lines[1..]);
    IgnoredAtTop(db, calls, lines[1..]);
  }

  lemma OpensWith(suites: seq<SuiteTree>)
    requires suites != []
    ensures SuiteLines(suites) == ["SUITE(" + suites[0].name + ")"] + SuiteLines(suites)[1..]
  {
  }

  lemma {:induction false} ReadAnySuites(db: Db, known: set<string>, before: Option<string>, trace: seq<Event>,
                                         suites: seq<SuiteTree>)
    requires KnowsExactly(db, known) && forall k :: 0 <= k < |suites| ==> GoodSuite(suites[k])
    requires forall k :: 0 <= k < |SuiteLines(suites)| ==> !Contains(SuiteLines(suites)[k], "GROUP(")
    ensures var (ok, t) := SuitesUntilRefused(db, known, trace, suites);
            Flat(db, InGroup(before), trace, Raw(SuiteLines(suites)))
            == (if ok then InGroup(LastSuite(before, suites)) else Top, t)
    decreases |suites|
  {
    SuitesLoud(suites);
    if suites != [] {
      var s := suites[0];
      var calls := trace + [AddSuite(s.name), Attach(Some(s.name))];
      if !db.attaches(calls) {
        RefusedAtOnce(db, before, trace, suites);
      } else {
        var t := calls + ItemCalls(known, s.items);
        TakenSuite(db, known, before, trace, s);
        Then(db, InGroup(before), trace, SuiteText(s), InGroup(Some(s.name)), t, SuiteLines(suites[1..]));
        LaterLines(suites);
        ReadAnySuites(db, known, Some(s.name), t, suites[1..]);
        LastOfRest(before, suites);
      }
    }
  }

  lemma LaterLines(suites: seq<SuiteTree>)
    requires suites != []
    ensures forall k :: 0 <= k < |SuiteLines(suites[1..])| ==> SuiteLines(suites[1..])[k] in SuiteLines(suites)
  {
    var text, rest := SuiteText(suites[0]), SuiteLines(suites[1..]);
    forall k | 0 <= k < |rest|
      ensures rest[k] in SuiteLines(suites)
    {
      assert (text + rest)[|text| + k] == rest[k];
    }
  }

  lemma TakenSuite(db: Db, known: set<string>, before: Option<string>, trace: seq<Event>, suite: SuiteTree)
    requires KnowsExactly(db, known) && GoodSuite(suite)
    requires db.attaches(trace + [AddSuite(suite.name), Attach(Some(suite.name))])
    ensures Flat(db, InGroup(before), trace, Raw(SuiteText(suite)))
            == (InGroup(Some(suite.name)),
                trace + [AddSuite(suite.name), Attach(Some(suite.name))] + ItemCalls(known, suite.items))
  {
    var now, opening, items := Some(suite.name), ["SUITE(" + suite.name + ")"], ItemLines(suite.items);
    var t := trace + [AddSuite(suite.name), Attach(now)];
    OpenAnySuite(db, before, trace, suite.name);
    Then(db, InGroup(before), trace, opening, InSuite(now), t, items);
    ReadItems(db, known, now, t, suite.items);
    Then(db, InGroup(before), trace, opening + items, InSuite(now), t + ItemCalls(known, suite.items), ["END_SUITE"]);
    EndSuite(db, now, t + ItemCalls(known, suite.items));
  }

  lemma ReadAnyGroup(db: Db, known: set<string>, trace: seq<Event>, group: GroupTree)
    requires KnowsExactly(db, known) && GoodGroup(group)
    requires forall k :: 0 <= k < |SuiteLines(group.suites)| ==> !Contains(SuiteLines(group.suites)[k], "GROUP(")
    ensures Flat(db, Top, trace, Raw(GroupText(group)))
            == (Top, SuitesUntilRefused(db, known, trace + [AddGroup(group.name)], group.suites).1)
  {
    var opening, suites := ["GROUP(" + group.name + ")"], SuiteLines(group.suites);
    var t := trace + [AddGroup(group.name)];
    var outcome := SuitesUntilRefused(db, known, t, group.suites);
    var mode := if outcome.0 then InGroup(LastSuite(None, group.suites)) else Top;
    OpenGroup(db, trace, group.name);
    Then(db, Top, trace, opening, InGroup(None), t, suites);
    ReadAnySuites(db, known, None, t, group.suites);
    Then(db, Top, trace, opening + suites, mode, outcome.1, ["END_GROUP"]);
    if outcome.0 {
      EndGroup(db, LastSuite(None, group.suites), outcome.1);
    } else {
      EndsNothing();
      IgnoredAtTop(db, outcome.1, ["END_GROUP"]);
    }
  }

  lemma EndsNothing()
    ensures !Contains("END_GROUP", "GROUP(")
  {
    LacksChar("END_GROUP", "GROUP(", '(');
  }

  /** A printed tree on any database: each group's calls up to and with the first
      attachment it refuses, after which the rest of that group is passed over and the
      next group is read as if nothing had happened. */
  lemma {:induction false} RefusalsAreLocal(db: Db, known: set<string>, trace: seq<Event>, groups: seq<GroupTree>)
    requires KnowsExactly(db, known) && forall k :: 0 <= k < |groups| ==> GoodGroup(groups[k])
    requires forall g, k :: g in groups && 0 <= k < |SuiteLines(g.suites)| ==>
                              !Contains(SuiteLines(g.suites)[k], "GROUP(")
    ensures Flat(db, Top, trace, Raw(GroupLines(groups))) == (Top, GroupsUntilRefused(db, known, trace, groups))
    decreases |groups|
  {
    if groups != [] {
      var g := groups[0];
      assert g in groups;
      var t := SuitesUntilRefused(db, known, trace + [AddGroup(g.name)], g.suites).1;
      ReadAnyGroup(db, known, trace, g);
      Then(db, Top, trace, GroupText(g), Top, t, GroupLines(groups[1..]));
      RefusalsAreLocal(db, known, t, groups[1..]);
    }
  }
}
