// Group files: three nested functions reading one shared stream, the flat
// automaton they amount to, and the round trip from a printed tree.

module GroupFile {
  import opened Optional
  import opened Rescan

  // ---------------------------------------------------------------- lines

  /** How many characters fgets takes: through the next newline, and no more than
      the buffer holds beside its terminator. */
  function LineLength(text: string, size: nat): (n: nat)
    requires text != [] && size > 1
    ensures 0 < n <= |text| && n < size
  {
    if text[0] == '\n' || |text| == 1 || size == 2 then 1 else 1 + LineLength(text[1..], size - 1)
  }

  /** It stops right behind the first newline, at the end of the text, or where the
      buffer is full, whichever comes first. */
  lemma {:induction false} LineStops(text: string, size: nat)
    requires text != [] && size > 1
    ensures var n := LineLength(text, size);
            '\n' !in text[..n - 1] && (text[n - 1] == '\n' || n == |text| || n == size - 1)
    decreases |text|
  {
    if text[0] != '\n' && |text| > 1 && size > 2 {
      LineStops(text[1..], size - 1);
      var rest := LineLength(text[1..], size - 1);
      assert text[..rest] == [text[0]] + text[1..][..rest - 1];
    }
  }

  /** The successive results of fgets. */
  function Lines(text: string, size: nat): seq<string>
    requires size > 1
    decreases |text|
  {
    if text == [] then []
    else [text[..LineLength(text, size)]] + Lines(text[LineLength(text, size)..], size)
  }

  /** strip_newline, taken to remove one trailing newline. */
  function Strip(line: string): string {
    if line != [] && line[|line| - 1] == '\n' then line[..|line| - 1] else line
  }

  /** Comment lines and lines of at most one character. */
  predicate Noise(line: string) { |line| <= 1 || line[0] == '#' }

  // ------------------------------------------------------------- keywords

  /** What stands after the keyword and before the last ')'.  Without that ')' the
      source writes through a null pointer. */
  datatype Argument = Absent | Unclosed | Text(text: string)

  function BeforeLast(s: string, c: char): Option<string> {
    if s == [] then None
    else if s[|s| - 1] == c then Some(s[..|s| - 1])
    else BeforeLast(s[..|s| - 1], c)
  }

  lemma {:induction false} BeforeLastIs(s: string, c: char)
    ensures var r := BeforeLast(s, c);
            && (r.None? <==> c !in s)
            && (r.Some? ==> LastAt(s, c, |r.value|) && r.value == s[..|r.value|])
  {
    if s != [] && s[|s| - 1] != c {
      BeforeLastIs(s[..|s| - 1], c);
      assert s == s[..|s| - 1] + [s[|s| - 1]];
    }
  }

  /** The last c of s stands at position n. */
  predicate LastAt(s: string, c: char, n: nat) { n < |s| && s[n] == c && c !in s[n + 1..] }

  function ArgumentOf(line: string, keyword: string): Argument {
    match Find(line, keyword)
    case None => Absent
    case Some(i) =>
      match BeforeLast(line[i + |keyword|..], ')')
      case None => Unclosed
      case Some(text) => Text(text)
  }

  /** The first keyword of the line stands at i, and text between it and the last ")". */
  ghost predicate Carries(line: string, keyword: string, text: string, i: nat) {
    && FirstAt(line, keyword, i)
    && var j := i + |keyword|;
    && LastAt(line[j..], ')', |text|) && line[j..][..|text|] == text
  }

  /** The keyword counts wherever it stands in the line, and its argument runs to the
      last ")" behind it. */
  lemma ArgumentExactly(line: string, keyword: string)
    ensures ArgumentOf(line, keyword) == Absent <==> !Contains(line, keyword)
    ensures forall text, i :: Carries(line, keyword, text, i) ==> ArgumentOf(line, keyword) == Text(text)
    ensures ArgumentOf(line, keyword).Text? ==> exists i :: Carries(line, keyword, ArgumentOf(line, keyword).text, i)
    ensures ArgumentOf(line, keyword) == Unclosed <==>
            exists i :: FirstAt(line, keyword, i) && ')' !in line[i + |keyword|..]
  {
    match Find(line, keyword)
    case None =>
    case Some(i) =>
      forall j | FirstAt(line, keyword, j)
        ensures j == i
      {
        FirstIsUnique(line, keyword, i, j);
      }
      var rest := line[i + |keyword|..];
      BeforeLastIs(rest, ')');
      if BeforeLast(rest, ')').Some? {
        assert Carries(line, keyword, BeforeLast(rest, ')').value, i);
      }
      forall text, j | Carries(line, keyword, text, j)
        ensures ArgumentOf(line, keyword) == Text(text)
      {
        OneLast(rest, ')', |text|, |BeforeLast(rest, ')').value|);
      }
  }

  lemma OneLast(s: string, c: char, n: nat, m: nat)
    requires LastAt(s, c, n) && LastAt(s, c, m)
    ensures n == m
  {
    if n < m {
      NotBehind(s, c, n, m);
    } else if m < n {
      NotBehind(s, c, m, n);
    }
  }

  lemma NotBehind(s: string, c: char, n: nat, m: nat)
    requires n < m < |s| && s[m] == c
    ensures c in s[n + 1..]
  {
    assert s[n + 1..][m - n - 1] == c;
  }

  /** strtok with " ". */
  function Tokens(s: string): seq<string>
    decreases |s|
  {
    if s == [] then []
    else if s[0] == ' ' then Tokens(s[1..])
    else [s[..WordLength(s)]] + Tokens(s[WordLength(s)..])
  }

  function WordLength(s: string): (n: nat)
    ensures n <= |s| && ' ' !in s[..n]
    ensures n < |s| ==> s[n] == ' '
    ensures s != [] && s[0] != ' ' ==> n > 0
  {
    if s == [] || s[0] == ' ' then 0
    else
      assert s[..1 + WordLength(s[1..])] == [s[0]] + s[1..][..WordLength(s[1..])];
      1 + WordLength(s[1..])
  }

  const MAX_ARGS := 32

  // ------------------------------------------------- calls on the databases

  datatype Event =
    | AddGroup(name: string)
    | AddSuite(name: string)
    | Attach(suite: Option<string>)
    | Describe(text: string)
    | AddTest(args: seq<string>)
    | Execute(text: string)

  /** The databases answer as any function of the calls made so far: whether a
      suite can be added to the group, and whether a case is registered. */
  datatype Db = Db(attaches: seq<Event> -> bool, knows: (seq<Event>, string) -> bool)

  // ------------------------------------------------------- the flat machine

  /** Where in the file we are, with the suite add_suite_from_file last added. */
  datatype Mode = Top | InGroup(suite: Option<string>) | InSuite(suite: Option<string>) | Fault

  function Step(db: Db, mode: Mode, trace: seq<Event>, raw: string): (Mode, seq<Event>) {
    if Noise(raw) then (mode, trace) else Read(db, mode, trace, Strip(raw))
  }

  function Read(db: Db, mode: Mode, trace: seq<Event>, line: string): (Mode, seq<Event>) {
    match mode
    case Top => StepTop(line, trace)
    case InGroup(suite) => StepGroup(db, line, suite, trace)
    case InSuite(suite) => StepSuite(db, line, suite, trace)
    case Fault => (Fault, trace)
  }

  function StepTop(line: string, trace: seq<Event>): (Mode, seq<Event>) {
    match ArgumentOf(line, "GROUP(")
    case Absent => (Top, trace)
    case Unclosed => (Fault, trace)
    case Text(name) => if name == "" then (Top, trace) else (InGroup(None), trace + [AddGroup(name)])
  }

  function StepGroup(db: Db, line: string, suite: Option<string>, trace: seq<Event>): (Mode, seq<Event>) {
    match ArgumentOf(line, "SUITE(")
    case Unclosed => (Fault, trace)
    case Text(name) =>
      var suite' := if name == "" then suite else Some(name);
      var added := if name == "" then trace else trace + [AddSuite(name)];
      var trace' := added + [Attach(suite')];
      if suite'.Some? && db.attaches(trace') then (InSuite(suite'), trace') else (Top, trace')
    case Absent => if Find(line, "END_GROUP").Some? then (Top, trace) else (InGroup(suite), trace)
  }

  function StepSuite(db: Db, line: string, suite: Option<string>, trace: seq<Event>): (Mode, seq<Event>) {
    match ArgumentOf(line, "DESCR(")
    case Unclosed => (Fault, trace)
    case Text(text) => (InSuite(suite), trace + [Describe(text)])
    case Absent =>
      match ArgumentOf(line, "TC(")
      case Unclosed => (Fault, trace)
      case Text(text) =>
        var args := Tokens(text);
        if args == [] || |args| >= MAX_ARGS then (Fault, trace)
        else if db.knows(trace, args[0]) then (InSuite(suite), trace + [AddTest(args)])
        else (InSuite(suite), trace)
      case Absent =>
        match ArgumentOf(line, "EXEC(")
        case Unclosed => (Fault, trace)
        case Text(text) => (InSuite(suite), trace + [Execute(text)])
        case Absent => if Find(line, "END_SUITE").Some? then (InGroup(suite), trace) else (InSuite(suite), trace)
  }

  function Flat(db: Db, mode: Mode, trace: seq<Event>, lines: seq<string>): (Mode, seq<Event>)
    decreases |lines|
  {
    if lines == [] then (mode, trace)
    else
      var (mode', trace') := Step(db, mode, trace, lines[0]);
      Flat(db, mode', trace', lines[1..])
  }

  // ----------------------------------------------------- what the lines mean

  /** Comment lines and lines of at most one character change nothing; of any other a
      trailing newline is dropped and the rest read as the place in the file demands. */
  lemma LineRules(db: Db, mode: Mode, trace: seq<Event>, raw: string)
    ensures |raw| <= 1 || raw[0] == '#' ==> Step(db, mode, trace, raw) == (mode, trace)
    ensures |raw| > 1 && raw[0] != '#' ==>
              Step(db, mode, trace, raw)
              == Read(db, mode, trace, if raw[|raw| - 1] == '\n' then raw[..|raw| - 1] else raw)
  {
  }

  /** Outside groups only a GROUP line with a name counts. */
  lemma TopRules(line: string, trace: seq<Event>, name: string, i: nat)
    ensures !Contains(line, "GROUP(") ==> StepTop(line, trace) == (Top, trace)
    ensures Carries(line, "GROUP(", name, i) ==>
              StepTop(line, trace) == if name == "" then (Top, trace) else (InGroup(None), trace + [AddGroup(name)])
  {
    ArgumentExactly(line, "GROUP(");
  }

  /** Between suites: a SUITE line adds the suite it names and attaches it, or attaches
      the one added last if it names none; where that fails the group is given up.
      END_GROUP ends the group, and any other line counts for nothing. */
  lemma GroupRules(db: Db, line: string, suite: Option<string>, trace: seq<Event>, name: string, i: nat)
    ensures Carries(line, "SUITE(", name, i) && name != "" ==>
              var calls := trace + [AddSuite(name)] + [Attach(Some(name))];
              StepGroup(db, line, suite, trace) == (if db.attaches(calls) then InSuite(Some(name)) else Top, calls)
    ensures Carries(line, "SUITE(", "", i) ==>
              var calls := trace + [Attach(suite)];
              StepGroup(db, line, suite, trace)
              == (if suite.Some? && db.attaches(calls) then InSuite(suite) else Top, calls)
    ensures !Contains(line, "SUITE(") ==>
              StepGroup(db, line, suite, trace)
              == (if Contains(line, "END_GROUP") then Top else InGroup(suite), trace)
  {
    ArgumentExactly(line, "SUITE(");
  }

  /** Inside a suite, in this order: a description; a test entry of 1 to 31 tokens,
      which is added if its case is registered; an executable; the end of the suite.
      Any other line counts for nothing. */
  lemma SuiteRules(db: Db, line: string, suite: Option<string>, trace: seq<Event>, text: string, i: nat)
    ensures Carries(line, "DESCR(", text, i) ==>
              StepSuite(db, line, suite, trace) == (InSuite(suite), trace + [Describe(text)])
    ensures !Contains(line, "DESCR(") && Carries(line, "TC(", text, i) ==>
              StepSuite(db, line, suite, trace) == TestEntry(db, suite, trace, Tokens(text))
    ensures !Contains(line, "DESCR(") && !Contains(line, "TC(") && Carries(line, "EXEC(", text, i) ==>
              StepSuite(db, line, suite, trace) == (InSuite(suite), trace + [Execute(text)])
    ensures !Contains(line, "DESCR(") && !Contains(line, "TC(") && !Contains(line, "EXEC(") ==>
              StepSuite(db, line, suite, trace)
              == (if Contains(line, "END_SUITE") then InGroup(suite) else InSuite(suite), trace)
  {
    ArgumentExactly(line, "DESCR(");
    ArgumentExactly(line, "TC(");
    ArgumentExactly(line, "EXEC(");
  }

  ghost function TestEntry(db: Db, suite: Option<string>, trace: seq<Event>, tokens: seq<string>): (Mode, seq<Event>) {
    if !(1 <= |tokens| <= 31) then (Fault, trace)
    else if db.knows(trace, tokens[0]) then (InSuite(suite), trace + [AddTest(tokens)])
    else (InSuite(suite), trace)
  }

  lemma {:induction false} FaultStays(db: Db, trace: seq<Event>, lines: seq<string>)
    ensures Flat(db, Fault, trace, lines) == (Fault, trace)
    decreases |lines|
  {
    if lines != [] {
      FaultStays(db, trace, lines[1..]);
    }
  }

  lemma FlatCons(db: Db, mode: Mode, trace: seq<Event>, line: string, rest: seq<string>)
    ensures var (mode', trace') := Step(db, mode, trace, line);
            Flat(db, mode, trace, [line] + rest) == Flat(db, mode', trace', rest)
  {
    assert ([line] + rest)[1..] == rest;
  }

  // -------------------------------------------------- the nested functions

  class Parser {
    const db: Db
    const text: string
    const size: nat
    var pos: nat
    var trace: seq<Event>
    var faulted: bool

    ghost predicate Valid()
      reads this
    {
      size > 1 && pos <= |text|
    }

    /** The lines the shared stream still holds. */
    ghost function Rest(): seq<string>
      reads this
      requires Valid()
    {
      Lines(text[pos..], size)
    }

    /** What the flat machine makes of them, starting in the given mode. */
    ghost function Ahead(mode: Mode): (Mode, seq<Event>)
      reads this
      requires Valid()
    {
      Flat(db, mode, trace, Rest())
    }

    /** The lines still to be handled once raw has been read. */
    ghost function Pending(raw: Option<string>): seq<string>
      reads this
      requires Valid()
    {
      if raw.Some? then [raw.value] + Rest() else Rest()
    }

    constructor (db: Db, text: string, size: nat)
      requires size > 1
      ensures Valid() && trace == [] && !faulted && this.db == db
      ensures Rest() == Lines(text, size)
    {
      this.db, this.text, this.size := db, text, size;
      pos, trace, faulted := 0, [], false;
      new;
      assert text[0..] == text;
    }

    method Gets() returns (line: Option<string>)
      requires Valid()
      modifies this`pos
      ensures Valid()
      ensures line.None? <==> old(Rest()) == []
      ensures line.None? ==> Rest() == []
      ensures line.Some? ==> old(Rest()) == [line.value] + Rest() && old(pos) < pos
    {
      if pos == |text| {
        return None;
      }
      var rest := text[pos..];
      var n := LineLength(rest, size);
      assert rest[n..] == text[pos + n..];
      line := Some(rest[..n]);
      pos := pos + n;
    }

    /** add_tc_from_file, from an open suite on: true at END_SUITE, false at the
        end of the file. */
    method AddTcFromFile(ghost suite: Option<string>) returns (ok: bool)
      requires Valid() && !faulted
      modifies this`pos, this`trace, this`faulted
      ensures Valid() && old(pos) <= pos
      ensures old(Ahead(InSuite(suite))) ==
              Ahead(if faulted then Fault else if ok then InGroup(suite) else InSuite(suite))
      ensures !ok && !faulted ==> Rest() == []
    {
      ghost var goal := Ahead(InSuite(suite));
      var raw := Gets();
      while raw.Some?
        invariant Valid() && old(pos) <= pos && !faulted
        invariant raw.None? ==> Rest() == []
        invariant goal == Flat(db, InSuite(suite), trace, Pending(raw))
        decreases |text| - pos, if raw.Some? then 1 else 0
      {
        FlatCons(db, InSuite(suite), trace, raw.value, Rest());
        if !Noise(raw.value) {
          var ended := SuiteLine(Strip(raw.value), suite);
          if faulted {
            return false;
          }
          if ended {
            return true;
          }
        }
        raw := Gets();
      }
      return false;
    }

    /** One line inside a suite; true at END_SUITE. */
    method SuiteLine(line: string, ghost suite: Option<string>) returns (ended: bool)
      requires !faulted
      modifies this`trace, this`faulted
      ensures (if faulted then Fault else if ended then InGroup(suite) else InSuite(suite), trace)
              == StepSuite(db, line, suite, old(trace))
    {
      ended := false;
      match ArgumentOf(line, "DESCR(") {
        case Unclosed => faulted := true;
        case Text(text) => trace := trace + [Describe(text)];
        case Absent =>
          match ArgumentOf(line, "TC(") {
            case Unclosed => faulted := true;
            case Text(text) =>
              var args := Tokens(text);
              if args == [] || |args| >= MAX_ARGS {
                faulted := true;
              } else if db.knows(trace, args[0]) {
                trace := trace + [AddTest(args)];
              }
            case Absent =>
              match ArgumentOf(line, "EXEC(") {
                case Unclosed => faulted := true;
                case Text(text) => trace := trace + [Execute(text)];
                case Absent => ended := Find(line, "END_SUITE").Some?;
              }
          }
      }
    }

    /** add_suite_from_file, from an open group on.  It comes back to the top level
        after END_GROUP, after a suite that could not be added, or at the end of the
        file. */
    method AddSuiteFromFile() returns (ok: bool, ghost mode: Mode)
      requires Valid() && !faulted
      modifies this`pos, this`trace, this`faulted
      ensures Valid() && old(pos) <= pos
      ensures old(Ahead(InGroup(None))) == Ahead(mode)
      ensures faulted <==> mode == Fault
      ensures mode == Top || mode == Fault || Rest() == []
    {
      ghost var goal := Ahead(InGroup(None));
      var suiteInfo: Option<string> := None;
      var raw := Gets();
      while raw.Some?
        invariant Valid() && old(pos) <= pos && !faulted
        invariant raw.None? ==> Rest() == []
        invariant goal == Flat(db, InGroup(suiteInfo), trace, Pending(raw))
        decreases |text| - pos, if raw.Some? then 1 else 0
      {
        FlatCons(db, InGroup(suiteInfo), trace, raw.value, Rest());
        if !Noise(raw.value) {
          var next;
          suiteInfo, next := GroupLine(Strip(raw.value), suiteInfo);
          match next {
            case InGroup(_) =>
            case InSuite(_) =>
              var done := AddTcFromFile(suiteInfo);
              if faulted {
                return false, Fault;
              }
              if !done {
                return false, next;
              }
            case _ => return !faulted, next;
          }
        }
        raw := Gets();
      }
      return false, InGroup(suiteInfo);
    }

    /** One line between suites, with the suite added last; next says where the
        parsing goes on. */
    method GroupLine(line: string, suiteInfo0: Option<string>) returns (suiteInfo: Option<string>, next: Mode)
      requires !faulted
      modifies this`trace, this`faulted
      ensures (next, trace) == StepGroup(db, line, suiteInfo0, old(trace))
      ensures faulted <==> next == Fault
      ensures next.InGroup? || next.InSuite? ==> next.suite == suiteInfo
    {
      suiteInfo := suiteInfo0;
      match ArgumentOf(line, "SUITE(") {
        case Unclosed =>
          faulted := true;
          next := Fault;
        case Text(name) =>
          if name != "" {
            trace := trace + [AddSuite(name)];
            suiteInfo := Some(name);
          }
          trace := trace + [Attach(suiteInfo)];
          next := if suiteInfo.Some? && db.attaches(trace) then InSuite(suiteInfo) else Top;
        case Absent =>
          next := if Find(line, "END_GROUP").Some? then Top else InGroup(suiteInfo);
      }
    }

    /** add_group_from_file on an open file: the calls made on the databases are
        exactly those of the flat machine run over the file's lines. */
    method AddGroupFromFile()
      requires Valid() && !faulted
      modifies this`pos, this`trace, this`faulted
      ensures Valid()
      ensures trace == old(Ahead(Top)).1
      ensures faulted <==> old(Ahead(Top)).0 == Fault
      ensures !faulted ==> Rest() == []
    {
      ghost var goal := Ahead(Top);
      ghost var mode := Top;
      var raw := Gets();
      while raw.Some?
        invariant Valid() && !faulted
        invariant raw.None? ==> Rest() == []
        invariant raw.Some? ==> mode == Top
        invariant mode != Fault
        invariant goal == Flat(db, mode, trace, Pending(raw))
        decreases |text| - pos, if raw.Some? then 1 else 0
      {
        FlatCons(db, mode, trace, raw.value, Rest());
        if !Noise(raw.value) {
          var line := Strip(raw.value);
          match ArgumentOf(line, "GROUP(") {
            case Unclosed =>
              faulted := true;
              FaultStays(db, trace, Rest());
              return;
            case Text(name) =>
              if name != "" {
                trace := trace + [AddGroup(name)];
                var ok;
                ok, mode := AddSuiteFromFile();
                if faulted {
                  FaultStays(db, trace, Rest());
                  return;
                }
              }
            case Absent =>
          }
        }
        raw := Gets();
      }
    }
  }
}
