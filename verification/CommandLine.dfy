// The option phase of cmd_parse: one pass over the command line that sets the run
// options and forwards the rest to the test.

module CommandLine {
  import opened Optional

  // Verbosity levels, lowest and highest as the option check bounds them.
  const VERB_OFF := 0
  const VERB_RESP := 1
  const VERB_OFF_LOG := 3

  datatype NodeKind = GroupNode | SuiteNode | CaseNode | ExecutableNode

  /** The conversions and lookups the parser relies on: strtol, time_str_to_sec
      with its error, the lookup of groups, suites and cases, and the check for
      executables. */
  datatype Host = Host(
    number: string -> int,
    seconds: string -> Option<int>,
    find: string -> Option<NodeKind>,
    executable: string -> bool)

  function Recognize(host: Host, word: string): Option<NodeKind> {
    if host.find(word).Some? then host.find(word)
    else if host.executable(word) then Some(ExecutableNode)
    else None
  }

  // ------------------------------------------------------------------- tokens

  datatype Token =
    | Verbose(level: int)
    | Extended
    | Xml
    | Loop(count: int)
    | StopOnFail
    | Wait
    | MaxTimeout(timeout: int)
    | ExeTime(time: Option<int>)
    | ExeDelay(delay: Option<int>)
    | Word(word: string)

  /** The token at position i.  A value at the end of the line is read from the
      array row behind it, whatever that holds. */
  function TokenAt(host: Host, line: seq<string>, beyond: string, i: nat): Token
    requires i < |line|
  {
    var value := if i + 1 < |line| then line[i + 1] else beyond;
    if line[i] == "--verbose" then Verbose(host.number(value))
    else if line[i] == "--extend" || line[i] == "--extended" then Extended
    else if line[i] == "--xml" then Xml
    else if line[i] == "--loop" then Loop(host.number(value))
    else if line[i] == "--stoponfail" then StopOnFail
    else if line[i] == "--wait" then Wait
    else if line[i] == "--maxtmo" then MaxTimeout(host.number(value))
    else if line[i] == "--exe_time" then ExeTime(host.seconds(value))
    else if line[i] == "--exe_dly_time" then ExeDelay(host.seconds(value))
    else Word(line[i])
  }

  /** How many array rows a token takes.  The value of --maxtmo is looked at and
      then read again as a token of its own. */
  function Width(t: Token): nat {
    if t.Verbose? || t.Loop? || t.ExeTime? || t.ExeDelay? then 2 else 1
  }

  /** The token each row would start. */
  type Lexer = seq<Token>

  function Lex(host: Host, line: seq<string>, beyond: string): Lexer {
    seq(|line|, i requires 0 <= i < |line| => TokenAt(host, line, beyond, i))
  }

  /** The tokens read from row i on. */
  function Tokens(lex: Lexer, i: nat): seq<Token>
    decreases |lex| - i
  {
    if i >= |lex| then [] else [lex[i]] + Tokens(lex, i + Width(lex[i]))
  }

  function OptionsOf(tokens: seq<Token>): seq<Token> {
    if tokens == [] then []
    else (if tokens[0].Word? then [] else [tokens[0]]) + OptionsOf(tokens[1..])
  }

  function WordsOf(tokens: seq<Token>): seq<string> {
    if tokens == [] then []
    else (if tokens[0].Word? then [tokens[0].word] else []) + WordsOf(tokens[1..])
  }

  // ------------------------------------------------------- the two projections

  datatype Settings = Settings(
    verbosity: int, wait: bool, extended: bool, xml: bool, loops: int, stopOnFail: bool,
    maxTimeout: int, exeTime: int, exeDelay: int)

  predicate Quiet(verbosity: int) { verbosity == VERB_OFF || verbosity == VERB_OFF_LOG }

  /** creat_default_thread_args */
  function Defaults(level: int): Settings {
    Settings(level, !Quiet(level), false, false, 1, false, 0, 0, 0)
  }

  /** One option; None where the parser gives up. */
  function Set(s: Settings, t: Token): Option<Settings>
    requires !t.Word?
  {
    match t
    case Verbose(v) =>
      if v < VERB_OFF || v > VERB_OFF_LOG then None else Some(s.(verbosity := v, wait := !Quiet(v)))
    case Extended => Some(s.(extended := true))
    case Xml => Some(s.(xml := true))
    case Loop(n) => if n <= 0 then None else Some(s.(loops := n))
    case StopOnFail => Some(s.(stopOnFail := true))
    case Wait => Some(s.(wait := true, verbosity := if Quiet(s.verbosity) then VERB_RESP else s.verbosity))
    case MaxTimeout(n) => if n <= 0 then None else Some(s.(maxTimeout := n))
    case ExeTime(v) =>
      if v.None? || v.value <= 0 then None else Some(s.(exeTime := v.value, loops := 0x7fffffff))
    case ExeDelay(v) => if v.None? || v.value <= 0 then None else Some(s.(exeDelay := v.value))
  }

  function SetAll(s: Settings, options: seq<Token>): Option<Settings>
    decreases |options|
  {
    if options == [] then Some(s)
    else if options[0].Word? then None
    else
      match Set(s, options[0])
      case None => None
      case Some(s') => SetAll(s', options[1..])
  }

  /** The handler chosen, the node name, and the rows forwarded to the test. */
  datatype Target = Target(kind: Option<NodeKind>, node: string, argv: seq<string>)

  const NO_TARGET := Target(None, "", [])

  /** One word: the first one recognized names the node and takes row 0, over
      whatever stands there, yet still counts; any other goes to the next row. */
  function Take(host: Host, t: Target, word: string): Target {
    if t.kind.None? && Recognize(host, word).Some?
    then Target(Recognize(host, word), word, if t.argv == [] then [word] else t.argv[0 := word] + [""])
    else t.(argv := t.argv + [word])
  }

  function TakeAll(host: Host, t: Target, words: seq<string>): Target
    decreases |words|
  {
    if words == [] then t else TakeAll(host, Take(host, t, words[0]), words[1..])
  }

  /** The last check before the run: no busy logging to disk. */
  predicate Sane(s: Settings) {
    !(s.verbosity == VERB_OFF_LOG && s.exeDelay == 0 && (s.exeTime != 0 || s.loops != 1))
  }

  // ------------------------------------------------------------------ the parser

  /** thread_args_t as the parser fills it: argv has a fixed number of rows, all
      empty at first, and argc of them count. */
  class ThreadArgs {
    var settings: Settings
    var node: string
    var argv: array<string>
    var argc: nat

    ghost predicate Valid()
      reads this, argv
    {
      argc <= argv.Length && forall k :: argc <= k < argv.Length ==> argv[k] == ""
    }

    ghost function Forwarded(): seq<string>
      reads this, argv
      requires argc <= argv.Length
    {
      argv[..argc]
    }

    constructor (level: int, rows: nat)
      ensures Valid() && fresh(argv) && argv.Length == rows
      ensures settings == Defaults(level) && node == "" && argc == 0
    {
      settings, node, argc := Defaults(level), "", 0;
      argv := new string[rows](i => "");
    }

    /** A word, copied into its row. */
    method Copy(host: Host, kind0: Option<NodeKind>, word: string) returns (kind: Option<NodeKind>)
      requires Valid() && argc < argv.Length
      modifies this`node, this`argc, argv
      ensures Valid() && argc == old(argc) + 1
      ensures Target(kind, node, Forwarded()) == Take(host, old(Target(kind0, node, Forwarded())), word)
    {
      kind := kind0;
      if kind.None? && host.find(word).Some? {
        node, argv[0], argc := word, word, argc + 1;
        kind := host.find(word);
      } else if kind.None? && host.executable(word) {
        node, argv[0], argc := word, word, argc + 1;
        kind := Some(ExecutableNode);
      } else {
        argv[argc] := word;
        argc := argc + 1;
      }
    }

    /** One token; false where the parser gives up. */
    method Apply(host: Host, kind0: Option<NodeKind>, t: Token) returns (ok: bool, kind: Option<NodeKind>)
      requires Valid() && argc < argv.Length
      modifies this`settings, this`node, this`argc, argv
      ensures Valid() && old(argc) <= argc <= old(argc) + 1
      ensures (if ok then Some(settings) else None)
              == (if t.Word? then Some(old(settings)) else Set(old(settings), t))
      ensures Target(kind, node, Forwarded())
              == (var was := old(Target(kind0, node, Forwarded())); if t.Word? then Take(host, was, t.word) else was)
    {
      if t.Word? {
        ok := true;
        kind := Copy(host, kind0, t.word);
      } else {
        kind := kind0;
        ok := ApplyOption(t);
      }
    }

    /** An option; false where the parser gives up. */
    method ApplyOption(t: Token) returns (ok: bool)
      requires !t.Word?
      modifies this`settings
      ensures if ok then Some(settings) == Set(old(settings), t) else Set(old(settings), t).None?
    {
      match t {
        case Verbose(v) =>
          settings := settings.(verbosity := v);
          if v < VERB_OFF || v > VERB_OFF_LOG {
            return false;
          }
          settings := settings.(wait := v != VERB_OFF && v != VERB_OFF_LOG);
        case Extended => settings := settings.(extended := true);
        case Xml => settings := settings.(xml := true);
        case Loop(n) =>
          settings := settings.(loops := n);
          if n <= 0 {
            return false;
          }
        case StopOnFail => settings := settings.(stopOnFail := true);
        case Wait =>
          settings := settings.(wait := true);
          if settings.verbosity == VERB_OFF || settings.verbosity == VERB_OFF_LOG {
            settings := settings.(verbosity := VERB_RESP);
          }
        case MaxTimeout(n) =>
          settings := settings.(maxTimeout := n);
          if n <= 0 {
            return false;
          }
        case ExeTime(v) =>
          if v.None? {
            return false;
          }
          settings := settings.(exeTime := v.value, loops := 0x7fffffff);
          if v.value <= 0 {
            return false;
          }
        case ExeDelay(v) =>
          if v.None? {
            return false;
          }
          settings := settings.(exeDelay := v.value);
          if v.value <= 0 {
            return false;
          }
      }
      return true;
    }
  }

  /** The settings a line asks for, None where the parser gives up. */
  function ParsedSettings(lex: Lexer, level: int): Option<Settings> {
    SetAll(Defaults(level), OptionsOf(Tokens(lex, 1)))
  }

  /** The node a line names and the rows it forwards. */
  function ParsedTarget(host: Host, lex: Lexer): Target {
    TakeAll(host, NO_TARGET, WordsOf(Tokens(lex, 1)))
  }

  /** The lines the option phase accepts: every option in range, a recognized word,
      and the last check passed. */
  predicate Accepts(host: Host, lex: Lexer, level: int) {
    && ParsedSettings(lex, level).Some?
    && Sane(ParsedSettings(lex, level).value)
    && ParsedTarget(host, lex).kind.Some?
  }

  /** The option phase of cmd_parse.  Its single interleaved pass is two folds that
      do not meet: the settings depend on the option tokens alone, the forwarded
      rows on the words alone. */
  method ParseOptions(host: Host, line: seq<string>, beyond: string, level: int, rows: nat)
    returns (accepted: bool, args: ThreadArgs, kind: Option<NodeKind>)
    requires |line| <= rows
    ensures fresh(args) && fresh(args.argv) && args.Valid()
    ensures accepted <==> Accepts(host, Lex(host, line, beyond), level)
    ensures accepted ==> Some(args.settings) == ParsedSettings(Lex(host, line, beyond), level)
    ensures accepted ==>
              Target(kind, args.node, args.Forwarded()) == ParsedTarget(host, Lex(host, line, beyond))
  {
    args := new ThreadArgs(level, rows);
    assert args.Forwarded() == [];
    var ok;
    ok, kind := ParseLoop(host, Lex(host, line, beyond), args);
    accepted := ok && Sane(args.settings) && kind.Some?;
  }

  /** The loop, from argv[1] on. */
  method ParseLoop(host: Host, lex: Lexer, args: ThreadArgs) returns (ok: bool, kind: Option<NodeKind>)
    requires args.Valid() && args.argc == 0 && args.node == "" && args.argv.Length >= |lex|
    modifies args`settings, args`node, args`argc, args.argv
    ensures args.Valid()
    ensures (if ok then Some(args.settings) else None)
            == SetAll(old(args.settings), OptionsOf(Tokens(lex, 1)))
    ensures ok ==> Target(kind, args.node, args.Forwarded()) == ParsedTarget(host, lex)
  {
    kind := None;
    var i := 1;
    ghost var settings, target := args.settings, Target(kind, args.node, args.Forwarded());
    ghost var wanted := SetAll(settings, OptionsOf(Tokens(lex, 1)));
    ghost var goal := ParsedTarget(host, lex);
    while i < |lex|
      invariant 1 <= i && args.argc < i && args.Valid()
      invariant settings == args.settings && target == Target(kind, args.node, args.Forwarded())
      invariant Pending(host, lex, i, settings, target, wanted, goal)
    {
      PendingNext(host, lex, i, settings, target, wanted, goal);
      ok, kind := args.Apply(host, kind, lex[i]);
      if !ok {
        return;
      }
      settings, target := args.settings, if lex[i].Word? then Take(host, target, lex[i].word) else target;
      i := i + Width(lex[i]);
    }
    PendingDone(host, lex, i, settings, target, wanted, goal);
    ok := true;
  }

  /** What the rows from i on still make of settings and target. */
  ghost predicate Pending(host: Host, lex: Lexer, i: nat, settings: Settings, target: Target,
                          wanted: Option<Settings>, goal: Target)
  {
    && wanted == SetAll(settings, OptionsOf(Tokens(lex, i)))
    && goal == TakeAll(host, target, WordsOf(Tokens(lex, i)))
  }

  lemma PendingNext(host: Host, lex: Lexer, i: nat, settings: Settings, target: Target,
                    wanted: Option<Settings>, goal: Target)
    requires i < |lex| && Pending(host, lex, i, settings, target, wanted, goal)
    ensures var t := lex[i];
            if t.Word? then Pending(host, lex, i + Width(t), settings, Take(host, target, t.word), wanted, goal)
            else if Set(settings, t).Some?
            then Pending(host, lex, i + Width(t), Set(settings, t).value, target, wanted, goal)
            else wanted == None
  {
    NextToken(lex, i);
    var t := lex[i];
    var next := Tokens(lex, i + Width(t));
    if t.Word? {
      TakeOne(host, target, t.word, WordsOf(next));
    } else {
      SetOne(settings, t, OptionsOf(next));
    }
  }

  lemma PendingDone(host: Host, lex: Lexer, i: nat, settings: Settings, target: Target,
                    wanted: Option<Settings>, goal: Target)
    requires i >= |lex| && Pending(host, lex, i, settings, target, wanted, goal)
    ensures wanted == Some(settings) && goal == target
  {
  }

  lemma NextToken(lex: Lexer, i: nat)
    requires i < |lex|
    ensures var t := lex[i];
            var now, rest := Tokens(lex, i), Tokens(lex, i + Width(t));
            if t.Word? then OptionsOf(now) == OptionsOf(rest) && WordsOf(now) == [t.word] + WordsOf(rest)
            else OptionsOf(now) == [t] + OptionsOf(rest) && WordsOf(now) == WordsOf(rest)
  {
    FirstToken(lex[i], Tokens(lex, i + Width(lex[i])));
  }

  lemma FirstToken(t: Token, rest: seq<Token>)
    ensures if t.Word? then OptionsOf([t] + rest) == OptionsOf(rest) && WordsOf([t] + rest) == [t.word] + WordsOf(rest)
            else OptionsOf([t] + rest) == [t] + OptionsOf(rest) && WordsOf([t] + rest) == WordsOf(rest)
  {
    assert ([t] + rest)[1..] == rest;
    if t.Word? {
      assert [] + OptionsOf(rest) == OptionsOf(rest);
    } else {
      assert [] + WordsOf(rest) == WordsOf(rest);
    }
  }

  lemma SetOne(s: Settings, t: Token, rest: seq<Token>)
    requires !t.Word?
    ensures SetAll(s, [t] + rest) == match Set(s, t)
                                     case None => None
                                     case Some(s') => SetAll(s', rest)
  {
    assert ([t] + rest)[1..] == rest;
  }

  lemma TakeOne(host: Host, t: Target, word: string, rest: seq<string>)
    ensures TakeAll(host, t, [word] + rest) == TakeAll(host, Take(host, t, word), rest)
  {
    assert ([word] + rest)[1..] == rest;
  }

  // ------------------------------------------------------ what acceptance means

  ghost predicate Coherent(s: Settings) {
    (s.wait <==> !Quiet(s.verbosity)) && s.loops >= 1 && s.exeTime >= 0 && s.exeDelay >= 0
  }

  lemma {:induction false} SettingsStayCoherent(s: Settings, options: seq<Token>)
    requires Coherent(s) && SetAll(s, options).Some?
    ensures Coherent(SetAll(s, options).value)
    decreases |options|
  {
    if options != [] {
      SettingsStayCoherent(Set(s, options[0]).value, options[1..]);
    }
  }

  /** On every accepted line the run waits exactly when its verbosity is neither
      OFF nor OFF_LOG, makes at least one loop, and logs to disk without a delay
      only for a single untimed loop. */
  lemma AcceptedSettings(host: Host, lex: Lexer, level: int)
    requires Accepts(host, lex, level)
    ensures var s := ParsedSettings(lex, level).value;
            && (s.wait <==> s.verbosity != VERB_OFF && s.verbosity != VERB_OFF_LOG)
            && s.loops >= 1
            && (s.verbosity == VERB_OFF_LOG && s.exeDelay == 0 ==> s.loops == 1 && s.exeTime == 0)
  {
    SettingsStayCoherent(Defaults(level), OptionsOf(Tokens(lex, 1)));
  }

  /** The first word the host recognizes stands at m. */
  ghost predicate FirstRecognized(host: Host, words: seq<string>, m: nat) {
    m < |words| && Recognize(host, words[m]).Some? && forall k :: 0 <= k < m ==> Recognize(host, words[k]).None?
  }

  lemma {:induction false} ChosenTakesAll(host: Host, t: Target, words: seq<string>)
    requires t.kind.Some?
    ensures TakeAll(host, t, words) == t.(argv := t.argv + words)
    decreases |words|
  {
    if words == [] {
      assert t.argv + words == t.argv;
    } else {
      ChosenTakesAll(host, Take(host, t, words[0]), words[1..]);
      assert t.argv + [words[0]] + words[1..] == t.argv + words;
    }
  }

  lemma {:induction false} UnchosenTakesAll(host: Host, before: seq<string>, words: seq<string>)
    requires forall k :: 0 <= k < |words| ==> Recognize(host, words[k]).None?
    ensures TakeAll(host, Target(None, "", before), words) == Target(None, "", before + words)
    decreases |words|
  {
    if words == [] {
      assert before + words == before;
    } else {
      UnchosenTakesAll(host, before + [words[0]], words[1..]);
      assert before + [words[0]] + words[1..] == before + words;
    }
  }

  lemma {:induction false} TakeAllConcat(host: Host, t: Target, a: seq<string>, b: seq<string>)
    ensures TakeAll(host, t, a + b) == TakeAll(host, TakeAll(host, t, a), b)
    decreases |a|
  {
    if a == [] {
      assert a + b == b;
    } else {
      assert (a + b)[1..] == a[1..] + b;
      TakeAllConcat(host, Take(host, t, a[0]), a[1..], b);
    }
  }

  /** Exactly what is forwarded when the first recognized word stands at m: the
      words, except that for m > 0 the node overwrites row 0 and leaves its own row
      empty. */
  lemma ForwardedRows(host: Host, words: seq<string>, m: nat)
    requires FirstRecognized(host, words, m)
    ensures TakeAll(host, NO_TARGET, words) ==
            Target(Recognize(host, words[m]), words[m],
                   if m == 0 then words else words[m := ""][0 := words[m]])
  {
    var before, rest := words[..m], words[m + 1..];
    UnchosenTakesAll(host, [], before);
    assert [] + before == before;
    var chosen := Take(host, Target(None, "", before), words[m]);
    TakeAllConcat(host, NO_TARGET, before, [words[m]] + rest);
    TakeOne(host, Target(None, "", before), words[m], rest);
    ChosenTakesAll(host, chosen, rest);
    RowsJoin(words, m);
  }

  lemma RowsJoin(words: seq<string>, m: nat)
    requires m < |words|
    ensures words == words[..m] + ([words[m]] + words[m + 1..])
    ensures m == 0 ==> [words[m]] + words[m + 1..] == words
    ensures m > 0 ==> words[..m][0 := words[m]] + [""] + words[m + 1..] == words[m := ""][0 := words[m]]
  {
  }

  /** The words reach the test as they were typed exactly when the first of them is
      the node's name. */
  lemma ForwardsExactlyWhenNodeFirst(host: Host, words: seq<string>)
    requires TakeAll(host, NO_TARGET, words).kind.Some?
    ensures TakeAll(host, NO_TARGET, words).argv == words <==> Recognize(host, words[0]).Some?
    ensures words != []
  {
    if forall k :: 0 <= k < |words| ==> Recognize(host, words[k]).None? {
      UnchosenTakesAll(host, [], words);
      assert false;
    }
    var m := FirstOne(host, words);
    ForwardedRows(host, words, m);
    if m > 0 {
      assert TakeAll(host, NO_TARGET, words).argv[0] == words[m];
    }
  }

  lemma FirstOne(host: Host, words: seq<string>) returns (m: nat)
    requires exists k :: 0 <= k < |words| && Recognize(host, words[k]).Some?
    ensures FirstRecognized(host, words, m)
  {
    m := 0;
    while Recognize(host, words[m]).None?
      invariant m < |words| && forall k :: 0 <= k < m ==> Recognize(host, words[k]).None?
      invariant exists k :: m <= k < |words| && Recognize(host, words[k]).Some?
      decreases |words| - m
    {
      m := m + 1;
    }
  }

  // -------------------------------------------------- the value of --maxtmo

  /** Rows as the help text suggests them, where --maxtmo is followed by a number of
      seconds: it takes its value along like the other valued options. */
  function DocumentedWidth(t: Token): nat { if t.MaxTimeout? then 2 else Width(t) }

  /** The documented reading of a line. */
  function Documented(lex: Lexer, i: nat): seq<Token>
    decreases |lex| - i
  {
    if i >= |lex| then [] else [lex[i]] + Documented(lex, i + DocumentedWidth(lex[i]))
  }

  /** How many --maxtmo with a row behind them the scan meets. */
  function Strays(lex: Lexer, i: nat): nat
    decreases |lex| - i
  {
    if i >= |lex| then 0
    else (if lex[i].MaxTimeout? && i + 1 < |lex| then 1 else 0) + Strays(lex, i + Width(lex[i]))
  }

  /** What converts to a positive number is no option, as holds of strtol. */
  ghost predicate NumbersAreWords(host: Host) {
    forall v: string :: host.number(v) > 0 ==> IsWord(v)
  }

  /** Behind an accepted --maxtmo stands a word. */
  ghost predicate WordsBehind(lex: Lexer) {
    forall i: nat :: i + 1 < |lex| && lex[i].MaxTimeout? && lex[i].timeout > 0 ==> lex[i + 1].Word?
  }

  lemma NumberIsWord(host: Host, line: seq<string>, beyond: string, i: nat)
    requires NumbersAreWords(host) && i + 1 < |line|
    requires TokenAt(host, line, beyond, i).MaxTimeout? && TokenAt(host, line, beyond, i).timeout > 0
    ensures TokenAt(host, line, beyond, i + 1).Word?
  {
    assert IsWord(line[i + 1]);
  }

  lemma NumbersBehind(host: Host, line: seq<string>, beyond: string)
    requires NumbersAreWords(host)
    ensures WordsBehind(Lex(host, line, beyond))
  {
    var lex := Lex(host, line, beyond);
    forall i: nat | i + 1 < |line| && lex[i].MaxTimeout? && lex[i].timeout > 0
      ensures lex[i + 1].Word?
    {
      NumberIsWord(host, line, beyond, i);
    }
  }

  lemma NextDocumented(lex: Lexer, i: nat)
    requires i < |lex|
    ensures var t := lex[i];
            var now, rest := Documented(lex, i), Documented(lex, i + DocumentedWidth(t));
            if t.Word? then OptionsOf(now) == OptionsOf(rest) && WordsOf(now) == [t.word] + WordsOf(rest)
            else OptionsOf(now) == [t] + OptionsOf(rest) && WordsOf(now) == WordsOf(rest)
  {
    FirstToken(lex[i], Documented(lex, i + DocumentedWidth(lex[i])));
  }

  /** From row i on, the two readings agree on the options, and on the words but for
      the strays. */
  ghost predicate Agree(lex: Lexer, i: nat) {
    var read, documented := Tokens(lex, i), Documented(lex, i);
    && OptionsOf(read) == OptionsOf(documented)
    && |WordsOf(read)| == |WordsOf(documented)| + Strays(lex, i)
    && (Strays(lex, i) == 0 ==> WordsOf(read) == WordsOf(documented))
  }

  // One --maxtmo with its value read as a word.
  lemma StrayValue(lex: Lexer, i: nat)
    requires i + 1 < |lex| && lex[i].MaxTimeout? && lex[i + 1].Word?
    ensures OptionsOf(Tokens(lex, i)) == [lex[i]] + OptionsOf(Tokens(lex, i + 2))
    ensures Agree(lex, i + 2) ==> Agree(lex, i)
  {
    NextToken(lex, i);
    NextToken(lex, i + 1);
    NextDocumented(lex, i);
    StraysAre(lex, i);
  }

  lemma StraysAre(lex: Lexer, i: nat)
    requires i + 1 < |lex| && lex[i].MaxTimeout? && lex[i + 1].Word?
    ensures Strays(lex, i) == 1 + Strays(lex, i + 2)
  {
  }

  lemma OtherToken(lex: Lexer, i: nat)
    requires i < |lex| && !(lex[i].MaxTimeout? && i + 1 < |lex|)
    ensures Agree(lex, i + Width(lex[i])) ==> Agree(lex, i)
  {
    NextToken(lex, i);
    NextDocumented(lex, i);
  }

  // What an accepted line says of its next token and of the rest.
  lemma AcceptedNext(lex: Lexer, i: nat, s: Settings)
    requires i < |lex| && SetAll(s, OptionsOf(Tokens(lex, i))).Some?
    ensures var t := lex[i];
            && (t.Word? || Set(s, t).Some?)
            && SetAll(if t.Word? then s else Set(s, t).value, OptionsOf(Tokens(lex, i + Width(t)))).Some?
  {
    NextToken(lex, i);
    if !lex[i].Word? {
      SetOne(s, lex[i], OptionsOf(Tokens(lex, i + Width(lex[i]))));
    }
  }

  lemma {:induction false} ReadingsAgree(lex: Lexer, i: nat, s: Settings)
    requires WordsBehind(lex) && SetAll(s, OptionsOf(Tokens(lex, i))).Some?
    ensures Agree(lex, i)
    decreases |lex| - i
  {
    if i < |lex| {
      var t := lex[i];
      AcceptedNext(lex, i, s);
      var s' := if t.Word? then s else Set(s, t).value;
      if t.MaxTimeout? && i + 1 < |lex| {
        AcceptedNext(lex, i + 1, s');
        ReadingsAgree(lex, i + 2, s');
        StrayValue(lex, i);
      } else {
        ReadingsAgree(lex, i + Width(t), s');
        OtherToken(lex, i);
      }
    }
  }

  lemma {:induction false} RowsTaken(host: Host, t: Target, words: seq<string>)
    ensures |TakeAll(host, t, words).argv| == |t.argv| + |words|
    decreases |words|
  {
    if words != [] {
      RowsTaken(host, Take(host, t, words[0]), words[1..]);
    }
  }

  /** On every line whose options are accepted the settings are those of the
      documented reading, and the handler, the node and the forwarded rows are if
      and only if the scan meets no --maxtmo with a row behind it. */
  lemma DocumentedReadingExactly(host: Host, line: seq<string>, beyond: string, level: int)
    requires NumbersAreWords(host)
    requires ParsedSettings(Lex(host, line, beyond), level).Some?
    ensures var lex := Lex(host, line, beyond);
            var words := WordsOf(Documented(lex, 1));
            && ParsedSettings(lex, level) == SetAll(Defaults(level), OptionsOf(Documented(lex, 1)))
            && (WordsOf(Tokens(lex, 1)) == words <==> Strays(lex, 1) == 0)
            && (ParsedTarget(host, lex) == TakeAll(host, NO_TARGET, words) <==> Strays(lex, 1) == 0)
            && |ParsedTarget(host, lex).argv| == |words| + Strays(lex, 1)
  {
    var lex := Lex(host, line, beyond);
    NumbersBehind(host, line, beyond);
    ReadingsAgree(lex, 1, Defaults(level));
    RowsTaken(host, NO_TARGET, WordsOf(Tokens(lex, 1)));
    RowsTaken(host, NO_TARGET, WordsOf(Documented(lex, 1)));
  }

  /** A line on which they differ: the value is set as an option and forwarded as a
      word as well. */
  lemma MaxTimeoutValueIsForwarded(host: Host, node: string, value: string, beyond: string)
    requires Recognize(host, node).Some?
    requires IsWord(node) && IsWord(value)
    ensures var line := ["testbox", node, "--maxtmo", value];
            var tokens := Tokens(Lex(host, line, beyond), 1);
            && OptionsOf(tokens) == [MaxTimeout(host.number(value))]
            && TakeAll(host, NO_TARGET, WordsOf(tokens)).argv == [node, value]
  {
    var line := ["testbox", node, "--maxtmo", value];
    var lex := Lex(host, line, beyond);
    assert lex[1] == Word(node);
    assert lex[2] == MaxTimeout(host.number(value));
    assert lex[3] == Word(value);
    ThreeTokens(lex, node, host.number(value), value);
    ForwardedRows(host, [node, value], 0);
  }

  /** Not an option of the parser. */
  predicate IsWord(s: string) {
    s !in ["--verbose", "--extend", "--extended", "--xml", "--loop", "--stoponfail", "--wait", "--maxtmo",
           "--exe_time", "--exe_dly_time"]
  }

  lemma ThreeTokens(lex: Lexer, a: string, timeout: int, b: string)
    requires |lex| == 4 && lex[1] == Word(a) && lex[2] == MaxTimeout(timeout) && lex[3] == Word(b)
    ensures OptionsOf(Tokens(lex, 1)) == [MaxTimeout(timeout)]
    ensures WordsOf(Tokens(lex, 1)) == [a, b]
  {
    NextToken(lex, 3);
    assert WordsOf(Tokens(lex, 3)) == [b] && OptionsOf(Tokens(lex, 3)) == [];
    NextToken(lex, 2);
    assert WordsOf(Tokens(lex, 2)) == [b] && OptionsOf(Tokens(lex, 2)) == [MaxTimeout(timeout)];
    NextToken(lex, 1);
  }
}
