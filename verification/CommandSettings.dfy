// What an accepted command line means, said of what was typed: which rows are read as
// which option, which value of several counts, and which lines are refused.

module CommandSettings {
  import opened Optional
  import opened CommandLine

  // ------------------------------------------------------- what counts as typed

  datatype Typed =
    | AskVerbose(text: string)
    | AskExtended(short: bool)
    | AskXml
    | AskLoop(text: string)
    | AskStopOnFail
    | AskWait
    | AskMaxTimeout(text: string)
    | AskTime(text: string)
    | AskDelay(text: string)
    | Plain(word: string)

  function Rows(t: Typed): seq<string> {
    match t
    case AskVerbose(text) => ["--verbose", text]
    case AskExtended(short) => [if short then "--extend" else "--extended"]
    case AskXml => ["--xml"]
    case AskLoop(text) => ["--loop", text]
    case AskStopOnFail => ["--stoponfail"]
    case AskWait => ["--wait"]
    case AskMaxTimeout(text) => ["--maxtmo", text]
    case AskTime(text) => ["--exe_time", text]
    case AskDelay(text) => ["--exe_dly_time", text]
    case Plain(word) => [word]
  }

  function AllRows(ts: seq<Typed>): seq<string> {
    if ts == [] then [] else Rows(ts[0]) + AllRows(ts[1..])
  }

  function Meant(host: Host, t: Typed): seq<Token> {
    match t
    case AskVerbose(text) => [Verbose(host.number(text))]
    case AskExtended(_) => [Extended]
    case AskXml => [Xml]
    case AskLoop(text) => [Loop(host.number(text))]
    case AskStopOnFail => [StopOnFail]
    case AskWait => [Wait]
    case AskMaxTimeout(text) => [MaxTimeout(host.number(text)), Word(text)]
    case AskTime(text) => [ExeTime(host.seconds(text))]
    case AskDelay(text) => [ExeDelay(host.seconds(text))]
    case Plain(word) => [Word(word)]
  }

  function AllMeant(host: Host, ts: seq<Typed>): seq<Token> {
    if ts == [] then [] else Meant(host, ts[0]) + AllMeant(host, ts[1..])
  }

  /** Words, and the value of --maxtmo that is read as one, are no options. */
  predicate Proper(t: Typed) {
    (t.Plain? ==> IsWord(t.word)) && (t.AskMaxTimeout? ==> IsWord(t.text))
  }

  lemma ValuedToken(host: Host, line: seq<string>, beyond: string, i: nat, t: Typed)
    requires |Rows(t)| == 2 && i + 2 <= |line| && line[i] == Rows(t)[0] && line[i + 1] == Rows(t)[1]
    ensures TokenAt(host, line, beyond, i) == Meant(host, t)[0]
  {
  }

  lemma FlagToken(host: Host, line: seq<string>, beyond: string, i: nat, t: Typed)
    requires |Rows(t)| == 1 && !t.Plain? && i < |line| && line[i] == Rows(t)[0]
    ensures [TokenAt(host, line, beyond, i)] == Meant(host, t)
  {
  }

  lemma WordToken(host: Host, line: seq<string>, beyond: string, i: nat)
    requires i < |line| && IsWord(line[i])
    ensures TokenAt(host, line, beyond, i) == Word(line[i])
  {
  }

  /** The tokens at i when the rows from there on start with those of t. */
  lemma ReadsOne(host: Host, line: seq<string>, beyond: string, i: nat, t: Typed, rest: seq<string>)
    requires Proper(t) && i <= |line| && line[i..] == Rows(t) + rest
    ensures var lex := Lex(host, line, beyond);
            Tokens(lex, i) == Meant(host, t) + Tokens(lex, i + |Rows(t)|)
    ensures line[i + |Rows(t)|..] == rest
  {
    var lex := Lex(host, line, beyond);
    RowsAt(line, i, Rows(t), rest);
    if t.Plain? {
      WordToken(host, line, beyond, i);
      TokensAt(lex, i);
    } else if |Rows(t)| == 1 {
      FlagToken(host, line, beyond, i, t);
      TokensAt(lex, i);
    } else {
      ValuedToken(host, line, beyond, i, t);
      if t.AskMaxTimeout? {
        WordToken(host, line, beyond, i + 1);
        TwoRows(lex, i);
      } else {
        TokensAt(lex, i);
      }
    }
  }

  lemma TwoRows(lex: Lexer, i: nat)
    requires i + 1 < |lex| && lex[i].MaxTimeout? && lex[i + 1].Word?
    ensures Tokens(lex, i) == [lex[i], lex[i + 1]] + Tokens(lex, i + 2)
  {
    TokensAt(lex, i);
    TokensAt(lex, i + 1);
    OneByOne(lex[i], lex[i + 1], Tokens(lex, i + 2));
  }

  lemma TokensAt(lex: Lexer, i: nat)
    requires i < |lex|
    ensures Tokens(lex, i) == [lex[i]] + Tokens(lex, i + Width(lex[i]))
  {
  }

  lemma OneByOne(a: Token, b: Token, rest: seq<Token>)
    ensures [a] + ([b] + rest) == [a, b] + rest
  {
  }

  lemma RowsAt(line: seq<string>, i: nat, rows: seq<string>, rest: seq<string>)
    requires i <= |line| && line[i..] == rows + rest
    ensures i + |rows| <= |line| && line[i + |rows|..] == rest
    ensures forall k :: 0 <= k < |rows| ==> line[i + k] == rows[k]
  {
    assert line[i + |rows|..] == line[i..][|rows|..];
    forall k | 0 <= k < |rows|
      ensures line[i + k] == rows[k]
    {
      assert line[i..][k] == rows[k];
    }
  }

  lemma FirstRows(ts: seq<Typed>)
    requires ts != []
    ensures AllRows(ts) == Rows(ts[0]) + AllRows(ts[1..])
  {
  }

  lemma FirstMeant(host: Host, ts: seq<Typed>)
    requires ts != []
    ensures AllMeant(host, ts) == Meant(host, ts[0]) + AllMeant(host, ts[1..])
  {
  }

  lemma {:induction false} ReadsFrom(host: Host, line: seq<string>, beyond: string, i: nat, ts: seq<Typed>)
    requires i <= |line| && line[i..] == AllRows(ts) && forall k :: 0 <= k < |ts| ==> Proper(ts[k])
    ensures Tokens(Lex(host, line, beyond), i) == AllMeant(host, ts)
    decreases |ts|
  {
    if ts != [] {
      FirstRows(ts);
      ReadsOne(host, line, beyond, i, ts[0], AllRows(ts[1..]));
      ReadsFrom(host, line, beyond, i + |Rows(ts[0])|, ts[1..]);
      FirstMeant(host, ts);
    }
  }

  /** A line is read as what was typed, option by option and word by word. */
  lemma LineIsReadAsTyped(host: Host, ts: seq<Typed>, program: string, beyond: string)
    requires forall k :: 0 <= k < |ts| ==> Proper(ts[k])
    ensures Tokens(Lex(host, [program] + AllRows(ts), beyond), 1) == AllMeant(host, ts)
  {
    var line := [program] + AllRows(ts);
    assert line[1..] == AllRows(ts);
    ReadsFrom(host, line, beyond, 1, ts);
  }

  // ------------------------------------------------------- which value counts

  /** The last option of a kind. */
  function Last(options: seq<Token>, kind: Token -> bool): (r: Option<Token>)
    ensures r.Some? ==> kind(r.value)
  {
    if options == [] then None
    else if kind(options[|options| - 1]) then Some(options[|options| - 1])
    else Last(options[..|options| - 1], kind)
  }

  lemma {:induction false} LastIs(options: seq<Token>, kind: Token -> bool)
    ensures Last(options, kind).None? <==> forall k :: 0 <= k < |options| ==> !kind(options[k])
    ensures forall i :: 0 <= i < |options| && kind(options[i])
                        && (forall k :: i < k < |options| ==> !kind(options[k])) ==>
              Last(options, kind) == Some(options[i])
  {
    if options != [] {
      LastIs(options[..|options| - 1], kind);
    }
  }

  predicate IsVerbose(t: Token) { t.Verbose? }
  predicate IsVerboseOrWait(t: Token) { t.Verbose? || t.Wait? }
  predicate SetsLoops(t: Token) { t.Loop? || t.ExeTime? }
  predicate IsMaxTimeout(t: Token) { t.MaxTimeout? }
  predicate IsExeTime(t: Token) { t.ExeTime? }
  predicate IsExeDelay(t: Token) { t.ExeDelay? }

  /** An option whose value the parser takes. */
  predicate InRange(t: Token) {
    match t
    case Verbose(level) => 0 <= level <= 3
    case Loop(count) => count > 0
    case MaxTimeout(timeout) => timeout > 0
    case ExeTime(time) => time.Some? && time.value > 0
    case ExeDelay(delay) => delay.Some? && delay.value > 0
    case Word(_) => false
    case _ => true
  }

  predicate AllInRange(options: seq<Token>) { forall k :: 0 <= k < |options| ==> InRange(options[k]) }

  /** Options are refused exactly if one of them is out of range. */
  lemma {:induction false} RefusedExactly(s: Settings, options: seq<Token>)
    ensures SetAll(s, options).Some? <==> AllInRange(options)
    decreases |options|
  {
    if options != [] {
      FirstInRange(options);
      if !options[0].Word? && Set(s, options[0]).Some? {
        RefusedExactly(Set(s, options[0]).value, options[1..]);
      }
    }
  }

  lemma FirstInRange(options: seq<Token>)
    requires options != []
    ensures AllInRange(options) <==> InRange(options[0]) && AllInRange(options[1..])
  {
    if InRange(options[0]) && AllInRange(options[1..]) {
      forall k | 0 <= k < |options|
        ensures InRange(options[k])
      {
        assert k > 0 ==> options[k] == options[1..][k - 1];
      }
    }
  }

  lemma {:induction false} SetLast(s: Settings, options: seq<Token>)
    requires options != [] && SetAll(s, options).Some?
    ensures var n := |options| - 1;
            && SetAll(s, options[..n]).Some? && !options[n].Word?
            && SetAll(s, options) == Set(SetAll(s, options[..n]).value, options[n])
    decreases |options|
  {
    if |options| > 1 {
      var s' := Set(s, options[0]).value;
      SetLast(s', options[1..]);
      assert options[1..][..|options| - 2] == options[..|options| - 1][1..];
    }
  }

  // The loudness asked for: the last --verbose, else the daemon's own level.
  function Asked(level: int, options: seq<Token>): int {
    match Last(options, IsVerbose)
    case None => level
    case Some(t) => t.level
  }

  function NumberOf(t: Option<Token>, none: int): int {
    match t
    case Some(Loop(n)) => n
    case Some(ExeTime(time)) => if time.Some? then time.value else none
    case Some(ExeDelay(delay)) => if delay.Some? then delay.value else none
    case Some(MaxTimeout(n)) => n
    case _ => none
  }

  function Loudness(level: int, options: seq<Token>): int {
    if Last(options, IsVerboseOrWait) == Some(Wait) && Asked(level, options) in {0, 3} then 1
    else Asked(level, options)
  }

  function Loops(options: seq<Token>): int {
    match Last(options, SetsLoops)
    case None => 1
    case Some(t) => if t.Loop? then t.count else 0x7fffffff
  }

  /** What the settings come to: the last option of a kind counts, --exe_time asks for
      as many loops as there can be, and a --wait that is the last word on loudness
      turns a quiet level into plain responses. */
  function Means(level: int, options: seq<Token>): Settings {
    Settings(
      Loudness(level, options), Loudness(level, options) !in {0, 3},
      Extended in options, Xml in options, Loops(options), StopOnFail in options,
      NumberOf(Last(options, IsMaxTimeout), 0), NumberOf(Last(options, IsExeTime), 0),
      NumberOf(Last(options, IsExeDelay), 0))
  }

  lemma MemberOfLast(options: seq<Token>, t: Token)
    requires options != []
    ensures t in options <==> t == options[|options| - 1] || t in options[..|options| - 1]
  {
    assert options == options[..|options| - 1] + [options[|options| - 1]];
  }

  // One option more.

  lemma FlagsNext(options: seq<Token>, s: Settings)
    requires options != [] && !options[|options| - 1].Word? && Set(s, options[|options| - 1]).Some?
    requires var init := options[..|options| - 1];
             s.extended == (Extended in init) && s.xml == (Xml in init) && s.stopOnFail == (StopOnFail in init)
    ensures var s' := Set(s, options[|options| - 1]).value;
            && s'.extended == (Extended in options) && s'.xml == (Xml in options)
            && s'.stopOnFail == (StopOnFail in options)
  {
    MemberOfLast(options, Extended);
    MemberOfLast(options, Xml);
    MemberOfLast(options, StopOnFail);
  }

  lemma LoopsNext(options: seq<Token>, s: Settings)
    requires options != [] && !options[|options| - 1].Word? && Set(s, options[|options| - 1]).Some?
    requires s.loops == Loops(options[..|options| - 1])
    ensures Set(s, options[|options| - 1]).value.loops == Loops(options)
  {
  }

  lemma MaxTimeoutNext(options: seq<Token>, s: Settings)
    requires options != [] && !options[|options| - 1].Word? && Set(s, options[|options| - 1]).Some?
    requires s.maxTimeout == NumberOf(Last(options[..|options| - 1], IsMaxTimeout), 0)
    ensures Set(s, options[|options| - 1]).value.maxTimeout == NumberOf(Last(options, IsMaxTimeout), 0)
  {
  }

  lemma ExeTimeNext(options: seq<Token>, s: Settings)
    requires options != [] && !options[|options| - 1].Word? && Set(s, options[|options| - 1]).Some?
    requires s.exeTime == NumberOf(Last(options[..|options| - 1], IsExeTime), 0)
    ensures Set(s, options[|options| - 1]).value.exeTime == NumberOf(Last(options, IsExeTime), 0)
  {
  }

  lemma ExeDelayNext(options: seq<Token>, s: Settings)
    requires options != [] && !options[|options| - 1].Word? && Set(s, options[|options| - 1]).Some?
    requires s.exeDelay == NumberOf(Last(options[..|options| - 1], IsExeDelay), 0)
    ensures Set(s, options[|options| - 1]).value.exeDelay == NumberOf(Last(options, IsExeDelay), 0)
  {
  }

  lemma LoudnessNext(level: int, options: seq<Token>, s: Settings)
    requires options != [] && !options[|options| - 1].Word? && Set(s, options[|options| - 1]).Some?
    requires var init := options[..|options| - 1];
             s.verbosity == Loudness(level, init) && s.wait == (Loudness(level, init) !in {0, 3})
    ensures var s' := Set(s, options[|options| - 1]).value;
            s'.verbosity == Loudness(level, options) && s'.wait == (Loudness(level, options) !in {0, 3})
  {
  }

  lemma {:induction false} SettingsAre(level: int, options: seq<Token>)
    requires SetAll(Defaults(level), options).Some?
    ensures SetAll(Defaults(level), options).value == Means(level, options)
  {
    if options != [] {
      var init := options[..|options| - 1];
      SetLast(Defaults(level), options);
      SettingsAre(level, init);
      FlagsNext(options, Means(level, init));
      LoopsNext(options, Means(level, init));
      MaxTimeoutNext(options, Means(level, init));
      ExeTimeNext(options, Means(level, init));
      ExeDelayNext(options, Means(level, init));
      LoudnessNext(level, options, Means(level, init));
    }
  }

  // --------------------------------------------------------- which lines are refused

  /** A word that names a group, suite, case or executable. */
  predicate Names(host: Host, word: string) { host.find(word).Some? || host.executable(word) }

  ghost predicate SomeNames(host: Host, words: seq<string>) { exists k :: 0 <= k < |words| && Names(host, words[k]) }

  /** The first word that names something is the node; a group, suite or case goes
      before an executable of the same name. */
  lemma NodeIsFirstNamed(host: Host, words: seq<string>, m: nat)
    requires m < |words| && Names(host, words[m]) && forall k :: 0 <= k < m ==> !Names(host, words[k])
    ensures var t := TakeAll(host, NO_TARGET, words);
            && t.node == words[m]
            && t.kind == (if host.find(words[m]).Some? then host.find(words[m]) else Some(ExecutableNode))
            && t.argv == (if m == 0 then words else words[m := ""][0 := words[m]])
  {
    forall k | 0 <= k <= m
      ensures Recognize(host, words[k]).Some? <==> Names(host, words[k])
    {
    }
    ForwardedRows(host, words, m);
  }

  lemma NodeExactly(host: Host, words: seq<string>)
    ensures TakeAll(host, NO_TARGET, words).kind.Some? <==> SomeNames(host, words)
  {
    if k :| 0 <= k < |words| && Names(host, words[k]) {
      assert Recognize(host, words[k]).Some?;
      var m := FirstOne(host, words);
      ForwardedRows(host, words, m);
    } else {
      forall k | 0 <= k < |words|
        ensures Recognize(host, words[k]).None?
      {
        assert !Names(host, words[k]);
      }
      UnchosenTakesAll(host, [], words);
    }
  }

  /** A line is accepted exactly if every option is in range, some word names a node,
      and busy logging to disk is not asked for: verbosity 3 without a delay for more
      than one loop or for a time. */
  lemma AcceptsExactly(host: Host, lex: Lexer, level: int)
    ensures var options, words := OptionsOf(Tokens(lex, 1)), WordsOf(Tokens(lex, 1));
            Accepts(host, lex, level) <==>
            && AllInRange(options)
            && SomeNames(host, words)
            && var s := Means(level, options);
            !(s.verbosity == 3 && s.exeDelay == 0 && (s.exeTime != 0 || s.loops != 1))
  {
    var options, words := OptionsOf(Tokens(lex, 1)), WordsOf(Tokens(lex, 1));
    RefusedExactly(Defaults(level), options);
    NodeExactly(host, words);
    if SetAll(Defaults(level), options).Some? {
      SettingsAre(level, options);
    }
    assert ParsedSettings(lex, level) == SetAll(Defaults(level), options);
    assert ParsedTarget(host, lex) == TakeAll(host, NO_TARGET, words);
  }

  /** The settings of an accepted line are those its options mean. */
  lemma AcceptedMeans(host: Host, lex: Lexer, level: int)
    requires Accepts(host, lex, level)
    ensures ParsedSettings(lex, level) == Some(Means(level, OptionsOf(Tokens(lex, 1))))
  {
    SettingsAre(level, OptionsOf(Tokens(lex, 1)));
  }
}
