// The wire: how the client packs a command line into one message and the daemon
// takes it apart, and how the client puts the responses together again.

module Framing {
  import opened Optional
  import opened CStrings

  // ---------------------------------------------------------- command packing

  datatype SocketType = Local | Inet

  /** Exited: the program ends itself over an unknown socket type.  Faulted: the
      value of an option is missing, and the source reads through the null pointer
      behind the last argument.  Overflow: the source writes behind the message. */
  datatype Fate = Going | Exited | Faulted | Overflow

  /** What the client's argument loop leaves: the arguments packed and the two
      statics. */
  datatype Sifting = Sifting(kept: seq<string>, socketType: SocketType, ipAddr: string, fate: Fate)

  function SocketTypeOf(name: string): Option<SocketType> {
    if name == "local" then Some(Local) else if name == "inet" then Some(Inet) else None
  }

  /** The arguments without the --socket_type and --ip_addr pairs. */
  function Sift(args: seq<string>, done: Sifting): Sifting
    decreases |args|
  {
    if args == [] || !done.fate.Going? then done
    else if args[0] == "--socket_type" then
      if |args| == 1 then done.(fate := Faulted)
      else if SocketTypeOf(args[1]).None? then done.(fate := Exited)
      else Sift(args[2..], done.(socketType := SocketTypeOf(args[1]).value))
    else if args[0] == "--ip_addr" then
      if |args| == 1 then done.(fate := Faulted) else Sift(args[2..], done.(ipAddr := args[1]))
    else Sift(args[1..], done.(kept := done.kept + [args[0]]))
  }

  const START := Sifting([], Local, "localhost", Going)

  /** Each argument with its NUL, one after the other. */
  function Packed(args: seq<string>): string {
    if args == [] then "" else Packed(args[..|args| - 1]) + args[|args| - 1] + "\0"
  }

  lemma PackedAppend(args: seq<string>, a: string)
    ensures Packed(args + [a]) == Packed(args) + a + "\0"
  {
    assert (args + [a])[..|args|] == args;
  }

  lemma {:induction false} SiftGrows(args: seq<string>, done: Sifting)
    ensures |Packed(done.kept)| <= |Packed(Sift(args, done).kept)|
    decreases |args|
  {
    if args == [] || !done.fate.Going? {
    } else if args[0] == "--socket_type" {
      if |args| > 1 && SocketTypeOf(args[1]).Some? {
        SiftGrows(args[2..], done.(socketType := SocketTypeOf(args[1]).value));
      }
    } else if args[0] == "--ip_addr" {
      if |args| > 1 {
        SiftGrows(args[2..], done.(ipAddr := args[1]));
      }
    } else {
      PackedAppend(done.kept, args[0]);
      SiftGrows(args[1..], done.(kept := done.kept + [args[0]]));
    }
  }

  /** The buffer starts with the packed arguments and is zero behind them. */
  ghost predicate Filled(b: seq<char>, args: seq<string>) {
    var n := |Packed(args)|;
    n <= |b| && b[..n] == Packed(args) && forall k :: n <= k < |b| ==> b[k] == '\0'
  }

  /** And there is room for the terminator of the whole. */
  ghost predicate Holds(b: seq<char>, args: seq<string>) {
    Filled(b, args) && |Packed(args)| < |b|
  }

  /** The arguments do not fit, or the terminator behind them does not, which is
      only written when the loop has gone through. */
  predicate Overflows(args: seq<string>, size: nat) {
    var all := Sift(args, START);
    |Packed(all.kept)| > size || (all.fate.Going? && |Packed(all.kept)| == size)
  }

  /** The client's argument loop and the terminator it writes last, on a zeroed
      message buffer. */
  method Pack(args: seq<string>, pBuf: array<char>) returns (done: Sifting)
    requires forall k :: 0 <= k < pBuf.Length ==> pBuf[k] == '\0'
    modifies pBuf
    ensures done.fate.Overflow? <==> Overflows(args, pBuf.Length)
    ensures !done.fate.Overflow? ==> done == Sift(args, START) && Filled(pBuf[..], done.kept)
    ensures done.fate.Going? ==> Holds(pBuf[..], done.kept)
  {
    done := START;
    var i, pos := 0, 0;
    while i < |args| && done.fate.Going?
      invariant i <= |args| && pos == |Packed(done.kept)|
      invariant Sift(args[i..], done) == Sift(args, START) && !done.fate.Overflow?
      invariant Filled(pBuf[..], done.kept)
      decreases |args| - i, if !done.fate.Going? then 0 else 1
    {
      NextArgument(args, i, done);
      if args[i] == "--socket_type" {
        if i + 1 == |args| {
          done := done.(fate := Faulted);
        } else if SocketTypeOf(args[i + 1]).None? {
          done := done.(fate := Exited);
        } else {
          done := done.(socketType := SocketTypeOf(args[i + 1]).value);
          i := i + 2;
        }
      } else if args[i] == "--ip_addr" {
        if i + 1 == |args| {
          done := done.(fate := Faulted);
        } else {
          done := done.(ipAddr := args[i + 1]);
          i := i + 2;
        }
      } else if pos + |args[i]| + 1 > pBuf.Length {
        return done.(fate := Overflow);
      } else {
        Append(pBuf, pos, args[i], done.kept);
        pos := pos + |args[i]| + 1;
        done := done.(kept := done.kept + [args[i]]);
        i := i + 1;
      }
    }
    assert done == Sift(args, START);
    if done.fate.Going? {
      if pos == pBuf.Length {
        return done.(fate := Overflow);
      }
      ghost var b := pBuf[..];
      pBuf[pos] := '\0';
      assert pBuf[..] == b;
    }
  }

  // What one round of the loop does to the sift, and how long a kept argument makes
  // the packed ones at least.
  lemma NextArgument(args: seq<string>, i: nat, done: Sifting)
    requires i < |args| && done.fate.Going?
    ensures var a, rest := args[i], args[i..];
            Sift(rest, done) ==
            if a == "--socket_type" then
              if i + 1 == |args| then done.(fate := Faulted)
              else if SocketTypeOf(args[i + 1]).None? then done.(fate := Exited)
              else Sift(args[i + 2..], done.(socketType := SocketTypeOf(args[i + 1]).value))
            else if a == "--ip_addr" then
              if i + 1 == |args| then done.(fate := Faulted)
              else Sift(args[i + 2..], done.(ipAddr := args[i + 1]))
            else Sift(args[i + 1..], done.(kept := done.kept + [a]))
    ensures Packed(done.kept + [args[i]]) == Packed(done.kept) + args[i] + "\0"
    ensures |Packed(done.kept + [args[i]])|
            <= |Packed(Sift(args[i + 1..], done.(kept := done.kept + [args[i]])).kept)|
  {
    var rest := args[i..];
    assert rest[1..] == args[i + 1..] && (|rest| > 1 ==> rest[2..] == args[i + 2..]);
    PackedAppend(done.kept, args[i]);
    SiftGrows(args[i + 1..], done.(kept := done.kept + [args[i]]));
  }

  /** memcpy of one argument with its terminator. */
  method Append(pBuf: array<char>, pos: nat, arg: string, ghost kept: seq<string>)
    requires Filled(pBuf[..], kept) && pos == |Packed(kept)| && pos + |arg| + 1 <= pBuf.Length
    modifies pBuf
    ensures Filled(pBuf[..], kept + [arg])
  {
    PackedAppend(kept, arg);
    forall k | 0 <= k < |arg| {
      pBuf[pos + k] := arg[k];
    }
    pBuf[pos + |arg|] := '\0';
    assert pBuf[..pos + |arg| + 1] == Packed(kept) + arg + "\0";
  }

  // -------------------------------------------------------- command unpacking

  /** The strings of a message, up to the first empty one. */
  function Words(b: seq<char>): seq<string>
    decreases |b|
  {
    if '\0' !in b || b[0] == '\0' then [] else [Str(b)] + Words(b[Len(b) + 1..])
  }

  /** The empty string that ends them stands inside the buffer. */
  predicate Closed(b: seq<char>)
    decreases |b|
  {
    '\0' in b && (b[0] != '\0' ==> Closed(b[Len(b) + 1..]))
  }

  lemma FirstWord(rest: seq<char>)
    requires '\0' in rest && rest[0] != '\0'
    ensures Words(rest) == [Str(rest)] + Words(rest[Len(rest) + 1..])
    ensures Closed(rest) <==> Closed(rest[Len(rest) + 1..])
  {
  }

  lemma Slices(b: seq<char>, pos: nat, len: nat)
    requires 0 < len && pos + len <= |b|
    ensures b[pos..][..len - 1] == b[pos..pos + len - 1] && b[pos..][len..] == b[pos + len..]
  {
  }

  lemma FitsRow(argv: seq<string>, w: string, rest: seq<string>, all: seq<string>)
    requires argv + ([w] + rest) == all
    ensures |argv| < |all| && all[|argv|] == w && argv + [w] + rest == all
  {
  }

  // One word further.
  lemma NextWord(b: seq<char>, argv: seq<string>, pos: nat, len: nat)
    requires pos < |b| && '\0' in b[pos..] && b[pos] != '\0' && len == Len(b[pos..]) + 1
    requires argv + Words(b[pos..]) == Words(b)
    ensures pos + len <= |b| && (Closed(b[pos..]) <==> Closed(b[pos + len..]))
    ensures var w := b[pos..pos + len - 1];
            |argv| < |Words(b)| && Words(b)[|argv|] == w && argv + [w] + Words(b[pos + len..]) == Words(b)
  {
    FirstWord(b[pos..]);
    Slices(b, pos, len);
    FitsRow(argv, b[pos..pos + len - 1], Words(b[pos + len..]), Words(b));
  }

  /** The string at pos, if it ends in the buffer, and how many characters it takes
      with its NUL. */
  ghost predicate IsWordAt(b: seq<char>, pos: nat, word: Option<string>, len: nat)
    requires pos <= |b|
  {
    && (word.Some? <==> '\0' in b[pos..])
    && (word.Some? ==> len == Len(b[pos..]) + 1 && word.value == b[pos..pos + len - 1])
  }

  method ReadWord(b: seq<char>, pos: nat) returns (word: Option<string>, len: nat)
    requires pos <= |b|
    ensures IsWordAt(b, pos, word, len)
  {
    if '\0' !in b[pos..] {
      return None, 0;
    }
    len := Len(b[pos..]) + 1;
    word := Some(b[pos..pos + len - 1]);
  }

  /** OutOfBounds: the source reads behind the message or writes behind its rows. */
  datatype Unpacked = Argv(argv: seq<string>) | OutOfBounds

  predicate Short(argv: seq<string>, cols: nat) { forall k :: 0 <= k < |argv| ==> |argv[k]| < cols }

  /** The message ends inside its buffer, and its strings fit the rows. */
  ghost predicate Fits(b: seq<char>, rows: nat, cols: nat) {
    Closed(b) && |Words(b)| <= rows && Short(Words(b), cols)
  }

  /** Some words have been taken, and the rest of the message decides. */
  ghost predicate Cursor(b: seq<char>, argv: seq<string>, pos: nat, rows: nat, cols: nat) {
    && pos <= |b| && (Closed(b[pos..]) <==> Closed(b))
    && argv + Words(b[pos..]) == Words(b)
    && |argv| <= rows && Short(argv, cols)
  }

  lemma CursorNext(b: seq<char>, argv: seq<string>, pos: nat, rows: nat, cols: nat, word: string, len: nat)
    requires Cursor(b, argv, pos, rows, cols) && pos < |b| && b[pos] != '\0' && '\0' in b[pos..]
    requires len == Len(b[pos..]) + 1 && word == b[pos..pos + len - 1]
    ensures if |argv| == rows || len > cols then !Fits(b, rows, cols)
            else Cursor(b, argv + [word], pos + len, rows, cols)
  {
    NextWord(b, argv, pos, len);
  }

  lemma CursorEnd(b: seq<char>, argv: seq<string>, pos: nat, rows: nat, cols: nat)
    requires Cursor(b, argv, pos, rows, cols)
    ensures pos < |b| && b[pos] == '\0' ==> Fits(b, rows, cols) && argv == Words(b)
    ensures pos == |b| ==> !Fits(b, rows, cols)
  {
    if pos < |b| && b[pos] == '\0' {
      WordsEnd(b, argv, pos);
    }
  }

  lemma CursorStuck(b: seq<char>, argv: seq<string>, pos: nat, rows: nat, cols: nat)
    requires Cursor(b, argv, pos, rows, cols) && '\0' !in b[pos..]
    ensures !Fits(b, rows, cols)
  {
  }

  // One round of the loop: the source leaves its buffers, or one row more is filled.
  lemma CursorRound(b: seq<char>, argv: seq<string>, pos: nat, rows: nat, cols: nat, word: Option<string>, len: nat)
    requires Cursor(b, argv, pos, rows, cols) && pos < |b| && b[pos] != '\0' && IsWordAt(b, pos, word, len)
    ensures if word.None? || |argv| == rows || len > cols then !Fits(b, rows, cols)
            else len > 0 && Cursor(b, argv + [word.value], pos + len, rows, cols)
  {
    if word.None? {
      CursorStuck(b, argv, pos, rows, cols);
    } else {
      CursorNext(b, argv, pos, rows, cols, word.value, len);
    }
  }

  method NextRow(b: seq<char>, argv0: seq<string>, pos0: nat, rows: nat, cols: nat)
    returns (stuck: bool, argv: seq<string>, pos: nat)
    requires Cursor(b, argv0, pos0, rows, cols) && pos0 < |b| && b[pos0] != '\0'
    ensures if stuck then !Fits(b, rows, cols) else pos > pos0 && Cursor(b, argv, pos, rows, cols)
  {
    var word, len := ReadWord(b, pos0);
    CursorRound(b, argv0, pos0, rows, cols, word, len);
    stuck, argv, pos := word.None? || |argv0| == rows || len > cols, argv0, pos0;
    if !stuck {
      argv, pos := argv + [word.value], pos + len;
    }
  }

  /** tb_socket_th's loop: argv has a number of rows of cols characters each; the
      message is only read. */
  method Unpack(pBuf: array<char>, rows: nat, cols: nat) returns (result: Unpacked)
    ensures result == if Fits(pBuf[..], rows, cols) then Argv(Words(pBuf[..])) else OutOfBounds
  {
    result := UnpackMessage(pBuf[..], rows, cols);
  }

  method UnpackMessage(b: seq<char>, rows: nat, cols: nat) returns (result: Unpacked)
    ensures result == if Fits(b, rows, cols) then Argv(Words(b)) else OutOfBounds
  {
    var argv, pos := [], 0;
    CursorStart(b, rows, cols);
    while pos < |b| && b[pos] != '\0'
      invariant Cursor(b, argv, pos, rows, cols)
      decreases |b| - pos
    {
      var stuck;
      stuck, argv, pos := NextRow(b, argv, pos, rows, cols);
      if stuck {
        return OutOfBounds;
      }
    }
    CursorEnd(b, argv, pos, rows, cols);
    result := if pos == |b| then OutOfBounds else Argv(argv);
  }

  lemma CursorStart(b: seq<char>, rows: nat, cols: nat)
    ensures Cursor(b, [], 0, rows, cols)
  {
    assert b[0..] == b && [] + Words(b) == Words(b);
  }

  lemma WordsEnd(b: seq<char>, argv: seq<string>, pos: nat)
    requires pos < |b| && b[pos] == '\0'
    requires argv + Words(b[pos..]) == Words(b)
    ensures argv == Words(b) && Closed(b[pos..])
  {
    assert b[pos..][0] == '\0';
  }

  function UntilEmpty(args: seq<string>): seq<string> {
    if args == [] || args[0] == "" then [] else [args[0]] + UntilEmpty(args[1..])
  }

  ghost predicate Texts(args: seq<string>) { forall k :: 0 <= k < |args| ==> '\0' !in args[k] }

  lemma {:induction false} PackedFirst(args: seq<string>)
    requires args != []
    ensures Packed(args) == args[0] + "\0" + Packed(args[1..])
  {
    var n := |args| - 1;
    if n == 0 {
      assert Packed(args) == Packed(args[..0]) + args[0] + "\0" == args[0] + "\0";
      assert Packed(args[1..]) == "";
    } else {
      PackedFirst(args[..n]);
      assert args[..n][1..] == args[1..][..n - 1];
      assert Packed(args[1..]) == Packed(args[1..][..n - 1]) + args[n] + "\0";
      assert Packed(args) == args[0] + "\0" + Packed(args[1..][..n - 1]) + args[n] + "\0";
    }
  }

  /** The round trip: what the daemon unpacks is what the client packed, up to the
      first empty argument. */
  lemma {:induction false} UnpackingPacked(b: seq<char>, args: seq<string>)
    requires Holds(b, args) && Texts(args)
    ensures Closed(b) && Words(b) == UntilEmpty(args)
    decreases |args|
  {
    if args == [] {
      assert b[0] == '\0';
    } else {
      HoldsFirst(b, args);
      UnpackingPacked(b[|args[0]| + 1..], args[1..]);
    }
  }

  lemma HoldsFirst(b: seq<char>, args: seq<string>)
    requires args != [] && Holds(b, args) && '\0' !in args[0]
    ensures '\0' in b && Str(b) == args[0] && Len(b) == |args[0]|
    ensures b[0] == '\0' <==> args[0] == ""
    ensures Holds(b[|args[0]| + 1..], args[1..])
  {
    var a, n, all := args[0], |args[0]|, Packed(args);
    PackedFirst(args);
    assert b[..|all|][..n] == b[..n] == a;
    assert b[..|all|][n] == all[n] == '\0';
    StrIs(b, a);
    var rest := b[n + 1..];
    assert rest[..|all| - n - 1] == b[..|all|][n + 1..] == Packed(args[1..]);
  }

  lemma {:induction false} UntilEmptyIsAll(args: seq<string>)
    ensures UntilEmpty(args) == args <==> "" !in args
  {
    if args != [] {
      UntilEmptyIsAll(args[1..]);
      assert args == [args[0]] + args[1..];
      if args[0] != "" {
        assert "" in args <==> "" in args[1..];
        assert UntilEmpty(args) == args <==> UntilEmpty(args[1..]) == args[1..] by {
          if UntilEmpty(args) == args {
            assert UntilEmpty(args)[1..] == UntilEmpty(args[1..]);
          }
        }
      }
    }
  }

  /** Client to daemon: the daemon gets back all the arguments, less the two option
      pairs, exactly when none of them is empty. */
  lemma CommandRoundTrip(args: seq<string>, b: seq<char>)
    requires Texts(args) && Sift(args, START).fate.Going? && Holds(b, Sift(args, START).kept)
    ensures Closed(b) && Words(b) == UntilEmpty(Sift(args, START).kept)
    ensures Words(b) == Sift(args, START).kept <==> "" !in Sift(args, START).kept
  {
    SiftKeepsTexts(args, START);
    UnpackingPacked(b, Sift(args, START).kept);
    UntilEmptyIsAll(Sift(args, START).kept);
  }

  lemma {:induction false} SiftKeepsTexts(args: seq<string>, done: Sifting)
    requires Texts(args) && Texts(done.kept)
    ensures Texts(Sift(args, done).kept)
    decreases |args|
  {
    if args == [] || !done.fate.Going? {
    } else if args[0] == "--socket_type" {
      if |args| > 1 && SocketTypeOf(args[1]).Some? {
        SiftKeepsTexts(args[2..], done.(socketType := SocketTypeOf(args[1]).value));
      }
    } else if args[0] == "--ip_addr" {
      if |args| > 1 {
        SiftKeepsTexts(args[2..], done.(ipAddr := args[1]));
      }
    } else {
      SiftKeepsTexts(args[1..], done.(kept := done.kept + [args[0]]));
    }
  }
}

// The client's response loop.
module Responses {
  import opened CStrings

  /** A fixed-size message: size bytes, of which the last from payload on are its
      text; done tells by the header whether it is the last one. */
  datatype Protocol = Protocol(size: nat, payload: nat, done: seq<char> -> bool)

  predicate Sound(p: Protocol) { p.payload < p.size }

  function Text(p: Protocol, message: seq<char>): string
    requires Sound(p) && |message| == p.size
  {
    var b := message[p.payload..];
    if '\0' in b then Str(b) else b
  }

  /** What the stream prints: every message's text up to and including the first
      one marked done. */
  function Printed(p: Protocol, stream: seq<char>): string
    requires Sound(p)
    decreases |stream|
  {
    if |stream| < p.size then ""
    else if p.done(stream[..p.size]) then Text(p, stream[..p.size])
    else Text(p, stream[..p.size]) + Printed(p, stream[p.size..])
  }

  /** The stream contains a whole message marked done. */
  predicate Answers(p: Protocol, stream: seq<char>)
    requires Sound(p)
    decreases |stream|
  {
    |stream| >= p.size && (p.done(stream[..p.size]) || Answers(p, stream[p.size..]))
  }

  /** The length through that message. */
  function AnswerLength(p: Protocol, stream: seq<char>): (n: nat)
    requires Sound(p) && Answers(p, stream)
    ensures n <= |stream|
    decreases |stream|
  {
    if p.done(stream[..p.size]) then p.size else p.size + AnswerLength(p, stream[p.size..])
  }

  /** How read behaves: call number k either fails or brings some bytes, at least
      one and no more than asked for and there. */
  type Reader = nat -> int

  function Brought(reader: Reader, k: nat, limit: nat): (n: int)
    requires limit > 0
    ensures n < 0 || 1 <= n <= limit
  {
    var n := reader(k);
    if n < 0 then -1 else if n == 0 then 1 else if n > limit then limit else n
  }

  lemma OneMessage(p: Protocol, rest: seq<char>, output: string)
    requires Sound(p) && Answers(p, rest)
    ensures var t, more := Text(p, rest[..p.size]), rest[p.size..];
            if p.done(rest[..p.size]) then
              output + Printed(p, rest) == output + t && AnswerLength(p, rest) == p.size
            else
              && Answers(p, more)
              && output + Printed(p, rest) == output + t + Printed(p, more)
              && AnswerLength(p, rest) == p.size + AnswerLength(p, more)
  {
  }

  lemma NextRest(stream: seq<char>, used: nat, size: nat)
    requires used + size <= |stream|
    ensures stream[used..][..size] == stream[used..used + size]
    ensures stream[used..][size..] == stream[used + size..]
  {
  }

  /** What has been printed and what the stream still holds make up the answer. */
  ghost predicate Reading(p: Protocol, stream: seq<char>, output: string, used: nat, done: bool)
    requires Sound(p) && Answers(p, stream)
  {
    if done then output == Printed(p, stream) && used == AnswerLength(p, stream)
    else
      && used <= |stream| && Answers(p, stream[used..])
      && output + Printed(p, stream[used..]) == Printed(p, stream)
      && used + AnswerLength(p, stream[used..]) == AnswerLength(p, stream)
  }

  lemma StartReading(p: Protocol, stream: seq<char>)
    requires Sound(p) && Answers(p, stream)
    ensures Reading(p, stream, "", 0, false)
  {
    assert stream[0..] == stream;
  }

  lemma KeepReading(p: Protocol, stream: seq<char>, output: string, used: nat)
    requires Sound(p) && Answers(p, stream) && Reading(p, stream, output, used, false)
    ensures used + p.size <= |stream|
    ensures var message := stream[used..used + p.size];
            Reading(p, stream, output + Text(p, message), used + p.size, p.done(message))
  {
    NextRest(stream, used, p.size);
    OneMessage(p, stream[used..], output);
  }

  lemma StopReading(p: Protocol, stream: seq<char>, output: string, used: nat)
    requires Sound(p) && Answers(p, stream) && Reading(p, stream, output, used, false)
    ensures output <= Printed(p, stream) && used <= AnswerLength(p, stream)
  {
  }

  /** main's response loop.  However the reads cut the stream, the client prints
      exactly the texts up to the first done message, and stops behind it; if a
      read fails, it has printed a beginning of that. */
  method Receive(p: Protocol, stream: seq<char>, reader: Reader) returns (output: string, used: nat, failed: bool)
    requires Sound(p) && Answers(p, stream)
    ensures !failed ==> output == Printed(p, stream) && used == AnswerLength(p, stream)
    ensures failed ==> output <= Printed(p, stream) && used <= AnswerLength(p, stream)
    ensures (forall k :: reader(k) >= 0) ==> !failed
  {
    output, used, failed := "", 0, false;
    var calls := 0;
    var done := false;
    StartReading(p, stream);
    while !done
      invariant Reading(p, stream, output, used, done) && !failed
      decreases |stream| - used, if done then 0 else 1
    {
      KeepReading(p, stream, output, used);
      var message;
      message, calls, failed := ReadMessage(p, stream, used, calls, reader);
      if failed {
        StopReading(p, stream, output, used);
        return;
      }
      output := output + Text(p, message);
      used := used + p.size;
      done := p.done(message);
    }
  }

  /** The inner loop: refill the zeroed message buffer until it is full. */
  method ReadMessage(p: Protocol, stream: seq<char>, start: nat, calls0: nat, reader: Reader)
    returns (message: seq<char>, calls: nat, failed: bool)
    requires Sound(p) && start + p.size <= |stream|
    ensures !failed ==> message == stream[start..start + p.size]
    ensures failed ==> exists k :: reader(k) < 0
  {
    var buffer := new char[p.size](i => '\0');
    calls := calls0;
    var br := 0;
    while br < p.size
      invariant 0 <= br <= p.size
      invariant forall k :: 0 <= k < br ==> buffer[k] == stream[start + k]
      decreases p.size - br
    {
      var n := Brought(reader, calls, p.size - br);
      calls := calls + 1;
      if n < 0 {
        assert reader(calls - 1) < 0;
        return [], calls, true;
      }
      forall k | 0 <= k < n {
        buffer[br + k] := stream[start + br + k];
      }
      br := br + n;
    }
    assert buffer[..] == stream[start..start + p.size];
    return buffer[..], calls, false;
  }
}
