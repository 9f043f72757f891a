// What travels over the wire, said of what was typed and of the messages sent: the
// meaning of the client's options, of a message's strings, and of the responses.

module Wire {
  import opened Optional
  import opened CStrings
  import opened Framing
  import opened Responses

  // ---------------------------------------------------------- the client's options

  datatype Segment = UseLocal | UseInet | Address(ip: string) | Plain(word: string)

  function Rows(g: Segment): seq<string> {
    match g
    case UseLocal => ["--socket_type", "local"]
    case UseInet => ["--socket_type", "inet"]
    case Address(ip) => ["--ip_addr", ip]
    case Plain(word) => [word]
  }

  function AllRows(gs: seq<Segment>): seq<string> {
    if gs == [] then [] else Rows(gs[0]) + AllRows(gs[1..])
  }

  predicate Proper(gs: seq<Segment>) {
    forall k :: 0 <= k < |gs| && gs[k].Plain? ==> gs[k].word != "--socket_type" && gs[k].word != "--ip_addr"
  }

  function Plains(gs: seq<Segment>): seq<string> {
    if gs == [] then [] else (if gs[0].Plain? then [gs[0].word] else []) + Plains(gs[1..])
  }

  /** The socket type of the last pair that gives one. */
  function LastSocket(gs: seq<Segment>, none: SocketType): SocketType {
    if gs == [] then none
    else LastSocket(gs[1..], if gs[0].UseLocal? then Local else if gs[0].UseInet? then Inet else none)
  }

  function LastAddress(gs: seq<Segment>, none: string): string {
    if gs == [] then none else LastAddress(gs[1..], if gs[0].Address? then gs[0].ip else none)
  }

  function After(gs: seq<Segment>, done: Sifting): Sifting {
    Sifting(done.kept + Plains(gs), LastSocket(gs, done.socketType), LastAddress(gs, done.ipAddr), done.fate)
  }

  function One(g: Segment, done: Sifting): Sifting {
    match g
    case UseLocal => done.(socketType := Local)
    case UseInet => done.(socketType := Inet)
    case Address(ip) => done.(ipAddr := ip)
    case Plain(word) => done.(kept := done.kept + [word])
  }

  lemma SiftOne(g: Segment, rest: seq<string>, done: Sifting)
    requires done.fate.Going? && (g.Plain? ==> g.word != "--socket_type" && g.word != "--ip_addr")
    ensures Sift(Rows(g) + rest, done) == Sift(rest, One(g, done))
  {
    var args := Rows(g) + rest;
    assert args[|Rows(g)|..] == rest;
    if g.UseInet? {
      OtherSocket();
    }
  }

  lemma OtherSocket()
    ensures SocketTypeOf("local") == Some(Local) && SocketTypeOf("inet") == Some(Inet)
  {
    assert "inet"[0] != "local"[0];
  }

  lemma AfterFirst(gs: seq<Segment>, done: Sifting)
    requires gs != []
    ensures After(gs, done) == After(gs[1..], One(gs[0], done))
  {
    var rest := Plains(gs[1..]);
    if gs[0].Plain? {
      assert done.kept + ([gs[0].word] + rest) == done.kept + [gs[0].word] + rest;
    } else {
      assert [] + rest == rest;
    }
  }

  lemma {:induction false} SiftAll(gs: seq<Segment>, rest: seq<string>, done: Sifting)
    requires done.fate.Going? && Proper(gs)
    ensures Sift(AllRows(gs) + rest, done) == Sift(rest, After(gs, done))
    decreases |gs|
  {
    if gs == [] {
      assert AllRows(gs) + rest == rest;
      assert done.kept + [] == done.kept;
    } else {
      assert AllRows(gs) + rest == Rows(gs[0]) + (AllRows(gs[1..]) + rest);
      SiftOne(gs[0], AllRows(gs[1..]) + rest, done);
      SiftAll(gs[1..], rest, One(gs[0], done));
      AfterFirst(gs, done);
    }
  }

  /** The client forwards the words in order, and takes the last socket type and the
      last address given: local or inet, and by default the local socket and
      localhost. */
  lemma OptionsAreTaken(gs: seq<Segment>)
    requires Proper(gs)
    ensures Sift(AllRows(gs), START) == Sifting(Plains(gs), LastSocket(gs, Local), LastAddress(gs, "localhost"), Going)
  {
    SiftAll(gs, [], START);
    assert AllRows(gs) + [] == AllRows(gs);
    assert [] + Plains(gs) == Plains(gs);
  }

  /** It stops at the first socket type it does not know, and at an option without its
      value. */
  lemma BadOptionsStop(gs: seq<Segment>, bad: string, rest: seq<string>, name: string)
    requires Proper(gs)
    ensures bad != "local" && bad != "inet" ==>
              Sift(AllRows(gs) + (["--socket_type", bad] + rest), START) == After(gs, START).(fate := Exited)
    ensures name == "--socket_type" || name == "--ip_addr" ==>
              Sift(AllRows(gs) + [name], START) == After(gs, START).(fate := Faulted)
  {
    SiftAll(gs, ["--socket_type", bad] + rest, START);
    SiftAll(gs, [name], START);
  }

  // ---------------------------------------------------------- sizes and strings

  /** Characters and terminators. */
  function Total(args: seq<string>): nat {
    if args == [] then 0 else |args[0]| + 1 + Total(args[1..])
  }

  lemma {:induction false} PackedTotal(args: seq<string>)
    ensures |Packed(args)| == Total(args)
  {
    if args != [] {
      PackedFirst(args);
      PackedTotal(args[1..]);
    }
  }

  /** The message overflows exactly if the forwarded words take more room than it has,
      each with its NUL, or just all of it and the loop has gone through. */
  lemma OverflowsExactly(args: seq<string>, size: nat)
    ensures var all := Sift(args, START);
            Overflows(args, size) <==> Total(all.kept) > size || (Total(all.kept) == size && all.fate == Going)
  {
    PackedTotal(Sift(args, START).kept);
  }

  /** The strings of any message: it is those strings, each with its NUL, followed by
      an empty one or by a stretch without a NUL. */
  lemma {:induction false} WordsAre(b: seq<char>) returns (rest: seq<char>)
    ensures b == Packed(Words(b)) + rest
    ensures if Closed(b) then rest != [] && rest[0] == '\0' else '\0' !in rest
    decreases |b|
  {
    if '\0' !in b || b[0] == '\0' {
      rest := b;
      assert [] + rest == b;
    } else {
      FirstWord(b);
      rest := WordsAre(b[Len(b) + 1..]);
      PackedCons(Str(b), Words(b[Len(b) + 1..]));
      WordThenTail(b);
      Regroup(Str(b), Packed(Words(b[Len(b) + 1..])), rest);
    }
  }

  lemma PackedCons(w: string, rest: seq<string>)
    ensures Packed([w] + rest) == w + "\0" + Packed(rest)
  {
    PackedFirst([w] + rest);
    assert ([w] + rest)[1..] == rest;
  }

  /** None of them is empty or has a NUL. */
  lemma {:induction false} WordsAreWords(b: seq<char>)
    ensures forall k :: 0 <= k < |Words(b)| ==> Words(b)[k] != "" && '\0' !in Words(b)[k]
    decreases |b|
  {
    if '\0' in b && b[0] != '\0' {
      FirstWord(b);
      WordsAreWords(b[Len(b) + 1..]);
    }
  }

  lemma WordThenTail(b: seq<char>)
    requires '\0' in b
    ensures b == Str(b) + "\0" + b[Len(b) + 1..]
  {
  }

  lemma Regroup(w: string, packed: string, rest: seq<char>)
    ensures w + "\0" + (packed + rest) == w + "\0" + packed + rest
  {
  }

  /** A packed command fits the daemon's rows exactly if there are no more words than
      rows, and each fits one with its NUL. */
  lemma PackedFits(b: seq<char>, args: seq<string>, rows: nat, cols: nat)
    requires Holds(b, args) && Framing.Texts(args) && "" !in args
    ensures Fits(b, rows, cols) <==> |args| <= rows && forall k :: 0 <= k < |args| ==> |args[k]| + 1 <= cols
  {
    UnpackingPacked(b, args);
    UntilEmptyIsAll(args);
  }

  // ------------------------------------------------------------------ responses

  /** The text printed for a message is the part from the payload on, up to the first
      NUL there, or all of it. */
  lemma TextIs(p: Protocol, message: seq<char>)
    requires Sound(p) && |message| == p.size
    ensures var t := Text(p, message);
            var end := p.payload + |t|;
            && end <= |message| && t == message[p.payload..end] && '\0' !in t
            && (end == |message| || message[end] == '\0')
  {
    var b := message[p.payload..];
    if '\0' in b {
      assert b[..Len(b)] == message[p.payload..p.payload + Len(b)];
    } else {
      assert message[p.payload..|message|] == b;
    }
  }

  function Joined(ms: seq<seq<char>>): seq<char> {
    if ms == [] then [] else ms[0] + Joined(ms[1..])
  }

  function Texts(p: Protocol, ms: seq<seq<char>>): string
    requires Sound(p) && forall k :: 0 <= k < |ms| ==> |ms[k]| == p.size
  {
    if ms == [] then "" else Text(p, ms[0]) + Texts(p, ms[1..])
  }

  /** A stream of messages of which the last is the first marked done, and anything
      behind it: that is an answer, as long as those messages, and prints their texts. */
  lemma {:induction false} AnswerIs(p: Protocol, ms: seq<seq<char>>, rest: seq<char>)
    requires Sound(p) && ms != [] && forall k :: 0 <= k < |ms| ==> |ms[k]| == p.size
    requires forall k :: 0 <= k < |ms| ==> (p.done(ms[k]) <==> k == |ms| - 1)
    ensures var stream := Joined(ms) + rest;
            Answers(p, stream) && AnswerLength(p, stream) == |Joined(ms)| && Printed(p, stream) == Texts(p, ms)
    decreases |ms|
  {
    var stream, more := Joined(ms) + rest, Joined(ms[1..]) + rest;
    assert stream == ms[0] + more;
    assert stream[..p.size] == ms[0] && stream[p.size..] == more;
    if |ms| == 1 {
      assert p.done(ms[0]);
      assert Joined(ms[1..]) == [];
      assert Texts(p, ms) == Text(p, ms[0]) + "" == Text(p, ms[0]);
    } else {
      assert !p.done(ms[0]);
      AnswerIs(p, ms[1..], rest);
    }
  }
}
