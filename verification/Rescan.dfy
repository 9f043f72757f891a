// String substitution by repeated rescan, as replace_string performs it, and
// exactly when that equals a single left-to-right substitution.

module Rescan {
  import opened Optional

  // -------------------------------------------------------------- occurrences

  /** p occurs in s at position i. */
  predicate At(s: string, p: string, i: int) {
    0 <= i && i + |p| <= |s| && s[i..i + |p|] == p
  }

  ghost predicate FirstAt(s: string, p: string, i: int) {
    At(s, p, i) && forall j :: 0 <= j < i ==> !At(s, p, j)
  }

  ghost predicate Contains(s: string, p: string) { exists i :: At(s, p, i) }

  lemma AtDrop(s: string, p: string, a: nat, i: int)
    requires a <= |s| && 0 <= i
    ensures At(s[a..], p, i) <==> At(s, p, a + i)
  {
    if a + i + |p| <= |s| {
      assert s[a..][i..i + |p|] == s[a + i..a + i + |p|];
    }
  }

  lemma AtTake(s: string, p: string, b: nat, i: int)
    requires b <= |s|
    ensures At(s[..b], p, i) <==> At(s, p, i) && i + |p| <= b
  {
    if 0 <= i && i + |p| <= b {
      assert s[..b][i..i + |p|] == s[i..i + |p|];
    }
  }

  lemma AtChar(s: string, p: string, i: int, x: int)
    requires At(s, p, i) && 0 <= x < |p|
    ensures s[i + x] == p[x]
  {
    assert s[i..i + |p|][x] == s[i + x];
  }

  lemma AtByChars(s: string, p: string, i: int)
    requires 0 <= i && i + |p| <= |s| && forall x :: 0 <= x < |p| ==> s[i + x] == p[x]
    ensures At(s, p, i)
  {
    assert s[i..i + |p|] == p;
  }

  /** strstr */
  function Find(s: string, p: string): (r: Option<nat>)
    ensures r.Some? ==> FirstAt(s, p, r.value)
    ensures r.None? ==> !Contains(s, p)
  {
    FindFrom(s, p, 0)
  }

  function FindFrom(s: string, p: string, i: nat): (r: Option<nat>)
    requires i <= |s| + 1
    requires forall j :: 0 <= j < i ==> !At(s, p, j)
    ensures r.Some? ==> FirstAt(s, p, r.value)
    ensures r.None? ==> !Contains(s, p)
    decreases |s| + 1 - i
  {
    if i + |p| > |s| then None
    else if At(s, p, i) then Some(i)
    else FindFrom(s, p, i + 1)
  }

  // ------------------------------------------------------------- the rewriting

  /** The leftmost occurrence of p at i, replaced. */
  function Splice(s: string, p: string, r: string, i: nat): string
    requires i + |p| <= |s|
  {
    s[..i] + r + s[i + |p|..]
  }

  /** Rescanning from the start after each replacement stops within n replacements. */
  ghost predicate Halts(s: string, p: string, r: string, n: nat)
    decreases n
  {
    match Find(s, p)
    case None => true
    case Some(i) => n > 0 && Halts(Splice(s, p, r, i), p, r, n - 1)
  }

  ghost function Normal(s: string, p: string, r: string, n: nat): (t: string)
    requires Halts(s, p, r, n)
    ensures !Contains(t, p)
    decreases n
  {
    match Find(s, p)
    case None => s
    case Some(i) => Normal(Splice(s, p, r, i), p, r, n - 1)
  }

  ghost predicate Terminates(s: string, p: string, r: string) {
    exists n: nat :: Halts(s, p, r, n)
  }

  /** What the rescanning loop ends with. */
  ghost function Result(s: string, p: string, r: string): string
    requires Terminates(s, p, r)
  {
    var n: nat :| Halts(s, p, r, n);
    Normal(s, p, r, n)
  }

  lemma {:induction false} MoreFuel(s: string, p: string, r: string, n: nat, m: nat)
    requires Halts(s, p, r, n) && n <= m
    ensures Halts(s, p, r, m) && Normal(s, p, r, m) == Normal(s, p, r, n)
    decreases n
  {
    var f := Find(s, p);
    if f.Some? {
      MoreFuel(Splice(s, p, r, f.value), p, r, n - 1, m - 1);
    }
  }

  lemma ResultIs(s: string, p: string, r: string, n: nat)
    requires Halts(s, p, r, n)
    ensures Terminates(s, p, r) && Result(s, p, r) == Normal(s, p, r, n)
  {
    var m: nat :| Halts(s, p, r, m) && Result(s, p, r) == Normal(s, p, r, m);
    MoreFuel(s, p, r, n, n + m);
    MoreFuel(s, p, r, m, n + m);
  }

  // -------------------------------------------------------------- termination

  /** The total weight of the characters of s. */
  function Weight(s: string, w: char -> nat): nat {
    if s == [] then 0 else w(s[0]) + Weight(s[1..], w)
  }

  lemma {:induction false} WeightConcat(s: string, t: string, w: char -> nat)
    ensures Weight(s + t, w) == Weight(s, w) + Weight(t, w)
  {
    if s == [] {
      assert s + t == t;
    } else {
      assert (s + t)[1..] == s[1..] + t;
      WeightConcat(s[1..], t, w);
    }
  }

  lemma SpliceWeight(s: string, p: string, r: string, i: nat, w: char -> nat)
    requires At(s, p, i)
    ensures Weight(Splice(s, p, r, i), w) + Weight(p, w) == Weight(s, w) + Weight(r, w)
  {
    var rest := s[i + |p|..];
    assert s == s[..i] + p + rest;
    WeightConcat(s[..i] + p, rest, w);
    WeightConcat(s[..i], p, w);
    WeightConcat(s[..i] + r, rest, w);
    WeightConcat(s[..i], r, w);
  }

  /** Whatever the weights, if the replacement weighs less than the search string
      the rescan ends within as many replacements as the source weighs. */
  lemma {:induction false} HaltsByWeight(s: string, p: string, r: string, w: char -> nat)
    requires Weight(r, w) < Weight(p, w)
    ensures Halts(s, p, r, Weight(s, w))
    decreases Weight(s, w)
  {
    match Find(s, p)
    case None =>
    case Some(i) =>
      var t := Splice(s, p, r, i);
      SpliceWeight(s, p, r, i, w);
      HaltsByWeight(t, p, r, w);
      MoreFuel(t, p, r, Weight(t, w), Weight(s, w) - 1);
  }

  function CountChar(s: string, c: char): nat { Weight(s, Is(c)) }

  function Is(c: char): char -> nat { x => if x == c then 1 else 0 }

  lemma {:induction false} CountPositive(s: string, c: char)
    ensures CountChar(s, c) > 0 <==> c in s
  {
    if s != [] {
      CountPositive(s[1..], c);
    }
  }

  /** Some character occurs less often in the replacement than in the search string:
      its count drops with every replacement. */
  lemma HaltsByCount(s: string, p: string, r: string, c: char)
    requires CountChar(r, c) < CountChar(p, c)
    ensures Halts(s, p, r, CountChar(s, c))
  {
    HaltsByWeight(s, p, r, Is(c));
  }

  /** In particular when the replacement lacks a character of the search string. */
  lemma HaltsByAbsence(s: string, p: string, r: string, c: char)
    requires c in p && c !in r
    ensures Halts(s, p, r, CountChar(s, c))
  {
    CountPositive(p, c);
    CountPositive(r, c);
    HaltsByCount(s, p, r, c);
  }

  function One(c: char): nat { 1 }

  lemma {:induction false} WeightOne(s: string)
    ensures Weight(s, One) == |s|
  {
    if s != [] {
      WeightOne(s[1..]);
    }
  }

  /** A replacement shorter than the search string: the length drops. */
  lemma HaltsByLength(s: string, p: string, r: string)
    requires |r| < |p|
    ensures Halts(s, p, r, |s|)
  {
    WeightOne(s);
    WeightOne(p);
    WeightOne(r);
    HaltsByWeight(s, p, r, One);
  }

  /** A replacement that contains the search string, the empty one included,
      never comes to an end once the search string occurs. */
  lemma {:induction false} NeverHalts(s: string, p: string, r: string, n: nat)
    requires Contains(r, p) && Contains(s, p)
    ensures !Halts(s, p, r, n)
    decreases n
  {
    var i := Find(s, p).value;
    var k :| At(r, p, k);
    assert At(Splice(s, p, r, i), p, i + k);
    if n > 0 {
      NeverHalts(Splice(s, p, r, i), p, r, n - 1);
    }
  }

  // ------------------------------------------- replacements that are no longer

  const BASE := 0x110000

  /** The value of s as a number to that base, digits given by f. */
  function Number(s: string, f: char -> nat): nat {
    if s == [] then 0 else Number(s[..|s| - 1], f) * BASE + f(s[|s| - 1])
  }

  /** Characters by their code, upwards or downwards. */
  function Digit(up: bool): char -> nat { c => if up then c as int else BASE - 1 - c as int }

  lemma NumberAppend(s: string, c: char, f: char -> nat)
    ensures Number(s + [c], f) == Number(s, f) * BASE + f(c)
  {
    assert (s + [c])[..|s|] == s;
  }

  lemma LessAppend(a: string, b: string, c: char, d: char, up: bool)
    requires Number(a, Digit(up)) < Number(b, Digit(up))
    ensures Number(a + [c], Digit(up)) < Number(b + [d], Digit(up))
  {
    NumberAppend(a, c, Digit(up));
    NumberAppend(b, d, Digit(up));
  }

  /** The leading digits decide, whatever follows them. */
  lemma {:induction false} LeadingDecides(a: string, b: string, t: string, u: string, up: bool)
    requires |t| == |u| && Number(a, Digit(up)) < Number(b, Digit(up))
    ensures Number(a + t, Digit(up)) < Number(b + u, Digit(up))
    decreases |t|
  {
    if t == [] {
      assert a + t == a && b + u == b;
    } else {
      var n := |t| - 1;
      LeadingDecides(a, b, t[..n], u[..n], up);
      LessAppend(a + t[..n], b + u[..n], t[n], u[n], up);
      LastApart(a, t);
      LastApart(b, u);
    }
  }

  lemma LastApart(a: string, t: string)
    requires t != []
    ensures a + t == a + t[..|t| - 1] + [t[|t| - 1]]
  {
  }

  lemma FirstDifference(p: string, r: string) returns (k: nat)
    requires |p| == |r| && p != r
    ensures k < |p| && p[..k] == r[..k] && p[k] != r[k]
  {
    k := 0;
    while p[k] == r[k]
      invariant k < |p| && p[..k] == r[..k] && p[k..] != r[k..]
      decreases |p| - k
    {
      assert p[k..] == [p[k]] + p[k + 1..] && r[k..] == [r[k]] + r[k + 1..];
      k := k + 1;
    }
  }

  lemma SplitAt(u: string, p: string, rest: string, k: nat)
    requires k < |p|
    ensures u + p + rest == u + p[..k] + [p[k]] + (p[k + 1..] + rest)
  {
  }

  /** Putting r in the place of an equally long p lowers the number, if their first
      difference is a lower digit in r. */
  lemma SpliceLowers(s: string, p: string, r: string, i: nat, k: nat, up: bool)
    requires At(s, p, i) && |p| == |r| && k < |p| && p[..k] == r[..k]
    requires Digit(up)(r[k]) < Digit(up)(p[k])
    ensures Number(Splice(s, p, r, i), Digit(up)) < Number(s, Digit(up))
  {
    var u, rest := s[..i], s[i + |p|..];
    assert s == u + p + rest;
    SplitAt(u, p, rest, k);
    SplitAt(u, r, rest, k);
    NumberAppend(u + p[..k], p[k], Digit(up));
    NumberAppend(u + p[..k], r[k], Digit(up));
    LeadingDecides(u + p[..k] + [r[k]], u + p[..k] + [p[k]], r[k + 1..] + rest, p[k + 1..] + rest, up);
  }

  lemma {:induction false} HaltsByNumber(s: string, p: string, r: string, k: nat, up: bool)
    requires |p| == |r| && k < |p| && p[..k] == r[..k] && Digit(up)(r[k]) < Digit(up)(p[k])
    ensures Halts(s, p, r, Number(s, Digit(up)))
    decreases Number(s, Digit(up))
  {
    match Find(s, p)
    case None =>
    case Some(i) =>
      var t := Splice(s, p, r, i);
      SpliceLowers(s, p, r, i, k, up);
      HaltsByNumber(t, p, r, k, up);
      MoreFuel(t, p, r, Number(t, Digit(up)), Number(s, Digit(up)) - 1);
  }

  /** A replacement of the search string's length that differs from it. */
  lemma HaltsByDifference(s: string, p: string, r: string)
    requires |p| == |r| && p != r
    ensures Terminates(s, p, r)
  {
    var k := FirstDifference(p, r);
    var up := r[k] < p[k];
    HaltsByNumber(s, p, r, k, up);
  }

  /** For every replacement that is no longer than the search string the rescan ends
      if and only if the two differ or the search string does not occur. */
  lemma TerminatesExactly(s: string, p: string, r: string)
    requires |r| <= |p|
    ensures Terminates(s, p, r) <==> r != p || !Contains(s, p)
  {
    if !Contains(s, p) {
      assert Halts(s, p, r, 0);
    } else if |r| < |p| {
      HaltsByLength(s, p, r);
    } else if r != p {
      HaltsByDifference(s, p, r);
    } else {
      assert At(r, p, 0);
      forall n: nat
        ensures !Halts(s, p, r, n)
      {
        NeverHalts(s, p, r, n);
      }
    }
  }

  // ----------------------------------------------------------- the single pass

  /** Left-to-right, non-overlapping substitution that never looks back. */
  function OnePass(s: string, p: string, r: string): string
    requires p != []
    decreases |s|
  {
    if |s| < |p| then s
    else if At(s, p, 0) then r + OnePass(s[|p|..], p, r)
    else [s[0]] + OnePass(s[1..], p, r)
  }

  function Join(pieces: seq<string>, sep: string): string
    requires pieces != []
  {
    if |pieces| == 1 then pieces[0] else pieces[0] + sep + Join(pieces[1..], sep)
  }

  lemma {:induction false} OnePassNone(s: string, p: string, r: string)
    requires p != [] && !Contains(s, p)
    ensures OnePass(s, p, r) == s
    decreases |s|
  {
    if |s| >= |p| {
      forall i | 0 <= i
        ensures !At(s[1..], p, i)
      {
        AtDrop(s, p, 1, i);
      }
      assert !Contains(s[1..], p);
      OnePassNone(s[1..], p, r);
    }
  }

  // Nothing changes in front of the first occurrence.
  lemma {:induction false} OnePassGap(s: string, p: string, r: string, i: nat)
    requires p != [] && i + |p| <= |s| && forall j :: 0 <= j < i ==> !At(s, p, j)
    ensures OnePass(s, p, r) == s[..i] + OnePass(s[i..], p, r)
  {
    if i == 0 {
      assert s[0..] == s;
    } else {
      OnePassGap(s, p, r, i - 1);
      AtDrop(s, p, i - 1, 0);
      OnePassSkip(s[i - 1..], p, r);
      OneMoreChar(s, i, OnePass(s[i..], p, r));
    }
  }

  lemma OneMoreChar(s: string, i: nat, q: string)
    requires 0 < i <= |s|
    ensures s[i - 1..][1..] == s[i..]
    ensures s[..i - 1] + ([s[i - 1..][0]] + q) == s[..i] + q
  {
  }

  lemma OnePassFirst(s: string, p: string, r: string, i: nat)
    requires p != [] && FirstAt(s, p, i)
    ensures OnePass(s, p, r) == s[..i] + r + OnePass(s[i + |p|..], p, r)
  {
    OnePassGap(s, p, r, i);
    AtDrop(s, p, i, 0);
    OnePassHit(s[i..], p, r);
    TwoDrops(s, i, |p|);
    Assoc(s[..i], r, OnePass(s[i + |p|..], p, r));
  }

  lemma OnePassHit(s: string, p: string, r: string)
    requires p != [] && At(s, p, 0)
    ensures OnePass(s, p, r) == r + OnePass(s[|p|..], p, r)
  {
  }

  lemma OnePassSkip(s: string, p: string, r: string)
    requires p != [] && |s| >= |p| && !At(s, p, 0)
    ensures OnePass(s, p, r) == [s[0]] + OnePass(s[1..], p, r)
  {
  }

  lemma TwoDrops(s: string, i: nat, w: nat)
    requires i + w <= |s|
    ensures s[i..][w..] == s[i + w..]
  {
  }

  lemma Assoc(a: string, r: string, q: string)
    ensures a + (r + q) == a + r + q
  {
  }

  lemma Prepend(c: string, a: string, r: string, q: string)
    ensures c + (a + r + q) == (c + a) + r + q
  {
  }

  /** What one pass does, without its recursion: the source is cut at search
      strings into pieces free of it, and the same pieces are joined by the
      replacement. */
  lemma {:induction false} OnePassCuts(s: string, p: string, r: string) returns (pieces: seq<string>)
    requires p != []
    ensures pieces != [] && Join(pieces, p) == s && Join(pieces, r) == OnePass(s, p, r)
    ensures forall k :: 0 <= k < |pieces| ==> !Contains(pieces[k], p)
    decreases |s|
  {
    match Find(s, p)
    case None =>
      OnePassNone(s, p, r);
      pieces := [s];
    case Some(i) =>
      OnePassFirst(s, p, r, i);
      var rest := OnePassCuts(s[i + |p|..], p, r);
      pieces := [s[..i]] + rest;
      assert pieces[1..] == rest;
      BeforeFirst(s, p, i);
      SpliceJoin(s, p, i);
  }

  lemma BeforeFirst(s: string, p: string, i: nat)
    requires p != [] && FirstAt(s, p, i)
    ensures !Contains(s[..i], p)
  {
    forall j
      ensures !At(s[..i], p, j)
    {
      AtTake(s, p, i, j);
    }
  }

  lemma SpliceJoin(s: string, p: string, i: nat)
    requires At(s, p, i)
    ensures s == s[..i] + p + s[i + |p|..]
  {
  }

  // ------------------------------------------- exactly when rescan is one pass

  /** The search string, laid over the replacement at offset k, agrees with it on
      their overlap; and if it starts before the replacement, that start can stand
      right in front of a leftmost occurrence. */
  ghost predicate Clash(p: string, r: string, k: int) {
    && -|p| < k < |r|
    && (forall x :: 0 <= x < |p| && 0 <= k + x < |r| ==> p[x] == r[k + x])
    && (k < 0 ==> FirstAt(p[..-k] + p, p, -k))
  }

  /** No replacement can take part in a new occurrence: a finite condition on the
      two strings alone. */
  ghost predicate NoClash(p: string, r: string) {
    forall k :: -|p| < k < |r| ==> !Clash(p, r, k)
  }

  lemma SeamIsClash(u: string, rest: string, p: string, r: string, j: int)
    requires p != [] && FirstAt(u + p + rest, p, |u|)
    requires At(u + r + rest, p, j) && j < |u| + |r|
    ensures -|p| < j - |u| < |r| && Clash(p, r, j - |u|)
  {
    var s, t, k := u + p + rest, u + r + rest, j - |u|;
    assert k > -|p| by {
      assert s[..|u|] == u == t[..|u|];
      AtTake(s, p, |u|, j);
      AtTake(t, p, |u|, j);
    }
    forall x | 0 <= x < |p| && 0 <= k + x < |r|
      ensures p[x] == r[k + x]
    {
      AtChar(t, p, j, x);
    }
    if k < 0 {
      PrefixInFront(u, r + rest, p, j);
      assert t == u + (r + rest);
      FrontIsFirst(s, p, j, |u|);
      TailInFront(u, p, rest, j);
    }
  }

  lemma PrefixInFront(u: string, v: string, p: string, j: int)
    requires 0 <= j < |u| < j + |p| && At(u + v, p, j)
    ensures p[..|u| - j] == u[j..]
  {
    forall x | 0 <= x < |u| - j
      ensures p[x] == u[j + x]
    {
      AtChar(u + v, p, j, x);
    }
  }

  lemma TailInFront(u: string, p: string, rest: string, j: nat)
    requires j <= |u|
    ensures (u + p + rest)[j..|u| + |p|] == u[j..] + p
  {
  }

  // A leftmost occurrence stays leftmost in the stretch from j to its end.
  lemma FrontIsFirst(s: string, p: string, j: nat, i: nat)
    requires j <= i && FirstAt(s, p, i)
    ensures FirstAt(s[j..i + |p|], p, i - j)
  {
    var t := s[j..i + |p|];
    assert t == s[..i + |p|][j..];
    forall x | 0 <= x <= i - j
      ensures At(t, p, x) <==> At(s, p, j + x)
    {
      AtTake(s, p, i + |p|, j + x);
      AtDrop(s[..i + |p|], p, j, x);
    }
  }

  /** No occurrence starts in done. */
  ghost predicate Passed(done: string, rest: string, p: string) {
    var s := done + rest;
    forall j :: 0 <= j < |done| ==> !At(s, p, j)
  }

  lemma AtAppended(done: string, rest: string, p: string)
    requires Passed(done, rest, p)
    ensures Contains(done + rest, p) <==> Contains(rest, p)
    ensures forall i :: FirstAt(rest, p, i) ==> FirstAt(done + rest, p, |done| + i)
  {
    var s := done + rest;
    assert s[|done|..] == rest;
    forall i | 0 <= i
      ensures At(rest, p, i) <==> At(s, p, |done| + i)
    {
      AtDrop(s, p, |done|, i);
    }
    if i :| At(s, p, i) {
      assert At(rest, p, i - |done|);
    }
    forall i | FirstAt(rest, p, i)
      ensures FirstAt(s, p, |done| + i)
    {
      forall j | |done| <= j < |done| + i
        ensures !At(s, p, j)
      {
        assert !At(rest, p, j - |done|);
      }
    }
  }

  lemma {:induction false} RescanFollows(done: string, rest: string, p: string, r: string)
    requires p != [] && NoClash(p, r) && Passed(done, rest, p)
    ensures Halts(done + rest, p, r, |rest|)
    ensures Normal(done + rest, p, r, |rest|) == done + OnePass(rest, p, r)
    decreases |rest|
  {
    AtAppended(done, rest, p);
    match Find(rest, p)
    case None => OnePassNone(rest, p, r);
    case Some(i) =>
      var done' := NextDone(done, rest, p, r, i);
      RescanFollows(done', rest[i + |p|..], p, r);
      OnePassFirst(rest, p, r, i);
      HaltsLater(done + rest, p, r, |done| + i, |rest[i + |p|..]|, |rest|);
      Prepend(done, rest[..i], r, OnePass(rest[i + |p|..], p, r));
  }

  lemma HaltsLater(s: string, p: string, r: string, i: nat, n: nat, m: nat)
    requires Find(s, p) == Some(i) && n < m && Halts(Splice(s, p, r, i), p, r, n)
    ensures Halts(s, p, r, m) && Normal(s, p, r, m) == Normal(Splice(s, p, r, i), p, r, n)
  {
    MoreFuel(Splice(s, p, r, i), p, r, n, m - 1);
    OneMore(s, p, r, i, m);
  }

  lemma OneMore(s: string, p: string, r: string, i: nat, n: nat)
    requires Find(s, p) == Some(i)
    requires n > 0 && Halts(Splice(s, p, r, i), p, r, n - 1)
    ensures Halts(s, p, r, n) && Normal(s, p, r, n) == Normal(Splice(s, p, r, i), p, r, n - 1)
  {
  }

  // One replacement: what has been passed grows over it.
  lemma NextDone(done: string, rest: string, p: string, r: string, i: nat) returns (done': string)
    requires p != [] && NoClash(p, r)
    requires FirstAt(rest, p, i) && FirstAt(done + rest, p, |done| + i)
    ensures done' == done + rest[..i] + r
    ensures Find(done + rest, p) == Some(|done| + i)
    ensures Splice(done + rest, p, r, |done| + i) == done' + rest[i + |p|..]
    ensures Passed(done', rest[i + |p|..], p)
  {
    var u, rest' := done + rest[..i], rest[i + |p|..];
    done' := u + r;
    FirstIsUnique(done + rest, p, |u|, Find(done + rest, p).value);
    assert done + rest == u + p + rest';
    var t := done' + rest';
    forall j | 0 <= j < |done'|
      ensures !At(t, p, j)
    {
      if At(t, p, j) {
        SeamIsClash(u, rest', p, r, j);
      }
    }
  }

  lemma FirstIsUnique(s: string, p: string, i: int, j: int)
    requires FirstAt(s, p, i) && FirstAt(s, p, j)
    ensures i == j
  {
  }

  /** A source on which a clash shows. */
  function Witness(p: string, r: string, k: int): string
    requires -|p| < k < |r|
  {
    Before(p, k) + p + Behind(p, r, k)
  }

  function Before(p: string, k: int): string
    requires -|p| < k
  {
    if k < 0 then p[..-k] else []
  }

  function Behind(p: string, r: string, k: int): string
    requires -|p| < k < |r|
  {
    if k + |p| > |r| then p[|r| - k..] else []
  }

  lemma WitnessFirst(p: string, r: string, k: int)
    requires p != [] && Clash(p, r, k)
    ensures FirstAt(Witness(p, r, k), p, |Before(p, k)|)
  {
    var u, v := Before(p, k), Behind(p, r, k);
    assert At(u + p, p, |u|);
    assert u + p == (u + p + v)[..|u| + |p|];
    forall j | 0 <= j <= |u|
      ensures At(u + p + v, p, j) <==> At(u + p, p, j)
    {
      AtTake(u + p + v, p, |u| + |p|, j);
    }
  }

  lemma WitnessAgain(p: string, r: string, k: int)
    requires p != [] && Clash(p, r, k)
    ensures At(Before(p, k) + r + Behind(p, r, k), p, if k < 0 then 0 else k)
  {
    var u, v := Before(p, k), Behind(p, r, k);
    var at := if k < 0 then 0 else k;
    forall x | 0 <= x < |p|
      ensures at + x < |u + r + v| && (u + r + v)[at + x] == p[x]
    {
      assert 0 <= k + x < |r| ==> p[x] == r[k + x];
    }
    AtByChars(u + r + v, p, at);
  }

  lemma ClashShows(p: string, r: string, k: int)
    requires p != [] && Clash(p, r, k)
    ensures Contains(OnePass(Witness(p, r, k), p, r), p)
  {
    var u, v, s := Before(p, k), Behind(p, r, k), Witness(p, r, k);
    WitnessFirst(p, r, k);
    OnePassFirst(s, p, r, |u|);
    assert s[|u| + |p|..] == v && s[..|u|] == u;
    BehindIsShort(p, r, k);
    WitnessAgain(p, r, k);
  }

  lemma BehindIsShort(p: string, r: string, k: int)
    requires p != [] && -|p| < k < |r|
    ensures OnePass(Behind(p, r, k), p, r) == Behind(p, r, k)
  {
  }

  /** Rescanning is the single pass, on every source, exactly when no replacement
      can take part in a new occurrence. */
  lemma RescanIsOnePassExactly(p: string, r: string)
    requires p != []
    ensures NoClash(p, r) <==> forall s :: Terminates(s, p, r) && Result(s, p, r) == OnePass(s, p, r)
  {
    if NoClash(p, r) {
      forall s
        ensures Terminates(s, p, r) && Result(s, p, r) == OnePass(s, p, r)
      {
        RescanOnce(s, p, r);
      }
    } else {
      var k :| -|p| < k < |r| && Clash(p, r, k);
      ClashShows(p, r, k);
      var s := Witness(p, r, k);
      if Terminates(s, p, r) {
        var n: nat :| Halts(s, p, r, n);
        ResultIs(s, p, r, n);
        assert Result(s, p, r) != OnePass(s, p, r);
      }
    }
  }

  lemma RescanOnce(s: string, p: string, r: string)
    requires p != [] && NoClash(p, r)
    ensures Terminates(s, p, r) && Result(s, p, r) == OnePass(s, p, r)
  {
    RescanFollows([], s, p, r);
    assert [] + s == s;
    ResultIs(s, p, r, |s|);
  }

  /** The simple sufficient condition. */
  lemma DisjointEndsDoNotClash(p: string, r: string)
    requires p != [] && r != [] && r[0] !in p && p[0] !in r
    ensures NoClash(p, r)
  {
    forall k | -|p| < k < |r|
      ensures !Clash(p, r, k)
    {
      if k >= 0 {
        assert p[0] != r[k + 0];
      } else {
        assert p[-k] != r[k + -k];
      }
    }
  }

  lemma UnlikeStartClashes(p: string)
    requires |p| >= 2 && p[0] != p[1]
    ensures FirstAt(p[..1] + p, p, 1)
  {
    var s := p[..1] + p;
    assert s[1..1 + |p|] == p;
    if At(s, p, 0) {
      AtChar(s, p, 0, 1);
    }
  }

  /** An empty replacement lets a new occurrence close over the gap, for instance
      whenever the search string's first two characters differ. */
  lemma RemovalClashes(p: string)
    requires |p| >= 2
    ensures !NoClash(p, []) <==> exists k :: 0 < k < |p| && FirstAt(p[..k] + p, p, k)
    ensures p[0] != p[1] ==> !NoClash(p, [])
  {
    if k :| 0 < k < |p| && FirstAt(p[..k] + p, p, k) {
      assert Clash(p, [], -k);
    }
    if !NoClash(p, []) {
      var k :| -|p| < k < 0 && Clash(p, [], k);
      assert 0 < -k < |p| && FirstAt(p[..-k] + p, p, -k);
    }
    if p[0] != p[1] {
      UnlikeStartClashes(p);
      assert Clash(p, [], -1);
    }
  }
}
