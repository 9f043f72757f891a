// replace_string on its two reallocated buffers, and create_path_from_env.

module CStrings {
  /** strlen */
  function Len(b: seq<char>): (n: nat)
    requires '\0' in b
    ensures n < |b| && b[n] == '\0' && '\0' !in b[..n]
  {
    LenFrom(b, 0)
  }

  function LenFrom(b: seq<char>, i: nat): (n: nat)
    requires '\0' in b && i <= |b| && '\0' !in b[..i]
    ensures n < |b| && b[n] == '\0' && '\0' !in b[..n]
    decreases |b| - i
  {
    assert b[..|b|] == b;
    if b[i] == '\0' then i
    else
      assert b[..i + 1] == b[..i] + [b[i]];
      LenFrom(b, i + 1)
  }

  /** The string a buffer holds: up to its first NUL. */
  function Str(b: seq<char>): (s: string)
    requires '\0' in b
    ensures '\0' !in s && |s| < |b|
  {
    b[..Len(b)]
  }

  lemma StrIs(b: seq<char>, s: string)
    requires |s| < |b| && b[|s|] == '\0' && '\0' !in s && b[..|s|] == s
    ensures '\0' in b && Str(b) == s
  {
    assert b[|s|] in b;
    assert forall i :: 0 <= i < |s| ==> b[i] == b[..|s|][i] == s[i] != '\0';
    assert forall i :: 0 <= i < Len(b) ==> b[i] == b[..Len(b)][i] != '\0';
  }

  /** strcpy: the copy and its terminator must fit. */
  method StrCpy(dst: array<char>, s: string)
    requires '\0' !in s && |s| < dst.Length
    modifies dst
    ensures '\0' in dst[..] && Str(dst[..]) == s
  {
    for i := 0 to |s|
      invariant dst[..i] == s[..i]
    {
      dst[i] := s[i];
    }
    dst[|s|] := '\0';
    StrIs(dst[..], s);
  }

  method StrDup(s: string) returns (copy: array<char>)
    requires '\0' !in s
    ensures fresh(copy) && '\0' in copy[..] && Str(copy[..]) == s
  {
    copy := new char[|s| + 1];
    StrCpy(copy, s);
  }

  /** strcat: both strings and one terminator must fit. */
  method StrCat(dst: array<char>, s: string)
    requires '\0' in dst[..] && '\0' !in s && |Str(dst[..])| + |s| < dst.Length
    modifies dst
    ensures '\0' in dst[..] && Str(dst[..]) == old(Str(dst[..])) + s
  {
    var n := Len(dst[..]);
    ghost var was := dst[..n];
    for i := 0 to |s|
      invariant dst[..n] == was
      invariant dst[n..n + i] == s[..i]
    {
      dst[n + i] := s[i];
    }
    dst[n + |s|] := '\0';
    TakeTwo(dst[..], n, |s|);
    StrIs(dst[..], was + s);
  }

  lemma TakeTwo(b: seq<char>, n: nat, k: nat)
    requires n + k <= |b|
    ensures b[..n + k] == b[..n] + b[n..n + k]
  {
  }
}

module ReplaceString {
  import opened Optional
  import opened CStrings
  import opened Rescan

  lemma CutString(b: seq<char>, s: string, i: nat, w: nat)
    requires '\0' in b && Str(b) == s && w > 0 && i + w <= |s|
    ensures var c := b[i := '\0'];
            '\0' in c && Str(c) == s[..i] && '\0' in c[i + w..] && Str(c[i + w..]) == s[i + w..]
  {
    var c := b[i := '\0'];
    StrIs(c, s[..i]);
    StrIs(c[i + w..], s[i + w..]);
  }

  /** n replacements are enough to turn s into the result. */
  ghost predicate Reaches(s: string, p: string, r: string, n: nat, result: string) {
    Halts(s, p, r, n) && Normal(s, p, r, n) == result
  }

  lemma OneReplacement(s: string, p: string, r: string, n: nat, result: string)
    requires Find(s, p).Some? && Reaches(s, p, r, n, result)
    ensures p != [] && n > 0 && Reaches(Splice(s, p, r, Find(s, p).value), p, r, n - 1, result)
  {
    if p == [] {
      EmptyNeverHalts(s, r, n);
    }
  }

  /** replace_string.  A null argument gives null; otherwise the loop is run only
      where it comes to an end, and yields the rescan's result.  Every copy fits
      the capacity tracked for its buffer, terminator included. */
  method ReplaceString(source: array?<char>, search: array?<char>, replace: array?<char>)
    returns (ostr: array?<char>)
    requires source != null ==> '\0' in source[..]
    requires search != null ==> '\0' in search[..]
    requires replace != null ==> '\0' in replace[..]
    requires source != null && search != null && replace != null ==>
               Terminates(Str(source[..]), Str(search[..]), Str(replace[..]))
    ensures ostr == null <==> source == null || search == null || replace == null
    ensures ostr != null ==> fresh(ostr) && '\0' in ostr[..]
    ensures ostr != null ==> Str(ostr[..]) == Result(Str(source[..]), Str(search[..]), Str(replace[..]))
  {
    if source == null || search == null || replace == null {
      return null;
    }
    var p, r := Str(search[..]), Str(replace[..]);
    var ostrAllocated := Len(source[..]) + 1;
    ostr := new char[ostrAllocated];
    StrCpy(ostr, Str(source[..]));
    ghost var n: nat :| Halts(Str(source[..]), p, r, n);
    ResultIs(Str(source[..]), p, r, n);
    ostr := ReplaceAll(ostr, ostrAllocated, p, r, n, Result(Str(source[..]), p, r));
  }

  /** The loop: strstr from the start of the string again after each replacement. */
  method ReplaceAll(ostr0: array<char>, ostrAllocated0: nat, p: string, r: string, ghost n0: nat, ghost result: string)
    returns (ostr: array<char>)
    requires ostr0.Length == ostrAllocated0 && '\0' in ostr0[..] && '\0' !in r
    requires Reaches(Str(ostr0[..]), p, r, n0, result)
    modifies ostr0
    ensures (ostr == ostr0 || fresh(ostr)) && '\0' in ostr[..] && Str(ostr[..]) == result
  {
    var ostrAllocated := ostrAllocated0;
    ostr := ostr0;
    var nstr: array?<char> := null;
    var nstrAllocated := 0;
    ghost var n := n0;
    var pdest := true;
    while pdest
      invariant (ostr == ostr0 || fresh(ostr)) && ostr.Length == ostrAllocated && '\0' in ostr[..]
      invariant nstr != null ==> fresh(nstr) && nstr.Length == nstrAllocated && nstr != ostr
      invariant Reaches(Str(ostr[..]), p, r, n, result)
      invariant !pdest ==> Find(Str(ostr[..]), p) == None
      decreases n, pdest
    {
      var at := Find(Str(ostr[..]), p);
      pdest := at.Some?;
      if pdest {
        OneReplacement(Str(ostr[..]), p, r, n, result);
        ostr, ostrAllocated, nstr, nstrAllocated :=
          ReplaceFirst(ostr, ostrAllocated, nstr, nstrAllocated, p, r, at.value);
        n := n - 1;
      }
    }
    NothingLeft(Str(ostr[..]), p, r, n, result);
  }

  lemma NothingLeft(s: string, p: string, r: string, n: nat, result: string)
    requires Find(s, p) == None && Reaches(s, p, r, n, result)
    ensures s == result
  {
  }

  /** Ends the string where the occurrence starts; the rest is still in the buffer. */
  method Cut(ostr: array<char>, length: nat, w: nat) returns (head: string, tail: string)
    requires '\0' in ostr[..] && w > 0 && length + w <= |Str(ostr[..])|
    modifies ostr
    ensures head == old(Str(ostr[..]))[..length] && tail == old(Str(ostr[..]))[length + w..]
  {
    CutString(ostr[..], Str(ostr[..]), length, w);
    ostr[length] := '\0';
    head := Str(ostr[..]);
    tail := Str(ostr[|head| + w..]);
  }

  /** The loop's body: cut the old string at the occurrence, build the new one in
      nstr, copy it back, and grow either buffer when it is too small. */
  method ReplaceFirst(ostr0: array<char>, ostrAllocated0: nat, nstr0: array?<char>, nstrAllocated0: nat,
                      p: string, r: string, length: nat)
    returns (ostr: array<char>, ostrAllocated: nat, nstr: array?<char>, nstrAllocated: nat)
    requires ostr0.Length == ostrAllocated0 && '\0' in ostr0[..]
    requires nstr0 != null ==> nstr0.Length == nstrAllocated0 && nstr0 != ostr0
    requires p != [] && '\0' !in r && length + |p| <= |Str(ostr0[..])|
    modifies ostr0, nstr0
    ensures ostr.Length == ostrAllocated && (ostr == ostr0 || fresh(ostr))
    ensures nstr != null && nstr.Length == nstrAllocated && (nstr == nstr0 || fresh(nstr)) && nstr != ostr
    ensures '\0' in ostr[..] && Str(ostr[..]) == Splice(old(Str(ostr0[..])), p, r, length)
  {
    ostr, ostrAllocated, nstr, nstrAllocated := ostr0, ostrAllocated0, nstr0, nstrAllocated0;
    var head, tail := Cut(ostr, length, |p|);
    var nlen := |head| + |r| + |tail| + 1;
    if nstr == null || nstrAllocated < nlen {
      nstrAllocated := nlen;
      nstr := new char[nlen];
    }
    Build(nstr, head, r, tail);
    var built := Str(nstr[..]);
    if ostrAllocated < |built| + 1 {
      ostrAllocated := |built| + 1;
      ostr := new char[ostrAllocated];
    }
    StrCpy(ostr, built);
  }

  method Build(nstr: array<char>, head: string, r: string, tail: string)
    requires '\0' !in head && '\0' !in r && '\0' !in tail
    requires |head| + |r| + |tail| < nstr.Length
    modifies nstr
    ensures '\0' in nstr[..] && Str(nstr[..]) == head + r + tail
  {
    StrCpy(nstr, head);
    StrCat(nstr, r);
    StrCat(nstr, tail);
  }

  /** With an empty search string the loop never ends. */
  lemma EmptyNeverHalts(s: string, r: string, n: nat)
    ensures !Halts(s, [], r, n)
  {
    assert At(s, [], 0) && At(r, [], 0);
    NeverHalts(s, [], r, n);
  }

  // ------------------------------------------------- environment references

  datatype Reference = Reference(whole: string, name: string)

  /** From the first "$(" to the next ")" after it. */
  function FirstReference(path: string): Option<Reference> {
    match Find(path, "$(")
    case None => None
    case Some(start) =>
      match Find(path[start..], ")")
      case None => None
      case Some(end) =>
        assert path[start..start + 2] == "$(";
        assert path[start] == '$' && path[start + 1] == '(';
        assert path[start..][end..end + 1] == ")";
        assert path[start..][end] == ')';
        Some(Reference(path[start..start + end + 1], path[start + 2..start + end]))
  }

  lemma ReferenceShape(path: string)
    requires FirstReference(path).Some?
    ensures var ref := FirstReference(path).value;
            && ref.whole == "$(" + ref.name + ")" && ')' !in ref.name
            && Contains(path, ref.whole)
  {
    var start := Find(path, "$(").value;
    var rest := path[start..];
    var end := Find(rest, ")").value;
    assert path[start..start + 2] == "$(";
    assert rest[end..end + 1] == ")";
    assert rest[0] == path[start..start + 2][0] && rest[1] == path[start..start + 2][1];
    forall i | 0 <= i < end
      ensures rest[i] != ')'
    {
      assert rest[i..i + 1] == [rest[i]];
      assert !At(rest, ")", i);
    }
    var ref := FirstReference(path).value;
    assert ref.name == rest[2..end];
    assert ref.whole == rest[..end + 1] == "$(" + ref.name + ")";
    assert At(path, ref.whole, start);
  }

  lemma OpenerAt(path: string, i: nat)
    requires FirstAt(path, "$(", i)
    ensures Find(path, "$(") == Some(i) && path[i..i + 2] == "$("
  {
    FirstIsUnique(path, "$(", i, Find(path, "$(").value);
  }

  /** A reference is found exactly if a ")" follows the first "$(". */
  lemma ReferenceExactly(path: string)
    ensures FirstReference(path).Some? <==>
            exists i, j :: FirstAt(path, "$(", i) && i < j < |path| && path[j] == ')'
  {
    match Find(path, "$(")
    case None =>
    case Some(i) =>
      OpenerAt(path, i);
      FirstCloser(path, i);
      if j, k :| FirstAt(path, "$(", j) && j < k < |path| && path[k] == ')' {
        FirstIsUnique(path, "$(", i, j);
      }
  }

  /** And it is the stretch from there through the first such ")". */
  lemma ReferenceStretch(path: string, start: nat, end: nat)
    requires FirstAt(path, "$(", start) && start < end < |path| && path[end] == ')' && ')' !in path[start..end]
    ensures start + 2 <= end
    ensures FirstReference(path) == Some(Reference(path[start..end + 1], path[start + 2..end]))
  {
    OpenerAt(path, start);
    FirstCloser(path, start);
    assert path[start..start + 2][1] == path[start + 1];
  }

  // The first ")" from i on.
  lemma FirstCloser(path: string, i: nat)
    requires i + 2 <= |path| && path[i..i + 2] == "$("
    ensures Find(path[i..], ")").None? <==> forall j :: i < j < |path| ==> path[j] != ')'
    ensures forall end :: i < end < |path| && path[end] == ')' && ')' !in path[i..end] ==>
                            Find(path[i..], ")") == Some(end - i)
  {
    var rest := path[i..];
    assert path[i] == path[i..i + 2][0] == '$';
    forall k | 0 <= k < |rest|
      ensures At(rest, ")", k) <==> path[i + k] == ')'
    {
      assert rest[k..k + 1] == [path[i + k]];
    }
    if Find(rest, ")").Some? {
      assert At(rest, ")", Find(rest, ")").value);
    }
    forall j | i < j < |path| && path[j] == ')'
      ensures Contains(rest, ")")
    {
      assert At(rest, ")", j - i);
    }
    forall end | i < end < |path| && path[end] == ')' && ')' !in path[i..end]
      ensures Find(rest, ")") == Some(end - i)
    {
      forall k | 0 <= k < end - i
        ensures !At(rest, ")", k)
      {
        assert path[i..end][k] == path[i + k];
      }
      assert At(rest, ")", end - i);
      FirstIsUnique(rest, ")", end - i, Find(rest, ")").value);
    }
  }

  /** A reference has no proper border. */
  lemma ReferenceUnbordered(name: string, b: nat)
    requires ')' !in name
    requires var ref := "$(" + name + ")"; 0 < b < |ref|
    ensures var ref := "$(" + name + ")"; ref[..b] != ref[|ref| - b..]
  {
    var ref := "$(" + name + ")";
    assert ref[|ref| - b..][b - 1] == ')';
    assert ref[..b][b - 1] == ref[b - 1] != ')';
  }

  ghost predicate Unbordered(p: string) {
    forall b :: 0 < b < |p| ==> p[..b] != p[|p| - b..]
  }

  lemma OverlapIsBorder(s: string, p: string, i: int, j: int)
    requires At(s, p, i) && At(s, p, j) && i < j < i + |p|
    ensures var b := i + |p| - j; p[..b] == p[|p| - b..]
  {
    var b := i + |p| - j;
    assert p[|p| - b..] == s[i..i + |p|][j - i..] == s[j..i + |p|];
    assert p[..b] == s[j..j + |p|][..b] == s[j..i + |p|];
  }

  /** Occurrences of an unbordered string never overlap. */
  lemma NoOverlap(s: string, p: string, i: int, j: int)
    requires Unbordered(p) && At(s, p, i) && At(s, p, j) && i < j
    ensures i + |p| <= j
  {
    if j < i + |p| {
      OverlapIsBorder(s, p, i, j);
    }
  }

  /** Overrun: the reference does not fit the buffer it is copied into, which the
      source does not check. */
  datatype Expansion = Unchanged | Expanded(path: string) | Overrun

  /** create_path_from_env; strLen is the size of its two buffers. */
  method CreatePathFromEnv(path: string, env: map<string, string>, strLen: nat) returns (result: Expansion)
    requires '\0' !in path && forall name :: name in env ==> '\0' !in env[name]
    requires FirstReference(path).Some? && FirstReference(path).value.name in env ==>
               Terminates(path, FirstReference(path).value.whole, env[FirstReference(path).value.name])
    ensures result.Overrun? <==> FirstReference(path).Some? && |FirstReference(path).value.whole| >= strLen
    ensures result.Expanded? <==>
              && FirstReference(path).Some? && |FirstReference(path).value.whole| < strLen
              && FirstReference(path).value.name in env
    ensures result.Expanded? ==>
              var ref := FirstReference(path).value;
              result.path == Result(path, ref.whole, env[ref.name])
  {
    var envstart := Find(path, "$(");
    if envstart.None? {
      return Unchanged;
    }
    var envend := Find(path[envstart.value..], ")");
    if envend.None? {
      return Unchanged;
    }
    ReferenceShape(path);
    var whole := path[envstart.value..envstart.value + envend.value + 1];
    var name := path[envstart.value + 2..envstart.value + envend.value];
    result := ExpandReference(path, whole, name, env, strLen);
  }

  /** The reference and its name in their buffers, the lookup, and the replacement. */
  method ExpandReference(path: string, whole: string, name: string, env: map<string, string>, strLen: nat)
    returns (result: Expansion)
    requires '\0' !in path && '\0' !in whole && '\0' !in name && |name| <= |whole|
    requires forall name :: name in env ==> '\0' !in env[name]
    requires name in env ==> Terminates(path, whole, env[name])
    ensures result == if |whole| >= strLen then Overrun
                      else if name in env then Expanded(Result(path, whole, env[name]))
                      else Unchanged
  {
    if |whole| >= strLen {
      return Overrun;
    }
    var envsubstr, envvar := new char[strLen], new char[strLen];
    StrCpy(envsubstr, whole);
    StrCpy(envvar, name);
    if Str(envvar[..]) !in env {
      return Unchanged;
    }
    var source := StrDup(path);
    var replace := StrDup(env[name]);
    var r := ReplaceString(source, envsubstr, replace);
    return Expanded(Str(r[..]));
  }

  /** For a name without '/' and a value that starts with '/' and has no '$', the
      expansion terminates and cuts the path at every occurrence of the reference
      and nowhere else, putting the value in each cut. */
  lemma EnvironmentExpansion(path: string, value: string) returns (pieces: seq<string>)
    requires FirstReference(path).Some?
    requires '/' !in FirstReference(path).value.name
    requires value != [] && value[0] == '/' && '$' !in value
    ensures var ref := FirstReference(path).value.whole;
            && Terminates(path, ref, value)
            && |pieces| >= 2
            && Join(pieces, ref) == path
            && Join(pieces, value) == Result(path, ref, value)
            && forall i :: At(path, ref, i) <==> IsCut(pieces, ref, i)
  {
    var ref := FirstReference(path).value.whole;
    ReferenceShape(path);
    DisjointEndsDoNotClash(ref, value);
    RescanOnce(path, ref, value);
    pieces := OnePassCuts(path, ref, value);
    ReferenceIsUnbordered(FirstReference(path).value.name);
    forall i
      ensures At(path, ref, i) <==> IsCut(pieces, ref, i)
    {
      OccurrencesAreCuts(pieces, ref, i);
    }
  }

  lemma ReferenceIsUnbordered(name: string)
    requires ')' !in name
    ensures Unbordered("$(" + name + ")")
  {
    var ref := "$(" + name + ")";
    forall b | 0 < b < |ref|
      ensures ref[..b] != ref[|ref| - b..]
    {
      ReferenceUnbordered(name, b);
    }
  }

  /** Position i of the joined string is where one of the separators stands. */
  ghost predicate IsCut(pieces: seq<string>, sep: string, i: int) {
    exists k :: 0 < k < |pieces| && i == |Join(pieces[..k], sep)|
  }

  lemma {:induction false} OccurrencesAreCuts(pieces: seq<string>, sep: string, i: int)
    requires pieces != [] && sep != [] && Unbordered(sep)
    requires forall k :: 0 <= k < |pieces| ==> !Contains(pieces[k], sep)
    ensures At(Join(pieces, sep), sep, i) <==> IsCut(pieces, sep, i)
    decreases |pieces|
  {
    var s, w := Join(pieces, sep), pieces[0];
    if |pieces| > 1 {
      var rest := pieces[1..];
      var next := |w| + |sep|;
      assert s == w + sep + Join(rest, sep);
      assert s[|w|..next] == sep;
      OccurrencesAreCuts(rest, sep, i - next);
      assert s[next..] == Join(rest, sep);
      if i >= next {
        AtDrop(s, sep, next, i - next);
      } else {
        if At(s, sep, i) {
          FirstCut(s, w, sep, i);
        }
      }
      CutsShift(pieces, sep, i);
    }
  }

  // Below the first separator's end, the only occurrence is the first separator.
  lemma FirstCut(s: string, w: string, sep: string, i: int)
    requires sep != [] && Unbordered(sep) && !Contains(w, sep)
    requires |w| <= |s| && s[..|w|] == w && At(s, sep, |w|)
    requires At(s, sep, i) && i < |w| + |sep|
    ensures i == |w|
  {
    if i < |w| {
      NoOverlap(s, sep, i, |w|);
      AtTake(s, sep, |w|, i);
    } else if i > |w| {
      NoOverlap(s, sep, |w|, i);
    }
  }

  lemma CutsShift(pieces: seq<string>, sep: string, i: int)
    requires |pieces| > 1 && sep != []
    ensures IsCut(pieces, sep, i) <==>
            i == |pieces[0]| || IsCut(pieces[1..], sep, i - |pieces[0]| - |sep|)
  {
    var rest := pieces[1..];
    assert Join(pieces[..1], sep) == pieces[0];
    forall k | 1 < k < |pieces|
      ensures |Join(pieces[..k], sep)| == |pieces[0]| + |sep| + |Join(rest[..k - 1], sep)|
    {
      assert pieces[..k][1..] == rest[..k - 1];
    }
    if k :| 0 < k < |rest| && i - |pieces[0]| - |sep| == |Join(rest[..k], sep)| {
      assert i == |Join(pieces[..k + 1], sep)|;
    }
    if k :| 0 < k < |pieces| && i == |Join(pieces[..k], sep)| {
      if k > 1 {
        assert i - |pieces[0]| - |sep| == |Join(rest[..k - 1], sep)|;
      }
    }
  }
}
