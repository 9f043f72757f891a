// time_str_to_sec: "dd:hh:mm:ss" to seconds, by a scan with a moving index and a
// three-character scratch buffer.

module TimeString {
  /** Reading a C string: at its length stands the terminator, and nothing may be
      read beyond. */
  function CharAt(s: string, i: nat): char
    requires i <= |s|
  {
    if i < |s| then s[i] else '\0'
  }

  predicate IsDigit(c: char) { '0' <= c <= '9' }

  function Digit(c: char): (d: int)
    requires IsDigit(c)
    ensures 0 <= d <= 9
  {
    c as int - '0' as int
  }

  /** The digits are the ten decimal ones, with their values. */
  lemma DigitValue(c: char)
    ensures IsDigit(c) <==> c in "0123456789"
    ensures forall k :: 0 <= k < 10 ==> IsDigit("0123456789"[k]) && Digit("0123456789"[k]) == k
  {
    var digits := "0123456789";
    forall k | 0 <= k < 10
      ensures digits[k] as int == '0' as int + k
    {
    }
    if IsDigit(c) {
      assert digits[c as int - '0' as int] == c;
    }
  }

  /** The value of the leading digits. */
  function Digits(s: string, sofar: int): int {
    if s == "" || !IsDigit(s[0]) then sofar else Digits(s[1..], 10 * sofar + Digit(s[0]))
  }

  predicate IsSpace(c: char) { c == ' ' || '\t' <= c <= '\r' }

  function Atoi(s: string): int {
    if s == "" then 0
    else if IsSpace(s[0]) then Atoi(s[1..])
    else if s[0] == '-' then -Digits(s[1..], 0)
    else if s[0] == '+' then Digits(s[1..], 0)
    else Digits(s, 0)
  }

  // --------------------------------------------------------- the three colons

  ghost predicate NoColon(s: string, from: int, to: int) {
    forall k :: 0 <= from <= k < to && k < |s| ==> s[k] != ':'
  }

  /** d, h and m are the first three colons of the first i characters, in order;
      -1 for one that is not there. */
  ghost predicate FirstThree(s: string, i: nat, d: int, h: int, m: int) {
    && i <= |s|
    && (d == -1 ==> h == -1 && m == -1 && NoColon(s, 0, i))
    && (d != -1 ==> 0 <= d < i && s[d] == ':' && NoColon(s, 0, d))
    && (d != -1 && h == -1 ==> m == -1 && NoColon(s, d + 1, i))
    && (h != -1 ==> d != -1 && d < h < i && s[h] == ':' && NoColon(s, d + 1, h))
    && (h != -1 && m == -1 ==> NoColon(s, h + 1, i))
    && (m != -1 ==> h != -1 && h < m < i && s[m] == ':' && NoColon(s, h + 1, m))
  }

  /** The scan.  It finds exactly the first three colons, although one pass of the
      loop may consume up to four characters, and reads no further than the
      terminator. */
  method FindColons(s: string) returns (d: int, h: int, m: int)
    ensures FirstThree(s, |s|, d, h, m)
  {
    d, h, m := -1, -1, -1;
    var i, len := 0, |s|;
    while i < len
      invariant 0 <= i <= len + 1
      invariant FirstThree(s, if i < len then i else len, d, h, m)
      decreases len - i
    {
      if CharAt(s, i) == ':' && d == -1 {
        d := i;
        i := i + 1;
      }
      if CharAt(s, i) == ':' && h == -1 {
        h := i;
        i := i + 1;
      }
      if CharAt(s, i) == ':' && m == -1 {
        m := i;
        i := i + 1;
      }
      i := i + 1;
    }
  }

  // ------------------------------------------------------------- the conversion

  /** sprintf of the one or two characters before the position; with any other
      distance the scratch buffer keeps what it had. */
  function Scratch(s: string, tmp: string, end: int, distance: int): string
    requires distance in {2, 3} ==> distance - 1 <= end <= |s|
  {
    if distance == 3 then [s[end - 2], s[end - 1]]
    else if distance == 2 then [s[end - 1]]
    else tmp
  }

  /** time_str_to_sec; tmp0 is what the scratch buffer happens to hold first, and f
      any fields the string may have been written from. */
  method TimeStrToSec(s: string, tmp0: string, ghost f: Fields) returns (ok: bool, sec: int)
    ensures ok <==> |s| >= 3
    ensures WellFormed(f) && s == Write(f) ==> ok && sec == Total(f)
  {
    if |s| < 3 {
      ShortestWellFormed(s, f);
      return false, 0;
    }
    var d, h, m := FindColons(s);
    var dd, hh, mm, ss := ReadParts(s, tmp0, d, h, m);
    if WellFormed(f) && s == Write(f) {
      PartsMakeTotal(f, d, h, m, dd, hh, mm, ss);
    }
    return true, dd * 86400 + hh * 3600 + mm * 60 + ss;
  }

  /** The four fields, one after the other through the same scratch buffer. */
  method ReadParts(s: string, tmp0: string, d: int, h: int, m: int) returns (dd: int, hh: int, mm: int, ss: int)
    requires FirstThree(s, |s|, d, h, m)
    ensures if d > 0 then Reads(s, d, d + 1, dd) else dd == 0
    ensures if h - d > 1 then Reads(s, h, h - d, hh) else hh == 0
    ensures if m - h > 1 then Reads(s, m, m - h, mm) else mm == 0
    ensures if |s| > 3 then Reads(s, |s|, |s| - m, ss) else ss == 0
  {
    var len := |s|;
    var tmp := tmp0;
    dd, hh, mm, ss := 0, 0, 0, 0;
    if d > 0 {
      dd, tmp := ReadField(s, tmp, d, d + 1);
    }
    if h - d > 1 {
      hh, tmp := ReadField(s, tmp, h, h - d);
    }
    if m - h > 1 {
      mm, tmp := ReadField(s, tmp, m, m - h);
    }
    if len > 3 {
      ss, tmp := ReadField(s, tmp, len, len - m);
    }
  }

  /** One or two digits right before end are read as their value. */
  ghost predicate Reads(s: string, end: int, distance: int, value: int) {
    distance in {2, 3} && 0 <= end - distance + 1 && end <= |s| && AllDigits(s[end - distance + 1..end]) ==>
      value == Value(s[end - distance + 1..end])
  }

  lemma PartsMakeTotal(f: Fields, d: int, h: int, m: int, dd: int, hh: int, mm: int, ss: int)
    requires WellFormed(f)
    requires var s := Write(f);
             && FirstThree(s, |s|, d, h, m)
             && (if d > 0 then Reads(s, d, d + 1, dd) else dd == 0)
             && (if h - d > 1 then Reads(s, h, h - d, hh) else hh == 0)
             && (if m - h > 1 then Reads(s, m, m - h, mm) else mm == 0)
             && (if |s| > 3 then Reads(s, |s|, |s| - m, ss) else ss == 0)
    ensures 86400 * dd + 3600 * hh + 60 * mm + ss == Total(f)
  {
    FieldsPinColons(f, d, h, m);
  }

  /** The value of the one or two characters before end, through the scratch buffer. */
  method ReadField(s: string, tmp0: string, end: nat, distance: int) returns (value: int, tmp: string)
    requires end <= |s| && (distance in {2, 3} ==> distance - 1 <= end)
    ensures Reads(s, end, distance, value)
  {
    tmp := Scratch(s, tmp0, end, distance);
    value := Atoi(tmp);
    if distance in {2, 3} && AllDigits(s[end - distance + 1..end]) {
      assert tmp == s[end - distance + 1..end];
      ValueIsAtoi(tmp);
    }
  }

  // -------------------------------------------------------------- well-formed

  datatype Fields = Fields(dd: string, hh: string, mm: string, ss: string)

  predicate AllDigits(s: string) { forall k :: 0 <= k < |s| ==> IsDigit(s[k]) }

  /** Four fields of digits, the first three of at most two, the last of one or two. */
  predicate WellFormed(f: Fields) {
    && AllDigits(f.dd) && AllDigits(f.hh) && AllDigits(f.mm) && AllDigits(f.ss)
    && |f.dd| <= 2 && |f.hh| <= 2 && |f.mm| <= 2 && 1 <= |f.ss| <= 2
  }

  function Write(f: Fields): string {
    f.dd + ":" + f.hh + ":" + f.mm + ":" + f.ss
  }

  function Value(s: string): (v: int)
    requires AllDigits(s) && |s| <= 2
    ensures 0 <= v <= 99
  {
    if s == "" then 0 else if |s| == 1 then Digit(s[0]) else 10 * Digit(s[0]) + Digit(s[1])
  }

  /** The seconds a well-formed time string stands for. */
  function Total(f: Fields): (t: int)
    requires WellFormed(f)
    ensures 0 <= t <= 8916039
  {
    86400 * Value(f.dd) + 3600 * Value(f.hh) + 60 * Value(f.mm) + Value(f.ss)
  }

  lemma ValueIsAtoi(s: string)
    requires AllDigits(s) && |s| <= 2
    ensures Atoi(s) == Value(s)
  {
    if |s| > 0 {
      assert Atoi(s) == Digits(s, 0) == Digits(s[1..], Digit(s[0]));
    }
    if |s| == 2 {
      assert s[1..][1..] == "";
      assert Digits(s[1..], Digit(s[0])) == Digits(s[1..][1..], 10 * Digit(s[0]) + Digit(s[1]));
    }
  }

  lemma ShortestWellFormed(s: string, f: Fields)
    requires |s| < 3
    ensures WellFormed(f) ==> s != Write(f)
  {
  }

  lemma WriteShape(f: Fields)
    ensures var s := Write(f);
            var d := |f.dd|;
            var h := d + 1 + |f.hh|;
            var m := h + 1 + |f.mm|;
            && |s| == m + 1 + |f.ss|
            && s[d] == ':' && s[h] == ':' && s[m] == ':'
            && s[0..d] == f.dd && s[d + 1..h] == f.hh && s[h + 1..m] == f.mm && s[m + 1..|s|] == f.ss
  {
  }

  lemma DigitsHaveNoColon(s: string, from: nat, to: nat)
    requires from <= to <= |s| && AllDigits(s[from..to])
    ensures forall k :: from <= k < to ==> s[k] != ':'
  {
    forall k | from <= k < to
      ensures s[k] != ':'
    {
      assert IsDigit(s[from..to][k - from]);
    }
  }

  /** In a well-formed string the first three colons delimit the fields. */
  lemma FieldsPinColons(f: Fields, d: int, h: int, m: int)
    requires WellFormed(f) && FirstThree(Write(f), |Write(f)|, d, h, m)
    ensures d == |f.dd| && h == d + 1 + |f.hh| && m == h + 1 + |f.mm|
    ensures var s := Write(f);
            && |s| == m + 1 + |f.ss|
            && f.dd == s[d - (d + 1) + 1..d] && f.hh == s[h - (h - d) + 1..h]
            && f.mm == s[m - (m - h) + 1..m] && f.ss == s[|s| - (|s| - m) + 1..|s|]
  {
    var s, h0 := Write(f), |f.dd| + 1 + |f.hh|;
    var m0 := h0 + 1 + |f.mm|;
    WriteShape(f);
    DigitsHaveNoColon(s, 0, |f.dd|);
    DigitsHaveNoColon(s, |f.dd| + 1, h0);
    DigitsHaveNoColon(s, h0 + 1, m0);
    ThreePinned(s, |f.dd|, h0, m0, d, h, m);
  }

  lemma ThreePinned(s: string, d0: nat, h0: nat, m0: nat, d: int, h: int, m: int)
    requires d0 < h0 < m0 < |s| && s[d0] == ':' && s[h0] == ':' && s[m0] == ':'
    requires forall k :: 0 <= k < m0 && k != d0 && k != h0 ==> s[k] != ':'
    requires FirstThree(s, |s|, d, h, m)
    ensures d == d0 && h == h0 && m == m0
  {
  }

  // --------------------------------------------------------- canonical strings

  /** Two digits everywhere, hours below 24, minutes and seconds below 60. */
  predicate Canonical(f: Fields) {
    && WellFormed(f)
    && |f.dd| == 2 && |f.hh| == 2 && |f.mm| == 2 && |f.ss| == 2
    && Value(f.hh) < 24 && Value(f.mm) < 60 && Value(f.ss) < 60
  }

  function TwoDigits(v: int): (s: string)
    requires 0 <= v <= 99
    ensures |s| == 2 && AllDigits(s) && Value(s) == v
  {
    [('0' as int + v / 10) as char, ('0' as int + v % 10) as char]
  }

  function Canonically(t: int): Fields
    requires 0 <= t < 8640000
  {
    Fields(TwoDigits(t / 86400), TwoDigits(t / 3600 % 24), TwoDigits(t / 60 % 60), TwoDigits(t % 60))
  }

  /** Every number of seconds below one hundred days has its canonical string. */
  lemma CanonicalReaches(t: int)
    requires 0 <= t < 8640000
    ensures Canonical(Canonically(t)) && Total(Canonically(t)) == t
  {
    assert t == 60 * (t / 60) + t % 60;
    assert t / 60 == 60 * (t / 60 / 60) + t / 60 % 60;
    assert t / 3600 == 24 * (t / 3600 / 24) + t / 3600 % 24;
    assert t / 60 / 60 == t / 3600;
    assert t / 3600 / 24 == t / 86400;
  }

  /** And only that one. */
  lemma CanonicalIsInjective(f: Fields, g: Fields)
    requires Canonical(f) && Canonical(g) && Total(f) == Total(g)
    ensures f == g
  {
    var a, b := Value(f.dd) * 24 + Value(f.hh), Value(g.dd) * 24 + Value(g.hh);
    assert a * 60 + Value(f.mm) == b * 60 + Value(g.mm) && Value(f.ss) == Value(g.ss);
    assert a == b && Value(f.mm) == Value(g.mm);
    assert Value(f.dd) == Value(g.dd) && Value(f.hh) == Value(g.hh);
    ValueIsInjective(f.dd, g.dd);
    ValueIsInjective(f.hh, g.hh);
    ValueIsInjective(f.mm, g.mm);
    ValueIsInjective(f.ss, g.ss);
  }

  lemma ValueIsInjective(s: string, t: string)
    requires AllDigits(s) && AllDigits(t) && |s| == |t| == 2 && Value(s) == Value(t)
    ensures s == t
  {
    assert s[0] == t[0] && s[1] == t[1];
  }
}
