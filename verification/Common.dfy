// Small shared vocabulary: optional values, the action field of a status group, and
// weighted sums over sequences.

module Optional {
  datatype Option<+T> = None | Some(value: T)
}

module Status {
  datatype TestAction = Idle | RunningTest | Done | Stopped
}

module Sums {
  /** The total weight of the elements of s. Counting is summing 0/1 weights. */
  ghost function Sum<T>(s: seq<T>, w: T -> nat): nat {
    if |s| == 0 then 0 else Sum(s[..|s| - 1], w) + w(s[|s| - 1])
  }

  lemma {:induction false} SumUpdate<T>(s: seq<T>, w: T -> nat, i: nat, x: T)
    requires i < |s|
    ensures Sum(s[i := x], w) + w(s[i]) == Sum(s, w) + w(x)
  {
    var n := |s| - 1;
    if i == n {
      assert s[i := x][..n] == s[..n];
    } else {
      assert s[i := x][..n] == s[..n][i := x];
      SumUpdate(s[..n], w, i, x);
    }
  }

  lemma SumAppend<T>(s: seq<T>, w: T -> nat, x: T)
    ensures Sum(s + [x], w) == Sum(s, w) + w(x)
  {
    assert (s + [x])[..|s|] == s;
  }

  lemma {:induction false} SumAt<T>(s: seq<T>, w: T -> nat, i: nat)
    requires i < |s|
    ensures w(s[i]) <= Sum(s, w)
  {
    if i < |s| - 1 {
      SumAt(s[..|s| - 1], w, i);
    }
  }

  lemma {:induction false} SumZero<T>(s: seq<T>, w: T -> nat)
    requires forall i :: 0 <= i < |s| ==> w(s[i]) == 0
    ensures Sum(s, w) == 0
  {
    if |s| > 0 {
      SumZero(s[..|s| - 1], w);
    }
  }

  lemma {:induction false} SumAdd<T(!new)>(s: seq<T>, u: T -> nat, v: T -> nat, w: T -> nat)
    requires forall x :: u(x) + v(x) == w(x)
    ensures Sum(s, u) + Sum(s, v) == Sum(s, w)
  {
    if |s| > 0 {
      SumAdd(s[..|s| - 1], u, v, w);
    }
  }
}
