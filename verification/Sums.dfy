/** Sums of a weight over a sequence, and what the list operations do to them. */
module Sums {

  function SumBy<T>(s: seq<T>, f: T -> nat): nat {
    if s == [] then 0 else SumBy(s[..|s| - 1], f) + f(s[|s| - 1])
  }

  /** Removal from an unordered list: the last element takes the freed place. */
  function SwapRemove<T>(s: seq<T>, i: nat): seq<T>
    requires i < |s|
  {
    if i == |s| - 1 then s[..i] else s[..|s| - 1][i := s[|s| - 1]]
  }

  lemma SumPush<T>(s: seq<T>, x: T, f: T -> nat)
    ensures SumBy(s + [x], f) == SumBy(s, f) + f(x)
  {
    assert (s + [x])[..|s|] == s;
  }

  /** Two lists that weigh the same everywhere have the same sum. */
  lemma {:induction false} SumSame<T>(s: seq<T>, f: T -> nat, t: seq<T>, g: T -> nat)
    requires |s| == |t|
    requires forall j :: 0 <= j < |s| ==> f(s[j]) == g(t[j])
    ensures SumBy(s, f) == SumBy(t, g)
  {
    if s != [] {
      SumSame(s[..|s| - 1], f, t[..|t| - 1], g);
    }
  }

  /** Two lists that weigh the same except at one place. */
  lemma {:induction false} SumPoint<T>(s: seq<T>, f: T -> nat, t: seq<T>, g: T -> nat, i: nat)
    requires |s| == |t| && i < |s|
    requires forall j :: 0 <= j < |s| && j != i ==> f(s[j]) == g(t[j])
    ensures SumBy(t, g) + f(s[i]) == SumBy(s, f) + g(t[i])
  {
    var n := |s| - 1;
    if i == n {
      SumSame(s[..n], f, t[..n], g);
    } else {
      SumPoint(s[..n], f, t[..n], g, i);
    }
  }

  lemma SumSet<T>(s: seq<T>, f: T -> nat, i: nat, x: T)
    requires i < |s|
    ensures SumBy(s[i := x], f) + f(s[i]) == SumBy(s, f) + f(x)
  {
    SumPoint(s, f, s[i := x], f, i);
  }

  lemma SumRemove<T>(s: seq<T>, f: T -> nat, i: nat)
    requires i < |s|
    ensures SumBy(SwapRemove(s, i), f) + f(s[i]) == SumBy(s, f)
  {
    if i != |s| - 1 {
      SumSet(s[..|s| - 1], f, i, s[|s| - 1]);
    }
  }

  lemma {:induction false} SumMember<T>(s: seq<T>, f: T -> nat, i: nat)
    requires i < |s|
    ensures f(s[i]) <= SumBy(s, f)
  {
    if i < |s| - 1 {
      SumMember(s[..|s| - 1], f, i);
    }
  }

  lemma {:induction false} SumZero<T>(s: seq<T>, f: T -> nat)
    requires forall j :: 0 <= j < |s| ==> f(s[j]) == 0
    ensures SumBy(s, f) == 0
  {
    if s != [] {
      SumZero(s[..|s| - 1], f);
    }
  }
}
