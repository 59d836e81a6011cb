/** Sums of integer sequences and how an update changes them. */
module Sums {

  function Sum(s: seq<int>): int {
    if s == [] then 0 else Sum(s[..|s| - 1]) + s[|s| - 1]
  }

  lemma {:induction false} SumUpdate(s: seq<int>, i: nat, v: int)
    requires i < |s|
    ensures Sum(s[i := v]) == Sum(s) - s[i] + v
  {
    var front, n := s[..|s| - 1], |s| - 1;
    if i == n {
      assert s[i := v][..n] == front;
    } else {
      assert s[i := v][..n] == front[i := v];
      SumUpdate(front, i, v);
    }
  }

  /** A sum changes by k times the sum of its slopes. */
  lemma {:induction false} SumLinear(s: seq<int>, t: seq<int>, slopes: seq<int>, k: int)
    requires |s| == |t| == |slopes|
    requires forall i :: 0 <= i < |s| ==> t[i] == s[i] + k * slopes[i]
    ensures Sum(t) == Sum(s) + k * Sum(slopes)
  {
    if s != [] {
      var n := |s| - 1;
      SumLinear(s[..n], t[..n], slopes[..n], k);
      assert k * Sum(slopes) == k * Sum(slopes[..n]) + k * slopes[n];
    }
  }

  lemma {:induction false} SumNonNegative(s: seq<int>)
    requires forall i :: 0 <= i < |s| ==> s[i] >= 0
    ensures Sum(s) >= 0
  {
    if s != [] {
      SumNonNegative(s[..|s| - 1]);
    }
  }
}
