/** Sizes of finite sets, for the bounds and the termination arguments. */
module Counting {

  function Range(n: nat): (r: set<nat>)
    ensures forall k: nat :: k in r <==> k < n
    ensures |r| == n
  {
    if n == 0 then {} else Range(n - 1) + {n - 1}
  }

  lemma {:induction false} SubsetCount<T>(a: set<T>, b: set<T>)
    requires a <= b
    ensures |a| <= |b|
  {
    if a != {} {
      var x :| x in a;
      SubsetCount(a - {x}, b - {x});
    }
  }

  ghost predicate Distinct<T>(s: seq<T>)
  {
    forall k, l :: 0 <= k < l < |s| ==> s[k] != s[l]
  }

  ghost function Elements<T>(s: seq<T>): set<T>
  {
    set x | x in s
  }

  lemma {:induction false} DistinctCount<T>(s: seq<T>)
    requires Distinct(s)
    ensures |Elements(s)| == |s|
  {
    if s != [] {
      var m := |s| - 1;
      DistinctCount(s[..m]);
      assert Elements(s) == Elements(s[..m]) + {s[m]};
    }
  }

  /** Distinct numbers below n that miss i are fewer than n. */
  lemma DistinctBelow(s: seq<nat>, n: nat, i: nat)
    requires Distinct(s) && i < n && i !in s
    requires forall k :: 0 <= k < |s| ==> s[k] < n
    ensures |s| < n
  {
    DistinctCount(s);
    SubsetCount(Elements(s), Range(n) - {i});
  }
}
