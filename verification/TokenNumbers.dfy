/** The values of the tokens (jay/reader.c, pack_symbols). declared[0] is 0, the value of $end; declared[1] belongs to
    the token `error`. */
module TokenNumbers {

  const UNDEFINED := -1

  /** x is free for token t: nobody declared it, and no token before t was given it. */
  ghost predicate Unused(declared: seq<int>, values: seq<int>, t: nat, x: int)
    requires t <= |declared| && t <= |values|
  {
    x >= 257 && x !in declared && forall u :: 2 <= u < t && declared[u] == UNDEFINED ==> values[u] != x
  }

  ghost predicate LeastUnused(declared: seq<int>, values: seq<int>, t: nat, x: int)
    requires t <= |declared| && t <= |values|
  {
    Unused(declared, values, t, x) && forall y :: 257 <= y < x ==> !Unused(declared, values, t, y)
  }

  /** Declared values stay, `error` is 256 by default, and the others get the least value that is free. */
  ghost predicate ValuesGiven(declared: seq<int>, values: seq<int>, n: nat)
  {
    && n <= |declared| == |values|
    && forall t: nat :: t < n ==>
         if declared[t] != UNDEFINED then values[t] == declared[t]
         else if t == 1 then values[t] == 256
         else t >= 2 && LeastUnused(declared, values, t, values[t])
  }

  ghost predicate DeclaredOk(declared: seq<int>)
  {
    |declared| >= 2 && declared[0] == 0 && forall t :: 0 <= t < |declared| ==> declared[t] >= UNDEFINED
  }

  /** Two tokens share a value only if two values were declared alike, or `error` has the default that was declared for
      another token. */
  ghost predicate NoClash(declared: seq<int>)
    requires DeclaredOk(declared)
  {
    && (forall j, k :: 0 <= j < k < |declared| && declared[j] != UNDEFINED ==> declared[j] != declared[k])
    && (declared[1] == UNDEFINED ==> 256 !in declared)
  }

  lemma DistinctValues(declared: seq<int>, values: seq<int>)
    requires DeclaredOk(declared) && ValuesGiven(declared, values, |declared|)
    ensures (forall j, k :: 0 <= j < k < |values| ==> values[j] != values[k]) <==> NoClash(declared)
  {
    forall t | 2 <= t < |declared| && declared[t] == UNDEFINED ensures Unused(declared, values, t, values[t]) {
      assert LeastUnused(declared, values, t, values[t]);
    }
    if NoClash(declared) {
      forall j, k | 0 <= j < k < |values| ensures values[j] != values[k] {
        assert declared[j] in declared && declared[k] in declared;
      }
    }
    if forall j, k :: 0 <= j < k < |values| ==> values[j] != values[k] {
      forall j, k | 0 <= j < k < |declared| && declared[j] != UNDEFINED ensures declared[j] != declared[k] {
        assert values[j] == declared[j] && values[j] != values[k];
      }
      if declared[1] == UNDEFINED {
        forall k | 0 <= k < |declared| ensures declared[k] != 256 {
          assert k != 1 ==> values[k] != values[1];
        }
      }
    }
  }

  /** The sorted scratch list at the front of symbol_value: the declared values above 256. */
  ghost predicate IsUsed(declared: seq<int>, n: nat, used: seq<int>)
    requires n <= |declared|
  {
    && (forall x :: x in used <==> x > 256 && x in declared[..n])
    && (forall i, j :: 0 <= i < j < |used| ==> used[i] <= used[j])
  }

  method SortDeclared(declared: seq<int>) returns (symbolValue: array<int>, k: nat, ghost free: nat)
    requires DeclaredOk(declared)
    ensures fresh(symbolValue) && symbolValue.Length == |declared| && k <= |declared|
    ensures IsUsed(declared, |declared|, symbolValue[..k])
    ensures free == Undefined(declared, |declared|) && k + free <= |declared|
  {
    hide IsUsed;
    symbolValue := new int[|declared|](_ => 0);
    k, free := 0, 0;
    NothingUsed(declared);
    for i := 0 to |declared|
      invariant k <= i && IsUsed(declared, i, symbolValue[..k])
      invariant free == Undefined(declared, i) && k + free <= i
    {
      var n := declared[i];
      ghost var used := symbolValue[..k];
      if n > 256 {
        UsedSorted(declared, i, used);
        assert forall l :: 0 <= l < k ==> symbolValue[l] == used[l];
        InsertValue(symbolValue, k, n);
        k := k + 1;
      }
      ghost var now := symbolValue[..k];
      assert forall l :: 0 <= l < k ==> now[l] == symbolValue[l];
      if n <= 256 { UsedSorted(declared, i, used); }
      UsedNext(declared, i, used, now);
      if n == UNDEFINED {
        free := free + 1;
      }
    }
  }

  lemma NothingUsed(declared: seq<int>)
    ensures IsUsed(declared, 0, [])
  {
  }

  lemma UsedSorted(declared: seq<int>, n: nat, used: seq<int>)
    requires n <= |declared| && IsUsed(declared, n, used)
    ensures forall i, j :: 0 <= i < j < |used| ==> used[i] <= used[j]
  {
  }

  lemma UsedNext(declared: seq<int>, n: nat, used: seq<int>, used': seq<int>)
    requires n < |declared| && IsUsed(declared, n, used)
    requires if declared[n] > 256 then forall x :: x in used' <==> x == declared[n] || x in used else used' == used
    requires forall i, j :: 0 <= i < j < |used'| ==> used'[i] <= used'[j]
    ensures IsUsed(declared, n + 1, used')
  {
    assert declared[..n + 1] == declared[..n] + [declared[n]];
  }

  /** How many of the first n tokens have no declared value. */
  ghost function Undefined(declared: seq<int>, n: nat): nat
    requires n <= |declared|
  {
    if n == 0 then 0 else Undefined(declared, n - 1) + if declared[n-1] == UNDEFINED then 1 else 0
  }

  method InsertValue(symbolValue: array<int>, k: nat, n: int)
    requires k < symbolValue.Length && forall i, j :: 0 <= i < j < k ==> symbolValue[i] <= symbolValue[j]
    modifies symbolValue
    ensures forall i, j :: 0 <= i < j < k + 1 ==> symbolValue[i] <= symbolValue[j]
    ensures forall x :: x in symbolValue[..k + 1] <==> x == n || x in old(symbolValue[..k])
  {
    hide HoleAt;
    ghost var was := symbolValue[..k];
    HoleAtEnd(symbolValue[..k + 1], n);
    assert symbolValue[..k + 1][..k] == was;
    var j := k;
    while j > 0 && symbolValue[j-1] > n
      invariant 0 <= j <= k && HoleAt(was, symbolValue[..k + 1], j, n)
    {
      HoleDown(was, symbolValue[..k + 1], j, n);
      symbolValue[j] := symbolValue[j-1];
      j := j - 1;
    }
    Inserted(was, j, n, symbolValue[..k + 1]);
    symbolValue[j] := n;
    ghost var now := symbolValue[..k + 1];
    assert forall i :: 0 <= i < k + 1 ==> symbolValue[i] == now[i];
  }

  /** The values above n have moved up by one, and the place j is free. */
  ghost predicate HoleAt(was: seq<int>, now: seq<int>, j: nat, n: int)
  {
    && j <= |was| && |now| == |was| + 1 && (forall i :: 0 <= i < j ==> now[i] == was[i])
    && forall i :: j < i < |now| ==> now[i] == was[i-1] && was[i-1] > n
  }

  lemma HoleAtEnd(now: seq<int>, n: int)
    requires now != []
    ensures HoleAt(now[..|now|-1], now, |now| - 1, n)
  {
  }

  lemma HoleDown(was: seq<int>, now: seq<int>, j: nat, n: int)
    requires HoleAt(was, now, j, n) && 0 < j < |now| && now[j-1] > n
    ensures HoleAt(was, now[j := now[j-1]], j - 1, n)
  {
    var now' := now[j := now[j-1]];
    assert now[j-1] == was[j-1];
    var h := j - 1;
    forall i | 0 <= i < h ensures now'[i] == was[i] {
      assert now'[i] == now[i];
    }
    forall i | h < i < |now'| ensures now'[i] == was[i-1] && was[i-1] > n {
      assert i != j ==> now'[i] == now[i];
    }
    assert HoleAt(was, now', h, n);
  }

  lemma Inserted(was: seq<int>, j: nat, n: int, now: seq<int>)
    requires HoleAt(was, now, j, n) && j < |now| && (j > 0 ==> now[j-1] <= n)
    requires forall i, l :: 0 <= i < l < |was| ==> was[i] <= was[l]
    ensures var now' := now[j := n];
            && (forall i, l :: 0 <= i < l < |now'| ==> now'[i] <= now'[l])
            && forall x :: x in now' <==> x == n || x in was
  {
    forall i | j <= i < |was| ensures was[i] > n {
      assert now[i+1] == was[i];
    }
    assert now[j := n] == was[..j] + [n] + was[j..];
    InsertedSorted(was, j, n, now[j := n]);
    InsertedElements(was, j, n, now[j := n]);
  }

  lemma InsertedSorted(was: seq<int>, j: nat, n: int, now: seq<int>)
    requires j <= |was| && now == was[..j] + [n] + was[j..]
    requires forall i, l :: 0 <= i < l < |was| ==> was[i] <= was[l]
    requires (forall i :: j <= i < |was| ==> was[i] > n) && (j > 0 ==> was[j-1] <= n)
    ensures forall i, l :: 0 <= i < l < |now| ==> now[i] <= now[l]
  {
    forall i | 0 <= i < |now| ensures now[i] == if i < j then was[i] else if i == j then n else was[i-1] {
    }
  }

  lemma InsertedElements(was: seq<int>, j: nat, n: int, now: seq<int>)
    requires j <= |was| && now == was[..j] + [n] + was[j..]
    ensures forall x :: x in now <==> x == n || x in was
  {
    assert was == was[..j] + was[j..];
  }

  /** Skip the values that were declared: the list is walked once, as n only grows. */
  method SkipUsed(used: seq<int>, j0: nat, n0: int) returns (j: nat, n: int)
    requires (forall a, b :: 0 <= a < b < |used| ==> used[a] <= used[b])
    requires j0 <= |used| && forall i :: 0 <= i < |used| ==> (i < j0 <==> used[i] < n0)
    ensures j0 <= j <= |used| && n0 <= n && n - n0 <= j - j0
    ensures forall i :: 0 <= i < |used| ==> (i < j <==> used[i] < n)
    ensures n !in used && forall y :: n0 <= y < n ==> y in used
  {
    j, n := j0, n0;
    while j < |used| && n == used[j]
      invariant j0 <= j <= |used| && n0 <= n && n - n0 <= j - j0
      invariant forall i :: 0 <= i < |used| ==> (i < j <==> used[i] < n)
      invariant forall y :: n0 <= y < n ==> y in used
      decreases |used| - j
    {
      ghost var was := j;
      j := j + 1;
      while j < |used| && n == used[j]
        invariant was < j <= |used|
        invariant forall i :: was <= i < j ==> used[i] == n
        decreases |used| - j
      {
        j := j + 1;
      }
      assert used[was] == n;
      n := n + 1;
    }
    if j < |used| {
      assert used[j] > n;
    }
  }

  /** The tokens before i have their values, all below n, and no value below n is free. */
  ghost predicate GivenTo(declared: seq<int>, used: seq<int>, values: seq<int>, i: nat, j: nat, n: int)
  {
    && 2 <= i <= |declared| && ValuesGiven(declared, values, i) && j <= |used|
    && 257 <= n <= 257 + j + Undefined(declared, i)
    && (forall l :: 0 <= l < |used| ==> (l < j <==> used[l] < n))
    && (forall l :: i <= l < |declared| ==> values[l] == declared[l])
    && (forall l :: 2 <= l < i && declared[l] == UNDEFINED ==> values[l] < n)
    && (forall y :: 257 <= y < n ==> !Unused(declared, values, i, y))
  }

  method GiveValues(declared: seq<int>) returns (values: array<int>)
    requires DeclaredOk(declared)
    ensures fresh(values) && values.Length == |declared| && ValuesGiven(declared, values[..], |declared|)
    ensures forall t :: 0 <= t < |declared| && declared[t] == UNDEFINED ==> values[t] <= 256 + |declared|
  {
    hide IsUsed, GivenTo, ValuesGiven, Undefined;
    var symbolValue, k, free := SortDeclared(declared);
    ghost var used := symbolValue[..k];
    values := new int[|declared|](i requires 0 <= i < |declared| => declared[i]);
    if values[1] == UNDEFINED {
      values[1] := 256;
    }
    assert values[..] == if declared[1] == UNDEFINED then declared[1 := 256] else declared;
    NothingGiven(declared, used, values[..]);
    var j: nat, n := 0, 257;
    for i := 2 to |declared|
      invariant symbolValue[..k] == used
      invariant GivenTo(declared, used, values[..], i, j, n)
      invariant forall l :: 0 <= l < i && declared[l] == UNDEFINED ==> values[l] <= 256 + |declared|
    {
      ghost var was := values[..];
      StillOpen(declared, used, was, i, j, n);
      if values[i] == UNDEFINED {
        ghost var n0, j0 := n, j;
        j, n := SkipUsed(symbolValue[..k], j, n);
        values[i] := n;
        GivenNow(declared, used, was, values[..], i, j0, n0, j, n);
        n := n + 1;
      } else {
        GivenAlready(declared, used, was, i, j, n);
      }
    }
    Finished(declared, used, values[..], j, n);
  }

  /** Two tokens that are declared with the value 300 both end with it; one without a declared value gets 257. */
  method GiveTwice() returns (values: array<int>)
    ensures var declared := [0, UNDEFINED, 300, 300, UNDEFINED];
            fresh(values) && DeclaredOk(declared) && values[..] == [0, 256, 300, 300, 257]
  {
    var declared := [0, UNDEFINED, 300, 300, UNDEFINED];
    values := GiveValues(declared);
    assert LeastUnused(declared, values[..], 4, values[4]);
    assert Unused(declared, values[..], 4, 257);
  }

  lemma NothingGiven(declared: seq<int>, used: seq<int>, values: seq<int>)
    requires DeclaredOk(declared) && IsUsed(declared, |declared|, used)
    requires values == if declared[1] == UNDEFINED then declared[1 := 256] else declared
    ensures GivenTo(declared, used, values, 2, 0, 257)
  {
    assert forall l :: 0 <= l < |used| ==> used[l] in used;
  }

  lemma StillOpen(declared: seq<int>, used: seq<int>, values: seq<int>, i: nat, j: nat, n: int)
    requires GivenTo(declared, used, values, i, j, n) && i < |declared| && IsUsed(declared, |declared|, used)
    ensures |values| == |declared| && values[i] == declared[i]
    ensures j <= |used| && (forall l :: 0 <= l < |used| ==> (l < j <==> used[l] < n))
    ensures forall a, b :: 0 <= a < b < |used| ==> used[a] <= used[b]
  {
  }

  lemma GivenNow(declared: seq<int>, used: seq<int>, was: seq<int>, values: seq<int>, i: nat, j0: nat, n0: int,
                 j: nat, n: int)
    requires GivenTo(declared, used, was, i, j0, n0) && i < |declared| && declared[i] == UNDEFINED
    requires IsUsed(declared, |declared|, used) && |used| + Undefined(declared, |declared|) <= |declared|
    requires |values| == |was| && values == was[i := n] && j0 <= j <= |used| && n0 <= n && n - n0 <= j - j0
    requires forall l :: 0 <= l < |used| ==> (l < j <==> used[l] < n)
    requires n !in used && forall y :: n0 <= y < n ==> y in used
    ensures GivenTo(declared, used, values, i + 1, j, n + 1) && n <= 256 + |declared|
  {
    UndefinedGrows(declared, i);
    IsLeast(declared, used, was, i, n0, n);
    GivenNext(declared, was, values, i);
    assert declared[..|declared|] == declared;
    var next := i + 1;
    forall y | 257 <= y <= n ensures !Unused(declared, values, next, y) {
      assert Unused(declared, values, next, y) <==> Unused(declared, was, i, y) && y != n;
      assert n0 <= y < n ==> y in used;
    }
    forall l | 0 <= l < |used| ensures l < j <==> used[l] < n + 1 {
      assert used[l] in used;
    }
  }

  lemma GivenAlready(declared: seq<int>, used: seq<int>, values: seq<int>, i: nat, j: nat, n: int)
    requires GivenTo(declared, used, values, i, j, n) && i < |declared| && declared[i] != UNDEFINED
    ensures GivenTo(declared, used, values, i + 1, j, n)
  {
    assert values == values[i := values[i]];
    GivenNext(declared, values, values, i);
    var next := i + 1;
    forall y | 257 <= y < n ensures !Unused(declared, values, next, y) {
      assert Unused(declared, values, next, y) <==> Unused(declared, values, i, y);
    }
  }

  lemma Finished(declared: seq<int>, used: seq<int>, values: seq<int>, j: nat, n: int)
    requires GivenTo(declared, used, values, |declared|, j, n)
    ensures ValuesGiven(declared, values, |declared|)
  {
  }

  lemma {:induction false} UndefinedGrows(declared: seq<int>, i: nat)
    requires i < |declared| && declared[i] == UNDEFINED
    ensures Undefined(declared, i) < Undefined(declared, |declared|)
  {
    UndefinedMore(declared, i + 1, |declared|);
  }

  lemma {:induction false} UndefinedMore(declared: seq<int>, m: nat, n: nat)
    requires m <= n <= |declared|
    ensures Undefined(declared, m) <= Undefined(declared, n)
    decreases n
  {
    if m < n { UndefinedMore(declared, m, n - 1); }
  }

  lemma IsLeast(declared: seq<int>, used: seq<int>, values: seq<int>, i: nat, n0: int, n: int)
    requires IsUsed(declared, |declared|, used) && 2 <= i < |declared| == |values| && 257 <= n0 <= n
    requires n !in used && forall y :: n0 <= y < n ==> y in used
    requires forall y :: 257 <= y < n0 ==> !Unused(declared, values, i, y)
    requires forall l :: 2 <= l < i && declared[l] == UNDEFINED ==> values[l] < n0
    ensures LeastUnused(declared, values, i, n)
  {
    assert declared[..|declared|] == declared;
  }

  /** Giving token i its value changes nothing for the tokens before it. */
  lemma GivenNext(declared: seq<int>, was: seq<int>, values: seq<int>, i: nat)
    requires 2 <= i < |declared| == |was| && ValuesGiven(declared, was, i) && was[i] == declared[i]
    requires |values| == |was| && (values == was || declared[i] == UNDEFINED) && values == was[i := values[i]]
    requires declared[i] == UNDEFINED ==> LeastUnused(declared, was, i, values[i])
    ensures ValuesGiven(declared, values, i + 1)
    ensures forall y :: Unused(declared, values, i + 1, y) <==>
              Unused(declared, was, i, y) && (declared[i] == UNDEFINED ==> y != values[i])
  {
    forall t: nat, x | t <= i ensures Unused(declared, values, t, x) <==> Unused(declared, was, t, x) {
    }
    forall t: nat | t < i && declared[t] == UNDEFINED && t >= 2 ensures LeastUnused(declared, values, t, values[t]) {
      assert LeastUnused(declared, was, t, was[t]);
    }
    assert declared[i] == UNDEFINED ==> LeastUnused(declared, values, i, values[i]);
  }
}
