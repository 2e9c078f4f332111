/** The goto columns and their defaults (jay/output.c, default_goto and save_column). */
module Columns {
  import opened Packing

  /** How often q occurs in the slice. */
  ghost function Occurs(s: seq<nat>, q: nat): (n: nat)
    ensures n <= |s|
    ensures n > 0 <==> q in s
  {
    if s == [] then 0 else Occurs(s[..|s|-1], q) + if s[|s|-1] == q then 1 else 0
  }

  lemma OccursNext(s: seq<nat>, x: nat, q: nat)
    ensures Occurs(s + [x], q) == Occurs(s, q) + if x == q then 1 else 0
  {
    assert (s + [x])[..|s|] == s;
  }

  lemma {:induction false} OccursIsMultiplicity(s: seq<nat>, q: nat)
    ensures Occurs(s, q) == multiset(s)[q]
  {
    if s != [] {
      var n := |s| - 1;
      OccursIsMultiplicity(s[..n], q);
      assert s == s[..n] + [s[n]];
    }
  }

  /** The most frequent target, and of several the least. */
  ghost predicate IsDefault(targets: seq<nat>, q: nat)
  {
    if targets == [] then q == 0
    else q in targets && forall p: nat :: Occurs(targets, p) < Occurs(targets, q)
                                          || (Occurs(targets, p) == Occurs(targets, q) && q <= p)
                                          || p == q
  }

  /** jay/output.c, default_goto, over the targets of one variable's transitions. */
  method DefaultGoto(targets: seq<nat>, nstates: nat) returns (defaultState: nat)
    requires forall k :: 0 <= k < |targets| ==> targets[k] < nstates
    ensures IsDefault(targets, defaultState)
    ensures targets == [] ==> defaultState == 0
    ensures targets != [] ==> defaultState in targets && forall p: nat :: p in targets && p != defaultState ==>
              || multiset(targets)[p] < multiset(targets)[defaultState]
              || (multiset(targets)[p] == multiset(targets)[defaultState] && defaultState < p)
  {
    hide Occurs;
    if |targets| == 0 {
      return 0;
    }
    var stateCount := CountTargets(targets, nstates);
    var max: nat := 0;
    defaultState := 0;
    var i: nat := 0;
    while i < nstates
      invariant i <= nstates
      invariant forall p: nat :: p < i ==> Occurs(targets, p) <= max
      invariant max > 0 ==> defaultState < i && Occurs(targets, defaultState) == max
      invariant max > 0 ==> forall p: nat :: p < defaultState ==> Occurs(targets, p) < max
    {
      if stateCount[i] > max {
        max := stateCount[i];
        defaultState := i;
      }
      i := i + 1;
    }
    assert targets[0] in targets && Occurs(targets, targets[0]) <= max;
    forall p: nat | p >= nstates ensures Occurs(targets, p) == 0 {
    }
    forall p: nat ensures Occurs(targets, p) == multiset(targets)[p] {
      OccursIsMultiplicity(targets, p);
    }
  }

  method CountTargets(targets: seq<nat>, nstates: nat) returns (stateCount: seq<nat>)
    requires forall k :: 0 <= k < |targets| ==> targets[k] < nstates
    ensures |stateCount| == nstates && forall q: nat :: q < nstates ==> stateCount[q] == Occurs(targets, q)
  {
    hide Occurs;
    var counts := new nat[nstates](_ => 0);
    forall q: nat ensures Occurs([], q) == 0 { OccursNone(q); }
    var i: nat := 0;
    assert targets[..0] == [];
    while i < |targets|
      invariant i <= |targets|
      invariant forall q: nat :: q < nstates ==> counts[q] == Occurs(targets[..i], q)
    {
      assert targets[..i+1] == targets[..i] + [targets[i]];
      forall q: nat ensures Occurs(targets[..i+1], q) == Occurs(targets[..i], q) + if targets[i] == q then 1 else 0 {
        OccursNext(targets[..i], targets[i], q);
      }
      counts[targets[i]] := counts[targets[i]] + 1;
      i := i + 1;
    }
    assert targets[..|targets|] == targets;
    stateCount := counts[..];
  }

  lemma OccursNone(q: nat)
    ensures Occurs([], q) == 0
  {
  }

  // ---------------------------------------------------------------------------------

  /** The column holds the transitions that do not lead to the default. */
  ghost predicate ColumnOf(sources: seq<nat>, targets: seq<nat>, defaultState: nat, n: nat, from: seq<nat>, to: seq<int>)
  {
    && n <= |sources| == |targets| && |from| == |to|
    && (forall k :: 0 <= k < |from| ==> ColumnEntry(sources, targets, defaultState, n, from[k], to[k]))
    && (forall j :: 0 <= j < n && targets[j] != defaultState ==> sources[j] in from)
    && (forall k, l :: 0 <= k < l < |from| ==> from[k] < from[l])
  }

  ghost predicate ColumnEntry(sources: seq<nat>, targets: seq<nat>, defaultState: nat, n: nat, c: nat, x: int)
  {
    exists j :: 0 <= j < n && j < |sources| && j < |targets| && targets[j] != defaultState && sources[j] == c && x == targets[j]
  }

  ghost predicate Ascending(s: seq<nat>)
  {
    forall k, l :: 0 <= k < l < |s| ==> s[k] < s[l]
  }

  lemma ColumnNext(sources: seq<nat>, targets: seq<nat>, defaultState: nat, n: nat, from: seq<nat>, to: seq<int>)
    requires Ascending(sources) && ColumnOf(sources, targets, defaultState, n, from, to) && n < |sources|
    ensures if targets[n] != defaultState then
              ColumnOf(sources, targets, defaultState, n + 1, from + [sources[n]], to + [targets[n]])
            else ColumnOf(sources, targets, defaultState, n + 1, from, to)
  {
    var from' := if targets[n] != defaultState then from + [sources[n]] else from;
    var to': seq<int> := if targets[n] != defaultState then to + [targets[n]] else to;
    forall k | 0 <= k < |from'| ensures ColumnEntry(sources, targets, defaultState, n + 1, from'[k], to'[k]) {
      if k < |from| {
        assert ColumnEntry(sources, targets, defaultState, n, from[k], to[k]);
      }
    }
    forall k | 0 <= k < |from| ensures from[k] < sources[n] {
      assert ColumnEntry(sources, targets, defaultState, n, from[k], to[k]);
    }
  }

  /** In an ascending vector the ends give the width. */
  lemma {:induction false} AscendingWidth(s: seq<nat>)
    requires Ascending(s) && s != []
    ensures Least(s) == s[0] && Greatest(s) == s[|s|-1] && Width(s) == s[|s|-1] - s[0] + 1
  {
    if |s| > 1 {
      var front := s[..|s|-1];
      AscendingWidth(front);
      assert front[|front|-1] < s[|s|-1];
    }
  }

  /** jay/output.c, save_column: the column of one variable, or nothing if all its transitions lead to the default. */
  method SaveColumn(sources: seq<nat>, targets: seq<nat>, defaultState: nat) returns (from: seq<nat>, to: seq<int>,
                    width: nat)
    requires |sources| == |targets| && Ascending(sources)
    ensures ColumnOf(sources, targets, defaultState, |sources|, from, to)
    ensures if from == [] then width == 0 else width == Width(from)
  {
    hide ColumnOf, Width;
    from, to, width := [], [], 0;
    ColumnNone(sources, targets, defaultState);
    var i: nat := 0;
    while i < |sources|
      invariant i <= |sources| && ColumnOf(sources, targets, defaultState, i, from, to)
    {
      ColumnNext(sources, targets, defaultState, i, from, to);
      if targets[i] != defaultState {
        from := from + [sources[i]];
        to := to + [targets[i]];
      }
      i := i + 1;
    }
    if |from| == 0 {
      return;
    }
    ColumnAscends(sources, targets, defaultState, from, to);
    AscendingWidth(from);
    width := from[|from|-1] - from[0] + 1;
  }

  lemma ColumnNone(sources: seq<nat>, targets: seq<nat>, defaultState: nat)
    requires |sources| == |targets|
    ensures ColumnOf(sources, targets, defaultState, 0, [], [])
  {
  }

  lemma ColumnAscends(sources: seq<nat>, targets: seq<nat>, defaultState: nat, from: seq<nat>, to: seq<int>)
    requires ColumnOf(sources, targets, defaultState, |sources|, from, to)
    ensures Ascending(from) && |from| == |to|
    ensures from != [] ==> from[|from|-1] >= from[0]
  {
  }

  /** Looking for the source of transition j: it is in the column with its target, or its target is the default. */
  lemma ColumnHas(sources: seq<nat>, targets: seq<nat>, defaultState: nat, from: seq<nat>, to: seq<int>, j: nat)
    requires Ascending(sources) && ColumnOf(sources, targets, defaultState, |sources|, from, to) && j < |sources|
    ensures sources[j] in from <==> targets[j] != defaultState
    ensures forall k :: 0 <= k < |from| && from[k] == sources[j] ==> to[k] == targets[j]
  {
    forall k | 0 <= k < |from| && from[k] == sources[j] ensures to[k] == targets[j] && targets[j] != defaultState {
      assert ColumnEntry(sources, targets, defaultState, |sources|, from[k], to[k]);
    }
  }
}
