/** One lookahead row for every reduction of every state (jay/lalr.c, initialize_LA and add_lookback_edge). */
module LaTable {
  import opened Automata
  import opened Layout

  ghost function RedCounts(a: Automaton): (counts: seq<nat>)
    ensures |counts| == |a.reds|
  {
    seq(|a.reds|, q requires 0 <= q < |a.reds| => |a.reds[q]|)
  }

  /** The rows of state q are lookaheads[q]..lookaheads[q+1], one per rule of its reduction record, in order. */
  ghost predicate IsLaTable(a: Automaton, lookaheads: seq<nat>, LAruleno: seq<nat>)
  {
    && |lookaheads| == |a.reds| + 1
    && (forall q :: 0 <= q <= |a.reds| ==> lookaheads[q] == Starts(RedCounts(a), q))
    && Laid(LAruleno, lookaheads, a.reds)
  }

  /** Row i belongs to rule r of state q. */
  ghost predicate IsRow(a: Automaton, lookaheads: seq<nat>, i: nat, q: nat, r: nat)
  {
    && q < |a.reds| && q < |lookaheads| && lookaheads[q] <= i < lookaheads[q] + |a.reds[q]|
    && a.reds[q][i - lookaheads[q]] == r
  }

  /** The records below i, and the first j rules of record i. */
  ghost function PartReds(a: Automaton, i: nat, j: nat): (lists: seq<seq<nat>>)
    requires i < |a.reds| && j <= |a.reds[i]|
    ensures |lists| == |a.reds|
  {
    seq(|a.reds|, q requires 0 <= q < |a.reds| && i < |a.reds| && j <= |a.reds[i]| => PartRed(a, i, j, q))
  }

  ghost function PartRed(a: Automaton, i: nat, j: nat, q: nat): seq<nat>
    requires q < |a.reds| && i < |a.reds| && j <= |a.reds[i]|
  {
    if q < i then a.reds[q] else if q == i then a.reds[i][..j] else []
  }

  lemma PartStep(a: Automaton, i: nat, j: nat)
    requires i < |a.reds| && j < |a.reds[i]|
    ensures PartReds(a, i, j)[i] == a.reds[i][..j]
    ensures PartReds(a, i, j + 1) == PartReds(a, i, j)[i := PartReds(a, i, j)[i] + [a.reds[i][j]]]
  {
    assert a.reds[i][..j + 1] == a.reds[i][..j] + [a.reds[i][j]];
  }

  lemma PartEnd(a: Automaton, i: nat)
    requires i < |a.reds|
    ensures i + 1 < |a.reds| ==> PartReds(a, i, |a.reds[i]|) == PartReds(a, i + 1, 0)
    ensures i + 1 == |a.reds| ==> PartReds(a, i, |a.reds[i]|) == a.reds
  {
    assert a.reds[i][..|a.reds[i]|] == a.reds[i];
  }

  lemma PartStart(a: Automaton)
    ensures |a.reds| > 0 && forall q :: 0 <= q < |a.reds| ==> PartReds(a, 0, 0)[q] == []
  {
  }

  lemma RedRoom(a: Automaton, lookaheads: seq<nat>, q: nat)
    requires |lookaheads| == |a.reds| + 1 && q < |a.reds|
    requires forall q :: 0 <= q <= |a.reds| ==> lookaheads[q] == Starts(RedCounts(a), q)
    ensures lookaheads[q+1] == lookaheads[q] + |a.reds[q]|
  {
  }

  lemma RedsNext(a: Automaton, q: nat)
    requires q < |a.reds|
    ensures Starts(RedCounts(a), q + 1) == Starts(RedCounts(a), q) + |a.reds[q]|
  {
  }

  method InitializeLa(a: Automaton) returns (lookaheads: seq<nat>, LAruleno: seq<nat>)
    ensures IsLaTable(a, lookaheads, LAruleno)
  {
    hide IsLr0, RedCounts, Starts, IsLaTable;
    StartsFirst(RedCounts(a));
    var nstates := |a.reds|;
    var starts := new nat[nstates + 1](_ => 0);
    var k: nat := 0;
    for i := 0 to nstates
      invariant k == Starts(RedCounts(a), i)
      invariant forall q :: 0 <= q < i ==> starts[q] == Starts(RedCounts(a), q)
    {
      RedsNext(a, i);
      starts[i] := k;
      k := k + |a.reds[i]|;
    }
    starts[nstates] := k;
    lookaheads := starts[..];
    LAruleno := FillRules(a, lookaheads, k);
  }

  method FillRules(a: Automaton, lookaheads: seq<nat>, size: nat) returns (LAruleno: seq<nat>)
    requires |lookaheads| == |a.reds| + 1 && size == lookaheads[|a.reds|]
    requires forall q :: 0 <= q <= |a.reds| ==> lookaheads[q] == Starts(RedCounts(a), q)
    ensures IsLaTable(a, lookaheads, LAruleno)
  {
    hide IsLr0, Laid, PartReds, RedCounts, Starts;
    var rules := new nat[size](_ => 0);
    PartStart(a);
    LaidEmpty(rules[..], lookaheads, RedCounts(a), PartReds(a, 0, 0));
    var k: nat := 0;
    var i: nat := 0;
    StartsFirst(RedCounts(a));
    while i < |a.reds|
      invariant i <= |a.reds| && k == lookaheads[i] && rules.Length == size
      invariant Laid(rules[..], lookaheads, if i < |a.reds| then PartReds(a, i, 0) else a.reds)
    {
      RedRoom(a, lookaheads, i);
      k := FillRecord(a, lookaheads, i, rules);
      PartEnd(a, i);
      i := i + 1;
    }
    LAruleno := rules[..];
  }

  method FillRecord(a: Automaton, lookaheads: seq<nat>, i: nat, rules: array<nat>) returns (k: nat)
    requires i < |a.reds| && |lookaheads| == |a.reds| + 1 && lookaheads[i+1] == lookaheads[i] + |a.reds[i]|
    requires Laid(rules[..], lookaheads, PartReds(a, i, 0))
    modifies rules
    ensures Laid(rules[..], lookaheads, PartReds(a, i, |a.reds[i]|)) && k == lookaheads[i+1]
  {
    hide IsLr0, Laid, PartReds;
    k := lookaheads[i];
    var j: nat := 0;
    while j < |a.reds[i]|
      invariant j <= |a.reds[i]| && k == lookaheads[i] + j
      invariant Laid(rules[..], lookaheads, PartReds(a, i, j))
    {
      PartStep(a, i, j);
      LaidPush(rules[..], lookaheads, PartReds(a, i, j), i, a.reds[i][j]);
      rules[k] := a.reds[i][j];
      k := k + 1;
      j := j + 1;
    }
  }

  // ---------------------------------------------------------------------------------

  lemma RowRule(a: Automaton, lookaheads: seq<nat>, LAruleno: seq<nat>, q: nat, n: nat)
    requires IsLaTable(a, lookaheads, LAruleno) && q < |a.reds| && n < |a.reds[q]|
    ensures |lookaheads| == |a.reds| + 1 && lookaheads[q+1] == lookaheads[q] + |a.reds[q]|
    ensures lookaheads[q] + n < |LAruleno| == lookaheads[|a.reds|] && LAruleno[lookaheads[q] + n] == a.reds[q][n]
  {
    hide IsLr0, Laid, RedCounts, Starts;
    RedRoom(a, lookaheads, q);
    LaidAt(LAruleno, lookaheads, a.reds, q, n);
    LaidEnd(LAruleno, lookaheads, a.reds);
  }

  lemma LaidEnd<T>(items: seq<T>, base: seq<nat>, lists: seq<seq<T>>)
    requires Laid(items, base, lists)
    ensures |base| == |lists| + 1 && base[|lists|] == |items|
  {
  }

  /** No row belongs to two reductions. */
  lemma RowUnique(a: Automaton, lookaheads: seq<nat>, LAruleno: seq<nat>, i: nat, q: nat, r: nat, q': nat, r': nat)
    requires IsLaTable(a, lookaheads, LAruleno) && IsRow(a, lookaheads, i, q, r) && IsRow(a, lookaheads, i, q', r')
    ensures q == q' && r == r'
  {
    hide IsLr0, RedCounts, Starts;
    RedRoom(a, lookaheads, q);
    RedRoom(a, lookaheads, q');
    if q < q' { BasesAscend(LAruleno, lookaheads, a.reds, q + 1, q'); }
    if q' < q { BasesAscend(LAruleno, lookaheads, a.reds, q' + 1, q); }
  }

  /** The search of add_lookback_edge. The rule is a reduction of the state, so that it is found. */
  method FindRow(a: Automaton, lookaheads: seq<nat>, LAruleno: seq<nat>, stateno: nat, ruleno: nat) returns (i: nat)
    requires IsLaTable(a, lookaheads, LAruleno) && stateno < |a.reds| && ruleno in a.reds[stateno]
    ensures i < |LAruleno| && IsRow(a, lookaheads, i, stateno, ruleno)
  {
    hide IsLr0, IsLaTable;
    ghost var n: nat :| n < |a.reds[stateno]| && a.reds[stateno][n] == ruleno;
    RowRule(a, lookaheads, LAruleno, stateno, n);
    i := lookaheads[stateno];
    var k := lookaheads[stateno+1];
    var found := false;
    while !found && i < k
      invariant lookaheads[stateno] <= i <= lookaheads[stateno] + n
      invariant found ==> i < |LAruleno| && IsRow(a, lookaheads, i, stateno, ruleno)
      decreases !found, k - i
    {
      RowRule(a, lookaheads, LAruleno, stateno, i - lookaheads[stateno]);
      if LAruleno[i] == ruleno {
        found := true;
      } else {
        i := i + 1;
      }
    }
    assert found;
  }

  /** A new link at the head of the list of the row. */
  method AddLookbackEdge(a: Automaton, lookaheads: seq<nat>, LAruleno: seq<nat>, lookback: array<seq<nat>>,
                           stateno: nat, ruleno: nat, gotono: nat) returns (ghost i: nat)
    requires IsLaTable(a, lookaheads, LAruleno) && stateno < |a.reds| && ruleno in a.reds[stateno]
    requires lookback.Length == |LAruleno|
    modifies lookback
    ensures i < lookback.Length && IsRow(a, lookaheads, i, stateno, ruleno)
    ensures lookback[..] == old(lookback[..])[i := [gotono] + old(lookback[..])[i]]
  {
    var row := FindRow(a, lookaheads, LAruleno, stateno, ruleno);
    lookback[row] := [gotono] + lookback[row];
    i := row;
  }
}
