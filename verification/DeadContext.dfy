/** A grammar on which the generated lookaheads are more than the canonical LR(1) lookaheads. */
module DeadContext {
  import opened Grammars
  import opened Automata
  import opened Lr1
  import opened Lookaheads
  import opened LaTable
  import opened GotoMap
  import opened Lalr
  import opened Jay
  import Lr0

  /** Tokens $end, error, a, b, x are 0 to 4; $accept, S, B, N, A are 5 to 9. The rules from 3 on are
      S: B N, N: N x, B: A b, A: a. No word starts with N, so nothing can follow B. */
  const DeadTables := RawGrammar(5, 10,
    [-1, 6, 0, -2, 7, 8, -3, 8, 4, -4, 9, 3, -5, 2, -6],
    [0, 0, 5, 6, 8, 7, 9],
    [0, 0, 1, 4, 7, 10, 13, 15])

  lemma DeadHeader()
    ensures DeadTables.Header() && |DeadTables.rlhs| == 7
  {
  }

  lemma DeadRule(r: nat)
    requires 3 <= r < 7
    ensures DeadTables.Header() && DeadTables.UserRule(r)
  {
  }

  lemma DeadIsGrammar()
    ensures DeadTables.Valid()
  {
    DeadHeader();
    hide RawGrammar.Header, RawGrammar.UserRule;
    forall r | 3 <= r < 7 ensures DeadTables.UserRule(r) {
      DeadRule(r);
    }
  }

  ghost function Dead(): (g: Grammar)
    ensures g == DeadTables
  {
    DeadIsGrammar();
    DeadTables
  }

  /** What a rule expands where. */
  lemma DeadExpands(i: nat, r: nat)
    ensures Dead().Expands(i, r) <==>
              (i == 1 && r == 3) || (i in {5, 7} && r == 4) || (i == 4 && r == 5) || (i == 10 && r == 6)
    ensures Dead().Expands(i, r) ==> Dead().rrhs[r] == if r == 3 then 4 else if r == 4 then 7 else if r == 5 then 10 else 13
  {
  }

  lemma NotNullable(n: nat)
    ensures !NullableAt(Dead(), n, 8)
  {
    var g := Dead();
    assert InRule(g, 4, 8);
    assert n > 0 ==> !NullableAt(g, n - 1, 4);
    assert n > 0 ==> !NullableRule(g, n - 1, 4);
  }

  lemma NeverNullable()
    ensures !Nullable(Dead(), 8)
  {
    forall n: nat ensures !NullableAt(Dead(), n, 8) {
      NotNullable(n);
    }
  }

  lemma BeforeN(i: nat)
    requires i == 5 || i == 7
    ensures i < |DeadTables.ritem| && DeadTables.ritem[i] == 8 && DeadTables.IsVar(8)
  {
  }

  /** Neither item before N begins with a token. */
  lemma {:induction false} NoFirst(n: nat, i: nat, t: int)
    requires i == 5 || i == 7
    ensures !FirstAt(Dead(), n, i, t)
  {
    hide Nullable, RawGrammar.Valid;
    var g := Dead();
    if FirstAt(g, n, i, t) {
      NeverNullable();
      BeforeN(i);
      var r: nat :| g.Expands(i, r) && FirstAt(g, n - 1, g.rrhs[r], t);
      DeadExpands(i, r);
      NoFirst(n - 1, 7, t);
    }
  }

  /** The items that the canonical construction reaches: $accept, S and N, never B or A. */
  ghost predicate Alive(word: seq<int>, i: nat, t: int)
  {
    i in {1, 2, 4, 5, 6, 7, 8, 9}
  }

  /** Nothing can follow B, so that its rule is not added. */
  lemma NothingAdded(b: int, t: int)
    ensures !AddsRule(Dead(), false, 4, b, 5, t)
  {
    hide Nullable, FirstAt, RawGrammar.Valid, RawGrammar.Expands;
    NeverNullable();
    BeforeN(5);
    forall n: nat ensures !FirstAt(Dead(), n, 5, t) {
      NoFirst(n, 5, t);
    }
  }

  lemma AliveAdds(word: seq<int>, j: nat, b: int, r: nat, t: int)
    requires Alive(word, j, b) && AddsRule(Dead(), false, j, b, r, t)
    ensures r < |DeadTables.rrhs| && Alive(word, DeadTables.rrhs[r], t)
  {
    hide Nullable, First, FirstOrAfter, Inherits, RawGrammar.Valid, RawGrammar.Expands;
    DeadExpands(j, r);
    if j == 4 {
      NothingAdded(b, t);
    }
  }

  lemma AliveShifts(word: seq<int>, i: nat, t: int)
    requires Alive(word, i, t) && i < |DeadTables.ritem| && DeadTables.ritem[i] > 0
    ensures Alive(word + [DeadTables.ritem[i]], i + 1, t)
  {
  }

  lemma AliveIsClosed()
    ensures ClosedFamily(Dead(), (word: seq<int>, i: nat, t: int) => Alive(word, i, t))
  {
    hide Inherits, RawGrammar.Valid;
    var g := Dead();
    var has := (word: seq<int>, i: nat, t: int) => Alive(word, i, t);
    forall word: seq<int>, i: nat, t: int | has(word, i, t) && i < |g.ritem| && g.ritem[i] > 0
      ensures has(word + [g.ritem[i]], i + 1, t)
    {
      AliveShifts(word, i, t);
    }
    forall word: seq<int>, j: nat, b: int, r: nat, t: int | has(word, j, b) && AddsRule(g, false, j, b, r, t)
      ensures has(word, g.rrhs[r], t)
    {
      AliveAdds(word, j, b, r, t);
    }
  }

  /** After an a, the generator reduces A on b, though no LR(1) item does. */
  lemma LalrExceedsLr1(a: Automaton, gt: Gotos)
    requires a.g == DeadTables && IsGotos(a, gt)
    ensures !Live(a.g)
    ensures exists q: nat :: q < |a.reds| && 6 in a.reds[q] && La(a, gt, q, 6, 3) && !Merged(a, false, q, 6, 3)
  {
    hide IsLr0, La, Live, InState, ItemAt, IsGotos, RedsOk, RawGrammar.Valid;
    var g := Dead();
    LenientItem();
    var n: nat :| ItemAt(g, true, n, [2], 14, 3);
    ItemOnState(a, true, n, [2], 14, 3);
    var q: nat :| Walk(a, 0, [2], q) && InState(a, q, 14);
    ReducesA(a, q);
    assert Merged(a, true, q, 6, 3);
    LalrIsMergedLenient(a, gt, q, 6, 3);
    if Merged(a, false, q, 6, 3) {
      var word :| Walk(a, 0, word, q) && Item(g, false, word, 14, 3);
      var m: nat :| ItemAt(g, false, m, word, 14, 3);
      AliveIsClosed();
      ItemIsLeast(g, (word: seq<int>, i: nat, t: int) => Alive(word, i, t), m, word, 14, 3);
    }
    if Live(g) {
      LalrIsMergedLr1(a, gt, q, 6, 3);
    }
  }

  /** Where A: a is completed, it is reduced. */
  lemma ReducesA(a: Automaton, q: nat)
    requires a.g == DeadTables && InState(a, q, 14)
    ensures EndItem(Dead(), 6) == 14 && Dead().IsRule(6) && q < |a.reds| && 6 in a.reds[q]
  {
    hide InClosure, ShiftsOk, KernelOk;
    assert EndItem(Dead(), 6) == 14 && Dead().IsRule(6) && RedsOk(a, q);
  }

  lemma LenientItem()
    ensures Item(Dead(), true, [2], 14, 3)
  {
    var g := Dead();
    ItemStart(g, true);
    assert FirstAt(g, 0, 2, 0);
    assert g.Expands(1, 3) && g.Expands(4, 5) && g.Expands(10, 6);
    ItemClose(g, true, [], 1, 0, 3, 0);
    ItemClose(g, true, [], 4, 0, 5, NoToken);
    assert FirstAt(g, 0, 11, 3);
    ItemClose(g, true, [], 10, NoToken, 6, 3);
    ItemShift(g, true, [], 13, 3);
    assert [] + [g.ritem[13]] == [2];
  }

  /** Passing the grammar through the generator, some row of its lookaheads holds a token that is not canonical. */
  method ComputeExcess() returns (a: Automaton, lookaheads: seq<nat>, rules: seq<nat>, rows: seq<set<int>>)
    ensures a.g == DeadTables && IsLaTable(a, lookaheads, rules) && |rows| == |rules|
    ensures exists row: nat, q: nat ::
              row < |rows| && IsRow(a, lookaheads, row, q, 6) && 3 in rows[row] && !Merged(a, false, q, 6, 3)
  {
    hide IsLr0, La, Merged, IsLaTable, IsLookaheads, IsRow, IsGotoMap, IsGotos;
    DeadIsGrammar();
    var g: Grammar := DeadTables;
    var derives, nullable;
    derives, nullable, a := Lr0.BuildAutomaton(g);
    NullableSeq(g, nullable[..]);
    var gotoMap, fromState, toState, la;
    gotoMap, fromState, toState, lookaheads, rules, la := BuildLookaheads(a, derives, nullable[..]);
    rows := la[..];
    RowExceeds(a, Gotos(fromState, toState), lookaheads, rules, rows);
  }

  lemma RowExceeds(a: Automaton, gt: Gotos, lookaheads: seq<nat>, rules: seq<nat>, rows: seq<set<int>>)
    requires a.g == DeadTables && IsGotos(a, gt) && IsLaTable(a, lookaheads, rules) && |rows| == |rules|
    requires IsLookaheads(a, gt, lookaheads, rows)
    ensures exists row: nat, q: nat ::
              row < |rows| && IsRow(a, lookaheads, row, q, 6) && 3 in rows[row] && !Merged(a, false, q, 6, 3)
  {
    hide IsLr0, La, Merged, IsLaTable, IsGotos;
    LalrExceedsLr1(a, gt);
    var q: nat :| q < |a.reds| && 6 in a.reds[q] && La(a, gt, q, 6, 3) && !Merged(a, false, q, 6, 3);
    var n: nat :| n < |a.reds[q]| && a.reds[q][n] == 6;
    RowRule(a, lookaheads, rules, q, n);
    var row := lookaheads[q] + n;
    assert IsRow(a, lookaheads, row, q, 6);
  }
}
