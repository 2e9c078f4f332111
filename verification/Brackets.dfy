/** The automaton and the lookaheads of a small grammar: S: A S D and S without symbols. The tokens $end, error, A, D are
    0 to 3, $accept and S are 4 and 5. The parser of this grammar serves as an example in the module WrongRule. */
module Brackets {
  import opened Relation
  import opened Grammars
  import opened Automata
  import opened Lookaheads
  import opened GotoMap
  import opened Layout
  import opened LaTable
  import opened Lalr

  const BracketTables := RawGrammar(4, 6, [-1, 5, 0, -2, 2, 5, 3, -3, -4], [0, 0, 4, 5, 5], [0, 0, 1, 4, 8, 9])

  lemma BracketsIsGrammar()
    ensures BracketTables.Valid()
  {
    assert BracketTables.UserRule(3) && BracketTables.UserRule(4);
  }

  ghost function Grammar0(): (g: Grammar)
    ensures g == BracketTables
  {
    BracketsIsGrammar();
    BracketTables
  }

  /** State 1 is reached on A, 2 and 3 on S, 4 on D. */
  const BracketStates := RawAutomaton(BracketTables, [[1], [5], [2], [6], [7]], [0, 2, 5, 5, 3], [[1, 2], [1, 3], [], [4], []],
                                      [[4], [4], [], [], [3]])

  lemma ClosureOf(k: nat)
    requires k in {1, 2, 5, 6, 7}
    ensures forall i: nat :: InClosure(Grammar0(), [k], i) <==> i == k || (k in {1, 5} && i in {4, 8})
  {
    var g := Grammar0();
    assert g.Expands(1, 3) && g.Expands(1, 4) && g.Expands(5, 3) && g.Expands(5, 4);
    KernelInClosure(g, [k], k);
    if k in {1, 5} {
      ClosureStep(g, [k], k, 3);
      ClosureStep(g, [k], k, 4);
    }
    forall i: nat | InClosure(g, [k], i) ensures i == k || (k in {1, 5} && i in {4, 8}) {
      ClosureInduction(g, [k], i, (x: nat) => x == k || (k in {1, 5} && x in {4, 8}));
    }
  }

  lemma StateRecords(p: nat)
    requires p < 5
    ensures ShiftsOk(BracketStates, p) && RedsOk(BracketStates, p)
  {
    BracketShifts(p);
    BracketReductions(p);
  }

  /** All moves of the states: to item j over the symbol before it. */
  ghost predicate IsMove(p: nat, symbol: int, j: nat)
  {
    (p == 0 && symbol == 5 && j == 2) || (p < 2 && symbol == 2 && j == 5) || (p == 1 && symbol == 5 && j == 6)
    || (p == 3 && symbol == 3 && j == 7)
  }

  lemma MoveIs(p: nat, symbol: nat, j: nat)
    requires p < 5 && symbol > 0
    ensures Moves(Grammar0(), BracketStates.kernels[p], symbol, j) <==> IsMove(p, symbol, j)
  {
    var k := BracketStates.kernels[p][0];
    assert BracketStates.kernels[p] == [k];
    ClosureOf(k);
    hide InClosure;
  }

  lemma Successor(p: nat, q: nat)
    requires p < 5 && q in BracketStates.shifts[p]
    ensures 1 <= q < 5 && IsSuccessor(Grammar0(), BracketStates.kernels[p], BracketStates.access[q], BracketStates.kernels[q])
  {
    hide Moves;
    var a := BracketStates;
    forall j: nat ensures Moves(Grammar0(), a.kernels[p], a.access[q], j) <==> IsMove(p, a.access[q], j) {
      MoveIs(p, a.access[q], j);
    }
  }

  lemma BracketShifts(p: nat)
    requires p < 5
    ensures ShiftsOk(BracketStates, p)
  {
    hide IsSuccessor, InClosure, ShiftsOn;
    var a := BracketStates;
    forall q | q in a.shifts[p] ensures IsSuccessor(a.g, a.kernels[p], a.access[q], a.kernels[q]) {
      Successor(p, q);
    }
    forall i: nat | i < |a.g.ritem| && InClosure(a.g, a.kernels[p], i) && a.g.ritem[i] > 0
      ensures ShiftsOn(a.access, a.shifts[p], a.g.ritem[i])
    {
      HasShift(p, i);
    }
  }

  lemma HasShift(p: nat, i: nat)
    requires p < 5 && i < 9 && InClosure(Grammar0(), BracketStates.kernels[p], i) && BracketTables.ritem[i] > 0
    ensures ShiftsOn(BracketStates.access, BracketStates.shifts[p], BracketTables.ritem[i])
  {
    MoveIs(p, BracketTables.ritem[i], i + 1);
    hide InClosure;
    var shift, k := BracketStates.shifts[p], if p < 2 && BracketTables.ritem[i] == 5 then 1 else 0;
    assert shift[k] in shift && BracketStates.access[shift[k]] == BracketTables.ritem[i];
  }

  lemma RuleEnds(r: nat)
    ensures BracketTables.IsRule(r) <==> 2 <= r <= 4
    ensures BracketTables.IsRule(r) ==> EndItem(Grammar0(), r) == if r == 2 then 3 else if r == 3 then 7 else 8
  {
  }

  lemma BracketReductions(p: nat)
    requires p < 5
    ensures RedsOk(BracketStates, p)
  {
    var a := BracketStates;
    var k := a.kernels[p][0];
    assert a.kernels[p] == [k];
    ClosureOf(k);
    hide InClosure, EndItem;
    forall r: nat ensures a.g.IsRule(r) && InClosure(a.g, a.kernels[p], EndItem(a.g, r)) <==> r in a.reds[p] {
      RuleEnds(r);
    }
  }

  ghost function WordTo(p: nat): seq<int>
    requires p < 5
  {
    if p == 0 then [] else if p == 1 then [2] else if p == 2 then [5] else if p == 3 then [2, 5] else [2, 5, 3]
  }

  lemma WordReaches(p: nat)
    requires p < 5
    ensures Walk(BracketStates, 0, WordTo(p), p)
  {
    var a := BracketStates;
    assert Walk(a, 0, [], 0);
    if p == 1 || p == 2 {
      assert Front(WordTo(p)) == [] && Last(WordTo(p)) == a.access[p] && Trans(a, 0, a.access[p], p);
    } else if p == 3 {
      WordReaches(1);
      assert Front(WordTo(3)) == WordTo(1) && Last(WordTo(3)) == 5 && Trans(a, 1, 5, 3);
    } else if p == 4 {
      WordReaches(3);
      assert Front(WordTo(4)) == WordTo(3) && Last(WordTo(4)) == 3 && Trans(a, 3, 3, 4);
    }
  }

  lemma BracketsIsLr0()
    ensures IsLr0(BracketStates)
  {
    hide ShiftsOk, RedsOk, Walk, KernelOk;
    var a := BracketStates;
    BracketKernels();
    forall p: nat | p < 5 ensures ShiftsOk(a, p) && RedsOk(a, p) && Reachable(a, p) {
      StateRecords(p);
      WordReaches(p);
    }
  }

  lemma BracketKernels()
    ensures forall p :: 0 <= p < 5 ==> KernelOk(BracketTables, BracketStates.kernels[p])
    ensures forall p, q :: 0 <= p < q < 5 ==> BracketStates.kernels[p] != BracketStates.kernels[q]
  {
    assert forall p :: 0 <= p < 5 ==> |BracketStates.kernels[p]| == 1;
    assert forall p, q :: 0 <= p < q < 5 ==> BracketStates.kernels[p][0] != BracketStates.kernels[q][0];
  }

  ghost function Automaton0(): (a: Automaton)
    ensures a == BracketStates
  {
    BracketsIsLr0();
    BracketStates
  }

  /** All transitions. */
  ghost predicate IsTrans(p: nat, symbol: int, q: nat)
  {
    (p == 0 && symbol == 2 && q == 1) || (p == 0 && symbol == 5 && q == 2) || (p == 1 && symbol == 2 && q == 1)
    || (p == 1 && symbol == 5 && q == 3) || (p == 3 && symbol == 3 && q == 4)
  }

  lemma TransIs(p: nat, symbol: int, q: nat)
    ensures Trans(Automaton0(), p, symbol, q) <==> IsTrans(p, symbol, q)
  {
    var a := BracketStates;
    assert p < 5 && q in a.shifts[p] ==> q < 5;
  }

  // ---------------------------------------------------------------------------------
  // The two transitions on S, and the lookaheads.

  const Gotos0 := Gotos([0, 1], [2, 3])

  lemma GotoLists()
    ensures VarGotos(Automaton0(), 0, 5) == [] && VarGotos(Automaton0(), 1, 5) == [(0, 2), (1, 3)]
  {
    var a := Automaton0();
    forall p: nat | p < 5 ensures Late(a, p, 0, 0) == [] {
      LateNone0(p, 0);
    }
    assert Late(a, 0, 1, 1) == [(0, 2)] && Late(a, 0, 1, 0) == [(0, 2)];
    assert Late(a, 1, 1, 1) == [(1, 3)] && Late(a, 1, 1, 0) == [(1, 3)];
    assert Late(a, 3, 1, 1) == [] && Late(a, 3, 1, 0) == [];
    assert VarGotos(a, 0, 1) == [] && VarGotos(a, 0, 2) == [] && VarGotos(a, 0, 3) == [] && VarGotos(a, 0, 4) == [];
    assert VarGotos(a, 1, 1) == [(0, 2)] && VarGotos(a, 1, 2) == [(0, 2), (1, 3)];
    assert VarGotos(a, 1, 3) == VarGotos(a, 1, 4) == [(0, 2), (1, 3)];
  }

  lemma LateNone0(p: nat, i: nat)
    requires p < 5
    ensures Late(Automaton0(), p, 0, i) == []
    decreases 3 - i
  {
    if i < |BracketStates.shifts[p]| { LateNone0(p, i + 1); }
  }

  lemma GotoStarts()
    ensures forall q :: 0 <= q < 3 ==> [0, 0, 2][q] == Starts(Counts(Automaton0(), 5), q)
  {
    GotoLists();
    var c := Counts(Automaton0(), 5);
    assert c == [0, 2];
    assert Starts(c, 1) == Starts(c, 0) + c[0] == 0;
    assert Starts(c, 2) == Starts(c, 1) + c[1] == 2;
  }

  lemma GotoMap0()
    ensures IsGotoMap(Automaton0(), [0, 0, 2], [0, 1], [2, 3]) && IsGotos(Automaton0(), Gotos0)
  {
    var a := Automaton0();
    GotoStarts();
    GotoLists();
    hide Counts, VarGotos;
    var lists := GotosBelow(a, 5);
    assert lists[0] == [] && lists[1] == [(0, 2), (1, 3)];
    var pairs := Pairs([0, 1], [2, 3]);
    assert pairs == [(0, 2), (1, 3)];
    assert ListAt(pairs, [0, 0, 2], 0, lists[0]) && ListAt(pairs, [0, 0, 2], 1, lists[1]);
    GotoMapIsGotos(a, [0, 0, 2], [0, 1], [2, 3]);
  }

  lemma NotNullable0()
    ensures !NullableSuffix(Grammar0(), 6)
  {
    forall n: nat ensures !NullableAt(Grammar0(), n, 3) {
    }
  }

  /** Neither relation has an edge. */
  lemma NoEdges(k: nat, l: nat)
    ensures !Reads(Automaton0(), Gotos0, k, l) && !Includes(Automaton0(), Gotos0, k, l)
  {
    NotNullable0();
    hide NullableSuffix, Walk, IsLr0, Nullable;
  }

  lemma FollowIs(k: nat, t: int)
    ensures Follow(Automaton0(), Gotos0, k, t) <==> (k == 0 && t == 0) || (k == 1 && t == 3)
  {
    var a := Automaton0();
    hide Reads, Includes, IsLr0, Trans;
    forall x: nat, y: nat ensures !Reads(a, Gotos0, x, y) && !Includes(a, Gotos0, x, y) {
      NoEdges(x, y);
    }
    forall q: nat, s: int, r: nat ensures Trans(a, q, s, r) <==> IsTrans(q, s, r) {
      TransIs(q, s, r);
    }
    assert Trans(a, 3, 3, 4);
    ReachRefl(ReadsEdges(a, Gotos0), k);
    ReachRefl(IncludesEdges(a, Gotos0), k);
    forall j: nat ensures Reach(ReadsEdges(a, Gotos0), k, j) ==> j == k {
      if Reach(ReadsEdges(a, Gotos0), k, j) { ReachLast(ReadsEdges(a, Gotos0), k, j); }
    }
    forall j: nat ensures Reach(IncludesEdges(a, Gotos0), k, j) ==> j == k {
      if Reach(IncludesEdges(a, Gotos0), k, j) { ReachLast(IncludesEdges(a, Gotos0), k, j); }
    }
    assert Shows(a, Gotos0, k, t) <==> (k == 0 && t == 0) || (k == 1 && t == 3);
  }

  lemma LookbackIs0(q: nat, r: nat, k: nat)
    ensures Lookback(Automaton0(), Gotos0, q, r, k) <==> k < 2 && ((r == 4 && q == k) || (r == 3 && q == 4))
  {
    var a := Automaton0();
    if r == 3 && k < 2 {
      assert RhsOf(a.g, 3) == [2, 5, 3];
      BracketWalk(k);
      if Walk(a, k, [2, 5, 3], q) {
        WalkUnique(a, k, [2, 5, 3], q, 4);
      }
    }
    assert r == 4 ==> RhsOf(a.g, 4) == [];
  }

  lemma BracketWalk(k: nat)
    requires k < 2
    ensures Walk(Automaton0(), k, [2, 5, 3], 4)
  {
    var a := Automaton0();
    assert Walk(a, k, [], k);
    assert Front([2]) == [] && Last([2]) == 2 && Trans(a, k, 2, 1);
    assert Walk(a, k, [2], 1);
    assert Front([2, 5]) == [2] && Last([2, 5]) == 5 && Trans(a, 1, 5, 3);
    assert Walk(a, k, [2, 5], 3);
    assert Front([2, 5, 3]) == [2, 5] && Last([2, 5, 3]) == 3 && Trans(a, 3, 3, 4);
  }

  lemma LaIs(q: nat, r: nat, t: int)
    ensures La(Automaton0(), Gotos0, q, r, t) <==>
              (r == 4 && q == 0 && t == 0) || (r == 4 && q == 1 && t == 3) || (r == 3 && q == 4 && t in {0, 3})
  {
    hide Lookback, Follow, IsLr0;
    forall k: nat ensures Lookback(Automaton0(), Gotos0, q, r, k) <==> k < 2 && ((r == 4 && q == k) || (r == 3 && q == 4))
    {
      LookbackIs0(q, r, k);
    }
    forall k: nat ensures Follow(Automaton0(), Gotos0, k, t) <==> (k == 0 && t == 0) || (k == 1 && t == 3) {
      FollowIs(k, t);
    }
    assert r == 3 && q == 4 ==> Lookback(Automaton0(), Gotos0, q, r, 0) && Lookback(Automaton0(), Gotos0, q, r, 1);
    assert r == 4 && q < 2 ==> Lookback(Automaton0(), Gotos0, q, r, q);
  }

  const Starts0: seq<nat> := [0, 1, 2, 2, 2, 3]
  const Rules0: seq<nat> := [4, 4, 3]
  const Rows0: seq<set<int>> := [{0}, {3}, {0, 3}]

  lemma LaTable0()
    ensures IsLaTable(Automaton0(), Starts0, Rules0)
  {
    hide ListAt, RedCounts;
    var a := Automaton0();
    RedStarts();
    forall s | 0 <= s < 5 ensures ListAt(Rules0, Starts0, s, a.reds[s]) {
      RulesAt(s);
    }
  }

  lemma RedStarts()
    ensures forall q :: 0 <= q < 6 ==> Starts0[q] == Starts(RedCounts(Automaton0()), q)
  {
    var c := RedCounts(Automaton0());
    assert c == [1, 1, 0, 0, 1];
    assert Starts(c, 1) == Starts(c, 0) + c[0] == 1;
    assert Starts(c, 2) == Starts(c, 1) + c[1] == 2;
    assert Starts(c, 4) == Starts(c, 3) + c[3] == 2;
    assert Starts(c, 5) == Starts(c, 4) + c[4] == 3;
  }

  lemma RulesAt(s: nat)
    requires s < 5
    ensures ListAt(Rules0, Starts0, s, BracketStates.reds[s])
  {
  }

  lemma RowIs(row: nat, q: nat, r: nat)
    ensures IsRow(Automaton0(), Starts0, row, q, r) <==>
              (row == 0 && q == 0 && r == 4) || (row == 1 && q == 1 && r == 4) || (row == 2 && q == 4 && r == 3)
  {
  }

  lemma Lookaheads0()
    ensures IsLookaheads(Automaton0(), Gotos0, Starts0, Rows0)
  {
    hide IsRow, La, IsLr0;
    forall row: nat, q: nat, r: nat, t: int | row < |Rows0| && IsRow(Automaton0(), Starts0, row, q, r)
      ensures t in Rows0[row] <==> La(Automaton0(), Gotos0, q, r, t)
    {
      RowIs(row, q, r);
      LaIs(q, r, t);
    }
  }
}
