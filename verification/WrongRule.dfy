/** What a generated parser does with an error (skeleton-k, yyparse): an input that is no sentence and on which it returns
    all the same, after its report. D has value 2, so that the base 1 of the reductions of state 1 and the value 0 of $end
    add up to the number of the rule S: A S D. */
module WrongRule {
  import opened Grammars
  import opened Automata
  import opened Lookaheads
  import opened LaTable
  import opened GotoMap
  import opened Lalr
  import opened Actions
  import opened Conflicts
  import opened MkPar
  import opened Packing
  import opened TokenRows
  import opened Columns
  import opened Output
  import opened Decode
  import opened Jay
  import opened Parser
  import opened Trees
  import opened Completeness
  import opened Brackets

  const Prec0 := Precedence([0, 0, 0, 0, 0, 0], [TokenAssoc, TokenAssoc, TokenAssoc, TokenAssoc, TokenAssoc, TokenAssoc],
                            [0, 0, 0, 0, 0], [TokenAssoc, TokenAssoc, TokenAssoc, TokenAssoc, TokenAssoc])

  function Act(symbol: nat, code: Code, number: nat): Action
  {
    Action(symbol, number, 0, code, TokenAssoc, 0)
  }

  const Lists0: seq<seq<Action>> :=
    [[Act(0, Reduce, 4), Act(2, Shift, 1)], [Act(2, Shift, 1), Act(3, Reduce, 4)], [], [Act(3, Shift, 4)],
     [Act(0, Reduce, 3), Act(3, Reduce, 3)]]

  const Defred0: seq<nat> := [0, 0, 0, 0, 3]
  const Values0: seq<nat> := [0, 256, 257, 2]

  const Vectors0 := Vectors(10, [[257], [257], [], [2], [], [0], [2], [], [], [], [1], []],
                            [[1], [1], [], [4], [], [2], [2], [], [], [], [3], []],
                            [1, 1, 0, 1, 0, 1, 1, 0, 0, 0, 1, 0], [1, 1, 0, 1, 0, 1, 1, 0, 0, 0, 1, 0])

  /** First fit puts the shifts of states 0, 1 and 3, the reductions of states 0 and 1 and the column of S one behind the
      other. */
  const Tables0 := Tables([-257, -257, 0, -1, 0, 2, 1, 0, 0, 0, 3, 0], [2], [0, 0, 0, 0, 1], [1, 4, 2, 2, 3],
                          [257, 2, 0, 2, 1], 4)

  ghost function Passes0(): Passes
  {
    Passes(Automaton0(), [0, 0, 2], [0, 1], [2, 3], Starts0, Rules0, Rows0, 2, Lists0, Lists0, Defred0, Values0, Vectors0,
           Tables0, [-1, 0, 0], [2, 3, 0], 0, 0)
  }

  // ---------------------------------------------------------------------------------

  lemma ActionIs(p: nat, e: Action)
    requires p < 5
    ensures IsAction(Automaton0(), Prec0, Starts0, Rows0, p, e) <==> e in Lists0[p]
  {
    var a := Automaton0();
    TransIs(p, e.symbol, e.number);
    hide IsLr0, Trans;
    forall m: nat ensures ReducedAt(a, Prec0, Starts0, Rows0, p, m, e) <==>
                            m == 0 && e in Lists0[p] && e.code == Reduce
    {
      ReductionIs(p, m, e);
    }
    assert IsShift(a, Prec0, p, e) <==> e in Lists0[p] && e.code == Shift;
    assert e in Lists0[p] && e.code == Reduce ==> ReducedAt(a, Prec0, Starts0, Rows0, p, 0, e);
  }

  lemma ReductionIs(p: nat, m: nat, e: Action)
    requires p < 5
    ensures ReducedAt(Automaton0(), Prec0, Starts0, Rows0, p, m, e) <==> m == 0 && e in Lists0[p] && e.code == Reduce
  {
    hide IsLr0;
    var a := BracketStates;
    if p == 4 {
      assert e in Lists0[4] <==> e == Act(0, Reduce, 3) || e == Act(3, Reduce, 3);
    }
  }

  lemma ListsFresh(p: nat)
    requires p < 5
    ensures Fresh(Lists0[p]) && NoConflict(Lists0[p])
  {
  }

  lemma ListStays(list: seq<Action>, final: bool)
    requires Fresh(list) && NoConflict(list)
    ensures Resolved(list, final, |list|, list)
  {
    hide Outcome;
    forall k: nat | k < |list| ensures list[k].suppressed == Outcome(list, final, k, |list|) {
      ConflictFreeStays(list, final, k);
    }
  }

  lemma Parser0()
    ensures IsParser(Automaton0(), Prec0, Starts0, Rows0, 2, Lists0, Lists0) && IsDefred(Lists0, Defred0)
  {
    hide IsLr0, IsAction, Fresh, Resolved;
    forall p: nat | p < 5
      ensures IsRawList(Automaton0(), Prec0, Starts0, Rows0, p, Lists0[p])
      ensures Resolved(Lists0[p], p == 2, |Lists0[p]|, Lists0[p])
    {
      ListsFresh(p);
      forall e ensures e in Lists0[p] <==> IsAction(Automaton0(), Prec0, Starts0, Rows0, p, e) {
        ActionIs(p, e);
      }
      ListStays(Lists0[p], p == 2);
    }
    forall p: nat | p < 5
      ensures if Defred0[p] > 0 then SoleIs(Lists0[p], Defred0[p]) else forall r: nat :: !SoleIs(Lists0[p], r)
    {
      DefaultIs(p);
    }
  }

  lemma DefaultIs(p: nat)
    requires p < 5
    ensures if Defred0[p] > 0 then SoleIs(Lists0[p], Defred0[p]) else forall r: nat :: !SoleIs(Lists0[p], r)
  {
    if p == 4 {
      assert Act(0, Reduce, 3) in Lists0[4];
    } else if p != 2 {
      var k := if p == 0 then 1 else 0;
      assert Lists0[p][k] in Lists0[p] && Lists0[p][k].code == Shift;
    }
  }

  // ---------------------------------------------------------------------------------

  ghost function Row0(p: nat): seq<nat>
    requires p < 5
  {
    if p == 0 then [0, 0, 1, 0, 4, 0, 0, 0]
    else if p == 1 then [0, 0, 1, 0, 0, 0, 0, 4]
    else if p == 3 then [0, 0, 0, 4, 0, 0, 0, 0]
    else [0, 0, 0, 0, 0, 0, 0, 0]
  }

  /** The only action that belongs into a slot: the action with number x, or none if x is 0. */
  lemma SlotOf(p: nat, j: nat, e: Action)
    requires p < 5 && j < 8
    ensures e in Lists0[p] && IsSlot(e, 4, Defred0[p], j) ==> Row0(p)[j] == e.number != 0
    ensures Row0(p)[j] != 0 ==> exists k: nat :: k < |Lists0[p]| && IsSlot(Lists0[p][k], 4, Defred0[p], j)
  {
    if p < 2 {
      var k := if (p == 0) == (j == 2) then 1 else 0;
      assert Row0(p)[j] != 0 ==> IsSlot(Lists0[p][k], 4, Defred0[p], j);
    } else if p == 3 {
      assert Row0(p)[j] != 0 ==> IsSlot(Lists0[p][0], 4, Defred0[p], j);
    }
  }

  lemma SlotIsOk(p: nat, j: nat)
    requires p < 5 && j < 8
    ensures SlotOk(Lists0[p], 4, Defred0[p], |Lists0[p]|, j, Row0(p)[j])
  {
    hide IsSlot;
    var list, x := Lists0[p], Row0(p)[j];
    forall e | e in list ensures IsSlot(e, 4, Defred0[p], j) ==> x == e.number != 0 {
      SlotOf(p, j, e);
    }
    SlotOf(p, j, Act(0, Reduce, 4));
    SlotFromList(list, Defred0[p], j, x);
  }

  lemma SlotFromList(list: seq<Action>, defred: nat, j: nat, x: nat)
    requires forall e :: e in list ==> IsSlot(e, 4, defred, j) ==> x == e.number != 0
    requires x != 0 ==> exists k: nat :: k < |list| && IsSlot(list[k], 4, defred, j)
    ensures SlotOk(list, 4, defred, |list|, j, x)
  {
    hide IsSlot;
    assert list[..|list|] == list;
    if x != 0 {
      var k: nat :| k < |list| && IsSlot(list[k], 4, defred, j);
      assert WrittenAt(list, 4, defred, |list|, j, list[k]);
    }
  }

  lemma RowIsOk(p: nat)
    requires p < 5
    ensures RowOk(Lists0[p], 4, Defred0[p], |Lists0[p]|, Row0(p))
  {
    hide SlotOk;
    forall j: nat | j < 8 ensures SlotOk(Lists0[p], 4, Defred0[p], |Lists0[p]|, j, Row0(p)[j]) {
      SlotIsOk(p, j);
    }
  }

  /** The one slot of a half row that is not 0, if there is one. */
  lemma OneEntry(half: seq<nat>, less: nat, j: nat)
    requires |half| == 4 && j < 4 && half[j] != 0 && forall i :: 0 <= i < 4 && i != j ==> half[i] == 0
    ensures VectorOf(half, Values0, less, 4, [Values0[j]], [half[j] - less])
  {
    assert half[..4] == half;
    NonzeroOne(half, j, 4);
    assert EntryOf(half, Values0, less, 4, Values0[j], half[j] - less);
  }

  lemma {:induction false} NonzeroOne(half: seq<nat>, j: nat, n: nat)
    requires n <= |half| && forall i :: 0 <= i < n && i != j ==> half[i] == 0
    ensures Nonzero(half[..n]) == if j < n && half[j] != 0 then 1 else 0
    decreases n
  {
    if n > 0 {
      assert half[..n][..n-1] == half[..n-1];
      NonzeroOne(half, j, n - 1);
    }
  }

  lemma NoEntry(half: seq<nat>, less: nat)
    requires |half| == 4 && forall i :: 0 <= i < 4 ==> half[i] == 0
    ensures VectorOf(half, Values0, less, 4, [], [])
  {
    NonzeroOne(half, 4, 4);
  }

  lemma RowVectorsAre(p: nat)
    requires p < 5
    ensures RowVectors(Lists0[p], 4, Defred0[p], Values0, Vectors0.froms[p], Vectors0.tos[p], Vectors0.froms[5 + p],
                       Vectors0.tos[5 + p])
  {
    hide VectorOf, RowOk;
    RowIsOk(p);
    var row := Row0(p);
    var shifts, reductions := row[..4], row[4..];
    if p < 2 { OneEntry(shifts, 0, 2); } else if p == 3 { OneEntry(shifts, 0, 3); } else { NoEntry(shifts, 0); }
    if p == 0 { OneEntry(reductions, 2, 0); } else if p == 1 { OneEntry(reductions, 2, 3); } else { NoEntry(reductions, 2); }
    assert RowsOf(Lists0[p], 4, Defred0[p], Values0, Vectors0.froms[p], Vectors0.tos[p], Vectors0.froms[5 + p],
                  Vectors0.tos[5 + p], row);
  }

  lemma Rows0Done()
    ensures RowsDone(Lists0, 4, Defred0, Values0, 5, Vectors0.froms[..10], Vectors0.tos[..10])
  {
    hide RowVectors;
    var froms, tos := Vectors0.froms[..10], Vectors0.tos[..10];
    forall p: nat | p < 5 ensures RowVectors(Lists0[p], 4, Defred0[p], Values0, froms[p], tos[p], froms[5 + p], tos[5 + p]) {
      RowVectorsAre(p);
    }
  }

  /** Each target occurs once. */
  lemma TargetsOccur(q: nat)
    ensures Occurs([2, 3], q) == if q == 2 || q == 3 then 1 else 0
  {
    OccursNext([], 2, q);
    OccursNext([2], 3, q);
    assert [] + [2] == [2] && [2] + [3] == [2, 3];
  }

  lemma Column0(sources: seq<nat>, targets: seq<nat>)
    requires sources == [0, 1] && targets == [2, 3]
    ensures ColumnOf(sources, targets, 2, 2, [1], [3])
  {
    assert targets[1] == 3 && sources[1] == 1 && targets[0] == 2;
    assert ColumnEntry(sources, targets, 2, 2, 1, 3);
  }

  lemma Columns0Done()
    ensures ColumnsDone([0, 0, 2], [0, 1], [2, 3], 10, 1, [2], Vectors0.froms, Vectors0.tos)
  {
    hide ColumnOf, Occurs;
    var sources: seq<nat>, targets: seq<nat> := [0, 1], [2, 3];
    assert sources[0..2] == sources && targets[0..2] == targets;
    forall q: nat ensures Occurs(targets, q) == if q == 2 || q == 3 then 1 else 0 {
      TargetsOccur(q);
    }
    Column0(sources, targets);
    assert ColumnDone([0, 0, 2], sources, targets, 1, 2, [1], [3]);
  }

  lemma Vectors0Ok()
    ensures VectorsOk(Vectors0)
  {
  }

  /** At the base of a vector, check marks its one entry and nothing else. */
  lemma Slot0(v: nat, c: nat)
    requires v < 12 && Vectors0.froms[v] != [] && 0 <= Tables0.base[v] + c < 5
    ensures Tables0.check[Tables0.base[v] + c] == c <==> c in Vectors0.froms[v]
  {
  }

  lemma Entry0(v: nat, k: nat)
    requires v < 12 && k < |Vectors0.froms[v]|
    ensures Stands(Vectors0, Tables0.table, Tables0.check, Tables0.high, Tables0.base[v], v, k)
  {
    assert k == 0;
  }

  lemma Base0(v: nat, w: nat)
    requires v < 12 && w < 12
    ensures Tables0.base[v] == 0 <==> Vectors0.froms[v] == []
    ensures Vectors0.froms[v] != [] && Tables0.base[v] == Tables0.base[w] ==> SameVector(Vectors0, v, w)
  {
  }

  lemma Table0Ok()
    ensures TableOk(Vectors0, Tables0.base, Tables0.table, Tables0.check, Tables0.high)
  {
    hide Stands, SameVector;
    var t := Tables0;
    forall v: nat, k: nat | v < 12 && k < |Vectors0.froms[v]|
      ensures Stands(Vectors0, t.table, t.check, t.high, t.base[v], v, k)
    {
      Entry0(v, k);
    }
    forall v: nat, c: nat | v < 12 && Vectors0.froms[v] != [] && 0 <= t.base[v] + c < 5
      ensures t.check[t.base[v] + c] == c <==> c in Vectors0.froms[v]
    {
      Slot0(v, c);
    }
    forall v: nat, w: nat | v < 12 && w < 12
      ensures t.base[v] == 0 <==> Vectors0.froms[v] == []
      ensures Vectors0.froms[v] != [] && t.base[v] == t.base[w] ==> SameVector(Vectors0, v, w)
    {
      Base0(v, w);
    }
  }

  /** The packed vectors in their order, each with its place; state 1 shares the place of state 0. */
  const Packed0: seq<(nat, int)> := [(0, -257), (3, -1), (5, 2), (6, 1), (10, 3)]

  /** With the slots before k taken, the k-th of them is put at the least place where it fits. */
  lemma FirstFit0(k: nat, pos: seq<int>, j: int)
    requires k < 5 && forall i :: 0 <= i < |pos| ==> exists l :: 0 <= l < k && pos[i] == Packed0[l].1
    requires j <= Packed0[k].1
    ensures Packing.Fits(Vectors0, pos, Tables0.check[..k], Packed0[k].0, j) <==> j == Packed0[k].1
  {
    OneFrom(k);
    var v, check, from := Packed0[k].0, Tables0.check[..k], Vectors0.froms[Packed0[k].0];
    assert from[0] == From0[k] && |from| == 1;
    assert Packing.Fits(Vectors0, pos, check, v, j) <==> j != 0 && j !in pos && FreeAt(check, j + from[0]);
  }

  /** The column of the one entry of each packed vector. */
  const From0: seq<nat> := [257, 2, 0, 2, 1]

  lemma OneFrom(k: nat)
    requires k < 5
    ensures Packed0[k].0 < 12 && Vectors0.froms[Packed0[k].0] == [From0[k]]
  {
  }

  lemma IsGenerated0()
    ensures IsGenerated(Grammar0(), Prec0, Passes0()) && NoConflicts(Passes0()) && NoPrecedences(Prec0)
  {
    hide IsLr0, RawGrammar.Valid, IsGotoMap, IsGotos, IsLaTable, IsLookaheads, IsParser, IsDefred, RowsDone, ColumnsDone,
      VectorsOk, TableOk, NoConflict, Reported;
    GotoMap0();
    LaTable0();
    Lookaheads0();
    Parser0();
    Rows0Done();
    Columns0Done();
    Vectors0Ok();
    Table0Ok();
    Reported0();
    TransIs(0, 5, 2);
    forall p: nat | p < 5 ensures NoConflict(Lists0[p]) {
      ListsFresh(p);
    }
  }

  lemma Reported0()
    ensures TotalsOk(Lists0, 2, 5, 0, 0)
  {
    hide ShiftLosses, RuleLosses;
    forall p: nat | p < 5 ensures ShiftLosses(Lists0[p], p == 2) == 0 && RuleLosses(Lists0[p], p == 2) == 0 {
      NoLosses(Lists0[p], p == 2);
    }
    assert ReportedIn(Lists0, 5) == 0;
    assert ShiftLossesIn(Lists0, 2, 5) == 0 && RuleLossesIn(Lists0, 2, 5) == 0;
  }

  lemma NoLosses(list: seq<Action>, final: bool)
    requires forall k :: 0 <= k < |list| ==> list[k].suppressed == 0
    ensures ShiftLosses(list, final) == 0 && RuleLosses(list, final) == 0
  {
    assert (set k: nat | k < |list| && RuleBefore(list, final, k)) == {};
    assert (set k: nat | k < |list| && NoRuleBefore(list, final, k)) == {};
  }

  // ---------------------------------------------------------------------------------

  lemma Sizes0()
    ensures SizesOk(Passes0()) && |Passes0().parser| == 5 && |Passes0().values| == 4
  {
  }

  /** A is shifted in states 0 and 1. In state 1, $end finds no action, and base and value add up to 1. */
  lemma Moves0(p: nat)
    requires p < 2
    ensures SizesOk(Passes0()) && MoveOn(Passes0(), p, 2) == ShiftTo(1) && MoveOn(Passes0(), 1, 0) == ErrorThen(1)
  {
  }

  lemma Turn0(states: seq<nat>, rest: seq<nat>)
    requires states != [] && states[|states|-1] < 2
    ensures SizesOk(Passes0())
    ensures Step(Passes0(), Config(states, [2] + rest)) == Next(Config(states + [1], rest))
  {
    Moves0(states[|states|-1]);
    hide MoveOn;
  }

  lemma LastTurn0()
    ensures SizesOk(Passes0()) && Step(Passes0(), Config([0, 1, 1, 1], [])) == Report(Accepted)
  {
    Moves0(1);
    hide MoveOn;
  }

  /** A A A is no sentence. The parser reports an error at its end, goes on with the rule S: A S D, and returns. */
  lemma ReturnsAfterReport()
    ensures IsGenerated(Grammar0(), Prec0, Passes0()) && SizesOk(Passes0())
    ensures Flawed(Passes0(), [2, 2, 2]) && !Sentence(Grammar0(), [2, 2, 2])
  {
    hide Step, IsGenerated, NoConflicts, NoPrecedences, Sentence, Accepts;
    var x := Passes0();
    Sizes0();
    Turn0([0], [2, 2]);
    Turn0([0, 1], [2]);
    Turn0([0, 1, 1], []);
    LastTurn0();
    assert [2] + [2, 2] == [2, 2, 2] && [2] + [2] == [2, 2] && [2] + [] == [2];
    assert [0] + [1] == [0, 1] && [0, 1] + [1] == [0, 1, 1] && [0, 1, 1] + [1] == [0, 1, 1, 1];
    assert FlawedIn(x, Config([0, 1, 1, 1], []), 0);
    assert FlawedIn(x, Config([0, 1, 1], [2]), 1);
    assert FlawedIn(x, Config([0, 1], [2, 2]), 2);
    assert FlawedIn(x, Config([0], [2, 2, 2]), 3);
    IsGenerated0();
    ReturnsIsOneOf(x, [2, 2, 2]);
    assert TokensOk(Grammar0(), [2, 2, 2]);
    ParserIsCorrect(Grammar0(), Prec0, x, [2, 2, 2]);
  }

  lemma MoreMoves0()
    ensures SizesOk(Passes0()) && MoveOn(Passes0(), 1, 3) == ReduceBy(2) && MoveOn(Passes0(), 3, 3) == ShiftTo(4)
    ensures MoveOn(Passes0(), 4, 3) == ReduceBy(1) && MoveOn(Passes0(), 2, 3) == ReduceBy(0)
  {
  }

  lemma MoreTurns0()
    ensures SizesOk(Passes0())
    ensures Step(Passes0(), Config([0, 1], [3, 3])) == Next(Config([0, 1, 3], [3, 3]))
    ensures Step(Passes0(), Config([0, 1, 3], [3, 3])) == Next(Config([0, 1, 3, 4], [3]))
    ensures Step(Passes0(), Config([0, 1, 3, 4], [3])) == Next(Config([0, 2], [3]))
    ensures Step(Passes0(), Config([0, 2], [3])) == Rejected
  {
    MoreMoves0();
    hide MoveOn;
    assert [0, 1] + [3] == [0, 1, 3] && [0, 1, 3] + [4] == [0, 1, 3, 4] && [0, 1, 3, 4][..1] == [0] && [0] + [2] == [0, 2];
    assert GotoMove(Tables0, 5, 1, 0) == 3;
  }

  /** On A D D the goal is reached before the end. In state 2, which has no reductions, the second D makes the parser go on
      with rule 0, without a report; popping the length 2 of that rule runs off the stack. */
  lemma GoesOnWithRuleZero()
    ensures SizesOk(Passes0()) && StepsTo(Passes0(), Config([0], [2, 3, 3]), Config([0, 2], [3]), 4)
    ensures MoveOn(Passes0(), 2, 3) == ReduceBy(0) && Step(Passes0(), Config([0, 2], [3])) == Rejected
  {
    hide Step, MoveOn;
    var x := Passes0();
    MoreMoves0();
    Turn0([0], [3, 3]);
    MoreTurns0();
    assert [2] + [3, 3] == [2, 3, 3] && [0] + [1] == [0, 1];
    assert StepsTo(x, Config([0, 1, 3, 4], [3]), Config([0, 2], [3]), 1);
    assert StepsTo(x, Config([0, 1, 3], [3, 3]), Config([0, 2], [3]), 2);
    assert StepsTo(x, Config([0, 1], [3, 3]), Config([0, 2], [3]), 3);
  }
}
