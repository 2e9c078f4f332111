/** A grammar with one operator, E: E OP E and E: A, and what its parser does behind A OP A on a second OP (jay/mkpar.c,
    remove_conflicts and sole_reduction): with %left it reduces, with %right it shifts, and with %nonassoc, which asks for an
    error, it reduces by default. */
module OperatorChains {
  import opened Grammars
  import opened Automata
  import opened Lr1
  import opened Lookaheads
  import opened LaTable
  import opened GotoMap
  import opened Lalr
  import opened Actions
  import opened MkPar
  import opened Output
  import opened Decode
  import opened Trees
  import opened Jay
  import opened Parser
  import opened Resolution
  import opened Ties
  import Conflicts
  import TokenRows
  import Completeness

  /** Tokens $end, error, OP, A are 0 to 3, $accept and E are 4 and 5. */
  const ChainTables := RawGrammar(4, 6, [-1, 5, 0, -2, 5, 2, 5, -3, 3, -4], [0, 0, 4, 5, 5], [0, 0, 1, 4, 8, 10])

  /** OP has a precedence and an associativity, and by its last token the rule E: E OP E has them, too. */
  function ChainPrec(assoc: Assoc): (prec: Precedence)
    ensures |prec.symbolPrec| == |prec.symbolAssoc| == 6 && prec.symbolPrec[2] == 1 && prec.symbolAssoc[2] == assoc
    ensures |prec.rprec| == |prec.rassoc| == 5 && prec.rprec[3] == 1 && prec.rassoc[3] == assoc
  {
    Precedence([0, 0, 1, 0, 0, 0], [TokenAssoc, TokenAssoc, assoc, TokenAssoc, TokenAssoc, TokenAssoc],
               [0, 0, 0, 1, 0], [TokenAssoc, TokenAssoc, TokenAssoc, assoc, TokenAssoc])
  }

  lemma ChainIsGrammar()
    ensures ChainTables.Valid()
  {
    assert ChainTables.UserRule(3) && ChainTables.UserRule(4);
  }

  ghost function ChainGrammar(): (g: Grammar)
    ensures g == ChainTables
  {
    ChainIsGrammar();
    ChainTables
  }

  // ---------------------------------------------------------------------------------
  // The states, by their items.

  ghost predicate StateIs(a: Automaton, p: nat, items: set<nat>)
  {
    p < |a.kernels| && forall i: nat :: InState(a, p, i) <==> i in items
  }

  /** The items with which E can start, before which 1, 4 and 6 have their dot. */
  ghost predicate Opens(items: set<nat>)
  {
    1 in items || 4 in items || 6 in items
  }

  ghost predicate InClosed(items: set<nat>, i: nat)
  {
    i in items || (Opens(items) && (i == 4 || i == 8))
  }

  lemma ChainExpands(i: nat, r: nat)
    ensures ChainGrammar().Expands(i, r) <==> (i == 1 || i == 4 || i == 6) && (r == 3 || r == 4)
    ensures ChainGrammar().Expands(i, r) ==> ChainTables.rrhs[r] == if r == 3 then 4 else 8
  {
  }

  lemma ClosedStep(items: set<nat>, j: nat, r: nat)
    requires ChainGrammar().Expands(j, r) && InClosed(items, j)
    ensures InClosed(items, ChainTables.rrhs[r])
  {
    ChainExpands(j, r);
  }

  lemma OpensClosure(kernel: seq<nat>, i: nat)
    requires i in kernel && (i == 1 || i == 4 || i == 6)
    ensures InClosure(ChainGrammar(), kernel, 4) && InClosure(ChainGrammar(), kernel, 8)
  {
    hide RawGrammar.Expands, RawGrammar.Valid, InClosure;
    ChainExpands(i, 3);
    ChainExpands(i, 4);
    KernelInClosure(ChainGrammar(), kernel, i);
    ClosureStep(ChainGrammar(), kernel, i, 3);
    ClosureStep(ChainGrammar(), kernel, i, 4);
  }

  lemma ClosureIs(kernel: seq<nat>, items: set<nat>)
    requires forall i: nat :: i in kernel <==> i in items
    ensures forall i: nat :: InClosure(ChainGrammar(), kernel, i) <==> InClosed(items, i)
  {
    hide RawGrammar.Valid, InClosure, InClosed;
    var g := ChainGrammar();
    InClosedKernel(kernel, items);
    forall i: nat ensures InClosure(g, kernel, i) <==> InClosed(items, i) {
      if InClosure(g, kernel, i) {
        forall j: nat, r: nat | g.Expands(j, r) && InClosed(items, j) ensures InClosed(items, g.rrhs[r]) {
          ClosedStep(items, j, r);
        }
        ClosureInduction(g, kernel, i, (x: nat) => InClosed(items, x));
      }
      if InClosed(items, i) {
        ClosedIn(kernel, items, i);
      }
    }
  }

  lemma ClosedIn(kernel: seq<nat>, items: set<nat>, i: nat)
    requires (forall k: nat :: k in kernel <==> k in items) && InClosed(items, i)
    ensures InClosure(ChainGrammar(), kernel, i)
  {
    hide InClosure;
    if i in kernel {
      KernelInClosure(ChainGrammar(), kernel, i);
    } else {
      OpensClosure(kernel, if 1 in items then 1 else if 4 in items then 4 else 6);
    }
  }

  lemma InClosedKernel(kernel: seq<nat>, items: set<nat>)
    requires forall k: nat :: k in kernel <==> k in items
    ensures forall k :: k in kernel ==> InClosed(items, k)
  {
  }

  /** goto: the items behind a symbol, and what they open. */
  ghost predicate Follows(items: set<nat>, symbol: nat, kernel: set<nat>, items': set<nat>)
  {
    && (forall j: nat :: j in kernel <==> 1 <= j < 10 && ChainTables.ritem[j-1] == symbol && (j - 1) in items)
    && (forall i: nat :: i in items' <==> InClosed(kernel, i))
  }

  lemma Successor(a: Automaton, p: nat, items: set<nat>, symbol: nat, q: nat, kernel: set<nat>, items': set<nat>)
    requires a.g == ChainTables && StateIs(a, p, items) && Trans(a, p, symbol, q) && Follows(items, symbol, kernel, items')
    ensures StateIs(a, q, items')
  {
    hide InClosure;
    assert ShiftsOk(a, p);
    assert IsSuccessor(a.g, a.kernels[p], symbol, a.kernels[q]);
    forall j: nat ensures j in a.kernels[q] <==> j in kernel {
      assert j in a.kernels[q] <==> Moves(a.g, a.kernels[p], symbol, j);
      if j > 0 {
        assert InState(a, p, j - 1) <==> (j - 1) in items;
      }
    }
    ClosureIs(a.kernels[q], kernel);
  }

  lemma StartState(a: Automaton)
    requires a.g == ChainTables
    ensures StateIs(a, 0, {1, 4, 8})
  {
    hide InClosure;
    ClosureIs([1], {1});
    assert a.kernels[0] == [1];
    forall i: nat ensures InState(a, 0, i) <==> i == 1 || i == 4 || i == 8 {
      assert InClosure(ChainGrammar(), [1], i) <==> InClosed({1}, i);
    }
  }

  /** State 0 goes to u on A and to e on E, e to q on OP, and q to v on A and to d on E. */
  datatype States = States(u: nat, e: nat, q: nat, v: nat, d: nat)

  ghost predicate AreStates(a: Automaton, s: States)
  {
    && StateIs(a, 0, {1, 4, 8})
    && Trans(a, 0, 3, s.u) && StateIs(a, s.u, {9}) && Trans(a, 0, 5, s.e) && StateIs(a, s.e, {2, 5})
    && Trans(a, s.e, 2, s.q) && StateIs(a, s.q, {4, 6, 8}) && Trans(a, s.q, 3, s.v) && StateIs(a, s.v, {9})
    && Trans(a, s.q, 5, s.d) && StateIs(a, s.d, {5, 7})
  }

  lemma GoOn(a: Automaton, p: nat, items: set<nat>, i: nat, kernel: set<nat>, items': set<nat>) returns (q: nat)
    requires a.g == ChainTables && StateIs(a, p, items) && i in items && i < 10 && ChainTables.ritem[i] > 0
    requires Follows(items, ChainTables.ritem[i], kernel, items')
    ensures Trans(a, p, ChainTables.ritem[i], q) && StateIs(a, q, items')
  {
    hide IsLr0, InState, Follows;
    MoveItem(a, p, i);
    q :| Trans(a, p, a.g.ritem[i], q);
    Successor(a, p, items, ChainTables.ritem[i], q, kernel, items');
  }

  lemma FollowsStart()
    ensures Follows({1, 4, 8}, 3, {9}, {9}) && Follows({1, 4, 8}, 5, {2, 5}, {2, 5})
  {
  }

  lemma FollowsE()
    ensures Follows({2, 5}, 2, {6}, {4, 6, 8})
  {
  }

  lemma FollowsEQ()
    ensures Follows({4, 6, 8}, 3, {9}, {9}) && Follows({4, 6, 8}, 5, {5, 7}, {5, 7})
  {
  }

  lemma FindStates(a: Automaton) returns (s: States)
    requires a.g == ChainTables
    ensures AreStates(a, s)
  {
    hide IsLr0, StateIs, Trans, Follows;
    StartState(a);
    FollowsStart();
    FollowsE();
    FollowsEQ();
    var u := GoOn(a, 0, {1, 4, 8}, 8, {9}, {9});
    var e := GoOn(a, 0, {1, 4, 8}, 1, {2, 5}, {2, 5});
    var q := GoOn(a, e, {2, 5}, 5, {6}, {4, 6, 8});
    var v := GoOn(a, q, {4, 6, 8}, 8, {9}, {9});
    var d := GoOn(a, q, {4, 6, 8}, 6, {5, 7}, {5, 7});
    s := States(u, e, q, v, d);
  }

  // ---------------------------------------------------------------------------------
  // The LR(1) items and the actions.

  lemma StartItems()
    ensures Item(ChainGrammar(), false, [], 4, 0) && Item(ChainGrammar(), false, [], 4, 2)
    ensures Item(ChainGrammar(), false, [], 8, 2)
  {
    hide Item, RawGrammar.Valid, RawGrammar.Expands;
    var g := ChainGrammar();
    ItemStart(g, false);
    ChainExpands(1, 3);
    ChainExpands(4, 3);
    ChainExpands(4, 4);
    assert FirstAt(g, 0, 2, 0) && FirstAt(g, 0, 5, 2);
    ItemClose(g, false, [], 1, 0, 3, 0);
    ItemClose(g, false, [], 4, 0, 3, 2);
    ItemClose(g, false, [], 4, 0, 4, 2);
  }

  /** After A, OP is a lookahead; after E OP A, the end is; after E OP E, both are. */
  lemma Items()
    ensures Item(ChainGrammar(), false, [3], 9, 2) && Item(ChainGrammar(), false, [5, 2, 3], 9, 0)
    ensures Item(ChainGrammar(), false, [5, 2, 5], 7, 0) && Item(ChainGrammar(), false, [5, 2, 5], 7, 2)
  {
    hide Item, RawGrammar.Valid, RawGrammar.Expands;
    var g := ChainGrammar();
    StartItems();
    assert [] + [3] == [3] && [] + [5] == [5] && [5] + [2] == [5, 2];
    assert [5, 2] + [5] == [5, 2, 5] && [5, 2] + [3] == [5, 2, 3];
    ItemShift(g, false, [], 8, 2);
    forall t | t == 0 || t == 2 ensures Item(g, false, [5, 2], 6, t) {
      ItemShift(g, false, [], 4, t);
      ItemShift(g, false, [5], 5, t);
    }
    ItemShift(g, false, [5, 2], 6, 0);
    ItemShift(g, false, [5, 2], 6, 2);
    ChainExpands(6, 4);
    assert NullableSuffix(g, 7);
    ItemClose(g, false, [5, 2], 6, 0, 4, 0);
    ItemShift(g, false, [5, 2], 8, 0);
  }

  /** The shifts of a state are on tokens behind a dot. */
  lemma ShiftsOf(assoc: Assoc, a: Automaton, p: nat, items: set<nat>, e: Action)
    requires a.g == ChainTables && StateIs(a, p, items) && IsShift(a, ChainPrec(assoc), p, e)
    ensures e.symbol < 6 && e.prec == ChainPrec(assoc).symbolPrec[e.symbol] && e.assoc == ChainPrec(assoc).symbolAssoc[e.symbol]
    ensures exists i :: i in items && i < 10 && ChainTables.ritem[i] == e.symbol
  {
    hide IsLr0, InState;
    var i := KernelSome(a, p, e.symbol, e.number);
    KernelBack(a, p, e.symbol, e.number, i);
    var j: nat := i - 1;
    assert j in items && a.g.ritem[j] == e.symbol;
  }

  /** Its reductions are by rules with their dot at the end. */
  lemma ReductionsOf(assoc: Assoc, x: Passes, p: nat, items: set<nat>, m: nat, e: Action)
    requires x.a.g == ChainTables && StateIs(x.a, p, items) && ReducedAt(x.a, ChainPrec(assoc), x.lookaheads, x.rows, p, m, e)
    ensures (e.number == 3 && e.prec == 1 && 7 in items) || (e.number == 4 && 9 in items)
  {
    hide IsLr0, InClosure;
    ReducedRule(x.a, p, e.number);
    RedsInState(x.a, p, e.number);
  }

  ghost predicate ActionIn(assoc: Assoc, items: set<nat>, e: Action)
  {
    if e.code == Shift then
      e.symbol < 6 && e.prec == ChainPrec(assoc).symbolPrec[e.symbol] && e.assoc == ChainPrec(assoc).symbolAssoc[e.symbol]
      && exists i :: i in items && i < 10 && ChainTables.ritem[i] == e.symbol
    else (e.number == 3 && e.prec == 1 && 7 in items) || (e.number == 4 && 9 in items)
  }

  lemma ActionsOf(assoc: Assoc, x: Passes, p: nat, items: set<nat>)
    requires IsPrepared(ChainGrammar(), ChainPrec(assoc), x) && StateIs(x.a, p, items)
    ensures p < |x.raw| == |x.parser| && Conflicts.Fresh(x.raw[p])
    ensures Conflicts.Resolved(x.raw[p], p == x.finalState, |x.raw[p]|, x.parser[p])
    ensures forall e :: e in x.raw[p] ==> ActionIn(assoc, items, e)
  {
    hide IsLr0, IsLookaheads, IsGotos, IsGotoMap, IsLaTable, IsDefred, Conflicts.Fresh, Conflicts.Resolved, StateIs, Trans,
      ReducedAt, IsShift, IsRuleData;
    PreparedSizes(ChainGrammar(), ChainPrec(assoc), x);
    InKernels(x.a, p, items);
    assert IsRawList(x.a, ChainPrec(assoc), x.lookaheads, x.rows, p, x.raw[p]);
    forall e | e in x.raw[p] ensures ActionIn(assoc, items, e) {
      ActionFacts(x.a, ChainPrec(assoc), x.lookaheads, x.rows, p, e);
      if e.code == Shift {
        ShiftsOf(assoc, x.a, p, items, e);
      } else {
        var m: nat :| ReducedAt(x.a, ChainPrec(assoc), x.lookaheads, x.rows, p, m, e);
        ReductionsOf(assoc, x, p, items, m, e);
      }
    }
  }

  lemma InKernels(a: Automaton, p: nat, items: set<nat>)
    requires StateIs(a, p, items)
    ensures p < |a.kernels|
  {
  }

  /** The only action on its token stays. */
  lemma AloneStays(raw: seq<Action>, final: bool, list: seq<Action>, k: nat)
    requires Conflicts.Fresh(raw) && Conflicts.Resolved(raw, final, |raw|, list) && k < |raw|
    requires forall l :: 0 <= l < |raw| && l != k ==> raw[l].symbol != raw[k].symbol
    ensures TokenRows.Live(list, raw[k])
  {
    assert Conflicts.Lead(raw, k) == k;
    assert !Conflicts.Won(raw, k, |raw|) && !Conflicts.Drew(raw, k, |raw|);
    assert Conflicts.Same(raw[k], list[k]);
    assert list[k] == raw[k];
  }

  /** In a state without ends of rules, every shift stays. */
  lemma ShiftIsTaken(assoc: Assoc, x: Passes, p: nat, items: set<nat>, j: nat, q: nat, defaults: bool)
    requires IsPrepared(ChainGrammar(), ChainPrec(assoc), x) && StateIs(x.a, p, items) && 7 !in items && 9 !in items
    requires 0 < j < 4 && Trans(x.a, p, j, q)
    ensures p < |x.parser| && Taken(x.parser[p], defaults, j, Shift, q)
  {
    hide IsPrepared, Trans, StateIs, Conflicts.Resolved, IsAction;
    ActionsOf(assoc, x, p, items);
    InKernels(x.a, p, items);
    PreparedSizes(ChainGrammar(), ChainPrec(assoc), x);
    PrecOk(assoc, x);
    var e := Completeness.ShiftAction(ChainGrammar(), ChainPrec(assoc), x, p, j, q);
    ActionInRaw(ChainGrammar(), ChainPrec(assoc), x, p, e);
    var raw := x.raw[p];
    var k: nat :| k < |raw| && raw[k] == e;
    forall l | 0 <= l < |raw| && l != k ensures raw[l].symbol != raw[k].symbol {
      assert raw[l] in raw && ActionIn(assoc, items, raw[l]);
    }
    AloneStays(raw, p == x.finalState, x.parser[p], k);
  }

  lemma PrecOk(assoc: Assoc, x: Passes)
    requires IsPrepared(ChainGrammar(), ChainPrec(assoc), x)
    ensures PrecedenceOk(ChainGrammar(), ChainPrec(assoc))
  {
  }

  /** In a state with the end of the one rule r, and no shift on the token, its reduction stays. */
  lemma ReductionIsTaken(assoc: Assoc, x: Passes, p: nat, items: set<nat>, word: seq<int>, r: nat, j: nat)
    requires IsPrepared(ChainGrammar(), ChainPrec(assoc), x) && StateIs(x.a, p, items) && Walk(x.a, 0, word, p) && j < 4
    requires (r == 3 && 7 in items && 9 !in items) || (r == 4 && 9 in items && 7 !in items)
    requires forall i :: i in items && i < 10 ==> ChainTables.ritem[i] != j
    requires Item(ChainGrammar(), false, word, if r == 3 then 7 else 9, j)
    ensures p < |x.parser|
    ensures exists e :: TokenRows.Live(x.parser[p], e) && e.symbol == j && e.code == Reduce && e.number == r
  {
    hide IsPrepared, Walk, StateIs, Conflicts.Resolved, IsAction, Item;
    ActionsOf(assoc, x, p, items);
    PreparedSizes(ChainGrammar(), ChainPrec(assoc), x);
    EndReduces(x.a, p, items, r);
    var e := Completeness.MergedAction(ChainGrammar(), ChainPrec(assoc), x, false, word, p, r, j);
    ActionInRaw(ChainGrammar(), ChainPrec(assoc), x, p, e);
    var raw := x.raw[p];
    var k: nat :| k < |raw| && raw[k] == e;
    forall l | 0 <= l < |raw| && l != k ensures raw[l].symbol != raw[k].symbol {
      assert raw[l] in raw && ActionIn(assoc, items, raw[l]);
    }
    AloneStays(raw, p == x.finalState, x.parser[p], k);
  }

  lemma EndReduces(a: Automaton, p: nat, items: set<nat>, r: nat)
    requires a.g == ChainTables && StateIs(a, p, items) && ((r == 3 && 7 in items) || (r == 4 && 9 in items))
    ensures a.g.IsRule(r) && EndItem(a.g, r) == if r == 3 then 7 else 9
    ensures p < |a.kernels| && p < |a.reds| && r in a.reds[p]
  {
    hide IsLr0, InClosure;
    Completeness.ReducedHere(a, p, r);
  }

  lemma LiveIn(assoc: Assoc, x: Passes, p: nat, items: set<nat>, e: Action)
    requires IsPrepared(ChainGrammar(), ChainPrec(assoc), x) && StateIs(x.a, p, items)
    ensures p < |x.parser| && (TokenRows.Live(x.parser[p], e) ==> ActionIn(assoc, items, e))
  {
    hide IsPrepared, StateIs, Conflicts.Outcome;
    ActionsOf(assoc, x, p, items);
    if TokenRows.Live(x.parser[p], e) {
      var k: nat :| k < |x.parser[p]| && x.parser[p][k] == e;
      assert Conflicts.Same(x.raw[p][k], e) && x.raw[p][k] in x.raw[p];
    }
  }

  /** After A, the state reduces E: A by default. */
  lemma ReducesA(assoc: Assoc, x: Passes, p: nat, word: seq<int>, j: nat)
    requires IsPrepared(ChainGrammar(), ChainPrec(assoc), x) && StateIs(x.a, p, {9}) && Walk(x.a, 0, word, p)
    requires (j == 0 || j == 2) && Item(ChainGrammar(), false, word, 9, j)
    ensures p < |x.parser| && SoleIs(x.parser[p], 4)
  {
    hide IsPrepared, StateIs, Walk, Item;
    ReductionIsTaken(assoc, x, p, {9}, word, 4, j);
    forall e | TokenRows.Live(x.parser[p], e) ensures e.code == Reduce && e.number == 4 {
      LiveIn(assoc, x, p, {9}, e);
    }
  }

  /** After E OP E, there are a shift and a reduction on OP. */
  lemma ActionsOnOp(assoc: Assoc, g: Grammar, x: Passes, p: nat, word: seq<int>, q: nat) returns (s: nat, k: nat)
    requires g == ChainGrammar() && IsPrepared(g, ChainPrec(assoc), x) && StateIs(x.a, p, {5, 7}) && Walk(x.a, 0, word, p)
    requires Item(g, false, word, 7, 2) && Trans(x.a, p, 2, q)
    ensures p < |x.raw| == |x.parser| && s < |x.raw[p]| && k < |x.raw[p]|
    ensures x.raw[p][s].code == Shift && x.raw[p][s].symbol == 2 && x.raw[p][s].number == q
    ensures x.raw[p][k].code == Reduce && x.raw[p][k].symbol == 2
  {
    hide IsPrepared, StateIs, Walk, Item, IsAction;
    InKernels(x.a, p, {5, 7});
    PreparedSizes(g, ChainPrec(assoc), x);
    PrecOk(assoc, x);
    var e := Completeness.ShiftAction(g, ChainPrec(assoc), x, p, 2, q);
    ActionInRaw(g, ChainPrec(assoc), x, p, e);
    EndReduces(x.a, p, {5, 7}, 3);
    var e' := Completeness.MergedAction(g, ChainPrec(assoc), x, false, word, p, 3, 2);
    ActionInRaw(g, ChainPrec(assoc), x, p, e');
    s :| s < |x.raw[p]| && x.raw[p][s] == e;
    k :| k < |x.raw[p]| && x.raw[p][k] == e';
  }

  /** By %left the reduction stays, by %right the shift, by %nonassoc neither. */
  lemma OpDecides(assoc: Assoc, g: Grammar, x: Passes, p: nat, word: seq<int>, q: nat)
    requires g == ChainGrammar() && IsPrepared(g, ChainPrec(assoc), x) && StateIs(x.a, p, {5, 7}) && Walk(x.a, 0, word, p)
    requires Item(g, false, word, 7, 2) && Trans(x.a, p, 2, q)
    ensures p < |x.parser|
    ensures Taken(x.parser[p], false, 2, Reduce, 3) <==> assoc == Left
    ensures Taken(x.parser[p], false, 2, Shift, q) <==> assoc == Right
    ensures assoc == Nonassoc ==> Tied(x, p, 2)
  {
    hide IsPrepared, StateIs, Walk, Item, Trans, Taken, ActionIn, OnOp, Conflicts.Resolved, Conflicts.Fresh,
      Conflicts.ByPrecedence;
    ActionsOf(assoc, x, p, {5, 7});
    var s, k := ActionsOnOp(assoc, g, x, p, word, q);
    Conflicts.PrecedenceDecides(x.raw[p], p == x.finalState, x.parser[p]);
    ListOnOp(assoc, x.raw[p], s);
    ListDecides(assoc, x.raw[p], p == x.finalState, x.parser[p], s, k);
    assert x.raw[p][s] in x.raw[p];
  }

  /** The actions on OP have the one precedence. */
  ghost predicate OnOp(assoc: Assoc, raw: seq<Action>, s: nat)
  {
    && s < |raw| && raw[s].code == Shift && raw[s].symbol == 2 && raw[s].assoc == assoc
    && forall r: nat :: r < |raw| && raw[r].symbol == 2 ==>
         raw[r].prec == 1 && (raw[r].code == Shift ==> r == s) && (raw[r].code == Reduce ==> raw[r].number == 3)
  }

  lemma ListOnOp(assoc: Assoc, raw: seq<Action>, s: nat)
    requires Conflicts.Fresh(raw) && forall e :: e in raw ==> ActionIn(assoc, {5, 7}, e)
    requires s < |raw| && raw[s].code == Shift && raw[s].symbol == 2
    ensures OnOp(assoc, raw, s)
  {
    hide Conflicts.Fresh, Conflicts.Lead, ActionIn;
    Conflicts.ShiftIsLead(raw, s);
    ActionOnOp(assoc, raw[s]);
    forall r: nat | r < |raw| && raw[r].symbol == 2
      ensures raw[r].prec == 1 && (raw[r].code == Shift ==> r == s) && (raw[r].code == Reduce ==> raw[r].number == 3)
    {
      ActionOnOp(assoc, raw[r]);
    }
  }

  lemma ActionOnOp(assoc: Assoc, e: Action)
    requires ActionIn(assoc, {5, 7}, e) && e.symbol == 2
    ensures e.prec == 1 && (e.code == Shift ==> e.assoc == assoc) && (e.code == Reduce ==> e.number == 3)
  {
  }

  /** The law of conflict resolution, on OP. */
  lemma OpStays(assoc: Assoc, raw: seq<Action>, final: bool, list: seq<Action>, s: nat, k: nat)
    requires OnOp(assoc, raw, s) && Conflicts.ByPrecedence(raw, final, list)
    requires k < |raw| && raw[k].symbol == 2 && raw[k].code == Reduce
    ensures |list| == |raw| && (list[s].suppressed == 0 <==> assoc == Right)
    ensures forall r: nat :: r < |raw| && raw[r].symbol == 2 && raw[r].code == Reduce ==> (list[r].suppressed == 0 <==> assoc == Left)
  {
    hide Conflicts.FirstRules;
    assert list[s].suppressed == 0 ==> raw[k].code == Reduce;
    forall r: nat | r < |raw| && raw[r].symbol == 2 && raw[r].code == Reduce ensures list[r].suppressed == 0 <==> assoc == Left {
      assert raw[r].number == 3;
    }
  }

  lemma ListDecides(assoc: Assoc, raw: seq<Action>, final: bool, list: seq<Action>, s: nat, k: nat)
    requires OnOp(assoc, raw, s) && Conflicts.ByPrecedence(raw, final, list)
    requires k < |raw| && raw[k].symbol == 2 && raw[k].code == Reduce
    ensures Taken(list, false, 2, Reduce, 3) <==> assoc == Left
    ensures Taken(list, false, 2, Shift, raw[s].number) <==> assoc == Right
    ensures assoc == Nonassoc ==> forall e :: TokenRows.Live(list, e) ==> e.symbol != 2
  {
    hide Conflicts.FirstRules, Conflicts.ShiftsByPrecedence, Conflicts.ReductionsByPrecedence;
    OpStays(assoc, raw, final, list, s, k);
    assert list[s] == raw[s].(suppressed := list[s].suppressed) && list[k] == raw[k].(suppressed := list[k].suppressed);
    assert assoc == Left ==> TokenRows.Live(list, list[k]);
    assert assoc == Right ==> TokenRows.Live(list, list[s]);
    forall e | TokenRows.Live(list, e) && e.symbol == 2 ensures if e.code == Reduce then assoc == Left else assoc == Right {
      var r: nat :| r < |list| && list[r] == e;
      assert list[r] == raw[r].(suppressed := list[r].suppressed);
    }
  }

  /** With %nonassoc the reduction is the default. */
  lemma ReducesByDefault(g: Grammar, x: Passes, p: nat, word: seq<int>, q: nat)
    requires g == ChainGrammar() && IsPrepared(g, ChainPrec(Nonassoc), x) && StateIs(x.a, p, {5, 7}) && Walk(x.a, 0, word, p)
    requires Item(g, false, word, 7, 0) && Item(g, false, word, 7, 2) && Trans(x.a, p, 2, q)
    ensures p < |x.parser| && SoleIs(x.parser[p], 3) && Tied(x, p, 2)
  {
    hide IsPrepared, StateIs, Walk, Item;
    OpDecides(Nonassoc, g, x, p, word, q);
    ReductionIsTaken(Nonassoc, x, p, {5, 7}, word, 3, 0);
    forall e | TokenRows.Live(x.parser[p], e) ensures e.code == Reduce && e.number == 3 {
      LiveIn(Nonassoc, x, p, {5, 7}, e);
    }
  }

  // ---------------------------------------------------------------------------------
  // The run on A OP A OP A.

  lemma ShiftsOn(assoc: Assoc, x: Passes, p: nat, items: set<nat>, below: seq<nat>, j: nat, rest: seq<nat>, q: nat)
    requires IsPrepared(ChainGrammar(), ChainPrec(assoc), x) && StateIs(x.a, p, items) && 7 !in items && 9 !in items
    requires 0 < j < 4 && Trans(x.a, p, j, q)
    ensures Turns(x.a, x.parser, true, Config(below + [p], [j] + rest), Config(below + [p] + [q], rest))
  {
    hide IsPrepared, StateIs, Trans, Taken;
    ShiftIsTaken(assoc, x, p, items, j, q, true);
    assert ([j] + rest)[1..] == rest;
    assert Shifts(x.parser, true, Config(below + [p], [j] + rest), q, Config(below + [p] + [q], rest));
  }

  lemma ReducesOn(x: Passes, below: seq<nat>, u: nat, top: seq<nat>, p: nat, r: nat, rest: seq<nat>, q: nat)
    requires x.a.g == ChainTables && p < |x.parser| && SoleIs(x.parser[p], r) && Trans(x.a, u, 5, q)
    requires (r == 3 && |top| == 2) || (r == 4 && top == [])
    ensures Turns(x.a, x.parser, true, Config(below + [u] + top + [p], rest), Config(below + [u] + [q], rest))
  {
    hide SoleIs, Trans;
    var c := Config(below + [u] + top + [p], rest);
    var m := |top| + 1;
    assert c.states[..|c.states| - m] == below + [u];
    assert Reduces(x.a, x.parser, true, c, r, m, q, Config(below + [u] + [q], rest));
  }

  lemma FinishesOn(x: Passes, top: seq<nat>, p: nat)
    requires x.a.g == ChainTables && p < |x.parser| && SoleIs(x.parser[p], 3) && |top| == 2
    ensures RunsFrom(x.a, x.parser, true, Config([0] + top + [p], []))
  {
    hide SoleIs;
    var c := Config([0] + top + [p], []);
    assert FinishesBy(x.a, x.parser, true, c, 3, 3);
    assert RunOn(x.a, x.parser, true, c, [c]);
  }

  /** The default reductions of the states u and v. */
  ghost predicate Soles(x: Passes, s: States)
  {
    s.u < |x.parser| && SoleIs(x.parser[s.u], 4) && s.v < |x.parser| && SoleIs(x.parser[s.v], 4)
  }

  lemma FindSoles(assoc: Assoc, x: Passes, s: States)
    requires IsPrepared(ChainGrammar(), ChainPrec(assoc), x) && AreStates(x.a, s)
    ensures Soles(x, s)
  {
    hide IsPrepared, StateIs, Trans, Item, SoleIs;
    Items();
    Walks(x.a, s);
    ReducesA(assoc, x, s.u, [3], 2);
    ReducesA(assoc, x, s.v, [5, 2, 3], 0);
  }

  /** The default reduction of the state d, with %nonassoc. */
  ghost predicate SoleTied(x: Passes, s: States)
  {
    s.d < |x.parser| && SoleIs(x.parser[s.d], 3) && Tied(x, s.d, 2)
  }

  lemma FindTied(x: Passes, s: States)
    requires IsPrepared(ChainGrammar(), ChainPrec(Nonassoc), x) && AreStates(x.a, s)
    ensures SoleTied(x, s)
  {
    hide IsPrepared, StateIs, Trans, Item, SoleIs, Tied;
    PreparedSizes(ChainGrammar(), ChainPrec(Nonassoc), x);
    Items();
    Walks(x.a, s);
    FollowsD();
    var q := GoOn(x.a, s.d, {5, 7}, 5, {6}, {4, 6, 8});
    ReducesByDefault(ChainGrammar(), x, s.d, [5, 2, 5], q);
  }

  lemma FollowsD()
    ensures Follows({5, 7}, 2, {6}, {4, 6, 8})
  {
  }

  lemma Walks(a: Automaton, s: States)
    requires AreStates(a, s)
    ensures Walk(a, 0, [3], s.u) && Walk(a, 0, [5, 2, 3], s.v) && Walk(a, 0, [5, 2, 5], s.d)
  {
    hide StateIs, Trans;
    assert [] + [3] == [3] && [] + [5] == [5] && [5] + [2] == [5, 2];
    assert [5, 2] + [5] == [5, 2, 5] && [5, 2] + [3] == [5, 2, 3];
    assert Walk(a, 0, [], 0);
    WalkSnoc(a, 0, [], 0, 3, s.u);
    WalkSnoc(a, 0, [], 0, 5, s.e);
    WalkSnoc(a, 0, [5], s.e, 2, s.q);
    WalkSnoc(a, 0, [5, 2], s.q, 3, s.v);
    WalkSnoc(a, 0, [5, 2], s.q, 5, s.d);
  }

  /** The turns up to the second OP, and those behind it. */
  lemma TurnsBefore(assoc: Assoc, x: Passes, s: States)
    requires IsPrepared(ChainGrammar(), ChainPrec(assoc), x) && AreStates(x.a, s) && Soles(x, s)
    ensures Turns(x.a, x.parser, true, Config([0], [3, 2, 3, 2, 3]), Config([0, s.u], [2, 3, 2, 3]))
    ensures Turns(x.a, x.parser, true, Config([0, s.u], [2, 3, 2, 3]), Config([0, s.e], [2, 3, 2, 3]))
    ensures Turns(x.a, x.parser, true, Config([0, s.e], [2, 3, 2, 3]), Config([0, s.e, s.q], [3, 2, 3]))
    ensures Turns(x.a, x.parser, true, Config([0, s.e, s.q], [3, 2, 3]), Config([0, s.e, s.q, s.v], [2, 3]))
    ensures Turns(x.a, x.parser, true, Config([0, s.e, s.q, s.v], [2, 3]), Config([0, s.e, s.q, s.d], [2, 3]))
  {
    hide IsPrepared, StateIs, Trans, SoleIs, Turns, Tied;
    PreparedSizes(ChainGrammar(), ChainPrec(assoc), x);
    ShiftsOn(assoc, x, 0, {1, 4, 8}, [], 3, [2, 3, 2, 3], s.u);
    ReducesOn(x, [], 0, [], s.u, 4, [2, 3, 2, 3], s.e);
    ShiftsOn(assoc, x, s.e, {2, 5}, [0], 2, [3, 2, 3], s.q);
    ShiftsOn(assoc, x, s.q, {4, 6, 8}, [0, s.e], 3, [2, 3], s.v);
    ReducesOn(x, [0, s.e], s.q, [], s.v, 4, [2, 3], s.d);
    assert [] + [0] == [0] && [0] + [s.u] == [0, s.u] && [0] + [] + [s.u] == [0, s.u] && [0] + [s.e] == [0, s.e];
    assert [0, s.e] + [s.q] == [0, s.e, s.q] && [0, s.e] + [s.q] + [s.v] == [0, s.e, s.q, s.v];
    assert [0, s.e] + [s.q] + [] + [s.v] == [0, s.e, s.q, s.v] && [0, s.e] + [s.q] + [s.d] == [0, s.e, s.q, s.d];
    assert [3] + [2, 3, 2, 3] == [3, 2, 3, 2, 3] && [2] + [3, 2, 3] == [2, 3, 2, 3] && [3] + [2, 3] == [3, 2, 3];
  }

  lemma TurnsBehind(x: Passes, s: States)
    requires IsPrepared(ChainGrammar(), ChainPrec(Nonassoc), x) && AreStates(x.a, s) && Soles(x, s) && SoleTied(x, s)
    ensures Turns(x.a, x.parser, true, Config([0, s.e, s.q, s.d], [2, 3]), Config([0, s.e], [2, 3]))
    ensures Turns(x.a, x.parser, true, Config([0, s.e], [2, 3]), Config([0, s.e, s.q], [3]))
    ensures Turns(x.a, x.parser, true, Config([0, s.e, s.q], [3]), Config([0, s.e, s.q, s.v], []))
    ensures Turns(x.a, x.parser, true, Config([0, s.e, s.q, s.v], []), Config([0, s.e, s.q, s.d], []))
    ensures RunsFrom(x.a, x.parser, true, Config([0, s.e, s.q, s.d], []))
  {
    hide IsPrepared, StateIs, Trans, SoleIs, Turns, Tied, RunsFrom;
    PreparedSizes(ChainGrammar(), ChainPrec(Nonassoc), x);
    ReducesOn(x, [], 0, [s.e, s.q], s.d, 3, [2, 3], s.e);
    ShiftsOn(Nonassoc, x, s.e, {2, 5}, [0], 2, [3], s.q);
    ShiftsOn(Nonassoc, x, s.q, {4, 6, 8}, [0, s.e], 3, [], s.v);
    ReducesOn(x, [0, s.e], s.q, [], s.v, 4, [], s.d);
    FinishesOn(x, [s.e, s.q], s.d);
    assert [] + [0] + [s.e, s.q] + [s.d] == [0, s.e, s.q, s.d] && [] + [0] + [s.e] == [0, s.e] && [0] + [s.e] == [0, s.e];
    assert [0] + [s.e] + [s.q] == [0, s.e, s.q] && [0, s.e] + [s.q] + [s.v] == [0, s.e, s.q, s.v];
    assert [0, s.e] + [s.q] + [] + [s.v] == [0, s.e, s.q, s.v] && [0, s.e] + [s.q] + [s.d] == [0, s.e, s.q, s.d];
    assert [2] + [3] == [2, 3] && [3] + [] == [3] && [0] + [s.e, s.q] + [s.d] == [0, s.e, s.q, s.d];
  }

  /** In every parser that jay makes for this grammar, behind A OP A on a second OP: with %left the lists reduce the first two
      operands, with %right they shift the operator, and with %nonassoc they have no action. */
  lemma OperatorsGroup(assoc: Assoc, x: Passes) returns (s: States, w: nat)
    requires IsPrepared(ChainGrammar(), ChainPrec(assoc), x)
    ensures AreStates(x.a, s) && Trans(x.a, s.d, 2, w)
    ensures Turns(x.a, x.parser, true, Config([0, s.e, s.q, s.v], [2, 3]), Config([0, s.e, s.q, s.d], [2, 3]))
    ensures Turns(x.a, x.parser, false, Config([0, s.e, s.q, s.d], [2, 3]), Config([0, s.e], [2, 3])) <==> assoc == Left
    ensures Turns(x.a, x.parser, false, Config([0, s.e, s.q, s.d], [2, 3]), Config([0, s.e, s.q, s.d, w], [3])) <==> assoc == Right
    ensures assoc == Nonassoc ==> TiedAt(x, Config([0, s.e, s.q, s.d], [2, 3]))
  {
    hide IsPrepared, StateIs, Trans, Item, SoleIs, Tied, Taken, Turns;
    PreparedSizes(ChainGrammar(), ChainPrec(assoc), x);
    s := FindStates(x.a);
    FindSoles(assoc, x, s);
    TurnsBefore(assoc, x, s);
    Items();
    Walks(x.a, s);
    FollowsD();
    w := GoOn(x.a, s.d, {5, 7}, 5, {6}, {4, 6, 8});
    OpDecides(assoc, ChainGrammar(), x, s.d, [5, 2, 5], w);
    OperatorTurn(assoc, x, s, w);
  }

  lemma OperatorTurn(assoc: Assoc, x: Passes, s: States, w: nat)
    requires IsPrepared(ChainGrammar(), ChainPrec(assoc), x) && AreStates(x.a, s) && Trans(x.a, s.d, 2, w) && s.d < |x.parser|
    requires Taken(x.parser[s.d], false, 2, Reduce, 3) <==> assoc == Left
    requires Taken(x.parser[s.d], false, 2, Shift, w) <==> assoc == Right
    ensures Turns(x.a, x.parser, false, Config([0, s.e, s.q, s.d], [2, 3]), Config([0, s.e], [2, 3])) <==> assoc == Left
    ensures Turns(x.a, x.parser, false, Config([0, s.e, s.q, s.d], [2, 3]), Config([0, s.e, s.q, s.d, w], [3])) <==> assoc == Right
  {
    hide IsPrepared, StateIs, Trans, Taken;
    var c, left, right := Config([0, s.e, s.q, s.d], [2, 3]), Config([0, s.e], [2, 3]), Config([0, s.e, s.q, s.d, w], [3]);
    PreparedSizes(ChainGrammar(), ChainPrec(assoc), x);
    assert c.states[..1] + [s.e] == left.states && c.states + [w] == right.states && c.rest[1..] == right.rest;
    if assoc == Left {
      assert Reduces(x.a, x.parser, false, c, 3, 3, s.e, left);
    }
    if assoc == Right {
      assert Shifts(x.parser, false, c, w, right);
    }
    forall r: nat, m: nat, q: nat | Reduces(x.a, x.parser, false, c, r, m, q, left) ensures r == 3 {
      assert |left.states| == |c.states| - m + 1;
    }
    forall q: nat | Shifts(x.parser, false, c, q, right) ensures q == w {
      assert right.states[4] == (c.states + [q])[4];
    }
  }

  /** A run without default reductions goes on as the one with them, until the end of the input. */
  lemma RunGoesOn(x: Passes, c: Config, d: Config)
    requires IsPrepared(ChainGrammar(), ChainPrec(Nonassoc), x) && Turns(x.a, x.parser, true, c, d) && Token(c.rest) != 0
    requires RunsFrom(x.a, x.parser, false, c)
    ensures RunsFrom(x.a, x.parser, false, d)
  {
    hide IsPrepared, Turns, TiedAt;
    var cs :| RunOn(x.a, x.parser, false, c, cs);
    TurnWithout(x, c);
    TurnOnce(ChainGrammar(), ChainPrec(Nonassoc), x, true, c, d, cs[1]);
    assert RunOn(x.a, x.parser, false, d, cs[1..]);
  }

  /** It ends where all actions were lost. */
  lemma NoTurn(x: Passes, c: Config)
    requires TiedAt(x, c)
    ensures !RunsFrom(x.a, x.parser, false, c)
  {
    hide Turns, Finishes, TiedAt;
    TurnWithout(x, c);
  }

  /** The tokens A OP A OP A. */
  const TwoOperators: seq<nat> := [3, 2, 3, 2, 3]

  /** In every parser that jay makes for this grammar: the lists, from which the conflict on OP took both actions, reject two
      operators in a row, and the default reductions accept them. */
  lemma ChainIsAccepted(x: Passes)
    requires IsPrepared(ChainGrammar(), ChainPrec(Nonassoc), x)
    ensures ListsAccept(x.a, x.parser, true, TwoOperators) && !ListsAccept(x.a, x.parser, false, TwoOperators)
  {
    hide IsPrepared, AreStates, Soles, SoleTied, Turns, RunsFrom;
    PreparedSizes(ChainGrammar(), ChainPrec(Nonassoc), x);
    var s := FindStates(x.a);
    FindSoles(Nonassoc, x, s);
    FindTied(x, s);
    TurnsBefore(Nonassoc, x, s);
    TurnsBehind(x, s);
    var c1, c2, c3 := Config([0, s.u], [2, 3, 2, 3]), Config([0, s.e], [2, 3, 2, 3]), Config([0, s.e, s.q], [3, 2, 3]);
    var c4, c5 := Config([0, s.e, s.q, s.v], [2, 3]), Config([0, s.e, s.q, s.d], [2, 3]);
    var a, lists := x.a, x.parser;
    TurnRuns(a, lists, true, Config([0, s.e, s.q, s.v], []), Config([0, s.e, s.q, s.d], []));
    TurnRuns(a, lists, true, Config([0, s.e, s.q], [3]), Config([0, s.e, s.q, s.v], []));
    TurnRuns(a, lists, true, Config([0, s.e], [2, 3]), Config([0, s.e, s.q], [3]));
    TurnRuns(a, lists, true, c5, Config([0, s.e], [2, 3]));
    TurnRuns(a, lists, true, c4, c5);
    TurnRuns(a, lists, true, c3, c4);
    TurnRuns(a, lists, true, c2, c3);
    TurnRuns(a, lists, true, c1, c2);
    TurnRuns(a, lists, true, Config([0], TwoOperators), c1);
    SolesTied(x, s);
    NoTurn(x, c5);
    if ListsAccept(a, lists, false, TwoOperators) {
      RunGoesOn(x, Config([0], TwoOperators), c1);
      RunGoesOn(x, c1, c2);
      RunGoesOn(x, c2, c3);
      RunGoesOn(x, c3, c4);
      RunGoesOn(x, c4, c5);
    }
  }

  lemma SolesTied(x: Passes, s: States)
    requires SoleTied(x, s)
    ensures TiedAt(x, Config([0, s.e, s.q, s.d], [2, 3]))
  {
    hide SoleIs, Tied;
  }

  /** Passing the grammar through jay gives such a parser; its tables accept the two operators silently. */
  method GenerateChain() returns (ok: bool, x: Passes)
    ensures IsPrepared(ChainGrammar(), ChainPrec(Nonassoc), x)
    ensures ListsAccept(x.a, x.parser, true, TwoOperators) && !ListsAccept(x.a, x.parser, false, TwoOperators)
    ensures ok ==> IsGenerated(ChainGrammar(), ChainPrec(Nonassoc), x) && SizesOk(x) && Accepts(x, TwoOperators)
  {
    hide IsPrepared, IsGenerated, AreVectors, Overflows, ListsAccept, Accepts, SizesOk;
    ChainIsGrammar();
    var g: Grammar := ChainTables;
    ok, x := Generate(g, ChainPrec(Nonassoc), [0, 256, 257, 258, -1, 0]);
    ChainIsAccepted(x);
    if ok {
      GeneratedSizes(g, ChainPrec(Nonassoc), x);
      assert TokensOk(g, TwoOperators);
      TablesFollowLists(g, ChainPrec(Nonassoc), x, TwoOperators);
    }
  }
}
