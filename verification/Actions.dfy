/** The action lists of the states (jay/mkpar.c, parse_actions). */
module Actions {
  import opened Grammars
  import opened Automata
  import opened LaTable
  import opened GotoMap
  import opened ReadSets

  datatype Assoc = TokenAssoc | Left | Right | Nonassoc

  datatype Code = Shift | Reduce

  /** suppressed is 0 for an action that stays, 1 for one that lost a reported conflict, 2 for one that lost to
      a precedence. */
  datatype Action = Action(symbol: nat, number: nat, prec: int, code: Code, assoc: Assoc, suppressed: nat)

  /** What the reader knows about the precedence of the symbols and the rules. */
  datatype Precedence = Precedence(symbolPrec: seq<int>, symbolAssoc: seq<Assoc>, rprec: seq<int>, rassoc: seq<Assoc>)

  ghost predicate PrecedenceOk(g: Grammar, prec: Precedence)
  {
    && |prec.symbolPrec| == |prec.symbolAssoc| == g.nsyms
    && |prec.rprec| == |prec.rassoc| == |g.rlhs|
  }

  /** The order of an action list: by symbol, then shift before reduce, then by number. */
  ghost predicate Less(e: Action, f: Action)
  {
    || e.symbol < f.symbol
    || (e.symbol == f.symbol && e.code == Shift && f.code == Reduce)
    || (e.symbol == f.symbol && e.code == f.code && e.number < f.number)
  }

  ghost predicate Sorted(list: seq<Action>)
  {
    forall k, l :: 0 <= k < l < |list| ==> Less(list[k], list[l])
  }

  /** e is the shift of state p on a token. */
  ghost predicate IsShift(a: Automaton, prec: Precedence, p: nat, e: Action)
  {
    && e.code == Shift && e.suppressed == 0 && !a.g.IsVar(e.symbol) && Trans(a, p, e.symbol, e.number)
    && e.symbol < |prec.symbolPrec| == |prec.symbolAssoc|
    && e.prec == prec.symbolPrec[e.symbol] && e.assoc == prec.symbolAssoc[e.symbol]
  }

  /** e is the reduction by rule r on a token. */
  ghost predicate IsReduce(prec: Precedence, r: nat, symbol: nat, e: Action)
  {
    && e.code == Reduce && e.suppressed == 0 && e.symbol == symbol && e.number == r
    && r < |prec.rprec| == |prec.rassoc| && e.prec == prec.rprec[r] && e.assoc == prec.rassoc[r]
  }

  /** The shifts of state p from number i on that are on a token. */
  ghost predicate ShiftFrom(a: Automaton, prec: Precedence, p: nat, i: nat, e: Action)
  {
    IsShift(a, prec, p, e) && exists k: nat :: i <= k && ShiftOn(a, p, k, e.symbol)
  }

  ghost predicate ShiftsDone(a: Automaton, prec: Precedence, p: nat, i: nat, actions: seq<Action>)
  {
    Sorted(actions) && forall e :: e in actions <==> ShiftFrom(a, prec, p, i, e)
  }

  lemma ShiftsNext(a: Automaton, prec: Precedence, p: nat, i: nat, actions: seq<Action>, e: Action)
    requires ShiftsDone(a, prec, p, i + 1, actions)
    requires ShiftOn(a, p, i, e.symbol) && IsShift(a, prec, p, e)
    ensures ShiftsDone(a, prec, p, i, [e] + actions)
  {
    hide IsLr0, IsShift, Trans;
    var next := i + 1;
    assert a.shifts[p][i] == e.number by { ShiftTarget(a, prec, p, i, e); }
    forall f | f in actions ensures Less(e, f) {
      var k: nat :| next <= k && ShiftOn(a, p, k, f.symbol);
      ShiftsAscend(a, p, i, e.symbol, k, f.symbol);
    }
    forall f ensures ShiftFrom(a, prec, p, i, f) <==> ShiftFrom(a, prec, p, next, f) || f == e {
      if ShiftFrom(a, prec, p, i, f) && !ShiftFrom(a, prec, p, next, f) {
        var k: nat :| i <= k && ShiftOn(a, p, k, f.symbol);
        assert k == i;
        ShiftTarget(a, prec, p, i, f);
        ShiftIsOne(a, prec, p, e, f);
      }
    }
  }

  /** The shift of a state on a symbol. */
  lemma ShiftTarget(a: Automaton, prec: Precedence, p: nat, k: nat, e: Action)
    requires ShiftOn(a, p, k, e.symbol) && IsShift(a, prec, p, e)
    ensures p < |a.shifts| && k < |a.shifts[p]| && a.shifts[p][k] == e.number
  {
    ShiftOnIsTrans(a, p, k, e.symbol);
    TransUnique(a, p, e.symbol, e.number, a.shifts[p][k]);
  }

  lemma ShiftIsOne(a: Automaton, prec: Precedence, p: nat, e: Action, f: Action)
    requires IsShift(a, prec, p, e) && IsShift(a, prec, p, f) && e.symbol == f.symbol
    ensures e == f
  {
    TransUnique(a, p, e.symbol, e.number, f.number);
  }

  lemma ShiftsSkip(a: Automaton, prec: Precedence, p: nat, i: nat, actions: seq<Action>, symbol: nat)
    requires ShiftsDone(a, prec, p, i + 1, actions)
    requires ShiftOn(a, p, i, symbol) && a.g.IsVar(symbol)
    ensures ShiftsDone(a, prec, p, i, actions)
  {
    hide IsLr0, Trans;
    var next := i + 1;
    forall f ensures ShiftFrom(a, prec, p, i, f) <==> ShiftFrom(a, prec, p, next, f) {
      if ShiftFrom(a, prec, p, i, f) {
        var k: nat :| i <= k && ShiftOn(a, p, k, f.symbol);
        assert k != i;
      }
    }
  }

  lemma ShiftsNone(a: Automaton, prec: Precedence, p: nat)
    requires p < |a.kernels|
    ensures ShiftsDone(a, prec, p, |a.shifts[p]|, [])
  {
  }

  lemma ShiftsAll(a: Automaton, prec: Precedence, p: nat, actions: seq<Action>)
    requires ShiftsDone(a, prec, p, 0, actions)
    ensures Sorted(actions) && forall e :: e in actions <==> IsShift(a, prec, p, e)
  {
    hide IsLr0;
    forall e ensures ShiftFrom(a, prec, p, 0, e) <==> IsShift(a, prec, p, e) {
      if IsShift(a, prec, p, e) {
        var k := ShiftOnTrans(a, p, e.symbol, e.number);
      }
    }
  }

  method GetShifts(a: Automaton, prec: Precedence, stateno: nat) returns (actions: seq<Action>)
    requires stateno < |a.kernels| && PrecedenceOk(a.g, prec)
    ensures Sorted(actions) && forall e :: e in actions <==> IsShift(a, prec, stateno, e)
  {
    hide IsLr0, RawGrammar.Valid, Trans, ShiftsDone, Sorted;
    SameSizes(a);
    actions := [];
    ShiftsNone(a, prec, stateno);
    var i: nat := |a.shifts[stateno]|;
    while i > 0
      invariant i <= |a.shifts[stateno]| && ShiftsDone(a, prec, stateno, i, actions)
    {
      SymbolInGrammar(a, stateno, i - 1);
      var k := a.shifts[stateno][i - 1];
      var symbol := a.access[k];
      ShiftOnIsTrans(a, stateno, i - 1, symbol);
      if symbol < a.g.ntokens {
        var temp := Action(symbol, k, prec.symbolPrec[symbol], Shift, prec.symbolAssoc[symbol], 0);
        ShiftsNext(a, prec, stateno, i - 1, actions, temp);
        actions := [temp] + actions;
      } else {
        ShiftsSkip(a, prec, stateno, i - 1, actions, symbol);
      }
      i := i - 1;
    }
    ShiftsAll(a, prec, stateno, actions);
  }

  // ---------------------------------------------------------------------------------

  /** e comes before, or after, the reduction by the rule on the symbol. */
  ghost predicate Before(e: Action, symbol: nat, ruleno: nat)
  {
    e.symbol < symbol || (e.symbol == symbol && (e.code == Shift || e.number < ruleno))
  }

  ghost predicate After(e: Action, symbol: nat, ruleno: nat)
  {
    e.symbol > symbol || (e.symbol == symbol && e.code == Reduce && e.number > ruleno)
  }

  lemma AfterRest(actions: seq<Action>, k: nat, symbol: nat, ruleno: nat)
    requires Sorted(actions) && k < |actions| && After(actions[k], symbol, ruleno)
    ensures forall l :: k <= l < |actions| ==> After(actions[l], symbol, ruleno)
  {
    forall l | k <= l < |actions| ensures After(actions[l], symbol, ruleno) {
      assert k < l ==> Less(actions[k], actions[l]);
    }
  }

  lemma SortedNext(actions: seq<Action>, k: nat)
    requires Sorted(actions) && k + 1 < |actions|
    ensures Less(actions[k], actions[k + 1])
  {
  }

  /** The three loops of add_reduce: the place of the new reduction in the list. */
  method FindPlace(actions: seq<Action>, ruleno: nat, symbol: nat) returns (k: nat)
    requires Sorted(actions)
    requires forall e :: e in actions ==> e.symbol != symbol || e.code != Reduce || e.number != ruleno
    ensures k <= |actions|
    ensures forall l :: 0 <= l < k ==> Before(actions[l], symbol, ruleno)
    ensures forall l :: k <= l < |actions| ==> After(actions[l], symbol, ruleno)
  {
    hide Sorted;
    k := 0;
    while k < |actions| && actions[k].symbol < symbol
      invariant k <= |actions|
      invariant forall l :: 0 <= l < k ==> Before(actions[l], symbol, ruleno)
    {
      k := k + 1;
    }
    while k < |actions| && actions[k].symbol == symbol && actions[k].code == Shift
      invariant k <= |actions|
      invariant forall l :: 0 <= l < k ==> Before(actions[l], symbol, ruleno)
      invariant k < |actions| ==> actions[k].symbol >= symbol
    {
      if k + 1 < |actions| { SortedNext(actions, k); }
      k := k + 1;
    }
    while k < |actions| && actions[k].symbol == symbol && actions[k].code == Reduce && actions[k].number < ruleno
      invariant k <= |actions|
      invariant forall l :: 0 <= l < k ==> Before(actions[l], symbol, ruleno)
      invariant k < |actions| ==> actions[k].symbol > symbol || (actions[k].symbol == symbol && actions[k].code == Reduce)
    {
      if k + 1 < |actions| { SortedNext(actions, k); }
      k := k + 1;
    }
    if k < |actions| {
      assert actions[k] in actions;
      AfterRest(actions, k, symbol, ruleno);
    }
  }

  lemma Inserted(actions: seq<Action>, k: nat, e: Action)
    requires Sorted(actions) && k <= |actions| && e.code == Reduce
    requires forall l :: 0 <= l < k ==> Before(actions[l], e.symbol, e.number)
    requires forall l :: k <= l < |actions| ==> After(actions[l], e.symbol, e.number)
    ensures Sorted(actions[..k] + [e] + actions[k..])
  {
    var more := actions[..k] + [e] + actions[k..];
    assert forall l :: 0 <= l < |more| ==> more[l] == if l < k then actions[l] else if l == k then e else actions[l-1];
  }

  lemma InsertedElements(actions: seq<Action>, k: nat, e: Action)
    requires k <= |actions|
    ensures forall f :: f in actions[..k] + [e] + actions[k..] <==> f in actions || f == e
  {
    assert actions == actions[..k] + actions[k..];
  }

  /** A reduction is linked in at its place. */
  method AddReduce(prec: Precedence, actions: seq<Action>, ruleno: nat, symbol: nat) returns (actions': seq<Action>)
    requires Sorted(actions) && ruleno < |prec.rprec| == |prec.rassoc|
    requires forall e :: e in actions ==> e.symbol != symbol || e.code != Reduce || e.number != ruleno
    ensures Sorted(actions')
    ensures forall e :: e in actions' <==> e in actions || IsReduce(prec, ruleno, symbol, e)
  {
    hide Sorted;
    var k := FindPlace(actions, ruleno, symbol);
    var temp := Action(symbol, ruleno, prec.rprec[ruleno], Reduce, prec.rassoc[ruleno], 0);
    Inserted(actions, k, temp);
    InsertedElements(actions, k, temp);
    actions' := actions[..k] + [temp] + actions[k..];
  }

  // ---------------------------------------------------------------------------------

  /** Of the reductions of state p, e belongs to the first n, or to number n on token j or above. */
  ghost predicate ReducedSoFar(a: Automaton, prec: Precedence, lookaheads: seq<nat>, rows: seq<set<int>>, p: nat,
                               n: nat, j: nat, e: Action)
  {
    exists m: nat :: ReducedAt(a, prec, lookaheads, rows, p, m, e) && (m < n || (m == n && e.symbol >= j))
  }

  ghost predicate ReducedAt(a: Automaton, prec: Precedence, lookaheads: seq<nat>, rows: seq<set<int>>, p: nat, m: nat,
                            e: Action)
  {
    && p < |a.reds| && p < |lookaheads| && m < |a.reds[p]| && lookaheads[p] + m < |rows|
    && e.symbol in rows[lookaheads[p] + m] && e.symbol < a.g.ntokens && IsReduce(prec, a.reds[p][m], e.symbol, e)
  }

  /** The actions of state p: its shifts on tokens, and its reductions on their lookaheads. */
  ghost predicate IsAction(a: Automaton, prec: Precedence, lookaheads: seq<nat>, rows: seq<set<int>>, p: nat, e: Action)
  {
    IsShift(a, prec, p, e) || exists m: nat :: ReducedAt(a, prec, lookaheads, rows, p, m, e)
  }

  ghost predicate ActionsDone(a: Automaton, prec: Precedence, lookaheads: seq<nat>, rows: seq<set<int>>, p: nat,
                              n: nat, j: nat,
                              actions: seq<Action>)
  {
    && Sorted(actions)
    && forall e :: e in actions <==> IsShift(a, prec, p, e) || ReducedSoFar(a, prec, lookaheads, rows, p, n, j, e)
  }

  /** The reduction to be added is not there yet. */
  lemma NotThere(a: Automaton, prec: Precedence, lookaheads: seq<nat>, rows: seq<set<int>>, p: nat, n: nat, j: nat,
                 actions: seq<Action>)
    requires ActionsDone(a, prec, lookaheads, rows, p, n, j + 1, actions) && p < |a.reds| && n < |a.reds[p]|
    ensures forall e :: e in actions ==> e.symbol != j || e.code != Reduce || e.number != a.reds[p][n]
  {
    assert RedsOk(a, p);
    hide IsLr0, RedsOk, Trans;
    forall e | e in actions ensures e.symbol != j || e.code != Reduce || e.number != a.reds[p][n] {
      if e.code == Reduce && e.number == a.reds[p][n] {
        var m: nat :| ReducedAt(a, prec, lookaheads, rows, p, m, e) && (m < n || (m == n && e.symbol >= j + 1));
        RedsDistinct(a, p, m, n);
      }
    }
  }

  lemma RedsDistinct(a: Automaton, p: nat, m: nat, n: nat)
    requires p < |a.reds| && m < |a.reds[p]| && n < |a.reds[p]| && a.reds[p][m] == a.reds[p][n]
    ensures m == n
  {
    assert RedsOk(a, p);
  }

  lemma ActionsNext(a: Automaton, prec: Precedence, lookaheads: seq<nat>, rows: seq<set<int>>, p: nat, n: nat, j: nat,
                    actions: seq<Action>, actions': seq<Action>)
    requires ActionsDone(a, prec, lookaheads, rows, p, n, j + 1, actions) && j < a.g.ntokens
    requires p < |a.reds| && p < |lookaheads| && n < |a.reds[p]| && lookaheads[p] + n < |rows|
    requires Sorted(actions')
    requires forall e :: e in actions' <==>
               e in actions || (j in rows[lookaheads[p] + n] && IsReduce(prec, a.reds[p][n], j, e))
    ensures ActionsDone(a, prec, lookaheads, rows, p, n, j, actions')
  {
    hide IsLr0, Trans, Sorted;
    var next := j + 1;
    forall e ensures ReducedSoFar(a, prec, lookaheads, rows, p, n, j, e) <==>
      ReducedSoFar(a, prec, lookaheads, rows, p, n, next, e) || (j in rows[lookaheads[p] + n] && IsReduce(prec, a.reds[p][n], j, e))
    {
      if ReducedSoFar(a, prec, lookaheads, rows, p, n, j, e) {
        var m: nat :| ReducedAt(a, prec, lookaheads, rows, p, m, e) && (m < n || (m == n && e.symbol >= j));
      }
      if j in rows[lookaheads[p] + n] && IsReduce(prec, a.reds[p][n], j, e) {
        assert ReducedAt(a, prec, lookaheads, rows, p, n, e);
      }
    }
  }

  lemma ActionsRow(a: Automaton, prec: Precedence, lookaheads: seq<nat>, rows: seq<set<int>>, p: nat, n: nat,
                   actions: seq<Action>)
    requires ActionsDone(a, prec, lookaheads, rows, p, n, 0, actions)
    ensures ActionsDone(a, prec, lookaheads, rows, p, n + 1, a.g.ntokens, actions)
  {
    hide IsLr0, Trans, Sorted, IsReduce;
    var next := n + 1;
    forall e ensures ReducedSoFar(a, prec, lookaheads, rows, p, n, 0, e) <==> ReducedSoFar(a, prec, lookaheads, rows, p, next, a.g.ntokens, e) {
      if ReducedSoFar(a, prec, lookaheads, rows, p, n, 0, e) {
        var m: nat :| ReducedAt(a, prec, lookaheads, rows, p, m, e) && m <= n;
        assert m < next;
      }
      if ReducedSoFar(a, prec, lookaheads, rows, p, next, a.g.ntokens, e) {
        var m: nat :| ReducedAt(a, prec, lookaheads, rows, p, m, e) && (m < next || (m == next && e.symbol >= a.g.ntokens));
        assert m <= n;
      }
    }
  }

  lemma ActionsStart(a: Automaton, prec: Precedence, lookaheads: seq<nat>, rows: seq<set<int>>, p: nat, actions: seq<Action>)
    requires Sorted(actions) && forall e :: e in actions <==> IsShift(a, prec, p, e)
    ensures ActionsDone(a, prec, lookaheads, rows, p, 0, a.g.ntokens, actions)
  {
  }

  lemma ActionsAll(a: Automaton, prec: Precedence, lookaheads: seq<nat>, rows: seq<set<int>>, p: nat, actions: seq<Action>)
    requires p < |a.reds| && ActionsDone(a, prec, lookaheads, rows, p, |a.reds[p]|, a.g.ntokens, actions)
    ensures Sorted(actions) && forall e :: e in actions <==> IsAction(a, prec, lookaheads, rows, p, e)
  {
    hide IsLr0, Trans, Sorted, IsReduce;
    var n := |a.reds[p]|;
    forall e ensures ReducedSoFar(a, prec, lookaheads, rows, p, n, a.g.ntokens, e)
      <==> exists m: nat :: ReducedAt(a, prec, lookaheads, rows, p, m, e)
    {
    }
  }

  /** One lookahead row, token by token from the highest. */
  method AddRow(a: Automaton, prec: Precedence, ghost lookaheads: seq<nat>, rows: seq<set<int>>, stateno: nat, ghost n: nat,
                i: nat, ruleno: nat, actions0: seq<Action>) returns (actions: seq<Action>)
    requires stateno < |a.reds| && stateno < |lookaheads| && n < |a.reds[stateno]| && i == lookaheads[stateno] + n < |rows|
    requires ruleno == a.reds[stateno][n] < |prec.rprec| == |prec.rassoc|
    requires ActionsDone(a, prec, lookaheads, rows, stateno, n, a.g.ntokens, actions0)
    ensures ActionsDone(a, prec, lookaheads, rows, stateno, n, 0, actions)
  {
    hide IsLr0, RawGrammar.Valid, Trans, Sorted, ReducedSoFar;
    actions := actions0;
    var j: nat := a.g.ntokens;
    while j > 0
      invariant j <= a.g.ntokens && ActionsDone(a, prec, lookaheads, rows, stateno, n, j, actions)
    {
      j := j - 1;
      ghost var was := actions;
      NotThere(a, prec, lookaheads, rows, stateno, n, j, was);
      if j in rows[i] {
        actions := AddReduce(prec, actions, ruleno, j);
      }
      ActionsNext(a, prec, lookaheads, rows, stateno, n, j, was, actions);
    }
  }

  method AddReductions(a: Automaton, prec: Precedence, lookaheads: seq<nat>, LAruleno: seq<nat>, rows: seq<set<int>>,
                        stateno: nat, actions0: seq<Action>) returns (actions: seq<Action>)
    requires stateno < |a.reds| && PrecedenceOk(a.g, prec) && IsLaTable(a, lookaheads, LAruleno) && |rows| == |LAruleno|
    requires Sorted(actions0) && forall e :: e in actions0 <==> IsShift(a, prec, stateno, e)
    ensures Sorted(actions) && forall e :: e in actions <==> IsAction(a, prec, lookaheads, rows, stateno, e)
  {
    hide IsLr0, RawGrammar.Valid, IsLaTable, Sorted, IsShift, IsAction, ActionsDone;
    actions := actions0;
    ActionsStart(a, prec, lookaheads, rows, stateno, actions);
    StateRows(a, lookaheads, LAruleno, stateno);
    var m, n := lookaheads[stateno], lookaheads[stateno + 1];
    var i := m;
    while i < n
      invariant m <= i <= n && ActionsDone(a, prec, lookaheads, rows, stateno, i - m, a.g.ntokens, actions)
    {
      RowRule(a, lookaheads, LAruleno, stateno, i - m);
      RuleBelow(a, stateno, i - m);
      actions := AddRow(a, prec, lookaheads, rows, stateno, i - m, i, LAruleno[i], actions);
      ActionsRow(a, prec, lookaheads, rows, stateno, i - m, actions);
      i := i + 1;
    }
    ActionsAll(a, prec, lookaheads, rows, stateno, actions);
  }

  lemma StateRows(a: Automaton, lookaheads: seq<nat>, LAruleno: seq<nat>, q: nat)
    requires q < |a.reds| && IsLaTable(a, lookaheads, LAruleno)
    ensures |lookaheads| == |a.reds| + 1 && lookaheads[q+1] == lookaheads[q] + |a.reds[q]|
  {
    hide RedCounts;
    RedRoom(a, lookaheads, q);
  }

  lemma RuleBelow(a: Automaton, q: nat, n: nat)
    requires q < |a.reds| && n < |a.reds[q]|
    ensures a.g.IsRule(a.reds[q][n])
  {
    assert RedsOk(a, q);
    assert a.reds[q][n] in a.reds[q];
  }

  method ParseActions(a: Automaton, prec: Precedence, lookaheads: seq<nat>, LAruleno: seq<nat>, rows: seq<set<int>>,
                      stateno: nat)
      returns (actions: seq<Action>)
    requires stateno < |a.reds| && PrecedenceOk(a.g, prec) && IsLaTable(a, lookaheads, LAruleno) && |rows| == |LAruleno|
    ensures Sorted(actions) && forall e :: e in actions <==> IsAction(a, prec, lookaheads, rows, stateno, e)
  {
    hide IsLr0, RawGrammar.Valid, IsLaTable, Sorted, IsShift, IsAction;
    SameSizes(a);
    actions := GetShifts(a, prec, stateno);
    actions := AddReductions(a, prec, lookaheads, LAruleno, rows, stateno, actions);
  }
}
