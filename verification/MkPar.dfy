/** The parser's actions (jay/mkpar.c, make_parser). */
module MkPar {
  import opened Grammars
  import opened Automata
  import opened GotoMap
  import opened LaTable
  import opened Lalr
  import opened ReadSets
  import opened Actions
  import opened Conflicts

  /** The target of the transition on the goal: after it, the input may end. */
  method FindFinalState(a: Automaton) returns (finalState: nat)
    ensures Trans(a, 0, a.g.ntokens + 1, finalState)
  {
    hide IsLr0, Trans;
    SameSizes(a);
    ghost var target := GoalTrans(a);
    GoalItem(a.g);
    ghost var k := ShiftOnTrans(a, 0, a.g.ntokens + 1, target);
    var toState := a.shifts[0];
    var goal := a.g.ritem[1];
    finalState := 0;
    var i: nat := |toState|;
    while i > 0
      invariant k < i <= |toState|
    {
      i := i - 1;
      finalState := toState[i];
      SymbolInGrammar(a, 0, i);
      if a.access[finalState] == goal {
        ShiftOnIsTrans(a, 0, i, goal);
        break;
      }
    }
  }

  lemma GoalItem(g: Grammar)
    ensures |g.ritem| > 1 && g.ritem[1] == g.ntokens + 1
  {
  }

  /** The actions that the grammar gives to a state make up a list without two shifts on a symbol. */
  lemma ActionsFresh(a: Automaton, prec: Precedence, lookaheads: seq<nat>, rows: seq<set<int>>, p: nat, list: seq<Action>)
    requires Sorted(list) && forall e :: e in list <==> IsAction(a, prec, lookaheads, rows, p, e)
    ensures Fresh(list)
  {
    hide IsLr0, RawGrammar.Valid, Trans, ReducedAt;
    forall k | 0 <= k < |list| ensures list[k].suppressed == 0 {
      assert list[k] in list;
      ActionFacts(a, prec, lookaheads, rows, p, list[k]);
    }
    forall k, l | 0 <= k < l < |list| && list[k].symbol == list[l].symbol ensures list[l].code == Reduce {
      assert Less(list[k], list[l]) && list[k] in list && list[l] in list;
      ActionFacts(a, prec, lookaheads, rows, p, list[k]);
      ActionFacts(a, prec, lookaheads, rows, p, list[l]);
      if list[l].code == Shift {
        ShiftIsOne(a, prec, p, list[k], list[l]);
      }
    }
  }

  lemma ActionFacts(a: Automaton, prec: Precedence, lookaheads: seq<nat>, rows: seq<set<int>>, p: nat, e: Action)
    requires IsAction(a, prec, lookaheads, rows, p, e)
    ensures e.suppressed == 0 && (e.code == Shift <==> IsShift(a, prec, p, e))
    ensures e.symbol < a.g.ntokens && (e.code == Reduce ==> e.number >= 3 && p < |a.reds| && e.number in a.reds[p])
  {
    hide IsLr0, Trans;
    if !IsShift(a, prec, p, e) {
      var m: nat :| ReducedAt(a, prec, lookaheads, rows, p, m, e);
      ReducedRule(a, p, a.reds[p][m]);
    }
  }

  // ---------------------------------------------------------------------------------

  /** r is the one rule that every action that stayed reduces by, and one of them is not on the error token. */
  ghost predicate SoleIs(list: seq<Action>, r: nat)
  {
    && r > 0
    && (forall e :: e in list && e.suppressed == 0 ==> e.code == Reduce && e.number == r)
    && exists e :: e in list && e.suppressed == 0 && e.symbol != 1
  }

  method SoleReduction(list: seq<Action>) returns (ruleno: nat)
    requires forall e :: e in list && e.code == Reduce ==> e.number > 0
    ensures if ruleno > 0 then SoleIs(list, ruleno) else forall r: nat :: !SoleIs(list, r)
    ensures ruleno > 0 ==> (forall e :: e in list && e.suppressed == 0 ==> e.code == Reduce && e.number == ruleno)
                           && exists e :: e in list && e.suppressed == 0 && e.symbol != 1
    ensures ruleno == 0 ==> || (exists e :: e in list && e.suppressed == 0 && e.code == Shift)
                            || (exists e, f :: e in list && f in list && e.suppressed == 0 == f.suppressed && e.number != f.number)
                            || (forall e :: e in list && e.suppressed == 0 ==> e.symbol == 1)
  {
    var count: nat := 0;
    ruleno := 0;
    var p: nat := 0;
    while p < |list|
      invariant p <= |list|
      invariant forall k :: 0 <= k < p && list[k].suppressed == 0 ==> list[k].code == Reduce && list[k].number == ruleno
      invariant count > 0 <==> exists k :: 0 <= k < p && list[k].suppressed == 0 && list[k].symbol != 1
      invariant ruleno > 0 <==> exists k :: 0 <= k < p && list[k].suppressed == 0
    {
      assert list[p] in list;
      if list[p].code == Shift && list[p].suppressed == 0 {
        return 0;
      } else if list[p].code == Reduce && list[p].suppressed == 0 {
        if ruleno > 0 && list[p].number != ruleno {
          ghost var k :| 0 <= k < p && list[k].suppressed == 0;
          assert list[k] in list;
          return 0;
        }
        if list[p].symbol != 1 {
          count := count + 1;
        }
        ruleno := list[p].number;
      }
      p := p + 1;
    }
    if count == 0 {
      return 0;
    }
    ghost var k :| 0 <= k < |list| && list[k].suppressed == 0 && list[k].symbol != 1;
    assert list[k] in list;
  }

  // ---------------------------------------------------------------------------------

  /** raw holds the actions that the automaton and the lookaheads give to the states, parser what became of them. */
  ghost predicate IsParser(a: Automaton, prec: Precedence, lookaheads: seq<nat>, rows: seq<set<int>>, finalState: nat,
                           raw: seq<seq<Action>>, parser: seq<seq<Action>>)
  {
    && |raw| == |parser| == |a.kernels|
    && (forall p: nat :: p < |raw| ==> IsRawList(a, prec, lookaheads, rows, p, raw[p]))
    && (forall p: nat :: p < |raw| ==> Resolved(raw[p], p == finalState, |raw[p]|, parser[p]))
  }

  ghost predicate IsRawList(a: Automaton, prec: Precedence, lookaheads: seq<nat>, rows: seq<set<int>>, p: nat,
                            list: seq<Action>)
  {
    Fresh(list) && forall e :: e in list <==> IsAction(a, prec, lookaheads, rows, p, e)
  }

  /** The actions of all states, before the conflicts are resolved. */
  method ParseAll(a: Automaton, prec: Precedence, lookaheads: seq<nat>, LAruleno: seq<nat>, rows: seq<set<int>>)
      returns (parser: array<seq<Action>>)
    requires PrecedenceOk(a.g, prec) && IsLaTable(a, lookaheads, LAruleno) && |rows| == |LAruleno|
    ensures fresh(parser) && parser.Length == |a.kernels|
    ensures forall p: nat :: p < parser.Length ==> IsRawList(a, prec, lookaheads, rows, p, parser[p])
  {
    hide IsLr0, RawGrammar.Valid, IsLaTable, IsRawList, IsAction, PrecedenceOk, Sorted;
    SameSizes(a);
    parser := new seq<Action>[|a.kernels|](_ => []);
    var i: nat := 0;
    while i < |a.kernels|
      invariant i <= |a.kernels|
      invariant forall p: nat :: p < i ==> IsRawList(a, prec, lookaheads, rows, p, parser[p])
    {
      var actions := ParseActions(a, prec, lookaheads, LAruleno, rows, i);
      RawListIs(a, prec, lookaheads, rows, i, actions);
      parser[i] := actions;
      i := i + 1;
    }
  }

  lemma RawListIs(a: Automaton, prec: Precedence, lookaheads: seq<nat>, rows: seq<set<int>>, p: nat, list: seq<Action>)
    requires Sorted(list) && forall e :: e in list <==> IsAction(a, prec, lookaheads, rows, p, e)
    ensures IsRawList(a, prec, lookaheads, rows, p, list)
  {
    hide IsAction;
    ActionsFresh(a, prec, lookaheads, rows, p, list);
  }

  /** The reported conflicts of the lists below n. */
  ghost function ReportedIn(parser: seq<seq<Action>>, n: nat): nat
    requires n <= |parser|
  {
    if n == 0 then 0 else ReportedIn(parser, n - 1) + Reported(parser[n-1])
  }

  lemma {:induction false} ReportedInSame(parser: seq<seq<Action>>, parser': seq<seq<Action>>, n: nat)
    requires n <= |parser| == |parser'| && forall p :: 0 <= p < n ==> parser[p] == parser'[p]
    ensures ReportedIn(parser, n) == ReportedIn(parser', n)
  {
    if n > 0 {
      ReportedInSame(parser, parser', n - 1);
    }
  }

  /** The conflicts of the lists below n that count as shift/reduce, and those that count as reduce/reduce. */
  ghost function ShiftLossesIn(parser: seq<seq<Action>>, finalState: nat, n: nat): nat
    requires n <= |parser|
  {
    if n == 0 then 0 else ShiftLossesIn(parser, finalState, n - 1) + ShiftLosses(parser[n-1], n - 1 == finalState)
  }

  ghost function RuleLossesIn(parser: seq<seq<Action>>, finalState: nat, n: nat): nat
    requires n <= |parser|
  {
    if n == 0 then 0 else RuleLossesIn(parser, finalState, n - 1) + RuleLosses(parser[n-1], n - 1 == finalState)
  }

  lemma {:induction false} LossesInSame(parser: seq<seq<Action>>, parser': seq<seq<Action>>, finalState: nat, n: nat)
    requires n <= |parser| == |parser'| && forall p :: 0 <= p < n ==> parser[p] == parser'[p]
    ensures ShiftLossesIn(parser, finalState, n) == ShiftLossesIn(parser', finalState, n)
    ensures RuleLossesIn(parser, finalState, n) == RuleLossesIn(parser', finalState, n)
  {
    if n > 0 {
      LossesInSame(parser, parser', finalState, n - 1);
    }
  }

  /** The two totals are sums over the states, and together count the actions that are suppressed with a report. */
  ghost predicate TotalsOk(parser: seq<seq<Action>>, finalState: nat, n: nat, SRtotal: nat, RRtotal: nat)
    requires n <= |parser|
  {
    && SRtotal == ShiftLossesIn(parser, finalState, n) && RRtotal == RuleLossesIn(parser, finalState, n)
    && SRtotal + RRtotal == ReportedIn(parser, n)
  }

  lemma TotalsSame(parser: seq<seq<Action>>, parser': seq<seq<Action>>, finalState: nat, n: nat, SRtotal: nat, RRtotal: nat)
    requires n <= |parser| == |parser'| && (forall p :: 0 <= p < n ==> parser[p] == parser'[p])
    requires TotalsOk(parser, finalState, n, SRtotal, RRtotal)
    ensures TotalsOk(parser', finalState, n, SRtotal, RRtotal)
  {
    LossesInSame(parser, parser', finalState, n);
    ReportedInSame(parser, parser', n);
  }

  /** Every list is resolved in place. */
  method RemoveConflicts(parser: array<seq<Action>>, finalState: nat) returns (SRtotal: nat, RRtotal: nat)
    requires forall p: nat :: p < parser.Length ==> Fresh(parser[p])
    modifies parser
    ensures forall p: nat :: p < parser.Length ==>
              && Resolved(old(parser[p]), p == finalState, |old(parser[p])|, parser[p])
              && ByPrecedence(old(parser[p]), p == finalState, parser[p])
    ensures TotalsOk(parser[..], finalState, parser.Length, SRtotal, RRtotal)
  {
    hide Fresh, Resolved, Reported, ByPrecedence, ShiftLosses, RuleLosses;
    ghost var raw := parser[..];
    SRtotal, RRtotal := 0, 0;
    var i: nat := 0;
    while i < parser.Length
      invariant i <= parser.Length
      invariant forall p: nat :: i <= p < parser.Length ==> parser[p] == raw[p]
      invariant forall p: nat :: p < i ==>
                  && Resolved(raw[p], p == finalState, |raw[p]|, parser[p])
                  && ByPrecedence(raw[p], p == finalState, parser[p])
      invariant TotalsOk(parser[..], finalState, i, SRtotal, RRtotal)
    {
      ghost var was := parser[..];
      var SRcount, RRcount;
      assert Fresh(raw[i]);
      parser[i], SRcount, RRcount := ResolveList(parser[i], i == finalState);
      TotalsSame(was, parser[..], finalState, i, SRtotal, RRtotal);
      SRtotal := SRtotal + SRcount;
      RRtotal := RRtotal + RRcount;
      i := i + 1;
    }
  }

  /** defred[p] is the sole reduction of state p, or 0. */
  ghost predicate IsDefred(parser: seq<seq<Action>>, defred: seq<nat>)
  {
    && |defred| == |parser|
    && forall p: nat :: p < |parser| ==>
         if defred[p] > 0 then SoleIs(parser[p], defred[p]) else forall r: nat :: !SoleIs(parser[p], r)
  }

  lemma RulesPositive(a: Automaton, prec: Precedence, lookaheads: seq<nat>, rows: seq<set<int>>, p: nat, raw: seq<Action>,
                      final: bool, list: seq<Action>)
    requires IsRawList(a, prec, lookaheads, rows, p, raw) && Resolved(raw, final, |raw|, list)
    ensures forall e :: e in list && e.code == Reduce ==> e.number >= 3 && p < |a.reds| && e.number in a.reds[p]
  {
    hide IsLr0, Fresh, IsAction, Outcome;
    forall e | e in list && e.code == Reduce ensures e.number >= 3 && p < |a.reds| && e.number in a.reds[p] {
      var k: nat :| k < |list| && list[k] == e;
      assert Same(raw[k], list[k]) && raw[k] in raw;
      ActionFacts(a, prec, lookaheads, rows, p, raw[k]);
    }
  }

  /** jay/mkpar.c, defreds. */
  method DefaultReductions(a: Automaton, ghost prec: Precedence, ghost lookaheads: seq<nat>, ghost rows: seq<set<int>>,
                 ghost finalState: nat, ghost raw: seq<seq<Action>>, parser: seq<seq<Action>>) returns (defred: seq<nat>)
    requires IsParser(a, prec, lookaheads, rows, finalState, raw, parser)
    ensures IsDefred(parser, defred)
  {
    hide IsLr0, RawGrammar.Valid, IsRawList, Resolved, SoleIs;
    var d := new nat[|parser|](_ => 0);
    var i: nat := 0;
    while i < |parser|
      invariant i <= |parser|
      invariant forall p: nat :: p < i ==>
                  if d[p] > 0 then SoleIs(parser[p], d[p]) else forall r: nat :: !SoleIs(parser[p], r)
    {
      RulesPositive(a, prec, lookaheads, rows, i, raw[i], i == finalState, parser[i]);
      d[i] := SoleReduction(parser[i]);
      i := i + 1;
    }
    defred := d[..];
  }

  method MakeParser(a: Automaton, prec: Precedence, lookaheads: seq<nat>, LAruleno: seq<nat>, rows: seq<set<int>>)
      returns (finalState: nat, raw: seq<seq<Action>>, parser: seq<seq<Action>>, defred: seq<nat>, SRtotal: nat,
               RRtotal: nat)
    requires PrecedenceOk(a.g, prec) && IsLaTable(a, lookaheads, LAruleno) && |rows| == |LAruleno|
    ensures Trans(a, 0, a.g.ntokens + 1, finalState)
    ensures IsParser(a, prec, lookaheads, rows, finalState, raw, parser) && IsDefred(parser, defred)
    ensures TotalsOk(parser, finalState, |parser|, SRtotal, RRtotal)
  {
    hide IsLr0, RawGrammar.Valid, IsLaTable, IsDefred, PrecedenceOk, Trans, Resolved, ByPrecedence, IsAction, TotalsOk;
    var lists := ParseAll(a, prec, lookaheads, LAruleno, rows);
    raw := lists[..];
    finalState := FindFinalState(a);
    SRtotal, RRtotal := RemoveConflicts(lists, finalState);
    parser := lists[..];
    defred := DefaultReductions(a, prec, lookaheads, rows, finalState, raw, parser);
  }
}
