/** The whole generator: from the packed grammar to the tables (jay/main.c, main). */
module Jay {
  import opened Grammars
  import opened Automata
  import opened Lookaheads
  import opened GotoMap
  import opened LaTable
  import opened ReadSets
  import opened Lalr
  import opened Actions
  import opened Conflicts
  import opened MkPar
  import opened Packing
  import opened Room
  import opened TokenRows
  import opened Output
  import opened Decode
  import Lr0

  /** Everything the passes leave behind. */
  datatype Passes = Passes(
    a: Automaton, gotoMap: seq<nat>, fromState: seq<nat>, toState: seq<nat>,
    lookaheads: seq<nat>, LAruleno: seq<nat>, rows: seq<set<int>>,
    finalState: nat, raw: seq<seq<Action>>, parser: seq<seq<Action>>, defred: seq<nat>,
    values: seq<nat>, vs: Vectors, tables: Tables, yylhs: seq<int>, yylen: seq<nat>,
    SRtotal: nat, RRtotal: nat)

  /** What holds of the passes, whether the tables could be packed or not. */
  ghost predicate IsPrepared(g: Grammar, prec: Precedence, x: Passes)
  {
    && x.a.g == g
    && IsGotoMap(x.a, x.gotoMap, x.fromState, x.toState) && IsGotos(x.a, Gotos(x.fromState, x.toState))
    && IsLaTable(x.a, x.lookaheads, x.LAruleno) && |x.rows| == |x.LAruleno|
    && IsLookaheads(x.a, Gotos(x.fromState, x.toState), x.lookaheads, x.rows)
    && Trans(x.a, 0, g.ntokens + 1, x.finalState) && PrecedenceOk(g, prec)
    && IsParser(x.a, prec, x.lookaheads, x.rows, x.finalState, x.raw, x.parser) && IsDefred(x.parser, x.defred)
    && |x.values| == g.ntokens && TokenValues(x.values)
    && IsRuleData(g, x.yylhs, x.yylen)
    && TotalsOk(x.parser, x.finalState, |x.parser|, x.SRtotal, x.RRtotal)
  }

  ghost predicate IsGenerated(g: Grammar, prec: Precedence, x: Passes)
  {
    IsPrepared(g, prec, x) && IsTables(x.a, x.gotoMap, x.fromState, x.toState, x.parser, x.defred, x.values, x.vs, x.tables)
  }

  /** The left-hand side and the length of rule n + 2 of the grammar, which is rule n of the generated parser. Rule 0
      stands for $accept, whose number is -1. */
  ghost predicate IsRuleData(g: Grammar, yylhs: seq<int>, yylen: seq<nat>)
  {
    && |yylhs| == |yylen| == |g.rlhs| - 2 > 0 && yylhs[0] == -1
    && forall n :: 1 <= n < |yylhs| ==> RuleData(g, n, yylhs[n], yylen[n])
  }

  ghost predicate RuleData(g: Grammar, n: nat, lhs: int, len: nat)
  {
    n + 2 < |g.rlhs| && n + 3 < |g.rrhs| && lhs == g.rlhs[n+2] - g.ntokens - 1 && g.rrhs[n+2] + len + 1 == g.rrhs[n+3]
  }

  /** jay/output.c, output_rule_data. */
  method OutputRuleData(g: Grammar, symbolValue: seq<int>) returns (yylhs: seq<int>, yylen: seq<nat>)
    requires SymbolValues(g, symbolValue)
    ensures IsRuleData(g, yylhs, yylen)
  {
    hide RawGrammar.Valid;
    HeaderFacts(g);
    yylhs := [symbolValue[g.ntokens]];
    yylen := [2];
    var i: nat := 3;
    while i < |g.rlhs|
      invariant 3 <= i <= |g.rlhs| && |yylhs| == |yylen| == i - 2 && yylhs[0] == -1
      invariant forall n :: 1 <= n < |yylhs| ==> RuleData(g, n, yylhs[n], yylen[n])
    {
      UserRuleFacts(g, i);
      RuleShape(g, i);
      yylhs := yylhs + [symbolValue[g.rlhs[i]]];
      yylen := yylen + [g.rrhs[i + 1] - g.rrhs[i] - 1];
      i := i + 1;
    }
  }

  lemma HeaderFacts(g: Grammar)
    ensures |g.rlhs| >= 3 && |g.rrhs| == |g.rlhs| + 1 && g.ntokens < g.nsyms
  {
  }

  lemma UserRuleFacts(g: Grammar, r: nat)
    requires 3 <= r < |g.rlhs|
    ensures g.ntokens < g.rlhs[r] < g.nsyms
  {
    assert g.UserRule(r);
  }

  /** From the grammar to the tables; the one way to fail is a table that gets too large, which takes vectors with many
      entries. */
  method Generate(g: Grammar, prec: Precedence, symbolValue: seq<int>) returns (ok: bool, x: Passes)
    requires PrecedenceOk(g, prec) && SymbolValues(g, symbolValue)
    ensures IsPrepared(g, prec, x)
    ensures AreVectors(x.a, x.gotoMap, x.fromState, x.toState, x.parser, x.defred, x.values, x.vs, x.tables.dgoto)
    ensures if ok then IsGenerated(g, prec, x) else Overflows(x.vs)
    ensures Roomy(x.vs) ==> ok
  {
    hide *;
    ValuesOk(g, symbolValue);
    var derives, nullable, a := Lr0.BuildAutomaton(g);
    NullableSeq(g, nullable[..]);
    var gotoMap, fromState, toState, lookaheads, LAruleno, LA := BuildLookaheads(a, derives, nullable[..]);
    var rows := LA[..];
    var finalState, raw, parser, defred, SRtotal, RRtotal;
    finalState, raw, parser, defred, SRtotal, RRtotal := MakeParser(a, prec, lookaheads, LAruleno, rows);
    var values := Values(g.ntokens, symbolValue);
    ParserDecided(a, prec, lookaheads, rows, finalState, raw, parser, defred);
    var yylhs, yylen := OutputRuleData(g, symbolValue);
    var vs, tables;
    ok, vs, tables := OutputActions(a, gotoMap, fromState, toState, parser, defred, values);
    x := Passes(a, gotoMap, fromState, toState, lookaheads, LAruleno, rows, finalState, raw, parser, defred,
                values, vs, tables, yylhs, yylen, SRtotal, RRtotal);
    PreparedIntro(g, prec, x);
    if ok {
      GeneratedIntro(g, prec, x);
    }
  }

  lemma NullableSeq(g: Grammar, nullable: seq<bool>)
    requires |nullable| == g.nsyms && forall s :: 0 <= s < g.nsyms ==> (nullable[s] <==> Nullable(g, s))
    ensures NullableOk(g, nullable)
  {
  }

  lemma GeneratedIntro(g: Grammar, prec: Precedence, x: Passes)
    requires IsPrepared(g, prec, x) && IsTables(x.a, x.gotoMap, x.fromState, x.toState, x.parser, x.defred, x.values, x.vs, x.tables)
    ensures IsGenerated(g, prec, x)
  {
    hide IsPrepared, IsTables;
  }

  lemma PreparedIntro(g: Grammar, prec: Precedence, x: Passes)
    requires x.a.g == g
    requires IsGotoMap(x.a, x.gotoMap, x.fromState, x.toState) && IsGotos(x.a, Gotos(x.fromState, x.toState))
    requires IsLaTable(x.a, x.lookaheads, x.LAruleno) && |x.rows| == |x.LAruleno|
    requires IsLookaheads(x.a, Gotos(x.fromState, x.toState), x.lookaheads, x.rows)
    requires Trans(x.a, 0, g.ntokens + 1, x.finalState) && PrecedenceOk(g, prec)
    requires IsParser(x.a, prec, x.lookaheads, x.rows, x.finalState, x.raw, x.parser) && IsDefred(x.parser, x.defred)
    requires |x.values| == g.ntokens && TokenValues(x.values)
    requires IsRuleData(g, x.yylhs, x.yylen)
    requires TotalsOk(x.parser, x.finalState, |x.parser|, x.SRtotal, x.RRtotal)
    ensures IsPrepared(g, prec, x)
  {
    hide IsLr0, RawGrammar.Valid, PrecedenceOk, IsGotoMap, IsGotos, IsLaTable, IsLookaheads, IsTables, TokenValues,
      IsRuleData, IsDefred,
      IsParser, Trans;
  }

  lemma ParserDecided(a: Automaton, prec: Precedence, lookaheads: seq<nat>, rows: seq<set<int>>, finalState: nat,
                      raw: seq<seq<Action>>, parser: seq<seq<Action>>, defred: seq<nat>)
    requires IsParser(a, prec, lookaheads, rows, finalState, raw, parser) && IsDefred(parser, defred)
    ensures |parser| == |a.kernels| == |defred|
    ensures forall p: nat :: p < |parser| ==> Decided(parser[p], a.g.ntokens)
  {
    hide IsLr0, Decided, IsRawList, Resolved, SoleIs;
    forall p: nat | p < |parser| ensures Decided(parser[p], a.g.ntokens) {
      ResolvedDecided(a, prec, lookaheads, rows, p, p == finalState, raw[p], parser[p]);
    }
  }

  // ---------------------------------------------------------------------------------
  // What the finished tables make the parser do.

  /** The move of the generated parser in state p on token j. */
  ghost function MoveOn(x: Passes, p: nat, j: nat): Move
    requires SizesOk(x) && p < |x.parser| && j < |x.values|
  {
    TokenMove(x.tables, |x.parser|, p, x.values[j])
  }

  ghost predicate SizesOk(x: Passes)
  {
    && 2 * |x.parser| + |x.tables.dgoto| <= |x.tables.base| && |x.tables.yydefred| == |x.parser|
    && |x.tables.table| == |x.tables.check| > x.tables.high
  }

  lemma PreparedSizes(g: Grammar, prec: Precedence, x: Passes)
    requires IsPrepared(g, prec, x)
    ensures x.a.g == g && |x.parser| == |x.raw| == |x.a.kernels| == |x.a.reds|
    ensures forall p: nat :: p < |x.parser| ==> Decided(x.parser[p], g.ntokens)
  {
    hide IsLr0, Decided, IsLookaheads, IsGotos, IsGotoMap, IsLaTable, IsRawList, Resolved, SoleIs;
    ParserDecided(x.a, prec, x.lookaheads, x.rows, x.finalState, x.raw, x.parser, x.defred);
    SameSizes(x.a);
  }

  lemma GeneratedSizes(g: Grammar, prec: Precedence, x: Passes)
    requires IsGenerated(g, prec, x)
    ensures SizesOk(x) && |x.parser| == |x.raw| == |x.a.kernels| == |x.a.reds| && |x.values| == g.ntokens
    ensures forall p: nat :: p < |x.parser| ==> Decided(x.parser[p], g.ntokens)
  {
    hide Decided, VectorsOk, RowsDone, ColumnsDone, Stands, IsLookaheads, IsGotos, IsGotoMap, IsLaTable, IsRawList,
      Resolved, SoleIs;
    PreparedSizes(g, prec, x);
    TableSizes(x.vs, x.tables.base, x.tables.table, x.tables.check, x.tables.high);
  }

  lemma ReducesPositive(g: Grammar, prec: Precedence, x: Passes, p: nat)
    requires IsPrepared(g, prec, x) && p < |x.parser|
    ensures p < |x.raw| && |x.raw| == |x.parser|
    ensures forall f :: f in x.parser[p] && f.code == Reduce ==> f.number >= 3 && p < |x.a.reds| && f.number in x.a.reds[p]
  {
    hide IsLr0, IsTables, IsLookaheads, IsGotos, IsGotoMap, IsLaTable, IsRawList, Resolved, IsDefred;
    RulesPositive(x.a, prec, x.lookaheads, x.rows, p, x.raw[p], p == x.finalState, x.parser[p]);
  }

  /** The parser does what an unsuppressed action says. */
  lemma LiveMove(g: Grammar, prec: Precedence, x: Passes, p: nat, e: Action)
    requires IsGenerated(g, prec, x) && p < |x.parser| && Live(x.parser[p], e)
    ensures SizesOk(x) && e.symbol < |x.values| == g.ntokens && MoveOn(x, p, e.symbol) == MoveOf(e)
  {
    hide IsLr0, IsTables, IsLookaheads, IsGotos, IsGotoMap, IsLaTable, IsParser, IsDefred, TokenMove, Decided;
    GeneratedSizes(g, prec, x);
    ReducesPositive(g, prec, x, p);
    MoveIsAction(x.a, x.gotoMap, x.fromState, x.toState, x.parser, x.defred, x.values, x.vs, x.tables, p, e);
  }

  /** Whatever the parser shifts is a transition, and whatever rule it reduces is complete in the state; rule 0 does
      not exist. */
  lemma MoveIsSound(g: Grammar, prec: Precedence, x: Passes, p: nat, j: nat)
    requires IsGenerated(g, prec, x) && p < |x.parser| && j < g.ntokens
    ensures SizesOk(x) && j < |x.values|
    ensures match MoveOn(x, p, j)
            case ShiftTo(q) => q > 0 && Trans(x.a, p, j, q)
            case ReduceBy(n) => n == 0 || (n >= 1 && p < |x.a.reds| && (n + 2) as int in x.a.reds[p])
            case ErrorThen(_) => true
  {
    hide IsLr0, IsTables, IsLookaheads, IsGotos, IsGotoMap, IsLaTable, IsParser, TokenMove, Trans, Decided;
    GeneratedSizes(g, prec, x);
    ReducesPositive(g, prec, x, p);
    if e :| Live(x.parser[p], e) && e.symbol == j {
      LiveMove(g, prec, x, p, e);
      if e.code == Shift {
        LiveShift(g, prec, x, p, e);
      }
    } else {
      MoveWithoutAction(x.a, x.gotoMap, x.fromState, x.toState, x.parser, x.defred, x.values, x.vs, x.tables, p, j);
      if x.defred[p] > 0 {
        DefaultRule(x.parser[p], x.defred[p]);
      }
    }
  }

  ghost predicate HasAction(list: seq<Action>, j: nat)
  {
    exists e :: Live(list, e) && e.symbol == j
  }

  /** Exactly when the parser does something else than an action that stayed or the default reduction: it goes on with
      rule 0 where all reductions are gone, and else, after a report, with the sum of base and token value, which happens
      to be the number of a rule or not. */
  lemma GoesOnExactly(g: Grammar, prec: Precedence, x: Passes, p: nat, j: nat)
    requires IsGenerated(g, prec, x) && p < |x.parser| && j < g.ntokens
    ensures SizesOk(x) && j < |x.values| && p < |x.defred|
    ensures MoveOn(x, p, j) == ReduceBy(0) <==>
              x.defred[p] == 0 && !HasAction(x.parser[p], j) && !HasReductions(x.parser[p], 0)
    ensures MoveOn(x, p, j).ErrorThen? <==>
              x.defred[p] == 0 && !HasAction(x.parser[p], j) && HasReductions(x.parser[p], 0)
    ensures MoveOn(x, p, j).ErrorThen? ==> MoveOn(x, p, j).rule == x.tables.base[|x.parser| + p] + x.values[j]
  {
    hide IsLr0, IsTables, IsLookaheads, IsGotos, IsGotoMap, IsLaTable, IsParser, TokenMove, Trans, Decided, HasReductions,
      SoleIs;
    GeneratedSizes(g, prec, x);
    ReducesPositive(g, prec, x, p);
    ReductionRow(x.a, x.gotoMap, x.fromState, x.toState, x.parser, x.defred, x.values, x.vs, x.tables, p);
    if e :| Live(x.parser[p], e) && e.symbol == j {
      LiveMove(g, prec, x, p, e);
    } else {
      MoveWithoutAction(x.a, x.gotoMap, x.fromState, x.toState, x.parser, x.defred, x.values, x.vs, x.tables, p, j);
      if x.defred[p] > 0 {
        DefaultRule(x.parser[p], x.defred[p]);
      }
    }
  }

  /** A shift that stayed is a transition. */
  lemma LiveShift(g: Grammar, prec: Precedence, x: Passes, p: nat, e: Action)
    requires IsPrepared(g, prec, x) && p < |x.parser| && Live(x.parser[p], e) && e.code == Shift
    ensures e.number > 0 && Trans(x.a, p, e.symbol, e.number)
  {
    hide IsLr0, IsTables, IsLookaheads, IsGotos, IsGotoMap, IsLaTable, IsDefred, Outcome, Trans, Fresh, ReducedAt;
    assert IsRawList(x.a, prec, x.lookaheads, x.rows, p, x.raw[p]);
    assert Resolved(x.raw[p], p == x.finalState, |x.raw[p]|, x.parser[p]);
    var k: nat :| k < |x.parser[p]| && x.parser[p][k] == e;
    var e0 := x.raw[p][k];
    assert Same(e0, e) && e0 in x.raw[p];
    assert IsAction(x.a, prec, x.lookaheads, x.rows, p, e0);
    ActionFacts(x.a, prec, x.lookaheads, x.rows, p, e0);
    ActionNumber(x.a, prec, p, e0);
  }

  /** The goto of a state on variable k (numbered from the goal). */
  lemma GotoIsMade(g: Grammar, prec: Precedence, x: Passes, p: nat, k: nat, q: nat)
    requires IsGenerated(g, prec, x) && Trans(x.a, p, g.ntokens + 1 + k, q)
    ensures SizesOk(x) && k < |x.tables.dgoto| && GotoMove(x.tables, |x.parser|, p, k) == q
  {
    hide IsLr0, IsTables, IsLookaheads, IsGotos, IsGotoMap, IsLaTable, IsParser, IsDefred, GotoMove, Trans;
    GeneratedSizes(g, prec, x);
    GotoIsTrans(x.a, x.gotoMap, x.fromState, x.toState, x.parser, x.defred, x.values, x.vs, x.tables, p, k, q);
  }

  // ---------------------------------------------------------------------------------

  /** No state has two actions on a token. */
  ghost predicate NoConflicts(x: Passes)
  {
    forall p: nat :: p < |x.raw| ==> NoConflict(x.raw[p])
  }

  ghost predicate NoConflict(list: seq<Action>)
  {
    forall k, l :: 0 <= k < l < |list| ==> list[k].symbol != list[l].symbol
  }

  /** Without a conflict nothing is suppressed. */
  lemma ConflictFreeStays(list: seq<Action>, final: bool, k: nat)
    requires Fresh(list) && NoConflict(list) && k < |list|
    ensures Outcome(list, final, k, |list|) == 0
  {
    var s := Lead(list, k);
    assert s == k;
    assert !Won(list, k, |list|) && !Drew(list, k, |list|);
  }

  /** LALR(1) without conflicts: the parser makes every move that the LR(1) items call for. */
  lemma ActionMoves(g: Grammar, prec: Precedence, x: Passes, p: nat, e: Action)
    requires IsGenerated(g, prec, x) && NoConflicts(x) && p < |x.parser|
    requires IsAction(x.a, prec, x.lookaheads, x.rows, p, e)
    ensures SizesOk(x) && e.symbol < |x.values| && MoveOn(x, p, e.symbol) == MoveOf(e)
  {
    hide IsLr0, IsTables, IsLookaheads, IsGotos, IsGotoMap, IsLaTable, IsDefred, Outcome, Trans, IsAction, Fresh,
      NoConflict, TokenMove;
    assert IsRawList(x.a, prec, x.lookaheads, x.rows, p, x.raw[p]);
    assert Resolved(x.raw[p], p == x.finalState, |x.raw[p]|, x.parser[p]);
    assert e in x.raw[p];
    var k: nat :| k < |x.raw[p]| && x.raw[p][k] == e;
    ConflictFreeStays(x.raw[p], p == x.finalState, k);
    ActionFacts(x.a, prec, x.lookaheads, x.rows, p, e);
    SameAction(e, x.parser[p][k]);
    assert Live(x.parser[p], e);
    LiveMove(g, prec, x, p, e);
  }

  lemma SameAction(e: Action, e': Action)
    requires Same(e, e') && e.suppressed == 0 && e'.suppressed == 0
    ensures e == e'
  {
  }

  /** No rule has a precedence. */
  ghost predicate NoPrecedences(prec: Precedence)
  {
    forall r :: 0 <= r < |prec.rprec| ==> prec.rprec[r] <= 0
  }

  lemma {:induction false} ReportedZero(list: seq<Action>, k: nat)
    requires Reported(list) == 0 && k < |list|
    ensures list[k].suppressed != 1
  {
    if k < |list| - 1 {
      ReportedZero(list[..|list|-1], k);
    }
  }

  lemma {:induction false} ReportedInZero(parser: seq<seq<Action>>, n: nat, p: nat)
    requires n <= |parser| && ReportedIn(parser, n) == 0 && p < n
    ensures Reported(parser[p]) == 0
  {
    if p < n - 1 {
      ReportedInZero(parser, n - 1, p);
    }
  }

  /** Without precedences the second action on a token is always reported. */
  lemma SecondIsReported(list: seq<Action>, final: bool, k: nat, l: nat)
    requires Fresh(list) && k < l < |list| && list[k].symbol == list[l].symbol
    requires forall e :: e in list && e.code == Reduce ==> e.prec <= 0
    ensures Outcome(list, final, l, |list|) == 1
  {
    LeadIsFirst(list, k, l);
    assert list[l] in list && list[l].code == Reduce;
  }

  /** If jay reports no conflict for a grammar whose rules have no precedences, there is none. */
  lemma SilenceIsConsent(g: Grammar, prec: Precedence, x: Passes)
    requires IsGenerated(g, prec, x) && NoPrecedences(prec) && x.SRtotal + x.RRtotal == 0
    ensures NoConflicts(x)
  {
    hide IsLr0, IsTables, IsLookaheads, IsGotos, IsGotoMap, IsLaTable, IsDefred, Outcome, Trans, IsAction, Fresh, TokenMove;
    forall p: nat | p < |x.raw| ensures NoConflict(x.raw[p]) {
      var list := x.raw[p];
      assert IsRawList(x.a, prec, x.lookaheads, x.rows, p, list);
      assert Resolved(list, p == x.finalState, |list|, x.parser[p]);
      ReportedInZero(x.parser, |x.parser|, p);
      forall e | e in list && e.code == Reduce ensures e.prec <= 0 {
        ReducePrecedence(x.a, prec, x.lookaheads, x.rows, p, e);
      }
      forall k, l | 0 <= k < l < |list| ensures list[k].symbol != list[l].symbol {
        ReportedZero(x.parser[p], l);
        if list[k].symbol == list[l].symbol {
          SecondIsReported(list, p == x.finalState, k, l);
        }
      }
    }
  }

  lemma ReducePrecedence(a: Automaton, prec: Precedence, lookaheads: seq<nat>, rows: seq<set<int>>, p: nat, e: Action)
    requires IsAction(a, prec, lookaheads, rows, p, e) && e.code == Reduce && NoPrecedences(prec)
    ensures e.prec <= 0
  {
    hide IsLr0, Trans;
    var m: nat :| ReducedAt(a, prec, lookaheads, rows, p, m, e);
  }
}
