/** What the generated parser accepts when conflicts were resolved: the resolved action lists (jay/mkpar.c,
    remove_conflicts) read as the table of an LR parser, with and without default reductions. */
module Resolution {
  import opened Grammars
  import opened Automata
  import opened Lookaheads
  import opened LaTable
  import opened GotoMap
  import opened Lalr
  import opened Actions
  import opened Conflicts
  import opened MkPar
  import opened TokenRows
  import opened Output
  import opened Decode
  import opened Trees
  import opened Jay
  import opened Parser
  import Lr1
  import Completeness

  type Lists = seq<seq<Action>>

  // ---------------------------------------------------------------------------------
  // A parser that reads the lists.

  /** The list has an action on token j that stayed; or it is the sole reduction of the list, which counts as the action on
      every token if there are default reductions. */
  ghost predicate Taken(list: seq<Action>, defaults: bool, j: nat, code: Code, number: nat)
  {
    || (exists e :: Live(list, e) && e.symbol == j && e.code == code && e.number == number)
    || (defaults && code == Reduce && SoleIs(list, number))
  }

  ghost predicate Called(lists: Lists, defaults: bool, c: Config, code: Code, number: nat)
  {
    && c.states != [] && c.states[|c.states|-1] < |lists|
    && Taken(lists[c.states[|c.states|-1]], defaults, Token(c.rest), code, number)
  }

  /** The right-hand side of rule r has m symbols, and the stack is deep enough. */
  ghost predicate Pops(g: Grammar, c: Config, r: nat, m: nat)
  {
    3 <= r < |g.rlhs| && r + 1 < |g.rrhs| && g.rrhs[r] + m + 1 == g.rrhs[r+1] && m < |c.states|
  }

  ghost predicate Shifts(lists: Lists, defaults: bool, c: Config, q: nat, c': Config)
  {
    Called(lists, defaults, c, Shift, q) && c.rest != [] && c' == Config(c.states + [q], c.rest[1..])
  }

  ghost predicate Reduces(a: Automaton, lists: Lists, defaults: bool, c: Config, r: nat, m: nat, q: nat, c': Config)
  {
    && Called(lists, defaults, c, Reduce, r) && Pops(a.g, c, r, m)
    && Trans(a, c.states[|c.states| - m - 1], a.g.rlhs[r], q) && c' == Config(c.states[..|c.states| - m] + [q], c.rest)
  }

  /** One turn: the action of the top state on the next token is carried out. */
  ghost predicate Turns(a: Automaton, lists: Lists, defaults: bool, c: Config, c': Config)
  {
    || (exists q: nat :: Shifts(lists, defaults, c, q, c'))
    || exists r: nat, m: nat, q: nat :: Reduces(a, lists, defaults, c, r, m, q, c')
  }

  /** The turn reduces to the goal, alone on the stack, at the end of the input. */
  ghost predicate FinishesBy(a: Automaton, lists: Lists, defaults: bool, c: Config, r: nat, m: nat)
  {
    && Called(lists, defaults, c, Reduce, r) && Pops(a.g, c, r, m)
    && Token(c.rest) == 0 && c.states[|c.states| - m - 1] == 0 && a.g.rlhs[r] == a.g.ntokens + 1
  }

  ghost predicate Finishes(a: Automaton, lists: Lists, defaults: bool, c: Config)
  {
    exists r: nat, m: nat :: FinishesBy(a, lists, defaults, c, r, m)
  }

  /** A run from the first configuration to one that finishes. */
  ghost predicate IsRun(a: Automaton, lists: Lists, defaults: bool, cs: seq<Config>)
  {
    && cs != []
    && if |cs| == 1 then Finishes(a, lists, defaults, cs[0])
       else Turns(a, lists, defaults, cs[0], cs[1]) && IsRun(a, lists, defaults, cs[1..])
  }

  ghost predicate RunOn(a: Automaton, lists: Lists, defaults: bool, c: Config, cs: seq<Config>)
  {
    IsRun(a, lists, defaults, cs) && cs[0] == c
  }

  ghost predicate RunsFrom(a: Automaton, lists: Lists, defaults: bool, c: Config)
  {
    exists cs :: RunOn(a, lists, defaults, c, cs)
  }

  ghost predicate ListsAccept(a: Automaton, lists: Lists, defaults: bool, tokens: seq<nat>)
  {
    RunsFrom(a, lists, defaults, Config([0], tokens))
  }

  lemma TurnRuns(a: Automaton, lists: Lists, defaults: bool, c: Config, c': Config)
    requires Turns(a, lists, defaults, c, c') && RunsFrom(a, lists, defaults, c')
    ensures RunsFrom(a, lists, defaults, c)
  {
    hide Turns, Finishes;
    var cs :| RunOn(a, lists, defaults, c', cs);
    assert ([c] + cs)[1..] == cs;
    assert RunOn(a, lists, defaults, c, [c] + cs);
  }

  lemma GeneratedPrepared(g: Grammar, prec: Precedence, x: Passes)
    requires IsGenerated(g, prec, x)
    ensures IsPrepared(g, prec, x)
  {
    hide IsPrepared, IsTables;
  }

  // ---------------------------------------------------------------------------------
  // The tables do what the lists say, default reductions included.

  lemma SoleStays(list: seq<Action>, r: nat) returns (e: Action)
    requires SoleIs(list, r)
    ensures Live(list, e) && e.code == Reduce && e.number == r
    ensures forall s: nat :: SoleIs(list, s) ==> s == r
  {
    e :| e in list && e.suppressed == 0 && e.symbol != 1;
  }

  /** There is only one action to take. */
  lemma TakenOnce(list: seq<Action>, ntokens: nat, defaults: bool, j: nat, code: Code, number: nat, code': Code,
                  number': nat)
    requires Decided(list, ntokens) && Taken(list, defaults, j, code, number) && Taken(list, defaults, j, code', number')
    ensures code == code' && number == number'
  {
    hide Decided;
    if e :| Live(list, e) && e.symbol == j && e.code == code && e.number == number {
      if e' :| Live(list, e') && e'.symbol == j && e'.code == code' && e'.number == number' {
        LiveIsOne(list, ntokens, e, e');
      }
    } else {
      var e := SoleStays(list, number);
    }
  }

  /** What is taken is a transition or a rule that is complete in the state. */
  lemma TakenFacts(g: Grammar, prec: Precedence, x: Passes, p: nat, defaults: bool, j: nat, code: Code, number: nat)
    requires IsPrepared(g, prec, x) && p < |x.parser| && Taken(x.parser[p], defaults, j, code, number)
    ensures x.a.g == g && p < |x.a.kernels| && (code == Shift ==> Trans(x.a, p, j, number))
    ensures code == Reduce ==> number >= 3 && p < |x.a.reds| && number in x.a.reds[p]
  {
    hide IsPrepared, Trans, SoleIs, Decided;
    PreparedSizes(g, prec, x);
    ReducesPositive(g, prec, x, p);
    if e :| Live(x.parser[p], e) && e.symbol == j && e.code == code && e.number == number {
      if code == Shift { LiveShift(g, prec, x, p, e); }
    } else {
      var e := SoleStays(x.parser[p], number);
    }
  }

  lemma CalledOnce(g: Grammar, prec: Precedence, x: Passes, defaults: bool, c: Config, code: Code, number: nat, code': Code,
                   number': nat)
    requires IsPrepared(g, prec, x)
    requires Called(x.parser, defaults, c, code, number) && Called(x.parser, defaults, c, code', number')
    ensures code == code' && number == number'
  {
    hide IsPrepared, Taken, Decided;
    PreparedSizes(g, prec, x);
    TakenOnce(x.parser[c.states[|c.states|-1]], g.ntokens, defaults, Token(c.rest), code, number, code', number');
  }

  /** There is at most one turn. */
  lemma TurnOnce(g: Grammar, prec: Precedence, x: Passes, defaults: bool, c: Config, d: Config, d': Config)
    requires IsPrepared(g, prec, x) && Turns(x.a, x.parser, defaults, c, d) && Turns(x.a, x.parser, defaults, c, d')
    ensures d == d'
  {
    hide IsPrepared, Called, Trans;
    if q: nat :| Shifts(x.parser, defaults, c, q, d) {
      if q': nat :| Shifts(x.parser, defaults, c, q', d') {
        CalledOnce(g, prec, x, defaults, c, Shift, q, Shift, q');
      } else {
        var r: nat, m: nat, q': nat :| Reduces(x.a, x.parser, defaults, c, r, m, q', d');
        CalledOnce(g, prec, x, defaults, c, Shift, q, Reduce, r);
      }
    } else {
      var r: nat, m: nat, q: nat :| Reduces(x.a, x.parser, defaults, c, r, m, q, d);
      if q': nat :| Shifts(x.parser, defaults, c, q', d') {
        CalledOnce(g, prec, x, defaults, c, Shift, q', Reduce, r);
      } else {
        var r': nat, m': nat, q': nat :| Reduces(x.a, x.parser, defaults, c, r', m', q', d');
        CalledOnce(g, prec, x, defaults, c, Reduce, r, Reduce, r');
        TransUnique(x.a, c.states[|c.states| - m - 1], x.a.g.rlhs[r], q, q');
      }
    }
  }

  /** The move of the tables is the action taken, if there is one. */
  lemma TakenIsMove(g: Grammar, prec: Precedence, x: Passes, p: nat, j: nat, code: Code, number: nat)
    requires IsGenerated(g, prec, x) && p < |x.parser| && j < g.ntokens && Taken(x.parser[p], true, j, code, number)
    ensures SizesOk(x) && j < |x.values|
    ensures MoveOn(x, p, j) == if code == Shift then ShiftTo(number) else ReduceBy(number - 2)
  {
    hide IsLr0, IsTables, IsLookaheads, IsGotos, IsGotoMap, IsLaTable, IsParser, TokenMove, Decided, SoleIs;
    GeneratedSizes(g, prec, x);
    ReducesPositive(g, prec, x, p);
    if e :| Live(x.parser[p], e) && e.symbol == j && e.code == code && e.number == number {
      LiveMove(g, prec, x, p, e);
    } else {
      DefaultRule(x.parser[p], number);
      if e :| Live(x.parser[p], e) && e.symbol == j {
        LiveMove(g, prec, x, p, e);
      } else {
        MoveWithoutAction(x.a, x.gotoMap, x.fromState, x.toState, x.parser, x.defred, x.values, x.vs, x.tables, p, j);
        var e := SoleStays(x.parser[p], number);
      }
    }
  }

  /** Else the parser takes rule 0 or reports an error. */
  lemma SomethingTaken(g: Grammar, prec: Precedence, x: Passes, p: nat, j: nat) returns (code: Code, number: nat)
    requires IsGenerated(g, prec, x) && p < |x.parser| && j < g.ntokens
    ensures SizesOk(x) && j < |x.values|
    ensures Taken(x.parser[p], true, j, code, number) || MoveOn(x, p, j) == ReduceBy(0) || MoveOn(x, p, j).ErrorThen?
  {
    hide IsLr0, IsTables, IsLookaheads, IsGotos, IsGotoMap, IsLaTable, IsParser, TokenMove, Decided, HasReductions, SoleIs;
    GoesOnExactly(g, prec, x, p, j);
    code, number := Reduce, x.defred[p];
    if e :| Live(x.parser[p], e) && e.symbol == j {
      code, number := e.code, e.number;
    }
  }

  /** A reduction of the tables, with the stack spelling trees. */
  lemma ReductionIs(g: Grammar, prec: Precedence, x: Passes, all: seq<int>, c: Config, forest: seq<Tree>, r: nat)
      returns (m: nat, q: nat)
    requires IsGenerated(g, prec, x) && SizesOk(x) && Holds(x, all, c, forest)
    requires c.states[|forest|] < |x.a.reds| && r in x.a.reds[c.states[|forest|]]
    ensures Pops(g, c, r, m) && Trans(x.a, c.states[|c.states| - m - 1], g.rlhs[r], q)
    ensures m <= |forest| && TreeOk(g, Node(r, forest[|forest| - m..]))
    ensures Reduction(x, c, r - 2) ==
              if c.states[|c.states| - m - 1] == 0 && g.rlhs[r] == g.ntokens + 1 && Token(c.rest) == 0 then Accepted
              else Next(Config(c.states[..|c.states| - m] + [q], c.rest))
  {
    hide IsLr0, RawGrammar.Valid, Trans, TreeOk, IsTables, IsLookaheads, IsGotos, IsGotoMap, IsLaTable, IsParser,
      IsDefred, GotoMove, Reduction;
    m, q := ReducePops(x.a, c.states, forest, r);
    var n := |c.states| - m;
    var states, top := c.states[..n], c.states[n..];
    assert states + top == c.states && states[|states|-1] == c.states[n-1];
    RuleDataOf(g, x.yylhs, x.yylen, r - 2);
    LeftBound(g, r);
    if states[|states|-1] == 0 && g.rlhs[r] == g.ntokens + 1 {
      TransUnique(x.a, 0, g.ntokens + 1, q, x.finalState);
      Completeness.ReducesGoal(x, states, top, r - 2, c.rest);
    } else {
      GotoIsMade(g, prec, x, states[|states|-1], g.rlhs[r] - g.ntokens - 1, q);
      Completeness.ReducesTo(x, states, top, r - 2, c.rest, q);
    }
  }

  lemma ReductionTurn(g: Grammar, prec: Precedence, x: Passes, all: seq<int>, c: Config, forest: seq<Tree>, r: nat)
    requires IsGenerated(g, prec, x) && SizesOk(x) && Holds(x, all, c, forest) && Called(x.parser, true, c, Reduce, r)
    ensures StepAgrees(x, c, Step(x, c))
  {
    hide IsGenerated, IsPrepared, Trans, TreeOk, Taken, Reduction, MoveOn, SizesOk;
    GeneratedPrepared(g, prec, x);
    var p, j := c.states[|forest|], Token(c.rest);
    GeneratedGrammar(g, prec, x);
    TokenBound(g, c.rest);
    TakenFacts(g, prec, x, p, true, j, Reduce, r);
    TakenIsMove(g, prec, x, p, j, Reduce, r);
    GeneratedSizes(g, prec, x);
    var m, q := ReductionIs(g, prec, x, all, c, forest, r);
    forall code, s: nat | Called(x.parser, true, c, code, s) ensures code == Reduce && s == r {
      CalledOnce(g, prec, x, true, c, Reduce, r, code, s);
    }
    OneReduction(x.a, x.parser, c, r, m, q);
  }

  /** What the tables do in a turn is what the lists say. */
  ghost predicate StepAgrees(x: Passes, c: Config, turn: Turn)
  {
    && (turn == Accepted <==> Finishes(x.a, x.parser, true, c))
    && (forall d :: turn == Next(d) <==> Turns(x.a, x.parser, true, c, d) && !Finishes(x.a, x.parser, true, c))
  }

  /** If the action is a reduction, the turn is determined. */
  lemma OneReduction(a: Automaton, lists: Lists, c: Config, r: nat, m: nat, q: nat)
    requires Called(lists, true, c, Reduce, r) && Pops(a.g, c, r, m)
    requires Trans(a, c.states[|c.states| - m - 1], a.g.rlhs[r], q)
    requires forall code, s: nat :: Called(lists, true, c, code, s) ==> code == Reduce && s == r
    ensures Finishes(a, lists, true, c) <==>
              Token(c.rest) == 0 && c.states[|c.states| - m - 1] == 0 && a.g.rlhs[r] == a.g.ntokens + 1
    ensures forall d :: Turns(a, lists, true, c, d) <==> d == Config(c.states[..|c.states| - m] + [q], c.rest)
  {
    hide IsLr0, RawGrammar.Valid, Trans, Taken;
    var c' := Config(c.states[..|c.states| - m] + [q], c.rest);
    assert Reduces(a, lists, true, c, r, m, q, c');
    forall s: nat, m': nat, q': nat, d | Reduces(a, lists, true, c, s, m', q', d) ensures d == c' {
      assert Called(lists, true, c, Reduce, s) && s == r && m' == m;
      TransUnique(a, c.states[|c.states| - m - 1], a.g.rlhs[r], q, q');
    }
    if Token(c.rest) == 0 && c.states[|c.states| - m - 1] == 0 && a.g.rlhs[r] == a.g.ntokens + 1 {
      assert FinishesBy(a, lists, true, c, r, m);
    }
  }

  lemma ShiftsAgree(g: Grammar, prec: Precedence, x: Passes, all: seq<int>, c: Config, forest: seq<Tree>, q: nat)
    requires IsGenerated(g, prec, x) && SizesOk(x) && Holds(x, all, c, forest) && Called(x.parser, true, c, Shift, q)
    ensures StepAgrees(x, c, Step(x, c))
  {
    hide IsGenerated, IsPrepared, Trans, TreeOk, Taken, Reduction, MoveOn, SizesOk;
    GeneratedPrepared(g, prec, x);
    var p, j := c.states[|forest|], Token(c.rest);
    GeneratedGrammar(g, prec, x);
    TokenBound(g, c.rest);
    TakenIsMove(g, prec, x, p, j, Shift, q);
    GeneratedSizes(g, prec, x);
    forall code, s: nat | Called(x.parser, true, c, code, s) ensures code == Shift && s == q {
      CalledOnce(g, prec, x, true, c, Shift, q, code, s);
    }
    if c.rest != [] {
      assert Shifts(x.parser, true, c, q, Config(c.states + [q], c.rest[1..]));
    }
  }

  /** A turn of the tables and a turn of the lists come to the same, as long as the stack spells trees. */
  lemma StepIsTurn(g: Grammar, prec: Precedence, x: Passes, all: seq<int>, c: Config, forest: seq<Tree>)
    requires IsGenerated(g, prec, x) && SizesOk(x) && Holds(x, all, c, forest)
    ensures StepAgrees(x, c, Step(x, c))
  {
    hide IsGenerated, Trans, TreeOk, Taken, Reduction, MoveOn, StepAgrees, SizesOk;
    var p, j := c.states[|forest|], Token(c.rest);
    GeneratedGrammar(g, prec, x);
    GeneratedSizes(g, prec, x);
    SpellsWalk(x.a, c.states, forest);
    TokenBound(g, c.rest);
    var code, number := SomethingTaken(g, prec, x, p, j);
    if Taken(x.parser[p], true, j, code, number) {
      if code == Shift {
        ShiftsAgree(g, prec, x, all, c, forest, number);
      } else {
        ReductionTurn(g, prec, x, all, c, forest, number);
      }
    } else {
      RuleZero(g, prec, x, c);
      NothingCalled(g, prec, x, c, p, j);
    }
  }

  lemma NothingCalled(g: Grammar, prec: Precedence, x: Passes, c: Config, p: nat, j: nat)
    requires IsGenerated(g, prec, x) && SizesOk(x) && c.states != [] && p == c.states[|c.states|-1] < |x.parser|
    requires j == Token(c.rest) < g.ntokens && j < |x.values|
    requires MoveOn(x, p, j) == ReduceBy(0) || MoveOn(x, p, j).ErrorThen?
    ensures StepAgrees(x, c, Step(x, c))
  {
    hide IsGenerated, IsPrepared, Trans, TreeOk, Taken, Reduction, MoveOn, SizesOk;
    GeneratedPrepared(g, prec, x);
    RuleZero(g, prec, x, c);
    forall code, number: nat ensures !Called(x.parser, true, c, code, number) {
      if Called(x.parser, true, c, code, number) {
        TakenFacts(g, prec, x, p, true, j, code, number);
        TakenIsMove(g, prec, x, p, j, code, number);
      }
    }
  }

  lemma ReducePopsOf(x: Passes, all: seq<int>, c: Config, forest: seq<Tree>, r: nat) returns (m: nat, q: nat)
    requires Holds(x, all, c, forest) && c.states[|forest|] < |x.a.reds| && r in x.a.reds[c.states[|forest|]]
    ensures Pops(x.a.g, c, r, m) && m <= |forest| && TreeOk(x.a.g, Node(r, forest[|forest| - m..]))
    ensures Trans(x.a, c.states[|c.states| - m - 1], x.a.g.rlhs[r], q)
  {
    hide IsLr0, RawGrammar.Valid, Trans, TreeOk;
    m, q := ReducePops(x.a, c.states, forest, r);
    LeftBound(x.a.g, r);
  }

  lemma ShiftHolds(g: Grammar, prec: Precedence, x: Passes, all: seq<int>, defaults: bool, c: Config, forest: seq<Tree>,
                   q: nat, c': Config)
    requires IsPrepared(g, prec, x) && Holds(x, all, c, forest) && Shifts(x.parser, defaults, c, q, c')
    ensures TurnOk(x, all, Next(c'))
  {
    hide IsPrepared, Trans, Taken, Holds, TurnOk;
    TakenFacts(g, prec, x, c.states[|c.states|-1], defaults, Token(c.rest), Shift, q);
    ShiftTurn(x, all, c, forest, q);
  }

  lemma ReductionHolds(g: Grammar, prec: Precedence, x: Passes, all: seq<int>, defaults: bool, c: Config, forest: seq<Tree>,
                       r: nat, m: nat, q: nat, c': Config)
    requires IsPrepared(g, prec, x) && Holds(x, all, c, forest) && Reduces(x.a, x.parser, defaults, c, r, m, q, c')
    ensures m <= |forest| && TreeOk(g, Node(r, forest[|forest| - m..]))
    ensures Holds(x, all, c', forest[..|forest| - m] + [Node(r, forest[|forest| - m..])])
  {
    hide IsPrepared, Trans, Taken, Holds, TreeOk, Reduction;
    SpellsSizes(x, all, c, forest);
    TakenFacts(g, prec, x, c.states[|c.states|-1], defaults, Token(c.rest), Reduce, r);
    var m', q' := ReducePopsOf(x, all, c, forest, r);
    LeftBound(g, r);
    ReducedHolds(x, all, c, forest, r, m, q);
  }

  /** A turn of the lists keeps what the stack spells. */
  lemma TurnHolds(g: Grammar, prec: Precedence, x: Passes, all: seq<int>, defaults: bool, c: Config, forest: seq<Tree>,
                  c': Config)
      returns (forest': seq<Tree>)
    requires IsPrepared(g, prec, x) && Holds(x, all, c, forest) && Turns(x.a, x.parser, defaults, c, c')
    ensures Holds(x, all, c', forest')
  {
    hide IsPrepared, Holds, Shifts, Reduces;
    if q: nat :| Shifts(x.parser, defaults, c, q, c') {
      ShiftHolds(g, prec, x, all, defaults, c, forest, q, c');
    } else {
      var r: nat, m: nat, q: nat :| Reduces(x.a, x.parser, defaults, c, r, m, q, c');
      ReductionHolds(g, prec, x, all, defaults, c, forest, r, m, q, c');
      return forest[..|forest| - m] + [Node(r, forest[|forest| - m..])];
    }
    forest' :| Holds(x, all, c', forest');
  }

  lemma SpellsSizes(x: Passes, all: seq<int>, c: Config, forest: seq<Tree>)
    requires Holds(x, all, c, forest)
    ensures |c.states| == |forest| + 1
  {
  }

  lemma {:induction false} RunAccepts(g: Grammar, prec: Precedence, x: Passes, all: seq<int>, cs: seq<Config>,
                                      forest: seq<Tree>)
    requires IsGenerated(g, prec, x) && SizesOk(x) && IsRun(x.a, x.parser, true, cs) && Holds(x, all, cs[0], forest)
    ensures exists n: nat :: AcceptsIn(x, cs[0], n)
    decreases |cs|
  {
    hide IsGenerated, IsPrepared, Holds, Step, Finishes, Turns;
    GeneratedPrepared(g, prec, x);
    var c := cs[0];
    StepIsTurn(g, prec, x, all, c, forest);
    if Finishes(x.a, x.parser, true, c) {
      assert AcceptsIn(x, c, 0);
    } else {
      var forest' := TurnHolds(g, prec, x, all, true, c, forest, cs[1]);
      RunAccepts(g, prec, x, all, cs[1..], forest');
      var n: nat :| AcceptsIn(x, cs[1], n);
      var next := n + 1;
      assert Step(x, c) == Next(cs[1]) && AcceptsIn(x, c, next);
    }
  }

  lemma {:induction false} AcceptsRun(g: Grammar, prec: Precedence, x: Passes, all: seq<int>, c: Config,
                                      forest: seq<Tree>, n: nat)
      returns (cs: seq<Config>)
    requires IsGenerated(g, prec, x) && SizesOk(x) && Holds(x, all, c, forest) && AcceptsIn(x, c, n)
    ensures IsRun(x.a, x.parser, true, cs) && cs[0] == c
    decreases n
  {
    hide IsGenerated, IsPrepared, Holds, Step, Finishes, Turns;
    GeneratedPrepared(g, prec, x);
    StepIsTurn(g, prec, x, all, c, forest);
    if Step(x, c) == Accepted {
      cs := [c];
    } else {
      var c' := Step(x, c).config;
      var forest' := TurnHolds(g, prec, x, all, true, c, forest, c');
      var rest := AcceptsRun(g, prec, x, all, c', forest', n - 1);
      cs := [c] + rest;
      assert cs[1..] == rest;
    }
  }

  lemma StartHolds(x: Passes, tokens: seq<nat>)
    requires TokensOk(x.a.g, tokens)
    ensures Holds(x, tokens, Config([0], tokens), [])
  {
    assert Spells(x.a, [0], []);
    assert YieldAll([]) + tokens == tokens;
  }

  /** For every grammar, whatever conflicts were resolved: the tables accept an input silently exactly if the resolved
      lists, read with default reductions, accept it. */
  lemma TablesFollowLists(g: Grammar, prec: Precedence, x: Passes, tokens: seq<nat>)
    requires IsGenerated(g, prec, x) && SizesOk(x) && TokensOk(g, tokens)
    ensures Accepts(x, tokens) <==> ListsAccept(x.a, x.parser, true, tokens)
  {
    hide IsGenerated, Holds, IsRun, AcceptsIn, SizesOk;
    var c := Config([0], tokens);
    GeneratedGrammar(g, prec, x);
    StartHolds(x, tokens);
    if Accepts(x, tokens) {
      var n: nat :| AcceptsIn(x, c, n);
      var cs := AcceptsRun(g, prec, x, tokens, c, [], n);
      assert RunOn(x.a, x.parser, true, c, cs);
    }
    if ListsAccept(x.a, x.parser, true, tokens) {
      var cs :| RunOn(x.a, x.parser, true, c, cs);
      RunAccepts(g, prec, x, tokens, cs, []);
    }
  }
}
