/** Where default reductions change what the resolved lists say (jay/mkpar.c, remove_conflicts and sole_reduction): exactly
    on the tokens of which a precedence took every action. */
module Ties {
  import opened Grammars
  import opened Automata
  import opened Lr1
  import opened Lookaheads
  import opened LaTable
  import opened GotoMap
  import opened Lalr
  import opened Actions
  import opened MkPar
  import opened Output
  import opened Decode
  import opened Trees
  import opened Jay
  import opened Parser
  import opened Resolution
  import Conflicts
  import TokenRows
  import Completeness

  // ---------------------------------------------------------------------------------
  // Which tokens can come next.

  /** Token j can follow the word: some item of its LR(1) state goes on with it. */
  ghost predicate Expects(g: Grammar, word: seq<int>, j: int)
  {
    exists i: nat, t: int :: Item(g, true, word, i, t) && FirstOrAfter(g, i, t, j)
  }

  /** So does one from which the dot came over the last symbol. */
  ghost predicate ExpectsBehind(g: Grammar, word: seq<int>, j: int)
  {
    word != [] && exists i: nat, t: int :: BehindAt(g, word, i, t, j)
  }

  ghost predicate BehindAt(g: Grammar, word: seq<int>, i: nat, t: int, j: int)
    requires word != []
  {
    i < |g.ritem| && g.ritem[i] == Last(word) > 0 && Item(g, true, Front(word), i, t) && FirstOrAfter(g, i + 1, t, j)
  }

  /** What follows an item added by the closure follows the item that it was added for. */
  lemma AddedFollows(g: Grammar, i: nat, b: int, r: nat, t: int, j: nat)
    requires AddsRule(g, true, i, b, r, t) && r < |g.rrhs| && FirstOrAfter(g, g.rrhs[r], t, j)
    ensures FirstOrAfter(g, i, b, j)
  {
    hide First, NullableSuffix, RawGrammar.Valid;
    if First(g, g.rrhs[r], j) {
      FirstExpand(g, i, r, j);
    } else {
      EmptyRule(g, r);
      if First(g, i + 1, j) {
        FirstSkip(g, i, j);
      } else {
        NullableMore(g, i);
      }
    }
  }

  lemma {:induction false} ExpectedBehind(g: Grammar, n: nat, word: seq<int>, i: nat, t: int, j: nat)
    requires ItemAt(g, true, n, word, i, t) && FirstOrAfter(g, i, t, j) && word != []
    ensures ExpectsBehind(g, word, j)
    decreases n
  {
    hide FirstOrAfter;
    if Shifted(g, true, n, word, i, t) {
      var k: nat := i - 1;
      assert ItemAt(g, true, n - 1, Front(word), k, t) && k + 1 == i;
      assert BehindAt(g, word, k, t, j);
    } else {
      var k: nat, b: int :| ItemAt(g, true, n - 1, word, k, b) && Adds(g, true, k, b, i, t);
      var r: nat :| AddsRule(g, true, k, b, r, t) && i == g.rrhs[r];
      AddedFollows(g, k, b, r, t, j);
      ExpectedBehind(g, n - 1, word, k, b, j);
    }
  }

  /** Where the left-hand side of a rule can be followed by a token, the completed rule has it as its lookahead. */
  lemma ReduceExpected(g: Grammar, word: seq<int>, r: nat, j: nat)
    requires 3 <= r && g.IsRule(r) && r < |g.rrhs| && Expects(g, word + [g.rlhs[r]], j)
    ensures Item(g, true, word + RhsOf(g, r), EndItem(g, r), j) && Expects(g, word + RhsOf(g, r), j)
  {
    hide ItemAt, RawGrammar.Valid, First, NullableSuffix;
    var w := word + [g.rlhs[r]];
    assert Front(w) == word;
    var i: nat, t: int :| Item(g, true, w, i, t) && FirstOrAfter(g, i, t, j);
    var n: nat :| ItemAt(g, true, n, w, i, t);
    ExpectedBehind(g, n, w, i, t, j);
    var k: nat, b: int :| BehindAt(g, w, k, b, j);
    LeftBound(g, r);
    ItemClose(g, true, word, k, b, r, j);
    EndOfRhs(g, r);
    ItemWalk(g, true, word, r, |RhsOf(g, r)|, j);
  }

  lemma EndOfRhs(g: Grammar, r: nat)
    requires 3 <= r && g.IsRule(r)
    ensures r < |g.rrhs| && g.rrhs[r] + |RhsOf(g, r)| == EndItem(g, r) && InRule(g, r, EndItem(g, r))
    ensures Rhs(g, r, |RhsOf(g, r)|) == RhsOf(g, r) && NullableSuffix(g, EndItem(g, r))
  {
    RuleShape(g, r);
  }

  /** A token that can be shifted is expected. */
  lemma ShiftExpected(a: Automaton, word: seq<int>, p: nat, j: nat, q: nat)
    requires Walk(a, 0, word, p) && Trans(a, p, j, q) && !a.g.IsVar(j)
    ensures Expects(a.g, word, j)
  {
    hide Walk;
    var i := KernelSome(a, p, j, q);
    KernelBack(a, p, j, q, i);
    SomeLookahead(a, true, word, p, i - 1);
    var t :| Item(a.g, true, word, i - 1, t);
    FirstToken(a.g, i - 1);
  }

  lemma KernelSome(a: Automaton, p: nat, symbol: nat, q: nat) returns (i: nat)
    requires Trans(a, p, symbol, q)
    ensures q < |a.kernels| && i in a.kernels[q]
  {
    assert ShiftsOk(a, p);
    assert KernelOk(a.g, a.kernels[q]);
    i := a.kernels[q][0];
  }

  /** The end of the input is expected behind the goal. */
  lemma GoalExpected(g: Grammar)
    ensures Expects(g, [] + [g.ntokens + 1], 0)
  {
    Completeness.GoalItems(g);
    ItemStart(g, true);
    ItemShift(g, true, [], 1, 0);
    FirstToken(g, 2);
  }

  // ---------------------------------------------------------------------------------
  // What a run with default reductions shows.

  ghost function WordOf(x: Passes, forest: seq<Tree>): seq<int>
  {
    Roots(x.a.g, forest)
  }

  /** On the way to a shift of the next token, or to the end, each reduction is one that the lookaheads call for. */
  ghost predicate CalledFor(x: Passes, c: Config, r: nat)
  {
    && c.states != [] && c.states[|c.states|-1] < |x.raw|
    && exists e :: e in x.raw[c.states[|c.states|-1]] && e.code == Reduce && e.number == r && e.symbol == Token(c.rest)
  }

  /** What is below the reduced symbols, and the symbols themselves. */
  lemma ReducedWord(x: Passes, all: seq<int>, c: Config, forest: seq<Tree>, r: nat, m: nat)
    requires Holds(x, all, c, forest) && m <= |forest| && 3 <= r && x.a.g.IsRule(r)
    requires TreeOk(x.a.g, Node(r, forest[|forest| - m..]))
    ensures WordOf(x, forest) == WordOf(x, forest[..|forest| - m]) + RhsOf(x.a.g, r)
  {
    var g, n := x.a.g, |forest| - m;
    assert forest == forest[..n] + forest[n..];
    assert Roots(g, forest[n..]) == RhsOf(g, r);
    assert Roots(g, forest) == Roots(g, forest[..n]) + Roots(g, forest[n..]);
  }

  lemma ReductionExpected(g: Grammar, prec: Precedence, x: Passes, all: seq<int>, c: Config, forest: seq<Tree>, r: nat,
                          m: nat)
    requires IsPrepared(g, prec, x) && Holds(x, all, c, forest) && Called(x.parser, true, c, Reduce, r)
    requires Pops(g, c, r, m) && m <= |forest| && TreeOk(g, Node(r, forest[|forest| - m..]))
    requires Expects(g, WordOf(x, forest[..|forest| - m]) + [g.rlhs[r]], Token(c.rest))
    ensures Expects(g, WordOf(x, forest), Token(c.rest)) && CalledFor(x, c, r)
  {
    hide IsPrepared, Trans, Taken, Holds, TreeOk, Expects, Item, Walk, WordOf, IsAction;
    var p, j := c.states[|c.states|-1], Token(c.rest);
    PreparedSizes(g, prec, x);
    StackFacts(x, all, c, forest);
    ReducedWord(x, all, c, forest, r, m);
    ReduceExpected(g, WordOf(x, forest[..|forest| - m]), r, j);
    TakenFacts(g, prec, x, p, true, j, Reduce, r);
    var e := Completeness.MergedAction(g, prec, x, true, WordOf(x, forest), p, r, j);
    ActionInRaw(g, prec, x, p, e);
  }

  lemma StackFacts(x: Passes, all: seq<int>, c: Config, forest: seq<Tree>)
    requires Holds(x, all, c, forest)
    ensures |c.states| == |forest| + 1 && Walk(x.a, 0, WordOf(x, forest), c.states[|c.states|-1])
    ensures Token(c.rest) < x.a.g.ntokens
  {
    SpellsWalk(x.a, c.states, forest);
    TokenBound(x.a.g, c.rest);
  }

  lemma ActionInRaw(g: Grammar, prec: Precedence, x: Passes, p: nat, e: Action)
    requires IsPrepared(g, prec, x) && p < |x.a.kernels| && IsAction(x.a, prec, x.lookaheads, x.rows, p, e)
    ensures p < |x.raw| == |x.parser| && e in x.raw[p]
  {
    hide IsLr0, IsTables, IsLookaheads, IsGotos, IsGotoMap, IsLaTable, IsDefred, Trans, IsAction;
    assert IsRawList(x.a, prec, x.lookaheads, x.rows, p, x.raw[p]);
  }

  ghost predicate AllCalledFor(x: Passes, c: Config)
  {
    forall r: nat :: Called(x.parser, true, c, Reduce, r) ==> CalledFor(x, c, r)
  }

  lemma OneForAll(g: Grammar, prec: Precedence, x: Passes, c: Config, code: Code, number: nat)
    requires IsPrepared(g, prec, x) && Token(c.rest) < g.ntokens && Called(x.parser, true, c, code, number)
    requires code == Reduce ==> CalledFor(x, c, number)
    ensures AllCalledFor(x, c)
  {
    hide IsPrepared, Called, CalledFor;
    forall r: nat | Called(x.parser, true, c, Reduce, r) ensures CalledFor(x, c, r) {
      CalledOnce(g, prec, x, true, c, code, number, Reduce, r);
    }
  }

  lemma FinishExpected(g: Grammar, prec: Precedence, x: Passes, all: seq<int>, c: Config, forest: seq<Tree>, r: nat, m: nat)
    requires IsPrepared(g, prec, x) && Holds(x, all, c, forest) && FinishesBy(x.a, x.parser, true, c, r, m)
    ensures Expects(g, WordOf(x, forest), Token(c.rest)) && AllCalledFor(x, c)
  {
    hide IsPrepared, Trans, Taken, TreeOk, Expects, Item, WordOf, AllCalledFor;
    PreparedSizes(g, prec, x);
    StackFacts(x, all, c, forest);
    TakenFacts(g, prec, x, c.states[|c.states|-1], true, Token(c.rest), Reduce, r);
    var m', q := ReducePopsOf(x, all, c, forest, r);
    BottomIsZero(x.a, c.states, forest, |forest| - m);
    NoWord(x, forest);
    GoalExpected(g);
    ReductionExpected(g, prec, x, all, c, forest, r, m);
    OneForAll(g, prec, x, c, Reduce, r);
  }

  lemma NoWord(x: Passes, forest: seq<Tree>)
    ensures WordOf(x, forest[..0]) == []
  {
  }

  lemma ShiftRun(g: Grammar, prec: Precedence, x: Passes, all: seq<int>, c: Config, forest: seq<Tree>, q: nat, c': Config)
    requires IsPrepared(g, prec, x) && Holds(x, all, c, forest) && Shifts(x.parser, true, c, q, c')
    ensures Expects(g, WordOf(x, forest), Token(c.rest)) && AllCalledFor(x, c)
  {
    hide IsPrepared, Trans, Taken, Holds, Expects, WordOf, AllCalledFor, Walk;
    PreparedSizes(g, prec, x);
    StackFacts(x, all, c, forest);
    var p, j := c.states[|c.states|-1], Token(c.rest);
    TakenFacts(g, prec, x, p, true, j, Shift, q);
    ShiftExpected(x.a, WordOf(x, forest), p, j, q);
    OneForAll(g, prec, x, c, Shift, q);
  }

  lemma ReductionRun(g: Grammar, prec: Precedence, x: Passes, all: seq<int>, c: Config, forest: seq<Tree>, r: nat, m: nat,
                     q: nat, c': Config)
    requires IsPrepared(g, prec, x) && Holds(x, all, c, forest) && Reduces(x.a, x.parser, true, c, r, m, q, c')
    requires m <= |forest| && TreeOk(g, Node(r, forest[|forest| - m..]))
    requires Expects(g, WordOf(x, forest[..|forest| - m] + [Node(r, forest[|forest| - m..])]), Token(c'.rest))
    ensures Expects(g, WordOf(x, forest), Token(c.rest)) && AllCalledFor(x, c)
  {
    hide IsPrepared, Trans, Taken, Holds, Expects, WordOf, AllCalledFor, TreeOk;
    PreparedSizes(g, prec, x);
    StackFacts(x, all, c, forest);
    WordPush(x, forest[..|forest| - m], Node(r, forest[|forest| - m..]));
    LeftBound(g, r);
    ReductionExpected(g, prec, x, all, c, forest, r, m);
    OneForAll(g, prec, x, c, Reduce, r);
  }

  lemma WordPush(x: Passes, forest: seq<Tree>, t: Tree)
    ensures WordOf(x, forest + [t]) == WordOf(x, forest) + [Root(x.a.g, t)]
  {
  }

  /** In a run that gets to the end, every configuration expects its next token, and every reduction that is taken, by
      default or not, is called for. */
  lemma {:induction false} RunExpected(g: Grammar, prec: Precedence, x: Passes, all: seq<int>, cs: seq<Config>,
                                       forest: seq<Tree>)
    requires IsPrepared(g, prec, x) && IsRun(x.a, x.parser, true, cs) && Holds(x, all, cs[0], forest)
    ensures Expects(g, WordOf(x, forest), Token(cs[0].rest)) && AllCalledFor(x, cs[0])
    decreases |cs|
  {
    hide IsPrepared, Holds, AllCalledFor, Expects, WordOf, Shifts, Reduces, FinishesBy, TreeOk;
    var c := cs[0];
    if |cs| == 1 {
      var r: nat, m: nat :| FinishesBy(x.a, x.parser, true, c, r, m);
      FinishExpected(g, prec, x, all, c, forest, r, m);
    } else if q: nat :| Shifts(x.parser, true, c, q, cs[1]) {
      ShiftRun(g, prec, x, all, c, forest, q, cs[1]);
    } else {
      var r: nat, m: nat, q: nat :| Reduces(x.a, x.parser, true, c, r, m, q, cs[1]);
      ReductionHolds(g, prec, x, all, true, c, forest, r, m, q, cs[1]);
      RunExpected(g, prec, x, all, cs[1..], forest[..|forest| - m] + [Node(r, forest[|forest| - m..])]);
      ReductionRun(g, prec, x, all, c, forest, r, m, q, cs[1]);
    }
  }

  // ---------------------------------------------------------------------------------
  // The runs without default reductions.

  /** An action is called for in state p on token j, but none has stayed. */
  ghost predicate Tied(x: Passes, p: nat, j: nat)
  {
    p < |x.raw| && p < |x.parser| && LostAll(x.raw[p], x.parser[p], j)
  }

  ghost predicate LostAll(raw: seq<Action>, list: seq<Action>, j: nat)
  {
    (exists e :: e in raw && e.symbol == j) && forall e :: TokenRows.Live(list, e) ==> e.symbol != j
  }

  ghost predicate TiedAt(x: Passes, c: Config)
  {
    c.states != [] && Tied(x, c.states[|c.states|-1], Token(c.rest))
  }

  /** An action that is called for, on a token that kept one, is the one that the lists have without defaults. */
  lemma CalledStrictly(g: Grammar, prec: Precedence, x: Passes, c: Config, code: Code, number: nat)
    requires IsPrepared(g, prec, x) && Token(c.rest) < g.ntokens && AllCalledFor(x, c) && !TiedAt(x, c)
    requires Called(x.parser, true, c, code, number)
    ensures Called(x.parser, false, c, code, number)
  {
    hide IsPrepared, Conflicts.Resolved, SoleIs;
    var p, j := c.states[|c.states|-1], Token(c.rest);
    if !Taken(x.parser[p], false, j, code, number) {
      assert CalledFor(x, c, number);
      var e :| TokenRows.Live(x.parser[p], e) && e.symbol == j;
      assert Called(x.parser, true, c, e.code, e.number);
      CalledOnce(g, prec, x, true, c, e.code, e.number, code, number);
    }
  }

  /** A turn without defaults is one with defaults on a token that kept an action. */
  lemma TurnWithout(x: Passes, c: Config)
    ensures Finishes(x.a, x.parser, false, c) ==> Finishes(x.a, x.parser, true, c) && !TiedAt(x, c)
    ensures forall d :: Turns(x.a, x.parser, false, c, d) ==> Turns(x.a, x.parser, true, c, d) && !TiedAt(x, c)
  {
    hide Trans;
    if r: nat, m: nat :| FinishesBy(x.a, x.parser, false, c, r, m) {
      assert FinishesBy(x.a, x.parser, true, c, r, m);
    }
    forall d | Turns(x.a, x.parser, false, c, d) ensures Turns(x.a, x.parser, true, c, d) && !TiedAt(x, c) {
      if q: nat :| Shifts(x.parser, false, c, q, d) {
        assert Shifts(x.parser, true, c, q, d);
      } else {
        var r: nat, m: nat, q: nat :| Reduces(x.a, x.parser, false, c, r, m, q, d);
        assert Reduces(x.a, x.parser, true, c, r, m, q, d);
      }
    }
  }

  /** And the other way round, if the reductions taken are called for. */
  lemma TurnWith(g: Grammar, prec: Precedence, x: Passes, c: Config)
    requires IsPrepared(g, prec, x) && Token(c.rest) < g.ntokens && AllCalledFor(x, c) && !TiedAt(x, c)
    ensures Finishes(x.a, x.parser, true, c) ==> Finishes(x.a, x.parser, false, c)
    ensures forall d :: Turns(x.a, x.parser, true, c, d) ==> Turns(x.a, x.parser, false, c, d)
  {
    hide IsPrepared, Trans, AllCalledFor, TiedAt, Called;
    forall code, number | Called(x.parser, true, c, code, number) ensures Called(x.parser, false, c, code, number) {
      CalledStrictly(g, prec, x, c, code, number);
    }
    if r: nat, m: nat :| FinishesBy(x.a, x.parser, true, c, r, m) {
      assert FinishesBy(x.a, x.parser, false, c, r, m);
    }
    forall d | Turns(x.a, x.parser, true, c, d) ensures Turns(x.a, x.parser, false, c, d) {
      if q: nat :| Shifts(x.parser, true, c, q, d) {
        assert Shifts(x.parser, false, c, q, d);
      } else {
        var r: nat, m: nat, q: nat :| Reduces(x.a, x.parser, true, c, r, m, q, d);
        assert Reduces(x.a, x.parser, false, c, r, m, q, d);
      }
    }
  }

  /** Exactly when an accepting run does without default reductions: when none of its turns is on a token that lost all its
      actions. */
  lemma {:induction false} RunIsStrict(g: Grammar, prec: Precedence, x: Passes, all: seq<int>, cs: seq<Config>,
                                       forest: seq<Tree>)
    requires IsPrepared(g, prec, x) && cs != [] && Holds(x, all, cs[0], forest)
    ensures IsRun(x.a, x.parser, false, cs) <==>
              IsRun(x.a, x.parser, true, cs) && forall k :: 0 <= k < |cs| ==> !TiedAt(x, cs[k])
    decreases |cs|
  {
    hide IsPrepared, Holds, AllCalledFor, Expects, WordOf, Turns, Finishes, TiedAt;
    var c := cs[0];
    StackFacts(x, all, c, forest);
    PreparedSizes(g, prec, x);
    TurnWithout(x, c);
    if IsRun(x.a, x.parser, true, cs) && !TiedAt(x, c) {
      RunExpected(g, prec, x, all, cs, forest);
      TurnWith(g, prec, x, c);
    }
    if |cs| > 1 && Turns(x.a, x.parser, true, c, cs[1]) {
      var forest' := TurnHolds(g, prec, x, all, true, c, forest, cs[1]);
      RunIsStrict(g, prec, x, all, cs[1..], forest');
      TiedRest(x, cs);
    }
  }

  lemma TiedRest(x: Passes, cs: seq<Config>)
    requires |cs| > 1
    ensures (forall k :: 0 <= k < |cs| ==> !TiedAt(x, cs[k])) <==>
              !TiedAt(x, cs[0]) && forall k :: 0 <= k < |cs[1..]| ==> !TiedAt(x, cs[1..][k])
  {
    hide TiedAt;
    if forall k :: 0 <= k < |cs[1..]| ==> !TiedAt(x, cs[1..][k]) {
      forall k | 1 <= k < |cs| ensures !TiedAt(x, cs[k]) {
        assert cs[1..][k-1] == cs[k];
      }
    }
  }

  ghost predicate UntiedRun(x: Passes, tokens: seq<nat>, cs: seq<Config>)
  {
    RunOn(x.a, x.parser, true, Config([0], tokens), cs) && forall k :: 0 <= k < |cs| ==> !TiedAt(x, cs[k])
  }

  /** What the resolved lists accept by themselves: the inputs that they accept with default reductions, without meeting a
      token that lost all its actions. */
  lemma ListsAcceptExactly(g: Grammar, prec: Precedence, x: Passes, tokens: seq<nat>)
    requires IsPrepared(g, prec, x) && TokensOk(g, tokens)
    ensures ListsAccept(x.a, x.parser, false, tokens) <==> exists cs :: UntiedRun(x, tokens, cs)
  {
    hide IsPrepared, Holds, Finishes, Turns, TiedAt;
    PreparedSizes(g, prec, x);
    StartHolds(x, tokens);
    if ListsAccept(x.a, x.parser, false, tokens) {
      var cs :| RunOn(x.a, x.parser, false, Config([0], tokens), cs);
      RunIsStrict(g, prec, x, tokens, cs, []);
      assert UntiedRun(x, tokens, cs);
    }
    if cs :| UntiedRun(x, tokens, cs) {
      RunIsStrict(g, prec, x, tokens, cs, []);
      assert RunOn(x.a, x.parser, false, Config([0], tokens), cs);
    }
  }

  /** No token of any state has lost all its actions. */
  ghost predicate NoTies(x: Passes)
  {
    forall p: nat, j: nat :: !Tied(x, p, j)
  }

  /** If there are no ties, the generated parser accepts exactly what the resolved lists say, however the conflicts were
      resolved. */
  lemma TablesAcceptLists(g: Grammar, prec: Precedence, x: Passes, tokens: seq<nat>)
    requires IsGenerated(g, prec, x) && SizesOk(x) && TokensOk(g, tokens) && NoTies(x)
    ensures Accepts(x, tokens) <==> ListsAccept(x.a, x.parser, false, tokens)
  {
    hide IsGenerated, IsPrepared, IsRun, Tied, Accepts, SizesOk;
    GeneratedPrepared(g, prec, x);
    TablesFollowLists(g, prec, x, tokens);
    ListsAcceptExactly(g, prec, x, tokens);
    if ListsAccept(x.a, x.parser, true, tokens) {
      var cs :| RunOn(x.a, x.parser, true, Config([0], tokens), cs);
      assert UntiedRun(x, tokens, cs);
    }
  }

  /** Entry s is the shift of token j, drew against a reduction and lost to none. */
  ghost predicate DrawnAt(raw: seq<Action>, final: bool, j: nat, s: nat)
  {
    s < |raw| && raw[s].symbol == j && s == Conflicts.Lead(raw, s) && Conflicts.Stalemate(raw, final, s)
  }

  ghost predicate Draws(x: Passes, p: nat, j: nat, s: nat)
  {
    p < |x.raw| && DrawnAt(x.raw[p], p == x.finalState, j, s)
  }

  lemma OutcomeIs(raw: seq<Action>, final: bool, list: seq<Action>, k: nat)
    requires Conflicts.Resolved(raw, final, |raw|, list) && k < |raw|
    ensures k < |list| && list[k].symbol == raw[k].symbol && list[k].suppressed == Conflicts.Outcome(raw, final, k, |raw|)
  {
    hide Conflicts.Outcome;
    assert Conflicts.Same(raw[k], list[k]);
  }

  lemma LostAllDrawn(raw: seq<Action>, final: bool, list: seq<Action>, j: nat)
    requires Conflicts.Fresh(raw) && Conflicts.Resolved(raw, final, |raw|, list) && LostAll(raw, list, j)
    ensures exists s: nat :: DrawnAt(raw, final, j, s)
  {
    hide Conflicts.Fresh, Conflicts.Outcome, Conflicts.Stalemate, Conflicts.Resolved;
    var k: nat :| k < |raw| && raw[k].symbol == j;
    forall l: nat | l < |raw| && raw[l].symbol == j ensures Conflicts.Outcome(raw, final, l, |raw|) != 0 {
      OutcomeIs(raw, final, list, l);
    }
    Conflicts.NoneStays(raw, final, k);
    Conflicts.SameLead(raw, k, Conflicts.Lead(raw, k));
    assert DrawnAt(raw, final, j, Conflicts.Lead(raw, k));
  }

  lemma DrawnLostAll(raw: seq<Action>, final: bool, list: seq<Action>, j: nat, s: nat)
    requires Conflicts.Fresh(raw) && Conflicts.Resolved(raw, final, |raw|, list) && DrawnAt(raw, final, j, s)
    ensures LostAll(raw, list, j)
  {
    hide Conflicts.Fresh, Conflicts.Outcome, Conflicts.Stalemate, Conflicts.Resolved;
    Conflicts.NoneStays(raw, final, s);
    assert raw[s] in raw;
    ListSize(raw, final, list);
    forall e | TokenRows.Live(list, e) ensures e.symbol != j {
      var l: nat :| l < |list| && list[l] == e;
      OutcomeIs(raw, final, list, l);
    }
  }

  lemma ListSize(raw: seq<Action>, final: bool, list: seq<Action>)
    requires Conflicts.Resolved(raw, final, |raw|, list)
    ensures |list| == |raw|
  {
  }

  /** A token loses all its actions exactly if its shift has the precedence of a reduction, without associativity, and no
      reduction has a higher one. */
  lemma TiedExactly(g: Grammar, prec: Precedence, x: Passes, p: nat, j: nat)
    requires IsPrepared(g, prec, x)
    ensures Tied(x, p, j) <==> exists s: nat :: Draws(x, p, j, s)
  {
    hide IsLr0, IsLookaheads, IsGotos, IsGotoMap, IsLaTable, IsDefred, IsAction, Trans, Conflicts.Fresh, Conflicts.Resolved,
      DrawnAt, LostAll;
    PreparedSizes(g, prec, x);
    if p < |x.raw| {
      var raw, final, list := x.raw[p], p == x.finalState, x.parser[p];
      assert IsRawList(x.a, prec, x.lookaheads, x.rows, p, raw) && Conflicts.Resolved(raw, final, |raw|, list);
      if Tied(x, p, j) {
        LostAllDrawn(raw, final, list, j);
        var s: nat :| DrawnAt(raw, final, j, s);
        assert Draws(x, p, j, s);
      }
      if s: nat :| Draws(x, p, j, s) {
        DrawnLostAll(raw, final, list, j, s);
      }
    }
  }

  /** So there are no ties if every token with a precedence is left or right associative. */
  lemma AssociativeHasNoTies(g: Grammar, prec: Precedence, x: Passes)
    requires IsPrepared(g, prec, x)
    requires forall j :: 0 <= j < |prec.symbolPrec| && j < |prec.symbolAssoc| && prec.symbolPrec[j] > 0 ==>
               prec.symbolAssoc[j] in {Left, Right}
    ensures NoTies(x)
  {
    hide IsPrepared, Tied, Conflicts.Lead;
    forall p: nat, j: nat ensures !Tied(x, p, j) {
      TiedExactly(g, prec, x, p, j);
      if s: nat :| Draws(x, p, j, s) {
        ShiftAssociates(g, prec, x, p, s);
      }
    }
  }

  lemma ShiftAssociates(g: Grammar, prec: Precedence, x: Passes, p: nat, s: nat)
    requires IsPrepared(g, prec, x) && p < |x.raw| && s < |x.raw[p]|
    requires forall j :: 0 <= j < |prec.symbolPrec| && j < |prec.symbolAssoc| && prec.symbolPrec[j] > 0 ==>
               prec.symbolAssoc[j] in {Left, Right}
    ensures x.raw[p][s].code == Shift && x.raw[p][s].prec > 0 ==> x.raw[p][s].assoc in {Left, Right}
  {
    hide IsLr0, IsLookaheads, IsGotos, IsGotoMap, IsLaTable, IsDefred, Trans, Conflicts.Fresh, IsAction;
    var e := x.raw[p][s];
    assert IsRawList(x.a, prec, x.lookaheads, x.rows, p, x.raw[p]) && e in x.raw[p];
    ActionFacts(x.a, prec, x.lookaheads, x.rows, p, e);
  }
}
