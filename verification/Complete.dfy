/** Without conflicts, the generated parser accepts every sentence. */
module Completeness {
  import opened Grammars
  import opened Automata
  import opened Lr1
  import opened Lookaheads
  import opened LaTable
  import opened Lalr
  import opened GotoMap
  import opened Actions
  import opened MkPar
  import opened Output
  import opened Decode
  import opened Trees
  import opened Jay
  import opened Parser

  /** The parser goes from one configuration to the other in n turns. */
  ghost predicate StepsTo(x: Passes, c: Config, c': Config, n: nat)
    requires SizesOk(x)
    decreases n
  {
    if n == 0 then c == c'
    else match Step(x, c)
      case Next(d) => StepsTo(x, d, c', n - 1)
      case Accepted => false
      case Rejected => false
      case Report(_) => false
  }

  ghost predicate AcceptsFrom(x: Passes, c: Config)
    requires SizesOk(x)
  {
    exists n: nat :: AcceptsIn(x, c, n)
  }

  /** The parser gets there, or it accepts on the way. */
  ghost predicate Reaches(x: Passes, c: Config, c': Config)
    requires SizesOk(x)
  {
    AcceptsFrom(x, c) || exists n: nat :: StepsTo(x, c, c', n)
  }

  lemma ReachesRefl(x: Passes, c: Config)
    requires SizesOk(x)
    ensures Reaches(x, c, c)
  {
    assert StepsTo(x, c, c, 0);
  }

  lemma {:induction false} StepsThen(x: Passes, c: Config, d: Config, e: Config, m: nat)
    requires SizesOk(x) && StepsTo(x, c, d, m) && Reaches(x, d, e)
    ensures Reaches(x, c, e)
    decreases m
  {
    hide Step;
    if m > 0 {
      var c1 := Step(x, c).config;
      StepsThen(x, c1, d, e, m - 1);
      if n: nat :| AcceptsIn(x, c1, n) {
        assert AcceptsIn(x, c, n + 1);
      } else {
        var n: nat :| StepsTo(x, c1, e, n);
        assert StepsTo(x, c, e, n + 1);
      }
    }
  }

  lemma ReachesThen(x: Passes, c: Config, d: Config, e: Config)
    requires SizesOk(x) && Reaches(x, c, d) && Reaches(x, d, e)
    ensures Reaches(x, c, e)
  {
    hide StepsTo;
    if !AcceptsFrom(x, c) {
      var m: nat :| StepsTo(x, c, d, m);
      StepsThen(x, c, d, e, m);
    }
  }

  lemma {:induction false} StepsAccept(x: Passes, c: Config, d: Config, m: nat)
    requires SizesOk(x) && StepsTo(x, c, d, m) && AcceptsFrom(x, d)
    ensures AcceptsFrom(x, c)
    decreases m
  {
    hide Step;
    if m > 0 {
      var c1 := Step(x, c).config;
      StepsAccept(x, c1, d, m - 1);
      var n: nat :| AcceptsIn(x, c1, n);
      assert AcceptsIn(x, c, n + 1);
    }
  }

  lemma ReachesAccept(x: Passes, c: Config, d: Config)
    requires SizesOk(x) && Reaches(x, c, d) && AcceptsFrom(x, d)
    ensures AcceptsFrom(x, c)
  {
    hide StepsTo;
    if !AcceptsFrom(x, c) {
      var m: nat :| StepsTo(x, c, d, m);
      StepsAccept(x, c, d, m);
    }
  }

  lemma OneStep(x: Passes, c: Config, d: Config)
    requires SizesOk(x) && (Step(x, c) == Next(d) || Step(x, c) == Accepted)
    ensures Reaches(x, c, d) && (Step(x, c) == Accepted ==> AcceptsFrom(x, c))
  {
    hide Step;
    if Step(x, c) == Accepted {
      assert AcceptsIn(x, c, 0);
    } else {
      assert StepsTo(x, c, d, 1);
    }
  }

  // ---------------------------------------------------------------------------------

  /** The states are those along the word. */
  ghost predicate Along(a: Automaton, states: seq<nat>, word: seq<int>)
  {
    && |states| == |word| + 1 && states[0] == 0
    && forall i :: 0 <= i < |word| ==> Trans(a, states[i], word[i], states[i+1])
  }

  lemma {:induction false} AlongWalk(a: Automaton, states: seq<nat>, word: seq<int>)
    requires Along(a, states, word)
    ensures Walk(a, 0, word, states[|word|]) && states[|word|] < |a.kernels|
    decreases |word|
  {
    if word != [] {
      var n := |word| - 1;
      AlongWalk(a, states[..n + 1], word[..n]);
      WalkSnoc(a, 0, word[..n], states[n], word[n], states[n+1]);
      assert word == word[..n] + [word[n]];
      TransTarget(a, states[n], word[n], states[n+1]);
    }
  }

  lemma AlongPush(a: Automaton, states: seq<nat>, word: seq<int>, symbol: int, q: nat)
    requires Along(a, states, word) && Trans(a, states[|states|-1], symbol, q)
    ensures Along(a, states + [q], word + [symbol])
  {
  }

  /** An item of the LR(1) state lies in the state on the stack. */
  lemma ItemInState(a: Automaton, states: seq<nat>, word: seq<int>, i: nat, b: int)
    requires Along(a, states, word) && Item(a.g, false, word, i, b)
    ensures states[|word|] < |a.kernels| && InState(a, states[|word|], i)
  {
    hide IsLr0, InState, Trans;
    AlongWalk(a, states, word);
    var n: nat :| ItemAt(a.g, false, n, word, i, b);
    ItemOnState(a, false, n, word, i, b);
    var p: nat :| Walk(a, 0, word, p) && InState(a, p, i);
    WalkUnique(a, 0, word, p, states[|word|]);
  }

  /** What follows the dot can be shifted. */
  lemma ItemTrans(a: Automaton, states: seq<nat>, word: seq<int>, i: nat, b: int) returns (q: nat)
    requires Along(a, states, word) && Item(a.g, false, word, i, b) && i < |a.g.ritem| && a.g.ritem[i] > 0
    ensures Trans(a, states[|states|-1], a.g.ritem[i], q)
  {
    hide IsLr0, InState, Trans, Item;
    ItemInState(a, states, word, i, b);
    MoveItem(a, states[|word|], i);
    q :| Trans(a, states[|word|], a.g.ritem[i], q);
  }

  /** The action that shifts a token. */
  lemma ShiftAction(g: Grammar, prec: Precedence, x: Passes, p: nat, j: nat, q: nat) returns (e: Action)
    requires PrecedenceOk(g, prec) && x.a.g == g && 0 < j < g.ntokens && Trans(x.a, p, j, q)
    ensures e.code == Shift && e.symbol == j && e.number == q && IsAction(x.a, prec, x.lookaheads, x.rows, p, e)
  {
    NtokensBelow(g);
    e := Action(j, q, prec.symbolPrec[j], Shift, prec.symbolAssoc[j], 0);
  }

  lemma NtokensBelow(g: Grammar)
    ensures g.ntokens < g.nsyms
  {
  }

  lemma FeedLeaf(g: Grammar, prec: Precedence, x: Passes, states: seq<nat>, j: nat, rest: seq<nat>, q: nat)
    requires IsGenerated(g, prec, x) && NoConflicts(x) && SizesOk(x) && states != []
    requires 0 < j < g.ntokens && Trans(x.a, states[|states|-1], j, q)
    ensures Reaches(x, Config(states, [j] + rest), Config(states + [q], rest))
  {
    hide IsLr0, RawGrammar.Valid, Trans, IsTables, IsLookaheads, IsGotos, IsGotoMap, IsLaTable, IsParser, IsDefred,
      IsRuleData,
      MoveOn, NoConflicts, IsAction, PrecedenceOk;
    var c, p := Config(states, [j] + rest), states[|states|-1];
    GeneratedSizes(g, prec, x);
    TransTarget(x.a, p, j, q);
    var e := ShiftAction(g, prec, x, p, j, q);
    ActionMoves(g, prec, x, p, e);
    assert c.rest[1..] == rest;
    OneStep(x, c, Config(states + [q], rest));
  }

  /** The action that reduces by a rule on one of its LR(1) lookaheads. */
  lemma ReduceAction(g: Grammar, prec: Precedence, x: Passes, states: seq<nat>, word: seq<int>, r: nat,
                     b: nat) returns (e: Action)
    requires IsGenerated(g, prec, x) && Along(x.a, states, word) && 3 <= r && g.IsRule(r) && b < g.ntokens
    requires Item(g, false, word, EndItem(g, r), b)
    ensures e.code == Reduce && e.symbol == b && e.number == r
    ensures states[|word|] < |x.a.kernels| && IsAction(x.a, prec, x.lookaheads, x.rows, states[|word|], e)
  {
    hide IsLr0, RawGrammar.Valid, Trans, IsTables, IsLookaheads, IsGotos, IsGotoMap, IsLaTable, IsParser, IsDefred,
      IsRuleData, InState, Item;
    var p := states[|word|];
    AlongWalk(x.a, states, word);
    ItemInState(x.a, states, word, EndItem(g, r), b);
    ReducedHere(x.a, p, r);
    e := MergedAction(g, prec, x, false, word, p, r, b);
  }

  /** A lookahead, canonical or lenient, makes a reduction. */
  lemma MergedAction(g: Grammar, prec: Precedence, x: Passes, lenient: bool, word: seq<int>, p: nat, r: nat,
                     b: nat) returns (e: Action)
    requires IsPrepared(g, prec, x) && 3 <= r && g.IsRule(r) && b < g.ntokens && p < |x.a.reds| && r in x.a.reds[p]
    requires Walk(x.a, 0, word, p) && Item(g, lenient, word, EndItem(g, r), b)
    ensures e.code == Reduce && e.symbol == b && e.number == r && IsAction(x.a, prec, x.lookaheads, x.rows, p, e)
  {
    hide IsLr0, RawGrammar.Valid, Trans, IsTables, IsLookaheads, IsGotos, IsGotoMap, IsLaTable, IsParser, IsDefred,
      IsRuleData, InState, Item;
    var m: nat :| m < |x.a.reds[p]| && x.a.reds[p][m] == r;
    RowRule(x.a, x.lookaheads, x.LAruleno, p, m);
    var row := x.lookaheads[p] + m;
    assert IsRow(x.a, x.lookaheads, row, p, r);
    assert Merged(x.a, lenient, p, r, b);
    LaIsMerged(x.a, Gotos(x.fromState, x.toState), x.lookaheads, x.LAruleno, x.rows, row, p, r, b);
    e := Action(b, r, prec.rprec[r], Reduce, prec.rassoc[r], 0);
    assert IsReduce(prec, r, b, e);
    assert ReducedAt(x.a, prec, x.lookaheads, x.rows, p, m, e);
  }

  lemma ReducedHere(a: Automaton, p: nat, r: nat)
    requires a.g.IsRule(r) && p < |a.kernels| && InState(a, p, EndItem(a.g, r))
    ensures p < |a.reds| && r in a.reds[p]
  {
    assert RedsOk(a, p);
  }

  /** With the right-hand side of rule r on top of the stack and its lookahead next, the parser reduces. At the end of
      the input, the goal over the whole stack makes it accept. */
  lemma FeedReduce(g: Grammar, prec: Precedence, x: Passes, states: seq<nat>, word: seq<int>, top: seq<nat>, r: nat, m: nat,
                   rest: seq<nat>, q: nat)
    requires IsGenerated(g, prec, x) && NoConflicts(x) && SizesOk(x) && TokensOk(g, rest)
    requires states != [] && |top| == m && 3 <= r && g.IsRule(r) && r + 1 < |g.rrhs| && g.rrhs[r] + m + 1 == g.rrhs[r+1]
    requires Along(x.a, states + top, word) && Item(g, false, word, EndItem(g, r), Token(rest))
    requires Trans(x.a, states[|states|-1], g.rlhs[r], q)
    ensures Reaches(x, Config(states + top, rest), Config(states + [q], rest))
    ensures states[|states|-1] == 0 && g.rlhs[r] == g.ntokens + 1 && rest == [] ==> AcceptsFrom(x, Config(states + top, rest))
  {
    hide IsLr0, RawGrammar.Valid, Trans, IsTables, IsLookaheads, IsGotos, IsGotoMap, IsLaTable, IsParser, IsDefred,
      MoveOn, NoConflicts, IsAction, PrecedenceOk, Item, GotoMove, AcceptsFrom, Reaches, Reduction, EndItem, TokensOk;
    var all := states + top;
    var c, p, u, b := Config(all, rest), all[|all|-1], states[|states|-1], Token(rest);
    GeneratedSizes(g, prec, x);
    TokenBound(g, rest);
    var e := ReduceAction(g, prec, x, all, word, r, b);
    ActionMoves(g, prec, x, p, e);
    RuleDataOf(g, x.yylhs, x.yylen, r - 2);
    LeftBound(g, r);
    if u == 0 && g.rlhs[r] == g.ntokens + 1 {
      TransUnique(x.a, 0, g.ntokens + 1, q, x.finalState);
      ReducesGoal(x, states, top, r - 2, rest);
    } else {
      GotoIsMade(g, prec, x, u, g.rlhs[r] - g.ntokens - 1, q);
      ReducesTo(x, states, top, r - 2, rest, q);
    }
    OneStep(x, c, Config(states + [q], rest));
  }

  lemma ReducesGoal(x: Passes, states: seq<nat>, top: seq<nat>, n: nat, rest: seq<nat>)
    requires SizesOk(x) && n < |x.yylen| && n < |x.yylhs| && x.yylen[n] == |top| && x.yylhs[n] == 0
    requires states != [] && states[|states|-1] == 0
    ensures Reduction(x, Config(states + top, rest), n) ==
              if Token(rest) == 0 then Accepted else Next(Config(states + [x.finalState], rest))
  {
    hide GotoMove;
    assert (states + top)[..|states|] == states;
  }

  lemma ReducesTo(x: Passes, states: seq<nat>, top: seq<nat>, n: nat, rest: seq<nat>, q: nat)
    requires SizesOk(x) && n < |x.yylen| && n < |x.yylhs| && x.yylen[n] == |top| && states != []
    requires 0 <= x.yylhs[n] < |x.tables.dgoto| && (states[|states|-1] != 0 || x.yylhs[n] != 0)
    requires GotoMove(x.tables, |x.parser|, states[|states|-1], x.yylhs[n]) == q
    ensures Reduction(x, Config(states + top, rest), n) == Next(Config(states + [q], rest))
  {
    hide GotoMove;
    assert (states + top)[..|states|] == states;
  }

  /** What follows the first tree on the rest of a rule: a token of FIRST of what is behind it, or the lookahead. */
  lemma FollowsFirst(g: Grammar, r: nat, k: nat, ts: seq<Tree>, rest: seq<nat>, after: seq<nat>, b: int)
    requires Fits(g, r, k, ts) && ts != [] && after == YieldAll(ts[1..]) + rest && Token(rest) == b
    ensures FirstOrAfter(g, g.rrhs[r] + k + 1, b, Token(after))
  {
    hide First, NullableSuffix, RawGrammar.Valid, TreeOk;
    FitsRest(g, r, k, ts);
    if YieldAll(ts[1..]) != [] {
      FirstLeaf(g, r, k + 1, ts[1..]);
    } else {
      EmptyForest(g, r, k + 1, ts[1..]);
      assert after == rest;
    }
  }

  /** The parser works its way through a tree whose root the stack expects. */
  lemma {:induction false} FeedTree(g: Grammar, prec: Precedence, x: Passes, states: seq<nat>, word: seq<int>,
                                    t: Tree, i: nat, b: int,
                                    input: seq<nat>, rest: seq<nat>, q: nat)
    requires IsGenerated(g, prec, x) && NoConflicts(x) && SizesOk(x) && TokensOk(g, input)
    requires Along(x.a, states, word) && Item(g, false, word, i, b)
    requires TreeOk(g, t) && i < |g.ritem| && g.ritem[i] == Root(g, t) && Trans(x.a, states[|states|-1], Root(g, t), q)
    requires input == Yield(t) + rest && FirstOrAfter(g, i + 1, b, Token(rest))
    ensures Reaches(x, Config(states, input), Config(states + [q], rest))
    ensures states[|states|-1] == 0 && Root(g, t) == g.ntokens + 1 && rest == [] ==> AcceptsFrom(x, Config(states, input))
    decreases t
  {
    hide IsLr0, RawGrammar.Valid, Trans, IsGenerated, NoConflicts, Item, AcceptsFrom, Reaches, First, NullableSuffix,
      FirstOrAfter;
    TokensSplit(g, input, Yield(t), rest);
    match t
    case Leaf(j) =>
      FeedLeaf(g, prec, x, states, j, rest, q);
      assert input == [j] + rest;
    case Node(r, children) =>
      NodeFits(g, t);
      LeftBound(g, r);
      HeaderFacts(g);
      GeneratedGrammar(g, prec, x);
      ItemClose(g, false, word, i, b, r, Token(rest));
      RootsFit(g, t);
      var states', word' := FeedForest(g, prec, x, states, word, r, 0, children, Token(rest), input, rest);
      EndItemIs(g, r, |children|);
      FeedReduce(g, prec, x, states, word', states'[|states|..], r, |children|, rest, q);
      assert states + states'[|states|..] == states';
      ReachesThen(x, Config(states, input), Config(states', rest), Config(states + [q], rest));
      if states[|states|-1] == 0 && Root(g, t) == g.ntokens + 1 && rest == [] {
        ReachesAccept(x, Config(states, input), Config(states', rest));
      }
  }

  lemma TokensSplit(g: Grammar, input: seq<nat>, front: seq<int>, rest: seq<nat>)
    requires TokensOk(g, input) && input == front + rest
    ensures TokensOk(g, rest)
  {
    forall i | 0 <= i < |rest| ensures 0 < rest[i] < g.ntokens {
      assert input[|front| + i] == rest[i];
    }
  }

  lemma EndItemIs(g: Grammar, r: nat, m: nat)
    requires 3 <= r && g.IsRule(r) && r + 1 < |g.rrhs| && g.rrhs[r] + m + 1 == g.rrhs[r+1]
    ensures EndItem(g, r) == g.rrhs[r] + m
  {
  }

  lemma RootsFit(g: Grammar, t: Tree)
    requires TreeOk(g, t) && t.Node?
    ensures t.rule + 1 < |g.rrhs| && g.rrhs[t.rule] + |t.children| + 1 == g.rrhs[t.rule + 1]
  {
    NodeFits(g, t);
  }

  /** The parser works its way through the trees on the rest of a rule. */
  lemma {:induction false} FeedForest(g: Grammar, prec: Precedence, x: Passes, states: seq<nat>, word: seq<int>,
                                      r: nat, k: nat,
                                      ts: seq<Tree>, b: int, input: seq<nat>, rest: seq<nat>)
      returns (states': seq<nat>, word': seq<int>)
    requires IsGenerated(g, prec, x) && NoConflicts(x) && SizesOk(x) && TokensOk(g, input)
    requires Fits(g, r, k, ts) && Along(x.a, states, word) && Item(g, false, word, g.rrhs[r] + k, b)
    requires input == YieldAll(ts) + rest && Token(rest) == b
    ensures states <= states' && |states'| == |states| + |ts| && Along(x.a, states', word')
    ensures Item(g, false, word', g.rrhs[r] + k + |ts|, b)
    ensures Reaches(x, Config(states, input), Config(states', rest))
    decreases ts, 1
  {
    hide IsLr0, RawGrammar.Valid, Trans, IsGenerated, NoConflicts, Item, AcceptsFrom, Reaches, First, NullableSuffix,
      FirstOrAfter, TreeOk, ForestOk, Fits, Yield, YieldAll, Along, TokensOk;
    if ts == [] {
      states', word' := states, word;
      NoTrees(rest);
      ReachesRefl(x, Config(states, input));
    } else {
      FitsRest(g, r, k, ts);
      var q, after := FeedFirst(g, prec, x, states, word, r, k, ts, b, input, rest);
      states', word' := FeedForest(g, prec, x, states + [q], word + [Root(g, ts[0])], r, k + 1, ts[1..], b, after, rest);
      ReachesThen(x, Config(states, input), Config(states + [q], after), Config(states', rest));
    }
  }

  /** The first tree on the rest of a rule. */
  lemma FeedFirst(g: Grammar, prec: Precedence, x: Passes, states: seq<nat>, word: seq<int>, r: nat, k: nat,
                  ts: seq<Tree>, b: int, input: seq<nat>, rest: seq<nat>)
      returns (q: nat, after: seq<nat>)
    requires IsGenerated(g, prec, x) && NoConflicts(x) && SizesOk(x) && TokensOk(g, input) && ts != []
    requires Fits(g, r, k, ts) && Along(x.a, states, word) && Item(g, false, word, g.rrhs[r] + k, b)
    requires input == YieldAll(ts) + rest && Token(rest) == b
    ensures after == YieldAll(ts[1..]) + rest && TokensOk(g, after)
    ensures Along(x.a, states + [q], word + [Root(g, ts[0])]) && Item(g, false, word + [Root(g, ts[0])], g.rrhs[r] + k + 1, b)
    ensures Reaches(x, Config(states, input), Config(states + [q], after))
    decreases ts, 0
  {
    hide IsLr0, RawGrammar.Valid, Trans, IsGenerated, NoConflicts, Item, AcceptsFrom, Reaches, First, NullableSuffix,
      FirstOrAfter, TreeOk, ForestOk, Fits, Yield, YieldAll, Along, TokensOk;
    FitsRest(g, r, k, ts);
    GeneratedGrammar(g, prec, x);
    RootPositive(g, ts[0]);
    var i, symbol := g.rrhs[r] + k, Root(g, ts[0]);
    after := ForestInput(g, ts, input, rest);
    FollowsFirst(g, r, k, ts, rest, after, b);
    q := ItemTrans(x.a, states, word, i, b);
    FeedTree(g, prec, x, states, word, ts[0], i, b, input, after, q);
    AlongPush(x.a, states, word, symbol, q);
    ItemShift(g, false, word, i, b);
  }

  lemma NoTrees(rest: seq<nat>)
    ensures YieldAll([]) + rest == rest
  {
  }

  /** What is left when the first tree was read. */
  lemma ForestInput(g: Grammar, ts: seq<Tree>, input: seq<nat>, rest: seq<nat>) returns (after: seq<nat>)
    requires ts != [] && input == YieldAll(ts) + rest && TokensOk(g, input)
    ensures input == Yield(ts[0]) + after && after == YieldAll(ts[1..]) + rest && TokensOk(g, after)
  {
    hide Yield, YieldAll, TokensOk;
    FirstTree(ts);
    after := input[|Yield(ts[0])|..];
    TokensSplit(g, input, Yield(ts[0]), after);
  }

  /** On every sentence the parser returns, without a report. */
  lemma ParserIsComplete(g: Grammar, prec: Precedence, x: Passes, tokens: seq<nat>)
    requires IsGenerated(g, prec, x) && NoConflicts(x) && SizesOk(x) && TokensOk(g, tokens) && Sentence(g, tokens)
    ensures Accepts(x, tokens)
  {
    hide IsLr0, Trans, IsGenerated, NoConflicts, Item, First, NullableSuffix, Reaches, AcceptsIn, TreeOk;
    var t :| IsParse(g, t, tokens);
    GeneratedGrammar(g, prec, x);
    GoalItems(g);
    ItemStart(g, false);
    FirstToken(g, 2);
    assert Along(x.a, [0], []);
    var q := ItemTrans(x.a, [0], [], 1, 0);
    assert tokens == Yield(t) + [];
    FeedTree(g, prec, x, [0], [], t, 1, 0, tokens, [], q);
  }

  lemma GoalItems(g: Grammar)
    ensures |g.ritem| >= 4 && g.ritem[1] == g.ntokens + 1 && g.ritem[2] == 0 && !g.IsVar(0)
  {
  }

  /** The parser that is generated from a grammar without LALR(1) conflicts returns without having reported an error
      exactly on the sentences. */
  lemma ParserIsCorrect(g: Grammar, prec: Precedence, x: Passes, tokens: seq<nat>)
    requires IsGenerated(g, prec, x) && NoConflicts(x) && SizesOk(x) && TokensOk(g, tokens)
    ensures Accepts(x, tokens) <==> Sentence(g, tokens)
  {
    hide *;
    if Accepts(x, tokens) {
      ParserIsSound(g, prec, x, tokens);
    }
    if Sentence(g, tokens) {
      ParserIsComplete(g, prec, x, tokens);
    }
  }

  /** When it returns, it has reported an error exactly on what is not a sentence. */
  lemma ReportTellsTrue(g: Grammar, prec: Precedence, x: Passes, tokens: seq<nat>)
    requires IsGenerated(g, prec, x) && NoConflicts(x) && SizesOk(x) && TokensOk(g, tokens) && Returns(x, tokens)
    ensures Flawed(x, tokens) <==> !Sentence(g, tokens)
  {
    hide *;
    ParserIsCorrect(g, prec, x, tokens);
    ReturnsIsOneOf(x, tokens);
  }

  /** If jay stays silent about a grammar without precedences, its parser returns without a report exactly on the
      sentences. */
  lemma SilentParserIsCorrect(g: Grammar, prec: Precedence, x: Passes, tokens: seq<nat>)
    requires IsGenerated(g, prec, x) && NoPrecedences(prec) && x.SRtotal + x.RRtotal == 0 && SizesOk(x) && TokensOk(g, tokens)
    ensures Accepts(x, tokens) <==> Sentence(g, tokens)
  {
    hide *;
    SilenceIsConsent(g, prec, x);
    ParserIsCorrect(g, prec, x, tokens);
  }
}
