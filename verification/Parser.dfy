/** Running the generated tables (skeleton-k, yyparse), and which inputs that accepts. */
module Parser {
  import opened Grammars
  import opened Automata
  import opened Lookaheads
  import opened LaTable
  import opened Lalr
  import opened GotoMap
  import opened Actions
  import opened MkPar
  import opened Output
  import opened Decode
  import opened Trees
  import opened Jay

  /** The stack of states, bottom first, and the tokens that were not shifted yet. */
  datatype Config = Config(states: seq<nat>, rest: seq<nat>)

  /** Accepted means that yyparse returns; Rejected that an index out of range ends it with an exception. A turn may also
      report a syntax error first, and then goes on all the same. */
  datatype Turn = Next(config: Config) | Accepted | Rejected | Report(after: Turn)

  /** The next token; the end of the input reads as token 0. */
  function Token(rest: seq<nat>): nat
  {
    if rest == [] then 0 else rest[0]
  }

  /** One turn of the loops of yyparse. The error flag is never set, so that no recovery takes place. */
  ghost function Step(x: Passes, c: Config): Turn
    requires SizesOk(x)
  {
    if c.states == [] then Rejected
    else
      var p, j := c.states[|c.states|-1], Token(c.rest);
      if p >= |x.parser| || j >= |x.values| then Rejected
      else
        match MoveOn(x, p, j)
        case ShiftTo(q) => if c.rest == [] || q < 0 then Rejected else Next(Config(c.states + [q], c.rest[1..]))
        case ReduceBy(n) => Reduction(x, c, n)
        case ErrorThen(n) => Report(Reduction(x, c, n))
  }

  /** Pop the right-hand side and push the goto; the goal alone on the stack ends the parse at the end of the input. */
  ghost function Reduction(x: Passes, c: Config, n: int): Turn
    requires SizesOk(x)
  {
    if !(0 <= n < |x.yylen| && n < |x.yylhs| && x.yylen[n] < |c.states|) then Rejected
    else
      var states := c.states[..|c.states| - x.yylen[n]];
      var u, m := states[|states|-1], x.yylhs[n];
      if u == 0 && m == 0 then
        if Token(c.rest) == 0 then Accepted else Next(Config(states + [x.finalState], c.rest))
      else if !(0 <= m < |x.tables.dgoto| && GotoMove(x.tables, |x.parser|, u, m) >= 0) then Rejected
      else Next(Config(states + [GotoMove(x.tables, |x.parser|, u, m)], c.rest))
  }

  /** Within n turns the parser returns, without having reported an error. */
  ghost predicate AcceptsIn(x: Passes, c: Config, n: nat)
    requires SizesOk(x)
    decreases n
  {
    match Step(x, c)
    case Accepted => true
    case Rejected => false
    case Report(_) => false
    case Next(c') => n > 0 && AcceptsIn(x, c', n - 1)
  }

  ghost predicate Accepts(x: Passes, tokens: seq<nat>)
    requires SizesOk(x)
  {
    exists n: nat :: AcceptsIn(x, Config([0], tokens), n)
  }

  /** Within n turns the parser returns, whatever it has reported. */
  ghost predicate ReturnsIn(x: Passes, c: Config, n: nat)
    requires SizesOk(x)
    decreases n
  {
    var turn := Step(x, c);
    match if turn.Report? then turn.after else turn
    case Accepted => true
    case Next(c') => n > 0 && ReturnsIn(x, c', n - 1)
    case _ => false
  }

  /** Within n turns the parser returns, but has reported an error. */
  ghost predicate FlawedIn(x: Passes, c: Config, n: nat)
    requires SizesOk(x)
    decreases n
  {
    match Step(x, c)
    case Next(c') => n > 0 && FlawedIn(x, c', n - 1)
    case Report(Accepted) => true
    case Report(Next(c')) => n > 0 && ReturnsIn(x, c', n - 1)
    case _ => false
  }

  /** The parser returns, after a report. */
  ghost predicate Flawed(x: Passes, tokens: seq<nat>)
    requires SizesOk(x)
  {
    exists n: nat :: FlawedIn(x, Config([0], tokens), n)
  }

  /** The parser returns. */
  ghost predicate Returns(x: Passes, tokens: seq<nat>)
    requires SizesOk(x)
  {
    exists n: nat :: ReturnsIn(x, Config([0], tokens), n)
  }

  /** A run that returns either has reported an error or has not. */
  lemma {:induction false} ReturnsOneWay(x: Passes, c: Config, n: nat)
    requires SizesOk(x)
    ensures ReturnsIn(x, c, n) <==> AcceptsIn(x, c, n) || FlawedIn(x, c, n)
    decreases n
  {
    hide Step;
    match Step(x, c)
    case Next(c') =>
      if n > 0 { ReturnsOneWay(x, c', n - 1); }
    case _ =>
  }

  lemma {:induction false} NotBoth(x: Passes, c: Config, m: nat, n: nat)
    requires SizesOk(x) && AcceptsIn(x, c, m)
    ensures !FlawedIn(x, c, n)
    decreases m
  {
    hide Step;
    match Step(x, c)
    case Next(c') =>
      if n > 0 { NotBoth(x, c', m - 1, n - 1); }
    case _ =>
  }

  lemma ReturnsIsOneOf(x: Passes, tokens: seq<nat>)
    requires SizesOk(x)
    ensures Returns(x, tokens) <==> Accepts(x, tokens) || Flawed(x, tokens)
    ensures !(Accepts(x, tokens) && Flawed(x, tokens))
  {
    hide ReturnsIn, AcceptsIn, FlawedIn;
    var c := Config([0], tokens);
    forall n: nat ensures ReturnsIn(x, c, n) <==> AcceptsIn(x, c, n) || FlawedIn(x, c, n) {
      ReturnsOneWay(x, c, n);
    }
    forall m: nat, n: nat | AcceptsIn(x, c, m) ensures !FlawedIn(x, c, n) {
      NotBoth(x, c, m, n);
    }
  }

  // ---------------------------------------------------------------------------------
  // Soundness: the stack spells the roots of trees over the consumed tokens.

  ghost predicate Spells(a: Automaton, states: seq<nat>, forest: seq<Tree>)
  {
    && |states| == |forest| + 1 && states[0] == 0
    && ForestOk(a.g, forest)
    && forall i :: 0 <= i < |forest| ==> Trans(a, states[i], Root(a.g, forest[i]), states[i+1])
  }

  lemma {:induction false} SpellsWalk(a: Automaton, states: seq<nat>, forest: seq<Tree>)
    requires Spells(a, states, forest)
    ensures Walk(a, 0, Roots(a.g, forest), states[|forest|]) && states[|forest|] < |a.kernels|
    decreases |forest|
  {
    if forest == [] {
      assert Roots(a.g, forest) == [];
    } else {
      var n := |forest| - 1;
      SpellsFront(a, states, forest, n);
      SpellsWalk(a, states[..n + 1], forest[..n]);
      assert Roots(a.g, forest) == Roots(a.g, forest[..n]) + [Root(a.g, forest[n])];
      WalkSnoc(a, 0, Roots(a.g, forest[..n]), states[n], Root(a.g, forest[n]), states[n+1]);
      TransTarget(a, states[n], Root(a.g, forest[n]), states[n+1]);
    }
  }

  lemma TransTarget(a: Automaton, p: nat, symbol: int, q: nat)
    requires Trans(a, p, symbol, q)
    ensures symbol > 0 && 0 < q < |a.kernels| && p < |a.kernels|
  {
    TransSymbol(a, p, symbol, q);
  }

  lemma SpellsFront(a: Automaton, states: seq<nat>, forest: seq<Tree>, n: nat)
    requires Spells(a, states, forest) && n <= |forest|
    ensures Spells(a, states[..n + 1], forest[..n])
  {
  }

  lemma SpellsPush(a: Automaton, states: seq<nat>, forest: seq<Tree>, t: Tree, q: nat)
    requires Spells(a, states, forest) && TreeOk(a.g, t) && Trans(a, states[|states|-1], Root(a.g, t), q)
    ensures Spells(a, states + [q], forest + [t])
  {
  }

  /** In a state that completes rule r, the top of the stack spells its right-hand side, and below it the state has a
      transition on the left-hand side. */
  lemma ReducePops(a: Automaton, states: seq<nat>, forest: seq<Tree>, r: nat) returns (m: nat, q: nat)
    requires Spells(a, states, forest) && states[|forest|] < |a.reds| && r in a.reds[states[|forest|]]
    ensures 3 <= r < |a.g.rlhs| && r + 1 < |a.g.rrhs| && a.g.rrhs[r] + m + 1 == a.g.rrhs[r+1] && m <= |forest|
    ensures TreeOk(a.g, Node(r, forest[|forest| - m..]))
    ensures Trans(a, states[|forest| - m], a.g.rlhs[r], q)
  {
    hide IsLr0, RawGrammar.Valid, Trans, Walk, InState, TreeOk, RedsOk, InRule, ForestOk;
    HeaderFacts(a.g);
    m := ReducedLength(a, states[|forest|], r);
    RuleOnTop(a, states, forest, r, m);
    q := LeftHandSide(a, states[|forest| - m], r);
  }

  lemma ReducedLength(a: Automaton, p: nat, r: nat) returns (m: nat)
    requires p < |a.reds| && r in a.reds[p]
    ensures 3 <= r < |a.g.rlhs| && a.g.IsRule(r) && a.g.rrhs[r] + m + 1 == a.g.rrhs[r+1] <= |a.g.ritem|
    ensures InRule(a.g, r, a.g.rrhs[r] + m) && InState(a, p, a.g.rrhs[r] + m)
  {
    hide IsLr0, RawGrammar.Valid, InState, InRule, RedsOk;
    ReducedRule(a, p, r);
    RuleShape(a.g, r);
    RedsInState(a, p, r);
    m := a.g.rrhs[r+1] - 1 - a.g.rrhs[r];
  }

  lemma RuleOnTop(a: Automaton, states: seq<nat>, forest: seq<Tree>, r: nat, m: nat)
    requires Spells(a, states, forest) && 3 <= r && a.g.IsRule(r) && a.g.rrhs[r] + m + 1 == a.g.rrhs[r+1] <= |a.g.ritem|
    requires InRule(a.g, r, a.g.rrhs[r] + m) && InState(a, states[|forest|], a.g.rrhs[r] + m)
    ensures m <= |forest| && TreeOk(a.g, Node(r, forest[|forest| - m..])) && InState(a, states[|forest| - m], a.g.rrhs[r])
  {
    hide IsLr0, RawGrammar.Valid, Trans, Walk, InState, InRule, TreeOk, ForestOk;
    var word, p := Roots(a.g, forest), states[|forest|];
    HeaderFacts(a.g);
    SpellsWalk(a, states, forest);
    RuleBack(a, word, p, r, m);
    var p0: nat :| RuleStarts(a, word, r, m, p0, p);
    BelowTop(a, states, forest, m, p0);
    TopSpells(a.g, forest, r, m);
  }

  /** The walk over the lower part of the stack ends in the state the stack holds there. */
  lemma BelowTop(a: Automaton, states: seq<nat>, forest: seq<Tree>, m: nat, p0: nat)
    requires Spells(a, states, forest) && m <= |forest| && Walk(a, 0, Roots(a.g, forest)[..|forest| - m], p0)
    ensures p0 == states[|forest| - m]
  {
    hide IsLr0, RawGrammar.Valid, Trans, Walk;
    var n := |forest| - m;
    SpellsFront(a, states, forest, n);
    SpellsWalk(a, states[..n + 1], forest[..n]);
    assert Roots(a.g, forest[..n]) == Roots(a.g, forest)[..n];
    WalkUnique(a, 0, Roots(a.g, forest[..n]), p0, states[n]);
  }

  lemma RedsInState(a: Automaton, p: nat, r: nat)
    requires p < |a.reds| && r in a.reds[p] && 3 <= r < |a.g.rlhs|
    ensures r + 1 < |a.g.rrhs| && a.g.rrhs[r+1] > 0 && InState(a, p, a.g.rrhs[r+1] - 1) && InRule(a.g, r, a.g.rrhs[r+1] - 1)
  {
    assert RedsOk(a, p);
    RuleShape(a.g, r);
  }

  lemma TopSpells(g: Grammar, forest: seq<Tree>, r: nat, m: nat)
    requires ForestOk(g, forest) && 3 <= r && g.IsRule(r) && m <= |forest| && g.rrhs[r] + m + 1 == g.rrhs[r+1] <= |g.ritem|
    requires Roots(g, forest)[|forest| - m..] == Rhs(g, r, m)
    ensures TreeOk(g, Node(r, forest[|forest| - m..]))
  {
    var top := forest[|forest| - m..];
    assert Roots(g, top) == Roots(g, forest)[|forest| - m..];
    assert Rhs(g, r, m) == RhsOf(g, r);
  }

  /** Where a rule starts, its left-hand side can be shifted. */
  lemma LeftHandSide(a: Automaton, p: nat, r: nat) returns (q: nat)
    requires 3 <= r < |a.g.rlhs| && r < |a.g.rrhs| && InState(a, p, a.g.rrhs[r])
    ensures Trans(a, p, a.g.rlhs[r], q)
  {
    ClosureCases(a.g, a.kernels[p], a.g.rrhs[r]);
    RuleShape(a.g, r);
    UserRuleFacts(a.g, r);
    if a.g.rrhs[r] in a.kernels[p] {
      NotInKernel(a, p, r);
    }
    var j: nat, s: nat :| InClosure(a.g, a.kernels[p], j) && a.g.Expands(j, s) && a.g.rrhs[r] == a.g.rrhs[s];
    RuleShape(a.g, s);
    RuleIsUnique(a.g, r, s, a.g.rrhs[r]);
    MoveItem(a, p, j);
    q :| Trans(a, p, a.g.ritem[j], q);
  }

  /** The start of a rule of the user is in no kernel. */
  lemma NotInKernel(a: Automaton, p: nat, r: nat)
    requires 3 <= r < |a.g.rlhs| && r < |a.g.rrhs| && p < |a.kernels|
    ensures a.g.rrhs[r] !in a.kernels[p]
  {
    RuleShape(a.g, r);
    RuleShape(a.g, r - 1);
    if a.g.rrhs[r] in a.kernels[p] {
      assert Reachable(a, p);
      var word :| Walk(a, 0, word, p);
      if word != [] {
        var u: nat :| Walk(a, 0, Front(word), u) && Trans(a, u, Last(word), p);
        KernelBack(a, u, Last(word), p, a.g.rrhs[r]);
      }
    }
  }

  ghost predicate TokensOk(g: Grammar, tokens: seq<nat>)
  {
    forall i :: 0 <= i < |tokens| ==> 0 < tokens[i] < g.ntokens
  }

  lemma TokenBound(g: Grammar, rest: seq<nat>)
    requires TokensOk(g, rest)
    ensures Token(rest) < g.ntokens && (Token(rest) == 0 <==> rest == [])
    ensures rest != [] ==> TreeOk(g, Leaf(rest[0])) && TokensOk(g, rest[1..])
  {
    assert g.ntokens > 0;
  }

  /** One turn keeps what the trees and the rest of the input spell together; an acceptance has a tree for all of it. */
  ghost predicate TurnOk(x: Passes, all: seq<int>, turn: Turn)
  {
    match turn
    case Rejected => true
    case Report(_) => true
    case Accepted => Sentence(x.a.g, all)
    case Next(c) => exists forest :: Holds(x, all, c, forest)
  }

  ghost predicate Holds(x: Passes, all: seq<int>, c: Config, forest: seq<Tree>)
  {
    Spells(x.a, c.states, forest) && TokensOk(x.a.g, c.rest) && YieldAll(forest) + c.rest == all
  }

  lemma ShiftTurn(x: Passes, all: seq<int>, c: Config, forest: seq<Tree>, q: nat)
    requires Holds(x, all, c, forest) && c.rest != [] && Trans(x.a, c.states[|c.states|-1], c.rest[0], q)
    ensures TurnOk(x, all, Next(Config(c.states + [q], c.rest[1..])))
  {
    hide IsLr0, Trans, TreeOk;
    var leaf := Leaf(c.rest[0]);
    TokenBound(x.a.g, c.rest);
    SpellsPush(x.a, c.states, forest, leaf, q);
    YieldSplit(forest, [leaf]);
    YieldOne(leaf);
    assert c.rest == [c.rest[0]] + c.rest[1..];
    assert Holds(x, all, Config(c.states + [q], c.rest[1..]), forest + [leaf]);
  }

  /** Replacing the top m trees by the tree over them. */
  lemma ReducedHolds(x: Passes, all: seq<int>, c: Config, forest: seq<Tree>, r: nat, m: nat, q: nat)
    requires Holds(x, all, c, forest) && m <= |forest|
    requires TreeOk(x.a.g, Node(r, forest[|forest| - m..]))
    requires Trans(x.a, c.states[|forest| - m], Root(x.a.g, Node(r, forest[|forest| - m..])), q)
    ensures Holds(x, all, Config(c.states[..|c.states| - m] + [q], c.rest),
                  forest[..|forest| - m] + [Node(r, forest[|forest| - m..])])
    ensures TurnOk(x, all, Next(Config(c.states[..|c.states| - m] + [q], c.rest)))
  {
    hide IsLr0, Trans, TreeOk, YieldAll;
    var n := |forest| - m;
    var node := Node(r, forest[n..]);
    SpellsFront(x.a, c.states, forest, n);
    SpellsPush(x.a, c.states[..n + 1], forest[..n], node, q);
    YieldSplit(forest[..n], [node]);
    YieldOne(node);
    YieldSplit(forest[..n], forest[n..]);
    assert forest == forest[..n] + forest[n..];
    assert Holds(x, all, Config(c.states[..n + 1] + [q], c.rest), forest[..n] + [node]);
  }

  /** State 0 is only at the bottom of the stack. */
  lemma BottomIsZero(a: Automaton, states: seq<nat>, forest: seq<Tree>, i: nat)
    requires Spells(a, states, forest) && i < |states| && states[i] == 0
    ensures i == 0
  {
    if i > 0 {
      TransTarget(a, states[i-1], Root(a.g, forest[i-1]), states[i]);
    }
  }

  lemma ReduceTurn(g: Grammar, prec: Precedence, x: Passes, all: seq<int>, c: Config, forest: seq<Tree>, n: nat)
    requires IsGenerated(g, prec, x) && SizesOk(x) && Holds(x, all, c, forest) && n >= 1
    requires c.states[|forest|] < |x.a.reds| && n + 2 in x.a.reds[c.states[|forest|]]
    ensures TurnOk(x, all, Reduction(x, c, n))
  {
    hide IsLr0, RawGrammar.Valid, Trans, TreeOk, IsTables, IsLookaheads, IsGotos, IsGotoMap, IsLaTable, IsParser,
      IsDefred, TurnOk, GotoMove;
    var r := n + 2;
    var m, q := ReducePops(x.a, c.states, forest, r);
    RuleDataOf(g, x.yylhs, x.yylen, n);
    var node := Node(r, forest[|forest| - m..]);
    var u, k := c.states[|forest| - m], x.yylhs[n];
    assert c.states[..|c.states| - m][|c.states| - m - 1] == u;
    LeftBound(g, r);
    if u == 0 && k == 0 {
      BottomIsZero(x.a, c.states, forest, |forest| - m);
      if Token(c.rest) == 0 {
        AcceptTurn(x, all, c, forest, r);
      } else {
        ReducedHolds(x, all, c, forest, r, m, x.finalState);
      }
    } else {
      GotoIsMade(g, prec, x, u, k, q);
      ReducedHolds(x, all, c, forest, r, m, q);
    }
  }

  lemma LeftBound(g: Grammar, r: nat)
    requires 3 <= r < |g.rlhs|
    ensures g.ntokens < g.rlhs[r] < g.nsyms && g.IsRule(r)
  {
    assert g.UserRule(r);
  }

  lemma RuleDataOf(g: Grammar, yylhs: seq<int>, yylen: seq<nat>, n: nat)
    requires IsRuleData(g, yylhs, yylen) && 1 <= n && n + 2 < |g.rlhs|
    ensures n < |yylhs| == |yylen| && RuleData(g, n, yylhs[n], yylen[n])
  {
  }

  lemma AcceptTurn(x: Passes, all: seq<int>, c: Config, forest: seq<Tree>, r: nat)
    requires Holds(x, all, c, forest) && Token(c.rest) == 0
    requires TreeOk(x.a.g, Node(r, forest)) && x.a.g.IsRule(r) && x.a.g.rlhs[r] == x.a.g.ntokens + 1
    ensures TurnOk(x, all, Accepted)
  {
    TokenBound(x.a.g, c.rest);
    assert IsParse(x.a.g, Node(r, forest), all);
  }

  /** There is no goto on $accept: what starts as a reduction of rule 0 comes to nothing. */
  lemma RuleZero(g: Grammar, prec: Precedence, x: Passes, c: Config)
    requires IsGenerated(g, prec, x) && SizesOk(x)
    ensures Reduction(x, c, 0) == Rejected
  {
    hide IsLr0, RawGrammar.Valid, IsTables, IsLookaheads, IsGotos, IsGotoMap, IsLaTable, IsParser, IsDefred, GotoMove;
  }

  /** A reduction, called for or not, takes place exactly if the number is that of a rule of the grammar and the stack is
      deep enough for it. */
  lemma ReductionGoesOn(g: Grammar, prec: Precedence, x: Passes, c: Config, n: int)
    requires IsGenerated(g, prec, x) && SizesOk(x)
    ensures Reduction(x, c, n) != Rejected <==> 1 <= n < |x.yylen| && x.yylen[n] < |c.states|
  {
    hide IsLr0, RawGrammar.Valid, IsTables, IsLookaheads, IsGotos, IsGotoMap, IsLaTable, IsParser, IsDefred, GotoMove;
    if n == 0 {
      RuleZero(g, prec, x, c);
    } else if 1 <= n < |x.yylen| && x.yylen[n] < |c.states| {
      var u, m := c.states[..|c.states| - x.yylen[n]][|c.states| - x.yylen[n] - 1], x.yylhs[n];
      assert RuleData(x.a.g, n, m, x.yylen[n]);
      UserRuleFacts(x.a.g, n + 2);
      GotoIsState(x.a, x.gotoMap, x.fromState, x.toState, x.parser, x.defred, x.values, x.vs, x.tables, u, m);
    }
  }

  /** Exactly when a turn reports an error and the parser goes on after it: the state has reductions but no default, no
      action is left for the token, and its base and the value of the token happen to add up to a rule of the grammar that
      the stack is deep enough for. */
  lemma GoesOnAfterReport(g: Grammar, prec: Precedence, x: Passes, c: Config, p: nat, j: nat)
    requires IsGenerated(g, prec, x) && SizesOk(x) && c.states != [] && p == c.states[|c.states|-1] < |x.parser|
    requires j == Token(c.rest) < g.ntokens
    ensures j < |x.values| && p < |x.defred|
    ensures (Step(x, c).Report? && Step(x, c).after != Rejected) <==>
              && x.defred[p] == 0 && !HasAction(x.parser[p], j) && HasReductions(x.parser[p], 0)
              && var n := x.tables.base[|x.parser| + p] + x.values[j]; 1 <= n < |x.yylen| && x.yylen[n] < |c.states|
  {
    hide IsGenerated, Reduction, MoveOn, HasAction, HasReductions;
    GeneratedSizes(g, prec, x);
    GoesOnExactly(g, prec, x, p, j);
    forall n: int ensures !Reduction(x, c, n).Report? {
      NoSecondReport(x, c, n);
    }
    ReductionGoesOn(g, prec, x, c, x.tables.base[|x.parser| + p] + x.values[j]);
  }

  lemma NoSecondReport(x: Passes, c: Config, n: int)
    requires SizesOk(x)
    ensures !Reduction(x, c, n).Report?
  {
    hide GotoMove;
  }

  lemma StepSound(g: Grammar, prec: Precedence, x: Passes, all: seq<int>, c: Config, forest: seq<Tree>)
    requires IsGenerated(g, prec, x) && SizesOk(x) && Holds(x, all, c, forest)
    ensures TurnOk(x, all, Step(x, c))
  {
    hide IsLr0, RawGrammar.Valid, Trans, TreeOk, IsTables, IsLookaheads, IsGotos, IsGotoMap, IsLaTable, IsParser,
      IsDefred, IsRuleData,
      MoveOn, Reduction;
    var p, j := c.states[|c.states|-1], Token(c.rest);
    GeneratedSizes(g, prec, x);
    SpellsWalk(x.a, c.states, forest);
    TokenBound(g, c.rest);
    MoveIsSound(g, prec, x, p, j);
    match MoveOn(x, p, j)
    case ErrorThen(_) =>
    case ShiftTo(q) =>
      if c.rest != [] {
        ShiftTurn(x, all, c, forest, q);
      }
    case ReduceBy(n) =>
      if n == 0 {
        RuleZero(g, prec, x, c);
      } else {
        ReduceTurn(g, prec, x, all, c, forest, n);
      }
  }

  lemma {:induction false} AcceptSound(g: Grammar, prec: Precedence, x: Passes, all: seq<int>, c: Config,
                                       forest: seq<Tree>, n: nat)
    requires IsGenerated(g, prec, x) && SizesOk(x) && Holds(x, all, c, forest) && AcceptsIn(x, c, n)
    ensures Sentence(g, all)
    decreases n
  {
    hide IsGenerated, Step, Sentence, Holds;
    StepSound(g, prec, x, all, c, forest);
    GeneratedGrammar(g, prec, x);
    match Step(x, c)
    case Accepted =>
    case Rejected =>
    case Report(_) =>
    case Next(c') =>
      var forest' :| Holds(x, all, c', forest');
      AcceptSound(g, prec, x, all, c', forest', n - 1);
  }

  lemma GeneratedGrammar(g: Grammar, prec: Precedence, x: Passes)
    requires IsGenerated(g, prec, x)
    ensures x.a.g == g
  {
  }

  /** If the generated parser returns without having reported an error, it has read a sentence, however the conflicts of
      the grammar were resolved. */
  lemma ParserIsSound(g: Grammar, prec: Precedence, x: Passes, tokens: seq<nat>)
    requires IsGenerated(g, prec, x) && SizesOk(x) && TokensOk(g, tokens) && Accepts(x, tokens)
    ensures Sentence(g, tokens)
  {
    hide IsLr0, IsTables, IsLookaheads, IsGotos, IsGotoMap, IsLaTable, IsParser, IsDefred, IsRuleData, AcceptsIn, Sentence;
    var n: nat :| AcceptsIn(x, Config([0], tokens), n);
    assert Spells(x.a, [0], []);
    assert YieldAll([]) + tokens == tokens;
    AcceptSound(g, prec, x, tokens, Config([0], tokens), [], n);
  }
}
