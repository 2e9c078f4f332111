/** The includes and lookback relations (jay/lalr.c, build_relations). */
module IncludesRelation {
  import opened Relation
  import opened Grammars
  import opened Closures
  import opened Automata
  import opened Lookaheads
  import opened GotoMap
  import opened LaTable
  import opened ReadSets
  import opened Transposition

  /** A rule of the variable of transition i is a rule of the user, and the source of i holds its first item. */
  lemma GotoRule(a: Automaton, gt: Gotos, i: nat, r: nat)
    requires IsGotos(a, gt) && i < |gt.to| && a.g.IsRule(r) && a.g.rlhs[r] == Symbol(a, gt, i)
    ensures 3 <= r < |a.g.rrhs| && a.g.rrhs[r] < |a.g.ritem| && InRule(a.g, r, a.g.rrhs[r])
    ensures gt.from[i] < |a.kernels| && InState(a, gt.from[i], a.g.rrhs[r])
  {
    assert GotoOk(a, gt, i);
    GotoTarget(a, gt, i);
    var p, q := gt.from[i], gt.to[i];
    NoAccept(a, p, q);
    assert ShiftsOk(a, p);
    var z := a.kernels[q][0];
    KernelBack(a, p, Symbol(a, gt, i), q, z);
    ClosureStep(a.g, a.kernels[p], z - 1, r);
    RuleShape(a.g, r);
  }

  // ---------------------------------------------------------------------------------
  // The walk forwards.

  /** states[m] is the state after m symbols of rule r, starting from state p. */
  ghost predicate StatesOk(a: Automaton, p: nat, r: nat, states: seq<nat>)
  {
    && |states| >= 1 && r >= 3 && r < |a.g.rrhs| && InRule(a.g, r, a.g.rrhs[r] + |states| - 1)
    && forall m: nat :: m < |states| ==> StateAt(a, p, r, m, states[m])
  }

  ghost predicate StateAt(a: Automaton, p: nat, r: nat, m: nat, q: nat)
  {
    && r < |a.g.rrhs| && InRule(a.g, r, a.g.rrhs[r] + m)
    && Walk(a, p, Rhs(a.g, r, m), q) && InState(a, q, a.g.rrhs[r] + m)
  }

  /** The shift on the symbol, which exists. */
  method FindShift(a: Automaton, state: nat, symbol2: nat, ghost target: nat) returns (stateno: nat)
    requires Trans(a, state, symbol2, target)
    ensures stateno == target
  {
    hide IsLr0, RawGrammar.Valid, Trans;
    SameSizes(a);
    TransSymbol(a, state, symbol2, target);
    ghost var t := ShiftOnTrans(a, state, symbol2, target);
    var shift := a.shifts[state];
    stateno := state;
    var j: nat := 0;
    while j < |shift|
      invariant j <= t < |shift|
    {
      stateno := shift[j];
      SymbolInGrammar(a, state, j);
      if a.access[stateno] == symbol2 {
        ShiftOnIsTrans(a, state, j, symbol2);
        TransUnique(a, state, symbol2, stateno, target);
        break;
      }
      j := j + 1;
    }
  }

  lemma StatesStep(a: Automaton, p: nat, r: nat, states: seq<nat>) returns (q: nat)
    requires StatesOk(a, p, r, states) && a.g.ritem[a.g.rrhs[r] + |states| - 1] >= 0
    ensures a.g.ritem[a.g.rrhs[r] + |states| - 1] > 0
    ensures Trans(a, states[|states|-1], a.g.ritem[a.g.rrhs[r] + |states| - 1], q)
    ensures StatesOk(a, p, r, states + [q])
  {
    hide IsLr0, InState, Trans;
    var m := |states| - 1;
    var i := a.g.rrhs[r] + m;
    assert StateAt(a, p, r, m, states[m]);
    assert a.g.UserRule(r);
    RuleShape(a.g, r);
    EndOfRule(a.g, r, i);
    hide RawGrammar.Valid;
    MoveItem(a, states[m], i);
    q :| Trans(a, states[m], a.g.ritem[i], q) && InState(a, q, i + 1);
    WalkSnoc(a, p, Rhs(a.g, r, m), states[m], a.g.ritem[i], q);
    RhsStep(a.g, r, m + 1);
    NextItem(a.g, i);
    assert StateAt(a, p, r, m + 1, q);
  }

  lemma StatesStart(a: Automaton, p: nat, r: nat)
    requires 3 <= r < |a.g.rrhs| && InRule(a.g, r, a.g.rrhs[r]) && InState(a, p, a.g.rrhs[r])
    ensures StatesOk(a, p, r, [p])
  {
    assert Rhs(a.g, r, 0) == [];
    assert StateAt(a, p, r, 0, p);
  }

  /** At the end of the rule, its walk ends in a state that reduces it. */
  lemma StatesEnd(a: Automaton, p: nat, r: nat, states: seq<nat>)
    requires StatesOk(a, p, r, states) && a.g.ritem[a.g.rrhs[r] + |states| - 1] < 0
    ensures states[|states|-1] < |a.reds| == |a.kernels| && r in a.reds[states[|states|-1]]
    ensures Walk(a, p, RhsOf(a.g, r), states[|states|-1])
  {
    var m := |states| - 1;
    assert StateAt(a, p, r, m, states[m]);
    EndOfRule(a.g, r, a.g.rrhs[r] + m);
    RuleShape(a.g, r);
    assert RedsOk(a, states[m]);
    assert Rhs(a.g, r, m) == RhsOf(a.g, r);
  }

  /** The states along the right-hand side of a rule; the last one reduces it. */
  method WalkRule(a: Automaton, state1: nat, rule: nat) returns (states: seq<nat>)
    requires 3 <= rule < |a.g.rrhs| && InRule(a.g, rule, a.g.rrhs[rule]) && InState(a, state1, a.g.rrhs[rule])
    ensures StatesOk(a, state1, rule, states) && a.g.ritem[a.g.rrhs[rule] + |states| - 1] < 0
  {
    hide IsLr0, RawGrammar.Valid, StateAt, InState, Trans;
    StatesStart(a, state1, rule);
    states := [state1];
    var stateno := state1;
    var rp := a.g.rrhs[rule];
    while a.g.ritem[rp] >= 0
      invariant StatesOk(a, state1, rule, states) && rp == a.g.rrhs[rule] + |states| - 1
      invariant stateno == states[|states|-1]
      decreases |a.g.ritem| - rp
    {
      ghost var target := StatesStep(a, state1, rule, states);
      stateno := FindShift(a, stateno, a.g.ritem[rp], target);
      states := states + [stateno];
      rp := rp + 1;
    }
  }

  // ---------------------------------------------------------------------------------
  // The walk backwards.

  /** Transition k is on a symbol of rule r at position m or later. */
  ghost predicate IncludesFrom(a: Automaton, gt: Gotos, k: nat, i: nat, r: nat, m: nat)
  {
    exists n: nat :: m <= n && IncludesAt(a, gt, k, i, r, n)
  }

  lemma {:induction false} SuffixLater(g: Grammar, r: nat, i: nat, j: nat)
    requires InRule(g, r, i) && InRule(g, r, j) && i <= j && NullableSuffix(g, i)
    ensures NullableSuffix(g, j)
    decreases j - i
  {
    if i < j {
      RuleShape(g, r);
      SuffixLater(g, r, i + 1, j);
    }
  }

  /** Behind a symbol that is not nullable there is nothing more to find. */
  lemma SuffixStops(a: Automaton, gt: Gotos, i: nat, r: nat, m: nat)
    requires 0 < r < |a.g.rrhs| && InRule(a.g, r, a.g.rrhs[r] + m) && !NullableSuffix(a.g, a.g.rrhs[r] + m)
    ensures forall k: nat, n: nat :: n < m ==> !IncludesAt(a, gt, k, i, r, n)
  {
    hide IsLr0, RawGrammar.Valid, Walk;
    forall k: nat, n: nat | n < m ensures !IncludesAt(a, gt, k, i, r, n) {
      if IncludesAt(a, gt, k, i, r, n) {
        SuffixLater(a.g, r, a.g.rrhs[r] + n + 1, a.g.rrhs[r] + m);
      }
    }
  }

  /** There is exactly one transition for a position of the rule. */
  lemma IncludesOne(a: Automaton, gt: Gotos, i: nat, r: nat, states: seq<nat>, m: nat, l: nat, k: nat)
    requires IsGotos(a, gt) && i < |gt.to| && a.g.IsRule(r) && a.g.rlhs[r] == Symbol(a, gt, i)
    requires StatesOk(a, gt.from[i], r, states) && m < |states| - 1
    requires a.g.IsVar(a.g.ritem[a.g.rrhs[r] + m]) && NullableSuffix(a.g, a.g.rrhs[r] + m + 1)
    requires l < |gt.to| && gt.from[l] == states[m] && Trans(a, states[m], a.g.ritem[a.g.rrhs[r] + m], gt.to[l])
    ensures IncludesAt(a, gt, k, i, r, m) <==> k == l
  {
    hide IsLr0, RawGrammar.Valid, InState;
    assert StateAt(a, gt.from[i], r, m, states[m]);
    if IncludesAt(a, gt, k, i, r, m) {
      WalkUnique(a, gt.from[i], Rhs(a.g, r, m), states[m], gt.from[k]);
      assert GotoOk(a, gt, k);
      TransUnique(a, states[m], a.g.ritem[a.g.rrhs[r] + m], gt.to[l], gt.to[k]);
      SameGoto(a, gt, k, l);
    }
  }

  /** The edges found so far: those there were, and those of rule r from position m on. */
  ghost predicate Found(a: Automaton, gt: Gotos, i: nat, r: nat, m: nat, was: seq<nat>, edge: seq<nat>)
  {
    forall k: nat :: k in edge <==> k in was || IncludesFrom(a, gt, k, i, r, m)
  }

  lemma FoundNone(a: Automaton, gt: Gotos, i: nat, r: nat, m: nat, was: seq<nat>)
    requires r < |a.g.rrhs| && InRule(a.g, r, a.g.rrhs[r] + m) && a.g.ritem[a.g.rrhs[r] + m] < 0
    ensures Found(a, gt, i, r, m, was, was)
  {
    EndOfRule(a.g, r, a.g.rrhs[r] + m);
    RuleShape(a.g, r);
    hide IsLr0, RawGrammar.Valid, Walk, NullableSuffix;
    forall k: nat, n: nat | m <= n ensures !IncludesAt(a, gt, k, i, r, n) {
    }
  }

  lemma FoundMore(a: Automaton, gt: Gotos, i: nat, r: nat, states: seq<nat>, m: nat, l: nat, was: seq<nat>, edge: seq<nat>)
    requires IsGotos(a, gt) && i < |gt.to| && a.g.IsRule(r) && a.g.rlhs[r] == Symbol(a, gt, i)
    requires StatesOk(a, gt.from[i], r, states) && m < |states| - 1
    requires a.g.IsVar(a.g.ritem[a.g.rrhs[r] + m]) && NullableSuffix(a.g, a.g.rrhs[r] + m + 1)
    requires l < |gt.to| && gt.from[l] == states[m] && Trans(a, states[m], a.g.ritem[a.g.rrhs[r] + m], gt.to[l])
    requires Found(a, gt, i, r, m + 1, was, edge)
    ensures Found(a, gt, i, r, m, was, edge + [l])
  {
    hide IsLr0, IsGotos, RawGrammar.Valid, IncludesAt, StatesOk, Symbol, Trans, NullableSuffix;
    forall k: nat ensures IncludesFrom(a, gt, k, i, r, m) <==> IncludesFrom(a, gt, k, i, r, m + 1) || k == l {
      IncludesOne(a, gt, i, r, states, m, l, k);
      if IncludesFrom(a, gt, k, i, r, m) {
        var n: nat :| m <= n && IncludesAt(a, gt, k, i, r, n);
        assert n > m ==> IncludesFrom(a, gt, k, i, r, m + 1);
      }
    }
  }

  lemma FoundAll(a: Automaton, gt: Gotos, i: nat, r: nat, m: nat, was: seq<nat>, edge: seq<nat>)
    requires Found(a, gt, i, r, m, was, edge)
    requires forall k: nat, n: nat :: n < m ==> !IncludesAt(a, gt, k, i, r, n)
    ensures Found(a, gt, i, r, 0, was, edge)
  {
    hide IsLr0, RawGrammar.Valid, IncludesAt;
    forall k: nat ensures IncludesFrom(a, gt, k, i, r, 0) <==> IncludesFrom(a, gt, k, i, r, m) {
      if IncludesFrom(a, gt, k, i, r, 0) {
        var n: nat :| IncludesAt(a, gt, k, i, r, n);
      }
    }
  }

  /** What precedes the first symbol of a rule ends the rule before it. */
  lemma BeforeRule(g: Grammar, r: nat)
    requires 3 <= r && g.IsRule(r)
    ensures 0 < g.rrhs[r] <= |g.ritem| && g.ritem[g.rrhs[r] - 1] < 0
  {
    RuleShape(g, r - 1);
    RuleShape(g, r);
  }

  lemma PositionFacts(a: Automaton, p: nat, r: nat, states: seq<nat>, m: nat) returns (q: nat)
    requires StatesOk(a, p, r, states) && m < |states|
    ensures InRule(a.g, r, a.g.rrhs[r] + m) && a.g.rrhs[r] + m < |a.g.ritem|
    ensures m < |states| - 1 ==> 0 <= a.g.ritem[a.g.rrhs[r] + m] < a.g.nsyms
    ensures m < |states| - 1 ==> Trans(a, states[m], a.g.ritem[a.g.rrhs[r] + m], q)
  {
    hide IsLr0;
    q := 0;
    assert StateAt(a, p, r, m, states[m]);
    RuleShape(a.g, r);
    if m < |states| - 1 {
      assert a.g.UserRule(r);
      MoveItem(a, states[m], a.g.rrhs[r] + m);
      q :| Trans(a, states[m], a.g.ritem[a.g.rrhs[r] + m], q);
    }
  }

  lemma StatesSize(a: Automaton, p: nat, r: nat, states: seq<nat>)
    requires StatesOk(a, p, r, states)
    ensures |states| >= 1 && r < |a.g.rrhs|
  {
  }

  lemma GotosSize(a: Automaton, gt: Gotos)
    requires IsGotos(a, gt)
    ensures |gt.from| == |gt.to| > 0
  {
  }

  /** The edges that one rule of the variable of transition i contributes. */
  method BackRule(a: Automaton, gotoMap: seq<nat>, fromState: seq<nat>, toState: seq<nat>, nullable: seq<bool>,
                  i: nat, rule: nat, states: seq<nat>, was: seq<nat>) returns (edge: seq<nat>)
    requires IsGotoMap(a, gotoMap, fromState, toState) && IsGotos(a, Gotos(fromState, toState))
    requires NullableOk(a.g, nullable) && i < |toState|
    requires a.g.IsRule(rule) && a.g.rlhs[rule] == Symbol(a, Gotos(fromState, toState), i)
    requires StatesOk(a, fromState[i], rule, states) && a.g.ritem[a.g.rrhs[rule] + |states| - 1] < 0
    ensures Found(a, Gotos(fromState, toState), i, rule, 0, was, edge)
  {
    hide IsLr0, RawGrammar.Valid, IsGotoMap, IsGotos, StatesOk, Trans, Found, IncludesAt, Symbol;
    ghost var gt := Gotos(fromState, toState);
    GotosSize(a, gt);
    GotoRule(a, gt, i, rule);
    BeforeRule(a.g, rule);
    StatesSize(a, fromState[i], rule, states);
    edge := was;
    var length: nat := |states| - 1;
    ghost var target := PositionFacts(a, fromState[i], rule, states, length);
    var rp: nat := a.g.rrhs[rule] + length;
    FoundNone(a, gt, i, rule, length, was);
    var done := false;
    while !done
      invariant length <= |states| - 1 && Found(a, gt, i, rule, length, was, edge)
      invariant !done ==> rp == a.g.rrhs[rule] + length && NullableSuffix(a.g, rp)
      invariant done ==> forall k: nat, n: nat :: n < length ==> !IncludesAt(a, gt, k, i, rule, n)
      decreases !done, length
    {
      done := true;
      rp := rp - 1;
      if length > 0 { target := PositionFacts(a, fromState[i], rule, states, length - 1); }
      if a.g.ritem[rp] >= a.g.ntokens {
        length := length - 1;
        var l := MapGoto(a, gotoMap, fromState, toState, states[length], a.g.ritem[rp], target);
        FoundMore(a, gt, i, rule, states, length, l, was, edge);
        edge := edge + [l];
        if nullable[a.g.ritem[rp]] && length > 0 {
          done := false;
        } else if length > 0 {
          SuffixStops(a, gt, i, rule, length);
        }
      } else if length > 0 {
        TokenStops(a, gt, i, rule, length - 1);
      }
    }
    FoundAll(a, gt, i, rule, length, was, edge);
  }

  lemma TokenStops(a: Automaton, gt: Gotos, i: nat, r: nat, m: nat)
    requires 0 < r < |a.g.rrhs| && InRule(a.g, r, a.g.rrhs[r] + m) && 0 <= a.g.ritem[a.g.rrhs[r] + m] < a.g.ntokens
    ensures forall k: nat, n: nat :: n < m + 1 ==> !IncludesAt(a, gt, k, i, r, n)
  {
    hide IsLr0, RawGrammar.Valid, Walk;
    SuffixStops(a, gt, i, r, m);
  }

  // ---------------------------------------------------------------------------------
  // The lookback lists.

  /** Rule r was handled for transition k: all rules below i, and the first c rules for i itself. */
  ghost predicate Handled(i: nat, rules: seq<nat>, c: nat, r: nat, k: nat)
  {
    k < i || (k == i && c <= |rules| && r in rules[..c])
  }

  /** The list of every row holds the transitions handled so far from which its rule leads to its state. */
  ghost predicate LookedBack(a: Automaton, gt: Gotos, lookaheads: seq<nat>, i: nat, rules: seq<nat>, c: nat,
                             lb: seq<seq<nat>>)
  {
    forall row: nat, q: nat, r: nat, k: nat :: row < |lb| && IsRow(a, lookaheads, row, q, r) ==>
      (k in lb[row] <==> Lookback(a, gt, q, r, k) && Handled(i, rules, c, r, k))
  }

  lemma HandledNext(i: nat, rules: seq<nat>, c: nat, r: nat, k: nat)
    requires c < |rules|
    ensures Handled(i, rules, c + 1, r, k) <==> Handled(i, rules, c, r, k) || (k == i && r == rules[c])
  {
    assert rules[..c + 1] == rules[..c] + [rules[c]];
  }

  lemma RowOfReduction(a: Automaton, lookaheads: seq<nat>, row: nat, row': nat, q: nat, r: nat)
    requires IsRow(a, lookaheads, row, q, r) && IsRow(a, lookaheads, row', q, r)
    ensures row == row'
  {
    assert RedsOk(a, q);
  }

  lemma LookedBackStep(a: Automaton, gt: Gotos, lookaheads: seq<nat>, LAruleno: seq<nat>, i: nat, rules: seq<nat>, c: nat,
                       lb: seq<seq<nat>>, stateno: nat, row: nat)
    requires IsLaTable(a, lookaheads, LAruleno) && LookedBack(a, gt, lookaheads, i, rules, c, lb) && c < |rules|
    requires row < |lb| && IsRow(a, lookaheads, row, stateno, rules[c]) && Lookback(a, gt, stateno, rules[c], i)
    ensures LookedBack(a, gt, lookaheads, i, rules, c + 1, lb[row := [i] + lb[row]])
  {
    hide IsLr0, IsLaTable, RawGrammar.Valid, Handled, IsRow;
    var lb' := lb[row := [i] + lb[row]];
    var next := c + 1;
    forall x: nat, q: nat, r: nat, k: nat | x < |lb'| && IsRow(a, lookaheads, x, q, r)
      ensures k in lb'[x] <==> Lookback(a, gt, q, r, k) && Handled(i, rules, next, r, k)
    {
      assert k in lb[x] <==> Lookback(a, gt, q, r, k) && Handled(i, rules, c, r, k);
      HandledNext(i, rules, c, r, k);
      if x == row {
        RowUnique(a, lookaheads, LAruleno, row, q, r, stateno, rules[c]);
      } else if k == i && r == rules[c] && Lookback(a, gt, q, r, k) {
        WalkUnique(a, gt.from[k], RhsOf(a.g, r), q, stateno);
        RowOfReduction(a, lookaheads, x, row, q, r);
      }
    }
  }

  /** When all rules of transition i were handled, it is the turn of the next one. */
  lemma LookedBackRow(a: Automaton, gt: Gotos, lookaheads: seq<nat>, i: nat, rules: seq<nat>, rules': seq<nat>,
                      lb: seq<seq<nat>>)
    requires LookedBack(a, gt, lookaheads, i, rules, |rules|, lb)
    requires forall r: nat :: a.g.IsRule(r) && a.g.rlhs[r] == Symbol(a, gt, i) ==> r in rules
    ensures LookedBack(a, gt, lookaheads, i + 1, rules', 0, lb)
  {
    hide IsLr0, RawGrammar.Valid, Walk, IsRow;
    var next := i + 1;
    assert rules[..|rules|] == rules;
    forall row: nat, q: nat, r: nat, k: nat | row < |lb| && IsRow(a, lookaheads, row, q, r)
      ensures k in lb[row] <==> Lookback(a, gt, q, r, k) && Handled(next, rules', 0, r, k)
    {
      assert k in lb[row] <==> Lookback(a, gt, q, r, k) && Handled(i, rules, |rules|, r, k);
    }
  }

  lemma LookedBackNone(a: Automaton, gt: Gotos, lookaheads: seq<nat>, rules: seq<nat>, lb: seq<seq<nat>>)
    requires forall row :: 0 <= row < |lb| ==> lb[row] == []
    ensures LookedBack(a, gt, lookaheads, 0, rules, 0, lb)
  {
  }

  // ---------------------------------------------------------------------------------

  /** The edges of transition i by the first c rules of its variable. */
  ghost predicate RuleEdges(a: Automaton, gt: Gotos, i: nat, rules: seq<nat>, c: nat, edge: seq<nat>)
  {
    forall k: nat :: k in edge <==> EdgeAmong(a, gt, i, rules, c, k)
  }

  ghost predicate EdgeAmong(a: Automaton, gt: Gotos, i: nat, rules: seq<nat>, c: nat, k: nat)
  {
    exists d: nat :: d < c && d < |rules| && IncludesFrom(a, gt, k, i, rules[d], 0)
  }

  lemma RuleEdgesNext(a: Automaton, gt: Gotos, i: nat, rules: seq<nat>, c: nat, was: seq<nat>, edge: seq<nat>)
    requires RuleEdges(a, gt, i, rules, c, was) && c < |rules| && Found(a, gt, i, rules[c], 0, was, edge)
    ensures RuleEdges(a, gt, i, rules, c + 1, edge)
  {
    hide IsLr0, IncludesFrom;
    var next := c + 1;
    forall k: nat ensures EdgeAmong(a, gt, i, rules, next, k) <==> EdgeAmong(a, gt, i, rules, c, k) || IncludesFrom(a, gt, k, i, rules[c], 0) {
      if EdgeAmong(a, gt, i, rules, next, k) {
        var d: nat :| d < next && d < |rules| && IncludesFrom(a, gt, k, i, rules[d], 0);
        assert d < c ==> EdgeAmong(a, gt, i, rules, c, k);
      }
    }
  }

  lemma RuleEdgesAll(a: Automaton, gt: Gotos, i: nat, rules: seq<nat>, edge: seq<nat>)
    requires RuleEdges(a, gt, i, rules, |rules|, edge)
    requires forall r: nat :: r in rules <==> r < |a.g.rlhs| && a.g.rlhs[r] == Symbol(a, gt, i)
    ensures forall k: nat :: k in edge <==> Includes(a, gt, k, i)
  {
    hide IsLr0, RawGrammar.Valid, Walk, NullableSuffix;
    forall k: nat ensures EdgeAmong(a, gt, i, rules, |rules|, k) <==> Includes(a, gt, k, i) {
      if EdgeAmong(a, gt, i, rules, |rules|, k) {
        var d: nat :| d < |rules| && IncludesFrom(a, gt, k, i, rules[d], 0);
        var n: nat :| IncludesAt(a, gt, k, i, rules[d], n);
      }
      if Includes(a, gt, k, i) {
        var r: nat, n: nat :| IncludesAt(a, gt, k, i, r, n);
        assert r in rules;
        var d :| 0 <= d < |rules| && rules[d] == r;
        assert IncludesFrom(a, gt, k, i, rules[d], 0);
      }
    }
  }

  /** One transition: its lookback edges, and its edges in the relation that is turned round later. */
  method BuildRow(a: Automaton, gotoMap: seq<nat>, fromState: seq<nat>, toState: seq<nat>, nullable: seq<bool>,
                  derives: seq<seq<nat>>, lookaheads: seq<nat>, LAruleno: seq<nat>, lookback: array<seq<nat>>, i: nat)
      returns (edge: seq<nat>)
    requires IsGotoMap(a, gotoMap, fromState, toState) && IsGotos(a, Gotos(fromState, toState))
    requires NullableOk(a.g, nullable) && DerivesOk(a.g, derives) && i < |toState|
    requires IsLaTable(a, lookaheads, LAruleno) && lookback.Length == |LAruleno|
    requires LookedBack(a, Gotos(fromState, toState), lookaheads, i, [], 0, lookback[..])
    modifies lookback
    ensures LookedBack(a, Gotos(fromState, toState), lookaheads, i + 1, [], 0, lookback[..])
    ensures forall k: nat :: k in edge <==> Includes(a, Gotos(fromState, toState), k, i)
  {
    hide IsLr0, RawGrammar.Valid, IsGotoMap, IsGotos, IsLaTable, DerivesOk, LookedBack, RuleEdges, Lookback, StatesOk,
      Found, Includes;
    ghost var gt := Gotos(fromState, toState);
    GotosSize(a, gt);
    SameSizes(a);
    GotoSymbol(a, gt, i);
    var symbol1 := a.access[toState[i]];
    DerivesRules(a.g, derives, symbol1);
    var rules := derives[symbol1];
    edge := [];
    RuleEdgesNone(a, gt, i, rules);
    LookedBackSwitch(a, gt, lookaheads, i, rules, lookback[..]);
    var c: nat := 0;
    while c < |rules|
      invariant c <= |rules| && RuleEdges(a, gt, i, rules, c, edge)
      invariant LookedBack(a, gt, lookaheads, i, rules, c, lookback[..])
    {
      ghost var lb, was := lookback[..], edge;
      assert rules[c] in rules;
      GotoRule(a, gt, i, rules[c]);
      var states := WalkRule(a, fromState[i], rules[c]);
      StatesSize(a, fromState[i], rules[c], states);
      StatesEnd(a, fromState[i], rules[c], states);
      var stateno := states[|states|-1];
      ghost var row := AddLookbackEdge(a, lookaheads, LAruleno, lookback, stateno, rules[c], i);
      LookbackIs(a, gt, stateno, rules[c], i);
      LookedBackStep(a, gt, lookaheads, LAruleno, i, rules, c, lb, stateno, row);
      edge := BackRule(a, gotoMap, fromState, toState, nullable, i, rules[c], states, edge);
      RuleEdgesNext(a, gt, i, rules, c, was, edge);
      c := c + 1;
    }
    LookedBackRow(a, gt, lookaheads, i, rules, [], lookback[..]);
    RuleEdgesAll(a, gt, i, rules, edge);
  }

  lemma GotoSymbol(a: Automaton, gt: Gotos, i: nat)
    requires IsGotos(a, gt) && i < |gt.to|
    ensures gt.to[i] < |a.access| && a.access[gt.to[i]] == Symbol(a, gt, i) && a.g.ntokens <= Symbol(a, gt, i) < a.g.nsyms
  {
    assert GotoOk(a, gt, i);
    TransSymbol(a, gt.from[i], Symbol(a, gt, i), gt.to[i]);
  }

  lemma DerivesRules(g: Grammar, derives: seq<seq<nat>>, symbol: nat)
    requires DerivesOk(g, derives) && g.ntokens <= symbol < g.nsyms
    ensures symbol < |derives|
    ensures forall r: nat :: r in derives[symbol] <==> r < |g.rlhs| && g.rlhs[r] == symbol
    ensures forall r: nat :: r in derives[symbol] ==> g.IsRule(r)
  {
  }

  lemma RuleEdgesNone(a: Automaton, gt: Gotos, i: nat, rules: seq<nat>)
    ensures RuleEdges(a, gt, i, rules, 0, [])
  {
  }

  lemma LookedBackSwitch(a: Automaton, gt: Gotos, lookaheads: seq<nat>, i: nat, rules: seq<nat>, lb: seq<seq<nat>>)
    requires LookedBack(a, gt, lookaheads, i, [], 0, lb)
    ensures LookedBack(a, gt, lookaheads, i, rules, 0, lb)
  {
    hide IsLr0, IsRow, Lookback;
    forall row: nat, q: nat, r: nat, k: nat | row < |lb| && IsRow(a, lookaheads, row, q, r)
      ensures k in lb[row] <==> Lookback(a, gt, q, r, k) && Handled(i, rules, 0, r, k)
    {
      assert k in lb[row] <==> Lookback(a, gt, q, r, k) && Handled(i, [], 0, r, k);
    }
  }

  lemma LookbackIs(a: Automaton, gt: Gotos, q: nat, r: nat, i: nat)
    requires IsGotos(a, gt) && i < |gt.from| && a.g.IsRule(r) && a.g.rlhs[r] == Symbol(a, gt, i)
    requires Walk(a, gt.from[i], RhsOf(a.g, r), q)
    ensures Lookback(a, gt, q, r, i)
  {
  }

  // ---------------------------------------------------------------------------------

  /** The raw relation holds, of the transitions below n, what each of them is included by. */
  ghost predicate RawIncludes(a: Automaton, gt: Gotos, n: nat, raw: seq<seq<nat>>)
  {
    && |raw| == |gt.to|
    && forall i: nat, k: nat :: i < n && i < |raw| ==> (k in raw[i] <==> Includes(a, gt, k, i))
  }

  lemma RawNext(a: Automaton, gt: Gotos, n: nat, raw: seq<seq<nat>>, edge: seq<nat>)
    requires RawIncludes(a, gt, n, raw) && n < |raw|
    requires forall k: nat :: k in edge <==> Includes(a, gt, k, n)
    ensures RawIncludes(a, gt, n + 1, raw[n := edge])
  {
    hide Includes;
  }

  lemma RawGraph(a: Automaton, gt: Gotos, raw: seq<seq<nat>>)
    requires RawIncludes(a, gt, |gt.to|, raw) && |gt.from| == |gt.to|
    ensures IsGraph(raw)
    ensures forall i: nat, k: nat :: Adjacent(raw)(i, k) == Includes(a, gt, k, i)
  {
    hide IsLr0, RawGrammar.Valid, Walk, NullableSuffix;
    forall i, c | 0 <= i < |raw| && 0 <= c < |raw[i]| ensures raw[i][c] < |raw| {
      assert raw[i][c] in raw[i];
      var k := raw[i][c];
      var r: nat, m: nat :| IncludesAt(a, gt, k, i, r, m);
    }
    forall i: nat, k: nat ensures Adjacent(raw)(i, k) == Includes(a, gt, k, i) {
      if Includes(a, gt, k, i) {
        var r: nat, m: nat :| IncludesAt(a, gt, k, i, r, m);
      }
    }
  }

  /** includes has an edge from k to i exactly if the follow set of k includes that of i, and the list of every
      lookahead row holds exactly the transitions that its rule looks back to. */
  method BuildRelations(a: Automaton, gotoMap: seq<nat>, fromState: seq<nat>, toState: seq<nat>, nullable: seq<bool>,
                         derives: seq<seq<nat>>, lookaheads: seq<nat>, LAruleno: seq<nat>, lookback: array<seq<nat>>)
      returns (includes: seq<seq<nat>>)
    requires IsGotoMap(a, gotoMap, fromState, toState) && IsGotos(a, Gotos(fromState, toState))
    requires NullableOk(a.g, nullable) && DerivesOk(a.g, derives)
    requires IsLaTable(a, lookaheads, LAruleno) && lookback.Length == |LAruleno|
    requires forall row :: 0 <= row < lookback.Length ==> lookback[row] == []
    modifies lookback
    ensures IsGraph(includes) && |includes| == |toState|
    ensures forall k: nat, i: nat :: Adjacent(includes)(k, i) == Includes(a, Gotos(fromState, toState), k, i)
    ensures LookedBack(a, Gotos(fromState, toState), lookaheads, |toState|, [], 0, lookback[..])
  {
    hide IsLr0, RawGrammar.Valid, IsGotoMap, IsGotos, IsLaTable, DerivesOk, LookedBack, RawIncludes, Includes;
    ghost var gt := Gotos(fromState, toState);
    GotosSize(a, gt);
    var ngotos := |toState|;
    var raw := new seq<nat>[ngotos](_ => []);
    LookedBackNone(a, gt, lookaheads, [], lookback[..]);
    RawNone(a, gt, raw[..]);
    var i: nat := 0;
    while i < ngotos
      invariant i <= ngotos && RawIncludes(a, gt, i, raw[..])
      invariant LookedBack(a, gt, lookaheads, i, [], 0, lookback[..])
    {
      var edge := BuildRow(a, gotoMap, fromState, toState, nullable, derives, lookaheads, LAruleno, lookback, i);
      RawNext(a, gt, i, raw[..], edge);
      raw[i] := edge;
      i := i + 1;
    }
    RawGraph(a, gt, raw[..]);
    includes := Transpose(raw[..]);
    TransposeEdges(raw[..], includes);
  }

  lemma RawNone(a: Automaton, gt: Gotos, raw: seq<seq<nat>>)
    requires |raw| == |gt.to|
    ensures RawIncludes(a, gt, 0, raw)
  {
  }
}
