/** The relations of jay/lalr.c over the nonterminal transitions, and what the lookahead sets built from them mean. */
module Lookaheads {
  import opened Relation
  import opened Grammars
  import opened Automata
  import opened Lr1

  /** The nonterminal transitions: number k leads from state from[k] to state to[k]. */
  datatype Gotos = Gotos(from: seq<nat>, to: seq<nat>)

  ghost predicate GotoOk(a: Automaton, gt: Gotos, k: nat)
  {
    && k < |gt.from| && k < |gt.to|
    && Trans(a, gt.from[k], Symbol(a, gt, k), gt.to[k]) && a.g.IsVar(Symbol(a, gt, k))
  }

  /** The variable of transition k. */
  ghost function Symbol(a: Automaton, gt: Gotos, k: nat): nat
  {
    if k < |gt.to| && gt.to[k] < |a.access| then a.access[gt.to[k]] else 0
  }

  ghost predicate IsGotoOf(gt: Gotos, k: nat, p: nat, q: nat)
  {
    k < |gt.from| == |gt.to| && gt.from[k] == p && gt.to[k] == q
  }

  /** All nonterminal transitions, each once, the one on the goal from the first state first. */
  ghost predicate IsGotos(a: Automaton, gt: Gotos)
  {
    && |gt.from| == |gt.to| > 0
    && (forall k: nat :: k < |gt.to| ==> GotoOk(a, gt, k))
    && (forall p: nat, s: nat, q: nat :: Trans(a, p, s, q) && a.g.IsVar(s) ==> exists k: nat :: IsGotoOf(gt, k, p, q))
    && (forall k: nat, l: nat :: k < l < |gt.to| ==> gt.from[k] != gt.from[l] || gt.to[k] != gt.to[l])
    && gt.from[0] == 0 && Symbol(a, gt, 0) == a.g.ntokens + 1
  }

  /** Token t can be shifted right after transition k; the end marker follows the goal. */
  ghost predicate Shows(a: Automaton, gt: Gotos, k: nat, t: int)
  {
    && k < |gt.to|
    && ((k == 0 && t == 0) || (!a.g.IsVar(t) && exists q: nat :: Trans(a, gt.to[k], t, q)))
  }

  ghost predicate Reads(a: Automaton, gt: Gotos, k: nat, l: nat)
  {
    k < |gt.to| && l < |gt.from| == |gt.to| && gt.from[l] == gt.to[k] && Nullable(a.g, Symbol(a, gt, l))
  }

  /** The transition k is on a symbol of a rule of transition j's variable, at position m, with a nullable rest. */
  ghost predicate IncludesAt(a: Automaton, gt: Gotos, k: nat, j: nat, r: nat, m: nat)
  {
    && k < |gt.from| == |gt.to| && j < |gt.from|
    && r < |a.g.rrhs| && InRule(a.g, r, a.g.rrhs[r] + m) && a.g.rlhs[r] == Symbol(a, gt, j)
    && a.g.ritem[a.g.rrhs[r] + m] == Symbol(a, gt, k) && a.g.IsVar(Symbol(a, gt, k))
    && NullableSuffix(a.g, a.g.rrhs[r] + m + 1)
    && Walk(a, gt.from[j], Rhs(a.g, r, m), gt.from[k])
  }

  ghost predicate Includes(a: Automaton, gt: Gotos, k: nat, j: nat)
  {
    exists r: nat, m: nat :: IncludesAt(a, gt, k, j, r, m)
  }

  ghost function ReadsEdges(a: Automaton, gt: Gotos): Edges
  {
    (k: nat, l: nat) => Reads(a, gt, k, l)
  }

  ghost function IncludesEdges(a: Automaton, gt: Gotos): Edges
  {
    (k: nat, j: nat) => Includes(a, gt, k, j)
  }

  /** What initialize_F computes: the tokens read after transition k, skipping nullable variables. */
  ghost predicate Read(a: Automaton, gt: Gotos, k: nat, t: int)
  {
    exists l: nat :: Reach(ReadsEdges(a, gt), k, l) && Shows(a, gt, l, t)
  }

  /** What compute_FOLLOWS computes. */
  ghost predicate Follow(a: Automaton, gt: Gotos, k: nat, t: int)
  {
    exists j: nat :: Reach(IncludesEdges(a, gt), k, j) && Read(a, gt, j, t)
  }

  ghost predicate Lookback(a: Automaton, gt: Gotos, q: nat, r: nat, k: nat)
  {
    && k < |gt.from| == |gt.to| && a.g.IsRule(r) && Symbol(a, gt, k) == a.g.rlhs[r]
    && Walk(a, gt.from[k], RhsOf(a.g, r), q)
  }

  /** What compute_lookaheads computes for rule r in state q. */
  ghost predicate La(a: Automaton, gt: Gotos, q: nat, r: nat, t: int)
  {
    exists k: nat :: Lookback(a, gt, q, r, k) && Follow(a, gt, k, t)
  }

  // ---------------------------------------------------------------------------------
  // Every token of a lookahead set has an LR(1) item.

  /** Along some word to the source of transition k, an LR(1) item before its variable is followed by t. */
  ghost predicate Context(a: Automaton, gt: Gotos, lenient: bool, k: nat, t: int)
  {
    k < |gt.from| && exists word, j: nat, b: int :: ContextAt(a, gt, lenient, k, t, word, j, b)
  }

  ghost predicate ContextAt(a: Automaton, gt: Gotos, lenient: bool, k: nat, t: int, word: seq<int>, j: nat, b: int)
    requires k < |gt.from|
  {
    && Walk(a, 0, word, gt.from[k]) && Item(a.g, lenient, word, j, b)
    && j < |a.g.ritem| && a.g.ritem[j] == Symbol(a, gt, k) && FirstOrAfter(a.g, j + 1, b, t)
  }

  lemma FirstExpand(g: Grammar, i: nat, r: nat, t: int)
    requires g.Expands(i, r) && First(g, g.rrhs[r], t)
    ensures First(g, i, t)
  {
    var n: nat :| FirstAt(g, n, g.rrhs[r], t);
    assert FirstAt(g, n + 1, i, t);
  }

  lemma FirstSkip(g: Grammar, i: nat, t: int)
    requires i < |g.ritem| && g.ritem[i] >= 0 && Nullable(g, g.ritem[i]) && First(g, i + 1, t)
    ensures First(g, i, t)
  {
    var n: nat :| FirstAt(g, n, i + 1, t);
    assert FirstAt(g, n + 1, i, t);
  }

  ghost predicate KernelFirst(a: Automaton, q: nat, t: int)
  {
    q < |a.kernels| && exists x :: x in a.kernels[q] && First(a.g, x, t)
  }

  lemma FirstFromKernel(a: Automaton, q: nat, i: nat, t: int)
    requires InState(a, q, i) && First(a.g, i, t)
    ensures KernelFirst(a, q, t)
  {
    forall j: nat, r: nat | a.g.Expands(j, r) && First(a.g, a.g.rrhs[r], t) ensures First(a.g, j, t) {
      FirstExpand(a.g, j, r, t);
    }
    ClosureOrigin(a.g, a.kernels[q], i, (x: nat) => First(a.g, x, t));
  }

  lemma ShowsKernel(a: Automaton, gt: Gotos, k: nat, t: int)
    requires k < |gt.to| && !a.g.IsVar(t) && exists q: nat :: Trans(a, gt.to[k], t, q)
    ensures KernelFirst(a, gt.to[k], t)
  {
    var q: nat :| Trans(a, gt.to[k], t, q);
    assert ShiftsOk(a, gt.to[k]);
    var z := a.kernels[q][0];
    KernelBack(a, gt.to[k], t, q, z);
    assert FirstAt(a.g, 0, z - 1, t);
    FirstFromKernel(a, gt.to[k], z - 1, t);
  }

  lemma ReadsKernel(a: Automaton, gt: Gotos, k: nat, l: nat, t: int)
    requires IsGotos(a, gt) && Reads(a, gt, k, l) && KernelFirst(a, gt.to[l], t)
    ensures KernelFirst(a, gt.to[k], t)
  {
    assert GotoOk(a, gt, l);
    var x :| x in a.kernels[gt.to[l]] && First(a.g, x, t);
    KernelBack(a, gt.from[l], Symbol(a, gt, l), gt.to[l], x);
    FirstSkip(a.g, x - 1, t);
    FirstFromKernel(a, gt.to[k], x - 1, t);
  }

  lemma GotoTarget(a: Automaton, gt: Gotos, k: nat)
    requires IsGotos(a, gt) && k < |gt.to|
    ensures 1 <= gt.to[k] < |a.kernels| && gt.from[k] < |a.kernels|
  {
    assert GotoOk(a, gt, k);
    assert ShiftsOk(a, gt.from[k]);
  }

  /** The end marker is only read after the goal. */
  lemma ReadsNotGoal(a: Automaton, gt: Gotos, k: nat)
    requires IsGotos(a, gt)
    ensures !Reads(a, gt, k, 0)
  {
    if k < |gt.to| {
      GotoTarget(a, gt, k);
    }
  }

  lemma ReadKernel(a: Automaton, gt: Gotos, k: nat, t: int)
    requires IsGotos(a, gt) && Read(a, gt, k, t)
    ensures (k == 0 && t == 0) || (k < |gt.to| && KernelFirst(a, gt.to[k], t))
  {
    var l: nat :| Reach(ReadsEdges(a, gt), k, l) && Shows(a, gt, l, t);
    if l == 0 && t == 0 {
      ReachLast(ReadsEdges(a, gt), k, l);
      forall m: nat ensures !Reads(a, gt, m, 0) { ReadsNotGoal(a, gt, m); }
    } else {
      ShowsKernel(a, gt, l, t);
      var prop := (x: nat) => x < |gt.to| && KernelFirst(a, gt.to[x], t);
      if !prop(k) {
        forall x: nat, y: nat | !prop(x) && ReadsEdges(a, gt)(x, y) ensures !prop(y) {
          if prop(y) { ReadsKernel(a, gt, x, y, t); }
        }
        ReachInvariant(ReadsEdges(a, gt), k, l, (x: nat) => !prop(x));
      }
    }
  }

  lemma ReadContext(a: Automaton, gt: Gotos, lenient: bool, k: nat, t: int)
    requires lenient || Live(a.g)
    requires IsGotos(a, gt) && Read(a, gt, k, t)
    ensures Context(a, gt, lenient, k, t)
  {
    ReadKernel(a, gt, k, t);
    if k < |gt.to| && KernelFirst(a, gt.to[k], t) {
      var x :| x in a.kernels[gt.to[k]] && First(a.g, x, t);
      assert GotoOk(a, gt, k);
      KernelBack(a, gt.from[k], Symbol(a, gt, k), gt.to[k], x);
      assert Reachable(a, gt.from[k]);
      var word :| Walk(a, 0, word, gt.from[k]);
      SomeLookahead(a, lenient, word, gt.from[k], x - 1);
      var b :| Item(a.g, lenient, word, x - 1, b);
      assert ContextAt(a, gt, lenient, k, t, word, x - 1, b);
    } else {
      ItemStart(a.g, lenient);
      assert Walk(a, 0, [], 0);
      assert FirstAt(a.g, 0, 2, 0);
      assert ContextAt(a, gt, lenient, 0, 0, [], 1, 0);
    }
  }

  lemma IncludesContext(a: Automaton, gt: Gotos, lenient: bool, k: nat, j: nat, t: int)
    requires IsGotos(a, gt) && Includes(a, gt, k, j) && Context(a, gt, lenient, j, t)
    ensures Context(a, gt, lenient, k, t)
  {
    var r: nat, m: nat :| IncludesAt(a, gt, k, j, r, m);
    var word, i: nat, b: int :| ContextAt(a, gt, lenient, j, t, word, i, b);
    UserRuleOfGoto(a, gt, j, r);
    assert GotoOk(a, gt, j);
    hide IsLr0, Item, NullableSuffix, IsGotos, First;
    ItemClose(a.g, lenient, word, i, b, r, t);
    ItemWalk(a.g, lenient, word, r, m, t);
    WalkTrans(a, 0, word, gt.from[j], Rhs(a.g, r, m), gt.from[k]);
    assert ContextAt(a, gt, lenient, k, t, word + Rhs(a.g, r, m), a.g.rrhs[r] + m, t);
  }

  /** A rule of the variable of a transition is a rule of the user: $accept is not on any right-hand side. */
  lemma UserRuleOfGoto(a: Automaton, gt: Gotos, j: nat, r: nat)
    requires IsGotos(a, gt) && j < |gt.to| && a.g.IsRule(r) && a.g.rlhs[r] == Symbol(a, gt, j)
    ensures r >= 3
  {
    assert GotoOk(a, gt, j);
    assert ShiftsOk(a, gt.from[j]);
    var x := a.kernels[gt.to[j]][0];
    KernelBack(a, gt.from[j], Symbol(a, gt, j), gt.to[j], x);
    AcceptNowhere(a.g, x - 1);
  }

  lemma AcceptNowhere(g: Grammar, i: nat)
    requires g.IsItem(i)
    ensures g.ritem[i] != g.ntokens
  {
    var r := RuleOfItem(g, i);
    EndOfRule(g, r, i);
    if r >= 3 {
      assert g.UserRule(r);
    }
  }

  lemma FollowContext(a: Automaton, gt: Gotos, lenient: bool, k: nat, t: int)
    requires lenient || Live(a.g)
    requires IsGotos(a, gt) && Follow(a, gt, k, t)
    ensures Context(a, gt, lenient, k, t)
  {
    var j: nat :| Reach(IncludesEdges(a, gt), k, j) && Read(a, gt, j, t);
    ReadContext(a, gt, lenient, j, t);
    ContextAlong(a, gt, lenient, k, j, t);
  }

  lemma ContextAlong(a: Automaton, gt: Gotos, lenient: bool, k: nat, j: nat, t: int)
    requires IsGotos(a, gt) && Reach(IncludesEdges(a, gt), k, j) && Context(a, gt, lenient, j, t)
    ensures Context(a, gt, lenient, k, t)
  {
    var prop := (x: nat) => Context(a, gt, lenient, x, t);
    if !prop(k) {
      forall x: nat, y: nat | !prop(x) && IncludesEdges(a, gt)(x, y) ensures !prop(y) {
        if prop(y) { IncludesContext(a, gt, lenient, x, y, t); }
      }
      ReachInvariant(IncludesEdges(a, gt), k, j, (x: nat) => !prop(x));
    }
  }

  // ---------------------------------------------------------------------------------
  // Every LR(1) item is found by the relations.

  lemma ReadEdge(a: Automaton, gt: Gotos, k: nat, l: nat, t: int)
    requires Reads(a, gt, k, l) && Read(a, gt, l, t)
    ensures Read(a, gt, k, t)
  {
    var m: nat :| Reach(ReadsEdges(a, gt), l, m) && Shows(a, gt, m, t);
    ReachStep(ReadsEdges(a, gt), k, l, m);
  }

  lemma ReadNow(a: Automaton, gt: Gotos, k: nat, t: int)
    requires Shows(a, gt, k, t)
    ensures Read(a, gt, k, t)
  {
    ReachRefl(ReadsEdges(a, gt), k);
  }

  /** t can be shifted in state q, or after nullable transitions out of it. */
  ghost predicate Readable(a: Automaton, gt: Gotos, q: nat, t: int)
  {
    || (!a.g.IsVar(t) && exists q': nat :: Trans(a, q, t, q'))
    || exists l: nat :: NullableFrom(a, gt, q, l) && Read(a, gt, l, t)
  }

  ghost predicate NullableFrom(a: Automaton, gt: Gotos, q: nat, l: nat)
  {
    l < |gt.from| == |gt.to| && gt.from[l] == q && Nullable(a.g, Symbol(a, gt, l))
  }

  lemma ReadableGoto(a: Automaton, gt: Gotos, k: nat, t: int)
    requires IsGotos(a, gt) && k < |gt.to| && Readable(a, gt, gt.to[k], t)
    ensures Read(a, gt, k, t)
  {
    if !a.g.IsVar(t) && exists q': nat :: Trans(a, gt.to[k], t, q') {
      ReadNow(a, gt, k, t);
    } else {
      var l: nat :| NullableFrom(a, gt, gt.to[k], l) && Read(a, gt, l, t);
      ReadEdge(a, gt, k, l, t);
    }
  }

  lemma {:induction false} FirstReadable(a: Automaton, gt: Gotos, q: nat, n: nat, i: nat, t: int)
    requires IsGotos(a, gt) && InState(a, q, i) && FirstAt(a.g, n, i, t) && t > 0
    ensures Readable(a, gt, q, t)
    decreases n
  {
    var g := a.g;
    if !g.IsVar(g.ritem[i]) && t == g.ritem[i] {
      MoveItem(a, q, i);
    } else if exists r: nat :: g.Expands(i, r) && FirstAt(g, n - 1, g.rrhs[r], t) {
      var r: nat :| g.Expands(i, r) && FirstAt(g, n - 1, g.rrhs[r], t);
      ClosureStep(g, a.kernels[q], i, r);
      FirstReadable(a, gt, q, n - 1, g.rrhs[r], t);
    } else {
      NullableIsVar(g, g.ritem[i]);
      MoveItem(a, q, i);
      var q2: nat :| Trans(a, q, g.ritem[i], q2) && InState(a, q2, i + 1);
      FirstReadable(a, gt, q2, n - 1, i + 1, t);
      var l: nat :| IsGotoOf(gt, l, q, q2);
      ReadableGoto(a, gt, l, t);
      assert NullableFrom(a, gt, q, l);
    }
  }

  lemma NullableIsVar(g: Grammar, x: int)
    requires Nullable(g, x)
    ensures g.IsVar(x) && x > 0
  {
    var n: nat :| NullableAt(g, n, x);
  }

  /** Only the two items of $accept that come before the end marker begin with it. */
  lemma {:induction false} FirstEnd(g: Grammar, n: nat, i: nat)
    requires g.IsItem(i) && FirstAt(g, n, i, 0)
    ensures i <= 2
    decreases n
  {
    var s := RuleOfItem(g, i);
    EndOfRule(g, s, i);
    if s >= 3 {
      assert g.UserRule(s);
      RuleShape(g, s);
      if exists r: nat :: g.Expands(i, r) && FirstAt(g, n - 1, g.rrhs[r], 0) {
        var r: nat :| g.Expands(i, r) && FirstAt(g, n - 1, g.rrhs[r], 0);
        RuleShape(g, r);
        FirstEnd(g, n - 1, g.rrhs[r]);
      } else {
        NextItem(g, i);
        FirstEnd(g, n - 1, i + 1);
      }
    }
  }

  /** Item 1 is only in the first state. */
  lemma StartItem(a: Automaton, p: nat)
    requires InState(a, p, 1)
    ensures p == 0
  {
    ClosureCases(a.g, a.kernels[p], 1);
    if 1 !in a.kernels[p] {
      var j: nat, r: nat :| InClosure(a.g, a.kernels[p], j) && a.g.Expands(j, r) && 1 == a.g.rrhs[r];
      RuleShape(a.g, r);
      ClosureItem(a.g, a.kernels[p], j);
      AcceptNowhere(a.g, j);
    } else if p != 0 {
      assert Reachable(a, p);
      var word :| Walk(a, 0, word, p);
      var m: nat :| Walk(a, 0, Front(word), m) && Trans(a, m, Last(word), p);
      KernelBack(a, m, Last(word), p, 1);
    }
  }

  lemma GoalGoto(a: Automaton, gt: Gotos, k: nat)
    requires IsGotos(a, gt) && k < |gt.to| && InState(a, gt.from[k], 1) && Symbol(a, gt, k) == a.g.ntokens + 1
    ensures k == 0
  {
    StartItem(a, gt.from[k]);
    assert GotoOk(a, gt, 0) && GotoOk(a, gt, k);
    TransUnique(a, 0, a.g.ntokens + 1, gt.to[k], gt.to[0]);
  }

  /** After transition k the state holds every item of its source that moves over the variable. */
  lemma GotoMoves(a: Automaton, gt: Gotos, k: nat, j: nat)
    requires IsGotos(a, gt) && k < |gt.to| && InState(a, gt.from[k], j)
    requires j < |a.g.ritem| && a.g.ritem[j] == Symbol(a, gt, k)
    ensures InState(a, gt.to[k], j + 1) && a.g.IsItem(j) && a.g.IsItem(j + 1)
  {
    assert GotoOk(a, gt, k);
    assert Symbol(a, gt, k) > 0 by { assert ShiftsOk(a, gt.from[k]); }
    ClosureItem(a.g, a.kernels[gt.from[k]], j);
    NextItem(a.g, j);
    MoveItem(a, gt.from[k], j);
    var q: nat :| Trans(a, gt.from[k], a.g.ritem[j], q) && InState(a, q, j + 1);
    TransUnique(a, gt.from[k], a.g.ritem[j], q, gt.to[k]);
  }

  /** A token that can follow the variable of transition k inside a rule is read after it. */
  lemma FirstRead(a: Automaton, gt: Gotos, k: nat, j: nat, t: int)
    requires IsGotos(a, gt) && k < |gt.to| && InState(a, gt.from[k], j)
    requires j < |a.g.ritem| && a.g.ritem[j] == Symbol(a, gt, k) && First(a.g, j + 1, t)
    ensures Read(a, gt, k, t)
  {
    GotoMoves(a, gt, k, j);
    var n: nat :| FirstAt(a.g, n, j + 1, t);
    FirstIsToken(a.g, n, j + 1, t);
    hide IsLr0, FirstAt, First, InState;
    if t == 0 {
      FirstEnd(a.g, n, j + 1);
      GoalGoto(a, gt, k);
      ReadNow(a, gt, k, t);
    } else {
      FirstReadable(a, gt, gt.to[k], n, j + 1, t);
      ReadableGoto(a, gt, k, t);
    }
  }

  lemma FollowEdge(a: Automaton, gt: Gotos, k: nat, j: nat, t: int)
    requires Includes(a, gt, k, j) && Follow(a, gt, j, t)
    ensures Follow(a, gt, k, t)
  {
    var l: nat :| Reach(IncludesEdges(a, gt), j, l) && Read(a, gt, l, t);
    ReachStep(IncludesEdges(a, gt), k, j, l);
  }

  /** An item with a nullable rest behind its dot hands its lookahead on from the transition on its rule. */
  lemma NullableRest(a: Automaton, gt: Gotos, lenient: bool, n: nat, word: seq<int>, j: nat, b: int, k: nat)
    returns (n0: nat, word0: seq<int>, j0: nat, b0: int, k0: nat)
    requires IsGotos(a, gt) && k < |gt.to| && Walk(a, 0, word, gt.from[k]) && InState(a, gt.from[k], j)
    requires ItemAt(a.g, lenient, n, word, j, b) && b >= 0
    requires j < |a.g.ritem| && a.g.ritem[j] == Symbol(a, gt, k) && NullableSuffix(a.g, j + 1)
    ensures n0 < n && k0 < |gt.to| && Walk(a, 0, word0, gt.from[k0]) && ItemAt(a.g, lenient, n0, word0, j0, b0)
    ensures j0 < |a.g.ritem| && a.g.ritem[j0] == Symbol(a, gt, k0) && FirstOrAfter(a.g, j0 + 1, b0, b)
    ensures Includes(a, gt, k, k0)
  {
    hide IsLr0, InState, ItemAt, NullableSuffix, First, Walk, Rhs, AddsRule, GotoOk, IsGotoOf, Symbol, RawGrammar.Valid;
    var s, m := RestOfRule(a, gt, k, j);
    var p0;
    n0, word0, p0, j0, b0 := OriginOfItem(a, lenient, n, word, gt.from[k], s, m, b);
    AddedBy(a.g, lenient, j0, b0, s, b);
    k0 := GotoOfItem(a, gt, lenient, n0, word0, p0, j0, b0, s);
    IncludesIntro(a, gt, k, k0, s, m);
  }

  /** An item with a variable and a nullable rest behind its dot lies in a rule of the user. */
  lemma RestOfRule(a: Automaton, gt: Gotos, k: nat, j: nat) returns (s: nat, m: nat)
    requires IsGotos(a, gt) && k < |gt.to| && InState(a, gt.from[k], j)
    requires j < |a.g.ritem| && a.g.ritem[j] == Symbol(a, gt, k) && NullableSuffix(a.g, j + 1)
    ensures s >= 3 && a.g.IsRule(s) && s < |a.g.rrhs| && j == a.g.rrhs[s] + m && InRule(a.g, s, j)
    ensures a.g.IsVar(a.g.ritem[j])
  {
    var g := a.g;
    ClosureItem(g, a.kernels[gt.from[k]], j);
    s := RuleOfItem(g, j);
    m := j - g.rrhs[s];
    assert GotoOk(a, gt, k);
    RuleWithNullableRest(g, s, j);
  }

  lemma AddedBy(g: Grammar, lenient: bool, j: nat, b: int, s: nat, t: int)
    requires AddsRule(g, lenient, j, b, s, t)
    ensures g.Expands(j, s) && j < |g.ritem| && s < |g.rlhs| && g.rlhs[s] == g.ritem[j]
    ensures t >= 0 ==> FirstOrAfter(g, j + 1, b, t)
  {
  }

  lemma IncludesIntro(a: Automaton, gt: Gotos, k: nat, j: nat, r: nat, m: nat)
    requires k < |gt.from| == |gt.to| && j < |gt.from| && r < |a.g.rrhs| && InRule(a.g, r, a.g.rrhs[r] + m)
    requires r < |a.g.rlhs| && a.g.rlhs[r] == Symbol(a, gt, j) && a.g.rrhs[r] + m < |a.g.ritem|
    requires a.g.ritem[a.g.rrhs[r] + m] == Symbol(a, gt, k) && a.g.IsVar(Symbol(a, gt, k))
    requires NullableSuffix(a.g, a.g.rrhs[r] + m + 1) && a.g.IsRule(r)
    requires Walk(a, gt.from[j], Rhs(a.g, r, m), gt.from[k])
    ensures Includes(a, gt, k, j)
  {
    assert IncludesAt(a, gt, k, j, r, m);
  }

  /** An item inside a rule of the user goes back to the state where the rule was started and the item that started it. */
  lemma OriginOfItem(a: Automaton, lenient: bool, n: nat, word: seq<int>, p: nat, s: nat, m: nat, b: int)
    returns (n0: nat, word0: seq<int>, p0: nat, j0: nat, b0: int)
    requires s >= 3 && a.g.IsRule(s) && s < |a.g.rrhs| && InRule(a.g, s, a.g.rrhs[s] + m)
    requires Walk(a, 0, word, p) && InState(a, p, a.g.rrhs[s] + m) && ItemAt(a.g, lenient, n, word, a.g.rrhs[s] + m, b)
    ensures a.g.rrhs[s] + m <= |a.g.ritem|
    ensures n0 < n && Walk(a, 0, word0, p0) && Walk(a, p0, Rhs(a.g, s, m), p)
    ensures ItemAt(a.g, lenient, n0, word0, j0, b0) && AddsRule(a.g, lenient, j0, b0, s, b)
  {
    hide IsLr0, InState, ItemAt, Walk, Rhs, AddsRule, RawGrammar.Valid;
    InRuleInside(a.g, s, a.g.rrhs[s] + m);
    RuleBack(a, word, p, s, m);
    p0 :| RuleStarts(a, word, s, m, p0, p);
    word0 := word[..|word|-m];
    ItemBack(a.g, lenient, n, word, s, m, b);
    ItemOrigin(a.g, lenient, n - m, word0, s, b);
    n0 := n - m - 1;
    j0, b0 :| ItemAt(a.g, lenient, n0, word0, j0, b0) && AddsRule(a.g, lenient, j0, b0, s, b);
  }

  lemma InRuleInside(g: Grammar, r: nat, i: nat)
    requires InRule(g, r, i)
    ensures i < |g.ritem|
  {
    RuleShape(g, r);
  }

  /** The rest of $accept behind the goal is not nullable. */
  lemma RuleWithNullableRest(g: Grammar, s: nat, j: nat)
    requires InRule(g, s, j) && g.IsVar(g.ritem[j]) && NullableSuffix(g, j + 1)
    ensures s >= 3
  {
    if s == 2 {
      assert j == 1;
      NullableIsVar(g, 0);
    }
  }

  lemma GotoOfItem(a: Automaton, gt: Gotos, lenient: bool, n: nat, word: seq<int>, p: nat, j: nat, b: int, s: nat)
    returns (k: nat)
    requires IsGotos(a, gt) && Walk(a, 0, word, p) && ItemAt(a.g, lenient, n, word, j, b)
    requires s >= 3 && a.g.Expands(j, s)
    ensures k < |gt.to| && gt.from[k] == p && Symbol(a, gt, k) == a.g.ritem[j]
  {
    assert a.g.UserRule(s);
    ItemOnState(a, lenient, n, word, j, b);
    var p': nat :| Walk(a, 0, word, p') && InState(a, p', j);
    WalkUnique(a, 0, word, p, p');
    MoveItem(a, p, j);
    var q: nat :| Trans(a, p, a.g.ritem[j], q) && InState(a, q, j + 1);
    k :| IsGotoOf(gt, k, p, q);
  }

  lemma {:induction false} ItemFollow(a: Automaton, gt: Gotos, lenient: bool, n: nat, word: seq<int>, j: nat, b: int,
                                      k: nat, t: int)
    requires IsGotos(a, gt) && k < |gt.to| && Walk(a, 0, word, gt.from[k]) && ItemAt(a.g, lenient, n, word, j, b)
    requires j < |a.g.ritem| && a.g.ritem[j] == Symbol(a, gt, k) && FirstOrAfter(a.g, j + 1, b, t) && t >= 0
    ensures Follow(a, gt, k, t)
    decreases n
  {
    ItemOnState(a, lenient, n, word, j, b);
    var p: nat :| Walk(a, 0, word, p) && InState(a, p, j);
    WalkUnique(a, 0, word, p, gt.from[k]);
    if First(a.g, j + 1, t) {
      FirstRead(a, gt, k, j, t);
      ReachRefl(IncludesEdges(a, gt), k);
    } else {
      var n0, word0, j0, b0, k0 := NullableRest(a, gt, lenient, n, word, j, b, k);
      ItemFollow(a, gt, lenient, n0, word0, j0, b0, k0, t);
      FollowEdge(a, gt, k, k0, t);
    }
  }

  // ---------------------------------------------------------------------------------
  // The main results.

  /** t is a lookahead of the completed rule r in some LR(1) state whose core is state q. */
  ghost predicate Merged(a: Automaton, lenient: bool, q: nat, r: nat, t: int)
  {
    exists word :: Walk(a, 0, word, q) && Item(a.g, lenient, word, EndItem(a.g, r), t)
  }

  lemma LaSound(a: Automaton, gt: Gotos, lenient: bool, q: nat, r: nat, t: int)
    requires lenient || Live(a.g)
    requires IsGotos(a, gt) && La(a, gt, q, r, t)
    ensures Merged(a, lenient, q, r, t)
  {
    var k: nat :| Lookback(a, gt, q, r, k) && Follow(a, gt, k, t);
    FollowContext(a, gt, lenient, k, t);
    ContextMerged(a, gt, lenient, q, r, k, t);
  }

  lemma ContextMerged(a: Automaton, gt: Gotos, lenient: bool, q: nat, r: nat, k: nat, t: int)
    requires IsGotos(a, gt) && Lookback(a, gt, q, r, k) && Context(a, gt, lenient, k, t)
    ensures Merged(a, lenient, q, r, t)
  {
    var g := a.g;
    var word, j: nat, b: int :| ContextAt(a, gt, lenient, k, t, word, j, b);
    UserRuleOfGoto(a, gt, k, r);
    assert GotoOk(a, gt, k);
    hide IsLr0, Item, IsGotos, First, Follow;
    ItemClose(g, lenient, word, j, b, r, t);
    RuleShape(g, r);
    var m := g.rrhs[r+1] - 1 - g.rrhs[r];
    ItemWalk(g, lenient, word, r, m, t);
    assert Rhs(g, r, m) == RhsOf(g, r);
    WalkTrans(a, 0, word, gt.from[k], RhsOf(g, r), q);
  }

  /** A completed rule goes back to the state where it was started and the item that started it. */
  lemma CompletedBack(a: Automaton, lenient: bool, q: nat, r: nat, t: int)
    returns (n: nat, word0: seq<int>, p0: nat, j: nat, b: int)
    requires r >= 3 && a.g.IsRule(r) && Merged(a, lenient, q, r, t)
    ensures Walk(a, 0, word0, p0) && Walk(a, p0, RhsOf(a.g, r), q)
    ensures ItemAt(a.g, lenient, n, word0, j, b) && AddsRule(a.g, lenient, j, b, r, t)
  {
    hide IsLr0, InState, ItemAt, Walk, Rhs, RhsOf, EndItem, InRule, AddsRule, RawGrammar.Valid;
    var g := a.g;
    var m := RuleLength(g, r);
    var word :| Walk(a, 0, word, q) && Item(g, lenient, word, EndItem(g, r), t);
    var l: nat :| ItemAt(g, lenient, l, word, EndItem(g, r), t);
    ItemOnState(a, lenient, l, word, EndItem(g, r), t);
    var q': nat :| Walk(a, 0, word, q') && InState(a, q', EndItem(g, r));
    WalkUnique(a, 0, word, q, q');
    n, word0, p0, j, b := OriginOfItem(a, lenient, l, word, q, r, m, t);
  }

  lemma RuleLength(g: Grammar, r: nat) returns (m: nat)
    requires g.IsRule(r)
    ensures r < |g.rrhs| && g.rrhs[r] + m <= |g.ritem| && InRule(g, r, g.rrhs[r] + m)
    ensures Rhs(g, r, m) == RhsOf(g, r) && EndItem(g, r) == g.rrhs[r] + m
  {
    RuleShape(g, r);
    m := g.rrhs[r+1] - 1 - g.rrhs[r];
  }

  lemma LaComplete(a: Automaton, gt: Gotos, lenient: bool, q: nat, r: nat, t: int)
    requires IsGotos(a, gt) && r >= 3 && a.g.IsRule(r) && t >= 0 && Merged(a, lenient, q, r, t)
    ensures La(a, gt, q, r, t)
  {
    var n, word0, p0, j, b := CompletedBack(a, lenient, q, r, t);
    var k := GotoOfItem(a, gt, lenient, n, word0, p0, j, b, r);
    ItemFollow(a, gt, lenient, n, word0, j, b, k, t);
    assert Lookback(a, gt, q, r, k);
  }

  /** What the generator computes, for every grammar: the LR(1) lookaheads merged over equal cores, except that an
      item keeps taking part after a closure step that hands it no lookahead at all. */
  lemma LalrIsMergedLenient(a: Automaton, gt: Gotos, q: nat, r: nat, t: int)
    requires IsGotos(a, gt) && r >= 3 && a.g.IsRule(r) && t >= 0
    ensures La(a, gt, q, r, t) <==> Merged(a, true, q, r, t)
  {
    if La(a, gt, q, r, t) { LaSound(a, gt, true, q, r, t); }
    if Merged(a, true, q, r, t) { LaComplete(a, gt, true, q, r, t); }
  }

  /** LALR(1): in a grammar where something can follow every variable of a right-hand side, the lookahead sets are
      the canonical LR(1) lookaheads merged over equal cores. */
  lemma LalrIsMergedLr1(a: Automaton, gt: Gotos, q: nat, r: nat, t: int)
    requires Live(a.g)
    requires IsGotos(a, gt) && r >= 3 && a.g.IsRule(r) && t >= 0
    ensures La(a, gt, q, r, t) <==> Merged(a, false, q, r, t)
  {
    if La(a, gt, q, r, t) { LaSound(a, gt, false, q, r, t); }
    if Merged(a, false, q, r, t) { LaComplete(a, gt, false, q, r, t); }
  }

  /** No canonical LR(1) lookahead is ever missing, whatever the grammar. */
  lemma LalrCoversLr1(a: Automaton, gt: Gotos, q: nat, r: nat, t: int)
    requires IsGotos(a, gt) && r >= 3 && a.g.IsRule(r) && t >= 0 && Merged(a, false, q, r, t)
    ensures La(a, gt, q, r, t)
  {
    LaComplete(a, gt, false, q, r, t);
  }
}
