/** What the LR(0) automaton of a grammar is (jay/lr0.c), as sequences indexed by state number. */
module Automata {
  import opened Relation
  import opened Grammars

  /** kernels and access describe the cores, shifts and reds the shift and the reduction records. */
  datatype RawAutomaton = RawAutomaton(g: Grammar, kernels: seq<seq<nat>>, access: seq<nat>, shifts: seq<seq<nat>>, reds: seq<seq<nat>>)

  ghost predicate Sizes(a: RawAutomaton)
  {
    |a.kernels| == |a.access| == |a.shifts| == |a.reds| > 0
  }

  /** Strictly ascending items. */
  ghost predicate KernelOk(g: Grammar, kernel: seq<nat>)
  {
    && (forall k, l :: 0 <= k < l < |kernel| ==> kernel[k] < kernel[l])
    && (forall k :: k in kernel ==> g.IsItem(k))
  }

  /** The kernel reached by the symbol: every item of the closure with its dot moved over the symbol. */
  ghost predicate IsSuccessor(g: Grammar, kernel: seq<nat>, symbol: nat, kernel': seq<nat>)
  {
    forall j: nat :: j in kernel' <==> Moves(g, kernel, symbol, j)
  }

  ghost predicate Moves(g: Grammar, kernel: seq<nat>, symbol: nat, j: nat)
  {
    1 <= j < |g.ritem| && g.ritem[j-1] == symbol && InClosure(g, kernel, j - 1)
  }

  ghost predicate Trans(a: RawAutomaton, p: nat, symbol: int, q: nat)
  {
    p < |a.shifts| && q in a.shifts[p] && q < |a.access| && a.access[q] == symbol
  }

  /** The shift record of state p: all its successors, by ascending symbol. */
  ghost predicate ShiftRecord(g: Grammar, kernels: seq<seq<nat>>, access: seq<nat>, p: nat, shift: seq<nat>)
    requires |kernels| == |access| && p < |kernels|
  {
    && (forall k :: 0 <= k < |shift| ==> 1 <= shift[k] < |kernels|)
    && (forall k, l :: 0 <= k < l < |shift| ==> access[shift[k]] < access[shift[l]])
    && (forall q :: q in shift ==> access[q] > 0 && kernels[q] != [] && IsSuccessor(g, kernels[p], access[q], kernels[q]))
    && (forall i: nat :: i < |g.ritem| && InClosure(g, kernels[p], i) && g.ritem[i] > 0 ==>
          ShiftsOn(access, shift, g.ritem[i]))
  }

  ghost predicate ShiftsOn(access: seq<nat>, shift: seq<nat>, symbol: int)
  {
    exists q :: q in shift && q < |access| && access[q] == symbol
  }

  ghost predicate ShiftsOk(a: RawAutomaton, p: nat)
    requires Sizes(a) && p < |a.shifts|
  {
    ShiftRecord(a.g, a.kernels, a.access, p, a.shifts[p])
  }

  /** The reduction record of a state: the rules whose end lies in the closure, ascending. */
  ghost predicate ReductionRecord(g: Grammar, kernel: seq<nat>, rules: seq<nat>)
  {
    && (forall k, l :: 0 <= k < l < |rules| ==> rules[k] < rules[l])
    && (forall r: nat :: r in rules <==> g.IsRule(r) && InClosure(g, kernel, EndItem(g, r)))
  }

  ghost predicate RedsOk(a: RawAutomaton, p: nat)
    requires Sizes(a) && p < |a.reds|
  {
    ReductionRecord(a.g, a.kernels[p], a.reds[p])
  }

  ghost function EndItem(g: Grammar, r: nat): nat
  {
    if g.IsRule(r) && g.rrhs[r+1] > 0 then g.rrhs[r+1] - 1 else 0
  }

  ghost function Front(word: seq<int>): seq<int>
    requires word != []
  {
    word[..|word|-1]
  }

  ghost function Last(word: seq<int>): int
    requires word != []
  {
    word[|word|-1]
  }

  /** The last m letters of a word are the last m - 1 before its last one, and that. */
  lemma TailStep(word: seq<int>, m: nat)
    requires 0 < m <= |word|
    ensures word[|word|-m..] == Front(word)[|Front(word)|-(m-1)..] + [Last(word)]
    ensures word[..|word|-m] == Front(word)[..|Front(word)|-(m-1)]
  {
  }

  /** The word leads from state p to state q. */
  ghost predicate Walk(a: RawAutomaton, p: nat, word: seq<int>, q: nat)
    decreases |word|
  {
    if word == [] then p == q
    else exists m: nat :: Walk(a, p, Front(word), m) && Trans(a, m, Last(word), q)
  }

  ghost predicate Reachable(a: RawAutomaton, p: nat)
  {
    exists word :: Walk(a, 0, word, p)
  }

  ghost predicate IsLr0(a: RawAutomaton)
  {
    && Sizes(a)
    && a.kernels[0] == [1] && a.access[0] == 0
    && (forall p :: 0 <= p < |a.kernels| ==> KernelOk(a.g, a.kernels[p]))
    && (forall p, q :: 0 <= p < q < |a.kernels| ==> a.kernels[p] != a.kernels[q])
    && (forall p :: 0 <= p < |a.kernels| ==> ShiftsOk(a, p))
    && (forall p :: 0 <= p < |a.kernels| ==> RedsOk(a, p))
    && (forall p :: 0 <= p < |a.kernels| ==> Reachable(a, p))
  }

  const SmallestTables := RawAutomaton(SmallestGrammar, [[1], [2]], [0, 2], [[1], []], [[3], []])

  lemma SmallestReachable(p: nat)
    requires p < 2
    ensures Reachable(SmallestTables, p)
  {
    var a := SmallestTables;
    assert Walk(a, 0, [], 0);
    if p == 1 {
      assert Front([2]) == [] && Last([2]) == 2 && Trans(a, 0, 2, 1);
      assert Walk(a, 0, [2], 1);
    }
  }

  /** The one move over a symbol: over the goal. */
  lemma SmallestMove(p: nat, symbol: nat, j: nat)
    requires p < 2 && symbol > 0
    ensures Moves(SmallestGrammar, SmallestTables.kernels[p], symbol, j) <==> p == 0 && symbol == 2 && j == 2
  {
    SmallestClosures();
    hide InClosure;
  }

  lemma SmallestShifts(p: nat)
    requires p < 2
    ensures ShiftsOk(SmallestTables, p)
  {
    hide Moves;
    var a := SmallestTables;
    forall symbol: nat, j: nat | symbol > 0 ensures Moves(a.g, a.kernels[p], symbol, j) <==> p == 0 && symbol == 2 && j == 2 {
      SmallestMove(p, symbol, j);
    }
    if p == 0 {
      assert a.shifts[0] == [1] && a.access[1] == 2;
      assert IsSuccessor(a.g, a.kernels[0], 2, [2]);
    }
    forall i: nat | i < |a.g.ritem| && InClosure(a.g, a.kernels[p], i) && a.g.ritem[i] > 0
      ensures ShiftsOn(a.access, a.shifts[p], a.g.ritem[i])
    {
      SmallestHas(p, i);
    }
  }

  lemma SmallestHas(p: nat, i: nat)
    requires p < 2 && i < |SmallestGrammar.ritem| && InClosure(SmallestGrammar, SmallestTables.kernels[p], i)
    requires SmallestGrammar.ritem[i] > 0
    ensures ShiftsOn(SmallestTables.access, SmallestTables.shifts[p], SmallestGrammar.ritem[i])
  {
    SmallestClosures();
    hide InClosure;
    assert p == 0 && i == 1;
    assert SmallestTables.shifts[0][0] in SmallestTables.shifts[0];
  }

  lemma SmallestReductions(p: nat)
    requires p < 2
    ensures RedsOk(SmallestTables, p)
  {
    var a := SmallestTables;
    SmallestClosures();
    hide InClosure;
    assert EndItem(a.g, 2) == 3 && EndItem(a.g, 3) == 4;
  }

  lemma SmallestIsLr0()
    ensures IsLr0(SmallestTables)
  {
    var a := SmallestTables;
    assert a.kernels[0][0] != a.kernels[1][0];
    assert KernelOk(a.g, a.kernels[0]) && KernelOk(a.g, a.kernels[1]);
    hide ShiftsOk, RedsOk, Reachable;
    forall p: nat | p < 2 ensures ShiftsOk(a, p) && RedsOk(a, p) && Reachable(a, p) {
      SmallestShifts(p);
      SmallestReductions(p);
      SmallestReachable(p);
    }
  }

  lemma SmallestClosures()
    ensures forall i: nat :: InClosure(SmallestGrammar, [1], i) <==> i == 1 || i == 4
    ensures forall i: nat :: InClosure(SmallestGrammar, [2], i) <==> i == 2
  {
    var g: Grammar := SmallestGrammar;
    assert g.Expands(1, 3);
    KernelInClosure(g, [1], 1);
    ClosureStep(g, [1], 1, 3);
    KernelInClosure(g, [2], 2);
    forall i: nat | InClosure(g, [1], i) ensures i == 1 || i == 4 {
      ClosureInduction(g, [1], i, (x: nat) => x == 1 || x == 4);
    }
    forall i: nat | InClosure(g, [2], i) ensures i == 2 {
      ClosureInduction(g, [2], i, (x: nat) => x == 2);
    }
  }

  /** The automaton of the smallest grammar: a state for the start and one after the goal. */
  ghost function SmallestAutomaton(): (a: RawAutomaton)
    ensures IsLr0(a)
  {
    SmallestIsLr0();
    SmallestTables
  }

  type Automaton = a: RawAutomaton | IsLr0(a) ghost witness SmallestAutomaton()

  ghost function Rhs(g: Grammar, r: nat, m: nat): seq<int>
    requires g.IsRule(r) && g.rrhs[r] + m <= |g.ritem|
  {
    g.ritem[g.rrhs[r]..g.rrhs[r]+m]
  }

  /** The whole right-hand side of rule r. */
  ghost function RhsOf(g: Grammar, r: nat): seq<int>
    requires g.IsRule(r)
  {
    RuleShape(g, r);
    g.ritem[g.rrhs[r]..g.rrhs[r+1]-1]
  }

  // ---------------------------------------------------------------------------------

  lemma KernelInClosure(g: Grammar, kernel: seq<nat>, i: nat)
    requires i in kernel
    ensures InClosure(g, kernel, i)
  {
    ReachRefl(Closes(g), i);
  }

  lemma ClosureStep(g: Grammar, kernel: seq<nat>, i: nat, r: nat)
    requires InClosure(g, kernel, i) && g.Expands(i, r)
    ensures InClosure(g, kernel, g.rrhs[r])
  {
    var k: nat :| k in kernel && Reach(Closes(g), k, i);
    ReachSnoc(Closes(g), k, i, g.rrhs[r]);
  }

  /** An item of the closure lies in the kernel or starts a rule that another item of the closure expands. */
  lemma ClosureCases(g: Grammar, kernel: seq<nat>, i: nat)
    requires InClosure(g, kernel, i)
    ensures i in kernel || exists j: nat, r: nat :: InClosure(g, kernel, j) && g.Expands(j, r) && i == g.rrhs[r]
  {
    var k: nat :| k in kernel && Reach(Closes(g), k, i);
    ReachLast(Closes(g), k, i);
    if k != i {
      var j :| Reach(Closes(g), k, j) && Closes(g)(j, i);
      assert InClosure(g, kernel, j);
    }
  }

  lemma ClosureItem(g: Grammar, kernel: seq<nat>, i: nat)
    requires KernelOk(g, kernel) && InClosure(g, kernel, i)
    ensures g.IsItem(i)
  {
    ClosureCases(g, kernel, i);
    if i !in kernel {
      var j: nat, r: nat :| InClosure(g, kernel, j) && g.Expands(j, r) && i == g.rrhs[r];
      RuleShape(g, r);
    }
  }

  /** A property that passes backwards along closure steps holds at a kernel item if it holds at all. */
  lemma ClosureOrigin(g: Grammar, kernel: seq<nat>, i: nat, prop: nat -> bool)
    requires InClosure(g, kernel, i) && prop(i)
    requires forall j: nat, r: nat :: g.Expands(j, r) && prop(g.rrhs[r]) ==> prop(j)
    ensures exists k :: k in kernel && prop(k)
  {
    var k: nat :| k in kernel && Reach(Closes(g), k, i);
    if !prop(k) {
      ReachInvariant(Closes(g), k, i, (x: nat) => !prop(x));
    }
  }

  /** A property that holds on the kernel and passes along closure steps holds on the closure. */
  lemma ClosureInduction(g: Grammar, kernel: seq<nat>, i: nat, prop: nat -> bool)
    requires InClosure(g, kernel, i)
    requires forall k :: k in kernel ==> prop(k)
    requires forall j: nat, r: nat :: g.Expands(j, r) && prop(j) ==> prop(g.rrhs[r])
    ensures prop(i)
  {
    var k: nat :| k in kernel && Reach(Closes(g), k, i);
    ReachInvariant(Closes(g), k, i, prop);
  }

  lemma WalkSnoc(a: RawAutomaton, p: nat, word: seq<int>, m: nat, symbol: int, q: nat)
    requires Walk(a, p, word, m) && Trans(a, m, symbol, q)
    ensures Walk(a, p, word + [symbol], q)
  {
    var w := word + [symbol];
    assert Front(w) == word && Last(w) == symbol;
  }

  lemma {:induction false} WalkTrans(a: RawAutomaton, p: nat, u: seq<int>, m: nat, v: seq<int>, q: nat)
    requires Walk(a, p, u, m) && Walk(a, m, v, q)
    ensures Walk(a, p, u + v, q)
    decreases |v|
  {
    if v == [] {
      assert u + v == u;
    } else {
      var n: nat :| Walk(a, m, Front(v), n) && Trans(a, n, Last(v), q);
      WalkTrans(a, p, u, m, Front(v), n);
      WalkSnoc(a, p, u + Front(v), n, Last(v), q);
      assert u + v == u + Front(v) + [Last(v)];
    }
  }

  lemma TransUnique(a: Automaton, p: nat, symbol: int, q: nat, q': nat)
    requires Trans(a, p, symbol, q) && Trans(a, p, symbol, q')
    ensures q == q'
  {
    assert ShiftsOk(a, p);
    var k: nat :| 0 <= k < |a.shifts[p]| && a.shifts[p][k] == q;
    var l: nat :| 0 <= l < |a.shifts[p]| && a.shifts[p][l] == q';
  }

  lemma {:induction false} WalkUnique(a: Automaton, p: nat, word: seq<int>, q: nat, q': nat)
    requires Walk(a, p, word, q) && Walk(a, p, word, q')
    ensures q == q'
    decreases |word|
  {
    if word != [] {
      var m: nat :| Walk(a, p, Front(word), m) && Trans(a, m, Last(word), q);
      var m': nat :| Walk(a, p, Front(word), m') && Trans(a, m', Last(word), q');
      WalkUnique(a, p, Front(word), m, m');
      TransUnique(a, m, Last(word), q, q');
    }
  }

  /** i belongs to the closure of state p. */
  ghost predicate InState(a: RawAutomaton, p: nat, i: nat)
  {
    p < |a.kernels| && InClosure(a.g, a.kernels[p], i)
  }

  /** A transition moves the dot of every item of the closure that it can. */
  lemma MoveItem(a: Automaton, p: nat, i: nat)
    requires InState(a, p, i) && i < |a.g.ritem| && a.g.ritem[i] > 0
    ensures exists q: nat :: Trans(a, p, a.g.ritem[i], q) && InState(a, q, i + 1)
  {
    assert ShiftsOk(a, p);
    var q :| q in a.shifts[p] && q < |a.access| && a.access[q] == a.g.ritem[i];
    assert Trans(a, p, a.g.ritem[i], q);
    ClosureItem(a.g, a.kernels[p], i);
    NextItem(a.g, i);
    assert Moves(a.g, a.kernels[p], a.access[q], i + 1);
    KernelInClosure(a.g, a.kernels[q], i + 1);
  }

  lemma RhsStep(g: Grammar, r: nat, m: nat)
    requires g.IsRule(r) && m > 0 && g.rrhs[r] + m <= |g.ritem|
    ensures Rhs(g, r, m) == Rhs(g, r, m - 1) + [g.ritem[g.rrhs[r] + m - 1]]
  {
  }

  /** A kernel item other than the start came from the closure of the state before. */
  lemma KernelBack(a: Automaton, p: nat, symbol: int, q: nat, i: nat)
    requires Trans(a, p, symbol, q) && i in a.kernels[q]
    ensures i >= 2 && i - 1 < |a.g.ritem| && InState(a, p, i - 1) && a.g.ritem[i-1] == symbol > 0
  {
    assert ShiftsOk(a, p);
    assert IsSuccessor(a.g, a.kernels[p], a.access[q], a.kernels[q]);
    assert Moves(a.g, a.kernels[p], a.access[q], i);
    assert a.g.ritem[0] == -1;
  }

  /** Inside a rule, behind its start, an item of a state lies in the kernel. */
  lemma InnerItem(a: Automaton, p: nat, r: nat, i: nat)
    requires InState(a, p, i) && InRule(a.g, r, i) && i > a.g.rrhs[r]
    ensures i in a.kernels[p]
  {
    ClosureCases(a.g, a.kernels[p], i);
    if i !in a.kernels[p] {
      var j: nat, s: nat :| InClosure(a.g, a.kernels[p], j) && a.g.Expands(j, s) && i == a.g.rrhs[s];
      RuleShape(a.g, s);
      RuleIsUnique(a.g, r, s, i);
    }
  }

  /** The symbol before an inner item of a state is the last of every word that leads there. */
  lemma InnerBack(a: Automaton, word: seq<int>, p: nat, r: nat, i: nat)
    requires Walk(a, 0, word, p) && InState(a, p, i) && InRule(a.g, r, i) && i > a.g.rrhs[r]
    ensures word != [] && Last(word) == a.g.ritem[i-1] > 0
    ensures exists q: nat :: Walk(a, 0, Front(word), q) && Trans(a, q, Last(word), p) && InState(a, q, i - 1)
  {
    InnerItem(a, p, r, i);
    RuleShape(a.g, r);
    var q: nat :| Walk(a, 0, Front(word), q) && Trans(a, q, Last(word), p);
    KernelBack(a, q, Last(word), p, i);
  }

  /** The first m symbols of rule r end the word, and the rule starts in the closure of the state before them. */
  ghost predicate RuleStarts(a: Automaton, word: seq<int>, r: nat, m: nat, p0: nat, p: nat)
    requires a.g.IsRule(r) && a.g.rrhs[r] + m <= |a.g.ritem|
  {
    && m <= |word| && word[|word|-m..] == Rhs(a.g, r, m)
    && Walk(a, 0, word[..|word|-m], p0) && Walk(a, p0, Rhs(a.g, r, m), p) && InState(a, p0, a.g.rrhs[r])
  }

  lemma RuleStartsSnoc(a: Automaton, word: seq<int>, r: nat, m: nat, p0: nat, q: nat, p: nat)
    requires a.g.IsRule(r) && 0 < m && a.g.rrhs[r] + m <= |a.g.ritem| && word != []
    requires RuleStarts(a, Front(word), r, m - 1, p0, q)
    requires Last(word) == a.g.ritem[a.g.rrhs[r] + m - 1] && Trans(a, q, Last(word), p)
    ensures RuleStarts(a, word, r, m, p0, p)
  {
    RhsStep(a.g, r, m);
    TailStep(word, m);
    hide Rhs, Trans, InState, Walk;
    WalkSnoc(a, p0, Rhs(a.g, r, m - 1), q, Last(word), p);
  }

  lemma {:induction false} RuleBack(a: Automaton, word: seq<int>, p: nat, r: nat, m: nat)
    requires r < |a.g.rrhs| && InRule(a.g, r, a.g.rrhs[r] + m) && Walk(a, 0, word, p) && InState(a, p, a.g.rrhs[r] + m)
    ensures exists p0: nat :: RuleStarts(a, word, r, m, p0, p)
    decreases m
  {
    hide IsLr0, InState, Walk, Trans, Rhs, RuleStarts, RawGrammar.Valid, Front, Last;
    var i := a.g.rrhs[r] + m;
    if m == 0 {
      RuleStartsHere(a, word, r, p);
    } else {
      InnerBack(a, word, p, r, i);
      var w, x := Front(word), Last(word);
      var q: nat :| Walk(a, 0, w, q) && Trans(a, q, x, p) && InState(a, q, i - 1);
      RuleBack(a, w, q, r, m - 1);
      var p0: nat :| RuleStarts(a, w, r, m - 1, p0, q);
      RuleStartsSnoc(a, word, r, m, p0, q, p);
    }
  }

  lemma RuleStartsHere(a: Automaton, word: seq<int>, r: nat, p: nat)
    requires r < |a.g.rrhs| && a.g.IsRule(r) && a.g.rrhs[r] <= |a.g.ritem| && Walk(a, 0, word, p) && InState(a, p, a.g.rrhs[r])
    ensures RuleStarts(a, word, r, 0, p, p)
  {
    hide IsLr0, InState, RawGrammar.Valid;
    assert word[..|word|] == word && Walk(a, p, Rhs(a.g, r, 0), p);
  }
}
