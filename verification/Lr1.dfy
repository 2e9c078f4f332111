/** Canonical LR(1) items, and how they sit on the states of the LR(0) automaton. */
module Lr1 {
  import opened Grammars
  import opened Automata

  /** The lookahead of an item whose context derives nothing. It never matches a token. */
  const NoToken := -1

  /** A lookahead that the closure hands from an item with its dot before i-1 and lookahead b to the rules of that
      variable. With `lenient` it may also be forgotten. */
  ghost predicate Inherits(g: Grammar, lenient: bool, i: nat, b: int, t: int)
  {
    FirstOrAfter(g, i, b, t) || (lenient && t == NoToken)
  }

  /** [j, b] adds the start of rule r with lookahead t to the closure. */
  ghost predicate AddsRule(g: Grammar, lenient: bool, j: nat, b: int, r: nat, t: int)
  {
    g.Expands(j, r) && Inherits(g, lenient, j + 1, b, t)
  }

  /** [i, t] is added to the closure because of [j, b]. */
  ghost predicate Adds(g: Grammar, lenient: bool, j: nat, b: int, i: nat, t: int)
  {
    exists r: nat :: AddsRule(g, lenient, j, b, r, t) && i == g.rrhs[r]
  }

  /** [i, t] belongs to the LR(1) state reached by the word, in n goto and closure steps from [$accept: . goal $end]. */
  ghost predicate ItemAt(g: Grammar, lenient: bool, n: nat, word: seq<int>, i: nat, t: int)
    decreases n, 1
  {
    if n == 0 then word == [] && i == 1 && t == 0
    else Shifted(g, lenient, n, word, i, t) || Closed(g, lenient, n, word, i, t)
  }

  ghost predicate Shifted(g: Grammar, lenient: bool, n: nat, word: seq<int>, i: nat, t: int)
    requires n > 0
    decreases n, 0
  {
    && word != [] && 1 <= i <= |g.ritem| && g.ritem[i-1] == Last(word) > 0
    && ItemAt(g, lenient, n - 1, Front(word), i - 1, t)
  }

  ghost predicate Closed(g: Grammar, lenient: bool, n: nat, word: seq<int>, i: nat, t: int)
    requires n > 0
    decreases n, 0
  {
    exists j: nat, b: int :: ItemAt(g, lenient, n - 1, word, j, b) && Adds(g, lenient, j, b, i, t)
  }

  /** [i, t] belongs to the LR(1) state reached by the word. */
  ghost predicate Item(g: Grammar, lenient: bool, word: seq<int>, i: nat, t: int)
  {
    exists n: nat :: ItemAt(g, lenient, n, word, i, t)
  }

  lemma ItemStart(g: Grammar, lenient: bool)
    ensures Item(g, lenient, [], 1, 0)
  {
    assert ItemAt(g, lenient, 0, [], 1, 0);
  }

  lemma ItemShift(g: Grammar, lenient: bool, word: seq<int>, i: nat, t: int)
    requires i < |g.ritem| && g.ritem[i] > 0 && Item(g, lenient, word, i, t)
    ensures Item(g, lenient, word + [g.ritem[i]], i + 1, t)
  {
    var n: nat :| ItemAt(g, lenient, n, word, i, t);
    var w := word + [g.ritem[i]];
    assert Front(w) == word;
    assert Shifted(g, lenient, n + 1, w, i + 1, t);
    assert ItemAt(g, lenient, n + 1, w, i + 1, t);
  }

  lemma ItemClose(g: Grammar, lenient: bool, word: seq<int>, j: nat, b: int, r: nat, t: int)
    requires Item(g, lenient, word, j, b) && g.Expands(j, r) && Inherits(g, lenient, j + 1, b, t)
    ensures Item(g, lenient, word, g.rrhs[r], t)
  {
    var n: nat :| ItemAt(g, lenient, n, word, j, b);
    assert AddsRule(g, lenient, j, b, r, t);
    assert Adds(g, lenient, j, b, g.rrhs[r], t);
    assert Closed(g, lenient, n + 1, word, g.rrhs[r], t);
    assert ItemAt(g, lenient, n + 1, word, g.rrhs[r], t);
  }

  /** Moving the dot of a rule over its first m symbols. */
  lemma {:induction false} ItemWalk(g: Grammar, lenient: bool, word: seq<int>, r: nat, m: nat, t: int)
    requires 3 <= r < |g.rlhs| && InRule(g, r, g.rrhs[r] + m)
    requires Item(g, lenient, word, g.rrhs[r], t)
    ensures Item(g, lenient, word + Rhs(g, r, m), g.rrhs[r] + m, t)
  {
    if m == 0 {
      assert word + Rhs(g, r, 0) == word;
    } else {
      ItemWalk(g, lenient, word, r, m - 1, t);
      assert g.UserRule(r);
      ItemShift(g, lenient, word + Rhs(g, r, m - 1), g.rrhs[r] + m - 1, t);
      RhsStep(g, r, m);
      assert word + Rhs(g, r, m) == word + Rhs(g, r, m - 1) + [g.ritem[g.rrhs[r] + m - 1]];
    }
  }

  lemma InnerShifted(g: Grammar, lenient: bool, n: nat, word: seq<int>, r: nat, i: nat, t: int)
    requires InRule(g, r, i) && i > g.rrhs[r] && ItemAt(g, lenient, n, word, i, t)
    ensures n > 0 && Shifted(g, lenient, n, word, i, t)
  {
    RuleShape(g, r);
    if n > 0 && Closed(g, lenient, n, word, i, t) {
      var j: nat, b: int :| ItemAt(g, lenient, n - 1, word, j, b) && Adds(g, lenient, j, b, i, t);
      var s: nat :| AddsRule(g, lenient, j, b, s, t) && i == g.rrhs[s];
      RuleShape(g, s);
      RuleIsUnique(g, r, s, i);
    }
  }

  /** An item inside a rule was shifted there from the start of the rule with the same lookahead. */
  lemma {:induction false} ItemBack(g: Grammar, lenient: bool, n: nat, word: seq<int>, r: nat, m: nat, t: int)
    requires r < |g.rrhs| && InRule(g, r, g.rrhs[r] + m) && ItemAt(g, lenient, n, word, g.rrhs[r] + m, t)
    ensures m <= n && m <= |word| && word[|word|-m..] == Rhs(g, r, m)
    ensures ItemAt(g, lenient, n - m, word[..|word|-m], g.rrhs[r], t)
    decreases m
  {
    if m == 0 {
      assert word[..|word|] == word;
    } else {
      InnerShifted(g, lenient, n, word, r, g.rrhs[r] + m, t);
      ItemBack(g, lenient, n - 1, Front(word), r, m - 1, t);
      RhsStep(g, r, m);
      TailStep(word, m);
    }
  }

  /** The start of a rule was added by the closure, except for rule 2. */
  lemma ItemOrigin(g: Grammar, lenient: bool, n: nat, word: seq<int>, r: nat, t: int)
    requires 3 <= r < |g.rlhs| && ItemAt(g, lenient, n, word, g.rrhs[r], t)
    ensures n > 0 && exists j: nat, b: int ::
      ItemAt(g, lenient, n - 1, word, j, b) && AddsRule(g, lenient, j, b, r, t)
  {
    var i := g.rrhs[r];
    RuleShape(g, r);
    assert g.UserRule(r);
    assert g.IsItem(i - 1) && InRule(g, r, i);
    if Shifted(g, lenient, n, word, i, t) {
      NextItem(g, i - 1);
      var s := RuleOfItem(g, i - 1);
      RuleIsUnique(g, r, s, i);
      assert false;
    }
    var j: nat, b: int :| ItemAt(g, lenient, n - 1, word, j, b) && Adds(g, lenient, j, b, i, t);
    var s: nat :| AddsRule(g, lenient, j, b, s, t) && i == g.rrhs[s];
    RuleShape(g, s);
    RuleIsUnique(g, r, s, i);
  }

  /** Every LR(1) item lies on the LR(0) state that its word reaches. */
  lemma {:induction false} ItemOnState(a: Automaton, lenient: bool, n: nat, word: seq<int>, i: nat, t: int)
    requires ItemAt(a.g, lenient, n, word, i, t)
    ensures exists p: nat :: Walk(a, 0, word, p) && InState(a, p, i)
    decreases n
  {
    if n == 0 {
      KernelInClosure(a.g, a.kernels[0], 1);
      assert Walk(a, 0, [], 0) && InState(a, 0, 1);
    } else if Shifted(a.g, lenient, n, word, i, t) {
      ItemOnState(a, lenient, n - 1, Front(word), i - 1, t);
      var m: nat :| Walk(a, 0, Front(word), m) && InState(a, m, i - 1);
      MoveItem(a, m, i - 1);
      var p: nat :| Trans(a, m, a.g.ritem[i-1], p) && InState(a, p, i);
      WalkSnoc(a, 0, Front(word), m, Last(word), p);
      assert Front(word) + [Last(word)] == word;
    } else {
      var j: nat, b: int :| ItemAt(a.g, lenient, n - 1, word, j, b) && Adds(a.g, lenient, j, b, i, t);
      ItemOnState(a, lenient, n - 1, word, j, b);
      var p: nat :| Walk(a, 0, word, p) && InState(a, p, j);
      var r: nat :| a.g.Expands(j, r) && i == a.g.rrhs[r];
      ClosureStep(a.g, a.kernels[p], j, r);
      assert InState(a, p, i);
    }
  }

  /** Behind every variable of a right-hand side something can follow: FIRST of the rest is not empty, or the rest
      is nullable. */
  ghost predicate Live(g: Grammar)
  {
    forall j: nat, r: nat :: g.Expands(j, r) ==> LiveAt(g, j + 1)
  }

  ghost predicate LiveAt(g: Grammar, i: nat)
  {
    NullableSuffix(g, i) || exists t :: First(g, i, t)
  }

  ghost predicate HasLookahead(g: Grammar, lenient: bool, word: seq<int>, i: nat)
  {
    exists t :: Item(g, lenient, word, i, t)
  }

  /** Every item of an LR(0) state has a lookahead along every word that reaches the state. */
  lemma {:induction false} SomeLookahead(a: Automaton, lenient: bool, word: seq<int>, p: nat, i: nat)
    requires lenient || Live(a.g)
    requires Walk(a, 0, word, p) && InState(a, p, i)
    ensures HasLookahead(a.g, lenient, word, i)
    decreases |word|
  {
    forall k | k in a.kernels[p] ensures HasLookahead(a.g, lenient, word, k) {
      if word == [] {
        assert a.kernels[0] == [1] && k == 1;
        ItemStart(a.g, lenient);
      } else {
        var m: nat :| Walk(a, 0, Front(word), m) && Trans(a, m, Last(word), p);
        KernelBack(a, m, Last(word), p, k);
        SomeLookahead(a, lenient, Front(word), m, k - 1);
        var t :| Item(a.g, lenient, Front(word), k - 1, t);
        ItemShift(a.g, lenient, Front(word), k - 1, t);
        assert Front(word) + [Last(word)] == word;
      }
    }
    forall j: nat, r: nat | a.g.Expands(j, r) && HasLookahead(a.g, lenient, word, j)
      ensures HasLookahead(a.g, lenient, word, a.g.rrhs[r])
    {
      CloseLookahead(a.g, lenient, word, j, r);
    }
    ClosureInduction(a.g, a.kernels[p], i, (x: nat) => HasLookahead(a.g, lenient, word, x));
  }

  lemma CloseLookahead(g: Grammar, lenient: bool, word: seq<int>, j: nat, r: nat)
    requires lenient || Live(g)
    requires g.Expands(j, r) && HasLookahead(g, lenient, word, j)
    ensures HasLookahead(g, lenient, word, g.rrhs[r])
  {
    var b :| Item(g, lenient, word, j, b);
    var t;
    if lenient {
      t := NoToken;
    } else if NullableSuffix(g, j + 1) {
      t := b;
    } else {
      assert LiveAt(g, j + 1);
      t :| First(g, j + 1, t);
    }
    assert Inherits(g, lenient, j + 1, b, t);
    ItemClose(g, lenient, word, j, b, r, t);
  }

  /** The textbook reading of the LR(1) states as sets: the start item is in the first, goto moves dots, and the
      closure adds [B: . w, t] for every t that can follow B. */
  ghost predicate ClosedFamily(g: Grammar, has: (seq<int>, nat, int) -> bool)
  {
    && has([], 1, 0)
    && (forall word: seq<int>, i: nat, t: int :: has(word, i, t) && i < |g.ritem| && g.ritem[i] > 0 ==>
          has(word + [g.ritem[i]], i + 1, t))
    && (forall word: seq<int>, j: nat, b: int, r: nat, t: int :: has(word, j, b) && AddsRule(g, false, j, b, r, t) ==>
          has(word, g.rrhs[r], t))
  }

  /** The LR(1) items are the least such family. */
  lemma {:induction false} ItemIsLeast(g: Grammar, has: (seq<int>, nat, int) -> bool, n: nat, word: seq<int>, i: nat, t: int)
    requires ClosedFamily(g, has) && ItemAt(g, false, n, word, i, t)
    ensures has(word, i, t)
    decreases n
  {
    if n > 0 {
      if Shifted(g, false, n, word, i, t) {
        ItemIsLeast(g, has, n - 1, Front(word), i - 1, t);
        assert Front(word) + [Last(word)] == word;
        assert has(Front(word) + [g.ritem[i-1]], i - 1 + 1, t);
      } else {
        var j: nat, b: int :| ItemAt(g, false, n - 1, word, j, b) && Adds(g, false, j, b, i, t);
        ItemIsLeast(g, has, n - 1, word, j, b);
      }
    }
  }

  /** The family of the LR(1) items is itself closed. */
  lemma ItemsAreClosed(g: Grammar)
    ensures ClosedFamily(g, (word: seq<int>, i: nat, t: int) => Item(g, false, word, i, t))
  {
    ItemStart(g, false);
    forall word: seq<int>, i: nat, t: int | Item(g, false, word, i, t) && i < |g.ritem| && g.ritem[i] > 0
      ensures Item(g, false, word + [g.ritem[i]], i + 1, t)
    {
      ItemShift(g, false, word, i, t);
    }
    forall word: seq<int>, j: nat, b: int, r: nat, t: int | Item(g, false, word, j, b) && AddsRule(g, false, j, b, r, t)
      ensures Item(g, false, word, g.rrhs[r], t)
    {
      ItemClose(g, false, word, j, b, r, t);
    }
  }

  /** The core of an LR(1) state is the closure of the LR(0) state that the same word reaches: of a lenient one always, of a
      canonical one in a live grammar. */
  lemma CoreIsState(a: Automaton, lenient: bool, word: seq<int>, i: nat)
    requires lenient || Live(a.g)
    ensures HasLookahead(a.g, lenient, word, i) <==> exists p: nat :: Walk(a, 0, word, p) && InState(a, p, i)
  {
    if HasLookahead(a.g, lenient, word, i) {
      var t :| Item(a.g, lenient, word, i, t);
      var n: nat :| ItemAt(a.g, lenient, n, word, i, t);
      ItemOnState(a, lenient, n, word, i, t);
    }
    if p: nat :| Walk(a, 0, word, p) && InState(a, p, i) {
      SomeLookahead(a, lenient, word, p, i);
    }
  }
}
