/** Exactly which lookaheads of the generator are canonical: those read behind an item that is alive. */
module LiveContexts {
  import opened Relation
  import opened Grammars
  import opened Automata
  import opened Lr1
  import opened Lookaheads

  /** Item i of state p is alive: it is reached from the start item by moving dots and by expanding a variable behind
      which something can follow. This is a condition on the LR(0) automaton and FIRST alone. */
  ghost predicate AliveAt(a: Automaton, n: nat, p: nat, i: nat)
    decreases n, 1
  {
    if n == 0 then p == 0 && i == 1
    else (exists m: nat :: AliveMoves(a, n, m, p, i)) || (exists j: nat, r: nat :: AliveExpands(a, n, p, j, r) && i == a.g.rrhs[r])
  }

  ghost predicate AliveMoves(a: Automaton, n: nat, m: nat, p: nat, i: nat)
    requires n > 0
    decreases n, 0
  {
    1 <= i <= |a.g.ritem| && a.g.ritem[i-1] > 0 && Trans(a, m, a.g.ritem[i-1], p) && AliveAt(a, n - 1, m, i - 1)
  }

  ghost predicate AliveExpands(a: Automaton, n: nat, p: nat, j: nat, r: nat)
    requires n > 0
    decreases n, 0
  {
    a.g.Expands(j, r) && LiveAt(a.g, j + 1) && AliveAt(a, n - 1, p, j)
  }

  ghost predicate Alive(a: Automaton, p: nat, i: nat)
  {
    exists n: nat :: AliveAt(a, n, p, i)
  }

  /** The item has a canonical LR(1) lookahead in some state with core p. */
  ghost predicate HasItem(a: Automaton, p: nat, i: nat)
  {
    exists word :: Walk(a, 0, word, p) && HasLookahead(a.g, false, word, i)
  }

  lemma {:induction false} AliveHasItem(a: Automaton, n: nat, p: nat, i: nat)
    requires AliveAt(a, n, p, i)
    ensures HasItem(a, p, i)
    decreases n
  {
    hide IsLr0, Item, Trans, LiveAt;
    if n == 0 {
      ItemStart(a.g, false);
      assert Walk(a, 0, [], 0) && HasLookahead(a.g, false, [], 1);
    } else if m: nat :| AliveMoves(a, n, m, p, i) {
      AliveHasItem(a, n - 1, m, i - 1);
      var word :| Walk(a, 0, word, m) && HasLookahead(a.g, false, word, i - 1);
      var t :| Item(a.g, false, word, i - 1, t);
      ItemShift(a.g, false, word, i - 1, t);
      WalkSnoc(a, 0, word, m, a.g.ritem[i-1], p);
    } else {
      var j: nat, r: nat :| AliveExpands(a, n, p, j, r) && i == a.g.rrhs[r];
      AliveHasItem(a, n - 1, p, j);
      var word :| Walk(a, 0, word, p) && HasLookahead(a.g, false, word, j);
      LookaheadGoesOn(a.g, word, j, r);
    }
  }

  lemma LookaheadGoesOn(g: Grammar, word: seq<int>, j: nat, r: nat)
    requires HasLookahead(g, false, word, j) && g.Expands(j, r) && LiveAt(g, j + 1)
    ensures HasLookahead(g, false, word, g.rrhs[r])
  {
    hide Item, RawGrammar.Valid;
    var b :| Item(g, false, word, j, b);
    var t := b;
    if !NullableSuffix(g, j + 1) {
      t :| First(g, j + 1, t);
    }
    assert Inherits(g, false, j + 1, b, t);
    ItemClose(g, false, word, j, b, r, t);
  }

  lemma {:induction false} ItemIsAlive(a: Automaton, n: nat, word: seq<int>, i: nat, t: int, p: nat)
    requires ItemAt(a.g, false, n, word, i, t) && Walk(a, 0, word, p)
    ensures AliveAt(a, n, p, i)
    decreases n
  {
    hide IsLr0, Trans, First, NullableSuffix;
    if n == 0 {
    } else if Shifted(a.g, false, n, word, i, t) {
      var m: nat :| Walk(a, 0, Front(word), m) && Trans(a, m, Last(word), p);
      ItemIsAlive(a, n - 1, Front(word), i - 1, t, m);
      assert AliveMoves(a, n, m, p, i);
    } else {
      var j: nat, b: int :| ItemAt(a.g, false, n - 1, word, j, b) && Adds(a.g, false, j, b, i, t);
      var r: nat :| AddsRule(a.g, false, j, b, r, t) && i == a.g.rrhs[r];
      ItemIsAlive(a, n - 1, word, j, b, p);
      assert AliveExpands(a, n, p, j, r);
    }
  }

  /** An item is alive exactly if the canonical construction gives it a lookahead. */
  lemma AliveIsItem(a: Automaton, p: nat, i: nat)
    ensures Alive(a, p, i) <==> HasItem(a, p, i)
  {
    hide AliveAt, ItemAt, Walk;
    if Alive(a, p, i) {
      var n: nat :| AliveAt(a, n, p, i);
      AliveHasItem(a, n, p, i);
    }
    if HasItem(a, p, i) {
      var word :| Walk(a, 0, word, p) && HasLookahead(a.g, false, word, i);
      var t :| Item(a.g, false, word, i, t);
      var n: nat :| ItemAt(a.g, false, n, word, i, t);
      ItemIsAlive(a, n, word, i, t, p);
    }
  }

  // ---------------------------------------------------------------------------------
  // The relations of jay/lalr.c, with the tokens read behind the items of a state, or behind those that are alive only.
  // Items, FIRST and aliveness are known before any lookahead is computed.

  ghost predicate ReadAt(a: Automaton, gt: Gotos, live: bool, k: nat, j: nat, t: int)
  {
    && k < |gt.from| && (if live then Alive(a, gt.from[k], j) else InState(a, gt.from[k], j))
    && j < |a.g.ritem| && a.g.ritem[j] == Symbol(a, gt, k) && First(a.g, j + 1, t)
  }

  ghost predicate ReadOf(a: Automaton, gt: Gotos, live: bool, k: nat, t: int)
  {
    exists j: nat :: ReadAt(a, gt, live, k, j, t)
  }

  ghost predicate FollowOf(a: Automaton, gt: Gotos, live: bool, k: nat, t: int)
  {
    exists l: nat :: Reach(IncludesEdges(a, gt), k, l) && ReadOf(a, gt, live, l, t)
  }

  ghost predicate LaOf(a: Automaton, gt: Gotos, live: bool, q: nat, r: nat, t: int)
  {
    exists k: nat :: Lookback(a, gt, q, r, k) && FollowOf(a, gt, live, k, t)
  }

  lemma LiveReadContext(a: Automaton, gt: Gotos, k: nat, t: int)
    requires ReadOf(a, gt, true, k, t)
    ensures Context(a, gt, false, k, t)
  {
    hide IsLr0, Item, Walk, Alive, First, InState;
    var j: nat :| ReadAt(a, gt, true, k, j, t);
    AliveIsItem(a, gt.from[k], j);
    var word :| Walk(a, 0, word, gt.from[k]) && HasLookahead(a.g, false, word, j);
    var b :| Item(a.g, false, word, j, b);
    assert ContextAt(a, gt, false, k, t, word, j, b);
  }

  /** What follows an item is read somewhere along includes: at an alive item if the item is a canonical one. */
  lemma {:induction false} ItemFollowOf(a: Automaton, gt: Gotos, live: bool, n: nat, word: seq<int>, j: nat, b: int, k: nat,
                                        t: int)
    requires IsGotos(a, gt) && k < |gt.to| && Walk(a, 0, word, gt.from[k]) && ItemAt(a.g, !live, n, word, j, b)
    requires j < |a.g.ritem| && a.g.ritem[j] == Symbol(a, gt, k) && FirstOrAfter(a.g, j + 1, b, t) && t >= 0
    ensures FollowOf(a, gt, live, k, t)
    decreases n
  {
    hide IsLr0, First, NullableSuffix, InState, Walk, ItemAt, AliveAt, RawGrammar.Valid, Includes;
    ItemOnState(a, !live, n, word, j, b);
    var p: nat :| Walk(a, 0, word, p) && InState(a, p, j);
    WalkUnique(a, 0, word, p, gt.from[k]);
    if First(a.g, j + 1, t) {
      if live { ItemIsAlive(a, n, word, j, b, gt.from[k]); }
      assert ReadAt(a, gt, live, k, j, t);
      ReachRefl(IncludesEdges(a, gt), k);
    } else {
      var n0, word0, j0, b0, k0 := NullableRest(a, gt, !live, n, word, j, b, k);
      ItemFollowOf(a, gt, live, n0, word0, j0, b0, k0, t);
      var l: nat :| Reach(IncludesEdges(a, gt), k0, l) && ReadOf(a, gt, live, l, t);
      ReachStep(IncludesEdges(a, gt), k, k0, l);
    }
  }

  lemma MergedLaOf(a: Automaton, gt: Gotos, live: bool, q: nat, r: nat, t: int)
    requires IsGotos(a, gt) && r >= 3 && a.g.IsRule(r) && t >= 0 && Merged(a, !live, q, r, t)
    ensures LaOf(a, gt, live, q, r, t)
  {
    hide IsLr0, Merged, FollowOf, Walk, ItemAt, FirstOrAfter, RawGrammar.Valid;
    var n, word0, p0, j, b := CompletedBack(a, !live, q, r, t);
    var k := GotoOfItem(a, gt, !live, n, word0, p0, j, b, r);
    ItemFollowOf(a, gt, live, n, word0, j, b, k, t);
    assert Lookback(a, gt, q, r, k);
  }

  /** The lookahead sets are what the relations give when tokens are read at all items. */
  lemma LaIsLaOf(a: Automaton, gt: Gotos, q: nat, r: nat, t: int)
    requires IsGotos(a, gt) && r >= 3 && a.g.IsRule(r) && t >= 0
    ensures La(a, gt, q, r, t) <==> LaOf(a, gt, false, q, r, t)
  {
    hide IsLr0, Merged, Read, Lookback, RawGrammar.Valid, InState, First, GotoOk, IsGotoOf;
    if La(a, gt, q, r, t) {
      LalrIsMergedLenient(a, gt, q, r, t);
      MergedLaOf(a, gt, false, q, r, t);
    }
    if LaOf(a, gt, false, q, r, t) {
      var k: nat :| Lookback(a, gt, q, r, k) && FollowOf(a, gt, false, k, t);
      var l: nat :| Reach(IncludesEdges(a, gt), k, l) && ReadOf(a, gt, false, l, t);
      var j: nat :| ReadAt(a, gt, false, l, j, t);
      FirstRead(a, gt, l, j, t);
    }
  }

  /** The canonical LR(1) lookaheads merged over equal cores are what the relations give when tokens are read at alive
      items only. */
  lemma MergedIsLiveLa(a: Automaton, gt: Gotos, q: nat, r: nat, t: int)
    requires IsGotos(a, gt) && r >= 3 && a.g.IsRule(r) && t >= 0
    ensures Merged(a, false, q, r, t) <==> LaOf(a, gt, true, q, r, t)
  {
    hide IsLr0, Merged, ReadOf, Context, Walk, RawGrammar.Valid;
    if Merged(a, false, q, r, t) {
      MergedLaOf(a, gt, true, q, r, t);
    }
    if LaOf(a, gt, true, q, r, t) {
      var k: nat :| Lookback(a, gt, q, r, k) && FollowOf(a, gt, true, k, t);
      var l: nat :| Reach(IncludesEdges(a, gt), k, l) && ReadOf(a, gt, true, l, t);
      LiveReadContext(a, gt, l, t);
      ContextAlong(a, gt, false, k, l, t);
      ContextMerged(a, gt, false, q, r, k, t);
    }
  }

  /** The lookahead sets are the merged canonical ones exactly if whatever the relations give when tokens are read at all
      items, they also give when tokens are read at alive items only. */
  lemma LalrIsMergedExactly(a: Automaton, gt: Gotos)
    requires IsGotos(a, gt)
    ensures (forall q: nat, r: nat, t: nat :: r >= 3 && a.g.IsRule(r) ==> (La(a, gt, q, r, t) <==> Merged(a, false, q, r, t)))
            <==> (forall q: nat, r: nat, t: nat ::
                    r >= 3 && a.g.IsRule(r) && LaOf(a, gt, false, q, r, t) ==> LaOf(a, gt, true, q, r, t))
  {
    hide IsLr0, IsGotos, La, LaOf, Merged, RawGrammar.Valid;
    forall q: nat, r: nat, t: nat | r >= 3 && a.g.IsRule(r)
      ensures Merged(a, false, q, r, t) <==> LaOf(a, gt, true, q, r, t)
      ensures La(a, gt, q, r, t) <==> LaOf(a, gt, false, q, r, t)
      ensures Merged(a, false, q, r, t) ==> La(a, gt, q, r, t)
    {
      MergedIsLiveLa(a, gt, q, r, t);
      LaIsLaOf(a, gt, q, r, t);
      if Merged(a, false, q, r, t) {
        LalrCoversLr1(a, gt, q, r, t);
      }
    }
  }

  /** So it is if all items of all states are alive, or at least what is read behind a variable in a state is also read
      behind an alive item of that state. */
  lemma AliveSuffices(a: Automaton, gt: Gotos, q: nat, r: nat, t: nat)
    requires IsGotos(a, gt) && r >= 3 && a.g.IsRule(r)
    requires (forall p: nat, i: nat :: InState(a, p, i) ==> Alive(a, p, i))
             || (forall k: nat :: ReadOf(a, gt, false, k, t) ==> ReadOf(a, gt, true, k, t))
    ensures La(a, gt, q, r, t) <==> Merged(a, false, q, r, t)
  {
    hide IsLr0, IsGotos, La, Merged, RawGrammar.Valid, Lookback, Alive, InState;
    LaIsLaOf(a, gt, q, r, t);
    MergedIsLiveLa(a, gt, q, r, t);
    forall k: nat | ReadOf(a, gt, false, k, t) ensures ReadOf(a, gt, true, k, t) {
      if forall p: nat, i: nat :: InState(a, p, i) ==> Alive(a, p, i) {
        var j: nat :| ReadAt(a, gt, false, k, j, t);
        assert ReadAt(a, gt, true, k, j, t);
      }
    }
    if Merged(a, false, q, r, t) {
      LalrCoversLr1(a, gt, q, r, t);
    }
  }
}
