/** The lookahead sets (jay/lalr.c): the passes put together, and what they compute. */
module Lalr {
  import opened Relation
  import opened Grammars
  import opened Closures
  import opened Automata
  import opened Lr1
  import opened Lookaheads
  import opened LiveContexts
  import opened GotoMap
  import opened LaTable
  import opened ReadSets
  import opened IncludesRelation
  import opened Digraph

  lemma UnionIsFollow(a: Automaton, gt: Gotos, init: seq<set<int>>, includes: seq<seq<nat>>, i: nat, t: int)
    requires |init| == |gt.to| == |gt.from|
    requires forall k: nat, j: nat :: Adjacent(includes)(k, j) == Includes(a, gt, k, j)
    requires forall k: nat, t: int :: k < |gt.to| ==> (t in init[k] <==> Read(a, gt, k, t))
    requires i < |gt.to|
    ensures InUnion(includes, init, i, t) <==> Follow(a, gt, i, t)
  {
    hide IsLr0, RawGrammar.Valid, Adjacent, Includes, Reach, Read;
    forall j: nat ensures Reach(Adjacent(includes), i, j) == Reach(IncludesEdges(a, gt), i, j) {
      ReachSame(Adjacent(includes), IncludesEdges(a, gt), i, j);
    }
    if InUnion(includes, init, i, t) {
      var j: nat :| j < |init| && Reach(Adjacent(includes), i, j) && t in init[j];
      assert Read(a, gt, j, t);
    }
    if Follow(a, gt, i, t) {
      var j: nat :| Reach(IncludesEdges(a, gt), i, j) && Read(a, gt, j, t);
      IncludesEnds(a, gt, i, j);
      assert t in init[j];
    }
  }

  lemma IncludesEnds(a: Automaton, gt: Gotos, i: nat, j: nat)
    requires Reach(IncludesEdges(a, gt), i, j) && i < |gt.from|
    ensures j < |gt.from|
  {
    hide IsLr0, RawGrammar.Valid, Walk, NullableSuffix;
    ReachInvariant(IncludesEdges(a, gt), i, j, (x: nat) => x < |gt.from|);
  }

  method ComputeFollows(a: Automaton, ghost gt: Gotos, includes: seq<seq<nat>>, F: array<set<int>>)
    requires IsGraph(includes) && |includes| == F.Length == |gt.to| == |gt.from|
    requires forall k: nat, j: nat :: Adjacent(includes)(k, j) == Includes(a, gt, k, j)
    requires forall k: nat, t: int :: k < F.Length ==> (t in F[k] <==> Read(a, gt, k, t))
    modifies F
    ensures forall k: nat, t: int :: k < F.Length ==> (t in F[k] <==> Follow(a, gt, k, t))
  {
    hide IsLr0, RawGrammar.Valid, Adjacent, Includes, Reach, Read, Follow, InUnion;
    ghost var init := F[..];
    ghost var pushed := Spread(includes, F);
    forall k: nat, t: int | k < F.Length ensures t in F[k] <==> Follow(a, gt, k, t) {
      UnionIsFollow(a, gt, init, includes, k, t);
    }
  }

  /** The union of the rows of the listed transitions. */
  ghost predicate InSome(rows: seq<set<int>>, list: seq<nat>, c: nat, t: int)
  {
    exists d :: 0 <= d < c && d < |list| && list[d] < |rows| && t in rows[list[d]]
  }

  lemma InSomeNext(rows: seq<set<int>>, list: seq<nat>, c: nat, t: int)
    requires c < |list| && list[c] < |rows|
    ensures InSome(rows, list, c + 1, t) <==> InSome(rows, list, c, t) || t in rows[list[c]]
  {
  }

  /** The row of one reduction: `*fp1++ |= *fp2++` over its lookback list. */
  method LookaheadRow(list: seq<nat>, F: array<set<int>>, LA: array<set<int>>, i: nat)
    requires i < LA.Length && LA != F && LA[i] == {}
    requires forall c :: 0 <= c < |list| ==> list[c] < F.Length
    modifies LA
    ensures forall j :: 0 <= j < LA.Length && j != i ==> LA[j] == old(LA[j])
    ensures forall t: int :: t in LA[i] <==> InSome(F[..], list, |list|, t)
  {
    ghost var rows := F[..];
    var sp: nat := 0;
    while sp < |list|
      invariant sp <= |list| && F[..] == rows
      invariant forall j :: 0 <= j < LA.Length && j != i ==> LA[j] == old(LA[j])
      invariant forall t: int :: t in LA[i] <==> InSome(rows, list, sp, t)
    {
      forall t: int ensures InSome(rows, list, sp + 1, t) <==> InSome(rows, list, sp, t) || t in rows[list[sp]] {
        InSomeNext(rows, list, sp, t);
      }
      LA[i] := LA[i] + F[list[sp]];
      sp := sp + 1;
    }
  }

  method ComputeLookaheads(lookback: seq<seq<nat>>, F: array<set<int>>) returns (LA: array<set<int>>)
    requires forall row, c :: 0 <= row < |lookback| && 0 <= c < |lookback[row]| ==> lookback[row][c] < F.Length
    ensures fresh(LA) && LA.Length == |lookback|
    ensures forall row: nat, t: int :: row < LA.Length ==> (t in LA[row] <==> InSome(F[..], lookback[row], |lookback[row]|, t))
  {
    hide InSome;
    LA := new set<int>[|lookback|](_ => {});
    var i: nat := 0;
    while i < |lookback|
      invariant i <= |lookback| && F[..] == old(F[..])
      invariant forall row: nat :: i <= row < LA.Length ==> LA[row] == {}
      invariant forall row: nat, t: int :: row < i ==> (t in LA[row] <==> InSome(F[..], lookback[row], |lookback[row]|, t))
    {
      LookaheadRow(lookback[i], F, LA, i);
      i := i + 1;
    }
  }

  /** The rows of LA are the lookahead sets of the reductions. */
  ghost predicate IsLookaheads(a: Automaton, gt: Gotos, lookaheads: seq<nat>, rows: seq<set<int>>)
  {
    forall row: nat, q: nat, r: nat, t: int :: row < |rows| && IsRow(a, lookaheads, row, q, r) ==>
      (t in rows[row] <==> La(a, gt, q, r, t))
  }

  lemma RowsAreLookaheads(a: Automaton, gt: Gotos, lookaheads: seq<nat>, lb: seq<seq<nat>>, follow: seq<set<int>>,
                          rows: seq<set<int>>)
    requires IsGotos(a, gt) && |rows| == |lb| && |follow| == |gt.to|
    requires LookedBack(a, gt, lookaheads, |gt.to|, [], 0, lb)
    requires forall k: nat, t: int :: k < |follow| ==> (t in follow[k] <==> Follow(a, gt, k, t))
    requires forall row: nat, t: int :: row < |rows| ==> (t in rows[row] <==> InSome(follow, lb[row], |lb[row]|, t))
    ensures IsLookaheads(a, gt, lookaheads, rows)
  {
    hide IsLr0, RawGrammar.Valid, IsRow, Follow, Walk, IsGotos;
    GotosSize(a, gt);
    forall row: nat, q: nat, r: nat, t: int | row < |rows| && IsRow(a, lookaheads, row, q, r)
      ensures t in rows[row] <==> La(a, gt, q, r, t)
    {
      if t in rows[row] {
        assert InSome(follow, lb[row], |lb[row]|, t);
        var d: nat :| d < |lb[row]| && lb[row][d] < |follow| && t in follow[lb[row][d]];
        assert lb[row][d] in lb[row];
        assert Lookback(a, gt, q, r, lb[row][d]);
      }
      if La(a, gt, q, r, t) {
        var k: nat :| Lookback(a, gt, q, r, k) && Follow(a, gt, k, t);
        assert k in lb[row];
        var d: nat :| d < |lb[row]| && lb[row][d] == k;
        assert InSome(follow, lb[row], |lb[row]|, t);
      }
    }
  }

  lemma ListsInside(a: Automaton, gt: Gotos, lookaheads: seq<nat>, LAruleno: seq<nat>, lb: seq<seq<nat>>, row: nat, c: nat)
    requires IsGotos(a, gt) && IsLaTable(a, lookaheads, LAruleno) && |lb| == |LAruleno|
    requires LookedBack(a, gt, lookaheads, |gt.to|, [], 0, lb)
    requires row < |lb| && c < |lb[row]|
    ensures lb[row][c] < |gt.to|
  {
    hide IsLr0, RawGrammar.Valid, IsGotos, IsLaTable, Walk;
    GotosSize(a, gt);
    var q, r := RowOwner(a, lookaheads, LAruleno, row);
    assert lb[row][c] in lb[row];
  }

  /** Every row belongs to a reduction. */
  lemma RowOwner(a: Automaton, lookaheads: seq<nat>, LAruleno: seq<nat>, row: nat) returns (q: nat, r: nat)
    requires IsLaTable(a, lookaheads, LAruleno) && row < |LAruleno|
    ensures IsRow(a, lookaheads, row, q, r)
  {
    hide RedCounts;
    SameSizes(a);
    hide IsLr0;
    Layout.StartsFirst(RedCounts(a));
    q := Layout.LaidOwner(LAruleno, lookaheads, a.reds, row);
    RedRoom(a, lookaheads, q);
    r := a.reds[q][row - lookaheads[q]];
  }

  /** jay/lalr.c, lalr. */
  method BuildLookaheads(a: Automaton, derives: seq<seq<nat>>, nullable: seq<bool>)
      returns (gotoMap: seq<nat>, fromState: seq<nat>, toState: seq<nat>, lookaheads: seq<nat>, LAruleno: seq<nat>,
               LA: array<set<int>>)
    requires DerivesOk(a.g, derives) && NullableOk(a.g, nullable)
    ensures IsGotoMap(a, gotoMap, fromState, toState) && IsGotos(a, Gotos(fromState, toState))
    ensures IsLaTable(a, lookaheads, LAruleno) && fresh(LA) && LA.Length == |LAruleno|
    ensures IsLookaheads(a, Gotos(fromState, toState), lookaheads, LA[..])
  {
    hide IsLr0, RawGrammar.Valid, IsGotoMap, IsGotos, IsLaTable, DerivesOk, NullableOk, LookedBack, Includes, Read,
      Follow, InSome,
      IsLookaheads, IsGraph, Adjacent;
    lookaheads, LAruleno := InitializeLa(a);
    gotoMap, fromState, toState := SetGotoMap(a);
    GotoMapIsGotos(a, gotoMap, fromState, toState);
    ghost var gt := Gotos(fromState, toState);
    var F := InitializeF(a, gotoMap, fromState, toState, nullable);
    var lookback := new seq<nat>[|LAruleno|](_ => []);
    var includes := BuildRelations(a, gotoMap, fromState, toState, nullable, derives, lookaheads, LAruleno, lookback);
    ComputeFollows(a, gt, includes, F);
    var lists := lookback[..];
    forall row, c | 0 <= row < |lists| && 0 <= c < |lists[row]| ensures lists[row][c] < F.Length {
      ListsInside(a, gt, lookaheads, LAruleno, lists, row, c);
    }
    LA := ComputeLookaheads(lists, F);
    RowsAreLookaheads(a, gt, lookaheads, lists, F[..], LA[..]);
  }

  // ---------------------------------------------------------------------------------
  // What the table means for the language.

  /** No state reduces $accept: $end is never shifted. */
  lemma ReducedRule(a: Automaton, q: nat, r: nat)
    requires q < |a.reds| && r in a.reds[q]
    ensures 3 <= r < |a.g.rlhs| && a.g.IsRule(r)
  {
    assert RedsOk(a, q);
    RuleShape(a.g, 2);
    if r == 2 {
      ClosureCases(a.g, a.kernels[q], 3);
      if 3 in a.kernels[q] {
        assert Reachable(a, q);
        var word :| Walk(a, 0, word, q);
        assert word != [];
        var p: nat :| Walk(a, 0, Front(word), p) && Trans(a, p, Last(word), q);
        KernelBack(a, p, Last(word), q, 3);
      } else {
        var j: nat, s: nat :| InClosure(a.g, a.kernels[q], j) && a.g.Expands(j, s) && 3 == a.g.rrhs[s];
        RuleShape(a.g, s);
      }
    }
  }

  /** A lookahead is a token or the end marker. */
  lemma LookaheadIsToken(a: Automaton, gt: Gotos, q: nat, r: nat, t: int)
    requires La(a, gt, q, r, t)
    ensures 0 <= t < a.g.ntokens
  {
    hide IsLr0, Walk, Reach;
    var k: nat :| Lookback(a, gt, q, r, k) && Follow(a, gt, k, t);
    var j: nat :| Reach(IncludesEdges(a, gt), k, j) && Read(a, gt, j, t);
    var l: nat :| Reach(ReadsEdges(a, gt), j, l) && Shows(a, gt, l, t);
  }

  /** LALR(1): row `row` of LA, for rule r in state q, holds exactly the lookaheads that the LR(1) states with core q
      give to the completed rule. The lenient reading needs no assumption; the canonical one holds for a token exactly if
      the relations, should they give it, give it too when tokens are read at alive items only. That is so in a grammar in
      which something can follow every variable of a right-hand side. */
  lemma LaIsMerged(a: Automaton, gt: Gotos, lookaheads: seq<nat>, LAruleno: seq<nat>, rows: seq<set<int>>,
                   row: nat, q: nat, r: nat, t: int)
    requires IsGotos(a, gt) && IsLaTable(a, lookaheads, LAruleno) && |rows| == |LAruleno|
    requires IsLookaheads(a, gt, lookaheads, rows) && row < |rows| && IsRow(a, lookaheads, row, q, r)
    ensures t in rows[row] <==> t >= 0 && Merged(a, true, q, r, t)
    ensures Live(a.g) ==> (t in rows[row] <==> t >= 0 && Merged(a, false, q, r, t))
    ensures t >= 0 && Merged(a, false, q, r, t) ==> t in rows[row]
    ensures (t in rows[row] <==> t >= 0 && Merged(a, false, q, r, t)) <==>
              (t >= 0 && LaOf(a, gt, false, q, r, t) ==> LaOf(a, gt, true, q, r, t))
  {
    hide IsLr0, RawGrammar.Valid, IsLaTable, IsGotos, La, LaOf, Merged, Live;
    assert r in a.reds[q];
    ReducedRule(a, q, r);
    assert t in rows[row] <==> La(a, gt, q, r, t);
    if La(a, gt, q, r, t) {
      LookaheadIsToken(a, gt, q, r, t);
    }
    if t >= 0 {
      LalrIsMergedLenient(a, gt, q, r, t);
      MergedIsLiveLa(a, gt, q, r, t);
      LaIsLaOf(a, gt, q, r, t);
      if Live(a.g) {
        LalrIsMergedLr1(a, gt, q, r, t);
      }
      if Merged(a, false, q, r, t) {
        LalrCoversLr1(a, gt, q, r, t);
      }
    }
  }
}
