/** The tokens read after each nonterminal transition (jay/lalr.c, initialize_F). */
module ReadSets {
  import opened Relation
  import opened Grammars
  import opened Automata
  import opened Lookaheads
  import opened GotoMap
  import opened Digraph

  ghost predicate NullableOk(g: Grammar, nullable: seq<bool>)
  {
    |nullable| == g.nsyms && forall s :: 0 <= s < g.nsyms ==> (nullable[s] <==> Nullable(g, s))
  }

  /** Token t is shifted in state p. */
  ghost predicate TokenShift(a: Automaton, p: nat, t: int)
  {
    !a.g.IsVar(t) && exists q: nat :: Trans(a, p, t, q)
  }

  /** The symbol of shift k of state p is t. */
  ghost predicate ShiftOn(a: Automaton, p: nat, k: nat, t: int)
  {
    p < |a.shifts| && k < |a.shifts[p]| && a.shifts[p][k] < |a.access| && a.access[a.shifts[p][k]] == t
  }

  /** The first n shifts of state p are on tokens, and these are the tokens. */
  ghost predicate TokensOf(a: Automaton, p: nat, n: nat, row: set<int>)
  {
    && (forall k: nat, t: int :: k < n && ShiftOn(a, p, k, t) ==> !a.g.IsVar(t))
    && (forall t: int :: t in row <==> TokenAmong(a, p, n, t))
  }

  ghost predicate TokenAmong(a: Automaton, p: nat, n: nat, t: int)
  {
    exists k: nat :: k < n && ShiftOn(a, p, k, t)
  }

  /** The symbols of a shift record ascend. */
  lemma ShiftsAscend(a: Automaton, p: nat, k: nat, t: int, l: nat, u: int)
    requires ShiftOn(a, p, k, t) && ShiftOn(a, p, l, u) && k < l
    ensures t < u
  {
    assert ShiftsOk(a, p);
  }

  lemma ShiftOnTrans(a: Automaton, p: nat, t: int, q: nat) returns (k: nat)
    requires Trans(a, p, t, q)
    ensures ShiftOn(a, p, k, t) && a.shifts[p][k] == q
  {
    k :| k < |a.shifts[p]| && a.shifts[p][k] == q;
  }

  lemma ShiftOnIsTrans(a: Automaton, p: nat, k: nat, t: int)
    requires ShiftOn(a, p, k, t)
    ensures Trans(a, p, t, a.shifts[p][k])
  {
  }

  lemma TokensMore(a: Automaton, p: nat, n: nat, row: set<int>, t: nat)
    requires TokensOf(a, p, n, row) && ShiftOn(a, p, n, t) && !a.g.IsVar(t)
    ensures TokensOf(a, p, n + 1, row + {t})
  {
    hide IsLr0;
    var next := n + 1;
    forall u: int ensures TokenAmong(a, p, next, u) <==> TokenAmong(a, p, n, u) || t == u {
      if TokenAmong(a, p, next, u) {
        var k: nat :| k < next && ShiftOn(a, p, k, u);
        assert k < n ==> TokenAmong(a, p, n, u);
      }
    }
  }

  /** Nothing behind the first variable, or behind the last shift, is a token. */
  lemma TokensDone(a: Automaton, p: nat, n: nat, row: set<int>)
    requires p < |a.kernels| && TokensOf(a, p, n, row)
    requires n < |a.shifts[p]| ==> exists t: nat :: ShiftOn(a, p, n, t) && a.g.IsVar(t)
    ensures forall t: int :: t in row <==> TokenShift(a, p, t)
  {
    hide IsLr0;
    forall t: int ensures TokenAmong(a, p, n, t) <==> TokenShift(a, p, t) {
      if TokenAmong(a, p, n, t) {
        var k: nat :| k < n && ShiftOn(a, p, k, t);
        ShiftOnIsTrans(a, p, k, t);
      }
      if TokenShift(a, p, t) {
        var q: nat :| Trans(a, p, t, q);
        var k := ShiftOnTrans(a, p, t, q);
        if k >= n {
          var u: nat :| ShiftOn(a, p, n, u) && a.g.IsVar(u);
          if n < k { ShiftsAscend(a, p, n, u, k, t); }
        }
      }
    }
  }

  // ---------------------------------------------------------------------------------

  /** Transition l leaves state p by its shift k, on a nullable variable. */
  ghost predicate ReadsAt(a: Automaton, gt: Gotos, p: nat, k: nat, l: nat)
  {
    && p < |a.shifts| && k < |a.shifts[p]| && l < |gt.from| == |gt.to|
    && gt.from[l] == p && gt.to[l] == a.shifts[p][k] && Nullable(a.g, Symbol(a, gt, l))
  }

  ghost predicate ReadsAmong(a: Automaton, gt: Gotos, p: nat, m: nat, n: nat, l: nat)
  {
    exists k: nat :: m <= k < n && ReadsAt(a, gt, p, k, l)
  }

  /** The edges are the transitions on a nullable variable by the shifts from m to n. */
  ghost predicate EdgesOf(a: Automaton, gt: Gotos, p: nat, m: nat, n: nat, edge: seq<nat>)
  {
    forall l: nat :: l in edge <==> ReadsAmong(a, gt, p, m, n, l)
  }

  /** Shift n is transition l, if it is on a nullable variable. */
  lemma EdgesMore(a: Automaton, gt: Gotos, p: nat, m: nat, n: nat, edge: seq<nat>, l: nat)
    requires IsGotos(a, gt) && EdgesOf(a, gt, p, m, n, edge) && m <= n && ReadsAt(a, gt, p, n, l)
    ensures EdgesOf(a, gt, p, m, n + 1, edge + [l])
  {
    hide IsLr0, Nullable;
    var next := n + 1;
    forall x: nat ensures ReadsAmong(a, gt, p, m, next, x) <==> ReadsAmong(a, gt, p, m, n, x) || x == l {
      if ReadsAmong(a, gt, p, m, next, x) {
        var k: nat :| m <= k < next && ReadsAt(a, gt, p, k, x);
        assert k < n ==> ReadsAmong(a, gt, p, m, n, x);
        if k == n { SameGoto(a, gt, x, l); }
      }
    }
  }

  lemma SameGoto(a: Automaton, gt: Gotos, x: nat, l: nat)
    requires IsGotos(a, gt) && x < |gt.to| && l < |gt.to|
    requires gt.from[x] == gt.from[l] && gt.to[x] == gt.to[l]
    ensures x == l
  {
  }

  lemma EdgesSkip(a: Automaton, gt: Gotos, p: nat, m: nat, n: nat, edge: seq<nat>, symbol: nat)
    requires EdgesOf(a, gt, p, m, n, edge) && ShiftOn(a, p, n, symbol) && !Nullable(a.g, symbol)
    ensures EdgesOf(a, gt, p, m, n + 1, edge)
  {
    hide IsLr0, Nullable;
    var next := n + 1;
    forall x: nat ensures ReadsAmong(a, gt, p, m, next, x) <==> ReadsAmong(a, gt, p, m, n, x) {
      if ReadsAmong(a, gt, p, m, next, x) {
        var k: nat :| m <= k < next && ReadsAt(a, gt, p, k, x);
        assert k < n ==> ReadsAmong(a, gt, p, m, n, x);
      }
    }
  }

  /** The shifts before m are on tokens: the edges from m on are all there are. */
  lemma EdgesDone(a: Automaton, gt: Gotos, i: nat, m: nat, row: set<int>, edge: seq<nat>)
    requires IsGotos(a, gt) && i < |gt.to| && gt.to[i] < |a.kernels| && TokensOf(a, gt.to[i], m, row)
    requires EdgesOf(a, gt, gt.to[i], m, |a.shifts[gt.to[i]]|, edge)
    ensures forall l: nat :: l in edge <==> Reads(a, gt, i, l)
  {
    hide IsLr0, Nullable, TokenAmong;
    SameSizes(a);
    var p := gt.to[i];
    forall l: nat ensures ReadsAmong(a, gt, p, m, |a.shifts[p]|, l) <==> Reads(a, gt, i, l) {
      if Reads(a, gt, i, l) {
        assert GotoOk(a, gt, l);
        var k := ShiftOnTrans(a, p, Symbol(a, gt, l), gt.to[l]);
        assert ReadsAt(a, gt, p, k, l);
      }
    }
  }

  /** The row of transition i before the traversal, and its edges. */
  method ReadsRow(a: Automaton, gotoMap: seq<nat>, fromState: seq<nat>, toState: seq<nat>, nullable: seq<bool>, i: nat)
      returns (row: set<int>, edge: seq<nat>)
    requires IsGotoMap(a, gotoMap, fromState, toState) && IsGotos(a, Gotos(fromState, toState))
    requires NullableOk(a.g, nullable) && i < |toState|
    ensures forall t: int :: t in row <==> TokenShift(a, toState[i], t)
    ensures forall l: nat :: l in edge <==> Reads(a, Gotos(fromState, toState), i, l)
  {
    hide IsLr0, RawGrammar.Valid, IsGotoMap, IsGotos, TokensOf, EdgesOf, Trans, Reads, TokenShift;
    ghost var gt := Gotos(fromState, toState);
    SameSizes(a);
    GotoTarget(a, gt, i);
    var stateno := toState[i];
    var j: nat;
    row, j := TokensRow(a, stateno);
    TokensDone(a, stateno, j, row);
    ghost var m := j;
    edge := [];
    EdgesNone(a, gt, stateno, m);
    while j < |a.shifts[stateno]|
      invariant m <= j <= |a.shifts[stateno]|
      invariant EdgesOf(a, gt, stateno, m, j, edge)
    {
      SymbolInGrammar(a, stateno, j);
      var symbol := a.access[a.shifts[stateno][j]];
      ghost var was := edge;
      if nullable[symbol] {
        NullableIsVar(a.g, symbol);
        ShiftOnIsTrans(a, stateno, j, symbol);
        var l := MapGoto(a, gotoMap, fromState, toState, stateno, symbol, a.shifts[stateno][j]);
        edge := edge + [l];
        EdgesMore(a, gt, stateno, m, j, was, l);
      } else {
        EdgesSkip(a, gt, stateno, m, j, was, symbol);
      }
      j := j + 1;
    }
    EdgesDone(a, gt, i, m, row, edge);
  }

  lemma NullableIsVar(g: Grammar, symbol: int)
    requires Nullable(g, symbol)
    ensures g.IsVar(symbol)
  {
  }

  lemma EdgesNone(a: Automaton, gt: Gotos, p: nat, m: nat)
    ensures EdgesOf(a, gt, p, m, m, [])
  {
  }

  lemma TokensNone(a: Automaton, p: nat)
    ensures TokensOf(a, p, 0, {})
  {
  }

  /** The loop over the tokens at the front of the shift record. */
  method TokensRow(a: Automaton, stateno: nat) returns (row: set<int>, j: nat)
    requires stateno < |a.kernels|
    ensures j <= |a.shifts[stateno]| && TokensOf(a, stateno, j, row)
    ensures j < |a.shifts[stateno]| ==> exists t: nat :: ShiftOn(a, stateno, j, t) && a.g.IsVar(t)
  {
    hide IsLr0, TokensOf;
    SameSizes(a);
    row := {};
    j := 0;
    TokensNone(a, stateno);
    while j < |a.shifts[stateno]|
      invariant j <= |a.shifts[stateno]| && TokensOf(a, stateno, j, row)
    {
      SymbolInGrammar(a, stateno, j);
      var symbol := a.access[a.shifts[stateno][j]];
      assert ShiftOn(a, stateno, j, symbol);
      if symbol >= a.g.ntokens {
        break;
      }
      TokensMore(a, stateno, j, row, symbol);
      row := row + {symbol};
      j := j + 1;
    }
  }

  // ---------------------------------------------------------------------------------

  ghost predicate ReadsDone(a: Automaton, gt: Gotos, n: nat, rows: seq<set<int>>, readBy: seq<seq<nat>>)
  {
    && |rows| == |readBy| == |gt.to|
    && forall i: nat :: i < n && i < |gt.to| ==> ReadsDoneAt(a, gt, i, rows[i], readBy[i])
  }

  ghost predicate ReadsDoneAt(a: Automaton, gt: Gotos, i: nat, row: set<int>, edge: seq<nat>)
    requires i < |gt.to|
  {
    && (forall t: int :: t in row <==> TokenShift(a, gt.to[i], t))
    && (forall l: nat :: l in edge <==> Reads(a, gt, i, l))
  }

  lemma ReadsGraph(a: Automaton, gt: Gotos, rows: seq<set<int>>, readBy: seq<seq<nat>>)
    requires IsGotos(a, gt) && ReadsDone(a, gt, |gt.to|, rows, readBy)
    ensures IsGraph(readBy)
    ensures forall i: nat, l: nat :: Adjacent(readBy)(i, l) == ReadsEdges(a, gt)(i, l)
  {
    hide IsLr0, RawGrammar.Valid, GotoOk, Nullable, Trans, TokenShift;
    forall i: nat, l: nat ensures Adjacent(readBy)(i, l) == ReadsEdges(a, gt)(i, l) {
      if i < |gt.to| { assert ReadsDoneAt(a, gt, i, rows[i], readBy[i]); }
    }
    forall i, k | 0 <= i < |readBy| && 0 <= k < |readBy[i]| ensures readBy[i][k] < |readBy| {
      assert ReadsDoneAt(a, gt, i, rows[i], readBy[i]);
      assert readBy[i][k] in readBy[i];
    }
  }

  /** With the end marker added to row 0, the rows hold what is shown. */
  lemma ReadsShow(a: Automaton, gt: Gotos, rows: seq<set<int>>, readBy: seq<seq<nat>>, i: nat, t: int)
    requires IsGotos(a, gt) && ReadsDone(a, gt, |gt.to|, rows, readBy) && i < |gt.to|
    ensures t in rows[0 := rows[0] + {0}][i] <==> Shows(a, gt, i, t)
  {
    hide IsLr0, RawGrammar.Valid, GotoOk;
    assert ReadsDoneAt(a, gt, i, rows[i], readBy[i]);
  }

  lemma UnionIsRead(a: Automaton, gt: Gotos, init: seq<set<int>>, readBy: seq<seq<nat>>, i: nat, t: int)
    requires |init| == |gt.to|
    requires forall i: nat, l: nat :: Adjacent(readBy)(i, l) == ReadsEdges(a, gt)(i, l)
    requires forall i: nat, t: int :: i < |gt.to| ==> (t in init[i] <==> Shows(a, gt, i, t))
    ensures InUnion(readBy, init, i, t) <==> Read(a, gt, i, t)
  {
    hide IsLr0, RawGrammar.Valid, Adjacent, ReadsEdges;
    forall j: nat ensures Reach(Adjacent(readBy), i, j) == Reach(ReadsEdges(a, gt), i, j) {
      ReachSame(Adjacent(readBy), ReadsEdges(a, gt), i, j);
    }
    hide Reach;
    if InUnion(readBy, init, i, t) {
      var j: nat :| j < |init| && Reach(Adjacent(readBy), i, j) && t in init[j];
      assert Shows(a, gt, j, t);
    }
    if Read(a, gt, i, t) {
      var l: nat :| Reach(ReadsEdges(a, gt), i, l) && Shows(a, gt, l, t);
      assert t in init[l];
    }
  }

  /** F[i] holds the tokens that can be read after transition i, skipping nullable variables. */
  method InitializeF(a: Automaton, gotoMap: seq<nat>, fromState: seq<nat>, toState: seq<nat>, nullable: seq<bool>)
      returns (F: array<set<int>>)
    requires IsGotoMap(a, gotoMap, fromState, toState) && NullableOk(a.g, nullable)
    ensures fresh(F) && F.Length == |fromState| == |toState|
    ensures forall i: nat, t: int :: i < F.Length ==> (t in F[i] <==> Read(a, Gotos(fromState, toState), i, t))
  {
    hide IsLr0, RawGrammar.Valid, IsGotoMap, ReadsDoneAt, Trans, Reads, TokenShift, Read, Shows, Reach, InUnion;
    GotoMapIsGotos(a, gotoMap, fromState, toState);
    ghost var gt := Gotos(fromState, toState);
    var ngotos := |toState|;
    F := new set<int>[ngotos](_ => {});
    var readBy := new seq<nat>[ngotos](_ => []);
    var i: nat := 0;
    while i < ngotos
      invariant i <= ngotos && ReadsDone(a, gt, i, F[..], readBy[..])
    {
      var row, edge := ReadsRow(a, gotoMap, fromState, toState, nullable, i);
      ReadsDoneIntro(a, gt, i, row, edge);
      F[i] := row;
      readBy[i] := edge;
      i := i + 1;
    }
    ghost var rows := F[..];
    F[0] := F[0] + {0};
    ghost var init := F[..];
    assert init == rows[0 := rows[0] + {0}];
    ReadsGraph(a, gt, rows, readBy[..]);
    forall i: nat, t: int | i < |gt.to| ensures t in init[i] <==> Shows(a, gt, i, t) {
      ReadsShow(a, gt, rows, readBy[..], i, t);
    }
    var relation := readBy[..];
    ghost var pushed := Spread(relation, F);
    forall i: nat, t: int | i < F.Length ensures t in F[i] <==> Read(a, gt, i, t) {
      UnionIsRead(a, gt, init, relation, i, t);
    }
  }

  lemma ReadsDoneIntro(a: Automaton, gt: Gotos, i: nat, row: set<int>, edge: seq<nat>)
    requires i < |gt.to|
    requires forall t: int :: t in row <==> TokenShift(a, gt.to[i], t)
    requires forall l: nat :: l in edge <==> Reads(a, gt, i, l)
    ensures ReadsDoneAt(a, gt, i, row, edge)
  {
  }
}
