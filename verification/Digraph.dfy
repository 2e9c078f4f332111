/** The SCC traversal that spreads token sets over a relation (jay/lalr.c, digraph and traverse). */
module Digraph {
  import opened Relation
  import opened Counting

  type Rows = seq<set<int>>

  /** t belongs to the union of the initial rows of the nodes reachable from i. */
  ghost predicate InUnion(rel: seq<seq<nat>>, init: Rows, i: nat, t: int)
  {
    exists j: nat :: j < |init| && Reach(Adjacent(rel), i, j) && t in init[j]
  }

  ghost predicate IsUnion(rel: seq<seq<nat>>, init: Rows, i: nat, row: set<int>)
  {
    forall t :: t in row <==> InUnion(rel, init, i, t)
  }

  lemma UnionPredecessor(rel: seq<seq<nat>>, init: Rows, i: nat, j: nat, t: int)
    requires Reach(Adjacent(rel), i, j) && InUnion(rel, init, j, t)
    ensures InUnion(rel, init, i, t)
  {
    var k: nat :| k < |init| && Reach(Adjacent(rel), j, k) && t in init[k];
    ReachTrans(Adjacent(rel), i, j, k);
  }

  lemma UnionOfSame(rel: seq<seq<nat>>, init: Rows, i: nat, j: nat, row: set<int>)
    requires Reach(Adjacent(rel), i, j) && Reach(Adjacent(rel), j, i)
    requires IsUnion(rel, init, i, row)
    ensures IsUnion(rel, init, j, row)
  {
    forall t ensures t in row <==> InUnion(rel, init, j, t) {
      if t in row { UnionPredecessor(rel, init, j, i, t); }
      if InUnion(rel, init, j, t) { UnionPredecessor(rel, init, i, j, t); }
    }
  }

  /** Two nodes of one strongly connected component have the same union. */
  lemma ComponentRows(rel: seq<seq<nat>>, init: Rows, i: nat, j: nat, rowI: set<int>, rowJ: set<int>)
    requires Reach(Adjacent(rel), i, j) && Reach(Adjacent(rel), j, i)
    requires IsUnion(rel, init, i, rowI) && IsUnion(rel, init, j, rowJ)
    ensures rowI == rowJ
  {
    UnionOfSame(rel, init, i, j, rowI);
    forall t ensures t in rowI <==> t in rowJ {
      assert t in rowI <==> InUnion(rel, init, j, t);
    }
  }

  // ---------------------------------------------------------------------------------
  // What holds of the arrays at every entry to and exit from traverse. A node's index is 0
  // while it is unvisited, Done when its row is final, and otherwise a stack height.

  ghost function Done(n: nat): nat { n + 2 }

  ghost predicate Shapes(rel: seq<seq<nat>>, init: Rows, rows: Rows, index: seq<nat>)
  {
    IsGraph(rel) && |init| == |rel| && |rows| == |rel| && |index| == |rel|
  }

  ghost predicate StackOk(n: nat, index: seq<nat>, stack: seq<nat>)
    requires |index| == n
  {
    && (forall k :: 0 <= k < |stack| ==> stack[k] < n && 1 <= index[stack[k]] <= k + 1)
    && Distinct(stack)
    && (forall v :: 0 <= v < n ==> index[v] == 0 || index[v] == Done(n) || v in stack)
    && |stack| <= n
  }

  /** Every node on the stack reaches the node that its index points at. */
  ghost predicate LowLinks(rel: seq<seq<nat>>, index: seq<nat>, stack: seq<nat>)
    requires |index| == |rel| && StackOk(|rel|, index, stack)
  {
    forall k :: 0 <= k < |stack| ==> Reach(Adjacent(rel), stack[k], stack[index[stack[k]] - 1])
  }

  ghost predicate RowsOk(rel: seq<seq<nat>>, init: Rows, rows: Rows, index: seq<nat>)
    requires Shapes(rel, init, rows, index)
  {
    && (forall v :: 0 <= v < |rel| ==> init[v] <= rows[v])
    && (forall v, t :: 0 <= v < |rel| && t in rows[v] ==> InUnion(rel, init, v, t))
    && (forall v :: 0 <= v < |rel| && index[v] == Done(|rel|) ==> IsUnion(rel, init, v, rows[v]))
  }

  ghost predicate DoneClosed(rel: seq<seq<nat>>, index: seq<nat>)
    requires |index| == |rel| && IsGraph(rel)
  {
    forall v, c :: 0 <= v < |rel| && index[v] == Done(|rel|) && 0 <= c < |rel[v]| ==> index[rel[v][c]] == Done(|rel|)
  }

  ghost predicate Inv(rel: seq<seq<nat>>, init: Rows, rows: Rows, index: seq<nat>, stack: seq<nat>)
  {
    && Shapes(rel, init, rows, index)
    && StackOk(|rel|, index, stack)
    && LowLinks(rel, index, stack)
    && RowsOk(rel, init, rows, index)
    && DoneClosed(rel, index)
  }

  /** The edge to w is accounted for in row `total` of the node at height h: w is final and its row was added,
      or w is on the stack at or above `low`, and if it is above h then its initial row was added. */
  ghost predicate Covered(init: Rows, rows: Rows, index: seq<nat>, stack: seq<nat>,
                          h: nat, low: nat, total: set<int>, w: nat)
    requires |index| == |init| == |rows| && w < |init|
  {
    || (index[w] == Done(|init|) && rows[w] <= total)
    || exists m :: low - 1 <= m < |stack| && 0 <= m && stack[m] == w && (h <= m ==> init[w] <= total)
  }

  /** The part of the stack above h, pushed since the visit of stack[h] began; only the first `seen` successors
      of stack[h] itself have been looked at. */
  ghost predicate Segment(rel: seq<seq<nat>>, init: Rows, rows: Rows, index: seq<nat>, stack: seq<nat>,
                          h: nat, seen: nat)
    requires Inv(rel, init, rows, index, stack)
    requires h < |stack| && seen <= |rel[stack[h]]|
  {
    var i := stack[h];
    && (forall k :: h < k < |stack| ==> index[i] <= index[stack[k]] <= k)
    && (forall k :: h <= k < |stack| ==> Reach(Adjacent(rel), i, stack[k]) && init[stack[k]] <= rows[i])
    && (forall k, c :: h < k < |stack| && 0 <= c < |rel[stack[k]]| ==>
          Covered(init, rows, index, stack, h, index[i], rows[i], rel[stack[k]][c]))
    && (forall c :: 0 <= c < seen ==> Covered(init, rows, index, stack, h, index[i], rows[i], rel[i][c]))
  }

  /** Visited nodes keep their index and their row. */
  ghost predicate Frame(rows: Rows, index: seq<nat>, stack: seq<nat>, rows': Rows, index': seq<nat>, stack': seq<nat>)
    requires |rows| == |index| == |rows'| == |index'|
  {
    && stack <= stack'
    && forall v :: 0 <= v < |index| && index[v] != 0 ==> index'[v] == index[v] && rows'[v] == rows[v]
  }

  /** What a visit of i leaves behind: i is final, or i heads a new segment that hangs on a lower node. */
  ghost predicate Visited(rel: seq<seq<nat>>, init: Rows, rows: Rows, index: seq<nat>, stack: seq<nat>, h: nat, i: nat)
    requires Inv(rel, init, rows, index, stack)
    requires i < |rel|
  {
    || (|stack| == h && index[i] == Done(|rel|))
    || (h < |stack| && stack[h] == i && index[i] <= h && Segment(rel, init, rows, index, stack, h, |rel[i]|))
  }

  lemma PushStack(n: nat, index: seq<nat>, stack: seq<nat>, i: nat)
    requires |index| == n && StackOk(n, index, stack) && i < n && index[i] == 0
    ensures |stack| < n && StackOk(n, index[i := |stack| + 1], stack + [i])
  {
    DistinctBelow(stack, n, i);
    forall v | 0 <= v < n && index[v] != 0 && index[v] != Done(n) ensures v in stack + [i] {
      assert v in stack;
    }
  }

  lemma PushLinks(rel: seq<seq<nat>>, index: seq<nat>, stack: seq<nat>, i: nat)
    requires |index| == |rel| && StackOk(|rel|, index, stack) && LowLinks(rel, index, stack) && i < |rel| && index[i] == 0
    requires StackOk(|rel|, index[i := |stack| + 1], stack + [i])
    ensures LowLinks(rel, index[i := |stack| + 1], stack + [i])
  {
    hide Distinct;
    var index', stack' := index[i := |stack| + 1], stack + [i];
    ReachRefl(Adjacent(rel), i);
    forall k | 0 <= k < |stack'|
      ensures Reach(Adjacent(rel), stack'[k], stack'[index'[stack'[k]] - 1])
    {
      if k < |stack| {
        assert stack'[k] == stack[k] && index'[stack[k]] == index[stack[k]];
      }
    }
  }

  lemma Push(rel: seq<seq<nat>>, init: Rows, rows: Rows, index: seq<nat>, stack: seq<nat>, i: nat)
    requires Inv(rel, init, rows, index, stack)
    requires i < |rel| && index[i] == 0
    ensures |stack| < |rel|
    ensures Inv(rel, init, rows, index[i := |stack| + 1], stack + [i])
    ensures Segment(rel, init, rows, index[i := |stack| + 1], stack + [i], |stack|, 0)
  {
    hide StackOk, LowLinks;
    PushStack(|rel|, index, stack, i);
    PushLinks(rel, index, stack, i);
    ReachRefl(Adjacent(rel), i);
  }

  /** The value that the low link of i takes after looking at j. */
  ghost function Lower(index: seq<nat>, i: nat, j: nat): nat
    requires i < |index| && j < |index|
  {
    if index[i] > index[j] then index[j] else index[i]
  }

  /** The situation after the look at successor number c of i = stack0[h], and the recursive visit if it had not
      been visited before, but before the index and the row of i are updated. */
  ghost predicate Looked(rel: seq<seq<nat>>, init: Rows, rows0: Rows, index0: seq<nat>, stack0: seq<nat>,
                         rows: Rows, index: seq<nat>, stack: seq<nat>, h: nat, c: nat)
  {
    && Inv(rel, init, rows0, index0, stack0) && Inv(rel, init, rows, index, stack)
    && h < |stack0| && c < |rel[stack0[h]]| && Segment(rel, init, rows0, index0, stack0, h, c)
    && Frame(rows0, index0, stack0, rows, index, stack)
    && var j := rel[stack0[h]][c];
    if index0[j] == 0 then Visited(rel, init, rows, index, stack, |stack0|, j) else stack == stack0
  }

  /** Adding the row of a successor keeps the rows inside the unions. */
  lemma AddRow(rel: seq<seq<nat>>, init: Rows, rows: Rows, index: seq<nat>, i: nat, j: nat, low: nat)
    requires Shapes(rel, init, rows, index) && RowsOk(rel, init, rows, index)
    requires i < |rel| && j in rel[i] && j < |rel| && index[i] != Done(|rel|) && low != Done(|rel|)
    ensures RowsOk(rel, init, rows[i := rows[i] + rows[j]], index[i := low])
  {
    forall t | t in rows[j] ensures InUnion(rel, init, i, t) {
      ReachEdge(Adjacent(rel), i, j);
      UnionPredecessor(rel, init, i, j, t);
    }
  }

  /** Taking over the low link of a successor keeps the links on the stack. */
  lemma SinkLink(rel: seq<seq<nat>>, index: seq<nat>, stack: seq<nat>, h: nat, j: nat)
    requires |index| == |rel| && StackOk(|rel|, index, stack) && LowLinks(rel, index, stack)
    requires h < |stack| && j < |rel| && j in rel[stack[h]] && index[j] != 0
    ensures var index' := index[stack[h] := Lower(index, stack[h], j)];
            StackOk(|rel|, index', stack) && LowLinks(rel, index', stack)
  {
    var i := stack[h];
    var low := Lower(index, i, j);
    assert index[j] != Done(|rel|) ==> j in stack;
    forall k | 0 <= k < |stack|
      ensures Reach(Adjacent(rel), stack[k], stack[index[i := low][stack[k]] - 1])
    {
      if k == h && low == index[j] {
        var m :| 0 <= m < |stack| && stack[m] == j;
        ReachStep(Adjacent(rel), i, j, stack[low - 1]);
      } else {
        assert k != h ==> stack[k] != i;
      }
    }
  }

  /** An edge that was covered stays covered while the stack grows, low links sink and rows grow. */
  lemma CoveredLater(rel: seq<seq<nat>>, init: Rows, rows0: Rows, index0: seq<nat>, stack0: seq<nat>,
                     rows: Rows, index: seq<nat>, stack: seq<nat>, h: nat, low: nat, total: set<int>, w: nat)
    requires |init| == |rows0| == |index0| == |rows| == |index| && w < |init|
    requires Frame(rows0, index0, stack0, rows, index, stack)
    requires h < |stack0| && stack0[h] < |init| && index0[stack0[h]] != Done(|init|)
    requires low <= index0[stack0[h]] && rows0[stack0[h]] <= total
    requires Covered(init, rows0, index0, stack0, h, index0[stack0[h]], rows0[stack0[h]], w)
    ensures Covered(init, rows[stack0[h] := total], index[stack0[h] := low], stack, h, low, total, w)
  {
    var i := stack0[h];
    if index0[w] != Done(|init|) {
      var m :| index0[i] - 1 <= m < |stack0| && 0 <= m && stack0[m] == w && (h <= m ==> init[w] <= rows0[i]);
      assert stack[m] == w;
    }
  }

  /** An edge out of the segment of j is covered for i once the row of j was added to the row of i. */
  lemma CoveredBelow(rel: seq<seq<nat>>, init: Rows, rows0: Rows, index0: seq<nat>, stack0: seq<nat>,
                     rows: Rows, index: seq<nat>, stack: seq<nat>, h: nat, c: nat, w: nat)
    requires Looked(rel, init, rows0, index0, stack0, rows, index, stack, h, c)
    requires w < |rel|
    requires var j := rel[stack0[h]][c];
             Covered(init, rows, index, stack, |stack0|, index[j], rows[j], w)
    ensures var i := stack0[h]; var j := rel[i][c];
            var low := Lower(index, i, j);
            Covered(init, rows[i := rows[i] + rows[j]], index[i := low], stack, h, low, rows[i] + rows[j], w)
  {
    var i := stack0[h];
    var j := rel[i][c];
    assert index[i] == index0[i] != Done(|rel|);
    if index[w] != Done(|init|) {
      var m :| index[j] - 1 <= m < |stack| && 0 <= m && stack[m] == w && (|stack0| <= m ==> init[w] <= rows[j]);
      if h <= m < |stack0| {
        assert stack0[m] == w;
        assert init[w] <= rows0[i] == rows[i];
      }
    }
  }

  lemma AdvanceOld(rel: seq<seq<nat>>, init: Rows, rows0: Rows, index0: seq<nat>, stack0: seq<nat>,
                   rows: Rows, index: seq<nat>, stack: seq<nat>, h: nat, c: nat, k: nat)
    requires Looked(rel, init, rows0, index0, stack0, rows, index, stack, h, c)
    requires h < k < |stack0|
    ensures var i := stack0[h]; var j := rel[i][c]; var low := Lower(index, i, j); var row := rows[i] + rows[j];
            && low <= index[stack[k]] <= k && Reach(Adjacent(rel), i, stack[k]) && init[stack[k]] <= row
            && forall d :: 0 <= d < |rel[stack[k]]| ==>
                 Covered(init, rows[i := row], index[i := low], stack, h, low, row, rel[stack[k]][d])
  {
    var i := stack0[h];
    var j := rel[i][c];
    var low := Lower(index, i, j);
    assert stack[k] == stack0[k] && index[i] == index0[i] && rows[i] == rows0[i];
    forall d | 0 <= d < |rel[stack[k]]|
      ensures Covered(init, rows[i := rows[i] + rows[j]], index[i := low], stack, h, low, rows[i] + rows[j], rel[stack[k]][d])
    {
      CoveredLater(rel, init, rows0, index0, stack0, rows, index, stack, h, low, rows[i] + rows[j], rel[stack[k]][d]);
    }
  }

  lemma AdvanceNew(rel: seq<seq<nat>>, init: Rows, rows0: Rows, index0: seq<nat>, stack0: seq<nat>,
                   rows: Rows, index: seq<nat>, stack: seq<nat>, h: nat, c: nat, k: nat)
    requires Looked(rel, init, rows0, index0, stack0, rows, index, stack, h, c)
    requires |stack0| <= k < |stack|
    ensures var i := stack0[h]; var j := rel[i][c]; var low := Lower(index, i, j); var row := rows[i] + rows[j];
            && low <= index[stack[k]] <= k && Reach(Adjacent(rel), i, stack[k]) && init[stack[k]] <= row
            && forall d :: 0 <= d < |rel[stack[k]]| ==>
                 Covered(init, rows[i := row], index[i := low], stack, h, low, row, rel[stack[k]][d])
  {
    var i := stack0[h];
    var j := rel[i][c];
    assert stack[|stack0|] == j && index[j] <= |stack0|;
    ReachStep(Adjacent(rel), i, j, stack[k]);
    forall d | 0 <= d < |rel[stack[k]]|
      ensures Covered(init, rows[i := rows[i] + rows[j]], index[i := Lower(index, i, j)], stack, h,
                      Lower(index, i, j), rows[i] + rows[j], rel[stack[k]][d])
    {
      var w := rel[stack[k]][d];
      assert Covered(init, rows, index, stack, |stack0|, index[j], rows[j], w);
      CoveredBelow(rel, init, rows0, index0, stack0, rows, index, stack, h, c, w);
    }
  }

  lemma AdvanceEdges(rel: seq<seq<nat>>, init: Rows, rows0: Rows, index0: seq<nat>, stack0: seq<nat>,
                     rows: Rows, index: seq<nat>, stack: seq<nat>, h: nat, c: nat, d: nat)
    requires Looked(rel, init, rows0, index0, stack0, rows, index, stack, h, c)
    requires d <= c
    ensures var i := stack0[h]; var j := rel[i][c]; var low := Lower(index, i, j); var row := rows[i] + rows[j];
            Covered(init, rows[i := row], index[i := low], stack, h, low, row, rel[i][d])
  {
    var i := stack0[h];
    var j := rel[i][c];
    var low := Lower(index, i, j);
    assert index[i] == index0[i] && rows[i] == rows0[i];
    if d < c {
      CoveredLater(rel, init, rows0, index0, stack0, rows, index, stack, h, low, rows[i] + rows[j], rel[i][d]);
    } else if index[j] != Done(|init|) {
      assert index[j] != 0;
      var m :| 0 <= m < |stack| && stack[m] == j;
      assert low - 1 <= m;
      assert init[j] <= rows[j];
    }
  }

  lemma AdvanceInv(rel: seq<seq<nat>>, init: Rows, rows: Rows, index: seq<nat>, stack: seq<nat>, h: nat, j: nat)
    requires Inv(rel, init, rows, index, stack)
    requires h < |stack| && j < |rel| && j in rel[stack[h]] && index[j] != 0
    ensures var i := stack[h];
            Inv(rel, init, rows[i := rows[i] + rows[j]], index[i := Lower(index, i, j)], stack)
  {
    AddRow(rel, init, rows, index, stack[h], j, Lower(index, stack[h], j));
    SinkLink(rel, index, stack, h, j);
    hide RowsOk, StackOk, LowLinks;
  }

  /** What the segment says of stack[k] after one round. */
  ghost predicate Advanced(rel: seq<seq<nat>>, init: Rows, rows: Rows, index: seq<nat>, stack: seq<nat>,
                           h: nat, i: nat, j: nat, k: nat)
    requires |init| == |rel| == |rows| == |index| && IsGraph(rel)
    requires i < |rel| && j < |rel| && k < |stack| && stack[k] < |rel|
  {
    var low := Lower(index, i, j);
    var row := rows[i] + rows[j];
    && stack[k] != i && low <= index[stack[k]] <= k
    && Reach(Adjacent(rel), i, stack[k]) && init[stack[k]] <= row
    && forall d :: 0 <= d < |rel[stack[k]]| ==>
         Covered(init, rows[i := row], index[i := low], stack, h, low, row, rel[stack[k]][d])
  }

  lemma AdvanceAt(rel: seq<seq<nat>>, init: Rows, rows0: Rows, index0: seq<nat>, stack0: seq<nat>,
                  rows: Rows, index: seq<nat>, stack: seq<nat>, h: nat, c: nat, k: nat)
    requires Looked(rel, init, rows0, index0, stack0, rows, index, stack, h, c)
    requires h < k < |stack|
    ensures Advanced(rel, init, rows, index, stack, h, stack0[h], rel[stack0[h]][c], k)
  {
    assert stack[h] == stack0[h] && stack[k] != stack[h];
    hide Covered, Reach;
    if k < |stack0| {
      AdvanceOld(rel, init, rows0, index0, stack0, rows, index, stack, h, c, k);
    } else {
      AdvanceNew(rel, init, rows0, index0, stack0, rows, index, stack, h, c, k);
    }
  }

  /** One round of the loop over the successors of i keeps the invariants. */
  lemma Advance(rel: seq<seq<nat>>, init: Rows, rows0: Rows, index0: seq<nat>, stack0: seq<nat>,
                rows: Rows, index: seq<nat>, stack: seq<nat>, h: nat, c: nat)
    requires Looked(rel, init, rows0, index0, stack0, rows, index, stack, h, c)
    ensures var i := stack0[h]; var j := rel[i][c];
            var rows', index' := rows[i := rows[i] + rows[j]], index[i := Lower(index, i, j)];
            && Inv(rel, init, rows', index', stack)
            && Segment(rel, init, rows', index', stack, h, c + 1)
  {
    hide Covered, Reach, LowLinks, DoneClosed;
    var i := stack0[h];
    var j := rel[i][c];
    assert stack[h] == i && index[j] != 0;
    assert init[i] <= rows[i];
    AdvanceInv(rel, init, rows, index, stack, h, j);
    ReachRefl(Adjacent(rel), i);
    var low, row := Lower(index, i, j), rows[i] + rows[j];
    var rows', index' := rows[i := row], index[i := low];
    forall k | h < k < |stack|
      ensures index'[i] <= index'[stack[k]] <= k
      ensures Reach(Adjacent(rel), i, stack[k]) && init[stack[k]] <= rows'[i]
    {
      AdvanceAt(rel, init, rows0, index0, stack0, rows, index, stack, h, c, k);
    }
    forall k, d | h < k < |stack| && 0 <= d < |rel[stack[k]]|
      ensures Covered(init, rows', index', stack, h, index'[i], rows'[i], rel[stack[k]][d])
    {
      AdvanceAt(rel, init, rows0, index0, stack0, rows, index, stack, h, c, k);
    }
    forall d | 0 <= d < c + 1
      ensures Covered(init, rows', index', stack, h, index'[i], rows'[i], rel[i][d])
    {
      AdvanceEdges(rel, init, rows0, index0, stack0, rows, index, stack, h, c, d);
    }
  }

  // ---------------------------------------------------------------------------------
  // Popping a strongly connected component.

  /** The visit of stack[h] is complete and its low link still points at itself. */
  ghost predicate Root(rel: seq<seq<nat>>, init: Rows, rows: Rows, index: seq<nat>, stack: seq<nat>, h: nat)
  {
    && Inv(rel, init, rows, index, stack)
    && h < |stack| && index[stack[h]] == h + 1
    && Segment(rel, init, rows, index, stack, h, |rel[stack[h]]|)
  }

  lemma RootEdge(rel: seq<seq<nat>>, init: Rows, rows: Rows, index: seq<nat>, stack: seq<nat>, h: nat, k: nat, w: nat)
    requires Root(rel, init, rows, index, stack, h)
    requires h <= k < |stack| && w in rel[stack[k]]
    ensures w < |rel| && ((index[w] == Done(|rel|) && rows[w] <= rows[stack[h]]) || w in stack[h..])
  {
    var c :| 0 <= c < |rel[stack[k]]| && rel[stack[k]][c] == w;
    var i := stack[h];
    assert Covered(init, rows, index, stack, h, index[i], rows[i], w);
    if !(index[w] == Done(|rel|) && rows[w] <= rows[i]) {
      var m :| index[i] - 1 <= m < |stack| && 0 <= m && stack[m] == w && (h <= m ==> init[w] <= rows[i]);
      assert stack[h..][m - h] == w;
    }
  }

  lemma RootRow(rel: seq<seq<nat>>, init: Rows, rows: Rows, index: seq<nat>, stack: seq<nat>, h: nat)
    requires Root(rel, init, rows, index, stack, h)
    ensures IsUnion(rel, init, stack[h], rows[stack[h]])
  {
    var i := stack[h];
    forall t | InUnion(rel, init, i, t) ensures t in rows[i] {
      var j: nat :| j < |init| && Reach(Adjacent(rel), i, j) && t in init[j];
      var inv := (w: nat) => w < |rel| && ((index[w] == Done(|rel|) && rows[w] <= rows[i]) || w in stack[h..]);
      forall x: nat, y: nat | inv(x) && Adjacent(rel)(x, y) ensures inv(y) {
        if x in stack[h..] {
          var k :| h <= k < |stack| && stack[k] == x;
          RootEdge(rel, init, rows, index, stack, h, k, y);
        } else {
          DoneEdge(rel, init, rows, index, stack, x, y);
        }
      }
      assert stack[h..][0] == i;
      ReachInvariant(Adjacent(rel), i, j, inv);
      if j in stack[h..] {
        var k :| h <= k < |stack| && stack[k] == j;
      }
    }
  }

  /** A final row holds the rows of its successors, which are final too. */
  lemma DoneEdge(rel: seq<seq<nat>>, init: Rows, rows: Rows, index: seq<nat>, stack: seq<nat>, x: nat, y: nat)
    requires Inv(rel, init, rows, index, stack)
    requires x < |rel| && index[x] == Done(|rel|) && y in rel[x]
    ensures y < |rel| && index[y] == Done(|rel|) && rows[y] <= rows[x]
  {
    var c :| 0 <= c < |rel[x]| && rel[x][c] == y;
    forall t | t in rows[y] ensures t in rows[x] {
      ReachEdge(Adjacent(rel), x, y);
      UnionPredecessor(rel, init, x, y, t);
    }
  }

  lemma {:induction false} ReachesRoot(rel: seq<seq<nat>>, init: Rows, rows: Rows, index: seq<nat>, stack: seq<nat>,
                                       h: nat, k: nat)
    requires Root(rel, init, rows, index, stack, h)
    requires h <= k < |stack|
    ensures Reach(Adjacent(rel), stack[k], stack[h])
    decreases k
  {
    if k == h {
      ReachRefl(Adjacent(rel), stack[h]);
    } else {
      var m := index[stack[k]] - 1;
      ReachesRoot(rel, init, rows, index, stack, h, m);
      ReachTrans(Adjacent(rel), stack[k], stack[m], stack[h]);
    }
  }

  /** The component above h has been taken off the stack down to height `top`. */
  ghost predicate Popping(rows0: Rows, index0: seq<nat>, stack0: seq<nat>, h: nat,
                          rows: Rows, index: seq<nat>, top: nat)
    requires |rows0| == |index0| == |rows| == |index|
    requires forall k :: 0 <= k < |stack0| ==> stack0[k] < |index|
    requires h < |stack0|
  {
    && top <= |stack0|
    && (forall k :: top <= k < |stack0| ==> index[stack0[k]] == Done(|index|) && rows[stack0[k]] == rows0[stack0[h]])
    && (forall v :: 0 <= v < |index| && v !in stack0[top..] ==> index[v] == index0[v] && rows[v] == rows0[v])
  }

  lemma PoppedKeep(rows0: Rows, index0: seq<nat>, stack0: seq<nat>, h: nat, rows: Rows, index: seq<nat>)
    requires |rows0| == |index0| == |rows| == |index| && h < |stack0|
    requires forall k :: 0 <= k < |stack0| ==> stack0[k] < |index|
    requires Popping(rows0, index0, stack0, h, rows, index, h)
    requires forall k :: 0 <= k < |stack0| ==> index0[stack0[k]] != 0
    ensures forall v :: 0 <= v < |index| ==> (index0[v] != 0 <==> index[v] != 0)
  {
    forall v | 0 <= v < |index| ensures index0[v] != 0 <==> index[v] != 0 {
      if v in stack0[h..] {
        var k :| 0 <= k < |stack0| - h && stack0[h..][k] == v;
        assert stack0[h + k] == v;
      }
    }
  }

  /** A visit that starts with an empty stack ends with one. */
  lemma VisitedRoot(rel: seq<seq<nat>>, init: Rows, rows: Rows, index: seq<nat>, stack: seq<nat>, i: nat)
    requires Inv(rel, init, rows, index, stack) && i < |rel|
    ensures Visited(rel, init, rows, index, stack, 0, i) ==> stack == []
  {
  }

  lemma PoppingStart(rows0: Rows, index0: seq<nat>, stack0: seq<nat>, h: nat)
    requires |rows0| == |index0| && h < |stack0| && forall k :: 0 <= k < |stack0| ==> stack0[k] < |index0|
    ensures Popping(rows0, index0, stack0, h, rows0, index0, |stack0|)
  {
  }

  lemma OnlyOnce(stack: seq<nat>, h: nat, k: nat)
    requires Distinct(stack) && h <= k < |stack|
    ensures stack[h] == stack[k] <==> h == k
  {
  }

  lemma PopOne(rows0: Rows, index0: seq<nat>, stack0: seq<nat>, h: nat, rows: Rows, index: seq<nat>, top: nat)
    requires |rows0| == |index0| == |rows| == |index|
    requires forall k :: 0 <= k < |stack0| ==> stack0[k] < |index|
    requires Distinct(stack0) && h < top <= |stack0|
    requires Popping(rows0, index0, stack0, h, rows, index, top)
    ensures var j := stack0[top-1];
            Popping(rows0, index0, stack0, h, rows[j := rows[stack0[h]]], index[j := Done(|index|)], top - 1)
  {
    forall k | top <= k < |stack0| ensures stack0[k] != stack0[h] && stack0[k] != stack0[top-1] {}
    assert stack0[h] !in stack0[top..];
    assert stack0[top-1..] == [stack0[top-1]] + stack0[top..];
  }

  lemma Popped(rel: seq<seq<nat>>, init: Rows, rows0: Rows, index0: seq<nat>, stack0: seq<nat>, h: nat,
               rows: Rows, index: seq<nat>)
    requires Root(rel, init, rows0, index0, stack0, h)
    requires |rows| == |index| == |rel|
    requires Popping(rows0, index0, stack0, h, rows, index, h)
    ensures Inv(rel, init, rows, index, stack0[..h])
  {
    var i := stack0[h];
    RootRow(rel, init, rows0, index0, stack0, h);
    forall k | h <= k < |stack0| ensures IsUnion(rel, init, stack0[k], rows0[i]) {
      ReachesRoot(rel, init, rows0, index0, stack0, h, k);
      UnionOfSame(rel, init, i, stack0[k], rows0[i]);
    }
    assert RowsOk(rel, init, rows, index) by {
      forall v | v in stack0[h..] ensures IsUnion(rel, init, v, rows[v]) && init[v] <= rows[v] {
        var k :| h <= k < |stack0| && stack0[k] == v;
      }
    }
    PoppedStack(rel, rows0, index0, stack0, h, rows, index);
    forall v, c | 0 <= v < |rel| && index[v] == Done(|rel|) && 0 <= c < |rel[v]|
      ensures index[rel[v][c]] == Done(|rel|)
    {
      if v in stack0[h..] {
        var k :| h <= k < |stack0| && stack0[k] == v;
        RootEdge(rel, init, rows0, index0, stack0, h, k, rel[v][c]);
      }
    }
  }

  /** The indexes below h are as they were, and those at or above h are final. */
  lemma PoppedIndex(rows0: Rows, index0: seq<nat>, stack0: seq<nat>, h: nat, rows: Rows, index: seq<nat>)
    requires |rows0| == |index0| == |rows| == |index| && h < |stack0|
    requires StackOk(|index|, index0, stack0)
    requires Popping(rows0, index0, stack0, h, rows, index, h)
    ensures forall k :: 0 <= k < h ==> index[stack0[k]] == index0[stack0[k]]
    ensures forall v :: 0 <= v < |index| ==> index[v] == 0 || index[v] == Done(|index|) || v in stack0[..h]
  {
    forall k | 0 <= k < h ensures stack0[k] !in stack0[h..] {
      forall l | h <= l < |stack0| ensures stack0[l] != stack0[k] {}
    }
    assert stack0 == stack0[..h] + stack0[h..];
    forall v | v in stack0[h..] ensures v < |index| && index[v] == Done(|index|) {
      var l :| h <= l < |stack0| && stack0[l] == v;
    }
  }

  lemma PoppedStack(rel: seq<seq<nat>>, rows0: Rows, index0: seq<nat>, stack0: seq<nat>, h: nat,
                    rows: Rows, index: seq<nat>)
    requires |index0| == |rel| == |rows0| && StackOk(|rel|, index0, stack0) && LowLinks(rel, index0, stack0)
    requires |rows| == |index| == |rel| && h < |stack0|
    requires Popping(rows0, index0, stack0, h, rows, index, h)
    ensures StackOk(|rel|, index, stack0[..h]) && LowLinks(rel, index, stack0[..h])
  {
    PoppedIndex(rows0, index0, stack0, h, rows, index);
    hide Popping;
    forall k | 0 <= k < h ensures stack0[..h][k] == stack0[k] {}
  }

  ghost function White(index: seq<nat>): set<nat>
  {
    set v | v in Range(|index|) && index[v] == 0
  }

  lemma FrameRefl(rows: Rows, index: seq<nat>, stack: seq<nat>)
    requires |rows| == |index|
    ensures Frame(rows, index, stack, rows, index, stack)
  {
  }

  lemma FramePush(rows: Rows, index: seq<nat>, stack: seq<nat>, i: nat, low: nat)
    requires |rows| == |index| && i < |index| && index[i] == 0
    ensures Frame(rows, index, stack, rows, index[i := low], stack + [i])
  {
  }

  lemma WhiteShrinks(rows0: Rows, index0: seq<nat>, stack0: seq<nat>, rows: Rows, index: seq<nat>, stack: seq<nat>, i: nat)
    requires |rows0| == |index0| == |rows| == |index| && i < |index|
    requires Frame(rows0, index0, stack0, rows, index, stack)
    requires index0[i] == 0 && index[i] != 0
    ensures White(index) < White(index0)
  {
    assert i in White(index0) && i !in White(index);
  }

  lemma StackSizes(rel: seq<seq<nat>>, init: Rows, rows: Rows, index: seq<nat>, stack: seq<nat>)
    requires Inv(rel, init, rows, index, stack)
    ensures |rows| == |index| == |rel| && StackOk(|rel|, index, stack)
  {
  }

  /** As Frame, but the row and the index of i itself may change. */
  ghost predicate FrameBut(rows: Rows, index: seq<nat>, stack: seq<nat>, rows': Rows, index': seq<nat>, stack': seq<nat>,
                           i: nat)
    requires |rows| == |index| == |rows'| == |index'|
  {
    && stack <= stack'
    && forall v :: 0 <= v < |index| && v != i && index[v] != 0 ==> index'[v] == index[v] && rows'[v] == rows[v]
  }

  lemma FrameThrough(rows0: Rows, index0: seq<nat>, stack0: seq<nat>, rows1: Rows, index1: seq<nat>, stack1: seq<nat>,
                     rows2: Rows, index2: seq<nat>, stack2: seq<nat>, i: nat)
    requires |rows0| == |index0| == |rows1| == |index1| == |rows2| == |index2| && i < |index0|
    requires Frame(rows0, index0, stack0, rows1, index1, stack1) && index0[i] == 0
    requires FrameBut(rows1, index1, stack1, rows2, index2, stack2, i)
    ensures Frame(rows0, index0, stack0, rows2, index2, stack2)
  {
    forall v | 0 <= v < |index0| && index0[v] != 0 ensures index2[v] == index0[v] && rows2[v] == rows0[v] {
      assert index1[v] == index0[v];
    }
  }

  /** Changing the row and the index of the node on top of the caller's stack is allowed to its visit. */
  lemma FrameOwn(rows0: Rows, index0: seq<nat>, stack0: seq<nat>, rows: Rows, index: seq<nat>, stack: seq<nat>,
                 i: nat, row: set<int>, low: nat)
    requires |rows0| == |index0| == |rows| == |index| && i < |index|
    requires Frame(rows0, index0, stack0, rows, index, stack)
    ensures FrameBut(rows0, index0, stack0, rows[i := row], index[i := low], stack, i)
  {
  }

  lemma FramePopped(rows0: Rows, index0: seq<nat>, stack0: seq<nat>, rows1: Rows, index1: seq<nat>, stack1: seq<nat>,
                    rows: Rows, index: seq<nat>)
    requires |rows0| == |index0| == |rows1| == |index1| == |rows| == |index|
    requires forall k :: 0 <= k < |stack1| ==> stack1[k] < |index|
    requires Frame(rows0, index0, stack0, rows1, index1, stack1)
    requires |stack0| < |stack1|
    requires forall k :: |stack0| <= k < |stack1| ==> index0[stack1[k]] == 0
    requires Popping(rows1, index1, stack1, |stack0|, rows, index, |stack0|)
    ensures Frame(rows0, index0, stack0, rows, index, stack1[..|stack0|])
  {
    forall v | 0 <= v < |index0| && index0[v] != 0 ensures v !in stack1[|stack0|..] {}
  }

  lemma TopOfVisit(rel: seq<seq<nat>>, init: Rows, rows: Rows, index: seq<nat>, stack: seq<nat>, h: nat, c: nat)
    requires Inv(rel, init, rows, index, stack)
    requires h < |stack| && c <= |rel[stack[h]]| && Segment(rel, init, rows, index, stack, h, c)
    ensures 1 <= index[stack[h]] <= h + 1 && stack[h] < |rel|
  {
  }

  /** All that one round of the loop over the successors of i = stack1[h] does. */
  lemma Round(rel: seq<seq<nat>>, init: Rows, rows1: Rows, index1: seq<nat>, stack1: seq<nat>,
              rows2: Rows, index2: seq<nat>, stack2: seq<nat>, h: nat, c: nat)
    requires Looked(rel, init, rows1, index1, stack1, rows2, index2, stack2, h, c)
    ensures var i := stack1[h]; var j := rel[i][c];
            var rows', index' := rows2[i := rows2[i] + rows2[j]], index2[i := Lower(index2, i, j)];
            && Inv(rel, init, rows', index', stack2)
            && h < |stack2| && stack2[h] == i && index'[i] != 0
            && Segment(rel, init, rows', index', stack2, h, c + 1)
            && FrameBut(rows1, index1, stack1, rows', index', stack2, i)
  {
    var i := stack1[h];
    var j := rel[i][c];
    hide Inv, Segment, FrameBut, Covered;
    Advance(rel, init, rows1, index1, stack1, rows2, index2, stack2, h, c);
    var rows', index' := rows2[i := rows2[i] + rows2[j]], index2[i := Lower(index2, i, j)];
    TopOfVisit(rel, init, rows', index', stack2, h, c + 1);
    FrameOwn(rows1, index1, stack1, rows2, index2, stack2, i, rows2[i] + rows2[j], Lower(index2, i, j));
  }

  /** The visit of i ends with its component on the stack. */
  lemma LeaveOnStack(rel: seq<seq<nat>>, init: Rows, rows: Rows, index: seq<nat>, stack: seq<nat>, h: nat)
    requires Inv(rel, init, rows, index, stack)
    requires h < |stack| && Segment(rel, init, rows, index, stack, h, |rel[stack[h]]|) && index[stack[h]] != h + 1
    ensures Visited(rel, init, rows, index, stack, h, stack[h])
  {
  }

  /** The visit of i ends with its component popped. */
  lemma LeavePopped(rel: seq<seq<nat>>, init: Rows, rows0: Rows, index0: seq<nat>, stack0: seq<nat>,
                    rows1: Rows, index1: seq<nat>, stack1: seq<nat>, rows: Rows, index: seq<nat>)
    requires |rows0| == |index0| == |rel|
    requires Inv(rel, init, rows1, index1, stack1) && Frame(rows0, index0, stack0, rows1, index1, stack1)
    requires |stack0| < |stack1| && Inv(rel, init, rows, index, stack1[..|stack0|])
    requires StackOk(|rel|, index0, stack0)
    requires Popping(rows1, index1, stack1, |stack0|, rows, index, |stack0|)
    ensures Visited(rel, init, rows, index, stack1[..|stack0|], |stack0|, stack1[|stack0|])
    ensures Frame(rows0, index0, stack0, rows, index, stack1[..|stack0|])
  {
    forall k | |stack0| <= k < |stack1| ensures index0[stack1[k]] == 0 {
      forall l | 0 <= l < |stack0| ensures stack1[k] != stack0[l] {
        assert stack1[l] == stack0[l];
      }
      assert index1[stack1[k]] != Done(|rel|);
    }
    FramePopped(rows0, index0, stack0, rows1, index1, stack1, rows, index);
  }

  /** A node without successors that is never visited keeps its row, which is the whole union. */
  lemma IsolatedRow(rel: seq<seq<nat>>, init: Rows, rows: Rows, index: seq<nat>, i: nat)
    requires Shapes(rel, init, rows, index) && RowsOk(rel, init, rows, index)
    requires i < |rel| && rel[i] == []
    ensures IsUnion(rel, init, i, rows[i])
  {
    forall t | InUnion(rel, init, i, t) ensures t in rows[i] {
      var j: nat :| j < |init| && Reach(Adjacent(rel), i, j) && t in init[j];
      ReachHead(Adjacent(rel), i, j);
    }
  }

  /** The node has a successor or a predecessor. */
  ghost predicate Linked(rel: seq<seq<nat>>, v: nat)
  {
    v < |rel| && (rel[v] != [] || exists u: nat :: u < |rel| && v in rel[u])
  }

  /** Exactly the nodes with an index were pushed, each once, and all of them are linked. */
  ghost predicate Once(rel: seq<seq<nat>>, pushed: seq<nat>, index: seq<nat>)
  {
    && Distinct(pushed)
    && (forall v: nat :: v in pushed <==> v < |index| && index[v] != 0)
    && (forall v: nat :: v in pushed ==> Linked(rel, v))
  }

  lemma OncePush(rel: seq<seq<nat>>, pushed: seq<nat>, index: seq<nat>, i: nat, x: nat)
    requires Once(rel, pushed, index) && Linked(rel, i) && i < |index| && index[i] == 0 && x != 0
    ensures Once(rel, pushed + [i], index[i := x])
  {
  }

  lemma OnceKeep(rel: seq<seq<nat>>, pushed: seq<nat>, index: seq<nat>, index': seq<nat>)
    requires Once(rel, pushed, index) && |index| == |index'|
    requires forall v :: 0 <= v < |index| ==> (index[v] != 0 <==> index'[v] != 0)
    ensures Once(rel, pushed, index')
  {
  }

  /** When nothing is left on the stack, the nodes pushed are the linked ones, if those with successors were visited. */
  lemma PushedLinked(rel: seq<seq<nat>>, init: Rows, rows: Rows, index: seq<nat>, pushed: seq<nat>, v: nat)
    requires Inv(rel, init, rows, index, []) && Once(rel, pushed, index)
    requires forall u :: 0 <= u < |rel| && rel[u] != [] ==> index[u] != 0
    ensures v in pushed <==> Linked(rel, v)
  {
    if u: nat :| u < |rel| && v in rel[u] {
      assert index[u] == Done(|rel|);
      var c :| 0 <= c < |rel[u]| && rel[u][c] == v;
      assert index[rel[u][c]] == Done(|rel|);
    }
  }

  // ---------------------------------------------------------------------------------
  // The program.

  /** The globals of the traversal: the relation R, the rows F, INDEX, VERTICES and top, with their contents. */
  class Traversal {
    const R: seq<seq<nat>>
    const F: array<set<int>>
    const INDEX: array<nat>
    const VERTICES: array<nat>
    var top: nat

    ghost const init: Rows
    ghost var rows: Rows
    ghost var index: seq<nat>
    ghost var stack: seq<nat>
    ghost var pushed: seq<nat>

    ghost predicate Tied()
      reads this, F, INDEX, VERTICES
    {
      && F.Length == INDEX.Length == |R| && VERTICES.Length == |R| + 1 && INDEX != VERTICES
      && F[..] == rows && INDEX[..] == index && top == |stack| <= |R|
      && forall k :: 0 <= k < |stack| ==> VERTICES[k + 1] == stack[k]
    }

    ghost predicate Valid()
      reads this, F, INDEX, VERTICES
    {
      Tied() && Inv(R, init, rows, index, stack)
    }

    constructor (rel: seq<seq<nat>>, f: array<set<int>>)
      requires IsGraph(rel) && f.Length == |rel|
      ensures Valid() && R == rel && F == f && init == f[..] && stack == [] && pushed == []
      ensures fresh(INDEX) && fresh(VERTICES)
      ensures forall v :: 0 <= v < |rel| ==> index[v] == 0
    {
      R := rel;
      F := f;
      INDEX := new nat[|rel|](_ => 0);
      VERTICES := new nat[|rel| + 1](_ => 0);
      top := 0;
      init, rows, index, stack, pushed := f[..], f[..], seq(|rel|, _ => 0), [], [];
      new;
      assert RowsOk(R, init, rows, index) by {
        forall v, t | 0 <= v < |R| && t in init[v] ensures InUnion(R, init, v, t) {
          ReachRefl(Adjacent(R), v);
        }
      }
    }

    method PushVertex(i: nat)
      requires Tied() && top < |R| && i < |R|
      modifies this, F, INDEX, VERTICES
      ensures Tied() && stack == old(stack) + [i] && rows == old(rows) && index == old(index)
      ensures pushed == old(pushed) + [i]
    {
      top := top + 1;
      VERTICES[top] := i;
      stack, pushed := stack + [i], pushed + [i];
    }

    method PopVertex() returns (j: nat)
      requires Tied() && top > 0
      modifies this, F, INDEX, VERTICES
      ensures Tied() && rows == old(rows) && index == old(index) && pushed == old(pushed)
      ensures j == old(stack)[|old(stack)| - 1] && stack == old(stack)[..|old(stack)| - 1]
    {
      j := VERTICES[top];
      top := top - 1;
      stack := stack[..|stack|-1];
    }

    method SetIndex(i: nat, x: nat)
      requires Tied() && i < |R|
      modifies this, F, INDEX, VERTICES
      ensures Tied() && rows == old(rows) && index == old(index)[i := x] && stack == old(stack) && pushed == old(pushed)
    {
      INDEX[i] := x;
      index := index[i := x];
    }

    method SetRow(i: nat, row: set<int>)
      requires Tied() && i < |R|
      modifies this, F, INDEX, VERTICES
      ensures Tied() && rows == old(rows)[i := row] && index == old(index) && stack == old(stack) && pushed == old(pushed)
    {
      F[i] := row;
      rows := rows[i := row];
    }

    method Traverse(i: nat)
      requires Valid() && Linked(R, i) && index[i] == 0 && Once(R, pushed, index)
      modifies this, F, INDEX, VERTICES
      ensures Valid() && Once(R, pushed, index) && old(pushed) < pushed && (old(stack) == [] ==> stack == [])
      ensures Frame(old(rows), old(index), old(stack), rows, index, stack)
      ensures Visited(R, init, rows, index, stack, |old(stack)|, i)
      decreases White(index), 0
    {
      hide Inv, Segment, Frame, Visited, Once, White;
      ghost var rows0, index0, stack0, pushed0 := rows, index, stack, pushed;
      StackSizes(R, init, rows, index, stack);
      var height := Enter(i);
      var c := 0;
      while c < |R[i]|
        invariant Valid() && c <= |R[i]| && Once(R, pushed, index) && pushed0 < pushed
        invariant height == |stack0| + 1 <= |stack| && stack[height - 1] == i && index0[i] == 0 && index[i] != 0
        invariant Segment(R, init, rows, index, stack, height - 1, c)
        invariant Frame(rows0, index0, stack0, rows, index, stack)
      {
        WhiteShrinks(rows0, index0, stack0, rows, index, stack, i);
        ghost var rows1, index1, stack1 := rows, index, stack;
        Successor(i, height, c);
        FrameThrough(rows0, index0, stack0, rows1, index1, stack1, rows, index, stack, i);
        c := c + 1;
      }
      if INDEX[i] == height {
        PopComponent(i, height, rows0, index0, stack0);
      } else {
        LeaveOnStack(R, init, rows, index, stack, height - 1);
      }
      VisitedRoot(R, init, rows, index, stack, i);
    }

    /** The start of a visit. */
    method Enter(i: nat) returns (height: nat)
      requires Valid() && Linked(R, i) && index[i] == 0 && Once(R, pushed, index)
      modifies this, F, INDEX, VERTICES
      ensures Valid() && Once(R, pushed, index) && pushed == old(pushed) + [i]
      ensures height == |stack| == |old(stack)| + 1 && stack[height - 1] == i && index[i] != 0
      ensures Segment(R, init, rows, index, stack, height - 1, 0)
      ensures Frame(old(rows), old(index), old(stack), rows, index, stack)
    {
      Push(R, init, rows, index, stack, i);
      FramePush(rows, index, stack, i, |stack| + 1);
      OncePush(R, pushed, index, i, |stack| + 1);
      hide Inv, Segment, Frame, Once;
      PushVertex(i);
      height := top;
      SetIndex(i, height);
    }

    /** The body of the loop over the successors of i. */
    method Successor(i: nat, height: nat, c: nat)
      requires Valid() && 1 <= height <= |stack| && stack[height - 1] == i && i < |R| && c < |R[i]|
      requires Segment(R, init, rows, index, stack, height - 1, c) && Once(R, pushed, index)
      modifies this, F, INDEX, VERTICES
      ensures Valid() && Once(R, pushed, index) && old(pushed) <= pushed
      ensures height <= |stack| && stack[height - 1] == i && index[i] != 0
      ensures Segment(R, init, rows, index, stack, height - 1, c + 1)
      ensures FrameBut(old(rows), old(index), old(stack), rows, index, stack, i)
      decreases White(index), 2
    {
      hide Inv, Segment, FrameBut, StackOk, LowLinks, RowsOk, DoneClosed, Shapes, Once, Looked;
      ghost var rows1, index1, stack1 := rows, index, stack;
      StackSizes(R, init, rows, index, stack);
      LookAt(i, height, c);
      Round(R, init, rows1, index1, stack1, rows, index, stack, height - 1, c);
      ghost var index2 := index;
      Absorb(i, R[i][c]);
      OnceKeep(R, pushed, index2, index);
    }

    /** The visit of a successor that was not met before. */
    method LookAt(i: nat, height: nat, c: nat)
      requires Valid() && 1 <= height <= |stack| && stack[height - 1] == i && i < |R| && c < |R[i]|
      requires Segment(R, init, rows, index, stack, height - 1, c) && Once(R, pushed, index)
      modifies this, F, INDEX, VERTICES
      ensures Valid() && Once(R, pushed, index) && old(pushed) <= pushed && R[i][c] < |R|
      ensures Looked(R, init, old(rows), old(index), old(stack), rows, index, stack, height - 1, c)
      decreases White(index), 1
    {
      TopOfVisit(R, init, rows, index, stack, height - 1, c);
      assert R[i][c] < |R|;
      hide Inv, Segment, Frame, Visited, StackOk, LowLinks, RowsOk, DoneClosed, Shapes, Once;
      FrameRefl(rows, index, stack);
      var j := R[i][c];
      if INDEX[j] == 0 {
        Traverse(j);
      }
    }

    /** Lower the link of i to that of j and add the row of j to the row of i. */
    method Absorb(i: nat, j: nat)
      requires Tied() && i < |R| && j < |R|
      modifies this, F, INDEX, VERTICES
      ensures Tied() && stack == old(stack) && pushed == old(pushed)
      ensures index == old(index)[i := Lower(old(index), i, j)]
      ensures rows == old(rows)[i := old(rows)[i] + old(rows)[j]]
    {
      if INDEX[i] > INDEX[j] {
        SetIndex(i, INDEX[j]);
      }
      SetRow(i, F[i] + F[j]);
    }

    /** The loop at the end of traverse that takes a finished component off the stack. */
    method PopComponent(i: nat, height: nat, ghost rows0: Rows, ghost index0: seq<nat>, ghost stack0: seq<nat>)
      requires Valid() && height == |stack0| + 1 <= |stack| && stack[height - 1] == i
      requires Root(R, init, rows, index, stack, height - 1)
      requires |rows0| == |index0| == |R| && StackOk(|R|, index0, stack0)
      requires Frame(rows0, index0, stack0, rows, index, stack)
      modifies this, F, INDEX, VERTICES
      ensures Valid() && stack == stack0 && pushed == old(pushed)
      ensures Once(R, old(pushed), old(index)) ==> Once(R, pushed, index)
      ensures Visited(R, init, rows, index, stack, |stack0|, i)
      ensures Frame(rows0, index0, stack0, rows, index, stack)
    {
      ghost var rows1, index1, stack1 := rows, index, stack;
      PopDown(i, height);
      PoppedKeep(rows1, index1, stack1, |stack0|, rows, index);
      if Once(R, pushed, index1) { OnceKeep(R, pushed, index1, index); }
      Popped(R, init, rows1, index1, stack1, |stack0|, rows, index);
      LeavePopped(R, init, rows0, index0, stack0, rows1, index1, stack1, rows, index);
    }

    method PopDown(i: nat, height: nat)
      requires Tied() && 1 <= height <= |stack| && stack[height - 1] == i
      requires Distinct(stack) && forall k :: 0 <= k < |stack| ==> stack[k] < |R|
      modifies this, F, INDEX, VERTICES
      ensures Tied() && stack == old(stack)[..height - 1] && pushed == old(pushed)
      ensures Popping(old(rows), old(index), old(stack), height - 1, rows, index, height - 1)
    {
      ghost var rows1, index1, stack1 := rows, index, stack;
      ghost var h := height - 1;
      hide Popping, Distinct;
      PoppingStart(rows1, index1, stack1, h);
      var popping := true;
      while popping
        invariant Tied() && h <= |stack| <= |stack1| && stack == stack1[..|stack|] && popping == (|stack| > h)
        invariant Popping(rows1, index1, stack1, h, rows, index, |stack|) && pushed == old(pushed)
        decreases |stack|
      {
        ghost var rows2 := rows;
        PopOne(rows1, index1, stack1, h, rows, index, |stack|);
        OnlyOnce(stack1, h, |stack| - 1);
        var j := PopVertex();
        SetIndex(j, |R| + 2);
        if i == j {
          popping := false;
        } else {
          SetRow(j, F[i]);
        }
        assert rows == rows2[j := rows2[i]];
      }
    }
  }

  /** Every row becomes the union of the initial rows of the nodes that it reaches (jay/lalr.c, digraph). On the way
      exactly the nodes with a successor or a predecessor are pushed onto the stack, each once. */
  method Spread(relation: seq<seq<nat>>, F: array<set<int>>) returns (ghost pushed: seq<nat>)
    requires IsGraph(relation) && F.Length == |relation|
    modifies F
    ensures Distinct(pushed) && forall v: nat :: v in pushed <==> Linked(relation, v)
    ensures forall i :: 0 <= i < |relation| ==> IsUnion(relation, old(F[..]), i, F[i])
  {
    var t := new Traversal(relation, F);
    for i := 0 to |relation|
      invariant t.Valid() && Once(relation, t.pushed, t.index) && t.stack == []
      invariant t.R == relation && t.F == F && t.init == old(F[..])
      invariant fresh(t) && fresh(t.INDEX) && fresh(t.VERTICES)
      invariant forall v :: 0 <= v < i && relation[v] != [] ==> t.index[v] != 0
    {
      if t.INDEX[i] == 0 && relation[i] != [] {
        ghost var index := t.index;
        t.Traverse(i);
        assert forall v :: 0 <= v < i && index[v] != 0 ==> t.index[v] != 0;
      }
    }
    pushed := t.pushed;
    forall v: nat ensures v in pushed <==> Linked(relation, v) {
      PushedLinked(relation, t.init, t.rows, t.index, pushed, v);
    }
    forall i | 0 <= i < |relation| ensures IsUnion(relation, t.init, i, t.rows[i]) {
      if t.index[i] == 0 {
        IsolatedRow(relation, t.init, t.rows, t.index, i);
      }
    }
  }
}
