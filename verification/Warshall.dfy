/** Transitive closure of a bit matrix in place (jay/warshall.c). */
module Warshall {
  import opened Relation
  import opened Words

  /** The edges that an n by n matrix of packed rows stands for. */
  ghost function BitEdges(words: seq<bv32>, n: nat): Edges
  {
    (i: nat, j: nat) => i < n && j < n && Bit(words, RowOf(i, n), j)
  }

  /** Bit (i, j) of now is set exactly if was leads from i to j in one or more steps. */
  ghost predicate IsTransitiveClosure(was: seq<bv32>, now: seq<bv32>, n: nat)
  {
    forall i: nat, j: nat :: i < n && j < n ==> (Bit(now, RowOf(i, n), j) <==> ReachPlus(BitEdges(was, n), i, j))
  }

  /** Bit (i, j) of now is set exactly if was leads from i to j in zero or more steps. */
  ghost predicate IsReflexiveClosure(was: seq<bv32>, now: seq<bv32>, n: nat)
  {
    forall i: nat, j: nat :: i < n && j < n ==> (Bit(now, RowOf(i, n), j) <==> Reach(BitEdges(was, n), i, j))
  }

  /** i leads to j through nodes below k only, in one or more steps. */
  ghost predicate Via(edge: Edges, k: nat, i: nat, j: nat)
  {
    if k == 0 then edge(i, j)
    else Via(edge, k - 1, i, j) || (Via(edge, k - 1, i, k - 1) && Via(edge, k - 1, k - 1, j))
  }

  lemma {:induction false} ViaSound(edge: Edges, k: nat, i: nat, j: nat)
    requires Via(edge, k, i, j)
    ensures ReachPlus(edge, i, j)
  {
    if k == 0 {
      ReachRefl(edge, j);
    } else if Via(edge, k - 1, i, j) {
      ViaSound(edge, k - 1, i, j);
    } else {
      ViaSound(edge, k - 1, i, k - 1);
      ViaSound(edge, k - 1, k - 1, j);
      var c: nat :| edge(i, c) && Reach(edge, c, k - 1);
      var d: nat :| edge(k - 1, d) && Reach(edge, d, j);
      ReachStep(edge, k - 1, d, j);
      ReachTrans(edge, c, k - 1, j);
    }
  }

  lemma {:induction false} ViaTrans(edge: Edges, k: nat, i: nat, m: nat, j: nat)
    requires m < k && Via(edge, k, i, m) && Via(edge, k, m, j)
    ensures Via(edge, k, i, j)
    decreases k
  {
    if m < k - 1 {
      if Via(edge, k - 1, i, m) {
        if Via(edge, k - 1, m, j) {
          ViaTrans(edge, k - 1, i, m, j);
        } else {
          ViaTrans(edge, k - 1, i, m, k - 1);
        }
      } else if Via(edge, k - 1, m, j) {
        ViaTrans(edge, k - 1, k - 1, m, j);
      }
    }
  }

  lemma {:induction false} ViaMore(edge: Edges, k: nat, n: nat, i: nat, j: nat)
    requires k <= n && Via(edge, k, i, j)
    ensures Via(edge, n, i, j)
    decreases n
  {
    if k < n {
      ViaMore(edge, k, n - 1, i, j);
    }
  }

  /** Over a graph on n nodes, going through all n nodes is reachability. */
  lemma ViaIsReach(edge: Edges, n: nat, i: nat, j: nat)
    requires forall x: nat, y: nat :: edge(x, y) ==> x < n && y < n
    ensures Via(edge, n, i, j) <==> ReachPlus(edge, i, j)
  {
    if Via(edge, n, i, j) {
      ViaSound(edge, n, i, j);
    }
    if ReachPlus(edge, i, j) {
      var c: nat :| edge(i, c) && Reach(edge, c, j);
      ViaMore(edge, 0, n, i, c);
      forall x: nat, y: nat | Via(edge, n, i, x) && edge(x, y) ensures Via(edge, n, i, y) {
        ViaMore(edge, 0, n, x, y);
        ViaTrans(edge, n, i, x, y);
      }
      ReachInvariant(edge, c, j, (x: nat) => Via(edge, n, i, x));
    }
  }

  /** Row i of the matrix holds what leads out of i through nodes below k. */
  ghost predicate RowVia(words: seq<bv32>, n: nat, edge: Edges, k: nat, i: nat)
  {
    forall j: nat :: j < n ==> (Bit(words, RowOf(i, n), j) <==> Via(edge, k, i, j))
  }

  lemma RowUntouched(old': seq<bv32>, words: seq<bv32>, n: nat, edge: Edges, k: nat, i: nat, dst: nat)
    requires |words| == |old'| == RowOf(n, n) && i < n && dst < n && i != dst
    requires forall w :: 0 <= w < |words| && !(RowOf(dst, n) <= w < RowOf(dst, n) + WORDSIZE(n)) ==>
               words[w] == old'[w]
    requires RowVia(old', n, edge, k, i)
    ensures RowVia(words, n, edge, k, i)
  {
    forall j: nat | j < n ensures Bit(words, RowOf(i, n), j) == Bit(old', RowOf(i, n), j) {
      ColumnInside(j, n);
      RowInside(i, n, n);
      RowsApart(dst, i, n);
    }
  }

  /** Row i in the middle of step k of the closure, when the rows below j have been done. */
  ghost predicate RowStep(words: seq<bv32>, n: nat, edge: Edges, k: nat, j: nat, i: nat)
  {
    RowVia(words, n, edge, if i < j then k + 1 else k, i)
  }

  ghost predicate Rows(words: seq<bv32>, n: nat, edge: Edges, k: nat, j: nat)
  {
    forall i: nat :: i < n ==> RowStep(words, n, edge, k, j, i)
  }

  /** now differs from was in row j only, to which row k has been added if bit k of row j was set. */
  ghost predicate RowAdded(was: seq<bv32>, now: seq<bv32>, n: nat, k: nat, j: nat)
  {
    var row := RowOf(j, n);
    && |was| == |now|
    && (forall w :: 0 <= w < |now| && !(row <= w < row + WORDSIZE(n)) ==> now[w] == was[w])
    && forall c: nat :: c < n ==>
         (Bit(now, row, c) <==> Bit(was, row, c) || (Bit(was, row, k) && Bit(was, RowOf(k, n), c)))
  }

  lemma RowsAdvance(was: seq<bv32>, now: seq<bv32>, n: nat, edge: Edges, k: nat, j: nat)
    requires |was| == RowOf(n, n) && k < n && j < n && Rows(was, n, edge, k, j) && RowAdded(was, now, n, k, j)
    ensures Rows(now, n, edge, k, j + 1)
  {
    assert RowStep(was, n, edge, k, j, j) && RowStep(was, n, edge, k, j, k);
    var next := j + 1;
    forall i: nat | i < n ensures RowStep(now, n, edge, k, next, i) {
      assert RowStep(was, n, edge, k, j, i);
      if i != j {
        RowUntouched(was, now, n, edge, if i < j then k + 1 else k, i, j);
      }
    }
  }

  /** The body of the column loop, for the rows that start at rowj and rowk. */
  method UpdateRow(r: array<bv32>, n: nat, k: nat, j: nat, rowj: nat, rowk: nat)
    requires r.Length == RowOf(n, n) && k < n && j < n
    requires rowj == RowOf(j, n) && rowk == RowOf(k, n)
    modifies r
    ensures RowAdded(old(r[..]), r[..], n, k, j)
  {
    hide RowOf, WORDSIZE, WordBit, RowOr;
    var size := WORDSIZE(n);
    ColumnInside(k, n);
    RowInside(j, n, n);
    RowInside(k, n, n);
    if j != k { RowsApart(j, k, n); }
    ghost var was := r[..];
    if WordBit(r[rowj + k / 32], k % 32) {
      OrRow(r, rowj, rowk, size);
      forall c: nat | c < n ensures Bit(r[..], rowj, c) <==> Bit(was, rowj, c) || Bit(was, rowk, c) {
        ColumnInside(c, n);
        RowOrBits(was, r[..], rowj, was, rowk, size, c);
      }
    }
  }

  method TransitiveClosure(R: array<bv32>, n: nat)
    requires R.Length == RowOf(n, n)
    modifies R
    ensures IsTransitiveClosure(old(R[..]), R[..], n)
  {
    hide Bit, WORDSIZE;
    ghost var edge := BitEdges(R[..], n);
    var rowsize := WORDSIZE(n);
    var k, rowi := 0, 0;
    assert Rows(R[..], n, edge, 0, 0);
    while k < n
      invariant k <= n && rowi == RowOf(k, n)
      invariant Rows(R[..], n, edge, k, 0)
    {
      var j, rowj := 0, 0;
      while j < n
        invariant j <= n && rowj == RowOf(j, n)
        invariant Rows(R[..], n, edge, k, j)
      {
        ghost var was := R[..];
        UpdateRow(R, n, k, j, rowj, rowi);
        RowsAdvance(was, R[..], n, edge, k, j);
        j, rowj := j + 1, rowj + rowsize;
      }
      NextStep(R[..], n, edge, k);
      k, rowi := k + 1, rowi + rowsize;
    }
    forall i: nat, j: nat | i < n && j < n
      ensures Bit(R[..], RowOf(i, n), j) <==> ReachPlus(edge, i, j)
    {
      assert RowStep(R[..], n, edge, n, 0, i);
      ViaIsReach(edge, n, i, j);
    }
  }

  lemma NextStep(words: seq<bv32>, n: nat, edge: Edges, k: nat)
    requires Rows(words, n, edge, k, n)
    ensures Rows(words, n, edge, k + 1, 0)
  {
    var next := k + 1;
    forall i: nat | i < n ensures RowStep(words, n, edge, next, 0, i) {
      assert RowStep(words, n, edge, k, n, i);
    }
  }

  /** The matrix holds the transitive closure, and its diagonal below d. */
  ghost predicate DiagonalBelow(words: seq<bv32>, n: nat, edge: Edges, d: nat)
  {
    forall i: nat, j: nat :: i < n && j < n ==>
      (Bit(words, RowOf(i, n), j) <==> ReachPlus(edge, i, j) || (i == j && i < d))
  }

  lemma DiagonalNext(was: seq<bv32>, now: seq<bv32>, n: nat, edge: Edges, d: nat)
    requires |was| == RowOf(n, n) && d < n && DiagonalBelow(was, n, edge, d)
    requires BitSet(was, now, RowOf(d, n), d)
    ensures DiagonalBelow(now, n, edge, d + 1)
  {
    forall i: nat, j: nat | i < n && j < n
      ensures Bit(now, RowOf(i, n), j) <==> ReachPlus(edge, i, j) || (i == j && i < d + 1)
    {
      ColumnInside(d, n);
      ColumnInside(j, n);
      MatrixBitSet(was, now, n, d, d, i, j);
    }
  }

  method ReflexiveTransitiveClosure(R: array<bv32>, n: nat)
    requires R.Length == RowOf(n, n)
    modifies R
    ensures IsReflexiveClosure(old(R[..]), R[..], n)
  {
    ghost var edge := BitEdges(R[..], n);
    TransitiveClosure(R, n);
    var rowsize := WORDSIZE(n);
    var d, row := 0, 0;
    assert DiagonalBelow(R[..], n, edge, 0);
    hide DiagonalBelow;
    while d < n
      invariant d <= n && row == RowOf(d, n)
      invariant DiagonalBelow(R[..], n, edge, d)
    {
      ghost var was := R[..];
      ColumnInside(d, n);
      RowInside(d, n, n);
      SETBIT(R, row, d);
      DiagonalNext(was, R[..], n, edge, d);
      d, row := d + 1, row + rowsize;
    }
    DiagonalDone(R[..], n, edge);
  }

  lemma DiagonalDone(words: seq<bv32>, n: nat, edge: Edges)
    requires DiagonalBelow(words, n, edge, n)
    ensures forall i: nat, j: nat :: i < n && j < n ==> (Bit(words, RowOf(i, n), j) <==> Reach(edge, i, j))
  {
    forall i: nat, j: nat | i < n && j < n
      ensures Bit(words, RowOf(i, n), j) <==> Reach(edge, i, j)
    {
      ReachIsPlusOrSame(edge, i, j);
    }
  }

  lemma ReachIsPlusOrSame(edge: Edges, i: nat, j: nat)
    ensures Reach(edge, i, j) <==> i == j || ReachPlus(edge, i, j)
  {
    if Reach(edge, i, j) {
      ReachHead(edge, i, j);
    }
    if i == j {
      ReachRefl(edge, i);
    }
    if ReachPlus(edge, i, j) {
      var c: nat :| edge(i, c) && Reach(edge, c, j);
      ReachStep(edge, i, c, j);
    }
  }
}
