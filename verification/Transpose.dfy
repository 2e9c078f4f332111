/** Turning a relation round (jay/lalr.c, transpose). */
module Transposition {
  import opened Relation

  /** i once for every occurrence of j among the first c elements of the row. */
  ghost function RowSources(row: seq<nat>, c: nat, i: nat, j: nat): seq<nat>
    requires c <= |row|
  {
    if c == 0 then []
    else if row[c-1] == j then RowSources(row, c - 1, i, j) + [i]
    else RowSources(row, c - 1, i, j)
  }

  /** The nodes below n with an edge to j, ascending, each as often as it has one. */
  ghost function Sources(R: seq<seq<nat>>, n: nat, j: nat): seq<nat>
    requires n <= |R|
  {
    if n == 0 then [] else Sources(R, n - 1, j) + RowSources(R[n-1], |R[n-1]|, n - 1, j)
  }

  /** The sources of j met when c elements of row i were looked at. */
  ghost function Met(R: seq<seq<nat>>, i: nat, c: nat, j: nat): seq<nat>
    requires i < |R| && c <= |R[i]|
  {
    Sources(R, i, j) + RowSources(R[i], c, i, j)
  }

  lemma {:induction false} RowSourcesOf(row: seq<nat>, c: nat, i: nat, j: nat, x: nat)
    requires c <= |row|
    ensures x in RowSources(row, c, i, j) <==> x == i && j in row[..c]
  {
    if c > 0 {
      RowSourcesOf(row, c - 1, i, j, x);
      assert row[..c] == row[..c-1] + [row[c-1]];
    }
  }

  /** Turning round keeps exactly the edges. */
  lemma {:induction false} SourcesOf(R: seq<seq<nat>>, n: nat, i: nat, j: nat)
    requires n <= |R|
    ensures i in Sources(R, n, j) <==> i < n && j in R[i]
  {
    if n > 0 {
      SourcesOf(R, n - 1, i, j);
      var row := R[n-1];
      RowSourcesOf(row, |row|, n - 1, j, i);
      assert row[..|row|] == row;
    }
  }

  lemma {:induction false} RowSourcesGrow(row: seq<nat>, c: nat, d: nat, i: nat, j: nat)
    requires c <= d <= |row|
    ensures |RowSources(row, c, i, j)| <= |RowSources(row, d, i, j)|
    ensures c < d && row[c] == j ==> |RowSources(row, c, i, j)| < |RowSources(row, d, i, j)|
    decreases d
  {
    if c < d {
      RowSourcesGrow(row, c, d - 1, i, j);
    }
  }

  lemma {:induction false} SourcesGrow(R: seq<seq<nat>>, m: nat, n: nat, j: nat)
    requires m <= n <= |R|
    ensures |Sources(R, m, j)| <= |Sources(R, n, j)|
    decreases n
  {
    if m < n {
      SourcesGrow(R, m, n - 1, j);
    }
  }

  /** The next element leaves room in the list of its target. */
  lemma MetRoom(R: seq<seq<nat>>, i: nat, c: nat, j: nat)
    requires i < |R| && c < |R[i]| && R[i][c] == j
    ensures |Met(R, i, c, j)| < |Sources(R, |R|, j)|
  {
    RowSourcesGrow(R[i], c, |R[i]|, i, j);
    SourcesGrow(R, i + 1, |R|, j);
  }

  lemma MetNext(R: seq<seq<nat>>, i: nat, c: nat, j: nat)
    requires i < |R| && c < |R[i]|
    ensures Met(R, i, c + 1, j) == if R[i][c] == j then Met(R, i, c, j) + [i] else Met(R, i, c, j)
  {
  }

  lemma MetRow(R: seq<seq<nat>>, i: nat, j: nat)
    requires i < |R|
    ensures Met(R, i, 0, j) == Sources(R, i, j) && Met(R, i, |R[i]|, j) == Sources(R, i + 1, j)
  {
  }

  /** The edges counted, or the lists filled, up to element c of row i. */
  ghost predicate Counted(R: seq<seq<nat>>, i: nat, c: nat, nedges: seq<nat>)
    requires i < |R| && c <= |R[i]|
  {
    |nedges| == |R| && forall j: nat :: j < |R| ==> nedges[j] == |Met(R, i, c, j)|
  }

  ghost predicate Turned(R: seq<seq<nat>>, i: nat, c: nat, rows: seq<seq<nat>>)
    requires i < |R| && c <= |R[i]|
  {
    |rows| == |R| && forall j: nat :: j < |R| ==> rows[j] == Met(R, i, c, j)
  }

  method CountRow(R: seq<seq<nat>>, i: nat, nedges: array<nat>)
    requires IsGraph(R) && i < |R| && Counted(R, i, 0, nedges[..])
    modifies nedges
    ensures Counted(R, i, |R[i]|, nedges[..])
  {
    hide Met;
    var sp: nat := 0;
    while sp < |R[i]|
      invariant sp <= |R[i]| && Counted(R, i, sp, nedges[..])
    {
      forall j: nat | j < |R|
        ensures Met(R, i, sp + 1, j) == if R[i][sp] == j then Met(R, i, sp, j) + [i] else Met(R, i, sp, j)
      {
        MetNext(R, i, sp, j);
      }
      nedges[R[i][sp]] := nedges[R[i][sp]] + 1;
      sp := sp + 1;
    }
  }

  /** new_R[j] is the buffer behind temp_R[j], written as far as temp_R has moved; it was sized by nedges[j]. */
  method TurnRow(R: seq<seq<nat>>, i: nat, nedges: seq<nat>, newR: array<seq<nat>>)
    requires IsGraph(R) && i < |R| && Turned(R, i, 0, newR[..])
    requires |nedges| == |R| && forall j: nat :: j < |R| ==> nedges[j] == |Sources(R, |R|, j)|
    modifies newR
    ensures Turned(R, i, |R[i]|, newR[..])
  {
    hide Met, Sources;
    var sp: nat := 0;
    while sp < |R[i]|
      invariant sp <= |R[i]| && Turned(R, i, sp, newR[..])
    {
      var j := R[i][sp];
      forall k: nat | k < |R|
        ensures Met(R, i, sp + 1, k) == if R[i][sp] == k then Met(R, i, sp, k) + [i] else Met(R, i, sp, k)
      {
        MetNext(R, i, sp, k);
      }
      MetRoom(R, i, sp, j);
      assert |newR[j]| < nedges[j];
      newR[j] := newR[j] + [i];
      sp := sp + 1;
    }
  }

  /** The lists of all nodes met in the first i rows. */
  ghost predicate AllCounted(R: seq<seq<nat>>, i: nat, nedges: seq<nat>)
    requires i <= |R|
  {
    |nedges| == |R| && forall j: nat :: j < |R| ==> nedges[j] == |Sources(R, i, j)|
  }

  ghost predicate AllTurned(R: seq<seq<nat>>, i: nat, rows: seq<seq<nat>>)
    requires i <= |R|
  {
    |rows| == |R| && forall j: nat :: j < |R| ==> rows[j] == Sources(R, i, j)
  }

  lemma CountedRow(R: seq<seq<nat>>, i: nat, nedges: seq<nat>)
    requires i < |R|
    ensures Counted(R, i, 0, nedges) <==> AllCounted(R, i, nedges)
    ensures Counted(R, i, |R[i]|, nedges) <==> AllCounted(R, i + 1, nedges)
  {
    hide Sources, Met;
    forall j: nat ensures Met(R, i, 0, j) == Sources(R, i, j) && Met(R, i, |R[i]|, j) == Sources(R, i + 1, j) {
      MetRow(R, i, j);
    }
  }

  lemma TurnedRow(R: seq<seq<nat>>, i: nat, rows: seq<seq<nat>>)
    requires i < |R|
    ensures Turned(R, i, 0, rows) <==> AllTurned(R, i, rows)
    ensures Turned(R, i, |R[i]|, rows) <==> AllTurned(R, i + 1, rows)
  {
    hide Sources, Met;
    forall j: nat ensures Met(R, i, 0, j) == Sources(R, i, j) && Met(R, i, |R[i]|, j) == Sources(R, i + 1, j) {
      MetRow(R, i, j);
    }
  }

  method CountAll(R: seq<seq<nat>>) returns (nedges: seq<nat>)
    requires IsGraph(R)
    ensures AllCounted(R, |R|, nedges)
  {
    hide Sources, AllCounted, Counted;
    var counts := new nat[|R|](_ => 0);
    var i: nat := 0;
    NothingCounted(R, counts[..]);
    while i < |R|
      invariant i <= |R| && AllCounted(R, i, counts[..])
    {
      CountedRow(R, i, counts[..]);
      CountRow(R, i, counts);
      CountedRow(R, i, counts[..]);
      i := i + 1;
    }
    nedges := counts[..];
  }

  lemma NothingCounted(R: seq<seq<nat>>, nedges: seq<nat>)
    requires |nedges| == |R| && forall j: nat :: j < |R| ==> nedges[j] == 0
    ensures AllCounted(R, 0, nedges)
  {
  }

  lemma NothingTurned(R: seq<seq<nat>>, rows: seq<seq<nat>>)
    requires |rows| == |R| && forall j: nat :: j < |R| ==> rows[j] == []
    ensures AllTurned(R, 0, rows)
  {
  }

  method Transpose(R: seq<seq<nat>>) returns (newR: seq<seq<nat>>)
    requires IsGraph(R)
    ensures |newR| == |R| && forall j: nat :: j < |R| ==> newR[j] == Sources(R, |R|, j)
  {
    hide Sources, Turned;
    var nedges := CountAll(R);
    var rows := new seq<nat>[|R|](_ => []);
    var i: nat := 0;
    NothingTurned(R, rows[..]);
    while i < |R|
      invariant i <= |R| && AllTurned(R, i, rows[..])
    {
      TurnedRow(R, i, rows[..]);
      TurnRow(R, i, nedges, rows);
      TurnedRow(R, i, rows[..]);
      i := i + 1;
    }
    newR := rows[..];
  }

  /** What the includes relation is turned round for. */
  lemma TransposeEdges(R: seq<seq<nat>>, T: seq<seq<nat>>)
    requires IsGraph(R) && |T| == |R| && forall j: nat :: j < |R| ==> T[j] == Sources(R, |R|, j)
    ensures IsGraph(T)
    ensures forall i: nat, j: nat :: Adjacent(T)(j, i) == Adjacent(R)(i, j)
  {
    forall i: nat, j: nat ensures Adjacent(T)(j, i) == Adjacent(R)(i, j) {
      if j < |R| { SourcesOf(R, |R|, i, j); }
    }
    forall j, k | 0 <= j < |T| && 0 <= k < |T[j]| ensures T[j][k] < |T| {
      SourcesOf(R, |R|, T[j][k], j);
      assert T[j][k] in T[j];
    }
  }
}
