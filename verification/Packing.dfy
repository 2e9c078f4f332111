/** Squeezing vectors into one table with a check column (jay/output.c, sort_actions to pack_vector). */
module Packing {

  const MAXTABLE: nat := 32500

  /** Vector v holds the entries tos[v] at the places froms[v]; tally is its length and width its extent. Vectors
      below rows are rows over the tokens, the others are columns over the states. */
  datatype Vectors = Vectors(rows: nat, froms: seq<seq<nat>>, tos: seq<seq<int>>, tally: seq<nat>, width: seq<nat>)

  ghost predicate VectorsOk(vs: Vectors)
  {
    && |vs.froms| == |vs.tos| == |vs.tally| == |vs.width|
    && forall v :: 0 <= v < |vs.froms| ==> VectorOk(vs, v)
  }

  ghost predicate VectorOk(vs: Vectors, v: nat)
    requires v < |vs.froms| == |vs.tos| == |vs.tally| == |vs.width|
  {
    && |vs.froms[v]| == |vs.tos[v]| == vs.tally[v]
    && (forall k, l :: 0 <= k < l < |vs.froms[v]| ==> vs.froms[v][k] != vs.froms[v][l])
    && (vs.froms[v] != [] ==> vs.width[v] == Width(vs.froms[v]))
  }

  ghost function Least(s: seq<nat>): (m: nat)
    requires s != []
    ensures m in s && forall k :: 0 <= k < |s| ==> m <= s[k]
  {
    if |s| == 1 then s[0] else if s[|s|-1] < Least(s[..|s|-1]) then s[|s|-1] else Least(s[..|s|-1])
  }

  ghost function Greatest(s: seq<nat>): (m: nat)
    requires s != []
    ensures m in s && forall k :: 0 <= k < |s| ==> m >= s[k]
  {
    if |s| == 1 then s[0] else if s[|s|-1] > Greatest(s[..|s|-1]) then s[|s|-1] else Greatest(s[..|s|-1])
  }

  /** The number of table slots between the first and the last entry. */
  ghost function Width(from: seq<nat>): int
    requires from != []
  {
    Greatest(from) - Least(from) + 1
  }

  ghost predicate SameVector(vs: Vectors, v: nat, w: nat)
  {
    v < |vs.froms| == |vs.tos| && w < |vs.froms| && vs.froms[v] == vs.froms[w] && vs.tos[v] == vs.tos[w]
  }

  // ---------------------------------------------------------------------------------
  // The order in which the vectors are packed: the wide ones first, then the full ones.

  /** v is wider than w, or fuller if as wide, or has the lower number if as full. */
  ghost predicate Precedes(vs: Vectors, v: nat, w: nat)
  {
    && v < |vs.width| == |vs.tally| && w < |vs.width|
    && (|| vs.width[v] > vs.width[w]
        || (vs.width[v] == vs.width[w] && (vs.tally[v] > vs.tally[w] || (vs.tally[v] == vs.tally[w] && v < w))))
  }

  /** order holds the vectors below n that have entries, each once, by descending width and tally. */
  ghost predicate IsOrder(vs: Vectors, n: nat, order: seq<nat>)
  {
    && (forall v: nat :: v in order <==> v < n && v < |vs.tally| && vs.tally[v] > 0)
    && (forall k, l :: 0 <= k < l < |order| ==> order[k] != order[l])
    && (forall k, l :: 0 <= k < l < |order| ==> Precedes(vs, order[k], order[l]))
  }

  lemma OrderPair(vs: Vectors, n: nat, order: seq<nat>, j: nat, k: nat, l: nat)
    requires IsOrder(vs, n, order) && j <= |order| && k < l <= |order|
    requires forall k :: 0 <= k < j ==> Precedes(vs, order[k], n)
    requires forall k :: j <= k < |order| ==> Precedes(vs, n, order[k])
    ensures var order' := order[..j] + [n] + order[j..]; order'[k] != order'[l] && Precedes(vs, order'[k], order'[l])
  {
    hide Precedes;
    var k0, l0 := if k < j then k else k - 1, if l < j then l else l - 1;
    if k != j && l != j {
      assert order[k0] != order[l0] && Precedes(vs, order[k0], order[l0]);
    } else if k == j {
      assert order[l0] in order;
    } else {
      assert order[k0] in order;
    }
  }

  lemma OrderInsert(vs: Vectors, n: nat, order: seq<nat>, j: nat)
    requires n < |vs.tally| && vs.tally[n] > 0 && IsOrder(vs, n, order) && j <= |order|
    requires forall k :: 0 <= k < j ==> Precedes(vs, order[k], n)
    requires forall k :: j <= k < |order| ==> Precedes(vs, n, order[k])
    ensures IsOrder(vs, n + 1, order[..j] + [n] + order[j..])
  {
    hide Precedes;
    var order' := order[..j] + [n] + order[j..];
    assert order == order[..j] + order[j..];
    assert forall v: nat :: v in order' <==> v in order || v == n;
    forall k, l | 0 <= k < l < |order'| ensures order'[k] != order'[l] && Precedes(vs, order'[k], order'[l]) {
      OrderPair(vs, n, order, j, k, l);
    }
  }

  /** The shift of sort_actions: order[nentries-1..j] moves up by one, and i takes its place. */
  method InsertVector(order: array<nat>, nentries: nat, j: nat, i: nat)
    requires j <= nentries < order.Length
    modifies order
    ensures order[..nentries + 1] == old(order[..j]) + [i] + old(order[j..nentries])
  {
    ghost var was := order[..nentries];
    var k := nentries;
    while k > j
      invariant j <= k <= nentries
      invariant forall l :: 0 <= l < k ==> order[l] == was[l]
      invariant forall l :: k < l <= nentries ==> order[l] == was[l - 1]
    {
      order[k] := order[k - 1];
      k := k - 1;
    }
    order[j] := i;
  }

  /** Where vector i belongs among those sorted so far. */
  method FindRank(vs: Vectors, order: seq<nat>, i: nat) returns (j: nat)
    requires VectorsOk(vs) && i < |vs.froms| && vs.tally[i] > 0 && IsOrder(vs, i, order)
    ensures j <= |order|
    ensures forall k :: 0 <= k < j ==> Precedes(vs, order[k], i)
    ensures forall k :: j <= k < |order| ==> Precedes(vs, i, order[k])
  {
    hide VectorOk;
    var t, w := vs.tally[i], vs.width[i];
    j := |order|;
    forall k | 0 <= k < |order| ensures order[k] < |vs.tally| { assert order[k] in order; }
    while j > 0 && vs.width[order[j-1]] < w
      invariant j <= |order|
      invariant forall k :: j <= k < |order| ==> Precedes(vs, i, order[k])
    {
      j := j - 1;
    }
    while j > 0 && vs.width[order[j-1]] == w && vs.tally[order[j-1]] < t
      invariant j <= |order|
      invariant j > 0 ==> vs.width[order[j-1]] >= w
      invariant forall k :: j <= k < |order| ==> Precedes(vs, i, order[k])
    {
      assert j > 1 ==> Precedes(vs, order[j-2], order[j-1]);
      j := j - 1;
    }
    if j > 0 {
      forall k | 0 <= k < j ensures Precedes(vs, order[k], i) {
        assert k < j - 1 ==> Precedes(vs, order[k], order[j-1]);
      }
    }
  }

  method SortActions(vs: Vectors) returns (order: seq<nat>)
    requires VectorsOk(vs)
    ensures IsOrder(vs, |vs.froms|, order)
    ensures forall v: nat :: v in order <==> v < |vs.froms| && vs.froms[v] != []
    ensures forall k, l :: 0 <= k < l < |order| ==>
              var v, w := order[k], order[l];
              || Greatest(vs.froms[v]) - Least(vs.froms[v]) > Greatest(vs.froms[w]) - Least(vs.froms[w])
              || (Greatest(vs.froms[v]) - Least(vs.froms[v]) == Greatest(vs.froms[w]) - Least(vs.froms[w])
                  && (|vs.froms[v]| > |vs.froms[w]| || (|vs.froms[v]| == |vs.froms[w]| && v < w)))
  {
    hide VectorOk, IsOrder;
    var buffer := new nat[|vs.froms|](_ => 0);
    var nentries: nat := 0;
    OrderEmpty(vs);
    var i: nat := 0;
    while i < |vs.froms|
      invariant i <= |vs.froms| && nentries <= i && IsOrder(vs, i, buffer[..nentries])
    {
      if vs.tally[i] > 0 {
        var j := FindRank(vs, buffer[..nentries], i);
        OrderInsert(vs, i, buffer[..nentries], j);
        assert buffer[..nentries][..j] == buffer[..j] && buffer[..nentries][j..] == buffer[j..nentries];
        InsertVector(buffer, nentries, j, i);
        nentries := nentries + 1;
      } else {
        OrderSkip(vs, i, buffer[..nentries]);
      }
      i := i + 1;
    }
    order := buffer[..nentries];
    OrderIs(vs, order);
  }

  lemma OrderIs(vs: Vectors, order: seq<nat>)
    requires VectorsOk(vs) && IsOrder(vs, |vs.froms|, order)
    ensures forall v: nat :: v in order <==> v < |vs.froms| && vs.froms[v] != []
    ensures forall k, l :: 0 <= k < l < |order| ==>
              var v, w := order[k], order[l];
              || Greatest(vs.froms[v]) - Least(vs.froms[v]) > Greatest(vs.froms[w]) - Least(vs.froms[w])
              || (Greatest(vs.froms[v]) - Least(vs.froms[v]) == Greatest(vs.froms[w]) - Least(vs.froms[w])
                  && (|vs.froms[v]| > |vs.froms[w]| || (|vs.froms[v]| == |vs.froms[w]| && v < w)))
  {
    hide Greatest, Least;
    forall v: nat | v < |vs.froms| ensures VectorOk(vs, v) && (v in order <==> vs.froms[v] != []) {
    }
    forall k, l | 0 <= k < l < |order| ensures Precedes(vs, order[k], order[l]) && order[k] in order && order[l] in order {
    }
  }

  lemma OrderEmpty(vs: Vectors)
    ensures IsOrder(vs, 0, [])
  {
  }

  lemma OrderSkip(vs: Vectors, n: nat, order: seq<nat>)
    requires IsOrder(vs, n, order) && n < |vs.tally| && vs.tally[n] == 0
    ensures IsOrder(vs, n + 1, order)
  {
  }

  // ---------------------------------------------------------------------------------
  // What holds of the table when the first n vectors of the order are packed.

  /** Entry k of vector v stands where its base says. */
  ghost predicate Stands(vs: Vectors, table: seq<int>, check: seq<int>, high: nat, place: int, v: nat, k: nat)
  {
    && v < |vs.froms| == |vs.tos| && k < |vs.froms[v]| == |vs.tos[v]| && |table| == |check|
    && 0 <= place + vs.froms[v][k] < |check| && place + vs.froms[v][k] <= high
    && check[place + vs.froms[v][k]] == vs.froms[v][k] && table[place + vs.froms[v][k]] == vs.tos[v][k]
  }

  ghost predicate AllStand(vs: Vectors, table: seq<int>, check: seq<int>, high: nat, place: int, v: nat)
  {
    v < |vs.froms| && forall k: nat :: k < |vs.froms[v]| ==> Stands(vs, table, check, high, place, v, k)
  }

  /** Slot l belongs to an entry of vector v. */
  ghost predicate OwnedBy(vs: Vectors, place: int, v: nat, l: nat)
  {
    v < |vs.froms| && exists k: nat :: k < |vs.froms[v]| && place + vs.froms[v][k] == l
  }

  ghost predicate Owned(vs: Vectors, order: seq<nat>, pos: seq<int>, l: nat)
  {
    exists i: nat :: i < |pos| && i < |order| && OwnedBy(vs, pos[i], order[i], l)
  }

  ghost predicate Packed(vs: Vectors, order: seq<nat>, pos: seq<int>, table: seq<int>, check: seq<int>, high: nat)
  {
    && |pos| <= |order| && |table| == |check| && high < |check|
    && (forall i: nat :: i < |pos| ==> pos[i] != 0 && AllStand(vs, table, check, high, pos[i], order[i]))
    && (forall l: nat :: l < |check| && check[l] != -1 ==> Owned(vs, order, pos, l))
    && (forall i: nat, j: nat :: i < j < |pos| && pos[i] == pos[j] ==> SameVector(vs, order[i], order[j]))
  }

  /** The table is as good as the vectors: at the base of a packed vector, the check column marks exactly its entries. */
  lemma PackedExactly(vs: Vectors, order: seq<nat>, pos: seq<int>, table: seq<int>, check: seq<int>, high: nat,
                      i: nat, c: nat)
    requires Packed(vs, order, pos, table, check, high) && i < |pos| && order[i] < |vs.froms| == |vs.tos|
    requires 0 <= pos[i] + c < |check|
    ensures check[pos[i] + c] == c <==> c in vs.froms[order[i]]
    ensures forall k: nat :: k < |vs.froms[order[i]]| && vs.froms[order[i]][k] == c ==>
              pos[i] + c <= high && k < |vs.tos[order[i]]| && table[pos[i] + c] == vs.tos[order[i]][k]
  {
    var l := pos[i] + c;
    assert AllStand(vs, table, check, high, pos[i], order[i]);
    forall k: nat | k < |vs.froms[order[i]]| && vs.froms[order[i]][k] == c
      ensures l <= high && k < |vs.tos[order[i]]| && table[l] == vs.tos[order[i]][k] && check[l] == c
    {
      assert Stands(vs, table, check, high, pos[i], order[i], k);
    }
    if check[l] == c {
      assert Owned(vs, order, pos, l);
      var j: nat :| j < |pos| && j < |order| && OwnedBy(vs, pos[j], order[j], l);
      var k: nat :| k < |vs.froms[order[j]]| && pos[j] + vs.froms[order[j]][k] == l;
      assert AllStand(vs, table, check, high, pos[j], order[j]);
      assert Stands(vs, table, check, high, pos[j], order[j], k);
      assert pos[j] == pos[i];
      assert j != i ==> SameVector(vs, order[i], order[j]);
    }
  }

  /** A vector fits at a place that leaves its base unequal to 0 and to all others, and where all its slots are free. */
  ghost predicate Fits(vs: Vectors, pos: seq<int>, check: seq<int>, v: nat, place: int)
  {
    && v < |vs.froms| && place != 0 && place !in pos
    && forall k: nat :: k < |vs.froms[v]| ==> FreeAt(check, place + vs.froms[v][k])
  }

  ghost predicate FreeAt(check: seq<int>, loc: int)
  {
    loc >= 0 && (loc < |check| ==> check[loc] == -1)
  }

  /** The table after vector v was written at a place. */
  ghost predicate Written(vs: Vectors, table: seq<int>, check: seq<int>, high: nat, place: int, v: nat, t: nat,
                          table': seq<int>, check': seq<int>, high': nat)
  {
    && v < |vs.froms| == |vs.tos| && t <= |vs.froms[v]| && |table| == |check| == |table'| == |check'|
    && high <= high' < |check'|
    && (forall k: nat :: k < t ==> Stands(vs, table', check', high', place, v, k))
    && (forall l: nat :: l < |check| ==> (check'[l] == check[l] && table'[l] == table[l]) || TakenBelow(vs, place, v, t, l))
    && forall k: nat :: t <= k < |vs.froms[v]| ==> FreeAt(check', place + vs.froms[v][k])
  }

  ghost predicate TakenBelow(vs: Vectors, place: int, v: nat, t: nat, l: nat)
  {
    v < |vs.froms| && exists k: nat :: k < t && k < |vs.froms[v]| && place + vs.froms[v][k] == l
  }

  lemma WrittenNext(vs: Vectors, table: seq<int>, check: seq<int>, high: nat, place: int, v: nat, t: nat,
                    table': seq<int>, check': seq<int>, high': nat)
    requires VectorsOk(vs) && Written(vs, table, check, high, place, v, t, table', check', high') && t < |vs.froms[v]|
    requires place + vs.froms[v][t] < |check|
    ensures 0 <= place + vs.froms[v][t] && t < |vs.tos[v]|
    ensures var loc := place + vs.froms[v][t];
            Written(vs, table, check, high, place, v, t + 1, table'[loc := vs.tos[v][t]], check'[loc := vs.froms[v][t]],
                    if loc > high' then loc else high')
  {
    hide Stands, TakenBelow, FreeAt, VectorsOk;
    VectorSizes(vs, v);
    WrittenFree(vs, table, check, high, place, v, t, table', check', high', t);
    var loc := place + vs.froms[v][t];
    var table2, check2, high2 := table'[loc := vs.tos[v][t]], check'[loc := vs.froms[v][t]], if loc > high' then loc else high';
    var next := t + 1;
    forall k: nat | k < next ensures Stands(vs, table2, check2, high2, place, v, k) {
      StandsNext(vs, table', check', high', place, v, t, k);
    }
    forall l: nat | l < |check|
      ensures (check2[l] == check[l] && table2[l] == table[l]) || TakenBelow(vs, place, v, next, l)
    {
      TakenMore(vs, place, v, t, l);
    }
    forall k: nat | next <= k < |vs.froms[v]| ensures FreeAt(check2, place + vs.froms[v][k]) {
      WrittenFree(vs, table, check, high, place, v, t, table', check', high', k);
      FreeNext(vs, check', place, v, t, k);
    }
  }

  lemma VectorSizes(vs: Vectors, v: nat)
    requires VectorsOk(vs) && v < |vs.froms|
    ensures |vs.froms| == |vs.tos| && |vs.froms[v]| == |vs.tos[v]|
    ensures forall k, l :: 0 <= k < l < |vs.froms[v]| ==> vs.froms[v][k] != vs.froms[v][l]
  {
    assert VectorOk(vs, v);
  }

  lemma WrittenFree(vs: Vectors, table: seq<int>, check: seq<int>, high: nat, place: int, v: nat, t: nat,
                    table': seq<int>, check': seq<int>, high': nat, k: nat)
    requires Written(vs, table, check, high, place, v, t, table', check', high') && t <= k < |vs.froms[v]|
    ensures FreeAt(check', place + vs.froms[v][k]) && 0 <= place + vs.froms[v][k]
  {
  }

  lemma StandsNext(vs: Vectors, table: seq<int>, check: seq<int>, high: nat, place: int, v: nat, t: nat, k: nat)
    requires v < |vs.froms| == |vs.tos| && k <= t < |vs.froms[v]| == |vs.tos[v]| && |table| == |check|
    requires 0 <= place + vs.froms[v][t] < |check|
    requires k < t ==> Stands(vs, table, check, high, place, v, k) && vs.froms[v][k] != vs.froms[v][t]
    ensures var loc := place + vs.froms[v][t];
            Stands(vs, table[loc := vs.tos[v][t]], check[loc := vs.froms[v][t]], if loc > high then loc else high, place, v, k)
  {
  }

  lemma TakenMore(vs: Vectors, place: int, v: nat, t: nat, l: nat)
    requires v < |vs.froms| && t < |vs.froms[v]|
    ensures TakenBelow(vs, place, v, t + 1, l) <==> TakenBelow(vs, place, v, t, l) || place + vs.froms[v][t] == l
  {
  }

  lemma FreeNext(vs: Vectors, check: seq<int>, place: int, v: nat, t: nat, k: nat)
    requires v < |vs.froms| && t < |vs.froms[v]| && k < |vs.froms[v]| && vs.froms[v][k] != vs.froms[v][t]
    requires 0 <= place + vs.froms[v][t] < |check| && FreeAt(check, place + vs.froms[v][k])
    ensures FreeAt(check[place + vs.froms[v][t] := vs.froms[v][t]], place + vs.froms[v][k])
  {
  }

  lemma FitsFree(vs: Vectors, pos: seq<int>, check: seq<int>, v: nat, place: int, k: nat)
    requires Fits(vs, pos, check, v, place) && k < |vs.froms[v]|
    ensures FreeAt(check, place + vs.froms[v][k])
  {
  }

  lemma TakenWasFree(vs: Vectors, pos: seq<int>, check: seq<int>, v: nat, place: int, l: nat)
    requires Fits(vs, pos, check, v, place) && TakenBelow(vs, place, v, |vs.froms[v]|, l)
    ensures FreeAt(check, l)
  {
  }

  lemma StandsStill(vs: Vectors, order: seq<nat>, pos: seq<int>, table: seq<int>, check: seq<int>, high: nat,
                    place: int, v: nat,
                    table': seq<int>, check': seq<int>, high': nat, i: nat)
    requires Packed(vs, order, pos, table, check, high) && Fits(vs, pos, check, v, place) && i < |pos|
    requires |vs.froms| == |vs.tos| && Written(vs, table, check, high, place, v, |vs.froms[v]|, table', check', high')
    ensures AllStand(vs, table', check', high', pos[i], order[i])
  {
    assert AllStand(vs, table, check, high, pos[i], order[i]);
    forall k: nat | k < |vs.froms[order[i]]| ensures Stands(vs, table', check', high', pos[i], order[i], k) {
      assert Stands(vs, table, check, high, pos[i], order[i], k);
      var l: nat := pos[i] + vs.froms[order[i]][k];
      if TakenBelow(vs, place, v, |vs.froms[v]|, l) {
        TakenWasFree(vs, pos, check, v, place, l);
      }
    }
  }

  /** Writing the next vector at a place where it fits. */
  lemma PackNext(vs: Vectors, order: seq<nat>, pos: seq<int>, table: seq<int>, check: seq<int>, high: nat, place: int,
                 v: nat,
                 table': seq<int>, check': seq<int>, high': nat)
    requires Packed(vs, order, pos, table, check, high) && |pos| < |order| && order[|pos|] == v
    requires Fits(vs, pos, check, v, place) && |vs.froms| == |vs.tos|
    requires Written(vs, table, check, high, place, v, |vs.froms[v]|, table', check', high')
    ensures Packed(vs, order, pos + [place], table', check', high')
  {
    hide Stands;
    var pos' := pos + [place];
    forall i: nat | i < |pos'| ensures pos'[i] != 0 && AllStand(vs, table', check', high', pos'[i], order[i]) {
      if i < |pos| {
        StandsStill(vs, order, pos, table, check, high, place, v, table', check', high', i);
      }
    }
    forall l: nat | l < |check'| && check'[l] != -1 ensures Owned(vs, order, pos', l) {
      if TakenBelow(vs, place, v, |vs.froms[v]|, l) {
        assert OwnedBy(vs, pos'[|pos|], order[|pos|], l);
      } else {
        OwnedLater(vs, order, pos, place, l);
      }
    }
    forall i: nat, j: nat | i < j < |pos'| && pos'[i] == pos'[j] ensures SameVector(vs, order[i], order[j]) {
      NotAmong(vs, pos, check, v, place, i);
    }
  }

  lemma NotAmong(vs: Vectors, pos: seq<int>, check: seq<int>, v: nat, place: int, i: nat)
    requires Fits(vs, pos, check, v, place) && i < |pos|
    ensures pos[i] != place
  {
  }

  lemma OwnedLater(vs: Vectors, order: seq<nat>, pos: seq<int>, place: int, l: nat)
    requires Owned(vs, order, pos, l)
    ensures Owned(vs, order, pos + [place], l)
  {
    var i: nat :| i < |pos| && i < |order| && OwnedBy(vs, pos[i], order[i], l);
    assert OwnedBy(vs, (pos + [place])[i], order[i], l);
  }

  /** The next vector shares the place of an identical one. */
  lemma PackShared(vs: Vectors, order: seq<nat>, pos: seq<int>, table: seq<int>, check: seq<int>, high: nat, m: nat)
    requires Packed(vs, order, pos, table, check, high) && |pos| < |order| && m < |pos|
    requires SameVector(vs, order[m], order[|pos|])
    ensures Packed(vs, order, pos + [pos[m]], table, check, high)
  {
    hide Stands;
    var pos' := pos + [pos[m]];
    assert AllStand(vs, table, check, high, pos[m], order[m]);
    forall k: nat | k < |vs.froms[order[|pos|]]| ensures Stands(vs, table, check, high, pos[m], order[|pos|], k) {
      assert Stands(vs, table, check, high, pos[m], order[m], k);
      SameStands(vs, table, check, high, pos[m], order[m], order[|pos|], k);
    }
    forall l: nat | l < |check| && check[l] != -1 ensures Owned(vs, order, pos', l) {
      OwnedLater(vs, order, pos, pos[m], l);
    }
    forall i: nat, j: nat | i < j < |pos'| && pos'[i] == pos'[j] ensures SameVector(vs, order[i], order[j]) {
      if j == |pos| && i != m {
        assert i < m ==> SameVector(vs, order[i], order[m]);
        assert m < i ==> SameVector(vs, order[m], order[i]);
      }
    }
  }

  lemma SameStands(vs: Vectors, table: seq<int>, check: seq<int>, high: nat, place: int, v: nat, w: nat, k: nat)
    requires SameVector(vs, v, w) && Stands(vs, table, check, high, place, v, k)
    ensures Stands(vs, table, check, high, place, w, k)
  {
  }

  /** The buffers may grow by free slots. */
  lemma PackedGrow(vs: Vectors, order: seq<nat>, pos: seq<int>, table: seq<int>, check: seq<int>, high: nat,
                   zeros: seq<int>, free: seq<int>)
    requires Packed(vs, order, pos, table, check, high) && |zeros| == |free|
    requires forall l :: 0 <= l < |free| ==> free[l] == -1
    ensures Packed(vs, order, pos, table + zeros, check + free, high)
  {
    forall i: nat | i < |pos| ensures AllStand(vs, table + zeros, check + free, high, pos[i], order[i]) {
      assert AllStand(vs, table, check, high, pos[i], order[i]);
      forall k: nat | k < |vs.froms[order[i]]| ensures Stands(vs, table + zeros, check + free, high, pos[i], order[i], k) {
        assert Stands(vs, table, check, high, pos[i], order[i], k);
      }
    }
  }

  lemma FreeGrow(check: seq<int>, free: seq<int>, loc: int)
    requires forall l :: 0 <= l < |free| ==> free[l] == -1
    ensures FreeAt(check + free, loc) <==> FreeAt(check, loc)
  {
  }

  ghost predicate IsFree(free: seq<int>)
  {
    forall l :: 0 <= l < |free| ==> free[l] == -1
  }

  /** Everything below lowzero is taken. */
  ghost predicate FullBelow(check: seq<int>, lowzero: nat)
  {
    lowzero <= |check| && forall l :: 0 <= l < lowzero ==> check[l] != -1
  }

  /** An entry below lowzero rules a place out. */
  lemma TooLow(vs: Vectors, pos: seq<int>, check: seq<int>, v: nat, place: int, lowzero: nat, k: nat)
    requires FullBelow(check, lowzero) && v < |vs.froms| && k < |vs.froms[v]| && place + vs.froms[v][k] < lowzero
    ensures !Fits(vs, pos, check, v, place)
  {
    if Fits(vs, pos, check, v, place) {
      FitsFree(vs, pos, check, v, place, k);
    }
  }

  lemma GrownAgain(check0: seq<int>, was: seq<int>, check: seq<int>, free: seq<int>, more: seq<int>)
    requires IsFree(free) && IsFree(more) && was == check0 + free && check == was + more
    ensures exists grown: seq<int> :: IsFree(grown) && check == check0 + grown
  {
    assert IsFree(free + more) && check == check0 + (free + more);
  }

  lemma FitsGrow(vs: Vectors, pos: seq<int>, check: seq<int>, free: seq<int>, v: nat, place: int)
    requires IsFree(free)
    ensures Fits(vs, pos, check + free, v, place) <==> Fits(vs, pos, check, v, place)
  {
    forall loc: int ensures FreeAt(check + free, loc) <==> FreeAt(check, loc) {
      FreeGrow(check, free, loc);
    }
  }

  lemma ZeroUnfit(vs: Vectors, pos: seq<int>, check: seq<int>, v: nat)
    ensures !Fits(vs, pos, check, v, 0)
  {
  }

  /** If the vector does not get past the limit at place j, it does not fit below the limit anywhere. */
  lemma StopsHere(vs: Vectors, pos: seq<int>, check: seq<int>, v: nat, j: int)
    requires v < |vs.froms| && exists k: nat :: k < |vs.froms[v]| && j + vs.froms[v][k] >= MAXTABLE
    requires forall i: int :: i < j ==> !Fits(vs, pos, check, v, i)
    ensures forall i: int :: Fits(vs, pos, check, v, i) ==> exists k: nat :: k < |vs.froms[v]| && i + vs.froms[v][k] >= MAXTABLE
  {
    var k: nat :| k < |vs.froms[v]| && j + vs.froms[v][k] >= MAXTABLE;
    forall i: int | Fits(vs, pos, check, v, i) ensures exists k: nat :: k < |vs.froms[v]| && i + vs.froms[v][k] >= MAXTABLE {
      assert i + vs.froms[v][k] >= MAXTABLE;
    }
  }

  lemma WrittenNone(vs: Vectors, pos: seq<int>, table: seq<int>, check: seq<int>, high: nat, place: int, v: nat)
    requires Fits(vs, pos, check, v, place) && |vs.froms| == |vs.tos| && |table| == |check| && high < |check|
    ensures Written(vs, table, check, high, place, v, 0, table, check, high)
  {
  }

  /** Taken slots stay taken. */
  lemma WrittenTaken(vs: Vectors, table: seq<int>, check: seq<int>, high: nat, place: int, v: nat,
                     table': seq<int>, check': seq<int>, high': nat)
    requires v < |vs.froms| && Written(vs, table, check, high, place, v, |vs.froms[v]|, table', check', high')
    ensures forall l :: 0 <= l < |check| && check[l] != -1 ==> check'[l] != -1
  {
    forall l: nat | l < |check| && check[l] != -1 ensures check'[l] != -1 {
      if TakenBelow(vs, place, v, |vs.froms[v]|, l) {
        var k: nat :| k < |vs.froms[v]| && place + vs.froms[v][k] == l;
        assert Stands(vs, table', check', high', place, v, k);
      }
    }
  }

  lemma FullStill(check: seq<int>, check': seq<int>, lowzero: nat)
    requires FullBelow(check, lowzero) && |check'| == |check|
    requires forall l :: 0 <= l < |check| && check[l] != -1 ==> check'[l] != -1
    ensures FullBelow(check', lowzero)
  {
  }

  /** Wherever the vector fits, it needs an index that is too large. */
  ghost predicate TooLarge(vs: Vectors, pos: seq<int>, check: seq<int>, v: nat)
  {
    && v < |vs.froms|
    && forall j: int :: Fits(vs, pos, check, v, j) ==> exists k: nat :: k < |vs.froms[v]| && j + vs.froms[v][k] >= MAXTABLE
  }

  /** The vectors packed so far leave no room for the next one. */
  ghost predicate Stuck(vs: Vectors, order: seq<nat>, pos: seq<int>)
  {
    |pos| < |order| && exists table, check, high :: Packed(vs, order, pos, table, check, high) && TooLarge(vs, pos, check, order[|pos|])
  }

  // ---------------------------------------------------------------------------------

  /** The buffers of output.c. The two that are reallocated are sequences. */
  class Packer {
    const vs: Vectors
    const order: seq<nat>
    var table: seq<int>
    var check: seq<int>
    var lowzero: nat
    var high: nat
    var pos: seq<int>
    var base: seq<int>

    ghost predicate Valid()
      reads this
    {
      && VectorsOk(vs) && IsOrder(vs, |vs.froms|, order)
      && Packed(vs, order, pos, table, check, high) && FullBelow(check, lowzero)
      && |check| <= MAXTABLE + 200
      && BasesOk(vs, order, pos, base)
    }

    constructor (vs: Vectors, order: seq<nat>)
      requires VectorsOk(vs) && IsOrder(vs, |vs.froms|, order)
      ensures Valid() && this.vs == vs && this.order == order && pos == []
    {
      this.vs, this.order := vs, order;
      table, check := seq(1000, _ => 0), seq(1000, _ => -1);
      lowzero, high, pos := 0, 0, [];
      base := seq(|vs.froms|, _ => 0);
    }

    /** An earlier vector with the same entries, or -1. Only rows are looked up. */
    method MatchingVector() returns (state: int)
      requires Valid() && |pos| < |order|
      ensures state >= 0 ==> exists m: nat :: m < |pos| && order[m] == state && SameVector(vs, order[m], order[|pos|])
      ensures state < 0 && order[|pos|] < vs.rows ==>
                forall m: nat :: m < |pos| ==> !SameVector(vs, order[m], order[|pos|])
      ensures state < 0 ==> state == -1
    {
      var n := |pos|;
      var i := order[n];
      if i >= vs.rows {
        return -1;
      }
      OrderBound(vs, order, n);
      var t, w := vs.tally[i], vs.width[i];
      var prev := n;
      while prev > 0
        invariant prev <= n
        invariant forall m: nat :: prev <= m < n ==> !SameVector(vs, order[m], order[n])
      {
        prev := prev - 1;
        var j := order[prev];
        OrderBound(vs, order, prev);
        if vs.width[j] != w || vs.tally[j] != t {
          forall m: nat | m < n ensures !SameVector(vs, order[m], order[n]) {
            OtherRank(vs, order, m, prev, n);
          }
          return -1;
        }
        var same := Matches(vs, i, j);
        if same {
          return j;
        }
      }
      return -1;
    }

    /** The buffers grow so that slot loc exists, unless the table would get too large. */
    method Grow(loc: nat) returns (ok: bool)
      requires Valid() && loc >= |check|
      modifies this`table, this`check
      ensures ok <==> loc < MAXTABLE
      ensures Valid() && (ok ==> loc < |check|)
      ensures exists free: seq<int> :: IsFree(free) && check == old(check) + free
    {
      assert IsFree([]) && check == check + [];
      if loc >= MAXTABLE {
        return false;
      }
      var newmax := |check| + 200;
      while newmax <= loc
        invariant |check| < newmax <= MAXTABLE + 200
      {
        newmax := newmax + 200;
      }
      ghost var was := check;
      PackedGrow(vs, order, pos, table, check, high, seq(newmax - |check|, _ => 0), seq(newmax - |check|, _ => -1));
      table, check := table + seq(newmax - |check|, _ => 0), check + seq(newmax - |check|, _ => -1);
      assert check == was + seq(newmax - |was|, _ => -1);
      assert IsFree(seq(newmax - |was|, _ => -1));
      ok := true;
    }

    /** Is there room for the next vector at place j? */
    method Probe(j: int) returns (enough: bool, ok: bool)
      requires Valid() && |pos| < |order| && j != 0 && order[|pos|] < |vs.froms|
      requires forall k: nat :: k < |vs.froms[order[|pos|]]| ==> j + vs.froms[order[|pos|]][k] >= 0
      modifies this`table, this`check
      ensures Valid() && exists free: seq<int> :: IsFree(free) && check == old(check) + free
      ensures enough ==> (ok <==> Fits(vs, pos, check, order[|pos|], j))
      ensures enough ==> |vs.froms[order[|pos|]]| > 0 && j + vs.froms[order[|pos|]][0] < |check|
      ensures enough && ok ==> forall k: nat :: k < |vs.froms[order[|pos|]]| ==> j + vs.froms[order[|pos|]][k] < |check|
      ensures !enough ==> exists k: nat :: k < |vs.froms[order[|pos|]]| && j + vs.froms[order[|pos|]][k] >= MAXTABLE
    {
      hide Packed, FullBelow, BasesOk, VectorsOk, IsOrder;
      OrderBound(vs, order, |pos|);
      var from := vs.froms[order[|pos|]];
      var t := vs.tally[order[|pos|]];
      ok := true;
      var k: nat := 0;
      assert IsFree([]) && check == old(check) + [];
      while ok && k < t
        invariant k <= t && (!ok ==> k > 0) && Valid()
        invariant exists free: seq<int> :: IsFree(free) && check == old(check) + free
        invariant forall l: nat :: l < k ==> j + from[l] < |check|
        invariant if ok then forall l: nat :: l < k ==> FreeAt(check, j + from[l])
                  else exists l: nat :: l < k && !FreeAt(check, j + from[l])
      {
        var loc := j + from[k];
        if loc >= |check| {
          ghost var was := check;
          ghost var free: seq<int> :| IsFree(free) && check == old(check) + free;
          enough := Grow(loc);
          ghost var more: seq<int> :| IsFree(more) && check == was + more;
          GrownAgain(old(check), was, check, free, more);
          if !enough {
            return;
          }
          forall l: nat | l < k ensures FreeAt(check, j + from[l]) { FreeGrow(was, more, j + from[l]); }
        }
        if check[loc] != -1 {
          ok := false;
        }
        k := k + 1;
      }
      var n := 0;
      while ok && n < |pos|
        invariant n <= |pos|
        invariant ok ==> forall m :: 0 <= m < n ==> pos[m] != j
        invariant !ok ==> !Fits(vs, pos, check, order[|pos|], j)
      {
        if pos[n] == j {
          assert j in pos;
          ok := false;
        }
        n := n + 1;
      }
      enough := true;
    }

    /** Write the next vector at place j. */
    method WriteVector(j: int)
      requires Valid() && |pos| < |order| && Fits(vs, pos, check, order[|pos|], j)
      requires forall k: nat :: k < |vs.froms[order[|pos|]]| ==> j + vs.froms[order[|pos|]][k] < |check|
      modifies this`table, this`check, this`high
      ensures Packed(vs, order, pos + [j], table, check, high)
      ensures |check| == |old(check)| && forall l :: 0 <= l < |check| && old(check)[l] != -1 ==> check[l] != -1
    {
      hide Stands, FullBelow, BasesOk, IsOrder, FreeAt, Fits;
      var i := order[|pos|];
      OrderBound(vs, order, |pos|);
      var t := vs.tally[i];
      ghost var table0, check0, high0 := table, check, high;
      WrittenNone(vs, pos, table, check, high, j, i);
      hide VectorsOk;
      var k: nat := 0;
      while k < t
        invariant k <= t && Written(vs, table0, check0, high0, j, i, k, table, check, high)
        invariant |check| == |check0|
      {
        WrittenNext(vs, table0, check0, high0, j, i, k, table, check, high);
        var loc := j + vs.froms[i][k];
        table := table[loc := vs.tos[i][k]];
        check := check[loc := vs.froms[i][k]];
        if loc > high { high := loc; }
        k := k + 1;
      }
      PackNext(vs, order, pos, table0, check0, high0, j, i, table, check, high);
      WrittenTaken(vs, table0, check0, high0, j, i, table, check, high);
    }

    /** First fit: the vector goes to the least place at which it fits. */
    method PackVector() returns (ok: bool, place: int)
      requires Valid() && |pos| < |order|
      modifies this`table, this`check, this`high, this`lowzero
      ensures order[|pos|] < |vs.froms|
      ensures ok ==> Packed(vs, order, pos + [place], table, check, high) && FullBelow(check, lowzero)
      ensures |check| <= MAXTABLE + 200 && (!ok ==> Valid())
      ensures ok ==> Fits(vs, pos, old(check), order[|pos|], place)
                     && forall j: int :: j < place ==> !Fits(vs, pos, old(check), order[|pos|], j)
      ensures !ok ==> TooLarge(vs, pos, old(check), order[|pos|])
    {
      hide Packed, FullBelow, BasesOk, VectorsOk, IsOrder, Fits;
      OrderBound(vs, order, |pos|);
      ghost var check0 := check;
      var from := vs.froms[order[|pos|]];
      var j := StartPlace(from);
      assert IsFree([]) && check == check0 + [];
      while true
        invariant Valid() && exists free: seq<int> :: IsFree(free) && check == check0 + free
        invariant forall k: nat :: k < |from| ==> j + from[k] >= 0
        invariant forall i: int :: i < j ==> !Fits(vs, pos, check0, order[|pos|], i)
        decreases MAXTABLE + 201 - from[0] - j
      {
        if j == 0 {
          ZeroUnfit(vs, pos, check0, order[|pos|]);
          j := j + 1;
        }
        ghost var was := check;
        ghost var free: seq<int> :| IsFree(free) && check == check0 + free;
        var enough;
        enough, ok := Probe(j);
        ghost var more: seq<int> :| IsFree(more) && check == was + more;
        GrownAgain(check0, was, check, free, more);
        ghost var grown: seq<int> :| IsFree(grown) && check == check0 + grown;
        FitsGrow(vs, pos, check0, grown, order[|pos|], j);
        if !enough {
          ok, place := false, j;
          StopsHere(vs, pos, check0, order[|pos|], j);
          return;
        }
        if ok {
          ghost var before, low := check, lowzero;
          WriteVector(j);
          FullStill(before, check, low);
          ScanLowzero();
          place := j;
          return;
        }
        j := j + 1;
      }
    }

    /** The place at which the lowest entry would take slot lowzero. */
    method StartPlace(from: seq<nat>) returns (j: int)
      requires Valid() && |pos| < |order| && order[|pos|] < |vs.froms| && from == vs.froms[order[|pos|]] && from != []
      ensures forall k: nat :: k < |from| ==> j + from[k] >= 0
      ensures forall i: int :: i < j ==> !Fits(vs, pos, check, order[|pos|], i)
    {
      hide Packed, BasesOk, VectorsOk, IsOrder, Fits, FullBelow;
      j := lowzero - from[0];
      ghost var m: nat := 0;
      var k := 1;
      while k < |from|
        invariant 1 <= k <= |from| && m < k && j == lowzero - from[m]
        invariant forall l: nat :: l < k ==> j + from[l] >= lowzero
      {
        if lowzero - from[k] > j {
          j, m := lowzero - from[k], k;
        }
        k := k + 1;
      }
      forall i: int | i < j ensures !Fits(vs, pos, check, order[|pos|], i) {
        TooLow(vs, pos, check, order[|pos|], i, lowzero, m);
      }
    }

    /** The scan stops at the end of the buffer. */
    method ScanLowzero()
      requires FullBelow(check, lowzero)
      modifies this`lowzero
      ensures FullBelow(check, lowzero) && (lowzero == |check| || check[lowzero] == -1)
    {
      while lowzero < |check| && check[lowzero] != -1
        invariant FullBelow(check, lowzero)
        decreases |check| - lowzero
      {
        lowzero := lowzero + 1;
      }
    }

    /** Every vector of the order gets a place; identical rows share one. */
    method PackTable() returns (ok: bool)
      requires Valid() && pos == []
      modifies this
      ensures Valid() && (ok ==> |pos| == |order|) && (!ok ==> Stuck(vs, order, pos))
      ensures forall n: nat :: n < |pos| && order[n] < vs.rows ==>
                forall m: nat :: m < n && SameVector(vs, order[m], order[n]) ==> pos[n] in pos[..n]
    {
      hide Packed, FullBelow, BasesOk, VectorsOk, IsOrder, Fits, SameVector, TooLarge;
      while |pos| < |order|
        invariant Valid() && |pos| <= |order|
        invariant forall n: nat :: n < |pos| && order[n] < vs.rows ==>
                    forall m: nat :: m < n && SameVector(vs, order[m], order[n]) ==> pos[n] in pos[..n]
        decreases |order| - |pos|
      {
        ghost var was, table0, check0, high0 := pos, table, check, high;
        ok := PackOne();
        if !ok {
          assert Packed(vs, order, pos, table0, check0, high0) && TooLarge(vs, pos, check0, order[|pos|]);
          return;
        }
        assert forall n: nat :: n < |was| ==> pos[..n] == was[..n];
      }
      ok := true;
    }

    /** One round of the loop of pack_table. */
    method PackOne() returns (ok: bool)
      requires Valid() && |pos| < |order|
      modifies this
      ensures Valid() && if ok then |pos| == |old(pos)| + 1 && old(pos) <= pos
                         else pos == old(pos) && TooLarge(vs, pos, old(check), order[|pos|])
      ensures ok && order[|old(pos)|] < vs.rows ==>
                forall m: nat :: m < |old(pos)| && SameVector(vs, order[m], order[|old(pos)|]) ==> pos[|old(pos)|] in old(pos)
    {
      hide Packed, FullBelow, VectorsOk, IsOrder, Fits, SameVector, TooLarge;
      OrderBound(vs, order, |pos|);
      var state := MatchingVector();
      var place;
      ok := true;
      if state < 0 {
        ok, place := PackVector();
        if !ok {
          return;
        }
      } else {
        ghost var m: nat :| m < |pos| && order[m] == state && SameVector(vs, order[m], order[|pos|]);
        place := base[state];
        assert place == pos[m];
        PackShared(vs, order, pos, table, check, high, m);
      }
      BasesNext(vs, order, pos, base, place);
      pos := pos + [place];
      base := base[order[|pos| - 1] := place];
    }
  }

  /** Vectors before one of a different rank are different from the one behind it. */
  lemma OtherRank(vs: Vectors, order: seq<nat>, m: nat, prev: nat, n: nat)
    requires VectorsOk(vs) && IsOrder(vs, |vs.froms|, order) && prev < n < |order| && m < n
    requires m > prev ==> !SameVector(vs, order[m], order[n])
    requires order[prev] < |vs.width| == |vs.tally| && order[n] < |vs.width|
    requires vs.width[order[prev]] != vs.width[order[n]] || vs.tally[order[prev]] != vs.tally[order[n]]
    ensures !SameVector(vs, order[m], order[n])
  {
    assert Precedes(vs, order[prev], order[n]);
    if m <= prev && SameVector(vs, order[m], order[n]) {
      OrderBound(vs, order, m);
      OrderBound(vs, order, n);
      assert m < prev ==> Precedes(vs, order[m], order[prev]);
      SameRank(vs, order[m], order[n]);
    }
  }

  lemma SameRank(vs: Vectors, v: nat, w: nat)
    requires VectorsOk(vs) && SameVector(vs, v, w) && vs.tally[v] > 0
    ensures vs.tally[v] == vs.tally[w] && vs.width[v] == vs.width[w]
  {
    assert VectorOk(vs, v) && VectorOk(vs, w);
  }

  lemma OrderBound(vs: Vectors, order: seq<nat>, k: nat)
    requires VectorsOk(vs) && IsOrder(vs, |vs.froms|, order) && k < |order|
    ensures order[k] < |vs.froms| == |vs.tos| == |vs.tally| == |vs.width| && vs.tally[order[k]] > 0
    ensures |vs.froms[order[k]]| == |vs.tos[order[k]]| == vs.tally[order[k]]
  {
    assert order[k] in order;
    assert VectorOk(vs, order[k]);
  }

  /** The loop of matching_vector over the entries. */
  method Matches(vs: Vectors, i: nat, j: nat) returns (same: bool)
    requires VectorsOk(vs) && i < |vs.froms| && j < |vs.froms| && vs.tally[i] == vs.tally[j]
    ensures same <==> SameVector(vs, j, i)
  {
    assert VectorOk(vs, i) && VectorOk(vs, j);
    same := true;
    var k := 0;
    while same && k < vs.tally[i]
      invariant k <= vs.tally[i]
      invariant same ==> forall l :: 0 <= l < k ==> vs.tos[j][l] == vs.tos[i][l] && vs.froms[j][l] == vs.froms[i][l]
      invariant !same ==> vs.froms[j] != vs.froms[i] || vs.tos[j] != vs.tos[i]
    {
      if vs.tos[j][k] != vs.tos[i][k] || vs.froms[j][k] != vs.froms[i][k] {
        same := false;
      }
      k := k + 1;
    }
  }

  /** base gives every packed vector its place, and 0 to the others. */
  ghost predicate BasesOk(vs: Vectors, order: seq<nat>, pos: seq<int>, base: seq<int>)
  {
    && |base| == |vs.froms| && |pos| <= |order|
    && (forall i: nat :: i < |pos| ==> order[i] < |base| && base[order[i]] == pos[i])
    && (forall v: nat :: v < |base| && v !in order[..|pos|] ==> base[v] == 0)
  }

  lemma BasesNext(vs: Vectors, order: seq<nat>, pos: seq<int>, base: seq<int>, place: int)
    requires VectorsOk(vs) && IsOrder(vs, |vs.froms|, order) && BasesOk(vs, order, pos, base) && |pos| < |order|
    ensures order[|pos|] < |base| && BasesOk(vs, order, pos + [place], base[order[|pos|] := place])
  {
    hide VectorOk, Precedes;
    OrderBound(vs, order, |pos|);
    var v, pos' := order[|pos|], pos + [place];
    assert order[..|pos'|] == order[..|pos|] + [v];
  }

  // ---------------------------------------------------------------------------------

  /** The finished table: the base of a vector with entries is not 0, and there the check column marks exactly its
      entries; the base of a vector without entries is 0. */
  ghost predicate TableOk(vs: Vectors, base: seq<int>, table: seq<int>, check: seq<int>, high: nat)
  {
    && |base| == |vs.froms| == |vs.tos| && |table| == |check| > high
    && (forall v: nat :: v < |base| ==> (base[v] == 0 <==> vs.froms[v] == []))
    && (forall v: nat, c: nat :: v < |base| && vs.froms[v] != [] && 0 <= base[v] + c < |check| ==>
          (check[base[v] + c] == c <==> c in vs.froms[v]))
    && (forall v: nat, k: nat :: v < |base| && k < |vs.froms[v]| ==> Stands(vs, table, check, high, base[v], v, k))
    && (forall v: nat, w: nat :: v < |base| && w < |base| && vs.froms[v] != [] && base[v] == base[w] ==> SameVector(vs, v, w))
  }

  lemma PlaceOf(vs: Vectors, order: seq<nat>, pos: seq<int>, base: seq<int>, v: nat) returns (i: nat)
    requires VectorsOk(vs) && IsOrder(vs, |vs.froms|, order) && BasesOk(vs, order, pos, base) && |pos| == |order|
    requires v < |vs.froms| && vs.froms[v] != []
    ensures i < |pos| && order[i] == v && base[v] == pos[i]
  {
    assert VectorOk(vs, v);
    assert v in order;
    i :| i < |order| && order[i] == v;
  }

  lemma NoPlace(vs: Vectors, order: seq<nat>, pos: seq<int>, base: seq<int>, v: nat)
    requires VectorsOk(vs) && IsOrder(vs, |vs.froms|, order) && BasesOk(vs, order, pos, base) && |pos| == |order|
    requires v < |vs.froms| && vs.froms[v] == []
    ensures base[v] == 0
  {
    assert VectorOk(vs, v);
    assert order[..|pos|] == order;
  }

  lemma PackedIsTable(vs: Vectors, order: seq<nat>, pos: seq<int>, base: seq<int>, table: seq<int>, check: seq<int>,
                      high: nat)
    requires VectorsOk(vs) && IsOrder(vs, |vs.froms|, order) && BasesOk(vs, order, pos, base) && |pos| == |order|
    requires Packed(vs, order, pos, table, check, high)
    ensures TableOk(vs, base, table, check, high)
  {
    hide VectorOk, IsOrder, Stands, Owned, Precedes;
    forall v: nat | v < |base| ensures base[v] == 0 <==> vs.froms[v] == [] {
      if vs.froms[v] == [] {
        NoPlace(vs, order, pos, base, v);
      } else {
        var i := PlaceOf(vs, order, pos, base, v);
      }
    }
    forall v: nat, c: nat | v < |base| && vs.froms[v] != [] && 0 <= base[v] + c < |check|
      ensures check[base[v] + c] == c <==> c in vs.froms[v]
    {
      var i := PlaceOf(vs, order, pos, base, v);
      PackedExactly(vs, order, pos, table, check, high, i, c);
    }
    forall v: nat, k: nat | v < |base| && k < |vs.froms[v]| ensures Stands(vs, table, check, high, base[v], v, k) {
      var i := PlaceOf(vs, order, pos, base, v);
      assert AllStand(vs, table, check, high, pos[i], order[i]);
    }
    forall v: nat, w: nat | v < |base| && w < |base| && vs.froms[v] != [] && base[v] == base[w] ensures SameVector(vs, v, w) {
      var i := PlaceOf(vs, order, pos, base, v);
      if vs.froms[w] == [] {
        NoPlace(vs, order, pos, base, w);
      } else {
        var j := PlaceOf(vs, order, pos, base, w);
        assert i < j ==> SameVector(vs, order[i], order[j]);
        assert j < i ==> SameVector(vs, order[j], order[i]);
      }
    }
  }

  /** What the parser looks up: the entry for c at the base of a vector, if the check column confirms it. */
  function Lookup(base: int, table: seq<int>, check: seq<int>, high: nat, c: nat): (entry: int)
    requires |table| == |check| > high
  {
    if base != 0 && 0 <= base + c <= high && check[base + c] == c then table[base + c] else -1
  }

  /** Looking up c finds the entry of the vector for c, and nothing if there is none. */
  lemma LookupIsEntry(vs: Vectors, base: seq<int>, table: seq<int>, check: seq<int>, high: nat, v: nat, c: nat)
    requires TableOk(vs, base, table, check, high) && v < |vs.froms|
    ensures forall k: nat :: k < |vs.froms[v]| && vs.froms[v][k] == c ==>
              k < |vs.tos[v]| && Lookup(base[v], table, check, high, c) == vs.tos[v][k]
    ensures c !in vs.froms[v] ==> Lookup(base[v], table, check, high, c) == -1
  {
    forall k: nat | k < |vs.froms[v]| && vs.froms[v][k] == c
      ensures k < |vs.tos[v]| && Lookup(base[v], table, check, high, c) == vs.tos[v][k]
    {
      assert Stands(vs, table, check, high, base[v], v, k);
    }
  }
}
