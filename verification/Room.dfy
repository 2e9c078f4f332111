/** When packing is sure to get by with the size that is allowed for the table (jay/output.c, pack_vector). */
module Room {
  import opened Counting
  import opened Packing

  /** The entries of the vectors below n. */
  ghost function Entries(vs: Vectors, n: nat): nat
  {
    if n == 0 then 0 else Entries(vs, n - 1) + if n <= |vs.froms| then |vs.froms[n-1]| else 0
  }

  /** An index that the vector need not exceed, however the others were packed: each of its entries meets each entry at
      one place at most, and each vector rules out one place. */
  ghost function Reach(vs: Vectors, v: nat): int
    requires v < |vs.froms| && vs.froms[v] != []
  {
    |vs.froms[v]| * Entries(vs, |vs.froms|) + |vs.froms| + 1 + Greatest(vs.froms[v])
  }

  ghost predicate Roomy(vs: Vectors)
  {
    forall v: nat :: v < |vs.froms| && vs.froms[v] != [] ==> Reach(vs, v) < MAXTABLE
  }

  // ---------------------------------------------------------------------------------
  // The slots taken are no more than the entries.

  ghost predicate TakenFrom(order: seq<nat>, pos: seq<int>, v: nat, place: int)
  {
    exists i: nat :: i < |pos| && i < |order| && order[i] == v && pos[i] == place
  }

  /** Where vector v is packed; any place if it is not. */
  ghost function PlaceFor(order: seq<nat>, pos: seq<int>, v: nat): int
  {
    if exists place :: TakenFrom(order, pos, v, place)
    then var place :| TakenFrom(order, pos, v, place); place else 0
  }

  ghost function Shifted(from: seq<nat>, place: int, n: nat): (slots: set<int>)
    requires n <= |from|
    ensures |slots| <= n && forall k :: 0 <= k < n ==> place + from[k] in slots
  {
    if n == 0 then {} else Shifted(from, place, n - 1) + {place + from[n-1]}
  }

  /** The slots of the vectors below n. */
  ghost function Slots(vs: Vectors, order: seq<nat>, pos: seq<int>, n: nat): (slots: set<int>)
    requires n <= |vs.froms|
    ensures |slots| <= Entries(vs, n)
    ensures forall v, k :: 0 <= v < n && 0 <= k < |vs.froms[v]| ==> PlaceFor(order, pos, v) + vs.froms[v][k] in slots
  {
    if n == 0 then {}
    else Slots(vs, order, pos, n - 1) + Shifted(vs.froms[n-1], PlaceFor(order, pos, n - 1), |vs.froms[n-1]|)
  }

  lemma TakenIsSlot(vs: Vectors, order: seq<nat>, pos: seq<int>, table: seq<int>, check: seq<int>, high: nat, l: nat)
    requires IsOrder(vs, |vs.froms|, order) && Packed(vs, order, pos, table, check, high)
    requires l < |check| && check[l] != -1
    ensures l in Slots(vs, order, pos, |vs.froms|)
  {
    assert Owned(vs, order, pos, l);
    var i: nat :| i < |pos| && i < |order| && OwnedBy(vs, pos[i], order[i], l);
    assert TakenFrom(order, pos, order[i], pos[i]);
    assert PlaceFor(order, pos, order[i]) == pos[i];
  }

  // ---------------------------------------------------------------------------------
  // So some place is left.

  ghost function Back(taken: set<int>, c: int): set<int>
  {
    set l | l in taken :: l - c
  }

  lemma Some<T>(s: set<T>) returns (x: T)
    requires |s| > 0
    ensures x in s
  {
    x :| x in s;
  }

  lemma {:induction false} BackSize(taken: set<int>, c: int)
    ensures |Back(taken, c)| <= |taken|
  {
    if |taken| > 0 {
      var l := Some(taken);
      var rest := taken - {l};
      BackSize(rest, c);
      forall x | x in Back(taken, c) ensures x in Back(rest, c) + {l - c} {
        var k :| k in taken && x == k - c;
        assert k == l || k in rest;
      }
      SubsetCount(Back(taken, c), Back(rest, c) + {l - c});
    }
  }

  lemma NotBack(taken: set<int>, c: int, j: int)
    requires j !in Back(taken, c)
    ensures j + c !in taken
  {
    var l := j + c;
    assert l in taken ==> l - c in Back(taken, c);
  }

  /** The places that the entries rule out. */
  ghost function RuledOut(taken: set<int>, from: seq<int>): set<int>
  {
    if from == [] then {} else RuledOut(taken, from[..|from|-1]) + Back(taken, from[|from|-1])
  }

  lemma {:induction false} RuledOutSize(taken: set<int>, from: seq<int>)
    ensures |RuledOut(taken, from)| <= |from| * |taken|
  {
    if from != [] {
      var n := |from| - 1;
      RuledOutSize(taken, from[..n]);
      BackSize(taken, from[n]);
      assert (n + 1) * |taken| == n * |taken| + |taken|;
    }
  }

  lemma {:induction false} NotRuledOut(taken: set<int>, from: seq<int>, j: int, k: nat)
    requires k < |from| && j !in RuledOut(taken, from)
    ensures j + from[k] !in taken
  {
    var n := |from| - 1;
    if k < n {
      NotRuledOut(taken, from[..n], j, k);
    } else {
      NotBack(taken, from[k], j);
    }
  }

  lemma {:induction false} ElementsBound(s: seq<int>)
    ensures |Elements(s)| <= |s|
  {
    if s != [] {
      var n := |s| - 1;
      ElementsBound(s[..n]);
      assert Elements(s) == Elements(s[..n]) + {s[n]};
    }
  }

  lemma SomeLeft(n: nat, out: set<int>) returns (j: nat)
    requires |out| < n
    ensures j < n && j !in out
  {
    var all: set<int> := Range(n);
    if all <= out {
      SubsetCount(all, out);
      assert false;
    }
    j :| j in all && j !in out;
  }

  lemma PlaceLeft(vs: Vectors, pos: seq<int>, check: seq<int>, v: nat, taken: set<int>) returns (j: nat)
    requires v < |vs.froms| && forall l: nat :: l < |check| && check[l] != -1 ==> l in taken
    ensures j <= |vs.froms[v]| * |taken| + |pos| + 1 && Fits(vs, pos, check, v, j)
  {
    var from := vs.froms[v];
    var out := RuledOut(taken, from) + Elements(pos) + {0};
    RuledOutSize(taken, from);
    ElementsBound(pos);
    j := SomeLeft(|from| * |taken| + |pos| + 2, out);
    forall k: nat | k < |from| ensures FreeAt(check, j + from[k]) {
      NotRuledOut(taken, from, j, k);
    }
  }

  lemma GreatestBounds(from: seq<nat>, k: nat)
    requires k < |from|
    ensures from[k] <= Greatest(from)
  {
  }

  /** Vectors with room for each are never stuck. */
  lemma RoomyPacks(vs: Vectors, order: seq<nat>, pos: seq<int>)
    requires VectorsOk(vs) && IsOrder(vs, |vs.froms|, order) && Stuck(vs, order, pos)
    ensures !Roomy(vs)
  {
    hide VectorsOk, IsOrder, Packed, TooLarge;
    var table, check, high :| Packed(vs, order, pos, table, check, high) && TooLarge(vs, pos, check, order[|pos|]);
    var v := order[|pos|];
    OrderBound(vs, order, |pos|);
    var taken := Slots(vs, order, pos, |vs.froms|);
    forall l: nat | l < |check| && check[l] != -1 ensures l in taken {
      TakenIsSlot(vs, order, pos, table, check, high, l);
    }
    var j := PlaceLeft(vs, pos, check, v, taken);
    var k := PastLimit(vs, pos, check, v, j);
    GreatestBounds(vs.froms[v], k);
    OrderShort(vs, order);
    Times(|vs.froms[v]|, |taken|, Entries(vs, |vs.froms|));
    assert Reach(vs, v) >= MAXTABLE;
  }

  lemma PastLimit(vs: Vectors, pos: seq<int>, check: seq<int>, v: nat, j: int) returns (k: nat)
    requires TooLarge(vs, pos, check, v) && Fits(vs, pos, check, v, j)
    ensures v < |vs.froms| && k < |vs.froms[v]| && j + vs.froms[v][k] >= MAXTABLE
  {
    k :| k < |vs.froms[v]| && j + vs.froms[v][k] >= MAXTABLE;
  }

  lemma Times(t: nat, m: nat, n: nat)
    requires m <= n
    ensures t * m <= t * n
  {
  }

  lemma OrderShort(vs: Vectors, order: seq<nat>)
    requires IsOrder(vs, |vs.froms|, order)
    ensures |order| <= |vs.froms|
  {
    hide Precedes;
    DistinctCount(order);
    forall v | v in Elements(order) ensures v in Range(|vs.froms|) {}
    SubsetCount(Elements(order), Range(|vs.froms|));
  }
}
