/** Lists laid out one behind the other in one buffer, each growing inside the room set aside for it. */
module Layout {

  /** List s starts at base[s] and ends before base[s+1]. */
  ghost predicate Laid<T>(items: seq<T>, base: seq<nat>, lists: seq<seq<T>>)
  {
    && |base| == |lists| + 1 && base[|lists|] == |items|
    && forall s :: 0 <= s < |lists| ==> ListAt(items, base, s, lists[s])
  }

  ghost predicate ListAt<T>(items: seq<T>, base: seq<nat>, s: nat, list: seq<T>)
    requires s + 1 < |base|
  {
    && base[s] + |list| <= base[s+1] <= |items|
    && items[base[s]..base[s] + |list|] == list
  }

  lemma {:induction false} BasesAscend<T>(items: seq<T>, base: seq<nat>, lists: seq<seq<T>>, s: nat, t: nat)
    requires Laid(items, base, lists) && s <= t <= |lists|
    ensures base[s] <= base[t]
    decreases t - s
  {
    if s < t {
      assert ListAt(items, base, s, lists[s]);
      BasesAscend(items, base, lists, s + 1, t);
    }
  }

  /** Appending to list s where there is room leaves the others alone. */
  lemma LaidPush<T>(items: seq<T>, base: seq<nat>, lists: seq<seq<T>>, s: nat, x: T)
    requires Laid(items, base, lists) && s < |lists| && base[s] + |lists[s]| < base[s+1]
    ensures base[s] + |lists[s]| < |items|
    ensures Laid(items[base[s] + |lists[s]| := x], base, lists[s := lists[s] + [x]])
  {
    assert ListAt(items, base, s, lists[s]);
    var pos := base[s] + |lists[s]|;
    var items' := items[pos := x];
    forall t | 0 <= t < |lists| && t != s ensures ListAt(items', base, t, lists[t]) {
      assert ListAt(items, base, t, lists[t]);
      if t < s { BasesAscend(items, base, lists, t + 1, s); } else { BasesAscend(items, base, lists, s + 1, t); }
      assert items'[base[t]..base[t] + |lists[t]|] == items[base[t]..base[t] + |lists[t]|];
    }
    assert items'[base[s]..pos + 1] == items[base[s]..pos] + [x];
  }

  /** Element k of list s. */
  lemma LaidAt<T>(items: seq<T>, base: seq<nat>, lists: seq<seq<T>>, s: nat, k: nat)
    requires Laid(items, base, lists) && s < |lists| && k < |lists[s]|
    ensures base[s] + k < |items| && base[s] + k < base[s+1] && items[base[s] + k] == lists[s][k]
  {
    assert ListAt(items, base, s, lists[s]);
    assert items[base[s]..base[s] + |lists[s]|][k] == lists[s][k];
  }

  /** When the lists fill their room, every position belongs to one of them. */
  lemma LaidOwner<T>(items: seq<T>, base: seq<nat>, lists: seq<seq<T>>, pos: nat) returns (s: nat)
    requires Laid(items, base, lists) && |lists| > 0 && base[0] == 0 && pos < |items|
    ensures s < |lists| && base[s] <= pos < base[s+1]
  {
    s := 0;
    while base[s+1] <= pos
      invariant s < |lists| && base[s] <= pos
      decreases |lists| - s
    {
      s := s + 1;
    }
  }

  /** The start of each list when lists of these lengths stand one behind the other. */
  function Starts(lengths: seq<nat>, s: nat): nat
    requires s <= |lengths|
  {
    if s == 0 then 0 else Starts(lengths, s - 1) + lengths[s-1]
  }

  lemma {:induction false} StartsAscend(lengths: seq<nat>, s: nat, t: nat)
    requires s <= t <= |lengths|
    ensures Starts(lengths, s) <= Starts(lengths, t)
    ensures s < t ==> Starts(lengths, s) + lengths[s] <= Starts(lengths, t)
    decreases t - s
  {
    if s < t {
      StartsAscend(lengths, s + 1, t);
    }
  }

  lemma {:induction false} StartsAdd(lengths: seq<nat>, v: nat, s: nat)
    requires v < |lengths| && s <= |lengths|
    ensures Starts(lengths[v := lengths[v] + 1], s) == if s <= v then Starts(lengths, s) else Starts(lengths, s) + 1
  {
    if s > 0 {
      StartsAdd(lengths, v, s - 1);
    }
  }

  lemma {:induction false} StartsZero(lengths: seq<nat>, s: nat)
    requires s <= |lengths| && forall v :: 0 <= v < |lengths| ==> lengths[v] == 0
    ensures Starts(lengths, s) == 0
  {
    if s > 0 {
      StartsZero(lengths, s - 1);
    }
  }

  /** Empty lists are laid out at the starts. */
  lemma LaidEmpty<T>(items: seq<T>, base: seq<nat>, lengths: seq<nat>, lists: seq<seq<T>>)
    requires |base| == |lengths| + 1 && forall s :: 0 <= s <= |lengths| ==> base[s] == Starts(lengths, s)
    requires |items| == Starts(lengths, |lengths|)
    requires |lists| == |lengths| && forall s :: 0 <= s < |lists| ==> lists[s] == []
    ensures Laid(items, base, lists)
  {
    forall s | 0 <= s < |lists| ensures ListAt(items, base, s, lists[s]) {
      StartsAscend(lengths, s, s + 1);
      StartsAscend(lengths, s + 1, |lengths|);
    }
  }

  lemma StartsFirst(lengths: seq<nat>)
    ensures Starts(lengths, 0) == 0
  {
  }

  lemma StartsNext(lengths: seq<nat>, s: nat)
    requires s < |lengths|
    ensures Starts(lengths, s + 1) == Starts(lengths, s) + lengths[s]
  {
  }

  /** The loop that turns the counts into the starts of the lists. */
  method PlaceLists(counts: seq<nat>) returns (bases: seq<nat>)
    ensures |bases| == |counts| && forall v :: 0 <= v < |counts| ==> bases[v] == Starts(counts, v)
  {
    hide Starts;
    StartsFirst(counts);
    var tempMap := new nat[|counts|](_ => 0);
    var k: nat := 0;
    var i := 0;
    while i < |counts|
      invariant i <= |counts| && k == Starts(counts, i)
      invariant forall v :: 0 <= v < i ==> tempMap[v] == Starts(counts, v)
    {
      StartsNext(counts, i);
      tempMap[i] := k;
      k := k + counts[i];
      i := i + 1;
    }
    bases := tempMap[..];
  }
}
