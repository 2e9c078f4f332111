/** Sorting in place (lib/trusted/gsort.l). Values stand for what compare says of them: elements that are ordered like
    numbers. */
module Sorting {

  ghost predicate Sorted(s: seq<int>)
  {
    forall i, j :: 0 <= i < j < |s| ==> s[i] <= s[j]
  }

  /** The same values, with those outside lo..hi in their places. */
  ghost predicate Rearranged(was: seq<int>, now: seq<int>, lo: nat, hi: nat)
  {
    && lo <= hi <= |was| == |now| && now[..lo] == was[..lo] && now[hi..] == was[hi..]
    && multiset(now[lo..hi]) == multiset(was[lo..hi])
  }

  lemma RearrangedTwice(a: seq<int>, b: seq<int>, c: seq<int>, lo: nat, hi: nat)
    requires Rearranged(a, b, lo, hi) && Rearranged(b, c, lo, hi)
    ensures Rearranged(a, c, lo, hi)
  {
  }

  /** What is done inside a slice is done inside a larger one. */
  lemma RearrangedWithin(was: seq<int>, now: seq<int>, lo: nat, lo': nat, hi': nat, hi: nat)
    requires Rearranged(was, now, lo', hi') && lo <= lo' && hi' <= hi <= |was|
    ensures Rearranged(was, now, lo, hi)
  {
    Slices(was, now, lo, lo', hi', hi);
    assert now[lo..hi] == now[lo..lo'] + now[lo'..hi'] + now[hi'..hi];
    assert was[lo..hi] == was[lo..lo'] + was[lo'..hi'] + was[hi'..hi];
  }

  lemma Slices(was: seq<int>, now: seq<int>, lo: nat, lo': nat, hi': nat, hi: nat)
    requires lo <= lo' <= hi' <= hi <= |was| == |now| && now[..lo'] == was[..lo'] && now[hi'..] == was[hi'..]
    ensures now[..lo] == was[..lo] && now[lo..lo'] == was[lo..lo'] && now[hi'..hi] == was[hi'..hi] && now[hi..] == was[hi..]
  {
    assert now[..lo] == now[..lo'][..lo] && was[..lo] == was[..lo'][..lo];
    assert now[lo..lo'] == now[..lo'][lo..] && was[lo..lo'] == was[..lo'][lo..];
    assert now[hi'..hi] == now[hi'..][..hi-hi'] && was[hi'..hi] == was[hi'..][..hi-hi'];
    assert now[hi..] == now[hi'..][hi-hi'..] && was[hi..] == was[hi'..][hi-hi'..];
  }

  lemma RearrangedSwap(was: seq<int>, i: nat, j: nat)
    requires i <= j < |was|
    ensures Rearranged(was, was[i := was[j]][j := was[i]], i, j + 1)
  {
    var now := was[i := was[j]][j := was[i]];
    assert now[i..j+1] == was[i..j+1][0 := was[j]][j-i := was[i]];
  }

  ghost predicate AtMost(s: seq<int>, lo: nat, hi: nat, x: int)
  {
    lo <= hi <= |s| && forall k :: lo <= k < hi ==> s[k] <= x
  }

  ghost predicate AtLeast(s: seq<int>, lo: nat, hi: nat, x: int)
  {
    lo <= hi <= |s| && forall k :: lo <= k < hi ==> s[k] >= x
  }

  /** Bounds on all values of the slice stay. */
  lemma RearrangedBounds(was: seq<int>, now: seq<int>, lo: nat, hi: nat, x: int)
    requires Rearranged(was, now, lo, hi)
    ensures AtMost(was, lo, hi, x) ==> AtMost(now, lo, hi, x)
    ensures AtLeast(was, lo, hi, x) ==> AtLeast(now, lo, hi, x)
  {
    forall k | lo <= k < hi ensures exists l :: lo <= l < hi && was[l] == now[k] {
      assert now[lo..hi][k-lo] == now[k] && now[k] in multiset(now[lo..hi]) && now[k] in was[lo..hi];
    }
  }

  /** What lies outside the slice keeps its bounds, too. */
  lemma RearrangedElsewhere(was: seq<int>, now: seq<int>, lo: nat, hi: nat, a: nat, b: nat, x: int)
    requires Rearranged(was, now, lo, hi) && (b <= lo || hi <= a)
    ensures AtMost(was, a, b, x) ==> AtMost(now, a, b, x)
    ensures AtLeast(was, a, b, x) ==> AtLeast(now, a, b, x)
    ensures a <= b <= |was| ==> now[a..b] == was[a..b]
  {
    if a <= b <= |was| {
      forall k | a <= k < b ensures now[k] == was[k] {
        if k < lo {
          assert now[..lo][k] == was[..lo][k];
        } else {
          assert now[hi..][k-hi] == was[hi..][k-hi];
        }
      }
    }
  }

  lemma SortedHalves(s: seq<int>, p: nat, q: nat, r: nat, x: int)
    requires p <= q <= r <= |s| && Sorted(s[p..q]) && Sorted(s[q..r]) && AtMost(s, p, q, x) && AtLeast(s, q, r, x)
    ensures Sorted(s[p..r])
  {
    var t := s[p..r];
    forall i, j | 0 <= i < j < |t| ensures t[i] <= t[j] {
      if j < q - p {
        assert t[i] == s[p..q][i] && t[j] == s[p..q][j];
      } else if i >= q - p {
        assert t[i] == s[q..r][i-(q-p)] && t[j] == s[q..r][j-(q-p)];
      } else {
        assert t[i] == s[p+i] && t[j] == s[p+j];
      }
    }
  }

  /** gsort.l, partition: by the first value, with at least one value on either side. */
  method Partition(values: array<int>, p: nat, r: nat) returns (q: nat)
    requires p < r < values.Length
    modifies values
    ensures p <= q < r && Rearranged(old(values[..]), values[..], p, r + 1)
    ensures AtMost(values[..], p, q + 1, old(values[p])) && AtLeast(values[..], q + 1, r + 1, old(values[p]))
  {
    hide Rearranged;
    var middle, lo, hi := values[p], p, r;
    Unchanged(values[..], p, r + 1);
    while true
      invariant p <= lo < hi <= r && Rearranged(old(values[..]), values[..], p, r + 1)
      invariant AtMost(values[..], p, lo + 1, middle) && AtLeast(values[..], hi + 1, r + 1, middle)
      invariant hi < r || values[hi] >= middle || values[lo] >= middle
      decreases hi - lo, if values[hi] >= middle then 0 else 1
    {
      ghost var lo0, hi0 := lo, hi;
      while values[hi] >= middle && lo < hi
        invariant lo <= hi <= hi0 && AtLeast(values[..], hi + 1, r + 1, middle) && (values[hi0] < middle ==> hi == hi0)
        decreases hi - lo
      {
        hi := hi - 1;
      }
      while values[lo] < middle && lo < hi
        invariant lo0 <= lo <= hi && AtMost(values[..], p, lo, middle) && (values[lo0] >= middle ==> lo == lo0)
        decreases hi - lo
      {
        lo := lo + 1;
      }
      if lo < hi {
        SwapWithin(old(values[..]), values[..], p, lo, hi, r + 1);
        var temp := values[hi];
        values[hi] := values[lo];
        values[lo] := temp;
      } else {
        return hi;
      }
    }
  }

  lemma Unchanged(s: seq<int>, lo: nat, hi: nat)
    requires lo <= hi <= |s|
    ensures Rearranged(s, s, lo, hi)
  {
  }

  lemma SwapWithin(was: seq<int>, now: seq<int>, p: nat, i: nat, j: nat, r: nat)
    requires Rearranged(was, now, p, r) && p <= i <= j < r <= |now|
    ensures Rearranged(was, now[j := now[i]][i := now[j]], p, r)
  {
    hide Rearranged;
    RearrangedSwap(now, i, j);
    assert now[j := now[i]][i := now[j]] == now[i := now[j]][j := now[i]];
    RearrangedWithin(now, now[i := now[j]][j := now[i]], p, i, j + 1, r);
    RearrangedTwice(was, now, now[i := now[j]][j := now[i]], p, r);
  }

  /** gsort.l, sort on a slice, inclusive of both ends. */
  method SortSlice(values: array<int>, p: nat, r: int)
    requires p <= r + 1 <= values.Length
    modifies values
    ensures Rearranged(old(values[..]), values[..], p, r + 1) && Sorted(values[p..r+1])
    decreases r - p
  {
    hide Rearranged, Sorted, AtMost, AtLeast;
    Unchanged(values[..], p, r + 1);
    if p < r {
      ghost var middle := values[p];
      ghost var start := values[..];
      var q: int := Partition(values, p, r);
      ghost var parted := values[..];
      if q == r {
        q := q - 1;
      }
      SortSlice(values, p, q);
      ghost var left := values[..];
      SortSlice(values, q + 1, r);
      BothSorted(start, parted, left, values[..], p, q + 1, r + 1, middle);
    } else {
      SortedShort(values[p..r+1]);
    }
  }

  lemma SortedShort(s: seq<int>)
    requires |s| <= 1
    ensures Sorted(s)
  {
  }

  lemma BothSorted(start: seq<int>, parted: seq<int>, left: seq<int>, now: seq<int>, p: nat, q: nat, r: nat, x: int)
    requires p <= q <= r && Rearranged(start, parted, p, r) && AtMost(parted, p, q, x) && AtLeast(parted, q, r, x)
    requires Rearranged(parted, left, p, q) && Rearranged(left, now, q, r) && q <= |left| && Sorted(left[p..q])
    requires r <= |now| && Sorted(now[q..r])
    ensures Rearranged(start, now, p, r) && Sorted(now[p..r])
  {
    hide Rearranged, Sorted, AtMost, AtLeast;
    Lengths(start, parted, p, r);
    Lengths(parted, left, p, q);
    Lengths(left, now, q, r);
    RearrangedBounds(parted, left, p, q, x);
    RearrangedElsewhere(parted, left, p, q, q, r, x);
    RearrangedBounds(left, now, q, r, x);
    RearrangedElsewhere(left, now, q, r, p, q, x);
    SortedHalves(now, p, q, r, x);
    RearrangedWithin(parted, left, p, p, q, r);
    RearrangedWithin(left, now, p, q, r, r);
    RearrangedTwice(start, parted, left, p, r);
    RearrangedTwice(start, left, now, p, r);
  }

  lemma Lengths(was: seq<int>, now: seq<int>, lo: nat, hi: nat)
    requires Rearranged(was, now, lo, hi)
    ensures lo <= hi <= |was| == |now|
  {
  }

  /** gsort.l, sort. */
  method Sort(values: array<int>)
    modifies values
    ensures Sorted(values[..]) && multiset(values[..]) == multiset(old(values[..]))
  {
    SortSlice(values, 0, values.Length - 1);
    assert values[0..values.Length] == values[..];
    assert old(values[..])[0..values.Length] == old(values[..]);
  }

  lemma LeastFirst(s: seq<int>, t: seq<int>)
    requires Sorted(s) && s != [] && t != [] && multiset(s) == multiset(t)
    ensures s[0] <= t[0]
  {
    assert t[0] in multiset(t) && t[0] in s;
  }

  lemma FirstAway(s: seq<int>)
    requires s != []
    ensures multiset(s[1..]) == multiset(s) - multiset{s[0]}
  {
    assert s == [s[0]] + s[1..];
  }

  /** What comes out depends on which values there are, only. */
  lemma {:induction false} SortedIsUnique(s: seq<int>, t: seq<int>)
    requires Sorted(s) && Sorted(t) && multiset(s) == multiset(t)
    ensures s == t
  {
    assert |s| == |multiset(s)| == |multiset(t)| == |t|;
    if s != [] {
      LeastFirst(s, t);
      LeastFirst(t, s);
      FirstAway(s);
      FirstAway(t);
      SortedIsUnique(s[1..], t[1..]);
      assert s == [s[0]] + s[1..] && t == [t[0]] + t[1..];
    }
  }
}
