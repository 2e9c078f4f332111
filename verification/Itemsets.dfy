/** The buffers in which the successor kernels of a state are collected (jay/lr0.c, allocate_itemsets, new_itemsets
    and the sort in append_states). */
module Itemsets {
  import opened Counting
  import opened Grammars
  import opened Closures
  import opened Kernels

  /** How many symbols below m the first n entries of ritem hold. */
  ghost function Total(g: Grammar, m: nat, n: nat): nat
    requires n <= |g.ritem|
  {
    if m == 0 then 0 else Total(g, m - 1, n) + Occurrences(g, m - 1, n)
  }

  lemma {:induction false} TotalStep(g: Grammar, m: nat, n: nat)
    requires n <= |g.ritem|
    ensures n == 0 ==> Total(g, m, n) == 0
    ensures n > 0 ==> Total(g, m, n) == Total(g, m, n - 1) + (if 0 <= g.ritem[n-1] < m then 1 else 0)
  {
    if m > 0 {
      TotalStep(g, m - 1, n);
    }
  }

  /** The regions of all symbols together take one place for every symbol on a right-hand side. */
  lemma {:induction false} BaseIsTotal(g: Grammar, m: nat)
    ensures RegionBase(g, m) == Total(g, m, |g.ritem|)
  {
    if m > 0 {
      BaseIsTotal(g, m - 1);
    }
  }

  lemma SymbolBound(g: Grammar, i: nat)
    requires i < |g.ritem|
    ensures g.ritem[i] < g.nsyms
  {
    if i > 0 {
      var r := RuleOfItem(g, i);
      RuleShape(g, r);
      EndOfRule(g, r, i);
    }
  }

  // ---------------------------------------------------------------------------------
  // Insertion.

  /** Take element i out and put it back in front of element j. */
  ghost function Inserted(s: seq<nat>, j: nat, i: nat): seq<nat>
    requires j <= i < |s|
  {
    s[..j] + [s[i]] + s[j..i] + s[i+1..]
  }

  ghost function InsertedAt(s: seq<nat>, j: nat, i: nat, k: nat): nat
    requires j <= i < |s| && k < |s|
  {
    if k < j then s[k] else if k == j then s[i] else if k <= i then s[k-1] else s[k]
  }

  lemma InsertedIndex(s: seq<nat>, j: nat, i: nat)
    requires j <= i < |s|
    ensures |Inserted(s, j, i)| == |s|
    ensures forall k :: 0 <= k < |s| ==> Inserted(s, j, i)[k] == InsertedAt(s, j, i, k)
  {
  }

  lemma InsertedSorted(s: seq<nat>, j: nat, i: nat)
    requires j <= i < |s| && Ascending(s[..i]) && Distinct(s)
    requires forall k :: j <= k < i ==> s[k] > s[i]
    requires j > 0 ==> s[j-1] <= s[i]
    ensures |Inserted(s, j, i)| == |s| && Ascending(Inserted(s, j, i)[..i+1])
  {
    InsertedIndex(s, j, i);
    var t := Inserted(s, j, i);
    forall k | 0 <= k < j ensures s[k] < s[i] {
      assert s[..i][k] <= s[..i][j-1] && s[j-1] != s[i];
    }
    forall k, l | 0 <= k < l < i ensures s[k] < s[l] {
      assert s[..i][k] < s[..i][l];
    }
    hide Inserted;
    forall k, l | 0 <= k < l < i + 1 ensures t[k] < t[l] {
    }
  }

  lemma InsertedDistinct(s: seq<nat>, j: nat, i: nat)
    requires j <= i < |s| && Distinct(s)
    ensures Distinct(Inserted(s, j, i)) && Elements(Inserted(s, j, i)) == Elements(s)
  {
    InsertedIndex(s, j, i);
    assert s == s[..j] + s[j..i] + [s[i]] + s[i+1..];
  }

  // ---------------------------------------------------------------------------------

  class Buffers {
    const g: Grammar
    const kernelBase: seq<nat>
    const kernelItems: array<nat>
    const kernelEnd: array<int>
    const shiftSymbol: array<nat>
    var nshifts: nat

    /** The kernel collected for each symbol, and the symbols in the order in which they were met. */
    ghost var regions: seq<seq<nat>>
    ghost var symbols: seq<nat>

    ghost predicate Valid()
      reads this, kernelItems, kernelEnd, shiftSymbol
    {
      && |kernelBase| == g.nsyms && (forall s :: 0 <= s < g.nsyms ==> kernelBase[s] == RegionBase(g, s))
      && kernelItems != shiftSymbol
      && kernelEnd as object != kernelItems && kernelEnd as object != shiftSymbol
      && Regions(g, regions, kernelItems[..], kernelEnd[..])
      && shiftSymbol.Length == g.nsyms && nshifts == |symbols| <= g.nsyms && shiftSymbol[..nshifts] == symbols
    }

    constructor (g: Grammar)
      ensures Valid() && this.g == g && fresh(kernelItems) && fresh(kernelEnd) && fresh(shiftSymbol)
    {
      var symbolCount, count := CountSymbols(g);
      var base := BaseSymbols(g, symbolCount);
      this.g := g;
      kernelBase := base;
      kernelItems := new nat[count](_ => 0);
      kernelEnd := new int[g.nsyms](_ => -1);
      shiftSymbol := new nat[g.nsyms](_ => 0);
      nshifts := 0;
      regions, symbols := seq(g.nsyms, _ => []), [];
      new;
      forall s: nat | s < g.nsyms ensures RegionOk(g, s, [], kernelItems[..], -1) {
        RegionsAscend(g, s, g.nsyms);
      }
    }

    /** `*ksp++ = item`, which first opens the region of the symbol if it is still closed. */
    method PushItem(symbol: nat, item: nat)
      requires Valid() && symbol < g.nsyms && |regions[symbol]| < Occurrences(g, symbol, |g.ritem|)
      requires regions[symbol] == [] ==> nshifts < g.nsyms
      modifies this, kernelItems, kernelEnd, shiftSymbol
      ensures Valid()
      ensures regions == old(regions)[symbol := old(regions)[symbol] + [item]]
      ensures symbols == if old(regions)[symbol] == [] then old(symbols) + [symbol] else old(symbols)
    {
      var ksp := kernelEnd[symbol];
      PushRegion(g, regions, kernelItems[..], kernelEnd[..], symbol, item);
      hide Regions, RegionBase;
      if ksp == -1 {
        shiftSymbol[nshifts] := symbol;
        nshifts := nshifts + 1;
        symbols := symbols + [symbol];
        ksp := kernelBase[symbol];
      }
      kernelItems[ksp] := item;
      kernelEnd[symbol] := ksp + 1;
      regions := regions[symbol := regions[symbol] + [item]];
    }

    method Clear()
      requires Valid()
      modifies this, kernelEnd
      ensures Valid() && symbols == [] && regions == seq(g.nsyms, _ => [])
    {
      var i := 0;
      while i < g.nsyms
        invariant i <= g.nsyms
        invariant forall s :: 0 <= s < i ==> kernelEnd[s] == -1
      {
        kernelEnd[i] := -1;
        i := i + 1;
      }
      nshifts, symbols, regions := 0, [], seq(g.nsyms, _ => []);
      forall s: nat | s < g.nsyms ensures RegionOk(g, s, [], kernelItems[..], -1) {
        RegionsAscend(g, s, g.nsyms);
      }
    }

    /** Put the item after the dot of item number isp into the region of the symbol behind the dot. */
    method Collect(itemset: seq<nat>, isp: nat)
      requires Valid() && KernelLike(g, itemset) && isp < |itemset|
      requires Collected(g, itemset[..isp], regions, symbols)
      modifies this, kernelItems, kernelEnd, shiftSymbol
      ensures Valid() && Collected(g, itemset[..isp+1], regions, symbols)
    {
      var i := itemset[isp];
      assert i in itemset;
      SymbolBound(g, i);
      var symbol := g.ritem[i];
      CollectStep(g, itemset, isp, regions, symbols);
      hide Collected, Regions, KernelLike;
      if symbol > 0 {
        PushItem(symbol, i + 1);
      }
    }

    /** Collect the successor kernels of the items. */
    method NewItemsets(itemset: seq<nat>)
      requires Valid() && KernelLike(g, itemset)
      modifies this, kernelItems, kernelEnd, shiftSymbol
      ensures Valid() && Collected(g, itemset, regions, symbols)
    {
      Clear();
      assert Collected(g, [], regions, symbols);
      hide Collected, Regions, Valid, KernelLike;
      assert itemset[..0] == [];
      var isp := 0;
      while isp < |itemset|
        invariant isp <= |itemset| && Valid() && Collected(g, itemset[..isp], regions, symbols)
      {
        Collect(itemset, isp);
        isp := isp + 1;
      }
      assert itemset[..isp] == itemset;
    }

    /** The insertion sort at the start of append_states. */
    method SortSymbols()
      requires Valid() && Distinct(symbols)
      modifies this, shiftSymbol
      ensures Valid() && regions == old(regions) && nshifts == old(nshifts)
      ensures Ascending(symbols) && Elements(symbols) == Elements(old(symbols))
    {
      var i := 1;
      while i < nshifts
        invariant 1 <= i && (i <= nshifts || nshifts == 0) && Valid() && regions == old(regions) && nshifts == old(nshifts)
        invariant Distinct(symbols) && Elements(symbols) == Elements(old(symbols))
        invariant i <= nshifts ==> Ascending(symbols[..i])
      {
        InsertSymbol(i);
        i := i + 1;
      }
      assert nshifts > 0 ==> symbols[..nshifts] == symbols;
    }

    method InsertSymbol(i: nat)
      requires Valid() && i < nshifts && Distinct(symbols) && Ascending(symbols[..i])
      modifies this`symbols, shiftSymbol
      ensures Valid() && |symbols| == |old(symbols)|
      ensures Distinct(symbols) && Elements(symbols) == Elements(old(symbols)) && Ascending(symbols[..i+1])
    {
      ghost var was := symbols;
      var symbol := shiftSymbol[i];
      assert symbol == was[i];
      var j := i;
      while j > 0 && shiftSymbol[j - 1] > symbol
        invariant j <= i
        invariant forall k :: 0 <= k <= j && k < i ==> shiftSymbol[k] == was[k]
        invariant forall k :: j < k <= i ==> shiftSymbol[k] == was[k-1]
        invariant forall k :: i < k < |was| ==> shiftSymbol[k] == was[k]
        invariant forall k :: j <= k < i ==> was[k] > symbol
      {
        shiftSymbol[j] := shiftSymbol[j - 1];
        j := j - 1;
      }
      shiftSymbol[j] := symbol;
      InsertedSorted(was, j, i);
      InsertedDistinct(was, j, i);
      InsertedIndex(was, j, i);
      symbols := Inserted(was, j, i);
      assert shiftSymbol[..nshifts] == symbols;
    }
  }

  /** The regions hold the successor kernels of the items, and the symbols list those that have one. */
  ghost predicate Collected(g: Grammar, items: seq<nat>, regions: seq<seq<nat>>, symbols: seq<nat>)
  {
    && |regions| == g.nsyms && Distinct(symbols)
    && (forall s: nat :: s < g.nsyms ==> regions[s] == (if s > 0 then Moved(g, items, s) else []))
    && (forall s: nat :: s in symbols <==> s < g.nsyms && regions[s] != [])
  }

  /** The next item fits into the region of its symbol. */
  lemma CollectStep(g: Grammar, items: seq<nat>, c: nat, regions: seq<seq<nat>>, symbols: seq<nat>)
    requires KernelLike(g, items) && c < |items| && items[c] < |g.ritem| && g.ritem[items[c]] < g.nsyms
    requires Collected(g, items[..c], regions, symbols)
    ensures |regions| == g.nsyms
    ensures var symbol := g.ritem[items[c]];
            if symbol > 0 then
              && |regions[symbol]| < Occurrences(g, symbol, |g.ritem|)
              && (regions[symbol] == [] ==> |symbols| < g.nsyms)
              && Collected(g, items[..c+1], regions[symbol := regions[symbol] + [items[c] + 1]],
                           if regions[symbol] == [] then symbols + [symbol] else symbols)
            else Collected(g, items[..c+1], regions, symbols)
  {
    var symbol := g.ritem[items[c]];
    forall s: nat | s < g.nsyms
      ensures Moved(g, items[..c+1], s) == if symbol == s then Moved(g, items[..c], s) + [items[c] + 1] else Moved(g, items[..c], s)
    {
      MovedStep(g, items, c, s);
    }
    if symbol > 0 {
      MovedRoom(g, items[..c+1], symbol);
      if regions[symbol] == [] {
        assert symbol !in symbols;
        forall k | 0 <= k < |symbols| ensures symbols[k] < g.nsyms { assert symbols[k] in symbols; }
        DistinctBelow(symbols, g.nsyms, symbol);
      }
    }
  }

  /** Region s holds the list, inside the room for the symbol; a closed region has no end. */
  ghost predicate RegionOk(g: Grammar, s: nat, region: seq<nat>, items: seq<nat>, end: int)
  {
    && |region| <= Occurrences(g, s, |g.ritem|)
    && end == (if region == [] then -1 else RegionBase(g, s) + |region|)
    && RegionBase(g, s) + |region| <= |items|
    && items[RegionBase(g, s)..RegionBase(g, s) + |region|] == region
  }

  ghost predicate Regions(g: Grammar, regions: seq<seq<nat>>, items: seq<nat>, ends: seq<int>)
  {
    && |regions| == |ends| == g.nsyms && |items| == RegionBase(g, g.nsyms)
    && forall s: nat :: s < g.nsyms ==> RegionOk(g, s, regions[s], items, ends[s])
  }

  lemma PushRegion(g: Grammar, regions: seq<seq<nat>>, items: seq<nat>, ends: seq<int>, symbol: nat, item: nat)
    requires Regions(g, regions, items, ends) && symbol < g.nsyms
    requires |regions[symbol]| < Occurrences(g, symbol, |g.ritem|)
    ensures |ends| == |regions| == g.nsyms
    ensures ends[symbol] == (if regions[symbol] == [] then -1 else RegionBase(g, symbol) + |regions[symbol]|)
    ensures var pos := RegionBase(g, symbol) + |regions[symbol]|;
            pos < |items| && Regions(g, regions[symbol := regions[symbol] + [item]], items[pos := item], ends[symbol := pos + 1])
  {
    assert RegionOk(g, symbol, regions[symbol], items, ends[symbol]);
    RegionsAscend(g, symbol, g.nsyms);
    var pos := RegionBase(g, symbol) + |regions[symbol]|;
    var items' := items[pos := item];
    forall s: nat | s < g.nsyms && s != symbol ensures RegionOk(g, s, regions[s], items', ends[s]) {
      assert RegionOk(g, s, regions[s], items, ends[s]);
      if s < symbol { RegionsAscend(g, s, symbol); } else { RegionsAscend(g, symbol, s); }
      var base := RegionBase(g, s);
      assert items'[base..base + |regions[s]|] == items[base..base + |regions[s]|];
    }
    assert RegionOk(g, symbol, regions[symbol] + [item], items', pos + 1) by {
      var base := RegionBase(g, symbol);
      assert items'[base..pos + 1] == items[base..pos] + [item];
    }
  }

  /** How often each symbol occurs in ritem, and how many symbols there are in all. */
  method CountSymbols(g: Grammar) returns (symbolCount: seq<nat>, count: nat)
    ensures count == RegionBase(g, g.nsyms)
    ensures |symbolCount| == g.nsyms && forall s :: 0 <= s < g.nsyms ==> symbolCount[s] == Occurrences(g, s, |g.ritem|)
  {
    symbolCount := seq(g.nsyms, _ => 0);
    count := 0;
    var i := 0;
    TotalStep(g, g.nsyms, 0);
    while i < |g.ritem|
      invariant i <= |g.ritem| && |symbolCount| == g.nsyms && count == Total(g, g.nsyms, i)
      invariant forall s :: 0 <= s < g.nsyms ==> symbolCount[s] == Occurrences(g, s, i)
    {
      var symbol := g.ritem[i];
      SymbolBound(g, i);
      TotalStep(g, g.nsyms, i + 1);
      if symbol >= 0 {
        count := count + 1;
        symbolCount := symbolCount[symbol := symbolCount[symbol] + 1];
      }
      i := i + 1;
    }
    BaseIsTotal(g, g.nsyms);
  }

  lemma RegionStep(g: Grammar, s: nat)
    ensures RegionBase(g, 0) == 0 && RegionBase(g, s + 1) == RegionBase(g, s) + Occurrences(g, s, |g.ritem|)
  {
  }

  method BaseSymbols(g: Grammar, symbolCount: seq<nat>) returns (kernelBase: seq<nat>)
    requires |symbolCount| == g.nsyms
    requires forall s :: 0 <= s < g.nsyms ==> symbolCount[s] == Occurrences(g, s, |g.ritem|)
    ensures |kernelBase| == g.nsyms && forall s :: 0 <= s < g.nsyms ==> kernelBase[s] == RegionBase(g, s)
  {
    hide RegionBase, Occurrences, RawGrammar.Valid;
    kernelBase := [];
    var count, s := 0, 0;
    RegionStep(g, 0);
    while s < g.nsyms
      invariant s <= g.nsyms && |kernelBase| == s && count == RegionBase(g, s)
      invariant forall t :: 0 <= t < s ==> kernelBase[t] == RegionBase(g, t)
    {
      RegionStep(g, s);
      kernelBase := kernelBase + [count];
      count := count + symbolCount[s];
      s := s + 1;
    }
  }
}
