/** The construction of the LR(0) automaton (jay/lr0.c). */
module Lr0 {
  import opened Counting
  import opened Grammars
  import opened Preparation
  import opened Automata
  import opened Closures
  import opened Kernels
  import opened Itemsets

  /** The cores found so far, as two lists: kernels and accessing symbols. */
  ghost predicate CoresOk(g: Grammar, kernels: seq<seq<nat>>, access: seq<nat>)
  {
    && |kernels| == |access| > 0 && kernels[0] == [1] && access[0] == 0
    && (forall p :: 0 <= p < |kernels| ==> KernelOk(g, kernels[p]))
    && Distinct(kernels)
    && (forall p :: 1 <= p < |kernels| ==> CoreOk(g, kernels[p], access[p]))
  }

  /** The accessing symbol of a kernel stands before the dots of its items. */
  ghost predicate CoreOk(g: Grammar, kernel: seq<nat>, symbol: nat)
  {
    kernel != [] && 2 <= kernel[0] <= |g.ritem| && g.ritem[kernel[0]-1] == symbol
  }

  /** state_set: every state but the first is in the bucket of its first item, and nowhere else. */
  ghost predicate BucketsOk(g: Grammar, kernels: seq<seq<nat>>, buckets: seq<seq<nat>>)
  {
    && |buckets| == |g.ritem|
    && forall key, p: nat :: 0 <= key < |buckets| ==> (p in buckets[key] <==> InBucket(kernels, key, p))
  }

  ghost predicate InBucket(kernels: seq<seq<nat>>, key: int, p: nat)
  {
    1 <= p < |kernels| && kernels[p] != [] && kernels[p][0] == key
  }

  /** State q is entered from a lower state whose shifts are recorded. */
  ghost predicate HasParent(shifts: seq<seq<nat>>, q: nat)
  {
    exists p: nat :: p < q && p < |shifts| && q in shifts[p]
  }

  /** Records are complete for the states below |shifts|. */
  ghost predicate RecordsOk(g: Grammar, kernels: seq<seq<nat>>, access: seq<nat>, shifts: seq<seq<nat>>, reds: seq<seq<nat>>)
    requires |kernels| == |access|
  {
    && |shifts| == |reds| <= |kernels|
    && (forall p: nat :: p < |shifts| ==> ShiftRecord(g, kernels, access, p, shifts[p]))
    && (forall p: nat :: p < |reds| ==> ReductionRecord(g, kernels[p], reds[p]))
  }

  lemma ShiftRecordGrows(g: Grammar, kernels: seq<seq<nat>>, access: seq<nat>, p: nat, shift: seq<nat>,
                         kernel: seq<nat>, symbol: nat)
    requires |kernels| == |access| && p < |kernels| && ShiftRecord(g, kernels, access, p, shift)
    ensures ShiftRecord(g, kernels + [kernel], access + [symbol], p, shift)
  {
    hide IsSuccessor, InClosure;
    forall i: nat | i < |g.ritem| && InClosure(g, kernels[p], i) && g.ritem[i] > 0
      ensures ShiftsOn(access + [symbol], shift, g.ritem[i])
    {
      var q :| q in shift && q < |access| && access[q] == g.ritem[i];
      assert (access + [symbol])[q] == g.ritem[i];
    }
    forall q | q in shift ensures 1 <= q < |kernels| {
      var k :| 0 <= k < |shift| && shift[k] == q;
    }
  }

  lemma RecordsGrow(g: Grammar, kernels: seq<seq<nat>>, access: seq<nat>, shifts: seq<seq<nat>>, reds: seq<seq<nat>>,
                    kernel: seq<nat>, symbol: nat)
    requires |kernels| == |access| && RecordsOk(g, kernels, access, shifts, reds)
    ensures RecordsOk(g, kernels + [kernel], access + [symbol], shifts, reds)
  {
    forall p: nat | p < |shifts| ensures ShiftRecord(g, kernels + [kernel], access + [symbol], p, shifts[p]) {
      ShiftRecordGrows(g, kernels, access, p, shifts[p], kernel, symbol);
    }
    hide ShiftRecord, ReductionRecord;
  }

  lemma CoresGrow(g: Grammar, kernels: seq<seq<nat>>, access: seq<nat>, kernel: seq<nat>, symbol: nat)
    requires CoresOk(g, kernels, access) && kernel !in kernels && KernelOk(g, kernel) && CoreOk(g, kernel, symbol)
    ensures CoresOk(g, kernels + [kernel], access + [symbol])
  {
  }

  lemma BucketsGrow(g: Grammar, kernels: seq<seq<nat>>, buckets: seq<seq<nat>>, kernel: seq<nat>)
    requires BucketsOk(g, kernels, buckets) && kernels != [] && kernel != [] && kernel[0] < |buckets|
    ensures BucketsOk(g, kernels + [kernel], buckets[kernel[0] := buckets[kernel[0]] + [|kernels|]])
  {
    var key0 := kernel[0];
    var buckets' := buckets[key0 := buckets[key0] + [|kernels|]];
    forall key, p: nat | 0 <= key < |buckets'|
      ensures p in buckets'[key] <==> InBucket(kernels + [kernel], key, p)
    {
      assert p in buckets[key] <==> InBucket(kernels, key, p);
    }
  }

  /** The transitions of the state under work that have been made so far, for the first |shift| of its symbols. */
  ghost predicate ShiftsSoFar(g: Grammar, kernels: seq<seq<nat>>, access: seq<nat>, items: seq<nat>,
                              symbols: seq<nat>, shift: seq<nat>)
    requires |kernels| == |access|
  {
    && |shift| <= |symbols|
    && forall k :: 0 <= k < |shift| ==> ShiftMade(g, kernels, access, items, symbols[k], shift[k])
  }

  ghost predicate ShiftMade(g: Grammar, kernels: seq<seq<nat>>, access: seq<nat>, items: seq<nat>, symbol: nat, q: nat)
    requires |kernels| == |access|
  {
    1 <= q < |kernels| && access[q] == symbol && kernels[q] == Moved(g, items, symbol)
  }

  /** With a transition for each symbol after a dot, the shift record is complete. */
  lemma ShiftsComplete(g: Grammar, kernels: seq<seq<nat>>, access: seq<nat>, p: nat, items: seq<nat>,
                       regions: seq<seq<nat>>, symbols: seq<nat>, shift: seq<nat>)
    requires CoresOk(g, kernels, access) && p < |kernels| && IsClosure(g, kernels[p], items)
    requires |regions| == g.nsyms && Ascending(symbols)
    requires forall s: nat :: s in symbols <==> s < g.nsyms && regions[s] != []
    requires forall s: nat :: s < g.nsyms ==> regions[s] == (if s > 0 then Moved(g, items, s) else [])
    requires ShiftsSoFar(g, kernels, access, items, symbols, shift) && |shift| == |symbols|
    ensures ShiftRecord(g, kernels, access, p, shift)
  {
    forall k | 0 <= k < |shift|
      ensures access[shift[k]] > 0 && kernels[shift[k]] != []
              && IsSuccessor(g, kernels[p], access[shift[k]], kernels[shift[k]])
    {
      assert ShiftMade(g, kernels, access, items, symbols[k], shift[k]);
      assert symbols[k] in symbols;
      MovedIsKernel(g, kernels[p], items, symbols[k]);
    }
    forall k, l | 0 <= k < l < |shift| ensures access[shift[k]] < access[shift[l]] {
      assert ShiftMade(g, kernels, access, items, symbols[k], shift[k]);
      assert ShiftMade(g, kernels, access, items, symbols[l], shift[l]);
    }
    forall i: nat | i < |g.ritem| && InClosure(g, kernels[p], i) && g.ritem[i] > 0
      ensures ShiftsOn(access, shift, g.ritem[i])
    {
      SymbolBound(g, i);
      var s := g.ritem[i];
      assert i + 1 in Moved(g, items, s);
      assert s in symbols;
      var k :| 0 <= k < |symbols| && symbols[k] == s;
      assert ShiftMade(g, kernels, access, items, symbols[k], shift[k]);
      assert shift[k] in shift;
    }
  }

  lemma EndItemOf(g: Grammar, i: nat)
    requires g.IsItem(i) && g.ritem[i] < 0
    ensures g.IsRule(-g.ritem[i]) && i == EndItem(g, -g.ritem[i])
  {
    var r := RuleOfItem(g, i);
    EndOfRule(g, r, i);
    RuleShape(g, r);
  }

  /** The rules are those completed by the items, ascending. */
  ghost predicate CompletedBy(g: Grammar, items: seq<nat>, rules: seq<nat>)
  {
    && Ascending(rules)
    && forall r: nat :: r in rules <==> g.IsRule(r) && EndItem(g, r) in items
  }

  lemma CompletedOne(g: Grammar, front: seq<nat>, i: nat, rules: seq<nat>)
    requires CompletedBy(g, front, rules) && g.IsItem(i) && g.ritem[i] < 0
    requires forall x: nat :: x in front ==> x < i
    ensures CompletedBy(g, front + [i], rules + [-g.ritem[i]])
  {
    hide RawGrammar.Valid, EndItem;
    EndItemOf(g, i);
    var s: nat := -g.ritem[i];
    forall k | 0 <= k < |rules| ensures rules[k] < s {
      assert rules[k] in rules;
      EndItemsAscend(g, rules[k], s);
    }
    forall r: nat | g.IsRule(r) && EndItem(g, r) == i ensures r == s { EndItemAt(g, r); }
  }

  lemma CompletedNone(g: Grammar, front: seq<nat>, i: nat, rules: seq<nat>)
    requires CompletedBy(g, front, rules) && g.IsItem(i) && g.ritem[i] >= 0
    ensures CompletedBy(g, front + [i], rules)
  {
    hide RawGrammar.Valid, EndItem;
    forall r: nat | g.IsRule(r) ensures EndItem(g, r) != i { EndItemAt(g, r); }
  }

  lemma EndItemAt(g: Grammar, r: nat)
    requires g.IsRule(r)
    ensures EndItem(g, r) < |g.ritem| && g.ritem[EndItem(g, r)] == -(r as int) && r > 0
  {
    RuleShape(g, r);
  }

  lemma CompletedNil(g: Grammar)
    ensures CompletedBy(g, [], [])
  {
  }

  lemma KernelLikePrefix(g: Grammar, items: seq<nat>, n: nat)
    requires KernelLike(g, items) && n <= |items|
    ensures KernelLike(g, items[..n])
  {
    forall x | x in items[..n] ensures g.IsItem(x) {
      assert x in items;
    }
  }

  lemma KernelLikeFront(g: Grammar, front: seq<nat>, i: nat)
    requires KernelLike(g, front + [i])
    ensures KernelLike(g, front) && g.IsItem(i)
    ensures forall x: nat :: x in front ==> x < i
  {
    var items := front + [i];
    assert items[..|items|-1] == front;
    forall x: nat | x in front ensures x in items && x < i { AscendingFront(items, x); }
    assert i in items;
  }

  lemma EndItemsAscend(g: Grammar, r: nat, s: nat)
    requires g.IsRule(r) && g.IsRule(s) && EndItem(g, r) < EndItem(g, s)
    ensures r < s
  {
    RuleShape(g, r);
    RuleShape(g, s);
    if s <= r {
      RulesAscend(g, s + 1, r + 1);
    }
  }

  lemma CompletedRecord(g: Grammar, kernel: seq<nat>, items: seq<nat>, rules: seq<nat>)
    requires IsClosure(g, kernel, items) && CompletedBy(g, items, rules)
    ensures ReductionRecord(g, kernel, rules)
  {
  }

  lemma {:induction false} ParentsReach(a: RawAutomaton, q: nat)
    requires Sizes(a) && q < |a.kernels|
    requires forall p: nat :: p < |a.kernels| ==> ShiftsOk(a, p)
    requires forall p: nat :: 1 <= p < |a.kernels| ==> HasParent(a.shifts, p)
    ensures Reachable(a, q)
    decreases q
  {
    if q == 0 {
      assert Walk(a, 0, [], 0);
    } else {
      assert HasParent(a.shifts, q);
      var p: nat :| p < q && p < |a.shifts| && q in a.shifts[p];
      ParentsReach(a, p);
      var word :| Walk(a, 0, word, p);
      assert Trans(a, p, a.access[q], q);
      WalkSnoc(a, 0, word, p, a.access[q], q);
    }
  }

  /** $accept has one rule, number 2. */
  lemma StartRules(g: Grammar)
    ensures RulesOf(g, g.ntokens, |g.rlhs|) == [2]
  {
    StartRulesBelow(g, |g.rlhs|);
  }

  lemma {:induction false} StartRulesBelow(g: Grammar, n: nat)
    requires n <= |g.rlhs|
    ensures RulesOf(g, g.ntokens, n) == if n <= 2 then [] else [2]
  {
    if n > 0 {
      StartRulesBelow(g, n - 1);
      if n > 3 {
        assert g.UserRule(n - 1);
      }
    }
  }

  /** When every state has been worked on, the records are the LR(0) automaton. */
  lemma RecordsAreLr0(a: RawAutomaton)
    requires CoresOk(a.g, a.kernels, a.access) && RecordsOk(a.g, a.kernels, a.access, a.shifts, a.reds)
    requires |a.shifts| == |a.kernels|
    requires forall p: nat :: 1 <= p < |a.kernels| ==> HasParent(a.shifts, p)
    ensures IsLr0(a)
  {
    hide ShiftRecord, ReductionRecord, HasParent;
    forall p: nat | p < |a.kernels| ensures ShiftsOk(a, p) && RedsOk(a, p) {
    }
    forall p | 0 <= p < |a.kernels| ensures Reachable(a, p) {
      ParentsReach(a, p);
    }
  }

  /** What a collected symbol and its region are good for. */
  lemma SymbolFacts(g: Grammar, items: seq<nat>, regions: seq<seq<nat>>, symbols: seq<nat>, i: nat)
    requires Collected(g, items, regions, symbols) && i < |symbols|
    ensures |regions| == g.nsyms && 0 < symbols[i] < g.nsyms && regions[symbols[i]] != []
    ensures regions[symbols[i]] == Moved(g, items, symbols[i])
  {
    assert symbols[i] in symbols;
  }

  lemma FirstCores(g: Grammar)
    ensures CoresOk(g, [[1]], [0])
  {
  }

  lemma NoBuckets(g: Grammar, buckets: seq<seq<nat>>)
    requires |buckets| == |g.ritem| && forall key :: 0 <= key < |buckets| ==> buckets[key] == []
    ensures BucketsOk(g, [[1]], buckets)
  {
  }

  lemma KernelIsLike(g: Grammar, kernels: seq<seq<nat>>, access: seq<nat>, t: nat)
    requires CoresOk(g, kernels, access) && t < |kernels|
    ensures KernelLike(g, kernels[t]) && |kernels| == |access|
  {
  }

  // ---------------------------------------------------------------------------------

  /** The globals of lr0.c; the linked lists of cores and records are indexed by state number. */
  class Generator {
    const g: Grammar
    const closures: ClosureTables
    const buffers: Buffers
    const stateSet: array<seq<nat>>
    var kernels: seq<seq<nat>>
    var access: seq<nat>
    var shifts: seq<seq<nat>>
    var reds: seq<seq<nat>>

    ghost function ClosureRepr(): set<object>
      reads closures
    {
      {closures, closures.itemset, closures.ruleset, closures.firstDerives}
    }

    ghost function BufferRepr(): set<object>
      reads buffers
    {
      {buffers, buffers.kernelItems, buffers.kernelEnd, buffers.shiftSymbol}
    }

    ghost predicate Apart()
      reads this, closures, buffers
    {
      ClosureRepr() !! BufferRepr() !! {this, stateSet}
    }

    ghost predicate Valid()
      reads this, stateSet, ClosureRepr(), BufferRepr()
    {
      && Apart() && closures.g == g && buffers.g == g && closures.Valid() && buffers.Valid()
      && Cores()
    }

    /** What holds of the cores found so far. */
    ghost predicate Cores()
      reads this, stateSet
    {
      CoresOk(g, kernels, access) && BucketsOk(g, kernels, stateSet[..])
    }

    constructor (g: Grammar, derives: seq<seq<nat>>)
      requires DerivesOk(g, derives)
      ensures Valid() && this.g == g && kernels == [[1]] && access == [0] && shifts == [] && reds == []
      ensures fresh(ClosureRepr()) && fresh(BufferRepr()) && fresh(stateSet)
    {
      hide CoresOk, BucketsOk, DerivesOk, FirstDerivesTable, Regions, IsLr0, RawGrammar.Valid, ClosureTables.Valid, Buffers.Valid;
      FirstCores(g);
      var c := new ClosureTables(g, derives);
      var b := new Buffers(g);
      var buckets := new seq<nat>[|g.ritem|](_ => []);
      NoBuckets(g, buckets[..]);
      var items := InitializeStates(g, derives);
      this.g := g;
      closures, buffers, stateSet := c, b, buckets;
      kernels, access, shifts, reds := [items], [0], [], [];
    }

    /** The kernel of the first state: the starts of the rules of $accept. */
    static method InitializeStates(g: Grammar, derives: seq<seq<nat>>) returns (items: seq<nat>)
      requires DerivesOk(g, derives)
      ensures items == [1]
    {
      var startDerives := derives[g.ntokens];
      StartRules(g);
      items := [];
      var i := 0;
      while i < |startDerives|
        invariant i <= |startDerives| && items == [1][..i]
      {
        items := items + [g.rrhs[startDerives[i]]];
        i := i + 1;
      }
    }

    /** Compare the collected kernel of the symbol with the items of a state. */
    method SameKernel(symbol: nat, items: seq<nat>) returns (found: bool)
      requires buffers.Valid() && buffers.g == g && symbol < g.nsyms && buffers.regions[symbol] != []
      ensures found <==> items == buffers.regions[symbol]
    {
      var isp1, iend := buffers.kernelBase[symbol], buffers.kernelEnd[symbol];
      ghost var kernel := buffers.regions[symbol];
      assert RegionOk(g, symbol, kernel, buffers.kernelItems[..], iend);
      found := false;
      if |items| == iend - isp1 {
        found := true;
        var k := 0;
        while found && k < |items|
          invariant k <= |items| == |kernel|
          invariant found ==> items[..k] == kernel[..k]
          invariant !found ==> items != kernel
          decreases |items| - k, found
        {
          assert buffers.kernelItems[isp1 + k] == kernel[k];
          if buffers.kernelItems[isp1 + k] != items[k] {
            found := false;
          } else {
            k := k + 1;
          }
        }
      }
    }

    /** The state whose kernel was collected for the symbol; a new one if there is none yet. */
    method GetState(symbol: nat) returns (q: nat)
      requires Valid() && symbol < g.nsyms && buffers.regions[symbol] != []
      requires KernelOk(g, buffers.regions[symbol]) && CoreOk(g, buffers.regions[symbol], symbol)
      modifies this`kernels, this`access, stateSet
      ensures Valid() && 1 <= q < |kernels| && kernels[q] == buffers.regions[symbol] && access[q] == symbol
      ensures || (kernels == old(kernels) && access == old(access))
              || (kernels == old(kernels) + [buffers.regions[symbol]] && access == old(access) + [symbol]
                  && q == |old(kernels)|)
    {
      ghost var kernel := buffers.regions[symbol];
      assert RegionOk(g, symbol, kernel, buffers.kernelItems[..], buffers.kernelEnd[symbol]);
      var key := buffers.kernelItems[buffers.kernelBase[symbol]];
      assert key == kernel[0] && kernel[0] in kernel;
      var found;
      found, q := FindState(symbol, key);
      if !found {
        NotInBucket(g, kernels, access, stateSet[..], kernel);
        q := NewState(symbol, key);
      }
    }

    /** The walk down the chain of the bucket. */
    method FindState(symbol: nat, key: nat) returns (found: bool, q: nat)
      requires Valid() && symbol < g.nsyms && buffers.regions[symbol] != [] && key < |g.ritem|
      ensures found ==> 1 <= q < |kernels| && kernels[q] == buffers.regions[symbol]
      ensures !found ==> forall p :: p in stateSet[key] ==> p < |kernels| && kernels[p] != buffers.regions[symbol]
    {
      var chain := stateSet[key];
      var k := 0;
      while k < |chain|
        invariant k <= |chain|
        invariant forall l :: 0 <= l < k ==> chain[l] < |kernels| && kernels[chain[l]] != buffers.regions[symbol]
      {
        q := chain[k];
        assert q in stateSet[..][key];
        assert InBucket(kernels, key, q);
        found := SameKernel(symbol, kernels[q]);
        if found {
          return;
        }
        k := k + 1;
      }
      found, q := false, 0;
    }

    /** Append the kernel collected for the symbol as a new state, and chain it into its bucket. */
    method NewState(symbol: nat, key: nat) returns (q: nat)
      requires Valid() && symbol < g.nsyms && buffers.regions[symbol] != [] && key == buffers.regions[symbol][0]
      requires KernelOk(g, buffers.regions[symbol]) && CoreOk(g, buffers.regions[symbol], symbol)
      requires buffers.regions[symbol] !in kernels
      modifies this`kernels, this`access, stateSet
      ensures Valid() && q == |old(kernels)|
      ensures kernels == old(kernels) + [buffers.regions[symbol]] && access == old(access) + [symbol]
    {
      ghost var kernel := buffers.regions[symbol];
      assert RegionOk(g, symbol, kernel, buffers.kernelItems[..], buffers.kernelEnd[symbol]);
      assert kernel[0] in kernel;
      BucketsGrow(g, kernels, stateSet[..], kernel);
      CoresGrow(g, kernels, access, kernel, symbol);
      var items := buffers.kernelItems[buffers.kernelBase[symbol]..buffers.kernelEnd[symbol]];
      assert items == kernel;
      q := |kernels|;
      stateSet[key] := stateSet[key] + [q];
      kernels, access := kernels + [items], access + [symbol];
    }

    /** The end items of the list, as rule numbers. */
    method SaveReductions(itemset: seq<nat>) returns (redset: seq<nat>)
      requires KernelLike(g, itemset)
      ensures Ascending(redset) && forall r: nat :: r in redset <==> g.IsRule(r) && EndItem(g, r) in itemset
    {
      hide KernelLike, EndItem, RawGrammar.Valid;
      redset := [];
      var isp := 0;
      KernelLikePrefix(g, itemset, 0);
      CompletedNil(g);
      assert itemset[..0] == [] && itemset[..|itemset|] == itemset;
      while isp < |itemset|
        invariant isp <= |itemset| && KernelLike(g, itemset[..isp]) && CompletedBy(g, itemset[..isp], redset)
      {
        var front := itemset[..isp];
        assert itemset[..isp+1] == front + [itemset[isp]];
        KernelLikePrefix(g, itemset, isp + 1);
        KernelLikeFront(g, front, itemset[isp]);
        var item := g.ritem[itemset[isp]];
        if item < 0 {
          CompletedOne(g, front, itemset[isp], redset);
          redset := redset + [-item];
        } else {
          CompletedNone(g, front, itemset[isp], redset);
        }
        isp := isp + 1;
      }
    }

    /** A transition from state p for every collected kernel, by ascending symbol. */
    method AppendStates(p: nat, ghost items: seq<nat>) returns (shiftset: seq<nat>)
      requires Valid() && p < |kernels| && IsClosure(g, kernels[p], items)
      requires Collected(g, items, buffers.regions, buffers.symbols)
      requires RecordsOk(g, kernels, access, shifts, reds)
      modifies this`kernels, this`access, stateSet, buffers, buffers.shiftSymbol
      ensures Valid() && old(kernels) <= kernels && RecordsOk(g, kernels, access, shifts, reds)
      ensures ShiftRecord(g, kernels, access, p, shiftset)
      ensures forall q: nat :: |old(kernels)| <= q < |kernels| ==> q in shiftset
    {
      buffers.SortSymbols();
      SortedElements(g, old(buffers.symbols), buffers.symbols);
      shiftset := MakeShifts(p, items);
      ShiftsComplete(g, kernels, access, p, items, buffers.regions, buffers.symbols, shiftset);
    }

    /** The loop at the end of append_states. */
    method MakeShifts(p: nat, ghost items: seq<nat>) returns (shiftset: seq<nat>)
      requires Valid() && p < |kernels| && IsClosure(g, kernels[p], items)
      requires Collected(g, items, buffers.regions, buffers.symbols)
      requires RecordsOk(g, kernels, access, shifts, reds)
      modifies this`kernels, this`access, stateSet
      ensures Valid() && old(kernels) <= kernels && RecordsOk(g, kernels, access, shifts, reds)
      ensures ShiftsSoFar(g, kernels, access, items, buffers.symbols, shiftset) && |shiftset| == |buffers.symbols|
      ensures forall q: nat :: |old(kernels)| <= q < |kernels| ==> q in shiftset
    {
      shiftset := [];
      var i := 0;
      while i < buffers.nshifts
        invariant Valid() && p < |kernels| && IsClosure(g, kernels[p], items)
        invariant i == |shiftset| <= |buffers.symbols| && old(kernels) <= kernels
        invariant RecordsOk(g, kernels, access, shifts, reds)
        invariant ShiftsSoFar(g, kernels, access, items, buffers.symbols, shiftset)
        invariant forall q: nat :: |old(kernels)| <= q < |kernels| ==> q in shiftset
      {
        SymbolFacts(g, items, buffers.regions, buffers.symbols, i);
        hide RecordsOk, IsClosure, ShiftsSoFar, Collected, Cores;
        var q := NextShift(p, items, i, shiftset);
        shiftset := shiftset + [q];
        i := i + 1;
      }
    }

    /** One call of get_state. */
    method NextShift(p: nat, ghost items: seq<nat>, i: nat, ghost shift: seq<nat>) returns (q: nat)
      requires Valid() && p < |kernels| && IsClosure(g, kernels[p], items) && i < buffers.nshifts && i == |shift|
      requires buffers.symbols[i] < g.nsyms && buffers.symbols[i] > 0 && buffers.regions[buffers.symbols[i]] != []
      requires buffers.regions[buffers.symbols[i]] == Moved(g, items, buffers.symbols[i])
      requires RecordsOk(g, kernels, access, shifts, reds)
      requires ShiftsSoFar(g, kernels, access, items, buffers.symbols, shift)
      modifies this`kernels, this`access, stateSet
      ensures Valid() && old(kernels) <= kernels && |kernels| <= |old(kernels)| + 1
      ensures RecordsOk(g, kernels, access, shifts, reds)
      ensures ShiftsSoFar(g, kernels, access, items, buffers.symbols, shift + [q])
      ensures |kernels| > |old(kernels)| ==> q == |old(kernels)|
    {
      ghost var symbol, kernels0, access0 := buffers.symbols[i], kernels, access;
      ghost var kernel := buffers.regions[symbol];
      MovedIsKernel(g, kernels[p], items, symbol);
      assert kernel[0] in kernel;
      assert buffers.shiftSymbol[i] == buffers.shiftSymbol[..buffers.nshifts][i];
      q := GetState(buffers.shiftSymbol[i]);
      if kernels != kernels0 {
        RecordsGrow(g, kernels0, access0, shifts, reds, kernel, symbol);
      }
      ShiftsSoFarGrows(g, kernels0, access0, kernels, access, items, buffers.symbols, shift, q);
    }

    /** Work on state t: its closure, its reductions, its transitions. */
    method WorkOn(t: nat)
      requires Valid() && t < |kernels| && t == |shifts| && RecordsOk(g, kernels, access, shifts, reds)
      requires forall q: nat :: 1 <= q < |kernels| ==> HasParent(shifts, q)
      modifies this`kernels, this`access, this`shifts, this`reds, stateSet, ClosureRepr(), BufferRepr()
      ensures Valid() && RecordsOk(g, kernels, access, shifts, reds) && |shifts| == t + 1
      ensures forall q: nat :: 1 <= q < |kernels| ==> HasParent(shifts, q)
    {
      hide RecordsOk, HasParent, CoresOk, BucketsOk, IsClosure, Collected, EndItem, KernelLike, ReductionRecord, ShiftRecord,
        FirstDerivesTable, Regions, IsLr0, RawGrammar.Valid;
      KernelIsLike(g, kernels, access, t);
      closures.Closure(kernels[t]);
      ghost var items := closures.items;
      var itemset := closures.itemset[..closures.itemsetend];
      var redset := SaveReductions(itemset);
      CompletedRecord(g, kernels[t], items, redset);
      buffers.NewItemsets(itemset);
      ghost var kernels0 := kernels;
      var shiftset := AppendStates(t, items);
      assert kernels[t] == kernels0[t];
      ParentsGrow(kernels0, kernels, shifts, shiftset);
      KernelIsLike(g, kernels, access, t);
      RecordDone(g, kernels, access, shifts, reds, shiftset, redset);
      shifts, reds := shifts + [shiftset], reds + [redset];
    }

    /** The worklist loop: every state that is found is worked on, and there are finitely many. */
    method GenerateStates()
      requires Valid() && kernels == [[1]] && access == [0] && shifts == [] && reds == []
      modifies this`kernels, this`access, this`shifts, this`reds, stateSet, ClosureRepr(), BufferRepr()
      ensures Valid() && IsLr0(RawAutomaton(g, kernels, access, shifts, reds))
    {
      var thisState := 0;
      while thisState < |kernels|
        invariant Valid() && thisState == |shifts| <= |kernels| && RecordsOk(g, kernels, access, shifts, reds)
        invariant forall q: nat :: 1 <= q < |kernels| ==> HasParent(shifts, q)
        decreases Pow2(|g.ritem|) - thisState
      {
        KernelCount(g, kernels);
        WorkOn(thisState);
        thisState := thisState + 1;
        KernelCount(g, kernels);
      }
      RecordsAreLr0(RawAutomaton(g, kernels, access, shifts, reds));
    }
  }

  /** The tables of the generator for a grammar: derives, nullable and the automaton (jay/lr0.c, lr0). */
  method BuildAutomaton(g: Grammar) returns (derives: seq<seq<nat>>, nullable: array<bool>, a: Automaton)
    ensures DerivesOk(g, derives)
    ensures nullable.Length == g.nsyms && forall s :: 0 <= s < g.nsyms ==> (nullable[s] <==> Nullable(g, s))
    ensures a.g == g
  {
    derives := SetDerives(g);
    nullable := SetNullable(g);
    var generator := new Generator(g, derives);
    generator.GenerateStates();
    a := RawAutomaton(g, generator.kernels, generator.access, generator.shifts, generator.reds);
  }

  lemma ParentsGrow(kernels0: seq<seq<nat>>, kernels: seq<seq<nat>>, shifts: seq<seq<nat>>, shift: seq<nat>)
    requires |shifts| < |kernels0| && kernels0 <= kernels
    requires forall q: nat :: 1 <= q < |kernels0| ==> HasParent(shifts, q)
    requires forall q: nat :: |kernels0| <= q < |kernels| ==> q in shift
    ensures forall q: nat :: 1 <= q < |kernels| ==> HasParent(shifts + [shift], q)
  {
    var shifts' := shifts + [shift];
    forall q: nat | 1 <= q < |kernels| ensures HasParent(shifts', q) {
      if q < |kernels0| {
        assert HasParent(shifts, q);
        var p: nat :| p < q && p < |shifts| && q in shifts[p];
        assert shifts'[p] == shifts[p];
      } else {
        assert shifts'[|shifts|] == shift;
      }
    }
  }

  lemma RecordDone(g: Grammar, kernels: seq<seq<nat>>, access: seq<nat>, shifts: seq<seq<nat>>, reds: seq<seq<nat>>,
                   shift: seq<nat>, red: seq<nat>)
    requires |kernels| == |access| && RecordsOk(g, kernels, access, shifts, reds) && |shifts| < |kernels|
    requires ShiftRecord(g, kernels, access, |shifts|, shift) && ReductionRecord(g, kernels[|shifts|], red)
    ensures RecordsOk(g, kernels, access, shifts + [shift], reds + [red])
  {
    hide ShiftRecord, ReductionRecord;
  }

  lemma SortedElements(g: Grammar, symbols: seq<nat>, sorted: seq<nat>)
    requires Elements(sorted) == Elements(symbols)
    ensures forall s :: s in sorted <==> s in symbols
  {
    forall s ensures s in sorted <==> s in symbols {
      assert s in Elements(sorted) <==> s in Elements(symbols);
    }
  }

  lemma ShiftsSoFarGrows(g: Grammar, kernels0: seq<seq<nat>>, access0: seq<nat>, kernels: seq<seq<nat>>, access: seq<nat>,
                         items: seq<nat>, symbols: seq<nat>, shift: seq<nat>, q: nat)
    requires |kernels0| == |access0| && |kernels| == |access| && kernels0 <= kernels && access0 <= access
    requires ShiftsSoFar(g, kernels0, access0, items, symbols, shift) && |shift| < |symbols|
    requires ShiftMade(g, kernels, access, items, symbols[|shift|], q)
    ensures ShiftsSoFar(g, kernels, access, items, symbols, shift + [q])
  {
    forall k | 0 <= k < |shift| ensures ShiftMade(g, kernels, access, items, symbols[k], shift[k]) {
      assert ShiftMade(g, kernels0, access0, items, symbols[k], shift[k]);
    }
  }

  /** A kernel that no state in its bucket has is new. */
  lemma NotInBucket(g: Grammar, kernels: seq<seq<nat>>, access: seq<nat>, buckets: seq<seq<nat>>, kernel: seq<nat>)
    requires CoresOk(g, kernels, access) && BucketsOk(g, kernels, buckets)
    requires kernel != [] && 2 <= kernel[0] < |buckets|
    requires forall p :: p in buckets[kernel[0]] ==> p < |kernels| && kernels[p] != kernel
    ensures kernel !in kernels
  {
    forall p: nat | p < |kernels| ensures kernels[p] != kernel {
      assert p in buckets[kernel[0]] <==> InBucket(kernels, kernel[0], p);
    }
  }
}
