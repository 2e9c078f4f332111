/** The numbering of the nonterminal transitions (jay/lalr.c, set_goto_map and map_goto). */
module GotoMap {
  import opened Grammars
  import opened Automata
  import opened Lookaheads
  import opened Layout

  /** The transition on variable v out of state p, among the shifts from number i on, as a list of at most one. */
  ghost function Late(a: Automaton, p: nat, v: nat, i: nat): (late: seq<(nat, nat)>)
    requires p < |a.kernels|
    ensures |late| <= 1
    decreases |a.shifts[p]| - i
  {
    if i >= |a.shifts[p]| then []
    else if IsOn(a, a.shifts[p][i], v) then [(p, a.shifts[p][i])]
    else Late(a, p, v, i + 1)
  }

  ghost predicate IsOn(a: Automaton, q: nat, v: nat)
  {
    q < |a.access| && a.access[q] == a.g.ntokens + v
  }

  /** The transitions on variable v out of the states below n, by ascending state. */
  ghost function VarGotos(a: Automaton, v: nat, n: nat): seq<(nat, nat)>
    requires n <= |a.kernels|
  {
    if n == 0 then [] else VarGotos(a, v, n - 1) + Late(a, n - 1, v, 0)
  }

  lemma LateIsTrans(a: Automaton, p: nat, v: nat, i: nat, q: nat)
    requires p < |a.kernels| && (p, q) in Late(a, p, v, i)
    ensures Trans(a, p, a.g.ntokens + v, q)
    decreases |a.shifts[p]| - i
  {
    if i < |a.shifts[p]| && !IsOn(a, a.shifts[p][i], v) {
      LateIsTrans(a, p, v, i + 1, q);
    }
  }

  /** The successors of a state are on different symbols. */
  lemma IsOnOnce(a: Automaton, p: nat, v: nat, i: nat, k: nat)
    requires p < |a.kernels| && i < k < |a.shifts[p]|
    ensures !IsOn(a, a.shifts[p][i], v) || !IsOn(a, a.shifts[p][k], v)
  {
    assert ShiftsOk(a, p);
  }

  lemma {:induction false} TransIsLate(a: Automaton, p: nat, v: nat, i: nat, k: nat)
    requires p < |a.kernels| && i <= k < |a.shifts[p]| && IsOn(a, a.shifts[p][k], v)
    ensures Late(a, p, v, i) == [(p, a.shifts[p][k])]
    decreases |a.shifts[p]| - i
  {
    hide IsLr0;
    if i < k {
      IsOnOnce(a, p, v, i, k);
      TransIsLate(a, p, v, i + 1, k);
    }
  }

  lemma {:induction false} LateNone(a: Automaton, p: nat, v: nat, i: nat)
    requires p < |a.kernels| && forall k :: i <= k < |a.shifts[p]| ==> !IsOn(a, a.shifts[p][k], v)
    ensures Late(a, p, v, i) == []
    decreases |a.shifts[p]| - i
  {
    if i < |a.shifts[p]| {
      LateNone(a, p, v, i + 1);
    }
  }

  /** Shift i is on variable u: for u the list gets its entry now, for the others nothing changes. */
  lemma LateStep(a: Automaton, p: nat, v: nat, i: nat)
    requires p < |a.kernels| && i < |a.shifts[p]|
    ensures IsOn(a, a.shifts[p][i], v) ==> Late(a, p, v, i) == [(p, a.shifts[p][i])] && Late(a, p, v, i + 1) == []
    ensures !IsOn(a, a.shifts[p][i], v) ==> Late(a, p, v, i) == Late(a, p, v, i + 1)
  {
    if IsOn(a, a.shifts[p][i], v) {
      forall k | i + 1 <= k < |a.shifts[p]| ensures !IsOn(a, a.shifts[p][k], v) {
        IsOnOnce(a, p, v, i, k);
      }
      LateNone(a, p, v, i + 1);
    }
  }

  lemma LateSource(a: Automaton, p: nat, v: nat, i: nat)
    requires p < |a.kernels|
    ensures forall e :: e in Late(a, p, v, i) ==> e.0 == p
    decreases |a.shifts[p]| - i
  {
    if i < |a.shifts[p]| && !IsOn(a, a.shifts[p][i], v) {
      LateSource(a, p, v, i + 1);
    }
  }

  lemma TokensFirst(a: Automaton, p: nat, v: nat, i: nat, k: nat)
    requires p < |a.kernels| && k <= i < |a.shifts[p]| && !IsVarState(a, a.shifts[p][i])
    ensures !IsOn(a, a.shifts[p][k], v)
  {
    assert ShiftsOk(a, p);
  }

  /** State q is entered by a variable. */
  ghost predicate IsVarState(a: Automaton, q: nat)
  {
    q < |a.access| && a.access[q] >= a.g.ntokens
  }

  /** From the first token downwards there are only tokens: the early break loses no variable. */
  lemma {:induction false} LateBreak(a: Automaton, p: nat, v: nat, i: nat, j: nat)
    requires p < |a.kernels| && j <= i < |a.shifts[p]| && !IsVarState(a, a.shifts[p][i])
    ensures Late(a, p, v, j) == Late(a, p, v, i + 1)
    decreases i - j
  {
    hide IsLr0, IsOn, IsVarState;
    TokensFirst(a, p, v, i, j);
    LateStep(a, p, v, j);
    if j < i {
      LateBreak(a, p, v, i, j + 1);
    }
  }

  /** The transitions on v met so far: those of the states below p, and of p those from shift i on. */
  ghost function Met(a: Automaton, v: nat, p: nat, i: nat): seq<(nat, nat)>
    requires p < |a.kernels|
  {
    VarGotos(a, v, p) + Late(a, p, v, i)
  }

  lemma {:induction false} VarGotosGrow(a: Automaton, v: nat, m: nat, n: nat)
    requires m <= n <= |a.kernels|
    ensures |VarGotos(a, v, m)| <= |VarGotos(a, v, n)|
    decreases n
  {
    if m < n {
      VarGotosGrow(a, v, m, n - 1);
    }
  }

  /** There is room for the entry that shift i of state p adds to the list of its variable. */
  lemma MetRoom(a: Automaton, p: nat, i: nat, v: nat)
    requires p < |a.kernels| && i < |a.shifts[p]| && IsOn(a, a.shifts[p][i], v)
    ensures Met(a, v, p, i) == Met(a, v, p, i + 1) + [(p, a.shifts[p][i])]
    ensures |Met(a, v, p, i + 1)| < |VarGotos(a, v, |a.kernels|)|
  {
    LateStep(a, p, v, i);
    TransIsLate(a, p, v, 0, i);
    VarGotosGrow(a, v, p + 1, |a.kernels|);
  }

  lemma {:induction false} VarGotosAreTrans(a: Automaton, v: nat, n: nat, j: nat)
    requires n <= |a.kernels| && j < |VarGotos(a, v, n)|
    ensures VarGotos(a, v, n)[j].0 < n
    ensures Trans(a, VarGotos(a, v, n)[j].0, a.g.ntokens + v, VarGotos(a, v, n)[j].1)
    decreases n
  {
    if j < |VarGotos(a, v, n - 1)| {
      VarGotosAreTrans(a, v, n - 1, j);
    } else {
      var e := Late(a, n - 1, v, 0)[0];
      LateSource(a, n - 1, v, 0);
      assert e in Late(a, n - 1, v, 0);
      LateIsTrans(a, n - 1, v, 0, e.1);
    }
  }

  lemma {:induction false} VarGotosAscend(a: Automaton, v: nat, n: nat, j: nat, k: nat)
    requires n <= |a.kernels| && j < k < |VarGotos(a, v, n)|
    ensures VarGotos(a, v, n)[j].0 < VarGotos(a, v, n)[k].0
    decreases n
  {
    if k < |VarGotos(a, v, n - 1)| {
      VarGotosAscend(a, v, n - 1, j, k);
    } else {
      VarGotosAreTrans(a, v, n - 1, j);
      LateSource(a, n - 1, v, 0);
      assert VarGotos(a, v, n)[k] in Late(a, n - 1, v, 0);
    }
  }

  lemma {:induction false} TransIsVarGoto(a: Automaton, v: nat, n: nat, p: nat, q: nat) returns (j: nat)
    requires p < n <= |a.kernels| && Trans(a, p, a.g.ntokens + v, q)
    ensures j < |VarGotos(a, v, n)| && VarGotos(a, v, n)[j] == (p, q)
    decreases n
  {
    if p < n - 1 {
      j := TransIsVarGoto(a, v, n - 1, p, q);
    } else {
      var k :| 0 <= k < |a.shifts[p]| && a.shifts[p][k] == q;
      TransIsLate(a, p, v, 0, k);
      j := |VarGotos(a, v, n - 1)|;
    }
  }

  // ---------------------------------------------------------------------------------
  // The tables.

  function Nvars(g: Grammar): nat
  {
    g.nsyms - g.ntokens
  }

  /** The nonterminal transitions out of the states below n, by variable. */
  ghost function GotosBelow(a: Automaton, n: nat): (lists: seq<seq<(nat, nat)>>)
    requires n <= |a.kernels|
    ensures |lists| == Nvars(a.g)
  {
    seq(Nvars(a.g), (v: nat) requires n <= |a.kernels| => VarGotos(a, v, n))
  }

  ghost function MetGotos(a: Automaton, p: nat, i: nat): (lists: seq<seq<(nat, nat)>>)
    requires p < |a.kernels|
    ensures |lists| == Nvars(a.g)
  {
    seq(Nvars(a.g), (v: nat) requires p < |a.kernels| => Met(a, v, p, i))
  }

  ghost function Counts(a: Automaton, n: nat): (counts: seq<nat>)
    requires n <= |a.kernels|
    ensures |counts| == Nvars(a.g)
  {
    seq(Nvars(a.g), (v: nat) requires n <= |a.kernels| => |VarGotos(a, v, n)|)
  }

  ghost function MetCounts(a: Automaton, p: nat, i: nat): (counts: seq<nat>)
    requires p < |a.kernels|
    ensures |counts| == Nvars(a.g)
  {
    seq(Nvars(a.g), (v: nat) requires p < |a.kernels| => |Met(a, v, p, i)|)
  }

  lemma SameSizes(a: Automaton)
    ensures |a.kernels| == |a.access| == |a.shifts| == |a.reds| > 0
    ensures 0 < Nvars(a.g) && a.g.ntokens > 0
  {
  }

  lemma MetAll(a: Automaton, p: nat)
    requires p < |a.kernels|
    ensures MetCounts(a, p, |a.shifts[p]|) == Counts(a, p) && MetCounts(a, p, 0) == Counts(a, p + 1)
    ensures MetGotos(a, p, |a.shifts[p]|) == GotosBelow(a, p) && MetGotos(a, p, 0) == GotosBelow(a, p + 1)
  {
    forall v: nat ensures Met(a, v, p, |a.shifts[p]|) == VarGotos(a, v, p) {
      assert VarGotos(a, v, p) + [] == VarGotos(a, v, p);
    }
  }

  /** Shift i of a state is on a variable: that variable's list is the one that grows. */
  lemma MetStep(a: Automaton, p: nat, i: nat)
    requires p < |a.kernels| && i < |a.shifts[p]| && IsVarState(a, a.shifts[p][i])
    ensures a.access[a.shifts[p][i]] - a.g.ntokens < Nvars(a.g)
    ensures var v: nat := a.access[a.shifts[p][i]] - a.g.ntokens; var e := (p, a.shifts[p][i]);
            && MetGotos(a, p, i + 1)[v] == Met(a, v, p, i + 1)
            && MetGotos(a, p, i) == MetGotos(a, p, i + 1)[v := Met(a, v, p, i + 1) + [e]]
            && MetCounts(a, p, i + 1)[v] == |Met(a, v, p, i + 1)|
            && MetCounts(a, p, i) == MetCounts(a, p, i + 1)[v := |Met(a, v, p, i + 1)| + 1]
            && |Met(a, v, p, i + 1)| < |VarGotos(a, v, |a.kernels|)|
  {
    hide IsLr0;
    SameSizes(a);
    SymbolInGrammar(a, p, i);
    var v: nat := a.access[a.shifts[p][i]] - a.g.ntokens;
    MetRoom(a, p, i, v);
    forall u: nat | u < Nvars(a.g) && u != v ensures Met(a, u, p, i) == Met(a, u, p, i + 1) {
      LateStep(a, p, u, i);
    }
  }

  /** Shift i of a state is on a token: the lists are complete for this state. */
  lemma MetBreak(a: Automaton, p: nat, i: nat)
    requires p < |a.kernels| && i < |a.shifts[p]| && !IsVarState(a, a.shifts[p][i])
    ensures MetGotos(a, p, 0) == MetGotos(a, p, i + 1) && MetCounts(a, p, 0) == MetCounts(a, p, i + 1)
  {
    forall u: nat | u < Nvars(a.g) ensures Met(a, u, p, 0) == Met(a, u, p, i + 1) {
      LateBreak(a, p, u, i, 0);
    }
  }

  lemma SymbolInGrammar(a: Automaton, p: nat, i: nat)
    requires p < |a.kernels| && i < |a.shifts[p]|
    ensures 0 < a.shifts[p][i] < |a.access| && 0 < a.access[a.shifts[p][i]] < a.g.nsyms
  {
    assert ShiftsOk(a, p);
    var q := a.shifts[p][i];
    var x := a.kernels[q][0];
    KernelBack(a, p, a.access[q], q, x);
    SymbolBelow(a.g, x - 1);
  }

  lemma SymbolBelow(g: Grammar, i: nat)
    requires i < |g.ritem|
    ensures g.ritem[i] < g.nsyms
  {
    if i > 0 {
      var r := RuleOfItem(g, i);
      RuleShape(g, r);
      EndOfRule(g, r, i);
    }
  }

  /** The counting pass over one shift record. */
  method CountRecord(a: Automaton, p: nat, gotoMap: array<nat>, ngotos0: nat) returns (ngotos: nat)
    requires p < |a.kernels| && gotoMap.Length == Nvars(a.g) + 1
    requires gotoMap[..Nvars(a.g)] == Counts(a, p) && ngotos0 == Starts(Counts(a, p), Nvars(a.g))
    modifies gotoMap
    ensures gotoMap[..Nvars(a.g)] == Counts(a, p + 1) && ngotos == Starts(Counts(a, p + 1), Nvars(a.g))
  {
    hide IsLr0, RawGrammar.Valid, Counts, MetCounts, MetGotos, VarGotos, Met, Starts, Nvars;
    SameSizes(a);
    MetAll(a, p);
    ngotos := ngotos0;
    var shift := a.shifts[p];
    var i: nat := |shift|;
    while i > 0
      invariant i <= |shift| && gotoMap[..Nvars(a.g)] == MetCounts(a, p, i)
      invariant ngotos == Starts(MetCounts(a, p, i), Nvars(a.g))
    {
      SymbolInGrammar(a, p, i - 1);
      var symbol := a.access[shift[i - 1]];
      if symbol < a.g.ntokens {
        MetBreak(a, p, i - 1);
        break;
      }
      MetStep(a, p, i - 1);
      ngotos := ngotos + 1;
      StartsAdd(MetCounts(a, p, i), symbol - a.g.ntokens, Nvars(a.g));
      gotoMap[symbol - a.g.ntokens] := gotoMap[symbol - a.g.ntokens] + 1;
      i := i - 1;
    }
  }

  /** The second prefix of the tables: temp_map says where the next entry of each list goes. */
  ghost predicate Filled(gotoMap: seq<nat>, tempMap: seq<nat>, fromState: seq<nat>, toState: seq<nat>,
                         lists: seq<seq<(nat, nat)>>)
  {
    && |fromState| == |toState| && |tempMap| == |lists| + 1
    && Laid(Pairs(fromState, toState), gotoMap, lists)
    && forall v :: 0 <= v < |lists| ==> tempMap[v] == gotoMap[v] + |lists[v]|
  }

  ghost function Pairs(fromState: seq<nat>, toState: seq<nat>): (pairs: seq<(nat, nat)>)
    requires |fromState| == |toState|
    ensures |pairs| == |fromState|
  {
    seq(|fromState|, i requires 0 <= i < |fromState| == |toState| => (fromState[i], toState[i]))
  }

  lemma FilledPush(gotoMap: seq<nat>, tempMap: seq<nat>, fromState: seq<nat>, toState: seq<nat>,
                   lists: seq<seq<(nat, nat)>>, v: nat, state1: nat, state2: nat)
    requires Filled(gotoMap, tempMap, fromState, toState, lists)
    requires v < |lists| && gotoMap[v] + |lists[v]| < gotoMap[v+1]
    ensures var k := tempMap[v];
            && k < |fromState|
            && Filled(gotoMap, tempMap[v := k + 1], fromState[k := state1], toState[k := state2],
                      lists[v := lists[v] + [(state1, state2)]])
  {
    LaidPush(Pairs(fromState, toState), gotoMap, lists, v, (state1, state2));
    var k := tempMap[v];
    assert Pairs(fromState[k := state1], toState[k := state2]) == Pairs(fromState, toState)[k := (state1, state2)];
  }

  /** The lists start one behind the other with room for all transitions of each variable. */
  ghost predicate Based(a: Automaton, gotoMap: seq<nat>)
  {
    && |gotoMap| == Nvars(a.g) + 1
    && forall v :: 0 <= v <= Nvars(a.g) ==> gotoMap[v] == Starts(Counts(a, |a.kernels|), v)
  }

  lemma BasedRoom(a: Automaton, gotoMap: seq<nat>, v: nat)
    requires Based(a, gotoMap) && v < Nvars(a.g)
    ensures |gotoMap| == Nvars(a.g) + 1 && gotoMap[v+1] == gotoMap[v] + |VarGotos(a, v, |a.kernels|)|
  {
  }

  /** The filling pass over one shift record. */
  method FillRecord(a: Automaton, p: nat, gotoMap: seq<nat>, tempMap: array<nat>, fromState: array<nat>, toState: array<nat>)
    requires p < |a.kernels| && Based(a, gotoMap)
    requires tempMap != fromState && tempMap != toState && fromState != toState
    requires Filled(gotoMap, tempMap[..], fromState[..], toState[..], GotosBelow(a, p))
    modifies tempMap, fromState, toState
    ensures Filled(gotoMap, tempMap[..], fromState[..], toState[..], GotosBelow(a, p + 1))
  {
    hide IsLr0, RawGrammar.Valid, GotosBelow, MetGotos, MetCounts, Counts, VarGotos, Met, Filled, Based, Nvars;
    SameSizes(a);
    MetAll(a, p);
    var shift := a.shifts[p];
    var i: nat := |shift|;
    while i > 0
      invariant i <= |shift|
      invariant Filled(gotoMap, tempMap[..], fromState[..], toState[..], MetGotos(a, p, i))
    {
      SymbolInGrammar(a, p, i - 1);
      var state2 := shift[i - 1];
      var symbol := a.access[state2];
      if symbol < a.g.ntokens {
        MetBreak(a, p, i - 1);
        break;
      }
      i := i - 1;
      FillShift(a, p, i, symbol - a.g.ntokens, gotoMap, tempMap, fromState, toState);
    }
  }

  /** The entry for one shift on a variable. */
  method FillShift(a: Automaton, p: nat, i: nat, v: nat, gotoMap: seq<nat>, tempMap: array<nat>, fromState: array<nat>,
                   toState: array<nat>)
    requires p < |a.kernels| == |a.shifts| && i < |a.shifts[p]| && IsVarState(a, a.shifts[p][i])
    requires a.shifts[p][i] < |a.access| && v == a.access[a.shifts[p][i]] - a.g.ntokens && Based(a, gotoMap)
    requires tempMap != fromState && tempMap != toState && fromState != toState
    requires Filled(gotoMap, tempMap[..], fromState[..], toState[..], MetGotos(a, p, i + 1))
    modifies tempMap, fromState, toState
    ensures Filled(gotoMap, tempMap[..], fromState[..], toState[..], MetGotos(a, p, i))
  {
    hide IsLr0, RawGrammar.Valid, MetGotos, MetCounts, VarGotos, Met, Filled, Based, Nvars;
    MetStep(a, p, i);
    BasedRoom(a, gotoMap, v);
    FilledSizes(gotoMap, tempMap[..], fromState[..], toState[..], MetGotos(a, p, i + 1));
    FilledPush(gotoMap, tempMap[..], fromState[..], toState[..], MetGotos(a, p, i + 1), v, p, a.shifts[p][i]);
    var k := tempMap[v];
    tempMap[v] := k + 1;
    fromState[k] := p;
    toState[k] := a.shifts[p][i];
  }

  lemma FilledSizes(gotoMap: seq<nat>, tempMap: seq<nat>, fromState: seq<nat>, toState: seq<nat>,
                    lists: seq<seq<(nat, nat)>>)
    requires Filled(gotoMap, tempMap, fromState, toState, lists)
    ensures |fromState| == |toState| && |tempMap| == |lists| + 1 == |gotoMap|
  {
  }

  /** goto_map[v]..goto_map[v+1] holds exactly the transitions on variable v, by ascending state. */
  ghost predicate IsGotoMap(a: Automaton, gotoMap: seq<nat>, fromState: seq<nat>, toState: seq<nat>)
  {
    && Based(a, gotoMap) && |fromState| == |toState|
    && Laid(Pairs(fromState, toState), gotoMap, GotosBelow(a, |a.kernels|))
  }

  lemma NoGotosYet(a: Automaton)
    ensures Counts(a, 0) == seq(Nvars(a.g), _ => 0)
    ensures GotosBelow(a, 0) == seq(Nvars(a.g), _ => [])
    ensures Starts(Counts(a, 0), Nvars(a.g)) == 0
  {
    StartsZero(Counts(a, 0), Nvars(a.g));
  }

  method CountGotos(a: Automaton, gotoMap: array<nat>) returns (ngotos: nat)
    requires gotoMap.Length == Nvars(a.g) + 1 && gotoMap[..Nvars(a.g)] == Counts(a, 0)
    modifies gotoMap
    ensures gotoMap[..Nvars(a.g)] == Counts(a, |a.kernels|)
    ensures ngotos == Starts(Counts(a, |a.kernels|), Nvars(a.g))
  {
    hide IsLr0, RawGrammar.Valid, Counts, Starts, Nvars;
    SameSizes(a);
    NoGotosYet(a);
    ngotos := 0;
    var p: nat := 0;
    while p < |a.kernels|
      invariant p <= |a.kernels| && gotoMap[..Nvars(a.g)] == Counts(a, p)
      invariant ngotos == Starts(Counts(a, p), Nvars(a.g))
    {
      ngotos := CountRecord(a, p, gotoMap, ngotos);
      p := p + 1;
    }
  }

  lemma BasedStart(a: Automaton, bases: seq<nat>, ngotos: nat, zeros: seq<nat>)
    requires |bases| == Nvars(a.g) && forall v :: 0 <= v < |bases| ==> bases[v] == Starts(Counts(a, |a.kernels|), v)
    requires ngotos == Starts(Counts(a, |a.kernels|), Nvars(a.g)) == |zeros|
    ensures Based(a, bases + [ngotos])
    ensures Filled(bases + [ngotos], bases + [ngotos], zeros, zeros, GotosBelow(a, 0))
  {
    NoGotosYet(a);
    LaidEmpty(Pairs(zeros, zeros), bases + [ngotos], Counts(a, |a.kernels|), GotosBelow(a, 0));
  }

  lemma FilledIsMap(a: Automaton, gotoMap: seq<nat>, tempMap: seq<nat>, fromState: seq<nat>, toState: seq<nat>)
    requires Based(a, gotoMap) && Filled(gotoMap, tempMap, fromState, toState, GotosBelow(a, |a.kernels|))
    ensures IsGotoMap(a, gotoMap, fromState, toState)
  {
  }

  method SetGotoMap(a: Automaton) returns (gotoMap: seq<nat>, fromState: seq<nat>, toState: seq<nat>)
    ensures IsGotoMap(a, gotoMap, fromState, toState)
  {
    hide IsLr0, RawGrammar.Valid, Counts, GotosBelow, Starts, Nvars, Filled, Based, IsGotoMap;
    SameSizes(a);
    NoGotosYet(a);
    var nvars := Nvars(a.g);
    var counts := new nat[nvars + 1](_ => 0);
    assert counts[..nvars] == seq(nvars, _ => 0);
    var ngotos := CountGotos(a, counts);
    var bases := PlaceLists(counts[..nvars]);
    gotoMap := bases + [ngotos];
    var tempMap := new nat[nvars + 1](i requires 0 <= i < |gotoMap| => gotoMap[i]);
    assert tempMap[..] == gotoMap;
    var fromArray := new nat[ngotos](_ => 0);
    var toArray := new nat[ngotos](_ => 0);
    BasedStart(a, bases, ngotos, fromArray[..]);
    assert fromArray[..] == toArray[..];
    var p: nat := 0;
    while p < |a.kernels|
      invariant p <= |a.kernels|
      invariant Filled(gotoMap, tempMap[..], fromArray[..], toArray[..], GotosBelow(a, p))
    {
      FillRecord(a, p, gotoMap, tempMap, fromArray, toArray);
      p := p + 1;
    }
    FilledIsMap(a, gotoMap, tempMap[..], fromArray[..], toArray[..]);
    fromState, toState := fromArray[..], toArray[..];
  }

  // ---------------------------------------------------------------------------------
  // What the tables are good for.

  /** Every number between goto_map[v] and goto_map[v+1] is a transition on variable v. */
  lemma MapEntry(a: Automaton, gotoMap: seq<nat>, fromState: seq<nat>, toState: seq<nat>, v: nat, i: nat)
    requires IsGotoMap(a, gotoMap, fromState, toState)
    requires v < Nvars(a.g) && |gotoMap| == Nvars(a.g) + 1 && gotoMap[v] <= i < gotoMap[v+1]
    ensures i < |fromState| == |toState|
    ensures Trans(a, fromState[i], a.g.ntokens + v, toState[i])
    ensures forall k :: gotoMap[v] <= k < i ==> fromState[k] < fromState[i]
  {
    hide IsLr0, RawGrammar.Valid, VarGotos, Based, Laid;
    SameSizes(a);
    BasedRoom(a, gotoMap, v);
    var lists, n := GotosBelow(a, |a.kernels|), |a.kernels|;
    LaidAt(Pairs(fromState, toState), gotoMap, lists, v, i - gotoMap[v]);
    VarGotosAreTrans(a, v, n, i - gotoMap[v]);
    forall k | gotoMap[v] <= k < i ensures fromState[k] < fromState[i] {
      LaidAt(Pairs(fromState, toState), gotoMap, lists, v, k - gotoMap[v]);
      VarGotosAscend(a, v, n, k - gotoMap[v], i - gotoMap[v]);
    }
  }

  /** Every transition on variable v has its number there. */
  lemma MapHas(a: Automaton, gotoMap: seq<nat>, fromState: seq<nat>, toState: seq<nat>, v: nat, p: nat,
               q: nat) returns (i: nat)
    requires IsGotoMap(a, gotoMap, fromState, toState) && Trans(a, p, a.g.ntokens + v, q)
    ensures v < Nvars(a.g) && |gotoMap| == Nvars(a.g) + 1 && gotoMap[v] <= i < gotoMap[v+1]
    ensures i < |fromState| == |toState| && fromState[i] == p && toState[i] == q
  {
    hide IsLr0, RawGrammar.Valid, VarGotos, Based, Laid, Trans;
    SameSizes(a);
    TransSymbol(a, p, a.g.ntokens + v, q);
    var j := TransIsVarGoto(a, v, |a.kernels|, p, q);
    BasedRoom(a, gotoMap, v);
    LaidAt(Pairs(fromState, toState), gotoMap, GotosBelow(a, |a.kernels|), v, j);
    i := gotoMap[v] + j;
  }

  lemma TransSymbol(a: Automaton, p: nat, symbol: nat, q: nat)
    requires Trans(a, p, symbol, q)
    ensures 0 < symbol < a.g.nsyms && p < |a.kernels| && 0 < q < |a.kernels|
  {
    var k: nat :| 0 <= k < |a.shifts[p]| && a.shifts[p][k] == q;
    SymbolInGrammar(a, p, k);
  }

  /** The binary search. The transition exists at every call, so that low never passes high. */
  method MapGoto(a: Automaton, gotoMap: seq<nat>, fromState: seq<nat>, ghost toState: seq<nat>,
                  state: nat, symbol: nat, ghost target: nat) returns (middle: nat)
    requires IsGotoMap(a, gotoMap, fromState, toState)
    requires a.g.IsVar(symbol) && Trans(a, state, symbol, target)
    ensures middle < |fromState| == |toState| && fromState[middle] == state && toState[middle] == target
  {
    hide IsLr0, RawGrammar.Valid, IsGotoMap, Trans;
    var v: nat := symbol - a.g.ntokens;
    ghost var i := MapHas(a, gotoMap, fromState, toState, v, state, target);
    var low: int := gotoMap[v];
    var high: int := gotoMap[v+1];
    while true
      invariant gotoMap[v] <= low <= i <= high <= gotoMap[v+1]
      decreases high - low
    {
      middle := (low + high) / 2;
      if middle < gotoMap[v+1] {
        MapEntry(a, gotoMap, fromState, toState, v, middle);
      }
      MapEntry(a, gotoMap, fromState, toState, v, i);
      var s := fromState[middle];
      if s == state {
        return;
      } else if s < state {
        low := middle + 1;
      } else {
        high := middle - 1;
      }
    }
  }

  // ---------------------------------------------------------------------------------

  lemma MapOwner(a: Automaton, gotoMap: seq<nat>, fromState: seq<nat>, toState: seq<nat>, k: nat) returns (v: nat)
    requires IsGotoMap(a, gotoMap, fromState, toState) && k < |fromState|
    ensures v < Nvars(a.g) && |gotoMap| == Nvars(a.g) + 1 && gotoMap[v] <= k < gotoMap[v+1]
    ensures GotoOk(a, Gotos(fromState, toState), k)
    ensures Symbol(a, Gotos(fromState, toState), k) == a.g.ntokens + v
  {
    hide IsLr0, RawGrammar.Valid, VarGotos, Counts;
    SameSizes(a);
    StartsFirst(Counts(a, |a.kernels|));
    v := LaidOwner(Pairs(fromState, toState), gotoMap, GotosBelow(a, |a.kernels|), k);
    MapEntry(a, gotoMap, fromState, toState, v, k);
  }

  lemma MapDistinct(a: Automaton, gotoMap: seq<nat>, fromState: seq<nat>, toState: seq<nat>, k: nat, l: nat)
    requires IsGotoMap(a, gotoMap, fromState, toState) && k < l < |fromState| == |toState|
    ensures fromState[k] != fromState[l] || toState[k] != toState[l]
  {
    hide IsLr0, RawGrammar.Valid, IsGotoMap;
    var v := MapOwner(a, gotoMap, fromState, toState, k);
    var w := MapOwner(a, gotoMap, fromState, toState, l);
    if v == w {
      MapEntry(a, gotoMap, fromState, toState, v, l);
    }
  }

  /** No transition is on $accept: it occurs on no right-hand side. */
  lemma NoAcceptGoto(a: Automaton, gotoMap: seq<nat>, fromState: seq<nat>, toState: seq<nat>)
    requires IsGotoMap(a, gotoMap, fromState, toState)
    ensures Nvars(a.g) >= 2 && |gotoMap| == Nvars(a.g) + 1 && gotoMap[0] == gotoMap[1] == 0
  {
    hide IsLr0, VarGotos, Counts, Laid;
    SameSizes(a);
    StartsFirst(Counts(a, |a.kernels|));
    BasedRoom(a, gotoMap, 0);
    if gotoMap[1] > 0 {
      MapEntry(a, gotoMap, fromState, toState, 0, 0);
      NoAccept(a, fromState[0], toState[0]);
    }
  }

  lemma NoAccept(a: Automaton, p: nat, q: nat)
    ensures !Trans(a, p, a.g.ntokens, q)
  {
    if Trans(a, p, a.g.ntokens, q) {
      TransSymbol(a, p, a.g.ntokens, q);
      assert ShiftsOk(a, p);
      var i := a.kernels[q][0];
      KernelBack(a, p, a.g.ntokens, q, i);
      NotAccept(a.g, i - 1);
    }
  }

  lemma NotAccept(g: Grammar, i: nat)
    requires i < |g.ritem|
    ensures g.ritem[i] != g.ntokens
  {
    if i > 0 {
      var r := RuleOfItem(g, i);
      RuleShape(g, r);
      EndOfRule(g, r, i);
      if r >= 3 { assert g.UserRule(r); }
    }
  }

  /** The start state has a transition on the goal. */
  lemma GoalTrans(a: Automaton) returns (q: nat)
    ensures Trans(a, 0, a.g.ntokens + 1, q)
  {
    KernelInClosure(a.g, a.kernels[0], 1);
    MoveItem(a, 0, 1);
    q :| Trans(a, 0, a.g.ntokens + 1, q);
  }

  lemma GotoZero(a: Automaton, gotoMap: seq<nat>, fromState: seq<nat>, toState: seq<nat>)
    requires IsGotoMap(a, gotoMap, fromState, toState)
    ensures |fromState| == |toState| > 0 && fromState[0] == 0
    ensures Symbol(a, Gotos(fromState, toState), 0) == a.g.ntokens + 1
  {
    hide IsLr0, RawGrammar.Valid, IsGotoMap;
    NoAcceptGoto(a, gotoMap, fromState, toState);
    var q := GoalTrans(a);
    var i := MapHas(a, gotoMap, fromState, toState, 1, 0, q);
    MapEntry(a, gotoMap, fromState, toState, 1, i);
    assert fromState[0] <= fromState[i];
  }

  /** set_goto_map numbers all nonterminal transitions, each once, and the one on the goal is number 0. */
  lemma GotoMapIsGotos(a: Automaton, gotoMap: seq<nat>, fromState: seq<nat>, toState: seq<nat>)
    requires IsGotoMap(a, gotoMap, fromState, toState)
    ensures IsGotos(a, Gotos(fromState, toState))
  {
    hide IsLr0, RawGrammar.Valid, IsGotoMap, GotoOk, Trans, Symbol;
    var gt := Gotos(fromState, toState);
    GotoZero(a, gotoMap, fromState, toState);
    forall k: nat | k < |gt.to| ensures GotoOk(a, gt, k) {
      var v := MapOwner(a, gotoMap, fromState, toState, k);
    }
    forall p: nat, s: nat, q: nat | Trans(a, p, s, q) && a.g.IsVar(s) ensures exists k: nat :: IsGotoOf(gt, k, p, q) {
      var k := MapHas(a, gotoMap, fromState, toState, s - a.g.ntokens, p, q);
      assert IsGotoOf(gt, k, p, q);
    }
    forall k: nat, l: nat | k < l < |gt.to| ensures gt.from[k] != gt.from[l] || gt.to[k] != gt.to[l] {
      MapDistinct(a, gotoMap, fromState, toState, k, l);
    }
  }
}
