/** Virtual tables (container.l, buildClassTables and emitClassTables). */
module Vtables {
  import I = Interfaces

  /** Slots 0 and 1 hold the parent's table and the type table. */
  const FIRST_SLOT: nat := 2
  const IMPLEMENTS_OFFSET: nat := 3
  const SELECTOR_ID_METHOD_TABLE_OFFSET: nat := 4

  /** The members of a class and its ancestors, the root class first. */
  type Levels = seq<seq<I.Method>>

  /** No class has two methods with one signature, and no override is static where the overridden method is not, or the
      other way round. */
  ghost predicate LevelsOk(levels: Levels)
  {
    && (forall k, i, j :: 0 <= k < |levels| && 0 <= i < j < |levels[k]| ==> levels[k][i].sig != levels[k][j].sig)
    && (forall k, l, i, j :: 0 <= k < |levels| && 0 <= l < |levels| && 0 <= i < |levels[k]| && 0 <= j < |levels[l]| ==>
          levels[k][i].sig == levels[l][j].sig ==> levels[k][i].isStatic == levels[l][j].isStatic)
  }

  ghost predicate Has(levels: Levels, k: nat, i: nat, sig: nat)
  {
    k < |levels| && i < |levels[k]| && levels[k][i].sig == sig
  }

  ghost predicate HasSome(levels: Levels, k: nat, sig: nat)
  {
    exists i: nat :: Has(levels, k, i, sig)
  }

  /** Member i of level k is the first with its signature: it overrides nothing. */
  ghost predicate Introduced(levels: Levels, k: nat, i: nat)
  {
    && k < |levels| && i < |levels[k]|
    && forall l: nat :: l < k ==> !HasSome(levels, l, levels[k][i].sig)
  }

  /** The search for a method: the class at level k first, then its ancestors. */
  method FindMethod(levels: Levels, k: nat, sig: nat) returns (found: bool, l: nat, i: nat)
    requires k < |levels|
    ensures found ==> l <= k && Has(levels, l, i, sig) && forall m: nat :: l < m <= k ==> !HasSome(levels, m, sig)
    ensures !found ==> forall m: nat :: m <= k ==> !HasSome(levels, m, sig)
  {
    l, i := k, 0;
    while true
      invariant l <= k && forall m: nat :: l < m <= k ==> !HasSome(levels, m, sig)
      decreases l
    {
      i := 0;
      while i < |levels[l]|
        invariant i <= |levels[l]| && forall j: nat :: j < i ==> !Has(levels, l, j, sig)
      {
        if levels[l][i].sig == sig {
          found := true;
          return;
        }
        i := i + 1;
      }
      if l == 0 {
        found := false;
        return;
      }
      l := l - 1;
    }
  }

  // ---------------------------------------------------------------------------------
  // The layout.

  /** The member gets a slot of its own. */
  ghost predicate Fresh(levels: Levels, k: nat, i: nat)
  {
    Introduced(levels, k, i) && !levels[k][i].isStatic
  }

  /** How many slots the members before member i of level k take. */
  ghost function Before(levels: Levels, k: nat, i: nat): nat
    decreases k, i
  {
    if i > 0 then Before(levels, k, i - 1) + (if Fresh(levels, k, i - 1) then 1 else 0)
    else if k > 0 then Before(levels, k - 1, if k <= |levels| then |levels[k-1]| else 0)
    else 0
  }

  /** The slot of a signature: that of the member that introduces it. */
  ghost predicate IsAddress(levels: Levels, k: nat, i: nat, address: int)
  {
    && k < |levels| && i < |levels[k]|
    && if levels[k][i].isStatic then address == -1
       else exists l: nat, j: nat :: Introduces(levels, l, j, levels[k][i].sig) && l <= k && address == FIRST_SLOT + Before(levels, l, j)
  }

  ghost predicate Introduces(levels: Levels, l: nat, j: nat, sig: nat)
  {
    Introduced(levels, l, j) && levels[l][j].sig == sig
  }

  lemma IntroducedOnce(levels: Levels, l: nat, j: nat, l': nat, j': nat, sig: nat)
    requires LevelsOk(levels) && Introduces(levels, l, j, sig) && Introduces(levels, l', j', sig)
    ensures l == l' && j == j'
  {
    assert Has(levels, l, j, sig) && Has(levels, l', j', sig);
    assert HasSome(levels, l, sig) && HasSome(levels, l', sig);
  }

  datatype Layout = Layout(address: seq<seq<int>>, override: seq<seq<int>>)

  /** What buildClassTables records for the members before member i of level k: the address of each, and the level of
      the method that it overrides in the end, or -1. */
  ghost predicate LaidOut(levels: Levels, k: nat, i: nat, t: Layout)
  {
    && |t.address| == |t.override| && k <= |levels|
    && |t.address| == (if k < |levels| then k + 1 else k)
    && (forall l: nat :: l < k ==> |t.address[l]| == |t.override[l]| == |levels[l]|)
    && (k < |levels| ==> i <= |levels[k]| && |t.address[k]| == |t.override[k]| == i)
    && (forall l: nat, j: nat :: l < |t.address| && j < |t.address[l]| ==> MemberOk(levels, l, j, t.address[l][j], t.override[l][j]))
  }

  ghost predicate MemberOk(levels: Levels, l: nat, j: nat, address: int, override: int)
  {
    && IsAddress(levels, l, j, address)
    && if Introduced(levels, l, j) then override == -1
       else 0 <= override < l && exists m: nat :: Introduces(levels, override, m, levels[l][j].sig)
  }

  /** The topmost method that a method found at level l overrides. */
  method Topmost(levels: Levels, l0: nat, j0: nat, sig: nat) returns (l: nat, j: nat)
    requires l0 < |levels| && Has(levels, l0, j0, sig)
    ensures l <= l0 && Introduces(levels, l, j, sig)
  {
    l, j := l0, j0;
    while l > 0
      invariant l <= l0 && Has(levels, l, j, sig)
      decreases l
    {
      var found, l1, j1 := FindMethod(levels, l - 1, sig);
      if !found {
        return;
      }
      l, j := l1, j1;
    }
  }

  /** container.l, buildClassTables, for one method. */
  method PlaceMethod(levels: Levels, k: nat, i: nat, t: Layout, vtableOffset: nat)
      returns (address: int, override: int, offset: nat)
    requires LevelsOk(levels) && k < |levels| && i < |levels[k]| && LaidOut(levels, k, i, t)
    requires vtableOffset == FIRST_SLOT + Before(levels, k, i)
    ensures MemberOk(levels, k, i, address, override) && offset == FIRST_SLOT + Before(levels, k, i + 1)
  {
    hide LevelsOk, Before;
    BeforeNext(levels, k, i);
    var m := levels[k][i];
    offset := vtableOffset;
    var found, l, j := false, 0, 0;
    if k > 0 {
      found, l, j := FindMethod(levels, k - 1, m.sig);
    }
    if !found {
      assert Introduced(levels, k, i);
      override := -1;
      address := -1;
      if !m.isStatic {
        assert Introduces(levels, k, i, m.sig);
        address := vtableOffset;
        offset := offset + 1;
      }
    } else {
      assert HasSome(levels, l, m.sig);
      l, j := Topmost(levels, l, j, m.sig);
      override := l;
      Inherited(levels, k, i, l, j, t);
      address := if m.isStatic then -1 else t.address[l][j];
    }
  }

  lemma BeforeNext(levels: Levels, k: nat, i: nat)
    ensures Before(levels, k, i + 1) == Before(levels, k, i) + if Fresh(levels, k, i) then 1 else 0
  {
  }

  /** An override takes over the slot of the topmost method. */
  lemma Inherited(levels: Levels, k: nat, i: nat, l: nat, j: nat, t: Layout)
    requires LevelsOk(levels) && k < |levels| && i < |levels[k]| && LaidOut(levels, k, i, t)
    requires l < k && Introduces(levels, l, j, levels[k][i].sig)
    ensures l < |t.address| && j < |t.address[l]|
    ensures IsAddress(levels, k, i, if levels[k][i].isStatic then -1 else t.address[l][j])
  {
    assert MemberOk(levels, l, j, t.address[l][j], t.override[l][j]);
    if !levels[k][i].isStatic {
      var l': nat, j': nat :| Introduces(levels, l', j', levels[l][j].sig) && l' <= l && t.address[l][j] == FIRST_SLOT + Before(levels, l', j');
      IntroducedOnce(levels, l, j, l', j', levels[k][i].sig);
    }
  }

  /** The tables of a class are built after those of its parent. */
  method BuildClassTables(levels: Levels) returns (t: Layout, vtableOffset: nat)
    requires LevelsOk(levels)
    ensures LaidOut(levels, |levels|, 0, t) && vtableOffset == FIRST_SLOT + Before(levels, |levels|, 0)
  {
    hide LevelsOk, MemberOk;
    t, vtableOffset := Layout([], []), FIRST_SLOT;
    if |levels| > 0 { t := Layout([[]], [[]]); }
    var k := 0;
    while k < |levels|
      invariant k <= |levels| && LaidOut(levels, k, 0, t) && vtableOffset == FIRST_SLOT + Before(levels, k, 0)
    {
      var i := 0;
      while i < |levels[k]|
        invariant i <= |levels[k]| && LaidOut(levels, k, i, t) && vtableOffset == FIRST_SLOT + Before(levels, k, i)
      {
        var address, override;
        address, override, vtableOffset := PlaceMethod(levels, k, i, t, vtableOffset);
        t := Layout(t.address[k := t.address[k] + [address]], t.override[k := t.override[k] + [override]]);
        i := i + 1;
      }
      k := k + 1;
      if k < |levels| {
        t := Layout(t.address + [[]], t.override + [[]]);
      }
    }
  }

  // ---------------------------------------------------------------------------------
  // The emitted table.

  /** What goes into a slot: a compiled method, or what the compiler puts into the two special slots. */
  datatype Entry = Code(code: nat) | ImplementsFunction | SelectorTable

  ghost predicate IsSpecial(isStruct: bool, address: int)
  {
    !isStruct && (address == IMPLEMENTS_OFFSET || address == SELECTOR_ID_METHOD_TABLE_OFFSET)
  }

  /** The member makes emitClassTables add an entry. */
  ghost predicate Emits(levels: Levels, t: Layout, isStruct: bool, k: nat, i: nat)
  {
    && k < |levels| && i < |levels[k]| && k < |t.address| && i < |t.address[k]|
    && !levels[k][i].isStatic && (IsSpecial(isStruct, t.address[k][i]) || Introduced(levels, k, i))
  }

  ghost function Emitted(levels: Levels, t: Layout, isStruct: bool, k: nat, i: nat): nat
    decreases k, i
  {
    if i > 0 then Emitted(levels, t, isStruct, k, i - 1) + (if Emits(levels, t, isStruct, k, i - 1) then 1 else 0)
    else if k > 0 then Emitted(levels, t, isStruct, k - 1, if k <= |levels| then |levels[k-1]| else 0)
    else 0
  }

  /** The entry of a member: its special entry, or the method that the class finds for its signature. */
  ghost predicate EntryOk(levels: Levels, t: Layout, isStruct: bool, k: nat, i: nat, entry: Entry)
  {
    && k < |levels| && i < |levels[k]| && k < |t.address| && i < |t.address[k]|
    && if !isStruct && t.address[k][i] == IMPLEMENTS_OFFSET then entry == ImplementsFunction
       else if !isStruct && t.address[k][i] == SELECTOR_ID_METHOD_TABLE_OFFSET then entry == SelectorTable
       else exists l: nat, j: nat :: Finds(levels, levels[k][i].sig, l, j) && entry == Code(levels[l][j].code)
  }

  /** The class at the end of the levels finds member j of level l for the signature. */
  ghost predicate Finds(levels: Levels, sig: nat, l: nat, j: nat)
  {
    Has(levels, l, j, sig) && forall m: nat :: l < m < |levels| ==> !HasSome(levels, m, sig)
  }

  /** The emitted table: one entry for every member that gets one, in their order. */
  ghost predicate EmittedAll(levels: Levels, t: Layout, isStruct: bool, buffer: seq<Entry>)
  {
    && |buffer| == Emitted(levels, t, isStruct, |levels|, 0)
    && forall k: nat, i: nat :: Emits(levels, t, isStruct, k, i) ==>
         Emitted(levels, t, isStruct, k, i) < |buffer| && EntryOk(levels, t, isStruct, k, i, buffer[Emitted(levels, t, isStruct, k, i)])
  }

  /** The test that emitClassTables makes on the method found decides whether the member at hand introduced it. */
  lemma FoundIsIntroduced(levels: Levels, t: Layout, k: nat, i: nat, l: nat, j: nat)
    requires LevelsOk(levels) && LaidOut(levels, |levels|, 0, t) && k < |levels| && i < |levels[k]|
    requires Finds(levels, levels[k][i].sig, l, j)
    ensures l < |t.override| && j < |t.override[l]|
    ensures (t.override[l][j] == -1 || t.override[l][j] == k) <==> Introduced(levels, k, i)
  {
    var sig := levels[k][i].sig;
    assert MemberOk(levels, l, j, t.address[l][j], t.override[l][j]);
    assert Has(levels, k, i, sig) && HasSome(levels, k, sig) && HasSome(levels, l, sig);
    if Introduced(levels, l, j) && l == k {
      assert i == j;
    }
    if Introduced(levels, k, i) && !Introduced(levels, l, j) {
      var m: nat :| Introduces(levels, t.override[l][j], m, sig);
      IntroducedOnce(levels, k, i, t.override[l][j], m, sig);
    }
  }

  /** container.l, emitClassTables: parents first, an entry for every member that gets one. */
  method EmitClassTables(levels: Levels, t: Layout, isStruct: bool) returns (buffer: seq<Entry>)
    requires LevelsOk(levels) && LaidOut(levels, |levels|, 0, t)
    ensures EmittedAll(levels, t, isStruct, buffer)
  {
    hide LevelsOk, Emitted, EntryOk, Emits;
    buffer := [];
    EmittedNone(levels, t, isStruct);
    var k := 0;
    while k < |levels|
      invariant k <= |levels| && SoFar(levels, t, isStruct, k, 0, buffer)
    {
      var i := 0;
      SizesAt(levels, t, k);
      while i < |levels[k]|
        invariant i <= |levels[k]| && SoFar(levels, t, isStruct, k, i, buffer)
      {
        var entry, add := EmitMember(levels, t, isStruct, k, i);
        SoFarNext(levels, t, isStruct, k, i, buffer, entry, add);
        if add {
          buffer := buffer + [entry];
        }
        i := i + 1;
      }
      SoFarLevel(levels, t, isStruct, k, buffer);
      k := k + 1;
    }
    SoFarAll(levels, t, isStruct, buffer);
  }

  lemma SizesAt(levels: Levels, t: Layout, k: nat)
    requires LaidOut(levels, |levels|, 0, t) && k < |levels|
    ensures k < |t.address| == |t.override| && |t.address[k]| == |t.override[k]| == |levels[k]|
  {
  }

  method EmitMember(levels: Levels, t: Layout, isStruct: bool, k: nat, i: nat) returns (entry: Entry, add: bool)
    requires LevelsOk(levels) && LaidOut(levels, |levels|, 0, t) && k < |levels| && i < |levels[k]|
    ensures add <==> Emits(levels, t, isStruct, k, i)
    ensures add ==> EntryOk(levels, t, isStruct, k, i, entry)
  {
    hide LevelsOk, MemberOk;
    SizesAt(levels, t, k);
    var current := levels[k][i];
    var found, l, j := FindMethod(levels, |levels| - 1, current.sig);
    assert Has(levels, k, i, current.sig) && HasSome(levels, k, current.sig);
    entry, add := ImplementsFunction, false;
    if current.isStatic {
      return;
    }
    if !isStruct && t.address[k][i] == IMPLEMENTS_OFFSET {
      entry, add := ImplementsFunction, true;
    } else if !isStruct && t.address[k][i] == SELECTOR_ID_METHOD_TABLE_OFFSET {
      entry, add := SelectorTable, true;
    } else {
      assert Finds(levels, current.sig, l, j);
      FoundIsIntroduced(levels, t, k, i, l, j);
      if t.override[l][j] == -1 || t.override[l][j] == k {
        entry, add := Code(levels[l][j].code), true;
      }
    }
  }

  /** The buffer when the members before member i of level k are done. */
  ghost predicate SoFar(levels: Levels, t: Layout, isStruct: bool, k: nat, i: nat, buffer: seq<Entry>)
  {
    && |buffer| == Emitted(levels, t, isStruct, k, i)
    && forall l: nat, j: nat :: Emits(levels, t, isStruct, l, j) && (l < k || (l == k && j < i)) ==>
         Emitted(levels, t, isStruct, l, j) < |buffer| && EntryOk(levels, t, isStruct, l, j, buffer[Emitted(levels, t, isStruct, l, j)])
  }

  lemma EmittedNone(levels: Levels, t: Layout, isStruct: bool)
    ensures SoFar(levels, t, isStruct, 0, 0, [])
  {
  }

  lemma EmittedNext(levels: Levels, t: Layout, isStruct: bool, k: nat, i: nat)
    ensures Emitted(levels, t, isStruct, k, i + 1) == Emitted(levels, t, isStruct, k, i) + if Emits(levels, t, isStruct, k, i) then 1 else 0
    ensures k < |levels| ==> Emitted(levels, t, isStruct, k + 1, 0) == Emitted(levels, t, isStruct, k, |levels[k]|)
  {
  }

  lemma SoFarNext(levels: Levels, t: Layout, isStruct: bool, k: nat, i: nat, buffer: seq<Entry>, entry: Entry, add: bool)
    requires SoFar(levels, t, isStruct, k, i, buffer) && (add <==> Emits(levels, t, isStruct, k, i))
    requires add ==> EntryOk(levels, t, isStruct, k, i, entry)
    ensures SoFar(levels, t, isStruct, k, i + 1, if add then buffer + [entry] else buffer)
  {
    hide Emits, EntryOk, Emitted;
    EmittedNext(levels, t, isStruct, k, i);
  }

  lemma SoFarLevel(levels: Levels, t: Layout, isStruct: bool, k: nat, buffer: seq<Entry>)
    requires k < |levels| && SoFar(levels, t, isStruct, k, |levels[k]|, buffer)
    ensures SoFar(levels, t, isStruct, k + 1, 0, buffer)
  {
    hide EntryOk, Emitted;
    EmittedNext(levels, t, isStruct, k, 0);
  }

  lemma SoFarAll(levels: Levels, t: Layout, isStruct: bool, buffer: seq<Entry>)
    requires SoFar(levels, t, isStruct, |levels|, 0, buffer)
    ensures EmittedAll(levels, t, isStruct, buffer)
  {
    hide EntryOk, Emitted;
  }

  // ---------------------------------------------------------------------------------

  /** No class overrides a method in one of the two special slots. */
  ghost predicate SpecialsAlone(levels: Levels, t: Layout, isStruct: bool)
  {
    forall k: nat, i: nat :: Emits(levels, t, isStruct, k, i) ==> Introduced(levels, k, i)
  }

  lemma FreshEmits(levels: Levels, t: Layout, isStruct: bool, k: nat, i: nat)
    requires LaidOut(levels, |levels|, 0, t) && Fresh(levels, k, i)
    ensures Emits(levels, t, isStruct, k, i)
  {
  }

  lemma {:induction false} EmittedIsBefore(levels: Levels, t: Layout, isStruct: bool, k: nat, i: nat)
    requires LaidOut(levels, |levels|, 0, t)
    ensures Emitted(levels, t, isStruct, k, i) >= Before(levels, k, i)
    ensures SpecialsAlone(levels, t, isStruct) ==> Emitted(levels, t, isStruct, k, i) == Before(levels, k, i)
    decreases k, i
  {
    hide LaidOut;
    if i > 0 {
      EmittedIsBefore(levels, t, isStruct, k, i - 1);
      if Fresh(levels, k, i - 1) { FreshEmits(levels, t, isStruct, k, i - 1); }
    } else if k > 0 {
      EmittedIsBefore(levels, t, isStruct, k - 1, if k <= |levels| then |levels[k-1]| else 0);
    }
  }

  lemma {:induction false} OneTooMany(levels: Levels, t: Layout, isStruct: bool, k: nat, i: nat, l: nat, j: nat)
    requires LaidOut(levels, |levels|, 0, t) && Emits(levels, t, isStruct, k, i) && !Introduced(levels, k, i)
    requires l <= |levels| && (l < |levels| ==> j <= |levels[l]|) && (l == |levels| ==> j == 0) && (k < l || (k == l && i < j))
    ensures Emitted(levels, t, isStruct, l, j) > Before(levels, l, j)
    decreases l, j
  {
    hide LaidOut;
    if j > 0 {
      if k < l || i < j - 1 {
        OneTooMany(levels, t, isStruct, k, i, l, j - 1);
        if Fresh(levels, l, j - 1) { FreshEmits(levels, t, isStruct, l, j - 1); }
      } else {
        EmittedIsBefore(levels, t, isStruct, k, i);
      }
    } else {
      OneTooMany(levels, t, isStruct, k, i, l - 1, |levels[l-1]|);
    }
  }

  /** The emitted table has as many entries as there are slots exactly if no class overrides a special slot. */
  lemma TableSize(levels: Levels, t: Layout, isStruct: bool)
    requires LaidOut(levels, |levels|, 0, t)
    ensures Emitted(levels, t, isStruct, |levels|, 0) == Before(levels, |levels|, 0) <==> SpecialsAlone(levels, t, isStruct)
  {
    hide LaidOut;
    EmittedIsBefore(levels, t, isStruct, |levels|, 0);
    if !SpecialsAlone(levels, t, isStruct) {
      var k: nat, i: nat :| Emits(levels, t, isStruct, k, i) && !Introduced(levels, k, i);
      OneTooMany(levels, t, isStruct, k, i, |levels|, 0);
    }
  }

  /** A class that overrides the second method of its parent, which has slot 3; the third has slot 4. */
  const OVERRIDING :=
    [[I.Method(0, 0, false, 10), I.Method(1, 0, false, 11), I.Method(2, 0, false, 13)], [I.Method(1, 0, false, 12)]]

  /** The three methods take three slots. The table of a class gets four entries, that of slot 3 twice; the table of a
      struct has no special slots and gets three. */
  method EmitOverriding() returns (vtableOffset: nat, buffer: seq<Entry>, struct: seq<Entry>)
    ensures LevelsOk(OVERRIDING) && vtableOffset == 5
    ensures buffer == [Code(10), ImplementsFunction, SelectorTable, ImplementsFunction]
    ensures struct == [Code(10), Code(12), Code(13)]
  {
    hide LevelsOk, LaidOut, Before, Emits, Emitted, EntryOk;
    OverridingOk();
    OverridingSlots();
    var t;
    t, vtableOffset := BuildClassTables(OVERRIDING);
    OverridingAddresses(t);
    buffer := EmitClassTables(OVERRIDING, t, false);
    OverridingEntries(t, buffer);
    struct := EmitClassTables(OVERRIDING, t, true);
    StructEntries(t, struct);
  }

  lemma OverridingOk()
    ensures LevelsOk(OVERRIDING)
  {
  }

  lemma OverridingSlots()
    ensures !Introduced(OVERRIDING, 1, 0)
    ensures Fresh(OVERRIDING, 0, 0) && Fresh(OVERRIDING, 0, 1) && Fresh(OVERRIDING, 0, 2)
    ensures Before(OVERRIDING, 0, 0) == 0 && Before(OVERRIDING, 0, 1) == 1 && Before(OVERRIDING, 0, 2) == 2
    ensures Before(OVERRIDING, |OVERRIDING|, 0) == 3
  {
    hide LevelsOk;
    var levels := OVERRIDING;
    assert Has(levels, 0, 1, 1) && HasSome(levels, 0, 1);
    BeforeNext(levels, 0, 0);
    BeforeNext(levels, 0, 1);
    BeforeNext(levels, 0, 2);
    BeforeNext(levels, 1, 0);
    assert Before(levels, 0, 3) == 3 && Before(levels, 1, 0) == 3 && Before(levels, 1, 1) == 3;
  }

  lemma OverridingAddresses(t: Layout)
    requires LaidOut(OVERRIDING, |OVERRIDING|, 0, t)
    ensures |t.address| == 2 && t.address[0] == [2, 3, 4] && t.address[1] == [3]
  {
    hide Before, LevelsOk;
    var levels := OVERRIDING;
    OverridingOk();
    OverridingSlots();
    SizesAt(levels, t, 0);
    SizesAt(levels, t, 1);
    assert MemberOk(levels, 0, 0, t.address[0][0], t.override[0][0]);
    assert MemberOk(levels, 0, 1, t.address[0][1], t.override[0][1]);
    assert MemberOk(levels, 0, 2, t.address[0][2], t.override[0][2]);
    assert MemberOk(levels, 1, 0, t.address[1][0], t.override[1][0]);
    OwnAddress(levels, 0, 0, t.address[0][0]);
    OwnAddress(levels, 0, 1, t.address[0][1]);
    OwnAddress(levels, 0, 2, t.address[0][2]);
    var l: nat, j: nat :| Introduces(levels, l, j, 1) && l <= 1 && t.address[1][0] == FIRST_SLOT + Before(levels, l, j);
    assert Introduces(levels, 0, 1, 1);
    IntroducedOnce(levels, l, j, 0, 1, 1);
  }

  lemma OverridingEntries(t: Layout, buffer: seq<Entry>)
    requires LaidOut(OVERRIDING, |OVERRIDING|, 0, t) && EmittedAll(OVERRIDING, t, false, buffer)
    ensures buffer == [Code(10), ImplementsFunction, SelectorTable, ImplementsFunction]
  {
    hide LaidOut, LevelsOk, Before;
    var levels := OVERRIDING;
    OverridingSlots();
    OverridingAddresses(t);
    EmittedNext(levels, t, false, 0, 0);
    EmittedNext(levels, t, false, 0, 1);
    EmittedNext(levels, t, false, 0, 2);
    EmittedNext(levels, t, false, 1, 0);
    assert Emits(levels, t, false, 0, 0) && Emits(levels, t, false, 0, 1) && Emits(levels, t, false, 0, 2);
    assert Emits(levels, t, false, 1, 0);
    assert Emitted(levels, t, false, 0, 1) == 1 && Emitted(levels, t, false, 0, 2) == 2;
    assert Emitted(levels, t, false, 1, 0) == 3 && |buffer| == 4;
    assert EntryOk(levels, t, false, 0, 0, buffer[0]);
    assert EntryOk(levels, t, false, 0, 1, buffer[1]);
    assert EntryOk(levels, t, false, 0, 2, buffer[2]);
    assert EntryOk(levels, t, false, 1, 0, buffer[3]);
    var l: nat, j: nat :| Finds(levels, 0, l, j) && buffer[0] == Code(levels[l][j].code);
    assert l == 0 && j == 0;
  }

  lemma StructEntries(t: Layout, buffer: seq<Entry>)
    requires LaidOut(OVERRIDING, |OVERRIDING|, 0, t) && EmittedAll(OVERRIDING, t, true, buffer)
    ensures buffer == [Code(10), Code(12), Code(13)]
  {
    hide LaidOut, LevelsOk, Before;
    var levels := OVERRIDING;
    OverridingSlots();
    OverridingAddresses(t);
    EmittedNext(levels, t, true, 0, 0);
    EmittedNext(levels, t, true, 0, 1);
    EmittedNext(levels, t, true, 0, 2);
    EmittedNext(levels, t, true, 1, 0);
    assert Emits(levels, t, true, 0, 0) && Emits(levels, t, true, 0, 1) && Emits(levels, t, true, 0, 2);
    assert Emitted(levels, t, true, 0, 1) == 1 && Emitted(levels, t, true, 0, 2) == 2;
    assert Emitted(levels, t, true, 1, 0) == 3 && |buffer| == 3;
    StructEntry(t, 0, buffer[0]);
    StructEntry(t, 1, buffer[1]);
    StructEntry(t, 2, buffer[2]);
  }

  lemma StructEntry(t: Layout, i: nat, entry: Entry)
    requires i < 3 && EntryOk(OVERRIDING, t, true, 0, i, entry)
    ensures entry == Code(if i == 0 then 10 else if i == 1 then 12 else 13)
  {
    hide LaidOut, LevelsOk, Before;
    var levels := OVERRIDING;
    assert Has(levels, 1, 0, 1) && HasSome(levels, 1, 1);
    var l: nat, j: nat :| Finds(levels, i, l, j) && entry == Code(levels[l][j].code);
    assert i != 1 ==> l == 0 && j == i;
  }

  /** Then the slot of every method, wherever it was introduced, holds what the class finds for it. */
  lemma SlotHoldsMethod(levels: Levels, t: Layout, isStruct: bool, buffer: seq<Entry>, k: nat, i: nat)
    requires LevelsOk(levels) && LaidOut(levels, |levels|, 0, t) && SpecialsAlone(levels, t, isStruct)
    requires EmittedAll(levels, t, isStruct, buffer)
    requires k < |levels| && i < |levels[k]| && !levels[k][i].isStatic
    ensures k < |t.address| && i < |t.address[k]|
    ensures FIRST_SLOT <= t.address[k][i] < FIRST_SLOT + |buffer|
    ensures if IsSpecial(isStruct, t.address[k][i]) then !buffer[t.address[k][i] - FIRST_SLOT].Code?
            else exists l: nat, j: nat :: Finds(levels, levels[k][i].sig, l, j) && buffer[t.address[k][i] - FIRST_SLOT] == Code(levels[l][j].code)
  {
    hide SpecialsAlone, Emits;
    SizesAt(levels, t, k);
    assert MemberOk(levels, k, i, t.address[k][i], t.override[k][i]);
    var l: nat, j: nat :| Introduces(levels, l, j, levels[k][i].sig) && l <= k && t.address[k][i] == FIRST_SLOT + Before(levels, l, j);
    SizesAt(levels, t, l);
    SameStatic(levels, k, i, l, j);
    FreshEmits(levels, t, isStruct, l, j);
    EmittedIsBefore(levels, t, isStruct, l, j);
    assert MemberOk(levels, l, j, t.address[l][j], t.override[l][j]);
    OwnAddress(levels, l, j, t.address[l][j]);
    assert EntryOk(levels, t, isStruct, l, j, buffer[Emitted(levels, t, isStruct, l, j)]);
  }

  lemma SameStatic(levels: Levels, k: nat, i: nat, l: nat, j: nat)
    requires LevelsOk(levels) && k < |levels| && i < |levels[k]| && Introduces(levels, l, j, levels[k][i].sig)
    ensures levels[k][i].isStatic == levels[l][j].isStatic
  {
  }

  lemma OwnAddress(levels: Levels, l: nat, j: nat, address: int)
    requires LevelsOk(levels) && Fresh(levels, l, j) && IsAddress(levels, l, j, address)
    ensures address == FIRST_SLOT + Before(levels, l, j)
  {
    var l': nat, j': nat :| Introduces(levels, l', j', levels[l][j].sig) && l' <= l && address == FIRST_SLOT + Before(levels, l', j');
    IntroducedOnce(levels, l, j, l', j', levels[l][j].sig);
  }
}
