/** The combined table of a class (container.l, emitTables): the interface slots from the last to the first, three words
    on the class, and the virtual table. The table pointer of an object points behind the three words, and the Address of
    a method, negative for an interface method, counts from there. */
module ClassTables {
  import I = Interfaces
  import V = Vtables

  const RESERVE_SLOTS: nat := 3

  datatype Slot = Interface(iface: I.Entry) | ClassObject | Name | Size | SuperTable | TypeTable | Virtual(entry: V.Entry)

  function AncestorsOf(c: I.Class): V.Levels
    decreases c, 0
  {
    if c.parent.Some? then LevelsOf(c.parent.value) else []
  }

  /** The members of the class and its ancestors, the root class first. */
  function LevelsOf(c: I.Class): (levels: V.Levels)
    decreases c, 1
  {
    AncestorsOf(c) + [c.members]
  }

  /** d is the class or one of its ancestors. */
  ghost predicate Inherits(c: I.Class, d: I.Class)
    decreases c
  {
    d == c || (c.parent.Some? && Inherits(c.parent.value, d))
  }

  /** How many ancestors a class has. */
  function Depth(c: I.Class): nat
    decreases c
  {
    if c.parent.Some? then Depth(c.parent.value) + 1 else 0
  }

  /** The members of the class and of each ancestor make up the level of its depth. */
  lemma {:induction false} LevelIs(c: I.Class, d: I.Class)
    requires Inherits(c, d)
    ensures |LevelsOf(c)| == Depth(c) + 1 && Depth(d) <= Depth(c) && LevelsOf(c)[Depth(d)] == d.members
    decreases c
  {
    if c.parent.Some? {
      LevelIs(c.parent.value, if d == c then c.parent.value else d);
    }
  }

  lemma {:induction false} FirstMember(members: seq<I.Method>, sig: nat)
    ensures I.Member(members, sig).Some? ==>
              exists i: nat :: i < |members| && members[i] == I.Member(members, sig).value && members[i].sig == sig
    ensures I.Member(members, sig).None? ==> forall i: nat :: i < |members| ==> members[i].sig != sig
  {
    if I.Member(members, sig).Some? {
      var i: nat :| i < |members| && members[i] == I.Member(members, sig).value;
    }
  }

  lemma HasBelow(levels: V.Levels, last: seq<I.Method>, k: nat, sig: nat)
    requires k < |levels|
    ensures V.HasSome(levels + [last], k, sig) <==> V.HasSome(levels, k, sig)
  {
    forall i: nat ensures V.Has(levels + [last], k, i, sig) <==> V.Has(levels, k, i, sig) {}
  }

  /** A class that does not have a method finds what its parent finds. */
  lemma FindsBelow(levels: V.Levels, last: seq<I.Method>, sig: nat, l: nat, j: nat)
    requires !V.HasSome(levels + [last], |levels|, sig)
    ensures V.Finds(levels + [last], sig, l, j) <==> V.Finds(levels, sig, l, j)
  {
    assert V.Has(levels + [last], l, j, sig) ==> V.HasSome(levels + [last], l, sig);
    hide V.HasSome;
    forall m: nat | m < |levels| ensures V.HasSome(levels + [last], m, sig) <==> V.HasSome(levels, m, sig) {
      HasBelow(levels, last, m, sig);
    }
  }

  lemma HasTop(levels: V.Levels, members: seq<I.Method>, sig: nat)
    ensures V.HasSome(levels + [members], |levels|, sig) <==> I.Member(members, sig).Some?
  {
    var all := levels + [members];
    FirstMember(members, sig);
    if I.Member(members, sig).Some? {
      var i: nat :| i < |members| && members[i].sig == sig;
      assert V.Has(all, |levels|, i, sig);
    }
    if V.HasSome(all, |levels|, sig) {
      var i: nat :| V.Has(all, |levels|, i, sig);
      assert members[i].sig == sig;
    }
  }

  ghost predicate FindsCode(levels: V.Levels, sig: nat, l: nat, j: nat, code: nat)
  {
    V.Finds(levels, sig, l, j) && levels[l][j].code == code
  }

  /** Both searches find the same method. */
  lemma {:induction false} SameSearch(c: I.Class, sig: nat)
    ensures var m := I.FindImplementedMethod(c, sig);
            if m.Some? then exists l: nat, j: nat :: FindsCode(LevelsOf(c), sig, l, j, m.value.code)
            else forall l: nat, j: nat :: !V.Finds(LevelsOf(c), sig, l, j)
    decreases c
  {
    hide V.HasSome, V.Finds, FindsCode;
    var below: V.Levels, last := AncestorsOf(c), c.members;
    assert LevelsOf(c) == below + [last];
    HasTop(below, c.members, sig);
    if I.Member(c.members, sig).Some? {
      FirstMember(c.members, sig);
      var i: nat :| i < |c.members| && c.members[i] == I.Member(c.members, sig).value && c.members[i].sig == sig;
      FindsTop(below, c.members, i);
    } else {
      forall l: nat, j: nat ensures V.Finds(below + [last], sig, l, j) <==> V.Finds(below, sig, l, j) {
        FindsBelow(below, last, sig, l, j);
      }
      if c.parent.Some? {
        SameSearch(c.parent.value, sig);
        assert below == LevelsOf(c.parent.value);
        assert I.FindImplementedMethod(c, sig) == I.FindImplementedMethod(c.parent.value, sig);
        if I.FindImplementedMethod(c.parent.value, sig).Some? {
          var x := I.FindImplementedMethod(c.parent.value, sig).value.code;
          var l: nat, j: nat :| FindsCode(below, sig, l, j, x);
          CodeBelow(below, last, sig, l, j, x);
        }
      } else {
        forall l: nat, j: nat ensures !V.Finds(below, sig, l, j) {
          FindsInside(below, sig, l, j);
        }
      }
    }
  }

  lemma CodeBelow(levels: V.Levels, last: seq<I.Method>, sig: nat, l: nat, j: nat, code: nat)
    requires FindsCode(levels, sig, l, j, code) && !V.HasSome(levels + [last], |levels|, sig)
    ensures FindsCode(levels + [last], sig, l, j, code)
  {
    hide V.HasSome;
    FindsBelow(levels, last, sig, l, j);
  }

  lemma FindsInside(levels: V.Levels, sig: nat, l: nat, j: nat)
    ensures V.Finds(levels, sig, l, j) ==> l < |levels| && j < |levels[l]|
  {
  }

  lemma FindsTop(levels: V.Levels, members: seq<I.Method>, i: nat)
    requires i < |members|
    ensures FindsCode(levels + [members], members[i].sig, |levels|, i, members[i].code)
  {
  }

  lemma FindsOnce(levels: V.Levels, sig: nat, l: nat, j: nat, l': nat, j': nat)
    requires V.LevelsOk(levels) && V.Finds(levels, sig, l, j) && V.Finds(levels, sig, l', j')
    ensures l == l' && j == j'
  {
    assert V.HasSome(levels, l, sig) && V.HasSome(levels, l', sig);
  }

  // ---------------------------------------------------------------------------------
  // The table.

  /** The parts of the table, in their order. */
  ghost predicate Combined(offset: nat, slots: seq<I.Entry>, vtable: seq<V.Entry>, table: seq<Slot>)
  {
    && offset == |slots| && |table| == offset + RESERVE_SLOTS + V.FIRST_SLOT + |vtable|
    && (forall s: nat :: s < |slots| ==> table[offset - 1 - s] == Interface(slots[s]))
    && table[offset..offset + 5] == [ClassObject, Name, Size, SuperTable, TypeTable]
    && forall n: nat :: n < |vtable| ==> table[offset + 5 + n] == Virtual(vtable[n])
  }

  /** container.l, emitTables. */
  method EmitTables(c: I.Class, assignable: I.Assignable, force: bool, isStruct: bool)
      returns (error: bool, table: seq<Slot>, offset: nat, t: V.Layout, vtableSize: nat, collisions: seq<nat>,
               ghost slots: seq<I.Entry>, ghost done: seq<I.InterfaceMethod>, ghost vtable: seq<V.Entry>)
    requires V.LevelsOk(LevelsOf(c))
    ensures error <==> exists e :: I.MustImplement(c, e) && !I.CanImplement(c, assignable, e)
    ensures V.LaidOut(LevelsOf(c), |LevelsOf(c)|, 0, t) && vtableSize == V.FIRST_SLOT + V.Before(LevelsOf(c), |LevelsOf(c)|, 0)
    ensures V.EmittedAll(LevelsOf(c), t, isStruct, vtable)
    ensures !error ==> I.Entered(c, force, done, slots, collisions) && (forall e :: e in done <==> I.MustImplement(c, e))
    ensures !error ==> Combined(offset, slots, vtable, table)
  {
    hide I.Entered, V.LevelsOk, V.LaidOut, V.EntryOk, V.Emits, V.Emitted, V.Before, I.CanImplement, I.MustImplement;
    var levels: V.Levels := LevelsOf(c);
    var vtableOffset;
    t, vtableOffset := V.BuildClassTables(levels);
    vtableSize := vtableOffset;
    var ifaceSlots;
    error, ifaceSlots, collisions, done := I.EmitInterfaceTables(c, assignable, force);
    slots := ifaceSlots;
    offset := I.CalcIFaceOffset(c);
    table := [];
    if !error {
      I.OffsetIsLength(c, force, done, slots, collisions, offset);
      var buffer := I.EmitBuffer(ifaceSlots);
      table := seq(|buffer|, n requires 0 <= n < |buffer| => Interface(buffer[n]));
    }
    table := table + [ClassObject, Name, Size] + [SuperTable, TypeTable];
    var entries := V.EmitClassTables(levels, t, isStruct);
    vtable := entries;
    table := table + seq(|entries|, n requires 0 <= n < |entries| => Virtual(entries[n]));
  }

  // ---------------------------------------------------------------------------------
  // Calls through the table.

  /** Where the table says there is a method: the entry at the Address of an instance method of the class or an ancestor. */
  lemma VirtualEntry(c: I.Class, isStruct: bool, t: V.Layout, offset: nat, slots: seq<I.Entry>, vtable: seq<V.Entry>,
                     table: seq<Slot>, d: I.Class, i: nat)
    requires V.LevelsOk(LevelsOf(c)) && V.LaidOut(LevelsOf(c), |LevelsOf(c)|, 0, t) && V.EmittedAll(LevelsOf(c), t, isStruct, vtable)
    requires V.SpecialsAlone(LevelsOf(c), t, isStruct) && Combined(offset, slots, vtable, table)
    requires Inherits(c, d) && i < |d.members| && !d.members[i].isStatic
    ensures Depth(d) < |t.address| && i < |t.address[Depth(d)]|
    ensures var address := t.address[Depth(d)][i];
            && V.FIRST_SLOT <= address && offset + RESERVE_SLOTS + address < |table|
            && var entry, m := table[offset + RESERVE_SLOTS + address], I.FindImplementedMethod(c, d.members[i].sig);
               if V.IsSpecial(isStruct, address) then entry.Virtual? && !entry.entry.Code?
               else m.Some? && entry == Virtual(V.Code(m.value.code))
  {
    hide V.LevelsOk, V.LaidOut, V.EntryOk, V.Emits, V.Emitted, V.SpecialsAlone, V.HasSome, I.FindImplementedMethod;
    LevelIs(c, d);
    var levels: V.Levels, k := LevelsOf(c), Depth(d);
    var sig := levels[k][i].sig;
    V.SlotHoldsMethod(levels, t, isStruct, vtable, k, i);
    var n := t.address[k][i] - V.FIRST_SLOT;
    assert table[offset + 5 + n] == Virtual(vtable[n]);
    SameSearch(c, sig);
    if !V.IsSpecial(isStruct, t.address[k][i]) {
      var l: nat, j: nat :| V.Finds(levels, sig, l, j) && vtable[n] == V.Code(levels[l][j].code);
      var l': nat, j': nat :| FindsCode(levels, sig, l', j', I.FindImplementedMethod(c, sig).value.code);
      FindsOnce(levels, sig, l, j, l', j');
    }
  }

  /** A static method has no Address and no entry. */
  lemma StaticHasNone(c: I.Class, isStruct: bool, t: V.Layout, d: I.Class, i: nat)
    requires V.LaidOut(LevelsOf(c), |LevelsOf(c)|, 0, t) && Inherits(c, d) && i < |d.members| && d.members[i].isStatic
    ensures Depth(d) < |t.address| && i < |t.address[Depth(d)]| && t.address[Depth(d)][i] == -1
    ensures !V.Emits(LevelsOf(c), t, isStruct, Depth(d), i)
  {
    LevelIs(c, d);
    MemberAt(LevelsOf(c), t, Depth(d), i);
  }

  /** The table has the size that calcIFaceOffset and buildClassTables foretell exactly if no class overrides a method in
      one of the two special slots. */
  lemma CombinedSize(c: I.Class, isStruct: bool, t: V.Layout, offset: nat, slots: seq<I.Entry>, vtable: seq<V.Entry>,
                     table: seq<Slot>, vtableSize: nat)
    requires V.LaidOut(LevelsOf(c), |LevelsOf(c)|, 0, t) && V.EmittedAll(LevelsOf(c), t, isStruct, vtable)
    requires Combined(offset, slots, vtable, table)
    requires vtableSize == V.FIRST_SLOT + V.Before(LevelsOf(c), |LevelsOf(c)|, 0)
    ensures |table| == offset + RESERVE_SLOTS + vtableSize <==> V.SpecialsAlone(LevelsOf(c), t, isStruct)
  {
    hide V.LaidOut, V.EntryOk, V.Emits, V.Emitted, V.SpecialsAlone, V.Before;
    V.TableSize(LevelsOf(c), t, isStruct);
  }

  /** An interface method that the class must implement, or an instance method of the class or an ancestor. */
  datatype Callee = OfInterface(method0: I.InterfaceMethod) | OfClass(owner: I.Class, member: nat)

  ghost predicate IsCallee(c: I.Class, callee: Callee)
  {
    match callee
    case OfInterface(e) => I.MustImplement(c, e)
    case OfClass(d, i) => Inherits(c, d) && i < |d.members| && !d.members[i].isStatic
  }

  ghost function SigOf(c: I.Class, callee: Callee): nat
    requires IsCallee(c, callee)
  {
    if callee.OfInterface? then callee.method0.sig else callee.owner.members[callee.member].sig
  }

  /** Emitting the table of a class and calling a method on an object of it, virtually or through an interface: load what
      stands at the Address of the method, counted from the table pointer, and run it. */
  method Dispatch(c: I.Class, assignable: I.Assignable, force: bool, isStruct: bool, callee: Callee)
      returns (error: bool, t: V.Layout, code: nat)
    requires V.LevelsOk(LevelsOf(c)) && I.SelectorsOk(c)
    requires IsCallee(c, callee)
    ensures error <==> exists e :: I.MustImplement(c, e) && !I.CanImplement(c, assignable, e)
    ensures V.LaidOut(LevelsOf(c), |LevelsOf(c)|, 0, t)
    ensures callee.OfClass? ==> Depth(callee.owner) < |t.address| && callee.member < |t.address[Depth(callee.owner)]|
    ensures !error && (callee.OfInterface? ||
                       (V.SpecialsAlone(LevelsOf(c), t, isStruct)
                        && !V.IsSpecial(isStruct, t.address[Depth(callee.owner)][callee.member]))) ==>
              && I.FindImplementedMethod(c, SigOf(c, callee)).Some?
              && code == I.FindImplementedMethod(c, SigOf(c, callee)).value.code
  {
    hide I.Entered, V.LevelsOk, V.LaidOut, V.EntryOk, V.Emits, V.Emitted, V.Before, I.CanImplement, I.MustImplement,
      I.FindImplementedMethod, V.SpecialsAlone, V.EmittedAll;
    var table, offset, vtableSize, collisions;
    ghost var slots, done, vtable;
    error, table, offset, t, vtableSize, collisions, slots, done, vtable := EmitTables(c, assignable, force, isStruct);
    code := 0;
    if callee.OfClass? {
      LevelIs(c, callee.owner);
      V.SizesAt(LevelsOf(c), t, Depth(callee.owner));
    }
    if !error {
      match callee
      case OfInterface(e) =>
        I.SlotInside(c, force, done, slots, collisions, e);
        assert table[offset - 1 - e.slot] == Interface(slots[e.slot]);
        code := I.Run(c, force, table[offset + RESERVE_SLOTS - (I.INTERFACE_OFFSET + e.slot)].iface, collisions, e, slots, done);
        CanFind(c, assignable, e);
      case OfClass(d, i) =>
        var at := offset + RESERVE_SLOTS + t.address[Depth(d)][i];
        if 0 <= at < |table| && table[at].Virtual? && table[at].entry.Code? {
          code := table[at].entry.code;
        }
        if V.SpecialsAlone(LevelsOf(c), t, isStruct) {
          VirtualEntry(c, isStruct, t, offset, slots, vtable, table, d, i);
        }
    }
  }

  lemma CanFind(c: I.Class, assignable: I.Assignable, e: I.InterfaceMethod)
    requires I.MustImplement(c, e) && !exists f :: I.MustImplement(c, f) && !I.CanImplement(c, assignable, f)
    ensures I.FindImplementedMethod(c, e.sig).Some? && I.CodeFor(c, e) == I.FindImplementedMethod(c, e.sig).value.code
  {
    hide I.MustImplement, I.FindImplementedMethod;
    assert I.CanImplement(c, assignable, e);
  }

  // ---------------------------------------------------------------------------------
  // The table of a class extends that of its parent.

  lemma LevelsBelow(levels: V.Levels, last: seq<I.Method>)
    requires V.LevelsOk(levels + [last])
    ensures V.LevelsOk(levels)
  {
    var all := levels + [last];
    forall k | 0 <= k < |levels| ensures all[k] == levels[k] {}
  }

  lemma IntroducedBelow(levels: V.Levels, last: seq<I.Method>, k: nat, i: nat)
    requires k < |levels|
    ensures V.Introduced(levels + [last], k, i) <==> V.Introduced(levels, k, i)
  {
    hide V.HasSome;
    if i < |levels[k]| {
      forall l: nat | l < k ensures V.HasSome(levels + [last], l, levels[k][i].sig) <==> V.HasSome(levels, l, levels[k][i].sig) {
        HasBelow(levels, last, l, levels[k][i].sig);
      }
    }
  }

  lemma {:induction false} BeforeBelow(levels: V.Levels, last: seq<I.Method>, k: nat, i: nat)
    requires k < |levels|
    ensures V.Before(levels + [last], k, i) == V.Before(levels, k, i)
    decreases k, i
  {
    hide V.Introduced;
    if i > 0 {
      BeforeBelow(levels, last, k, i - 1);
      IntroducedBelow(levels, last, k, i - 1);
    } else if k > 0 {
      BeforeBelow(levels, last, k - 1, |levels[k-1]|);
    }
  }

  /** A method keeps its address. */
  lemma AddressBelow(levels: V.Levels, last: seq<I.Method>, k: nat, i: nat, address: int, address': int)
    requires V.LevelsOk(levels + [last]) && k < |levels|
    requires V.IsAddress(levels, k, i, address) && V.IsAddress(levels + [last], k, i, address')
    ensures address == address'
  {
    hide V.LevelsOk, V.Introduced, V.Before;
    var all := levels + [last];
    if !levels[k][i].isStatic {
      var sig := levels[k][i].sig;
      var l: nat, j: nat :| V.Introduces(levels, l, j, sig) && l <= k && address == V.FIRST_SLOT + V.Before(levels, l, j);
      var l': nat, j': nat :| V.Introduces(all, l', j', sig) && l' <= k && address' == V.FIRST_SLOT + V.Before(all, l', j');
      IntroducedBelow(levels, last, l, j);
      V.IntroducedOnce(all, l, j, l', j', sig);
      BeforeBelow(levels, last, l, j);
    }
  }

  /** All that is known of the emitted table of a class in which no class overrides a special slot. */
  ghost predicate IsTable(c: I.Class, isStruct: bool, t: V.Layout, offset: nat, slots: seq<I.Entry>, vtable: seq<V.Entry>,
                          table: seq<Slot>)
  {
    && V.LaidOut(LevelsOf(c), |LevelsOf(c)|, 0, t) && V.EmittedAll(LevelsOf(c), t, isStruct, vtable)
    && V.SpecialsAlone(LevelsOf(c), t, isStruct) && Combined(offset, slots, vtable, table)
  }

  /** Every instance method of an ancestor stands at the same Address in the table of the class as in that of its parent, with
      the same entry unless the class overrides it, and with the code of the class if it does. */
  lemma SubclassExtends(c: I.Class, isStruct: bool, t: V.Layout, offset: nat, slots: seq<I.Entry>, vtable: seq<V.Entry>,
                        table: seq<Slot>, t': V.Layout, offset': nat, slots': seq<I.Entry>, vtable': seq<V.Entry>,
                        table': seq<Slot>, d: I.Class, i: nat)
    requires c.parent.Some? && V.LevelsOk(LevelsOf(c))
    requires IsTable(c.parent.value, isStruct, t, offset, slots, vtable, table)
    requires IsTable(c, isStruct, t', offset', slots', vtable', table')
    requires Inherits(c.parent.value, d) && i < |d.members| && !d.members[i].isStatic
    ensures Depth(d) < |t.address| && i < |t.address[Depth(d)]| && Depth(d) < |t'.address| && i < |t'.address[Depth(d)]|
    ensures var address := t.address[Depth(d)][i];
            && t'.address[Depth(d)][i] == address && V.FIRST_SLOT <= address
            && offset + RESERVE_SLOTS + address < |table| && offset' + RESERVE_SLOTS + address < |table'|
            && (!V.IsSpecial(isStruct, address) ==>
                  var m := I.Member(c.members, d.members[i].sig);
                  table'[offset' + RESERVE_SLOTS + address] ==
                    if m.Some? then Virtual(V.Code(m.value.code)) else table[offset + RESERVE_SLOTS + address])
  {
    hide V.LevelsOk, V.LaidOut, V.SpecialsAlone, V.EmittedAll, Combined, V.IsAddress, V.Introduced, V.Introduces;
    var below: V.Levels, last, k := LevelsOf(c.parent.value), c.members, Depth(d);
    assert AncestorsOf(c) == below;
    assert LevelsOf(c) == below + [last];
    LevelIs(c.parent.value, d);
    LevelsBelow(below, last);
    MemberAt(below, t, k, i);
    MemberAt(below + [last], t', k, i);
    AddressBelow(below, last, k, i, t.address[k][i], t'.address[k][i]);
    VirtualEntry(c.parent.value, isStruct, t, offset, slots, vtable, table, d, i);
    assert Inherits(c, d);
    VirtualEntry(c, isStruct, t', offset', slots', vtable', table', d, i);
  }

  lemma MemberAt(levels: V.Levels, t: V.Layout, k: nat, i: nat)
    requires V.LaidOut(levels, |levels|, 0, t) && k < |levels| && i < |levels[k]|
    ensures k < |t.address| && i < |t.address[k]| && V.IsAddress(levels, k, i, t.address[k][i])
  {
    hide V.IsAddress;
    assert V.MemberOk(levels, k, i, t.address[k][i], t.override[k][i]);
  }
}
