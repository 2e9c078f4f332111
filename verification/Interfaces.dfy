/** Interface tables and the dispatch through them (container.l, emitInterfaceTables; lrt-ithunk-linux-x86-64.s). */
module Interfaces {

  datatype Option<T> = None | Some(value: T)

  const INTERFACE_OFFSET: int := 4
  const VTABLE_FIXED_SIZE: int := 3

  /** sig stands for the name and the argument types, ret for the return type, code for the compiled body. */
  datatype Method = Method(sig: nat, ret: nat, isStatic: bool, code: nat)

  /** selector is the address of the method's __selector_ symbol; its Address field is -(INTERFACE_OFFSET + slot). */
  datatype InterfaceMethod = InterfaceMethod(selector: nat, sig: nat, ret: nat, slot: nat)

  datatype Interface = Interface(methods: seq<InterfaceMethod>, super: Option<Interface>)

  datatype Class = Class(members: seq<Method>, implements: seq<Interface>, isObject: bool, parent: Option<Class>)

  function Member(members: seq<Method>, sig: nat): (m: Option<Method>)
    ensures m.Some? ==> m.value in members && m.value.sig == sig
    ensures m.None? ==> forall x :: x in members ==> x.sig != sig
  {
    if members == [] then None else if members[0].sig == sig then Some(members[0]) else Member(members[1..], sig)
  }

  /** The search of the class and then of its parents. */
  function FindImplementedMethod(c: Class, sig: nat): Option<Method>
  {
    var result := Member(c.members, sig);
    if result.Some? then result
    else if c.parent.Some? then FindImplementedMethod(c.parent.value, sig)
    else None
  }

  // ---------------------------------------------------------------------------------
  // The interfaces of a class.

  /** i is q or one of its supers. */
  ghost predicate Extends(q: Interface, i: Interface)
  {
    q == i || (q.super.Some? && Extends(q.super.value, i))
  }

  ghost predicate Implements(c: Class, i: Interface)
  {
    || (exists k :: 0 <= k < |c.implements| && Extends(c.implements[k], i))
    || (c.parent.Some? && !c.parent.value.isObject && Implements(c.parent.value, i))
  }

  ghost function Supers(q: Interface): seq<Interface>
  {
    [q] + if q.super.Some? then Supers(q.super.value) else []
  }

  /** The interfaces in a list, each followed by its supers. */
  ghost function WithSupers(list: seq<Interface>): seq<Interface>
  {
    if list == [] then [] else WithSupers(list[..|list|-1]) + Supers(list[|list|-1])
  }

  /** What the class lists, then what its ancestors list, with repetitions. */
  ghost function Listed(c: Class): seq<Interface>
  {
    WithSupers(c.implements) + if c.parent.Some? && !c.parent.value.isObject then Listed(c.parent.value) else []
  }

  lemma {:induction false} SupersExtend(q: Interface, i: Interface)
    ensures i in Supers(q) <==> Extends(q, i)
  {
    if q.super.Some? {
      SupersExtend(q.super.value, i);
    }
  }

  method AddSupers(all: seq<Interface>, ik: Interface) returns (all': seq<Interface>)
    ensures all' == all + Supers(ik)
  {
    all' := all;
    var q := ik;
    while true
      invariant all' + Supers(q) == all + Supers(ik)
      decreases q
    {
      all' := all' + [q];
      if q.super.None? {
        break;
      }
      q := q.super.value;
    }
  }

  lemma {:induction false} WithSupersExtend(list: seq<Interface>, i: Interface)
    ensures i in WithSupers(list) <==> exists k :: 0 <= k < |list| && Extends(list[k], i)
  {
    if list != [] {
      var n := |list| - 1;
      WithSupersExtend(list[..n], i);
      SupersExtend(list[n], i);
      assert forall k :: 0 <= k < n ==> list[..n][k] == list[k];
    }
  }

  lemma {:induction false} ListedImplements(c: Class, i: Interface)
    ensures i in Listed(c) <==> Implements(c, i)
    decreases c
  {
    WithSupersExtend(c.implements, i);
    if c.parent.Some? && !c.parent.value.isObject {
      ListedImplements(c.parent.value, i);
    }
  }

  lemma WithSupersNext(list: seq<Interface>, k: nat)
    requires k < |list|
    ensures WithSupers(list[..k + 1]) == WithSupers(list[..k]) + Supers(list[k])
  {
    assert list[..k + 1][..k] == list[..k];
  }

  lemma ListedNext(c: Class)
    ensures WithSupers([]) == [] && c.implements[..|c.implements|] == c.implements
    ensures Listed(c) == WithSupers(c.implements) + if c.parent.Some? && !c.parent.value.isObject then Listed(c.parent.value) else []
  {
  }

  method PopulateAllImplementedInterfaces(c: Class) returns (all: seq<Interface>)
    ensures all == Listed(c) && forall i :: i in all <==> Implements(c, i)
  {
    hide *;
    all := [];
    var p := c;
    while true
      invariant all + Listed(p) == Listed(c)
      decreases p
    {
      ListedNext(p);
      ghost var before := all;
      var k := 0;
      while k < |p.implements|
        invariant k <= |p.implements| && all == before + WithSupers(p.implements[..k])
      {
        WithSupersNext(p.implements, k);
        all := AddSupers(all, p.implements[k]);
        k := k + 1;
      }
      if p.parent.None? || p.parent.value.isObject {
        break;
      }
      p := p.parent.value;
    }
    forall i ensures i in all <==> Implements(c, i) {
      ListedImplements(c, i);
    }
  }

  // ---------------------------------------------------------------------------------
  // The tables.

  datatype Entry = Null | Thunk | Code(code: nat)

  type Assignable = (nat, nat) -> bool

  /** The class has a method that may implement e. */
  ghost predicate CanImplement(c: Class, assignable: Assignable, e: InterfaceMethod)
  {
    var i := FindImplementedMethod(c, e.sig);
    i.Some? && !i.value.isStatic && assignable(e.ret, i.value.ret)
  }

  ghost function CodeFor(c: Class, e: InterfaceMethod): nat
  {
    var i := FindImplementedMethod(c, e.sig);
    if i.Some? then i.value.code else 0
  }

  /** What holds of the tables once the interface methods in done are entered. */
  ghost predicate Entered(c: Class, force: bool, done: seq<InterfaceMethod>, slots: seq<Entry>, collisions: seq<nat>)
  {
    && |collisions| == 2 * |done|
    && (forall k :: 0 <= k < |done| ==>
          && collisions[2 * k] == done[k].selector && collisions[2 * k + 1] == CodeFor(c, done[k])
          && done[k].slot < |slots| && (slots[done[k].slot] == Thunk || slots[done[k].slot] == Code(CodeFor(c, done[k]))))
    && (forall s :: 0 <= s < |slots| ==> SlotState(force, done, s, slots[s]))
    && (|slots| > 0 ==> Holds(done, |slots| - 1))
  }

  /** A slot is empty as long as no method has it, and has the thunk only if methods share it, or by force. */
  ghost predicate SlotState(force: bool, done: seq<InterfaceMethod>, s: nat, entry: Entry)
  {
    && (entry == Null <==> !Holds(done, s))
    && (entry == Thunk ==> force || Shared(done, s))
    && (entry.Code? ==> !force && !Shared(done, s))
  }

  ghost predicate Holds(done: seq<InterfaceMethod>, s: nat)
  {
    exists k :: 0 <= k < |done| && done[k].slot == s
  }

  ghost predicate Shared(done: seq<InterfaceMethod>, s: nat)
  {
    exists k, l :: 0 <= k < l < |done| && done[k].slot == s && done[l].slot == s
  }

  lemma HoldsNext(done: seq<InterfaceMethod>, e: InterfaceMethod, s: nat)
    ensures Holds(done + [e], s) <==> Holds(done, s) || e.slot == s
    ensures Shared(done + [e], s) <==> Shared(done, s) || (e.slot == s && Holds(done, s))
  {
    var next := done + [e];
    assert next[|done|] == e;
    if Holds(done, s) {
      var k :| 0 <= k < |done| && done[k].slot == s;
      assert next[k].slot == s;
    }
    if Shared(done, s) {
      var k, l :| 0 <= k < l < |done| && done[k].slot == s && done[l].slot == s;
      assert next[k].slot == s && next[l].slot == s;
    }
    if e.slot == s && Holds(done, s) {
      var k :| 0 <= k < |done| && done[k].slot == s;
      assert next[k].slot == s && next[|done|].slot == s;
    }
  }

  lemma EnteredNext(c: Class, force: bool, done: seq<InterfaceMethod>, slots: seq<Entry>, collisions: seq<nat>,
                    e: InterfaceMethod,
                    longer: seq<Entry>)
    requires Entered(c, force, done, slots, collisions)
    requires |longer| == (if e.slot < |slots| then |slots| else e.slot + 1)
    requires forall s :: 0 <= s < |longer| ==> longer[s] == if s < |slots| then slots[s] else Null
    ensures Entered(c, force, done + [e], longer[e.slot := if force || longer[e.slot] != Null then Thunk else Code(CodeFor(c, e))],
                    collisions + [e.selector, CodeFor(c, e)])
  {
    var done' := done + [e];
    var entry := if force || longer[e.slot] != Null then Thunk else Code(CodeFor(c, e));
    var slots', collisions' := longer[e.slot := entry], collisions + [e.selector, CodeFor(c, e)];
    forall s: nat | s < |slots'| ensures SlotState(force, done', s, slots'[s]) {
      HoldsNext(done, e, s);
      NotHeld(c, force, done, slots, collisions, s);
    }
    HoldsNext(done, e, |slots'| - 1);
    forall k | 0 <= k < |done'|
      ensures collisions'[2 * k] == done'[k].selector && collisions'[2 * k + 1] == CodeFor(c, done'[k])
      ensures done'[k].slot < |slots'| && (slots'[done'[k].slot] == Thunk || slots'[done'[k].slot] == Code(CodeFor(c, done'[k])))
    {
      if k < |done| && done[k].slot == e.slot {
        assert Holds(done, e.slot);
      }
    }
  }

  lemma NotHeld(c: Class, force: bool, done: seq<InterfaceMethod>, slots: seq<Entry>, collisions: seq<nat>, s: nat)
    requires Entered(c, force, done, slots, collisions)
    ensures s >= |slots| ==> !Holds(done, s) && !Shared(done, s)
    ensures s < |slots| ==> SlotState(force, done, s, slots[s])
  {
  }

  /** The methods of the interfaces, one interface after the other. */
  ghost function Items(all: seq<Interface>): seq<InterfaceMethod>
  {
    if all == [] then [] else Items(all[..|all|-1]) + all[|all|-1].methods
  }

  lemma {:induction false} ItemsOf(all: seq<Interface>, e: InterfaceMethod)
    ensures e in Items(all) <==> exists i :: i in all && e in i.methods
  {
    if all != [] {
      var front, last := all[..|all|-1], all[|all|-1];
      ItemsOf(front, e);
      assert all == front + [last];
    }
  }

  /** e belongs to an interface that the class implements. */
  ghost predicate MustImplement(c: Class, e: InterfaceMethod)
  {
    exists i :: Implements(c, i) && e in i.methods
  }

  /** One interface method: its slot and its entry in the collision list, or an error. */
  method EnterMethod(c: Class, assignable: Assignable, force: bool, e: InterfaceMethod, slots: seq<Entry>,
                     collisions: seq<nat>,
                     ghost done: seq<InterfaceMethod>) returns (ok: bool, slots': seq<Entry>, collisions': seq<nat>)
    requires Entered(c, force, done, slots, collisions)
    ensures ok <==> CanImplement(c, assignable, e)
    ensures Entered(c, force, if ok then done + [e] else done, slots', collisions')
  {
    hide Entered, FindImplementedMethod;
    ok, slots', collisions' := false, slots, collisions;
    var i := FindImplementedMethod(c, e.sig);
    if i.None? {
      return;
    }
    if i.value.isStatic {
      return;
    }
    if !assignable(e.ret, i.value.ret) {
      return;
    }
    collisions' := collisions' + [e.selector] + [i.value.code];
    assert collisions' == collisions + [e.selector, i.value.code];
    if e.slot >= |slots'| {
      slots' := slots' + seq(e.slot + 1 - |slots'|, _ => Null);
    }
    EnteredNext(c, force, done, slots, collisions, e, slots');
    if force || slots'[e.slot] != Null {
      slots' := slots'[e.slot := Thunk];
    } else {
      slots' := slots'[e.slot := Code(i.value.code)];
    }
    ok := true;
  }

  /** container.l, emitInterfaceTables, up to the two tables: slots becomes the interface part of the class table, and
      collisions the selector table. */
  method EmitInterfaceTables(c: Class, assignable: Assignable, force: bool)
      returns (error: bool, slots: seq<Entry>, collisions: seq<nat>, ghost done: seq<InterfaceMethod>)
    ensures error <==> exists e :: MustImplement(c, e) && !CanImplement(c, assignable, e)
    ensures error <==> exists e :: MustImplement(c, e)
                                   && var m := FindImplementedMethod(c, e.sig);
                                      m.None? || m.value.isStatic || !assignable(e.ret, m.value.ret)
    ensures Entered(c, force, done, slots, collisions)
    ensures !error ==> done == Items(Listed(c)) && forall e :: e in done <==> MustImplement(c, e)
  {
    hide Entered, CanImplement;
    var implemented := PopulateAllImplementedInterfaces(c);
    error, slots, collisions, done := false, [], [], [];
    EnteredNone(c, force);
    var k := 0;
    while k < |implemented|
      invariant k <= |implemented| && Entered(c, force, done, slots, collisions)
      invariant error <==> exists e :: e in Items(implemented[..k]) && !CanImplement(c, assignable, e)
      invariant !error ==> done == Items(implemented[..k])
    {
      assert implemented[..k + 1][..k] == implemented[..k];
      var methods := implemented[k].methods;
      ghost var before := Items(implemented[..k]);
      var n := 0;
      while n < |methods|
        invariant n <= |methods| && Entered(c, force, done, slots, collisions)
        invariant error <==> exists e :: e in before + methods[..n] && !CanImplement(c, assignable, e)
        invariant !error ==> done == before + methods[..n]
      {
        var ok;
        ghost var was := done;
        assert methods[..n + 1] == methods[..n] + [methods[n]];
        assert before + methods[..n + 1] == before + methods[..n] + [methods[n]];
        assert methods[n] in before + methods[..n + 1];
        ok, slots, collisions := EnterMethod(c, assignable, force, methods[n], slots, collisions, done);
        if ok {
          done := done + [methods[n]];
        } else {
          error := true;
        }
        n := n + 1;
      }
      assert methods[..n] == methods;
      k := k + 1;
    }
    assert implemented[..k] == implemented;
    ItemsAreAll(c, implemented);
    forall e ensures CanImplement(c, assignable, e) <==>
                       var m := FindImplementedMethod(c, e.sig);
                       !(m.None? || m.value.isStatic || !assignable(e.ret, m.value.ret))
    {
      CanImplementIf(c, assignable, e);
    }
  }

  lemma CanImplementIf(c: Class, assignable: Assignable, e: InterfaceMethod)
    ensures CanImplement(c, assignable, e) <==>
              var m := FindImplementedMethod(c, e.sig);
              !(m.None? || m.value.isStatic || !assignable(e.ret, m.value.ret))
  {
  }

  lemma EnteredNone(c: Class, force: bool)
    ensures Entered(c, force, [], [], [])
  {
  }

  lemma ItemsAreAll(c: Class, implemented: seq<Interface>)
    requires forall i :: i in implemented <==> Implements(c, i)
    ensures forall e :: e in Items(implemented) <==> MustImplement(c, e)
  {
    forall e ensures e in Items(implemented) <==> MustImplement(c, e) {
      ItemsOf(implemented, e);
    }
  }

  /** container.l, calcIFaceOffset: one more than the highest slot. */
  method CalcIFaceOffset(c: Class) returns (offset: nat)
    ensures forall e :: MustImplement(c, e) ==> e.slot < offset
    ensures offset > 0 ==> exists e :: MustImplement(c, e) && e.slot == offset - 1
  {
    var implemented := PopulateAllImplementedInterfaces(c);
    var io: int := -1;
    var k := 0;
    while k < |implemented|
      invariant k <= |implemented| && io >= -1
      invariant forall e :: e in Items(implemented[..k]) ==> e.slot <= io
      invariant io >= 0 ==> exists e :: e in Items(implemented[..k]) && e.slot == io
    {
      assert implemented[..k + 1][..k] == implemented[..k];
      var methods := implemented[k].methods;
      ghost var before := Items(implemented[..k]);
      var n := 0;
      while n < |methods|
        invariant n <= |methods| && io >= -1
        invariant forall e :: e in before + methods[..n] ==> e.slot <= io
        invariant io >= 0 ==> exists e :: e in before + methods[..n] && e.slot == io
      {
        assert before + methods[..n + 1] == before + methods[..n] + [methods[n]];
        assert methods[n] in before + methods[..n + 1];
        if methods[n].slot > io {
          io := methods[n].slot;
        }
        n := n + 1;
      }
      assert methods[..n] == methods;
      k := k + 1;
    }
    assert implemented[..k] == implemented;
    ItemsAreAll(c, implemented);
    offset := io + 1;
  }

  // ---------------------------------------------------------------------------------
  // The dispatch.

  /** The slots from the last to the first. Three words on the class follow, and then what the table pointer of an object
      points to. */
  method EmitBuffer(slots: seq<Entry>) returns (buffer: seq<Entry>)
    ensures |buffer| == |slots| && forall s :: 0 <= s < |slots| ==> buffer[|slots| - 1 - s] == slots[s]
  {
    buffer := [];
    var k: nat := |slots|;
    while k > 0
      invariant k <= |slots| && |buffer| == |slots| - k
      invariant forall s :: k <= s < |slots| ==> buffer[|slots| - 1 - s] == slots[s]
    {
      k := k - 1;
      buffer := buffer + [slots[k]];
    }
  }

  /** __ithunk: step through the pairs of the selector table until the selector is found. The table ends with a zero. */
  method InterfaceThunk(sit: seq<nat>, selector: nat, ghost n: nat) returns (code: nat)
    requires 2 * n + 1 < |sit| && sit[2 * n] == selector
    ensures exists k :: 0 <= k <= n && sit[2 * k] == selector && code == sit[2 * k + 1]
  {
    var r10 := 0;
    ghost var k := 0;
    while true
      invariant r10 == 2 * k && 0 <= k <= n
      decreases n - k
    {
      r10 := r10 + 2;
      if sit[r10 - 2] == selector {
        break;
      }
      k := k + 1;
    }
    code := sit[r10 - 1];
  }

  /** The selectors name the methods: equal selectors mean equal names and argument types. */
  ghost predicate SelectorsOk(c: Class)
  {
    forall e, f :: MustImplement(c, e) && MustImplement(c, f) && e.selector == f.selector ==> e.sig == f.sig
  }

  /** Calling what stands in the slot of e; the thunk searches. */
  method Run(c: Class, force: bool, entry: Entry, collisions: seq<nat>, e: InterfaceMethod, ghost slots: seq<Entry>,
             ghost done: seq<InterfaceMethod>) returns (code: nat)
    requires Entered(c, force, done, slots, collisions) && e in done && SelectorsOk(c)
    requires forall f :: f in done ==> MustImplement(c, f)
    requires e.slot < |slots| && entry == slots[e.slot]
    ensures code == CodeFor(c, e)
  {
    ghost var n :| 0 <= n < |done| && done[n] == e;
    code := 0;
    match entry
    case Code(x) => code := x;
    case Thunk =>
      code := InterfaceThunk(collisions + [0], e.selector, n);
      ghost var k :| 0 <= k <= n && collisions[2 * k] == e.selector && code == collisions[2 * k + 1];
      assert done[k] in done && done[k].sig == e.sig;
    case Null => assert false;
  }

  /** A call of interface method e on an object of the class: load the entry at its address, and let the thunk search
      if that is what is there. It reaches the method that the slow lookup finds, whatever slots collide. */
  method Invoke(c: Class, force: bool, buffer: seq<Entry>, offset: nat, collisions: seq<nat>, e: InterfaceMethod,
                ghost slots: seq<Entry>, ghost done: seq<InterfaceMethod>) returns (code: nat)
    requires Entered(c, force, done, slots, collisions) && e in done && SelectorsOk(c)
    requires forall f :: f in done ==> MustImplement(c, f)
    requires offset == |slots| <= |buffer|
    requires forall s :: 0 <= s < |slots| ==> buffer[|slots| - 1 - s] == slots[s]
    ensures code == CodeFor(c, e)
  {
    SlotInside(c, force, done, slots, collisions, e);
    hide Entered;
    var address := -(INTERFACE_OFFSET + e.slot);
    code := Run(c, force, buffer[offset + VTABLE_FIXED_SIZE + address], collisions, e, slots, done);
  }

  lemma SlotInside(c: Class, force: bool, done: seq<InterfaceMethod>, slots: seq<Entry>, collisions: seq<nat>, e: InterfaceMethod)
    requires Entered(c, force, done, slots, collisions) && e in done
    ensures e.slot < |slots|
  {
    var k :| 0 <= k < |done| && done[k] == e;
  }

  /** The interface part of the table is as long as calcIFaceOffset says. */
  lemma OffsetIsLength(c: Class, force: bool, done: seq<InterfaceMethod>, slots: seq<Entry>, collisions: seq<nat>,
                       offset: nat)
    requires Entered(c, force, done, slots, collisions) && forall e :: e in done <==> MustImplement(c, e)
    requires forall e :: MustImplement(c, e) ==> e.slot < offset
    requires offset > 0 ==> exists e :: MustImplement(c, e) && e.slot == offset - 1
    ensures offset == |slots|
  {
    if offset > 0 {
      var e :| MustImplement(c, e) && e.slot == offset - 1;
      assert e in done;
      var k :| 0 <= k < |done| && done[k] == e;
    }
    if |slots| > 0 {
      var k :| 0 <= k < |done| && done[k].slot == |slots| - 1;
      assert done[k] in done;
    }
  }

  /** Emitting the table of a class and calling any of its interface methods. */
  method Dispatch(c: Class, assignable: Assignable, force: bool, e: InterfaceMethod) returns (error: bool, code: nat)
    requires MustImplement(c, e) && SelectorsOk(c)
    ensures error <==> exists f :: MustImplement(c, f) && !CanImplement(c, assignable, f)
    ensures !error ==> FindImplementedMethod(c, e.sig).Some? && code == FindImplementedMethod(c, e.sig).value.code
  {
    hide Entered, FindImplementedMethod;
    var slots, collisions;
    ghost var done;
    error, slots, collisions, done := EmitInterfaceTables(c, assignable, force);
    code := 0;
    if !error {
      var offset := CalcIFaceOffset(c);
      OffsetIsLength(c, force, done, slots, collisions, offset);
      var buffer := EmitBuffer(slots);
      code := Invoke(c, force, buffer, offset, collisions, e, slots, done);
      assert CanImplement(c, assignable, e);
    }
  }

  const ExampleBase := Interface([InterfaceMethod(50, 0, 7, 0)], None)
  const ExampleSub := Interface([InterfaceMethod(51, 1, 7, 1), InterfaceMethod(52, 2, 7, 3)], Some(ExampleBase))
  const ExampleOther := Interface([InterfaceMethod(53, 3, 7, 1)], None)
  const ExampleFar := Interface([InterfaceMethod(54, 9, 7, 4)], None)
  const ExampleObject := Class([Method(9, 7, false, 19)], [ExampleFar], true, None)
  const ExampleParent := Class([Method(0, 7, false, 20), Method(3, 7, false, 23)], [ExampleOther], false, Some(ExampleObject))
  const ExampleChild :=
    Class([Method(1, 7, false, 31), Method(2, 7, false, 32), Method(0, 7, false, 30)], [ExampleSub], false, Some(ExampleParent))

  const SameType: Assignable := (a, b) => a == b

  /** A class that lists one interface with a super, and has a parent that lists another one, of which a method shares a
      slot; what the root class lists does not count. The slots hold methods of the class, overriding ones included. */
  method EmitExample() returns (error: bool, slots: seq<Entry>, collisions: seq<nat>)
    ensures !error && slots == [Code(30), Thunk, Null, Code(32)]
    ensures collisions == [51, 31, 52, 32, 50, 30, 53, 23]
  {
    hide *;
    ghost var done;
    error, slots, collisions, done := EmitInterfaceTables(ExampleChild, SameType, false);
    ExampleItems();
    ExampleImplemented();
    ExampleEntered(slots, collisions);
  }

  ghost function ExampleDone(): seq<InterfaceMethod>
  {
    [ExampleSub.methods[0], ExampleSub.methods[1], ExampleBase.methods[0], ExampleOther.methods[0]]
  }

  lemma ExampleItems()
    ensures Items(Listed(ExampleChild)) == ExampleDone()
  {
    hide Listed;
    ExampleListed();
    var all := [ExampleSub, ExampleBase, ExampleOther];
    assert all[..2][..1] == all[..1] && all[..1][..0] == [];
    assert Items(all[..1]) == ExampleSub.methods && Items(all[..2]) == ExampleSub.methods + ExampleBase.methods;
  }

  lemma ExampleListed()
    ensures Listed(ExampleChild) == [ExampleSub, ExampleBase, ExampleOther]
  {
    assert Supers(ExampleBase) == [ExampleBase] && Supers(ExampleSub) == [ExampleSub, ExampleBase];
    assert Supers(ExampleOther) == [ExampleOther];
    hide Supers;
    WithSupersNext([ExampleSub], 0);
    WithSupersNext([ExampleOther], 0);
    assert [ExampleSub][..1] == [ExampleSub] && [ExampleOther][..1] == [ExampleOther];
    ListedNext(ExampleParent);
    ListedNext(ExampleChild);
  }

  lemma ExampleFinds(sig: nat)
    requires sig < 4
    ensures FindImplementedMethod(ExampleChild, sig) == Some(Method(sig, 7, false, if sig == 3 then 23 else 30 + sig))
  {
    var child, parent := ExampleChild.members, ExampleParent.members;
    assert child[1..][1..] == child[2..] && child[2..][1..] == [];
    assert parent[1..][1..] == [];
    assert Member(child[2..], sig) == if sig == 0 then Some(child[2]) else None;
    assert Member(child[1..], sig) == if sig == 2 then Some(child[1]) else Member(child[2..], sig);
    assert Member(parent[1..], sig) == if sig == 3 then Some(parent[1]) else None;
  }

  lemma ExampleImplemented()
    ensures forall e :: MustImplement(ExampleChild, e) ==>
              var m := FindImplementedMethod(ExampleChild, e.sig);
              m.Some? && !m.value.isStatic && SameType(e.ret, m.value.ret)
  {
    hide *;
    forall e | MustImplement(ExampleChild, e)
      ensures var m := FindImplementedMethod(ExampleChild, e.sig);
              m.Some? && !m.value.isStatic && SameType(e.ret, m.value.ret)
    {
      ExampleItems();
      forall i ensures i in Listed(ExampleChild) <==> Implements(ExampleChild, i) { ListedImplements(ExampleChild, i); }
      ItemsAreAll(ExampleChild, Listed(ExampleChild));
      ExampleMethod(e);
    }
  }

  lemma ExampleMethod(e: InterfaceMethod)
    requires e in ExampleDone()
    ensures e.ret == 7 && e.sig < 4
    ensures var m := FindImplementedMethod(ExampleChild, e.sig);
            m.Some? && !m.value.isStatic && SameType(e.ret, m.value.ret)
  {
    hide FindImplementedMethod;
    ExampleFinds(e.sig);
  }

  lemma ExampleCode(k: nat)
    requires k < 4
    ensures CodeFor(ExampleChild, ExampleDone()[k]) == [31, 32, 30, 23][k]
  {
    hide FindImplementedMethod;
    ExampleFinds(ExampleDone()[k].sig);
  }

  lemma ExampleEntered(slots: seq<Entry>, collisions: seq<nat>)
    requires Entered(ExampleChild, false, ExampleDone(), slots, collisions)
    ensures slots == [Code(30), Thunk, Null, Code(32)]
    ensures collisions == [51, 31, 52, 32, 50, 30, 53, 23]
  {
    hide CodeFor, SlotState, Holds;
    var done := ExampleDone();
    assert done[1].slot == 3 && Holds(done, |slots| - 1) && |collisions| == 8;
    ExampleSlot(|slots| - 1);
    forall k: nat | k < 4 ensures CodeFor(ExampleChild, done[k]) == [31, 32, 30, 23][k] { ExampleCode(k); }
    SlotsByState(slots, done);
    assert collisions[2 * 0] == 51 && collisions[2 * 0 + 1] == 31 && collisions[2 * 1] == 52 && collisions[2 * 1 + 1] == 32;
    assert collisions[2 * 2] == 50 && collisions[2 * 2 + 1] == 30 && collisions[2 * 3] == 53 && collisions[2 * 3 + 1] == 23;
    assert done[2].slot == 0 && slots[0] == Code(30);
  }

  lemma SlotsByState(slots: seq<Entry>, done: seq<InterfaceMethod>)
    requires done == ExampleDone() && |slots| == 4 && forall s :: 0 <= s < |slots| ==> SlotState(false, done, s, slots[s])
    ensures slots[0].Code? && slots[1] == Thunk && slots[2] == Null && slots[3].Code?
  {
    forall s: nat ensures (Holds(done, s) <==> s == 0 || s == 1 || s == 3) && (Shared(done, s) <==> s == 1) {
      ExampleSlot(s);
    }
    hide Holds, Shared;
    assert SlotState(false, done, 0, slots[0]) && SlotState(false, done, 1, slots[1]);
    assert SlotState(false, done, 2, slots[2]) && SlotState(false, done, 3, slots[3]);
  }

  lemma ExampleSlot(s: nat)
    ensures Holds(ExampleDone(), s) <==> s == 0 || s == 1 || s == 3
    ensures Shared(ExampleDone(), s) <==> s == 1
  {
    var done := ExampleDone();
    assert done[0].slot == 1 && done[1].slot == 3 && done[2].slot == 0 && done[3].slot == 1;
  }

  /** Where no two methods share a slot, and unless the thunk is forced, no call goes through it. */
  lemma DirectEntry(c: Class, force: bool, done: seq<InterfaceMethod>, slots: seq<Entry>, collisions: seq<nat>, k: nat)
    requires Entered(c, force, done, slots, collisions) && k < |done|
    ensures done[k].slot < |slots|
    ensures slots[done[k].slot] == Code(CodeFor(c, done[k])) <==> !force && !Shared(done, done[k].slot)
  {
    assert Holds(done, done[k].slot);
    assert SlotState(force, done, done[k].slot, slots[done[k].slot]);
  }
}
