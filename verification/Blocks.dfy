/** Basic blocks under construction (llvm.l, class IRBlock), and what running them means. */
module Blocks {

  datatype Option<T> = None | Some(value: T)

  /** What the primitive statements and the expressions of the source do to the state of the program, which is an
      abstract number here. Expressions may have side effects. */
  datatype Sem = Sem(exec: (nat, int) -> int, value: (nat, int) -> int, effect: (nat, int) -> int)

  /** Do runs a primitive statement; Eval computes an expression into a register. */
  datatype Instr = Do(stmt: nat) | Eval(reg: nat, expr: nat)

  /** CondNe and CondEq compare two registers, CondFalse looks at one; each names the block for yes, then for no. */
  datatype Term = Br(dest: nat) | CondNe(a: nat, b: nat, t: nat, f: nat) | CondEq(a: nat, b: nat, t: nat, f: nat)
                | CondFalse(a: nat, t: nat, f: nat)

  datatype Blk = Blk(instrs: seq<Instr>, term: Option<Term>)

  /** All blocks created so far, those linked into the function, the current one, and the next free register. */
  datatype Ir = Ir(blocks: seq<Blk>, inserted: set<nat>, current: nat, nregs: nat)

  // ---------------------------------------------------------------------------------
  // Running.

  type Regs = map<nat, int>

  /** Before instruction pc of a block. */
  datatype Conf = Conf(block: nat, pc: nat, state: int, regs: Regs)

  function Reg(regs: Regs, r: nat): int
  {
    if r in regs then regs[r] else 0
  }

  /** 0 stands for false. */
  function Target(t: Term, regs: Regs): nat
  {
    match t
    case Br(dest) => dest
    case CondNe(a, b, yes, no) => if Reg(regs, a) != Reg(regs, b) then yes else no
    case CondEq(a, b, yes, no) => if Reg(regs, a) == Reg(regs, b) then yes else no
    case CondFalse(a, yes, no) => if Reg(regs, a) == 0 then yes else no
  }

  ghost predicate Goes(ir: Ir, sem: Sem, c: Conf, c': Conf)
  {
    && c.block < |ir.blocks|
    && var blk := ir.blocks[c.block];
       if c.pc < |blk.instrs| then
         c' == match blk.instrs[c.pc]
               case Do(x) => Conf(c.block, c.pc + 1, sem.exec(x, c.state), c.regs)
               case Eval(r, e) => Conf(c.block, c.pc + 1, sem.effect(e, c.state), c.regs[r := sem.value(e, c.state)])
       else c.pc == |blk.instrs| && blk.term.Some? && c' == Conf(Target(blk.term.value, c.regs), 0, c.state, c.regs)
  }

  ghost predicate RunsIn(ir: Ir, sem: Sem, c: Conf, c': Conf, n: nat)
    decreases n
  {
    if n == 0 then c == c' else exists d :: Goes(ir, sem, c, d) && RunsIn(ir, sem, d, c', n - 1)
  }

  ghost predicate Runs(ir: Ir, sem: Sem, c: Conf, c': Conf)
  {
    exists n: nat :: RunsIn(ir, sem, c, c', n)
  }

  lemma RunsRefl(ir: Ir, sem: Sem, c: Conf)
    ensures Runs(ir, sem, c, c)
  {
    assert RunsIn(ir, sem, c, c, 0);
  }

  lemma RunsOne(ir: Ir, sem: Sem, c: Conf, c': Conf)
    requires Goes(ir, sem, c, c')
    ensures Runs(ir, sem, c, c')
  {
    assert RunsIn(ir, sem, c', c', 0);
    assert RunsIn(ir, sem, c, c', 1);
  }

  lemma {:induction false} RunsInThen(ir: Ir, sem: Sem, c: Conf, d: Conf, e: Conf, m: nat, n: nat)
    requires RunsIn(ir, sem, c, d, m) && RunsIn(ir, sem, d, e, n)
    ensures RunsIn(ir, sem, c, e, m + n)
    decreases m
  {
    hide Goes;
    if m > 0 {
      var c1 :| Goes(ir, sem, c, c1) && RunsIn(ir, sem, c1, d, m - 1);
      RunsInThen(ir, sem, c1, d, e, m - 1, n);
    }
  }

  lemma RunsThen(ir: Ir, sem: Sem, c: Conf, d: Conf, e: Conf)
    requires Runs(ir, sem, c, d) && Runs(ir, sem, d, e)
    ensures Runs(ir, sem, c, e)
  {
    hide RunsIn;
    var m: nat :| RunsIn(ir, sem, c, d, m);
    var n: nat :| RunsIn(ir, sem, d, e, n);
    RunsInThen(ir, sem, c, d, e, m, n);
  }

  // ---------------------------------------------------------------------------------
  // Construction only adds.

  ghost predicate BlkGrows(b: Blk, b': Blk)
  {
    b.instrs <= b'.instrs && (b.term.Some? ==> b' == b)
  }

  ghost predicate Grows(ir: Ir, ir': Ir)
  {
    && |ir.blocks| <= |ir'.blocks| && ir.nregs <= ir'.nregs && ir.inserted <= ir'.inserted
    && forall b :: 0 <= b < |ir.blocks| ==> BlkGrows(ir.blocks[b], ir'.blocks[b])
  }

  lemma GrowsThen(a: Ir, b: Ir, c: Ir)
    requires Grows(a, b) && Grows(b, c)
    ensures Grows(a, c)
  {
    forall k | 0 <= k < |a.blocks| ensures BlkGrows(a.blocks[k], c.blocks[k]) {
      assert BlkGrows(a.blocks[k], b.blocks[k]) && BlkGrows(b.blocks[k], c.blocks[k]);
    }
  }

  /** What ran still runs when more was added. */
  lemma {:induction false} RunsInGrown(ir: Ir, ir': Ir, sem: Sem, c: Conf, c': Conf, n: nat)
    requires Grows(ir, ir') && RunsIn(ir, sem, c, c', n)
    ensures RunsIn(ir', sem, c, c', n)
    decreases n
  {
    if n > 0 {
      var d :| Goes(ir, sem, c, d) && RunsIn(ir, sem, d, c', n - 1);
      assert BlkGrows(ir.blocks[c.block], ir'.blocks[c.block]);
      assert Goes(ir', sem, c, d);
      RunsInGrown(ir, ir', sem, d, c', n - 1);
    }
  }

  lemma RunsGrown(ir: Ir, ir': Ir, sem: Sem, c: Conf, c': Conf)
    requires Grows(ir, ir') && Runs(ir, sem, c, c')
    ensures Runs(ir', sem, c, c')
  {
    var n: nat :| RunsIn(ir, sem, c, c', n);
    RunsInGrown(ir, ir', sem, c, c', n);
  }

  // ---------------------------------------------------------------------------------
  // The shape of the control flow graph.

  function Targets(t: Term): set<nat>
  {
    match t
    case Br(dest) => {dest}
    case CondNe(_, _, yes, no) => {yes, no}
    case CondEq(_, _, yes, no) => {yes, no}
    case CondFalse(_, yes, no) => {yes, no}
  }

  /** Every inserted block but the current one has its terminator; every branch leads to an inserted block or to one of
      the pending ones, which are created, empty and still to be inserted. */
  ghost predicate Shaped(ir: Ir, pending: set<nat>)
  {
    && ir.current in ir.inserted && ir.current < |ir.blocks| && ir.blocks[ir.current].term.None?
    && (forall b :: b in ir.inserted ==> b < |ir.blocks| && (b != ir.current ==> ir.blocks[b].term.Some?))
    && (forall b :: b in ir.inserted && ir.blocks[b].term.Some? ==> Targets(ir.blocks[b].term.value) <= ir.inserted + pending)
    && (forall b :: b in pending ==> b < |ir.blocks| && b !in ir.inserted && ir.blocks[b] == Blk([], None))
  }

  /** The end of the current block. */
  function Here(ir: Ir): (nat, nat)
    requires ir.current < |ir.blocks|
  {
    (ir.current, |ir.blocks[ir.current].instrs|)
  }

  function Put(ir: Ir, i: Instr): Ir
    requires ir.current < |ir.blocks|
  {
    ir.(blocks := ir.blocks[ir.current := ir.blocks[ir.current].(instrs := ir.blocks[ir.current].instrs + [i])])
  }

  function Ended(ir: Ir, t: Term): Ir
    requires ir.current < |ir.blocks|
  {
    ir.(blocks := ir.blocks[ir.current := ir.blocks[ir.current].(term := Some(t))])
  }

  function Entered(ir: Ir, bb: nat): Ir
  {
    ir.(inserted := ir.inserted + {bb}, current := bb)
  }

  function Created(ir: Ir): Ir
  {
    ir.(blocks := ir.blocks + [Blk([], None)])
  }

  lemma CreatedShaped(ir: Ir, pending: set<nat>)
    requires Shaped(ir, pending)
    ensures Grows(ir, Created(ir)) && Shaped(Created(ir), pending + {|ir.blocks|})
  {
  }

  lemma PutShaped(ir: Ir, pending: set<nat>, i: Instr)
    requires Shaped(ir, pending)
    ensures Grows(ir, Put(ir, i)) && Shaped(Put(ir, i), pending)
  {
  }

  /** Ending the current block and going on in a pending one. */
  lemma EndedShaped(ir: Ir, pending: set<nat>, t: Term, bb: nat)
    requires Shaped(ir, pending) && bb in pending && Targets(t) <= ir.inserted + pending
    ensures var ir' := Entered(Ended(ir, t), bb); Grows(ir, ir') && Shaped(ir', pending - {bb})
    ensures Here(Entered(Ended(ir, t), bb)) == (bb, 0)
  {
    var ir' := Entered(Ended(ir, t), bb);
    forall b | b in ir'.inserted && ir'.blocks[b].term.Some?
      ensures Targets(ir'.blocks[b].term.value) <= ir'.inserted + (pending - {bb})
    {
    }
  }

  // ---------------------------------------------------------------------------------
  // Single steps at the end of the current block.

  /** From one point to another the state changes as told, and the registers below n keep their values. */
  ghost predicate Arrives(ir: Ir, sem: Sem, p: (nat, nat), st: int, regs: Regs, q: (nat, nat), st': int, n: nat)
  {
    exists regs': Regs :: Agree(regs, regs', n) && Runs(ir, sem, Conf(p.0, p.1, st, regs), Conf(q.0, q.1, st', regs'))
  }

  ghost predicate Agree(regs: Regs, regs': Regs, n: nat)
  {
    forall r: nat :: r < n ==> Reg(regs', r) == Reg(regs, r)
  }

  lemma ArrivesGrown(ir: Ir, ir': Ir, sem: Sem, p: (nat, nat), st: int, regs: Regs, q: (nat, nat), st': int, n: nat)
    requires Grows(ir, ir') && Arrives(ir, sem, p, st, regs, q, st', n)
    ensures Arrives(ir', sem, p, st, regs, q, st', n)
  {
    hide Runs, Agree, Grows;
    var regs': Regs :| Agree(regs, regs', n) && Runs(ir, sem, Conf(p.0, p.1, st, regs), Conf(q.0, q.1, st', regs'));
    RunsGrown(ir, ir', sem, Conf(p.0, p.1, st, regs), Conf(q.0, q.1, st', regs'));
  }

  lemma RunInstr(ir0: Ir, ir: Ir, sem: Sem, i: Instr, st: int, regs: Regs)
    requires ir0.current < |ir0.blocks| && Grows(Put(ir0, i), ir)
    ensures Runs(ir, sem, Conf(Here(ir0).0, Here(ir0).1, st, regs),
                 match i
                 case Do(x) => Conf(Here(Put(ir0, i)).0, Here(Put(ir0, i)).1, sem.exec(x, st), regs)
                 case Eval(r, e) => Conf(Here(Put(ir0, i)).0, Here(Put(ir0, i)).1, sem.effect(e, st), regs[r := sem.value(e, st)]))
  {
    var b := ir0.current;
    var pc := |ir0.blocks[b].instrs|;
    assert BlkGrows(Put(ir0, i).blocks[b], ir.blocks[b]);
    assert ir.blocks[b].instrs[pc] == i;
    RunsOne(ir, sem, Conf(b, pc, st, regs),
            match i
            case Do(x) => Conf(b, pc + 1, sem.exec(x, st), regs)
            case Eval(r, e) => Conf(b, pc + 1, sem.effect(e, st), regs[r := sem.value(e, st)]));
  }

  lemma RunTerm(ir0: Ir, ir: Ir, sem: Sem, t: Term, st: int, regs: Regs)
    requires ir0.current < |ir0.blocks| && Grows(Ended(ir0, t), ir)
    ensures Runs(ir, sem, Conf(Here(ir0).0, Here(ir0).1, st, regs), Conf(Target(t, regs), 0, st, regs))
  {
    var b := ir0.current;
    assert BlkGrows(Ended(ir0, t).blocks[b], ir.blocks[b]);
    RunsOne(ir, sem, Conf(b, |ir0.blocks[b].instrs|, st, regs), Conf(Target(t, regs), 0, st, regs));
  }

  lemma EnteredGrows(ir: Ir, t: Term, bb: nat, ir': Ir)
    requires ir.current < |ir.blocks| && Grows(Entered(Ended(ir, t), bb), ir')
    ensures Grows(Ended(ir, t), ir')
  {
  }

  /** The class itself; the blocks are numbered instead of being referred to by their handles. */
  class IRBlock {
    var blocks: seq<Blk>
    var inserted: set<nat>
    var currentBlock: nat
    var nregs: nat

    function Value(): Ir
      reads this
    {
      Ir(blocks, inserted, currentBlock, nregs)
    }

    /** The second init: one block that is the entry. */
    constructor ()
      ensures Shaped(Value(), {}) && Value() == Ir([Blk([], None)], {0}, 0, 0)
    {
      blocks, inserted, currentBlock, nregs := [Blk([], None)], {0}, 0, 0;
    }

    method Block() returns (bb: nat)
      modifies this
      ensures bb == |old(blocks)| && Value() == Created(old(Value()))
    {
      bb := |blocks|;
      blocks := blocks + [Blk([], None)];
    }

    method Instruction(i: Instr)
      requires currentBlock < |blocks|
      modifies this
      ensures Value() == Put(old(Value()), i)
    {
      blocks := blocks[currentBlock := blocks[currentBlock].(instrs := blocks[currentBlock].instrs + [i])];
    }

    /** A terminator is only ever built into a block that has none. */
    method Terminate(t: Term)
      requires currentBlock < |blocks| && blocks[currentBlock].term.None?
      modifies this
      ensures Value() == Ended(old(Value()), t)
    {
      blocks := blocks[currentBlock := blocks[currentBlock].(term := Some(t))];
    }

    /** Jump to the block if the current one has no terminator, and go on there. */
    method Label(bb: nat)
      requires currentBlock < |blocks| && bb < |blocks|
      modifies this
      ensures Value() == Entered(if old(blocks[currentBlock].term).None? then Ended(old(Value()), Br(bb)) else old(Value()), bb)
    {
      if blocks[currentBlock].term.None? {
        Terminate(Br(bb));
      }
      inserted := inserted + {bb};
      currentBlock := bb;
    }

    method JumpLabel(dest: nat, next: nat)
      requires currentBlock < |blocks| && blocks[currentBlock].term.None? && next < |blocks|
      modifies this
      ensures Value() == Entered(Ended(old(Value()), Br(dest)), next)
    {
      Terminate(Br(dest));
      Label(next);
    }

    method BranchLabel(c: Term, next: nat)
      requires currentBlock < |blocks| && blocks[currentBlock].term.None? && next < |blocks|
      modifies this
      ensures Value() == Entered(Ended(old(Value()), c), next)
    {
      Terminate(c);
      Label(next);
    }

    /** The condition is completed with the new block as its no branch. */
    method Branch(c: Term)
      requires currentBlock < |blocks| && blocks[currentBlock].term.None? && !c.Br? && c.f == |blocks|
      modifies this
      ensures Value() == Entered(Ended(Created(old(Value())), c), |old(blocks)|)
    {
      var f := Block();
      BranchLabel(c, f);
    }

    method NewRegister() returns (r: nat)
      modifies this
      ensures r == old(nregs) && Value() == old(Value()).(nregs := old(nregs) + 1)
    {
      r := nregs;
      nregs := nregs + 1;
    }
  }
}
