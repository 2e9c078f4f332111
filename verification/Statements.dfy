/** Compiling if and switch to basic blocks (parsecond.l). */
module Statements {
  import opened Blocks

  /** Expressions are numbered. A condition is false if its value is 0. */
  datatype Stmt =
    | Prim(x: nat)
    | Sequence(stmts: seq<Stmt>)
    | If(cond: nat, yes: Stmt, no: Option<Stmt>)
    | Switch(expr: nat, cases: seq<Case>, otherwise: Option<Stmt>)

  datatype Case = Case(exprs: seq<nat>, body: Stmt)

  // ---------------------------------------------------------------------------------
  // What the statements mean.

  ghost function Exec(sem: Sem, s: Stmt, st: int): int
    decreases s, 1
  {
    match s
    case Prim(x) => sem.exec(x, st)
    case Sequence(stmts) => ExecAll(sem, stmts, st)
    case If(cond, yes, no) =>
      if sem.value(cond, st) != 0 then Exec(sem, yes, sem.effect(cond, st))
      else if no.Some? then Exec(sem, no.value, sem.effect(cond, st))
      else sem.effect(cond, st)
    case Switch(expr, cases, otherwise) =>
      var (done, st') := ExecCases(sem, sem.value(expr, st), cases, sem.effect(expr, st));
      if done then st' else if otherwise.Some? then Exec(sem, otherwise.value, st') else st'
  }

  ghost function ExecAll(sem: Sem, stmts: seq<Stmt>, st: int): int
    decreases stmts, 0
  {
    if stmts == [] then st else Exec(sem, stmts[|stmts|-1], ExecAll(sem, stmts[..|stmts|-1], st))
  }

  /** The expressions are evaluated in order, up to the first that equals the value. */
  ghost function Matches(sem: Sem, v: int, exprs: seq<nat>, st: int): (bool, int)
  {
    if exprs == [] then (false, st)
    else
      var (found, st') := Matches(sem, v, exprs[..|exprs|-1], st);
      if found then (true, st')
      else (sem.value(exprs[|exprs|-1], st') == v, sem.effect(exprs[|exprs|-1], st'))
  }

  /** The first case that matches is executed, and no other. */
  ghost function ExecCases(sem: Sem, v: int, cases: seq<Case>, st: int): (bool, int)
    decreases cases, 0
  {
    if cases == [] then (false, st)
    else
      var (done, st') := ExecCases(sem, v, cases[..|cases|-1], st);
      if done then (true, st')
      else
        var c := cases[|cases|-1];
        var (found, st2) := Matches(sem, v, c.exprs, st');
        if found then (true, Exec(sem, c.body, st2)) else (false, st2)
  }

  /** States are written as digits: a primitive statement and an expression append their number, and the value of an
      expression is its number in an even state, one more in an odd one. */
  ghost function DigitSem(): Sem
  {
    Sem((x, st) => 10 * st + x, (e, st) => e + st % 2, (e, st) => 10 * st + e)
  }

  ghost function ExampleCases(): seq<Case>
  {
    [Case([2, 3], Prim(7)), Case([4, 1, 5], Prim(8)), Case([1], Prim(9))]
  }

  lemma ExampleSlices()
    ensures [2, 3][..1] == [2] && [4, 1, 5][..2] == [4, 1] && [4, 1][..1] == [4] && [2][..0] == [4][..0] == [1][..0] == []
    ensures ExampleCases()[..2][..1] == ExampleCases()[..1] && ExampleCases()[..1][..0] == []
  {
  }

  /** A switch evaluates its expression once, then those of the cases up to the first that equals its value, and runs
      that case alone. */
  lemma MatchExample()
    ensures Exec(DigitSem(), Switch(1, ExampleCases(), Some(Prim(6))), 0) == 123418
  {
    ExampleSlices();
    var sem, cases := DigitSem(), ExampleCases();
    assert Matches(sem, 1, [2], 1) == (false, 12);
    assert Matches(sem, 1, [2, 3], 1) == (false, 123);
    assert ExecCases(sem, 1, cases[..1], 1) == (false, 123);
    assert Matches(sem, 1, [4], 123) == (false, 1234);
    assert Matches(sem, 1, [4, 1], 123) == (true, 12341);
    assert Matches(sem, 1, [4, 1, 5], 123) == (true, 12341);
    assert ExecCases(sem, 1, cases[..2], 1) == (true, 123418);
  }

  /** Without a match it runs the default, if there is one. */
  lemma DefaultExample()
    ensures Exec(DigitSem(), Switch(0, ExampleCases(), Some(Prim(6))), 0) == 2341516
    ensures Exec(DigitSem(), Switch(0, ExampleCases(), None), 0) == 234151
  {
    ExampleSlices();
    var sem, cases := DigitSem(), ExampleCases();
    assert Matches(sem, 0, [2], 0) == (false, 2);
    assert Matches(sem, 0, [2, 3], 0) == (false, 23);
    assert ExecCases(sem, 0, cases[..1], 0) == (false, 23);
    assert Matches(sem, 0, [4], 23) == (false, 234);
    assert Matches(sem, 0, [4, 1], 23) == (false, 2341);
    assert Matches(sem, 0, [4, 1, 5], 23) == (false, 23415);
    assert ExecCases(sem, 0, cases[..2], 0) == (false, 23415);
    assert Matches(sem, 0, [1], 23415) == (false, 234151);
    assert ExecCases(sem, 0, cases, 0) == (false, 234151);
  }

  lemma IfExample()
    ensures Exec(DigitSem(), If(1, Prim(2), Some(Prim(3))), 4) == 412
    ensures Exec(DigitSem(), If(0, Prim(2), Some(Prim(3))), 4) == 403
    ensures Exec(DigitSem(), If(0, Prim(2), None), 4) == 40
    ensures Exec(DigitSem(), If(0, Prim(2), None), 5) == 502
  {
  }

  // ---------------------------------------------------------------------------------
  // What compiling a statement achieves.

  /** From the end of the current block before to the end of the current block after, the code does what the statement
      does, whatever the primitive statements and expressions do, and spares the registers used so far. */
  ghost predicate Compiled(ir: Ir, ir': Ir, s: Stmt)
  {
    && ir.current < |ir.blocks| && ir'.current < |ir'.blocks|
    && forall sem: Sem, st: int, regs: Regs :: CompiledAt(ir, ir', s, sem, st, regs)
  }

  ghost predicate CompiledAt(ir: Ir, ir': Ir, s: Stmt, sem: Sem, st: int, regs: Regs)
    requires ir.current < |ir.blocks| && ir'.current < |ir'.blocks|
  {
    Arrives(ir', sem, Here(ir), st, regs, Here(ir'), Exec(sem, s, st), ir.nregs)
  }

  /** The same for a list of statements, or for a prefix of one. */
  ghost predicate CompiledAll(ir: Ir, ir': Ir, stmts: seq<Stmt>)
  {
    && ir.current < |ir.blocks| && ir'.current < |ir'.blocks|
    && forall sem: Sem, st: int, regs: Regs :: Arrives(ir', sem, Here(ir), st, regs, Here(ir'), ExecAll(sem, stmts, st), ir.nregs)
  }

  /** After some of the expressions of a case: at the match block if one of them matched, else at the end. */
  ghost predicate Tested(ir: Ir, ir': Ir, temp: nat, exprs: seq<nat>, found: nat)
  {
    && ir.current < |ir.blocks| && ir'.current < |ir'.blocks|
    && forall sem: Sem, st: int, regs: Regs :: TestedAt(ir, ir', temp, exprs, found, sem, st, regs)
  }

  ghost predicate TestedAt(ir: Ir, ir': Ir, temp: nat, exprs: seq<nat>, found: nat, sem: Sem, st: int, regs: Regs)
    requires ir.current < |ir.blocks| && ir'.current < |ir'.blocks|
  {
    var (yes, st') := Matches(sem, Reg(regs, temp), exprs, st);
    Arrives(ir', sem, Here(ir), st, regs, if yes then (found, 0) else Here(ir'), st', ir.nregs)
  }

  /** After some of the cases: at the exit block if one of them was executed, else at the end. */
  ghost predicate CompiledCases(ir: Ir, ir': Ir, temp: nat, cases: seq<Case>, exit: nat)
  {
    && ir.current < |ir.blocks| && ir'.current < |ir'.blocks|
    && forall sem: Sem, st: int, regs: Regs :: CasesAt(ir, ir', temp, cases, exit, sem, st, regs)
  }

  ghost predicate CasesAt(ir: Ir, ir': Ir, temp: nat, cases: seq<Case>, exit: nat, sem: Sem, st: int, regs: Regs)
    requires ir.current < |ir.blocks| && ir'.current < |ir'.blocks|
  {
    var (done, st') := ExecCases(sem, Reg(regs, temp), cases, st);
    Arrives(ir', sem, Here(ir), st, regs, if done then (exit, 0) else Here(ir'), st', ir.nregs)
  }

  /** One case by itself. */
  ghost predicate CompiledCase(ir: Ir, ir': Ir, temp: nat, c: Case, exit: nat)
  {
    && ir.current < |ir.blocks| && ir'.current < |ir'.blocks|
    && forall sem: Sem, st: int, regs: Regs :: CaseAt(ir, ir', temp, c, exit, sem, st, regs)
  }

  ghost predicate CaseAt(ir: Ir, ir': Ir, temp: nat, c: Case, exit: nat, sem: Sem, st: int, regs: Regs)
    requires ir.current < |ir.blocks| && ir'.current < |ir'.blocks|
  {
    var (yes, st') := Matches(sem, Reg(regs, temp), c.exprs, st);
    Arrives(ir', sem, Here(ir), st, regs, if yes then (exit, 0) else Here(ir'), if yes then Exec(sem, c.body, st') else st', ir.nregs)
  }

  // ---------------------------------------------------------------------------------
  // Putting runs together.

  lemma Through(ir: Ir, sem: Sem, p: (nat, nat), st: int, regs: Regs, q: (nat, nat), st1: int, regs1: Regs, r: (nat,
                nat), st2: int,
                n: nat, n1: nat)
    requires Runs(ir, sem, Conf(p.0, p.1, st, regs), Conf(q.0, q.1, st1, regs1)) && Agree(regs, regs1, n)
    requires Arrives(ir, sem, q, st1, regs1, r, st2, n1) && n <= n1
    ensures Arrives(ir, sem, p, st, regs, r, st2, n)
  {
    hide Runs;
    var regs2: Regs :| Agree(regs1, regs2, n1) && Runs(ir, sem, Conf(q.0, q.1, st1, regs1), Conf(r.0, r.1, st2, regs2));
    RunsThen(ir, sem, Conf(p.0, p.1, st, regs), Conf(q.0, q.1, st1, regs1), Conf(r.0, r.1, st2, regs2));
  }

  lemma Stays(ir: Ir, sem: Sem, p: (nat, nat), st: int, regs: Regs, n: nat)
    ensures Arrives(ir, sem, p, st, regs, p, st, n)
  {
    RunsRefl(ir, sem, Conf(p.0, p.1, st, regs));
  }

  /** Going on from where a compiled statement arrives. */
  lemma CompiledThen(ir0: Ir, ir1: Ir, ir: Ir, s: Stmt, sem: Sem, st: int, regs: Regs, r: (nat, nat), st2: int, n: nat)
    requires Compiled(ir0, ir1, s) && Grows(ir1, ir) && n <= ir0.nregs
    requires forall regs1: Regs :: Agree(regs, regs1, ir0.nregs) ==> Arrives(ir, sem, Here(ir1), Exec(sem, s, st), regs1, r, st2, n)
    ensures Arrives(ir, sem, Here(ir0), st, regs, r, st2, n)
  {
    hide Grows, Runs, Exec;
    assert CompiledAt(ir0, ir1, s, sem, st, regs);
    ArrivesGrown(ir1, ir, sem, Here(ir0), st, regs, Here(ir1), Exec(sem, s, st), ir0.nregs);
    var p, q := Here(ir0), Here(ir1);
    var regs1: Regs :| Agree(regs, regs1, ir0.nregs) && Runs(ir, sem, Conf(p.0, p.1, st, regs), Conf(q.0, q.1, Exec(sem, s, st), regs1));
    Through(ir, sem, p, st, regs, q, Exec(sem, s, st), regs1, r, st2, n, n);
  }

  /** A branch from the end of one block to another point from which the rest follows. */
  lemma TermThen(ir0: Ir, t: Term, ir: Ir, sem: Sem, st: int, regs: Regs, r: (nat, nat), st2: int, n: nat)
    requires ir0.current < |ir0.blocks| && Grows(Ended(ir0, t), ir)
    requires Arrives(ir, sem, (Target(t, regs), 0), st, regs, r, st2, n)
    ensures Arrives(ir, sem, Here(ir0), st, regs, r, st2, n)
  {
    hide Grows, Runs, Arrives, Target;
    RunTerm(ir0, ir, sem, t, st, regs);
    Through(ir, sem, Here(ir0), st, regs, (Target(t, regs), 0), st, regs, r, st2, n, n);
  }

  /** Evaluating an expression into a fresh register. */
  lemma EvalThen(ir0: Ir, e: nat, reg: nat, ir: Ir, sem: Sem, st: int, regs: Regs, r: (nat, nat), st2: int, n: nat, n1: nat)
    requires ir0.current < |ir0.blocks| && Grows(Put(ir0, Eval(reg, e)), ir) && n <= reg && n <= n1
    requires Arrives(ir, sem, Here(Put(ir0, Eval(reg, e))), sem.effect(e, st), regs[reg := sem.value(e, st)], r, st2, n1)
    ensures Arrives(ir, sem, Here(ir0), st, regs, r, st2, n)
  {
    hide Grows, Runs, Arrives;
    RunInstr(ir0, ir, sem, Eval(reg, e), st, regs);
    var i := Eval(reg, e);
    Through(ir, sem, Here(ir0), st, regs, Here(Put(ir0, i)), sem.effect(e, st), regs[reg := sem.value(e, st)], r, st2, n, n1);
  }

  // ---------------------------------------------------------------------------------
  // The constructs, one by one.

  lemma PrimCompiled(ir: Ir, x: nat)
    requires ir.current < |ir.blocks| && Grows(ir, Put(ir, Do(x)))
    ensures Compiled(ir, Put(ir, Do(x)), Prim(x))
  {
    hide Runs;
    var ir' := Put(ir, Do(x));
    assert Grows(ir', ir');
    forall sem: Sem, st: int, regs: Regs ensures CompiledAt(ir, ir', Prim(x), sem, st, regs) {
      RunInstr(ir, ir', sem, Do(x), st, regs);
      Stays(ir', sem, Here(ir'), sem.exec(x, st), regs, ir.nregs);
      Through(ir', sem, Here(ir), st, regs, Here(ir'), sem.exec(x, st), regs, Here(ir'), sem.exec(x, st), ir.nregs, ir.nregs);
    }
  }

  lemma AllNone(ir: Ir)
    requires ir.current < |ir.blocks|
    ensures CompiledAll(ir, ir, [])
  {
    hide Arrives;
    forall sem: Sem, st: int, regs: Regs ensures Arrives(ir, sem, Here(ir), st, regs, Here(ir), ExecAll(sem, [], st), ir.nregs) {
      Stays(ir, sem, Here(ir), st, regs, ir.nregs);
    }
  }

  lemma AllNext(ir0: Ir, ir1: Ir, ir2: Ir, front: seq<Stmt>, s: Stmt)
    requires CompiledAll(ir0, ir1, front) && Compiled(ir1, ir2, s) && Grows(ir0, ir1) && Grows(ir1, ir2)
    ensures CompiledAll(ir0, ir2, front + [s])
  {
    hide Grows, Runs, Exec;
    NregsGrow(ir0, ir1);
    assert (front + [s])[..|front|] == front;
    forall sem: Sem, st: int, regs: Regs
      ensures Arrives(ir2, sem, Here(ir0), st, regs, Here(ir2), ExecAll(sem, front + [s], st), ir0.nregs)
    {
      var st1 := ExecAll(sem, front, st);
      assert Arrives(ir1, sem, Here(ir0), st, regs, Here(ir1), st1, ir0.nregs);
      ArrivesGrown(ir1, ir2, sem, Here(ir0), st, regs, Here(ir1), st1, ir0.nregs);
      var p, q := Here(ir0), Here(ir1);
      var regs1: Regs :| Agree(regs, regs1, ir0.nregs) && Runs(ir2, sem, Conf(p.0, p.1, st, regs), Conf(q.0, q.1, st1, regs1));
      assert CompiledAt(ir1, ir2, s, sem, st1, regs1);
      Through(ir2, sem, p, st, regs, q, st1, regs1, Here(ir2), Exec(sem, s, st1), ir0.nregs, ir1.nregs);
    }
  }

  lemma NregsGrow(ir: Ir, ir': Ir)
    requires Grows(ir, ir')
    ensures ir.nregs <= ir'.nregs
  {
  }

  /** When a branch is taken: a condition is false, or a value is not, or is, that in a register. */
  datatype Kind = WhenFalse | WhenNot(temp: nat) | When(temp: nat)

  function TermFor(kind: Kind, reg: nat, yes: nat, no: nat): Term
  {
    match kind
    case WhenFalse => CondFalse(reg, yes, no)
    case WhenNot(temp) => CondNe(temp, reg, yes, no)
    case When(temp) => CondEq(temp, reg, yes, no)
  }

  ghost predicate Taken(kind: Kind, regs: Regs, v: int)
  {
    match kind
    case WhenFalse => v == 0
    case WhenNot(temp) => Reg(regs, temp) != v
    case When(temp) => Reg(regs, temp) == v
  }

  ghost predicate KindOk(kind: Kind, n: nat)
  {
    kind.WhenFalse? || kind.temp < n
  }

  /** Evaluate an expression and branch on it: to block f if the branch is taken, to a new block otherwise. */
  ghost function Condition(ir: Ir, cond: nat, kind: Kind, f: nat): Ir
    requires ir.current < |ir.blocks|
  {
    var ir1 := Put(ir.(nregs := ir.nregs + 1), Eval(ir.nregs, cond));
    Entered(Ended(Created(ir1), TermFor(kind, ir.nregs, f, |ir1.blocks|)), |ir1.blocks|)
  }

  lemma ConditionThen(ir0: Ir, cond: nat, kind: Kind, f: nat, ir: Ir, sem: Sem, st: int, regs: Regs, r: (nat, nat),
                      st2: int, n: nat)
    requires ir0.current < |ir0.blocks| && Grows(Condition(ir0, cond, kind, f), ir) && n <= ir0.nregs && KindOk(kind, ir0.nregs)
    requires ir0.blocks[ir0.current].term.None?
    requires Arrives(ir, sem, if Taken(kind, regs, sem.value(cond, st)) then (f, 0) else (|ir0.blocks|, 0), sem.effect(cond, st),
                     regs[ir0.nregs := sem.value(cond, st)], r, st2, n)
    ensures Arrives(ir, sem, Here(ir0), st, regs, r, st2, n)
  {
    hide Arrives;
    var ira := ir0.(nregs := ir0.nregs + 1);
    var ir1 := Put(ira, Eval(ir0.nregs, cond));
    var t := TermFor(kind, ir0.nregs, f, |ir1.blocks|);
    var irc := Created(ir1);
    assert Condition(ir0, cond, kind, f) == Entered(Ended(irc, t), |ir1.blocks|);
    EnteredGrows(irc, t, |ir1.blocks|, ir);
    assert Grows(ir1, Ended(irc, t));
    GrowsThen(ir1, Ended(irc, t), ir);
    assert Here(irc) == Here(ir1) && Here(ira) == Here(ir0);
    var regs1 := regs[ir0.nregs := sem.value(cond, st)];
    hide Grows;
    TermThen(irc, t, ir, sem, sem.effect(cond, st), regs1, r, st2, n);
    EvalThen(ira, cond, ir0.nregs, ir, sem, st, regs, r, st2, n, n);
  }

  /** The shape and the growth of one branching construct. */
  lemma ConditionShaped(ir: Ir, cond: nat, kind: Kind, f: nat, pending: set<nat>)
    requires Shaped(ir, pending) && f in pending
    ensures Grows(ir, Condition(ir, cond, kind, f)) && Shaped(Condition(ir, cond, kind, f), pending)
    ensures Here(Condition(ir, cond, kind, f)) == (|ir.blocks|, 0) && Condition(ir, cond, kind, f).nregs == ir.nregs + 1
  {
    hide Grows, Shaped;
    var ira := RegisterShaped(ir, pending);
    var ir1 := Put(ira, Eval(ir.nregs, cond));
    PutShaped(ira, pending, Eval(ir.nregs, cond));
    CreatedShaped(ir1, pending);
    var t := TermFor(kind, ir.nregs, f, |ir1.blocks|);
    EndedShaped(Created(ir1), pending + {|ir1.blocks|}, t, |ir1.blocks|);
    GrowsThen(ir, ira, ir1);
    GrowsThen(ir, ir1, Created(ir1));
    GrowsThen(ir, Created(ir1), Condition(ir, cond, kind, f));
    NotPending(ir1, pending);
    assert pending + {|ir1.blocks|} - {|ir1.blocks|} == pending;
  }

  lemma RegisterShaped(ir: Ir, pending: set<nat>) returns (ira: Ir)
    requires Shaped(ir, pending)
    ensures ira == ir.(nregs := ir.nregs + 1) && Grows(ir, ira) && Shaped(ira, pending)
  {
    ira := ir.(nregs := ir.nregs + 1);
  }

  lemma NotPending(ir: Ir, pending: set<nat>)
    requires Shaped(ir, pending)
    ensures |ir.blocks| !in pending
  {
  }

  /** Jumping on to a block and entering another. */
  lemma JumpArrives(ir0: Ir, dest: nat, ir: Ir, sem: Sem, st: int, regs: Regs, n: nat)
    requires ir0.current < |ir0.blocks| && Grows(Ended(ir0, Br(dest)), ir)
    ensures Arrives(ir, sem, Here(ir0), st, regs, (dest, 0), st, n)
  {
    Stays(ir, sem, (dest, 0), st, regs, n);
    TermThen(ir0, Br(dest), ir, sem, st, regs, (dest, 0), st, n);
  }

  /** A statement, and a jump from its end. */
  lemma CompiledJump(ir0: Ir, ir1: Ir, s: Stmt, dest: nat, ir: Ir, sem: Sem, st: int, regs: Regs, n: nat)
    requires Compiled(ir0, ir1, s) && n <= ir0.nregs && Grows(ir1, ir) && Grows(Ended(ir1, Br(dest)), ir)
    ensures Arrives(ir, sem, Here(ir0), st, regs, (dest, 0), Exec(sem, s, st), n)
  {
    hide Grows, Runs, Exec, Arrives;
    forall regs1: Regs ensures Arrives(ir, sem, Here(ir1), Exec(sem, s, st), regs1, (dest, 0), Exec(sem, s, st), n) {
      JumpArrives(ir1, dest, ir, sem, Exec(sem, s, st), regs1, n);
    }
    CompiledThen(ir0, ir1, ir, s, sem, st, regs, (dest, 0), Exec(sem, s, st), n);
  }

  /** if without else: ir1 is behind the condition, ir2 behind the statement. */
  lemma IfCompiled(ir0: Ir, cond: nat, f: nat, yes: Stmt, ir2: Ir, ir: Ir)
    requires ir0.current < |ir0.blocks| && ir0.blocks[ir0.current].term.None?
    requires Compiled(Condition(ir0, cond, WhenFalse, f), ir2, yes) && Here(Condition(ir0, cond, WhenFalse, f)) == (|ir0.blocks|, 0)
    requires Condition(ir0, cond, WhenFalse, f).nregs == ir0.nregs + 1
    requires Grows(Condition(ir0, cond, WhenFalse, f), ir) && Grows(ir2, ir) && Grows(Ended(ir2, Br(f)), ir)
    requires ir.current < |ir.blocks| && Here(ir) == (f, 0)
    ensures Compiled(ir0, ir, If(cond, yes, None))
  {
    hide Arrives, Grows, Condition, Compiled;
    var s := If(cond, yes, None);
    forall sem: Sem, st: int, regs: Regs ensures CompiledAt(ir0, ir, s, sem, st, regs) {
      var st1, regs1 := sem.effect(cond, st), regs[ir0.nregs := sem.value(cond, st)];
      if sem.value(cond, st) != 0 {
        CompiledJump(Condition(ir0, cond, WhenFalse, f), ir2, yes, f, ir, sem, st1, regs1, ir0.nregs);
      } else {
        Stays(ir, sem, (f, 0), st1, regs1, ir0.nregs);
      }
      ConditionThen(ir0, cond, WhenFalse, f, ir, sem, st, regs, (f, 0), Exec(sem, s, st), ir0.nregs);
    }
    CompiledIntro(ir0, ir, s);
  }

  lemma CompiledIntro(ir: Ir, ir': Ir, s: Stmt)
    requires ir.current < |ir.blocks| && ir'.current < |ir'.blocks|
    requires forall sem: Sem, st: int, regs: Regs :: CompiledAt(ir, ir', s, sem, st, regs)
    ensures Compiled(ir, ir', s)
  {
  }

  /** if with else: the first branch jumps to e behind ir2, the second one starts in ir3 and ends in ir4. */
  lemma IfElseCompiled(ir0: Ir, cond: nat, f: nat, yes: Stmt, no: Stmt, ir2: Ir, ir3: Ir, ir4: Ir, e: nat, ir: Ir)
    requires ir0.current < |ir0.blocks| && ir0.blocks[ir0.current].term.None?
    requires Compiled(Condition(ir0, cond, WhenFalse, f), ir2, yes) && Here(Condition(ir0, cond, WhenFalse, f)) == (|ir0.blocks|, 0)
    requires Condition(ir0, cond, WhenFalse, f).nregs == ir0.nregs + 1 <= ir3.nregs
    requires Grows(Condition(ir0, cond, WhenFalse, f), ir) && Grows(ir2, ir) && Grows(Ended(ir2, Br(e)), ir)
    requires ir3.current < |ir3.blocks| && Here(ir3) == (f, 0) && Compiled(ir3, ir4, no)
    requires Grows(ir4, ir) && Grows(Ended(ir4, Br(e)), ir)
    requires ir.current < |ir.blocks| && Here(ir) == (e, 0)
    ensures Compiled(ir0, ir, If(cond, yes, Some(no)))
  {
    hide Arrives, Grows, Condition, Compiled;
    var s := If(cond, yes, Some(no));
    forall sem: Sem, st: int, regs: Regs ensures CompiledAt(ir0, ir, s, sem, st, regs) {
      var st1, regs1 := sem.effect(cond, st), regs[ir0.nregs := sem.value(cond, st)];
      if sem.value(cond, st) != 0 {
        CompiledJump(Condition(ir0, cond, WhenFalse, f), ir2, yes, e, ir, sem, st1, regs1, ir0.nregs);
      } else {
        CompiledJump(ir3, ir4, no, e, ir, sem, st1, regs1, ir0.nregs);
      }
      ConditionThen(ir0, cond, WhenFalse, f, ir, sem, st, regs, (e, 0), Exec(sem, s, st), ir0.nregs);
    }
    CompiledIntro(ir0, ir, s);
  }

  // ---------------------------------------------------------------------------------
  // switch.

  lemma TestedNone(ir: Ir, temp: nat, found: nat)
    requires ir.current < |ir.blocks|
    ensures Tested(ir, ir, temp, [], found)
  {
    hide Arrives;
    forall sem: Sem, st: int, regs: Regs ensures TestedAt(ir, ir, temp, [], found, sem, st, regs) {
      Stays(ir, sem, Here(ir), st, regs, ir.nregs);
    }
  }

  /** One more expression of a case with several: it branches to the match block if it equals the value. */
  lemma TestedNext(ir0: Ir, ir1: Ir, temp: nat, exprs: seq<nat>, e: nat, found: nat)
    requires Tested(ir0, ir1, temp, exprs, found) && ir1.blocks[ir1.current].term.None? && temp < ir0.nregs <= ir1.nregs
    requires Grows(ir1, Condition(ir1, e, When(temp), found)) && Condition(ir1, e, When(temp), found).current < |Condition(ir1, e, When(temp), found).blocks|
    requires Here(Condition(ir1, e, When(temp), found)) == (|ir1.blocks|, 0)
    ensures Tested(ir0, Condition(ir1, e, When(temp), found), temp, exprs + [e], found)
  {
    hide Grows, Runs, Condition;
    var ir2, exprs' := Condition(ir1, e, When(temp), found), exprs + [e];
    assert exprs'[..|exprs'|-1] == exprs;
    GrowsRefl(ir2);
    forall sem: Sem, st: int, regs: Regs ensures TestedAt(ir0, ir2, temp, exprs', found, sem, st, regs) {
      var v := Reg(regs, temp);
      var (yes, st1) := Matches(sem, v, exprs, st);
      assert TestedAt(ir0, ir1, temp, exprs, found, sem, st, regs);
      var p := Here(ir0);
      var q: (nat, nat) := if yes then (found, 0) else Here(ir1);
      ArrivesGrown(ir1, ir2, sem, p, st, regs, q, st1, ir0.nregs);
      if !yes {
        var regs1: Regs :| Agree(regs, regs1, ir0.nregs) && Runs(ir2, sem, Conf(p.0, p.1, st, regs), Conf(q.0, q.1, st1, regs1));
        assert Reg(regs1, temp) == v;
        var w, st2 := sem.value(e, st1), sem.effect(e, st1);
        var r: (nat, nat) := if w == v then (found, 0) else (|ir1.blocks|, 0);
        Stays(ir2, sem, r, st2, regs1[ir1.nregs := w], ir1.nregs);
        ConditionThen(ir1, e, When(temp), found, ir2, sem, st1, regs1, r, st2, ir1.nregs);
        Through(ir2, sem, p, st, regs, q, st1, regs1, r, st2, ir0.nregs, ir1.nregs);
      }
    }
  }

  lemma GrowsRefl(ir: Ir)
    ensures Grows(ir, ir)
  {
  }

  /** A case with one expression: it branches past the block if the expression is not the value. */
  lemma SingleCase(ir0: Ir, temp: nat, e: nat, next: nat, body: Stmt, ir2: Ir, exit: nat, ir: Ir)
    requires ir0.current < |ir0.blocks| && ir0.blocks[ir0.current].term.None? && temp < ir0.nregs
    requires Compiled(Condition(ir0, e, WhenNot(temp), next), ir2, body)
    requires Here(Condition(ir0, e, WhenNot(temp), next)) == (|ir0.blocks|, 0)
    requires Condition(ir0, e, WhenNot(temp), next).nregs == ir0.nregs + 1
    requires Grows(Condition(ir0, e, WhenNot(temp), next), ir) && Grows(ir2, ir) && Grows(Ended(ir2, Br(exit)), ir)
    requires ir.current < |ir.blocks| && Here(ir) == (next, 0)
    ensures CompiledCase(ir0, ir, temp, Case([e], body), exit)
  {
    hide Arrives, Grows, Condition, Compiled, Exec;
    var c := Case([e], body);
    assert [e][..0] == [];
    forall sem: Sem, st: int, regs: Regs ensures CaseAt(ir0, ir, temp, c, exit, sem, st, regs) {
      var v, w, st1 := Reg(regs, temp), sem.value(e, st), sem.effect(e, st);
      assert Matches(sem, v, [], st) == (false, st);
      assert Matches(sem, v, [e], st) == (w == v, st1);
      var regs1 := regs[ir0.nregs := w];
      if w == v {
        CompiledJump(Condition(ir0, e, WhenNot(temp), next), ir2, body, exit, ir, sem, st1, regs1, ir0.nregs);
        ConditionThen(ir0, e, WhenNot(temp), next, ir, sem, st, regs, (exit, 0), Exec(sem, body, st1), ir0.nregs);
      } else {
        Stays(ir, sem, (next, 0), st1, regs1, ir0.nregs);
        ConditionThen(ir0, e, WhenNot(temp), next, ir, sem, st, regs, (next, 0), st1, ir0.nregs);
      }
    }
  }

  /** A case with several expressions, or none: behind the tests it jumps past the block. */
  lemma ManyCase(ir0: Ir, temp: nat, exprs: seq<nat>, found: nat, next: nat, ir1: Ir, irm: Ir, body: Stmt, ir2: Ir,
                 exit: nat, ir: Ir)
    requires Tested(ir0, ir1, temp, exprs, found) && Grows(ir1, ir) && Grows(Ended(ir1, Br(next)), ir)
    requires irm.current < |irm.blocks| && Here(irm) == (found, 0) && ir0.nregs <= irm.nregs && ir0.nregs <= ir1.nregs
    requires Compiled(irm, ir2, body) && Grows(ir2, ir) && Grows(Ended(ir2, Br(exit)), ir)
    requires ir.current < |ir.blocks| && Here(ir) == (next, 0)
    ensures CompiledCase(ir0, ir, temp, Case(exprs, body), exit)
  {
    hide Grows, Runs, Compiled, Exec, Matches;
    var c := Case(exprs, body);
    forall sem: Sem, st: int, regs: Regs ensures CaseAt(ir0, ir, temp, c, exit, sem, st, regs) {
      var (yes, st1) := Matches(sem, Reg(regs, temp), exprs, st);
      assert TestedAt(ir0, ir1, temp, exprs, found, sem, st, regs);
      var p := Here(ir0);
      var q: (nat, nat) := if yes then (found, 0) else Here(ir1);
      ArrivesGrown(ir1, ir, sem, p, st, regs, q, st1, ir0.nregs);
      var regs1: Regs :| Agree(regs, regs1, ir0.nregs) && Runs(ir, sem, Conf(p.0, p.1, st, regs), Conf(q.0, q.1, st1, regs1));
      if yes {
        CompiledJump(irm, ir2, body, exit, ir, sem, st1, regs1, ir0.nregs);
        Through(ir, sem, p, st, regs, q, st1, regs1, (exit, 0), Exec(sem, body, st1), ir0.nregs, ir0.nregs);
      } else {
        JumpArrives(ir1, next, ir, sem, st1, regs1, ir0.nregs);
        Through(ir, sem, p, st, regs, q, st1, regs1, (next, 0), st1, ir0.nregs, ir0.nregs);
      }
    }
  }

  lemma CasesNone(ir: Ir, temp: nat, exit: nat)
    requires ir.current < |ir.blocks|
    ensures CompiledCases(ir, ir, temp, [], exit)
  {
    hide Arrives;
    forall sem: Sem, st: int, regs: Regs ensures CasesAt(ir, ir, temp, [], exit, sem, st, regs) {
      Stays(ir, sem, Here(ir), st, regs, ir.nregs);
    }
  }

  lemma CasesNext(ir0: Ir, ir1: Ir, ir2: Ir, temp: nat, cases: seq<Case>, c: Case, exit: nat)
    requires CompiledCases(ir0, ir1, temp, cases, exit) && CompiledCase(ir1, ir2, temp, c, exit)
    requires Grows(ir0, ir1) && Grows(ir1, ir2) && temp < ir0.nregs
    ensures CompiledCases(ir0, ir2, temp, cases + [c], exit)
  {
    hide Grows, Runs, Exec, Matches;
    var cases' := cases + [c];
    assert cases'[..|cases'|-1] == cases;
    NregsGrow(ir0, ir1);
    forall sem: Sem, st: int, regs: Regs ensures CasesAt(ir0, ir2, temp, cases', exit, sem, st, regs) {
      var v := Reg(regs, temp);
      var (done, st1) := ExecCases(sem, v, cases, st);
      assert CasesAt(ir0, ir1, temp, cases, exit, sem, st, regs);
      var p := Here(ir0);
      var q: (nat, nat) := if done then (exit, 0) else Here(ir1);
      ArrivesGrown(ir1, ir2, sem, p, st, regs, q, st1, ir0.nregs);
      if !done {
        var regs1: Regs :| Agree(regs, regs1, ir0.nregs) && Runs(ir2, sem, Conf(p.0, p.1, st, regs), Conf(q.0, q.1, st1, regs1));
        assert Reg(regs1, temp) == v;
        assert CaseAt(ir1, ir2, temp, c, exit, sem, st1, regs1);
        var (yes, st2) := Matches(sem, v, c.exprs, st1);
        Through(ir2, sem, p, st, regs, q, st1, regs1, if yes then (exit, 0) else Here(ir2), if yes then Exec(sem, c.body, st2) else st2,
                ir0.nregs, ir1.nregs);
      }
    }
  }

  /** switch: ir1 is behind the expression, ir2 behind the cases, ir3 behind the default, if there is one. */
  lemma SwitchCompiled(ir0: Ir, expr: nat, cases: seq<Case>, otherwise: Option<Stmt>, exit: nat, ira: Ir, ir2: Ir,
                       ir3: Ir, ir: Ir)
    requires ir0.current < |ir0.blocks| && ira.current < |ira.blocks| && Here(ira) == Here(ir0) && ira.nregs == ir0.nregs + 1
    requires Grows(Put(ira, Eval(ir0.nregs, expr)), ir)
    requires CompiledCases(Put(ira, Eval(ir0.nregs, expr)), ir2, ir0.nregs, cases, exit) && Grows(ir2, ir)
    requires ir0.nregs <= ir2.nregs
    requires if otherwise.Some? then Compiled(ir2, ir3, otherwise.value) else ir3 == ir2
    requires ir3.current < |ir3.blocks| && Grows(ir3, ir) && Grows(Ended(ir3, Br(exit)), ir)
    requires ir.current < |ir.blocks| && Here(ir) == (exit, 0)
    ensures Compiled(ir0, ir, Switch(expr, cases, otherwise))
  {
    hide Grows, Runs, ExecCases, Compiled;
    var s, r := Switch(expr, cases, otherwise), ir0.nregs;
    var ir1 := Put(ira, Eval(r, expr));
    forall sem: Sem, st: int, regs: Regs ensures CompiledAt(ir0, ir, s, sem, st, regs) {
      var v, st1 := sem.value(expr, st), sem.effect(expr, st);
      var regs1 := regs[r := v];
      var (done, st2) := ExecCases(sem, v, cases, st1);
      assert CasesAt(ir1, ir2, r, cases, exit, sem, st1, regs1);
      var p := Here(ir1);
      var q: (nat, nat) := if done then (exit, 0) else Here(ir2);
      ArrivesGrown(ir2, ir, sem, p, st1, regs1, q, st2, ir1.nregs);
      if !done {
        var regs2: Regs :| Agree(regs1, regs2, ir1.nregs) && Runs(ir, sem, Conf(p.0, p.1, st1, regs1), Conf(q.0, q.1, st2, regs2));
        if otherwise.Some? {
          CompiledJump(ir2, ir3, otherwise.value, exit, ir, sem, st2, regs2, r);
        } else {
          JumpArrives(ir3, exit, ir, sem, st2, regs2, r);
        }
        Through(ir, sem, p, st1, regs1, q, st2, regs2, (exit, 0), Exec(sem, s, st), r, r);
      } else {
        FewerAgree(ir, sem, p, st1, regs1, q, st2, ir1.nregs, r);
      }
      EvalThen(ira, expr, r, ir, sem, st, regs, (exit, 0), Exec(sem, s, st), r, r);
    }
    CompiledIntro(ir0, ir, s);
  }

  lemma FewerAgree(ir: Ir, sem: Sem, p: (nat, nat), st: int, regs: Regs, q: (nat, nat), st': int, n: nat, m: nat)
    requires Arrives(ir, sem, p, st, regs, q, st', n) && m <= n
    ensures Arrives(ir, sem, p, st, regs, q, st', m)
  {
    hide Runs;
  }

  // ---------------------------------------------------------------------------------
  // The compile methods.

  /** Another set of registers and blocks that ends at the same point. */
  lemma CompiledFrom(ir0: Ir, ir1: Ir, ir: Ir, s: Stmt)
    requires Compiled(ir1, ir, s) && ir0.current < |ir0.blocks| && Here(ir0) == Here(ir1) && ir0.nregs == ir1.nregs
    ensures Compiled(ir0, ir, s)
  {
    hide Arrives;
    forall sem: Sem, st: int, regs: Regs ensures CompiledAt(ir0, ir, s, sem, st, regs) {
      assert CompiledAt(ir1, ir, s, sem, st, regs);
    }
  }

  lemma CaseFrom(ir0: Ir, ir1: Ir, ir: Ir, temp: nat, c: Case, exit: nat)
    requires CompiledCase(ir1, ir, temp, c, exit) && ir0.current < |ir0.blocks| && Here(ir0) == Here(ir1) && ir0.nregs == ir1.nregs
    ensures CompiledCase(ir0, ir, temp, c, exit)
  {
    hide Arrives;
    forall sem: Sem, st: int, regs: Regs ensures CaseAt(ir0, ir, temp, c, exit, sem, st, regs) {
      assert CaseAt(ir1, ir, temp, c, exit, sem, st, regs);
    }
  }

  lemma ShapedFacts(ir: Ir, pending: set<nat>)
    requires Shaped(ir, pending)
    ensures ir.current < |ir.blocks| && ir.blocks[ir.current].term.None? && |ir.blocks| !in pending
    ensures forall b :: b in pending ==> b < |ir.blocks|
  {
  }

  /** Creating a block. */
  lemma BlockFacts(ir: Ir, pending: set<nat>)
    requires Shaped(ir, pending)
    ensures Grows(ir, Created(ir)) && Shaped(Created(ir), pending + {|ir.blocks|})
    ensures ir.current < |ir.blocks| && Here(Created(ir)) == Here(ir) && Created(ir).nregs == ir.nregs
    ensures |Created(ir).blocks| == |ir.blocks| + 1
  {
    CreatedShaped(ir, pending);
  }

  /** Ending the current block with a jump and going on in another one. */
  lemma JumpFacts(ir: Ir, pending: set<nat>, dest: nat, bb: nat)
    requires Shaped(ir, pending) && dest in pending && bb in pending
    ensures ir.current < |ir.blocks|
    ensures var ir' := Entered(Ended(ir, Br(dest)), bb);
            && Grows(ir, ir') && Grows(Ended(ir, Br(dest)), ir') && Shaped(ir', pending - {bb})
            && ir'.current < |ir'.blocks| && Here(ir') == (bb, 0) && ir'.nregs == ir.nregs
  {
    EndedShaped(ir, pending, Br(dest), bb);
  }

  method CompileCondition(into: IRBlock, cond: nat, kind: Kind, f: nat, ghost pending: set<nat>)
    requires Shaped(into.Value(), pending) && f in pending
    modifies into
    ensures old(into.Value()).current < |old(into.Value()).blocks| && into.Value() == Condition(old(into.Value()), cond, kind, f)
    ensures Grows(old(into.Value()), into.Value()) && Shaped(into.Value(), pending)
    ensures into.currentBlock < |into.blocks| && Here(into.Value()) == (|old(into.blocks)|, 0) && into.nregs == old(into.nregs) + 1
  {
    hide Shaped, Grows;
    ShapedFacts(into.Value(), pending);
    ConditionShaped(into.Value(), cond, kind, f, pending);
    var r := into.NewRegister();
    into.Instruction(Eval(r, cond));
    into.Branch(TermFor(kind, r, f, |into.blocks|));
    ShapedFacts(into.Value(), pending);
  }

  method Compile(s: Stmt, into: IRBlock, ghost pending: set<nat>)
    requires Shaped(into.Value(), pending)
    modifies into
    ensures Shaped(into.Value(), pending) && Grows(old(into.Value()), into.Value())
    ensures Compiled(old(into.Value()), into.Value(), s)
    decreases s, 1
  {
    hide Shaped, Grows, Compiled, CompiledAll;
    ShapedFacts(into.Value(), pending);
    match s
    case Prim(x) =>
      PutShaped(into.Value(), pending, Do(x));
      PrimCompiled(into.Value(), x);
      into.Instruction(Do(x));
    case Sequence(stmts) =>
      CompileAll(stmts, into, pending);
      AllIsSequence(old(into.Value()), into.Value(), stmts);
    case If(cond, yes, no) =>
      if no.Some? {
        CompileIfElse(cond, yes, no.value, into, pending);
      } else {
        CompileIf(cond, yes, into, pending);
      }
    case Switch(expr, cases, otherwise) =>
      CompileSwitch(expr, cases, otherwise, into, pending);
  }

  lemma AllIsSequence(ir: Ir, ir': Ir, stmts: seq<Stmt>)
    requires CompiledAll(ir, ir', stmts)
    ensures Compiled(ir, ir', Sequence(stmts))
  {
    hide Arrives;
    forall sem: Sem, st: int, regs: Regs ensures CompiledAt(ir, ir', Sequence(stmts), sem, st, regs) {
      assert Exec(sem, Sequence(stmts), st) == ExecAll(sem, stmts, st);
      assert Arrives(ir', sem, Here(ir), st, regs, Here(ir'), ExecAll(sem, stmts, st), ir.nregs);
    }
  }

  method CompileAll(stmts: seq<Stmt>, into: IRBlock, ghost pending: set<nat>)
    requires Shaped(into.Value(), pending)
    modifies into
    ensures Shaped(into.Value(), pending) && Grows(old(into.Value()), into.Value())
    ensures CompiledAll(old(into.Value()), into.Value(), stmts)
    decreases stmts, 1
  {
    hide Shaped, Grows, Compiled, CompiledAll;
    ghost var ir0 := into.Value();
    ShapedFacts(ir0, pending);
    AllNone(ir0);
    GrowsRefl(ir0);
    assert stmts[..0] == [];
    var k := 0;
    while k < |stmts|
      invariant k <= |stmts| && Shaped(into.Value(), pending) && Grows(ir0, into.Value())
      invariant CompiledAll(ir0, into.Value(), stmts[..k])
    {
      ghost var ir1 := into.Value();
      Compile(stmts[k], into, pending);
      AllNext(ir0, ir1, into.Value(), stmts[..k], stmts[k]);
      GrowsThen(ir0, ir1, into.Value());
      assert stmts[..k + 1] == stmts[..k] + [stmts[k]];
      k := k + 1;
    }
    assert stmts[..k] == stmts;
  }

  /** IfStatement.compile without an else branch. */
  method CompileIf(cond: nat, yes: Stmt, into: IRBlock, ghost pending: set<nat>)
    requires Shaped(into.Value(), pending)
    modifies into
    ensures Shaped(into.Value(), pending) && Grows(old(into.Value()), into.Value())
    ensures Compiled(old(into.Value()), into.Value(), If(cond, yes, None))
    decreases yes, 2
  {
    hide Shaped, Grows, Compiled, Condition;
    ghost var ir0 := into.Value();
    ShapedFacts(ir0, pending);
    BlockFacts(ir0, pending);
    var f := into.Block();
    ghost var ir1, more := into.Value(), pending + {f};
    ShapedFacts(ir1, more);
    CompileCondition(into, cond, WhenFalse, f, more);
    ghost var irc := into.Value();
    Compile(yes, into, more);
    ghost var ir2 := into.Value();
    ShapedFacts(ir2, more);
    JumpFacts(ir2, more, f, f);
    into.Label(f);
    ghost var ir := into.Value();
    GrowsThen(irc, ir2, ir);
    IfCompiled(ir1, cond, f, yes, ir2, ir);
    CompiledFrom(ir0, ir1, ir, If(cond, yes, None));
    GrowsThen(ir1, irc, ir);
    GrowsThen(ir0, ir1, ir);
    assert more - {f} == pending;
  }

  /** IfStatement.compile with an else branch. */
  method CompileIfElse(cond: nat, yes: Stmt, no: Stmt, into: IRBlock, ghost pending: set<nat>)
    requires Shaped(into.Value(), pending)
    modifies into
    ensures Shaped(into.Value(), pending) && Grows(old(into.Value()), into.Value())
    ensures Compiled(old(into.Value()), into.Value(), If(cond, yes, Some(no)))
    decreases If(cond, yes, Some(no)), 0
  {
    hide Shaped, Grows, Compiled, Condition;
    ghost var ir0 := into.Value();
    ShapedFacts(ir0, pending);
    BlockFacts(ir0, pending);
    var f := into.Block();
    ghost var ir1, more := into.Value(), pending + {f};
    ShapedFacts(ir1, more);
    CompileCondition(into, cond, WhenFalse, f, more);
    ghost var irc := into.Value();
    Compile(yes, into, more);
    ghost var ir2 := into.Value();
    ShapedFacts(ir2, more);
    BlockFacts(ir2, more);
    var e := into.Block();
    ghost var ir2e := into.Value();
    ShapedFacts(ir2e, more + {e});
    JumpFacts(ir2e, more + {e}, e, f);
    into.JumpLabel(e, f);
    ghost var ir3 := into.Value();
    assert more + {e} - {f} == pending + {e};
    Compile(no, into, pending + {e});
    ghost var ir4 := into.Value();
    ShapedFacts(ir4, pending + {e});
    JumpFacts(ir4, pending + {e}, e, e);
    into.Label(e);
    ghost var ir := into.Value();
    assert pending + {e} - {e} == pending;
    GrowsThen(ir3, ir4, ir);
    GrowsThen(ir2e, ir3, ir);
    GrowsThen(Ended(ir2e, Br(e)), ir3, ir);
    GrowsThen(ir2, ir2e, ir);
    GrowsThen(irc, ir2, ir);
    GrowsThen(ir1, irc, ir);
    GrowsThen(ir0, ir1, ir);
    NregsGrow(irc, ir2);
    CompiledTo(irc, ir2, ir2e, yes);
    IfElseCompiled(ir1, cond, f, yes, no, ir2e, ir3, ir4, e, ir);
    CompiledFrom(ir0, ir1, ir, If(cond, yes, Some(no)));
  }

  /** Creating a block does not move the end of the current one. */
  lemma CompiledTo(ir0: Ir, ir1: Ir, ir2: Ir, s: Stmt)
    requires Compiled(ir0, ir1, s) && Grows(ir1, ir2) && ir2.current < |ir2.blocks| && ir1.current < |ir1.blocks| && Here(ir2) == Here(ir1)
    ensures Compiled(ir0, ir2, s)
  {
    hide Arrives, Grows;
    forall sem: Sem, st: int, regs: Regs ensures CompiledAt(ir0, ir2, s, sem, st, regs) {
      assert CompiledAt(ir0, ir1, s, sem, st, regs);
      ArrivesGrown(ir1, ir2, sem, Here(ir0), st, regs, Here(ir1), Exec(sem, s, st), ir0.nregs);
    }
  }

  /** Case.compile with one expression. */
  method CompileSingle(e: nat, body: Stmt, temp: nat, exit: nat, into: IRBlock, ghost pending: set<nat>)
    requires Shaped(into.Value(), pending) && exit in pending && temp < into.nregs
    modifies into
    ensures Shaped(into.Value(), pending) && Grows(old(into.Value()), into.Value())
    ensures CompiledCase(old(into.Value()), into.Value(), temp, Case([e], body), exit)
    decreases body, 2
  {
    hide Shaped, Grows, Compiled, Condition, CompiledCase;
    ghost var ir0 := into.Value();
    ShapedFacts(ir0, pending);
    BlockFacts(ir0, pending);
    var next := into.Block();
    ghost var ir1, more := into.Value(), pending + {next};
    ShapedFacts(ir1, more);
    CompileCondition(into, e, WhenNot(temp), next, more);
    ghost var irc := into.Value();
    Compile(body, into, more);
    ghost var ir2 := into.Value();
    ShapedFacts(ir2, more);
    JumpFacts(ir2, more, exit, next);
    into.JumpLabel(exit, next);
    ghost var ir := into.Value();
    assert more - {next} == pending;
    GrowsThen(irc, ir2, ir);
    GrowsThen(ir1, irc, ir);
    GrowsThen(ir0, ir1, ir);
    SingleCase(ir1, temp, e, next, body, ir2, exit, ir);
    CaseFrom(ir0, ir1, ir, temp, Case([e], body), exit);
  }

  /** The tests of a case with several expressions. */
  method CompileTests(exprs: seq<nat>, temp: nat, found: nat, into: IRBlock, ghost pending: set<nat>)
    requires Shaped(into.Value(), pending) && found in pending && temp < into.nregs
    modifies into
    ensures Shaped(into.Value(), pending) && Grows(old(into.Value()), into.Value())
    ensures Tested(old(into.Value()), into.Value(), temp, exprs, found)
  {
    hide Shaped, Grows, Condition, Tested;
    ghost var ir0 := into.Value();
    ShapedFacts(ir0, pending);
    TestedNone(ir0, temp, found);
    GrowsRefl(ir0);
    assert exprs[..0] == [];
    var k := 0;
    while k < |exprs|
      invariant k <= |exprs| && Shaped(into.Value(), pending) && Grows(ir0, into.Value())
      invariant Tested(ir0, into.Value(), temp, exprs[..k], found)
    {
      ghost var ir1 := into.Value();
      ShapedFacts(ir1, pending);
      NregsGrow(ir0, ir1);
      CompileCondition(into, exprs[k], When(temp), found, pending);
      TestedNext(ir0, ir1, temp, exprs[..k], exprs[k], found);
      GrowsThen(ir0, ir1, into.Value());
      assert exprs[..k + 1] == exprs[..k] + [exprs[k]];
      k := k + 1;
    }
    assert exprs[..k] == exprs;
  }

  /** Case.compile with several expressions. */
  method CompileMany(exprs: seq<nat>, body: Stmt, temp: nat, exit: nat, into: IRBlock, ghost pending: set<nat>)
    requires Shaped(into.Value(), pending) && exit in pending && temp < into.nregs
    modifies into
    ensures Shaped(into.Value(), pending) && Grows(old(into.Value()), into.Value())
    ensures CompiledCase(old(into.Value()), into.Value(), temp, Case(exprs, body), exit)
    decreases body, 2
  {
    hide Shaped, Grows, Compiled, Tested, CompiledCase;
    ghost var ir0 := into.Value();
    ShapedFacts(ir0, pending);
    BlockFacts(ir0, pending);
    var next := into.Block();
    ghost var irn, more := into.Value(), pending + {next};
    ShapedFacts(irn, more);
    BlockFacts(irn, more);
    var found := into.Block();
    ghost var irf, most := into.Value(), more + {found};
    CompileTests(exprs, temp, found, into, most);
    ghost var ir1 := into.Value();
    ShapedFacts(ir1, most);
    JumpFacts(ir1, most, next, found);
    into.JumpLabel(next, found);
    ghost var irm := into.Value();
    assert most - {found} == more;
    Compile(body, into, more);
    ghost var ir2 := into.Value();
    ShapedFacts(ir2, more);
    JumpFacts(ir2, more, exit, next);
    into.JumpLabel(exit, next);
    ghost var ir := into.Value();
    assert more - {next} == pending;
    GrowsThen(irm, ir2, ir);
    GrowsThen(Ended(ir1, Br(next)), irm, ir);
    GrowsThen(ir1, irm, ir);
    GrowsThen(irf, ir1, ir);
    GrowsThen(irn, irf, ir);
    GrowsThen(ir0, irn, ir);
    NregsGrow(irf, ir1);
    ManyCase(irf, temp, exprs, found, next, ir1, irm, body, ir2, exit, ir);
    CaseFrom(ir0, irf, ir, temp, Case(exprs, body), exit);
  }

  /** CaseStatement.compile. */
  method CompileSwitch(expr: nat, cases: seq<Case>, otherwise: Option<Stmt>, into: IRBlock, ghost pending: set<nat>)
    requires Shaped(into.Value(), pending)
    modifies into
    ensures Shaped(into.Value(), pending) && Grows(old(into.Value()), into.Value())
    ensures Compiled(old(into.Value()), into.Value(), Switch(expr, cases, otherwise))
    decreases Switch(expr, cases, otherwise), 0
  {
    hide Shaped, Grows, Compiled, CompiledCases;
    ghost var ir0 := into.Value();
    ShapedFacts(ir0, pending);
    BlockFacts(ir0, pending);
    var exit := into.Block();
    ghost var more := pending + {exit};
    ghost var ire := into.Value();
    var temp := into.NewRegister();
    ghost var ira := into.Value();
    MoreRegisters(ire, more);
    ShapedFacts(ira, more);
    PutShaped(ira, more, Eval(temp, expr));
    into.Instruction(Eval(temp, expr));
    ghost var ir1 := into.Value();
    ShapedFacts(ir1, more);
    CasesNone(ir1, temp, exit);
    GrowsRefl(ir1);
    assert cases[..0] == [];
    var k := 0;
    while k < |cases|
      invariant k <= |cases| && Shaped(into.Value(), more) && Grows(ir1, into.Value())
      invariant CompiledCases(ir1, into.Value(), temp, cases[..k], exit)
    {
      ghost var irk := into.Value();
      NregsGrow(ir1, irk);
      var c := cases[k];
      if |c.exprs| == 1 {
        CompileSingle(c.exprs[0], c.body, temp, exit, into, more);
        assert c == Case([c.exprs[0]], c.body);
      } else {
        CompileMany(c.exprs, c.body, temp, exit, into, more);
      }
      CasesNext(ir1, irk, into.Value(), temp, cases[..k], c, exit);
      GrowsThen(ir1, irk, into.Value());
      assert cases[..k + 1] == cases[..k] + [cases[k]];
      k := k + 1;
    }
    assert cases[..k] == cases;
    ghost var ir2 := into.Value();
    GrowsRefl(ir2);
    if otherwise.Some? {
      Compile(otherwise.value, into, more);
    }
    ghost var ir3 := into.Value();
    ShapedFacts(ir3, more);
    JumpFacts(ir3, more, exit, exit);
    into.Label(exit);
    ghost var ir := into.Value();
    assert more - {exit} == pending;
    GrowsThen(ir2, ir3, ir);
    GrowsThen(ir1, ir2, ir);
    GrowsThen(ira, ir1, ir);
    GrowsThen(ire, ira, ir);
    GrowsThen(ir0, ire, ir);
    NregsGrow(ir1, ir2);
    SwitchCompiled(ir0, expr, cases, otherwise, exit, ira, ir2, ir3, ir);
  }

  lemma MoreRegisters(ir: Ir, pending: set<nat>)
    requires Shaped(ir, pending)
    ensures Shaped(ir.(nregs := ir.nregs + 1), pending) && Grows(ir, ir.(nregs := ir.nregs + 1))
    ensures Here(ir.(nregs := ir.nregs + 1)) == Here(ir)
  {
  }

  /** A whole body: every block that was inserted has one terminator, but for the one at the end, every branch leads to
      an inserted block, and running the code does what the statement does. */
  method CompileBody(s: Stmt) returns (into: IRBlock)
    ensures fresh(into) && Shaped(into.Value(), {})
    ensures into.currentBlock < |into.blocks|
    ensures forall sem: Sem, st: int :: Arrives(into.Value(), sem, (0, 0), st, map[], Here(into.Value()), Exec(sem, s, st), 0)
  {
    hide Arrives, Exec, Grows;
    into := new IRBlock();
    ghost var ir0 := into.Value();
    Compile(s, into, {});
    forall sem: Sem, st: int ensures Arrives(into.Value(), sem, (0, 0), st, map[], Here(into.Value()), Exec(sem, s, st), 0) {
      assert CompiledAt(ir0, into.Value(), s, sem, st, map[]);
    }
  }
}
