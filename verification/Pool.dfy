/** The forked work pool (compilestate.l, ProcessPool): tickets in a pipe, and workers that all walk the same jobs. */
module Pool {

  /** Where a worker stands: before its first ticket, between submits, or after a job and before its next ticket. */
  datatype Phase = Starting | Ready | Fetching

  datatype Worker = Worker(phase: Phase, jobNumber: nat, ticket: int)

  /** pipe holds the tickets written and not yet read, written counts those written; ran lists the jobs that were
      processed, in the order in which they started. */
  datatype World = World(pipe: seq<nat>, written: nat, workers: seq<Worker>, ran: seq<nat>)

  /** size workers, job_count tickets to be written, and every worker submits the jobs 0 to jobs - 1. If all write ends
      of the pipe are closed behind the last ticket, later reads find its end; else they block. The original closes no
      write end, neither in the parent nor in the workers, which inherit it. */
  datatype Setup = Setup(size: nat, jobCount: nat, jobs: nat, closes: bool)

  // ---------------------------------------------------------------------------------
  // The atomic steps.

  ghost predicate Init(p: Setup, s: World)
  {
    && s.pipe == [] && s.written == 0 && s.ran == [] && |s.workers| == p.size
    && forall w :: 0 <= w < |s.workers| ==> s.workers[w] == Worker(Starting, 0, -1)
  }

  /** The parent writes the next ticket. */
  ghost predicate Write(p: Setup, s: World, s': World)
  {
    s.written < p.jobCount && s' == s.(pipe := s.pipe + [s.written], written := s.written + 1)
  }

  /** A worker takes a ticket from the pipe; after a job this also ends its submit. On an empty pipe it is blocked. */
  ghost predicate Read(p: Setup, s: World, s': World, w: nat)
  {
    && w < |s.workers| && s.workers[w].phase != Ready && s.pipe != []
    && s' == s.(pipe := s.pipe[1..], workers := s.workers[w := WithTicket(s.workers[w], s.pipe[0])])
  }

  /** At the end of the pipe the ticket is -1. */
  ghost predicate ReadEnd(p: Setup, s: World, s': World, w: nat)
  {
    && w < |s.workers| && s.workers[w].phase != Ready && s.pipe == [] && p.closes && s.written == p.jobCount
    && s' == s.(workers := s.workers[w := WithTicket(s.workers[w], -1)])
  }

  function WithTicket(k: Worker, ticket: int): Worker
  {
    Worker(Ready, if k.phase == Fetching then k.jobNumber + 1 else k.jobNumber, ticket)
  }

  /** A submit of a job that is not the worker's. */
  ghost predicate Skip(p: Setup, s: World, s': World, w: nat)
  {
    && w < |s.workers| && s.workers[w].phase == Ready && s.workers[w].jobNumber < p.jobs
    && s.workers[w].jobNumber != s.workers[w].ticket
    && s' == s.(workers := s.workers[w := s.workers[w].(jobNumber := s.workers[w].jobNumber + 1)])
  }

  /** A submit of the worker's job, up to the read of its next ticket. */
  ghost predicate Process(p: Setup, s: World, s': World, w: nat)
  {
    && w < |s.workers| && s.workers[w].phase == Ready && s.workers[w].jobNumber < p.jobs
    && s.workers[w].jobNumber == s.workers[w].ticket
    && s' == s.(workers := s.workers[w := s.workers[w].(phase := Fetching)], ran := s.ran + [s.workers[w].jobNumber])
  }

  ghost predicate Step(p: Setup, s: World, s': World)
  {
    Write(p, s, s') || exists w: nat :: WorkerStep(p, s, s', w)
  }

  ghost predicate WorkerStep(p: Setup, s: World, s': World, w: nat)
  {
    Read(p, s, s', w) || ReadEnd(p, s, s', w) || Skip(p, s, s', w) || Process(p, s, s', w)
  }

  /** A run of the whole pool. */
  ghost predicate Run(p: Setup, t: seq<World>)
  {
    |t| > 0 && Init(p, t[0]) && forall k :: 0 <= k < |t| - 1 ==> Step(p, t[k], t[k+1])
  }

  // ---------------------------------------------------------------------------------
  // What every step keeps.

  /** The number of tickets taken from the pipe. */
  ghost function Taken(s: World): int
  {
    s.written - |s.pipe|
  }

  ghost predicate Holds(s: World, w: nat, t: int)
  {
    w < |s.workers| && s.workers[w].phase == Ready && s.workers[w].ticket == t >= 0
  }

  ghost predicate WorkerOk(p: Setup, s: World, k: Worker)
  {
    && (k.phase == Starting ==> k.jobNumber == 0)
    && (k.phase == Ready ==> k.jobNumber <= p.jobs
                             && (k.jobNumber <= k.ticket < Taken(s) || (k.ticket == -1 && p.closes && Taken(s) == p.jobCount)))
    && (k.phase == Fetching ==> k.jobNumber == k.ticket < Taken(s) && k.jobNumber < p.jobs && k.jobNumber in s.ran)
  }

  /** A taken ticket is in the hands of one worker, or its job was run. */
  ghost predicate Accounted(s: World, t: int)
  {
    t in s.ran || exists w: nat :: Holds(s, w, t)
  }

  ghost predicate Inv(p: Setup, s: World)
  {
    && |s.workers| == p.size && s.written <= p.jobCount && |s.pipe| <= s.written
    && (forall k :: 0 <= k < |s.pipe| ==> s.pipe[k] == Taken(s) + k)
    && (forall w :: 0 <= w < |s.workers| ==> WorkerOk(p, s, s.workers[w]))
    && (forall k, l :: 0 <= k < l < |s.ran| ==> s.ran[k] != s.ran[l])
    && (forall k :: 0 <= k < |s.ran| ==> s.ran[k] < p.jobs && s.ran[k] < Taken(s))
    && (forall w: nat, t :: Holds(s, w, t) ==> t !in s.ran)
    && (forall v: nat, w: nat, t :: Holds(s, v, t) && Holds(s, w, t) ==> v == w)
    && (forall t :: 0 <= t < Taken(s) ==> Accounted(s, t))
    && Taken(s) + Waiting(s.workers) == p.size + |s.ran|
  }

  ghost predicate EmptyHanded(k: Worker)
  {
    k.phase != Ready || k.ticket < 0
  }

  /** How many workers have no ticket. */
  ghost function Waiting(workers: seq<Worker>): (n: nat)
    ensures n <= |workers|
  {
    if workers == [] then 0 else Waiting(workers[..|workers|-1]) + if EmptyHanded(workers[|workers|-1]) then 1 else 0
  }

  lemma {:induction false} WaitingUpdate(workers: seq<Worker>, w: nat, k: Worker)
    requires w < |workers|
    ensures Waiting(workers[w := k]) + (if EmptyHanded(workers[w]) then 1 else 0)
         == Waiting(workers) + (if EmptyHanded(k) then 1 else 0)
    decreases |workers|
  {
    var front := workers[..|workers|-1];
    if w < |workers| - 1 {
      WaitingUpdate(front, w, k);
      assert workers[w := k][..|workers|-1] == front[w := k];
    } else {
      assert workers[w := k][..|workers|-1] == front;
    }
  }

  lemma {:induction false} WaitingAll(workers: seq<Worker>)
    requires forall w :: 0 <= w < |workers| ==> EmptyHanded(workers[w])
    ensures Waiting(workers) == |workers|
  {
    if workers != [] { WaitingAll(workers[..|workers|-1]); }
  }

  lemma {:induction false} WaitingSome(workers: seq<Worker>, w: nat)
    requires w < |workers| && EmptyHanded(workers[w])
    ensures Waiting(workers) > 0
  {
    if w < |workers| - 1 { WaitingSome(workers[..|workers|-1], w); }
  }

  lemma {:induction false} WaitingNone(workers: seq<Worker>)
    requires forall w :: 0 <= w < |workers| ==> !EmptyHanded(workers[w])
    ensures Waiting(workers) == 0
  {
    if workers != [] { WaitingNone(workers[..|workers|-1]); }
  }

  lemma InitInv(p: Setup, s: World)
    requires Init(p, s)
    ensures Inv(p, s)
  {
    WaitingAll(s.workers);
  }

  lemma WriteInv(p: Setup, s: World, s': World)
    requires Inv(p, s) && Write(p, s, s')
    ensures Inv(p, s')
  {
    forall t | 0 <= t < Taken(s') ensures Accounted(s', t) {
      assert Accounted(s, t);
      if w: nat :| Holds(s, w, t) { assert Holds(s', w, t); }
    }
    forall w: nat, t | Holds(s', w, t) ensures Holds(s, w, t) {
    }
  }

  lemma ReadInv(p: Setup, s: World, s': World, w: nat)
    requires Inv(p, s) && Read(p, s, s', w)
    ensures Inv(p, s')
  {
    hide Accounted;
    var k, x := s.workers[w], s.pipe[0];
    assert WorkerOk(p, s, k);
    WaitingUpdate(s.workers, w, WithTicket(k, x));
    forall v: nat, t ensures Holds(s', v, t) <==> (v != w && Holds(s, v, t)) || (v == w && t == x) {
    }
    forall v: nat, t | Holds(s, v, t) ensures t < x {
      assert WorkerOk(p, s, s.workers[v]);
    }
    forall v: nat | v < |s'.workers| ensures WorkerOk(p, s', s'.workers[v]) {
      assert WorkerOk(p, s, s.workers[v]);
    }
    forall t | 0 <= t < Taken(s') ensures Accounted(s', t) {
      ReadAccounts(p, s, s', w, t);
    }
  }

  lemma ReadAccounts(p: Setup, s: World, s': World, w: nat, t: int)
    requires Inv(p, s) && Read(p, s, s', w) && 0 <= t < Taken(s')
    ensures Accounted(s', t)
  {
    var x := s.pipe[0];
    assert WorkerOk(p, s, s.workers[w]);
    if t == x {
      assert Holds(s', w, t);
    } else {
      assert Accounted(s, t);
      if v: nat :| Holds(s, v, t) { assert Holds(s', v, t); }
    }
  }

  lemma ReadEndInv(p: Setup, s: World, s': World, w: nat)
    requires Inv(p, s) && ReadEnd(p, s, s', w)
    ensures Inv(p, s')
  {
    var k := s.workers[w];
    assert WorkerOk(p, s, k);
    WaitingUpdate(s.workers, w, WithTicket(k, -1));
    forall v: nat, t ensures Holds(s', v, t) <==> Holds(s, v, t) {
    }
    forall v: nat | v < |s'.workers| ensures WorkerOk(p, s', s'.workers[v]) {
      assert WorkerOk(p, s, s.workers[v]);
    }
    forall t | 0 <= t < Taken(s') ensures Accounted(s', t) {
      assert Accounted(s, t);
      if v: nat :| Holds(s, v, t) { assert Holds(s', v, t); }
    }
  }

  lemma SkipInv(p: Setup, s: World, s': World, w: nat)
    requires Inv(p, s) && Skip(p, s, s', w)
    ensures Inv(p, s')
  {
    WaitingUpdate(s.workers, w, s'.workers[w]);
    forall v: nat, t ensures Holds(s', v, t) <==> Holds(s, v, t) {
    }
    forall v: nat | v < |s'.workers| ensures WorkerOk(p, s', s'.workers[v]) {
      assert WorkerOk(p, s, s.workers[v]);
    }
    forall t | 0 <= t < Taken(s') ensures Accounted(s', t) {
      assert Accounted(s, t);
      if v: nat :| Holds(s, v, t) { assert Holds(s', v, t); }
    }
  }

  lemma ProcessInv(p: Setup, s: World, s': World, w: nat)
    requires Inv(p, s) && Process(p, s, s', w)
    ensures Inv(p, s')
  {
    var j := s.workers[w].jobNumber;
    WaitingUpdate(s.workers, w, s'.workers[w]);
    assert Holds(s, w, j) && WorkerOk(p, s, s.workers[w]);
    forall v: nat, t ensures Holds(s', v, t) <==> v != w && Holds(s, v, t) {
    }
    forall v: nat | v < |s'.workers| ensures WorkerOk(p, s', s'.workers[v]) {
      assert WorkerOk(p, s, s.workers[v]);
    }
    forall t | 0 <= t < Taken(s') ensures Accounted(s', t) {
      assert Accounted(s, t);
      if v: nat :| Holds(s, v, t) && v != w { assert Holds(s', v, t); }
    }
  }

  lemma StepInv(p: Setup, s: World, s': World)
    requires Inv(p, s) && Step(p, s, s')
    ensures Inv(p, s')
  {
    hide Inv, Write, Read, ReadEnd, Skip, Process;
    if Write(p, s, s') {
      WriteInv(p, s, s');
    } else {
      var w: nat :| WorkerStep(p, s, s', w);
      if Read(p, s, s', w) {
        ReadInv(p, s, s', w);
      } else if ReadEnd(p, s, s', w) {
        ReadEndInv(p, s, s', w);
      } else if Skip(p, s, s', w) {
        SkipInv(p, s, s', w);
      } else {
        ProcessInv(p, s, s', w);
      }
    }
  }

  lemma {:induction false} RunInv(p: Setup, t: seq<World>, k: nat)
    requires Run(p, t) && k < |t|
    ensures Inv(p, t[k])
  {
    hide Inv, Init, Step;
    if k == 0 {
      InitInv(p, t[0]);
    } else {
      RunInv(p, t, k - 1);
      var l := k - 1;
      assert Step(p, t[l], t[l + 1]);
      StepInv(p, t[l], t[l + 1]);
    }
  }

  // ---------------------------------------------------------------------------------
  // What a run achieves.

  /** Every worker has made all its submits. */
  ghost predicate AllDone(p: Setup, s: World)
  {
    forall w :: 0 <= w < |s.workers| ==> s.workers[w].phase == Ready && s.workers[w].jobNumber == p.jobs
  }

  /** Safety: in every run, at any time, no job has run twice, and a worker between submits holds a ticket that it can
      still reach, or -1. */
  lemma NoJobTwice(p: Setup, t: seq<World>, k: nat)
    requires Run(p, t) && k < |t|
    ensures forall i, j :: 0 <= i < j < |t[k].ran| ==> t[k].ran[i] != t[k].ran[j]
    ensures forall w :: 0 <= w < |t[k].workers| && t[k].workers[w].phase == Ready ==>
              t[k].workers[w].ticket >= t[k].workers[w].jobNumber || t[k].workers[w].ticket == -1
  {
    RunInv(p, t, k);
    forall w | 0 <= w < |t[k].workers| && t[k].workers[w].phase == Ready
      ensures t[k].workers[w].ticket >= t[k].workers[w].jobNumber || t[k].workers[w].ticket == -1
    {
      assert WorkerOk(p, t[k], t[k].workers[w]);
    }
  }

  /** When all workers are through, and there was a ticket for every job, every job has run, exactly once, as in the
      sequential branch. */
  lemma EveryJobOnce(p: Setup, t: seq<World>, k: nat)
    requires Run(p, t) && k < |t| && AllDone(p, t[k]) && p.size > 0 && p.jobCount >= p.jobs
    ensures forall j: nat :: j < p.jobs <==> j in t[k].ran
    ensures |t[k].ran| == p.jobs
    ensures multiset(t[k].ran) == multiset(SequentialRuns(p.jobs))
  {
    RunInv(p, t, k);
    var s := t[k];
    assert WorkerOk(p, s, s.workers[0]);
    forall w | 0 <= w < |s.workers| ensures s.workers[w].ticket >= p.jobs || s.workers[w].ticket == -1 {
      assert WorkerOk(p, s, s.workers[w]);
    }
    forall j: nat | j < p.jobs ensures j in s.ran {
      assert Accounted(s, j);
    }
    SequentialHas(p.jobs);
    SameRuns(s.ran, SequentialRuns(p.jobs), p.jobs);
  }

  /** The branch of submit without workers: the jobs in order. */
  ghost function SequentialRuns(jobs: nat): (runs: seq<nat>)
  {
    if jobs == 0 then [] else SequentialRuns(jobs - 1) + [jobs - 1]
  }

  lemma {:induction false} SequentialHas(jobs: nat)
    ensures |SequentialRuns(jobs)| == jobs && forall j :: 0 <= j < jobs ==> SequentialRuns(jobs)[j] == j
    ensures forall j: nat :: j < jobs <==> j in SequentialRuns(jobs)
  {
    if jobs > 0 { SequentialHas(jobs - 1); }
  }

  /** Two lists without repetitions that hold just the numbers below n are permutations of each other. */
  lemma {:induction false} SameRuns(xs: seq<nat>, ys: seq<nat>, n: nat)
    requires forall j: nat :: j < n <==> j in xs
    requires forall j: nat :: j < n <==> j in ys
    requires forall i, j :: 0 <= i < j < |xs| ==> xs[i] != xs[j]
    requires forall i, j :: 0 <= i < j < |ys| ==> ys[i] != ys[j]
    ensures multiset(xs) == multiset(ys) && |xs| == |ys|
  {
    forall x ensures multiset(xs)[x] == multiset(ys)[x] {
      OnceInList(xs, x);
      OnceInList(ys, x);
    }
    assert |multiset(xs)| == |xs| && |multiset(ys)| == |ys|;
  }

  lemma {:induction false} OnceInList(xs: seq<nat>, x: nat)
    requires forall i, j :: 0 <= i < j < |xs| ==> xs[i] != xs[j]
    ensures multiset(xs)[x] == if x in xs then 1 else 0
  {
    if xs != [] {
      var front := xs[..|xs|-1];
      assert xs == front + [xs[|xs|-1]];
      OnceInList(front, x);
    }
  }

  /** Nobody is blocked for good: with enough tickets, a worker that wants one finds one once all are written. */
  lemma NeverBlocked(p: Setup, t: seq<World>, k: nat, w: nat)
    requires Run(p, t) && k < |t| && p.jobCount >= p.jobs + p.size
    requires t[k].written == p.jobCount && w < |t[k].workers| && t[k].workers[w].phase != Ready
    ensures t[k].pipe != []
  {
    RunInv(p, t, k);
    WaitingSome(t[k].workers, w);
    DistinctBelow(t[k].ran, p.jobs);
  }

  lemma {:induction false} DistinctBelow(xs: seq<nat>, n: nat)
    requires forall i, j :: 0 <= i < j < |xs| ==> xs[i] != xs[j]
    requires forall i :: 0 <= i < |xs| ==> xs[i] < n
    ensures |xs| <= n
    decreases n
  {
    assert |xs| > 0 ==> xs[0] < n;
    if n > 0 && xs != [] {
      if i :| 0 <= i < |xs| && xs[i] == n - 1 {
        var ys := xs[..i] + xs[i+1..];
        assert forall k :: 0 <= k < |ys| ==> ys[k] == xs[if k < i then k else k + 1];
        DistinctBelow(ys, n - 1);
      } else {
        DistinctBelow(xs, n - 1);
      }
    }
  }

  /** While the pipe stays open, the workers can only all get through if there is a ticket for every job and one more
      for every worker. */
  lemma DoneNeedsTickets(p: Setup, t: seq<World>, k: nat)
    requires Run(p, t) && k < |t| && AllDone(p, t[k]) && p.size > 0 && !p.closes
    ensures p.jobCount >= p.jobs + p.size
  {
    RunInv(p, t, k);
    var s := t[k];
    forall w | 0 <= w < |s.workers| ensures !EmptyHanded(s.workers[w]) {
      assert WorkerOk(p, s, s.workers[w]);
    }
    WaitingNone(s.workers);
    assert p.jobs < Taken(s) by { assert WorkerOk(p, s, s.workers[0]); }
    EveryJobOnce(p, t, k);
  }

  /** A job is lost exactly if there is no ticket for it. */
  lemma LostJobs(p: Setup, t: seq<World>, k: nat, j: nat)
    requires Run(p, t) && k < |t| && AllDone(p, t[k]) && p.size > 0 && j < p.jobs
    ensures j in t[k].ran <==> j < p.jobCount
  {
    RunInv(p, t, k);
    var s := t[k];
    assert WorkerOk(p, s, s.workers[0]);
    if j < p.jobCount {
      assert Accounted(s, j);
      forall w: nat ensures !Holds(s, w, j) {
        assert w < |s.workers| ==> WorkerOk(p, s, s.workers[w]);
      }
    }
  }

  /** The parent has a ticket to write, or worker w finds one or the end of the pipe, or it has a submit to make. */
  ghost predicate Able(p: Setup, s: World, w: nat)
    requires w < |s.workers|
  {
    || s.written < p.jobCount
    || (s.workers[w].phase != Ready && (s.pipe != [] || p.closes))
    || (s.workers[w].phase == Ready && s.workers[w].jobNumber < p.jobs)
  }

  lemma AbleSteps(p: Setup, s: World, w: nat)
    requires Inv(p, s) && w < |s.workers| && Able(p, s, w)
    ensures exists s' :: Step(p, s, s')
  {
    var worker := s.workers[w];
    if s.written < p.jobCount {
      assert Step(p, s, s.(pipe := s.pipe + [s.written], written := s.written + 1));
    } else {
      var next := if worker.phase != Ready then WithTicket(worker, if s.pipe == [] then -1 else s.pipe[0])
                  else if worker.jobNumber != worker.ticket then worker.(jobNumber := worker.jobNumber + 1)
                  else worker.(phase := Fetching);
      var s' := s.(pipe := if worker.phase != Ready && s.pipe != [] then s.pipe[1..] else s.pipe,
                   workers := s.workers[w := next],
                   ran := if next.phase == Fetching then s.ran + [worker.jobNumber] else s.ran);
      assert WorkerStep(p, s, s', w) && Step(p, s, s');
    }
  }

  /** With enough tickets, or with a pipe that is closed, a run can go on until all workers are through. */
  lemma CanGoOn(p: Setup, t: seq<World>, k: nat)
    requires Run(p, t) && k < |t| && (p.closes || p.jobCount >= p.jobs + p.size) && !AllDone(p, t[k])
    ensures exists s' :: Step(p, t[k], s')
  {
    RunInv(p, t, k);
    var s := t[k];
    var w: nat :| w < |s.workers| && !(s.workers[w].phase == Ready && s.workers[w].jobNumber == p.jobs);
    assert WorkerOk(p, s, s.workers[w]);
    if s.written == p.jobCount && s.workers[w].phase != Ready && s.pipe == [] && !p.closes { NeverBlocked(p, t, k, w); }
    AbleSteps(p, s, w);
  }

  /** No step is possible. */
  ghost predicate Ended(p: Setup, s: World)
  {
    forall s' :: !Step(p, s, s')
  }

  ghost function Least(a: nat, b: nat): nat
  {
    if a <= b then a else b
  }

  /** How every run ends while the pipe stays open: exactly the jobs with a ticket have run, and the workers that found
      none are blocked in their read. Those are as many as tickets are missing to one per job and worker, but no more
      than there are workers. */
  lemma OpenPipe(p: Setup, t: seq<World>, k: nat)
    requires Run(p, t) && k < |t| && Ended(p, t[k]) && p.size > 0 && !p.closes
    ensures forall j: nat :: j in t[k].ran <==> j < Least(p.jobs, p.jobCount)
    ensures forall w :: 0 <= w < |t[k].workers| ==>
              var worker := t[k].workers[w];
              if EmptyHanded(worker) then worker.phase != Ready && t[k].pipe == [] else worker.jobNumber == p.jobs
    ensures Waiting(t[k].workers) == if p.jobCount >= p.jobs + p.size then 0 else Least(p.size, p.jobs + p.size - p.jobCount)
    ensures AllDone(p, t[k]) <==> p.jobCount >= p.jobs + p.size
  {
    RunInv(p, t, k);
    var s := t[k];
    WorkerEnds(p, s, 0);
    forall w: nat | w < |s.workers| ensures EndOf(p, s, s.workers[w]) {
      WorkerEnds(p, s, w);
    }
    if p.jobCount >= p.jobs + p.size {
      if !AllDone(p, s) { CanGoOn(p, t, k); }
      EveryJobOnce(p, t, k);
      WaitingNone(s.workers);
    } else {
      if AllDone(p, s) { DoneNeedsTickets(p, t, k); }
      assert s.pipe == [];
      TicketsUsed(p, s);
    }
  }

  /** A worker that can do nothing more waits at the empty pipe or has made all its submits. */
  ghost predicate EndOf(p: Setup, s: World, worker: Worker)
  {
    if worker.phase == Ready then worker.jobNumber == p.jobs <= worker.ticket else s.pipe == []
  }

  lemma WorkerEnds(p: Setup, s: World, w: nat)
    requires Inv(p, s) && Ended(p, s) && w < |s.workers| && !p.closes
    ensures EndOf(p, s, s.workers[w]) && s.written == p.jobCount
  {
    assert WorkerOk(p, s, s.workers[w]);
    if Able(p, s, w) { AbleSteps(p, s, w); }
  }

  /** With the pipe empty, the tickets below the number of jobs were used up. */
  lemma TicketsUsed(p: Setup, s: World)
    requires Inv(p, s) && s.written == p.jobCount && s.pipe == []
    requires forall w: nat :: w < |s.workers| ==> EndOf(p, s, s.workers[w])
    ensures forall j: nat :: j in s.ran <==> j < Least(p.jobs, p.jobCount)
    ensures |s.ran| == Least(p.jobs, p.jobCount)
  {
    var n := Least(p.jobs, p.jobCount);
    forall j: nat ensures j in s.ran <==> j < n {
      if j < n {
        assert Accounted(s, j);
        forall w: nat ensures !Holds(s, w, j) {
          assert w < |s.workers| ==> EndOf(p, s, s.workers[w]);
        }
      }
    }
    SequentialHas(n);
    SameRuns(s.ran, SequentialRuns(n), n);
  }

  /** Every step uses something up, so that no run goes on for ever. */
  ghost function Left(p: Setup, s: World): int
  {
    3 * (p.jobCount - s.written) + 2 * |s.pipe| + Todo(p, s.workers)
  }

  ghost function Todo(p: Setup, workers: seq<Worker>): int
  {
    if workers == [] then 0 else Todo(p, workers[..|workers|-1]) + TodoOf(p, workers[|workers|-1])
  }

  ghost function TodoOf(p: Setup, k: Worker): int
  {
    3 * (p.jobs - k.jobNumber) + match k.phase case Starting => 2 case Ready => 1 case Fetching => 0
  }

  lemma {:induction false} TodoUpdate(p: Setup, workers: seq<Worker>, w: nat, k: Worker)
    requires w < |workers|
    ensures Todo(p, workers[w := k]) == Todo(p, workers) - TodoOf(p, workers[w]) + TodoOf(p, k)
    decreases |workers|
  {
    var front := workers[..|workers|-1];
    if w < |workers| - 1 {
      TodoUpdate(p, front, w, k);
      assert workers[w := k][..|workers|-1] == front[w := k];
    } else {
      assert workers[w := k][..|workers|-1] == front;
    }
  }

  lemma {:induction false} TodoNatural(p: Setup, workers: seq<Worker>)
    requires forall w :: 0 <= w < |workers| ==> workers[w].jobNumber <= p.jobs
    ensures Todo(p, workers) >= 0
  {
    if workers != [] { TodoNatural(p, workers[..|workers|-1]); }
  }

  lemma StepUses(p: Setup, s: World, s': World)
    requires Inv(p, s) && Step(p, s, s')
    ensures Left(p, s') < Left(p, s)
  {
    if !Write(p, s, s') {
      var w: nat :| WorkerStep(p, s, s', w);
      TodoUpdate(p, s.workers, w, s'.workers[w]);
    }
  }

  lemma LeftNatural(p: Setup, s: World)
    requires Inv(p, s)
    ensures Left(p, s) >= 0
  {
    forall w | 0 <= w < |s.workers| ensures s.workers[w].jobNumber <= p.jobs {
      assert WorkerOk(p, s, s.workers[w]);
    }
    TodoNatural(p, s.workers);
  }

  /** No run is longer than what there is to do at its start. */
  lemma {:induction false} RunsEnd(p: Setup, t: seq<World>, k: nat)
    requires Run(p, t) && k < |t|
    ensures k + Left(p, t[k]) <= Left(p, t[0]) && Left(p, t[k]) >= 0
  {
    hide Inv, Init, Step, Left;
    RunInv(p, t, k);
    LeftNatural(p, t[k]);
    if k > 0 {
      var l := k - 1;
      RunsEnd(p, t, l);
      RunInv(p, t, l);
      assert Step(p, t[l], t[l + 1]);
      StepUses(p, t[l], t[l + 1]);
    }
  }

  // ---------------------------------------------------------------------------------
  // One worker's view: what the methods of ProcessPool do between two reads.

  class ProcessPool {
    const size: nat
    const inChildProcess: bool
    var jobNumber: nat
    var ticket: int
    /** The tickets that this worker will still read before the end of the pipe, and the jobs that it has processed. */
    var pipe: seq<nat>
    var processed: seq<nat>

    /** A worker starts with its first ticket. */
    constructor (size: nat, inChildProcess: bool, pipe: seq<nat>)
      ensures this.size == size && this.inChildProcess == inChildProcess && jobNumber == 0 && processed == []
      ensures ticket == (if pipe == [] then -1 else pipe[0]) && this.pipe == if pipe == [] then [] else pipe[1..]
    {
      this.size, this.inChildProcess := size, inChildProcess;
      jobNumber, ticket, this.pipe, processed := 0, -1, pipe, [];
      new;
      ticket := ReadTicketNumber();
    }

    method ReadTicketNumber() returns (t: int)
      modifies `pipe
      ensures if old(pipe) == [] then t == -1 && pipe == [] else t == old(pipe)[0] && pipe == old(pipe)[1..]
    {
      if pipe == [] {
        return -1;
      }
      t := pipe[0];
      pipe := pipe[1..];
    }

    /** In a worker, submit is a Skip, or a Process followed by a Read or a ReadEnd. Without workers the job is processed
        at once; the parent of workers does nothing. */
    method Submit(job: nat)
      requires size > 1 && inChildProcess ==> job == jobNumber
      modifies `jobNumber, `ticket, `pipe, `processed
      ensures processed == if size <= 1 || (inChildProcess && old(jobNumber) == old(ticket)) then old(processed) + [job] else old(processed)
      ensures jobNumber == if size > 1 && inChildProcess then old(jobNumber) + 1 else old(jobNumber)
      ensures if size > 1 && inChildProcess && old(jobNumber) == old(ticket) && old(pipe) != [] then
                ticket == old(pipe)[0] && pipe == old(pipe)[1..]
              else pipe == old(pipe) && ticket == if size > 1 && inChildProcess && old(jobNumber) == old(ticket) then -1 else old(ticket)
    {
      if size > 1 {
        if inChildProcess {
          if jobNumber == ticket {
            processed := processed + [job];
            ticket := ReadTicketNumber();
          }
          jobNumber := jobNumber + 1;
        }
      } else {
        processed := processed + [job];
      }
    }
  }

  /** Walking through the jobs with whatever ascending tickets it gets, a worker processes just those of its tickets that
      are jobs, in order; without workers all jobs are processed in order; the parent of workers processes none. */
  method WorkerRun(size: nat, inChildProcess: bool, tickets: seq<nat>, jobs: nat) returns (pool: ProcessPool)
    requires forall i, j :: 0 <= i < j < |tickets| ==> tickets[i] < tickets[j]
    ensures fresh(pool)
    ensures size <= 1 ==> pool.processed == SequentialRuns(jobs)
    ensures size > 1 && !inChildProcess ==> pool.processed == []
    ensures size > 1 && inChildProcess ==>
              exists k: nat :: k <= |tickets| && pool.processed == tickets[..k]
                               && (forall i :: 0 <= i < k ==> tickets[i] < jobs) && (k < |tickets| ==> tickets[k] >= jobs)
  {
    pool := new ProcessPool(size, inChildProcess, tickets);
    ghost var k := 0;
    assert tickets[..0] == [];
    for j := 0 to jobs
      invariant fresh(pool) && pool.size == size && pool.inChildProcess == inChildProcess
      invariant size <= 1 ==> pool.processed == SequentialRuns(j)
      invariant size > 1 && !inChildProcess ==> pool.processed == []
      invariant size > 1 && inChildProcess ==> pool.jobNumber == j && AtTicket(tickets, k, j, pool.ticket, pool.pipe, pool.processed)
    {
      ghost var hit := size > 1 && inChildProcess && pool.ticket == j;
      pool.Submit(j);
      if hit {
        assert tickets[..k + 1] == tickets[..k] + [tickets[k]];
        k := k + 1;
      }
    }
  }

  /** The worker has processed its first k tickets and holds the next one. */
  ghost predicate AtTicket(tickets: seq<nat>, k: nat, j: nat, ticket: int, pipe: seq<nat>, processed: seq<nat>)
  {
    && k <= |tickets| && processed == tickets[..k] && (forall i :: 0 <= i < k ==> tickets[i] < j)
    && if k == |tickets| then ticket == -1 && pipe == [] else ticket == tickets[k] >= j && pipe == tickets[k + 1..]
  }
}
