/**
 The pool that runs TLS handshakes outside the event loops.  `Submit`, `recycleWorker` and
 the first half of `Stop` are critical sections of one mutex; a job is a goroutine that
 finishes its handshake, gives its worker back and leaves the wait group, in three steps
 that interleave freely with everything else.
 */
module HandshakePool {

  const DEFAULT_POOL_SIZE := 128
  const DEFAULT_MIN_ACTIVE := 8

  /** Where a job stands; it holds a worker in the first two stages and is awaited in the first three. */
  datatype Job = Handshaking | HandedOver | Recycled | Exited

  function Stage(j: Job): nat {
    match j
    case Handshaking => 0
    case HandedOver => 1
    case Recycled => 2
    case Exited => 3
  }

  /** The number of jobs that have not yet reached a stage. */
  function Before(jobs: seq<Job>, stage: nat): nat {
    if jobs == [] then 0 else Before(jobs[..|jobs| - 1], stage) + if Stage(jobs[|jobs| - 1]) < stage then 1 else 0
  }

  datatype StopCall = NotCalled | Waiting | Returned

  datatype State = State(
    maxWorkers: int, minWorkers: int, workers: int, idleWorkers: int, pending: int, stopping: bool,
    waitGroup: int, stop: StopCall, jobs: seq<Job>)

  datatype Step =
    | Start
    | Submit(present: bool)
    | HandOver(j: nat)    // the end of handleConn
    | Recycle(j: nat)     // recycleWorker
    | Exit(j: nat)        // wg.Done
    | BeginStop
    | EndStop             // wg.Wait has returned

  datatype Verdict = Accepted | NilConn | WorkerStopped | PoolFull

  /** What Submit answers. */
  function Answer(s: State, present: bool): Verdict {
    if !present then NilConn
    else if s.stopping then WorkerStopped
    else if s.idleWorkers > 0 || s.workers < s.maxWorkers then Accepted
    else PoolFull
  }

  /** NewTLSHandshakeWorker */
  function NewPool(maxWorkers: int): State {
    var most := if maxWorkers <= 0 || maxWorkers > DEFAULT_POOL_SIZE then DEFAULT_POOL_SIZE else maxWorkers;
    State(most, if DEFAULT_MIN_ACTIVE > most then most else DEFAULT_MIN_ACTIVE, 0, 0, 0, false, 0, NotCalled, [])
  }

  predicate At(s: State, j: nat, stage: nat) {
    j < |s.jobs| && Stage(s.jobs[j]) == stage
  }

  predicate Enabled(s: State, step: Step) {
    match step
    case Start => s.jobs == []             // the pool is started before it is used
    case Submit(_) => true
    case HandOver(j) => At(s, j, 0)
    case Recycle(j) => At(s, j, 1)
    case Exit(j) => At(s, j, 2)
    case BeginStop => s.stop == NotCalled
    case EndStop => s.stop == Waiting && s.waitGroup == 0
  }

  function Next(s: State, step: Step): State
    requires Enabled(s, step)
  {
    match step
    case Start => s.(workers := s.minWorkers, idleWorkers := s.minWorkers)
    case Submit(present) =>
      if Answer(s, present) != Accepted then s else
        var t := if s.idleWorkers > 0 then s.(idleWorkers := s.idleWorkers - 1) else s.(workers := s.workers + 1);
        t.(pending := s.pending + 1, waitGroup := s.waitGroup + 1, jobs := s.jobs + [Handshaking])
    case HandOver(j) => s.(pending := s.pending - 1, jobs := s.jobs[j := HandedOver])
    case Recycle(j) =>
      s.(idleWorkers := if !s.stopping && s.idleWorkers < s.workers then s.idleWorkers + 1 else s.idleWorkers,
         jobs := s.jobs[j := Recycled])
    case Exit(j) => s.(waitGroup := s.waitGroup - 1, jobs := s.jobs[j := Exited])
    case BeginStop => s.(stopping := true, stop := Waiting)
    case EndStop => s.(stop := Returned)
  }

  // --------------------------------------------------------------- the invariant

  ghost predicate Inv(s: State) {
    && 0 <= s.minWorkers <= s.maxWorkers <= DEFAULT_POOL_SIZE && 0 < s.maxWorkers
    && 0 <= s.idleWorkers && s.workers <= s.maxWorkers
    && s.idleWorkers + Before(s.jobs, 2) <= s.workers
    && (!s.stopping ==> s.idleWorkers + Before(s.jobs, 2) == s.workers)
    && s.pending == Before(s.jobs, 1)
    && s.waitGroup == Before(s.jobs, 3)
    && (s.stopping <==> s.stop != NotCalled)
    && (s.stop == Returned ==> Before(s.jobs, 3) == 0)
  }

  lemma BeforeSnoc(jobs: seq<Job>, j: Job, stage: nat)
    ensures Before(jobs + [j], stage) == Before(jobs, stage) + if Stage(j) < stage then 1 else 0
  {
    assert (jobs + [j])[..|jobs|] == jobs;
  }

  /** A job that moves counts at its new stage instead of its old one. */
  lemma {:induction false} BeforeMove(jobs: seq<Job>, k: nat, j: Job, stage: nat)
    requires k < |jobs|
    ensures Before(jobs[k := j], stage) ==
            Before(jobs, stage) - (if Stage(jobs[k]) < stage then 1 else 0) + (if Stage(j) < stage then 1 else 0)
  {
    var n := |jobs| - 1;
    if k == n {
      assert jobs[k := j][..n] == jobs[..n];
    } else {
      assert jobs[k := j][..n] == jobs[..n][k := j];
      BeforeMove(jobs[..n], k, j, stage);
    }
  }

  lemma {:induction false} BeforeGrows(jobs: seq<Job>, a: nat, b: nat)
    requires a <= b
    ensures Before(jobs, a) <= Before(jobs, b)
  {
    if jobs != [] {
      BeforeGrows(jobs[..|jobs| - 1], a, b);
    }
  }

  lemma {:induction false} NoneBefore(jobs: seq<Job>, stage: nat)
    ensures Before(jobs, stage) == 0 <==> forall j :: 0 <= j < |jobs| ==> Stage(jobs[j]) >= stage
  {
    if jobs != [] {
      var n := |jobs| - 1;
      NoneBefore(jobs[..n], stage);
      assert forall j :: 0 <= j < n ==> jobs[..n][j] == jobs[j];
    }
  }

  lemma StepKeepsInv(s: State, step: Step)
    requires Inv(s) && Enabled(s, step)
    ensures Inv(Next(s, step))
  {
    hide Before;
    match step
    case Submit(present) =>
      BeforeSnoc(s.jobs, Handshaking, 1);
      BeforeSnoc(s.jobs, Handshaking, 2);
      BeforeSnoc(s.jobs, Handshaking, 3);
    case HandOver(j) => Moves(s.jobs, j, HandedOver);
    case Recycle(j) => Moves(s.jobs, j, Recycled);
    case Exit(j) => Moves(s.jobs, j, Exited);
    case Start =>
      assert Before([], 2) == 0 by { NoneBefore([], 2); }
    case _ =>
  }

  lemma Moves(jobs: seq<Job>, k: nat, j: Job)
    requires k < |jobs|
    ensures forall stage | 1 <= stage <= 3 ::
              Before(jobs[k := j], stage) ==
              Before(jobs, stage) - (if Stage(jobs[k]) < stage then 1 else 0) + (if Stage(j) < stage then 1 else 0)
  {
    forall stage | 1 <= stage <= 3
      ensures Before(jobs[k := j], stage) ==
              Before(jobs, stage) - (if Stage(jobs[k]) < stage then 1 else 0) + (if Stage(j) < stage then 1 else 0)
    {
      BeforeMove(jobs, k, j, stage);
    }
  }

  // ------------------------------------------------------------------------ runs

  /** Every interleaving: a run takes enabled steps one after the other. */
  ghost predicate Run(s: State, steps: seq<Step>, t: State)
    decreases |steps|
  {
    if steps == [] then s == t else Enabled(s, steps[0]) && Run(Next(s, steps[0]), steps[1..], t)
  }

  lemma {:induction false} RunKeepsInv(s: State, steps: seq<Step>, t: State)
    requires Inv(s) && Run(s, steps, t)
    ensures Inv(t)
    decreases |steps|
  {
    if steps != [] {
      StepKeepsInv(s, steps[0]);
      RunKeepsInv(Next(s, steps[0]), steps[1..], t);
    }
  }

  /** In every reachable state the counters say how many workers are busy. */
  lemma CountersAreExact(maxWorkers: int, steps: seq<Step>, s: State)
    requires Run(NewPool(maxWorkers), steps, s)
    ensures !s.stopping ==> s.idleWorkers + Before(s.jobs, 2) == s.workers
    ensures s.workers <= s.maxWorkers && 0 <= s.pending == Before(s.jobs, 1) <= Before(s.jobs, 2) <= s.maxWorkers <= DEFAULT_POOL_SIZE
    ensures s.stop == Returned ==> forall j :: 0 <= j < |s.jobs| ==> s.jobs[j] == Exited
  {
    RunKeepsInv(NewPool(maxWorkers), steps, s);
    BeforeGrows(s.jobs, 1, 2);
    NoneBefore(s.jobs, 3);
  }

  /** A connection is turned away exactly if the pool is stopping or every worker is busy. */
  lemma RefusedExactly(maxWorkers: int, steps: seq<Step>, s: State)
    requires Run(NewPool(maxWorkers), steps, s)
    ensures Answer(s, true) == WorkerStopped <==> s.stopping
    ensures Answer(s, true) == PoolFull <==> !s.stopping && Before(s.jobs, 2) == s.maxWorkers
  {
    RunKeepsInv(NewPool(maxWorkers), steps, s);
  }

  /** A connection that is not turned away gets a worker: its job starts, and is awaited. */
  lemma AcceptedIsStarted(maxWorkers: int, steps: seq<Step>, s: State)
    requires Run(NewPool(maxWorkers), steps, s)
    ensures !s.stopping && Before(s.jobs, 2) < s.maxWorkers <==> Answer(s, true) == Accepted
    ensures var t := Next(s, Submit(true));
            t.jobs == if !s.stopping && Before(s.jobs, 2) < s.maxWorkers then s.jobs + [Handshaking] else s.jobs
  {
    RunKeepsInv(NewPool(maxWorkers), steps, s);
  }

  /** Once the pool is stopping no job starts any more, and a returned Stop stays true. */
  lemma {:induction false} NothingStartsAfterStop(s: State, steps: seq<Step>, t: State)
    requires Inv(s) && Run(s, steps, t) && s.stopping
    ensures t.stopping && |t.jobs| == |s.jobs|
    ensures forall j :: 0 <= j < |s.jobs| ==> Stage(s.jobs[j]) <= Stage(t.jobs[j])
    ensures s.stop == Returned ==> t.stop == Returned && t.jobs == s.jobs
    decreases |steps|
  {
    if steps != [] {
      StepKeepsInv(s, steps[0]);
      var u := Next(s, steps[0]);
      NoneBefore(s.jobs, 3);
      NothingStartsAfterStop(u, steps[1..], t);
    }
  }

  // ----------------------------------------------------------------- Stop returns

  /** The steps the jobs still have to take. */
  function Work(jobs: seq<Job>): nat {
    if jobs == [] then 0 else Work(jobs[..|jobs| - 1]) + (3 - Stage(jobs[|jobs| - 1]))
  }

  predicate JobStep(step: Step) {
    step.HandOver? || step.Recycle? || step.Exit?
  }

  lemma {:induction false} WorkMove(jobs: seq<Job>, k: nat, j: Job)
    requires k < |jobs|
    ensures Work(jobs[k := j]) == Work(jobs) + Stage(jobs[k]) - Stage(j)
  {
    var n := |jobs| - 1;
    if k == n {
      assert jobs[k := j][..n] == jobs[..n];
    } else {
      assert jobs[k := j][..n] == jobs[..n][k := j];
      WorkMove(jobs[..n], k, j);
    }
  }

  lemma {:induction false} NoWorkMeansExited(jobs: seq<Job>)
    ensures Work(jobs) == 0 <==> Before(jobs, 3) == 0
  {
    if jobs != [] {
      NoWorkMeansExited(jobs[..|jobs| - 1]);
    }
  }

  /** Any run of job steps takes exactly that much work off, so it cannot go on for ever ... */
  lemma {:induction false} JobsGetDone(s: State, steps: seq<Step>, t: State)
    requires Run(s, steps, t) && forall i :: 0 <= i < |steps| ==> JobStep(steps[i])
    ensures |steps| == Work(s.jobs) - Work(t.jobs)
    decreases |steps|
  {
    if steps != [] {
      var u := Next(s, steps[0]);
      match steps[0] {
        case HandOver(j) => WorkMove(s.jobs, j, HandedOver);
        case Recycle(j) => WorkMove(s.jobs, j, Recycled);
        case Exit(j) => WorkMove(s.jobs, j, Exited);
      }
      JobsGetDone(u, steps[1..], t);
    }
  }

  /** ... and it can always go on until Stop may return. */
  lemma StopIsNotStuck(s: State) returns (step: Step)
    requires Inv(s) && s.stop == Waiting
    ensures Enabled(s, step) && (step == EndStop || JobStep(step))
    ensures step == EndStop <==> Work(s.jobs) == 0
  {
    NoWorkMeansExited(s.jobs);
    NoneBefore(s.jobs, 3);
    if s.waitGroup == 0 {
      step := EndStop;
    } else {
      var j :| 0 <= j < |s.jobs| && Stage(s.jobs[j]) < 3;
      step := if s.jobs[j] == Handshaking then HandOver(j) else if s.jobs[j] == HandedOver then Recycle(j) else Exit(j);
    }
  }

  // ------------------------------------------------------------ the critical sections

  class Worker {
    var maxWorkers: int
    var minWorkers: int
    var workers: int
    var idleWorkers: int
    var pending: int
    var stopping: bool
    var waitGroup: int
    ghost var stop: StopCall
    ghost var jobs: seq<Job>

    ghost function Now(): State
      reads this
    {
      State(maxWorkers, minWorkers, workers, idleWorkers, pending, stopping, waitGroup, stop, jobs)
    }

    constructor (maxWorkers: int)
      ensures Now() == NewPool(maxWorkers)
      ensures this.maxWorkers == (if 1 <= maxWorkers <= 128 then maxWorkers else 128)
      ensures this.minWorkers == (if this.maxWorkers < 8 then this.maxWorkers else 8) && !stopping && jobs == []
    {
      var most := maxWorkers;
      if maxWorkers <= 0 || maxWorkers > DEFAULT_POOL_SIZE {
        most := DEFAULT_POOL_SIZE;
      }
      var least := DEFAULT_MIN_ACTIVE;
      if least > most {
        least := most;
      }
      this.maxWorkers, this.minWorkers := most, least;
      workers, idleWorkers, pending, stopping, waitGroup, stop, jobs := 0, 0, 0, false, 0, NotCalled, [];
    }

    method StartWorkers()
      requires Enabled(Now(), Start)
      modifies this
      ensures Now() == Next(old(Now()), Start)
      ensures workers == idleWorkers == minWorkers == old(minWorkers)
    {
      workers := minWorkers;
      idleWorkers := minWorkers;
    }

    method SubmitConn(present: bool) returns (answer: Verdict)
      modifies this
      ensures Now() == Next(old(Now()), Submit(present)) && answer == Answer(old(Now()), present)
      ensures answer == NilConn <==> !present
      ensures answer == WorkerStopped <==> present && stopping
      ensures answer == PoolFull <==> present && !stopping && old(idleWorkers) <= 0 && old(workers) >= maxWorkers
      ensures if answer == Accepted then jobs == old(jobs) + [Handshaking] else Now() == old(Now())
    {
      if !present {
        return NilConn;
      }
      if stopping {
        return WorkerStopped;
      }
      if idleWorkers > 0 {
        idleWorkers := idleWorkers - 1;
      } else if workers < maxWorkers {
        workers := workers + 1;
      } else {
        return PoolFull;
      }
      pending := pending + 1;
      waitGroup := waitGroup + 1;
      jobs := jobs + [Handshaking];
      return Accepted;
    }

    /** The first half of Stop, which happens once; the second half waits for the wait group. */
    method StopWorkers()
      requires Enabled(Now(), BeginStop)
      modifies this
      ensures Now() == Next(old(Now()), BeginStop)
    {
      stopping := true;
      stop := Waiting;
    }

    method RecycleWorker(ghost j: nat)
      requires Enabled(Now(), Recycle(j))
      modifies this
      ensures Now() == Next(old(Now()), Recycle(j))
    {
      jobs := jobs[j := Recycled];
      if stopping {
        return;
      }
      if idleWorkers < workers {
        idleWorkers := idleWorkers + 1;
      }
    }
  }
}
