/**
 Every interleaving of the scheduler. A thread's program counter says which
 critical section or semaphore operation it performs next; each step of the
 model is one of those, performed by any thread, or a Schedule call made by any
 caller. A thread that stops existing stays in the list as Gone.
 */
module SchedulerRuns {
  import opened SchedulerCore

  /** What a thread does after hireWorker returns: a worker runs the job it
      holds, Start goes on to its next thread. */
  datatype Cont<J> = ThenRun(job: J) | ThenBoot(left: nat)

  datatype Pc<J> =
    | Starting                                 // about to count itself idle
    | Waiting                                  // in WorkAvail.Wait()
    | Woken                                    // holds a permit, still counted idle
    | Deciding(waiting: int)                   // about to enter SchedMutex
    | Hiring(k: Cont<J>)                       // about to enter hireWorker's first section
    | Reserved(k: Cont<J>)                     // counted a thread, not started yet
    | Failed(k: Cont<J>)                       // the thread could not be started
    | Running(job: J)
    | Checked(job: J)                          // DoIt saw an empty queue
    | Sampled(job: J, idle: int, gone: int)    // DoIt read the idle count; `gone` is num_TDestroy then
    | Boot(left: nat)                          // Start, with threads still to hire
    | Gone

  datatype State<J> = State(
    core: Core<J>,
    threads: seq<Pc<J>>,
    scheduled: seq<J>,     // every job ever put on the work queue, in order
    dispatched: seq<J>,    // every job ever handed to a worker, in order
    peak: nat,             // longest queue so far
    failures: nat,         // threads that could not be started
    lost: int)             // threads that ended between DoIt's last sample and its layoff decision

  datatype Step<J> =
    | Schedule(j: J)
    | ScheduleBatch(js: seq<J>)
    | EnterIdle(t: nat)
    | TakePermit(t: nat)
    | LeaveIdle(t: nat)
    | TakeWork(t: nat)
    | BootHire(t: nat)
    | Reserve(t: nat)
    | ThreadStarted(t: nat)
    | ThreadFailed(t: nat)
    | FixLimits(t: nat)
    | FinishJob(t: nat)
    | CheckQueue(t: nat)
    | SampleIdle(t: nat)
    | AssignLayoffs(t: nat)

  function Init<J>(minWorkers: int, maxWorkers: int): State<J> {
    var numw := if minWorkers >= 0 && minWorkers / 3 != 0 then minWorkers / 3 else 2;
    State(SchedulerCore.Init(minWorkers, maxWorkers), [Boot(numw)], [], [], 0, 0, 0)
  }

  function Resume<J>(k: Cont<J>): Pc<J> {
    match k
    case ThenRun(j) => Running(j)
    case ThenBoot(n) => Boot(n)
  }

  predicate Enabled<J(==)>(s: State<J>, step: Step<J>) {
    match step
    case Schedule(j) => j !in s.core.queue
    case ScheduleBatch(js) => js != [] && (forall j | j in js :: j !in s.core.queue) && Distinct(js)
    case EnterIdle(t) => t < |s.threads| && s.threads[t].Starting?
    case TakePermit(t) => t < |s.threads| && s.threads[t].Waiting? && s.core.permits > 0
    case LeaveIdle(t) => t < |s.threads| && s.threads[t].Woken?
    case TakeWork(t) => t < |s.threads| && s.threads[t].Deciding?
    case BootHire(t) => t < |s.threads| && s.threads[t].Boot? && s.threads[t].left > 0
    case Reserve(t) => t < |s.threads| && s.threads[t].Hiring?
    case ThreadStarted(t) => t < |s.threads| && s.threads[t].Reserved?
    case ThreadFailed(t) => t < |s.threads| && s.threads[t].Reserved?
    case FixLimits(t) => t < |s.threads| && s.threads[t].Failed?
    case FinishJob(t) => t < |s.threads| && s.threads[t].Running?
    case CheckQueue(t) => t < |s.threads| && s.threads[t].Running? && s.core.jobsInQ == 0
    case SampleIdle(t) => t < |s.threads| && s.threads[t].Checked?
    case AssignLayoffs(t) => t < |s.threads| && s.threads[t].Sampled?
  }

  predicate Distinct<J(==)>(js: seq<J>) {
    forall i, k | 0 <= i < k < |js| :: js[i] != js[k]
  }

  /** Moves thread t to pc. */
  function At<J>(s: State<J>, t: nat, pc: Pc<J>): State<J>
    requires t < |s.threads|
  {
    s.(threads := s.threads[t := pc])
  }

  function Grow(peak: nat, n: nat): nat {
    if n > peak then n else peak
  }

  function Apply<J>(s: State<J>, step: Step<J>): State<J>
    requires Enabled(s, step)
  {
    match step
    case Schedule(j) =>
      s.(core := Scheduled(s.core, j), scheduled := s.scheduled + [j], peak := Grow(s.peak, |s.core.queue| + 1))
    case ScheduleBatch(js) =>
      s.(core := BatchScheduled(s.core, js), scheduled := s.scheduled + js, peak := Grow(s.peak, |s.core.queue| + |js|))
    case EnterIdle(t) => At(s, t, Waiting).(core := IdleEntered(s.core))
    case TakePermit(t) => At(s, t, Woken).(core := PermitTaken(s.core))
    case LeaveIdle(t) => At(s, t, Deciding(s.core.idle - 1)).(core := IdleLeft(s.core))
    case TakeWork(t) =>
      var waiting := s.threads[t].waiting;
      var next := s.(core := WorkTaken(s.core, waiting));
      (match Outcome(s.core, waiting)
       case Job(j) =>
         At(next, t, if waiting == 0 then Hiring(ThenRun(j)) else Running(j)).(dispatched := s.dispatched + [j])
       case Retry => At(next, t, Starting)
       case LaidOff => At(next, t, Gone))
    case BootHire(t) => At(s, t, Hiring(ThenBoot(s.threads[t].left - 1)))
    case Reserve(t) =>
      var k := s.threads[t].k;
      At(s, t, if MayHire(s.core) then Reserved(k) else Resume(k)).(core := HireReserved(s.core))
    case ThreadStarted(t) =>
      var moved := At(s, t, Resume(s.threads[t].k));
      moved.(threads := moved.threads + [Starting])
    case ThreadFailed(t) => At(s, t, Failed(s.threads[t].k))
    case FixLimits(t) =>
      At(s, t, Resume(s.threads[t].k)).(core := HireFailed(s.core), failures := s.failures + 1)
    case FinishJob(t) => At(s, t, Starting)
    case CheckQueue(t) => At(s, t, Checked(s.threads[t].job))
    case SampleIdle(t) => At(s, t, Sampled(s.threads[t].job, s.core.idle, s.core.destroyed))
    case AssignLayoffs(t) =>
      var pc := s.threads[t];
      At(s, t, Starting).(
        core := LaidOffSet(s.core, pc.idle),
        lost := if KillCount(pc.idle, s.core.minWorkers) > 0 then s.core.destroyed - pc.gone else s.lost)
  }

  /** The steps can be taken one after the other from s. */
  predicate IsRun<J(==)>(s: State<J>, steps: seq<Step<J>>)
    decreases |steps|
  {
    steps == [] || (Enabled(s, steps[0]) && IsRun(Apply(s, steps[0]), steps[1..]))
  }

  function After<J>(s: State<J>, steps: seq<Step<J>>): State<J>
    requires IsRun(s, steps)
    decreases |steps|
  {
    if steps == [] then s else After(Apply(s, steps[0]), steps[1..])
  }

  // ---------------------------------------------------------------------
  // Counting threads

  datatype Census = IsIdle | IsAwake | IsCounted | IsAlive | IsSafe

  /** Idle: counted by idl_Workers. Awake: took a permit and has not yet been
      through the SchedMutex section. Counted: contributes to num_Workers (a
      reserved thread counts before it exists). Alive: a worker thread that
      exists. Safe: a worker that cannot be laid off before it next waits. */
  function Weight<J>(m: Census, pc: Pc<J>): nat {
    match m
    case IsIdle => if pc.Waiting? || pc.Woken? then 1 else 0
    case IsAwake => if pc.Woken? || pc.Deciding? then 1 else 0
    case IsCounted => Alive(pc) + (if pc.Reserved? || pc.Failed? then 1 else 0)
    case IsAlive => Alive(pc)
    case IsSafe => if pc.Deciding? && pc.waiting != 0 then 0 else Alive(pc)
  }

  function Alive<J>(pc: Pc<J>): nat {
    if pc.Boot? || pc.Gone? then 0
    else if pc.Hiring? || pc.Reserved? || pc.Failed? then (if pc.k.ThenRun? then 1 else 0)
    else 1
  }

  function Count<J>(m: Census, ts: seq<Pc<J>>): nat {
    if ts == [] then 0 else Count(m, ts[..|ts| - 1]) + Weight(m, ts[|ts| - 1])
  }

  lemma {:induction false} CountAt<J>(m: Census, ts: seq<Pc<J>>, t: nat, pc: Pc<J>)
    requires t < |ts|
    ensures Count(m, ts[t := pc]) == Count(m, ts) - Weight(m, ts[t]) + Weight(m, pc)
  {
    var n := |ts| - 1;
    if t == n {
      assert ts[t := pc][..n] == ts[..n];
    } else {
      assert ts[t := pc][..n] == ts[..n][t := pc];
      CountAt(m, ts[..n], t, pc);
    }
  }

  lemma CountMore<J>(m: Census, ts: seq<Pc<J>>, pc: Pc<J>)
    ensures Count(m, ts + [pc]) == Count(m, ts) + Weight(m, pc)
  {
    assert (ts + [pc])[..|ts|] == ts;
  }

  /** A positive census has a witness. */
  lemma {:induction false} CountWitness<J>(m: Census, ts: seq<Pc<J>>) returns (t: nat)
    requires Count(m, ts) > 0
    ensures t < |ts| && Weight(m, ts[t]) > 0
  {
    var n := |ts| - 1;
    if Weight(m, ts[n]) > 0 {
      t := n;
    } else {
      t := CountWitness(m, ts[..n]);
    }
  }

  lemma {:induction false} CountOne<J>(m: Census, ts: seq<Pc<J>>, t: nat)
    requires t < |ts|
    ensures Count(m, ts) >= Weight(m, ts[t])
  {
    var n := |ts| - 1;
    if t < n {
      CountOne(m, ts[..n], t);
    }
  }

  /** There are at least as many worker threads as idle ones, and one more when
      some worker is not idle. */
  lemma {:induction false} IdleAreAlive<J>(ts: seq<Pc<J>>)
    ensures Count(IsIdle, ts) <= Count(IsAlive, ts) <= Count(IsCounted, ts)
    ensures forall t | 0 <= t < |ts| && Alive(ts[t]) == 1 && Weight(IsIdle, ts[t]) == 0 ::
              Count(IsIdle, ts) < Count(IsAlive, ts)
  {
    if ts != [] {
      IdleAreAlive(ts[..|ts| - 1]);
      forall t | 0 <= t < |ts| && Alive(ts[t]) == 1 && Weight(IsIdle, ts[t]) == 0
        ensures Count(IsIdle, ts) < Count(IsAlive, ts)
      {
        if t < |ts| - 1 {
          assert ts[..|ts| - 1][t] == ts[t];
        }
      }
    }
  }

  // ---------------------------------------------------------------------
  // What every step keeps

  /** The queue is what was scheduled and not yet handed out, in order; the
      statistics agree with it. */
  ghost predicate Fifo<J>(s: State<J>) {
    && s.scheduled == s.dispatched + s.core.queue
    && s.core.jobsInQ == |s.core.queue|
    && s.core.numJobs == |s.scheduled|
    && s.core.maxQLength == s.peak
  }

  /** No wakeup is lost: permits not yet taken and workers already woken cover
      every queued job and every outstanding layoff. */
  ghost predicate Covered<J>(s: State<J>) {
    && s.core.layoffs >= 0
    && s.core.permits + Count(IsAwake, s.threads) >= |s.core.queue| + s.core.layoffs
  }

  /** The counters agree with the threads. */
  ghost predicate Counters<J>(s: State<J>) {
    && s.core.idle == Count(IsIdle, s.threads)
    && s.core.workers == Count(IsCounted, s.threads)
    && s.core.workers + s.core.destroyed == s.core.created
    && s.core.workers <= s.core.maxWorkers
    && (forall t | 0 <= t < |s.threads| && s.threads[t].Deciding? :: s.threads[t].waiting >= 0)
  }

  /** The pool does not empty. */
  ghost predicate Kept<J>(s: State<J>) {
    Count(IsAlive, s.threads) > 0 ==> Count(IsSafe, s.threads) > 0
  }

  /** A sampled idle count is still covered by the threads that exist and those
      that ended since; the outstanding layoffs leave the minimum, less the
      threads that ended in the sampling window. */
  ghost predicate Floor<J>(s: State<J>) {
    && (forall t | 0 <= t < |s.threads| && s.threads[t].Sampled? ::
          s.threads[t].idle + 1 <= s.core.workers + s.core.destroyed - s.threads[t].gone)
    && (s.failures == 0 && s.core.layoffs > 0 ==>
          s.core.workers - s.core.layoffs >= s.core.minWorkers + 1 - s.lost)
  }

  lemma {:induction false} FifoKept<J>(s: State<J>, step: Step<J>)
    requires Fifo(s) && Enabled(s, step)
    ensures Fifo(Apply(s, step))
  {
    if step.TakeWork? && s.core.queue != [] {
      assert s.dispatched + s.core.queue == s.dispatched + [s.core.queue[0]] + s.core.queue[1..];
    }
  }

  /** How a census changes in a step: one thread moves, and ThreadStarted adds
      the new worker. */
  ghost predicate Recounted<J>(m: Census, s: State<J>, s': State<J>, step: Step<J>)
    requires Enabled(s, step)
  {
    match step
    case Schedule(_) => s'.threads == s.threads
    case ScheduleBatch(_) => s'.threads == s.threads
    case ThreadStarted(t) =>
      Count(m, s'.threads) == Count(m, s.threads) - Weight(m, s.threads[t])
                              + Weight(m, Resume(s.threads[t].k)) + Weight(m, Pc<J>.Starting)
    case _ =>
      && step.t < |s'.threads|
      && Count(m, s'.threads) == Count(m, s.threads) - Weight(m, s.threads[step.t]) + Weight(m, s'.threads[step.t])
  }

  lemma CensusAfter<J>(m: Census, s: State<J>, step: Step<J>)
    requires Enabled(s, step)
    ensures Recounted(m, s, Apply(s, step), step)
  {
    match step
    case Schedule(_) =>
    case ScheduleBatch(_) =>
    case ThreadStarted(t) =>
      var ts := s.threads[t := Resume(s.threads[t].k)];
      CountAt(m, s.threads, t, ts[t]);
      CountMore(m, ts, Pc<J>.Starting);
    case _ =>
      var ts := Apply(s, step).threads;
      assert ts == s.threads[step.t := ts[step.t]];
      CountAt(m, s.threads, step.t, ts[step.t]);
  }

  lemma IdleKept<J>(s: State<J>, step: Step<J>)
    requires Counters(s) && Enabled(s, step)
    ensures Apply(s, step).core.idle == Count(IsIdle, Apply(s, step).threads)
    ensures step.LeaveIdle? ==> s.core.idle > 0
  {
    CensusAfter(IsIdle, s, step);
    if step.LeaveIdle? {
      CountOne(IsIdle, s.threads, step.t);
    }
  }

  predicate Hires<J>(step: Step<J>) {
    step.BootHire? || step.Reserve? || step.ThreadStarted? || step.ThreadFailed? || step.FixLimits?
  }

  lemma WorkersKeptByHiring<J>(s: State<J>, step: Step<J>)
    requires Counters(s) && Enabled(s, step) && Hires(step)
    ensures Apply(s, step).core.workers == Count(IsCounted, Apply(s, step).threads)
  {
    CensusAfter(IsCounted, s, step);
  }

  lemma WorkersKeptByWork<J>(s: State<J>, t: nat)
    requires Counters(s) && Enabled(s, TakeWork(t))
    ensures Apply(s, TakeWork(t)).core.workers == Count(IsCounted, Apply(s, TakeWork(t)).threads)
  {
    CensusAfter(IsCounted, s, TakeWork(t));
  }

  lemma WorkersKeptByMove<J>(s: State<J>, step: Step<J>)
    requires Counters(s) && Enabled(s, step) && !Hires(step) && !step.TakeWork?
    ensures Apply(s, step).core.workers == Count(IsCounted, Apply(s, step).threads)
  {
    CensusAfter(IsCounted, s, step);
  }

  lemma WorkersKept<J>(s: State<J>, step: Step<J>)
    requires Counters(s) && Enabled(s, step)
    ensures Apply(s, step).core.workers == Count(IsCounted, Apply(s, step).threads)
  {
    if Hires(step) {
      WorkersKeptByHiring(s, step);
    } else if step.TakeWork? {
      WorkersKeptByWork(s, step.t);
    } else {
      WorkersKeptByMove(s, step);
    }
  }

  lemma DecidingKept<J>(s: State<J>, step: Step<J>)
    requires Counters(s) && Enabled(s, step) && (step.LeaveIdle? ==> s.core.idle > 0)
    ensures forall t | 0 <= t < |Apply(s, step).threads| && Apply(s, step).threads[t].Deciding? ::
              Apply(s, step).threads[t].waiting >= 0
  {
  }

  lemma CountersKept<J>(s: State<J>, step: Step<J>)
    requires Counters(s) && Enabled(s, step)
    ensures Counters(Apply(s, step))
  {
    IdleKept(s, step);
    WorkersKept(s, step);
    DecidingKept(s, step);
  }

  lemma CoveredKept<J>(s: State<J>, step: Step<J>)
    requires Covered(s) && Enabled(s, step)
    ensures Covered(Apply(s, step))
  {
    CensusAfter(IsAwake, s, step);
  }

  /** A worker that sees others waiting leaves one of them behind. */
  lemma OneStaysIdle<J>(s: State<J>, t: nat)
    requires Counters(s) && Enabled(s, LeaveIdle(t)) && s.core.idle > 1
    ensures Count(IsSafe, Apply(s, LeaveIdle(t)).threads) > 0
  {
    var ts := Apply(s, LeaveIdle(t)).threads;
    CensusAfter(IsIdle, s, LeaveIdle(t));
    var w := CountWitness(IsIdle, ts);
    CountOne(IsSafe, ts, w);
  }

  lemma SafeKeptByLeaving<J>(s: State<J>, t: nat)
    requires Counters(s) && Enabled(s, LeaveIdle(t))
    ensures Count(IsSafe, s.threads) > 0 ==> Count(IsSafe, Apply(s, LeaveIdle(t)).threads) > 0
  {
    CountOne(IsIdle, s.threads, t);
    if s.core.idle > 1 {
      OneStaysIdle(s, t);
    } else {
      CensusAfter(IsSafe, s, LeaveIdle(t));
    }
  }

  lemma SafeKeptByHiring<J>(s: State<J>, step: Step<J>)
    requires Enabled(s, step) && Hires(step)
    ensures Count(IsSafe, Apply(s, step).threads) >= Count(IsSafe, s.threads)
  {
    CensusAfter(IsSafe, s, step);
  }

  lemma SafeKeptByMove<J>(s: State<J>, step: Step<J>)
    requires Counters(s) && Enabled(s, step) && !Hires(step) && !step.LeaveIdle?
    ensures Count(IsSafe, Apply(s, step).threads) >= Count(IsSafe, s.threads)
  {
    CensusAfter(IsSafe, s, step);
  }

  lemma SafeKept<J>(s: State<J>, step: Step<J>)
    requires Counters(s) && Enabled(s, step)
    ensures Count(IsSafe, s.threads) > 0 ==> Count(IsSafe, Apply(s, step).threads) > 0
  {
    if step.LeaveIdle? {
      SafeKeptByLeaving(s, step.t);
    } else if Hires(step) {
      SafeKeptByHiring(s, step);
    } else {
      SafeKeptByMove(s, step);
    }
  }

  /** A new worker is safe, and only new workers add to those alive. */
  lemma AliveKept<J>(s: State<J>, step: Step<J>)
    requires Enabled(s, step)
    ensures Count(IsAlive, Apply(s, step).threads) > Count(IsAlive, s.threads) ==>
              Count(IsSafe, Apply(s, step).threads) > 0
  {
    CensusAfter(IsAlive, s, step);
    if step.ThreadStarted? {
      CountOne(IsSafe, Apply(s, step).threads, |s.threads|);
    }
  }

  /** A worker seen waiting by the one that is laid off stays behind. */
  lemma KeptKept<J>(s: State<J>, step: Step<J>)
    requires Kept(s) && Counters(s) && Enabled(s, step)
    ensures Kept(Apply(s, step))
    ensures Count(IsSafe, s.threads) > 0 ==> Count(IsSafe, Apply(s, step).threads) > 0
  {
    SafeKept(s, step);
    AliveKept(s, step);
  }

  lemma FloorKept<J>(s: State<J>, step: Step<J>)
    requires Floor(s) && Counters(s) && Enabled(s, step)
    ensures Floor(Apply(s, step))
  {
    if step.SampleIdle? {
      IdleAreAlive(s.threads);
    }
    if step.AssignLayoffs? {
      assert s.threads[step.t].Sampled?;
    }
  }

  // ---------------------------------------------------------------------
  // Whole runs

  ghost predicate Inv<J>(s: State<J>) {
    Fifo(s) && Covered(s) && Counters(s) && Kept(s) && Floor(s)
  }

  lemma {:induction false} InvAfter<J>(s: State<J>, steps: seq<Step<J>>)
    requires Inv(s) && IsRun(s, steps)
    ensures Inv(After(s, steps))
    ensures Count(IsSafe, s.threads) > 0 ==> Count(IsSafe, After(s, steps).threads) > 0
    decreases |steps|
  {
    if steps != [] {
      FifoKept(s, steps[0]);
      CoveredKept(s, steps[0]);
      CountersKept(s, steps[0]);
      KeptKept(s, steps[0]);
      FloorKept(s, steps[0]);
      InvAfter(Apply(s, steps[0]), steps[1..]);
    }
  }

  lemma InvInit<J>(minWorkers: int, maxWorkers: int)
    requires maxWorkers >= 0
    ensures Inv(Init<J>(minWorkers, maxWorkers))
  {
    var s := Init<J>(minWorkers, maxWorkers);
    assert s.threads == [] + [s.threads[0]];
    forall m: Census ensures Count(m, s.threads) == 0 {
      CountMore(m, [], s.threads[0]);
    }
  }

  /** In every run, jobs are handed out in the order they were scheduled, each
      scheduling at most once and none skipped, and the counters that report the
      queue are exact; the "Job queue count underflow" branch is never taken. */
  lemma JobsInOrder<J>(minWorkers: int, maxWorkers: int, steps: seq<Step<J>>)
    requires maxWorkers >= 0 && IsRun(Init(minWorkers, maxWorkers), steps)
    ensures var s := After(Init(minWorkers, maxWorkers), steps);
            && s.dispatched <= s.scheduled
            && s.core.queue == s.scheduled[|s.dispatched|..]
            && s.core.jobsInQ == |s.core.queue|
            && s.core.numJobs == |s.scheduled|
            && s.core.maxQLength == s.peak
  {
    InvInit<J>(minWorkers, maxWorkers);
    InvAfter(Init(minWorkers, maxWorkers), steps);
  }

  /** In every run, permits and woken workers cover the queue and the layoffs, so
      when every worker sits in WorkAvail.Wait() each queued job has its permit. */
  lemma NoWakeupLost<J>(minWorkers: int, maxWorkers: int, steps: seq<Step<J>>)
    requires maxWorkers >= 0 && IsRun(Init(minWorkers, maxWorkers), steps)
    ensures var s := After(Init(minWorkers, maxWorkers), steps);
            && s.core.layoffs >= 0
            && s.core.permits + Count(IsAwake, s.threads) - |s.core.queue| >= s.core.layoffs
            && ((forall t | 0 <= t < |s.threads| :: Weight(IsAwake, s.threads[t]) == 0) ==>
                s.core.permits >= |s.core.queue| + s.core.layoffs)
  {
    InvInit<J>(minWorkers, maxWorkers);
    InvAfter(Init(minWorkers, maxWorkers), steps);
    var s := After(Init(minWorkers, maxWorkers), steps);
    if Count(IsAwake, s.threads) > 0 {
      var t := CountWitness(IsAwake, s.threads);
    }
  }

  /** Once a worker exists, the rest of the run always has a worker that is not
      about to be laid off; the pool never empties. */
  lemma PoolNeverEmpties<J>(minWorkers: int, maxWorkers: int, steps: seq<Step<J>>, more: seq<Step<J>>)
    requires maxWorkers >= 0 && IsRun(Init(minWorkers, maxWorkers), steps)
    requires IsRun(After(Init(minWorkers, maxWorkers), steps), more)
    requires Count(IsAlive, After(Init(minWorkers, maxWorkers), steps).threads) > 0
    ensures Count(IsSafe, After(After(Init(minWorkers, maxWorkers), steps), more).threads) > 0
  {
    InvInit<J>(minWorkers, maxWorkers);
    InvAfter(Init(minWorkers, maxWorkers), steps);
    InvAfter(After(Init(minWorkers, maxWorkers), steps), more);
  }

  /** In every run the worker counters are exact and within the limit, and as long
      as every thread could be started, outstanding layoffs leave more than
      min_Workers threads, less those that ended between DoIt's idle sample and
      its layoff decision. With no such thread the minimum holds. */
  lemma LayoffsLeaveMinimum<J>(minWorkers: int, maxWorkers: int, steps: seq<Step<J>>)
    requires maxWorkers >= 0 && IsRun(Init(minWorkers, maxWorkers), steps)
    ensures var s := After(Init(minWorkers, maxWorkers), steps);
            && s.core.workers == Count(IsCounted, s.threads)
            && s.core.idle == Count(IsIdle, s.threads)
            && s.core.created - s.core.destroyed == s.core.workers <= s.core.maxWorkers
            && (s.failures == 0 ==> s.core.minWorkers == minWorkers)
            && (s.failures == 0 && s.core.layoffs > 0 ==>
                s.core.workers - s.core.layoffs >= minWorkers + 1 - s.lost)
  {
    InvInit<J>(minWorkers, maxWorkers);
    InvAfter(Init(minWorkers, maxWorkers), steps);
    MinimumFixed(Init(minWorkers, maxWorkers), steps);
  }

  lemma {:induction false} MinimumFixed<J>(s: State<J>, steps: seq<Step<J>>)
    requires IsRun(s, steps)
    ensures After(s, steps).failures >= s.failures
    ensures After(s, steps).failures == s.failures ==> After(s, steps).core.minWorkers == s.core.minWorkers
    decreases |steps|
  {
    if steps != [] {
      MinimumFixed(Apply(s, steps[0]), steps[1..]);
    }
  }

  // ---------------------------------------------------------------------
  // The queue can always be drained

  /** Steps the thread still has to take before its next visit to the queue. */
  function Distance<J>(pc: Pc<J>): nat {
    match pc
    case Deciding(_) => 0
    case Woken => 1
    case Waiting => 2
    case Starting => 3
    case Running(_) => 4
    case Sampled(_, _, _) => 5
    case Checked(_) => 6
    case Failed(_) => 5
    case Reserved(_) => 5
    case Hiring(_) => 6
    case Boot(_) => 0
    case Gone => 0
  }

  /** The step of worker t that brings it closer to the queue. */
  function Onward<J>(t: nat, pc: Pc<J>): Step<J>
    requires Alive(pc) == 1
  {
    match pc
    case Deciding(_) => TakeWork(t)
    case Woken => LeaveIdle(t)
    case Waiting => TakePermit(t)
    case Starting => EnterIdle(t)
    case Running(_) => FinishJob(t)
    case Sampled(_, _, _) => AssignLayoffs(t)
    case Checked(_) => SampleIdle(t)
    case Failed(_) => FixLimits(t)
    case Reserved(_) => ThreadStarted(t)
    case Hiring(_) => Reserve(t)
  }

  lemma InvKept<J>(s: State<J>, step: Step<J>)
    requires Inv(s) && Enabled(s, step)
    ensures Inv(Apply(s, step))
    ensures Count(IsSafe, s.threads) > 0 ==> Count(IsSafe, Apply(s, step).threads) > 0
  {
    assert After(s, [step]) == After(Apply(s, step), []) == Apply(s, step);
    InvAfter(s, [step]);
  }

  /** Whatever has happened in a run, as long as a worker exists the workers alone
      can bring every queued job to a dispatch, in order: no state is stuck. */
  lemma NoStuckState<J>(minWorkers: int, maxWorkers: int, steps: seq<Step<J>>) returns (more: seq<Step<J>>)
    requires maxWorkers >= 0 && IsRun(Init(minWorkers, maxWorkers), steps)
    requires Count(IsAlive, After(Init(minWorkers, maxWorkers), steps).threads) > 0
    ensures var s := After(Init(minWorkers, maxWorkers), steps);
            && IsRun(s, more)
            && After(s, more).scheduled == s.scheduled
            && After(s, more).dispatched == s.scheduled
            && After(s, more).core.queue == []
  {
    InvInit<J>(minWorkers, maxWorkers);
    InvAfter(Init(minWorkers, maxWorkers), steps);
    more := QueueCanDrain(After(Init(minWorkers, maxWorkers), steps));
  }

  lemma {:induction false} QueueCanDrain<J>(s: State<J>) returns (steps: seq<Step<J>>)
    requires Inv(s) && Count(IsAlive, s.threads) > 0
    ensures IsRun(s, steps)
    ensures After(s, steps).dispatched == s.dispatched + s.core.queue
    ensures After(s, steps).core.queue == [] && After(s, steps).scheduled == s.scheduled
    decreases |s.core.queue|, 7
  {
    if s.core.queue == [] {
      steps := [];
    } else {
      var t: nat;
      if Count(IsAwake, s.threads) > 0 {
        t := CountWitness(IsAwake, s.threads);
      } else {
        t := CountWitness(IsSafe, s.threads);
      }
      steps := DrainBy(s, t);
    }
  }

  /** The worker's next step leads on: to the dispatch of the first job, or nearer to it. */
  lemma OnwardLeads<J>(s: State<J>, t: nat)
    requires Inv(s) && s.core.queue != []
    requires t < |s.threads| && Alive(s.threads[t]) == 1
    requires Weight(IsAwake, s.threads[t]) == 1 || s.core.permits > 0
    ensures Enabled(s, Onward(t, s.threads[t]))
    ensures var s' := Apply(s, Onward(t, s.threads[t]));
            && t < |s'.threads| && Alive(s'.threads[t]) == 1 && s'.scheduled == s.scheduled
            && (if s.threads[t].Deciding? then
                  s'.dispatched + s'.core.queue == s.dispatched + s.core.queue && |s'.core.queue| < |s.core.queue|
                else
                  && s'.dispatched == s.dispatched && s'.core.queue == s.core.queue
                  && (Weight(IsAwake, s'.threads[t]) == 1 || s'.core.permits > 0)
                  && Distance(s'.threads[t]) < Distance(s.threads[t]))
  {
    if s.threads[t].Deciding? {
      assert s.dispatched + s.core.queue == s.dispatched + [s.core.queue[0]] + s.core.queue[1..];
    }
  }

  lemma {:induction false} DrainBy<J>(s: State<J>, t: nat) returns (steps: seq<Step<J>>)
    requires Inv(s) && s.core.queue != []
    requires t < |s.threads| && Alive(s.threads[t]) == 1
    requires Weight(IsAwake, s.threads[t]) == 1 || s.core.permits > 0
    ensures IsRun(s, steps)
    ensures After(s, steps).dispatched == s.dispatched + s.core.queue
    ensures After(s, steps).core.queue == [] && After(s, steps).scheduled == s.scheduled
    decreases |s.core.queue|, Distance(s.threads[t])
  {
    OnwardLeads(s, t);
    var step := Onward(t, s.threads[t]);
    var s' := Apply(s, step);
    InvKept(s, step);
    var rest: seq<Step<J>>;
    if step.TakeWork? {
      CountOne(IsAlive, s'.threads, t);
      rest := QueueCanDrain(s');
    } else {
      rest := DrainBy(s', t);
    }
    steps := [step] + rest;
    assert steps[1..] == rest;
  }
}
