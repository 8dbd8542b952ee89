/**
 How many threads DoIt's layoffs leave (XrdScheduler.cc, DoIt and Run): the minimum
 as long as at most two threads end between DoIt's look at the idle count and its
 decision, and not with three, as one run of the code shows.
 */
module LayoffRuns {
  import opened SchedulerRuns
  import SchedulerCore

  type Threads = seq<Pc<int>>

  /** A decision that lays off is at most k ended threads late. */
  predicate LateBy<J(==)>(s: State<J>, step: Step<J>, k: int)
    requires Enabled(s, step)
  {
    step.AssignLayoffs? && SchedulerCore.KillCount(s.threads[step.t].idle, s.core.minWorkers) > 0 ==>
      s.core.destroyed - s.threads[step.t].gone <= k
  }

  /** At most k threads end between a sample of the idle count and a layoff decision on it. */
  predicate Punctual<J(==)>(s: State<J>, steps: seq<Step<J>>, k: int)
    requires IsRun(s, steps)
    decreases |steps|
  {
    steps == [] || (LateBy(s, steps[0], k) && Punctual(Apply(s, steps[0]), steps[1..], k))
  }

  /** As long as every thread could be started, outstanding layoffs leave the minimum. */
  ghost predicate LeavesMinimum<J>(s: State<J>, minWorkers: int) {
    s.failures == 0 && s.core.layoffs > 0 ==> s.core.workers - s.core.layoffs >= minWorkers
  }

  lemma {:induction false} LostWithin<J>(s: State<J>, steps: seq<Step<J>>, k: int)
    requires IsRun(s, steps) && Punctual(s, steps, k) && s.lost <= k
    ensures After(s, steps).lost <= k
    decreases |steps|
  {
    if steps != [] {
      LostWithin(Apply(s, steps[0]), steps[1..], k);
    }
  }

  /** With no thread late, layoffs leave more than the minimum. */
  lemma PromptLeavesMore<J>(minWorkers: int, maxWorkers: int, steps: seq<Step<J>>)
    requires maxWorkers >= 0 && IsRun(Init(minWorkers, maxWorkers), steps)
    requires Punctual(Init<J>(minWorkers, maxWorkers), steps, 0)
    ensures LeavesMinimum(After(Init(minWorkers, maxWorkers), steps), minWorkers + 1)
  {
    LayoffsLeaveMinimum(minWorkers, maxWorkers, steps);
    LostWithin(Init(minWorkers, maxWorkers), steps, 0);
  }

  // ---------------------------------------------------------------------
  // Two late threads do no harm

  function Less(a: int, b: int): int {
    if a < b then a else b
  }

  /** The threads counted at a sample or created since. */
  function Since<J>(s: State<J>, t: nat): int
    requires t < |s.threads| && s.threads[t].Sampled?
  {
    s.core.created - s.threads[t].gone
  }

  /** A sample that leaves a surplus of one, all other threads having been idle, was
      taken when at most one layoff was outstanding. */
  ghost predicate Tight<J>(s: State<J>, t: nat)
    requires t < |s.threads| && s.threads[t].Sampled?
  {
    s.threads[t].idle == s.core.minWorkers + 1 && Since(s, t) == s.core.minWorkers + 2 ==>
      s.core.destroyed - s.threads[t].gone + s.core.layoffs <= 1
  }

  /** Each outstanding layoff is matched by a second thread to spare, but one; and of
      two samples the later counted both samplers as busy. */
  ghost predicate Spare<J>(s: State<J>) {
    && (s.core.layoffs > 0 ==> s.core.workers - 2 * s.core.layoffs >= s.core.minWorkers - 1)
    && (forall t | 0 <= t < |s.threads| && s.threads[t].Sampled? ::
          s.threads[t].gone <= s.core.destroyed && Tight(s, t))
    && (forall t, u | 0 <= t < |s.threads| && 0 <= u < |s.threads| && t != u
                      && s.threads[t].Sampled? && s.threads[u].Sampled? ::
          Since(s, t) >= Less(s.threads[t].idle, s.threads[u].idle) + 2)
  }

  /** Two threads that are not idle. */
  lemma {:induction false} TwoBusy<J>(ts: seq<Pc<J>>, t: nat, u: nat)
    requires t < u < |ts|
    requires Alive(ts[t]) == 1 && Weight(IsIdle, ts[t]) == 0 && Alive(ts[u]) == 1 && Weight(IsIdle, ts[u]) == 0
    ensures Count(IsIdle, ts) + 2 <= Count(IsCounted, ts)
  {
    var n := |ts| - 1;
    IdleAreAlive(ts[..n]);
    if u < n {
      TwoBusy(ts[..n], t, u);
    } else {
      assert ts[..n][t] == ts[t];
    }
  }

  lemma SpareKeptBySample<J>(s: State<J>, t: nat)
    requires Counters(s) && Spare(s) && Enabled(s, SampleIdle(t))
    ensures Spare(Apply(s, SampleIdle(t)))
  {
    var s' := Apply(s, SampleIdle(t));
    assert s'.threads[t] == Sampled(s.threads[t].job, s.core.idle, s.core.destroyed);
    assert Tight(s', t);
    forall u | 0 <= u < |s.threads| && u != t && s.threads[u].Sampled?
      ensures Tight(s', u) && s'.threads[u].gone <= s'.core.destroyed && s.core.workers >= s.core.idle + 2
    {
      assert Tight(s, u);
      TwoBusy(s.threads, if t < u then t else u, if t < u then u else t);
    }
  }

  lemma HalfOf(idle: int, minWorkers: int)
    ensures var n, kill := idle - minWorkers, SchedulerCore.KillCount(idle, minWorkers);
            (kill > 0 <==> n > 0) && (n > 1 ==> 2 * kill <= n) && (n == 1 ==> kill == 1)
  {
  }

  lemma SpareKeptByDecision<J>(s: State<J>, t: nat)
    requires Inv(s) && Spare(s) && Enabled(s, AssignLayoffs(t)) && LateBy(s, AssignLayoffs(t), 2)
    ensures Spare(Apply(s, AssignLayoffs(t)))
  {
    var s' := Apply(s, AssignLayoffs(t));
    assert Tight(s, t) && s.threads[t].idle + 1 <= Since(s, t);
    HalfOf(s.threads[t].idle, s.core.minWorkers);
    forall u | 0 <= u < |s'.threads| && s'.threads[u].Sampled?
      ensures s'.threads[u].gone <= s'.core.destroyed && Tight(s', u)
    {
      assert u != t && s.threads[u].Sampled? && Tight(s, u);
      assert Since(s, u) >= Less(s.threads[u].idle, s.threads[t].idle) + 2;
    }
  }

  /** The samples stay as they were. */
  ghost predicate SamplesStay<J>(s: State<J>, s': State<J>) {
    && (forall u | 0 <= u < |s'.threads| && s'.threads[u].Sampled? :: u < |s.threads| && s'.threads[u] == s.threads[u])
    && s'.core.created >= s.core.created && s'.core.destroyed >= s.core.destroyed
        && s'.core.minWorkers == s.core.minWorkers
  }

  /** A worker ends only by a layoff. */
  ghost predicate LayoffsPay<J>(s: State<J>, s': State<J>) {
    && s'.core.layoffs <= s.core.layoffs
    && s'.core.destroyed - s.core.destroyed <= s.core.layoffs - s'.core.layoffs
    && s'.core.workers + s'.core.destroyed >= s.core.workers + s.core.destroyed
  }

  lemma OthersPay<J>(s: State<J>, step: Step<J>)
    requires Enabled(s, step) && Apply(s, step).failures == s.failures && !step.SampleIdle? && !step.AssignLayoffs?
    ensures SamplesStay(s, Apply(s, step)) && LayoffsPay(s, Apply(s, step))
  {
  }

  lemma SpareStays<J>(s: State<J>, s': State<J>)
    requires Inv(s) && Spare(s) && SamplesStay(s, s') && LayoffsPay(s, s')
    ensures Spare(s')
  {
    forall u | 0 <= u < |s'.threads| && s'.threads[u].Sampled?
      ensures s'.threads[u].gone <= s'.core.destroyed && Tight(s', u)
    {
      assert Tight(s, u) && s.threads[u].idle + 1 <= Since(s, u);
    }
  }

  lemma SpareKept<J>(s: State<J>, step: Step<J>)
    requires Inv(s) && Spare(s) && Enabled(s, step) && LateBy(s, step, 2)
    requires Apply(s, step).failures == s.failures
    ensures Spare(Apply(s, step))
  {
    if step.SampleIdle? {
      SpareKeptBySample(s, step.t);
    } else if step.AssignLayoffs? {
      SpareKeptByDecision(s, step.t);
    } else {
      OthersPay(s, step);
      SpareStays(s, Apply(s, step));
    }
  }

  lemma {:induction false} SpareAfter<J>(s: State<J>, steps: seq<Step<J>>)
    requires Inv(s) && Spare(s) && IsRun(s, steps) && Punctual(s, steps, 2)
    requires After(s, steps).failures == s.failures
    ensures Spare(After(s, steps))
    decreases |steps|
  {
    if steps != [] {
      MinimumFixed(Apply(s, steps[0]), steps[1..]);
      MinimumFixed(s, steps[..0]);
      SpareKept(s, steps[0]);
      InvKept(s, steps[0]);
      SpareAfter(Apply(s, steps[0]), steps[1..]);
    }
  }

  lemma PunctualLeavesMinimum<J>(minWorkers: int, maxWorkers: int, steps: seq<Step<J>>, k: int)
    requires maxWorkers >= 0 && IsRun(Init(minWorkers, maxWorkers), steps) && k <= 2
    requires Punctual(Init<J>(minWorkers, maxWorkers), steps, k)
    ensures LeavesMinimum(After(Init(minWorkers, maxWorkers), steps), minWorkers)
  {
    var s0 := Init<J>(minWorkers, maxWorkers);
    if After(s0, steps).failures == 0 {
      InvInit<J>(minWorkers, maxWorkers);
      PunctualMore(s0, steps, k, 2);
      SpareAfter(s0, steps);
      MinimumFixed(s0, steps);
    }
  }

  lemma {:induction false} PunctualMore<J>(s: State<J>, steps: seq<Step<J>>, k: int, m: int)
    requires IsRun(s, steps) && Punctual(s, steps, k) && k <= m
    ensures Punctual(s, steps, m)
    decreases |steps|
  {
    if steps != [] {
      PunctualMore(Apply(s, steps[0]), steps[1..], k, m);
    }
  }

  // ---------------------------------------------------------------------
  // A run with nine threads and a minimum of two

  /** The run reaches the state with no decision more than three threads late. */
  ghost predicate Leads(run: seq<Step<int>>, s: State<int>) {
    IsRun(Init(2, 9), run) && s == After(Init(2, 9), run) && Punctual(Init(2, 9), run, 3)
  }

  lemma {:induction false} RunSnoc<J>(s: State<J>, steps: seq<Step<J>>, step: Step<J>, k: int)
    requires IsRun(s, steps) && Enabled(After(s, steps), step)
    ensures IsRun(s, steps + [step]) && After(s, steps + [step]) == Apply(After(s, steps), step)
    ensures Punctual(s, steps, k) && LateBy(After(s, steps), step, k) ==> Punctual(s, steps + [step], k)
    decreases |steps|
  {
    if steps == [] {
      assert [step][1..] == [];
      assert steps + [step] == [step];
    } else {
      RunSnoc(Apply(s, steps[0]), steps[1..], step, k);
      assert (steps + [step])[1..] == steps[1..] + [step];
    }
  }

  lemma Go(run: seq<Step<int>>, s: State<int>, step: Step<int>) returns (run': seq<Step<int>>, s': State<int>)
    requires Leads(run, s) && Enabled(s, step) && LateBy(s, step, 3)
    ensures Leads(run', s') && s' == Apply(s, step)
  {
    RunSnoc(Init(2, 9), run, step, 3);
    run', s' := run + [step], Apply(s, step);
  }

  function Times<T>(n: nat, pc: T): (r: seq<T>)
    ensures |r| == n && forall i | 0 <= i < n :: r[i] == pc
  {
    seq(n, i => pc)
  }

  /** What matters of a state: the threads and the counters; nothing is queued and no
      thread failed. */
  ghost predicate Pool(s: State<int>, ts: Threads, permits: nat, idle: int, workers: int, layoffs: int) {
    && s.threads == ts && s.failures == 0
    && s.core.queue == [] && s.core.jobsInQ == 0
    && s.core.permits == permits && s.core.idle == idle && s.core.workers == workers && s.core.layoffs == layoffs
    && s.core.minWorkers == 2 && s.core.maxWorkers == 9
  }

  /** A job is scheduled and idle thread t takes it. */
  lemma TakeJob(run: seq<Step<int>>, s: State<int>, t: nat, ts: Threads, permits: nat, idle: int, workers: int,
      layoffs: int)
      returns (run': seq<Step<int>>, s': State<int>)
    requires Leads(run, s) && Pool(s, ts, permits, idle, workers, layoffs) && t < |ts| && ts[t] == Waiting
    ensures Leads(run', s')
    ensures Pool(s', ts[t := if idle == 1 then Hiring(ThenRun(0)) else Running(0)], permits, idle - 1, workers, layoffs)
  {
    run', s' := Go(run, s, Schedule(0));
    run', s' := Go(run', s', TakePermit(t));
    run', s' := Go(run', s', LeaveIdle(t));
    run', s' := Go(run', s', TakeWork(t));
  }

  /** n busy threads and one idle. */
  function Busy(n: nat): Threads {
    [Boot(0)] + Times(n, Running(0)) + [Waiting]
  }

  /** Start hires a thread. */
  lemma Hired(run: seq<Step<int>>, s: State<int>, left: nat, n: nat) returns (run': seq<Step<int>>, s': State<int>)
    requires left > 0 && n < 9 && Leads(run, s) && Pool(s, [Boot(left)] + Times(n, Waiting), 0, n, n, 0)
    ensures Leads(run', s') && Pool(s', [Boot(left - 1)] + Times(n + 1, Waiting), 0, n + 1, n + 1, 0)
  {
    run', s' := Go(run, s, BootHire(0));
    run', s' := Go(run', s', Reserve(0));
    assert s'.threads == [Reserved(ThenBoot(left - 1))] + Times(n, Waiting);
    run', s' := Go(run', s', ThreadStarted(0));
    assert s'.threads == [Boot(left - 1)] + Times(n, Waiting) + [Starting];
    run', s' := Go(run', s', EnterIdle(n + 1));
    assert s'.threads == [Boot(left - 1)] + Times(n + 1, Waiting);
  }

  lemma Started() returns (run: seq<Step<int>>, s: State<int>)
    ensures Leads(run, s) && Pool(s, Busy(1), 0, 1, 2, 0)
  {
    run, s := [], Init(2, 9);
    assert s.threads == [Boot(2)] + Times(0, Pc<int>.Waiting);
    run, s := Hired(run, s, 2, 0);
    run, s := Hired(run, s, 1, 1);
    run, s := TakeJob(run, s, 1, s.threads, 0, 2, 2, 0);
    assert s.threads == Busy(1);
  }

  /** A job for the last idle thread makes it hire another. */
  lemma OneMoreBusy(run: seq<Step<int>>, s: State<int>, n: nat) returns (run': seq<Step<int>>, s': State<int>)
    requires n < 8 && Leads(run, s) && Pool(s, Busy(n), 0, 1, n + 1, 0)
    ensures Leads(run', s') && Pool(s', Busy(n + 1), 0, 1, n + 2, 0)
  {
    ghost var busy: Threads := [Boot(0)] + Times(n, Running(0));
    run', s' := TakeJob(run, s, n + 1, Busy(n), 0, 1, n + 1, 0);
    assert s'.threads == busy + [Hiring(ThenRun(0))];
    run', s' := Go(run', s', Reserve(n + 1));
    assert s'.threads == busy + [Reserved(ThenRun(0))];
    run', s' := Go(run', s', ThreadStarted(n + 1));
    assert s'.threads == busy + [Running(0), Starting];
    run', s' := Go(run', s', EnterIdle(n + 2));
    assert s'.threads == busy + [Running(0), Waiting];
    assert busy + [Running(0), Waiting] == Busy(n + 1);
  }

  lemma {:induction false} AllBusy(n: nat) returns (run: seq<Step<int>>, s: State<int>)
    requires 1 <= n <= 8
    ensures Leads(run, s) && Pool(s, Busy(n), 0, 1, n + 1, 0)
    decreases n
  {
    if n == 1 {
      run, s := Started();
    } else {
      run, s := AllBusy(n - 1);
      run, s := OneMoreBusy(run, s, n - 1);
    }
  }

  /** k of the eight busy threads have finished. */
  lemma {:induction false} Finished(k: nat) returns (run: seq<Step<int>>, s: State<int>)
    requires k <= 8
    ensures Leads(run, s) && Pool(s, [Boot(0)] + Times(8 - k, Running(0)) + Times(k + 1, Waiting), 0, k + 1, 9, 0)
    decreases k
  {
    if k == 0 {
      run, s := AllBusy(8);
      assert Times(1, Pc<int>.Waiting) == [Waiting];
    } else {
      run, s := Finished(k - 1);
      run, s := Go(run, s, FinishJob(9 - k));
      run, s := Go(run, s, EnterIdle(9 - k));
      assert s.threads == [Boot(0)] + Times(8 - k, Running(0)) + Times(k + 1, Waiting);
    }
  }

  /** One thread in state pc, n idle ones, and g that have ended. */
  function Crew(pc: Pc<int>, n: nat, g: nat): Threads {
    [Boot(0), pc] + Times(n, Waiting) + Times(g, Gone)
  }

  /** The idle check runs on thread 1 up to its sample. */
  lemma Sample(run: seq<Step<int>>, s: State<int>, n: nat, g: nat, permits: nat, workers: int, layoffs: int)
      returns (run': seq<Step<int>>, s': State<int>, pc: Pc<int>)
    requires n > 0 && Leads(run, s) && Pool(s, Crew(Waiting, n, g), permits, n + 1, workers, layoffs)
    ensures Leads(run', s') && Pool(s', Crew(pc, n, g), permits, n, workers, layoffs)
    ensures pc.Sampled? && pc.idle == n && pc.gone == s'.core.destroyed
  {
    run', s' := TakeJob(run, s, 1, Crew(Waiting, n, g), permits, n + 1, workers, layoffs);
    run', s' := Go(run', s', CheckQueue(1));
    run', s' := Go(run', s', SampleIdle(1));
    pc := s'.threads[1];
    assert s'.threads == Crew(pc, n, g);
  }

  /** The last m idle threads take permits and are laid off. */
  lemma {:induction false} LayOff(run: seq<Step<int>>, s: State<int>, pc: Pc<int>, n: nat, g: nat, m: nat,
                                  permits: nat, workers: int, layoffs: int)
      returns (run': seq<Step<int>>, s': State<int>)
    requires m < n && m <= permits && m <= layoffs && pc.Sampled?
    requires Leads(run, s) && Pool(s, Crew(pc, n, g), permits, n, workers, layoffs)
    ensures Leads(run', s') && Pool(s', Crew(pc, n - m, g + m), permits - m, n - m, workers - m, layoffs - m)
    ensures s'.core.destroyed == s.core.destroyed + m
    decreases m
  {
    run', s' := run, s;
    if m > 0 {
      run', s' := Go(run', s', TakePermit(n + 1));
      run', s' := Go(run', s', LeaveIdle(n + 1));
      run', s' := Go(run', s', TakeWork(n + 1));
      assert s'.threads == Crew(pc, n - 1, g + 1);
      run', s' := LayOff(run', s', pc, n - 1, g + 1, m - 1, permits - 1, workers - 1, layoffs - 1);
    }
  }

  /** The decision on the sample, and the thread is idle again. */
  lemma Decide(run: seq<Step<int>>, s: State<int>, pc: Pc<int>, n: nat, g: nat, permits: nat, workers: int,
      layoffs: int, kill: nat)
      returns (run': seq<Step<int>>, s': State<int>)
    requires Leads(run, s) && Pool(s, Crew(pc, n, g), permits, n, workers, layoffs)
    requires pc.Sampled? && s.core.destroyed - pc.gone <= 3 && kill == SchedulerCore.KillCount(pc.idle, 2) > 0
    ensures Leads(run', s') && Pool(s', Crew(Waiting, n, g), permits + kill, n + 1, workers, kill)
  {
    run', s' := Go(run, s, AssignLayoffs(1));
    run', s' := Go(run', s', EnterIdle(1));
    assert s'.threads == Crew(Waiting, n, g);
  }

  /** A run of the code, one idle check at a time, in which at most three threads end
      before each decision: two threads are left, and a layoff. */
  lemma LateDecisions() returns (steps: seq<Step<int>>)
    ensures IsRun(Init(2, 9), steps) && Punctual(Init(2, 9), steps, 3)
    ensures var s := After(Init(2, 9), steps);
            s.failures == 0 && s.core.workers == 2 && s.core.layoffs == 1 && !LeavesMinimum(s, 2)
  {
    var run, s := Finished(8);
    assert s.threads == Crew(Waiting, 8, 0);
    var pc;
    run, s, pc := Sample(run, s, 8, 0, 0, 9, 0);
    run, s := Decide(run, s, pc, 8, 0, 0, 9, 0, 3);
    run, s, pc := Sample(run, s, 8, 0, 3, 9, 3);
    run, s := LayOff(run, s, pc, 8, 0, 2, 3, 9, 3);
    run, s := Decide(run, s, pc, 6, 2, 1, 7, 1, 3);
    run, s, pc := Sample(run, s, 6, 2, 4, 7, 3);
    run, s := LayOff(run, s, pc, 6, 2, 3, 4, 7, 3);
    run, s := Decide(run, s, pc, 3, 5, 1, 4, 0, 2);
    run, s, pc := Sample(run, s, 3, 5, 3, 4, 2);
    run, s := LayOff(run, s, pc, 3, 5, 2, 3, 4, 2);
    run, s := Decide(run, s, pc, 1, 7, 1, 2, 0, 1);
    steps := run;
  }

  /** In every run whose decisions are at most k threads late, layoffs leave the minimum. */
  ghost predicate AlwaysLeaves(k: int) {
    forall minWorkers: int, maxWorkers: int, steps: seq<Step<int>> |
      maxWorkers >= 0 && IsRun(Init(minWorkers, maxWorkers), steps)
          && Punctual(Init(minWorkers, maxWorkers), steps, k) ::
      LeavesMinimum(After(Init(minWorkers, maxWorkers), steps), minWorkers)
  }

  /** Layoffs always leave the minimum exactly when at most two threads may end between a
      sample and its decision. */
  lemma DecisionBoundExact(k: int)
    ensures AlwaysLeaves(k) <==> k <= 2
  {
    if k <= 2 {
      forall minWorkers: int, maxWorkers: int, steps: seq<Step<int>> |
        maxWorkers >= 0 && IsRun(Init(minWorkers, maxWorkers), steps)
            && Punctual(Init(minWorkers, maxWorkers), steps, k)
        ensures LeavesMinimum(After(Init(minWorkers, maxWorkers), steps), minWorkers)
      {
        PunctualLeavesMinimum(minWorkers, maxWorkers, steps, k);
      }
    } else {
      var steps := LateDecisions();
      PunctualMore(Init(2, 9), steps, 3, k);
    }
  }
}
