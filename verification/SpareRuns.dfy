/**
 The scheduler's spare worker (XrdScheduler.cc, Run and hireWorker): the worker that leaves
 none waiting behind it and gets a job hires before it runs the job, so that one worker is
 always free to take the next.
 */
module SpareRuns {
  import opened SchedulerRuns

  /** A worker that will come to the work queue without running a job first, or a thread on
      its way to start one. */
  predicate Free<J>(pc: Pc<J>) {
    match pc
    case Starting => true
    case Waiting => true
    case Woken => true
    case Deciding(waiting) => waiting == 0
    case Hiring(k) => k.ThenRun?
    case Reserved(_) => true
    case Failed(_) => true
    case _ => false
  }

  ghost predicate SomeFree<J>(s: State<J>) {
    exists t :: 0 <= t < |s.threads| && Free(s.threads[t])
  }

  /** No worker was refused for the limit, and no thread could not be started. */
  predicate Unrefused<J>(s: State<J>) {
    s.core.limited == 0 && s.failures == 0
  }

  ghost predicate HasSpare<J>(s: State<J>) {
    s.core.limited >= 0 && (Unrefused(s) && Count(IsAlive, s.threads) > 0 ==> SomeFree(s))
  }

  /** Leaving others idle, the worker leaves one free. */
  lemma LeavesFree<J>(s: State<J>, t: nat)
    requires Counters(s) && Enabled(s, LeaveIdle(t))
    ensures SomeFree(Apply(s, LeaveIdle(t)))
  {
    var s' := Apply(s, LeaveIdle(t));
    if s.core.idle == 1 {
      assert Free(s'.threads[t]);
    } else {
      CensusAfter(IsIdle, s, LeaveIdle(t));
      CountOne(IsIdle, s.threads, t);
      var w := CountWitness(IsIdle, s'.threads);
      assert Free(s'.threads[w]);
    }
  }

  /** A free thread's own step leaves some thread free, unless a hire is refused or fails. */
  lemma FreeMoves<J>(s: State<J>, step: Step<J>, t: nat)
    requires Counters(s) && Enabled(s, step) && t < |s.threads| && Free(s.threads[t])
    requires !step.LeaveIdle? && s.core.limited >= 0 && Unrefused(Apply(s, step))
    ensures SomeFree(Apply(s, step))
  {
    var s' := Apply(s, step);
    if step.ThreadStarted? {
      assert Free(s'.threads[|s.threads|]);
    } else {
      assert Free(s'.threads[t]);
    }
  }

  lemma SpareKept<J>(s: State<J>, step: Step<J>)
    requires HasSpare(s) && Counters(s) && Enabled(s, step)
    ensures HasSpare(Apply(s, step))
  {
    var s' := Apply(s, step);
    if Unrefused(s') && Count(IsAlive, s'.threads) > 0 {
      if step.LeaveIdle? {
        LeavesFree(s, step.t);
      } else if step.ThreadStarted? {
        assert Free(s'.threads[|s.threads|]);
      } else {
        CensusAfter(IsAlive, s, step);
        assert Count(IsAlive, s.threads) > 0;
        var t :| 0 <= t < |s.threads| && Free(s.threads[t]);
        FreeMoves(s, step, t);
      }
    }
  }

  lemma {:induction false} SpareAfter<J>(s: State<J>, steps: seq<Step<J>>)
    requires Inv(s) && HasSpare(s) && IsRun(s, steps)
    ensures HasSpare(After(s, steps))
    decreases |steps|
  {
    if steps != [] {
      SpareKept(s, steps[0]);
      InvKept(s, steps[0]);
      SpareAfter(Apply(s, steps[0]), steps[1..]);
    }
  }

  /** Start hires a third of the minimum, or two threads. */
  lemma StartHires<J>(minWorkers: int, maxWorkers: int)
    ensures var ts := Init<J>(minWorkers, maxWorkers).threads;
            && |ts| == 1 && ts[0].Boot?
            && if minWorkers < 3 then ts[0].left == 2 else minWorkers - 3 < 3 * ts[0].left <= minWorkers
  {
  }

  lemma SpareInit<J>(minWorkers: int, maxWorkers: int)
    ensures HasSpare(Init<J>(minWorkers, maxWorkers))
  {
    var ts := Init<J>(minWorkers, maxWorkers).threads;
    assert ts == [] + [ts[0]];
    CountMore(IsAlive, [], ts[0]);
  }

  /** In every run with no hire refused and no thread failing to start, once a worker exists
      one is free. */
  lemma PoolHasSpare<J>(minWorkers: int, maxWorkers: int, steps: seq<Step<J>>)
    requires maxWorkers >= 0 && IsRun(Init(minWorkers, maxWorkers), steps)
    ensures var s := After(Init(minWorkers, maxWorkers), steps);
            Unrefused(s) && Count(IsAlive, s.threads) > 0 ==> SomeFree(s)
  {
    SpareInit<J>(minWorkers, maxWorkers);
    InvInit<J>(minWorkers, maxWorkers);
    SpareAfter(Init(minWorkers, maxWorkers), steps);
  }

  /** In every run a hire is refused exactly when the limit is reached. */
  lemma RefusedAtLimit<J>(minWorkers: int, maxWorkers: int, steps: seq<Step<J>>, t: nat)
    requires maxWorkers >= 0 && IsRun(Init(minWorkers, maxWorkers), steps)
    requires Enabled(After(Init(minWorkers, maxWorkers), steps), Reserve(t))
    ensures var s := After(Init(minWorkers, maxWorkers), steps);
            var s' := Apply(s, Reserve(t));
            && s.core.workers <= s.core.maxWorkers
            && (s'.core.limited > s.core.limited <==> s.core.workers == s.core.maxWorkers)
            && (s'.threads[t].Reserved? <==> s.core.workers < s.core.maxWorkers)
  {
    LayoffsLeaveMinimum(minWorkers, maxWorkers, steps);
  }
}
