/**
 How long the queue of the scheduler can last: every step of a worker or of Start uses up
 a potential that only Schedule adds to, so any schedule of the threads that does not rest
 while one of them can go on empties the queue within a known number of steps.
 */
module DrainRuns {
  import C = SchedulerCore
  import opened SchedulerRuns

  function Pos(n: int): nat {
    if n > 0 then n else 0
  }

  /** What a thread may still do, and cause, before it needs another permit. `cap` bounds
      the idle count a thread may yet sample, `low` what a negative minimum adds to it. */
  function Rank<J>(pc: Pc<J>, cap: nat, low: nat): nat {
    match pc
    case Waiting => 0
    case Starting => 1
    case Running(_) => 2
    case Hiring(k) => Rest(k) + 3
    case Reserved(k) => Rest(k) + 2
    case Failed(k) => Rest(k) + 1
    case Deciding(_) => 6
    case Woken => 7
    case Sampled(_, idle, _) => 8 * (Pos(idle) + low) + 2
    case Checked(_) => 8 * (cap + low) + 3
    case Boot(left) => 4 * left
    case Gone => 0
  }

  function Rest<J>(k: Cont<J>): nat {
    match k
    case ThenRun(_) => 2
    case ThenBoot(left) => 4 * left
  }

  function Ranks<J>(ts: seq<Pc<J>>, cap: nat, low: nat): nat {
    if ts == [] then 0 else Ranks(ts[..|ts| - 1], cap, low) + Rank(ts[|ts| - 1], cap, low)
  }

  lemma {:induction false} RanksAt<J>(ts: seq<Pc<J>>, t: nat, pc: Pc<J>, cap: nat, low: nat)
    requires t < |ts|
    ensures Ranks(ts[t := pc], cap, low) == Ranks(ts, cap, low) - Rank(ts[t], cap, low) + Rank(pc, cap, low)
  {
    var n := |ts| - 1;
    if t == n {
      assert ts[t := pc][..n] == ts[..n];
    } else {
      assert ts[t := pc][..n] == ts[..n][t := pc];
      RanksAt(ts[..n], t, pc, cap, low);
    }
  }

  lemma RanksMore<J>(ts: seq<Pc<J>>, pc: Pc<J>, cap: nat, low: nat)
    ensures Ranks(ts + [pc], cap, low) == Ranks(ts, cap, low) + Rank(pc, cap, low)
  {
    assert (ts + [pc])[..|ts|] == ts;
  }

  lemma {:induction false} RanksFall<J>(ts: seq<Pc<J>>, cap: nat, low: nat, cap': nat, low': nat)
    requires cap' <= cap && low' <= low
    ensures Ranks(ts, cap', low') <= Ranks(ts, cap, low)
  {
    if ts != [] {
      RanksFall(ts[..|ts| - 1], cap, low, cap', low');
    }
  }

  function Cap<J>(c: C.Core<J>): nat {
    Pos(c.maxWorkers)
  }

  function Low<J>(c: C.Core<J>): nat {
    Pos(-c.minWorkers)
  }

  function Potential<J>(s: State<J>): nat {
    8 * s.core.permits + Ranks(s.threads, Cap(s.core), Low(s.core))
  }

  /** A step of a worker or of Start on the way to the next job: any but Schedule calls and
      DoIt's look at an empty queue. */
  predicate Inner<J>(step: Step<J>) {
    !step.Schedule? && !step.ScheduleBatch? && !step.CheckQueue?
  }

  /** The thread's own part of a step uses up potential. */
  lemma ThreadUses<J>(s: State<J>, step: Step<J>)
    requires Counters(s) && Enabled(s, step) && Inner(step) && !step.ThreadStarted? && !step.FixLimits?
    ensures var s' := Apply(s, step);
            && s'.threads == s.threads[step.t := s'.threads[step.t]]
            && Cap(s'.core) == Cap(s.core) && Low(s'.core) == Low(s.core)
            && 8 * s'.core.permits + Rank(s'.threads[step.t], Cap(s.core), Low(s.core))
               < 8 * s.core.permits + Rank(s.threads[step.t], Cap(s.core), Low(s.core))
  {
    if step.SampleIdle? {
      IdleAreAlive(s.threads);
    }
  }

  lemma StartUses<J>(s: State<J>, t: nat)
    requires Enabled(s, ThreadStarted(t))
    ensures Potential(Apply(s, ThreadStarted(t))) < Potential(s)
  {
    var pc := Resume(s.threads[t].k);
    RanksAt(s.threads, t, pc, Cap(s.core), Low(s.core));
    RanksMore(s.threads[t := pc], Pc<J>.Starting, Cap(s.core), Low(s.core));
  }

  lemma FixUses<J>(s: State<J>, t: nat)
    requires Counters(s) && Enabled(s, FixLimits(t))
    ensures Potential(Apply(s, FixLimits(t))) < Potential(s)
  {
    var pc, c := Resume(s.threads[t].k), C.HireFailed(s.core);
    CountOne(IsCounted, s.threads, t);
    RanksAt(s.threads, t, pc, Cap(s.core), Low(s.core));
    RanksFall(s.threads[t := pc], Cap(s.core), Low(s.core), Cap(c), Low(c));
  }

  lemma InnerUses<J>(s: State<J>, step: Step<J>)
    requires Counters(s) && Enabled(s, step) && Inner(step)
    ensures Potential(Apply(s, step)) < Potential(s)
  {
    if step.ThreadStarted? {
      StartUses(s, step.t);
    } else if step.FixLimits? {
      FixUses(s, step.t);
    } else {
      ThreadUses(s, step);
      RanksAt(s.threads, step.t, Apply(s, step).threads[step.t], Cap(s.core), Low(s.core));
    }
  }

  function Inners<J>(steps: seq<Step<J>>): nat {
    if steps == [] then 0 else (if Inner(steps[0]) then 1 else 0) + Inners(steps[1..])
  }

  predicate NoChecks<J>(steps: seq<Step<J>>) {
    forall i | 0 <= i < |steps| :: !steps[i].CheckQueue?
  }

  lemma {:induction false} RunUses<J>(s: State<J>, more: seq<Step<J>>)
    requires Inv(s) && IsRun(s, more) && NoChecks(more)
    ensures var s' := After(s, more);
            && |s'.scheduled| >= |s.scheduled|
            && Potential(s') + Inners(more) <= Potential(s) + 8 * (|s'.scheduled| - |s.scheduled|)
    decreases |more|
  {
    if more != [] {
      assert forall i | 0 <= i < |more[1..]| :: more[1..][i] == more[i + 1];
      InvKept(s, more[0]);
      if Inner(more[0]) {
        InnerUses(s, more[0]);
      }
      RunUses(Apply(s, more[0]), more[1..]);
    }
  }

  /** While a job is queued some worker can go on. */
  lemma SomeInner<J>(s: State<J>) returns (step: Step<J>)
    requires Inv(s) && s.core.queue != [] && Count(IsSafe, s.threads) > 0
    ensures Inner(step) && Enabled(s, step)
  {
    var t: nat;
    if Count(IsAwake, s.threads) > 0 {
      t := CountWitness(IsAwake, s.threads);
    } else {
      t := CountWitness(IsSafe, s.threads);
    }
    OnwardLeads(s, t);
    step := Onward(t, s.threads[t]);
  }

  /** In every continuation of every run: the workers' steps number at most the potential
      and eight for each job scheduled since, not counting DoIt's, which looks at the queue
      when it is empty only; and while a job is queued and a worker exists, some worker can
      take such a step. */
  lemma DrainBound<J>(minWorkers: int, maxWorkers: int, steps: seq<Step<J>>, more: seq<Step<J>>)
    requires maxWorkers >= 0 && IsRun(Init(minWorkers, maxWorkers), steps)
    requires IsRun(After(Init(minWorkers, maxWorkers), steps), more)
    ensures var s := After(Init(minWorkers, maxWorkers), steps);
            var s' := After(s, more);
            && (NoChecks(more) ==> Inners(more) <= Potential(s) + 8 * (|s'.scheduled| - |s.scheduled|))
            && (s'.core.queue != [] && Count(IsAlive, s.threads) > 0 ==>
                  && (exists step :: Inner(step) && Enabled(s', step))
                  && (forall t :: !Enabled(s', CheckQueue(t))))
  {
    InvInit<J>(minWorkers, maxWorkers);
    InvAfter(Init(minWorkers, maxWorkers), steps);
    var s := After(Init(minWorkers, maxWorkers), steps);
    InvAfter(s, more);
    var s' := After(s, more);
    if NoChecks(more) {
      RunUses(s, more);
    }
    if s'.core.queue != [] && Count(IsAlive, s.threads) > 0 {
      var step := SomeInner(s');
    }
  }

  /** So any schedule of the threads that goes on until no such step is left, with no job
      scheduled meanwhile, hands out every queued job, in order, within that number. */
  lemma FairDrain<J>(minWorkers: int, maxWorkers: int, steps: seq<Step<J>>, more: seq<Step<J>>)
    requires maxWorkers >= 0 && IsRun(Init(minWorkers, maxWorkers), steps)
    requires Count(IsAlive, After(Init(minWorkers, maxWorkers), steps).threads) > 0
    requires IsRun(After(Init(minWorkers, maxWorkers), steps), more)
    requires forall i | 0 <= i < |more| :: Inner(more[i])
    ensures var s := After(Init(minWorkers, maxWorkers), steps);
            var s' := After(s, more);
            && |more| <= Potential(s)
            && ((forall step | Inner(step) :: !Enabled(s', step)) ==>
                s'.core.queue == [] && s'.dispatched == s.scheduled)
  {
    var s := After(Init(minWorkers, maxWorkers), steps);
    InvInit<J>(minWorkers, maxWorkers);
    InvAfter(Init(minWorkers, maxWorkers), steps);
    InvAfter(s, more);
    DrainBound(minWorkers, maxWorkers, steps, more);
    AllInner(s, more);
  }

  lemma {:induction false} AllInner<J>(s: State<J>, more: seq<Step<J>>)
    requires IsRun(s, more) && forall i | 0 <= i < |more| :: Inner(more[i])
    ensures Inners(more) == |more| && After(s, more).scheduled == s.scheduled
    decreases |more|
  {
    if more != [] {
      assert forall i | 0 <= i < |more[1..]| :: more[1..][i] == more[i + 1];
      AllInner(Apply(s, more[0]), more[1..]);
    }
  }
}
