/**
 The timer thread, callers of the timed Schedule and of Cancel, and the clock, as long as
 no two callers are between Cancel and insertion for one job: the queue is then the list
 of TimerSpec. TimerLinks has the same steps on the links of the jobs themselves, and
 shows that its runs without such a race are the runs of this module.
 */
module TimerRuns {
  import opened TimerSpec
  import opened Wrappers

  /** The timer thread looks at the queue next, sleeps until `deadline`, or has been
      ended by the exception of a failed wait. Between its two looks at the clock before
      it slept `late` seconds passed. */
  datatype Thread = Awake | Asleep(deadline: int, late: nat, signalled: bool) | Ended

  /** A thread outside the timed Schedule, past its Cancel, or past storing the time too. */
  datatype Caller<J> = Out | Begun(job: J, time: int) | Stored(job: J, time: int)

  datatype Move<J> = Move(job: J, due: int, at: int)

  datatype State<J> = State(
    queue: seq<Entry<J>>,
    callers: seq<Caller<J>>,
    now: int,
    thread: Thread,
    next: nat,              // stamp of the next insertion
    moved: seq<Move<J>>)    // jobs handed to the work queue, and when

  datatype Step<J> =
    | Tick(seconds: nat)
    | Begin(c: nat, j: J, time: int)   // timed Schedule, its Cancel
    | Store(c: nat)                    // the time is stored in the job, with no lock held
    | Insert(c: nat)                   // the insertion
    | Cancel(j: J)
    | Turn(usec: nat, late: nat)       // `usec` is past the second at the second look
    | WakeUp                           // signalled, timed out, or for no reason

  const IDLE_WAIT := 60 * 60
  const TWO31: int := 0x8000_0000
  const TWO32: int := 0x1_0000_0000
  const MILLION: int := 1000000

  /** Conversion to a 32-bit int, as in `int wtime = SchedTime - time(0)`. */
  function Int32(x: int): int {
    var r := x % TWO32;
    if r < TWO31 then r else r - TWO32
  }

  /** The second in which Wait(sec) ends if nobody signals, called at now + usec: both
      products are taken in 32 bits, and a time before the second's start is not valid. */
  function WaitUntil(now: int, usec: nat, sec: int): Option<int> {
    var ms := Int32(sec * 1000);
    var whole := if ms < 1000 then 0 else ms / 1000;
    var part := if ms < 1000 then ms else ms % 1000;
    var past := usec + Int32(part * 1000);
    if past < 0 then None else Some(now + whole + past / MILLION)
  }

  function Init<J>(now: int, callers: nat): State<J> {
    State([], seq(callers, i => Out), now, Awake, 0, [])
  }

  /** The wait TimeSched computes in a turn. */
  function WaitTime<J>(s: State<J>): int {
    if s.queue == [] then IDLE_WAIT else Int32(s.queue[0].time - s.now)
  }

  /** No two callers are between Cancel and insertion for one job. */
  ghost predicate Apart<J>(callers: seq<Caller<J>>) {
    forall c, d | 0 <= c < d < |callers| && !callers[c].Out? && !callers[d].Out? :: callers[c].job != callers[d].job
  }

  ghost predicate Enabled<J>(s: State<J>, step: Step<J>) {
    match step
    case Tick(_) => true
    case Begin(c, j, time) => c < |s.callers| && s.callers[c].Out? && Apart(s.callers[c := Begun(j, time)])
    case Store(c) => c < |s.callers| && s.callers[c].Begun?
    case Insert(c) => c < |s.callers| && s.callers[c].Stored?
    case Cancel(_) => true
    case Turn(usec, _) => s.thread.Awake? && usec < MILLION
    case WakeUp => s.thread.Asleep?
  }

  /** What TimeSched does when it is to wait: the second look at the clock, and the sleep. */
  function Slept(now: int, usec: nat, late: nat, wait: int): Thread {
    var until := WaitUntil(now + late, usec, wait);
    if until.None? then Ended else Asleep(until.value, late, false)
  }

  function Signalled(t: Thread): Thread {
    if t.Asleep? then t.(signalled := true) else t
  }

  ghost function Apply<J>(s: State<J>, step: Step<J>): State<J>
    requires Enabled(s, step)
  {
    match step
    case Tick(d) => s.(now := s.now + d)
    case Begin(c, j, time) => s.(queue := Cancelled(s.queue, j), callers := s.callers[c := Begun(j, time)])
    case Store(c) => s.(callers := s.callers[c := Stored(s.callers[c].job, s.callers[c].time)])
    case Insert(c) =>
      var e := Entry(s.callers[c].job, s.callers[c].time, s.next);
      s.(queue := Inserted(s.queue, e),
         callers := s.callers[c := Out],
         next := s.next + 1,
         thread := if Passed(s.queue, e.time) == 0 then Signalled(s.thread) else s.thread)
    case Cancel(j) => s.(queue := Cancelled(s.queue, j))
    case Turn(usec, late) =>
      var w := WaitTime(s);
      if w > 0 then
        s.(thread := Slept(s.now, usec, late, w), now := s.now + late)
      else
        s.(queue := s.queue[1..], moved := s.moved + [Move(s.queue[0].job, s.queue[0].time, s.now)])
    case WakeUp => s.(thread := Awake)
  }

  ghost predicate IsRun<J>(s: State<J>, steps: seq<Step<J>>)
    decreases |steps|
  {
    steps == [] || (Enabled(s, steps[0]) && IsRun(Apply(s, steps[0]), steps[1..]))
  }

  ghost function After<J>(s: State<J>, steps: seq<Step<J>>): State<J>
    requires IsRun(s, steps)
    decreases |steps|
  {
    if steps == [] then s else After(Apply(s, steps[0]), steps[1..])
  }

  // ---------------------------------------------------------------------
  // Arithmetic of the wait

  /** Truncation can only err downward below 2^31 and upward from -2^31. */
  lemma Int32Bounds(x: int)
    ensures Int32(x) <= x <==> x >= -TWO31
    ensures Int32(x) >= x <==> x < TWO31
  {
  }

  /** Truncation of a time L seconds ago gives a wait exactly in these cases. */
  lemma Int32Late(late: int)
    ensures Int32(-late) > 0 <==> late % TWO32 > TWO31
  {
  }

  lemma Int32Is(x: int, q: int, r: int)
    requires x == q * TWO32 + r && -TWO31 <= r < TWO31
    ensures Int32(x) == r
  {
  }

  /** A wait that is valid ends no later than asked, counted in whole seconds. */
  lemma SleepBound(now: int, usec: nat, sec: int)
    requires 0 < sec < TWO31 && usec < MILLION
    ensures WaitUntil(now, usec, sec).Some? ==> now <= WaitUntil(now, usec, sec).value <= now + sec
  {
    var ms := Int32(sec * 1000);
    Int32Bounds(sec * 1000);
    if ms >= 1000 {
      assert ms % 1000 * 1000 < MILLION;
      Int32Is(ms % 1000 * 1000, 0, ms % 1000 * 1000);
    } else if ms >= 0 {
      Int32Is(ms * 1000, 0, ms * 1000);
    } else if sec < 2147484 {
      Int32Is(sec * 1000, 0, sec * 1000);
    }
  }

  /** The shortest wait that can fail, in seconds: 24 days and 21 hours. */
  const FAILS_FROM: int := 2149632

  /** A shorter wait is valid, and one below 2147484 seconds ends in the second asked for. */
  lemma WaitHolds(now: int, usec: nat, sec: int)
    requires 0 < sec < FAILS_FROM && usec < MILLION
    ensures WaitUntil(now, usec, sec).Some?
    ensures sec < 2147484 ==> WaitUntil(now, usec, sec) == Some(now + sec)
  {
    var ms := Int32(sec * 1000);
    if sec < 2147484 {
      Int32Is(sec * 1000, 0, sec * 1000);
      var part := if ms < 1000 then ms else ms % 1000;
      Int32Is(part * 1000, 0, part * 1000);
    } else {
      Int32Is(sec * 1000, 1, sec * 1000 - TWO32);
      Int32Is(ms * 1000, -500, 352000 + MILLION * (sec - 2147484));
    }
  }

  lemma WaitFails(now: int, usec: nat)
    requires usec < MILLION
    ensures WaitUntil(now, usec, FAILS_FROM) == None
  {
  }

  // ---------------------------------------------------------------------
  // Order, and each job once

  ghost predicate InOrder<J>(s: State<J>) {
    Ordered(s.queue) && Stamped(s.queue, s.next)
  }

  lemma InOrderKept<J>(s: State<J>, step: Step<J>)
    requires InOrder(s) && Enabled(s, step)
    ensures InOrder(Apply(s, step))
  {
    match step
    case Begin(c, j, _) => CancelKeepsOrder(s.queue, j, s.next);
    case Insert(c) => InsertKeepsOrder(s.queue, Entry(s.callers[c].job, s.callers[c].time, s.next));
    case Cancel(j) => CancelKeepsOrder(s.queue, j, s.next);
    case _ =>
  }

  /** No job is queued twice, nor queued while a caller is about to insert it. */
  ghost predicate Once<J>(s: State<J>) {
    Unique(s.queue) && forall c | 0 <= c < |s.callers| && !s.callers[c].Out? :: !Has(s.queue, s.callers[c].job)
  }

  lemma CancelKeepsAbsent<J>(q: seq<Entry<J>>, j: J, k: J)
    ensures Has(Cancelled(q, j), k) ==> Has(q, k)
  {
    var n := Position(q, j);
    if n < |q| {
      DropAt(q, n);
    }
  }

  lemma CancelKeepsOnce<J>(s: State<J>, j: J)
    requires InOrder(s) && Once(s)
    ensures var q := Cancelled(s.queue, j); Unique(q) && !Has(q, j) && forall k | Has(q, k) :: Has(s.queue, k)
  {
    CancelRemovesOne(s.queue, j, s.next);
    forall k | Has(Cancelled(s.queue, j), k) ensures Has(s.queue, k) {
      CancelKeepsAbsent(s.queue, j, k);
    }
  }

  lemma BeginKeepsOnce<J>(s: State<J>, c: nat, j: J, time: int)
    requires InOrder(s) && Once(s) && Enabled(s, Begin(c, j, time))
    ensures Once(Apply(s, Begin(c, j, time)))
  {
    CancelKeepsOnce(s, j);
    var s' := Apply(s, Begin(c, j, time));
    forall d | 0 <= d < |s'.callers| && !s'.callers[d].Out? ensures !Has(s'.queue, s'.callers[d].job) {
      assert d != c ==> s.callers[d] == s'.callers[d];
    }
  }

  lemma InsertKeepsOnce<J>(s: State<J>, c: nat)
    requires Once(s) && Apart(s.callers) && Enabled(s, Insert(c))
    ensures Once(Apply(s, Insert(c)))
  {
    var e := Entry(s.callers[c].job, s.callers[c].time, s.next);
    InsertKeepsUnique(s.queue, e);
    InsertedAt(s.queue, e);
    var s' := Apply(s, Insert(c));
    forall d | 0 <= d < |s'.callers| && !s'.callers[d].Out? ensures !Has(s'.queue, s'.callers[d].job) {
      assert d != c && s.callers[d] == s'.callers[d];
      assert s.callers[d].job != e.job;
    }
  }

  lemma OnceKept<J>(s: State<J>, step: Step<J>)
    requires InOrder(s) && Once(s) && Apart(s.callers) && Enabled(s, step)
    ensures Once(Apply(s, step)) && Apart(Apply(s, step).callers)
  {
    match step
    case Begin(c, j, time) => BeginKeepsOnce(s, c, j, time);
    case Insert(c) => InsertKeepsOnce(s, c);
    case Cancel(j) => CancelKeepsOnce(s, j);
    case _ =>
  }

  /** The queue is in due order, ties in arrival order, and has each job once. */
  ghost predicate Inv<J>(s: State<J>) {
    InOrder(s) && Once(s) && Apart(s.callers)
  }

  lemma InvKept<J>(s: State<J>, step: Step<J>)
    requires Inv(s) && Enabled(s, step)
    ensures Inv(Apply(s, step))
  {
    InOrderKept(s, step);
    OnceKept(s, step);
  }

  lemma {:induction false} InvAfter<J>(s: State<J>, steps: seq<Step<J>>)
    requires Inv(s) && IsRun(s, steps)
    ensures Inv(After(s, steps))
    decreases |steps|
  {
    if steps != [] {
      InvKept(s, steps[0]);
      InvAfter(Apply(s, steps[0]), steps[1..]);
    }
  }

  // ---------------------------------------------------------------------
  // Nothing overslept

  /** A sleeping timer thread that has not been signalled wakes no later than the head is
      due, but for the time that passed between its looks at the clock. */
  ghost predicate NoOversleep<J>(s: State<J>) {
    s.thread.Asleep? && !s.thread.signalled && s.queue != [] ==>
      s.thread.deadline <= s.queue[0].time + s.thread.late
  }

  /** Everything queued, or about to be, is due at or after the bound. */
  ghost predicate DueFrom<J>(s: State<J>, bound: int) {
    && (forall i | 0 <= i < |s.queue| :: s.queue[i].time >= bound)
    && (forall c | 0 <= c < |s.callers| && !s.callers[c].Out? :: s.callers[c].time >= bound)
  }

  /** Every call of the run asks for a time at or after the bound. */
  predicate CallsFrom<J>(steps: seq<Step<J>>, bound: int) {
    forall i | 0 <= i < |steps| && steps[i].Begin? :: steps[i].time >= bound
  }

  lemma CancelKeepsAll<J>(q: seq<Entry<J>>, j: J, next: nat)
    requires Ordered(q) && Stamped(q, next)
    ensures forall i | 0 <= i < |Cancelled(q, j)| :: Cancelled(q, j)[i] in q
  {
    CancelKeepsOrder(q, j, next);
  }

  lemma DueFromKept<J>(s: State<J>, step: Step<J>, bound: int)
    requires InOrder(s) && DueFrom(s, bound) && Enabled(s, step)
    requires step.Begin? ==> step.time >= bound
    ensures DueFrom(Apply(s, step), bound)
  {
    match step
    case Begin(_, j, _) => CancelKeepsAll(s.queue, j, s.next);
    case Insert(c) => InsertedAt(s.queue, Entry(s.callers[c].job, s.callers[c].time, s.next));
    case Cancel(j) => CancelKeepsAll(s.queue, j, s.next);
    case _ =>
  }

  lemma NoOversleepKept<J>(s: State<J>, step: Step<J>)
    requires InOrder(s) && NoOversleep(s) && Enabled(s, step)
    requires step.Turn? && s.queue != [] ==> s.queue[0].time - s.now >= -TWO31
    ensures NoOversleep(Apply(s, step))
  {
    match step
    case Begin(_, j, _) => CancelKeepsOrder(s.queue, j, s.next);
    case Insert(c) => InsertedAt(s.queue, Entry(s.callers[c].job, s.callers[c].time, s.next));
    case Cancel(j) => CancelKeepsOrder(s.queue, j, s.next);
    case Turn(usec, late) =>
      if s.queue != [] {
        Int32Bounds(s.queue[0].time - s.now);
      }
      if WaitTime(s) > 0 {
        SleepBound(s.now + late, usec, WaitTime(s));
      }
    case _ =>
  }

  lemma {:induction false} NowGrows<J>(s: State<J>, steps: seq<Step<J>>)
    requires IsRun(s, steps)
    ensures After(s, steps).now >= s.now
    decreases |steps|
  {
    if steps != [] {
      NowGrows(Apply(s, steps[0]), steps[1..]);
    }
  }

  /** No turn of the run finds the head more than 2^31 seconds overdue. */
  ghost predicate NoneOverdue<J>(s: State<J>, steps: seq<Step<J>>)
    requires IsRun(s, steps)
    decreases |steps|
  {
    steps == [] || (
      && (steps[0].Turn? && s.queue != [] ==> s.queue[0].time - s.now >= -TWO31)
      && NoneOverdue(Apply(s, steps[0]), steps[1..]))
  }

  lemma {:induction false} WakesInTime<J>(s: State<J>, steps: seq<Step<J>>)
    requires IsRun(s, steps) && InOrder(s) && NoOversleep(s) && NoneOverdue(s, steps)
    ensures NoOversleep(After(s, steps))
    decreases |steps|
  {
    if steps != [] {
      InOrderKept(s, steps[0]);
      NoOversleepKept(s, steps[0]);
      WakesInTime(Apply(s, steps[0]), steps[1..]);
    }
  }

  lemma {:induction false} CallsInTime<J>(s: State<J>, steps: seq<Step<J>>, bound: int)
    requires IsRun(s, steps) && InOrder(s) && DueFrom(s, bound)
    requires CallsFrom(steps, bound) && After(s, steps).now <= bound + TWO31
    ensures NoneOverdue(s, steps)
    decreases |steps|
  {
    if steps != [] {
      NowGrows(s, steps);
      InOrderKept(s, steps[0]);
      DueFromKept(s, steps[0], bound);
      assert forall i | 0 <= i < |steps[1..]| :: steps[1..][i] == steps[i + 1];
      CallsInTime(Apply(s, steps[0]), steps[1..], bound);
    }
  }

  /** Every turn takes at most k seconds from its first look at the clock to its second. */
  predicate TurnsWithin<J>(steps: seq<Step<J>>, k: nat) {
    forall i | 0 <= i < |steps| && steps[i].Turn? :: steps[i].late <= k
  }

  lemma {:induction false} LateWithin<J>(s: State<J>, steps: seq<Step<J>>, k: nat)
    requires IsRun(s, steps) && TurnsWithin(steps, k) && (s.thread.Asleep? ==> s.thread.late <= k)
    ensures After(s, steps).thread.Asleep? ==> After(s, steps).thread.late <= k
    decreases |steps|
  {
    if steps != [] {
      assert forall i | 0 <= i < |steps[1..]| :: steps[1..][i] == steps[i + 1];
      LateWithin(Apply(s, steps[0]), steps[1..], k);
    }
  }

  // ---------------------------------------------------------------------
  // Nothing moved early

  /** Nothing went to the work queue before its time. */
  ghost predicate NotEarly<J>(s: State<J>) {
    forall i | 0 <= i < |s.moved| :: s.moved[i].due <= s.moved[i].at
  }

  /** Everything queued, or about to be, is due less than 2^31 seconds ahead. */
  ghost predicate Near<J>(s: State<J>) {
    && (forall i | 0 <= i < |s.queue| :: s.queue[i].time - s.now < TWO31)
    && (forall c | 0 <= c < |s.callers| && !s.callers[c].Out? :: s.callers[c].time - s.now < TWO31)
  }

  /** Every call of the run asks for a time less than 2^31 seconds ahead. */
  ghost predicate NearCalls<J>(s: State<J>, steps: seq<Step<J>>)
    requires IsRun(s, steps)
    decreases |steps|
  {
    steps == [] || (
      && (steps[0].Begin? ==> steps[0].time - s.now < TWO31)
      && NearCalls(Apply(s, steps[0]), steps[1..]))
  }

  lemma NearKept<J>(s: State<J>, step: Step<J>)
    requires InOrder(s) && Near(s) && NotEarly(s) && Enabled(s, step)
    requires step.Begin? ==> step.time - s.now < TWO31
    ensures Near(Apply(s, step)) && NotEarly(Apply(s, step))
  {
    match step
    case Begin(_, j, _) => CancelKeepsAll(s.queue, j, s.next);
    case Insert(c) => InsertedAt(s.queue, Entry(s.callers[c].job, s.callers[c].time, s.next));
    case Cancel(j) => CancelKeepsAll(s.queue, j, s.next);
    case Turn(_, _) =>
      if s.queue != [] {
        Int32Bounds(s.queue[0].time - s.now);
      }
    case _ =>
  }

  lemma {:induction false} NearAfter<J>(s: State<J>, steps: seq<Step<J>>)
    requires InOrder(s) && Near(s) && NotEarly(s) && IsRun(s, steps) && NearCalls(s, steps)
    ensures NotEarly(After(s, steps))
    decreases |steps|
  {
    if steps != [] {
      InOrderKept(s, steps[0]);
      NearKept(s, steps[0]);
      NearAfter(Apply(s, steps[0]), steps[1..]);
    }
  }

  // ---------------------------------------------------------------------
  // One call

  /** The run starts with a call for that time, and makes no other. */
  ghost predicate OneCall<J>(steps: seq<Step<J>>, j: J, time: int) {
    && steps != [] && steps[0] == Begin(0, j, time)
    && forall i | 1 <= i < |steps| :: !steps[i].Begin?
  }

  lemma {:induction false} NoCallIsNear<J>(s: State<J>, steps: seq<Step<J>>)
    requires IsRun(s, steps) && forall i | 0 <= i < |steps| :: !steps[i].Begin?
    ensures NearCalls(s, steps)
    decreases |steps|
  {
    if steps != [] {
      assert forall i | 0 <= i < |steps[1..]| :: steps[1..][i] == steps[i + 1];
      NoCallIsNear(Apply(s, steps[0]), steps[1..]);
    }
  }

  /** Everything queued, or about to be, is due at this time. */
  ghost predicate OnlyAt<J>(s: State<J>, time: int) {
    && (forall i | 0 <= i < |s.queue| :: s.queue[i].time == time)
    && (forall c | 0 <= c < |s.callers| && !s.callers[c].Out? :: s.callers[c].time == time)
  }

  lemma OnlyAtKept<J>(s: State<J>, step: Step<J>, time: int)
    requires InOrder(s) && OnlyAt(s, time) && Enabled(s, step)
    requires step.Begin? ==> step.time == time
    ensures OnlyAt(Apply(s, step), time)
  {
    match step
    case Begin(_, j, _) => CancelKeepsAll(s.queue, j, s.next);
    case Insert(c) => InsertedAt(s.queue, Entry(s.callers[c].job, s.callers[c].time, s.next));
    case Cancel(j) => CancelKeepsAll(s.queue, j, s.next);
    case _ =>
  }

  /** A lateness that truncation turns into a wait. */
  predicate Wraps(late: int) {
    late % TWO32 > TWO31
  }

  ghost predicate WrapsWithin(lo: int, hi: int) {
    exists late: int :: lo <= late <= hi && Wraps(late)
  }

  /** The timer thread has stopped looking only at a lateness that wraps. */
  ghost predicate StallsByWrap<J>(s: State<J>, time: int, ago: nat) {
    s.thread.Ended? || (s.thread.Asleep? && !s.thread.signalled && s.queue != []) ==> WrapsWithin(ago, s.now - time)
  }

  lemma StallsByWrapKept<J>(s: State<J>, step: Step<J>, time: int, ago: nat)
    requires OnlyAt(s, time) && StallsByWrap(s, time, ago) && s.now - time >= ago && Enabled(s, step)
    ensures StallsByWrap(Apply(s, step), time, ago)
  {
    match step
    case Turn(usec, late) =>
      if s.queue == [] {
        WaitHolds(s.now + late, usec, IDLE_WAIT);
      } else {
        Int32Late(s.now - time);
        assert WaitTime(s) > 0 ==> Wraps(s.now - time);
      }
    case Insert(c) => InsertedAt(s.queue, Entry(s.callers[c].job, s.callers[c].time, s.next));
    case Cancel(j) => assert s.queue == [] ==> Cancelled(s.queue, j) == [];
    case Begin(_, j, _) => assert s.queue == [] ==> Cancelled(s.queue, j) == [];
    case _ =>
  }

  lemma {:induction false} StallsByWrapAfter<J>(s: State<J>, steps: seq<Step<J>>, time: int, ago: nat)
    requires IsRun(s, steps) && InOrder(s) && OnlyAt(s, time) && StallsByWrap(s, time, ago) && s.now - time >= ago
    requires forall i | 0 <= i < |steps| && steps[i].Begin? :: steps[i].time == time
    ensures StallsByWrap(After(s, steps), time, ago)
    decreases |steps|
  {
    if steps != [] {
      InOrderKept(s, steps[0]);
      OnlyAtKept(s, steps[0], time);
      StallsByWrapKept(s, steps[0], time, ago);
      assert forall i | 0 <= i < |steps[1..]| :: steps[1..][i] == steps[i + 1];
      StallsByWrapAfter(Apply(s, steps[0]), steps[1..], time, ago);
    }
  }

  // ---------------------------------------------------------------------
  // A wait that fails

  lemma {:induction false} StaysAlive<J>(s: State<J>, steps: seq<Step<J>>, time: int)
    requires IsRun(s, steps) && InOrder(s) && OnlyAt(s, time) && !s.thread.Ended?
    requires time - s.now < FAILS_FROM && After(s, steps).now <= time + TWO31
    requires forall i | 0 <= i < |steps| && steps[i].Begin? :: steps[i].time == time
    ensures !After(s, steps).thread.Ended?
    decreases |steps|
  {
    if steps != [] {
      NowGrows(s, steps);
      if steps[0].Turn? && WaitTime(s) > 0 {
        Int32Bounds(time - s.now);
        WaitHolds(s.now + steps[0].late, steps[0].usec, WaitTime(s));
      }
      InOrderKept(s, steps[0]);
      OnlyAtKept(s, steps[0], time);
      assert forall i | 0 <= i < |steps[1..]| :: steps[1..][i] == steps[i + 1];
      StaysAlive(Apply(s, steps[0]), steps[1..], time);
    }
  }
}
