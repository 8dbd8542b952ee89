/**
 What becomes of every insertion into the timer queue (XrdScheduler.cc, timed Schedule,
 Cancel and TimeSched): the history of a run, read off its states from outside, and what
 the timer queue and the work queue must agree with it about.
 */
module TimerFates {
  import opened TimerSpec
  import opened Wrappers
  import T = TimerRuns
  import L = TimerLinks

  /** `call` names the job of the call that took the entry off, if it was one; `seen` is the
      number of insertions made before the entry was taken off by the timer thread. */
  datatype History<J> = History(
    inserted: seq<Entry<J>>,
    cancelled: seq<Entry<J>>, call: seq<Option<J>>,
    taken: seq<Entry<J>>, seen: seq<nat>)

  /** The entries of q that r does not have. */
  function Lost<J(==)>(q: seq<Entry<J>>, r: seq<Entry<J>>): seq<Entry<J>> {
    if q == [] then []
    else Lost(q[..|q| - 1], r) + (if q[|q| - 1] in r then [] else [q[|q| - 1]])
  }

  /** The job a call is about, if the step belongs to one. */
  function Calls<J>(step: T.Step<J>): Option<J> {
    match step
    case Begin(_, j, _) => Some(j)
    case Cancel(j) => Some(j)
    case _ => None
  }

  /** The history one step further: entries that are no longer queued after a turn were
      taken off by the timer thread, and by a call otherwise. */
  ghost function Noted<J>(h: History<J>, s: T.State<J>, step: T.Step<J>): History<J>
    requires T.Enabled(s, step)
  {
    var lost := Lost(s.queue, T.Apply(s, step).queue);
    if step.Turn? then
      h.(taken := h.taken + lost, seen := h.seen + seq(|lost|, i => s.next))
    else if step.Insert? then
      h.(inserted := h.inserted + [Entry(s.callers[step.c].job, s.callers[step.c].time, s.next)],
         cancelled := h.cancelled + lost, call := h.call + seq(|lost|, i => None))
    else
      h.(cancelled := h.cancelled + lost, call := h.call + seq(|lost|, i => Calls(step)))
  }

  ghost function Noting<J>(h: History<J>, s: T.State<J>, steps: seq<T.Step<J>>): History<J>
    requires T.IsRun(s, steps)
    decreases |steps|
  {
    if steps == [] then h else Noting(Noted(h, s, steps[0]), T.Apply(s, steps[0]), steps[1..])
  }

  function Blank<J>(): History<J> {
    History([], [], [], [], [])
  }

  /** Insertions are numbered, and each is one of: still queued, cancelled, taken off. */
  ghost predicate Conserved<J>(h: History<J>, q: seq<Entry<J>>, next: nat) {
    && |h.inserted| == next && (forall n | 0 <= n < next :: h.inserted[n].arrival == n)
    && multiset(h.inserted) == multiset(q) + multiset(h.cancelled) + multiset(h.taken)
  }

  /** Only a call for the job itself cancels an entry. */
  ghost predicate CancelledByCall<J>(h: History<J>) {
    |h.call| == |h.cancelled| && forall i | 0 <= i < |h.call| :: h.call[i] == Some(h.cancelled[i].job)
  }

  /** What the timer thread took off went to the work queue, in that order. */
  ghost predicate HandedOver<J>(h: History<J>, moved: seq<T.Move<J>>) {
    |moved| == |h.taken|
    && forall i | 0 <= i < |moved| :: moved[i].job == h.taken[i].job && moved[i].due == h.taken[i].time
  }

  /** Of two entries that were queued together, the one due earlier was taken off first,
      or is still to be; entries due at the same time go in the order of insertion. */
  ghost predicate InDueOrder<J>(h: History<J>, q: seq<Entry<J>>) {
    && |h.seen| == |h.taken|
    && (forall i, k | 0 <= i < k < |h.taken| && h.taken[k].arrival < h.seen[i] :: Before(h.taken[i], h.taken[k]))
    && (forall i, k | 0 <= i < |h.taken| && 0 <= k < |q| && q[k].arrival < h.seen[i] :: Before(h.taken[i], q[k]))
  }

  ghost predicate Accounted<J>(h: History<J>, q: seq<Entry<J>>, next: nat, moved: seq<T.Move<J>>) {
    Conserved(h, q, next) && CancelledByCall(h) && HandedOver(h, moved) && InDueOrder(h, q)
  }

  // ---------------------------------------------------------------------
  // One step

  lemma {:induction false} LostNone<J>(q: seq<Entry<J>>, r: seq<Entry<J>>)
    requires forall i | 0 <= i < |q| :: q[i] in r
    ensures Lost(q, r) == []
  {
    if q != [] {
      LostNone(q[..|q| - 1], r);
    }
  }

  lemma DropIn<J>(q: seq<Entry<J>>, k: nat, i: nat)
    requires Unique(q) && k < |q| && i < |q|
    ensures q[i] in Drop(q, k) <==> i != k
  {
    DropAt(q, k);
    var r := Drop(q, k);
    if i != k {
      assert r[if i < k then i else i - 1] == q[i];
    } else {
      forall m | 0 <= m < |r| ensures r[m] != q[i] {
        assert r[m] == q[if m < k then m else m + 1];
      }
    }
  }

  lemma {:induction false} LostOne<J>(q: seq<Entry<J>>, k: nat, m: nat)
    requires Unique(q) && k < |q| && m <= |q|
    ensures Lost(q[..m], Drop(q, k)) == if k < m then [q[k]] else []
  {
    if m > 0 {
      LostOne(q, k, m - 1);
      DropIn(q, k, m - 1);
      assert q[..m][..m - 1] == q[..m - 1];
    }
  }

  lemma LostDrop<J>(q: seq<Entry<J>>, k: nat)
    requires Unique(q) && k < |q|
    ensures Lost(q, Drop(q, k)) == [q[k]]
  {
    LostOne(q, k, |q|);
    assert q[..|q|] == q;
  }

  lemma DropCount<T>(q: seq<T>, k: nat)
    requires k < |q|
    ensures multiset(q) == multiset(Drop(q, k)) + multiset([q[k]])
  {
    assert q == q[..k] + [q[k]] + q[k + 1..];
  }

  lemma PutCount<T>(q: seq<T>, k: nat, x: T)
    requires k <= |q|
    ensures multiset(Put(q, k, x)) == multiset(q) + multiset{x}
  {
    assert q == q[..k] + q[k..];
  }

  /** What Cancel does to a queue, and what is lost by it. */
  lemma LostCancel<J>(q: seq<Entry<J>>, j: J)
    requires Unique(q)
    ensures var lost := Lost(q, Cancelled(q, j));
            && multiset(q) == multiset(Cancelled(q, j)) + multiset(lost)
            && forall i | 0 <= i < |lost| :: lost[i].job == j
  {
    var k := Position(q, j);
    if k < |q| {
      LostDrop(q, k);
      DropCount(q, k);
    } else {
      LostNone(q, q);
    }
  }

  lemma LostInsert<J>(q: seq<Entry<J>>, e: Entry<J>)
    ensures Lost(q, Inserted(q, e)) == []
  {
    InsertedAt(q, e);
    var k, r := Passed(q, e.time), Inserted(q, e);
    forall i | 0 <= i < |q| ensures q[i] in r {
      assert r[if i < k then i else i + 1] == q[i];
    }
    LostNone(q, r);
  }

  lemma AddCancelled<J>(h: History<J>, q: seq<Entry<J>>, r: seq<Entry<J>>, next: nat, lost: seq<Entry<J>>,
      call: seq<Option<J>>)
    requires Conserved(h, q, next) && multiset(q) == multiset(r) + multiset(lost)
    ensures Conserved(h.(cancelled := h.cancelled + lost, call := call), r, next)
  {
  }

  lemma AddTaken<J>(h: History<J>, q: seq<Entry<J>>, r: seq<Entry<J>>, next: nat, lost: seq<Entry<J>>, seen: seq<nat>)
    requires Conserved(h, q, next) && multiset(q) == multiset(r) + multiset(lost)
    ensures Conserved(h.(taken := h.taken + lost, seen := seen), r, next)
  {
  }

  lemma AddInserted<J>(h: History<J>, q: seq<Entry<J>>, next: nat, e: Entry<J>)
    requires Conserved(h, q, next) && e.arrival == next
    ensures Conserved(h.(inserted := h.inserted + [e]), Inserted(q, e), next + 1)
  {
    PutCount(q, Passed(q, e.time), e);
    assert multiset(h.inserted + [e]) == multiset(h.inserted) + multiset{e};
  }

  lemma OrderLess<J>(h: History<J>, q: seq<Entry<J>>, r: seq<Entry<J>>)
    requires InDueOrder(h, q) && forall i | 0 <= i < |r| :: r[i] in q
    ensures InDueOrder(h, r)
  {
    forall i, k | 0 <= i < |h.taken| && 0 <= k < |r| && r[k].arrival < h.seen[i] ensures Before(h.taken[i], r[k]) {
      assert r[k] in q;
    }
  }

  /** A call takes its job off the queue. */
  lemma CallNoted<J>(h: History<J>, s: T.State<J>, step: T.Step<J>, j: J)
    requires Accounted(h, s.queue, s.next, s.moved) && T.Inv(s) && T.Enabled(s, step)
    requires Calls(step) == Some(j)
    ensures Accounted(Noted(h, s, step), T.Apply(s, step).queue, s.next, s.moved)
  {
    var r := Cancelled(s.queue, j);
    var lost, h' := Lost(s.queue, r), Noted(h, s, step);
    assert h' == h.(cancelled := h.cancelled + lost, call := h.call + seq(|lost|, i => Some(j)));
    LostCancel(s.queue, j);
    AddCancelled(h, s.queue, r, s.next, lost, h'.call);
    T.CancelKeepsAll(s.queue, j, s.next);
    OrderLess(h, s.queue, r);
  }

  ghost predicate SeenSoFar<J>(h: History<J>, next: nat) {
    forall i | 0 <= i < |h.seen| :: h.seen[i] <= next
  }

  lemma OrderMore<J>(h: History<J>, q: seq<Entry<J>>, e: Entry<J>)
    requires InDueOrder(h, q) && SeenSoFar(h, e.arrival)
    ensures InDueOrder(h, Inserted(q, e))
  {
    InsertedAt(q, e);
  }

  lemma InsertNoted<J>(h: History<J>, s: T.State<J>, c: nat)
    requires Accounted(h, s.queue, s.next, s.moved) && SeenSoFar(h, s.next) && T.Enabled(s, T.Insert(c))
    ensures Accounted(Noted(h, s, T.Insert(c)), T.Apply(s, T.Insert(c)).queue, s.next + 1, s.moved)
  {
    var e := Entry(s.callers[c].job, s.callers[c].time, s.next);
    LostInsert(s.queue, e);
    AddInserted(h, s.queue, s.next, e);
    OrderMore(h, s.queue, e);
    assert Noted(h, s, T.Insert(c)) == h.(inserted := h.inserted + [e]);
  }

  lemma OrderHead<J>(h: History<J>, q: seq<Entry<J>>, next: nat)
    requires InDueOrder(h, q) && Ordered(q) && q != []
    ensures InDueOrder(h.(taken := h.taken + [q[0]], seen := h.seen + [next]), q[1..])
  {
  }

  lemma HeadNoted<J>(h: History<J>, s: T.State<J>, h': History<J>, at: int)
    requires Accounted(h, s.queue, s.next, s.moved) && T.Inv(s) && s.queue != []
    requires h' == h.(taken := h.taken + [s.queue[0]], seen := h.seen + [s.next])
    ensures Accounted(h', s.queue[1..], s.next, s.moved + [T.Move(s.queue[0].job, s.queue[0].time, at)])
  {
    DropCount(s.queue, 0);
    assert Drop(s.queue, 0) == s.queue[1..];
    AddTaken(h, s.queue, s.queue[1..], s.next, [s.queue[0]], h'.seen);
    OrderHead(h, s.queue, s.next);
  }

  lemma TurnNoted<J>(h: History<J>, s: T.State<J>, usec: nat, late: nat)
    requires Accounted(h, s.queue, s.next, s.moved) && T.Inv(s) && T.Enabled(s, T.Turn(usec, late))
    ensures var s' := T.Apply(s, T.Turn(usec, late));
            Accounted(Noted(h, s, T.Turn(usec, late)), s'.queue, s'.next, s'.moved)
  {
    var h' := Noted(h, s, T.Turn(usec, late));
    if T.WaitTime(s) > 0 {
      LostNone(s.queue, s.queue);
      assert h' == h;
    } else {
      LostDrop(s.queue, 0);
      assert Drop(s.queue, 0) == s.queue[1..];
      assert h' == h.(taken := h.taken + [s.queue[0]], seen := h.seen + [s.next]);
      HeadNoted(h, s, h', s.now);
    }
  }

  lemma SeenOn<J>(h: History<J>, s: T.State<J>, step: T.Step<J>)
    requires SeenSoFar(h, s.next) && T.Enabled(s, step)
    ensures SeenSoFar(Noted(h, s, step), T.Apply(s, step).next)
  {
  }

  lemma SleepNoted<J>(h: History<J>, s: T.State<J>, step: T.Step<J>)
    requires T.Enabled(s, step) && (step.Tick? || step.Store? || step.WakeUp?)
    ensures Noted(h, s, step) == h
  {
    LostNone(s.queue, s.queue);
  }

  lemma StepNoted<J>(h: History<J>, s: T.State<J>, step: T.Step<J>)
    requires Accounted(h, s.queue, s.next, s.moved) && SeenSoFar(h, s.next) && T.Inv(s) && T.Enabled(s, step)
    ensures var s' := T.Apply(s, step); Accounted(Noted(h, s, step), s'.queue, s'.next, s'.moved)
  {
    match step
    case Begin(_, j, _) => CallNoted(h, s, step, j);
    case Cancel(j) => CallNoted(h, s, step, j);
    case Insert(c) => InsertNoted(h, s, c);
    case Turn(usec, late) => TurnNoted(h, s, usec, late);
    case _ => SleepNoted(h, s, step);
  }

  lemma {:induction false} RunNoted<J>(h: History<J>, s: T.State<J>, steps: seq<T.Step<J>>)
    requires Accounted(h, s.queue, s.next, s.moved) && SeenSoFar(h, s.next) && T.Inv(s) && T.IsRun(s, steps)
    ensures var s' := T.After(s, steps); Accounted(Noting(h, s, steps), s'.queue, s'.next, s'.moved)
    decreases |steps|
  {
    if steps != [] {
      StepNoted(h, s, steps[0]);
      SeenOn(h, s, steps[0]);
      T.InvKept(s, steps[0]);
      RunNoted(Noted(h, s, steps[0]), T.Apply(s, steps[0]), steps[1..]);
    }
  }

  // ---------------------------------------------------------------------
  // Every run

  /** In every run without a race each insertion is exactly one of: on the links, cancelled
      by a later call for the same job, or handed to the work queue; what the timer thread
      takes off is what the work queue gets, in the same order; and entries that were
      queued together leave in due order. */
  lemma NothingLost<J(!new)>(start: int, callers: nat, steps: seq<T.Step<J>>)
    requires L.IsRun(L.Init(start, callers), steps) && L.Exclusive(L.Init(start, callers), steps)
    ensures var a0, s := T.Init<J>(start, callers), L.After(L.Init(start, callers), steps);
            && T.IsRun(a0, steps) && L.Lists(s, T.After(a0, steps).queue)
            && Accounted(Noting(Blank(), a0, steps), T.After(a0, steps).queue, s.stamp, s.moved)
  {
    L.InitSame<J>(start, callers);
    L.Refines(L.Init(start, callers), T.Init(start, callers), steps);
    RunNoted(Blank(), T.Init<J>(start, callers), steps);
  }

  /** So the numbers add up, and no insertion is in two places. */
  lemma ExactlyOne<J(!new)>(h: History<J>, q: seq<Entry<J>>, next: nat, n: nat)
    requires Conserved(h, q, next) && n < next
    ensures next == |q| + |h.cancelled| + |h.taken|
    ensures var e := h.inserted[n]; multiset(q)[e] + multiset(h.cancelled)[e] + multiset(h.taken)[e] == 1
  {
    assert |multiset(h.inserted)| == next;
    var e, a, b := h.inserted[n], h.inserted[..n], h.inserted[n + 1..];
    assert h.inserted == a + [e] + b && multiset([e])[e] == 1;
    assert forall i | 0 <= i < next && i != n :: h.inserted[i] != e;
    assert e !in multiset(a) && e !in multiset(b);
    assert multiset(a + [e] + b) == multiset(a) + multiset([e]) + multiset(b);
    assert multiset(h.inserted)[e] == multiset(a)[e] + 1 + multiset(b)[e] == 1;
    assert (multiset(q) + multiset(h.cancelled) + multiset(h.taken))[e] == 1;
  }
}
