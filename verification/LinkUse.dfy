/**
 The use count of one link and the threads that wait for it to fall to one
 (XrdLink.cc, Serialize and setRef; XrdLinkXeq.cc, Close; XrdLinkInfo.hh).
 opMutex makes each operation below one step; a thread in Serialize waits on
 IOSemaphore between two of them.
 */
module LinkUse {

  datatype Use = Use(inUse: int, doPost: nat, permits: nat)

  /** XrdLinkInfo's state as Reset leaves it, with no permit left over. */
  const FRESH := Use(1, 0, 0)

  /** The use count after setRef(d): never left below one. */
  function CountAfter(inUse: int, d: int): int {
    if inUse + d < 1 then 1 else inUse + d
  }

  /** setRef(use). All who wait are posted when the new count is one, and nobody otherwise. */
  function RefSet(u: Use, use: int): (r: Use)
    ensures r.inUse == CountAfter(u.inUse, use) >= 1
    ensures r.permits - u.permits == u.doPost - r.doPost == if u.inUse + use == 1 then u.doPost else 0
  {
    var n := u.inUse + use;
    if n == 0 then u.(inUse := 1)
    else if n == 1 && u.doPost != 0 then Use(n, 0, u.permits + u.doPost)
    else if n < 0 then u.(inUse := 1)
    else u.(inUse := n)
  }

  /** The locked part of Serialize; the thread must wait iff it counted itself. */
  predicate MustWait(u: Use) {
    u.inUse > 1
  }

  function Serializing(u: Use): Use {
    if MustWait(u) then u.(doPost := u.doPost + 1) else u
  }

  /** Close from the point where its loop finds no other user, up to Unhook. */
  function Closed(u: Use): Use
    requires u.inUse <= 1
  {
    u.(inUse := 0)
  }

  /** Nobody waits to be posted unless some other user remains to do it. */
  predicate WaitersCovered(u: Use) {
    u.doPost > 0 ==> u.inUse > 1
  }

  /** For any change of the count, setRef keeps the waiters covered exactly when
      nobody waits or the new count is at least one. */
  lemma RefSetKeepsCovered(u: Use, use: int)
    requires WaitersCovered(u)
    ensures WaitersCovered(RefSet(u, use)) <==> u.doPost == 0 || u.inUse + use >= 1
  {
  }

  /** Link state and the operations on it, updated in place. */
  class LinkInfo {
    var inUse: int
    var doPost: nat
    var ioSemaphore: nat

    ghost function State(): Use
      reads this
    {
      Use(inUse, doPost, ioSemaphore)
    }

    constructor ()
      ensures State() == FRESH
    {
      inUse, doPost, ioSemaphore := 1, 0, 0;
    }

    /** The waiting threads' semaphore is not touched. */
    method Reset()
      modifies this
      ensures State() == FRESH.(permits := old(ioSemaphore))
    {
      inUse := 1;
      doPost := 0;
    }

    method SetRef(use: int)
      modifies this
      ensures State() == RefSet(old(State()), use)
    {
      inUse := inUse + use;
      if inUse == 0 {
        inUse := 1;
      } else if inUse == 1 && doPost != 0 {
        while doPost != 0
          invariant inUse == 1 && ioSemaphore + doPost == old(ioSemaphore) + old(doPost)
        {
          ioSemaphore := ioSemaphore + 1;
          doPost := doPost - 1;
        }
      } else if inUse < 0 {
        inUse := 1;
      }
    }

    /** The locked part of Serialize. */
    method Serialize() returns (wait: bool)
      modifies this
      ensures State() == Serializing(old(State())) && wait == MustWait(old(State()))
    {
      if inUse <= 1 {
        return false;
      }
      doPost := doPost + 1;
      return true;
    }

    /** Close's decision under opMutex: go on if nobody else uses the link. */
    method TryClose() returns (done: bool)
      modifies this
      ensures done == (old(inUse) <= 1)
      ensures State() == if done then Closed(old(State())) else old(State())
    {
      if inUse > 1 {
        return false;
      }
      inUse := inUse - 1;
      inUse := 0;
      return true;
    }
  }

  // ---------------------------------------------------------------------
  // Every run on one connection

  /** Where a thread is: not involved, holding a reference of its own, waiting in
      Serialize (for itself or on behalf of Close), in Close but not past its
      gate, or done closing. */
  datatype Pc =
    | Out
    | Holder(refs: nat)
    | Waiter(refs: nat)
    | Closer
    | CloserWaits
    | CloserDone

  datatype Link = Link(use: Use, threads: seq<Pc>, closed: bool)

  datatype Step =
    | Take(t: nat)          // setRef(1)
    | Leave(t: nat)         // setRef(-1) for a reference taken before
    | Wait(t: nat)          // Serialize up to the semaphore
    | Proceed(t: nat)       // past the semaphore
    | BeginClose(t: nat)    // Close(), the only one of the connection
    | Gate(t: nat)          // one test of Close's loop, with the Serialize it may call
    | Resumed(t: nat)       // Close's Serialize returns

  predicate Enabled(s: Link, step: Step) {
    && step.t < |s.threads|
    && match step
       case Take(t) => s.threads[t].Out? || s.threads[t].Holder?
       case Leave(t) => s.threads[t].Holder? && s.threads[t].refs > 0
       case Wait(t) => s.threads[t].Out? || s.threads[t].Holder?
       case Proceed(t) => s.threads[t].Waiter? && s.use.permits > 0
       case BeginClose(t) => s.threads[t].Out? && forall i | 0 <= i < |s.threads| :: !Closing(s.threads[i])
       case Gate(t) => s.threads[t].Closer?
       case Resumed(t) => s.threads[t].CloserWaits? && s.use.permits > 0
  }

  predicate Closing(pc: Pc) {
    pc.Closer? || pc.CloserWaits? || pc.CloserDone?
  }

  function Refs(pc: Pc): nat {
    if pc.Holder? || pc.Waiter? then pc.refs else 0
  }

  function At(s: Link, t: nat, pc: Pc, u: Use): Link
    requires t < |s.threads|
  {
    s.(threads := s.threads[t := pc], use := u)
  }

  function Apply(s: Link, step: Step): Link
    requires Enabled(s, step)
  {
    var t := step.t;
    var pc := s.threads[t];
    match step
    case Take(_) => At(s, t, Holder(Refs(pc) + 1), RefSet(s.use, 1))
    case Leave(_) => At(s, t, Holder(Refs(pc) - 1), RefSet(s.use, -1))
    case Wait(_) => At(s, t, if MustWait(s.use) then Waiter(Refs(pc)) else pc, Serializing(s.use))
    case Proceed(_) => At(s, t, Holder(Refs(pc)), s.use.(permits := s.use.permits - 1))
    case BeginClose(_) => At(s, t, Closer, s.use)
    case Gate(_) =>
      if MustWait(s.use) then At(s, t, CloserWaits, Serializing(s.use))
      else At(s, t, CloserDone, Closed(s.use)).(closed := true)
    case Resumed(_) => At(s, t, Closer, s.use.(permits := s.use.permits - 1))
  }

  function Init(n: nat): Link {
    Link(FRESH, seq(n, i => Out), false)
  }

  predicate IsRun(s: Link, steps: seq<Step>)
    decreases |steps|
  {
    steps == [] || (Enabled(s, steps[0]) && IsRun(Apply(s, steps[0]), steps[1..]))
  }

  function After(s: Link, steps: seq<Step>): Link
    requires IsRun(s, steps)
    decreases |steps|
  {
    if steps == [] then s else After(Apply(s, steps[0]), steps[1..])
  }

  /** References held by all threads. */
  function Held(ts: seq<Pc>): nat {
    if ts == [] then 0 else Held(ts[..|ts| - 1]) + Refs(ts[|ts| - 1])
  }

  predicate Blocked(pc: Pc) {
    pc.Waiter? || pc.CloserWaits?
  }

  /** Threads inside Serialize past the point where they counted themselves. */
  function Waiting(ts: seq<Pc>): nat {
    if ts == [] then 0 else Waiting(ts[..|ts| - 1]) + (if Blocked(ts[|ts| - 1]) then 1 else 0)
  }

  lemma {:induction false} SumsAt(ts: seq<Pc>, t: nat, pc: Pc)
    requires t < |ts|
    ensures Held(ts[t := pc]) == Held(ts) - Refs(ts[t]) + Refs(pc)
    ensures Waiting(ts[t := pc]) == Waiting(ts) - (if Blocked(ts[t]) then 1 else 0) + (if Blocked(pc) then 1 else 0)
  {
    var n := |ts| - 1;
    if t == n {
      assert ts[t := pc][..n] == ts[..n];
    } else {
      assert ts[t := pc][..n] == ts[..n][t := pc];
      SumsAt(ts[..n], t, pc);
    }
  }

  lemma {:induction false} HeldOne(ts: seq<Pc>, t: nat)
    requires t < |ts|
    ensures Held(ts) >= Refs(ts[t])
  {
    if t < |ts| - 1 {
      HeldOne(ts[..|ts| - 1], t);
    }
  }

  lemma {:induction false} NobodyYet(n: nat)
    ensures Held(Init(n).threads) == 0 && Waiting(Init(n).threads) == 0
  {
    if n > 0 {
      assert Init(n).threads[..n - 1] == Init(n - 1).threads;
      NobodyYet(n - 1);
    }
  }

  /** The counts agree with the threads. */
  predicate Counted(s: Link) {
    && (!s.closed ==> s.use.inUse == 1 + Held(s.threads))
    && (s.closed ==> Held(s.threads) <= s.use.inUse <= Held(s.threads) + 1)
    && Waiting(s.threads) == s.use.doPost + s.use.permits
    && WaitersCovered(s.use)
  }

  /** One thread at most is in Close, and it is past the gate exactly when the link is closed. */
  ghost predicate OneCloser(s: Link) {
    && (s.closed <==> exists t | 0 <= t < |s.threads| :: s.threads[t].CloserDone?)
    && (forall t, t' | 0 <= t < t' < |s.threads| :: !(Closing(s.threads[t]) && Closing(s.threads[t'])))
  }

  ghost predicate Inv(s: Link) {
    Counted(s) && OneCloser(s)
  }

  lemma CountedKept(s: Link, step: Step)
    requires Counted(s) && Enabled(s, step) && (step.Gate? ==> !s.closed)
    ensures Counted(Apply(s, step))
  {
    SumsAt(s.threads, step.t, Apply(s, step).threads[step.t]);
    HeldOne(s.threads, step.t);
  }

  lemma OneCloserKept(s: Link, step: Step)
    requires OneCloser(s) && Enabled(s, step)
    ensures OneCloser(Apply(s, step)) && (step.Gate? ==> !s.closed)
  {
    var s' := Apply(s, step);
    if s.closed {
      var t :| 0 <= t < |s.threads| && s.threads[t].CloserDone?;
      assert s'.threads[t].CloserDone?;
    } else if s'.closed {
      assert s'.threads[step.t].CloserDone?;
    }
  }

  lemma InvKept(s: Link, step: Step)
    requires Inv(s) && Enabled(s, step)
    ensures Inv(Apply(s, step))
  {
    OneCloserKept(s, step);
    CountedKept(s, step);
  }

  lemma {:induction false} InvAfter(s: Link, steps: seq<Step>)
    requires Inv(s) && IsRun(s, steps)
    ensures Inv(After(s, steps))
    decreases |steps|
  {
    if steps != [] {
      InvKept(s, steps[0]);
      InvAfter(Apply(s, steps[0]), steps[1..]);
    }
  }

  /** In every run the use count is one more than the references held, until the link is
      closed; before and after, the threads waiting in Serialize are those still to be
      posted plus the permits not yet taken, and when the last other reference is gone
      each of them has its permit, so nobody waits for ever. */
  lemma SerializeReleasesAll(n: nat, steps: seq<Step>)
    requires IsRun(Init(n), steps)
    ensures var s := After(Init(n), steps);
            && (!s.closed ==> s.use.inUse == 1 + Held(s.threads))
            && Waiting(s.threads) == s.use.doPost + s.use.permits
            && WaitersCovered(s.use)
            && (Held(s.threads) == 0 ==> s.use.permits == Waiting(s.threads))
  {
    NobodyYet(n);
    InvAfter(Init(n), steps);
  }

  /** In every run, Close gets past its gate exactly when no thread holds a reference.
      References taken afterwards, which the code does not prevent, are counted up to one. */
  lemma ClosedMeansUnreferenced(n: nat, steps: seq<Step>, t: nat)
    requires IsRun(Init(n), steps)
    ensures var s := After(Init(n), steps);
            && |s.threads| == n
            && (Enabled(s, Gate(t)) ==>
                  && (Apply(s, Gate(t)).closed <==> Held(s.threads) == 0)
                  && (Apply(s, Gate(t)).closed <==> forall i | 0 <= i < n :: Refs(s.threads[i]) == 0))
            && (s.closed ==> Held(s.threads) <= s.use.inUse <= Held(s.threads) + 1)
  {
    NobodyYet(n);
    InvAfter(Init(n), steps);
    SameThreads(Init(n), steps);
    var s := After(Init(n), steps);
    if Held(s.threads) == 0 {
      forall i | 0 <= i < n ensures Refs(s.threads[i]) == 0 {
        HeldOne(s.threads, i);
      }
    } else {
      var i := HeldBy(s.threads);
    }
  }

  lemma {:induction false} HeldBy(ts: seq<Pc>) returns (t: nat)
    requires Held(ts) > 0
    ensures t < |ts| && Refs(ts[t]) > 0
  {
    t := |ts| - 1;
    if Refs(ts[t]) == 0 {
      t := HeldBy(ts[..t]);
    }
  }

  /** A run in which a reference is held after Close has passed its gate. */
  lemma LateReference() returns (steps: seq<Step>)
    ensures IsRun(Init(2), steps)
    ensures var s := After(Init(2), steps); s.closed && |s.threads| == 2 && Refs(s.threads[1]) == 1 && s.use.inUse == 1
  {
    steps := [BeginClose(0), Gate(0), Take(1)];
    var s0 := Init(2);
    var s1 := Apply(s0, BeginClose(0));
    var s2 := Apply(s1, Gate(0));
    var s3 := Apply(s2, Take(1));
    assert steps[1..] == [Gate(0), Take(1)] && steps[1..][1..] == [Take(1)] && steps[1..][1..][1..] == [];
    assert IsRun(s3, []) && After(s3, []) == s3;
    assert IsRun(s2, [Take(1)]) && After(s2, [Take(1)]) == s3;
    assert IsRun(s1, steps[1..]) && After(s1, steps[1..]) == s3;
  }

  // ---------------------------------------------------------------------
  // Nobody is let through while the link is used

  /** Only the caller's own use of the link is left: no thread holds a reference. */
  ghost predicate Alone(s: Link) {
    s.use.inUse == 1 && forall i | 0 <= i < |s.threads| :: Refs(s.threads[i]) == 0
  }

  lemma CountAlone(s: Link)
    requires Counted(s) && !s.closed && s.use.inUse == 1
    ensures Alone(s)
  {
    forall i | 0 <= i < |s.threads| ensures Refs(s.threads[i]) == 0 {
      HeldOne(s.threads, i);
    }
  }

  /** In every run a step posts somebody only if it leaves the count at one and nobody to
      be posted, and, as long as the link is not closed, no reference in anybody's hands. */
  lemma PostsOnlyWhenAlone(n: nat, steps: seq<Step>, step: Step)
    requires IsRun(Init(n), steps) && Enabled(After(Init(n), steps), step)
    ensures var s, s' := After(Init(n), steps), Apply(After(Init(n), steps), step);
            s'.use.permits > s.use.permits ==>
              s'.use.inUse == 1 && s'.use.doPost == 0 && (!s'.closed ==> Alone(s'))
  {
    NobodyYet(n);
    InvAfter(Init(n), steps);
    var s, s' := After(Init(n), steps), Apply(After(Init(n), steps), step);
    InvKept(s, step);
    if s'.use.permits > s.use.permits && !s'.closed {
      CountAlone(s');
    }
  }

  /** At some point of the run the count is one, and before closing nobody holds a reference. */
  ghost predicate EverAlone(s: Link, steps: seq<Step>)
    requires IsRun(s, steps)
    decreases |steps|
  {
    || (s.use.inUse == 1 && (!s.closed ==> Alone(s)))
    || (steps != [] && EverAlone(Apply(s, steps[0]), steps[1..]))
  }

  lemma {:induction false} NoPostNoPermit(s: Link, steps: seq<Step>)
    requires Inv(s) && IsRun(s, steps) && !EverAlone(s, steps)
    ensures After(s, steps).use.permits <= s.use.permits
    decreases |steps|
  {
    if steps != [] {
      var s' := Apply(s, steps[0]);
      InvKept(s, steps[0]);
      if s'.use.inUse == 1 && !s'.closed {
        CountAlone(s');
      }
      NoPostNoPermit(s', steps[1..]);
    }
  }

  /** Whoever comes to Serialize now and has to wait is let through, in whatever run
      follows, only after a point at which nobody used the link. */
  ghost predicate WaitsUntilAlone(s: Link, t: nat)
    requires Enabled(s, Wait(t))
  {
    var s' := Apply(s, Wait(t));
    forall steps: seq<Step> | IsRun(s', steps) && Enabled(After(s', steps), Proceed(t)) :: EverAlone(s', steps)
  }

  /** A wait in Serialize lasts until nobody else uses the link exactly when it begins with
      no permit left untaken: a permit posted for another, who has not yet run, lets the
      newcomer through at once. */
  lemma WaitExact(n: nat, steps: seq<Step>, t: nat)
    requires IsRun(Init(n), steps) && Enabled(After(Init(n), steps), Wait(t)) && MustWait(After(Init(n), steps).use)
    ensures WaitsUntilAlone(After(Init(n), steps), t) <==> After(Init(n), steps).use.permits == 0
  {
    NobodyYet(n);
    InvAfter(Init(n), steps);
    var s := After(Init(n), steps);
    var s' := Apply(s, Wait(t));
    InvKept(s, Wait(t));
    if s.use.permits == 0 {
      forall rest: seq<Step> | IsRun(s', rest) && Enabled(After(s', rest), Proceed(t)) ensures EverAlone(s', rest) {
        if !EverAlone(s', rest) {
          NoPostNoPermit(s', rest);
        }
      }
    } else {
      assert IsRun(s', []) && After(s', []) == s' && Enabled(s', Proceed(t)) && !EverAlone(s', []);
    }
  }

  /** Thread 0's permit has been posted, and thread 1 holds a reference again. */
  lemma PermitWaits() returns (steps: seq<Step>)
    ensures IsRun(Init(3), steps) && After(Init(3), steps) == Link(Use(2, 0, 1), [Waiter(0), Holder(1), Out], false)
  {
    var last, tail := [Take(1)], [Leave(1), Take(1)];
    var s0 := Init(3);
    var s1 := Apply(s0, Take(1));
    var s2 := Apply(s1, Wait(0));
    var s3 := Apply(s2, Leave(1));
    var s4 := Apply(s3, Take(1));
    steps := [Take(1), Wait(0)] + tail;
    assert steps[1..][1..] == tail && tail[1..] == last && last[1..] == [];
    assert IsRun(s4, []) && After(s4, []) == s4;
    assert IsRun(s3, last) && After(s3, last) == s4;
    assert IsRun(s2, tail) && After(s2, tail) == s4;
    assert IsRun(s1, steps[1..]) && After(s1, steps[1..]) == s4;
  }

  /** A run after which thread 2 need not wait for thread 1, which uses the link. */
  lemma PermitTaken() returns (steps: seq<Step>)
    ensures IsRun(Init(3), steps)
    ensures var s := After(Init(3), steps);
            && s.threads == [Waiter(0), Holder(1), Out] && MustWait(s.use)
            && !WaitsUntilAlone(s, 2)
  {
    steps := PermitWaits();
    WaitExact(3, steps, 2);
  }

  // ---------------------------------------------------------------------
  // The link's next connection

  /** Alloc's Reset of a link that has been closed. */
  function Renewed(u: Use): Use {
    FRESH.(permits := u.permits)
  }

  /** A reset leaves every waiting thread its permit exactly when none was still to be
      posted; setRef on the next connection posts none for those left behind. */
  lemma RenewedExact(n: nat, steps: seq<Step>, d: int)
    requires IsRun(Init(n), steps)
    ensures var s := After(Init(n), steps);
            && (Waiting(s.threads) == Renewed(s.use).permits <==> s.use.doPost == 0)
            && RefSet(Renewed(s.use), d).permits == Renewed(s.use).permits
            && (!s.closed && Held(s.threads) == 0 ==> s.use.doPost == 0)
  {
    NobodyYet(n);
    InvAfter(Init(n), steps);
  }

  /** A run in which a thread that came after Close waits for references taken after it,
      and is left without a permit when the link is reset. */
  lemma LateWaiterStranded() returns (steps: seq<Step>)
    ensures IsRun(Init(3), steps)
    ensures var s := After(Init(3), steps);
            && s.closed && |s.threads| == 3 && s.threads[2].Waiter?
            && Waiting(s.threads) > Renewed(s.use).permits
  {
    var tail: seq<Step>, last: seq<Step> := [Take(1), Wait(2)], [Wait(2)];
    var s0 := Init(3);
    var s1 := Apply(s0, BeginClose(0));
    var s2 := Apply(s1, Gate(0));
    var s3 := Apply(s2, Take(1));
    var s4 := Apply(s3, Take(1));
    var s5 := Apply(s4, Wait(2));
    assert s5.use == Use(2, 1, 0) && s5.closed && s5.threads[2].Waiter?;
    steps := [BeginClose(0), Gate(0), Take(1)] + tail;
    assert steps[1..][1..][1..] == tail && tail[1..] == last && last[1..] == [];
    assert IsRun(s5, []) && After(s5, []) == s5;
    assert IsRun(s4, last) && After(s4, last) == s5;
    assert IsRun(s3, tail) && After(s3, tail) == s5;
    assert IsRun(s2, steps[1..][1..]) && After(s2, steps[1..][1..]) == s5;
    assert IsRun(s1, steps[1..]) && After(s1, steps[1..]) == s5;
    RenewedExact(3, steps, 0);
  }

  lemma {:induction false} SameThreads(s: Link, steps: seq<Step>)
    requires IsRun(s, steps)
    ensures |After(s, steps).threads| == |s.threads|
    decreases |steps|
  {
    if steps != [] {
      SameThreads(Apply(s, steps[0]), steps[1..]);
    }
  }
}
