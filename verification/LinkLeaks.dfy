/**
 References that Find takes and nobody drops (XrdLinkCtl.cc, Find): when the link was given
 to another connection between Find's look at it and its setRef, Find goes on with its scan
 and keeps the count it has raised. What that does to the counts, and to that connection.
 */
module LinkLeaks {
  import opened LinkTable
  import opened LinkRuns
  import R = LinkRuns

  /** The step is a setRef by Find on slot i, on another connection than it looked at. */
  predicate Misses(s: State, step: Step, i: nat)
    requires Shape(s) && Enabled(s, step) && i < |s.phases|
  {
    step.Ref? && s.finders[step.f].fd == i && !Counts(Refd(i, s.finders[step.f].ins), i, s.table.slots[i].instance)
  }

  /** How many such references the connection in slot i has after the step, n before. */
  function Leaks(s: State, step: Step, i: nat, n: nat): nat
    requires Shape(s) && Enabled(s, step) && i < |s.phases|
  {
    if step == Hook(i) then 0 else if Misses(s, step, i) then n + 1 else n
  }

  ghost function Leaked(s: State, steps: seq<Step>, i: nat, n: nat, quantum: nat, strict: bool): nat
    requires quantum > 0 && Shape(s) && i < |s.phases| && IsRun(s, steps, quantum, strict)
    decreases |steps|
  {
    if steps == [] then n
    else
      ShapeKept(s, steps[0], quantum, strict);
      NextGrows(s, steps[0], quantum, strict);
      Leaked(Apply(s, steps[0], quantum, strict), steps[1..], i, Leaks(s, steps[0], i, n), quantum, strict)
  }

  /** The count of a link in service is its own use, the other threads' references, the
      finders' references, and n more. */
  ghost predicate ExactAt(s: State, i: nat, n: nat)
    requires Shape(s) && i < |s.phases|
  {
    InService(s.phases[i]) ==>
      s.table.slots[i].inUse == 1 + s.others[i] + Good(s.finders, i, s.table.slots[i].instance) + n
  }

  lemma ExactByTable(s: State, step: Step, i: nat, n: nat, quantum: nat, strict: bool)
    requires quantum > 0 && Shape(s) && Enabled(s, step) && !ByFinder(step) && i < |s.phases|
    requires Sound(s.table, quantum) && ReadsOld(s) && SlotAgrees(s.table.slots[i], s.phases[i]) && ExactAt(s, i, n)
    requires !Apply(s, step, quantum, strict).forgot
    ensures Shape(Apply(s, step, quantum, strict)) && i < |Apply(s, step, quantum, strict).phases|
    ensures ExactAt(Apply(s, step, quantum, strict), i, Leaks(s, step, i, n))
  {
    ShapeKept(s, step, quantum, strict);
    if step.Hook? {
      HookKeeps(s.table, step.fd, quantum);
    }
    var s' := Apply(s, step, quantum, strict);
    if s'.table.slots[i].instance != s.table.slots[i].instance || s'.table.slots[i].instance == 0 {
      GoodNone(s'.finders, i, s'.table.slots[i].instance);
      if s.table.slots[i].instance == 0 {
        GoodNone(s.finders, i, 0);
      }
    }
  }

  lemma ExactByFinder(s: State, step: Step, i: nat, n: nat, quantum: nat, strict: bool)
    requires quantum > 0 && Shape(s) && Enabled(s, step) && ByFinder(step) && i < |s.phases|
    requires SlotAgrees(s.table.slots[i], s.phases[i]) && ExactAt(s, i, n) && HeldCurrent(s)
    requires !Apply(s, step, quantum, strict).stray
    ensures Shape(Apply(s, step, quantum, strict)) && i < |Apply(s, step, quantum, strict).phases|
    ensures ExactAt(Apply(s, step, quantum, strict), i, Leaks(s, step, i, n))
  {
    ShapeKept(s, step, quantum, strict);
    var f, ins := step.f, s.table.slots[i].instance;
    GoodAt(s.finders, f, Apply(s, step, quantum, strict).finders[f], i, ins);
    if Counts(s.finders[f], i, ins) {
      GoodOne(s.finders, f, i, ins);
    }
  }

  lemma CleanBefore(s: State, step: Step, quantum: nat, strict: bool)
    requires quantum > 0 && Shape(s) && Enabled(s, step) && Clean(Apply(s, step, quantum, strict))
    ensures Clean(s)
  {
  }

  lemma ExactKept(s: State, step: Step, i: nat, n: nat, quantum: nat, strict: bool)
    requires quantum > 0 && Shape(s) && Enabled(s, step) && Inv(s, quantum) && i < |s.phases| && ExactAt(s, i, n)
    requires Clean(Apply(s, step, quantum, strict))
    ensures Shape(Apply(s, step, quantum, strict)) && i < |Apply(s, step, quantum, strict).phases|
    ensures ExactAt(Apply(s, step, quantum, strict), i, Leaks(s, step, i, n))
  {
    CleanBefore(s, step, quantum, strict);
    assert SlotAgrees(s.table.slots[i], s.phases[i]);
    if ByFinder(step) {
      ExactByFinder(s, step, i, n, quantum, strict);
    } else {
      ExactByTable(s, step, i, n, quantum, strict);
    }
  }

  lemma {:induction false} CleanThroughout(s: State, steps: seq<Step>, quantum: nat, strict: bool)
    requires quantum > 0 && Shape(s) && IsRun(s, steps, quantum, strict) && Clean(After(s, steps, quantum, strict))
    ensures Clean(s)
    decreases |steps|
  {
    if steps != [] {
      ShapeKept(s, steps[0], quantum, strict);
      CleanThroughout(Apply(s, steps[0], quantum, strict), steps[1..], quantum, strict);
      CleanBefore(s, steps[0], quantum, strict);
    }
  }

  lemma {:induction false} ExactAfter(s: State, steps: seq<Step>, i: nat, n: nat, quantum: nat, strict: bool)
    requires quantum > 0 && Shape(s) && Inv(s, quantum) && i < |s.phases| && ExactAt(s, i, n)
    requires IsRun(s, steps, quantum, strict) && Clean(After(s, steps, quantum, strict))
    ensures |After(s, steps, quantum, strict).phases| == |s.phases|
    ensures ExactAt(After(s, steps, quantum, strict), i, Leaked(s, steps, i, n, quantum, strict))
    decreases |steps|
  {
    if steps != [] {
      var s1 := Apply(s, steps[0], quantum, strict);
      InvKept(s, steps[0], quantum, strict);
      NextGrows(s, steps[0], quantum, strict);
      CleanThroughout(s1, steps[1..], quantum, strict);
      ExactKept(s, steps[0], i, n, quantum, strict);
      ExactAfter(s1, steps[1..], i, Leaks(s, steps[0], i, n), quantum, strict);
    }
  }

  lemma {:induction false} NobodyHolds(s: State, i: nat)
    requires Shape(s) && i < |s.phases|
    ensures Good(s.finders, i, s.table.slots[i].instance) == 0 <==>
              forall f | 0 <= f < |s.finders| :: !Counts(s.finders[f], i, s.table.slots[i].instance)
  {
    var inst := s.table.slots[i].instance;
    if forall f | 0 <= f < |s.finders| :: !Counts(s.finders[f], i, inst) {
      GoodNone(s.finders, i, inst);
    }
    forall f | 0 <= f < |s.finders| && Counts(s.finders[f], i, inst) ensures Good(s.finders, i, inst) > 0 {
      GoodOne(s.finders, f, i, inst);
    }
  }

  /** In every run without the faults that undo protection the count of a link in service is
      exact: its own use, what other threads and finders hold, and one for each time a finder
      raised it having looked at another connection. Close gets past its gate exactly when
      all of these are none. */
  lemma UseExact(maxFD: nat, finders: nat, steps: seq<Step>, quantum: nat, strict: bool, i: nat)
    requires quantum > 0 && Reaches(maxFD, finders, steps, quantum, strict) && i < maxFD
    ensures var s0, s := R.Init(maxFD, finders), Reached(maxFD, finders, steps, quantum, strict);
            && |s.phases| == maxFD && Shape(s0)
            && (Clean(s) ==>
                  var n := Leaked(s0, steps, i, 0, quantum, strict);
                  && ExactAt(s, i, n)
                  && (s.phases[i].Open? ==>
                        (Enabled(s, CloseGate(i)) <==>
                           && s.others[i] == 0 && n == 0
                           && forall f | 0 <= f < |s.finders| :: !Counts(s.finders[f], i, s.table.slots[i].instance))))
  {
    InvInit(maxFD, finders, quantum);
    InvAfter(R.Init(maxFD, finders), steps, quantum, strict);
    SameSlots(R.Init(maxFD, finders), steps, quantum, strict);
    var s := Reached(maxFD, finders, steps, quantum, strict);
    if Clean(s) {
      ExactAfter(R.Init(maxFD, finders), steps, i, 0, quantum, strict);
      NobodyHolds(s, i);
    }
  }

  lemma StaysOpenByTable(s: State, step: Step, i: nat, quantum: nat, strict: bool)
    requires quantum > 0 && Shape(s) && Enabled(s, step) && !ByFinder(step) && i < |s.phases|
    requires s.phases[i].Open? && SlotAgrees(s.table.slots[i], s.phases[i]) && s.table.slots[i].inUse > 1
    requires step.Hook? ==> Sound(s.table, quantum)
    ensures |Apply(s, step, quantum, strict).table.slots| == |Apply(s, step, quantum, strict).phases| == |s.phases|
    ensures Apply(s, step, quantum, strict).phases[i].Open?
    ensures Apply(s, step, quantum, strict).table.slots[i].instance == s.table.slots[i].instance
  {
    if step.Hook? {
      HookKeeps(s.table, step.fd, quantum);
    }
  }

  lemma StaysOpen(s: State, step: Step, i: nat, n: nat, quantum: nat, strict: bool)
    requires quantum > 0 && Shape(s) && Enabled(s, step) && Inv(s, quantum) && i < |s.phases|
    requires s.phases[i].Open? && ExactAt(s, i, n) && n > 0
    ensures Shape(Apply(s, step, quantum, strict))
    ensures i < |Apply(s, step, quantum, strict).phases| && Apply(s, step, quantum, strict).phases[i].Open?
    ensures Apply(s, step, quantum, strict).table.slots[i].instance == s.table.slots[i].instance
    ensures Leaks(s, step, i, n) >= n
  {
    ShapeKept(s, step, quantum, strict);
    assert SlotAgrees(s.table.slots[i], s.phases[i]);
    if ByFinder(step) {
      FindersKeepPhases(s, step, i, quantum, strict);
    } else {
      StaysOpenByTable(s, step, i, quantum, strict);
    }
  }

  lemma {:induction false} LeakedStaysOpen(s: State, more: seq<Step>, i: nat, n: nat, quantum: nat, strict: bool)
    requires quantum > 0 && Shape(s) && Inv(s, quantum) && i < |s.phases|
    requires s.phases[i].Open? && ExactAt(s, i, n) && n > 0
    requires IsRun(s, more, quantum, strict) && Clean(After(s, more, quantum, strict))
    ensures var s' := After(s, more, quantum, strict);
            && |s'.phases| == |s.phases| && s'.phases[i].Open?
            && !Enabled(s', CloseGate(i)) && s'.table.slots[i].instance == s.table.slots[i].instance
    decreases |more|
  {
    if more != [] {
      var s1 := Apply(s, more[0], quantum, strict);
      InvKept(s, more[0], quantum, strict);
      NextGrows(s, more[0], quantum, strict);
      CleanThroughout(s1, more[1..], quantum, strict);
      ExactKept(s, more[0], i, n, quantum, strict);
      StaysOpen(s, more[0], i, n, quantum, strict);
      LeakedStaysOpen(s1, more[1..], i, Leaks(s, more[0], i, n), quantum, strict);
    }
  }

  /** A connection with such a reference is never closed: however a run goes on without the
      faults, Close does not get past its gate. */
  lemma LeakedNeverCloses(maxFD: nat, finders: nat, steps: seq<Step>, more: seq<Step>, quantum: nat, strict: bool,
                          i: nat)
    requires quantum > 0 && Reaches(maxFD, finders, steps, quantum, strict) && i < maxFD
    ensures var s0, s := R.Init(maxFD, finders), Reached(maxFD, finders, steps, quantum, strict);
            && |s.phases| == maxFD && Shape(s0)
            && (s.phases[i].Open? && Leaked(s0, steps, i, 0, quantum, strict) > 0
                && IsRun(s, more, quantum, strict) && Clean(After(s, more, quantum, strict)) ==>
                  var s' := After(s, more, quantum, strict);
                  && |s'.phases| == maxFD && s'.phases[i].Open? && !Enabled(s', CloseGate(i))
                  && s'.table.slots[i].instance == s.table.slots[i].instance)
  {
    UseExact(maxFD, finders, steps, quantum, strict, i);
    InvInit(maxFD, finders, quantum);
    InvAfter(R.Init(maxFD, finders), steps, quantum, strict);
    var s, n := Reached(maxFD, finders, steps, quantum, strict),
      Leaked(R.Init(maxFD, finders), steps, i, 0, quantum, strict);
    if s.phases[i].Open? && n > 0 && IsRun(s, more, quantum, strict) && Clean(After(s, more, quantum, strict)) {
      CleanThroughout(s, more, quantum, strict);
      LeakedStaysOpen(s, more, i, n, quantum, strict);
    }
  }

  /** A finder has looked at a connection that is gone since. */
  lemma LooksAtFirst(strict: bool) returns (run: seq<Step>)
    ensures Leads(R.Init(1, 1), run, One(Slot(true, false, 0, true, 0), 0, 2, Free, [Seen(0, 1)]), strict)
  {
    var s0 := R.Init(1, 1);
    Fresh(1, strict);
    assert seq(1, i => Idle) == [Idle];
    run := DoAlloc(s0, [], One(EMPTY_SLOT, -1, 1, Free, [Idle]), strict);
    run := DoRead(s0, run, One(Slot(true, true, 1, true, 1), 0, 2, Open, [Idle]), 0, strict);
    assert [Idle][0 := Seen(0, 1)] == [Seen(0, 1)];
    run := DoClose(s0, run, One(Slot(true, true, 1, true, 1), 0, 2, Open, [Seen(0, 1)]), strict);
    run := DoUnhook(s0, run, One(Slot(true, true, 0, true, 0), 0, 2, Closing, [Seen(0, 1)]), strict);
  }

  /** The finder finds out, and goes on. */
  lemma DoMiss(s0: State, run: seq<Step>, strict: bool) returns (run': seq<Step>)
    requires Leads(s0, run, One(Slot(true, true, 2, true, 2), 0, 3, Open, [Refd(0, 1)]), strict)
    ensures Leads(s0, run', One(Slot(true, true, 2, true, 2), 0, 3, Open, [Scanning(1)]), strict)
  {
    var s1;
    run', s1 := Go(s0, run, One(Slot(true, true, 2, true, 2), 0, 3, Open, [Refd(0, 1)]), Compare(0), 1, strict);
    assert [Refd(0, 1)][0 := Scanning(1)] == [Scanning(1)];
  }

  /** A run of the code, without any of the faults, after which nobody holds a reference on
      an open link and its count is two. */
  lemma FindLeaks(strict: bool) returns (run: seq<Step>)
    ensures Leads(R.Init(1, 1), run, One(Slot(true, true, 2, true, 2), 0, 3, Open, [Scanning(1)]), strict)
  {
    var s0 := R.Init(1, 1);
    run := LooksAtFirst(strict);
    run := DoAlloc(s0, run, One(Slot(true, false, 0, true, 0), 0, 2, Free, [Seen(0, 1)]), strict);
    run := DoRef(s0, run, One(Slot(true, true, 2, true, 1), 0, 3, Open, [Seen(0, 1)]), 0, strict);
    assert [Seen(0, 1)][0 := Refd(0, 1)] == [Refd(0, 1)];
    run := DoMiss(s0, run, strict);
  }
}
