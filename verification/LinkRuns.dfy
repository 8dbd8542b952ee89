/**
 Alloc, Close and Find interleaved lock hold by lock hold over the whole link
 table. Find reads a slot under LTMutex, takes its reference under the link's
 opMutex, and only then compares instance numbers; Alloc and Close change a slot
 in several sections of their own.
 */
module LinkRuns {
  import opened LinkTable

  /** How far the connection owning a slot is: none, Alloc has hooked the slot,
      Alloc has issued the instance, Alloc has returned, Close is past its gate. */
  datatype Phase = Free | Hooking | Naming | Open | Closing

  predicate InService(p: Phase) {
    p.Hooking? || p.Naming? || p.Open?
  }

  /** A thread calling Find. Holds: Find returned this slot's link having read that
      instance, and the next call drops the reference. */
  datatype Finder =
    | Idle
    | Scanning(from: nat)
    | Seen(fd: nat, ins: nat)
    | Refd(fd: nat, ins: nat)
    | Holds(fd: nat, ins: nat)

  datatype State = State(
    table: Table,
    phases: seq<Phase>,
    others: seq<nat>,        // references held on each slot's link by other threads
    finders: seq<Finder>,
    loose: bool,             // some Find returned a link having read instance 0
    stray: bool,             // some first call, with cursor 0, dropped a reference it never took
    late: bool,              // some reference was taken on a link not in service
    forgot: bool)            // some Alloc reset the count of a link with references held

  datatype Step =
    | Hook(fd: nat) | Issue(fd: nat) | Name(fd: nat)          // Alloc
    | TakeRef(fd: nat) | DropRef(fd: nat)                     // setRef by other threads
    | CloseGate(fd: nat) | Unhook(fd: nat)                    // Close
    | Start(f: nat) | StartAtZero(f: nat) | Read(f: nat, at: nat) | Ref(f: nat) | Compare(f: nat)   // Find
    | EndScan(f: nat)

  function Init(maxFD: nat, finders: nat): State {
    State(LinkTable.Init(maxFD), seq(maxFD, i => Free), seq(maxFD, i => 0), seq(finders, i => Idle),
          false, false, false, false)
  }

  ghost predicate Shape(s: State) {
    && |s.phases| == |s.others| == |s.table.slots|
    && s.table.last < |s.table.slots|
    && forall f | 0 <= f < |s.finders| && !s.finders[f].Idle? && !s.finders[f].Scanning? :: s.finders[f].fd < |s.phases|
  }

  ghost predicate Enabled(s: State, step: Step)
    requires Shape(s)
  {
    match step
    case Hook(fd) => fd < |s.phases| && !s.table.slots[fd].used
    case Issue(fd) => fd < |s.phases| && s.phases[fd].Hooking?
    case Name(fd) => fd < |s.phases| && s.phases[fd].Naming?
    case TakeRef(fd) => fd < |s.phases| && s.table.slots[fd].present
    case DropRef(fd) => fd < |s.phases| && s.others[fd] > 0
    case CloseGate(fd) => fd < |s.phases| && s.phases[fd].Open? && s.table.slots[fd].inUse <= 1
    case Unhook(fd) => fd < |s.phases| && s.phases[fd].Closing?
    case Start(f) => f < |s.finders| && (s.finders[f].Idle? || s.finders[f].Holds?)
    case StartAtZero(f) => f < |s.finders| && s.finders[f].Idle?
    case Read(f, at) =>
      && f < |s.finders| && s.finders[f].Scanning? && s.finders[f].from <= at <= s.table.last
      && s.table.slots[at].present && s.table.slots[at].used && s.table.slots[at].hosted
    case Ref(f) => f < |s.finders| && s.finders[f].Seen?
    case Compare(f) => f < |s.finders| && s.finders[f].Refd?
    case EndScan(f) => f < |s.finders| && s.finders[f].Scanning?
  }

  /** Whether a first call with cursor 0 finds a link to drop a reference of. */
  predicate Strays(s: State) {
    |s.table.slots| > 0 && s.table.slots[0].present
  }

  /** Find's last test. `strict` adds a test the code does not make. */
  predicate Accepts(s: State, fd: nat, ins: nat, strict: bool)
    requires InRange(s.table, fd)
  {
    ins == s.table.slots[fd].instance && (strict ==> ins != 0)
  }

  predicate ByFinder(step: Step) {
    step.Start? || step.StartAtZero? || step.Read? || step.Ref? || step.Compare? || step.EndScan?
  }

  /** A step of Find: the table, and the finder, after it. */
  function FinderMove(s: State, step: Step, strict: bool): (Table, Finder)
    requires Shape(s) && ByFinder(step) && Enabled(s, step)
  {
    var p := s.finders[step.f];
    match step
    case Start(_) => if p.Holds? then (RefSet(s.table, p.fd, -1), Scanning(p.fd + 1)) else (s.table, Scanning(0))
    case StartAtZero(_) => if Strays(s) then (RefSet(s.table, 0, -1), Scanning(1)) else (s.table, Scanning(0))
    case Read(_, at) => (s.table, Seen(at, s.table.slots[at].instance))
    case Ref(_) => (RefSet(s.table, p.fd, 1), Refd(p.fd, p.ins))
    case Compare(_) => (s.table, if Accepts(s, p.fd, p.ins, strict) then Holds(p.fd, p.ins) else Scanning(p.fd + 1))
    case EndScan(_) => (s.table, Idle)
  }

  function Apply(s: State, step: Step, quantum: nat, strict: bool): State
    requires quantum > 0 && Shape(s) && Enabled(s, step)
  {
    if ByFinder(step) then
      var (t, p) := FinderMove(s, step, strict);
      s.(table := t, finders := s.finders[step.f := p],
         loose := s.loose || (step.Compare? && p.Holds? && p.ins == 0),
         stray := s.stray || (step.StartAtZero? && Strays(s)))
    else
      match step
      case Hook(fd) =>
        s.(table := Hooked(s.table, fd, quantum), phases := s.phases[fd := Hooking],
           forgot := s.forgot || s.others[fd] > 0)
      case Issue(fd) => s.(table := Issued(s.table, fd), phases := s.phases[fd := Naming])
      case Name(fd) => s.(table := Named(s.table, fd), phases := s.phases[fd := Open])
      case TakeRef(fd) =>
        s.(table := RefSet(s.table, fd, 1), others := s.others[fd := s.others[fd] + 1],
           late := s.late || !InService(s.phases[fd]))
      case DropRef(fd) => s.(table := RefSet(s.table, fd, -1), others := s.others[fd := s.others[fd] - 1])
      case CloseGate(fd) => s.(table := Zeroed(s.table, fd), phases := s.phases[fd := Closing])
      case Unhook(fd) => s.(table := Unhooked(s.table, fd), phases := s.phases[fd := Free])
  }

  lemma ShapeKept(s: State, step: Step, quantum: nat, strict: bool)
    requires quantum > 0 && Shape(s) && Enabled(s, step)
    ensures Shape(Apply(s, step, quantum, strict))
    ensures |Apply(s, step, quantum, strict).finders| == |s.finders|
  {
    if step.Unhook? && step.fd == s.table.last {
      LoweredIsHighest(Unhooked(s.table, step.fd).slots, step.fd);
    }
  }

  ghost predicate IsRun(s: State, steps: seq<Step>, quantum: nat, strict: bool)
    requires quantum > 0 && Shape(s)
    decreases |steps|
  {
    steps == [] || (
      && Enabled(s, steps[0])
      && (ShapeKept(s, steps[0], quantum, strict); IsRun(Apply(s, steps[0], quantum, strict), steps[1..], quantum,
          strict)))
  }

  ghost function After(s: State, steps: seq<Step>, quantum: nat, strict: bool): (s': State)
    requires quantum > 0 && Shape(s) && IsRun(s, steps, quantum, strict)
    ensures Shape(s') && |s'.finders| == |s.finders|
    decreases |steps|
  {
    if steps == [] then s
    else
      ShapeKept(s, steps[0], quantum, strict);
      After(Apply(s, steps[0], quantum, strict), steps[1..], quantum, strict)
  }

  // ---------------------------------------------------------------------
  // References that protect

  /** The finder has a reference counted in the slot's current connection. */
  predicate Counts(p: Finder, fd: nat, instance: nat) {
    && instance != 0
    && (p.Refd? || p.Holds?) && p.fd == fd && p.ins == instance
  }

  function Good(ps: seq<Finder>, fd: nat, instance: nat): nat {
    if ps == [] then 0
    else Good(ps[..|ps| - 1], fd, instance) + (if Counts(ps[|ps| - 1], fd, instance) then 1 else 0)
  }

  lemma {:induction false} GoodAt(ps: seq<Finder>, f: nat, p: Finder, fd: nat, instance: nat)
    requires f < |ps|
    ensures Good(ps[f := p], fd, instance) ==
            Good(ps, fd, instance) - (if Counts(ps[f], fd, instance) then 1 else 0)
            + (if Counts(p, fd, instance) then 1 else 0)
  {
    var n := |ps| - 1;
    if f == n {
      assert ps[f := p][..n] == ps[..n];
    } else {
      assert ps[f := p][..n] == ps[..n][f := p];
      GoodAt(ps[..n], f, p, fd, instance);
    }
  }

  lemma {:induction false} GoodNone(ps: seq<Finder>, fd: nat, instance: nat)
    requires forall f | 0 <= f < |ps| :: !Counts(ps[f], fd, instance)
    ensures Good(ps, fd, instance) == 0
  {
    if ps != [] {
      GoodNone(ps[..|ps| - 1], fd, instance);
    }
  }

  lemma {:induction false} GoodOne(ps: seq<Finder>, f: nat, fd: nat, instance: nat)
    requires f < |ps| && Counts(ps[f], fd, instance)
    ensures Good(ps, fd, instance) >= 1
  {
    if f < |ps| - 1 {
      GoodOne(ps[..|ps| - 1], f, fd, instance);
    }
  }

  predicate SlotAgrees(slot: Slot, phase: Phase) {
    && (phase.Free? <==> !slot.used)
    && (slot.instance != 0 <==> phase.Naming? || phase.Open?)
    && (slot.used ==> slot.present)
    && (!slot.present ==> slot.instance == 0)
    && (phase.Hooking? || phase.Naming? ==> !slot.hosted)
  }

  ghost predicate PhasesAgree(s: State)
    requires Shape(s)
  {
    forall i | 0 <= i < |s.phases| :: SlotAgrees(s.table.slots[i], s.phases[i])
  }

  /** The instance a finder read is an old one, and if it is still current it was
      read from a link already open. */
  predicate ReadIsOld(p: Finder, t: Table, phases: seq<Phase>)
    requires |phases| == |t.slots|
    requires !p.Idle? && !p.Scanning? ==> p.fd < |phases|
  {
    !p.Idle? && !p.Scanning? ==>
      && p.ins < t.next
      && (p.ins != 0 && p.ins == t.slots[p.fd].instance ==> phases[p.fd].Open?)
  }

  ghost predicate ReadsOld(s: State)
    requires Shape(s)
  {
    forall f | 0 <= f < |s.finders| :: ReadIsOld(s.finders[f], s.table, s.phases)
  }

  /** The use count of a link in service covers its own use, the other threads'
      references and the finders that count. */
  predicate SlotCovered(slot: Slot, phase: Phase, others: nat, finders: nat) {
    InService(phase) ==> slot.inUse >= 1 + others + finders
  }

  ghost predicate CoveredAt(s: State, i: nat)
    requires Shape(s) && i < |s.phases|
  {
    SlotCovered(s.table.slots[i], s.phases[i], s.others[i], Good(s.finders, i, s.table.slots[i].instance))
  }

  ghost predicate UseCovered(s: State)
    requires Shape(s)
  {
    forall i | 0 <= i < |s.phases| :: CoveredAt(s, i)
  }

  /** Links returned by Find are still the ones it read. */
  ghost predicate HeldCurrent(s: State)
    requires Shape(s)
  {
    forall f | 0 <= f < |s.finders| && s.finders[f].Holds? ::
      s.finders[f].ins != 0 && s.finders[f].ins == s.table.slots[s.finders[f].fd].instance
  }

  lemma SoundKept(s: State, step: Step, quantum: nat, strict: bool)
    requires quantum > 0 && Shape(s) && Enabled(s, step)
    requires Sound(s.table, quantum) && PhasesAgree(s)
    ensures Sound(Apply(s, step, quantum, strict).table, quantum)
  {
    if ByFinder(step) {
      SoundKeptByFinder(s, step, quantum, strict);
    } else {
      SoundKeptByTable(s, step, quantum, strict);
    }
  }

  lemma SoundKeptByTable(s: State, step: Step, quantum: nat, strict: bool)
    requires quantum > 0 && Shape(s) && Enabled(s, step) && !ByFinder(step)
    requires Sound(s.table, quantum) && PhasesAgree(s)
    ensures Sound(Apply(s, step, quantum, strict).table, quantum)
  {
    match step
    case Hook(fd) => HookKeeps(s.table, fd, quantum);
    case Unhook(fd) => UnhookKeeps(s.table, fd, quantum);
    case Issue(fd) => ChangesKeep(s.table, fd, 0, quantum);
    case Name(fd) => ChangesKeep(s.table, fd, 0, quantum);
    case TakeRef(fd) => ChangesKeep(s.table, fd, 1, quantum);
    case DropRef(fd) => ChangesKeep(s.table, fd, -1, quantum);
    case CloseGate(fd) => ChangesKeep(s.table, fd, 0, quantum);
  }

  lemma SoundKeptByFinder(s: State, step: Step, quantum: nat, strict: bool)
    requires quantum > 0 && Shape(s) && Enabled(s, step) && ByFinder(step) && Sound(s.table, quantum)
    ensures Sound(FinderMove(s, step, strict).0, quantum)
  {
    match step
    case Start(f) =>
      if s.finders[f].Holds? {
        ChangesKeep(s.table, s.finders[f].fd, -1, quantum);
      }
    case StartAtZero(f) =>
      if Strays(s) {
        ChangesKeep(s.table, 0, -1, quantum);
      }
    case Ref(f) => ChangesKeep(s.table, s.finders[f].fd, 1, quantum);
    case _ =>
  }

  lemma PhaseKeptByTable(s: State, step: Step, i: nat, quantum: nat, strict: bool)
    requires quantum > 0 && Shape(s) && Enabled(s, step) && !ByFinder(step) && i < |s.phases|
    requires Instances(s.table) && SlotAgrees(s.table.slots[i], s.phases[i])
    requires step.Hook? ==> SlotAgrees(s.table.slots[step.fd], s.phases[step.fd])
    requires forall k: nat | k < |s.phases| && step.Hook? && SameBlock(k, step.fd, quantum) ::
               s.table.slots[k].present == s.table.slots[step.fd].present
    ensures var s' := Apply(s, step, quantum, strict);
            |s'.table.slots| == |s'.phases| == |s.phases| && SlotAgrees(s'.table.slots[i], s'.phases[i])
  {
  }

  lemma PhasesKept(s: State, step: Step, quantum: nat, strict: bool)
    requires quantum > 0 && Shape(s) && Enabled(s, step)
    requires Sound(s.table, quantum) && PhasesAgree(s)
    ensures Shape(Apply(s, step, quantum, strict))
    ensures PhasesAgree(Apply(s, step, quantum, strict))
  {
    ShapeKept(s, step, quantum, strict);
    forall i | 0 <= i < |s.phases|
      ensures var s' := Apply(s, step, quantum, strict);
              |s'.table.slots| == |s'.phases| == |s.phases| && SlotAgrees(s'.table.slots[i], s'.phases[i])
    {
      assert SlotAgrees(s.table.slots[i], s.phases[i]);
      if ByFinder(step) {
        FindersKeepPhases(s, step, i, quantum, strict);
      } else {
        PhaseKeptByTable(s, step, i, quantum, strict);
      }
    }
  }

  /** A finder changes nothing of a slot but its use count. */
  lemma FindersKeepPhases(s: State, step: Step, i: nat, quantum: nat, strict: bool)
    requires quantum > 0 && Shape(s) && Enabled(s, step) && ByFinder(step) && i < |s.phases|
    ensures var s' := Apply(s, step, quantum, strict);
            && s'.phases == s.phases && |s'.table.slots| == |s.table.slots|
            && s'.table.slots[i].(inUse := 0) == s.table.slots[i].(inUse := 0)
  {
  }

  lemma ReadsKept(s: State, step: Step, quantum: nat, strict: bool)
    requires quantum > 0 && Shape(s) && Enabled(s, step)
    requires Sound(s.table, quantum) && PhasesAgree(s) && ReadsOld(s)
    ensures Shape(Apply(s, step, quantum, strict)) && ReadsOld(Apply(s, step, quantum, strict))
  {
    ShapeKept(s, step, quantum, strict);
    if ByFinder(step) {
      ReadsKeptByFinder(s, step, quantum, strict);
    } else {
      if step.Hook? {
        HookKeeps(s.table, step.fd, quantum);
      }
      var s' := Apply(s, step, quantum, strict);
      forall f | 0 <= f < |s'.finders| ensures ReadIsOld(s'.finders[f], s'.table, s'.phases) {
        assert ReadIsOld(s.finders[f], s.table, s.phases);
        if !s.finders[f].Idle? && !s.finders[f].Scanning? {
          assert SlotAgrees(s.table.slots[s.finders[f].fd], s.phases[s.finders[f].fd]);
        }
      }
    }
  }

  lemma ReadKeptByFinder(s: State, step: Step, f: nat, quantum: nat, strict: bool)
    requires quantum > 0 && Shape(s) && Enabled(s, step) && ByFinder(step) && f < |s.finders|
    requires Instances(s.table) && PhasesAgree(s) && ReadIsOld(s.finders[f], s.table, s.phases)
    ensures Shape(Apply(s, step, quantum, strict))
    ensures var s' := Apply(s, step, quantum, strict); ReadIsOld(s'.finders[f], s'.table, s'.phases)
  {
    ShapeKept(s, step, quantum, strict);
    if step.Read? {
      assert SlotAgrees(s.table.slots[step.at], s.phases[step.at]);
    }
  }

  lemma ReadsKeptByFinder(s: State, step: Step, quantum: nat, strict: bool)
    requires quantum > 0 && Shape(s) && Enabled(s, step) && ByFinder(step)
    requires Sound(s.table, quantum) && PhasesAgree(s) && ReadsOld(s)
    ensures Shape(Apply(s, step, quantum, strict)) && ReadsOld(Apply(s, step, quantum, strict))
  {
    ShapeKept(s, step, quantum, strict);
    var s' := Apply(s, step, quantum, strict);
    forall f | 0 <= f < |s'.finders| ensures ReadIsOld(s'.finders[f], s'.table, s'.phases) {
      ReadKeptByFinder(s, step, f, quantum, strict);
    }
  }

  lemma CoveredAtByTable(s: State, step: Step, i: nat, quantum: nat, strict: bool)
    requires quantum > 0 && Shape(s) && Enabled(s, step) && !ByFinder(step) && i < |s.phases|
    requires Sound(s.table, quantum) && ReadsOld(s) && SlotAgrees(s.table.slots[i], s.phases[i]) && CoveredAt(s, i)
    requires !Apply(s, step, quantum, strict).forgot
    ensures Shape(Apply(s, step, quantum, strict)) && CoveredAt(Apply(s, step, quantum, strict), i)
  {
    ShapeKept(s, step, quantum, strict);
    if step.Hook? {
      HookKeeps(s.table, step.fd, quantum);
    }
    var s' := Apply(s, step, quantum, strict);
    if s'.table.slots[i].instance != s.table.slots[i].instance || s'.table.slots[i].instance == 0 {
      GoodNone(s'.finders, i, s'.table.slots[i].instance);
    }
  }

  lemma CoveredByTable(s: State, step: Step, quantum: nat, strict: bool)
    requires quantum > 0 && Shape(s) && Enabled(s, step) && !ByFinder(step)
    requires Sound(s.table, quantum) && PhasesAgree(s) && ReadsOld(s) && UseCovered(s)
    requires !Apply(s, step, quantum, strict).forgot
    ensures Shape(Apply(s, step, quantum, strict)) && UseCovered(Apply(s, step, quantum, strict))
  {
    ShapeKept(s, step, quantum, strict);
    NextGrows(s, step, quantum, strict);
    forall i | 0 <= i < |s.phases| ensures CoveredAt(Apply(s, step, quantum, strict), i) {
      assert SlotAgrees(s.table.slots[i], s.phases[i]) && CoveredAt(s, i);
      CoveredAtByTable(s, step, i, quantum, strict);
    }
  }

  lemma CoveredAtByFinder(s: State, step: Step, i: nat, quantum: nat, strict: bool)
    requires quantum > 0 && Shape(s) && Enabled(s, step) && ByFinder(step) && i < |s.phases|
    requires SlotAgrees(s.table.slots[i], s.phases[i]) && CoveredAt(s, i) && HeldCurrent(s)
    requires !Apply(s, step, quantum, strict).stray
    ensures Shape(Apply(s, step, quantum, strict)) && CoveredAt(Apply(s, step, quantum, strict), i)
  {
    ShapeKept(s, step, quantum, strict);
    var f, ins := step.f, s.table.slots[i].instance;
    GoodAt(s.finders, f, Apply(s, step, quantum, strict).finders[f], i, ins);
    if Counts(s.finders[f], i, ins) {
      GoodOne(s.finders, f, i, ins);
    }
  }

  /** A finder's reference is counted when it is taken in the connection it read,
      and uncounted only when it is dropped. */
  lemma CoveredByFinder(s: State, step: Step, quantum: nat, strict: bool)
    requires quantum > 0 && Shape(s) && Enabled(s, step) && ByFinder(step)
    requires PhasesAgree(s) && UseCovered(s) && HeldCurrent(s) && !Apply(s, step, quantum, strict).stray
    ensures Shape(Apply(s, step, quantum, strict)) && UseCovered(Apply(s, step, quantum, strict))
  {
    ShapeKept(s, step, quantum, strict);
    NextGrows(s, step, quantum, strict);
    forall i | 0 <= i < |s.phases| ensures CoveredAt(Apply(s, step, quantum, strict), i) {
      assert SlotAgrees(s.table.slots[i], s.phases[i]) && CoveredAt(s, i);
      CoveredAtByFinder(s, step, i, quantum, strict);
    }
  }

  /** Steps of the table change no instance that a finder holds a reference on. */
  lemma HeldByTable(s: State, step: Step, f: nat, quantum: nat, strict: bool)
    requires quantum > 0 && Shape(s) && Enabled(s, step) && !ByFinder(step)
    requires Sound(s.table, quantum) && PhasesAgree(s) && UseCovered(s) && HeldCurrent(s)
    requires f < |s.finders| && s.finders[f].Holds?
    ensures Apply(s, step, quantum, strict).table.slots[s.finders[f].fd].instance == s.finders[f].ins
  {
    var fd := s.finders[f].fd;
    assert SlotAgrees(s.table.slots[fd], s.phases[fd]);
    if step.fd == fd {
      assert CoveredAt(s, fd);
      GoodOne(s.finders, f, fd, s.table.slots[fd].instance);
    } else if step.Hook? {
      HookKeeps(s.table, step.fd, quantum);
    }
  }

  lemma FindersKeepInstances(s: State, step: Step, i: nat, quantum: nat, strict: bool)
    requires quantum > 0 && Shape(s) && Enabled(s, step) && ByFinder(step) && i < |s.phases|
    ensures Apply(s, step, quantum, strict).table.slots[i].instance == s.table.slots[i].instance
  {
  }

  lemma HeldByFinder(s: State, step: Step, quantum: nat, strict: bool)
    requires quantum > 0 && Shape(s) && Enabled(s, step) && ByFinder(step) && HeldCurrent(s)
    requires !Apply(s, step, quantum, strict).loose
    ensures Shape(Apply(s, step, quantum, strict)) && HeldCurrent(Apply(s, step, quantum, strict))
  {
    ShapeKept(s, step, quantum, strict);
    var s' := Apply(s, step, quantum, strict);
    forall f | 0 <= f < |s'.finders| && s'.finders[f].Holds?
      ensures s'.finders[f].ins != 0 && s'.finders[f].ins == s'.table.slots[s'.finders[f].fd].instance
    {
      FindersKeepInstances(s, step, s'.finders[f].fd, quantum, strict);
    }
  }

  lemma HeldKept(s: State, step: Step, quantum: nat, strict: bool)
    requires quantum > 0 && Shape(s) && Enabled(s, step)
    requires Sound(s.table, quantum) && PhasesAgree(s) && UseCovered(s) && HeldCurrent(s)
    requires !Apply(s, step, quantum, strict).loose
    ensures Shape(Apply(s, step, quantum, strict)) && HeldCurrent(Apply(s, step, quantum, strict))
  {
    ShapeKept(s, step, quantum, strict);
    if ByFinder(step) {
      HeldByFinder(s, step, quantum, strict);
    } else {
      forall f | 0 <= f < |s.finders| && s.finders[f].Holds?
        ensures Apply(s, step, quantum, strict).table.slots[s.finders[f].fd].instance == s.finders[f].ins
      {
        HeldByTable(s, step, f, quantum, strict);
      }
    }
  }

  /** None of the faults that undo protection has happened. */
  predicate Clean(s: State) {
    !s.loose && !s.stray && !s.forgot
  }

  /** Other threads hold references on links in service only. */
  ghost predicate HeldInService(s: State)
    requires Shape(s)
  {
    forall i | 0 <= i < |s.phases| && s.others[i] > 0 :: InService(s.phases[i])
  }

  lemma InServiceKept(s: State, step: Step, quantum: nat, strict: bool)
    requires quantum > 0 && Shape(s) && Enabled(s, step) && UseCovered(s) && HeldInService(s)
    requires !Apply(s, step, quantum, strict).late
    ensures Shape(Apply(s, step, quantum, strict)) && HeldInService(Apply(s, step, quantum, strict))
  {
    ShapeKept(s, step, quantum, strict);
    if step.CloseGate? {
      assert CoveredAt(s, step.fd);
    }
  }

  /** Every caller's first cursor is negative. */
  predicate NegativeStarts(steps: seq<Step>) {
    forall i | 0 <= i < |steps| :: !steps[i].StartAtZero?
  }

  ghost predicate Inv(s: State, quantum: nat)
    requires quantum > 0 && Shape(s)
  {
    && Sound(s.table, quantum) && PhasesAgree(s) && ReadsOld(s)
    && (Clean(s) ==> UseCovered(s) && HeldCurrent(s))
    && (Clean(s) && !s.late ==> HeldInService(s))
  }

  lemma InvKept(s: State, step: Step, quantum: nat, strict: bool)
    requires quantum > 0 && Shape(s) && Enabled(s, step) && Inv(s, quantum)
    ensures Shape(Apply(s, step, quantum, strict)) && Inv(Apply(s, step, quantum, strict), quantum)
    ensures strict && !s.loose ==> !Apply(s, step, quantum, strict).loose
    ensures !step.StartAtZero? && !s.stray ==> !Apply(s, step, quantum, strict).stray
    ensures Clean(s) && !s.late ==> !Apply(s, step, quantum, strict).forgot
  {
    SoundKept(s, step, quantum, strict);
    PhasesKept(s, step, quantum, strict);
    ReadsKept(s, step, quantum, strict);
    if Clean(Apply(s, step, quantum, strict)) {
      HeldKept(s, step, quantum, strict);
      if ByFinder(step) {
        CoveredByFinder(s, step, quantum, strict);
      } else {
        CoveredByTable(s, step, quantum, strict);
      }
      if !Apply(s, step, quantum, strict).late {
        InServiceKept(s, step, quantum, strict);
      }
    } else if step.Hook? {
      assert SlotAgrees(s.table.slots[step.fd], s.phases[step.fd]);
    }
  }

  lemma {:induction false} InvAfter(s: State, steps: seq<Step>, quantum: nat, strict: bool)
    requires quantum > 0 && Shape(s) && Inv(s, quantum) && IsRun(s, steps, quantum, strict)
    ensures Inv(After(s, steps, quantum, strict), quantum)
    ensures strict && !s.loose ==> !After(s, steps, quantum, strict).loose
    ensures NegativeStarts(steps) && !s.stray ==> !After(s, steps, quantum, strict).stray
    decreases |steps|
  {
    if steps != [] {
      InvKept(s, steps[0], quantum, strict);
      assert forall i | 0 <= i < |steps[1..]| :: steps[1..][i] == steps[i + 1];
      InvAfter(Apply(s, steps[0], quantum, strict), steps[1..], quantum, strict);
    }
  }

  lemma FaultsStay(s: State, step: Step, quantum: nat, strict: bool)
    requires quantum > 0 && Shape(s) && Enabled(s, step)
    ensures var s' := Apply(s, step, quantum, strict); (s.loose ==> s'.loose) && (s.late ==> s'.late)
  {
  }

  /** With the other faults ruled out, no reference is forgotten unless one is taken late. */
  lemma {:induction false} TimelyAfter(s: State, steps: seq<Step>, quantum: nat, strict: bool)
    requires quantum > 0 && Shape(s) && Inv(s, quantum) && IsRun(s, steps, quantum, strict)
    ensures var s' := After(s, steps, quantum, strict);
            && (s.loose ==> s'.loose) && (s.late ==> s'.late)
            && (NegativeStarts(steps) && Clean(s) && !s'.loose && !s'.late ==> !s'.forgot)
    decreases |steps|
  {
    if steps != [] {
      InvKept(s, steps[0], quantum, strict);
      FaultsStay(s, steps[0], quantum, strict);
      assert forall i | 0 <= i < |steps[1..]| :: steps[1..][i] == steps[i + 1];
      TimelyAfter(Apply(s, steps[0], quantum, strict), steps[1..], quantum, strict);
    }
  }

  lemma InvInit(maxFD: nat, finders: nat, quantum: nat)
    requires quantum > 0
    ensures Shape(Init(maxFD, finders)) && Inv(Init(maxFD, finders), quantum)
  {
    InitSound(maxFD, quantum);
    var s := Init(maxFD, finders);
    forall i | 0 <= i < maxFD ensures CoveredAt(s, i) {
      GoodNone(s.finders, i, 0);
    }
  }

  /** A link that Find returned is the connection whose instance Find read, it is in
      service, and it is counted as used by more than its owner, so Close cannot
      pass its gate. */
  ghost predicate Protected(s: State)
    requires Shape(s)
  {
    forall f | 0 <= f < |s.finders| && s.finders[f].Holds? && s.finders[f].ins != 0 ::
      var fd := s.finders[f].fd;
      && s.table.slots[fd].instance == s.finders[f].ins
      && s.phases[fd].Open? && s.table.slots[fd].used
      && s.table.slots[fd].inUse > 1
  }

  ghost predicate Reaches(maxFD: nat, finders: nat, steps: seq<Step>, quantum: nat, strict: bool)
    requires quantum > 0
  {
    InvInit(maxFD, finders, quantum);
    IsRun(Init(maxFD, finders), steps, quantum, strict)
  }

  ghost function Reached(maxFD: nat, finders: nat, steps: seq<Step>, quantum: nat, strict: bool): (s: State)
    requires quantum > 0 && Reaches(maxFD, finders, steps, quantum, strict)
    ensures Shape(s)
  {
    InvInit(maxFD, finders, quantum);
    After(Init(maxFD, finders), steps, quantum, strict)
  }

  lemma InvIsProtected(s: State, quantum: nat)
    requires quantum > 0 && Shape(s) && Inv(s, quantum) && Clean(s)
    ensures Protected(s)
  {
    forall f | 0 <= f < |s.finders| && s.finders[f].Holds?
      ensures var fd := s.finders[f].fd;
              && s.table.slots[fd].instance == s.finders[f].ins
              && s.phases[fd].Open? && s.table.slots[fd].used && s.table.slots[fd].inUse > 1
    {
      var fd := s.finders[f].fd;
      assert SlotAgrees(s.table.slots[fd], s.phases[fd]);
      assert CoveredAt(s, fd);
      GoodOne(s.finders, f, fd, s.table.slots[fd].instance);
    }
  }

  /** In every run of the code in which every first cursor is negative, no Find returned a
      link on instance 0 and no Alloc forgot a reference somebody held, what Find returned
      stays protected until the finder drops it. No reference is forgotten if none is taken
      on a link not in service. */
  lemma FindProtects(maxFD: nat, finders: nat, steps: seq<Step>, quantum: nat)
    requires quantum > 0 && Reaches(maxFD, finders, steps, quantum, false)
    ensures var s := Reached(maxFD, finders, steps, quantum, false);
            NegativeStarts(steps) && !s.loose ==> (!s.forgot ==> Protected(s)) && (!s.late ==> !s.forgot)
  {
    InvInit(maxFD, finders, quantum);
    InvAfter(Init(maxFD, finders), steps, quantum, false);
    TimelyAfter(Init(maxFD, finders), steps, quantum, false);
    var s := Reached(maxFD, finders, steps, quantum, false);
    if NegativeStarts(steps) && !s.loose && !s.forgot {
      InvIsProtected(s, quantum);
    }
  }

  /** In every run the table is sound: the watermark is exact, blocks are whole, and
      fd2link with a non-zero instance finds a slot only while the connection that
      was issued that number owns it. */
  lemma TableSound(maxFD: nat, finders: nat, steps: seq<Step>, quantum: nat, strict: bool, fd: int, inst: nat)
    requires quantum > 0 && Reaches(maxFD, finders, steps, quantum, strict)
    ensures var s := Reached(maxFD, finders, steps, quantum, strict);
            && Watermark(s.table) && Blocks(s.table, quantum) && Instances(s.table)
            && (inst != 0 && Fd2LinkInst(s.table, fd, inst).Some? ==>
                var n := Fd2LinkInst(s.table, fd, inst).value;
                && n == Abs(fd) && (s.phases[n].Naming? || s.phases[n].Open?) && inst < s.table.next
                && forall i | 0 <= i < |s.phases| && i != n :: s.table.slots[i].instance != inst)
  {
    InvInit(maxFD, finders, quantum);
    InvAfter(Init(maxFD, finders), steps, quantum, strict);
    var s := Reached(maxFD, finders, steps, quantum, strict);
    LookupExact(s.table, fd, inst, quantum);
    if Fd2LinkInst(s.table, fd, inst).Some? {
      assert SlotAgrees(s.table.slots[Abs(fd)], s.phases[Abs(fd)]);
    }
  }

  // ---------------------------------------------------------------------
  // Instances over time

  /** The step opens or closes a connection on the slot. */
  predicate Turns(step: Step, i: nat) {
    step == Hook(i) || step == Issue(i) || step == CloseGate(i) || step == Unhook(i)
  }

  lemma ElsewhereStays(s: State, step: Step, i: nat, quantum: nat, strict: bool)
    requires quantum > 0 && Shape(s) && Enabled(s, step) && i < |s.phases| && !ByFinder(step) && step.fd != i
    ensures var inst := Apply(s, step, quantum, strict).table.slots[i].instance;
            inst == s.table.slots[i].instance || inst == 0
  {
  }

  lemma HereStays(s: State, step: Step, quantum: nat, strict: bool)
    requires quantum > 0 && Shape(s) && Enabled(s, step) && !ByFinder(step)
    requires SlotAgrees(s.table.slots[step.fd], s.phases[step.fd])
    ensures var inst := Apply(s, step, quantum, strict).table.slots[step.fd].instance;
            inst == 0 || inst >= s.table.next || (inst == s.table.slots[step.fd].instance && !Turns(step, step.fd))
  {
  }

  predicate NeverTurns(steps: seq<Step>, i: nat) {
    forall k | 0 <= k < |steps| :: !Turns(steps[k], i)
  }

  lemma NeverTurnsCons(steps: seq<Step>, i: nat)
    requires steps != [] && !Turns(steps[0], i) && NeverTurns(steps[1..], i)
    ensures NeverTurns(steps, i)
  {
    assert forall k | 1 <= k < |steps| :: steps[k] == steps[1..][k - 1];
  }

  /** An instance already issued that a slot has after a step, it had before, and the
      step neither opened nor closed a connection there. */
  lemma InstanceStays(s: State, step: Step, i: nat, inst: nat, quantum: nat, strict: bool)
    requires quantum > 0 && Shape(s) && Enabled(s, step) && PhasesAgree(s)
    requires i < |s.phases| && 0 < inst < s.table.next
    requires Apply(s, step, quantum, strict).table.slots[i].instance == inst
    ensures s.table.slots[i].instance == inst && !Turns(step, i)
  {
    if ByFinder(step) {
      FindersKeepInstances(s, step, i, quantum, strict);
    } else if step.fd == i {
      HereStays(s, step, quantum, strict);
    } else {
      ElsewhereStays(s, step, i, quantum, strict);
    }
  }

  lemma NextGrows(s: State, step: Step, quantum: nat, strict: bool)
    requires quantum > 0 && Shape(s) && Enabled(s, step)
    ensures Apply(s, step, quantum, strict).table.next == s.table.next + (if step.Issue? then 1 else 0)
    ensures |Apply(s, step, quantum, strict).phases| == |s.phases|
  {
  }

  lemma {:induction false} InstanceStayed(s: State, more: seq<Step>, i: nat, inst: nat, quantum: nat, strict: bool)
    requires quantum > 0 && Shape(s) && Inv(s, quantum) && IsRun(s, more, quantum, strict)
    requires i < |s.phases| && 0 < inst < s.table.next
    requires i < |After(s, more, quantum, strict).table.slots|
    requires After(s, more, quantum, strict).table.slots[i].instance == inst
    ensures s.table.slots[i].instance == inst && NeverTurns(more, i)
    decreases |more|
  {
    if more != [] {
      InvKept(s, more[0], quantum, strict);
      NextGrows(s, more[0], quantum, strict);
      var s1 := Apply(s, more[0], quantum, strict);
      InstanceStayed(s1, more[1..], i, inst, quantum, strict);
      InstanceStays(s, more[0], i, inst, quantum, strict);
      NeverTurnsCons(more, i);
    }
  }

  /** However a run goes on, fd2link with the same non-zero instance finds the same slot
      or nothing, and when it finds it, no connection was opened or closed there in
      between: it is the connection that was issued the number. */
  lemma LookupOnce(maxFD: nat, finders: nat, steps: seq<Step>, more: seq<Step>, quantum: nat, strict: bool,
                   fd: int, later: int, inst: nat)
    requires quantum > 0 && Reaches(maxFD, finders, steps, quantum, strict)
    ensures var s := Reached(maxFD, finders, steps, quantum, strict);
            && IsRun(s, more, quantum, strict) && inst != 0
            && Fd2LinkInst(s.table, fd, inst).Some?
            && Fd2LinkInst(After(s, more, quantum, strict).table, later, inst).Some? ==>
              Abs(later) == Abs(fd) && NeverTurns(more, Abs(fd))
  {
    InvInit(maxFD, finders, quantum);
    InvAfter(Init(maxFD, finders), steps, quantum, strict);
    var s := Reached(maxFD, finders, steps, quantum, strict);
    if IsRun(s, more, quantum, strict) && inst != 0 && Fd2LinkInst(s.table, fd, inst).Some? {
      SameSlots(s, more, quantum, strict);
      if Fd2LinkInst(After(s, more, quantum, strict).table, later, inst).Some? {
        InstanceStayed(s, more, Abs(later), inst, quantum, strict);
        assert Abs(later) == Abs(fd);
      }
    }
  }

  lemma {:induction false} SameSlots(s: State, more: seq<Step>, quantum: nat, strict: bool)
    requires quantum > 0 && Shape(s) && IsRun(s, more, quantum, strict)
    ensures |After(s, more, quantum, strict).table.slots| == |s.table.slots|
    decreases |more|
  {
    if more != [] {
      ShapeKept(s, more[0], quantum, strict);
      NextGrows(s, more[0], quantum, strict);
      SameSlots(Apply(s, more[0], quantum, strict), more[1..], quantum, strict);
    }
  }

  /** The instance numbers a run issues, in order. */
  ghost function Numbers(s: State, steps: seq<Step>, quantum: nat, strict: bool): seq<nat>
    requires quantum > 0 && Shape(s) && IsRun(s, steps, quantum, strict)
    decreases |steps|
  {
    if steps == [] then []
    else
      ShapeKept(s, steps[0], quantum, strict);
      var rest := Numbers(Apply(s, steps[0], quantum, strict), steps[1..], quantum, strict);
      if steps[0].Issue? then [s.table.next] + rest else rest
  }

  ghost predicate Rising(ns: seq<nat>, first: nat) {
    && (forall i | 0 <= i < |ns| :: ns[i] >= first)
    && (forall i, k | 0 <= i < k < |ns| :: ns[i] < ns[k])
  }

  lemma RisingCons(ns: seq<nat>, first: nat)
    requires Rising(ns, first + 1)
    ensures Rising([first] + ns, first)
  {
  }

  /** No number is issued twice, nor one that was issued before the run. */
  lemma {:induction false} NumbersNeverReused(s: State, steps: seq<Step>, quantum: nat, strict: bool)
    requires quantum > 0 && Shape(s) && IsRun(s, steps, quantum, strict)
    ensures Rising(Numbers(s, steps, quantum, strict), s.table.next)
    decreases |steps|
  {
    if steps != [] {
      ShapeKept(s, steps[0], quantum, strict);
      NextGrows(s, steps[0], quantum, strict);
      var s1 := Apply(s, steps[0], quantum, strict);
      NumbersNeverReused(s1, steps[1..], quantum, strict);
      if steps[0].Issue? {
        RisingCons(Numbers(s1, steps[1..], quantum, strict), s.table.next);
      }
    }
  }

  /** One step of a run, from its end. */
  lemma {:induction false} RunSnoc(s: State, steps: seq<Step>, step: Step, quantum: nat, strict: bool)
    requires quantum > 0 && Shape(s) && IsRun(s, steps, quantum, strict)
    requires Enabled(After(s, steps, quantum, strict), step)
    ensures IsRun(s, steps + [step], quantum, strict)
    ensures After(s, steps + [step], quantum, strict) == Apply(After(s, steps, quantum, strict), step, quantum, strict)
    decreases |steps|
  {
    if steps == [] {
      ShapeKept(s, step, quantum, strict);
      assert [step][1..] == [];
      assert steps + [step] == [step];
      assert IsRun(Apply(s, step, quantum, strict), [], quantum, strict);
    } else {
      ShapeKept(s, steps[0], quantum, strict);
      RunSnoc(Apply(s, steps[0], quantum, strict), steps[1..], step, quantum, strict);
      assert (steps + [step])[1..] == steps[1..] + [step];
    }
  }

  lemma Go(s0: State, run: seq<Step>, s: State, step: Step, quantum: nat, strict: bool)
      returns (run': seq<Step>, s': State)
    requires quantum > 0 && Shape(s0) && IsRun(s0, run, quantum, strict) && s == After(s0, run, quantum, strict)
    requires Enabled(s, step)
    ensures IsRun(s0, run', quantum, strict) && s' == After(s0, run', quantum, strict)
    ensures s' == Apply(s, step, quantum, strict)
    ensures NegativeStarts(run) && !step.StartAtZero? ==> NegativeStarts(run')
  {
    RunSnoc(s0, run, step, quantum, strict);
    run', s' := run + [step], Apply(s, step, quantum, strict);
  }

  /** A table of one slot, no fault so far. */
  function One(slot: Slot, last: int, next: nat, phase: Phase, finders: seq<Finder>): State {
    State(Table([slot], last, next), [phase], [0], finders, false, false, false, false)
  }

  function SlotSet(s: State, slot: Slot, phase: Phase): State {
    s.(table := s.table.(slots := [slot]), phases := [phase])
  }

  /** The run reaches the state, which has one slot, with negative first cursors. */
  ghost predicate Leads(s0: State, run: seq<Step>, s: State, strict: bool) {
    && Shape(s0) && IsRun(s0, run, 1, strict) && s == After(s0, run, 1, strict) && NegativeStarts(run)
    && |s.table.slots| == |s.phases| == |s.others| == 1
  }

  lemma DoHook(s0: State, run: seq<Step>, s: State, strict: bool) returns (run': seq<Step>)
    requires Leads(s0, run, s, strict) && !s.table.slots[0].used && s.table.last <= 0
    ensures Leads(s0, run', SlotSet(s, NEW_LINK.(used := true), Hooking).(
                              table := Table([NEW_LINK.(used := true)], 0, s.table.next),
                              forgot := s.forgot || s.others[0] > 0), strict)
  {
    var s1;
    run', s1 := Go(s0, run, s, Hook(0), 1, strict);
  }

  lemma DoIssue(s0: State, run: seq<Step>, s: State, strict: bool) returns (run': seq<Step>)
    requires Leads(s0, run, s, strict) && s.phases[0].Hooking?
    ensures var t := Table([s.table.slots[0].(instance := s.table.next)], s.table.last, s.table.next + 1);
            Leads(s0, run', s.(table := t, phases := [Naming]), strict)
  {
    var s1;
    run', s1 := Go(s0, run, s, Issue(0), 1, strict);
  }

  lemma DoName(s0: State, run: seq<Step>, s: State, strict: bool) returns (run': seq<Step>)
    requires Leads(s0, run, s, strict) && s.phases[0].Naming?
    ensures Leads(s0, run', SlotSet(s, s.table.slots[0].(hosted := true), Open), strict)
  {
    var s1;
    run', s1 := Go(s0, run, s, Name(0), 1, strict);
  }

  lemma DoClose(s0: State, run: seq<Step>, s: State, strict: bool) returns (run': seq<Step>)
    requires Leads(s0, run, s, strict) && s.phases[0].Open? && s.table.slots[0].inUse <= 1
    ensures Leads(s0, run', SlotSet(s, s.table.slots[0].(instance := 0, inUse := 0), Closing), strict)
  {
    var s1;
    run', s1 := Go(s0, run, s, CloseGate(0), 1, strict);
  }

  lemma DoUnhook(s0: State, run: seq<Step>, s: State, strict: bool) returns (run': seq<Step>)
    requires Leads(s0, run, s, strict) && s.phases[0].Closing? && s.table.last == 0
    ensures Leads(s0, run', SlotSet(s, s.table.slots[0].(used := false), Free), strict)
  {
    var s1;
    run', s1 := Go(s0, run, s, Unhook(0), 1, strict);
  }

  lemma DoTake(s0: State, run: seq<Step>, s: State, strict: bool) returns (run': seq<Step>)
    requires Leads(s0, run, s, strict) && s.table.slots[0].present && s.table.slots[0].inUse >= 0
    ensures Leads(s0, run', SlotSet(s, s.table.slots[0].(inUse := s.table.slots[0].inUse + 1), s.phases[0]).(
                              others := [s.others[0] + 1], late := s.late || !InService(s.phases[0])), strict)
  {
    var s1;
    run', s1 := Go(s0, run, s, TakeRef(0), 1, strict);
    assert s1.phases == [s.phases[0]];
  }

  lemma DoDrop(s0: State, run: seq<Step>, s: State, strict: bool) returns (run': seq<Step>)
    requires Leads(s0, run, s, strict) && s.others[0] > 0 && s.table.slots[0].inUse >= 2
    ensures Leads(s0, run', SlotSet(s, s.table.slots[0].(inUse := s.table.slots[0].inUse - 1), s.phases[0]).(
                              others := [s.others[0] - 1]), strict)
  {
    var s1;
    run', s1 := Go(s0, run, s, DropRef(0), 1, strict);
    assert s1.phases == [s.phases[0]];
  }

  /** A finder's first call, up to reading the slot. */
  lemma DoRead(s0: State, run: seq<Step>, s: State, f: nat, strict: bool) returns (run': seq<Step>)
    requires Leads(s0, run, s, strict) && f < |s.finders| && s.finders[f].Idle? && s.table.last == 0
    requires s.table.slots[0].present && s.table.slots[0].used && s.table.slots[0].hosted
    ensures Leads(s0, run', s.(finders := s.finders[f := Seen(0, s.table.slots[0].instance)]), strict)
  {
    var s1, s2;
    run', s1 := Go(s0, run, s, Start(f), 1, strict);
    run', s2 := Go(s0, run', s1, Read(f, 0), 1, strict);
    assert s2.finders == s.finders[f := Seen(0, s.table.slots[0].instance)];
  }

  lemma DoRef(s0: State, run: seq<Step>, s: State, f: nat, strict: bool) returns (run': seq<Step>)
    requires Leads(s0, run, s, strict) && f < |s.finders| && s.finders[f].Seen? && s.finders[f].fd == 0
    requires s.table.slots[0].inUse >= 0
    ensures Leads(s0, run', SlotSet(s, s.table.slots[0].(inUse := s.table.slots[0].inUse + 1), s.phases[0]).(
                              finders := s.finders[f := Refd(0, s.finders[f].ins)]), strict)
  {
    var s1;
    run', s1 := Go(s0, run, s, Ref(f), 1, strict);
    assert s1.phases == [s.phases[0]];
  }

  lemma DoCompare(s0: State, run: seq<Step>, s: State, f: nat, strict: bool) returns (run': seq<Step>)
    requires Leads(s0, run, s, strict) && f < |s.finders| && s.finders[f] == Refd(0, s.table.slots[0].instance)
    requires strict ==> s.table.slots[0].instance != 0
    ensures Leads(s0, run', s.(finders := s.finders[f := Holds(0, s.table.slots[0].instance)],
                               loose := s.loose || s.table.slots[0].instance == 0), strict)
  {
    var s1;
    run', s1 := Go(s0, run, s, Compare(f), 1, strict);
  }

  /** The next call of a finder that was given the link. */
  lemma DoNext(s0: State, run: seq<Step>, s: State, f: nat, strict: bool) returns (run': seq<Step>)
    requires Leads(s0, run, s, strict) && f < |s.finders| && s.finders[f].Holds? && s.finders[f].fd == 0
    requires s.table.slots[0].inUse >= 2
    ensures Leads(s0, run', SlotSet(s, s.table.slots[0].(inUse := s.table.slots[0].inUse - 1), s.phases[0]).(
                              finders := s.finders[f := Scanning(1)]), strict)
  {
    var s1;
    run', s1 := Go(s0, run, s, Start(f), 1, strict);
    assert s1.phases == [s.phases[0]];
  }

  /** A new connection. */
  lemma DoAlloc(s0: State, run: seq<Step>, s: State, strict: bool) returns (run': seq<Step>)
    requires Leads(s0, run, s, strict) && !s.table.slots[0].used && s.table.last <= 0
    ensures Leads(s0, run', s.(table := Table([Slot(true, true, s.table.next, true, 1)], 0, s.table.next + 1),
                               phases := [Open], forgot := s.forgot || s.others[0] > 0), strict)
  {
    run' := DoHook(s0, run, s, strict);
    var s1 := s.(table := Table([NEW_LINK.(used := true)], 0, s.table.next), phases := [Hooking],
                 forgot := s.forgot || s.others[0] > 0);
    run' := DoIssue(s0, run', s1, strict);
    var s2 := s1.(table := Table([NEW_LINK.(used := true, instance := s.table.next)], 0, s.table.next + 1),
                  phases := [Naming]);
    run' := DoName(s0, run', s2, strict);
  }

  /** A finder is given the link. */
  lemma DoFind(s0: State, run: seq<Step>, s: State, f: nat, strict: bool) returns (run': seq<Step>)
    requires Leads(s0, run, s, strict) && f < |s.finders| && s.finders[f].Idle? && s.table.last == 0
    requires s.table.slots[0].present && s.table.slots[0].used && s.table.slots[0].hosted && s.table.slots[0].inUse >= 0
    requires strict ==> s.table.slots[0].instance != 0
    ensures Leads(s0, run', SlotSet(s, s.table.slots[0].(inUse := s.table.slots[0].inUse + 1), s.phases[0]).(
                              finders := s.finders[f := Holds(0, s.table.slots[0].instance)],
                              loose := s.loose || s.table.slots[0].instance == 0), strict)
  {
    var inst := s.table.slots[0].instance;
    run' := DoRead(s0, run, s, f, strict);
    var s1 := s.(finders := s.finders[f := Seen(0, inst)]);
    run' := DoRef(s0, run', s1, f, strict);
    assert s1.finders[f := Refd(0, inst)] == s.finders[f := Refd(0, inst)];
    var s2 := SlotSet(s, s.table.slots[0].(inUse := s.table.slots[0].inUse + 1), s.phases[0]).(
                finders := s.finders[f := Refd(0, inst)]);
    run' := DoCompare(s0, run', s2, f, strict);
    assert s2.finders[f := Holds(0, inst)] == s.finders[f := Holds(0, inst)];
  }

  /** A first connection, given to finder 0 of two. */
  lemma DoFirst(s0: State, strict: bool) returns (run: seq<Step>)
    requires Leads(s0, [], One(EMPTY_SLOT, -1, 1, Free, [Idle, Idle]), strict)
    ensures Leads(s0, run, One(Slot(true, true, 1, true, 2), 0, 2, Open, [Holds(0, 1), Idle]), strict)
  {
    run := DoAlloc(s0, [], One(EMPTY_SLOT, -1, 1, Free, [Idle, Idle]), strict);
    run := DoFind(s0, run, One(Slot(true, true, 1, true, 1), 0, 2, Open, [Idle, Idle]), 0, strict);
    assert [Idle, Idle][0 := Holds(0, 1)] == [Holds(0, 1), Idle];
  }

  /** Another first call, with cursor 0, drops the reference. */
  lemma DoStray(s0: State, run: seq<Step>, strict: bool) returns (run': seq<Step>)
    requires Leads(s0, run, One(Slot(true, true, 1, true, 2), 0, 2, Open, [Holds(0, 1), Idle]), strict)
    ensures IsRun(s0, run', 1, strict)
    ensures After(s0, run', 1, strict) ==
            One(Slot(true, true, 1, true, 1), 0, 2, Open, [Holds(0, 1), Scanning(1)]).(stray := true)
  {
    var s := One(Slot(true, true, 1, true, 2), 0, 2, Open, [Holds(0, 1), Idle]);
    var s1;
    run', s1 := Go(s0, run, s, StartAtZero(1), 1, strict);
    assert [Holds(0, 1), Idle][1 := Scanning(1)] == [Holds(0, 1), Scanning(1)];
  }

  lemma Fresh(finders: nat, strict: bool)
    ensures Leads(Init(1, finders), [], One(EMPTY_SLOT, -1, 1, Free, seq(finders, i => Idle)), strict)
  {
    assert Init(1, finders) == One(EMPTY_SLOT, -1, 1, Free, seq(finders, i => Idle));
  }

  /** The first connection is past Close's gate when finder 0 gets its link. */
  lemma FindClosingLink() returns (run: seq<Step>)
    ensures Leads(Init(1, 2), run,
                  One(Slot(true, false, 0, true, 1), 0, 2, Free, [Holds(0, 0), Idle]).(loose := true), false)
  {
    var s0 := Init(1, 2);
    Fresh(2, false);
    assert seq(2, i => Idle) == [Idle, Idle];
    run := DoAlloc(s0, [], One(EMPTY_SLOT, -1, 1, Free, [Idle, Idle]), false);
    run := DoClose(s0, run, One(Slot(true, true, 1, true, 1), 0, 2, Open, [Idle, Idle]), false);
    run := DoFind(s0, run, One(Slot(true, true, 0, true, 0), 0, 2, Closing, [Idle, Idle]), 0, false);
    assert [Idle, Idle][0 := Holds(0, 0)] == [Holds(0, 0), Idle];
    run := DoUnhook(s0, run, One(Slot(true, true, 0, true, 1), 0, 2, Closing, [Holds(0, 0), Idle]).(loose := true),
        false);
  }

  /** The descriptor is reused, and finder 1 is given the new connection. */
  lemma FindReusedLink() returns (run: seq<Step>)
    ensures Leads(Init(1, 2), run,
                  One(Slot(true, true, 2, true, 2), 0, 3, Open, [Holds(0, 0), Holds(0, 2)]).(loose := true), false)
  {
    var s0, fs := Init(1, 2), [Holds(0, 0), Idle];
    run := FindClosingLink();
    run := DoAlloc(s0, run, One(Slot(true, false, 0, true, 1), 0, 2, Free, fs).(loose := true), false);
    run := DoFind(s0, run, One(Slot(true, true, 2, true, 1), 0, 3, Open, fs).(loose := true), 1, false);
    assert fs[1 := Holds(0, 2)] == [Holds(0, 0), Holds(0, 2)];
  }

  /** A run of the code, every first cursor being negative, in which a finder that was
      given a link on instance 0 drops, on the next connection of that descriptor, the
      reference another finder relies on; that connection is then closed while the other
      finder still holds it. */
  lemma LooseFinderUnprotects() returns (steps: seq<Step>)
    ensures Reaches(1, 2, steps, 1, false) && NegativeStarts(steps)
    ensures var s := Reached(1, 2, steps, 1, false);
            && s.loose && !s.stray && !s.forgot
            && s.finders[1] == Holds(0, 2) && s.phases[0].Closing? && !Protected(s)
  {
    var s0, fs := Init(1, 2), [Holds(0, 0), Holds(0, 2)];
    steps := FindReusedLink();
    steps := DoNext(s0, steps, One(Slot(true, true, 2, true, 2), 0, 3, Open, fs).(loose := true), 0, false);
    assert fs[0 := Scanning(1)] == [Scanning(1), Holds(0, 2)];
    var s := One(Slot(true, true, 2, true, 1), 0, 3, Open, [Scanning(1), Holds(0, 2)]).(loose := true);
    steps := DoClose(s0, steps, s, false);
    s := After(s0, steps, 1, false);
    assert s.finders[1] == Holds(0, 2) && s.table.slots[0].instance == 0;
  }

  /** A run, with or without the test of instance 0, in which a first call with cursor 0
      drops the reference of another finder, and the link is closed under it. */
  lemma StrayFinderUnprotects(strict: bool) returns (steps: seq<Step>)
    ensures Reaches(1, 2, steps, 1, strict)
    ensures var s := Reached(1, 2, steps, 1, strict);
            && !s.loose && s.stray && !s.forgot
            && s.finders[0] == Holds(0, 1) && s.phases[0].Closing? && !Protected(s)
  {
    var s0 := Init(1, 2);
    Fresh(2, strict);
    assert seq(2, i => Idle) == [Idle, Idle];
    steps := DoFirst(s0, strict);
    steps := DoStray(s0, steps, strict);
    var s := One(Slot(true, true, 1, true, 1), 0, 2, Open, [Holds(0, 1), Scanning(1)]).(stray := true);
    steps, s := Go(s0, steps, s, CloseGate(0), 1, strict);
    assert s.finders[0] == Holds(0, 1) && s.table.slots[0].instance == 0;
  }

  /** The link while a reference from before its reuse is held. */
  function Kept(slot: Slot, next: nat, phase: Phase, f: Finder, others: nat, forgot: bool): State {
    One(slot, 0, next, phase, [f]).(others := [others], late := true, forgot := forgot)
  }

  lemma CloseAndTake(s0: State, run: seq<Step>, strict: bool) returns (run': seq<Step>)
    requires Leads(s0, run, One(Slot(true, true, 1, true, 1), 0, 2, Open, [Idle]), strict)
    ensures Leads(s0, run', Kept(Slot(true, true, 0, true, 1), 2, Closing, Idle, 1, false), strict)
  {
    run' := DoClose(s0, run, One(Slot(true, true, 1, true, 1), 0, 2, Open, [Idle]), strict);
    run' := DoTake(s0, run', One(Slot(true, true, 0, true, 0), 0, 2, Closing, [Idle]), strict);
  }

  /** A reference is taken between Close's gate and Unhook, and still held when the
      descriptor is used again. */
  lemma ReuseForgets(s0: State, strict: bool) returns (run: seq<Step>)
    requires Leads(s0, [], One(EMPTY_SLOT, -1, 1, Free, [Idle]), strict)
    ensures Leads(s0, run, Kept(Slot(true, true, 2, true, 1), 3, Open, Idle, 1, true), strict)
  {
    run := DoAlloc(s0, [], One(EMPTY_SLOT, -1, 1, Free, [Idle]), strict);
    run := CloseAndTake(s0, run, strict);
    run := DoUnhook(s0, run, Kept(Slot(true, true, 0, true, 1), 2, Closing, Idle, 1, false), strict);
    run := DoAlloc(s0, run, Kept(Slot(true, false, 0, true, 1), 2, Free, Idle, 1, false), strict);
  }

  /** A finder is given the reused link. */
  lemma FindKept(s0: State, run: seq<Step>, strict: bool) returns (run': seq<Step>)
    requires Leads(s0, run, Kept(Slot(true, true, 2, true, 1), 3, Open, Idle, 1, true), strict)
    ensures Leads(s0, run', Kept(Slot(true, true, 2, true, 2), 3, Open, Holds(0, 2), 1, true), strict)
  {
    run' := DoFind(s0, run, Kept(Slot(true, true, 2, true, 1), 3, Open, Idle, 1, true), 0, strict);
    assert [Idle][0 := Holds(0, 2)] == [Holds(0, 2)];
  }

  /** The old reference is dropped, and the link closed. */
  lemma CloseKept(s0: State, run: seq<Step>, strict: bool) returns (run': seq<Step>)
    requires Leads(s0, run, Kept(Slot(true, true, 2, true, 2), 3, Open, Holds(0, 2), 1, true), strict)
    ensures Leads(s0, run', Kept(Slot(true, true, 0, true, 0), 3, Closing, Holds(0, 2), 0, true), strict)
  {
    run' := DoDrop(s0, run, Kept(Slot(true, true, 2, true, 2), 3, Open, Holds(0, 2), 1, true), strict);
    run' := DoClose(s0, run', Kept(Slot(true, true, 2, true, 1), 3, Open, Holds(0, 2), 0, true), strict);
  }

  /** A run, with or without the test of instance 0 and with negative first cursors, in
      which the reset of a reused link forgets a reference; dropping it undoes a finder's,
      and the link is closed under the finder. */
  lemma LateReferenceUnprotects(strict: bool) returns (steps: seq<Step>)
    ensures Reaches(1, 1, steps, 1, strict) && NegativeStarts(steps)
    ensures var s := Reached(1, 1, steps, 1, strict);
            && !s.loose && !s.stray && s.forgot
            && s.finders[0] == Holds(0, 2) && s.phases[0].Closing? && !Protected(s)
  {
    var s0 := Init(1, 1);
    Fresh(1, strict);
    assert seq(1, i => Idle) == [Idle];
    steps := ReuseForgets(s0, strict);
    steps := FindKept(s0, steps, strict);
    steps := CloseKept(s0, steps, strict);
    var s := After(s0, steps, 1, strict);
    assert s.finders[0] == Holds(0, 2) && s.table.slots[0].instance == 0;
  }

  /** Every run, from any table and any number of finders, leaves what Find returned
      protected; `negative` asks it of runs with negative first cursors only, `timely` of
      runs in which no reference is held while its link is given to the next connection. */
  ghost predicate AlwaysProtects(strict: bool, negative: bool, timely: bool) {
    forall maxFD: nat, finders: nat, quantum: nat, steps: seq<Step> |
      && quantum > 0 && Reaches(maxFD, finders, steps, quantum, strict)
      && (negative ==> NegativeStarts(steps))
      && (timely ==> !Reached(maxFD, finders, steps, quantum, strict).forgot) ::
      Protected(Reached(maxFD, finders, steps, quantum, strict))
  }

  /** Find protects what it returns exactly when it refuses links read with instance 0,
      which the code does not do, every first cursor is negative, which its documentation
      does not ask for, and references do not outlive their connection, which setRef does
      not see to. */
  lemma FindGuardExact(strict: bool, negative: bool, timely: bool)
    ensures AlwaysProtects(strict, negative, timely) <==> strict && negative && timely
  {
    if strict && negative && timely {
      forall maxFD: nat, finders: nat, quantum: nat, steps: seq<Step> |
        && quantum > 0 && Reaches(maxFD, finders, steps, quantum, strict) && NegativeStarts(steps)
        && !Reached(maxFD, finders, steps, quantum, strict).forgot
        ensures Protected(Reached(maxFD, finders, steps, quantum, strict))
      {
        InvInit(maxFD, finders, quantum);
        InvAfter(Init(maxFD, finders), steps, quantum, strict);
        InvIsProtected(Reached(maxFD, finders, steps, quantum, strict), quantum);
      }
    } else if !negative {
      var steps := StrayFinderUnprotects(strict);
      assert Reaches(1, 2, steps, 1, strict);
    } else if !timely {
      var steps := LateReferenceUnprotects(strict);
      assert Reaches(1, 1, steps, 1, strict);
    } else {
      var steps := LooseFinderUnprotects();
      assert Reaches(1, 2, steps, 1, strict);
    }
  }
}
