/**
 The table of links indexed by file descriptor (XrdLinkCtl.cc and XrdLinkCtl.hh):
 which slots hold a link object, which are in use, the high watermark LTLast, and
 the instance numbers. One function per section under a lock.
 */
module LinkTable {
  import opened Wrappers
  import LinkUse

  /** A slot: `present` is LinkTab != 0, `used` is LinkBat; the rest is the link
      object's state. */
  datatype Slot = Slot(present: bool, used: bool, instance: nat, hosted: bool, inUse: int)

  datatype Table = Table(slots: seq<Slot>, last: int, next: nat)

  const EMPTY_SLOT := Slot(false, false, 0, false, 0)

  /** A link object just constructed or Reset. */
  const NEW_LINK := Slot(true, false, 0, false, 1)

  function Init(maxFD: nat): (t: Table) {
    Table(seq(maxFD, i => EMPTY_SLOT), -1, 1)
  }

  predicate InRange(t: Table, fd: int) {
    0 <= fd < |t.slots|
  }

  /** First slot of fd's block of `quantum` slots. */
  function BlockOf(fd: nat, quantum: nat): nat
    requires quantum > 0
  {
    fd / quantum * quantum
  }

  predicate SameBlock(i: nat, k: nat, quantum: nat)
    requires quantum > 0
  {
    i / quantum == k / quantum
  }

  /** The slots once fd's block has been filled with new links. */
  function Filled(slots: seq<Slot>, fd: nat, quantum: nat): (r: seq<Slot>)
    requires quantum > 0
    ensures |r| == |slots|
    ensures forall i | 0 <= i < |slots| :: r[i] == if SameBlock(i, fd, quantum) then NEW_LINK else slots[i]
  {
    seq(|slots|, i requires 0 <= i < |slots| => if SameBlock(i, fd, quantum) then NEW_LINK else slots[i])
  }

  /** Alloc's LTMutex section on a slot not in use. */
  function Hooked(t: Table, fd: nat, quantum: nat): Table
    requires quantum > 0 && InRange(t, fd)
  {
    var slots := if t.slots[fd].present then t.slots else Filled(t.slots, fd, quantum);
    t.(slots := slots[fd := NEW_LINK.(used := true)],
       last := if fd > t.last then fd else t.last)
  }

  /** Alloc's instMutex section. */
  function Issued(t: Table, fd: nat): Table
    requires InRange(t, fd)
  {
    t.(slots := t.slots[fd := t.slots[fd].(instance := t.next)], next := t.next + 1)
  }

  /** Alloc sets the host name, which makes the link visible to Find. */
  function Named(t: Table, fd: nat): Table
    requires InRange(t, fd)
  {
    t.(slots := t.slots[fd := t.slots[fd].(hosted := true)])
  }

  function RefSet(t: Table, fd: nat, d: int): Table
    requires InRange(t, fd)
  {
    t.(slots := t.slots[fd := t.slots[fd].(inUse := LinkUse.CountAfter(t.slots[fd].inUse, d))])
  }

  /** Close past its gate, up to releasing opMutex. */
  function Zeroed(t: Table, fd: nat): Table
    requires InRange(t, fd)
  {
    t.(slots := t.slots[fd := t.slots[fd].(instance := 0, inUse := 0)])
  }

  /** `while(n && !LinkBat[n]) n--`. */
  function Lowered(slots: seq<Slot>, n: nat): nat
    requires n < |slots|
  {
    if n == 0 || slots[n].used then n else Lowered(slots, n - 1)
  }

  function Unhooked(t: Table, fd: nat): Table
    requires InRange(t, fd)
  {
    var slots := t.slots[fd := t.slots[fd].(used := false)];
    t.(slots := slots, last := if fd == t.last then Lowered(slots, fd) else t.last)
  }

  function Abs(n: int): nat {
    if n < 0 then -n else n
  }

  /** fd2link(fd): the slot whose link it returns. */
  function Fd2Link(t: Table, fd: int): (r: Option<nat>)
    requires t.last < |t.slots|
  {
    if Abs(fd) <= t.last && t.slots[Abs(fd)].used then Some(Abs(fd)) else None
  }

  /** fd2link(fd, inst). */
  function Fd2LinkInst(t: Table, fd: int, inst: nat): (r: Option<nat>)
    requires t.last < |t.slots|
  {
    var n := Abs(fd);
    if n <= t.last && t.slots[n].used && t.slots[n].present && t.slots[n].instance == inst then Some(n) else None
  }

  // ---------------------------------------------------------------------
  // What the table keeps

  /** The watermark is -1 before the first Alloc, otherwise the highest slot in use
      or 0 if none is. */
  ghost predicate Watermark(t: Table) {
    && -1 <= t.last < |t.slots|
    && (t.last == -1 <==> forall i | 0 <= i < |t.slots| :: !t.slots[i].present)
    && (forall i | t.last < i < |t.slots| :: !t.slots[i].used)
    && (t.last > 0 ==> t.slots[t.last].used)
  }

  /** Blocks are wholly empty or wholly filled; a used slot has its link. */
  ghost predicate Blocks(t: Table, quantum: nat)
    requires quantum > 0
  {
    && (forall i, k | 0 <= i < |t.slots| && 0 <= k < |t.slots| && SameBlock(i, k, quantum) ::
          t.slots[i].present == t.slots[k].present)
    && (forall i | 0 <= i < |t.slots| :: t.slots[i].used ==> t.slots[i].present)
  }

  /** Instance numbers come from below the counter and are held by one slot. */
  ghost predicate Instances(t: Table) {
    && t.next > 0
    && (forall i | 0 <= i < |t.slots| :: t.slots[i].instance < t.next)
    && (forall i, k | 0 <= i < k < |t.slots| && t.slots[i].instance != 0 :: t.slots[i].instance != t.slots[k].instance)
  }

  ghost predicate Sound(t: Table, quantum: nat)
    requires quantum > 0
  {
    Watermark(t) && Blocks(t, quantum) && Instances(t)
  }

  lemma {:induction false} LoweredIsHighest(slots: seq<Slot>, n: nat)
    requires n < |slots|
    ensures Lowered(slots, n) <= n
    ensures forall i | Lowered(slots, n) < i <= n :: !slots[i].used
    ensures Lowered(slots, n) > 0 ==> slots[Lowered(slots, n)].used
  {
    if n != 0 && !slots[n].used {
      LoweredIsHighest(slots, n - 1);
    }
  }

  lemma HookKeeps(t: Table, fd: nat, quantum: nat)
    requires quantum > 0 && InRange(t, fd) && !t.slots[fd].used
    requires Sound(t, quantum)
    ensures Sound(Hooked(t, fd, quantum), quantum)
    // No link in use is touched: filling a block overwrites nothing.
    ensures forall i | 0 <= i < |t.slots| && i != fd
              && t.slots[i].present :: Hooked(t, fd, quantum).slots[i] == t.slots[i]
  {
    var t' := Hooked(t, fd, quantum);
    assert t'.slots[fd].present;
    assert forall i | 0 <= i < |t.slots| && t.slots[i].used :: t.slots[i].present;
  }

  lemma UnhookKeeps(t: Table, fd: nat, quantum: nat)
    requires quantum > 0 && InRange(t, fd) && t.slots[fd].used
    requires Sound(t, quantum)
    ensures Sound(Unhooked(t, fd), quantum)
  {
    var t' := Unhooked(t, fd);
    if fd == t.last {
      LoweredIsHighest(t'.slots, fd);
    }
    assert t.slots[fd].present && t'.slots[fd].present;
  }

  lemma SlotChangeKeeps(t: Table, fd: nat, s: Slot, next: nat, quantum: nat)
    requires quantum > 0 && InRange(t, fd)
    requires Sound(t, quantum)
    requires s.present == t.slots[fd].present && s.used == t.slots[fd].used
    requires next >= t.next && s.instance < next
    requires s.instance == 0 || s.instance == t.slots[fd].instance || s.instance >= t.next
    ensures Sound(t.(slots := t.slots[fd := s], next := next), quantum)
  {
    var t' := t.(slots := t.slots[fd := s], next := next);
    if t.last != -1 {
      var i :| 0 <= i < |t.slots| && t.slots[i].present;
      assert t'.slots[i].present;
    }
  }

  lemma ChangesKeep(t: Table, fd: nat, d: int, quantum: nat)
    requires quantum > 0 && InRange(t, fd) && Sound(t, quantum)
    ensures Sound(Issued(t, fd), quantum) && Sound(Named(t, fd), quantum)
    ensures Sound(RefSet(t, fd, d), quantum) && Sound(Zeroed(t, fd), quantum)
  {
    SlotChangeKeeps(t, fd, Issued(t, fd).slots[fd], t.next + 1, quantum);
    SlotChangeKeeps(t, fd, Named(t, fd).slots[fd], t.next, quantum);
    SlotChangeKeeps(t, fd, RefSet(t, fd, d).slots[fd], t.next, quantum);
    SlotChangeKeeps(t, fd, Zeroed(t, fd).slots[fd], t.next, quantum);
  }

  /** Use counts in the table are those of LinkUse: after setRef, past Close's gate, and of a
      link that Alloc has hooked. */
  lemma CountsAgree(t: Table, fd: nat, d: int, u: LinkUse.Use, quantum: nat)
    requires quantum > 0 && InRange(t, fd) && t.slots[fd].inUse == u.inUse
    ensures RefSet(t, fd, d).slots[fd] == t.slots[fd].(inUse := LinkUse.RefSet(u, d).inUse)
    ensures u.inUse <= 1 ==> Zeroed(t, fd).slots[fd] == t.slots[fd].(instance := 0, inUse := LinkUse.Closed(u).inUse)
    ensures Hooked(t, fd, quantum).slots[fd] == Slot(true, true, 0, false, LinkUse.Renewed(u).inUse)
  {
  }

  lemma InitSound(maxFD: nat, quantum: nat)
    requires quantum > 0
    ensures Sound(Init(maxFD), quantum)
  {
  }

  /** Looking up a descriptor gives the slot's link exactly when the slot is in use;
      with an instance number, exactly when that link carries it. Both tests on the
      watermark are then redundant. */
  lemma LookupExact(t: Table, fd: int, inst: nat, quantum: nat)
    requires quantum > 0 && Watermark(t) && Blocks(t, quantum)
    ensures Fd2Link(t, fd).Some? <==> Abs(fd) < |t.slots| && t.slots[Abs(fd)].used
    ensures Fd2LinkInst(t, fd, inst).Some? <==>
            Abs(fd) < |t.slots| && t.slots[Abs(fd)].used && t.slots[Abs(fd)].instance == inst
    ensures Fd2LinkInst(t, fd, inst).Some? ==> Fd2LinkInst(t, fd, inst) == Fd2Link(t, fd) == Some(Abs(fd))
  {
  }
}
