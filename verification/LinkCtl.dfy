/**
 The link table object: the arrays LinkTab and LinkBat, the watermark and the
 instance counter, updated in place (XrdLinkCtl.cc). Each method is one section
 under a lock and is proved to change the table as LinkTable says; Alloc and Find
 are put together from them for a caller that is not interleaved.
 */
module LinkCtl {
  import opened LinkTable
  import LinkUse

  class Link {
    var instance: nat
    var hosted: bool
    var inUse: int

    constructor ()
      ensures instance == 0 && !hosted && inUse == 1
    {
      instance, hosted, inUse := 0, false, 1;
    }

    /** Reset. */
    method Clear()
      modifies this
      ensures instance == 0 && !hosted && inUse == 1
    {
      instance, hosted, inUse := 0, false, 1;
    }

    method SetRef(use: int)
      modifies `inUse
      ensures inUse == LinkUse.CountAfter(old(inUse), use)
    {
      inUse := inUse + use;
      if inUse < 1 {
        inUse := 1;
      }
    }
  }

  /** What the table says about a slot. */
  ghost function SlotOf(lp: Link?, used: bool): Slot
    reads lp
  {
    if lp == null then EMPTY_SLOT.(used := used) else Slot(true, used, lp.instance, lp.hosted, lp.inUse)
  }

  lemma MulMono(a: int, b: int, q: nat)
    requires a <= b
    ensures a * q <= b * q
  {
  }

  /** i is in block b exactly when it lies between the block's ends. */
  lemma DivIs(i: nat, b: nat, q: nat)
    requires q > 0
    ensures i / q == b <==> b * q <= i < b * q + q
  {
    var d := i / q;
    assert i == d * q + i % q;
    if d < b {
      MulMono(d + 1, b, q);
    } else if d > b {
      MulMono(b + 1, d, q);
    }
  }

  lemma BlockBelow(b: nat, n: nat, q: nat)
    requires b * q < n * q
    ensures b * q + q <= n * q
  {
    if b >= n {
      MulMono(n, b, q);
    } else {
      MulMono(b + 1, n, q);
    }
  }

  /** fd's block, where the table is a whole number of blocks long. */
  lemma BlockFits(fd: nat, maxFD: nat, q: nat)
    requires q > 0 && maxFD % q == 0 && fd < maxFD
    ensures BlockOf(fd, q) <= fd < BlockOf(fd, q) + q <= maxFD
    ensures forall i: nat :: SameBlock(i, fd, q) <==> BlockOf(fd, q) <= i < BlockOf(fd, q) + q
  {
    DivIs(fd, fd / q, q);
    assert maxFD == maxFD / q * q;
    BlockBelow(fd / q, maxFD / q, q);
    forall i: nat ensures SameBlock(i, fd, q) <==> BlockOf(fd, q) <= i < BlockOf(fd, q) + q {
      DivIs(i, fd / q, q);
    }
  }

  class XrdLinkCtl {
    const linkAlloc: nat
    const linkTab: array<Link?>
    const linkBat: array<bool>
    var ltLast: int
    var myInstance: nat
    ghost var table: Table

    /** The slots as the arrays have them. */
    ghost predicate Shows(slots: seq<Slot>)
      reads linkTab, linkBat, linkTab[..]
    {
      && linkTab.Length == linkBat.Length == |slots|
      && (forall i | 0 <= i < linkTab.Length :: SlotOf(linkTab[i], linkBat[i]) == slots[i])
      && (forall i, k | 0 <= i < k < linkTab.Length && linkTab[i] != null :: linkTab[i] != linkTab[k])
    }

    /** The arrays are what `table` says, each link is in one slot, and the table is
        a whole number of blocks long. */
    ghost predicate Valid()
      reads this, linkTab, linkBat, linkTab[..]
    {
      && linkAlloc > 0 && linkTab.Length % linkAlloc == 0
      && ltLast == table.last && myInstance == table.next
      && Shows(table.slots) && Sound(table, linkAlloc)
    }

    constructor (maxFD: nat, quantum: nat)
      requires quantum > 0 && maxFD % quantum == 0
      ensures Valid() && fresh(linkTab) && fresh(linkBat)
      ensures table == Init(maxFD) && linkAlloc == quantum
    {
      linkAlloc := quantum;
      linkTab := new Link?[maxFD](i => null);
      linkBat := new bool[maxFD](i => false);
      ltLast, myInstance := -1, 1;
      table := Init(maxFD);
      InitSound(maxFD, quantum);
    }

    /** Fills fd's block with new links, as Alloc does for an empty slot. */
    method FillBlock(fd: nat)
      requires Valid() && fd < linkTab.Length
      modifies linkTab
      ensures forall i | 0 <= i < linkTab.Length ::
                if SameBlock(i, fd, linkAlloc) then linkTab[i] != null && fresh(linkTab[i])
                    && SlotOf(linkTab[i], false) == NEW_LINK
                else linkTab[i] == old(linkTab[i])
      ensures forall i, k | 0 <= i < k < linkTab.Length && linkTab[i] != null :: linkTab[i] != linkTab[k]
    {
      BlockFits(fd, linkTab.Length, linkAlloc);
      var base := fd / linkAlloc * linkAlloc;
      var n := 0;
      while n < linkAlloc
        invariant n <= linkAlloc
        invariant forall i | base <= i < base + n ::
                    linkTab[i] != null && fresh(linkTab[i]) && SlotOf(linkTab[i], false) == NEW_LINK
        invariant forall i | 0 <= i < linkTab.Length && !(base <= i < base + n) :: linkTab[i] == old(linkTab[i])
        invariant forall i, k | 0 <= i < k < linkTab.Length && linkTab[i] != null :: linkTab[i] != linkTab[k]
      {
        linkTab[base + n] := new Link();
        n := n + 1;
      }
    }

    /** The link object for the slot: a new block of them, or the old one reset. */
    method Provide(fd: nat)
      requires Valid() && fd < linkTab.Length && !table.slots[fd].used
      modifies linkTab, linkTab[fd]
      ensures linkTab[fd] != null && (old(linkTab[fd]) != null ==> linkTab[fd] == old(linkTab[fd]))
      ensures old(linkTab[fd]) == null ==> fresh(linkTab[fd])
      ensures Shows((if table.slots[fd].present then table.slots
                else Filled(table.slots, fd, linkAlloc))[fd := NEW_LINK])
    {
      assert SlotOf(linkTab[fd], linkBat[fd]) == table.slots[fd];
      if linkTab[fd] == null {
        assert forall i | 0 <= i < linkTab.Length && SameBlock(i, fd, linkAlloc) ::
            !table.slots[i].present && !table.slots[i].used && SlotOf(linkTab[i], linkBat[i]) == table.slots[i];
        FillBlock(fd);
      } else {
        linkTab[fd].Clear();
      }
    }

    method SetBat(fd: nat, used: bool, ghost slots: seq<Slot>)
      requires fd < linkBat.Length && Shows(slots)
      modifies linkBat
      ensures Shows(slots[fd := slots[fd].(used := used)])
    {
      assert SlotOf(linkTab[fd], linkBat[fd]) == slots[fd];
      linkBat[fd] := used;
    }

    /** Alloc under LTMutex, the slot not being in use. */
    method Hook(fd: nat)
      requires Valid() && fd < linkTab.Length && !table.slots[fd].used
      modifies this, linkTab, linkBat, linkTab[fd]
      ensures Valid()
      ensures table == Hooked(old(table), fd, linkAlloc)
      ensures linkTab[fd] != null && (old(linkTab[fd]) != null ==> linkTab[fd] == old(linkTab[fd]))
      ensures old(linkTab[fd]) == null ==> fresh(linkTab[fd])
    {
      ghost var t' := Hooked(table, fd, linkAlloc);
      ghost var ready := (if table.slots[fd].present then table.slots
          else Filled(table.slots, fd, linkAlloc))[fd := NEW_LINK];
      assert t'.slots == ready[fd := ready[fd].(used := true)];
      HookKeeps(table, fd, linkAlloc);
      Provide(fd);
      SetBat(fd, true, ready);
      if fd > ltLast {
        ltLast := fd;
      }
      table := t';
    }

    /** Alloc under instMutex, after Hook. */
    method Issue(fd: nat)
      requires Valid() && fd < linkTab.Length && linkTab[fd] != null
      modifies this, linkTab[fd]
      ensures Valid()
      ensures table == Issued(old(table), fd)
    {
      ChangesKeep(table, fd, 0, linkAlloc);
      assert SlotOf(linkTab[fd], linkBat[fd]) == table.slots[fd];
      ghost var t' := Issued(table, fd);
      linkTab[fd].instance := myInstance;
      myInstance := myInstance + 1;
      table := t';
    }

    /** Alloc sets the host name. */
    method Name(fd: nat)
      requires Valid() && fd < linkTab.Length && linkTab[fd] != null
      modifies `table, linkTab[fd]
      ensures Valid()
      ensures table == Named(old(table), fd)
    {
      ChangesKeep(table, fd, 0, linkAlloc);
      assert SlotOf(linkTab[fd], linkBat[fd]) == table.slots[fd];
      ghost var t' := Named(table, fd);
      linkTab[fd].hosted := true;
      table := t';
    }

    /** Alloc without interference. */
    method Alloc(peerFD: int) returns (lp: Link?)
      requires Valid()
      modifies this, linkTab, linkBat, linkTab[..]
      ensures Valid()
      ensures lp != null <==> 0 <= peerFD < |old(table).slots| && !old(table).slots[peerFD].used
      ensures lp == null ==> table == old(table)
      ensures lp != null ==>
                && table == Named(Issued(Hooked(old(table), peerFD, linkAlloc), peerFD), peerFD)
                && lp == linkTab[peerFD] && linkBat[peerFD]
                && lp.instance == old(myInstance) && lp.hosted && lp.inUse == 1 && myInstance == old(myInstance) + 1
    {
      if peerFD < 0 || peerFD >= linkTab.Length {
        return null;
      }
      assert SlotOf(linkTab[peerFD], linkBat[peerFD]) == table.slots[peerFD];
      if linkBat[peerFD] {
        return null;
      }
      Hook(peerFD);
      Issue(peerFD);
      Name(peerFD);
      lp := linkTab[peerFD];
    }

    /** `while(n && !LinkBat[n]) n--`. */
    method Lower(n: nat, ghost slots: seq<Slot>) returns (m: nat)
      requires n < linkBat.Length == |slots| && forall i | 0 <= i < |slots| :: linkBat[i] == slots[i].used
      ensures m == Lowered(slots, n)
    {
      m := n;
      while m != 0 && !linkBat[m]
        invariant m <= n && Lowered(slots, n) == Lowered(slots, m)
      {
        m := m - 1;
      }
    }

    /** Unhook(fd). */
    method Unhook(fd: nat)
      requires Valid() && fd < linkTab.Length && table.slots[fd].used
      modifies this, linkBat
      ensures Valid()
      ensures table == Unhooked(old(table), fd)
      ensures forall i | 0 <= i < linkBat.Length :: linkBat[i] == (old(linkBat[i]) && i != fd)
    {
      UnhookKeeps(table, fd, linkAlloc);
      assert forall i | 0 <= i < linkTab.Length :: SlotOf(linkTab[i], linkBat[i]) == table.slots[i];
      ghost var t' := Unhooked(table, fd);
      linkBat[fd] := false;
      assert forall i | 0 <= i < linkTab.Length :: linkBat[i] == t'.slots[i].used;
      if fd == ltLast {
        ltLast := Lower(fd, t'.slots);
      }
      table := t';
    }

    /** fd2link(fd, inst); the source indexes LinkBat only up to the watermark. */
    method Fd2LinkInstance(fd: int, inst: nat) returns (lp: Link?)
      requires Valid()
      ensures lp != null <==> Fd2LinkInst(table, fd, inst).Some?
      ensures lp != null ==> lp == linkTab[Fd2LinkInst(table, fd, inst).value] && lp.instance == inst
    {
      var n := if fd < 0 then -fd else fd;
      if n <= ltLast {
        assert SlotOf(linkTab[n], linkBat[n]) == table.slots[n];
        if linkBat[n] && linkTab[n] != null && linkTab[n].instance == inst {
          return linkTab[n];
        }
      }
      return null;
    }

    /** The slot whose link the previous call of Find returned, or -1. */
    function After(curr: int): (from: int)
      requires curr < linkTab.Length
      reads linkTab
      ensures from == curr >= 0 || from == -1
    {
      if curr >= 0 && linkTab[curr] != null then curr else -1
    }

    /** Find without interference: drops the cursor's reference, and returns with a
        reference the first link after it that is in use, has a host name and is accepted
        by the matcher; if there is none up to the end, nothing and a reset cursor. */
    method Find(curr: int, who: nat -> bool) returns (lp: Link?, next: int)
      requires Valid() && curr < linkTab.Length
      modifies this, linkTab[..]
      ensures Valid()
      ensures lp == null ==> next == -1
      ensures lp != null ==> After(curr) < next < linkTab.Length
      ensures lp != null ==> lp == linkTab[next] && linkBat[next] && lp.hosted && who(next)
      ensures forall i | After(curr) < i < (if lp == null then linkTab.Length else next) && linkTab[i] != null ::
                !(linkBat[i] && linkTab[i].hosted && who(i))
      ensures var dropped := if After(curr) >= 0 then RefSet(old(table), After(curr), -1) else old(table);
              table == if lp == null then dropped else RefSet(dropped, next, 1)
    {
      var from := -1;
      if curr >= 0 {
        assert SlotOf(linkTab[curr], linkBat[curr]) == table.slots[curr];
        if linkTab[curr] != null {
          AddRef(curr, -1);
          from := curr;
        }
      }
      next := NextEligible(from, who);
      if next < 0 {
        return null, -1;
      }
      AddRef(next, 1);
      lp := linkTab[next];
    }

    /** Find's scan of the table. */
    method NextEligible(from: int, who: nat -> bool) returns (next: int)
      requires Valid() && from >= -1
      ensures next == -1 || from < next < linkTab.Length
      ensures next != -1 ==> linkTab[next] != null && linkBat[next] && linkTab[next].hosted && who(next)
      ensures forall i | from < i < (if next == -1 then linkTab.Length else next) && linkTab[i] != null ::
                !(linkBat[i] && linkTab[i].hosted && who(i))
    {
      next := from + 1;
      while next <= ltLast
        invariant from < next
        invariant forall i | from < i < next && i < linkTab.Length && linkTab[i] != null ::
                    !(linkBat[i] && linkTab[i].hosted && who(i))
      {
        if linkTab[next] != null && linkBat[next] && linkTab[next].hosted && who(next) {
          return;
        }
        next := next + 1;
      }
      next := -1;
      forall i | 0 <= i < linkTab.Length && i > ltLast ensures !linkBat[i] {
        assert SlotOf(linkTab[i], linkBat[i]) == table.slots[i];
      }
    }

    method AddRef(fd: nat, use: int)
      requires Valid() && fd < linkTab.Length && linkTab[fd] != null
      modifies `table, linkTab[fd]
      ensures Valid()
      ensures table == RefSet(old(table), fd, use) && linkTab[fd].hosted == old(linkTab[fd].hosted)
    {
      ChangesKeep(table, fd, use, linkAlloc);
      assert SlotOf(linkTab[fd], linkBat[fd]) == table.slots[fd];
      ghost var t' := RefSet(table, fd, use);
      linkTab[fd].SetRef(use);
      table := t';
    }
  }
}
