/**
 A loop over XrdLinkCtl's Find without interference, as the administrative commands
 have it (XrdXrootdAdmin.cc, sendResp): which links it meets, and what it leaves behind.
 */
module LinkTour {
  import opened LinkTable
  import opened LinkCtl
  import LinkUse

  function AtLeastOne(n: int): int {
    if n < 1 then 1 else n
  }

  /** The table after calls of Find that returned these slots, the last of them curr. */
  ghost predicate Toured(t0: Table, t: Table, found: seq<int>, curr: int) {
    && t == t0.(slots := t.slots) && |t.slots| == |t0.slots|
    && forall i | 0 <= i < |t.slots| :: t.slots[i] == Visited(t0.slots[i], i in found, i == curr)
  }

  function Visited(s: Slot, found: bool, kept: bool): Slot {
    if kept then s.(inUse := LinkUse.CountAfter(s.inUse, 1))
    else if found then s.(inUse := AtLeastOne(s.inUse))
    else s
  }

  lemma TourOn(t0: Table, t: Table, found: seq<int>, curr: int, t': Table)
    requires Toured(t0, t, found, curr) && (curr == -1 || (0 <= curr < |t.slots| && curr in found))
    requires t' == if curr >= 0 then RefSet(t, curr, -1) else t
    ensures Toured(t0, t', found, -1)
    ensures forall next | 0 <= next < |t.slots| && next !in found ::
              Toured(t0, RefSet(t', next, 1), found + [next], next)
  {
  }

  predicate Wanted(s: Slot, accepted: bool) {
    s.present && s.used && s.hosted && accepted
  }

  /** The wanted slots below n, in order. */
  ghost predicate AllBelow(t: Table, found: seq<int>, n: int, who: nat -> bool)
    requires n <= |t.slots|
  {
    && (forall i, k | 0 <= i < k < |found| :: found[i] < found[k])
    && (forall x | x in found :: 0 <= x < n)
    && (forall i | 0 <= i < n :: i in found <==> Wanted(t.slots[i], who(i)))
  }

  lemma AllBelowNext(t: Table, found: seq<int>, curr: int, next: int, who: nat -> bool)
    requires -1 <= curr < next <= |t.slots| && AllBelow(t, found, curr + 1, who)
    requires forall i | curr < i < next :: !Wanted(t.slots[i], who(i))
    ensures AllBelow(t, found, next, who)
    ensures next < |t.slots| && Wanted(t.slots[next], who(next)) ==> AllBelow(t, found + [next], next + 1, who)
  {
    forall i | 0 <= i < |found| ensures found[i] < next {
      assert found[i] in found;
    }
  }

  /** Which slots are wanted has not changed during the calls. */
  lemma WantedIs(ctl: XrdLinkCtl, t0: Table, found: seq<int>, curr: int, who: nat -> bool)
    requires ctl.Valid() && (curr == -1 || curr in found) && Toured(t0, ctl.table, found, curr)
    ensures forall i | 0 <= i < ctl.linkTab.Length ::
              Wanted(t0.slots[i], who(i)) <==>
                ctl.linkTab[i] != null && ctl.linkBat[i] && ctl.linkTab[i].hosted && who(i)
  {
    forall i | 0 <= i < ctl.linkTab.Length
      ensures Wanted(t0.slots[i], who(i)) <==>
                ctl.linkTab[i] != null && ctl.linkBat[i] && ctl.linkTab[i].hosted && who(i)
    {
      assert SlotOf(ctl.linkTab[i], ctl.linkBat[i]) == ctl.table.slots[i];
    }
  }

  /** Calls of Find have returned the wanted slots up to curr, whose link is kept. */
  ghost predicate Touring(ctl: XrdLinkCtl, t0: Table, found: seq<int>, curr: int, who: nat -> bool)
    reads ctl, ctl.linkTab
  {
    && -1 <= curr < ctl.linkTab.Length == |t0.slots| && (curr == -1 || (curr in found && ctl.linkTab[curr] != null))
    && Toured(t0, ctl.table, found, curr) && AllBelow(t0, found, curr + 1, who)
  }

  /** They have returned all of them. */
  ghost predicate TourDone(ctl: XrdLinkCtl, t0: Table, found: seq<int>, who: nat -> bool)
    reads ctl, ctl.linkTab
  {
    && ctl.linkTab.Length == |t0.slots|
    && Toured(t0, ctl.table, found, -1) && AllBelow(t0, found, ctl.linkTab.Length, who)
  }

  /** What a call of Find adds to the tour; t is the table before the call. */
  lemma FoundNext(ctl: XrdLinkCtl, t0: Table, t: Table, found: seq<int>, curr: int, next: int, who: nat -> bool)
    requires ctl.Valid() && ctl.linkTab.Length == |t0.slots| && -1 <= curr < |t0.slots|
    requires Toured(t0, t, found, curr) && AllBelow(t0, found, curr + 1, who) && (curr == -1 || curr in found)
    requires next == -1 || curr < next < ctl.linkTab.Length
    requires next != -1 ==>
               ctl.linkTab[next] != null && ctl.linkBat[next] && ctl.linkTab[next].hosted && who(next)
    requires forall i | curr < i < (if next == -1 then ctl.linkTab.Length else next) && ctl.linkTab[i] != null ::
               !(ctl.linkBat[i] && ctl.linkTab[i].hosted && who(i))
    requires var dropped := if curr >= 0 then RefSet(t, curr, -1) else t;
             ctl.table == if next == -1 then dropped else RefSet(dropped, next, 1)
    ensures if next == -1 then TourDone(ctl, t0, found, who) else Touring(ctl, t0, found + [next], next, who)
  {
    TourOn(t0, t, found, curr, if curr >= 0 then RefSet(t, curr, -1) else t);
    WantedIs(ctl, t0, if next == -1 then found else found + [next], next, who);
    AllBelowNext(t0, found, curr, if next == -1 then ctl.linkTab.Length else next, who);
  }

  /** A call of Find in a loop that began with the table t0 and has found these slots. */
  method FindNext(ctl: XrdLinkCtl, curr: int, who: nat -> bool, ghost t0: Table, ghost found: seq<int>)
      returns (more: bool, next: int)
    requires ctl.Valid() && Touring(ctl, t0, found, curr, who)
    modifies ctl, ctl.linkTab[..]
    ensures ctl.Valid() && ctl.linkTab[..] == old(ctl.linkTab[..])
    ensures if more then curr < next && Touring(ctl, t0, found + [next], next, who) else TourDone(ctl, t0, found, who)
  {
    ghost var t := ctl.table;
    var lp;
    lp, next := ctl.Find(curr, who);
    FoundNext(ctl, t0, t, found, curr, next, who);
    more := lp != null;
  }

  /** The loop. */
  method Tour(ctl: XrdLinkCtl, who: nat -> bool) returns (found: seq<int>)
    requires ctl.Valid()
    modifies ctl, ctl.linkTab[..]
    ensures ctl.Valid() && TourDone(ctl, old(ctl.table), found, who)
  {
    found := [];
    ghost var t0, links := ctl.table, ctl.linkTab[..];
    var more, curr := FindNext(ctl, -1, who, t0, []);
    while more
      invariant ctl.Valid() && ctl.linkTab[..] == links
      invariant if more then curr >= 0 && Touring(ctl, t0, found + [curr], curr, who) else TourDone(ctl, t0, found, who)
      decreases if more then ctl.linkTab.Length - curr else 0
    {
      found := found + [curr];
      more, curr := FindNext(ctl, curr, who, t0, found);
    }
  }

  /** A loop over Find finds every link that is in use, has a host name and is accepted,
      once, in the order of the descriptors, and gives each reference back. */
  method FindAll(ctl: XrdLinkCtl, who: nat -> bool) returns (found: seq<int>)
    requires ctl.Valid()
    modifies ctl, ctl.linkTab[..]
    ensures ctl.Valid()
    ensures forall i, k | 0 <= i < k < |found| :: found[i] < found[k]
    ensures forall n :: n in found <==>
              0 <= n < ctl.linkTab.Length && ctl.linkTab[n] != null && ctl.linkBat[n] && ctl.linkTab[n].hosted && who(n)
    ensures Toured(old(ctl.table), ctl.table, found, -1)
  {
    found := Tour(ctl, who);
    WantedIs(ctl, old(ctl.table), found, -1, who);
  }
}
