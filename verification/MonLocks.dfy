/**
 What a printer that gives up leaves locked (XrdMonitor.cc, FormJSON and FormXML): the
 vectors on which it leaves nothing locked, whatever the size of the buffer.
 */
module MonLocks {
  import opened MonItems
  import opened MonPrint
  import opened MonReport
  import opened MonTrees
  import opened Wrappers

  ghost predicate NothingLocked(ops: seq<Op>) {
    HeldAre(ops, {})
  }

  // ---------------------------------------------------------------------
  // JSON

  /** Printing item i after those before it needs a larger buffer, or fails in any. What
      needs none is an item that prints nothing, and a single bracket or comma after
      something that was printed with room for its NUL. */
  predicate TakesRoom(s: seq<Item>, nil: string, i: nat)
    requires i < |s|
  {
    var t := JsonItemText(JsonSoFar(s[..i], nil).first, s[i], nil);
    NoNumber(s[i]) || (t != "" && (|t| == 1 && Brief(s[i]) ==> Snug(s[..i], nil)))
  }

  lemma TakesRoomExact(hdr: string, s: seq<Item>, nil: string, i: nat)
    requires i < |s| && !NoNumber(s[i])
    ensures TakesRoom(s, nil, i) <==> JsonNeed(hdr, s[..i + 1], nil) > JsonNeed(hdr, s[..i], nil)
  {
    var t := s[..i + 1];
    assert t[..i] == s[..i] && t[i] == s[i];
  }

  /** FormJSON can give up at item i, or get past all items. */
  predicate JsonCanStop(s: seq<Item>, nil: string, i: nat)
    requires i <= |s|
  {
    NumbersPrint(s[..i]) && (i == |s| || TakesRoom(s, nil, i))
  }

  lemma JsonStops(hdr: string, s: seq<Item>, nil: string, i: nat)
    requires i <= |s| && JsonCanStop(s, nil, i)
    ensures JsonStop(hdr, s, nil, JsonNeed(hdr, s[..i], nil)) == i
  {
    if i < |s| {
      NumbersNext(s, i);
      if !NoNumber(s[i]) {
        TakesRoomExact(hdr, s, nil, i);
      }
    }
    JsonStopIs(hdr, s, nil, JsonNeed(hdr, s[..i], nil), i);
  }

  lemma JsonStopped(hdr: string, s: seq<Item>, nil: string, bsize: nat)
    ensures var i := JsonStop(hdr, s, nil, bsize); i == 0 || JsonCanStop(s, nil, i)
  {
    var i := JsonStop(hdr, s, nil, bsize);
    JsonInherited(hdr, nil, bsize);
    ExtentStops(s, (t: seq<Item>) => JsonGoes(hdr, t, nil, bsize));
    if 0 < i < |s| {
      NumbersNext(s, i);
      if !NoNumber(s[i]) {
        TakesRoomExact(hdr, s, nil, i);
      }
    }
  }

  /** No item that takes room stands while a mutex is held. */
  ghost predicate JsonUnguarded(s: seq<Item>, nil: string) {
    forall i: nat | i < |s| && JsonCanStop(s, nil, i) :: NothingLocked(Ops(s[..i]))
  }

  /** Of a vector Validate is silent about FormJSON leaves nothing locked, whatever the
      size of the buffer, exactly when no item that takes room, up to the first number that
      cannot be formatted, stands while a mutex is held. */
  lemma JsonLeavesNothing(hdr: string, s: seq<Item>, nil: string)
    requires Clean(s)
    ensures (forall bsize: nat :: NothingLocked(Ops(Fill(s)[..JsonStop(hdr, Fill(s), nil, bsize)])))
            <==> JsonUnguarded(Fill(s), nil)
  {
    var f := Fill(s);
    CleanExact(s);
    assert f[..|f|] == f && Ops(f[..0]) == [];
    if JsonUnguarded(f, nil) {
      forall bsize: nat ensures NothingLocked(Ops(f[..JsonStop(hdr, f, nil, bsize)])) {
        JsonStopped(hdr, f, nil, bsize);
      }
    }
    if forall bsize: nat :: NothingLocked(Ops(f[..JsonStop(hdr, f, nil, bsize)])) {
      forall i: nat | i < |f| && JsonCanStop(f, nil, i) ensures NothingLocked(Ops(f[..i])) {
        JsonStops(hdr, f, nil, i);
      }
    }
  }

  // ---------------------------------------------------------------------
  // XML

  predicate XmlCanStop(s: seq<Item>, nil: string, i: nat)
    requires i <= |s|
  {
    ValuesPrint(s[..i], nil) && (i == |s| || !s[i].kind.Mutex?)
  }

  lemma XmlStops(hdr: string, s: seq<Item>, nil: string, i: nat)
    requires i <= |s| && XmlCanStop(s, nil, i)
    ensures XmlStop(hdr, s, nil, |hdr| + |XmlSoFar(s[..i], nil)| + 1) == i
  {
    var bsize := |hdr| + |XmlSoFar(s[..i], nil)| + 1;
    if i < |s| {
      XmlGoesOn(hdr, s, nil, bsize, i);
      assert |XmlItemText(s[i], nil)| > 0;
    }
    XmlStopIs(hdr, s, nil, bsize, i);
  }

  lemma XmlStopped(hdr: string, s: seq<Item>, nil: string, bsize: nat)
    ensures var i := XmlStop(hdr, s, nil, bsize); i == 0 || XmlCanStop(s, nil, i)
  {
    var i := XmlStop(hdr, s, nil, bsize);
    XmlInherited(hdr, nil, bsize);
    ExtentStops(s, (t: seq<Item>) => XmlGoes(hdr, t, nil, bsize));
    if 0 < i < |s| {
      XmlGoesOn(hdr, s, nil, bsize, i);
    }
  }

  /** No item but a mutex operation stands while a mutex is held. */
  ghost predicate XmlUnguarded(s: seq<Item>, nil: string) {
    forall i: nat | i < |s| && XmlCanStop(s, nil, i) :: NothingLocked(Ops(s[..i]))
  }

  /** Of a vector Validate is silent about FormXML leaves nothing locked, whatever the size
      of the buffer, exactly when nothing that prints, up to the first empty value, stands
      while a mutex is held. */
  lemma XmlLeavesNothing(hdr: string, s: seq<Item>, nil: string)
    requires Clean(s)
    ensures (forall bsize: nat :: NothingLocked(Ops(Fill(s)[..XmlStop(hdr, Fill(s), nil, bsize)])))
            <==> XmlUnguarded(Fill(s), nil)
  {
    var f := Fill(s);
    CleanExact(s);
    assert f[..|f|] == f && Ops(f[..0]) == [];
    if XmlUnguarded(f, nil) {
      forall bsize: nat ensures NothingLocked(Ops(f[..XmlStop(hdr, f, nil, bsize)])) {
        XmlStopped(hdr, f, nil, bsize);
      }
    }
    if forall bsize: nat :: NothingLocked(Ops(f[..XmlStop(hdr, f, nil, bsize)])) {
      forall i: nat | i < |f| && XmlCanStop(f, nil, i) ensures NothingLocked(Ops(f[..i])) {
        XmlStops(hdr, f, nil, i);
      }
    }
  }

  // ---------------------------------------------------------------------
  // A set that is left locked

  function Guarded(m: int, d: string): seq<Item> {
    [Item(None, Mutex(m, true), false, 0), Item(Some("k"), Binary(d), false, 1), Item(None, Mutex(m, false), false, 2)]
  }

  lemma GuardedPrefixes(m: int, d: string)
    ensures var s := Guarded(m, d); s[..1] == [s[0]] && s[..2] == [s[0]] + [s[1]] && s == [s[0]] + [s[1]] + [s[2]]
  {
  }

  lemma FillNext(s: seq<Item>, x: Item)
    ensures Scanned(s + [x]) == Next(Scanned(s), Filled(Scanned(s), |s|, x))
    ensures Fill(s + [x]) == Fill(s) + [Filled(Scanned(s), |s|, x)]
  {
    assert (s + [x])[..|s|] == s;
  }

  lemma GuardedClean(m: int, d: string)
    ensures Clean(Guarded(m, d)) && Fill(Guarded(m, d)) == Guarded(m, d)
  {
    var s := Guarded(m, d);
    GuardedPrefixes(m, d);
    assert [] + [s[0]] == [s[0]];
    FillNext([], s[0]);
    FillNext([s[0]], s[1]);
    FillNext([s[0]] + [s[1]], s[2]);
  }

  lemma GuardedText(m: int, d: string, nil: string)
    ensures JsonSoFar(Guarded(m, d)[..1], nil) == Printed("", true)
    ensures JsonSoFar(Guarded(m, d)[..2], nil).text == "\"k\":" + d
    ensures JsonSoFar(Guarded(m, d), nil).text == "\"k\":" + d
  {
    var s := Guarded(m, d);
    GuardedPrefixes(m, d);
    assert s[..1][..0] == [] && s[..2][..1] == s[..1];
    assert "\"" + "k" + "\":" == "\"k\":";
  }

  lemma GuardedStops(m: int, d: string, nil: string, hdr: string)
    requires d != ""
    ensures JsonStop(hdr, Guarded(m, d), nil, |hdr| + 1) == 1
  {
    var s := Guarded(m, d);
    GuardedText(m, d, nil);
    GuardedPrefixes(m, d);
    assert s[..1][..0] == [] && s[..2][..1] == s[..1];
    JsonStopIs(hdr, s, nil, |hdr| + 1, 1);
  }

  /** A set that Validate is silent about, a lock around one number, formatted into too
      small a buffer: the printer gives up and the mutex stays locked. */
  method GivesUpLocked(m: int, d: string, nil: string) returns (log: nat, bLen: nat, locks: seq<Op>)
    requires d != ""
    ensures log == 0 && bLen == 0 && Held(locks, m)
  {
    var items := new Item[3] [
      Item(None, Mutex(m, true), false, 0),
      Item(Some("k"), Binary(d), false, 1),
      Item(None, Mutex(m, false), false, 2)];
    var buff := new char[12];
    assert items[..] == Guarded(m, d);
    GuardedClean(m, d);
    GuardedText(m, d, nil);
    GuardedPrefixes(m, d);
    var ok;
    ok, log := Validate(items);
    bLen, locks := FormJSON(Header("\"stats_" + "a" + "\":{"), items, buff, 12, nil);
    var s, hdr := Guarded(m, d), Header("\"stats_" + "a" + "\":{");
    GuardedStops(m, d, nil, hdr);
    assert 12 == |hdr| + 1;
    assert locks == [Op(m, true)];
    OfNext([], Op(m, true), m);
  }
}
