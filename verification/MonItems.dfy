/**
 Registered items and their validation (XrdMonRoll.hh, Item; XrdMonitor.cc,
 Validate, ValKey, ValEnd, ValErr). Texts and keys are strings; a nil pointer is None.
 */
module MonItems {
  import opened Wrappers

  datatype Plan = Unk | BegArray | EndArray | BegObject | EndObject

  /** Binary holds the number as V2S prints it. */
  datatype Kind =
    | Binary(digits: string)
    | Text(text: Option<string>)
    | Mutex(mtx: int, doLK: bool)
    | Schema(plan: Plan)

  datatype Item = Item(key: Option<string>, kind: Kind, inArray: bool, inum: nat)

  predicate Begins(k: Kind) {
    k == Schema(BegArray) || k == Schema(BegObject)
  }

  predicate Ends(k: Kind) {
    k == Schema(EndArray) || k == Schema(EndObject)
  }

  function Closer(k: Kind): Kind {
    if k == Schema(BegArray) then Schema(EndArray) else Schema(EndObject)
  }

  // ---------------------------------------------------------------------
  // One step of Validate, as a function

  /** The open definitions (the source's dummy bottom element left out), the locked
      mutexes, and the number of messages so far. */
  datatype Scan = Scan(open: seq<Item>, locked: set<int>, errors: nat)

  const START := Scan([], {}, 0)

  function Top(sc: Scan): Item
    requires sc.open != []
  {
    sc.open[|sc.open| - 1]
  }

  predicate InArray(sc: Scan) {
    sc.open != [] && Top(sc).kind == Schema(BegArray)
  }

  function Fault(sc: Scan, bad: bool): Scan {
    if bad then sc.(errors := sc.errors + 1) else sc
  }

  /** Whether the end item closes the innermost open definition. */
  predicate Pairs(sc: Scan, k: Kind) {
    sc.open != [] && Begins(Top(sc).kind) && Closer(Top(sc).kind) == k
  }

  /** The item with everything Validate writes into it. */
  function Filled(sc: Scan, i: nat, it: Item): Item {
    var key := if it.key == Some("") then None else it.key;
    var k := it.kind;
    var full :=
      if k.Mutex? || k == Schema(Unk) then key
      else if Ends(k) then (if Pairs(sc, k) && key.None? then Top(sc).key else key)
      else if InArray(sc) && key.None? then Some("item")
      else key;
    Item(full, k, InArray(sc), i)
  }

  function Next(sc: Scan, x: Item): Scan {
    match x.kind
    case Binary(_) => Fault(sc, x.key.None?)
    case Text(t) => Fault(Fault(sc, t.None?), x.key.None?)
    case Mutex(m, doLK) =>
      if doLK != (m in sc.locked) then sc.(locked := if doLK then sc.locked + {m} else sc.locked - {m})
      else Fault(sc, true)
    case Schema(p) =>
      if Begins(x.kind) then Fault(sc.(open := sc.open + [x]), x.key.None?)
      else if Ends(x.kind) && Pairs(sc, x.kind) then
        Fault(sc.(open := sc.open[..|sc.open| - 1]), Top(sc).key.Some? && x.key != Top(sc).key)
      else Fault(sc, true)
  }

  function Scanned(s: seq<Item>): Scan {
    var n := |s| - 1;
    if n < 0 then START else Next(Scanned(s[..n]), Filled(Scanned(s[..n]), n, s[n]))
  }

  function Fill(s: seq<Item>): (f: seq<Item>)
    ensures |f| == |s|
  {
    var n := |s| - 1;
    if n < 0 then [] else Fill(s[..n]) + [Filled(Scanned(s[..n]), n, s[n])]
  }

  function Messages(sc: Scan): nat {
    sc.errors + (if sc.open != [] then 1 else 0) + (if sc.locked != {} then 1 else 0)
  }

  // ---------------------------------------------------------------------
  // Validate

  /** Only logs, and says "not bad". */
  method ValErr(log: nat) returns (bad: bool, logged: nat)
    ensures !bad && logged == log + 1
  {
    return false, log + 1;
  }

  /** VALERR: the answer is or-ed in. */
  method Fails(isBad: bool, log: nat) returns (bad: bool, logged: nat)
    ensures bad == isBad && logged == log + 1
  {
    bad, logged := ValErr(log);
    bad := isBad || bad;
  }

  method ValKey(items: array<Item>, i: nat, isBad: bool, log: nat) returns (bad: bool, logged: nat)
    requires i < items.Length
    modifies items
    ensures items[..] == old(items[..])[i := items[i]]
    ensures var was := old(items[i]);
            items[i] == was.(key := if was.inArray && was.key.None? then Some("item") else was.key)
    ensures logged == log + (if items[i].key.None? then 1 else 0)
    ensures bad == isBad || !bad
  {
    bad, logged := isBad, log;
    if items[i].inArray {
      if items[i].key.None? {
        items[i] := items[i].(key := Some("item"));
      }
    } else if items[i].key.None? {
      bad, logged := ValErr(log);
    }
  }

  method ValEnd(items: array<Item>, i: nat, begKey: Option<string>, isBad: bool, log: nat)
      returns (bad: bool, logged: nat)
    requires i < items.Length
    modifies items
    ensures items[..] == old(items[..])[i := items[i]]
    ensures items[i] == old(items[i]).(key := if old(items[i]).key.None? then begKey else old(items[i]).key)
    ensures logged == log + (if begKey.Some? && items[i].key != begKey then 1 else 0)
    ensures bad == isBad || !bad
  {
    bad, logged := isBad, log;
    if begKey.Some? {
      if items[i].key.None? {
        items[i] := items[i].(key := begKey);
      } else if begKey != items[i].key {
        bad, logged := ValErr(log);
      }
    }
  }

  /** The stack as positions, and the items at them. */
  function Opened(items: seq<Item>, stack: seq<nat>): seq<Item>
    requires forall k | 0 <= k < |stack| :: stack[k] < |items|
  {
    seq(|stack|, k requires 0 <= k < |stack| => items[stack[k]])
  }

  /** The items before i are done and match the scan, the others are as they were. */
  ghost predicate Done(was: seq<Item>, items: seq<Item>, stack: seq<nat>, locked: set<int>, log: nat, i: nat) {
    && i <= |was| == |items|
    && (forall k | 0 <= k < |stack| :: stack[k] < i)
    && items == Fill(was[..i]) + was[i..]
    && Scanned(was[..i]) == Scan(Opened(items, stack), locked, log)
  }

  /** One item further: `sc` is the scan before it, and the new stack, set and log are
      the scan after it. */
  lemma DoneStep(was: seq<Item>, before: seq<Item>, after: seq<Item>, i: nat,
                 stack: seq<nat>, locked: set<int>, log: nat, open: seq<nat>, held: set<int>, logged: nat)
    requires Done(was, before, stack, locked, log, i) && i < |was| && |after| == |before|
    requires var sc := Scan(Opened(before, stack), locked, log);
             && after == before[i := Filled(sc, i, was[i])]
             && (forall k | 0 <= k < |open| :: open[k] <= i)
             && Scan(Opened(after, open), held, logged) == Next(sc, after[i])
    ensures Done(was, after, open, held, logged, i + 1)
  {
    assert was[..i + 1][..i] == was[..i];
  }

  lemma OpenedAfter(before: seq<Item>, after: seq<Item>, stack: seq<nat>, i: nat)
    requires i < |before| == |after| && after == before[i := after[i]]
    requires forall k | 0 <= k < |stack| :: stack[k] < i
    ensures Opened(after, stack) == Opened(before, stack)
    ensures Opened(after, stack + [i]) == Opened(before, stack) + [after[i]]
    ensures stack != [] ==> Opened(after, stack[..|stack| - 1]) == Opened(before, stack)[..|stack| - 1]
  {
  }

  /** The case of a schema item; `sc` is the scan that the stack and the log stand for. */
  method ValidateSchema(items: array<Item>, i: nat, stack: seq<nat>, isBad: bool, log: nat, ghost sc: Scan)
      returns (open: seq<nat>, bad: bool, logged: nat)
    requires i < items.Length && items[i].kind.Schema? && items[i].key != Some("")
    requires items[i].inArray == InArray(sc) && items[i].inum == i
    requires forall k | 0 <= k < |stack| :: stack[k] < i
    requires sc.open == Opened(items[..], stack) && sc.errors == log
    modifies items
    ensures items[..] == old(items[..])[i := Filled(sc, i, old(items[i]))]
    ensures forall k | 0 <= k < |open| :: open[k] <= i
    ensures Scan(Opened(items[..], open), sc.locked, logged) == Next(sc, items[i])
    ensures bad == isBad || !bad
  {
    var p := items[i].kind.plan;
    var top: Kind := if stack != [] then items[stack[|stack| - 1]].kind else Schema(Unk);
    ghost var before := items[..];
    open, bad, logged := stack, isBad, log;
    if p == BegArray || p == BegObject {
      bad, logged := ValKey(items, i, bad, log);
      open := stack + [i];
    } else if (p == EndArray && top == Schema(BegArray)) || (p == EndObject && top == Schema(BegObject)) {
      open := stack[..|stack| - 1];
      bad, logged := ValEnd(items, i, items[stack[|stack| - 1]].key, bad, log);
    } else {
      bad, logged := Fails(bad, log);
    }
    OpenedAfter(before, items[..], stack, i);
  }

  /** The switch on the item's family. */
  method ValidateKind(items: array<Item>, i: nat, stack: seq<nat>, locked: set<int>, isBad: bool, log: nat,
      ghost sc: Scan)
      returns (open: seq<nat>, held: set<int>, bad: bool, logged: nat)
    requires i < items.Length && items[i].key != Some("")
    requires items[i].inArray == InArray(sc) && items[i].inum == i
    requires forall k | 0 <= k < |stack| :: stack[k] < i
    requires sc == Scan(Opened(items[..], stack), locked, log)
    modifies items
    ensures items[..] == old(items[..])[i := Filled(sc, i, old(items[i]))]
    ensures forall k | 0 <= k < |open| :: open[k] <= i
    ensures Scan(Opened(items[..], open), held, logged) == Next(sc, items[i])
    ensures bad == isBad || !bad
  {
    open, held, bad, logged := stack, locked, isBad, log;
    ghost var before := items[..];
    match items[i].kind {
      case Binary(_) =>
        bad, logged := ValKey(items, i, bad, log);
        OpenedAfter(before, items[..], stack, i);
      case Mutex(m, doLK) =>
        if doLK {
          if m !in held { held := held + {m}; } else { bad, logged := Fails(bad, log); }
        } else {
          if m in held { held := held - {m}; } else { bad, logged := Fails(bad, log); }
        }
      case Schema(_) =>
        open, bad, logged := ValidateSchema(items, i, stack, bad, log, sc);
      case Text(t) =>
        if t.None? { bad, logged := Fails(bad, log); }
        bad, logged := ValKey(items, i, bad, logged);
        OpenedAfter(before, items[..], stack, i);
    }
  }

  /** What the loop does to every item: position, empty key, array context. */
  method Prepare(items: array<Item>, i: nat, stack: seq<nat>, ghost sc: Scan)
    requires i < items.Length && forall k | 0 <= k < |stack| :: stack[k] < i
    requires sc.open == Opened(items[..], stack)
    modifies items
    ensures items[..] == old(items[..])[i := items[i]] && sc.open == Opened(items[..], stack)
    ensures items[i].key != Some("") && items[i].inArray == InArray(sc) && items[i].inum == i
    ensures Filled(sc, i, items[i]) == Filled(sc, i, old(items[i]))
  {
    ghost var before := items[..];
    items[i] := items[i].(key := if items[i].key == Some("") then None else items[i].key, inum := i,
                          inArray := stack != [] && items[stack[|stack| - 1]].kind == Schema(BegArray));
    OpenedAfter(before, items[..], stack, i);
  }

  /** The body of Validate's loop. */
  method ValidateItem(items: array<Item>, i: nat, stack: seq<nat>, locked: set<int>, isBad: bool, log: nat,
      ghost was: seq<Item>)
      returns (open: seq<nat>, held: set<int>, bad: bool, logged: nat)
    requires Done(was, items[..], stack, locked, log, i) && i < items.Length && !isBad
    modifies items
    ensures Done(was, items[..], open, held, logged, i + 1) && !bad
  {
    ghost var before := items[..];
    ghost var sc := Scan(Opened(before, stack), locked, log);
    assert before[i] == was[i];
    Prepare(items, i, stack, sc);
    ghost var ready := items[..];
    open, held, bad, logged := ValidateKind(items, i, stack, locked, isBad, log, sc);
    assert items[..] == before[i := Filled(sc, i, was[i])] by {
      assert items[..] == ready[i := Filled(sc, i, was[i])];
    }
    DoneStep(was, before, items[..], i, stack, locked, log, open, held, logged);
  }

  /** Validate: the registered vector ends as Fill says, the log has one message per
      fault, and the answer is always true, faults or not. */
  method Validate(items: array<Item>) returns (ok: bool, log: nat)
    modifies items
    ensures ok
    ensures items[..] == Fill(old(items[..]))
    ensures log == Messages(Scanned(old(items[..])))
  {
    ghost var was := items[..];
    var stack: seq<nat>, locked: set<int> := [], {};
    var isBad := false;
    log := 0;
    var i := 0;
    while i < items.Length
      invariant Done(was, items[..], stack, locked, log, i)
      invariant !isBad
    {
      stack, locked, isBad, log := ValidateItem(items, i, stack, locked, isBad, log, was);
      i := i + 1;
    }
    assert was[..i] == was;
    if !isBad {
      if stack != [] { log := log + 1; }
      if locked != {} { log := log + 1; }
    }
    ok := !isBad;
  }
}
