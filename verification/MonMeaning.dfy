/**
 What a vector means as it is registered, before Validate completes it (XrdMonitor.cc,
 Validate, ValKey and ValEnd): which keys stay, what stands for those left out, and the
 tree the vector is the registration of.
 */
module MonMeaning {
  import opened MonItems
  import opened MonTrees
  import opened Wrappers

  /** The item was registered with a key. */
  predicate Keyed(x: Item) {
    x.key.Some? && x.key.value != ""
  }

  /** The definition open when item i is reached, as Validate completed it. */
  function Around(s: seq<Item>, i: nat): Option<Item>
    requires i < |s|
  {
    var sc := Scanned(s[..i]);
    if sc.open == [] then None else Some(Top(sc))
  }

  lemma FillNext(s: seq<Item>)
    requires s != []
    ensures var n := |s| - 1; Fill(s) == Fill(s[..n]) + [Filled(Scanned(s[..n]), n, s[n])]
  {
  }

  lemma {:induction false} FillBefore(s: seq<Item>, i: nat)
    requires i <= |s|
    ensures Fill(s)[..i] == Fill(s[..i])
  {
    if i == |s| {
      assert s[..i] == s;
    } else {
      var n := |s| - 1;
      FillBefore(s[..n], i);
      FillNext(s);
      assert s[..n][..i] == s[..i];
      assert Fill(s)[..i] == Fill(s[..n])[..i];
    }
  }

  lemma FillAt(s: seq<Item>, i: nat)
    requires i < |s|
    ensures Fill(s)[i] == Filled(Scanned(s[..i]), i, s[i]) && Fill(s)[..i] == Fill(s[..i])
  {
    var t := s[..i + 1];
    FillBefore(s, i);
    FillBefore(s, i + 1);
    FillNext(t);
    assert t[..i] == s[..i] && Fill(s)[i] == Fill(s)[..i + 1][i];
  }

  lemma NextOpens(sc: Scan, x: Item)
    ensures forall y :: y in Next(sc, x).open ==> y in sc.open || (y == x && Begins(x.kind))
  {
  }

  /** What is open was completed. */
  lemma {:induction false} OpenWasFilled(s: seq<Item>)
    ensures forall x :: x in Scanned(s).open ==> x in Fill(s) && Begins(x.kind)
  {
    var n := |s| - 1;
    if n >= 0 {
      OpenWasFilled(s[..n]);
      NextOpens(Scanned(s[..n]), Filled(Scanned(s[..n]), n, s[n]));
    }
  }

  /** Validate changes no item's kind and no key that was given. For one left out a value or
      a beginning in an array has "item", an end has what the definition it closes has, and
      nothing else has one. */
  lemma FillExact(s: seq<Item>, i: nat)
    requires i < |s|
    ensures var was, x, around := s[i], Fill(s)[i], Around(s, i);
            && x.kind == was.kind && x.inum == i
            && (x.inArray <==> around.Some? && around.value.kind == Schema(BegArray))
            && (around.Some? ==> around.value in Fill(s)[..i] && Begins(around.value.kind))
            && (Keyed(was) ==> x.key == was.key)
            && (!Keyed(was) && x.key.Some? ==>
                  if Ends(was.kind) then
                    around.Some? && was.kind == Closer(around.value.kind) && x.key == around.value.key
                  else !was.kind.Mutex? && was.kind != Schema(Unk) && x.inArray && x.key == Some("item"))
            && (!Keyed(was) && x.key.None? ==>
                  if Ends(was.kind) then
                    around.Some? && was.kind == Closer(around.value.kind) ==> around.value.key.None?
                  else was.kind.Mutex? || was.kind == Schema(Unk) || !x.inArray)
  {
    FillAt(s, i);
    OpenWasFilled(s[..i]);
    var sc := Scanned(s[..i]);
    if sc.open != [] {
      assert Top(sc) in sc.open;
    }
  }

  // ---------------------------------------------------------------------
  // The tree a vector registers

  /** The registered items that are not mutexes. */
  function Given(s: seq<Item>): seq<Item> {
    if s == [] then [] else Given(s[..|s| - 1]) + (if s[|s| - 1].kind.Mutex? then [] else [s[|s| - 1]])
  }

  /** The registered item stands for x: the key may be left out at an end, and in an array
      where it is "item". */
  predicate StandsFor(it: Item, x: Item) {
    && it.kind == x.kind
    && (if Keyed(it) then x.key == it.key else Ends(x.kind) || (x.inArray && x.key == Some("item")))
  }

  predicate StandFor(s: seq<Item>, t: seq<Item>) {
    |s| == |t| && forall i | 0 <= i < |s| :: StandsFor(s[i], t[i])
  }

  /** The vector registers the tree, and locks and unlocks its mutexes in turn. */
  ghost predicate Registers(s: seq<Item>, f: Forest) {
    StandFor(Given(s), FlatAll(f, false)) && Proper(Ops(s)) && HeldAre(Ops(s), {})
  }

  lemma {:induction false} SameOps(s: seq<Item>)
    ensures Ops(Fill(s)) == Ops(s)
  {
    var n := |s| - 1;
    if n >= 0 {
      SameOps(s[..n]);
      assert Fill(s)[..n] == Fill(s[..n]) && Fill(s)[n].kind == s[n].kind;
    }
  }

  /** The last item of a vector completed. */
  lemma LastFilled(s: seq<Item>)
    requires s != []
    ensures var n := |s| - 1;
            var x := Filled(Scanned(s[..n]), n, s[n]);
            && Fill(s) == Fill(s[..n]) + [x] && Scanned(s) == Next(Scanned(s[..n]), x)
            && Given(s) == Given(s[..n]) + (if s[n].kind.Mutex? then [] else [s[n]])
            && Data(Fill(s)) == Data(Fill(s[..n])) + (if s[n].kind.Mutex? then [] else [x.(inum := 0)])
            && Ops(s) == Ops(s[..n]) + (if s[n].kind.Mutex? then [Op(s[n].kind.mtx, s[n].kind.doLK)] else [])
  {
    var n := |s| - 1;
    DataNext(Fill(s[..n]), Filled(Scanned(s[..n]), n, s[n]));
  }

  lemma FilledAsRead(sc: Scan, z: Zip, i: nat, it: Item, x: Item)
    requires Mirrors(sc.open, z) && StandsFor(it, x) && Feed(z, x).Some? && x.inum == 0
    ensures Filled(sc, i, it).(inum := 0) == x
  {
  }

  lemma {:induction false} FeedPrefix(z: Zip, s: seq<Item>, n: nat)
    requires FeedAll(z, s).Some? && n <= |s|
    ensures FeedAll(z, s[..n]).Some?
  {
    if n < |s| {
      FeedPrefix(z, s[..|s| - 1], n);
      assert s[..|s| - 1][..n] == s[..n];
    } else {
      assert s[..n] == s;
    }
  }

  lemma ProperBefore(ops: seq<Op>, last: seq<Op>)
    requires |last| <= 1 && Proper(ops + last)
    ensures Proper(ops)
  {
    if last == [] {
      assert ops + last == ops;
    } else {
      assert last == [last[0]];
      OpNext(ops, last[0]);
    }
  }

  /** Items read so far that the vector was completed to, and one more. */
  lemma FilledNext(s: seq<Item>, d: seq<Item>, x: Item)
    requires s != [] && !s[|s| - 1].kind.Mutex? && StandsFor(s[|s| - 1], x) && x.inum == 0
    requires Data(Fill(s[..|s| - 1])) == d && Proper(Ops(s[..|s| - 1]))
    requires FeedAll(EMPTY, d).Some? && Feed(FeedAll(EMPTY, d).value, x).Some?
    ensures Data(Fill(s)) == d + [x]
  {
    var n := |s| - 1;
    ScanAgrees(s[..n]);
    SameOps(s[..n]);
    FilledAsRead(Scanned(s[..n]), FeedAll(EMPTY, d).value, n, s[n], x);
    LastFilled(s);
  }

  lemma GivenLast(s: seq<Item>, e: seq<Item>)
    requires s != [] && !s[|s| - 1].kind.Mutex? && StandFor(Given(s), e)
    ensures e != [] && StandFor(Given(s[..|s| - 1]), e[..|e| - 1]) && StandsFor(s[|s| - 1], e[|e| - 1])
  {
    var before, last := Given(s[..|s| - 1]), s[|s| - 1];
    assert Given(s) == before + [last];
    StandForLast(before, last, e);
  }

  lemma StandForLast(s: seq<Item>, x: Item, e: seq<Item>)
    requires StandFor(s + [x], e)
    ensures e != [] && StandFor(s, e[..|e| - 1]) && StandsFor(x, e[|e| - 1])
  {
    forall i | 0 <= i < |s| ensures StandsFor(s[i], e[i]) {
      assert (s + [x])[i] == s[i];
    }
    assert (s + [x])[|s|] == x;
  }

  lemma ProperLast(s: seq<Item>)
    requires s != [] && Proper(Ops(s))
    ensures Proper(Ops(s[..|s| - 1]))
  {
    var n := |s| - 1;
    LastFilled(s);
    ProperBefore(Ops(s[..n]), if s[n].kind.Mutex? then [Op(s[n].kind.mtx, s[n].kind.doLK)] else []);
  }

  lemma MutexLast(s: seq<Item>)
    requires s != [] && s[|s| - 1].kind.Mutex?
    ensures Given(s) == Given(s[..|s| - 1]) && Data(Fill(s)) == Data(Fill(s[..|s| - 1]))
  {
    LastFilled(s);
  }

  /** The items can be read as the beginning of a tree's. */
  ghost predicate Readable(e: seq<Item>) {
    FeedAll(EMPTY, e).Some? && forall i | 0 <= i < |e| :: e[i].inum == 0
  }

  lemma ReadableLast(e: seq<Item>)
    requires e != [] && Readable(e)
    ensures var m := |e| - 1;
            && Readable(e[..m]) && e[m].inum == 0 && e == e[..m] + [e[m]]
            && Feed(FeedAll(EMPTY, e[..m]).value, e[m]).Some?
  {
    FeedPrefix(EMPTY, e, |e| - 1);
  }

  /** Validate completes the vector to the items it stands for. */
  lemma {:induction false} FilledAs(s: seq<Item>, e: seq<Item>)
    requires StandFor(Given(s), e) && Proper(Ops(s)) && Readable(e)
    ensures Data(Fill(s)) == e
  {
    if s != [] {
      var n, m := |s| - 1, |e| - 1;
      ProperLast(s);
      if s[n].kind.Mutex? {
        MutexLast(s);
        FilledAs(s[..n], e);
      } else {
        GivenLast(s, e);
        ReadableLast(e);
        FilledAs(s[..n], e[..m]);
        FilledNext(s, e[..m], e[m]);
      }
    }
  }

  lemma FilledStands(sc: Scan, i: nat, it: Item)
    requires !it.kind.Mutex? && it.kind != Schema(Unk) && Filled(sc, i, it).key.Some?
    ensures StandsFor(it, Filled(sc, i, it))
  {
  }

  lemma {:induction false} FillStands(s: seq<Item>)
    requires forall i | 0 <= i < |Data(Fill(s))| :: Data(Fill(s))[i].key.Some? && Data(Fill(s))[i].kind != Schema(Unk)
    ensures StandFor(Given(s), Data(Fill(s)))
  {
    var n := |s| - 1;
    if n >= 0 {
      LastFilled(s);
      var before := Data(Fill(s[..n]));
      forall i | 0 <= i < |before| ensures before[i].key.Some? && before[i].kind != Schema(Unk) {
        assert Data(Fill(s))[i] == before[i];
      }
      FillStands(s[..n]);
      if !s[n].kind.Mutex? {
        var x := Filled(Scanned(s[..n]), n, s[n]);
        assert Data(Fill(s))[|before|] == x.(inum := 0);
        FilledStands(Scanned(s[..n]), n, s[n]);
      }
    }
  }

  lemma {:induction false} FedKeyed(z: Zip, s: seq<Item>)
    requires FeedAll(z, s).Some?
    ensures forall i | 0 <= i < |s| :: s[i].key.Some? && s[i].kind != Schema(Unk)
  {
    if s != [] {
      FedKeyed(z, s[..|s| - 1]);
    }
  }

  lemma {:induction false} FlatPlain(n: Node, inArray: bool)
    ensures forall i | 0 <= i < |Flat(n, inArray)| :: Flat(n, inArray)[i].inum == 0
    decreases n
  {
    if n.Group? {
      FlatAllPlain(n.kids, n.isArray);
    }
  }

  lemma {:induction false} FlatAllPlain(f: Forest, inArray: bool)
    ensures forall i | 0 <= i < |FlatAll(f, inArray)| :: FlatAll(f, inArray)[i].inum == 0
    decreases f
  {
    if f.Snoc? {
      FlatAllPlain(f.init, inArray);
      FlatPlain(f.last, inArray);
    }
  }

  /** A vector that registers a tree is completed to the items of that tree. */
  lemma RegisteredFill(s: seq<Item>, f: Forest)
    requires Registers(s, f)
    ensures Data(Fill(s)) == FlatAll(f, false)
  {
    FeedForest(EMPTY, f);
    FlatAllPlain(f, false);
    FilledAs(s, FlatAll(f, false));
  }

  lemma CleanRegisters(s: seq<Item>)
    requires Clean(s)
    ensures Registers(s, TreeOf(s))
  {
    CleanExact(s);
    SameOps(s);
    CleanTree(s);
    FeedForest(EMPTY, TreeOf(s));
    FedKeyed(EMPTY, Data(Fill(s)));
    FillStands(s);
  }

  lemma RegistersClean(s: seq<Item>, f: Forest)
    requires Registers(s, f)
    ensures Clean(s) && TreeOf(s) == f
  {
    RegisteredFill(s, f);
    SameOps(s);
    CleanExact(s);
    CleanTree(s);
    FlatUnique(f, TreeOf(s));
  }

  /** Validate logs nothing exactly about the vectors that register a tree; the tree is the
      only one the vector registers. */
  lemma MeaningExact(s: seq<Item>)
    ensures Clean(s) <==> exists f :: Registers(s, f)
    ensures Clean(s) ==> forall f :: Registers(s, f) <==> f == TreeOf(s)
  {
    if Clean(s) {
      CleanRegisters(s);
      forall f ensures Registers(s, f) <==> f == TreeOf(s) {
        if Registers(s, f) {
          RegistersClean(s, f);
        }
      }
    }
    if f :| Registers(s, f) {
      RegistersClean(s, f);
    }
  }
}
