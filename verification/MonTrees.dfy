/**
 What a registered vector means: a tree of values, and for its mutexes a trace of
 locking. Validate is silent exactly on the vectors that have such a meaning.
 */
module MonTrees {
  import opened MonItems
  import opened Wrappers

  datatype Val = Number(digits: string) | String(text: string)
  datatype Node = Value(key: string, val: Val) | Group(key: string, isArray: bool, kids: Forest)
  datatype Forest = Nil | Snoc(init: Forest, last: Node)

  function ValKind(v: Val): Kind {
    match v
    case Number(d) => Binary(d)
    case String(t) => Text(Some(t))
  }

  function BegKind(isArray: bool): Kind {
    Schema(if isArray then BegArray else BegObject)
  }

  function EndKind(isArray: bool): Kind {
    Schema(if isArray then EndArray else EndObject)
  }

  /** The items of a tree, every key filled in; `inArray` is the context. */
  function Flat(n: Node, inArray: bool): seq<Item> {
    match n
    case Value(key, v) => [Item(Some(key), ValKind(v), inArray, 0)]
    case Group(key, isArray, kids) =>
      [Item(Some(key), BegKind(isArray), inArray, 0)] + FlatAll(kids, isArray)
      + [Item(Some(key), EndKind(isArray), isArray, 0)]
  }

  function FlatAll(f: Forest, inArray: bool): seq<Item> {
    match f
    case Nil => []
    case Snoc(init, last) => FlatAll(init, inArray) + Flat(last, inArray)
  }

  /** The items that are not mutexes, their positions left out. */
  function Data(s: seq<Item>): seq<Item> {
    if s == [] then []
    else Data(s[..|s| - 1]) + (if s[|s| - 1].kind.Mutex? then [] else [s[|s| - 1].(inum := 0)])
  }

  // ---------------------------------------------------------------------
  // Locking

  datatype Op = Op(mtx: int, doLK: bool)

  function Ops(s: seq<Item>): seq<Op> {
    if s == [] then []
    else
      var k := s[|s| - 1].kind;
      Ops(s[..|s| - 1]) + (if k.Mutex? then [Op(k.mtx, k.doLK)] else [])
  }

  /** What is done to one mutex. */
  function Of(ops: seq<Op>, m: int): seq<bool> {
    if ops == [] then []
    else
      var op := ops[|ops| - 1];
      Of(ops[..|ops| - 1], m) + (if op.mtx == m then [op.doLK] else [])
  }

  /** Lock first, then each the opposite of the one before. */
  ghost predicate Alternates(t: seq<bool>) {
    && (t != [] ==> t[0])
    && forall i, j | 0 <= i < j < |t| && j == i + 1 :: t[j] != t[i]
  }

  predicate Locks(t: seq<bool>) {
    t != [] && t[|t| - 1]
  }

  /** Every mutex is locked, unlocked, locked and so on. */
  ghost predicate Proper(ops: seq<Op>) {
    forall m: int :: Alternates(Of(ops, m))
  }

  /** The last thing done to the mutex is to lock it. */
  predicate Held(ops: seq<Op>, m: int) {
    Locks(Of(ops, m))
  }

  ghost predicate HeldAre(ops: seq<Op>, locked: set<int>) {
    forall m: int :: m in locked <==> Held(ops, m)
  }

  lemma OneMore(t: seq<bool>, b: bool)
    ensures Alternates(t + [b]) <==> Alternates(t) && b != Locks(t)
  {
    var u := t + [b];
    if Alternates(u) {
      assert forall i, j | 0 <= i < j < |t| && j == i + 1 :: t[j] == u[j] && t[i] == u[i];
      if t != [] {
        assert u[|t|] != u[|t| - 1];
      }
    }
  }

  lemma OfNext(ops: seq<Op>, op: Op, m: int)
    ensures Of(ops + [op], m) == if op.mtx == m then Of(ops, m) + [op.doLK] else Of(ops, m)
    ensures Held(ops + [op], m) == if op.mtx == m then op.doLK else Held(ops, m)
  {
    assert (ops + [op])[..|ops + [op]| - 1] == ops;
  }

  lemma OpNext(ops: seq<Op>, op: Op)
    ensures Proper(ops + [op]) <==> Proper(ops) && op.doLK != Held(ops, op.mtx)
  {
    forall m: int
      ensures Alternates(Of(ops + [op], m)) <==> Alternates(Of(ops, m)) && (m == op.mtx ==> op.doLK != Held(ops, m))
    {
      OfNext(ops, op, m);
      OneMore(Of(ops, m), op.doLK);
    }
  }

  lemma HeldOnce(ops: seq<Op>, s: set<int>, t: set<int>)
    requires HeldAre(ops, s) && HeldAre(ops, t)
    ensures s == t
  {
    forall m: int ensures m in s <==> m in t {
      assert m in s <==> Held(ops, m);
    }
  }

  lemma HeldNext(ops: seq<Op>, op: Op, locked: set<int>)
    requires HeldAre(ops, locked)
    ensures HeldAre(ops + [op], if op.doLK then locked + {op.mtx} else locked - {op.mtx})
  {
    forall m: int ensures Held(ops + [op], m) == if op.mtx == m then op.doLK else Held(ops, m) {
      OfNext(ops, op, m);
    }
  }

  // ---------------------------------------------------------------------
  // Reading items into a tree

  /** A tree under construction: the finished nodes of the innermost open definition,
      and what surrounds it. */
  datatype Zip = Root(done: Forest) | In(up: Zip, key: string, isArray: bool, done: Forest)

  predicate ArrayTop(z: Zip) {
    z.In? && z.isArray
  }

  function Add(z: Zip, n: Node): Zip {
    z.(done := Snoc(z.done, n))
  }

  function Unzip(z: Zip): seq<Item> {
    match z
    case Root(done) => FlatAll(done, false)
    case In(up, key, isArray, done) =>
      Unzip(up) + [Item(Some(key), BegKind(isArray), ArrayTop(up), 0)] + FlatAll(done, isArray)
  }

  function Feed(z: Zip, x: Item): Option<Zip> {
    if x.key.None? || x.inArray != ArrayTop(z) then None
    else
      match x.kind
      case Binary(d) => Some(Add(z, Value(x.key.value, Number(d))))
      case Text(t) => if t.None? then None else Some(Add(z, Value(x.key.value, String(t.value))))
      case Mutex(_, _) => None
      case Schema(p) =>
        if Begins(x.kind) then Some(In(z, x.key.value, p == BegArray, Nil))
        else if z.In? && x.kind == EndKind(z.isArray) && x.key == Some(z.key) then
          Some(Add(z.up, Group(z.key, z.isArray, z.done)))
        else None
  }

  function FeedAll(z: Zip, s: seq<Item>): Option<Zip> {
    if s == [] then Some(z)
    else
      var r := FeedAll(z, s[..|s| - 1]);
      if r.None? then None else Feed(r.value, s[|s| - 1])
  }

  const EMPTY := Root(Nil)

  lemma UnzipAdd(z: Zip, n: Node)
    ensures Unzip(Add(z, n)) == Unzip(z) + Flat(n, ArrayTop(z))
  {
  }

  lemma BegAdds(z: Zip, x: Item)
    requires Feed(z, x).Some? && Begins(x.kind) && x.inum == 0
    ensures Unzip(Feed(z, x).value) == Unzip(z) + [x]
  {
    var w := Feed(z, x).value;
    assert FlatAll(w.done, w.isArray) == [];
  }

  lemma EndAdds(z: Zip, x: Item)
    requires Feed(z, x).Some? && Ends(x.kind) && x.inum == 0
    ensures Unzip(Feed(z, x).value) == Unzip(z) + [x]
  {
    var beg, kids := [Item(Some(z.key), BegKind(z.isArray), ArrayTop(z.up), 0)], FlatAll(z.done, z.isArray);
    UnzipAdd(z.up, Group(z.key, z.isArray, z.done));
    Assoc(Unzip(z.up) + beg, kids, [x]);
    Assoc(Unzip(z.up), beg, kids + [x]);
    Assoc(beg, kids, [x]);
  }

  lemma FeedAdds(z: Zip, x: Item)
    requires Feed(z, x).Some? && x.inum == 0
    ensures Unzip(Feed(z, x).value) == Unzip(z) + [x]
  {
    if Begins(x.kind) {
      BegAdds(z, x);
    } else if Ends(x.kind) {
      EndAdds(z, x);
    } else {
      UnzipAdd(z, Feed(z, x).value.done.last);
    }
  }

  lemma {:induction false} FeedAllAdds(z: Zip, s: seq<Item>)
    requires FeedAll(z, s).Some? && forall i | 0 <= i < |s| :: s[i].inum == 0
    ensures Unzip(FeedAll(z, s).value) == Unzip(z) + s
  {
    var n := |s| - 1;
    if n >= 0 {
      FeedAllAdds(z, s[..n]);
      FeedAdds(FeedAll(z, s[..n]).value, s[n]);
      assert s == s[..n] + [s[n]];
    }
  }

  lemma {:induction false} FeedAllJoin(z: Zip, s: seq<Item>, t: seq<Item>)
    ensures FeedAll(z, s + t) == if FeedAll(z, s).None? then None else FeedAll(FeedAll(z, s).value, t)
  {
    var n := |t| - 1;
    if n < 0 {
      assert s + t == s;
    } else {
      FeedAllJoin(z, s, t[..n]);
      assert (s + t)[..|s + t| - 1] == s + t[..n];
    }
  }

  function Joined(f: Forest, g: Forest): Forest {
    match g
    case Nil => f
    case Snoc(init, last) => Snoc(Joined(f, init), last)
  }

  /** Reading back the items of a tree gives the tree. */
  lemma {:induction false} FeedNode(z: Zip, n: Node)
    ensures FeedAll(z, Flat(n, ArrayTop(z))) == Some(Add(z, n))
    decreases n
  {
    match n
    case Value(key, v) =>
      FeedOne(z, Flat(n, ArrayTop(z))[0]);
    case Group(key, isArray, kids) =>
      var beg := Item(Some(key), BegKind(isArray), ArrayTop(z), 0);
      var end := Item(Some(key), EndKind(isArray), isArray, 0);
      var w := In(z, key, isArray, Nil);
      FeedOne(z, beg);
      FeedAllJoin(z, [beg], FlatAll(kids, isArray));
      FeedForest(w, kids);
      FeedAllJoin(z, [beg] + FlatAll(kids, isArray), [end]);
      FeedOne(In(z, key, isArray, Joined(Nil, kids)), end);
      JoinedNil(kids);
  }

  lemma FeedOne(z: Zip, x: Item)
    ensures FeedAll(z, [x]) == Feed(z, x)
  {
    assert [x][..0] == [];
  }

  lemma {:induction false} JoinedNil(f: Forest)
    ensures Joined(Nil, f) == f
  {
    if f.Snoc? {
      JoinedNil(f.init);
    }
  }

  lemma {:induction false} FeedForest(z: Zip, f: Forest)
    ensures FeedAll(z, FlatAll(f, ArrayTop(z))) == Some(z.(done := Joined(z.done, f)))
    decreases f
  {
    if f.Snoc? {
      FeedForest(z, f.init);
      FeedAllJoin(z, FlatAll(f.init, ArrayTop(z)), Flat(f.last, ArrayTop(z)));
      FeedNode(z.(done := Joined(z.done, f.init)), f.last);
    }
  }

  /** A tree is determined by its items. */
  lemma FlatUnique(f: Forest, g: Forest)
    requires FlatAll(f, false) == FlatAll(g, false)
    ensures f == g
  {
    FeedForest(EMPTY, f);
    FeedForest(EMPTY, g);
    JoinedNil(f);
    JoinedNil(g);
  }

  // ---------------------------------------------------------------------
  // Validate and the reading agree

  ghost predicate Mirrors(open: seq<Item>, z: Zip) {
    match z
    case Root(_) => open == []
    case In(up, key, isArray, _) =>
      && open != []
      && open[|open| - 1].key == Some(key) && open[|open| - 1].kind == BegKind(isArray)
      && Mirrors(open[..|open| - 1], up)
  }

  /** What FeedAgrees claims of one item. */
  ghost predicate Same(sc: Scan, z: Zip, x: Item) {
    var r := Feed(z, x.(inum := 0));
    && (Next(sc, x).errors == sc.errors <==> r.Some?)
    && (r.Some? ==> Mirrors(Next(sc, x).open, r.value))
  }

  lemma BegAgrees(sc: Scan, z: Zip, x: Item)
    requires Mirrors(sc.open, z) && Begins(x.kind) && x.inArray == ArrayTop(z)
    ensures Same(sc, z, x)
  {
    var more := sc.open + [x];
    assert more[..|more| - 1] == sc.open;
  }

  lemma PairsAgrees(sc: Scan, z: Zip, k: Kind)
    requires Mirrors(sc.open, z) && Ends(k)
    ensures Pairs(sc, k) <==> z.In? && k == EndKind(z.isArray)
    ensures Pairs(sc, k) ==> Top(sc).key == Some(z.key) && Mirrors(sc.open[..|sc.open| - 1], z.up)
  {
  }

  lemma EndAgrees(sc: Scan, z: Zip, x: Item)
    requires Mirrors(sc.open, z) && Ends(x.kind) && x.inArray == ArrayTop(z)
    requires Pairs(sc, x.kind) ==> x.key.Some?
    ensures Same(sc, z, x)
  {
    PairsAgrees(sc, z, x.kind);
  }

  lemma FeedAgrees(sc: Scan, z: Zip, i: nat, it: Item)
    requires Mirrors(sc.open, z) && !it.kind.Mutex?
    ensures Same(sc, z, Filled(sc, i, it))
  {
    var x := Filled(sc, i, it);
    assert InArray(sc) == ArrayTop(z);
    if Begins(x.kind) {
      BegAgrees(sc, z, x);
    } else if Ends(x.kind) {
      EndAgrees(sc, z, x);
    }
  }

  lemma DataNext(s: seq<Item>, x: Item)
    ensures Data(s + [x]) == if x.kind.Mutex? then Data(s) else Data(s) + [x.(inum := 0)]
    ensures Ops(s + [x]) == if x.kind.Mutex? then Ops(s) + [Op(x.kind.mtx, x.kind.doLK)] else Ops(s)
  {
    assert (s + [x])[..|s + [x]| - 1] == s;
  }

  /** The scan of some items, and what they mean. */
  ghost predicate Agree(sc: Scan, d: seq<Item>, ops: seq<Op>) {
    && (sc.errors == 0 <==> FeedAll(EMPTY, d).Some? && Proper(ops))
    && (sc.errors == 0 ==> Mirrors(sc.open, FeedAll(EMPTY, d).value) && HeldAre(ops, sc.locked))
  }

  lemma AgreeMutex(sc: Scan, d: seq<Item>, ops: seq<Op>, x: Item)
    requires x.kind.Mutex? && Agree(sc, d, ops)
    ensures Agree(Next(sc, x), d, ops + [Op(x.kind.mtx, x.kind.doLK)])
  {
    var op := Op(x.kind.mtx, x.kind.doLK);
    OpNext(ops, op);
    if sc.errors == 0 {
      HeldNext(ops, op, sc.locked);
      assert op.mtx in sc.locked <==> Held(ops, op.mtx);
    }
  }

  lemma AgreeData(sc: Scan, d: seq<Item>, ops: seq<Op>, i: nat, it: Item)
    requires !it.kind.Mutex? && Agree(sc, d, ops)
    ensures var x := Filled(sc, i, it); Agree(Next(sc, x), d + [x.(inum := 0)], ops)
  {
    var x := Filled(sc, i, it);
    FeedAllNext(EMPTY, d, x.(inum := 0));
    NextGrows(sc, x);
    if sc.errors == 0 {
      FeedAgrees(sc, FeedAll(EMPTY, d).value, i, it);
    }
  }

  lemma FeedAllNext(z: Zip, s: seq<Item>, x: Item)
    ensures FeedAll(z, s + [x]) == if FeedAll(z, s).None? then None else Feed(FeedAll(z, s).value, x)
  {
    FeedAllJoin(z, s, [x]);
    if FeedAll(z, s).Some? {
      FeedOne(FeedAll(z, s).value, x);
    }
  }

  lemma {:induction false} ScanAgrees(s: seq<Item>)
    ensures Agree(Scanned(s), Data(Fill(s)), Ops(Fill(s)))
  {
    var n := |s| - 1;
    if n < 0 {
      assert Proper([]) && HeldAre([], {});
    } else {
      ScanAgrees(s[..n]);
      var sc := Scanned(s[..n]);
      DataNext(Fill(s[..n]), Filled(sc, n, s[n]));
      if s[n].kind.Mutex? {
        AgreeMutex(sc, Data(Fill(s[..n])), Ops(Fill(s[..n])), Filled(sc, n, s[n]));
      } else {
        AgreeData(sc, Data(Fill(s[..n])), Ops(Fill(s[..n])), n, s[n]);
      }
    }
  }

  lemma NextGrows(sc: Scan, x: Item)
    ensures Next(sc, x).errors >= sc.errors
    ensures !x.kind.Mutex? ==> Next(sc, x).locked == sc.locked
  {
  }

  /** Validate logs nothing about the vector. */
  predicate Clean(s: seq<Item>) {
    Messages(Scanned(s)) == 0
  }

  /** Validate is silent exactly when the completed items, mutexes left out, are those
      of a tree, and every mutex is alternately locked and unlocked and none left locked. */
  lemma CleanExact(s: seq<Item>)
    ensures Clean(s) <==>
              (exists f :: Data(Fill(s)) == FlatAll(f, false)) && Proper(Ops(Fill(s))) && HeldAre(Ops(Fill(s)), {})
  {
    ScanAgrees(s);
    var sc, d, ops := Scanned(s), Data(Fill(s)), Ops(Fill(s));
    if Clean(s) {
      CleanTree(s);
    }
    if f :| d == FlatAll(f, false) && Proper(ops) && HeldAre(ops, {}) {
      FeedForest(EMPTY, f);
      assert Mirrors(sc.open, Root(Joined(Nil, f)));
      HeldOnce(ops, sc.locked, {});
    }
  }

  lemma {:induction false} DataPlain(s: seq<Item>)
    ensures forall i | 0 <= i < |Data(s)| :: Data(s)[i].inum == 0
  {
    if s != [] {
      DataPlain(s[..|s| - 1]);
    }
  }

  /** The tree of a clean vector. */
  ghost function TreeOf(s: seq<Item>): Forest
  {
    var r := FeedAll(EMPTY, Data(Fill(s)));
    if r.Some? then r.value.done else Nil
  }

  lemma CleanTree(s: seq<Item>)
    requires Clean(s)
    ensures Data(Fill(s)) == FlatAll(TreeOf(s), false)
  {
    ScanAgrees(s);
    var d := Data(Fill(s));
    DataPlain(Fill(s));
    FeedAllAdds(EMPTY, d);
  }
}
