/**
 The JSON form (XrdMonitor.cc, FormJSON) as tokens, and a parser for the object and
 array grammar of RFC 8259 (sections 4 and 5) that reads it back.
 */
module MonJson {
  import opened MonItems
  import opened Wrappers
  import opened MonTrees

  datatype Tok = LBrace | RBrace | LBrack | RBrack | Comma | Colon | Str(s: string) | Num(digits: string)

  function OpenTok(isArray: bool): Tok {
    if isArray then LBrack else LBrace
  }

  function CloseTok(isArray: bool): Tok {
    if isArray then RBrack else RBrace
  }

  // ---------------------------------------------------------------------
  // What FormJSON emits, item by item

  /** The key as printed; the printer is given no nil key. */
  function Name(x: Item): string {
    if x.key.Some? then x.key.value else ""
  }

  function JsonValue(k: Kind): seq<Tok> {
    match k
    case Binary(d) => [Num(d)]
    case Text(t) => [Str(if t.Some? then t.value else "")]
    case Mutex(_, _) => []
    case Schema(p) => if p == BegArray then [LBrack] else if p == BegObject then [LBrace] else []
  }

  /** `first` says that nothing follows the last opening bracket yet (buff == aStart). */
  function JsonItem(first: bool, x: Item): seq<Tok> {
    if x.kind == Schema(EndArray) then [RBrack]
    else if x.kind == Schema(EndObject) then [RBrace]
    else if x.kind.Mutex? then []
    else (if first then [] else [Comma]) + (if x.inArray then [] else [Str(Name(x)), Colon]) + JsonValue(x.kind)
  }

  function FreshAfter(first: bool, x: Item): bool {
    Begins(x.kind) || (first && JsonItem(first, x) == [])
  }

  function Fresh(s: seq<Item>): bool {
    s == [] || FreshAfter(Fresh(s[..|s| - 1]), s[|s| - 1])
  }

  function JsonItems(s: seq<Item>): seq<Tok> {
    if s == [] then [] else JsonItems(s[..|s| - 1]) + JsonItem(Fresh(s[..|s| - 1]), s[|s| - 1])
  }

  /** Everything FormJSON emits for a set. */
  function JsonSet(name: string, s: seq<Item>): seq<Tok> {
    [Str("stats_" + name), Colon, LBrace] + JsonItems(s) + [RBrace]
  }

  // ---------------------------------------------------------------------
  // The JSON of a tree

  function JsonKey(key: string, inArray: bool): seq<Tok> {
    if inArray then [] else [Str(key), Colon]
  }

  function JsonBody(n: Node): seq<Tok>
    decreases n, 0
  {
    match n
    case Value(_, Number(d)) => [Num(d)]
    case Value(_, String(t)) => [Str(t)]
    case Group(_, isArray, kids) => [OpenTok(isArray)] + JsonForest(kids, isArray) + [CloseTok(isArray)]
  }

  function JsonNode(n: Node, inArray: bool): seq<Tok>
    decreases n, 1
  {
    JsonKey(n.key, inArray) + JsonBody(n)
  }

  function Sep(f: Forest): seq<Tok> {
    if f.Nil? then [] else [Comma]
  }

  function JsonForest(f: Forest, inArray: bool): seq<Tok>
    decreases f, 0
  {
    match f
    case Nil => []
    case Snoc(init, last) => JsonForest(init, inArray) + Sep(init) + JsonNode(last, inArray)
  }

  /** The JSON of an unfinished tree: up to the innermost open bracket, and all of it. */
  function JsonOpen(z: Zip): seq<Tok>
    decreases z, 0
  {
    match z
    case Root(_) => []
    case In(up, key, isArray, _) => JsonZip(up) + Sep(up.done) + JsonKey(key, ArrayTop(up)) + [OpenTok(isArray)]
  }

  function JsonZip(z: Zip): seq<Tok>
    decreases z, 1
  {
    JsonOpen(z) + JsonForest(z.done, ArrayTop(z))
  }

  lemma JsonZipAdd(z: Zip, n: Node)
    ensures JsonZip(Add(z, n)) == JsonZip(z) + Sep(z.done) + JsonNode(n, ArrayTop(z))
  {
    assert JsonOpen(Add(z, n)) == JsonOpen(z);
  }

  lemma Regroup<T>(a: seq<T>, p: seq<T>, k: seq<T>, b: seq<T>)
    ensures a + p + (k + b) == a + (p + k + b)
  {
  }

  lemma RegroupOpen<T>(a: seq<T>, p: seq<T>, k: seq<T>, o: seq<T>)
    ensures a + p + k + o == a + (p + k + o)
  {
  }

  lemma RegroupClose<T>(a: seq<T>, p: seq<T>, k: seq<T>, o: seq<T>, b: seq<T>, c: seq<T>)
    ensures a + p + (k + (o + b + c)) == a + p + k + o + b + c
  {
    assert k + (o + b + c) == k + o + b + c;
  }

  lemma JsonValueFeed(z: Zip, x: Item)
    requires Feed(z, x).Some? && !x.kind.Schema?
    ensures JsonZip(Feed(z, x).value) == JsonZip(z) + JsonItem(z.done.Nil?, x)
  {
    var n := Feed(z, x).value.done.last;
    JsonZipAdd(z, n);
    var a, p, k, b := JsonZip(z), Sep(z.done), JsonKey(n.key, ArrayTop(z)), JsonBody(n);
    assert JsonItem(z.done.Nil?, x) == p + k + b;
    Regroup(a, p, k, b);
  }

  lemma JsonBegFeed(z: Zip, x: Item)
    requires Feed(z, x).Some? && Begins(x.kind)
    ensures JsonZip(Feed(z, x).value) == JsonZip(z) + JsonItem(z.done.Nil?, x)
  {
    var w := Feed(z, x).value;
    assert JsonZip(w) == JsonOpen(w);
    var p, k, o := Sep(z.done), JsonKey(w.key, ArrayTop(z)), [OpenTok(w.isArray)];
    assert JsonItem(z.done.Nil?, x) == p + k + o;
    RegroupOpen(JsonZip(z), p, k, o);
  }

  lemma JsonEndFeed(z: Zip, x: Item)
    requires Feed(z, x).Some? && Ends(x.kind)
    ensures JsonZip(Feed(z, x).value) == JsonZip(z) + JsonItem(z.done.Nil?, x)
  {
    var n := Group(z.key, z.isArray, z.done);
    JsonZipAdd(z.up, n);
    assert JsonItem(z.done.Nil?, x) == [CloseTok(z.isArray)];
    RegroupClose(JsonZip(z.up), Sep(z.up.done), JsonKey(z.key, ArrayTop(z.up)), [OpenTok(z.isArray)],
                 JsonForest(z.done, z.isArray), [CloseTok(z.isArray)]);
  }

  lemma JsonFeed(z: Zip, x: Item)
    requires Feed(z, x).Some?
    ensures JsonZip(Feed(z, x).value) == JsonZip(z) + JsonItem(z.done.Nil?, x)
    ensures Feed(z, x).value.done.Nil? == FreshAfter(z.done.Nil?, x)
  {
    if Begins(x.kind) {
      JsonBegFeed(z, x);
    } else if Ends(x.kind) {
      JsonEndFeed(z, x);
    } else {
      JsonValueFeed(z, x);
    }
  }

  lemma FeedIgnoresPosition(z: Zip, x: Item)
    ensures JsonItem(z.done.Nil?, x.(inum := 0)) == JsonItem(z.done.Nil?, x)
    ensures FreshAfter(z.done.Nil?, x.(inum := 0)) == FreshAfter(z.done.Nil?, x)
  {
  }

  lemma {:induction false} JsonItemsAre(s: seq<Item>)
    requires FeedAll(EMPTY, Data(s)).Some?
    ensures JsonItems(s) == JsonZip(FeedAll(EMPTY, Data(s)).value)
    ensures Fresh(s) == FeedAll(EMPTY, Data(s)).value.done.Nil?
  {
    var n := |s| - 1;
    if n >= 0 {
      assert s == s[..n] + [s[n]];
      DataNext(s[..n], s[n]);
      if !s[n].kind.Mutex? {
        FeedAllNext(EMPTY, Data(s[..n]), s[n].(inum := 0));
      }
      JsonItemsAre(s[..n]);
      var z := FeedAll(EMPTY, Data(s[..n])).value;
      if !s[n].kind.Mutex? {
        JsonFeed(z, s[n].(inum := 0));
        FeedIgnoresPosition(z, s[n]);
      }
    }
  }

  /** For a clean vector FormJSON emits one member of the set's name whose value is the
      object of the vector's tree. */
  lemma JsonOfClean(name: string, s: seq<Item>)
    requires Clean(s)
    ensures JsonSet(name, Fill(s)) == JsonNode(Group("stats_" + name, false, TreeOf(s)), false)
  {
    CleanItems(s);
    WrapForest("stats_" + name, TreeOf(s));
  }

  lemma CleanItems(s: seq<Item>)
    requires Clean(s)
    ensures JsonItems(Fill(s)) == JsonForest(TreeOf(s), false)
  {
    ScanAgrees(s);
    JsonItemsAre(Fill(s));
    RootZip(FeedAll(EMPTY, Data(Fill(s))).value);
  }

  lemma RootZip(z: Zip)
    ensures z.Root? ==> JsonZip(z) == JsonForest(z.done, false)
  {
  }

  lemma WrapForest(key: string, f: Forest)
    ensures [Str(key), Colon, LBrace] + JsonForest(f, false) + [RBrace] == JsonNode(Group(key, false, f), false)
  {
    assert [Str(key), Colon] + [LBrace] == [Str(key), Colon, LBrace];
  }

  // ---------------------------------------------------------------------
  // The parser: a member in an object, a value in an array

  function PNode(t: seq<Tok>, inArray: bool): (r: Option<(Node, seq<Tok>)>)
    ensures r.Some? ==> |r.value.1| < |t|
    decreases |t|, 1
  {
    if inArray then PBody("", t)
    else if |t| > 1 && t[0].Str? && t[1] == Colon then PBody(t[0].s, t[2..])
    else None
  }

  function PBody(key: string, t: seq<Tok>): (r: Option<(Node, seq<Tok>)>)
    ensures r.Some? ==> |r.value.1| < |t|
    decreases |t|, 0
  {
    if t == [] then None
    else
      match t[0]
      case Num(d) => Some((Value(key, Number(d)), t[1..]))
      case Str(s) => Some((Value(key, String(s)), t[1..]))
      case LBrack => PGroup(key, true, t[1..])
      case LBrace => PGroup(key, false, t[1..])
      case _ => None
  }

  /** What follows an opening bracket. */
  function PGroup(key: string, isArray: bool, t: seq<Tok>): (r: Option<(Node, seq<Tok>)>)
    ensures r.Some? ==> |r.value.1| < |t|
    decreases |t|, 3
  {
    if t != [] && t[0] == CloseTok(isArray) then Some((Group(key, isArray, Nil), t[1..]))
    else
      var n := PNode(t, isArray);
      if n.None? then None else PMore(key, isArray, Snoc(Nil, n.value.0), n.value.1)
  }

  /** What follows an element: the closing bracket, or a comma and another element. */
  function PMore(key: string, isArray: bool, done: Forest, t: seq<Tok>): (r: Option<(Node, seq<Tok>)>)
    ensures r.Some? ==> |r.value.1| < |t|
    decreases |t|, 2
  {
    if t == [] then None
    else if t[0] == CloseTok(isArray) then Some((Group(key, isArray, done), t[1..]))
    else if t[0] == Comma then
      var n := PNode(t[1..], isArray);
      if n.None? then None else PMore(key, isArray, Snoc(done, n.value.0), n.value.1)
    else None
  }

  /** A whole text: one member and nothing after it. */
  function ParseMember(t: seq<Tok>): Option<Node> {
    var r := PNode(t, false);
    if r.Some? && r.value.1 == [] then Some(r.value.0) else None
  }

  /** The tree as JSON shows it: no keys inside arrays. */
  function Bare(n: Node, inArray: bool): Node {
    var key := if inArray then "" else n.key;
    match n
    case Value(_, v) => Value(key, v)
    case Group(_, isArray, kids) => Group(key, isArray, BareAll(kids, isArray))
  }

  function BareAll(f: Forest, inArray: bool): Forest {
    match f
    case Nil => Nil
    case Snoc(init, last) => Snoc(BareAll(init, inArray), Bare(last, inArray))
  }

  lemma {:induction false} NodeParses(n: Node, inArray: bool, rest: seq<Tok>)
    ensures PNode(JsonNode(n, inArray) + rest, inArray) == Some((Bare(n, inArray), rest))
    decreases n, 1
  {
    var t := JsonNode(n, inArray) + rest;
    BodyParses(n, if inArray then "" else n.key, rest);
    if inArray {
      assert t == JsonBody(n) + rest;
    } else {
      assert t[2..] == JsonBody(n) + rest;
    }
  }

  function Rekeyed(n: Node, key: string): Node {
    match n
    case Value(_, v) => Value(key, v)
    case Group(_, isArray, kids) => Group(key, isArray, BareAll(kids, isArray))
  }

  lemma {:induction false} BodyParses(n: Node, key: string, rest: seq<Tok>)
    ensures PBody(key, JsonBody(n) + rest) == Some((Rekeyed(n, key), rest))
    decreases n, 0
  {
    var t := JsonBody(n) + rest;
    match n
    case Value(_, v) =>
      assert t[1..] == rest;
    case Group(_, isArray, kids) =>
      var tail := [CloseTok(isArray)] + rest;
      assert t[1..] == JsonForest(kids, isArray) + tail;
      assert tail[1..] == rest;
      if kids.Nil? {
        assert JsonForest(kids, isArray) + tail == tail;
      } else {
        ForestParses(key, isArray, kids, tail);
      }
  }

  lemma FirstParses(key: string, isArray: bool, n: Node, tail: seq<Tok>)
    ensures PGroup(key, isArray, JsonNode(n, isArray) + tail) == PMore(key, isArray, Snoc(Nil, Bare(n, isArray)), tail)
    decreases n, 2
  {
    NodeParses(n, isArray, tail);
    NodeStarts(n, isArray);
  }

  lemma NextParses(key: string, isArray: bool, done: Forest, n: Node, tail: seq<Tok>)
    ensures PMore(key, isArray, done, [Comma] + (JsonNode(n, isArray) + tail))
         == PMore(key, isArray, Snoc(done, Bare(n, isArray)), tail)
    decreases n, 2
  {
    NodeParses(n, isArray, tail);
    var t := [Comma] + (JsonNode(n, isArray) + tail);
    assert t[1..] == JsonNode(n, isArray) + tail;
  }

  /** Parsing the elements of a nonempty group up to the last. */
  lemma {:induction false} ForestParses(key: string, isArray: bool, f: Forest, tail: seq<Tok>)
    requires f.Snoc?
    ensures PGroup(key, isArray, JsonForest(f, isArray) + tail) == PMore(key, isArray, BareAll(f, isArray), tail)
    decreases f, 2
  {
    var node := JsonNode(f.last, isArray);
    if f.init.Nil? {
      assert JsonForest(f, isArray) + tail == node + tail;
      FirstParses(key, isArray, f.last, tail);
    } else {
      assert JsonForest(f, isArray) + tail == JsonForest(f.init, isArray) + ([Comma] + (node + tail));
      ForestParses(key, isArray, f.init, [Comma] + (node + tail));
      NextParses(key, isArray, BareAll(f.init, isArray), f.last, tail);
    }
  }

  /** No element starts like a closing bracket. */
  lemma NodeStarts(n: Node, inArray: bool)
    ensures JsonNode(n, inArray) != [] && !JsonNode(n, inArray)[0].RBrack? && !JsonNode(n, inArray)[0].RBrace?
  {
    if inArray {
      assert JsonNode(n, inArray) == JsonBody(n);
    }
  }

  lemma {:induction false} NodeSound(t: seq<Tok>, inArray: bool)
    requires PNode(t, inArray).Some?
    ensures var (n, rest) := PNode(t, inArray).value; t == JsonNode(n, inArray) + rest && Bare(n, inArray) == n
    decreases |t|, 1
  {
    if inArray {
      BodySound("", t);
    } else {
      BodySound(t[0].s, t[2..]);
      assert t == [t[0], t[1]] + t[2..];
    }
  }

  lemma {:induction false} BodySound(key: string, t: seq<Tok>)
    requires PBody(key, t).Some?
    ensures var (n, rest) := PBody(key, t).value; t == JsonBody(n) + rest && Rekeyed(n, key) == n
    decreases |t|, 0
  {
    assert t == [t[0]] + t[1..];
    match t[0]
    case LBrack => GroupSound(key, true, t[1..]);
    case LBrace => GroupSound(key, false, t[1..]);
    case _ =>
  }

  /** The parser gave a group of these elements, none of them with a key it cannot have. */
  ghost predicate IsGroup(r: Option<(Node, seq<Tok>)>, key: string, isArray: bool) {
    && r.Some? && r.value.0.Group? && r.value.0.key == key && r.value.0.isArray == isArray
    && BareAll(r.value.0.kids, isArray) == r.value.0.kids
  }

  lemma {:induction false} GroupSound(key: string, isArray: bool, t: seq<Tok>)
    requires PGroup(key, isArray, t).Some?
    ensures var r := PGroup(key, isArray, t);
            IsGroup(r, key, isArray) && t == JsonForest(r.value.0.kids, isArray) + [CloseTok(isArray)] + r.value.1
    decreases |t|, 3
  {
    if t != [] && t[0] == CloseTok(isArray) {
      assert t == [] + [t[0]] + t[1..];
    } else {
      NodeSound(t, isArray);
      var n := PNode(t, isArray).value;
      MoreSound(key, isArray, Snoc(Nil, n.0), n.1);
      assert JsonForest(Snoc(Nil, n.0), isArray) == JsonNode(n.0, isArray);
    }
  }

  lemma CommaNode(done: Forest, isArray: bool, n: Node, t: seq<Tok>, rest: seq<Tok>)
    requires done.Snoc? && t != [] && t[0] == Comma && t[1..] == JsonNode(n, isArray) + rest
    ensures JsonForest(done, isArray) + t == JsonForest(Snoc(done, n), isArray) + rest
  {
    assert t == [Comma] + (JsonNode(n, isArray) + rest);
    RegroupComma(JsonForest(done, isArray), [Comma], JsonNode(n, isArray), rest);
  }

  lemma RegroupComma<T>(a: seq<T>, c: seq<T>, n: seq<T>, r: seq<T>)
    ensures a + (c + (n + r)) == a + c + n + r
  {
  }

  lemma {:induction false} MoreSound(key: string, isArray: bool, done: Forest, t: seq<Tok>)
    requires PMore(key, isArray, done, t).Some? && done.Snoc? && BareAll(done, isArray) == done
    ensures var r := PMore(key, isArray, done, t);
            && IsGroup(r, key, isArray)
            && JsonForest(done, isArray) + t == JsonForest(r.value.0.kids, isArray) + [CloseTok(isArray)] + r.value.1
    decreases |t|, 2
  {
    if t[0] == CloseTok(isArray) {
      assert t == [t[0]] + t[1..];
    } else {
      NodeSound(t[1..], isArray);
      var n := PNode(t[1..], isArray).value;
      MoreSound(key, isArray, Snoc(done, n.0), n.1);
      CommaNode(done, isArray, n.0, t, n.1);
    }
  }

  /** The parser accepts exactly the printed members, and reads each as what was printed. */
  lemma ParseExact(t: seq<Tok>, n: Node)
    ensures ParseMember(t) == Some(n) <==> t == JsonNode(n, false) && Bare(n, false) == n
  {
    if ParseMember(t) == Some(n) {
      NodeSound(t, false);
      assert JsonNode(n, false) + [] == JsonNode(n, false);
    }
    if t == JsonNode(n, false) {
      NodeParses(n, false, []);
      assert t + [] == t;
    }
  }

  lemma {:induction false} BareTwice(n: Node, inArray: bool)
    ensures Bare(Bare(n, inArray), inArray) == Bare(n, inArray)
    ensures JsonNode(Bare(n, inArray), inArray) == JsonNode(n, inArray) && JsonBody(Bare(n, inArray)) == JsonBody(n)
    decreases n
  {
    if n.Group? {
      BareAllTwice(n.kids, n.isArray);
    }
  }

  lemma {:induction false} BareAllTwice(f: Forest, inArray: bool)
    ensures BareAll(BareAll(f, inArray), inArray) == BareAll(f, inArray)
    ensures JsonForest(BareAll(f, inArray), inArray) == JsonForest(f, inArray)
    decreases f
  {
    if f.Snoc? {
      BareAllTwice(f.init, inArray);
      BareTwice(f.last, inArray);
    }
  }

  /** On a vector Validate says nothing about, what FormJSON emits parses as one member:
      the set's name, and the object of the vector's tree without the keys in arrays. */
  lemma JsonRoundTrip(name: string, s: seq<Item>)
    requires Clean(s)
    ensures ParseMember(JsonSet(name, Fill(s))) == Some(Group("stats_" + name, false, BareAll(TreeOf(s), false)))
    ensures Data(Fill(s)) == FlatAll(TreeOf(s), false)
  {
    CleanTree(s);
    JsonOfClean(name, s);
    var n := Group("stats_" + name, false, TreeOf(s));
    BareTwice(n, false);
    ParseExact(JsonNode(n, false), Bare(n, false));
  }
}
