/**
 The XML form (XrdMonitor.cc, FormXML) as tags and text, and a reader in which every
 end tag must carry the name of the innermost open element (XML 1.0, section 3.1).
 */
module MonXml {
  import opened MonItems
  import opened Wrappers
  import opened MonTrees

  /** The header's tag carries the set's name as its id. */
  datatype Xml = StartTag(name: string, id: Option<string>) | EndTag(name: string) | Chars(text: string)

  function Name(x: Item): string {
    if x.key.Some? then x.key.value else ""
  }

  // ---------------------------------------------------------------------
  // What FormXML emits, item by item

  function Element(name: string, body: seq<Xml>): seq<Xml> {
    [StartTag(name, None)] + body + [EndTag(name)]
  }

  function XmlItem(x: Item): seq<Xml> {
    match x.kind
    case Binary(d) => Element(Name(x), [Chars(d)])
    case Text(t) => Element(Name(x), [Chars(if t.Some? then t.value else "")])
    case Mutex(_, _) => []
    case Schema(p) =>
      if Ends(x.kind) then [EndTag(Name(x))]
      else if Begins(x.kind) then [StartTag(Name(x), None)]
      else Element(Name(x), [])
  }

  function XmlItems(s: seq<Item>): seq<Xml> {
    if s == [] then [] else XmlItems(s[..|s| - 1]) + XmlItem(s[|s| - 1])
  }

  function XmlSet(name: string, s: seq<Item>): seq<Xml> {
    [StartTag("stats", Some(name))] + XmlItems(s) + [EndTag("stats")]
  }

  // ---------------------------------------------------------------------
  // The XML of a tree

  function ValText(v: Val): string {
    match v
    case Number(d) => d
    case String(t) => t
  }

  function XmlNode(n: Node): seq<Xml> {
    match n
    case Value(key, v) => Element(key, [Chars(ValText(v))])
    case Group(key, _, kids) => Element(key, XmlForest(kids))
  }

  function XmlForest(f: Forest): seq<Xml> {
    match f
    case Nil => []
    case Snoc(init, last) => XmlForest(init) + XmlNode(last)
  }

  function XmlZip(z: Zip): seq<Xml> {
    match z
    case Root(done) => XmlForest(done)
    case In(up, key, _, done) => XmlZip(up) + [StartTag(key, None)] + XmlForest(done)
  }

  lemma XmlZipAdd(z: Zip, n: Node)
    ensures XmlZip(Add(z, n)) == XmlZip(z) + XmlNode(n)
  {
  }

  lemma XmlFeed(z: Zip, x: Item)
    requires Feed(z, x).Some?
    ensures XmlZip(Feed(z, x).value) == XmlZip(z) + XmlItem(x)
  {
    var w := Feed(z, x).value;
    if Begins(x.kind) {
      assert XmlZip(w) == XmlZip(z) + [StartTag(w.key, None)] + [];
    } else if Ends(x.kind) {
      XmlZipAdd(z.up, Group(z.key, z.isArray, z.done));
      Regroup(XmlZip(z.up), [StartTag(z.key, None)], XmlForest(z.done), [EndTag(z.key)]);
    } else {
      XmlZipAdd(z, w.done.last);
    }
  }

  lemma Regroup<T>(a: seq<T>, b: seq<T>, c: seq<T>, d: seq<T>)
    ensures a + (b + c + d) == a + b + c + d
  {
  }

  lemma XmlNext(s: seq<Item>, x: Item)
    ensures XmlItems(s + [x]) == if x.kind.Mutex? then XmlItems(s) else XmlItems(s) + XmlItem(x.(inum := 0))
  {
    assert (s + [x])[..|s + [x]| - 1] == s;
    assert XmlItem(x.(inum := 0)) == XmlItem(x);
  }

  lemma {:induction false} XmlItemsAre(s: seq<Item>)
    requires FeedAll(EMPTY, Data(s)).Some?
    ensures XmlItems(s) == XmlZip(FeedAll(EMPTY, Data(s)).value)
  {
    var n := |s| - 1;
    if n >= 0 {
      assert s == s[..n] + [s[n]];
      DataNext(s[..n], s[n]);
      XmlNext(s[..n], s[n]);
      if s[n].kind.Mutex? {
        XmlItemsAre(s[..n]);
      } else {
        var d, x := Data(s[..n]), s[n].(inum := 0);
        FeedAllNext(EMPTY, d, x);
        XmlItemsAre(s[..n]);
        XmlFeed(FeedAll(EMPTY, d).value, x);
      }
    }
  }

  /** For a clean vector FormXML emits the elements of the vector's tree. */
  lemma XmlOfClean(s: seq<Item>)
    requires Clean(s)
    ensures XmlItems(Fill(s)) == XmlForest(TreeOf(s))
  {
    ScanAgrees(s);
    XmlItemsAre(Fill(s));
  }

  // ---------------------------------------------------------------------
  // The reader

  datatype XNode = Elem(name: string, id: Option<string>, kids: XForest) | Txt(text: string)
  datatype XForest = XNil | XSnoc(init: XForest, last: XNode)

  /** The open elements, innermost first, each with what precedes it. */
  datatype Open = Top(done: XForest) | Within(up: Open, name: string, id: Option<string>, done: XForest)

  function Put(o: Open, x: XNode): Open {
    o.(done := XSnoc(o.done, x))
  }

  function Read(o: Open, t: Xml): Option<Open> {
    match t
    case StartTag(name, id) => Some(Within(o, name, id, XNil))
    case Chars(text) => Some(Put(o, Txt(text)))
    case EndTag(name) =>
      if o.Within? && o.name == name then Some(Put(o.up, Elem(name, o.id, o.done))) else None
  }

  function ReadAll(o: Open, s: seq<Xml>): Option<Open> {
    if s == [] then Some(o)
    else
      var r := ReadAll(o, s[..|s| - 1]);
      if r.None? then None else Read(r.value, s[|s| - 1])
  }

  /** One element and nothing beside it. */
  function ReadDocument(s: seq<Xml>): Option<XNode> {
    var r := ReadAll(Top(XNil), s);
    if r.Some? && r.value.Top? && r.value.done.XSnoc? && r.value.done.init.XNil? && r.value.done.last.Elem?
    then Some(r.value.done.last) else None
  }

  function XmlOf(x: XNode): seq<Xml> {
    match x
    case Elem(name, id, kids) => [StartTag(name, id)] + XmlOfAll(kids) + [EndTag(name)]
    case Txt(text) => [Chars(text)]
  }

  function XmlOfAll(f: XForest): seq<Xml> {
    match f
    case XNil => []
    case XSnoc(init, last) => XmlOfAll(init) + XmlOf(last)
  }

  function XmlOfOpen(o: Open): seq<Xml> {
    match o
    case Top(done) => XmlOfAll(done)
    case Within(up, name, id, done) => XmlOfOpen(up) + [StartTag(name, id)] + XmlOfAll(done)
  }

  lemma ReadAdds(o: Open, t: Xml)
    requires Read(o, t).Some?
    ensures XmlOfOpen(Read(o, t).value) == XmlOfOpen(o) + [t]
  {
    if t.EndTag? {
      Regroup(XmlOfOpen(o.up), [StartTag(o.name, o.id)], XmlOfAll(o.done), [t]);
      PutAdds(o.up, Elem(o.name, o.id, o.done));
    } else if t.Chars? {
      PutAdds(o, Txt(t.text));
    } else {
      assert XmlOfAll(XNil) == [];
    }
  }

  lemma PutAdds(o: Open, x: XNode)
    ensures XmlOfOpen(Put(o, x)) == XmlOfOpen(o) + XmlOf(x)
  {
  }

  lemma {:induction false} ReadAllAdds(o: Open, s: seq<Xml>)
    requires ReadAll(o, s).Some?
    ensures XmlOfOpen(ReadAll(o, s).value) == XmlOfOpen(o) + s
  {
    var n := |s| - 1;
    if n >= 0 {
      ReadAllAdds(o, s[..n]);
      ReadAdds(ReadAll(o, s[..n]).value, s[n]);
      assert s == s[..n] + [s[n]];
    }
  }

  lemma {:induction false} ReadAllJoin(o: Open, s: seq<Xml>, t: seq<Xml>)
    ensures ReadAll(o, s + t) == if ReadAll(o, s).None? then None else ReadAll(ReadAll(o, s).value, t)
  {
    var n := |t| - 1;
    if n < 0 {
      assert s + t == s;
    } else {
      ReadAllJoin(o, s, t[..n]);
      assert (s + t)[..|s + t| - 1] == s + t[..n];
    }
  }

  lemma ReadOne(o: Open, t: Xml)
    ensures ReadAll(o, [t]) == Read(o, t)
  {
    assert [t][..0] == [];
  }

  function Over(f: XForest, g: XForest): XForest {
    match g
    case XNil => f
    case XSnoc(init, last) => XSnoc(Over(f, init), last)
  }

  lemma {:induction false} OverNil(f: XForest)
    ensures Over(XNil, f) == f
  {
    if f.XSnoc? {
      OverNil(f.init);
    }
  }

  lemma {:induction false} NodeReads(o: Open, x: XNode)
    ensures ReadAll(o, XmlOf(x)) == Some(Put(o, x))
    decreases x
  {
    match x
    case Txt(text) => ReadOne(o, Chars(text));
    case Elem(name, id, kids) =>
      var w := Within(o, name, id, XNil);
      ReadOne(o, StartTag(name, id));
      ReadAllJoin(o, [StartTag(name, id)], XmlOfAll(kids));
      ForestReads(w, kids);
      ReadAllJoin(o, [StartTag(name, id)] + XmlOfAll(kids), [EndTag(name)]);
      ReadOne(w.(done := Over(XNil, kids)), EndTag(name));
      OverNil(kids);
  }

  lemma {:induction false} ForestReads(o: Open, f: XForest)
    ensures ReadAll(o, XmlOfAll(f)) == Some(o.(done := Over(o.done, f)))
    decreases f
  {
    if f.XSnoc? {
      ForestReads(o, f.init);
      ReadAllJoin(o, XmlOfAll(f.init), XmlOf(f.last));
      NodeReads(o.(done := Over(o.done, f.init)), f.last);
    }
  }

  /** The reader accepts exactly the properly nested documents, and reads each as what
      was printed. */
  lemma ReadExact(s: seq<Xml>, x: XNode)
    requires x.Elem?
    ensures ReadDocument(s) == Some(x) <==> s == XmlOf(x)
  {
    if ReadDocument(s) == Some(x) {
      ReadAllAdds(Top(XNil), s);
      assert XmlOfAll(XSnoc(XNil, x)) == XmlOf(x);
    }
    if s == XmlOf(x) {
      NodeReads(Top(XNil), x);
    }
  }

  /** The tree as XML shows it. */
  function Shown(n: Node): XNode {
    match n
    case Value(key, v) => Elem(key, None, XSnoc(XNil, Txt(ValText(v))))
    case Group(key, _, kids) => Elem(key, None, ShownAll(kids))
  }

  function ShownAll(f: Forest): XForest {
    match f
    case Nil => XNil
    case Snoc(init, last) => XSnoc(ShownAll(init), Shown(last))
  }

  lemma {:induction false} ShownPrints(n: Node)
    ensures XmlOf(Shown(n)) == XmlNode(n)
    decreases n
  {
    if n.Group? {
      ShownAllPrints(n.kids);
    } else {
      assert XmlOfAll(XSnoc(XNil, Txt(ValText(n.val)))) == [Chars(ValText(n.val))];
    }
  }

  lemma {:induction false} ShownAllPrints(f: Forest)
    ensures XmlOfAll(ShownAll(f)) == XmlForest(f)
    decreases f
  {
    if f.Snoc? {
      ShownAllPrints(f.init);
      ShownPrints(f.last);
    }
  }

  /** On a vector Validate says nothing about, FormXML's tags nest with matching names
      and read as one element: the set, and in it the vector's tree. */
  lemma XmlRoundTrip(name: string, s: seq<Item>)
    requires Clean(s)
    ensures ReadDocument(XmlSet(name, Fill(s))) == Some(Elem("stats", Some(name), ShownAll(TreeOf(s))))
  {
    XmlOfClean(s);
    ShownAllPrints(TreeOf(s));
    ReadExact(XmlSet(name, Fill(s)), Elem("stats", Some(name), ShownAll(TreeOf(s))));
  }
}
