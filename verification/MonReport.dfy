/**
 Validate and the printers together (XrdMonitor.cc, Register and Format): which vectors
 bring a nil pointer to a printer, and when what is printed reads back as the tree that
 was registered.
 */
module MonReport {
  import opened Lexing
  import opened MonItems
  import opened MonMeaning
  import opened MonPrint
  import opened MonTrees
  import opened Wrappers
  import J = MonJson
  import JT = MonJsonText
  import X = MonXml
  import XT = MonXmlText

  // ---------------------------------------------------------------------
  // Nil pointers

  /** No nil pointer is printed: the item has a key where one is, and its text. */
  predicate Printable(x: Item, json: bool) {
    && (x.key.Some? || x.kind.Mutex? || (json && (x.inArray || Ends(x.kind))))
    && (x.kind.Text? ==> x.kind.text.Some?)
  }

  predicate AllPrintable(s: seq<Item>, json: bool) {
    forall i | 0 <= i < |s| :: Printable(s[i], json)
  }

  /** What an item must have, after a scan and before Validate, for the printer: no nil
      text, and a key. JSON needs none in an array or at an end; XML none for a value or
      a beginning in an array or for an end that is paired. */
  predicate Supplies(sc: Scan, x: Item, json: bool) {
    var k := x.kind;
    k.Mutex? || (
      && (k.Text? ==> k.text.Some?)
      && (|| Keyed(x)
          || (if json then Ends(k) || InArray(sc)
              else if Ends(k) then Pairs(sc, k)
              else k != Schema(Unk) && InArray(sc))))
  }

  predicate Supplied(s: seq<Item>, i: nat, json: bool)
    requires i < |s|
  {
    Supplies(Scanned(s[..i]), s[i], json)
  }

  lemma PrintableFilled(sc: Scan, i: nat, x: Item, json: bool)
    requires !json && Pairs(sc, x.kind) ==> Top(sc).key.Some?
    ensures Printable(Filled(sc, i, x), json) <==> Supplies(sc, x, json)
  {
  }

  lemma TopIsKeyed(s: seq<Item>, i: nat)
    requires i <= |s| && AllPrintable(Fill(s[..i]), false) && Scanned(s[..i]).open != []
    ensures Top(Scanned(s[..i])).key.Some?
  {
    OpenWasFilled(s[..i]);
    var x := Top(Scanned(s[..i]));
    assert x in Fill(s[..i]) && Begins(x.kind);
    var j :| 0 <= j < |Fill(s[..i])| && Fill(s[..i])[j] == x;
    assert Printable(x, false);
  }

  lemma PrintableAt(s: seq<Item>, i: nat, json: bool)
    requires i < |s| && (json || AllPrintable(Fill(s[..i]), false))
    ensures Printable(Fill(s)[i], json) <==> Supplied(s, i, json)
  {
    FillAt(s, i);
    if !json && Pairs(Scanned(s[..i]), s[i].kind) {
      TopIsKeyed(s, i);
    }
    PrintableFilled(Scanned(s[..i]), i, s[i], json);
  }

  lemma SuppliedBefore(s: seq<Item>, n: nat, i: nat, json: bool)
    requires i < n <= |s|
    ensures Supplied(s[..n], i, json) == Supplied(s, i, json)
  {
    assert s[..n][..i] == s[..i];
  }

  lemma AllPrintableNext(s: seq<Item>, x: Item, json: bool)
    ensures AllPrintable(s + [x], json) <==> AllPrintable(s, json) && Printable(x, json)
  {
    if AllPrintable(s + [x], json) {
      assert forall i | 0 <= i < |s| :: (s + [x])[i] == s[i];
      assert (s + [x])[|s|] == x;
    }
  }

  predicate AllSupplied(s: seq<Item>, json: bool) {
    forall i | 0 <= i < |s| :: Supplied(s, i, json)
  }

  lemma AllSuppliedNext(s: seq<Item>, json: bool)
    requires s != []
    ensures AllSupplied(s, json) <==> AllSupplied(s[..|s| - 1], json) && Supplied(s, |s| - 1, json)
  {
    var n := |s| - 1;
    forall i | 0 <= i < n ensures Supplied(s[..n], i, json) == Supplied(s, i, json) {
      SuppliedBefore(s, n, i, json);
    }
  }

  /** A registered vector prints without a nil pointer exactly when every item is
      supplied with what the printer needs. */
  lemma {:induction false} PrintableExact(s: seq<Item>, json: bool)
    ensures AllPrintable(Fill(s), json) <==> AllSupplied(s, json)
  {
    var n := |s| - 1;
    if n >= 0 {
      PrintableExact(s[..n], json);
      AllSuppliedNext(s, json);
      AllPrintableNext(Fill(s[..n]), Fill(s)[n], json);
      if AllPrintable(Fill(s[..n]), json) {
        PrintableAt(s, n, json);
      }
    }
  }

  /** A vector that Validate accepts and that brings a nil key to both printers: a value
      without a key outside an array. */
  lemma NilKeyPrinted(d: string)
    ensures var s := [Item(None, Binary(d), false, 0)];
            && Messages(Scanned(s)) == 1
            && Fill(s) == s && !AllPrintable(s, true) && !AllPrintable(s, false)
            && JsonSoFar(s, "(null)").text == "\"(null)\":" + d
  {
    var x := Item(None, Binary(d), false, 0);
    assert [x][..0] == [] && Scanned([]) == START && Fill([]) == [];
    assert Filled(START, 0, x) == x && !Printable(x, true) && !Printable(x, false);
    assert [x][0] == x;
    assert "\"" + "(null)" + "\":" == "\"(null)\":";
  }

  lemma {:induction false} FedItem(z: Zip, s: seq<Item>, i: nat)
    requires FeedAll(z, s).Some? && i < |s|
    ensures s[i].key.Some? && (s[i].kind.Text? ==> s[i].kind.text.Some?)
  {
    if i < |s| - 1 {
      FedItem(z, s[..|s| - 1], i);
    }
  }

  lemma {:induction false} DataHas(s: seq<Item>, i: nat)
    requires i < |s| && !s[i].kind.Mutex?
    ensures s[i].(inum := 0) in Data(s)
  {
    if i < |s| - 1 {
      DataHas(s[..|s| - 1], i);
    }
  }

  /** No nil pointer is printed of a vector Validate is silent about. */
  lemma CleanPrintable(s: seq<Item>, json: bool)
    requires Clean(s)
    ensures AllPrintable(Fill(s), json)
  {
    ScanAgrees(s);
    var d := Data(Fill(s));
    forall i | 0 <= i < |s| ensures Printable(Fill(s)[i], json) {
      if !Fill(s)[i].kind.Mutex? {
        DataHas(Fill(s), i);
        var k :| 0 <= k < |d| && d[k] == Fill(s)[i].(inum := 0);
        FedItem(EMPTY, d, k);
      }
    }
  }

  /** A complete run of a printer locks and unlocks every mutex in turn and leaves none
      locked. */
  ghost predicate Balanced(ops: seq<Op>) {
    Proper(ops) && HeldAre(ops, {})
  }

  lemma SameNumbers(s: seq<Item>)
    ensures NumbersPrint(Fill(s)) <==> NumbersPrint(s)
  {
    forall i | 0 <= i < |s| ensures Fill(s)[i].kind == s[i].kind {
      FillExact(s, i);
    }
  }

  /** Registration keeps at most 511 characters of a header. */
  function Header(text: string): string {
    if |text| <= 511 then text else text[..511]
  }

  // ---------------------------------------------------------------------
  // JSON

  lemma ValueTextIs(k: Kind, nil: string)
    requires k.Text? ==> k.text.Some?
    ensures JT.JsonText(J.JsonValue(k)) == ValueText(k, nil)
  {
    if k.Binary? || k.Text? || Begins(k) {
      TextOne(JT.TokText, J.JsonValue(k)[0]);
    }
  }

  function KeyToks(x: Item): seq<J.Tok> {
    if x.inArray then [] else [J.Str(J.Name(x)), J.Colon]
  }

  lemma KeyTextIs(x: Item, nil: string)
    requires x.key.Some? || x.inArray
    ensures JT.JsonText(KeyToks(x)) == KeyText(x, nil)
  {
    if !x.inArray {
      var key := J.Name(x);
      TextOne(JT.TokText, J.Colon);
      assert [J.Str(key), J.Colon][1..] == [J.Colon];
      assert "\"" + key + "\":" == "\"" + key + "\"" + ":";
    }
  }

  function SepToks(first: bool): seq<J.Tok> {
    if first then [] else [J.Comma]
  }

  lemma ItemTextIs(first: bool, x: Item, nil: string)
    requires Printable(x, true)
    ensures JT.JsonText(J.JsonItem(first, x)) == JsonItemText(first, x, nil)
  {
    if Ends(x.kind) {
      TextOne(JT.TokText, J.JsonItem(first, x)[0]);
    } else if !x.kind.Mutex? {
      assert J.JsonItem(first, x) == SepToks(first) + KeyToks(x) + J.JsonValue(x.kind);
      TextJoin3(JT.TokText, SepToks(first), KeyToks(x), J.JsonValue(x.kind));
      TextOne(JT.TokText, J.Comma);
      KeyTextIs(x, nil);
      ValueTextIs(x.kind, nil);
    }
  }

  lemma EmptyText(first: bool, x: Item, nil: string)
    requires !NoNumber(x)
    ensures J.JsonItem(first, x) == [] <==> JsonItemText(first, x, nil) == ""
  {
    if !x.kind.Mutex? && !Ends(x.kind) && first && x.inArray {
      assert J.JsonItem(first, x) == J.JsonValue(x.kind);
    }
  }

  /** The text is that of the tokens. */
  lemma {:induction false} JsonTextIs(s: seq<Item>, nil: string)
    requires AllPrintable(s, true) && NumbersPrint(s)
    ensures JsonSoFar(s, nil) == Printed(JT.JsonText(J.JsonItems(s)), J.Fresh(s))
  {
    var n := |s| - 1;
    if n >= 0 {
      JsonTextIs(s[..n], nil);
      var first := J.Fresh(s[..n]);
      TextJoin(JT.TokText, J.JsonItems(s[..n]), J.JsonItem(first, s[n]));
      ItemTextIs(first, s[n], nil);
      EmptyText(first, s[n], nil);
    }
  }

  function JsonHead(name: string): string {
    "\"stats_" + name + "\":{"
  }

  lemma Regroup<T>(a: seq<T>, b: seq<T>, n: seq<T>, c: seq<T>, d: seq<T>, e: seq<T>)
    ensures a + (b + n) + c + (d + e) == a + b + n + (c + d + e)
  {
  }

  lemma JsonHeadText(name: string)
    ensures JT.JsonText([J.Str("stats_" + name), J.Colon, J.LBrace]) == JsonHead(name)
  {
    var key := "stats_" + name;
    assert [J.Str(key)] + [J.Colon] + [J.LBrace] == [J.Str(key), J.Colon, J.LBrace];
    TextJoin3(JT.TokText, [J.Str(key)], [J.Colon], [J.LBrace]);
    TextOne(JT.TokText, J.Str(key));
    TextOne(JT.TokText, J.Colon);
    TextOne(JT.TokText, J.LBrace);
    Regroup("\"", "stats_", name, "\"", ":", "{");
    assert "\"" + "stats_" == "\"stats_" && "\"" + ":" + "{" == "\":{";
  }

  /** What is printed of a set is the text of its tokens, as far as the header's buffer
      allows. */
  lemma JsonSetTextIs(name: string, s: seq<Item>, nil: string)
    requires AllPrintable(s, true) && NumbersPrint(s)
    ensures JsonSetText(JsonHead(name), s, nil) == JT.JsonText(J.JsonSet(name, s))
    ensures JsonSetText(Header(JsonHead(name)), s, nil) == JT.JsonText(J.JsonSet(name, s)) <==> |name| <= 501
  {
    var h := [J.Str("stats_" + name), J.Colon, J.LBrace];
    JsonHeadText(name);
    JsonTextIs(s, nil);
    TextJoin(JT.TokText, h + J.JsonItems(s), [J.RBrace]);
    TextJoin(JT.TokText, h, J.JsonItems(s));
    TextOne(JT.TokText, J.RBrace);
    assert |JsonHead(name)| == |name| + 10;
  }

  /** What JSON prints of the item needs no escapes, and a number is one. */
  predicate JsonPlain(x: Item) {
    x.kind.Mutex? || Ends(x.kind) || (
      && (x.inArray || All(JT.Unescaped, J.Name(x)))
      && (x.kind.Binary? ==> JT.IsNumber(x.kind.digits))
      && (x.kind.Text? && x.kind.text.Some? ==> All(JT.Unescaped, x.kind.text.value)))
  }

  lemma ItemPlain(first: bool, x: Item)
    ensures JT.AllPlain(J.JsonItem(first, x)) <==> JsonPlain(x)
  {
    if !x.kind.Mutex? && !Ends(x.kind) {
      var sep, key, val := SepToks(first), KeyToks(x), J.JsonValue(x.kind);
      assert J.JsonItem(first, x) == sep + key + val;
      EveryJoin(JT.Plain, sep + key, val);
      EveryJoin(JT.Plain, sep, key);
      assert JT.AllPlain(key) <==> x.inArray || JT.Plain(key[0]);
      if x.kind.Binary? || x.kind.Text? {
        assert JT.AllPlain(val) <==> JT.Plain(val[0]);
      }
    }
  }

  predicate AllJsonPlain(s: seq<Item>) {
    forall i | 0 <= i < |s| :: JsonPlain(s[i])
  }

  lemma AllJsonPlainNext(s: seq<Item>)
    requires s != []
    ensures AllJsonPlain(s) <==> AllJsonPlain(s[..|s| - 1]) && JsonPlain(s[|s| - 1])
  {
    assert forall i | 0 <= i < |s| - 1 :: s[..|s| - 1][i] == s[i];
  }

  lemma {:induction false} JsonItemsPlain(s: seq<Item>)
    ensures JT.AllPlain(J.JsonItems(s)) <==> AllJsonPlain(s)
  {
    var n := |s| - 1;
    if n >= 0 {
      JsonItemsPlain(s[..n]);
      AllJsonPlainNext(s);
      EveryJoin(JT.Plain, J.JsonItems(s[..n]), J.JsonItem(J.Fresh(s[..n]), s[n]));
      ItemPlain(J.Fresh(s[..n]), s[n]);
    }
  }

  lemma JsonSetPlain(name: string, s: seq<Item>)
    ensures JT.AllPlain(J.JsonSet(name, s)) <==> All(JT.Unescaped, name) && AllJsonPlain(s)
  {
    var h := [J.Str("stats_" + name), J.Colon, J.LBrace];
    EveryJoin(JT.Plain, h + J.JsonItems(s), [J.RBrace]);
    EveryJoin(JT.Plain, h, J.JsonItems(s));
    JsonItemsPlain(s);
    var key := "stats_" + name;
    assert JT.AllPlain(h) <==> JT.Plain(h[0]);
    assert All(JT.Unescaped, key) <==> All(JT.Unescaped, "stats_") && All(JT.Unescaped, name);
  }

  /** Mutexes and positions do not matter to what is plain. */
  lemma {:induction false} JsonDataPlain(s: seq<Item>)
    ensures AllJsonPlain(Data(s)) <==> AllJsonPlain(s)
  {
    if s != [] {
      var n := |s| - 1;
      JsonDataPlain(s[..n]);
      AllJsonPlainNext(s);
      if s[n].kind.Mutex? {
        assert Data(s) == Data(s[..n]);
      } else {
        AllJsonPlainNext(Data(s));
        assert Data(s)[..|Data(s)| - 1] == Data(s[..n]);
        assert JsonPlain(s[n].(inum := 0)) == JsonPlain(s[n]);
      }
    }
  }

  /** The member that stands for a set whose items register the tree. */
  ghost function JsonTree(name: string, f: Forest): Node {
    Group("stats_" + name, false, J.BareAll(f, false))
  }

  /** Nothing of the set needs what the printer does not do: the name fits the header,
      no escapes are needed, and every number is a JSON number. */
  predicate JsonSafe(name: string, f: Forest) {
    |name| <= 501 && All(JT.Unescaped, name) && AllJsonPlain(FlatAll(f, false))
  }

  /** What is printed of a set that registers a tree reads back, character by character, as
      that tree exactly when nothing in it needs escapes. */
  lemma JsonReport(name: string, s: seq<Item>, f: Forest, nil: string)
    requires Registers(s, f) && NumbersPrint(s)
    ensures JT.ReadMember(JsonSetText(Header(JsonHead(name)), Fill(s), nil)) == Some(JsonTree(name, f)) <==>
              JsonSafe(name, f)
  {
    RegistersClean(s, f);
    RegisteredFill(s, f);
    SameNumbers(s);
    JsonDataPlain(Fill(s));
    CleanPrintable(s, true);
    JsonSetTextIs(name, Fill(s), nil);
    JsonSetPlain(name, Fill(s));
    J.JsonOfClean(name, s);
    J.BareTwice(Group("stats_" + name, false, f), false);
    JT.ReadExact(JsonSetText(Header(JsonHead(name)), Fill(s), nil), JsonTree(name, f));
  }

  // ---------------------------------------------------------------------
  // XML

  lemma XmlItemTextIs(x: Item, nil: string)
    requires Printable(x, false)
    ensures XT.XmlText(X.XmlItem(x)) == XmlItemText(x, nil)
  {
    if Begins(x.kind) || Ends(x.kind) {
      TextOne(XT.TagText, X.XmlItem(x)[0]);
    } else if !x.kind.Mutex? {
      var b, e := [X.StartTag(X.Name(x), None)], [X.EndTag(X.Name(x))];
      var c := if x.kind.Schema? then [] else [X.Chars(BodyText(x.kind, nil))];
      TextJoin3(XT.TagText, b, c, e);
      TextOne(XT.TagText, X.Chars(BodyText(x.kind, nil)));
      TextOne(XT.TagText, b[0]);
      TextOne(XT.TagText, e[0]);
    }
  }

  lemma {:induction false} XmlTextIs(s: seq<Item>, nil: string)
    requires AllPrintable(s, false)
    ensures XmlSoFar(s, nil) == XT.XmlText(X.XmlItems(s))
  {
    var n := |s| - 1;
    if n >= 0 {
      XmlTextIs(s[..n], nil);
      TextJoin(XT.TagText, X.XmlItems(s[..n]), X.XmlItem(s[n]));
      XmlItemTextIs(s[n], nil);
    }
  }

  function XmlHead(name: string): string {
    "<stats id=\"" + name + "\">"
  }

  lemma XmlHeadText(name: string)
    ensures XT.XmlText([X.StartTag("stats", Some(name))]) == XmlHead(name)
    ensures XT.XmlText([X.EndTag("stats")]) == "</stats>"
  {
    TextOne(XT.TagText, X.StartTag("stats", Some(name)));
    TextOne(XT.TagText, X.EndTag("stats"));
    assert "<" + "stats" + (" id=\"" + name + "\">") == "<stats id=\"" + name + "\">";
    assert "</" + "stats" + ">" == "</stats>";
  }

  lemma XmlSetTextIs(name: string, s: seq<Item>, nil: string)
    requires AllPrintable(s, false)
    ensures XmlSetText(XmlHead(name), s, nil) == XT.XmlText(X.XmlSet(name, s))
    ensures XmlSetText(Header(XmlHead(name)), s, nil) == XT.XmlText(X.XmlSet(name, s)) <==> |name| <= 498
  {
    var b, e := [X.StartTag("stats", Some(name))], [X.EndTag("stats")];
    XmlHeadText(name);
    XmlTextIs(s, nil);
    TextJoin(XT.TagText, b + X.XmlItems(s), e);
    TextJoin(XT.TagText, b, X.XmlItems(s));
    assert |XmlHead(name)| == |name| + 13;
  }

  /** What XML prints of the item stands for itself: the key is a name, the value is not
      empty and needs no references. */
  predicate XmlPlain(x: Item) {
    x.kind.Mutex? || (
      && XT.IsName(X.Name(x))
      && (x.kind.Binary? ==> XT.IsText(x.kind.digits))
      && (x.kind.Text? ==> x.kind.text.Some? && XT.IsText(x.kind.text.value)))
  }

  lemma ElementPlain(name: string, body: seq<X.Xml>)
    ensures XT.AllPlain(X.Element(name, body)) <==> XT.IsName(name) && XT.AllPlain(body)
  {
    var b, e := [X.StartTag(name, None)], [X.EndTag(name)];
    EveryJoin(XT.Plain, b + body, e);
    EveryJoin(XT.Plain, b, body);
    assert XT.AllPlain(b) <==> XT.Plain(b[0]);
    assert XT.AllPlain(e) <==> XT.Plain(e[0]);
  }

  lemma XmlItemPlain(x: Item)
    ensures XT.AllPlain(X.XmlItem(x)) <==> XmlPlain(x)
  {
    var t := X.XmlItem(x);
    if Begins(x.kind) || Ends(x.kind) {
      assert XT.AllPlain(t) <==> XT.Plain(t[0]);
    } else if x.kind.Schema? {
      ElementPlain(X.Name(x), []);
    } else if !x.kind.Mutex? {
      var body := [t[1]];
      ElementPlain(X.Name(x), body);
      assert XT.AllPlain(body) <==> XT.Plain(body[0]);
    }
  }

  predicate AllXmlPlain(s: seq<Item>) {
    forall i | 0 <= i < |s| :: XmlPlain(s[i])
  }

  lemma AllXmlPlainNext(s: seq<Item>)
    requires s != []
    ensures AllXmlPlain(s) <==> AllXmlPlain(s[..|s| - 1]) && XmlPlain(s[|s| - 1])
  {
    assert forall i | 0 <= i < |s| - 1 :: s[..|s| - 1][i] == s[i];
  }

  lemma {:induction false} XmlItemsPlain(s: seq<Item>)
    ensures XT.AllPlain(X.XmlItems(s)) <==> AllXmlPlain(s)
  {
    var n := |s| - 1;
    if n >= 0 {
      XmlItemsPlain(s[..n]);
      AllXmlPlainNext(s);
      EveryJoin(XT.Plain, X.XmlItems(s[..n]), X.XmlItem(s[n]));
      XmlItemPlain(s[n]);
    }
  }

  lemma XmlSetPlain(name: string, s: seq<Item>)
    ensures XT.AllPlain(X.XmlSet(name, s)) <==> All(XT.AttChar, name) && AllXmlPlain(s)
  {
    var b, e := [X.StartTag("stats", Some(name))], [X.EndTag("stats")];
    EveryJoin(XT.Plain, b + X.XmlItems(s), e);
    EveryJoin(XT.Plain, b, X.XmlItems(s));
    XmlItemsPlain(s);
    assert XT.AllPlain(b) <==> XT.Plain(b[0]);
    assert XT.AllPlain(e) <==> XT.Plain(e[0]);
  }

  lemma {:induction false} XmlDataPlain(s: seq<Item>)
    ensures AllXmlPlain(Data(s)) <==> AllXmlPlain(s)
  {
    if s != [] {
      var n := |s| - 1;
      XmlDataPlain(s[..n]);
      AllXmlPlainNext(s);
      if s[n].kind.Mutex? {
        assert Data(s) == Data(s[..n]);
      } else {
        AllXmlPlainNext(Data(s));
        assert Data(s)[..|Data(s)| - 1] == Data(s[..n]);
        assert XmlPlain(s[n].(inum := 0)) == XmlPlain(s[n]);
      }
    }
  }

  ghost function XmlTree(name: string, f: Forest): X.XNode {
    X.Elem("stats", Some(name), X.ShownAll(f))
  }

  predicate XmlSafe(name: string, f: Forest) {
    |name| <= 498 && All(XT.AttChar, name) && AllXmlPlain(FlatAll(f, false))
  }

  /** The same for XML; keys must also be XML names, and no value may be empty. */
  lemma XmlReport(name: string, s: seq<Item>, f: Forest, nil: string)
    requires Registers(s, f)
    ensures XT.ReadChars(XmlSetText(Header(XmlHead(name)), Fill(s), nil)) == Some(XmlTree(name, f)) <==>
              XmlSafe(name, f)
  {
    RegistersClean(s, f);
    RegisteredFill(s, f);
    XmlDataPlain(Fill(s));
    CleanPrintable(s, false);
    XmlSetTextIs(name, Fill(s), nil);
    XmlSetPlain(name, Fill(s));
    X.XmlOfClean(s);
    assert X.XmlSet(name, Fill(s)) == XT.Document(name, f);
    XT.ReadCharsExact(XmlSetText(Header(XmlHead(name)), Fill(s), nil), name, f);
  }

  // ---------------------------------------------------------------------
  // Register and Format

  /** What a text and the mutex operations done for it are worth to a client: it reads
      back as the set's tree exactly when nothing in the set needs escapes, and the
      mutexes are locked and unlocked in turn. */
  ghost predicate JsonGood(name: string, f: Forest, text: string, locks: seq<Op>) {
    && (JT.ReadMember(text) == Some(JsonTree(name, f)) <==> JsonSafe(name, f))
    && Balanced(locks)
  }

  ghost predicate XmlGood(name: string, f: Forest, text: string, locks: seq<Op>) {
    && (XT.ReadChars(text) == Some(XmlTree(name, f)) <==> XmlSafe(name, f))
    && Balanced(locks)
  }

  lemma GoodJson(name: string, s: seq<Item>, nil: string)
    ensures forall f | Registers(s, f) && NumbersPrint(s) ::
              JsonGood(name, f, JsonSetText(Header(JsonHead(name)), Fill(s), nil), Ops(Fill(s)))
  {
    forall f | Registers(s, f) && NumbersPrint(s)
      ensures JsonGood(name, f, JsonSetText(Header(JsonHead(name)), Fill(s), nil), Ops(Fill(s)))
    {
      JsonReport(name, s, f, nil);
      SameOps(s);
    }
  }

  lemma GoodXml(name: string, s: seq<Item>, nil: string)
    ensures forall f | Registers(s, f) ::
              XmlGood(name, f, XmlSetText(Header(XmlHead(name)), Fill(s), nil), Ops(Fill(s)))
  {
    forall f | Registers(s, f)
      ensures XmlGood(name, f, XmlSetText(Header(XmlHead(name)), Fill(s), nil), Ops(Fill(s)))
    {
      XmlReport(name, s, f, nil);
      SameOps(s);
    }
  }

  /** Registers a set and formats it as JSON once. Validate says nothing exactly if the set
      registers a tree, and then a text that is printed is good; none is printed exactly when
      the buffer is too small or a number cannot be formatted. */
  method ReportJson(name: string, items: array<Item>, buff: array<char>, bsize: nat, nil: string)
      returns (ok: bool, log: nat, bLen: nat, locks: seq<Op>)
    requires bsize <= buff.Length
    modifies items, buff
    ensures bLen <= bsize && buff[bsize..] == old(buff[bsize..])
    ensures ok <==> items.Length > 0
    ensures ok ==> items[..] == Fill(old(items[..])) && log == Messages(Scanned(old(items[..])))
    ensures ok ==> var t := JsonSetText(Header(JsonHead(name)), items[..], nil);
                   bLen == 0 <==> |t| > bsize || !NumbersPrint(items[..])
    ensures ok ==> locks == Ops(items[..JsonStop(Header(JsonHead(name)), items[..], nil, bsize)])
    ensures ok ==> (log == 0 <==> exists f :: Registers(old(items[..]), f))
    ensures forall f | ok && bLen > 0 && Registers(old(items[..]), f) :: JsonGood(name, f, buff[..bLen], locks)
    ensures !ok ==> bLen == 0 && locks == []
  {
    if items.Length == 0 { return false, 0, 0, []; }
    ghost var s := items[..];
    ok, log := Validate(items);
    bLen, locks := FormJSON(Header("\"stats_" + name + "\":{"), items, buff, bsize, nil);
    MeaningExact(s);
    SameNumbers(s);
    GoodJson(name, s, nil);
  }

  /** The same for XML, where an empty value makes the printer give up. */
  method ReportXml(name: string, items: array<Item>, buff: array<char>, bsize: nat, nil: string)
      returns (ok: bool, log: nat, bLen: nat, locks: seq<Op>)
    requires bsize <= buff.Length
    modifies items, buff
    ensures bLen <= bsize && buff[bsize..] == old(buff[bsize..])
    ensures ok <==> items.Length > 0
    ensures ok ==> items[..] == Fill(old(items[..])) && log == Messages(Scanned(old(items[..])))
    ensures ok ==> var t := XmlSetText(Header(XmlHead(name)), items[..], nil);
                   bLen == 0 <==> |t| >= bsize || !ValuesPrint(items[..], nil)
    ensures ok ==> locks == Ops(items[..XmlStop(Header(XmlHead(name)), items[..], nil, bsize)])
    ensures ok ==> (log == 0 <==> exists f :: Registers(old(items[..]), f))
    ensures forall f | ok && bLen > 0 && Registers(old(items[..]), f) :: XmlGood(name, f, buff[..bLen], locks)
    ensures !ok ==> bLen == 0 && locks == []
  {
    if items.Length == 0 { return false, 0, 0, []; }
    ghost var s := items[..];
    ok, log := Validate(items);
    bLen, locks := FormXML(Header("<stats id=\"" + name + "\">"), items, buff, bsize, nil);
    MeaningExact(s);
    GoodXml(name, s, nil);
  }
}
