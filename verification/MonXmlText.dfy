/**
 XML tags and texts as the characters FormXML prints, and the part of XML 1.0 that
 reads them back: start tags with at most the one attribute, end tags, and character
 data, without references (sections 2.2 to 2.4 and 3.1).
 */
module MonXmlText {
  import opened Lexing
  import opened MonTrees
  import opened MonXml
  import opened Wrappers

  /** What closes a start tag. */
  function TagTail(id: Option<string>): string {
    if id.None? then ">" else " id=\"" + id.value + "\">"
  }

  function TagText(t: Xml): string {
    match t
    case StartTag(name, id) => "<" + name + TagTail(id)
    case EndTag(name) => "</" + name + ">"
    case Chars(text) => text
  }

  function XmlText(t: seq<Xml>): string {
    Text(TagText, t)
  }

  // ---------------------------------------------------------------------
  // Characters

  predicate Between(c: char, low: int, high: int) {
    low <= c as int <= high
  }

  predicate NameStart(c: char) {
    || 'a' <= c <= 'z' || 'A' <= c <= 'Z' || c == '_' || c == ':'
    || Between(c, 0xC0, 0xD6) || Between(c, 0xD8, 0xF6) || Between(c, 0xF8, 0x2FF)
    || Between(c, 0x370, 0x37D) || Between(c, 0x37F, 0x1FFF) || Between(c, 0x200C, 0x200D)
    || Between(c, 0x2070, 0x218F) || Between(c, 0x2C00, 0x2FEF) || Between(c, 0x3001, 0xD7FF)
    || Between(c, 0xF900, 0xFDCF) || Between(c, 0xFDF0, 0xFFFD) || Between(c, 0x10000, 0xEFFFF)
  }

  predicate NameChar(c: char) {
    || NameStart(c) || '0' <= c <= '9' || c == '-' || c == '.' || c as int == 0xB7
    || Between(c, 0x300, 0x36F) || Between(c, 0x203F, 0x2040)
  }

  predicate IsName(s: string) {
    s != "" && NameStart(s[0]) && All(NameChar, s)
  }

  /** The characters of XML, section 2.2. */
  predicate XmlChar(c: char) {
    || c == '\t' || c == '\n' || c == '\r'
    || (c as int >= 0x20 && !Between(c, 0xD800, 0xDFFF) && !Between(c, 0xFFFE, 0xFFFF))
  }

  /** An attribute's character that stands for itself; a tab or a line end would be
      read as a blank. */
  predicate AttChar(c: char) {
    XmlChar(c) && c as int >= 0x20 && c != '<' && c != '&' && c != '"'
  }

  predicate NotTag(c: char) {
    c != '<'
  }

  /** A text's character that stands for itself; a carriage return would be read as a
      line feed. */
  predicate TextChar(c: char) {
    XmlChar(c) && c != '\r' && c != '<' && c != '&'
  }

  /** Character data may not hold the end of a CDATA section. */
  predicate HasSectionEnd(s: string) {
    |s| >= 3 && (s[..3] == "]]>" || HasSectionEnd(s[1..]))
  }

  predicate IsText(s: string) {
    s != "" && All(TextChar, s) && !HasSectionEnd(s)
  }

  /** The tag or text stands for itself. */
  predicate Plain(t: Xml) {
    match t
    case StartTag(name, id) => IsName(name) && (id.Some? ==> All(AttChar, id.value))
    case EndTag(name) => IsName(name)
    case Chars(text) => IsText(text)
  }

  // ---------------------------------------------------------------------
  // Reading characters

  /** What follows the name in a start tag: an id, or none, and the rest. */
  function ReadTail(s: string): Option<(Option<string>, string)> {
    if After(s, ">").Some? then Some((None, After(s, ">").value))
    else
      var v := After(s, " id=\"");
      if v.None? then None
      else
        var (id, q) := Span(AttChar, v.value);
        var w := After(q, "\">");
        if w.None? then None else Some((Some(id), w.value))
  }

  lemma ReadTailExact(s: string, id: Option<string>, rest: string)
    ensures ReadTail(s) == Some((id, rest)) <==> s == TagTail(id) + rest && (id.Some? ==> All(AttChar, id.value))
  {
    if id.None? {
      AfterExact(s, ">", rest);
    } else {
      var more := id.value + ("\">" + rest);
      assert TagTail(id) + rest == " id=\"" + more && (TagTail(id) + rest)[0] == ' ';
      AfterExact(s, " id=\"", more);
      if After(s, ">").Some? {
        AfterExact(s, ">", After(s, ">").value);
        assert s[0] == '>';
      } else if After(s, " id=\"").Some? {
        var v := After(s, " id=\"").value;
        AfterExact(s, " id=\"", v);
        SpanExact(AttChar, v, id.value, "\">" + rest);
        AfterExact(Span(AttChar, v).1, "\">", rest);
      }
    }
  }

  /** The first tag or text, and the characters after it. */
  function First(s: string): Option<(Xml, string)> {
    if s == "" then None
    else if s[0] != '<' then
      var (text, rest) := Span(NotTag, s);
      if IsText(text) then Some((Chars(text), rest)) else None
    else if After(s, "</").Some? then
      var (name, q) := Span(NameChar, s[2..]);
      var rest := After(q, ">");
      if IsName(name) && rest.Some? then Some((EndTag(name), rest.value)) else None
    else
      var (name, q) := Span(NameChar, s[1..]);
      var r := ReadTail(q);
      if IsName(name) && r.Some? then Some((StartTag(name, r.value.0), r.value.1)) else None
  }

  lemma FirstIsText(s: string, t: Xml, rest: string)
    requires s != "" && s[0] != '<'
    ensures First(s) == Some((t, rest)) <==> s == TagText(t) + rest && Plain(t) && (t.Chars? ==> !Starts(NotTag, rest))
  {
    if t.Chars? {
      SpanExact(NotTag, s, t.text, rest);
    }
  }

  /** What the first characters of a tag or text tell. */
  lemma KindShows(t: Xml, rest: string)
    requires Plain(t)
    ensures var s := TagText(t) + rest;
            && s != "" && (s[0] == '<' <==> !t.Chars?)
            && (After(s, "</").Some? <==> t.EndTag?)
  {
    match t
    case Chars(text) =>
      assert text[0] in text;
    case EndTag(name) =>
      AfterExact(TagText(t) + rest, "</", name + (">" + rest));
      assert TagText(t) + rest == "</" + (name + (">" + rest));
    case StartTag(name, id) =>
      assert (TagText(t) + rest)[1] == name[0];
  }

  lemma FirstIsEnd(s: string, name: string, rest: string)
    requires After(s, "</").Some?
    ensures First(s) == Some((EndTag(name), rest)) <==> s == TagText(EndTag(name)) + rest && IsName(name)
  {
    var q := Span(NameChar, s[2..]).1;
    AfterExact(s, "</", s[2..]);
    SpanExact(NameChar, s[2..], name, ">" + rest);
    AfterExact(q, ">", rest);
    assert TagText(EndTag(name)) + rest == "</" + (name + (">" + rest));
  }

  lemma NameThenTail(u: string, name: string, id: Option<string>, rest: string)
    ensures u == name + (TagTail(id) + rest) && All(NameChar, name) <==> Span(NameChar, u) == (name, TagTail(id) + rest)
  {
    var more := TagTail(id) + rest;
    assert more[0] == if id.None? then '>' else ' ';
    SpanExact(NameChar, u, name, more);
  }

  lemma FirstIsStart(s: string, name: string, id: Option<string>, rest: string)
    requires s != "" && s[0] == '<' && After(s, "</").None?
    ensures First(s) == Some((StartTag(name, id), rest)) <==>
              s == TagText(StartTag(name, id)) + rest && Plain(StartTag(name, id))
  {
    var q, more := Span(NameChar, s[1..]).1, TagTail(id) + rest;
    NameThenTail(s[1..], name, id, rest);
    ReadTailExact(q, id, rest);
    assert s == "<" + s[1..];
    Assoc("<" + name, TagTail(id), rest);
    Assoc("<", name, more);
  }

  /** A tag or text is read from exactly its own characters, and a text only to its end. */
  lemma FirstExact(s: string, t: Xml, rest: string)
    requires s != ""
    ensures First(s) == Some((t, rest)) <==> s == TagText(t) + rest && Plain(t) && (t.Chars? ==> !Starts(NotTag, rest))
  {
    if Plain(t) {
      KindShows(t, rest);
    }
    if s[0] != '<' {
      FirstIsText(s, t, rest);
    } else if After(s, "</").Some? {
      if t.EndTag? { FirstIsEnd(s, t.name, rest); }
    } else {
      if t.StartTag? { FirstIsStart(s, t.name, t.id, rest); }
    }
  }

  // ---------------------------------------------------------------------
  // Whole texts

  predicate AllPlain(t: seq<Xml>) {
    Every(Plain, t)
  }

  predicate IsChars(t: Xml) {
    t.Chars?
  }

  lemma ReadsTags()
    ensures Reads(First, TagText, Plain, IsChars, NotTag)
  {
    forall s, t, rest ensures ReadsOne(First, TagText, Plain, IsChars, NotTag, s, t, rest) {
      if s != "" { FirstExact(s, t, rest); }
    }
    forall t ensures ShowsOne(TagText, Plain, IsChars, NotTag, t) {
      if t.Chars? && Plain(t) { assert t.text[0] in t.text; }
    }
  }

  /** Characters are read as tags and texts exactly when they are those of tags and texts
      that stand for themselves, with no text next to a text. */
  lemma TagsExact(s: string, t: seq<Xml>)
    ensures Lex(First, s) == Some(t) <==> s == XmlText(t) && AllPlain(t) && Spaced(IsChars, t)
  {
    ReadsTags();
    LexExact(First, TagText, Plain, IsChars, NotTag, s, t);
  }

  // ---------------------------------------------------------------------
  // Printed sets

  lemma ElementSpaced(b: Xml, body: seq<Xml>, e: Xml)
    requires b.StartTag? && Spaced(IsChars, body) && !Leads(IsChars, body) && e.EndTag?
    ensures Spaced(IsChars, [b] + body + [e])
  {
    SpacedJoin(IsChars, [b], body);
    SpacedJoin(IsChars, [b] + body, [e]);
  }

  lemma {:induction false} NodeSpaced(n: Node)
    ensures Spaced(IsChars, XmlNode(n)) && !Leads(IsChars, XmlNode(n))
    decreases n
  {
    if n.Group? {
      ForestSpaced(n.kids);
      ElementSpaced(StartTag(n.key, None), XmlForest(n.kids), EndTag(n.key));
    }
  }

  lemma {:induction false} ForestSpaced(f: Forest)
    ensures Spaced(IsChars, XmlForest(f)) && !Leads(IsChars, XmlForest(f))
    decreases f
  {
    if f.Snoc? {
      ForestSpaced(f.init);
      NodeSpaced(f.last);
      SpacedJoin(IsChars, XmlForest(f.init), XmlNode(f.last));
    }
  }

  /** The document of a set. */
  function Document(name: string, f: Forest): seq<Xml> {
    [StartTag("stats", Some(name))] + XmlForest(f) + [EndTag("stats")]
  }

  /** Characters, tags and texts, elements. */
  function ReadChars(s: string): Option<XNode> {
    var t := Lex(First, s);
    if t.None? then None else ReadDocument(t.value)
  }

  /** A set can be read from characters exactly when they are what is printed of it and
      every tag and text stands for itself. */
  lemma ReadCharsExact(s: string, name: string, f: Forest)
    ensures ReadChars(s) == Some(Elem("stats", Some(name), ShownAll(f))) <==>
              s == XmlText(Document(name, f)) && AllPlain(Document(name, f))
  {
    var x, t := Elem("stats", Some(name), ShownAll(f)), Document(name, f);
    ShownAllPrints(f);
    ForestSpaced(f);
    ElementSpaced(StartTag("stats", Some(name)), XmlForest(f), EndTag("stats"));
    TagsExact(s, t);
    if Lex(First, s).Some? {
      ReadExact(Lex(First, s).value, x);
    }
  }
}
