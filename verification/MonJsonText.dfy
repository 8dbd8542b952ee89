/**
 JSON tokens as the characters FormJSON prints, and the lexical grammar of RFC 8259
 (sections 6 and 7, without escapes and white space) that reads them back.
 */
module MonJsonText {
  import opened Lexing
  import opened MonJson
  import opened MonTrees
  import opened Wrappers

  function TokText(t: Tok): string {
    match t
    case LBrace => "{"
    case RBrace => "}"
    case LBrack => "["
    case RBrack => "]"
    case Comma => ","
    case Colon => ":"
    case Str(s) => "\"" + s + "\""
    case Num(d) => d
  }

  function JsonText(t: seq<Tok>): string {
    Text(TokText, t)
  }

  // ---------------------------------------------------------------------
  // Characters

  /** What a string may hold as it is. */
  predicate Unescaped(c: char) {
    c as int >= 0x20 && c != '"' && c != '\\'
  }

  predicate Digit(c: char) {
    '0' <= c <= '9'
  }

  predicate NumChar(c: char) {
    Digit(c) || c == '-' || c == '+' || c == '.' || c == 'e' || c == 'E'
  }

  function SkipDigits(s: string): string {
    if s != "" && Digit(s[0]) then SkipDigits(s[1..]) else s
  }

  predicate StartsIn(s: string, cs: string) {
    s != "" && s[0] in cs
  }

  /** int: no leading zero. */
  predicate HasInt(s: string) {
    s != "" && Digit(s[0]) && (s[0] == '0' ==> SkipDigits(s) == s[1..])
  }

  predicate IsExp(s: string) {
    s == "" || (
      StartsIn(s, "eE") &&
      var e := if StartsIn(s[1..], "+-") then s[2..] else s[1..];
      e != "" && SkipDigits(e) == "")
  }

  predicate IsFrac(s: string) {
    if StartsIn(s, ".") then SkipDigits(s[1..]) != s[1..] && IsExp(SkipDigits(s[1..])) else IsExp(s)
  }

  /** A number: [ minus ] int [ frac ] [ exp ]. */
  predicate IsNumber(s: string) {
    && s != "" && All(NumChar, s)
    && var u := if s[0] == '-' then s[1..] else s;
       HasInt(u) && IsFrac(SkipDigits(u))
  }

  // ---------------------------------------------------------------------
  // Reading characters

  function Punct(c: char): Option<Tok> {
    match c
    case '{' => Some(LBrace)
    case '}' => Some(RBrace)
    case '[' => Some(LBrack)
    case ']' => Some(RBrack)
    case ',' => Some(Comma)
    case ':' => Some(Colon)
    case _ => None
  }

  /** The first token, and the characters after it. */
  function First(s: string): Option<(Tok, string)> {
    if s == "" then None
    else if Punct(s[0]).Some? then Some((Punct(s[0]).value, s[1..]))
    else if s[0] == '"' then
      var (a, rest) := Span(Unescaped, s[1..]);
      var r := After(rest, "\"");
      if r.Some? then Some((Str(a), r.value)) else None
    else
      var (d, rest) := Span(NumChar, s);
      if IsNumber(d) then Some((Num(d), rest)) else None
  }

  /** The token can be read back: its string needs no escapes, its number is one. */
  predicate Plain(t: Tok) {
    (t.Str? ==> All(Unescaped, t.s)) && (t.Num? ==> IsNumber(t.digits))
  }

  lemma FirstIsPunct(s: string, t: Tok, rest: string)
    requires s != "" && Punct(s[0]).Some?
    ensures First(s) == Some((t, rest)) <==> s == TokText(t) + rest && Plain(t) && (t.Num? ==> !Starts(NumChar, rest))
  {
    assert s == [s[0]] + s[1..];
    if !t.Str? && !t.Num? {
      assert TokText(t) == [TokText(t)[0]];
      if s == TokText(t) + rest { assert s[1..] == rest; }
    }
  }

  lemma FirstIsString(s: string, t: Tok, rest: string)
    requires s != "" && s[0] == '"'
    ensures First(s) == Some((t, rest)) <==> s == TokText(t) + rest && Plain(t) && (t.Num? ==> !Starts(NumChar, rest))
  {
    assert s == "\"" + s[1..];
    if t.Str? {
      var q := Span(Unescaped, s[1..]).1;
      SpanExact(Unescaped, s[1..], t.s, "\"" + rest);
      AfterExact(q, "\"", rest);
      assert TokText(t) + rest == "\"" + (t.s + ("\"" + rest));
    }
  }

  lemma FirstIsNumber(s: string, t: Tok, rest: string)
    requires s != "" && s[0] != '"' && Punct(s[0]).None?
    ensures First(s) == Some((t, rest)) <==> s == TokText(t) + rest && Plain(t) && (t.Num? ==> !Starts(NumChar, rest))
  {
    if t.Num? {
      SpanExact(NumChar, s, t.digits, rest);
    }
  }

  /** A token is read from exactly its own characters, and a number only to its end. */
  lemma FirstExact(s: string, t: Tok, rest: string)
    requires s != ""
    ensures First(s) == Some((t, rest)) <==> s == TokText(t) + rest && Plain(t) && (t.Num? ==> !Starts(NumChar, rest))
  {
    if Punct(s[0]).Some? {
      FirstIsPunct(s, t, rest);
    } else if s[0] == '"' {
      FirstIsString(s, t, rest);
    } else {
      FirstIsNumber(s, t, rest);
    }
  }

  // ---------------------------------------------------------------------
  // Whole texts

  predicate AllPlain(t: seq<Tok>) {
    Every(Plain, t)
  }

  predicate IsNum(t: Tok) {
    t.Num?
  }

  lemma ReadsTokens()
    ensures Reads(First, TokText, Plain, IsNum, NumChar)
  {
    forall s, t, rest ensures ReadsOne(First, TokText, Plain, IsNum, NumChar, s, t, rest) {
      if s != "" { FirstExact(s, t, rest); }
    }
    forall t ensures ShowsOne(TokText, Plain, IsNum, NumChar, t) {
      if t.Num? && Plain(t) { assert t.digits[0] in t.digits; }
    }
  }

  /** Characters are read as tokens exactly when they are the text of tokens that need no
      escapes, with no number next to a number. */
  lemma TokensExact(s: string, t: seq<Tok>)
    ensures Lex(First, s) == Some(t) <==> s == JsonText(t) && AllPlain(t) && Spaced(IsNum, t)
  {
    ReadsTokens();
    LexExact(First, TokText, Plain, IsNum, NumChar, s, t);
  }

  // ---------------------------------------------------------------------
  // Printed members

  lemma SpacedAround(s: seq<Tok>, c: Tok, t: seq<Tok>)
    requires Spaced(IsNum, s) && !c.Num? && Spaced(IsNum, t)
    ensures Spaced(IsNum, s + ([c] + t))
  {
    SpacedJoin(IsNum, [c], t);
    SpacedJoin(IsNum, s, [c] + t);
  }

  lemma {:induction false} NodeSpaced(n: Node, inArray: bool)
    ensures Spaced(IsNum, JsonNode(n, inArray))
    decreases n, 1
  {
    BodySpaced(n);
    if inArray {
      assert JsonNode(n, inArray) == JsonBody(n);
    } else {
      SpacedAround([Str(n.key)], Colon, JsonBody(n));
      assert JsonNode(n, inArray) == [Str(n.key)] + ([Colon] + JsonBody(n));
    }
  }

  lemma {:induction false} BodySpaced(n: Node)
    ensures Spaced(IsNum, JsonBody(n))
    decreases n, 0
  {
    if n.Group? {
      var f := JsonForest(n.kids, n.isArray);
      ForestSpaced(n.kids, n.isArray);
      SpacedAround([], OpenTok(n.isArray), f);
      SpacedAround([OpenTok(n.isArray)] + f, CloseTok(n.isArray), []);
      assert [] + ([OpenTok(n.isArray)] + f) == [OpenTok(n.isArray)] + f;
      assert JsonBody(n) == [OpenTok(n.isArray)] + f + ([CloseTok(n.isArray)] + []);
    }
  }

  lemma {:induction false} ForestSpaced(f: Forest, inArray: bool)
    ensures Spaced(IsNum, JsonForest(f, inArray))
    decreases f, 2
  {
    if f.Snoc? {
      var init, last := JsonForest(f.init, inArray), JsonNode(f.last, inArray);
      NodeSpaced(f.last, inArray);
      if f.init.Nil? {
        assert JsonForest(f, inArray) == last;
      } else {
        ForestSpaced(f.init, inArray);
        SpacedAround(init, Comma, last);
        Assoc(init, [Comma], last);
      }
    }
  }

  /** Characters, tokens, tree. */
  function ReadMember(s: string): Option<Node> {
    var t := Lex(First, s);
    if t.None? then None else ParseMember(t.value)
  }

  /** What can be read from characters is what is printed without need of escapes. */
  lemma ReadExact(s: string, n: Node)
    ensures ReadMember(s) == Some(n) <==>
              s == JsonText(JsonNode(n, false)) && AllPlain(JsonNode(n, false)) && Bare(n, false) == n
  {
    NodeSpaced(n, false);
    TokensExact(s, JsonNode(n, false));
    if Lex(First, s).Some? {
      ParseExact(Lex(First, s).value, n);
    }
  }
}
