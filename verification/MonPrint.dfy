/**
 FormJSON and FormXML writing into a caller's buffer (XrdMonitor.cc, with AddC, Updt,
 V2S and V2T). Keys and texts are printed as they are, as the source does. `nil` is
 what printf makes of a nil pointer, which the C language leaves open.
 */
module MonPrint {
  import opened MonItems
  import opened MonTrees
  import opened Wrappers

  /** snprintf at `pos`: at most bsize - pos characters are written, the last of them a
      NUL; the answer is the length of the whole text. */
  method Snprintf(buff: array<char>, bsize: nat, pos: nat, text: string) returns (n: nat)
    requires pos <= bsize <= buff.Length
    modifies buff
    ensures n == |text|
    ensures buff[..pos] == old(buff[..pos]) && buff[bsize..] == old(buff[bsize..])
    ensures pos + n < bsize ==> buff[pos..pos + n] == text && buff[pos + n] == '\0'
  {
    n := |text|;
    var i := 0;
    while i < n && pos + i + 1 < bsize
      invariant i <= n && (i > 0 ==> pos + i < bsize)
      invariant buff[..pos] == old(buff[..pos]) && buff[bsize..] == old(buff[bsize..])
      invariant buff[pos..pos + i] == text[..i]
    {
      buff[pos + i] := text[i];
      i := i + 1;
    }
    if pos < bsize {
      buff[pos + i] := '\0';
    }
  }

  /** snprintf and Updt: fails when the text and its NUL do not fit. */
  method Print(buff: array<char>, bsize: nat, pos: nat, text: string) returns (ok: bool, at: nat)
    requires pos <= bsize <= buff.Length
    modifies buff
    ensures buff[..pos] == old(buff[..pos]) && buff[bsize..] == old(buff[bsize..])
    ensures ok <==> pos + |text| < bsize
    ensures ok ==> at == pos + |text| && buff[..at] == old(buff[..pos]) + text
  {
    var n := Snprintf(buff, bsize, pos, text);
    ok, at := pos + n < bsize, pos + n;
    if ok {
      assert buff[..at] == buff[..pos] + buff[pos..at];
    }
  }

  /** AddC. */
  method AddC(buff: array<char>, bsize: nat, pos: nat, c: char) returns (ok: bool, at: nat)
    requires pos <= bsize <= buff.Length
    modifies buff
    ensures buff[..pos] == old(buff[..pos]) && buff[bsize..] == old(buff[bsize..])
    ensures ok <==> pos < bsize
    ensures ok ==> at == pos + 1 && buff[..at] == old(buff[..pos]) + [c]
  {
    ok, at := pos < bsize, pos + 1;
    if ok {
      buff[pos] := c;
    }
  }

  // ---------------------------------------------------------------------
  // What FormJSON prints

  function Shown(s: Option<string>, nil: string): string {
    if s.Some? then s.value else nil
  }

  function ValueText(k: Kind, nil: string): string {
    match k
    case Binary(d) => d
    case Text(t) => "\"" + Shown(t, nil) + "\""
    case Mutex(_, _) => ""
    case Schema(p) => if p == BegArray then "[" else if p == BegObject then "{" else ""
  }

  function SepText(first: bool): string {
    if first then "" else ","
  }

  function KeyText(x: Item, nil: string): string {
    if x.inArray then "" else "\"" + Shown(x.key, nil) + "\":"
  }

  function EndText(k: Kind): string {
    if k == Schema(EndArray) then "]" else "}"
  }

  /** One item; `first` says that nothing follows the last opening bracket yet. */
  function JsonItemText(first: bool, x: Item, nil: string): string {
    if Ends(x.kind) then EndText(x.kind)
    else if x.kind.Mutex? then ""
    else SepText(first) + (KeyText(x, nil) + ValueText(x.kind, nil))
  }

  datatype Printed = Printed(text: string, first: bool)

  function JsonNext(p: Printed, x: Item, nil: string): Printed {
    var t := JsonItemText(p.first, x, nil);
    Printed(p.text + t, Begins(x.kind) || (p.first && t == ""))
  }

  function JsonSoFar(s: seq<Item>, nil: string): Printed {
    if s == [] then Printed("", true) else JsonNext(JsonSoFar(s[..|s| - 1], nil), s[|s| - 1], nil)
  }

  /** All that FormJSON prints of a vector under a header. */
  function JsonSetText(hdr: string, s: seq<Item>, nil: string): string {
    hdr + JsonSoFar(s, nil).text + "}"
  }

  /** A number that cannot be formatted; V2S answers 0. */
  predicate NoNumber(x: Item) {
    x.kind.Binary? && x.kind.digits == ""
  }

  predicate NumbersPrint(s: seq<Item>) {
    forall i | 0 <= i < |s| :: !NoNumber(s[i])
  }

  /** The last character of what is printed of the item is put by AddC, which needs no
      room for a NUL. */
  predicate Brief(x: Item) {
    Ends(x.kind) || Begins(x.kind) || (x.kind == Schema(Unk) && x.inArray)
  }

  /** Whether `text`, the item's or a part of it, fits behind `pos`. */
  predicate Room(x: Item, text: string, pos: nat, bsize: nat) {
    text == "" || (if Brief(x) then pos + |text| <= bsize else pos + |text| < bsize)
  }

  // ---------------------------------------------------------------------
  // FormJSON

  /** V2S and V2T of a value, or the bracket of an opening item. */
  method EmitValue(buff: array<char>, bsize: nat, pos: nat, x: Item, nil: string) returns (ok: bool, at: nat)
    requires pos <= bsize <= buff.Length && !x.kind.Mutex? && !Ends(x.kind)
    modifies buff
    ensures buff[..pos] == old(buff[..pos]) && buff[bsize..] == old(buff[bsize..])
    ensures var t := ValueText(x.kind, nil);
            && (ok <==> !NoNumber(x) && (x.kind == Schema(Unk) || Room(x, t, pos, bsize)))
            && (ok ==> at == pos + |t| <= bsize && buff[..at] == old(buff[..pos]) + t)
  {
    ok, at := true, pos;
    match x.kind {
      case Binary(d) =>
        if d == "" { return false, pos; }
        ok, at := Print(buff, bsize, pos, d);
      case Text(t) =>
        ok, at := Print(buff, bsize, pos, "\"" + Shown(t, nil) + "\"");
      case Schema(p) =>
        if p == BegArray {
          ok, at := AddC(buff, bsize, pos, '[');
        } else if p == BegObject {
          ok, at := AddC(buff, bsize, pos, '{');
        }
    }
  }

  /** The key, if it appears, and the value. */
  method EmitKeyed(buff: array<char>, bsize: nat, pos: nat, x: Item, nil: string) returns (ok: bool, at: nat)
    requires pos <= bsize <= buff.Length && !x.kind.Mutex? && !Ends(x.kind)
    modifies buff
    ensures buff[..pos] == old(buff[..pos]) && buff[bsize..] == old(buff[bsize..])
    ensures var t := KeyText(x, nil) + ValueText(x.kind, nil);
            && (ok <==> !NoNumber(x) && Room(x, t, pos, bsize))
            && (ok ==> at == pos + |t| <= bsize && buff[..at] == old(buff[..pos]) + t)
  {
    ok, at := true, pos;
    if !x.inArray {
      ok, at := Print(buff, bsize, at, "\"" + Shown(x.key, nil) + "\":");
      if !ok { return; }
    }
    ghost var before, key := buff[..pos], KeyText(x, nil);
    assert buff[..at] == before + key;
    ok, at := EmitValue(buff, bsize, at, x, nil);
    Assoc(before, key, ValueText(x.kind, nil));
    assert buff[..pos] == buff[..pos + |key|][..pos];
  }

  /** One round of FormJSON's loop. */
  method EmitJson(buff: array<char>, bsize: nat, pos: nat, aStart: nat, x: Item, nil: string)
      returns (ok: bool, at: nat, start: nat)
    requires aStart <= pos <= bsize <= buff.Length
    modifies buff
    ensures buff[bsize..] == old(buff[bsize..])
    ensures var t := JsonItemText(pos == aStart, x, nil);
            && (ok <==> !NoNumber(x) && Room(x, t, pos, bsize))
            && (ok ==> at == pos + |t| <= bsize && buff[..at] == old(buff[..pos]) + t)
            && (ok ==> start <= at && (start == at <==> Begins(x.kind) || (pos == aStart && t == "")))
  {
    ok, at, start := true, pos, aStart;
    if x.kind == Schema(EndArray) {
      ok, at := AddC(buff, bsize, pos, ']');
    } else if x.kind == Schema(EndObject) {
      ok, at := AddC(buff, bsize, pos, '}');
    } else if !x.kind.Mutex? {
      if pos != aStart {
        ok, at := AddC(buff, bsize, pos, ',');
        if !ok { return; }
      }
      ghost var before, sep := buff[..pos], SepText(pos == aStart);
      assert buff[..at] == before + sep;
      ok, at := EmitKeyed(buff, bsize, at, x, nil);
      Assoc(before, sep, KeyText(x, nil) + ValueText(x.kind, nil));
      if Begins(x.kind) {
        start := at;
      }
    }
  }

  function LocksAfter(locks: seq<Op>, k: Kind): seq<Op> {
    if k.Mutex? then locks + [Op(k.mtx, k.doLK)] else locks
  }

  lemma LocksNext(s: seq<Item>, i: nat)
    requires i < |s|
    ensures Ops(s[..i + 1]) == LocksAfter(Ops(s[..i]), s[i].kind)
  {
    assert s[..i + 1][..i] == s[..i];
  }

  lemma {:induction false} JsonGrows(s: seq<Item>, i: nat, nil: string)
    requires i <= |s|
    ensures |JsonSoFar(s[..i], nil).text| <= |JsonSoFar(s, nil).text|
    decreases |s| - i
  {
    if i == |s| {
      assert s[..i] == s;
    } else {
      assert s[..i + 1][..i] == s[..i];
      JsonGrows(s, i + 1, nil);
    }
  }

  /** The state of FormJSON's loop before item i. */
  ghost predicate JsonAt(s: seq<Item>, hdr: string, nil: string, i: nat, aStart: nat, pos: nat, text: string) {
    && i <= |s| && aStart <= pos == |text|
    && text == hdr + JsonSoFar(s[..i], nil).text
    && (aStart == pos <==> JsonSoFar(s[..i], nil).first)
    && forall k | 0 <= k < i :: !NoNumber(s[k])
  }

  lemma JsonStep(s: seq<Item>, hdr: string, nil: string, i: nat, aStart: nat, pos: nat, text: string, start: nat)
    requires i < |s| && JsonAt(s, hdr, nil, i, aStart, pos, text) && !NoNumber(s[i])
    requires var t := JsonItemText(pos == aStart, s[i], nil);
             start <= pos + |t| && (start == pos + |t| <==> Begins(s[i].kind) || (pos == aStart && t == ""))
    ensures var t := JsonItemText(pos == aStart, s[i], nil); JsonAt(s, hdr, nil, i + 1, start, pos + |t|, text + t)
  {
    assert s[..i + 1][..i] == s[..i];
    Assoc(hdr, JsonSoFar(s[..i], nil).text, JsonItemText(pos == aStart, s[i], nil));
  }

  /** Whether the last thing printed was put by AddC. */
  predicate Snug(s: seq<Item>, nil: string) {
    s != [] && var init := s[..|s| - 1];
    if JsonItemText(JsonSoFar(init, nil).first, s[|s| - 1], nil) == "" then Snug(init, nil) else Brief(s[|s| - 1])
  }

  /** The smallest buffer in which these items can be printed. */
  function JsonNeed(hdr: string, s: seq<Item>, nil: string): nat {
    |hdr| + |JsonSoFar(s, nil).text| + (if Snug(s, nil) then 0 else 1)
  }

  predicate JsonGoes(hdr: string, s: seq<Item>, nil: string, bsize: nat) {
    NumbersPrint(s) && JsonNeed(hdr, s, nil) <= bsize
  }

  /** The item FormJSON gives up at, or their number. */
  function JsonStop(hdr: string, s: seq<Item>, nil: string, bsize: nat): (n: nat)
    ensures n <= |s|
  {
    Extent(s, t => JsonGoes(hdr, t, nil, bsize))
  }

  lemma JsonNeedGrows(hdr: string, s: seq<Item>, nil: string)
    requires s != []
    ensures JsonNeed(hdr, s[..|s| - 1], nil) <= JsonNeed(hdr, s, nil)
  {
  }

  lemma JsonInherited(hdr: string, nil: string, bsize: nat)
    ensures Inherited((t: seq<Item>) => JsonGoes(hdr, t, nil, bsize))
  {
    forall s: seq<Item> | s != [] && JsonGoes(hdr, s, nil, bsize) ensures JsonGoes(hdr, s[..|s| - 1], nil, bsize) {
      JsonNeedGrows(hdr, s, nil);
    }
  }

  /** It gives up at the first item with which the items cannot be printed. */
  lemma JsonStopIs(hdr: string, s: seq<Item>, nil: string, bsize: nat, i: nat)
    requires i <= |s| && (i == 0 || JsonGoes(hdr, s[..i], nil, bsize))
    requires i == |s| || !JsonGoes(hdr, s[..i + 1], nil, bsize)
    ensures JsonStop(hdr, s, nil, bsize) == i
  {
    JsonInherited(hdr, nil, bsize);
    ExtentIs(s, (t: seq<Item>) => JsonGoes(hdr, t, nil, bsize), i);
  }

  lemma NumbersNext(s: seq<Item>, i: nat)
    requires i < |s|
    ensures NumbersPrint(s[..i + 1]) <==> NumbersPrint(s[..i]) && !NoNumber(s[i])
  {
    assert forall k | 0 <= k < i :: s[..i + 1][k] == s[..i][k];
    assert s[..i + 1][i] == s[i];
  }

  lemma RoomExact(hdr: string, s: seq<Item>, nil: string, bsize: nat)
    requires s != [] && JsonNeed(hdr, s[..|s| - 1], nil) <= bsize
    ensures var p, x := JsonSoFar(s[..|s| - 1], nil), s[|s| - 1];
            JsonNeed(hdr, s, nil) <= bsize <==> Room(x, JsonItemText(p.first, x, nil), |hdr| + |p.text|, bsize)
  {
  }

  /** An item can be printed exactly when the items up to it can. */
  lemma JsonGoesOn(s: seq<Item>, hdr: string, nil: string, bsize: nat, i: nat, aStart: nat, pos: nat, text: string)
    requires i < |s| && JsonAt(s, hdr, nil, i, aStart, pos, text) && JsonGoes(hdr, s[..i], nil, bsize)
    ensures JsonGoes(hdr, s[..i + 1], nil, bsize) <==>
              !NoNumber(s[i]) && Room(s[i], JsonItemText(pos == aStart, s[i], nil), pos, bsize)
  {
    assert s[..i + 1][..i] == s[..i] && s[..i + 1][i] == s[i];
    NumbersNext(s, i);
    RoomExact(hdr, s[..i + 1], nil, bsize);
  }

  /** What is printed up to an item and of it is shorter than the whole. */
  lemma JsonFits(s: seq<Item>, hdr: string, nil: string, i: nat, aStart: nat, pos: nat, text: string)
    requires i < |s| && JsonAt(s, hdr, nil, i, aStart, pos, text)
    ensures pos + |JsonItemText(pos == aStart, s[i], nil)| < |JsonSetText(hdr, s, nil)|
  {
    assert s[..i + 1][..i] == s[..i];
    JsonGrows(s, i + 1, nil);
  }

  lemma {:induction false} JsonNoRoom(hdr: string, s: seq<Item>, nil: string, bsize: nat)
    requires |hdr| >= bsize
    ensures JsonStop(hdr, s, nil, bsize) == 0 && Ops(s[..0]) == []
  {
    if s != [] {
      JsonNoRoom(hdr, s[..|s| - 1], nil, bsize);
      NeedMore(hdr, s, nil);
    }
  }

  lemma {:induction false} NeedMore(hdr: string, s: seq<Item>, nil: string)
    ensures JsonNeed(hdr, s, nil) > |hdr|
  {
    if s != [] {
      NeedMore(hdr, s[..|s| - 1], nil);
      JsonNeedGrows(hdr, s, nil);
    }
  }

  /** FormJSON: the whole text when it fits the buffer's size and every number could be
      formatted, else nothing; nothing is written beyond that size. The mutex operations of
      the items it gets past are done, in order, and none is undone. */
  method FormJSON(hdr: string, items: array<Item>, buff: array<char>, bsize: nat, nil: string)
      returns (bLen: nat, locks: seq<Op>)
    requires bsize <= buff.Length
    modifies buff
    ensures buff[bsize..] == old(buff[bsize..])
    ensures var t := JsonSetText(hdr, items[..], nil);
            bLen == if |t| <= bsize && NumbersPrint(items[..]) then |t| else 0
    ensures bLen > 0 ==> buff[..bLen] == JsonSetText(hdr, items[..], nil) && locks == Ops(items[..])
    ensures locks == Ops(items[..JsonStop(hdr, items[..], nil, bsize)])
  {
    ghost var s := items[..];
    locks := [];
    var ok: bool, pos: nat := Print(buff, bsize, 0, hdr);
    if !ok {
      JsonNoRoom(hdr, s, nil, bsize);
      return 0, [];
    }
    var aStart: nat := pos;
    var i := 0;
    while i < items.Length
      invariant pos <= bsize && buff[bsize..] == old(buff[bsize..])
      invariant JsonAt(s, hdr, nil, i, aStart, pos, buff[..pos]) && locks == Ops(s[..i])
      invariant JsonGoes(hdr, s[..i], nil, bsize)
    {
      JsonFits(s, hdr, nil, i, aStart, pos, buff[..pos]);
      JsonGoesOn(s, hdr, nil, bsize, i, aStart, pos, buff[..pos]);
      LocksNext(s, i);
      ghost var text, was, start := buff[..pos], pos, aStart;
      locks := LocksAfter(locks, items[i].kind);
      ok, pos, aStart := EmitJson(buff, bsize, pos, aStart, items[i], nil);
      if !ok {
        JsonStopIs(hdr, s, nil, bsize, i);
        return 0, locks;
      }
      JsonStep(s, hdr, nil, i, start, was, text, aStart);
      i := i + 1;
    }
    assert s[..i] == s;
    JsonStopIs(hdr, s, nil, bsize, i);
    ok, pos := AddC(buff, bsize, pos, '}');
    if !ok { return 0, locks; }
    bLen := pos;
  }

  // ---------------------------------------------------------------------
  // FormXML

  function StartText(x: Item, nil: string): string {
    "<" + Shown(x.key, nil) + ">"
  }

  function FinishText(x: Item, nil: string): string {
    "</" + Shown(x.key, nil) + ">"
  }

  function BodyText(k: Kind, nil: string): string {
    match k
    case Binary(d) => d
    case Text(t) => Shown(t, nil)
    case _ => ""
  }

  function XmlItemText(x: Item, nil: string): string {
    if x.kind.Mutex? then ""
    else if Ends(x.kind) then FinishText(x, nil)
    else if Begins(x.kind) then StartText(x, nil)
    else StartText(x, nil) + (BodyText(x.kind, nil) + FinishText(x, nil))
  }

  function XmlSoFar(s: seq<Item>, nil: string): string {
    if s == [] then "" else XmlSoFar(s[..|s| - 1], nil) + XmlItemText(s[|s| - 1], nil)
  }

  function XmlSetText(hdr: string, s: seq<Item>, nil: string): string {
    hdr + XmlSoFar(s, nil) + "</stats>"
  }

  /** A value that V2S or V2T prints as nothing, which the source takes for a failure. */
  predicate NoValue(x: Item, nil: string) {
    (x.kind.Binary? || x.kind.Text?) && BodyText(x.kind, nil) == ""
  }

  predicate ValuesPrint(s: seq<Item>, nil: string) {
    forall i | 0 <= i < |s| :: !NoValue(s[i], nil)
  }

  /** V2S or V2T, and the end tag. */
  method EmitBody(buff: array<char>, bsize: nat, pos: nat, x: Item, nil: string) returns (ok: bool, at: nat)
    requires pos < bsize <= buff.Length && !x.kind.Mutex?
    modifies buff
    ensures buff[..pos] == old(buff[..pos]) && buff[bsize..] == old(buff[bsize..])
    ensures var t := BodyText(x.kind, nil) + FinishText(x, nil);
            && (ok <==> pos + |t| < bsize && !NoValue(x, nil))
            && (ok ==> at == pos + |t| && buff[..at] == old(buff[..pos]) + t)
  {
    ghost var before := buff[..pos];
    ok, at := true, pos;
    if x.kind.Binary? || x.kind.Text? {
      var n := Snprintf(buff, bsize, pos, BodyText(x.kind, nil));
      if n == 0 || pos + n >= bsize { return false, pos; }
      at := pos + n;
      assert buff[..at] == buff[..pos] + buff[pos..at];
    }
    assert buff[..at] == before + BodyText(x.kind, nil);
    ghost var mid := at;
    ok, at := Print(buff, bsize, at, "</" + Shown(x.key, nil) + ">");
    Assoc(before, BodyText(x.kind, nil), FinishText(x, nil));
    assert buff[..pos] == buff[..mid][..pos];
  }

  /** One round of FormXML's loop. */
  method EmitXml(buff: array<char>, bsize: nat, pos: nat, x: Item, nil: string) returns (ok: bool, at: nat)
    requires pos < bsize <= buff.Length
    modifies buff
    ensures buff[bsize..] == old(buff[bsize..])
    ensures var t := XmlItemText(x, nil);
            && (ok <==> pos + |t| < bsize && !NoValue(x, nil))
            && (ok ==> at == pos + |t| && buff[..at] == old(buff[..pos]) + t)
  {
    ok, at := true, pos;
    if Ends(x.kind) {
      ok, at := Print(buff, bsize, pos, "</" + Shown(x.key, nil) + ">");
    } else if !x.kind.Mutex? {
      ghost var before := buff[..pos];
      ok, at := Print(buff, bsize, pos, "<" + Shown(x.key, nil) + ">");
      if !ok || Begins(x.kind) { return; }
      ok, at := EmitBody(buff, bsize, at, x, nil);
      Assoc(before, StartText(x, nil), BodyText(x.kind, nil) + FinishText(x, nil));
    }
  }

  lemma {:induction false} XmlGrows(s: seq<Item>, i: nat, nil: string)
    requires i <= |s|
    ensures |XmlSoFar(s[..i], nil)| <= |XmlSoFar(s, nil)|
    decreases |s| - i
  {
    if i == |s| {
      assert s[..i] == s;
    } else {
      assert s[..i + 1][..i] == s[..i];
      XmlGrows(s, i + 1, nil);
    }
  }

  /** The state of FormXML's loop before item i. */
  ghost predicate XmlAt(s: seq<Item>, hdr: string, nil: string, i: nat, text: string) {
    && i <= |s| && text == hdr + XmlSoFar(s[..i], nil)
    && forall j | 0 <= j < i :: !NoValue(s[j], nil)
  }

  lemma XmlStep(s: seq<Item>, hdr: string, nil: string, i: nat, text: string)
    requires i < |s| && XmlAt(s, hdr, nil, i, text)
    ensures !NoValue(s[i], nil) ==> XmlAt(s, hdr, nil, i + 1, text + XmlItemText(s[i], nil))
  {
    assert s[..i + 1][..i] == s[..i];
    Assoc(hdr, XmlSoFar(s[..i], nil), XmlItemText(s[i], nil));
  }

  lemma XmlFits(s: seq<Item>, hdr: string, nil: string, i: nat, text: string)
    requires i < |s| && XmlAt(s, hdr, nil, i, text)
    ensures |text| + |XmlItemText(s[i], nil)| < |XmlSetText(hdr, s, nil)|
  {
    assert s[..i + 1][..i] == s[..i];
    XmlGrows(s, i + 1, nil);
  }

  predicate XmlGoes(hdr: string, s: seq<Item>, nil: string, bsize: nat) {
    ValuesPrint(s, nil) && |hdr| + |XmlSoFar(s, nil)| < bsize
  }

  /** The item FormXML gives up at, or their number. */
  function XmlStop(hdr: string, s: seq<Item>, nil: string, bsize: nat): (n: nat)
    ensures n <= |s|
  {
    Extent(s, t => XmlGoes(hdr, t, nil, bsize))
  }

  lemma XmlInherited(hdr: string, nil: string, bsize: nat)
    ensures Inherited((t: seq<Item>) => XmlGoes(hdr, t, nil, bsize))
  {
  }

  lemma XmlStopIs(hdr: string, s: seq<Item>, nil: string, bsize: nat, i: nat)
    requires i <= |s| && (i == 0 || XmlGoes(hdr, s[..i], nil, bsize))
    requires i == |s| || !XmlGoes(hdr, s[..i + 1], nil, bsize)
    ensures XmlStop(hdr, s, nil, bsize) == i
  {
    XmlInherited(hdr, nil, bsize);
    ExtentIs(s, (t: seq<Item>) => XmlGoes(hdr, t, nil, bsize), i);
  }

  lemma XmlGoesOn(hdr: string, s: seq<Item>, nil: string, bsize: nat, i: nat)
    requires i < |s| && XmlGoes(hdr, s[..i], nil, bsize)
    ensures XmlGoes(hdr, s[..i + 1], nil, bsize) <==>
              !NoValue(s[i], nil) && |hdr| + |XmlSoFar(s[..i], nil)| + |XmlItemText(s[i], nil)| < bsize
  {
    var t := s[..i + 1];
    assert t[..i] == s[..i] && t[i] == s[i];
    assert ValuesPrint(t, nil) <==> ValuesPrint(s[..i], nil) && !NoValue(s[i], nil) by {
      assert forall k | 0 <= k < i :: t[k] == s[..i][k];
    }
  }

  lemma {:induction false} XmlNoRoom(hdr: string, s: seq<Item>, nil: string, bsize: nat)
    requires |hdr| >= bsize
    ensures XmlStop(hdr, s, nil, bsize) == 0 && Ops(s[..0]) == []
  {
    if s != [] {
      XmlNoRoom(hdr, s[..|s| - 1], nil, bsize);
    }
  }

  /** FormXML: the whole text when it and a NUL fit the buffer's size and no value prints
      as nothing, else nothing; nothing is written beyond that size. Mutex operations are
      done as by FormJSON. */
  method FormXML(hdr: string, items: array<Item>, buff: array<char>, bsize: nat, nil: string)
      returns (bLen: nat, locks: seq<Op>)
    requires bsize <= buff.Length
    modifies buff
    ensures buff[bsize..] == old(buff[bsize..])
    ensures var t := XmlSetText(hdr, items[..], nil);
            bLen == if |t| < bsize && ValuesPrint(items[..], nil) then |t| else 0
    ensures bLen > 0 ==> buff[..bLen] == XmlSetText(hdr, items[..], nil) && locks == Ops(items[..])
    ensures locks == Ops(items[..XmlStop(hdr, items[..], nil, bsize)])
  {
    ghost var s := items[..];
    locks := [];
    var ok: bool, pos: nat := Print(buff, bsize, 0, hdr);
    if !ok {
      XmlNoRoom(hdr, s, nil, bsize);
      return 0, [];
    }
    var i := 0;
    while i < items.Length
      invariant pos < bsize && buff[bsize..] == old(buff[bsize..])
      invariant XmlAt(s, hdr, nil, i, buff[..pos]) && locks == Ops(s[..i])
      invariant XmlGoes(hdr, s[..i], nil, bsize)
    {
      XmlStep(s, hdr, nil, i, buff[..pos]);
      XmlFits(s, hdr, nil, i, buff[..pos]);
      XmlGoesOn(hdr, s, nil, bsize, i);
      LocksNext(s, i);
      locks := LocksAfter(locks, items[i].kind);
      ok, pos := EmitXml(buff, bsize, pos, items[i], nil);
      if !ok {
        XmlStopIs(hdr, s, nil, bsize, i);
        return 0, locks;
      }
      i := i + 1;
    }
    assert s[..i] == s;
    XmlStopIs(hdr, s, nil, bsize, i);
    ok, pos := Print(buff, bsize, pos, "</stats>");
    if !ok { return 0, locks; }
    bLen := pos;
  }
}
