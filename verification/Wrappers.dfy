/**
 Shared small things: optional values, bytes, and facts about sequences and texts.
 */
module Wrappers {

  datatype Option<T> = None | Some(value: T)

  newtype byte = x: int | 0 <= x < 256

  lemma Assoc<T>(a: seq<T>, b: seq<T>, c: seq<T>)
    ensures a + b + c == a + (b + c)
  {
  }

  lemma TailJoin<T>(s: seq<T>, t: seq<T>)
    requires s != []
    ensures (s + t)[0] == s[0] && (s + t)[1..] == s[1..] + t
  {
  }

  /** How many elements a pass over s goes through that stops when `goes` does not hold of
      what it would have gone through. */
  function Extent<T>(s: seq<T>, goes: seq<T> -> bool): (n: nat)
    ensures n <= |s|
  {
    if s == [] || goes(s) then |s| else Extent(s[..|s| - 1], goes)
  }

  ghost predicate Inherited<T(!new)>(goes: seq<T> -> bool) {
    forall s: seq<T> | s != [] && goes(s) :: goes(s[..|s| - 1])
  }

  lemma {:induction false} ExtentIs<T(!new)>(s: seq<T>, goes: seq<T> -> bool, i: nat)
    requires Inherited(goes) && i <= |s| && (i == 0 || goes(s[..i]))
    requires i == |s| || !goes(s[..i + 1])
    ensures Extent(s, goes) == i
  {
    if i == |s| {
      assert s[..i] == s;
    } else {
      if goes(s) {
        GoesBefore(s, goes, i + 1);
      }
      var t := s[..|s| - 1];
      assert t[..i] == s[..i] && (i < |t| ==> t[..i + 1] == s[..i + 1]);
      ExtentIs(t, goes, i);
    }
  }

  lemma {:induction false} GoesBefore<T(!new)>(s: seq<T>, goes: seq<T> -> bool, i: nat)
    requires Inherited(goes) && i <= |s| && goes(s)
    ensures goes(s[..i])
  {
    if i == |s| {
      assert s[..i] == s;
    } else {
      assert s[..|s| - 1][..i] == s[..i];
      GoesBefore(s[..|s| - 1], goes, i);
    }
  }

  /** Where the pass stops. */
  lemma {:induction false} ExtentStops<T(!new)>(s: seq<T>, goes: seq<T> -> bool)
    requires Inherited(goes)
    ensures var i := Extent(s, goes);
            (i == 0 || goes(s[..i])) && (i == |s| || !goes(s[..i + 1]))
  {
    var i := Extent(s, goes);
    if s != [] && !goes(s) {
      var t := s[..|s| - 1];
      ExtentStops(t, goes);
      assert t[..i] == s[..i];
      if i == |t| {
        assert s[..i + 1] == s;
      } else {
        assert t[..i + 1] == s[..i + 1];
      }
    } else {
      assert s[..i] == s;
    }
  }

  /** What follows a prefix. */
  function After(s: string, p: string): Option<string> {
    if |p| <= |s| && s[..|p|] == p then Some(s[|p|..]) else None
  }

  lemma AfterExact(s: string, p: string, rest: string)
    ensures After(s, p) == Some(rest) <==> s == p + rest
  {
  }

  /** The longest run of such characters, and what follows it. */
  function Span(p: char -> bool, s: string): (string, string) {
    if s == "" || !p(s[0]) then ("", s) else ([s[0]] + Span(p, s[1..]).0, Span(p, s[1..]).1)
  }

  predicate All(p: char -> bool, s: string) {
    forall c <- s :: p(c)
  }

  predicate Starts(p: char -> bool, s: string) {
    s != "" && p(s[0])
  }

  lemma {:induction false} SpanExact(p: char -> bool, s: string, a: string, rest: string)
    ensures Span(p, s) == (a, rest) <==> s == a + rest && All(p, a) && !Starts(p, rest)
  {
    if s == "" || !p(s[0]) {
      assert a == "" ==> a + rest == rest;
      assert a != "" ==> (a + rest)[0] == a[0] && a[0] in a;
    } else {
      assert s == [s[0]] + s[1..];
      if a != "" {
        SpanExact(p, s[1..], a[1..], rest);
        assert a == [a[0]] + a[1..];
        assert a + rest == [a[0]] + (a[1..] + rest);
      }
    }
  }
}
