/**
 Reading tokens from characters, for any kind of token: `show` gives a token's characters,
 `first` reads one token. `run` marks the tokens that go on as long as they can, over the
 characters `more`, so that two of them cannot stand side by side.
 */
module Lexing {
  import opened Wrappers

  function Text<T>(show: T -> string, t: seq<T>): string {
    if t == [] then "" else show(t[0]) + Text(show, t[1..])
  }

  lemma {:induction false} TextJoin<T>(show: T -> string, s: seq<T>, t: seq<T>)
    ensures Text(show, s + t) == Text(show, s) + Text(show, t)
  {
    if s == [] {
      assert s + t == t;
    } else {
      TextJoin(show, s[1..], t);
      TailJoin(s, t);
      Assoc(show(s[0]), Text(show, s[1..]), Text(show, t));
    }
  }

  lemma TextJoin3<T>(show: T -> string, s: seq<T>, t: seq<T>, u: seq<T>)
    ensures Text(show, s + t + u) == Text(show, s) + (Text(show, t) + Text(show, u))
  {
    Assoc(s, t, u);
    TextJoin(show, s, t + u);
    TextJoin(show, t, u);
  }

  lemma TextOne<T>(show: T -> string, t: T)
    ensures Text(show, [t]) == show(t)
  {
    assert [t][1..] == [];
  }

  // ---------------------------------------------------------------------
  // Token sequences

  predicate Every<T>(p: T -> bool, t: seq<T>) {
    forall i | 0 <= i < |t| :: p(t[i])
  }

  /** No two neighbours are such tokens. */
  ghost predicate Spaced<T>(run: T -> bool, t: seq<T>) {
    forall i, j | 0 <= i < j < |t| && j == i + 1 :: !(run(t[i]) && run(t[j]))
  }

  predicate Leads<T>(p: T -> bool, t: seq<T>) {
    t != [] && p(t[0])
  }

  lemma EveryJoin<T>(p: T -> bool, s: seq<T>, t: seq<T>)
    ensures Every(p, s + t) <==> Every(p, s) && Every(p, t)
  {
    var u := s + t;
    assert forall i | 0 <= i < |s| :: u[i] == s[i];
    assert forall i | 0 <= i < |t| :: u[|s| + i] == t[i];
  }

  lemma EveryHead<T>(p: T -> bool, t: seq<T>)
    requires t != []
    ensures Every(p, t) <==> p(t[0]) && Every(p, t[1..])
  {
    assert t == [t[0]] + t[1..];
    EveryJoin(p, [t[0]], t[1..]);
  }

  lemma SpacedHead<T>(run: T -> bool, t: seq<T>)
    requires t != []
    ensures Spaced(run, t) <==> Spaced(run, t[1..]) && !(run(t[0]) && Leads(run, t[1..]))
  {
    var u := t[1..];
    assert forall i | 0 <= i < |u| :: u[i] == t[i + 1];
    forall i, j | 0 <= i < j < |t| && j == i + 1 && Spaced(run, u) && !(run(t[0]) && Leads(run, u))
      ensures !(run(t[i]) && run(t[j]))
    {
      assert t[j] == u[j - 1];
      if i > 0 { assert t[i] == u[i - 1]; }
    }
  }

  predicate Trails<T>(p: T -> bool, t: seq<T>) {
    t != [] && p(t[|t| - 1])
  }

  lemma {:induction false} SpacedJoin<T>(run: T -> bool, s: seq<T>, t: seq<T>)
    requires Spaced(run, s) && Spaced(run, t) && !(Trails(run, s) && Leads(run, t))
    ensures Spaced(run, s + t)
  {
    if s == [] {
      assert s + t == t;
    } else {
      SpacedHead(run, s);
      SpacedJoin(run, s[1..], t);
      TailJoin(s, t);
      SpacedHead(run, s + t);
    }
  }

  // ---------------------------------------------------------------------
  // Reading

  function Lex<T>(first: string -> Option<(T, string)>, s: string): (r: Option<seq<T>>)
    decreases |s|
  {
    if s == "" then Some([])
    else
      var r := first(s);
      if r.None? || |r.value.1| >= |s| then None
      else
        var more := Lex(first, r.value.1);
        if more.None? then None else Some([r.value.0] + more.value)
  }

  /** `first` reads a token from exactly its own characters, and one that runs on only to
      its end. */
  ghost predicate ReadsOne<T>(first: string -> Option<(T, string)>, show: T -> string, plain: T -> bool,
                              run: T -> bool, more: char -> bool, s: string, t: T, rest: string) {
    s != "" ==>
      (first(s) == Some((t, rest)) <==> s == show(t) + rest && plain(t) && (run(t) ==> !Starts(more, rest)))
  }

  ghost predicate ShowsOne<T>(show: T -> string, plain: T -> bool, run: T -> bool, more: char -> bool, t: T) {
    plain(t) ==> show(t) != "" && (more(show(t)[0]) <==> run(t))
  }

  ghost predicate Reads<T(!new)>(first: string -> Option<(T, string)>, show: T -> string, plain: T -> bool,
                                 run: T -> bool, more: char -> bool) {
    && (forall s, t, rest :: ReadsOne(first, show, plain, run, more, s, t, rest))
    && (forall t :: ShowsOne(show, plain, run, more, t))
  }

  lemma TextStarts<T(!new)>(first: string -> Option<(T, string)>, show: T -> string, plain: T -> bool,
                            run: T -> bool, more: char -> bool, t: seq<T>)
    requires Reads(first, show, plain, run, more) && Every(plain, t)
    ensures Starts(more, Text(show, t)) <==> Leads(run, t)
    ensures Text(show, t) == "" <==> t == []
  {
    if t != [] {
      assert ShowsOne(show, plain, run, more, t[0]);
    }
  }

  /** Characters are read as tokens exactly when they are the text of plain tokens, those
      that run on not side by side. */
  lemma {:induction false} LexExact<T(!new)>(first: string -> Option<(T, string)>, show: T -> string, plain: T -> bool,
                                             run: T -> bool, more: char -> bool, s: string, t: seq<T>)
    requires Reads(first, show, plain, run, more)
    ensures Lex(first, s) == Some(t) <==> s == Text(show, t) && Every(plain, t) && Spaced(run, t)
    decreases |s|
  {
    if s == "" {
      if Every(plain, t) { TextStarts(first, show, plain, run, more, t); }
    } else if t != [] {
      SpacedHead(run, t);
      EveryHead(plain, t);
      if Lex(first, s) == Some(t) {
        LexSound(first, show, plain, run, more, s, t);
      }
      if s == Text(show, t) && Every(plain, t) && Spaced(run, t) {
        TextStarts(first, show, plain, run, more, t[1..]);
        assert ReadsOne(first, show, plain, run, more, s, t[0], Text(show, t[1..]));
        assert ShowsOne(show, plain, run, more, t[0]);
        LexExact(first, show, plain, run, more, Text(show, t[1..]), t[1..]);
        assert t == [t[0]] + t[1..];
      }
    }
  }

  lemma {:induction false} LexSound<T(!new)>(first: string -> Option<(T, string)>, show: T -> string, plain: T -> bool,
                                             run: T -> bool, more: char -> bool, s: string, t: seq<T>)
    requires Reads(first, show, plain, run, more) && s != "" && t != [] && Lex(first, s) == Some(t)
    ensures s == Text(show, t) && Every(plain, t) && Spaced(run, t)
    decreases |s|, 0
  {
    var (x, rest) := first(s).value;
    assert ReadsOne(first, show, plain, run, more, s, x, rest);
    assert t[0] == x && t[1..] == Lex(first, rest).value;
    LexExact(first, show, plain, run, more, rest, t[1..]);
    TextStarts(first, show, plain, run, more, t[1..]);
    SpacedHead(run, t);
    EveryHead(plain, t);
  }
}
