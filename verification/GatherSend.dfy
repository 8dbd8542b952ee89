/**
 Sending over a socket that may take less than it is given (XrdLinkXeq.cc, Send and
 SendIOV; XrdLink.cc, Send). What the system answers is a script: any sequence of
 short writes, interruptions and errors, and full writes once the script is used up.
 */
module GatherSend {
  import opened Wrappers

  datatype Reply = Wrote(most: nat) | Interrupted | Error

  /** The bytes of the vector from element i on. */
  function Rest(iov: seq<seq<byte>>, i: nat): seq<byte>
    decreases |iov| - i
  {
    if i >= |iov| then [] else iov[i] + Rest(iov, i + 1)
  }

  function Total(iov: seq<seq<byte>>): nat {
    |Rest(iov, 0)|
  }

  lemma Prefixes(a: seq<byte>, b: seq<byte>, out: seq<byte>, rest: seq<byte>)
    requires out + rest == a + b && |out| >= |a|
    ensures a <= out <= a + b
  {
    assert (out + rest)[..|out|] == out && (out + rest)[..|a|] == out[..|a|] && (a + b)[..|a|] == a;
  }

  lemma Reached(before: seq<byte>, buff: seq<byte>, rest: seq<byte>, out: seq<byte>, goal: seq<byte>)
    requires before <= out <= before + buff && goal == before + buff + rest
    ensures out <= goal && (|out| == |before| + |buff| ==> out == before + buff)
  {
  }

  lemma SplitWithin(head: seq<byte>, e: seq<byte>, rest: seq<byte>, n: nat)
    requires n <= |e|
    ensures head + (e + rest) == head + e[..n] + (e[n..] + rest)
  {
    assert e == e[..n] + e[n..];
    Assoc(e[..n], e[n..], rest);
    Assoc(head, e[..n], e[n..] + rest);
  }

  lemma TakeHead(head: seq<byte>, tail: seq<byte>)
    ensures (head + tail)[..|head|] == head
  {
  }

  /** write and writev on one socket: `out` is what the other side gets. */
  class XrdLinkXeq {
    const maxIOV: nat
    var script: seq<Reply>
    var out: seq<byte>
    var errors: nat       // errors other than interruptions reported by the system
    var bytesOut: int

    constructor (maxIOV: nat, script: seq<Reply>)
      ensures this.maxIOV == maxIOV && this.script == script && out == [] && errors == 0 == bytesOut
    {
      this.maxIOV, this.script := maxIOV, script;
      out, errors, bytesOut := [], 0, 0;
    }

    method Write(data: seq<byte>) returns (retc: int, eintr: bool)
      modifies `script, `out, `errors
      ensures -1 <= retc <= |data| && (eintr ==> retc < 0)
      ensures out == if retc < 0 then old(out) else old(out) + data[..retc]
      ensures errors == old(errors) + (if retc < 0 && !eintr then 1 else 0)
      ensures |script| < |old(script)| || (script == old(script) && retc == |data|)
    {
      if script == [] {
        out := out + data;
        assert data[..|data|] == data;
        return |data|, false;
      }
      var r := script[0];
      script := script[1..];
      match r {
        case Wrote(most) =>
          retc, eintr := if most < |data| then most else |data|, false;
          out := out + data[..retc];
        case Interrupted =>
          retc, eintr := -1, true;
        case Error =>
          retc, eintr := -1, false;
          errors := errors + 1;
      }
    }

    /** The loop that writes one buffer to its end: it stops early only on an error. */
    method WriteAll(buff: seq<byte>) returns (retc: int, left: nat)
      modifies `script, `out, `errors
      ensures left <= |buff| && |out| == |old(out)| + |buff| - left
      ensures old(out) <= out <= old(out) + buff
      ensures retc < 0 <==> errors == old(errors) + 1
      ensures retc >= 0 <==> left == 0 && errors == old(errors)
      ensures |script| <= |old(script)|
    {
      ghost var goal := old(out) + buff;
      var rest := buff;
      retc := 0;
      while rest != []
        invariant out + rest == goal && |out| >= |old(out)|
        invariant errors == old(errors) && (rest == [] ==> retc >= 0)
        invariant |script| <= |old(script)|
        decreases |script|, |rest|
      {
        ghost var before := out;
        var eintr;
        retc, eintr := Write(rest);
        if retc < 0 {
          if eintr { continue; }
          break;
        }
        Assoc(before, rest[..retc], rest[retc..]);
        rest := rest[retc..];
      }
      left := |rest|;
      Prefixes(old(out), buff, out, rest);
    }

    /** Send of one buffer: success means every byte was taken; failure happens only
        when the system reports an error, and then a prefix was taken. */
    method Send(buff: seq<byte>) returns (r: int)
      modifies this
      ensures r == |buff| || r == -1
      ensures r >= 0 ==> out == old(out) + buff && errors == old(errors)
      ensures r < 0 ==> old(out) <= out <= old(out) + buff && errors == old(errors) + 1
      ensures bytesOut == old(bytesOut) + |buff|
    {
      bytesOut := bytesOut + |buff|;
      var retc, left := WriteAll(buff);
      r := if retc >= 0 then |buff| else -1;
    }

    /** The loop past the elements that were written whole, `retc` bytes having been
        written from element i on; it ends before the vector does. */
    method SkipWhole(iov: seq<seq<byte>>, i: nat, retc: nat) returns (at: nat, within: nat, ghost head: seq<byte>)
      requires i <= |iov| && retc < |Rest(iov, i)|
      ensures i <= at < |iov| && within < |iov[at]|
      ensures |head| == retc && Rest(iov, i) == head + (iov[at][within..] + Rest(iov, at + 1))
    {
      at, within, head := i, retc, [];
      while within >= |iov[at]|
        invariant i <= at < |iov| && within < |Rest(iov, at)|
        invariant |head| + within == retc && Rest(iov, i) == head + Rest(iov, at)
        decreases |iov| - at
      {
        Assoc(head, iov[at], Rest(iov, at + 1));
        head := head + iov[at];
        within := within - |iov[at]|;
        at := at + 1;
      }
      SplitWithin(head, iov[at], Rest(iov, at + 1), within);
      head := head + iov[at][..within];
    }

    /** SendIOV: the whole vector or, on an error, a prefix of it. */
    method SendIOV(iov: seq<seq<byte>>, bytes: nat) returns (r: int)
      requires bytes == Total(iov) && |iov| <= maxIOV
      modifies `script, `out, `errors
      ensures r == bytes || r == -1
      ensures r >= 0 ==> out == old(out) + Rest(iov, 0) && errors == old(errors)
      ensures r < 0 ==> old(out) <= out <= old(out) + Rest(iov, 0) && errors == old(errors) + 1
      ensures |script| <= |old(script)|
    {
      ghost var goal := old(out) + Rest(iov, 0);
      var i: nat, bytesleft: nat, retc: int := 0, bytes, 0;
      while bytesleft != 0
        invariant i <= |iov| && bytesleft == |Rest(iov, i)| && retc >= 0
        invariant out + Rest(iov, i) == goal && |out| >= |old(out)|
        invariant errors == old(errors) && |script| <= |old(script)|
        decreases |script|, bytesleft
      {
        var left;
        i, left, retc := SendOnce(iov, i, bytesleft, goal);
        if retc < 0 || left == 0 || i == |iov| {
          bytesleft := left;
          break;
        }
        bytesleft := left;
      }
      assert old(out) <= goal && |out| >= |old(out)| && out <= goal;
      r := if retc >= 0 then bytes else -1;
    }

    /** writev again until it is not interrupted. */
    method Writev(iov: seq<seq<byte>>, i: nat) returns (retc: int)
      requires i <= |iov|
      modifies `script, `out, `errors
      ensures -1 <= retc <= |Rest(iov, i)|
      ensures out == if retc < 0 then old(out) else old(out) + Rest(iov, i)[..retc]
      ensures errors == old(errors) + (if retc < 0 then 1 else 0)
      ensures |script| < |old(script)| || (|script| == |old(script)| && retc == |Rest(iov, i)|)
    {
      var eintr;
      retc, eintr := Write(Rest(iov, i));
      while retc < 0 && eintr
        invariant -1 <= retc <= |Rest(iov, i)| && (eintr ==> retc < 0)
        invariant out == if retc < 0 then old(out) else old(out) + Rest(iov, i)[..retc]
        invariant errors == old(errors) + (if retc < 0 && !eintr then 1 else 0)
        invariant |script| < |old(script)| || (|script| == |old(script)| && retc == |Rest(iov, i)|)
        decreases |script|, if retc < 0 then 1 else 0
      {
        retc, eintr := Write(Rest(iov, i));
      }
    }

    /** One round of SendIOV: a writev, and when it stops inside an element the rest of
        that element; `goal` is what the other side is to have in the end. */
    method SendOnce(iov: seq<seq<byte>>, i: nat, bytesleft: nat, ghost goal: seq<byte>)
        returns (at: nat, left: nat, retc: int)
      requires i <= |iov| && bytesleft == |Rest(iov, i)| > 0 && out + Rest(iov, i) == goal
      modifies `script, `out, `errors
      ensures at <= |iov| && |out| >= |old(out)| && out <= goal
      ensures retc >= 0 ==> left == |Rest(iov, at)| && out + Rest(iov, at) == goal && errors == old(errors)
      ensures retc < 0 ==> errors == old(errors) + 1
      ensures |script| < |old(script)| || left == 0
      ensures |script| <= |old(script)|
    {
      at, left := i, bytesleft;
      retc := Writev(iov, i);
      if retc >= bytesleft || retc < 0 {
        if retc >= 0 {
          at, left := |iov|, 0;
          assert Rest(iov, i)[..retc] == Rest(iov, i);
        }
        return;
      }
      ghost var start, head := old(out), [];
      var within;
      at, within, head := SkipWhole(iov, i, retc);
      var buff := iov[at][within..];
      ghost var rest := Rest(iov, at + 1);
      TakeHead(head, buff + rest);
      Assoc(start, head, buff + rest);
      Assoc(start + head, buff, rest);
      left, at := bytesleft - retc, at + 1;
      var over;
      retc, over := WriteAll(buff);
      left := left - (|buff| - over);
      Reached(start + head, buff, rest, out, goal);
    }

    /** Send of a vector: cut into pieces the system accepts, each sent in turn. */
    method SendVector(iov: seq<seq<byte>>, bytes: nat) returns (r: int)
      requires bytes == Total(iov) && maxIOV >= 1
      modifies this
      ensures r == bytes || r == -1
      ensures r >= 0 ==> out == old(out) + Rest(iov, 0) && errors == old(errors)
      ensures r < 0 ==> old(out) <= out <= old(out) + Rest(iov, 0) && errors == old(errors) + 1
      ensures bytesOut == old(bytesOut) + bytes
    {
      bytesOut := bytesOut + bytes;
      if |iov| <= maxIOV {
        r := SendIOV(iov, bytes);
        return;
      }
      ghost var goal := old(out) + Rest(iov, 0);
      var lo, segcnt, iolen := 0, maxIOV, 0;
      while lo < |iov|
        invariant lo <= |iov| && segcnt == (if |iov| - lo <= maxIOV then |iov| - lo else maxIOV)
        invariant out + Rest(iov, lo) == goal && old(out) <= out && errors == old(errors)
        invariant iolen + |Rest(iov, lo)| == bytes
        invariant bytesOut == old(bytesOut) + bytes
      {
        var seg := iov[lo..lo + segcnt];
        var seglen := SumLengths(seg);
        RestSplit(iov, lo, segcnt);
        ghost var before, rest := out, Rest(iov, lo + segcnt);
        assert before + (Rest(seg, 0) + rest) == before + Rest(seg, 0) + rest;
        var retc := SendIOV(seg, seglen);
        if retc < 0 {
          assert out <= before + Rest(seg, 0) <= goal;
          return -1;
        }
        iolen := iolen + retc;
        lo := lo + segcnt;
        if |iov| - lo <= maxIOV {
          segcnt := |iov| - lo;
        }
      }
      r := iolen;
    }
  }

  lemma {:induction false} RestSplit(iov: seq<seq<byte>>, lo: nat, n: nat)
    requires lo + n <= |iov|
    ensures Rest(iov, lo) == Rest(iov[lo..lo + n], 0) + Rest(iov, lo + n)
  {
    SliceRest(iov, lo, n, 0);
  }

  lemma {:induction false} SliceRest(iov: seq<seq<byte>>, lo: nat, n: nat, k: nat)
    requires lo + n <= |iov| && k <= n
    ensures Rest(iov, lo + k) == Rest(iov[lo..lo + n], k) + Rest(iov, lo + n)
    decreases n - k
  {
    if k < n {
      SliceRest(iov, lo, n, k + 1);
      var a, b, c := iov[lo + k], Rest(iov[lo..lo + n], k + 1), Rest(iov, lo + n);
      assert a + (b + c) == a + b + c;
    }
  }

  /** The loop that adds up the lengths of some elements. */
  method SumLengths(iov: seq<seq<byte>>) returns (bytes: nat)
    ensures bytes == Total(iov)
  {
    bytes := 0;
    var i := 0;
    while i < |iov|
      invariant i <= |iov| && bytes + |Rest(iov, i)| == Total(iov)
    {
      bytes := bytes + |iov[i]|;
      i := i + 1;
    }
  }

  /** XrdLink::Send: a byte count of 0 means that the caller did not add it up. */
  method LinkSend(link: XrdLinkXeq, iov: seq<seq<byte>>, bytes: nat) returns (r: int)
    requires link.maxIOV >= 1 && (bytes == 0 || bytes == Total(iov))
    modifies link
    ensures r == Total(iov) || r == -1
    ensures r >= 0 ==> link.out == old(link.out) + Rest(iov, 0) && link.errors == old(link.errors)
    ensures r < 0 ==> old(link.out) <= link.out <= old(link.out) + Rest(iov, 0) && link.errors == old(link.errors) + 1
    ensures link.bytesOut == old(link.bytesOut) + Total(iov)
  {
    var n := bytes;
    if n == 0 {
      n := SumLengths(iov);
    }
    r := link.SendVector(iov, n);
  }
}
