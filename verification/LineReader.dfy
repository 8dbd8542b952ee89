/**
 Reading lines in chunks (python/src/PyXRootDFile.cc, ReadLine, ReadLines, ReadChunk):
 calls without an offset and a size, over bytes. The store may return fewer bytes than
 asked for, but some while there are any.
 */
module LineReader {
  import opened Wrappers

  const NEWLINE: byte := 10
  const UINT_MAX: nat := 0xFFFF_FFFF
  const DEFAULT_CHUNK: nat := 2097152

  /** Where the line that starts at i ends, its newline included. */
  function LineEnd(data: seq<byte>, i: nat): (e: nat)
    requires i <= |data|
    ensures i <= e <= |data| && (i < |data| ==> i < e)
    decreases |data| - i
  {
    if i == |data| then i else if data[i] == NEWLINE then i + 1 else LineEnd(data, i + 1)
  }

  /** The lines from i on. */
  function Lines(data: seq<byte>, i: nat): seq<seq<byte>>
    requires i <= |data|
    decreases |data| - i
  {
    if i == |data| then [] else [data[i..LineEnd(data, i)]] + Lines(data, LineEnd(data, i))
  }

  /** No line from i on is too long for a 32-bit count. */
  predicate ShortLines(data: seq<byte>, i: nat)
    requires i <= |data|
    decreases |data| - i
  {
    i == |data| || (LineEnd(data, i) - i <= UINT_MAX && ShortLines(data, LineEnd(data, i)))
  }

  function Concat(s: seq<seq<byte>>): seq<byte> {
    if s == [] then [] else s[0] + Concat(s[1..])
  }

  /** A line is not empty and has a newline at its end only; only the last may lack it. */
  ghost predicate IsLine(l: seq<byte>, last: bool) {
    && l != []
    && (forall k | 0 <= k < |l| - 1 :: l[k] != NEWLINE)
    && (!last ==> l[|l| - 1] == NEWLINE)
  }

  lemma {:induction false} LineIsLine(data: seq<byte>, i: nat)
    requires i < |data|
    ensures IsLine(data[i..LineEnd(data, i)], LineEnd(data, i) == |data|)
    decreases |data| - i
  {
    var e := LineEnd(data, i);
    if data[i] != NEWLINE && i + 1 < |data| {
      LineIsLine(data, i + 1);
      var l, m := data[i..e], data[i + 1..e];
      forall k | 0 <= k < |l| - 1 ensures l[k] != NEWLINE {
        if k > 0 {
          assert l[k] == m[k - 1];
        }
      }
      assert l[|l| - 1] == m[|m| - 1];
    }
  }

  /** The lines together are the data, and each has its newline at the end and nowhere
      else, the last perhaps none. */
  lemma {:induction false} LinesExact(data: seq<byte>, i: nat)
    requires i <= |data|
    ensures Concat(Lines(data, i)) == data[i..]
    ensures forall k | 0 <= k < |Lines(data, i)| :: IsLine(Lines(data, i)[k], k == |Lines(data, i)| - 1)
    decreases |data| - i
  {
    if i < |data| {
      var e := LineEnd(data, i);
      LineIsLine(data, i);
      LinesExact(data, e);
      var s := Lines(data, i);
      assert s[1..] == Lines(data, e);
      assert data[i..] == data[i..e] + data[e..];
      forall k | 0 <= k < |s| ensures IsLine(s[k], k == |s| - 1) {
        if k > 0 {
          assert s[k] == Lines(data, e)[k - 1];
        }
      }
    }
  }

  lemma {:induction false} EndAt(data: seq<byte>, i: nat, n: nat)
    requires 0 < n && i + n <= |data|
    requires forall k | i <= k < i + n - 1 :: data[k] != NEWLINE
    requires data[i + n - 1] == NEWLINE || i + n == |data|
    ensures LineEnd(data, i) == i + n
    decreases n
  {
    if n > 1 {
      EndAt(data, i + 1, n - 1);
    } else if data[i] != NEWLINE {
      assert LineEnd(data, i + 1) == i + 1;
    }
  }

  /** Any list of lines that make up the data is this one. */
  lemma {:induction false} LinesUnique(data: seq<byte>, before: seq<byte>, s: seq<seq<byte>>)
    requires data == before + Concat(s)
    requires forall k | 0 <= k < |s| :: IsLine(s[k], k == |s| - 1)
    ensures s == Lines(data, |before|)
    decreases |s|
  {
    if s != [] {
      var l, rest := s[0], Concat(s[1..]);
      assert before + (l + rest) == before + l + rest;
      FirstLine(data, before, l, rest, |s| == 1);
      forall k | 0 <= k < |s[1..]| ensures IsLine(s[1..][k], k == |s[1..]| - 1) {
        assert IsLine(s[k + 1], k + 1 == |s| - 1);
      }
      LinesUnique(data, before + l, s[1..]);
    }
  }

  lemma FirstLine(data: seq<byte>, before: seq<byte>, l: seq<byte>, rest: seq<byte>, last: bool)
    requires data == before + l + rest && IsLine(l, last) && (last ==> rest == [])
    ensures LineEnd(data, |before|) == |before| + |l| && data[|before|..|before| + |l|] == l
  {
    assert forall k | |before| <= k < |before| + |l| :: data[k] == l[k - |before|];
    EndAt(data, |before|, |l|);
  }

  lemma OneMoreLine(data: seq<byte>, i: nat, lines: seq<seq<byte>>)
    requires i < |data|
    ensures lines + Lines(data, i) == lines + [data[i..LineEnd(data, i)]] + Lines(data, LineEnd(data, i))
  {
  }

  lemma Longer(data: seq<byte>, from: nat, at: nat, part: seq<byte>, n: nat)
    requires from <= at && at + |part| <= |data| && n <= |part|
    requires forall k | 0 <= k < |part| :: part[k] == data[at + k]
    ensures data[from..at] + part[..n] == data[from..at + n]
  {
    assert part[..n] == data[at..at + n];
  }

  class File {
    const data: seq<byte>
    var limits: seq<nat>       // how much the next reads return at most, then everything
    var currentOffset: nat

    constructor (data: seq<byte>, limits: seq<nat>)
      ensures this.data == data && this.limits == limits && currentOffset == 0
    {
      this.data, this.limits, currentOffset := data, limits, 0;
    }

    /** ReadChunk: some bytes from the offset on, none only at the end of the file. */
    method ReadChunk(offset: nat, size: nat) returns (chunk: seq<byte>)
      requires size > 0
      modifies `limits
      ensures |chunk| <= size && offset + |chunk| <= (if offset > |data| then offset else |data|)
      ensures forall k | 0 <= k < |chunk| :: chunk[k] == data[offset + k]
      ensures chunk == [] <==> offset >= |data|
    {
      if offset >= |data| {
        return [];
      }
      var n := if |data| - offset < size then |data| - offset else size;
      if limits != [] {
        if 0 < limits[0] < n { n := limits[0]; }
        limits := limits[1..];
      }
      chunk := data[offset..offset + n];
    }

    /** The scan of one chunk, `had` bytes of the line being there already: where the
        line ends in it, if it does. */
    method Scan(chunk: seq<byte>, had: nat, size: nat, offset: nat, ghost start: nat) returns (found: bool, upto: nat)
      requires start <= offset && had == offset - start && offset + |chunk| <= |data|
      requires forall k | 0 <= k < |chunk| :: chunk[k] == data[offset + k]
      requires LineEnd(data, start) == LineEnd(data, offset)
      requires LineEnd(data, start) - start <= size
      ensures upto <= |chunk|
      ensures found ==> offset + upto == LineEnd(data, start)
      ensures !found ==> upto == |chunk| && LineEnd(data, start) == LineEnd(data, offset + |chunk|)
    {
      var i := 0;
      while i < |chunk|
        invariant i <= |chunk| && LineEnd(data, start) == LineEnd(data, offset + i)
      {
        if chunk[i] == NEWLINE || had + i >= size {
          return true, i + 1;
        }
        i := i + 1;
      }
      return false, |chunk|;
    }

    /** readline(): the next line, whatever the chunk size and however short the reads. */
    method ReadLine(chunksize: nat) returns (line: seq<byte>)
      requires currentOffset <= |data| && LineEnd(data, currentOffset) - currentOffset <= UINT_MAX
      modifies this
      ensures line == data[old(currentOffset)..LineEnd(data, old(currentOffset))]
      ensures currentOffset == LineEnd(data, old(currentOffset))
    {
      ghost var start, end := currentOffset, LineEnd(data, currentOffset);
      var offset: nat := currentOffset;
      var chunk := if chunksize == 0 then DEFAULT_CHUNK else chunksize;
      var size := UINT_MAX;
      if size < chunk { chunk := size; }
      var off_end := offset + size;
      line := [];
      while offset < off_end
        invariant start <= offset <= |data| && line == data[start..offset]
        invariant end == LineEnd(data, offset) && currentOffset == start
        decreases |data| - offset, off_end - offset
      {
        var part := ReadChunk(offset, chunk);
        if part == [] { break; }
        var found, upto := Scan(part, |line|, size, offset, start);
        Longer(data, start, offset, part, upto);
        line := line + part[..upto];
        offset := offset + |part|;
        if found { break; }
      }
      currentOffset := currentOffset + |line|;
    }

    /** readlines(): the rest of the file, cut at its newlines. */
    method ReadLines(chunksize: nat) returns (lines: seq<seq<byte>>)
      requires currentOffset <= |data| && ShortLines(data, currentOffset)
      modifies this
      ensures lines == Lines(data, old(currentOffset)) && currentOffset == |data|
      ensures Concat(lines) == data[old(currentOffset)..]
    {
      ghost var start := currentOffset;
      LinesExact(data, start);
      lines := [];
      while true
        invariant currentOffset <= |data| && ShortLines(data, currentOffset)
        invariant lines + Lines(data, currentOffset) == Lines(data, start)
        decreases |data| - currentOffset
      {
        ghost var at := currentOffset;
        var line := ReadLine(chunksize);
        if line == [] { break; }
        OneMoreLine(data, at, lines);
        lines := lines + [line];
      }
    }
  }
}
