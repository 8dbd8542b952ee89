/**
 The name and value vectors of a file attribute request (src/XProtocol/XProtocol.cc,
 NVecInsert, VVecInsert, NVecRead, VVecRead), in a buffer with an advancing position.
 */
module FattrCodec {
  import opened Wrappers

  const INT32_MAX: nat := 0x7FFF_FFFF

  /** A C string: no NUL inside. */
  predicate IsText(s: seq<byte>) {
    forall k | 0 <= k < |s| :: s[k] != 0
  }

  /** The bytes are in memory at pos. */
  predicate At(mem: seq<byte>, pos: nat, s: seq<byte>) {
    pos + |s| <= |mem| && forall k | 0 <= k < |s| :: mem[pos + k] == s[k]
  }

  /** What is before and after a stretch of the buffer stays. */
  twostate predicate Outside(buffer: array<byte>, from: nat, to: nat)
    requires from <= to <= buffer.Length
    reads buffer
  {
    && (forall k | 0 <= k < from :: buffer[k] == old(buffer[k]))
    && (forall k | to <= k < buffer.Length :: buffer[k] == old(buffer[k]))
  }

  // ---------------------------------------------------------------------
  // The wire format

  /** A 32-bit length, most significant byte first. */
  function Be32(n: nat): (s: seq<byte>)
    requires n <= INT32_MAX
    ensures |s| == 4
    ensures n == s[0] as int * 0x100_0000 + s[1] as int * 0x1_0000 + s[2] as int * 0x100 + s[3] as int
  {
    [(n / 0x100_0000) as byte, (n / 0x1_0000 % 0x100) as byte, (n / 0x100 % 0x100) as byte, (n % 0x100) as byte]
  }

  /** The signed number four bytes hold. */
  function Int32(a: byte, b: byte, c: byte, d: byte): int {
    var u := a as int * 0x100_0000 + b as int * 0x1_0000 + c as int * 0x100 + d as int;
    if u > INT32_MAX then u - 0x1_0000_0000 else u
  }

  lemma Be32RoundTrip(n: nat)
    requires n <= INT32_MAX
    ensures var s := Be32(n); Int32(s[0], s[1], s[2], s[3]) == n
  {
    var x, y := n / 0x100, n / 0x1_0000;
    assert y == x / 0x100 && n / 0x100_0000 == y / 0x100;
  }

  function NEntry(name: seq<byte>): seq<byte> {
    [0, 0] + name + [0]
  }

  function VEntry(value: seq<byte>): seq<byte>
    requires |value| <= INT32_MAX
  {
    Be32(|value|) + value
  }

  function NVec(names: seq<seq<byte>>): seq<byte> {
    if names == [] then [] else NVec(names[..|names| - 1]) + NEntry(names[|names| - 1])
  }

  function VVec(values: seq<seq<byte>>): seq<byte>
    requires forall k | 0 <= k < |values| :: |values[k]| <= INT32_MAX
  {
    if values == [] then [] else VVec(values[..|values| - 1]) + VEntry(values[|values| - 1])
  }

  // ---------------------------------------------------------------------
  // Writing

  /** memcpy. */
  method Copy(buffer: array<byte>, pos: nat, s: seq<byte>) returns (next: nat)
    requires pos + |s| <= buffer.Length
    modifies buffer
    ensures next == pos + |s| && At(buffer[..], pos, s) && Outside(buffer, pos, next)
  {
    var i := 0;
    while i < |s|
      invariant i <= |s| && forall k | 0 <= k < i :: buffer[pos + k] == s[k]
      invariant forall k | 0 <= k < buffer.Length && (k < pos || pos + i <= k) :: buffer[k] == old(buffer[k])
    {
      buffer[pos + i] := s[i];
      i := i + 1;
    }
    next := pos + |s|;
  }

  lemma NBytes(mem: seq<byte>, pos: nat, name: seq<byte>)
    requires At(mem, pos, NEntry(name))
    ensures mem[pos] == 0 == mem[pos + 1] && mem[pos + 2 + |name|] == 0 && mem[pos + 2..pos + 2 + |name|] == name
  {
    var e := NEntry(name);
    assert mem[pos + 0] == e[0] && mem[pos + 1] == e[1] && mem[pos + (2 + |name|)] == e[2 + |name|];
    forall k: nat | k < |name| ensures mem[pos + 2..pos + 2 + |name|][k] == name[k] {
      assert mem[pos + (2 + k)] == e[2 + k];
    }
  }

  method NVecInsert(name: seq<byte>, buffer: array<byte>, pos: nat) returns (next: nat)
    requires IsText(name) && pos + |name| + 3 <= buffer.Length
    modifies buffer
    ensures next == pos + |NEntry(name)| && At(buffer[..], pos, NEntry(name)) && Outside(buffer, pos, next)
    ensures next == pos + 2 + |name| + 1 && buffer[pos] == 0 == buffer[pos + 1] && buffer[next - 1] == 0
    ensures buffer[pos + 2..next - 1] == name
  {
    next := Copy(buffer, pos, [0, 0]);
    next := Copy(buffer, next, name + [0]);
    assert NEntry(name) == [0, 0] + (name + [0]);
    NBytes(buffer[..], pos, name);
  }

  method VVecInsert(value: seq<byte>, buffer: array<byte>, pos: nat) returns (next: nat)
    requires IsText(value) && |value| <= INT32_MAX && pos + |value| + 4 <= buffer.Length
    modifies buffer
    ensures next == pos + |VEntry(value)| && At(buffer[..], pos, VEntry(value)) && Outside(buffer, pos, next)
    ensures next == pos + 4 + |value| && buffer[pos + 4..next] == value
    ensures |value| == buffer[pos] as int * 0x100_0000 + buffer[pos + 1] as int * 0x1_0000
                       + buffer[pos + 2] as int * 0x100 + buffer[pos + 3] as int
  {
    next := Copy(buffer, pos, Be32(|value|));
    next := Copy(buffer, next, value);
  }

  // ---------------------------------------------------------------------
  // Reading

  method NVecReadRc(buffer: array<byte>, pos: nat) returns (next: nat, rc: nat)
    requires pos + 2 <= buffer.Length
    ensures next == pos + 2 && rc == buffer[pos] as nat * 0x100 + buffer[pos + 1] as nat
  {
    next, rc := pos + 2, buffer[pos] as nat * 0x100 + buffer[pos + 1] as nat;
  }

  method NVecReadName(buffer: array<byte>, pos: nat) returns (next: nat, name: seq<byte>)
    requires exists z: nat | pos <= z < buffer.Length :: buffer[z] == 0
    ensures IsText(name) && At(buffer[..], pos, name + [0]) && next == pos + |name| + 1
  {
    name := [];
    while buffer[pos + |name|] != 0
      invariant pos + |name| < buffer.Length
      invariant IsText(name) && forall k | 0 <= k < |name| :: name[k] == buffer[pos + k]
      invariant exists z: nat | pos + |name| <= z < buffer.Length :: buffer[z] == 0
      decreases buffer.Length - |name|
    {
      name := name + [buffer[pos + |name|]];
    }
    next := pos + |name| + 1;
  }

  method VVecReadLen(buffer: array<byte>, pos: nat) returns (next: nat, len: int)
    requires pos + 4 <= buffer.Length
    ensures next == pos + 4
    ensures len == Int32(buffer[pos], buffer[pos + 1], buffer[pos + 2], buffer[pos + 3])
  {
    next, len := pos + 4, Int32(buffer[pos], buffer[pos + 1], buffer[pos + 2], buffer[pos + 3]);
  }

  /** The value is cut at a NUL, should there be one. */
  method VVecReadValue(buffer: array<byte>, pos: nat, len: nat) returns (next: nat, value: seq<byte>)
    requires pos + len <= buffer.Length
    ensures next == pos + len && |value| <= len && IsText(value) && At(buffer[..], pos, value)
    ensures |value| < len ==> buffer[pos + |value|] == 0
  {
    value := [];
    while |value| < len && buffer[pos + |value|] != 0
      invariant |value| <= len && IsText(value) && forall k | 0 <= k < |value| :: value[k] == buffer[pos + k]
      decreases len - |value|
    {
      value := value + [buffer[pos + |value|]];
    }
    next := pos + len;
  }

  // ---------------------------------------------------------------------
  // Round trips

  lemma AtSplit(mem: seq<byte>, pos: nat, s: seq<byte>, t: seq<byte>)
    ensures At(mem, pos, s + t) <==> At(mem, pos, s) && At(mem, pos + |s|, t)
  {
    if At(mem, pos, s + t) {
      assert forall k | 0 <= k < |s| :: mem[pos + k] == (s + t)[k] == s[k];
      assert forall k | 0 <= k < |t| :: mem[pos + (|s| + k)] == (s + t)[|s| + k] == t[k];
    }
    if At(mem, pos, s) && At(mem, pos + |s|, t) {
      forall k | 0 <= k < |s + t| ensures mem[pos + k] == (s + t)[k] {
        if k >= |s| {
          assert mem[pos + |s| + (k - |s|)] == t[k - |s|];
        }
      }
    }
  }

  lemma ByteAt(mem: seq<byte>, pos: nat, s: seq<byte>, k: nat)
    requires At(mem, pos, s) && k < |s|
    ensures pos + k < |mem| && mem[pos + k] == s[k]
  {
  }

  lemma NotLonger(mem: seq<byte>, pos: nat, s: seq<byte>, t: seq<byte>)
    requires IsText(t) && At(mem, pos, s + [0]) && At(mem, pos, t + [0])
    ensures |t| <= |s|
  {
    ByteAt(mem, pos, s + [0], |s|);
    if |s| < |t| {
      ByteAt(mem, pos, t + [0], |s|);
    }
  }

  /** Two texts in the same place, each ended by a NUL, are one. */
  lemma SameText(mem: seq<byte>, pos: nat, s: seq<byte>, t: seq<byte>)
    requires IsText(s) && IsText(t) && At(mem, pos, s + [0]) && At(mem, pos, t + [0])
    ensures s == t
  {
    NotLonger(mem, pos, s, t);
    NotLonger(mem, pos, t, s);
    forall k: nat | k < |s| ensures s[k] == t[k] {
      ByteAt(mem, pos, s + [0], k);
      ByteAt(mem, pos, t + [0], k);
    }
  }

  /** An inserted name reads back as itself with a zero code, and the reader ends where
      the writer did. */
  method ReadName(buffer: array<byte>, pos: nat, ghost name: seq<byte>) returns (next: nat, rc: nat, back: seq<byte>)
    requires IsText(name) && At(buffer[..], pos, NEntry(name))
    ensures back == name && rc == 0 && next == pos + |NEntry(name)|
  {
    assert NEntry(name) == [0, 0] + (name + [0]);
    AtSplit(buffer[..], pos, [0, 0], name + [0]);
    ByteAt(buffer[..], pos, [0, 0], 0);
    ByteAt(buffer[..], pos, [0, 0], 1);
    next, rc := NVecReadRc(buffer, pos);
    ByteAt(buffer[..], next, name + [0], |name|);
    assert buffer[next + |name|] == 0;
    next, back := NVecReadName(buffer, next);
    SameText(buffer[..], pos + 2, back, name);
  }

  /** The same for a value. */
  method ReadValue(buffer: array<byte>, pos: nat, ghost value: seq<byte>) returns (next: nat, back: seq<byte>)
    requires IsText(value) && |value| <= INT32_MAX && At(buffer[..], pos, VEntry(value))
    ensures back == value && next == pos + |VEntry(value)|
  {
    AtSplit(buffer[..], pos, Be32(|value|), value);
    Be32RoundTrip(|value|);
    ghost var b := Be32(|value|);
    forall k: nat | k < 4 ensures buffer[pos + k] == b[k] {
      ByteAt(buffer[..], pos, b, k);
    }
    assert buffer[pos + 0] == b[0];
    var len;
    next, len := VVecReadLen(buffer, pos);
    assert len == |value|;
    ghost var at := next;
    next, back := VVecReadValue(buffer, next, len);
    SameValue(buffer[..], at, value, back);
  }

  lemma NoNulBefore(mem: seq<byte>, pos: nat, s: seq<byte>, n: nat)
    requires IsText(s) && At(mem, pos, s) && n <= |s|
    ensures n == |s| || mem[pos + n] != 0
  {
    if n < |s| {
      ByteAt(mem, pos, s, n);
    }
  }

  lemma SameValue(mem: seq<byte>, pos: nat, value: seq<byte>, back: seq<byte>)
    requires IsText(value) && At(mem, pos, value) && At(mem, pos, back) && |back| <= |value|
    requires |back| < |value| ==> mem[pos + |back|] == 0
    ensures back == value
  {
    NoNulBefore(mem, pos, value, |back|);
    forall k: nat | k < |back| ensures back[k] == value[k] {
      ByteAt(mem, pos, value, k);
      ByteAt(mem, pos, back, k);
    }
  }

  predicate AreTexts(s: seq<seq<byte>>) {
    forall k | 0 <= k < |s| :: IsText(s[k]) && |s[k]| <= INT32_MAX
  }

  lemma NVecNext(names: seq<seq<byte>>, k: nat)
    requires k < |names|
    ensures NVec(names[..k + 1]) == NVec(names[..k]) + NEntry(names[k])
  {
    assert names[..k + 1][..k] == names[..k];
  }

  lemma VVecNext(values: seq<seq<byte>>, k: nat)
    requires k < |values| && AreTexts(values)
    ensures VVec(values[..k + 1]) == VVec(values[..k]) + VEntry(values[k])
  {
    assert values[..k + 1][..k] == values[..k];
  }

  lemma {:induction false} NVecPrefix(mem: seq<byte>, pos: nat, names: seq<seq<byte>>, k: nat)
    requires k <= |names| && At(mem, pos, NVec(names))
    ensures At(mem, pos, NVec(names[..k]))
    decreases |names| - k
  {
    if k == |names| {
      assert names[..k] == names;
    } else {
      NVecPrefix(mem, pos, names, k + 1);
      NVecNext(names, k);
      AtSplit(mem, pos, NVec(names[..k]), NEntry(names[k]));
    }
  }

  lemma {:induction false} VVecPrefix(mem: seq<byte>, pos: nat, values: seq<seq<byte>>, k: nat)
    requires k <= |values| && AreTexts(values) && At(mem, pos, VVec(values))
    ensures At(mem, pos, VVec(values[..k]))
    decreases |values| - k
  {
    if k == |values| {
      assert values[..k] == values;
    } else {
      VVecPrefix(mem, pos, values, k + 1);
      VVecNext(values, k);
      AtSplit(mem, pos, VVec(values[..k]), VEntry(values[k]));
    }
  }

  /** Where the k-th entry of a vector in memory is. */
  lemma NVecEntry(mem: seq<byte>, pos: nat, names: seq<seq<byte>>, k: nat)
    requires k < |names| && At(mem, pos, NVec(names))
    ensures At(mem, pos + |NVec(names[..k])|, NEntry(names[k]))
  {
    NVecPrefix(mem, pos, names, k + 1);
    NVecNext(names, k);
    AtSplit(mem, pos, NVec(names[..k]), NEntry(names[k]));
  }

  lemma VVecEntry(mem: seq<byte>, pos: nat, values: seq<seq<byte>>, k: nat)
    requires k < |values| && AreTexts(values) && At(mem, pos, VVec(values))
    ensures At(mem, pos + |VVec(values[..k])|, VEntry(values[k]))
  {
    VVecPrefix(mem, pos, values, k + 1);
    VVecNext(values, k);
    AtSplit(mem, pos, VVec(values[..k]), VEntry(values[k]));
  }

  /** Reading n entries of a vector of names, wherever it is: the names, zero codes, and
      not a byte more or less than the vector. */
  method ReadNames(buffer: array<byte>, pos: nat, n: nat, ghost names: seq<seq<byte>>)
      returns (next: nat, rcs: seq<nat>, back: seq<seq<byte>>)
    requires n == |names| && AreTexts(names) && At(buffer[..], pos, NVec(names))
    ensures back == names && next == pos + |NVec(names)|
    ensures |rcs| == n && forall k | 0 <= k < n :: rcs[k] == 0
  {
    next, rcs, back := pos, [], [];
    while |back| < n
      invariant |back| <= n && back == names[..|back|] && next == pos + |NVec(names[..|back|])|
      invariant |rcs| == |back| && forall k | 0 <= k < |rcs| :: rcs[k] == 0
    {
      NVecEntry(buffer[..], pos, names, |back|);
      NVecNext(names, |back|);
      var rc, name;
      next, rc, name := ReadName(buffer, next, names[|back|]);
      rcs, back := rcs + [rc], back + [name];
    }
    assert names[..n] == names;
  }

  method ReadValues(buffer: array<byte>, pos: nat, n: nat, ghost values: seq<seq<byte>>)
      returns (next: nat, back: seq<seq<byte>>)
    requires n == |values| && AreTexts(values) && At(buffer[..], pos, VVec(values))
    ensures back == values && next == pos + |VVec(values)|
  {
    next, back := pos, [];
    while |back| < n
      invariant |back| <= n && back == values[..|back|] && next == pos + |VVec(values[..|back|])|
    {
      VVecEntry(buffer[..], pos, values, |back|);
      VVecNext(values, |back|);
      var value;
      next, value := ReadValue(buffer, next, values[|back|]);
      back := back + [value];
    }
    assert values[..n] == values;
  }

  lemma {:induction false} NVecGrows(names: seq<seq<byte>>, k: nat)
    requires k <= |names|
    ensures |NVec(names[..k])| <= |NVec(names)|
    decreases |names| - k
  {
    if k == |names| {
      assert names[..k] == names;
    } else {
      NVecGrows(names, k + 1);
      NVecNext(names, k);
    }
  }

  lemma {:induction false} VVecGrows(values: seq<seq<byte>>, k: nat)
    requires k <= |values| && AreTexts(values)
    ensures |VVec(values[..k])| <= |VVec(values)|
    decreases |values| - k
  {
    if k == |values| {
      assert values[..k] == values;
    } else {
      VVecGrows(values, k + 1);
      VVecNext(values, k);
    }
  }

  lemma AtKept(was: seq<byte>, now: seq<byte>, pos: nat, s: seq<byte>)
    requires At(was, pos, s) && |was| == |now|
    requires forall k | 0 <= k < pos + |s| :: now[k] == was[k]
    ensures At(now, pos, s)
  {
  }

  /** Inserting names one after the other makes the vector of all of them. */
  method InsertNames(names: seq<seq<byte>>, buffer: array<byte>, pos: nat) returns (next: nat)
    requires AreTexts(names) && pos + |NVec(names)| <= buffer.Length
    modifies buffer
    ensures next == pos + |NVec(names)| && At(buffer[..], pos, NVec(names)) && Outside(buffer, pos, next)
  {
    next := pos;
    var i := 0;
    while i < |names|
      invariant i <= |names| && next == pos + |NVec(names[..i])| && At(buffer[..], pos, NVec(names[..i]))
      invariant next <= buffer.Length && Outside(buffer, pos, next)
    {
      NVecGrows(names, i + 1);
      NVecNext(names, i);
      ghost var was := buffer[..];
      next := NVecInsert(names[i], buffer, next);
      AtKept(was, buffer[..], pos, NVec(names[..i]));
      AtSplit(buffer[..], pos, NVec(names[..i]), NEntry(names[i]));
      i := i + 1;
    }
    assert names[..i] == names;
  }

  method InsertValues(values: seq<seq<byte>>, buffer: array<byte>, pos: nat) returns (next: nat)
    requires AreTexts(values) && pos + |VVec(values)| <= buffer.Length
    modifies buffer
    ensures next == pos + |VVec(values)| && At(buffer[..], pos, VVec(values)) && Outside(buffer, pos, next)
  {
    next := pos;
    var i := 0;
    while i < |values|
      invariant i <= |values| && next == pos + |VVec(values[..i])| && At(buffer[..], pos, VVec(values[..i]))
      invariant next <= buffer.Length && Outside(buffer, pos, next)
    {
      VVecGrows(values, i + 1);
      VVecNext(values, i);
      ghost var was := buffer[..];
      next := VVecInsert(values[i], buffer, next);
      AtKept(was, buffer[..], pos, VVec(values[..i]));
      AtSplit(buffer[..], pos, VVec(values[..i]), VEntry(values[i]));
      i := i + 1;
    }
    assert values[..i] == values;
  }

  /** A name vector followed by a value vector, written and then read: the names, zero
      codes and values come back, the readers end where the writers did, and nothing else
      in the buffer changes. */
  method RoundTrip(names: seq<seq<byte>>, values: seq<seq<byte>>, buffer: array<byte>, pos: nat)
      returns (next: nat, rcs: seq<nat>, backNames: seq<seq<byte>>, backValues: seq<seq<byte>>)
    requires AreTexts(names) && AreTexts(values)
    requires pos + |NVec(names)| + |VVec(values)| <= buffer.Length
    modifies buffer
    ensures next == pos + |NVec(names)| + |VVec(values)| && Outside(buffer, pos, next)
    ensures backNames == names && backValues == values
    ensures |rcs| == |names| && forall k | 0 <= k < |rcs| :: rcs[k] == 0
  {
    var mid := InsertNames(names, buffer, pos);
    ghost var was := buffer[..];
    var end := InsertValues(values, buffer, mid);
    AtKept(was, buffer[..], pos, NVec(names));
    next, rcs, backNames := ReadNames(buffer, pos, |names|, names);
    next, backValues := ReadValues(buffer, next, |values|, values);
  }
}
