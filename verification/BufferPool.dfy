/**
 One tier of the buffer pool: buckets of free buffers with their counts, and the
 tier's totals (XrdBuffer.cc and XrdBuffXL.cc, Obtain, Release, Reshape, Trim).
 Each method is one hold of the tier's lock, or the allocation between two of
 them; the tier is valid whenever the lock is free, so the methods may be called
 in any order by any thread.
 */
module BufferPool {
  import opened BufferSizes

  class XrdBuffer {
    const bsize: nat
    const bindex: nat

    constructor (size: nat, index: nat)
      ensures bsize == size && bindex == index
    {
      bsize, bindex := size, index;
    }
  }

  /** A bucket: the chain of free buffers, its counted length, and the requests since
      the last reshape. */
  datatype Bucket = Bucket(bnext: seq<XrdBuffer>, numbuf: int, numreq: int)

  /** What is known about a bucket's size beyond the bucket: the buffers clients
      have, those allocated but not in the totals yet, and how many the totals include. */
  datatype Book = Book(held: set<XrdBuffer>, coming: set<XrdBuffer>, counted: nat)

  /** The size of bucket i's buffers. */
  function SizeOf(unit: nat, i: nat): nat {
    if i == 0 then unit else 2 * SizeOf(unit, i - 1)
  }

  lemma {:induction false} SizeIsPower(unit: nat, i: nat)
    ensures SizeOf(unit, i) == unit * Pow2(i)
  {
    if i > 0 {
      SizeIsPower(unit, i - 1);
      assert unit * (2 * Pow2(i - 1)) == 2 * (unit * Pow2(i - 1));
    }
  }

  /** The bytes of n buffers. */
  function Times(n: nat, size: nat): nat {
    if n == 0 then 0 else Times(n - 1, size) + size
  }

  /** Buffers, bytes and requests over all buckets. */
  function Buffers(s: seq<Book>): nat {
    if s == [] then 0 else Buffers(s[..|s| - 1]) + s[|s| - 1].counted
  }

  function Bytes(s: seq<Book>, unit: nat): nat {
    if s == [] then 0 else Bytes(s[..|s| - 1], unit) + Times(s[|s| - 1].counted, SizeOf(unit, |s| - 1))
  }

  function Requests(s: seq<Bucket>): int {
    if s == [] then 0 else Requests(s[..|s| - 1]) + s[|s| - 1].numreq
  }

  /** A bucket's counted buffers change by at most one. */
  function Change(d: int, size: int): int {
    if d == 0 then 0 else if d > 0 then size else -size
  }

  lemma {:induction false} BooksAt(s: seq<Book>, unit: nat, i: nat, b: Book, d: int)
    requires i < |s| && -1 <= d <= 1 && b.counted == s[i].counted + d
    ensures Buffers(s[i := b]) == Buffers(s) + d
    ensures Bytes(s[i := b], unit) == Bytes(s, unit) + Change(d, SizeOf(unit, i))
  {
    var n := |s| - 1;
    if i == n {
      assert s[i := b][..n] == s[..n];
    } else {
      assert s[i := b][..n] == s[..n][i := b];
      BooksAt(s[..n], unit, i, b, d);
    }
  }

  lemma {:induction false} RequestsAt(s: seq<Bucket>, i: nat, b: Bucket)
    requires i < |s|
    ensures Requests(s[i := b]) == Requests(s) - s[i].numreq + b.numreq
  {
    var n := |s| - 1;
    if i == n {
      assert s[i := b][..n] == s[..n];
    } else {
      assert s[i := b][..n] == s[..n][i := b];
      RequestsAt(s[..n], i, b);
    }
  }

  /** A bucket's size in bytes, and the value its buffers carry as bucket index. */
  datatype Kind = Kind(index: nat, size: nat)

  predicate Sized(b: XrdBuffer, c: Kind) {
    b.bindex == c.index && b.bsize == c.size
  }

  predicate AllSized(s: seq<XrdBuffer>, c: Kind) {
    forall k | 0 <= k < |s| :: Sized(s[k], c)
  }

  predicate Distinct(s: seq<XrdBuffer>) {
    forall k, m | 0 <= k < m < |s| :: s[k] != s[m]
  }

  predicate Outside(t: set<XrdBuffer>, s: seq<XrdBuffer>, c: Kind) {
    forall x | x in t :: Sized(x, c) && x !in s
  }

  /** A buffer of the bucket's size is free, held by a client or being made, never two
      of these; the chain's length is counted, and the totals include what is free or held. */
  ghost predicate BucketOk(c: Kind, b: Bucket, k: Book) {
    && b.numbuf == |b.bnext| && b.numreq >= 0
    && AllSized(b.bnext, c) && Distinct(b.bnext)
    && Outside(k.held, b.bnext, c) && Outside(k.coming, b.bnext, c) && k.held !! k.coming
    && k.counted == |b.bnext| + |k.held|
  }

  function Popped(b: Bucket): Bucket
    requires b.bnext != []
  {
    b.(bnext := b.bnext[1..], numbuf := b.numbuf - 1)
  }

  function Pushed(b: Bucket, x: XrdBuffer): Bucket {
    b.(bnext := [x] + b.bnext, numbuf := b.numbuf + 1)
  }

  lemma PopKeeps(c: Kind, b: Bucket, k: Book)
    requires BucketOk(c, b, k) && b.bnext != []
    ensures b.bnext[0] !in k.held && Sized(b.bnext[0], c) && k.counted > 0
    ensures BucketOk(c, Popped(b), k.(held := k.held + {b.bnext[0]}))
    ensures BucketOk(c, Popped(b), k.(counted := k.counted - 1))
  {
  }

  lemma PushKeeps(c: Kind, b: Bucket, k: Book, x: XrdBuffer)
    requires BucketOk(c, b, k) && x in k.held
    ensures BucketOk(c, Pushed(b, x), k.(held := k.held - {x}))
  {
  }

  /** A bucket after one request of its size, and what is known then. */
  function Asked(b: Bucket): Bucket {
    (if b.bnext == [] then b else Popped(b)).(numreq := b.numreq + 1)
  }

  function Given(b: Bucket, k: Book): Book {
    if b.bnext == [] then k else k.(held := k.held + {b.bnext[0]})
  }

  lemma AskKeeps(c: Kind, b: Bucket, k: Book)
    requires BucketOk(c, b, k)
    ensures BucketOk(c, Asked(b), Given(b, k)) && Given(b, k).counted == k.counted
    ensures b.bnext != [] ==> Sized(b.bnext[0], c) && b.bnext[0] !in k.held
  {
    if b.bnext != [] {
      PopKeeps(c, b, k);
    }
  }

  lemma ComingKeeps(c: Kind, b: Bucket, k: Book, x: XrdBuffer)
    requires BucketOk(c, b, k)
    ensures Sized(x, c) && x !in b.bnext && x !in k.held ==> BucketOk(c, b, k.(coming := k.coming + {x}))
    ensures x in k.coming ==> BucketOk(c, b, Book(k.held + {x}, k.coming - {x}, k.counted + 1))
  {
  }

  /** The same buffers in clients' hands, whatever happened to the free ones. */
  predicate SameHeld(s: seq<Book>, t: seq<Book>) {
    |s| == |t| && forall i | 0 <= i < |s| :: s[i].held == t[i].held && s[i].coming == t[i].coming
  }

  function KindAt(unit: nat, mark: nat, i: nat): Kind {
    Kind(i + mark, SizeOf(unit, i))
  }

  /** Every bucket is ok. */
  ghost predicate AllOk(unit: nat, mark: nat, s: seq<Bucket>, book: seq<Book>)
    requires |s| == |book|
  {
    var n := |s| - 1;
    n >= 0 ==> AllOk(unit, mark, s[..n], book[..n]) && BucketOk(KindAt(unit, mark, n), s[n], book[n])
  }

  lemma {:induction false} AllOkAt(unit: nat, mark: nat, s: seq<Bucket>, book: seq<Book>, i: nat)
    requires i < |s| == |book| && AllOk(unit, mark, s, book)
    ensures BucketOk(KindAt(unit, mark, i), s[i], book[i])
  {
    var n := |s| - 1;
    if i < n {
      AllOkAt(unit, mark, s[..n], book[..n], i);
    }
  }

  lemma {:induction false} AllOkPut(unit: nat, mark: nat, s: seq<Bucket>, book: seq<Book>, i: nat, b: Bucket, k: Book)
    requires i < |s| == |book| && AllOk(unit, mark, s, book) && BucketOk(KindAt(unit, mark, i), b, k)
    ensures AllOk(unit, mark, s[i := b], book[i := k])
  {
    var n := |s| - 1;
    if i == n {
      assert s[i := b][..n] == s[..n] && book[i := k][..n] == book[..n];
    } else {
      assert s[i := b][..n] == s[..n][i := b] && book[i := k][..n] == book[..n][i := k];
      AllOkPut(unit, mark, s[..n], book[..n], i, b, k);
    }
  }

  lemma {:induction false} NothingYet(n: nat, unit: nat, mark: nat)
    ensures Buffers(seq(n, i => Book({}, {}, 0))) == 0 == Bytes(seq(n, i => Book({}, {}, 0)), unit)
    ensures Requests(seq(n, i => Bucket([], 0, 0))) == 0
    ensures AllOk(unit, mark, seq(n, i => Bucket([], 0, 0)), seq(n, i => Book({}, {}, 0)))
  {
    if n > 0 {
      assert seq(n, i => Book({}, {}, 0))[..n - 1] == seq(n - 1, i => Book({}, {}, 0));
      assert seq(n, i => Bucket([], 0, 0))[..n - 1] == seq(n - 1, i => Bucket([], 0, 0));
      NothingYet(n - 1, unit, mark);
    }
  }

  class Tier {
    const slots: nat
    const unit: nat                    // bucket i holds buffers of unit * 2^i bytes
    const mark: nat                    // added to the bucket index in a buffer of the tier
    const bucket: array<Bucket>
    var totreq: int
    var totbuf: int
    var totalo: int
    ghost var book: seq<Book>

    function KindOf(i: nat): Kind {
      KindAt(unit, mark, i)
    }

    ghost predicate BucketsOk()
      reads this, bucket
    {
      |book| == bucket.Length == slots && AllOk(unit, mark, bucket[..], book)
    }

    lemma OkAt(i: nat)
      requires BucketsOk() && i < slots
      ensures BucketOk(KindOf(i), bucket[i], book[i])
    {
      AllOkAt(unit, mark, bucket[..], book, i);
    }

    /** The totals are the number and the bytes of the free and held buffers. */
    ghost predicate Valid()
      reads this, bucket
    {
      BucketsOk() && totbuf == Buffers(book) && totalo == Bytes(book, unit)
    }

    constructor (slots: nat, unit: nat, mark: nat)
      ensures Valid() && this.slots == slots && this.unit == unit && this.mark == mark && fresh(bucket)
      ensures forall i | 0 <= i < slots :: book[i] == Book({}, {}, 0) && bucket[i] == Bucket([], 0, 0)
      ensures totreq == Requests(bucket[..]) == 0
    {
      this.slots, this.unit, this.mark := slots, unit, mark;
      bucket := new Bucket[slots](i => Bucket([], 0, 0));
      totreq, totbuf, totalo := 0, 0, 0;
      book := seq(slots, i => Book({}, {}, 0));
      new;
      NothingYet(slots, unit, mark);
      assert bucket[..] == seq(slots, i => Bucket([], 0, 0));
    }

    /** Replaces one bucket and what is known about it. */
    method Put(i: nat, b: Bucket, ghost k: Book, ghost d: int)
      requires BucketsOk() && i < slots && BucketOk(KindOf(i), b, k)
      requires -1 <= d <= 1 && k.counted == book[i].counted + d
      modifies bucket, `book
      ensures BucketsOk()
      ensures bucket[..] == old(bucket[..])[i := b] && book == old(book)[i := k]
      ensures Requests(bucket[..]) == Requests(old(bucket[..])) - old(bucket[i]).numreq + b.numreq
      ensures Buffers(book) == Buffers(old(book)) + d
      ensures Bytes(book, unit) == Bytes(old(book), unit) + Change(d, SizeOf(unit, i))
    {
      RequestsAt(bucket[..], i, b);
      BooksAt(book, unit, i, k, d);
      AllOkPut(unit, mark, bucket[..], book, i, b, k);
      bucket[i] := b;
      book := book[i := k];
    }

    /** The bucket stays, what is known about it changes. */
    ghost method Note(i: nat, k: Book, d: int)
      requires BucketsOk() && i < slots && BucketOk(KindOf(i), bucket[i], k)
      requires -1 <= d <= 1 && k.counted == book[i].counted + d
      modifies `book
      ensures BucketsOk()
      ensures book == old(book)[i := k]
      ensures Buffers(book) == Buffers(old(book)) + d
      ensures Bytes(book, unit) == Bytes(old(book), unit) + Change(d, SizeOf(unit, i))
    {
      BooksAt(book, unit, i, k, d);
      AllOkPut(unit, mark, bucket[..], book, i, bucket[i], k);
      assert bucket[..] == bucket[..][i := bucket[i]];
      book := book[i := k];
    }

    /** The first lock hold of Obtain: the request is counted, and a free buffer of
        the class is handed out if there is one. */
    method Reuse(i: nat) returns (bp: XrdBuffer?)
      requires Valid() && i < slots
      modifies `totreq, `book, bucket
      ensures Valid()
      ensures totreq == old(totreq) + 1 && Requests(bucket[..]) == old(Requests(bucket[..])) + 1
      ensures bucket[i].numreq == old(bucket[i]).numreq + 1
      ensures old(bucket[i]).bnext == (if bp == null then [] else [bp]) + bucket[i].bnext
      ensures bp == if old(bucket[i]).bnext == [] then null else old(bucket[i]).bnext[0]
      ensures bp != null ==> Sized(bp, KindOf(i)) && bp !in old(book)[i].held
      ensures bucket[..] == old(bucket[..])[i := Asked(old(bucket[i]))]
      ensures book == old(book)[i := Given(old(bucket[i]), old(book)[i])]
    {
      totreq := totreq + 1;
      var b := bucket[i];
      bp := if b.bnext == [] then null else b.bnext[0];
      OkAt(i);
      AskKeeps(KindOf(i), b, book[i]);
      Put(i, Asked(b), Given(b, book[i]), 0);
    }

    /** The allocation of Obtain, no lock held; memory may run out. */
    method Allocate(i: nat, size: nat, memory: bool) returns (bp: XrdBuffer?)
      requires Valid() && i < slots && size == SizeOf(unit, i)
      modifies `book
      ensures Valid()
      ensures bp == null <==> !memory
      ensures bp == null ==> book == old(book)
      ensures bp != null ==>
                && fresh(bp) && Sized(bp, KindOf(i))
                && book == old(book)[i := old(book)[i].(coming := old(book)[i].coming + {bp})]
    {
      if !memory {
        return null;
      }
      OkAt(i);
      bp := new XrdBuffer(size, i + mark);
      ComingKeeps(KindOf(i), bucket[i], book[i], bp);
      Note(i, book[i].(coming := book[i].coming + {bp}), 0);
    }

    /** The second lock hold of Obtain, after an allocation. */
    method CountNew(i: nat, size: nat, ghost bp: XrdBuffer)
      requires Valid() && i < slots && size == SizeOf(unit, i) && bp in book[i].coming
      modifies `totbuf, `totalo, `book
      ensures Valid()
      ensures totbuf == old(totbuf) + 1 && totalo == old(totalo) + size
      ensures var was := old(book)[i];
              book == old(book)[i := Book(was.held + {bp}, was.coming - {bp}, was.counted + 1)]
    {
      OkAt(i);
      ComingKeeps(KindOf(i), bucket[i], book[i], bp);
      totbuf := totbuf + 1;
      totalo := totalo + size;
      Note(i, Book(book[i].held + {bp}, book[i].coming - {bp}, book[i].counted + 1), 1);
    }

    /** Release: the buffer goes to the front of its bucket's chain. */
    method Release(i: nat, bp: XrdBuffer)
      requires Valid() && i < slots && bp in book[i].held
      modifies bucket, `book
      ensures Valid() && Requests(bucket[..]) == old(Requests(bucket[..]))
      ensures book == old(book)[i := old(book)[i].(held := old(book)[i].held - {bp})]
      ensures bucket[..] == old(bucket[..])[i := Pushed(old(bucket[i]), bp)]
    {
      OkAt(i);
      PushKeeps(KindOf(i), bucket[i], book[i], bp);
      Put(i, Pushed(bucket[i], bp), book[i].(held := book[i].held - {bp}), 0);
    }

    /** One round of the freeing loops: the first free buffer is deleted and `size`
        bytes are taken off the total. */
    method Discard(i: nat, size: nat)
      requires Valid() && i < slots && size == SizeOf(unit, i) && bucket[i].bnext != []
      modifies bucket, `book, `totbuf, `totalo
      ensures Valid() && Requests(bucket[..]) == old(Requests(bucket[..]))
      ensures totbuf == old(totbuf) - 1 && totalo == old(totalo) - size
      ensures SameHeld(book, old(book))
      ensures bucket[..] == old(bucket[..])[i := Popped(old(bucket[i]))]
    {
      OkAt(i);
      PopKeeps(KindOf(i), bucket[i], book[i]);
      totbuf := totbuf - 1;
      totalo := totalo - size;
      Put(i, Popped(bucket[i]), book[i].(counted := book[i].counted - 1), -1);
    }
  }
}
