/**
 The two buffer managers over their tiers (XrdBuffer.cc and XrdBuffXL.cc): what a
 client sees is a set of buffers in its hands, which reshaping and trimming leave alone.
 */
module BufferManager {
  import opened BufferSizes
  import opened BufferPool
  import opened Rounding

  const BIG_BUFF: nat := 0x4000_0000   // isBigBuff

  ghost function InHand(s: seq<Book>): set<XrdBuffer> {
    set i, x | 0 <= i < |s| && x in s[i].held :: x
  }

  lemma SameInHand(s: seq<Book>, t: seq<Book>)
    requires |s| == |t| && forall i | 0 <= i < |s| :: s[i].held == t[i].held
    ensures InHand(s) == InHand(t)
  {
  }

  lemma HandOut(s: seq<Book>, i: nat, b: Book, x: XrdBuffer)
    requires i < |s| && b.held == s[i].held + {x}
    ensures InHand(s[i := b]) == InHand(s) + {x}
  {
    var t := s[i := b];
    assert x in t[i].held;
    forall y | y in InHand(s) ensures y in InHand(t) {
      var j :| 0 <= j < |s| && y in s[j].held;
      assert y in t[j].held;
    }
  }

  lemma TakeBack(s: seq<Book>, i: nat, b: Book, x: XrdBuffer)
    requires i < |s| && b.held == s[i].held - {x}
    requires forall j | 0 <= j < |s| && j != i :: x !in s[j].held
    ensures InHand(s[i := b]) == InHand(s) - {x}
  {
    var t := s[i := b];
    forall y | y in InHand(s) - {x} ensures y in InHand(t) {
      var j :| 0 <= j < |s| && y in s[j].held;
      assert y in t[j].held;
    }
  }

  /** A buffer in hand is in the bucket its index names, and nowhere else. */
  lemma Home(t: Tier, x: XrdBuffer)
    requires t.BucketsOk() && x in InHand(t.book)
    ensures 0 <= x.bindex - t.mark < t.slots && x in t.book[x.bindex - t.mark].held
    ensures forall j | 0 <= j < t.slots && j != x.bindex - t.mark :: x !in t.book[j].held
    ensures x.bsize == SizeOf(t.unit, x.bindex - t.mark)
  {
    forall j | 0 <= j < t.slots && x in t.book[j].held ensures Sized(x, t.KindOf(j)) {
      t.OkAt(j);
    }
  }

  lemma NewInHand(t: Tier, i: nat, x: XrdBuffer)
    requires t.BucketsOk() && i < t.slots && Sized(x, t.KindOf(i)) && x !in t.book[i].held
    ensures x !in InHand(t.book)
  {
    if x in InHand(t.book) {
      Home(t, x);
    }
  }

  /** The second half of an Obtain: allocate, then count. */
  method MakeIn(t: Tier, i: nat, size: nat, memory: bool) returns (bp: XrdBuffer?)
    requires t.Valid() && i < t.slots && size == SizeOf(t.unit, i)
    modifies t`book, t`totbuf, t`totalo
    ensures t.Valid()
    ensures bp == null <==> !memory
    ensures bp == null ==> t.book == old(t.book) && t.totbuf == old(t.totbuf) && t.totalo == old(t.totalo)
    ensures bp != null ==>
              && fresh(bp) && bp.bsize == size && bp.bindex == i + t.mark
                  && InHand(t.book) == InHand(old(t.book)) + {bp}
              && t.totbuf == old(t.totbuf) + 1 && t.totalo == old(t.totalo) + size
  {
    ghost var was := t.book;
    bp := t.Allocate(i, size, memory);
    if bp == null {
      return;
    }
    ghost var coming := t.book;
    t.CountNew(i, size, bp);
    SameInHand(was, coming);
    HandOut(coming, i, t.book[i], bp);
  }

  /** What one Obtain does to a tier, `i` being the request's bucket: a free buffer of
      the size is given, else a new one if there is memory, else none. */
  method ObtainFrom(t: Tier, i: nat, size: nat, memory: bool) returns (bp: XrdBuffer?, made: bool)
    requires t.Valid() && i < t.slots && size == SizeOf(t.unit, i)
    modifies t, t.bucket
    ensures t.Valid() && t.totreq == old(t.totreq) + 1
    ensures Requests(t.bucket[..]) == old(Requests(t.bucket[..])) + 1
    ensures t.bucket[..] == old(t.bucket[..])[i := t.bucket[i]] && t.bucket[i].numreq == old(t.bucket[i]).numreq + 1
    ensures old(t.bucket[i]).bnext == (if bp == null || made then [] else [bp]) + t.bucket[i].bnext
    ensures made <==> memory && old(t.bucket[i]).bnext == []
    ensures bp == null <==> !memory && old(t.bucket[i]).bnext == []
    ensures bp != null && !made ==> bp == old(t.bucket[i]).bnext[0]
    ensures made ==> fresh(bp)
    ensures bp == null ==> InHand(t.book) == InHand(old(t.book))
    ensures bp != null ==>
              && bp.bsize == size && bp.bindex == i + t.mark
              && bp !in InHand(old(t.book)) && InHand(t.book) == InHand(old(t.book)) + {bp}
    ensures t.totbuf == old(t.totbuf) + (if made then 1 else 0)
    ensures t.totalo == old(t.totalo) + (if made then size else 0)
  {
    t.OkAt(i);
    AskKeeps(t.KindOf(i), t.bucket[i], t.book[i]);
    if t.bucket[i].bnext != [] {
      NewInHand(t, i, t.bucket[i].bnext[0]);
      HandOut(t.book, i, Given(t.bucket[i], t.book[i]), t.bucket[i].bnext[0]);
    }
    ghost var was := t.book;
    bp := t.Reuse(i);
    made := false;
    if bp == null {
      assert t.book == was;
      bp := MakeIn(t, i, size, memory);
      made := bp != null;
    }
  }

  /** What one Release does to a tier. */
  method ReleaseTo(t: Tier, i: nat, bp: XrdBuffer)
    requires t.Valid() && bp in InHand(t.book) && i == bp.bindex - t.mark
    modifies t`book, t.bucket
    ensures t.Valid() && Requests(t.bucket[..]) == old(Requests(t.bucket[..]))
    ensures i < t.slots && t.bucket[i].bnext == [bp] + old(t.bucket[i]).bnext
    ensures InHand(t.book) == InHand(old(t.book)) - {bp}
  {
    Home(t, bp);
    ghost var was := t.book;
    t.Release(i, bp);
    TakeBack(was, i, t.book[i], bp);
  }

  // ---------------------------------------------------------------------
  // Freeing

  function Least(a: int, b: int): int {
    if a < b then a else b
  }

  /** s without its first n elements, taken off one by one. */
  function Rest<T>(s: seq<T>, n: nat): (r: seq<T>)
    requires n <= |s|
    ensures |r| == |s| - n
  {
    if n == 0 then s else Rest(s, n - 1)[1..]
  }

  lemma {:induction false} RestIsSuffix<T>(s: seq<T>, n: nat)
    requires n <= |s|
    ensures Rest(s, n) == s[n..]
  {
    if n > 0 {
      RestIsSuffix(s, n - 1);
    }
  }

  /** The bucket without its first n free buffers. */
  function Cut(b: Bucket, n: nat): Bucket
    requires n <= |b.bnext|
  {
    b.(bnext := Rest(b.bnext, n), numbuf := b.numbuf - n)
  }

  /** A round of a freeing loop, n buffers of the bucket's first value being gone. */
  method FreeNext(t: Tier, i: nat, size: nat, ghost b: Bucket, ghost n: nat)
    requires t.Valid() && i < t.slots && size == SizeOf(t.unit, i)
    requires n < |b.bnext| && t.bucket[i] == Cut(b, n)
    modifies t.bucket, t`book, t`totbuf, t`totalo
    ensures t.Valid() && Requests(t.bucket[..]) == old(Requests(t.bucket[..]))
    ensures t.bucket[..] == old(t.bucket[..])[i := Cut(b, n + 1)] && Times(n + 1, size) == Times(n, size) + size
    ensures t.totbuf == old(t.totbuf) - 1 && t.totalo == old(t.totalo) - size
    ensures SameHeld(t.book, old(t.book))
  {
    t.Discard(i, size);
    assert Popped(Cut(b, n)) == Cut(b, n + 1);
  }

  lemma HeadSized(t: Tier, i: nat)
    requires t.BucketsOk() && i < t.slots && t.bucket[i].bnext != []
    ensures t.bucket[i].bnext[0].bsize == SizeOf(t.unit, i)
  {
    t.OkAt(i);
  }

  /** The buffers Trim frees of a bucket: as many as were asked for since the last
      round stay, and at least half, so never the last one. */
  function Surplus(b: Bucket): (n: int)
    requires b.numbuf >= 0 && b.numreq >= 0
    ensures 0 <= n <= b.numbuf / 2 && b.numbuf - n >= Least(b.numbuf, b.numreq)
    ensures b.numbuf > 1 && b.numbuf > b.numreq ==> n == b.numbuf / 2 || b.numbuf - n == b.numreq
  {
    if b.numbuf > 1 && b.numbuf > b.numreq then Least(b.numbuf - b.numreq, b.numbuf / 2) else 0
  }

  ghost predicate Trimmed(was: Bucket, b: Bucket) {
    && was.numbuf == |was.bnext| && was.numreq >= 0
    && b == Cut(was, Surplus(was)).(numreq := 0)
  }

  /** One bucket of the reshaping loop: free buffers go until `keep` are left. */
  method ReshapeBucket(t: Tier, i: nat, keep: nat, memslot: nat, had: int) returns (freed: nat, memhave: int)
    requires t.Valid() && i < t.slots && memslot == SizeOf(t.unit, i)
    modifies t.bucket, t`book, t`totbuf, t`totalo
    ensures t.Valid() && Requests(t.bucket[..]) == old(Requests(t.bucket[..]))
    ensures freed <= |old(t.bucket[i]).bnext| && t.bucket[..] == old(t.bucket[..])[i := Cut(old(t.bucket[i]), freed)]
    ensures t.bucket[i].numbuf == Least(old(t.bucket[i]).numbuf, keep)
    ensures t.totbuf == old(t.totbuf) - freed && had - memhave == old(t.totalo) - t.totalo == Times(freed, memslot)
    ensures SameHeld(t.book, old(t.book))
  {
    freed, memhave := 0, had;
    t.OkAt(i);
    while t.bucket[i].numbuf > keep
      invariant t.Valid() && Requests(t.bucket[..]) == old(Requests(t.bucket[..]))
      invariant freed <= |old(t.bucket[i]).bnext|
          && t.bucket[..] == old(t.bucket[..])[i := Cut(old(t.bucket[i]), freed)]
      invariant freed > 0 ==> old(t.bucket[i]).numbuf - freed >= keep
      invariant t.totbuf == old(t.totbuf) - freed
      invariant had - memhave == old(t.totalo) - t.totalo == Times(freed, memslot)
      invariant SameHeld(t.book, old(t.book))
      decreases t.bucket[i].numbuf
    {
      t.OkAt(i);
      if t.bucket[i].bnext != [] {
        FreeNext(t, i, memslot, old(t.bucket[i]), freed);
        freed, memhave := freed + 1, memhave - memslot;
      } else {
        assert false;   // "numbuf = 0; break": the count is the length of the chain
      }
    }
  }

  /** The freeing loop of Trim. */
  method FreeFirst(t: Tier, i: nat, most: nat)
    requires t.Valid() && i < t.slots && most <= |t.bucket[i].bnext|
    modifies t.bucket, t`book, t`totbuf, t`totalo
    ensures t.Valid() && SameHeld(t.book, old(t.book))
    ensures t.bucket[..] == old(t.bucket[..])[i := Cut(old(t.bucket[i]), most)]
  {
    var n := most;
    while n > 0 && t.bucket[i].bnext != []
      invariant t.Valid() && SameHeld(t.book, old(t.book))
      invariant 0 <= n <= most
      invariant t.bucket[..] == old(t.bucket[..])[i := Cut(old(t.bucket[i]), most - n)]
    {
      HeadSized(t, i);
      FreeNext(t, i, t.bucket[i].bnext[0].bsize, old(t.bucket[i]), most - n);
      n := n - 1;
    }
  }

  lemma RestartKeeps(c: Kind, b: Bucket, k: Book)
    requires BucketOk(c, b, k)
    ensures BucketOk(c, b.(numreq := 0), k)
  {
  }

  method Restart(t: Tier, i: nat)
    requires t.Valid() && i < t.slots
    modifies t.bucket, t`book
    ensures t.Valid() && t.book == old(t.book)
    ensures t.bucket[..] == old(t.bucket[..])[i := old(t.bucket[i]).(numreq := 0)]
    ensures Requests(t.bucket[..]) == old(Requests(t.bucket[..])) - old(t.bucket[i]).numreq
  {
    t.OkAt(i);
    RestartKeeps(t.KindOf(i), t.bucket[i], t.book[i]);
    t.Put(i, t.bucket[i].(numreq := 0), t.book[i], 0);
  }

  /** One bucket of Trim. */
  method TrimBucket(t: Tier, i: nat)
    requires t.Valid() && i < t.slots
    modifies t.bucket, t`book, t`totbuf, t`totalo
    ensures t.Valid() && SameHeld(t.book, old(t.book))
    ensures t.bucket[..] == old(t.bucket[..])[i := t.bucket[i]] && Trimmed(old(t.bucket[i]), t.bucket[i])
  {
    var b := t.bucket[i];
    t.OkAt(i);
    if b.numbuf > 1 && b.numbuf > b.numreq {
      var n, m := b.numbuf - b.numreq, b.numbuf / 2;
      if m < n { n := m; }
      FreeFirst(t, i, n);
    }
    Restart(t, i);
  }

  /** The first i buckets are trimmed, the others as they were. */
  ghost predicate TrimmedTo(was: seq<Bucket>, now: seq<Bucket>, i: nat)
    requires i <= |was| == |now|
  {
    && (forall j | 0 <= j < i :: Trimmed(was[j], now[j]))
    && (forall j | i <= j < |was| :: now[j] == was[j])
  }

  lemma TrimOne(was: seq<Bucket>, now: seq<Bucket>, i: nat, b: Bucket)
    requires i < |was| == |now| && TrimmedTo(was, now, i) && Trimmed(now[i], b)
    ensures TrimmedTo(was, now[i := b], i + 1)
  {
    forall j | 0 <= j < i + 1 ensures Trimmed(was[j], now[i := b][j]) {
      if j < i {
        assert Trimmed(was[j], now[j]);
      }
    }
  }

  /** The whole of Trim. */
  method TrimTier(t: Tier)
    requires t.Valid()
    modifies t.bucket, t`book, t`totbuf, t`totalo
    ensures t.Valid() && SameHeld(t.book, old(t.book))
    ensures TrimmedTo(old(t.bucket[..]), t.bucket[..], t.slots)
  {
    var i := 0;
    while i < t.slots
      invariant i <= t.slots && t.Valid() && SameHeld(t.book, old(t.book))
      invariant TrimmedTo(old(t.bucket[..]), t.bucket[..], i)
    {
      ghost var now := t.bucket[..];
      TrimBucket(t, i);
      TrimOne(old(t.bucket[..]), now, i, t.bucket[i]);
      i := i + 1;
    }
  }

  // ---------------------------------------------------------------------
  // The request profile

  /** The buffers a bucket keeps: its share of all buffers by requests, computed in floats
      and cut to an int. */
  function Share(b: Bucket, totbuf: int, totreq: int, fl: Float): int
    requires totreq > 0
  {
    Part(b.numreq, totbuf, totreq, fl)
  }

  function Shares(s: seq<Bucket>, totbuf: int, totreq: int, fl: Float): int
    requires totreq > 0
  {
    if s == [] then 0 else Shares(s[..|s| - 1], totbuf, totreq, fl) + Share(s[|s| - 1], totbuf, totreq, fl)
  }

  /** A share exceeds the exact one by at most one part in 2^21, and falls short of it by
      less than one buffer and one part in 2^21. */
  lemma ShareBound(b: Bucket, totbuf: int, totreq: int, fl: Float)
    requires totreq > 0 && totbuf >= 0 && b.numreq >= 0
    ensures 0 <= Share(b, totbuf, totreq, fl)
    ensures 0x20_0000 * (Share(b, totbuf, totreq, fl) * totreq) <= 0x20_0001 * (totbuf * b.numreq)
    ensures 0x1F_FFFF * (totbuf * b.numreq) < 0x20_0000 * ((Share(b, totbuf, totreq, fl) + 1) * totreq)
  {
    PartBound(b.numreq, totbuf, totreq, fl);
  }

  lemma {:induction false} SharesScaled(s: seq<Bucket>, totbuf: int, totreq: int, fl: Float)
    requires totreq > 0 && totbuf >= 0 && forall i | 0 <= i < |s| :: s[i].numreq >= 0
    ensures 0x20_0000 * (Shares(s, totbuf, totreq, fl) * totreq) <= 0x20_0001 * (totbuf * Requests(s))
  {
    var n := |s| - 1;
    if n >= 0 {
      SharesScaled(s[..n], totbuf, totreq, fl);
      ShareBound(s[n], totbuf, totreq, fl);
      AddTimes(Shares(s[..n], totbuf, totreq, fl), Share(s[n], totbuf, totreq, fl), totreq);
      AddTimes(Requests(s[..n]), s[n].numreq, totbuf);
    }
  }

  lemma {:induction false} SharesLeast(s: seq<Bucket>, totbuf: int, totreq: int, fl: Float)
    requires totreq > 0 && totbuf >= 0 && forall i | 0 <= i < |s| :: s[i].numreq >= 0
    ensures 0x1F_FFFF * (totbuf * Requests(s)) <= 0x20_0000 * ((Shares(s, totbuf, totreq, fl) + |s|) * totreq)
  {
    var n := |s| - 1;
    if n >= 0 {
      SharesLeast(s[..n], totbuf, totreq, fl);
      ShareBound(s[n], totbuf, totreq, fl);
      AddTimes(Shares(s[..n], totbuf, totreq, fl) + n, Share(s[n], totbuf, totreq, fl) + 1, totreq);
      AddTimes(Requests(s[..n]), s[n].numreq, totbuf);
    }
  }

  /** When the total request count is the sum of the buckets' counts, the profile asks to
      keep at most one part in 2^21 more buffers than there are, and no more than there are
      if they are fewer than 2^21; and all there are but one part in 2^21 and less than one
      for each bucket. */
  lemma ProfileBound(s: seq<Bucket>, totbuf: int, totreq: int, fl: Float)
    requires totreq > 0 && totbuf >= 0 && (forall i | 0 <= i < |s| :: s[i].numreq >= 0)
    requires totreq == Requests(s)
    ensures 0x20_0000 * Shares(s, totbuf, totreq, fl) <= 0x20_0001 * totbuf
    ensures totbuf < 0x20_0000 ==> Shares(s, totbuf, totreq, fl) <= totbuf
    ensures 0x1F_FFFF * totbuf <= 0x20_0000 * (Shares(s, totbuf, totreq, fl) + |s|)
    ensures totbuf < 0x20_0000 ==> totbuf <= Shares(s, totbuf, totreq, fl) + |s|
  {
    var n := Shares(s, totbuf, totreq, fl);
    SharesScaled(s, totbuf, totreq, fl);
    MovedInt(0x20_0000, n, totreq);
    MovedInt(0x20_0001, totbuf, totreq);
    FitsInto(0x20_0000 * n, 0x20_0001 * totbuf, totreq);
    SharesLeast(s, totbuf, totreq, fl);
    MovedInt(0x20_0000, n + |s|, totreq);
    MovedInt(0x1F_FFFF, totbuf, totreq);
    FitsInto(0x1F_FFFF * totbuf, 0x20_0000 * (n + |s|), totreq);
  }

  // ---------------------------------------------------------------------
  // The managers

  class XrdBuffXL {
    const maxMSZ: int
    const limit: Xl     // slots and maxsz
    const tier: Tier

    ghost predicate Valid()
      reads tier, tier.bucket
    {
      && tier.Valid() && maxMSZ <= INT_MAX && limit == XlInit(maxMSZ, 0)
      && tier.slots == limit.slots && tier.unit == XL_MIN_SIZE && tier.mark == BIG_BUFF
    }

    /** The constructor and Init. */
    constructor (maxMSZ: int)
      requires maxMSZ <= INT_MAX
      ensures Valid() && this.maxMSZ == maxMSZ && fresh(tier) && fresh(tier.bucket) && InHand(tier.book) == {}
    {
      this.maxMSZ := maxMSZ;
      limit := XlInit(maxMSZ, 0);
      tier := new Tier(XlInit(maxMSZ, 0).slots, XL_MIN_SIZE, BIG_BUFF);
    }

    /** A buffer of exactly the size Recalc announces, not in anybody's hands; none only
        when Recalc gives 0 or there is neither a free buffer nor memory. */
    method Obtain(sz: int, memory: bool) returns (bp: XrdBuffer?)
      requires Valid() && sz <= INT_MAX
      modifies tier, tier.bucket
      ensures Valid()
      ensures bp == null <==> XlRecalc(limit, sz) == 0 || (!memory && old(tier.bucket[XlClassOf(sz).index]).bnext == [])
      ensures bp == null ==> InHand(tier.book) == InHand(old(tier.book))
      ensures bp != null ==>
                && bp.bsize == XlRecalc(limit, sz) && bp.bindex >= BIG_BUFF && bp !in InHand(old(tier.book))
                && InHand(tier.book) == InHand(old(tier.book)) + {bp}
      ensures XlRecalc(limit, sz) == 0 ==> tier.totreq == old(tier.totreq) && tier.bucket[..] == old(tier.bucket[..])
      ensures XlRecalc(limit, sz) != 0 ==>
                var i := XlClassOf(sz).index;
                && tier.totreq == old(tier.totreq) + 1
                && tier.bucket[..] == old(tier.bucket[..])[i := tier.bucket[i]]
                && tier.bucket[i].numreq == old(tier.bucket[i]).numreq + 1
    {
      if sz <= 0 || sz > limit.maxsz {
        return null;
      }
      var c := XlClassOf(sz);
      if c.index >= limit.slots {
        return null;
      }
      ClassFits(sz);
      SizeIsPower(XL_MIN_SIZE, c.index);
      var made;
      bp, made := ObtainFrom(tier, c.index, c.size, memory);
    }

    method Release(bp: XrdBuffer)
      requires Valid() && bp in InHand(tier.book)
      modifies tier`book, tier.bucket
      ensures Valid() && InHand(tier.book) == InHand(old(tier.book)) - {bp}
      ensures 0 <= bp.bindex - BIG_BUFF < tier.slots
      ensures var i := bp.bindex - BIG_BUFF; tier.bucket[i].bnext == [bp] + old(tier.bucket[..])[i].bnext
    {
      Home(tier, bp);
      ReleaseTo(tier, bp.bindex - BIG_BUFF, bp);
    }

    /** Frees what exceeds recent requests; nothing in a client's hands. */
    method Trim()
      requires Valid()
      modifies tier.bucket, tier`book, tier`totbuf, tier`totalo
      ensures Valid() && InHand(tier.book) == InHand(old(tier.book))
      ensures TrimmedTo(old(tier.bucket[..]), tier.bucket[..], tier.slots)
    {
      ghost var was := tier.book;
      TrimTier(tier);
      SameInHand(was, tier.book);
    }
  }

  /** The bucket has at most `keep` free buffers, the last ones of its chain. */
  ghost predicate Swept(was: Bucket, b: Bucket, keep: int) {
    && was.numbuf == |was.bnext| && keep >= 0
    && b == Cut(was, was.numbuf - Least(was.numbuf, keep))
  }

  /** The buckets from i up are swept, those below as they were. */
  ghost predicate SweptFrom(was: seq<Bucket>, now: seq<Bucket>, prof: seq<int>, i: nat)
    requires i <= |was| == |now| == |prof|
  {
    && (forall j | i <= j < |was| :: Swept(was[j], now[j], prof[j]))
    && (forall j | 0 <= j < i :: now[j] == was[j])
  }

  lemma SweepOne(was: seq<Bucket>, now: seq<Bucket>, prof: seq<int>, i: nat, b: Bucket)
    requires i < |was| == |now| == |prof| && SweptFrom(was, now, prof, i + 1) && Swept(now[i], b, prof[i])
    ensures SweptFrom(was, now[i := b], prof, i)
  {
    forall j | i <= j < |was| ensures Swept(was[j], now[i := b][j], prof[j]) {
      if j > i {
        assert Swept(was[j], now[j], prof[j]);
      }
    }
  }

  /** Before the last bucket was swept, more than the target was allocated. */
  ghost predicate Needed(was: seq<Bucket>, now: seq<Bucket>, unit: nat, last: nat, totalo: int, memtarget: int)
    requires last < |was| == |now|
  {
    var freed := was[last].numbuf - now[last].numbuf;
    freed >= 0 && totalo + Times(freed, SizeOf(unit, last)) > memtarget
  }

  /** One round of the sweep. */
  method SweepBucket(t: Tier, i: nat, keep: nat, memslot: nat, had: int,
                     ghost was: seq<Bucket>, ghost prof: seq<int>, ghost book: seq<Book>)
      returns (freed: nat, memhave: int, next: nat)
    requires t.Valid() && |was| == |prof| == t.slots && i < t.slots && memslot == SizeOf(t.unit, i)
    requires SweptFrom(was, t.bucket[..], prof, i + 1) && SameHeld(t.book, book) && keep == prof[i]
    modifies t.bucket, t`book, t`totbuf, t`totalo
    ensures t.Valid() && Requests(t.bucket[..]) == old(Requests(t.bucket[..]))
    ensures SweptFrom(was, t.bucket[..], prof, i) && SameHeld(t.book, book)
    ensures i > 0 ==> next == SizeOf(t.unit, i - 1)
    ensures t.totbuf == old(t.totbuf) - freed && had - memhave == old(t.totalo) - t.totalo == Times(freed, memslot)
    ensures freed == was[i].numbuf - t.bucket[i].numbuf
  {
    t.OkAt(i);
    ghost var now := t.bucket[..];
    freed, memhave := ReshapeBucket(t, i, keep, memslot, had);
    SweepOne(was, now, prof, i, t.bucket[i]);
    next := memslot / 2;
  }

  /** The reshaping loop, nothing else running: buckets are swept from the largest
      size down while more than the target is allocated. `left` buckets are not reached. */
  method Sweep(t: Tier, bufprof: array<int>, maxsz: nat, memtarget: nat)
      returns (left: nat, memhave: int, numfreed: nat)
    requires t.Valid() && t.slots == bufprof.Length && (t.slots > 0 ==> maxsz == SizeOf(t.unit, t.slots - 1))
    requires forall i | 0 <= i < t.slots :: bufprof[i] >= 0
    modifies t.bucket, t`book, t`totbuf, t`totalo
    ensures t.Valid() && SameHeld(t.book, old(t.book)) && Requests(t.bucket[..]) == old(Requests(t.bucket[..]))
    ensures left <= t.slots && SweptFrom(old(t.bucket[..]), t.bucket[..], bufprof[..], left)
    ensures memhave == t.totalo && numfreed == old(t.totbuf) - t.totbuf
    ensures left > 0 ==> t.totalo <= memtarget
    ensures left < t.slots ==> Needed(old(t.bucket[..]), t.bucket[..], t.unit, left, t.totalo, memtarget)
  {
    ghost var was, prof, book := t.bucket[..], bufprof[..], t.book;
    var memslot := maxsz;
    memhave, numfreed := t.totalo, 0;
    left := t.slots;
    while left > 0 && memhave > memtarget
      invariant left <= t.slots && t.Valid() && SameHeld(t.book, book)
      invariant Requests(t.bucket[..]) == Requests(was)
      invariant left > 0 ==> memslot == SizeOf(t.unit, left - 1)
      invariant SweptFrom(was, t.bucket[..], prof, left)
      invariant memhave == t.totalo && numfreed == old(t.totbuf) - t.totbuf
      invariant left < t.slots ==> Needed(was, t.bucket[..], t.unit, left, t.totalo, memtarget)
    {
      var freed;
      freed, memhave, memslot := SweepBucket(t, left - 1, bufprof[left - 1], memslot, memhave, was, prof, book);
      numfreed := numfreed + freed;
      left := left - 1;
    }
  }

  lemma {:induction false} NoRequests(s: seq<Bucket>)
    requires forall i | 0 <= i < |s| :: s[i].numreq == 0
    ensures Requests(s) == 0
  {
    if s != [] {
      NoRequests(s[..|s| - 1]);
    }
  }

  /** The share of the bucket was computed and its count restarted. */
  ghost predicate Profiled(was: Bucket, b: Bucket, share: int, totbuf: int, totreq: int, fl: Float)
    requires totreq > 0
  {
    share == Share(was, totbuf, totreq, fl) >= 0 && b == was.(numreq := 0)
  }

  ghost predicate ProfiledTo(was: seq<Bucket>, now: seq<Bucket>, prof: seq<int>, i: nat, totbuf: int, totreq: int,
      fl: Float)
    requires i <= |was| == |now| == |prof| && totreq > 0
  {
    && (forall j | 0 <= j < i :: Profiled(was[j], now[j], prof[j], totbuf, totreq, fl))
    && (forall j | i <= j < |was| :: now[j] == was[j])
  }

  lemma ProfileOne(was: seq<Bucket>, now: seq<Bucket>, prof: seq<int>, i: nat, totbuf: int, totreq: int, fl: Float)
    requires i < |was| == |now| == |prof| && totreq > 0 && totbuf >= 0 && was[i].numreq >= 0
    requires ProfiledTo(was, now, prof, i, totbuf, totreq, fl)
    ensures ProfiledTo(was, now[i := was[i].(numreq := 0)], prof[i := Share(was[i], totbuf, totreq, fl)],
                       i + 1, totbuf, totreq, fl)
  {
    ShareBound(was[i], totbuf, totreq, fl);
    forall j | 0 <= j < i ensures Profiled(was[j], now[j], prof[j], totbuf, totreq, fl) {
    }
  }

  /** The request profile of a tier, under its lock; the counts restart. */
  method Profile(t: Tier, bufprof: array<int>, fl: Float)
    requires t.Valid() && t.slots == bufprof.Length && t.totreq > 0
    modifies bufprof, t.bucket, t`book
    ensures t.Valid() && t.book == old(t.book)
    ensures ProfiledTo(old(t.bucket[..]), t.bucket[..], bufprof[..], t.slots, t.totbuf, t.totreq, fl)
  {
    ghost var was := t.bucket[..];
    var i := 0;
    while i < t.slots
      invariant i <= t.slots && t.Valid() && t.book == old(t.book)
      invariant ProfiledTo(was, t.bucket[..], bufprof[..], i, t.totbuf, t.totreq, fl)
    {
      t.OkAt(i);
      ProfileOne(was, t.bucket[..], bufprof[..], i, t.totbuf, t.totreq, fl);
      bufprof[i] := Share(t.bucket[i], t.totbuf, t.totreq, fl);
      Restart(t, i);
      i := i + 1;
    }
  }

  /** After a round that reached the bucket: at most its share of free buffers. */
  ghost predicate Reshaped(was: Bucket, b: Bucket, totbuf: int, totreq: int, fl: Float)
    requires totreq > 0
  {
    && was.numbuf == |was.bnext| && Share(was, totbuf, totreq, fl) >= 0
    && b == Cut(was, was.numbuf - Least(was.numbuf, Share(was, totbuf, totreq, fl))).(numreq := 0)
  }

  ghost predicate ReshapedFrom(was: seq<Bucket>, now: seq<Bucket>, left: nat, totbuf: int, totreq: int, fl: Float)
    requires left <= |was| == |now| && totreq > 0
  {
    && (forall j | left <= j < |was| :: Reshaped(was[j], now[j], totbuf, totreq, fl))
    && (forall j | 0 <= j < left :: now[j] == was[j].(numreq := 0))
  }

  lemma ProfiledThenSwept(was: seq<Bucket>, mid: seq<Bucket>, now: seq<Bucket>, prof: seq<int>, left: nat,
      totbuf: int, totreq: int, fl: Float)
    requires left <= |was| == |mid| == |now| == |prof| && totreq > 0
    requires ProfiledTo(was, mid, prof, |was|, totbuf, totreq, fl) && SweptFrom(mid, now, prof, left)
    ensures ReshapedFrom(was, now, left, totbuf, totreq, fl)
  {
    forall j | left <= j < |was| ensures Reshaped(was[j], now[j], totbuf, totreq, fl) {
      assert Profiled(was[j], mid[j], prof[j], totbuf, totreq, fl) && Swept(mid[j], now[j], prof[j]);
    }
    forall j | 0 <= j < left ensures now[j] == was[j].(numreq := 0) {
      assert Profiled(was[j], mid[j], prof[j], totbuf, totreq, fl);
    }
  }

  lemma ProfiledNeeded(was: seq<Bucket>, mid: seq<Bucket>, now: seq<Bucket>, prof: seq<int>, totbuf: int, totreq: int,
      fl: Float, unit: nat, left: nat, totalo: int, memtarget: int)
    requires left < |was| == |mid| == |now| == |prof| && totreq > 0
    requires ProfiledTo(was, mid, prof, |was|, totbuf, totreq, fl)
    requires Needed(mid, now, unit, left, totalo, memtarget)
    ensures Needed(was, now, unit, left, totalo, memtarget)
  {
    assert Profiled(was[left], mid[left], prof[left], totbuf, totreq, fl);
  }

  lemma ProfiledFacts(was: seq<Bucket>, now: seq<Bucket>, prof: seq<int>, totbuf: int, totreq: int, fl: Float)
    requires |was| == |now| == |prof| && totreq > 0 && ProfiledTo(was, now, prof, |was|, totbuf, totreq, fl)
    ensures Requests(now) == 0 && forall i | 0 <= i < |prof| :: prof[i] >= 0
  {
    forall i | 0 <= i < |was| ensures prof[i] >= 0 && now[i].numreq == 0 {
      assert Profiled(was[i], now[i], prof[i], totbuf, totreq, fl);
    }
    NoRequests(now);
  }

  lemma TopSize()
    ensures SizeOf(MIN_SIZE, BUCKETS - 1) == MAX_SIZE
  {
    Tops();
    SizeIsPower(MIN_SIZE, 11);
  }

  lemma {:induction false} SizesRise(unit: nat, i: nat, k: nat)
    requires unit > 0 && i < k
    ensures 0 < SizeOf(unit, i) < SizeOf(unit, k)
  {
    if i > 0 {
      SizesRise(unit, i - 1, k - 1);
    } else if k > 1 {
      SizesRise(unit, 0, k - 1);
    }
  }

  /** No two buckets of the pool have buffers of one size. */
  lemma OneSize(i: nat)
    ensures forall k: nat | k != i :: SizeOf(MIN_SIZE, k) != SizeOf(MIN_SIZE, i)
  {
    forall k: nat | k != i ensures SizeOf(MIN_SIZE, k) != SizeOf(MIN_SIZE, i) {
      if k < i {
        SizesRise(MIN_SIZE, k, i);
      } else {
        SizesRise(MIN_SIZE, i, k);
      }
    }
  }

  class XrdBuffManager {
    const pool: Tier
    const xl: XrdBuffXL
    const maxalo: int
    const memtarget: nat
    var rsinprog: bool
    var totadj: int

    /** Both tiers are valid, and the pool's request total is the sum of its buckets'. */
    ghost predicate Valid()
      reads this, pool, pool.bucket, xl.tier, xl.tier.bucket
    {
      && pool.Valid() && pool.slots == BUCKETS && pool.unit == MIN_SIZE && pool.mark == 0
      && xl.Valid() && pool != xl.tier && pool.bucket != xl.tier.bucket
      && pool.totreq == Requests(pool.bucket[..])
    }

    /** The buffers in clients' hands. */
    ghost function Clients(): set<XrdBuffer>
      reads pool, xl.tier
    {
      InHand(pool.book) + InHand(xl.tier.book)
    }

    constructor (maxMSZ: int, maxalo: int, memtarget: nat)
      requires maxMSZ <= INT_MAX
      ensures Valid() && Clients() == {} && xl.limit == XlInit(maxMSZ, 0) && !rsinprog
    {
      pool := new Tier(BUCKETS, MIN_SIZE, 0);
      xl := new XrdBuffXL(maxMSZ);
      this.maxalo, this.memtarget := maxalo, memtarget;
      rsinprog, totadj := false, 0;
    }

    /** Whether a request of sz bytes finds a free buffer. */
    ghost predicate HasFree(sz: int)
      requires Valid() && Recalc(xl.limit, sz) != 0
      reads this, pool, pool.bucket, xl.tier, xl.tier.bucket
    {
      if sz > MAX_SIZE then xl.tier.bucket[XlClassOf(sz).index].bnext != []
      else pool.bucket[ClassOf(sz).index].bnext != []
    }

    /** A client gets a buffer of exactly Recalc's size that no client has, and nobody's
        buffers change; it gets none only when Recalc gives 0 or there is neither a
        free buffer of the size nor memory. The reshaper is woken by the allocation
        that exceeds the maximum, once. */
    method Obtain(sz: int, memory: bool) returns (bp: XrdBuffer?, wake: bool)
      requires Valid() && sz <= INT_MAX
      modifies `rsinprog, pool, pool.bucket, xl.tier, xl.tier.bucket
      ensures Valid()
      ensures bp == null <==> Recalc(xl.limit, sz) == 0 || !(memory || old(HasFree(sz)))
      ensures bp == null ==> Clients() == old(Clients())
      ensures bp != null ==>
                && bp.bsize == Recalc(xl.limit, sz) && bp !in old(Clients())
                && Clients() == old(Clients()) + {bp}
      ensures pool.totreq == old(pool.totreq) + (if 0 < sz <= MAX_SIZE then 1 else 0)
      ensures forall i | 0 <= i < BUCKETS :: pool.bucket[i].numreq - old(pool.bucket[i]).numreq ==
                if 0 < sz <= MAX_SIZE && SizeOf(MIN_SIZE, i) == Recalc(xl.limit, sz) then 1 else 0
      ensures xl.tier.totreq == old(xl.tier.totreq) + (if sz > MAX_SIZE && XlRecalc(xl.limit, sz) != 0 then 1 else 0)
      ensures wake <==> pool.totalo > old(pool.totalo) && pool.totalo > maxalo && !old(rsinprog)
      ensures rsinprog == (old(rsinprog) || wake)
    {
      wake := false;
      if sz <= 0 {
        return null, false;
      }
      if sz > MAX_SIZE {
        bp := xl.Obtain(sz, memory);
        Separate();
        return;
      }
      var c := ClassOf(sz);
      SmallRecalc(sz);
      if c.index >= pool.slots {
        assert false;   // "Should never happen!"
      }
      SizeIsPower(MIN_SIZE, c.index);
      bp, wake := ObtainSmall(c.index, c.size, memory);
    }

    /** Obtain from bucket i of the pool. */
    method ObtainSmall(i: nat, size: nat, memory: bool) returns (bp: XrdBuffer?, wake: bool)
      requires Valid() && i < BUCKETS && size == SizeOf(MIN_SIZE, i) > 0
      modifies `rsinprog, pool, pool.bucket
      ensures Valid()
      ensures bp == null <==> !memory && old(pool.bucket[i]).bnext == []
      ensures bp == null ==> Clients() == old(Clients())
      ensures bp != null ==> bp.bsize == size && bp !in old(Clients()) && Clients() == old(Clients()) + {bp}
      ensures pool.totreq == old(pool.totreq) + 1
      ensures forall k | 0 <= k < BUCKETS ::
                pool.bucket[k].numreq - old(pool.bucket[k]).numreq == if SizeOf(MIN_SIZE, k) == size then 1 else 0
      ensures wake <==> pool.totalo > old(pool.totalo) && pool.totalo > maxalo && !old(rsinprog)
      ensures rsinprog == (old(rsinprog) || wake)
    {
      var made;
      OneSize(i);
      bp, made := ObtainFrom(pool, i, size, memory);
      Separate();
      wake := made && pool.totalo > maxalo && !rsinprog;
      if wake {
        rsinprog := true;
      }
    }

    /** No buffer is in both tiers: the index in the buffer tells. */
    lemma Separate()
      requires Valid()
      ensures forall x | x in InHand(pool.book) :: x.bindex < BUCKETS && x !in InHand(xl.tier.book)
      ensures forall x | x in InHand(xl.tier.book) :: x.bindex >= BIG_BUFF
    {
      forall x | x in InHand(pool.book) ensures x.bindex < BUCKETS {
        Home(pool, x);
      }
      forall x | x in InHand(xl.tier.book) ensures x.bindex >= BIG_BUFF {
        Home(xl.tier, x);
      }
    }

    /** Any buffer a client has goes back to the bucket it came from, to be given out first. */
    method Release(bp: XrdBuffer)
      requires Valid() && bp in Clients()
      modifies pool`book, pool.bucket, xl.tier`book, xl.tier.bucket
      ensures Valid() && Clients() == old(Clients()) - {bp}
      ensures bp.bindex < BUCKETS ==> pool.bucket[bp.bindex].bnext == [bp] + old(pool.bucket[bp.bindex]).bnext
      ensures bp.bindex >= BUCKETS ==>
                && 0 <= bp.bindex - BIG_BUFF < xl.tier.slots
                && xl.tier.bucket[bp.bindex - BIG_BUFF].bnext ==
                   [bp] + old(xl.tier.bucket[..])[bp.bindex - BIG_BUFF].bnext
    {
      Separate();
      if bp.bindex >= pool.slots {
        xl.Release(bp);
        return;
      }
      ReleaseTo(pool, bp.bindex, bp);
    }

    /** Under the pool's lock: the profile is taken and the counting starts again. */
    method StartRound(bufprof: array<int>, fl: Float)
      requires Valid() && pool.totreq > 0 && bufprof.Length == BUCKETS
      modifies bufprof, pool.bucket, pool`book, pool`totreq
      ensures Valid() && pool.book == old(pool.book) && pool.totreq == 0
      ensures ProfiledTo(old(pool.bucket[..]), pool.bucket[..], bufprof[..], BUCKETS, pool.totbuf, old(pool.totreq), fl)
      ensures forall i | 0 <= i < BUCKETS :: bufprof[i] >= 0
    {
      ghost var was := pool.bucket[..];
      Profile(pool, bufprof, fl);
      ProfiledFacts(was, pool.bucket[..], bufprof[..], pool.totbuf, pool.totreq, fl);
      assert forall i | 0 <= i < BUCKETS :: bufprof[..][i] >= 0;
      pool.totreq := 0;
    }

    method SweepPool(bufprof: array<int>) returns (left: nat, numfreed: nat)
      requires Valid() && bufprof.Length == BUCKETS
      requires forall i | 0 <= i < BUCKETS :: bufprof[i] >= 0
      modifies pool.bucket, pool`book, pool`totbuf, pool`totalo
      ensures Valid() && Clients() == old(Clients())
      ensures left <= BUCKETS && SweptFrom(old(pool.bucket[..]), pool.bucket[..], bufprof[..], left)
      ensures numfreed == old(pool.totbuf) - pool.totbuf && (left > 0 ==> pool.totalo <= memtarget)
      ensures left < BUCKETS ==> Needed(old(pool.bucket[..]), pool.bucket[..], MIN_SIZE, left, pool.totalo, memtarget)
    {
      TopSize();
      ghost var book := pool.book;
      var memhave;
      left, memhave, numfreed := Sweep(pool, bufprof, MAX_SIZE, memtarget);
      SameInHand(book, pool.book);
    }

    /** The pool's part of a round with enough requests, nothing else running. */
    method ReshapePool(fl: Float) returns (left: nat, numfreed: nat)
      requires Valid() && pool.totreq > BUCKETS
      modifies pool, pool.bucket
      ensures Valid() && Clients() == old(Clients())
      ensures left <= BUCKETS && ReshapedFrom(old(pool.bucket[..]), pool.bucket[..], left, old(pool.totbuf),
                old(pool.totreq), fl)
      ensures left > 0 ==> pool.totalo <= memtarget
      ensures left < BUCKETS ==> Needed(old(pool.bucket[..]), pool.bucket[..], MIN_SIZE, left, pool.totalo, memtarget)
      ensures pool.totreq == 0 && numfreed == old(pool.totbuf) - pool.totbuf
    {
      ghost var was := pool.bucket[..];
      var bufprof := new int[BUCKETS];
      StartRound(bufprof, fl);
      ghost var mid := pool.bucket[..];
      left, numfreed := SweepPool(bufprof);
      ProfiledThenSwept(was, mid, pool.bucket[..], bufprof[..], left, old(pool.totbuf), old(pool.totreq), fl);
      if left < BUCKETS {
        ProfiledNeeded(was, mid, pool.bucket[..], bufprof[..], old(pool.totbuf), old(pool.totreq), fl, MIN_SIZE, left,
                       pool.totalo, memtarget);
      }
    }

    /** One round of Reshape, nothing else running. With more requests than buckets
        since the last round, buckets are cut to their share of the buffers, largest
        size first, exactly until no more than the target is allocated or all are cut;
        then the big buffers are trimmed. No client loses a buffer. */
    method Reshape(fl: Float) returns (left: nat)
      requires Valid()
      modifies this, pool, pool.bucket, xl.tier, xl.tier.bucket
      ensures Valid() && Clients() == old(Clients()) && !rsinprog
      ensures old(pool.totreq) <= BUCKETS ==>
                && pool.bucket[..] == old(pool.bucket[..]) && pool.totreq == old(pool.totreq)
                && pool.totbuf == old(pool.totbuf) && pool.totalo == old(pool.totalo)
      ensures old(pool.totreq) > BUCKETS ==>
                && left <= BUCKETS && pool.totreq == 0 && (left > 0 ==> pool.totalo <= memtarget)
                && (left < BUCKETS ==>
                      Needed(old(pool.bucket[..]), pool.bucket[..], MIN_SIZE, left, pool.totalo, memtarget))
                && ReshapedFrom(old(pool.bucket[..]), pool.bucket[..], left, old(pool.totbuf), old(pool.totreq), fl)
      ensures TrimmedTo(old(xl.tier.bucket[..]), xl.tier.bucket[..], xl.tier.slots)
      ensures totadj == old(totadj) + old(pool.totbuf) - pool.totbuf
    {
      left := BUCKETS;
      var numfreed := 0;
      if pool.totreq > pool.slots {
        left, numfreed := ReshapePool(fl);
      }
      totadj := totadj + numfreed;
      rsinprog := false;
      xl.Trim();
    }
  }
}
