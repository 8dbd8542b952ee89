/**
 The time-ordered queue of the scheduler (XrdScheduler.cc, timed Schedule,
 Cancel and TimeSched) as functions on the list from the head of TimerQueue on.
 */
module TimerSpec {

  /** A queued job, the time it is due, and a stamp that grows with each insertion. */
  datatype Entry<J> = Entry(job: J, time: int, arrival: nat)

  /** q with x put in at position k. */
  function Put<T>(q: seq<T>, k: nat, x: T): seq<T>
    requires k <= |q|
  {
    q[..k] + [x] + q[k..]
  }

  lemma PutAt<T>(q: seq<T>, k: nat, x: T)
    requires k <= |q|
    ensures |Put(q, k, x)| == |q| + 1
    ensures forall i | 0 <= i <= |q| :: Put(q, k, x)[i] == if i < k then q[i] else if i == k then x else q[i - 1]
  {
  }

  /** q without position k. */
  function Drop<T>(q: seq<T>, k: nat): seq<T>
    requires k < |q|
  {
    q[..k] + q[k + 1..]
  }

  lemma DropAt<T>(q: seq<T>, k: nat)
    requires k < |q|
    ensures |Drop(q, k)| == |q| - 1
    ensures forall i | 0 <= i < |q| - 1 :: Drop(q, k)[i] == if i < k then q[i] else q[i + 1]
  {
  }

  /** How many leading entries the insertion scan steps over. */
  function Passed<J>(q: seq<Entry<J>>, time: int): (n: nat)
    ensures n <= |q|
  {
    if q == [] || q[0].time > time then 0 else 1 + Passed(q[1..], time)
  }

  function Inserted<J>(q: seq<Entry<J>>, e: Entry<J>): seq<Entry<J>> {
    Put(q, Passed(q, e.time), e)
  }

  /** Where Cancel finds the job; |q| if it is not queued. */
  function Position<J(==)>(q: seq<Entry<J>>, j: J): (n: nat)
    ensures n <= |q|
    ensures n < |q| ==> q[n].job == j
    ensures forall i | 0 <= i < n :: q[i].job != j
  {
    if q == [] || q[0].job == j then 0
    else
      assert forall i | 1 <= i < |q| :: q[i] == q[1..][i - 1];
      1 + Position(q[1..], j)
  }

  function Cancelled<J(==)>(q: seq<Entry<J>>, j: J): seq<Entry<J>> {
    var n := Position(q, j);
    if n == |q| then q else Drop(q, n)
  }

  /** Due earlier, or due at the same time and inserted earlier. */
  predicate Before<J>(a: Entry<J>, b: Entry<J>) {
    a.time < b.time || (a.time == b.time && a.arrival < b.arrival)
  }

  ghost predicate Ordered<J>(q: seq<Entry<J>>) {
    forall i, k | 0 <= i < k < |q| :: Before(q[i], q[k])
  }

  ghost predicate Has<J>(q: seq<Entry<J>>, j: J) {
    exists i | 0 <= i < |q| :: q[i].job == j
  }

  ghost predicate Unique<J>(q: seq<Entry<J>>) {
    forall i, k | 0 <= i < k < |q| :: q[i].job != q[k].job
  }

  ghost predicate Stamped<J>(q: seq<Entry<J>>, next: nat) {
    forall i | 0 <= i < |q| :: q[i].arrival < next
  }

  /** The scan stops at the first entry due later. */
  lemma {:induction false} PassedSplits<J>(q: seq<Entry<J>>, time: int)
    ensures forall i | 0 <= i < Passed(q, time) :: q[i].time <= time
    ensures Passed(q, time) < |q| ==> q[Passed(q, time)].time > time
  {
    if q != [] && q[0].time <= time {
      PassedSplits(q[1..], time);
      assert forall i | 1 <= i < |q| :: q[i] == q[1..][i - 1];
    }
  }

  lemma InsertedAt<J>(q: seq<Entry<J>>, e: Entry<J>)
    ensures |Inserted(q, e)| == |q| + 1
    ensures forall i | 0 <= i <= |q| ::
              Inserted(q, e)[i] == if i < Passed(q, e.time) then q[i] else if i == Passed(q, e.time) then e
                  else q[i - 1]
  {
  }

  /** Inserting keeps the queue in due order with ties in arrival order, whatever
      the time. */
  lemma InsertKeepsOrder<J>(q: seq<Entry<J>>, e: Entry<J>)
    requires Ordered(q) && Stamped(q, e.arrival)
    ensures Ordered(Inserted(q, e)) && Stamped(Inserted(q, e), e.arrival + 1)
  {
    PassedSplits(q, e.time);
    InsertedAt(q, e);
    var n := Passed(q, e.time);
    var r := Inserted(q, e);
    forall i, k | 0 <= i < k < |r| ensures Before(r[i], r[k]) {
      if k == n {
        assert q[i].time <= e.time;
      } else if i == n {
        assert r[k] == q[k - 1];
        if n < k - 1 {
          assert Before(q[n], q[k - 1]);
        }
      }
    }
  }

  lemma InsertKeepsUnique<J>(q: seq<Entry<J>>, e: Entry<J>)
    requires Unique(q) && !Has(q, e.job)
    ensures Unique(Inserted(q, e))
  {
    InsertedAt(q, e);
  }

  /** Cancelling what was just inserted restores the queue. */
  lemma CancelUndoesInsert<J>(q: seq<Entry<J>>, e: Entry<J>)
    requires !Has(q, e.job)
    ensures Cancelled(Inserted(q, e), e.job) == q
  {
    InsertedAt(q, e);
    var n := Passed(q, e.time);
    var r := Inserted(q, e);
    assert forall i | 0 <= i < n :: r[i].job == q[i].job != e.job;
    assert r[n].job == e.job && Position(r, e.job) == n;
    assert r[..n] == q[..n] && r[n + 1..] == q[n..];
  }

  lemma CancelKeepsOrder<J>(q: seq<Entry<J>>, j: J, next: nat)
    requires Ordered(q) && Stamped(q, next)
    ensures Ordered(Cancelled(q, j)) && Stamped(Cancelled(q, j), next)
    ensures forall e :: e in Cancelled(q, j) ==> e in q
    ensures Cancelled(q, j) != [] ==> q != [] && q[0].time <= Cancelled(q, j)[0].time
  {
    var n := Position(q, j);
    var r := Cancelled(q, j);
    if n < |q| {
      DropAt(q, n);
      assert n == 0 && |q| > 1 ==> Before(q[0], q[1]);
    }
  }

  /** Cancel removes the job's entry, and nothing else; if the job is not queued
      it changes nothing. */
  lemma CancelRemovesOne<J>(q: seq<Entry<J>>, j: J, next: nat)
    requires Ordered(q) && Unique(q) && Stamped(q, next)
    ensures !Has(Cancelled(q, j), j)
    ensures Ordered(Cancelled(q, j)) && Unique(Cancelled(q, j)) && Stamped(Cancelled(q, j), next)
    ensures forall e :: e in Cancelled(q, j) <==> e in q && e.job != j
  {
    var n := Position(q, j);
    var r := Cancelled(q, j);
    if n < |q| {
      assert forall i | 0 <= i < n :: r[i] == q[i];
      assert forall i | n <= i < |r| :: r[i] == q[i + 1];
      forall e | e in q && e.job != j ensures e in r {
        var i :| 0 <= i < |q| && q[i] == e;
        assert i < n ==> r[i] == e;
        assert i > n ==> r[i - 1] == e;
      }
    }
  }
}
