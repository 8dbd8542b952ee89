/**
 Jobs chained through their own nextJob field (XrdJob.hh): the work queue between
 WorkFirst and WorkLast, and the time-ordered queue from TimerQueue on. Each
 method is the pointer surgery of one operation, proved against the list the
 chain stands for.
 */
module JobQueues {
  import opened TimerSpec

  class Job {
    var nextJob: Job?
    var schedTime: int

    constructor ()
      ensures nextJob == null
    {
      nextJob := null;
      schedTime := 0;
    }
  }

  /** q is the chain that starts at first. */
  ghost predicate Chain(q: seq<Job>, first: Job?)
    reads q
  {
    && (first == if q == [] then null else q[0])
    && Links(q)
    && (q != [] ==> q[|q| - 1].nextJob == null)
  }

  ghost predicate Links(q: seq<Job>)
    reads q
  {
    forall i, k {:trigger q[i], q[k]} | 0 <= i < |q| && 0 <= k < |q| && k == i + 1 :: q[i].nextJob == q[k]
  }

  ghost predicate Distinct(q: seq<Job>) {
    forall i, k | 0 <= i < k < |q| :: q[i] != q[k]
  }

  ghost function Only(p: Job?): set<Job> {
    if p == null then {} else {p}
  }

  /** No job is in both. */
  ghost predicate Apart(a: seq<Job>, b: seq<Job>) {
    forall i, k | 0 <= i < |a| && 0 <= k < |b| :: a[i] != b[k]
  }

  lemma ApartAppend(a: seq<Job>, more: seq<Job>, b: seq<Job>)
    requires Apart(a, b) && Apart(more, b)
    ensures Apart(a + more, b)
  {
  }

  lemma ApartPut(a: seq<Job>, b: seq<Job>, k: nat, j: Job)
    requires Apart(a, b) && k <= |b| && j !in a
    ensures Apart(a, Put(b, k, j))
  {
    PutAt(b, k, j);
  }

  class WorkQueue {
    var first: Job?
    var last: Job?
    ghost var jobs: seq<Job>

    ghost predicate Valid()
      reads this, jobs
    {
      Chain(jobs, first) && Distinct(jobs) && last == if jobs == [] then null else jobs[|jobs| - 1]
    }

    constructor ()
      ensures Valid() && jobs == []
    {
      first, last, jobs := null, null, [];
    }

    method Append(jp: Job)
      requires Valid() && jp !in jobs
      modifies this, jp, last
      ensures Valid() && jobs == old(jobs) + [jp]
    {
      jp.nextJob := null;
      if first != null {
        last.nextJob := jp;
        last := jp;
      } else {
        first := jp;
        last := jp;
      }
      jobs := jobs + [jp];
    }

    /** Appends a chain the caller built; its last nextJob may hold anything. */
    method AppendChain(jfirst: Job, jlast: Job, ghost js: seq<Job>)
      requires Valid()
      requires js != [] && Links(js) && Distinct(js) && jfirst == js[0] && jlast == js[|js| - 1]
      requires Apart(js, jobs)
      modifies this, jlast, last
      ensures Valid() && jobs == old(jobs) + js
    {
      jlast.nextJob := null;
      if first != null {
        last.nextJob := jfirst;
        last := jlast;
      } else {
        first := jfirst;
        last := jlast;
      }
      jobs := jobs + js;
    }

    method PopFirst() returns (jp: Job?)
      requires Valid()
      modifies this
      ensures Valid()
      ensures if old(jobs) == [] then jp == null && jobs == []
              else jp == old(jobs)[0] && jobs == old(jobs)[1..]
    {
      jp := first;
      if jp != null {
        first := jp.nextJob;
        if first == null {
          last := null;
        }
        jobs := jobs[1..];
      }
    }
  }

  class TimerQueue {
    var first: Job?
    var signalled: bool                  // TimerRings was signalled
    ghost var jobs: seq<Job>
    ghost var times: seq<Entry<Job>>     // the same jobs with due time and insertion stamp
    ghost var arrivals: nat

    ghost predicate Linked()
      reads this, jobs
    {
      Chain(jobs, first) && Distinct(jobs)
    }

    ghost predicate Valid()
      reads this, jobs
    {
      && Linked()
      && |times| == |jobs|
      && forall i | 0 <= i < |jobs| :: times[i].job == jobs[i] && times[i].time == jobs[i].schedTime
    }

    constructor ()
      ensures Valid() && jobs == [] && times == [] && arrivals == 0 && !signalled
    {
      first, signalled, jobs, times, arrivals := null, false, [], [], 0;
    }

    /** Cancel's search: p is jp or null, pp the job before it. */
    method FindJob(jp: Job) returns (pp: Job?, p: Job?, ghost k: nat)
      requires Valid()
      ensures k == Position(times, jp)
      ensures p == if k < |jobs| then jobs[k] else null
      ensures pp == if k > 0 then jobs[k - 1] else null
    {
      pp, p, k := null, first, 0;
      while p != null && p != jp
        invariant k <= |jobs|
        invariant p == if k < |jobs| then jobs[k] else null
        invariant pp == if k > 0 then jobs[k - 1] else null
        invariant forall i | 0 <= i < k :: jobs[i] != jp
        decreases |jobs| - k
      {
        pp := p;
        p := p.nextJob;
        k := k + 1;
      }
      FoundAt(times, jp, k);
    }

    /** Cancel(jp): unlinks jp if it is queued. */
    method Cancel(jp: Job)
      requires Valid()
      modifies this, jobs
      ensures Valid()
      ensures times == Cancelled(old(times), jp) && jp !in jobs
      ensures jobs == if Position(old(times), jp) == |old(jobs)| then old(jobs)
                else Drop(old(jobs), Position(old(times), jp))
      ensures arrivals == old(arrivals) && signalled == old(signalled)
    {
      ghost var k;
      var pp, p;
      pp, p, k := FindJob(jp);
      if p != null {
        Remove(p, pp, k);
      }
    }

    method Remove(p: Job, pp: Job?, ghost k: nat)
      requires Valid() && k < |jobs| && p == jobs[k]
      requires pp == if k > 0 then jobs[k - 1] else null
      modifies this, Only(pp)`nextJob
      ensures Valid()
      ensures times == Drop(old(times), k) && jobs == Drop(old(jobs), k) && p !in jobs
      ensures arrivals == old(arrivals) && signalled == old(signalled)
    {
      DropAt(jobs, k);
      DropAt(times, k);
      times := Drop(times, k);
      Unlink(p, pp, k);
    }

    method Unlink(p: Job, pp: Job?, ghost k: nat)
      requires Linked() && k < |jobs| && p == jobs[k]
      requires pp == if k > 0 then jobs[k - 1] else null
      modifies `first, `jobs, Only(pp)`nextJob
      ensures Linked()
      ensures jobs == Drop(old(jobs), k)
    {
      ghost var q := jobs;
      DropAt(q, k);
      if pp != null {
        pp.nextJob := p.nextJob;
      } else {
        first := p.nextJob;
      }
      jobs := Drop(q, k);
      assert Links(jobs) by {
        forall i, m {:trigger jobs[i], jobs[m]} | 0 <= i < |jobs| && 0 <= m < |jobs| && m == i + 1
          ensures jobs[i].nextJob == jobs[m]
        {
          if i + 1 == k {
            assert q[k].nextJob == q[k + 1];
          } else if i < k {
            assert q[i].nextJob == q[m];
          } else {
            assert q[i + 1].nextJob == q[m + 1];
          }
        }
      }
    }

    /** The search for the insertion point. */
    method FindSpot(atime: int) returns (pp: Job?, p: Job?, ghost k: nat)
      requires Valid()
      ensures k == Passed(times, atime)
      ensures p == if k < |jobs| then jobs[k] else null
      ensures pp == if k > 0 then jobs[k - 1] else null
    {
      pp, p, k := null, first, 0;
      while p != null && p.schedTime <= atime
        invariant k <= |jobs|
        invariant p == if k < |jobs| then jobs[k] else null
        invariant pp == if k > 0 then jobs[k - 1] else null
        invariant forall i | 0 <= i < k :: times[i].time <= atime
        decreases |jobs| - k
      {
        pp := p;
        p := p.nextJob;
        k := k + 1;
      }
      PassedAt(times, atime, k);
    }

    /** The insertion of the timed Schedule, after its Cancel. */
    method Insert(jp: Job, atime: int)
      requires Valid() && jp !in jobs
      modifies this, jp, jobs
      ensures Valid()
      ensures times == Inserted(old(times), Entry(jp, atime, old(arrivals)))
      ensures arrivals == old(arrivals) + 1
      ensures signalled == (old(signalled) || Passed(old(times), atime) == 0)
      ensures jobs == Put(old(jobs), Passed(old(times), atime), jp)
    {
      jp.schedTime := atime;
      ghost var k;
      var pp, p;
      pp, p, k := FindSpot(atime);
      Place(jp, pp, p, k);
    }

    method Place(jp: Job, pp: Job?, p: Job?, ghost k: nat)
      requires Valid() && jp !in jobs && k <= |jobs|
      requires p == if k < |jobs| then jobs[k] else null
      requires pp == if k > 0 then jobs[k - 1] else null
      modifies this, jp`nextJob, Only(pp)`nextJob
      ensures Valid()
      ensures times == Put(old(times), k, Entry(jp, jp.schedTime, old(arrivals)))
      ensures arrivals == old(arrivals) + 1
      ensures signalled == (old(signalled) || k == 0)
      ensures jobs == Put(old(jobs), k, jp)
    {
      PutAt(jobs, k, jp);
      PutAt(times, k, Entry(jp, jp.schedTime, arrivals));
      times := Put(times, k, Entry(jp, jp.schedTime, arrivals));
      arrivals := arrivals + 1;
      Link(jp, pp, p, k);
    }

    method Link(jp: Job, pp: Job?, p: Job?, ghost k: nat)
      requires Linked() && jp !in jobs && k <= |jobs|
      requires p == if k < |jobs| then jobs[k] else null
      requires pp == if k > 0 then jobs[k - 1] else null
      modifies `first, `signalled, `jobs, jp`nextJob, Only(pp)`nextJob
      ensures Linked()
      ensures jobs == Put(old(jobs), k, jp)
      ensures signalled == (old(signalled) || k == 0)
    {
      ghost var q := jobs;
      PutAt(q, k, jp);
      jp.nextJob := p;
      if pp != null {
        pp.nextJob := jp;
      } else {
        first := jp;
        signalled := true;
      }
      jobs := Put(q, k, jp);
      assert Links(jobs) by {
        forall i, m {:trigger jobs[i], jobs[m]} | 0 <= i < |jobs| && 0 <= m < |jobs| && m == i + 1
          ensures jobs[i].nextJob == jobs[m]
        {
          if m < k {
            assert q[i].nextJob == q[m];
          } else if i > k {
            assert q[i - 1].nextJob == q[m - 1];
          }
        }
      }
    }

    /** Takes the head off, as TimeSched does when it is due. */
    method PopHead() returns (jp: Job)
      requires Valid() && jobs != []
      modifies this
      ensures Valid()
      ensures jp == old(jobs)[0] && jobs == old(jobs)[1..] && times == old(times)[1..]
      ensures jp !in jobs && arrivals == old(arrivals) && signalled == old(signalled)
    {
      jp := first;
      first := jp.nextJob;
      jobs := jobs[1..];
      times := times[1..];
    }
  }

  /** The second half of a second call of the timed Schedule for the only job queued, the
      first call having inserted it since: the search passes the job itself, which is then
      linked to itself, and nobody is signalled, whatever the time. */
  method InsertTwice(q: TimerQueue, jp: Job, atime: int)
    requires q.Valid() && q.jobs == [jp]
    modifies q, jp
    ensures q.first == jp && jp.nextJob == jp && jp.schedTime == atime
    ensures q.signalled == old(q.signalled)
  {
    jp.schedTime := atime;
    var pp: Job?, p: Job? := null, q.first;
    while p != null && p.schedTime <= atime
      invariant (p == jp && pp == null) || (p == null && pp == jp)
      invariant q.first == jp && jp.nextJob == null && jp.schedTime == atime && q.signalled == old(q.signalled)
      decreases if p == null then 0 else 1
    {
      pp := p;
      p := p.nextJob;
    }
    jp.nextJob := p;
    if pp != null {
      pp.nextJob := jp;
    } else {
      assert false;   // the search has passed jp itself
    }
  }

  lemma {:induction false} FoundAt(q: seq<Entry<Job>>, j: Job, k: nat)
    requires k <= |q| && (k < |q| ==> q[k].job == j)
    requires forall i | 0 <= i < k :: q[i].job != j
    ensures Position(q, j) == k
  {
  }

  lemma {:induction false} PassedAt(q: seq<Entry<Job>>, time: int, k: nat)
    requires k <= |q| && (k < |q| ==> q[k].time > time)
    requires forall i | 0 <= i < k :: q[i].time <= time
    ensures Passed(q, time) == k
  {
    if k > 0 {
      PassedAt(q[1..], time, k - 1);
    }
  }
}
