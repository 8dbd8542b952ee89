/**
 The timer queue as it is in memory (XrdScheduler.cc, timed Schedule, Cancel and
 TimeSched): each job has one NextJob and one SchedTime, whoever schedules it. Cancel,
 the store of the time, and the insertion are steps of their own, so two callers of
 Schedule for one job may come between each other. A search that runs round a loop of
 the links never returns, and TimerMutex is then held for ever.
 */
module TimerLinks {
  import opened TimerSpec
  import opened Wrappers
  import T = TimerRuns

  /** A job's NextJob and SchedTime, and a stamp of its insertion. */
  datatype Node<J> = Node(next: Option<J>, time: int, stamp: nat)

  datatype Links<J> = Links(
    first: Option<J>,              // TimerQueue
    nodes: map<J, Node<J>>,
    callers: seq<T.Caller<J>>,
    now: int,
    thread: T.Thread,
    stamp: nat,
    moved: seq<T.Move<J>>,
    owed: set<J>,                  // inserted, and neither cancelled nor moved since
    stuck: bool)                   // a search does not end

  function Get<J>(nodes: map<J, Node<J>>, j: J): Node<J> {
    if j in nodes then nodes[j] else Node(None, 0, 0)
  }

  /** `x->NextJob = next`. */
  function Link<J>(nodes: map<J, Node<J>>, x: J, next: Option<J>): map<J, Node<J>> {
    nodes[x := Get(nodes, x).(next := next)]
  }

  // ---------------------------------------------------------------------
  // The two searches

  /** What a search stops at: the job, or one due later. */
  datatype Want<J> = TheJob(job: J) | DueAfter(time: int)

  predicate Stops<J>(nodes: map<J, Node<J>>, want: Want<J>, x: J) {
    match want
    case TheJob(j) => x == j
    case DueAfter(time) => Get(nodes, x).time > time
  }

  /** At most n rounds of the loop: pp and p, if it ends. */
  function Walk<J>(nodes: map<J, Node<J>>, pp: Option<J>, p: Option<J>, want: Want<J>, n: nat)
      : Option<(Option<J>, Option<J>)>
    decreases n
  {
    if p.None? || Stops(nodes, want, p.value) then Some((pp, p))
    else if n == 0 then None
    else Walk(nodes, p, Get(nodes, p.value).next, want, n - 1)
  }

  lemma {:induction false} WalkMore<J>(nodes: map<J, Node<J>>, pp: Option<J>, p: Option<J>, want: Want<J>, n: nat,
      m: nat)
    requires n <= m && Walk(nodes, pp, p, want, n).Some?
    ensures Walk(nodes, pp, p, want, m) == Walk(nodes, pp, p, want, n)
    decreases n
  {
    if n > 0 && p.Some? && !Stops(nodes, want, p.value) {
      WalkMore(nodes, p, Get(nodes, p.value).next, want, n - 1, m - 1);
    }
  }

  ghost predicate Ends<J>(s: Links<J>, want: Want<J>) {
    exists n: nat :: Walk(s.nodes, None, s.first, want, n).Some?
  }

  /** What the search finds, if it ends. */
  ghost function Spot<J>(s: Links<J>, want: Want<J>): Option<(Option<J>, Option<J>)> {
    if Ends(s, want) then
      var n: nat :| Walk(s.nodes, None, s.first, want, n).Some?;
      Walk(s.nodes, None, s.first, want, n)
    else None
  }

  lemma SpotIs<J>(s: Links<J>, want: Want<J>, n: nat)
    requires Walk(s.nodes, None, s.first, want, n).Some?
    ensures Spot(s, want) == Walk(s.nodes, None, s.first, want, n)
  {
    var m: nat :| Walk(s.nodes, None, s.first, want, m).Some? && Spot(s, want) == Walk(s.nodes, None, s.first, want, m);
    if n <= m {
      WalkMore(s.nodes, None, s.first, want, n, m);
    } else {
      WalkMore(s.nodes, None, s.first, want, m, n);
    }
  }

  // ---------------------------------------------------------------------
  // The steps

  /** Cancel. */
  ghost function Unlinked<J>(s: Links<J>, j: J): Links<J> {
    var r := Spot(s, TheJob(j));
    if r.None? then s.(stuck := true)
    else
      var (pp, p) := r.value;
      var s' := s.(owed := s.owed - {j});
      if p.None? then s'
      else if pp.None? then s'.(first := Get(s.nodes, j).next)
      else s'.(nodes := Link(s.nodes, pp.value, Get(s.nodes, j).next))
  }

  /** The insertion of j at atime. */
  ghost function LinkedIn<J>(s: Links<J>, j: J, atime: int): Links<J> {
    var r := Spot(s, DueAfter(atime));
    if r.None? then s.(stuck := true)
    else
      var (pp, p) := r.value;
      var nodes := s.nodes[j := Get(s.nodes, j).(next := p, stamp := s.stamp)];
      var s' := s.(owed := s.owed + {j}, stamp := s.stamp + 1);
      if pp.None? then s'.(first := Some(j), nodes := nodes, thread := T.Signalled(s.thread))
      else s'.(nodes := Link(nodes, pp.value, Some(j)))
  }

  function WaitTime<J>(s: Links<J>): int {
    if s.first.None? then T.IDLE_WAIT else T.Int32(Get(s.nodes, s.first.value).time - s.now)
  }

  /** The head goes to the work queue, where its NextJob is cleared. */
  function HeadMoved<J>(s: Links<J>): Links<J>
    requires s.first.Some?
  {
    var jp := s.first.value;
    s.(first := Get(s.nodes, jp).next, nodes := Link(s.nodes, jp, None), owed := s.owed - {jp},
       moved := s.moved + [T.Move(jp, Get(s.nodes, jp).time, s.now)])
  }

  function Init<J>(now: int, callers: nat): Links<J> {
    Links(None, map[], seq(callers, i => T.Out), now, T.Awake, 0, [], {}, false)
  }

  predicate Enabled<J>(s: Links<J>, step: T.Step<J>) {
    match step
    case Tick(_) => true
    case Begin(c, j, time) => !s.stuck && c < |s.callers| && s.callers[c].Out?
    case Store(c) => c < |s.callers| && s.callers[c].Begun?
    case Insert(c) => !s.stuck && c < |s.callers| && s.callers[c].Stored?
    case Cancel(_) => !s.stuck
    case Turn(usec, _) => !s.stuck && s.thread.Awake? && usec < T.MILLION
    case WakeUp => !s.stuck && s.thread.Asleep?
  }

  ghost function Apply<J>(s: Links<J>, step: T.Step<J>): Links<J>
    requires Enabled(s, step)
  {
    match step
    case Tick(d) => s.(now := s.now + d)
    case Begin(c, j, time) => Unlinked(s, j).(callers := s.callers[c := T.Begun(j, time)])
    case Store(c) =>
      var p := s.callers[c];
      s.(nodes := s.nodes[p.job := Get(s.nodes, p.job).(time := p.time)],
         callers := s.callers[c := T.Stored(p.job, p.time)])
    case Insert(c) => LinkedIn(s, s.callers[c].job, s.callers[c].time).(callers := s.callers[c := T.Out])
    case Cancel(j) => Unlinked(s, j)
    case Turn(usec, late) =>
      var w := WaitTime(s);
      if w > 0 then s.(thread := T.Slept(s.now, usec, late, w), now := s.now + late) else HeadMoved(s)
    case WakeUp => s.(thread := T.Awake)
  }

  /** A turn takes the head off the queue and hands it to the work queue exactly when it is
      due, if it is due less than 2^31 seconds from now or ago, and changes no link otherwise. */
  lemma TurnExact<J>(s: Links<J>, usec: nat, late: nat)
    requires Enabled(s, T.Turn(usec, late))
    ensures var s' := Apply(s, T.Turn(usec, late));
            && (s.first.None? ==> s'.moved == s.moved && s'.first == None && s'.owed == s.owed && !s'.thread.Awake?)
            && (s.first.Some? && -T.TWO31 <= Get(s.nodes, s.first.value).time - s.now < T.TWO31 ==>
                  var j, due := s.first.value, Get(s.nodes, s.first.value).time;
                  if due <= s.now then
                    && s'.moved == s.moved + [T.Move(j, due, s.now)] && s'.first == Get(s.nodes, j).next
                    && s'.owed == s.owed - {j} && s'.thread.Awake?
                  else
                    s'.moved == s.moved && s'.first == s.first && s'.nodes == s.nodes && s'.owed == s.owed
                    && !s'.thread.Awake?)
  {
    if s.first.Some? && -T.TWO31 <= Get(s.nodes, s.first.value).time - s.now < T.TWO31 {
      var d := Get(s.nodes, s.first.value).time - s.now;
      T.Int32Is(d, 0, d);
    }
  }

  ghost predicate IsRun<J>(s: Links<J>, steps: seq<T.Step<J>>)
    decreases |steps|
  {
    steps == [] || (Enabled(s, steps[0]) && IsRun(Apply(s, steps[0]), steps[1..]))
  }

  ghost function After<J>(s: Links<J>, steps: seq<T.Step<J>>): Links<J>
    requires IsRun(s, steps)
    decreases |steps|
  {
    if steps == [] then s else After(Apply(s, steps[0]), steps[1..])
  }

  /** At no point of the run are two callers between Cancel and insertion for one job. */
  ghost predicate Exclusive<J>(s: Links<J>, steps: seq<T.Step<J>>)
    requires IsRun(s, steps)
    decreases |steps|
  {
    T.Apart(s.callers) && (steps == [] || Exclusive(Apply(s, steps[0]), steps[1..]))
  }

  // ---------------------------------------------------------------------
  // Links that make a list

  function At<J>(q: seq<Entry<J>>, i: nat): Option<J> {
    if i < |q| then Some(q[i].job) else None
  }

  function Prev<J>(q: seq<Entry<J>>, i: nat): Option<J> {
    if 0 < i <= |q| then Some(q[i - 1].job) else None
  }

  ghost predicate Chain<J>(first: Option<J>, nodes: map<J, Node<J>>, q: seq<Entry<J>>) {
    && first == At(q, 0)
    && forall i | 0 <= i < |q| :: Get(nodes, q[i].job).next == At(q, i + 1)
  }

  /** Times and stamps are those in the jobs. */
  ghost predicate Dated<J>(nodes: map<J, Node<J>>, q: seq<Entry<J>>) {
    forall i | 0 <= i < |q| :: Get(nodes, q[i].job).time == q[i].time && Get(nodes, q[i].job).stamp == q[i].arrival
  }

  ghost predicate Lists<J>(s: Links<J>, q: seq<Entry<J>>) {
    Chain(s.first, s.nodes, q) && Dated(s.nodes, q)
  }

  lemma {:induction false} WalkAlong<J>(first: Option<J>, nodes: map<J, Node<J>>, q: seq<Entry<J>>, want: Want<J>,
      i: nat, k: nat)
    requires Chain(first, nodes, q) && i <= k <= |q|
    requires (forall m | i <= m < k :: !Stops(nodes, want, q[m].job)) && (k < |q| ==> Stops(nodes, want, q[k].job))
    ensures Walk(nodes, Prev(q, i), At(q, i), want, k - i) == Some((Prev(q, k), At(q, k)))
    decreases k - i
  {
    if i < k {
      WalkAlong(first, nodes, q, want, i + 1, k);
    }
  }

  lemma SearchIs<J>(s: Links<J>, q: seq<Entry<J>>, want: Want<J>, k: nat)
    requires Chain(s.first, s.nodes, q) && k <= |q|
    requires (forall m | 0 <= m < k :: !Stops(s.nodes, want, q[m].job)) && (k < |q| ==> Stops(s.nodes, want, q[k].job))
    ensures Spot(s, want) == Some((Prev(q, k), At(q, k)))
  {
    WalkAlong(s.first, s.nodes, q, want, 0, k);
    SpotIs(s, want, k);
  }

  lemma ChainDropHead<J>(first: Option<J>, nodes: map<J, Node<J>>, q: seq<Entry<J>>)
    requires Chain(first, nodes, q) && q != []
    ensures Chain(Get(nodes, q[0].job).next, nodes, Drop(q, 0))
  {
    DropAt(q, 0);
    var r := Drop(q, 0);
    forall i | 0 <= i < |r| ensures Get(nodes, r[i].job).next == At(r, i + 1) {
      assert r[i] == q[i + 1];
    }
  }

  lemma ChainDrop<J>(first: Option<J>, nodes: map<J, Node<J>>, q: seq<Entry<J>>, k: nat)
    requires Chain(first, nodes, q) && Unique(q) && 0 < k < |q|
    ensures Chain(first, Link(nodes, q[k - 1].job, Get(nodes, q[k].job).next), Drop(q, k))
  {
    DropAt(q, k);
    var r, nodes' := Drop(q, k), Link(nodes, q[k - 1].job, Get(nodes, q[k].job).next);
    forall i | 0 <= i < |r| ensures Get(nodes', r[i].job).next == At(r, i + 1) {
      if i < k - 1 {
        assert r[i] == q[i] && r[i + 1] == q[i + 1] && q[i].job != q[k - 1].job;
      } else if i == k - 1 {
        assert r[i] == q[k - 1] && Get(nodes, q[k].job).next == At(q, k + 1);
      } else {
        assert r[i] == q[i + 1] && q[i + 1].job != q[k - 1].job;
      }
    }
  }

  lemma ChainPutHead<J>(first: Option<J>, nodes: map<J, Node<J>>, q: seq<Entry<J>>, e: Entry<J>)
    requires Chain(first, nodes, q) && Get(nodes, e.job).next == first
    ensures Chain(Some(e.job), nodes, Put(q, 0, e))
  {
    PutAt(q, 0, e);
    var r := Put(q, 0, e);
    forall i | 0 <= i < |r| ensures Get(nodes, r[i].job).next == At(r, i + 1) {
      if i > 0 { assert r[i] == q[i - 1]; }
    }
  }

  lemma ChainPut<J>(first: Option<J>, nodes: map<J, Node<J>>, q: seq<Entry<J>>, k: nat, e: Entry<J>)
    requires Chain(first, nodes, q) && Unique(q) && 0 < k <= |q| && !Has(q, e.job)
    requires Get(nodes, e.job).next == At(q, k)
    ensures Chain(first, Link(nodes, q[k - 1].job, Some(e.job)), Put(q, k, e))
  {
    PutAt(q, k, e);
    var r, nodes' := Put(q, k, e), Link(nodes, q[k - 1].job, Some(e.job));
    forall i | 0 <= i < |r| ensures Get(nodes', r[i].job).next == At(r, i + 1) {
      if i < k - 1 {
        assert r[i] == q[i] && r[i + 1] == q[i + 1] && q[i].job != q[k - 1].job;
      } else if i == k - 1 {
        assert r[i] == q[k - 1] && r[i + 1] == e;
      } else if i == k {
        assert r[i] == e && q[k - 1].job != e.job;
        assert k < |q| ==> r[i + 1] == q[k];
      } else {
        assert r[i] == q[i - 1] && q[i - 1].job != q[k - 1].job;
        assert i < |q| ==> r[i + 1] == q[i];
      }
    }
  }

  lemma DatedLinks<J>(nodes: map<J, Node<J>>, q: seq<Entry<J>>, x: J, next: Option<J>)
    requires Dated(nodes, q)
    ensures Dated(Link(nodes, x, next), q)
  {
  }

  lemma DatedPut<J>(nodes: map<J, Node<J>>, q: seq<Entry<J>>, k: nat, e: Entry<J>)
    requires Dated(nodes, q) && k <= |q| && Get(nodes, e.job).time == e.time && Get(nodes, e.job).stamp == e.arrival
    ensures Dated(nodes, Put(q, k, e))
  {
    PutAt(q, k, e);
  }

  lemma DatedDrop<J>(nodes: map<J, Node<J>>, q: seq<Entry<J>>, k: nat)
    requires Dated(nodes, q) && k < |q|
    ensures Dated(nodes, Drop(q, k))
  {
    DropAt(q, k);
  }

  /** Jobs not on the list do not matter to it. */
  lemma ChainFrame<J>(first: Option<J>, nodes: map<J, Node<J>>, q: seq<Entry<J>>, j: J, n: Node<J>)
    requires Chain(first, nodes, q) && !Has(q, j)
    ensures Chain(first, nodes[j := n], q) && (Dated(nodes, q) ==> Dated(nodes[j := n], q))
  {
    forall i | 0 <= i < |q| ensures Get(nodes[j := n], q[i].job) == Get(nodes, q[i].job) {
      assert q[i].job != j;
    }
  }

  // ---------------------------------------------------------------------
  // Without a race the links are the list

  ghost predicate Owes<J>(owed: set<J>, q: seq<Entry<J>>) {
    (forall i | 0 <= i < |q| :: q[i].job in owed) && (forall j | j in owed :: Has(q, j))
  }

  /** The links and the list show the same. */
  ghost predicate Rel<J>(s: Links<J>, a: T.State<J>) {
    && !s.stuck && Lists(s, a.queue) && T.Inv(a) && Owes(s.owed, a.queue)
    && s.callers == a.callers && s.now == a.now && s.thread == a.thread && s.stamp == a.next && s.moved == a.moved
    && forall c | 0 <= c < |s.callers| && s.callers[c].Stored? ::
         Get(s.nodes, s.callers[c].job).time == s.callers[c].time
  }

  lemma CancelSame<J(!new)>(s: Links<J>, q: seq<Entry<J>>, j: J)
    requires Lists(s, q) && Unique(q) && Owes(s.owed, q) && !s.stuck
    ensures var s' := Unlinked(s, j);
            && Lists(s', Cancelled(q, j)) && Owes(s'.owed, Cancelled(q, j))
            && s' == s.(first := s'.first, nodes := s'.nodes, owed := s.owed - {j})
            && SameTimes(s.nodes, s'.nodes)
  {
    var k := Position(q, j);
    SearchIs(s, q, TheJob(j), k);
    CancelOwes(s.owed, q, j);
    if k < |q| {
      DatedDrop(s.nodes, q, k);
      if k == 0 {
        ChainDropHead(s.first, s.nodes, q);
      } else {
        ChainDrop(s.first, s.nodes, q, k);
        DatedLinks(s.nodes, Drop(q, k), q[k - 1].job, Get(s.nodes, j).next);
      }
    }
  }

  ghost predicate SameTimes<J(!new)>(was: map<J, Node<J>>, now: map<J, Node<J>>) {
    forall x :: Get(now, x).time == Get(was, x).time
  }

  lemma CancelOwes<J>(owed: set<J>, q: seq<Entry<J>>, j: J)
    requires Owes(owed, q) && Unique(q)
    ensures Owes(owed - {j}, Cancelled(q, j))
  {
    var k := Position(q, j);
    var r := Cancelled(q, j);
    if k < |q| {
      DropAt(q, k);
    }
    forall x | x in owed && x != j ensures Has(r, x) {
      var i :| 0 <= i < |q| && q[i].job == x;
      assert k < |q| ==> (if i < k then r[i] else r[i - 1]).job == x;
    }
    forall i | 0 <= i < |r| ensures r[i].job in owed - {j} {
      assert k < |q| ==> r[i] == (if i < k then q[i] else q[i + 1]) && q[k].job == j;
    }
  }

  /** The job's node once it points at the k-th entry. */
  function Placed<J>(s: Links<J>, q: seq<Entry<J>>, j: J, k: nat): map<J, Node<J>> {
    s.nodes[j := Get(s.nodes, j).(next := At(q, k), stamp := s.stamp)]
  }

  lemma LinkedInIs<J>(s: Links<J>, q: seq<Entry<J>>, j: J, time: int)
    requires Lists(s, q)
    ensures var k := Passed(q, time);
            LinkedIn(s, j, time) ==
            s.(first := if k == 0 then Some(j) else s.first,
               nodes := if k == 0 then Placed(s, q, j, k) else Link(Placed(s, q, j, k), q[k - 1].job, Some(j)),
               owed := s.owed + {j}, stamp := s.stamp + 1,
               thread := if k == 0 then T.Signalled(s.thread) else s.thread)
  {
    var k := Passed(q, time);
    PassedSplits(q, time);
    SearchIs(s, q, DueAfter(time), k);
  }

  lemma PlacedLists<J>(s: Links<J>, q: seq<Entry<J>>, j: J, time: int, k: nat)
    requires Lists(s, q) && Unique(q) && !Has(q, j) && Get(s.nodes, j).time == time && k <= |q|
    ensures var nodes, r := Placed(s, q, j, k), Put(q, k, Entry(j, time, s.stamp));
            && (k == 0 ==> Chain(Some(j), nodes, r) && Dated(nodes, r))
            && (k > 0 ==> Chain(s.first, Link(nodes, q[k - 1].job, Some(j)), r)
                          && Dated(Link(nodes, q[k - 1].job, Some(j)), r))
  {
    var e, nodes := Entry(j, time, s.stamp), Placed(s, q, j, k);
    ChainFrame(s.first, s.nodes, q, j, Get(s.nodes, j).(next := At(q, k), stamp := s.stamp));
    DatedPut(nodes, q, k, e);
    if k == 0 {
      ChainPutHead(s.first, nodes, q, e);
    } else {
      ChainPut(s.first, nodes, q, k, e);
      DatedLinks(nodes, Put(q, k, e), q[k - 1].job, Some(j));
    }
  }

  lemma InsertSame<J(!new)>(s: Links<J>, q: seq<Entry<J>>, j: J, time: int)
    requires Lists(s, q) && Unique(q) && Owes(s.owed, q) && !Has(q, j) && Get(s.nodes, j).time == time
    ensures var s', r := LinkedIn(s, j, time), Inserted(q, Entry(j, time, s.stamp));
            && Lists(s', r) && Owes(s'.owed, r) && SameTimes(s.nodes, s'.nodes)
            && s' == s.(first := s'.first, nodes := s'.nodes, owed := s.owed + {j}, stamp := s.stamp + 1,
                        thread := if Passed(q, time) == 0 then T.Signalled(s.thread) else s.thread)
  {
    LinkedInIs(s, q, j, time);
    PlacedLists(s, q, j, time, Passed(q, time));
    InsertOwes(s.owed, q, Entry(j, time, s.stamp));
  }

  lemma InsertOwes<J>(owed: set<J>, q: seq<Entry<J>>, e: Entry<J>)
    requires Owes(owed, q)
    ensures Owes(owed + {e.job}, Inserted(q, e))
  {
    InsertedAt(q, e);
    var k, r := Passed(q, e.time), Inserted(q, e);
    assert r[k].job == e.job;
    forall x | x in owed ensures Has(r, x) {
      var i :| 0 <= i < |q| && q[i].job == x;
      assert r[if i < k then i else i + 1].job == x;
    }
  }

  lemma StoreSame<J(!new)>(s: Links<J>, a: T.State<J>, c: nat)
    requires Rel(s, a) && Enabled(s, T.Store(c))
    ensures Rel(Apply(s, T.Store(c)), T.Apply(a, T.Store(c)))
  {
    var p := s.callers[c];
    ChainFrame(s.first, s.nodes, a.queue, p.job, Get(s.nodes, p.job).(time := p.time));
    T.InvKept(a, T.Store(c));
    var s' := Apply(s, T.Store(c));
    forall d | 0 <= d < |s'.callers| && s'.callers[d].Stored?
      ensures Get(s'.nodes, s'.callers[d].job).time == s'.callers[d].time
    {
      assert d == c || s.callers[d].job != p.job;
    }
  }

  lemma TailLists<J>(first: Option<J>, nodes: map<J, Node<J>>, q: seq<Entry<J>>)
    requires Chain(first, nodes, q) && Dated(nodes, q) && Unique(q) && q != []
    ensures var j := q[0].job;
            && Chain(Get(nodes, j).next, Link(nodes, j, None), q[1..]) && Dated(Link(nodes, j, None), q[1..])
  {
    var j, r := q[0].job, q[1..];
    forall i | 0 <= i < |r| ensures r[i] == q[i + 1] && r[i].job != j && At(r, i + 1) == At(q, i + 2) {
    }
  }

  lemma HeadOwes<J>(owed: set<J>, q: seq<Entry<J>>)
    requires Owes(owed, q) && Unique(q) && q != []
    ensures Owes(owed - {q[0].job}, q[1..])
  {
    CancelOwes(owed, q, q[0].job);
    assert Drop(q, 0) == q[1..] && Position(q, q[0].job) == 0;
  }

  lemma HeadSame<J(!new)>(s: Links<J>, a: T.State<J>)
    requires Rel(s, a) && a.queue != []
    ensures var s' := HeadMoved(s);
            && Lists(s', a.queue[1..]) && Owes(s'.owed, a.queue[1..]) && SameTimes(s.nodes, s'.nodes)
            && s' == s.(first := s'.first, nodes := s'.nodes, owed := s'.owed,
                        moved := s.moved + [T.Move(a.queue[0].job, a.queue[0].time, s.now)])
  {
    TailLists(s.first, s.nodes, a.queue);
    HeadOwes(s.owed, a.queue);
  }

  lemma TurnSame<J(!new)>(s: Links<J>, a: T.State<J>, usec: nat, late: nat)
    requires Rel(s, a) && Enabled(s, T.Turn(usec, late)) && T.Inv(T.Apply(a, T.Turn(usec, late)))
    ensures Rel(Apply(s, T.Turn(usec, late)), T.Apply(a, T.Turn(usec, late)))
  {
    assert WaitTime(s) == T.WaitTime(a);
    if a.queue != [] {
      HeadSame(s, a);
    }
  }

  lemma BeginSame<J(!new)>(s: Links<J>, a: T.State<J>, c: nat, j: J, time: int)
    requires Rel(s, a) && Enabled(s, T.Begin(c, j, time)) && T.Enabled(a, T.Begin(c, j, time))
    requires T.Inv(T.Apply(a, T.Begin(c, j, time)))
    ensures Rel(Apply(s, T.Begin(c, j, time)), T.Apply(a, T.Begin(c, j, time)))
  {
    CancelSame(s, a.queue, j);
  }

  lemma InsertStepSame<J(!new)>(s: Links<J>, a: T.State<J>, c: nat)
    requires Rel(s, a) && Enabled(s, T.Insert(c)) && T.Inv(T.Apply(a, T.Insert(c)))
    ensures Rel(Apply(s, T.Insert(c)), T.Apply(a, T.Insert(c)))
  {
    InsertSame(s, a.queue, s.callers[c].job, s.callers[c].time);
  }

  lemma CancelStepSame<J(!new)>(s: Links<J>, a: T.State<J>, j: J)
    requires Rel(s, a) && Enabled(s, T.Cancel(j)) && T.Inv(T.Apply(a, T.Cancel(j)))
    ensures Rel(Apply(s, T.Cancel(j)), T.Apply(a, T.Cancel(j)))
  {
    CancelSame(s, a.queue, j);
  }

  /** Every step does to the links what it does to the list. */
  lemma StepSame<J(!new)>(s: Links<J>, a: T.State<J>, step: T.Step<J>)
    requires Rel(s, a) && Enabled(s, step) && (step.Begin? ==> T.Apart(s.callers[step.c := T.Begun(step.j, step.time)]))
    ensures T.Enabled(a, step) && Rel(Apply(s, step), T.Apply(a, step))
  {
    T.InvKept(a, step);
    match step
    case Begin(c, j, time) => BeginSame(s, a, c, j, time);
    case Store(c) => StoreSame(s, a, c);
    case Insert(c) => InsertStepSame(s, a, c);
    case Cancel(j) => CancelStepSame(s, a, j);
    case Turn(usec, late) => TurnSame(s, a, usec, late);
    case _ =>
  }

  lemma StepsApart<J>(s: Links<J>, step: T.Step<J>)
    requires Enabled(s, step)
    ensures step.Begin? ==> Apply(s, step).callers == s.callers[step.c := T.Begun(step.j, step.time)]
    ensures !step.Begin? && T.Apart(s.callers) ==> T.Apart(Apply(s, step).callers)
  {
  }

  /** A run without a race is a run on the list. */
  lemma {:induction false} Refines<J(!new)>(s: Links<J>, a: T.State<J>, steps: seq<T.Step<J>>)
    requires Rel(s, a) && IsRun(s, steps) && Exclusive(s, steps)
    ensures T.IsRun(a, steps) && Rel(After(s, steps), T.After(a, steps))
    decreases |steps|
  {
    if steps != [] {
      StepsApart(s, steps[0]);
      StepSame(s, a, steps[0]);
      Refines(Apply(s, steps[0]), T.Apply(a, steps[0]), steps[1..]);
    }
  }

  lemma InitSame<J(!new)>(now: int, callers: nat)
    ensures Rel(Init<J>(now, callers), T.Init(now, callers))
  {
  }

  // ---------------------------------------------------------------------
  // Exactly without a race the queue stays a list

  /** The links are a list of exactly the jobs that are to be in it, each once. */
  ghost predicate Intact<J(!new)>(s: Links<J>) {
    !s.stuck && exists q: seq<Entry<J>> :: Chain(s.first, s.nodes, q) && Unique(q) && Owes(s.owed, q)
  }

  /** A caller past Cancel goes on. */
  predicate Finishes<J>(step: T.Step<J>) {
    step.Store? || step.Insert?
  }

  ghost predicate OnlyFinish<J>(steps: seq<T.Step<J>>) {
    forall i | 0 <= i < |steps| :: Finishes(steps[i])
  }

  /** However the callers that have begun go on, the queue stays intact. */
  ghost predicate SettlesIntact<J(!new)>(s: Links<J>) {
    forall rest: seq<T.Step<J>> | OnlyFinish(rest) && IsRun(s, rest) :: Intact(After(s, rest))
  }

  /** This holds at every point of the run. */
  ghost predicate AlwaysIntact<J(!new)>(s: Links<J>, steps: seq<T.Step<J>>)
    requires IsRun(s, steps)
    decreases |steps|
  {
    SettlesIntact(s) && (steps == [] || AlwaysIntact(Apply(s, steps[0]), steps[1..]))
  }

  lemma {:induction false} FinishingApart<J>(s: Links<J>, rest: seq<T.Step<J>>)
    requires T.Apart(s.callers) && OnlyFinish(rest) && IsRun(s, rest)
    ensures Exclusive(s, rest)
    decreases |rest|
  {
    if rest != [] {
      assert Finishes(rest[0]);
      StepsApart(s, rest[0]);
      assert forall i | 0 <= i < |rest[1..]| :: rest[1..][i] == rest[i + 1];
      FinishingApart(Apply(s, rest[0]), rest[1..]);
    }
  }

  lemma ApartSettles<J(!new)>(s: Links<J>, a: T.State<J>)
    requires Rel(s, a)
    ensures SettlesIntact(s)
  {
    forall rest: seq<T.Step<J>> | OnlyFinish(rest) && IsRun(s, rest) ensures Intact(After(s, rest)) {
      FinishingApart(s, rest);
      Refines(s, a, rest);
    }
  }

  lemma SettlesOn<J(!new)>(s: Links<J>, step: T.Step<J>)
    requires SettlesIntact(s) && Finishes(step) && Enabled(s, step)
    ensures SettlesIntact(Apply(s, step)) && Intact(Apply(s, step))
  {
    var s' := Apply(s, step);
    forall rest: seq<T.Step<J>> | OnlyFinish(rest) && IsRun(s', rest) ensures Intact(After(s', rest)) {
      assert ([step] + rest)[1..] == rest;
      assert OnlyFinish([step] + rest) && IsRun(s, [step] + rest);
    }
    var none: seq<T.Step<J>> := [];
    assert OnlyFinish(none) && IsRun(s', none) && After(s', none) == s';
  }

  /** A list in which a job has two predecessors, or follows itself, or is first and follows
      another, has it twice. */
  lemma TwoWaysIn<J>(first: Option<J>, nodes: map<J, Node<J>>, q: seq<Entry<J>>, j: J, x: J, y: J)
    requires Chain(first, nodes, q) && Unique(q) && Has(q, x) && Get(nodes, x).next == Some(j)
    ensures first != Some(j) && x != j
    ensures Has(q, y) && Get(nodes, y).next == Some(j) ==> x == y
  {
    var i :| 0 <= i < |q| && q[i].job == x;
    assert q[i + 1].job == j;
    if Has(q, y) && Get(nodes, y).next == Some(j) {
      var k :| 0 <= k < |q| && q[k].job == y;
      assert q[k + 1].job == j;
      assert i == k;
    }
  }

  /** What came before the job on the intact list still points at it. */
  lemma OldWayIn<J>(q: seq<Entry<J>>, first: Option<J>, nodes: map<J, Node<J>>, j: J) returns (y: Option<J>)
    requires Chain(first, nodes, q) && Has(q, j)
    ensures y.None? ==> first == Some(j)
    ensures y.Some? ==> Has(q, y.value) && Get(nodes, y.value).next == Some(j)
  {
    var i :| 0 <= i < |q| && q[i].job == j;
    y := Prev(q, i);
    if i > 0 {
      assert q[i - 1].job == y.value;
    }
  }

  /** A search on a list finds two neighbours in it, or an end of it. */
  lemma {:induction false} WalkStays<J>(first: Option<J>, nodes: map<J, Node<J>>, q: seq<Entry<J>>, want: Want<J>,
      i: nat, n: nat)
      returns (k: nat)
    requires Chain(first, nodes, q) && i <= |q| && Walk(nodes, Prev(q, i), At(q, i), want, n).Some?
    ensures k <= |q| && Walk(nodes, Prev(q, i), At(q, i), want, n) == Some((Prev(q, k), At(q, k)))
    decreases n
  {
    if i == |q| || Stops(nodes, want, q[i].job) {
      k := i;
    } else {
      k := WalkStays(first, nodes, q, want, i + 1, n - 1);
    }
  }

  lemma SearchStays<J>(s: Links<J>, q: seq<Entry<J>>, want: Want<J>) returns (k: nat)
    requires Chain(s.first, s.nodes, q) && Spot(s, want).Some?
    ensures k <= |q| && Spot(s, want) == Some((Prev(q, k), At(q, k)))
  {
    var n: nat :| Walk(s.nodes, None, s.first, want, n).Some?;
    k := WalkStays(s.first, s.nodes, q, want, 0, n);
    SpotIs(s, want, n);
  }

  /** The insertion of a queued job between two others, or itself, ruins the list. */
  lemma InsertRuins<J>(s: Links<J>, q: seq<Entry<J>>, r: seq<Entry<J>>, j: J, time: int)
    requires Chain(s.first, s.nodes, q) && Unique(q) && Has(q, j) && Spot(s, DueAfter(time)).Some?
    requires (forall i | 0 <= i < |q| :: Has(r, q[i].job)) && Unique(r)
    ensures var s' := LinkedIn(s, j, time); !Chain(s'.first, s'.nodes, r)
  {
    var k := SearchStays(s, q, DueAfter(time));
    var s' := LinkedIn(s, j, time);
    if Chain(s'.first, s'.nodes, r) {
      var y := OldWayIn(q, s.first, s.nodes, j);
      if y.Some? {
        TwoWaysIn(s.first, s.nodes, q, j, y.value, y.value);
      }
      assert Has(r, j) && (y.Some? ==> Has(r, y.value));
      if At(q, k) == Some(j) && (k == 0 || q[k - 1].job != j) {
        assert Get(s'.nodes, j).next == Some(j);
        TwoWaysIn(s'.first, s'.nodes, r, j, j, j);
      } else if k == 0 {
        TwoWaysIn(s'.first, s'.nodes, r, j, y.value, y.value);
      } else {
        var x := q[k - 1].job;
        assert Get(s'.nodes, x).next == Some(j);
        TwoWaysIn(s'.first, s'.nodes, r, j, x, if y.Some? then y.value else x);
      }
    }
  }

  lemma SecondInsertBreaks<J(!new)>(s: Links<J>, c: nat)
    requires Intact(s) && Enabled(s, T.Insert(c)) && s.callers[c].job in s.owed
    ensures !Intact(Apply(s, T.Insert(c)))
  {
    var j, time := s.callers[c].job, s.callers[c].time;
    var q: seq<Entry<J>> :| Chain(s.first, s.nodes, q) && Unique(q) && Owes(s.owed, q);
    var s' := Apply(s, T.Insert(c));
    if Intact(s') {
      var r: seq<Entry<J>> :| Chain(s'.first, s'.nodes, r) && Unique(r) && Owes(s'.owed, r);
      InsertRuins(s, q, r, j, time);
    }
  }

  /** The caller stores its time, if it has not yet. */
  ghost function Ready<J>(s: Links<J>, c: nat): Links<J>
    requires c < |s.callers|
  {
    if s.callers[c].Begun? then Apply(s, T.Store(c)) else s
  }

  lemma ReadySettles<J(!new)>(s: Links<J>, c: nat)
    requires SettlesIntact(s) && Intact(s) && c < |s.callers| && !s.callers[c].Out?
    ensures SettlesIntact(Ready(s, c)) && Intact(Ready(s, c))
    ensures Ready(s, c).callers[c].Stored? && |Ready(s, c).callers| == |s.callers|
    ensures Ready(s, c).callers[c].job == s.callers[c].job
    ensures forall d | 0 <= d < |s.callers| && d != c :: Ready(s, c).callers[d] == s.callers[d]
  {
    if s.callers[c].Begun? {
      SettlesOn(s, T.Store(c));
    }
  }

  lemma TwoInsertsBreak<J(!new)>(s: Links<J>, c: nat, d: nat)
    requires c < d < |s.callers| && s.callers[c].Stored? && s.callers[d].Stored? && s.callers[c].job == s.callers[d].job
    requires Intact(s)
    ensures !SettlesIntact(s)
  {
    if SettlesIntact(s) {
      SettlesOn(s, T.Insert(c));
      var s' := Apply(s, T.Insert(c));
      SettlesOn(s', T.Insert(d));
      SecondInsertBreaks(s', d);
    }
  }

  /** Two callers past Cancel for one job can ruin the queue. */
  lemma RaceBreaks<J(!new)>(s: Links<J>)
    requires !T.Apart(s.callers)
    ensures !SettlesIntact(s)
  {
    if SettlesIntact(s) {
      var none: seq<T.Step<J>> := [];
      assert OnlyFinish(none) && IsRun(s, none) && After(s, none) == s;
      var c, d :| 0 <= c < d < |s.callers| && !s.callers[c].Out? && !s.callers[d].Out?
                  && s.callers[c].job == s.callers[d].job;
      ReadySettles(s, c);
      ReadySettles(Ready(s, c), d);
      TwoInsertsBreak(Ready(Ready(s, c), d), c, d);
    }
  }

  lemma {:induction false} IntactFrom<J(!new)>(s: Links<J>, a: T.State<J>, steps: seq<T.Step<J>>)
    requires Rel(s, a) && IsRun(s, steps)
    ensures AlwaysIntact(s, steps) <==> Exclusive(s, steps)
    decreases |steps|
  {
    ApartSettles(s, a);
    if steps != [] {
      var s' := Apply(s, steps[0]);
      StepsApart(s, steps[0]);
      if T.Apart(s'.callers) {
        StepSame(s, a, steps[0]);
        IntactFrom(s', T.Apply(a, steps[0]), steps[1..]);
      } else {
        RaceBreaks(s');
      }
    }
  }

  /** In every run, for every way its callers may go on: the links are a list of exactly
      the jobs inserted and not cancelled or moved since, each once, if and only if no two
      callers are ever between Cancel and insertion for one job. */
  lemma IntactExact<J(!new)>(start: int, callers: nat, steps: seq<T.Step<J>>)
    requires IsRun(Init(start, callers), steps)
    ensures AlwaysIntact(Init(start, callers), steps) <==> Exclusive(Init(start, callers), steps)
  {
    InitSame<J>(start, callers);
    IntactFrom(Init(start, callers), T.Init(start, callers), steps);
  }

  // ---------------------------------------------------------------------
  // Order, and sleeping in time

  /** The queue is a list in due order, ties in the order of insertion, of exactly the jobs
      that are to be in it, each once. */
  ghost predicate Queued<J(!new)>(s: Links<J>) {
    !s.stuck && exists q: seq<Entry<J>> :: Lists(s, q) && Ordered(q) && Unique(q) && Owes(s.owed, q)
  }

  /** A timer thread that sleeps unsignalled wakes at most d seconds after the head is due. */
  predicate SleepsWithin<J>(s: Links<J>, d: nat) {
    s.thread.Asleep? && !s.thread.signalled && s.first.Some? ==>
      s.thread.deadline <= Get(s.nodes, s.first.value).time + d
  }

  /** At most the time that passed between its two looks at the clock. */
  predicate SleepsInTime<J>(s: Links<J>) {
    s.thread.Asleep? ==> SleepsWithin(s, s.thread.late)
  }

  /** No turn of the run finds the head more than 2^31 seconds overdue. */
  ghost predicate NoneOverdue<J>(s: Links<J>, steps: seq<T.Step<J>>)
    requires IsRun(s, steps)
    decreases |steps|
  {
    steps == [] || (
      && (steps[0].Turn? && s.first.Some? ==> Get(s.nodes, s.first.value).time - s.now >= -T.TWO31)
      && NoneOverdue(Apply(s, steps[0]), steps[1..]))
  }

  lemma {:induction false} OverdueSame<J(!new)>(s: Links<J>, a: T.State<J>, steps: seq<T.Step<J>>)
    requires Rel(s, a) && IsRun(s, steps) && Exclusive(s, steps)
    ensures T.IsRun(a, steps) && (T.NoneOverdue(a, steps) <==> NoneOverdue(s, steps))
    decreases |steps|
  {
    Refines(s, a, steps);
    if steps != [] {
      StepsApart(s, steps[0]);
      StepSame(s, a, steps[0]);
      OverdueSame(Apply(s, steps[0]), T.Apply(a, steps[0]), steps[1..]);
    }
  }

  /** In every run in which no two callers race for one job the queue is a list in due
      order of exactly the jobs it should have, and while the timer thread sleeps
      unsignalled it will wake no later than the head is due, but for the time that passed
      between its looks at the clock, if no turn finds the head more than 2^31 seconds
      overdue; none does if no call asks for a time that long before the end of the run. */
  lemma TimerOrderAndWakeup<J(!new)>(start: int, callers: nat, steps: seq<T.Step<J>>)
    requires IsRun(Init(start, callers), steps)
    ensures var s0 := Init(start, callers);
            Exclusive(s0, steps) ==>
              && Queued(After(s0, steps))
              && (NoneOverdue(s0, steps) ==> SleepsInTime(After(s0, steps)))
              && (T.CallsFrom(steps, After(s0, steps).now - T.TWO31) ==> NoneOverdue(s0, steps))
  {
    var s0, a0 := Init<J>(start, callers), T.Init<J>(start, callers);
    if Exclusive(s0, steps) {
      InitSame<J>(start, callers);
      Refines(s0, a0, steps);
      OverdueSame(s0, a0, steps);
      var s, a := After(s0, steps), T.After(a0, steps);
      assert Lists(s, a.queue);
      if NoneOverdue(s0, steps) {
        T.WakesInTime(a0, steps);
      }
      if T.CallsFrom(steps, s.now - T.TWO31) {
        T.CallsInTime(a0, steps, s.now - T.TWO31);
      }
    }
  }

  /** Whatever the run, if no turn takes more than k seconds between its looks at the clock,
      the thread sleeps at most d seconds too long. */
  ghost predicate AlwaysWithin(k: nat, d: nat) {
    forall start: int, callers: nat, steps: seq<T.Step<int>> |
      && IsRun(Init(start, callers), steps) && Exclusive(Init(start, callers), steps)
      && T.TurnsWithin(steps, k) && NoneOverdue(Init(start, callers), steps) ::
      SleepsWithin(After(Init(start, callers), steps), d)
  }

  /** The thread oversleeps by no more than passed between its looks at the clock, and by
      as much: not at all exactly if nothing did. */
  lemma LateExact(k: nat, d: nat)
    ensures AlwaysWithin(k, d) <==> k <= d
  {
    if k <= d {
      forall start: int, callers: nat, steps: seq<T.Step<int>> |
        && IsRun(Init(start, callers), steps) && Exclusive(Init(start, callers), steps)
        && T.TurnsWithin(steps, k) && NoneOverdue(Init(start, callers), steps)
        ensures SleepsWithin(After(Init(start, callers), steps), d)
      {
        TimerOrderAndWakeup(start, callers, steps);
        InitSame<int>(start, callers);
        Refines(Init(start, callers), T.Init(start, callers), steps);
        T.LateWithin(T.Init(start, callers), steps, k);
      }
    } else {
      var steps, s := CallAndTurn(0, 7, 10, 0, k);
      LonelyExclusive(Init(0, 1), steps);
      assert s.thread == T.Asleep(10 + k, k, false) by {
        T.Int32Is(10, 0, 10);
        T.Int32Is(10 * 1000, 0, 10000);
      }
      assert !SleepsWithin(s, d);
    }
  }

  lemma {:induction false} LonelyExclusive<J>(s: Links<J>, steps: seq<T.Step<J>>)
    requires IsRun(s, steps) && |s.callers| <= 1
    ensures Exclusive(s, steps)
    decreases |steps|
  {
    if steps != [] {
      LonelyExclusive(Apply(s, steps[0]), steps[1..]);
    }
  }

  // ---------------------------------------------------------------------
  // Nothing moved early

  ghost predicate NotEarly<J>(s: Links<J>) {
    forall i | 0 <= i < |s.moved| :: s.moved[i].due <= s.moved[i].at
  }

  /** Every call of the run asks for a time less than 2^31 seconds ahead. */
  ghost predicate NearCalls<J>(s: Links<J>, steps: seq<T.Step<J>>)
    requires IsRun(s, steps)
    decreases |steps|
  {
    steps == [] || (
      && (steps[0].Begin? ==> steps[0].time - s.now < T.TWO31)
      && NearCalls(Apply(s, steps[0]), steps[1..]))
  }

  lemma {:induction false} NearSame<J(!new)>(s: Links<J>, a: T.State<J>, steps: seq<T.Step<J>>)
    requires Rel(s, a) && IsRun(s, steps) && Exclusive(s, steps) && NearCalls(s, steps)
    ensures T.IsRun(a, steps) && T.NearCalls(a, steps)
    decreases |steps|
  {
    Refines(s, a, steps);
    if steps != [] {
      StepsApart(s, steps[0]);
      StepSame(s, a, steps[0]);
      NearSame(Apply(s, steps[0]), T.Apply(a, steps[0]), steps[1..]);
    }
  }

  /** No job is moved before its time in any run without a race whose calls all ask for
      less than 2^31 seconds ahead. */
  lemma NoEarlyMove<J(!new)>(start: int, callers: nat, steps: seq<T.Step<J>>)
    requires IsRun(Init(start, callers), steps)
    ensures Exclusive(Init(start, callers), steps) && NearCalls(Init(start, callers), steps) ==>
              NotEarly(After(Init(start, callers), steps))
  {
    if Exclusive(Init(start, callers), steps) && NearCalls(Init(start, callers), steps) {
      var a0 := T.Init<J>(start, callers);
      InitSame<J>(start, callers);
      Refines(Init(start, callers), a0, steps);
      NearSame(Init(start, callers), a0, steps);
      T.NearAfter(a0, steps);
    }
  }

  // ---------------------------------------------------------------------
  // Runs, from their end

  lemma {:induction false} RunSnoc<J>(s: Links<J>, steps: seq<T.Step<J>>, step: T.Step<J>)
    requires IsRun(s, steps) && Enabled(After(s, steps), step)
    ensures IsRun(s, steps + [step]) && After(s, steps + [step]) == Apply(After(s, steps), step)
    decreases |steps|
  {
    if steps == [] {
      assert steps + [step] == [step] && [step][1..] == [];
      assert IsRun(Apply(s, step), []);
    } else {
      assert (steps + [step])[1..] == steps[1..] + [step];
      RunSnoc(Apply(s, steps[0]), steps[1..], step);
    }
  }

  lemma {:induction false} OverdueSnoc<J>(s: Links<J>, steps: seq<T.Step<J>>, step: T.Step<J>)
    requires IsRun(s, steps) && Enabled(After(s, steps), step) && NoneOverdue(s, steps)
    requires var t := After(s, steps);
             step.Turn? && t.first.Some? ==> Get(t.nodes, t.first.value).time >= t.now - T.TWO31
    ensures IsRun(s, steps + [step]) && NoneOverdue(s, steps + [step])
    decreases |steps|
  {
    RunSnoc(s, steps, step);
    if steps == [] {
      assert steps + [step] == [step] && [step][1..] == [];
      assert NoneOverdue(Apply(s, step), []);
    } else {
      assert (steps + [step])[1..] == steps[1..] + [step];
      OverdueSnoc(Apply(s, steps[0]), steps[1..], step);
    }
  }

  ghost predicate Leads<J>(s0: Links<J>, run: seq<T.Step<J>>, s: Links<J>) {
    IsRun(s0, run) && After(s0, run) == s
  }

  lemma Go<J>(s0: Links<J>, run: seq<T.Step<J>>, s: Links<J>, step: T.Step<J>)
      returns (run': seq<T.Step<J>>, s': Links<J>)
    requires Leads(s0, run, s) && Enabled(s, step)
    ensures run' == run + [step] && s' == Apply(s, step) && Leads(s0, run', s')
    ensures NoneOverdue(s0, run)
            && (step.Turn? && s.first.Some? ==> Get(s.nodes, s.first.value).time >= s.now - T.TWO31) ==>
              NoneOverdue(s0, run')
  {
    RunSnoc(s0, run, step);
    if NoneOverdue(s0, run) && (step.Turn? && s.first.Some? ==> Get(s.nodes, s.first.value).time >= s.now - T.TWO31) {
      OverdueSnoc(s0, run, step);
    }
    run', s' := run + [step], Apply(s, step);
  }

  /** A search depends on the links only. */
  lemma SpotSame<J>(s: Links<J>, t: Links<J>, want: Want<J>)
    requires s.first == t.first && s.nodes == t.nodes
    ensures Spot(s, want) == Spot(t, want)
  {
    if Ends(s, want) {
      var n: nat :| Walk(s.nodes, None, s.first, want, n).Some?;
      SpotIs(s, want, n);
      SpotIs(t, want, n);
    } else {
      assert !Ends(t, want);
    }
  }

  /** With no job queued both searches end at once. */
  lemma EmptySearch<J>(s: Links<J>, want: Want<J>)
    requires s.first.None?
    ensures Spot(s, want) == Some((None, None))
  {
    SpotIs(s, want, 0);
  }

  /** With one, they end at it or behind it. */
  lemma OneSearch<J>(s: Links<J>, want: Want<J>)
    requires s.first.Some? && Get(s.nodes, s.first.value).next.None?
    ensures Spot(s, want) == if Stops(s.nodes, want, s.first.value) then Some((None, s.first))
              else Some((s.first, None))
  {
    SpotIs(s, want, 1);
  }

  /** A caller schedules its job on an empty queue. */
  lemma DoSchedule<J>(s0: Links<J>, run: seq<T.Step<J>>, s: Links<J>, c: nat, j: J, time: int)
      returns (run': seq<T.Step<J>>, s': Links<J>)
    requires Leads(s0, run, s) && !s.stuck && s.first.None? && j !in s.nodes && c < |s.callers| && s.callers[c].Out?
    ensures run' == run + [T.Begin(c, j, time)] + [T.Store(c)] + [T.Insert(c)] && Leads(s0, run', s')
    ensures NoneOverdue(s0, run) ==> NoneOverdue(s0, run')
    ensures s' == s.(first := Some(j), nodes := s.nodes[j := Node(None, time, s.stamp)], owed := s.owed - {j} + {j},
                     stamp := s.stamp + 1, thread := T.Signalled(s.thread))
  {
    EmptySearch(s, TheJob(j));
    var s1, s2;
    run', s1 := Go(s0, run, s, T.Begin(c, j, time));
    run', s2 := Go(s0, run', s1, T.Store(c));
    EmptySearch(s2, DueAfter(time));
    run', s' := Go(s0, run', s2, T.Insert(c));
    assert s'.callers == s.callers;
    assert s'.nodes == s.nodes[j := Node(None, time, s.stamp)];
  }

  /** The call, some time, and the timer thread's turn. */
  lemma CallAndTurn<J>(start: int, j: J, time: int, wait: nat, late: nat) returns (steps: seq<T.Step<J>>, s: Links<J>)
    ensures Leads(Init(start, 1), steps, s) && T.OneCall(steps, j, time) && T.TurnsWithin(steps, late)
    ensures time >= start + wait ==> NoneOverdue(Init(start, 1), steps)
    ensures s == Apply(Links(Some(j), map[j := Node(None, time, 0)], [T.Out], start + wait, T.Awake, 1, [], {j}, false),
                       T.Turn(0, late))
  {
    var s0 := Init<J>(start, 1);
    assert IsRun(s0, []) && NoneOverdue(s0, []);
    steps, s := DoSchedule(s0, [], s0, 0, j, time);
    assert s.callers == [T.Out] && s.owed == {j} && s.nodes == map[j := Node(None, time, 0)];
    steps, s := Go(s0, steps, s, T.Tick(wait));
    steps, s := Go(s0, steps, s, T.Turn(0, late));
    assert steps == [T.Begin(0, j, time), T.Store(0), T.Insert(0), T.Tick(wait), T.Turn(0, late)];
  }

  // ---------------------------------------------------------------------
  // One call, exactly

  ghost predicate CanMoveEarly<J(!new)>(start: int, j: J, horizon: nat) {
    exists steps: seq<T.Step<J>> ::
      IsRun(Init(start, 1), steps) && T.OneCall(steps, j, start + horizon) && !NotEarly(After(Init(start, 1), steps))
  }

  /** A run of one call is a run on the list. */
  lemma OneCallRefines<J(!new)>(start: int, steps: seq<T.Step<J>>)
    requires IsRun(Init(start, 1), steps)
    ensures T.IsRun(T.Init(start, 1), steps) && Rel(After(Init(start, 1), steps), T.After(T.Init(start, 1), steps))
  {
    InitSame<J>(start, 1);
    LonelyExclusive(Init(start, 1), steps);
    Refines(Init(start, 1), T.Init(start, 1), steps);
  }

  /** The bound on calls is exact: a single job can be moved early if and only if it is asked
      for 2^31 seconds or more ahead. */
  lemma EarlyMoveExact<J(!new)>(start: int, j: J, horizon: nat)
    ensures CanMoveEarly(start, j, horizon) <==> horizon >= T.TWO31
  {
    if horizon >= T.TWO31 {
      var steps, s := CallAndTurn(start, j, start + horizon, horizon - T.TWO31, 0);
      assert T.Int32(T.TWO31) < 0;
      assert s.moved == [T.Move(j, start + horizon, start + horizon - T.TWO31)];
      assert s.moved[0].due > s.moved[0].at;
    } else if CanMoveEarly(start, j, horizon) {
      var steps: seq<T.Step<J>> :|
        IsRun(Init(start, 1), steps) && T.OneCall(steps, j, start + horizon) && !NotEarly(After(Init(start, 1), steps));
      var a0 := T.Init<J>(start, 1);
      OneCallRefines(start, steps);
      assert forall i | 0 <= i < |steps[1..]| :: steps[1..][i] == steps[i + 1];
      T.NoCallIsNear(T.Apply(a0, steps[0]), steps[1..]);
      T.NearAfter(a0, steps);
    }
  }

  /** The head is due, or will be, and the timer thread does not look in time. */
  ghost predicate Stalled<J>(s: Links<J>) {
    s.first.Some? && (s.thread.Ended? || !SleepsInTime(s))
  }

  /** A job asked for `ago` seconds in the past stalls within `delay` seconds. */
  ghost predicate CanStall<J(!new)>(start: int, j: J, ago: nat, delay: nat) {
    exists steps: seq<T.Step<J>> ::
      && IsRun(Init(start, 1), steps) && T.OneCall(steps, j, start - ago)
      && After(Init(start, 1), steps).now <= start + delay && Stalled(After(Init(start, 1), steps))
  }

  lemma WrapStalls<J(!new)>(start: int, j: J, ago: nat, delay: nat, late: int)
    requires ago <= late <= ago + delay && T.Wraps(late)
    ensures CanStall(start, j, ago, delay)
  {
    var steps, s := CallAndTurn(start, j, start - ago, late - ago, 0);
    T.Int32Late(late);
    assert (start - ago) - (start + (late - ago)) == -late;
    T.SleepBound(s.now, 0, T.Int32(-late));
    assert Stalled(After(Init(start, 1), steps));
  }

  /** A job asked for in the past can be overslept, or end the timer thread, exactly when
      its lateness at some turn, modulo 2^32, is more than 2^31 seconds; without delay,
      exactly when the time it was asked for is. */
  lemma StallExact<J(!new)>(start: int, j: J, ago: nat, delay: nat)
    ensures CanStall(start, j, ago, delay) <==> T.WrapsWithin(ago, ago + delay)
    ensures CanStall(start, j, ago, 0) <==> ago % T.TWO32 > T.TWO31
  {
    StallWithin(start, j, ago, delay);
    StallWithin(start, j, ago, 0);
    assert T.Wraps(ago) ==> T.WrapsWithin(ago, ago);
  }

  lemma StallWithin<J(!new)>(start: int, j: J, ago: nat, delay: nat)
    ensures CanStall(start, j, ago, delay) <==> T.WrapsWithin(ago, ago + delay)
  {
    if T.WrapsWithin(ago, ago + delay) {
      var late: int :| ago <= late <= ago + delay && T.Wraps(late);
      WrapStalls(start, j, ago, delay, late);
    }
    if CanStall(start, j, ago, delay) {
      var steps: seq<T.Step<J>> :|
        && IsRun(Init(start, 1), steps) && T.OneCall(steps, j, start - ago)
        && After(Init(start, 1), steps).now <= start + delay && Stalled(After(Init(start, 1), steps));
      OneCallRefines(start, steps);
      T.StallsByWrapAfter(T.Init(start, 1), steps, start - ago, ago);
      var s := After(Init(start, 1), steps);
      var late: int :| ago <= late <= s.now - (start - ago) && T.Wraps(late);
    }
  }

  /** A job asked for `horizon` seconds ahead ends the timer thread, not being more than
      2^31 seconds late itself. */
  ghost predicate CanEnd<J(!new)>(start: int, j: J, horizon: nat) {
    exists steps: seq<T.Step<J>> ::
      && IsRun(Init(start, 1), steps) && T.OneCall(steps, j, start + horizon)
      && After(Init(start, 1), steps).now <= start + horizon + T.TWO31 && After(Init(start, 1), steps).thread.Ended?
  }

  /** A job can end the timer thread with the exception of a failed wait if and only if
      it is asked for 2149632 seconds (24.9 days) or more ahead. */
  lemma EndExact<J(!new)>(start: int, j: J, horizon: nat)
    ensures CanEnd(start, j, horizon) <==> horizon >= T.FAILS_FROM
  {
    if horizon >= T.FAILS_FROM {
      var steps, s := CallAndTurn(start, j, start + horizon, horizon - T.FAILS_FROM, 0);
      T.WaitFails(s.now, 0);
      T.Int32Is(T.FAILS_FROM, 0, T.FAILS_FROM);
      assert (start + horizon) - (start + (horizon - T.FAILS_FROM)) == T.FAILS_FROM;
      assert After(Init(start, 1), steps).thread.Ended?;
    } else if CanEnd(start, j, horizon) {
      var steps: seq<T.Step<J>> :|
        && IsRun(Init(start, 1), steps) && T.OneCall(steps, j, start + horizon)
        && After(Init(start, 1), steps).now <= start + horizon + T.TWO31 && After(Init(start, 1), steps).thread.Ended?;
      OneCallRefines(start, steps);
      T.StaysAlive(T.Init(start, 1), steps, start + horizon);
    }
  }

  // ---------------------------------------------------------------------
  // Runs with a race

  /** Two callers past Cancel for one job, the first of which has stored its time. */
  lemma DoRace<J>(s0: Links<J>, run: seq<T.Step<J>>, s: Links<J>, j: J, time: int, other: int)
      returns (run': seq<T.Step<J>>, s': Links<J>)
    requires Leads(s0, run, s) && !s.stuck && |s.callers| >= 2 && s.callers[0].Out? && s.callers[1].Out?
    requires Spot(s, TheJob(j)).Some? && Spot(s, TheJob(j)).value.1.None? && j !in s.nodes && j !in s.owed
    ensures Leads(s0, run', s') && (NoneOverdue(s0, run) ==> NoneOverdue(s0, run'))
    ensures s' == s.(callers := s.callers[0 := T.Stored(j, time)][1 := T.Begun(j, other)],
                     nodes := s.nodes[j := Node(None, time, 0)])
  {
    var s1, s2;
    run', s1 := Go(s0, run, s, T.Begin(0, j, time));
    assert s1 == s.(callers := s.callers[0 := T.Begun(j, time)]);
    SpotSame(s, s1, TheJob(j));
    run', s2 := Go(s0, run', s1, T.Begin(1, j, other));
    assert s2 == s1.(callers := s1.callers[1 := T.Begun(j, other)]);
    run', s' := Go(s0, run', s2, T.Store(0));
    assert s'.callers == s.callers[0 := T.Stored(j, time)][1 := T.Begun(j, other)];
  }

  /** One of the callers overwrites the time under which the other has inserted the job: it
      stands behind a job due later, though each is linked once. */
  lemma RaceDisorders<J(!new)>(start: int, j: J, k: J) returns (run: seq<T.Step<J>>, s: Links<J>)
    requires j != k
    ensures Leads(Init(start, 3), run, s)
    ensures Intact(s) && !Queued(s)
    ensures s.first == Some(k) && Get(s.nodes, k).next == Some(j) && Get(s.nodes, k).time > Get(s.nodes, j).time
  {
    var s0 := Init<J>(start, 3);
    assert Leads(s0, [], s0);
    run, s := DoSchedule(s0, [], s0, 2, k, start + 80);
    OneSearch(s, TheJob(j));
    run, s := DoRace(s0, run, s, j, start + 100, start + 50);
    OneSearch(s, DueAfter(start + 100));
    run, s := Go(s0, run, s, T.Insert(0));
    run, s := Go(s0, run, s, T.Store(1));
    OutOfOrder(s, j, k);
  }

  lemma OutOfOrder<J(!new)>(s: Links<J>, j: J, k: J)
    requires j != k && !s.stuck && s.first == Some(k) && s.owed == {k, j}
    requires Get(s.nodes, k).next == Some(j) && Get(s.nodes, j).next.None?
        && Get(s.nodes, k).time > Get(s.nodes, j).time
    ensures Intact(s) && !Queued(s)
  {
    var q := [Entry(k, 0, 0), Entry(j, 0, 0)];
    assert Has(q, k) by { assert q[0].job == k; }
    assert Has(q, j) by { assert q[1].job == j; }
    assert Chain(s.first, s.nodes, q) && Unique(q) && Owes(s.owed, q);
    forall r: seq<Entry<J>> | Lists(s, r) ensures !Ordered(r) {
      assert r[0].job == k && r[1].job == j;
      assert !Before(r[0], r[1]);
    }
  }

  /** The first caller's insertion, and the timer thread asleep until then. */
  lemma RaceSleeps<J>(start: int, j: J) returns (run: seq<T.Step<J>>, s: Links<J>)
    ensures Leads(Init(start, 2), run, s) && NoneOverdue(Init(start, 2), run)
    ensures s.first == Some(j) && Get(s.nodes, j).next.None? && !s.stuck
    ensures s.thread == T.Asleep(start + 100, 0, false) && |s.callers| == 2 && s.callers[1] == T.Begun(j, start + 50)
  {
    var s0 := Init<J>(start, 2);
    assert Leads(s0, [], s0) && NoneOverdue(s0, []);
    EmptySearch(s0, TheJob(j));
    run, s := DoRace(s0, [], s0, j, start + 100, start + 50);
    EmptySearch(s, DueAfter(start + 100));
    run, s := Go(s0, run, s, T.Insert(0));
    T.Int32Is(100, 0, 100);
    T.Int32Is(100 * 1000, 0, 100000);
    run, s := Go(s0, run, s, T.Turn(0, 0));
  }

  /** The second caller asks for an earlier time than the timer thread sleeps to, passes the
      job itself in its search, and wakes nobody; the job follows itself. */
  lemma RaceOversleeps<J>(start: int, j: J) returns (run: seq<T.Step<J>>, s: Links<J>)
    ensures Leads(Init(start, 2), run, s) && NoneOverdue(Init(start, 2), run)
    ensures s.first == Some(j) && Get(s.nodes, j).next == Some(j) && Get(s.nodes, j).time == start + 50
    ensures s.thread == T.Asleep(start + 100, 0, false) && !SleepsInTime(s) && !s.stuck
  {
    var s0 := Init<J>(start, 2);
    run, s := RaceSleeps(start, j);
    run, s := Go(s0, run, s, T.Store(1));
    OneSearch(s, DueAfter(start + 50));
    run, s := Go(s0, run, s, T.Insert(1));
  }

  /** A search for another job then never ends. */
  lemma {:induction false} LoopNeverEnds<J>(nodes: map<J, Node<J>>, pp: Option<J>, j: J, want: Want<J>, n: nat)
    requires Get(nodes, j).next == Some(j) && !Stops(nodes, want, j)
    ensures Walk(nodes, pp, Some(j), want, n).None?
    decreases n
  {
    if n > 0 {
      LoopNeverEnds(nodes, Some(j), j, want, n - 1);
    }
  }

  /** After that run cancelling any other job holds TimerMutex for ever. */
  lemma RaceSticks<J>(start: int, j: J, k: J) returns (run: seq<T.Step<J>>, s: Links<J>)
    requires j != k
    ensures Leads(Init(start, 2), run, s) && s.stuck
  {
    run, s := RaceOversleeps(start, j);
    forall n: nat ensures Walk(s.nodes, None, s.first, TheJob(k), n).None? {
      LoopNeverEnds(s.nodes, None, j, TheJob(k), n);
    }
    run, s := Go(Init(start, 2), run, s, T.Cancel(k));
  }
}
