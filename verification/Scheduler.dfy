/**
 The scheduler object (XrdScheduler.cc): its two queues and its counters, updated
 in place. One method per lock hold; each is proved to do to the abstract state
 what SchedulerCore and TimerSpec say, so the interleavings of SchedulerRuns and
 TimerRuns are those of these methods.
 */
module Scheduler {
  import opened SchedulerCore
  import opened JobQueues
  import TimerSpec
  import TimerRuns

  class XrdScheduler {
    const queue: WorkQueue       // WorkFirst, WorkLast
    const timers: TimerQueue     // TimerQueue, TimerRings
    var workAvail: nat
    var numJobsinQ: int
    var numJobs: int
    var maxQLength: int
    var idlWorkers: int
    var numWorkers: int
    var numLayoffs: int
    var minWorkers: int
    var maxWorkers: int
    var numTCreate: int
    var numTDestroy: int
    var numLimited: int

    /** The two queues are separate chains. */
    ghost predicate Valid()
      reads this, queue, timers, queue.jobs, timers.jobs
    {
      && queue.Valid() && timers.Valid()
      && Apart(queue.jobs, timers.jobs)
    }

    ghost function State(): Core<Job>
      reads this, queue
    {
      Core(queue.jobs, workAvail, numJobsinQ, numJobs, maxQLength, idlWorkers, numWorkers,
           numLayoffs, minWorkers, maxWorkers, numTCreate, numTDestroy, numLimited)
    }

    constructor (minw: int, maxw: int)
      ensures Valid() && fresh(queue) && fresh(timers)
      ensures State() == Init(minw, maxw) && timers.times == []
    {
      queue := new WorkQueue();
      timers := new TimerQueue();
      workAvail := 0;
      numJobsinQ, numJobs, maxQLength := 0, 0, 0;
      idlWorkers, numWorkers, numLayoffs := 0, 0, 0;
      minWorkers, maxWorkers := minw, maxw;
      numTCreate, numTDestroy, numLimited := 0, 0, 0;
    }

    /** Schedule(jp). The caller owns jp: it is in neither queue. */
    method Schedule(jp: Job)
      requires Valid()
      requires jp !in queue.jobs && jp !in timers.jobs
      modifies this, queue, jp, queue.last
      ensures Valid()
      ensures State() == Scheduled(old(State()), jp)
      ensures queue.jobs == old(queue.jobs) + [jp] && workAvail == old(workAvail) + 1
    {
      ApartAppend(queue.jobs, [jp], timers.jobs);
      queue.Append(jp);
      workAvail := workAvail + 1;
      numJobs := numJobs + 1;
      numJobsinQ := numJobsinQ + 1;
      if numJobsinQ > maxQLength {
        maxQLength := numJobsinQ;
      }
    }

    /** Schedule(numjobs, jfirst, jlast) on the caller's chain js. */
    method ScheduleBatch(numjobs: nat, jfirst: Job, jlast: Job, ghost js: seq<Job>)
      requires Valid()
      requires js != [] && Links(js) && Distinct(js) && jfirst == js[0] && jlast == js[|js| - 1] && numjobs == |js|
      requires Apart(js, queue.jobs) && Apart(js, timers.jobs)
      modifies this, queue, jlast, queue.last
      ensures Valid()
      ensures State() == BatchScheduled(old(State()), js)
      ensures queue.jobs == old(queue.jobs) + js && workAvail == old(workAvail) + numjobs
    {
      ApartAppend(queue.jobs, js, timers.jobs);
      queue.AppendChain(jfirst, jlast, js);
      numJobs := numJobs + numjobs;
      numJobsinQ := numJobsinQ + numjobs;
      if numJobsinQ > maxQLength {
        maxQLength := numJobsinQ;
      }
      Post(numjobs);
    }

    /** `while(n--) WorkAvail.Post();` */
    method Post(n: nat)
      modifies `workAvail
      ensures workAvail == old(workAvail) + n
    {
      var left: nat := n;
      while left != 0
        invariant left <= n && workAvail == old(workAvail) + (n - left)
        decreases left
      {
        workAvail := workAvail + 1;
        left := left - 1;
      }
    }

    /** Run, before WorkAvail.Wait(). */
    method EnterIdle()
      modifies `idlWorkers
      ensures State() == IdleEntered(old(State()))
    {
      idlWorkers := idlWorkers + 1;
    }

    /** Run, after WorkAvail.Wait(). */
    method LeaveIdle() returns (waiting: int)
      modifies `idlWorkers
      ensures State() == IdleLeft(old(State())) && waiting == State().idle
    {
      idlWorkers := idlWorkers - 1;
      waiting := idlWorkers;
    }

    /** The SchedMutex section of Run: jp is the job handed out, `leave` tells the
        worker to end. */
    method TakeWork(waiting: int) returns (jp: Job?, leave: bool)
      requires Valid()
      modifies this, queue
      ensures Valid()
      ensures State() == WorkTaken(old(State()), waiting)
      ensures match Outcome(old(State()), waiting)
              case Job(j) => jp == j && !leave
              case Retry => jp == null && !leave
              case LaidOff => jp == null && leave
      ensures old(queue.jobs) != [] ==>
                jp != null && old(queue.jobs) == [jp] + queue.jobs && numLayoffs == old(numLayoffs)
      ensures old(queue.jobs) == [] ==> jp == null && queue.jobs == []
      ensures leave <==> old(queue.jobs) == [] && old(numLayoffs) > 0 && waiting != 0
      ensures old(queue.jobs) == [] && old(numLayoffs) > 0 ==> numLayoffs == old(numLayoffs) - 1
      ensures numWorkers == old(numWorkers) - (if leave then 1 else 0)
    {
      leave := false;
      jp := queue.PopFirst();
      if jp != null {
        if numJobsinQ != 0 {
          numJobsinQ := numJobsinQ - 1;
        }
      } else {
        numJobsinQ := 0;
        if numLayoffs > 0 {
          numLayoffs := numLayoffs - 1;
          if waiting != 0 {
            numTDestroy := numTDestroy + 1;
            numWorkers := numWorkers - 1;
            leave := true;
          }
        }
      }
    }

    /** hireWorker up to the thread creation. */
    method ReserveWorker() returns (start: bool)
      modifies this
      ensures State() == HireReserved(old(State())) && start == MayHire(old(State()))
      ensures start <==> old(numWorkers) < maxWorkers
      ensures numWorkers - old(numWorkers) == numTCreate - old(numTCreate) == if start then 1 else 0
      ensures numLimited - old(numLimited) == if start then 0 else 1
    {
      if numWorkers >= maxWorkers {
        numLimited := numLimited + 1;
        return false;
      }
      numWorkers := numWorkers + 1;
      numTCreate := numTCreate + 1;
      return true;
    }

    /** hireWorker after the thread could not be created. */
    method ReviseLimits()
      modifies this
      ensures State() == HireFailed(old(State()))
    {
      numWorkers := numWorkers - 1;
      numTDestroy := numTDestroy + 1;
      maxWorkers := numWorkers;
      minWorkers := if Tenth(maxWorkers) != 0 then Tenth(maxWorkers) else 1;
    }

    /** DoIt from the sampled idle count on. */
    method SetLayoffs(numIdle: int)
      modifies `numLayoffs, `workAvail
      ensures State() == LaidOffSet(old(State()), numIdle)
      ensures var over := numIdle - minWorkers;
              && (over <= 0 ==> numLayoffs == old(numLayoffs) && workAvail == old(workAvail))
              && (over == 1 ==> numLayoffs == 1)
              && (over > 1 ==> 2 * numLayoffs <= over < 2 * numLayoffs + 2)
              && (over > 0 ==> workAvail == old(workAvail) + numLayoffs)
    {
      var numKill := numIdle - minWorkers;
      if numKill > 0 {
        if numKill > 1 {
          numKill := numKill / 2;
        }
        numLayoffs := numKill;
        Post(numKill);
      }
    }

    /** Schedule(jp, atime). */
    method ScheduleAt(jp: Job, atime: int)
      requires Valid() && jp !in queue.jobs
      modifies timers, timers.jobs, jp
      ensures Valid()
      ensures State() == old(State())
      ensures var rest := TimerSpec.Cancelled(old(timers.times), jp);
              && timers.times == TimerSpec.Inserted(rest, TimerSpec.Entry(jp, atime, old(timers.arrivals)))
              && timers.signalled == (old(timers.signalled) || TimerSpec.Passed(rest, atime) == 0)
    {
      timers.Cancel(jp);
      ApartPut(queue.jobs, timers.jobs, TimerSpec.Passed(timers.times, atime), jp);
      timers.Insert(jp, atime);
    }

    /** One turn of TimeSched at the given time: the seconds to wait, or the move of
        the head job to the work queue. */
    method TimeSchedTurn(now: int) returns (wtime: int)
      requires Valid()
      modifies this, queue, queue.last, timers, timers.jobs
      ensures Valid()
      ensures old(timers.times) == [] ==> wtime == TimerRuns.IDLE_WAIT
      ensures old(timers.times) != [] ==> wtime == TimerRuns.Int32(old(timers.times)[0].time - now)
      ensures wtime > 0 ==> State() == old(State()) && timers.times == old(timers.times)
      ensures wtime <= 0 ==>
                && State() == Scheduled(old(State()), old(timers.times)[0].job)
                && timers.times == old(timers.times)[1..]
    {
      if timers.first != null {
        assert timers.times[0].job == timers.first;
        wtime := TimerRuns.Int32(timers.first.schedTime - now);
      } else {
        wtime := TimerRuns.IDLE_WAIT;
      }
      if wtime <= 0 {
        var jp := timers.PopHead();
        Schedule(jp);
      }
    }
  }
}
