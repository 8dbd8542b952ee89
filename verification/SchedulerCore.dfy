/**
 The worker-pool scheduler's shared data and what each of its critical sections
 does to them (XrdScheduler.cc). One function per lock hold or semaphore
 operation: the imperative scheduler is proved against these functions, and the
 interleaving model steps with them.
 */
module SchedulerCore {

  /** The fields guarded by SchedMutex and DispatchMutex plus the semaphore.
      `queue` is the chain WorkFirst .. WorkLast. */
  datatype Core<J> = Core(
    queue: seq<J>,
    permits: nat,       // value of the WorkAvail semaphore
    jobsInQ: int,
    numJobs: int,
    maxQLength: int,
    idle: int,
    workers: int,
    layoffs: int,
    minWorkers: int,
    maxWorkers: int,
    created: int,
    destroyed: int,
    limited: int)

  datatype Taken<J> = Job(job: J) | Retry | LaidOff

  function Max(a: int, b: int): int {
    if a > b then a else b
  }

  function Init<J>(minWorkers: int, maxWorkers: int): Core<J> {
    Core([], 0, 0, 0, 0, 0, 0, 0, minWorkers, maxWorkers, 0, 0, 0)
  }

  /** Schedule(jp): append, post once, count. */
  function Scheduled<J>(c: Core<J>, j: J): Core<J> {
    c.(queue := c.queue + [j],
       permits := c.permits + 1,
       numJobs := c.numJobs + 1,
       jobsInQ := c.jobsInQ + 1,
       maxQLength := Max(c.maxQLength, c.jobsInQ + 1))
  }

  /** Schedule(numjobs, jfirst, jlast) on a chain of exactly numjobs jobs. */
  function BatchScheduled<J>(c: Core<J>, js: seq<J>): Core<J> {
    c.(queue := c.queue + js,
       permits := c.permits + |js|,
       numJobs := c.numJobs + |js|,
       jobsInQ := c.jobsInQ + |js|,
       maxQLength := Max(c.maxQLength, c.jobsInQ + |js|))
  }

  function IdleEntered<J>(c: Core<J>): Core<J> {
    c.(idle := c.idle + 1)
  }

  function PermitTaken<J>(c: Core<J>): Core<J>
    requires c.permits > 0
  {
    c.(permits := c.permits - 1)
  }

  function IdleLeft<J>(c: Core<J>): Core<J> {
    c.(idle := c.idle - 1)
  }

  /** What the SchedMutex section of Run hands to a woken worker. */
  function Outcome<J>(c: Core<J>, waiting: int): Taken<J> {
    if c.queue != [] then Job(c.queue[0])
    else if c.layoffs > 0 && waiting != 0 then LaidOff
    else Retry
  }

  /** The SchedMutex section of Run. */
  function WorkTaken<J>(c: Core<J>, waiting: int): Core<J> {
    if c.queue != [] then
      c.(queue := c.queue[1..], jobsInQ := if c.jobsInQ != 0 then c.jobsInQ - 1 else 0)
    else if c.layoffs > 0 then
      if waiting != 0 then
        c.(jobsInQ := 0, layoffs := c.layoffs - 1, destroyed := c.destroyed + 1, workers := c.workers - 1)
      else
        c.(jobsInQ := 0, layoffs := c.layoffs - 1)
    else
      c.(jobsInQ := 0)
  }

  predicate MayHire<J>(c: Core<J>) {
    c.workers < c.maxWorkers
  }

  /** First section of hireWorker. */
  function HireReserved<J>(c: Core<J>): Core<J> {
    if MayHire(c) then c.(workers := c.workers + 1, created := c.created + 1)
    else c.(limited := c.limited + 1)
  }

  /** Last section of hireWorker when the thread could not be started: the
      limits are recomputed from the number of threads that do exist. */
  function HireFailed<J>(c: Core<J>): (r: Core<J>)
    ensures r.workers == r.maxWorkers == c.workers - 1 && r.created - r.destroyed == c.created - c.destroyed - 1
    ensures c.workers > 0 ==>
              r.minWorkers >= 1 && (r.minWorkers == 1 || 10 * r.minWorkers <= r.maxWorkers)
                  && r.maxWorkers < 10 * r.minWorkers + 10
  {
    var n := c.workers - 1;
    c.(workers := n, destroyed := c.destroyed + 1, maxWorkers := n,
       minWorkers := if Tenth(n) != 0 then Tenth(n) else 1)
  }

  /** C division by ten, truncating toward zero. */
  function Tenth(n: int): int {
    if n >= 0 then n / 10 else -((-n) / 10)
  }

  /** How many idle threads DoIt decides to release: half of those above the minimum, a
      single one whole. */
  function KillCount(idle: int, minWorkers: int): (kill: int)
    ensures idle - minWorkers <= 1 ==> kill == idle - minWorkers
    ensures idle - minWorkers > 1 ==> 2 * kill <= idle - minWorkers < 2 * kill + 2
  {
    var n := idle - minWorkers;
    if n > 1 then n / 2 else n
  }

  /** DoIt's SchedMutex section: the layoff count is overwritten, not added to. */
  function LaidOffSet<J>(c: Core<J>, sampledIdle: int): Core<J> {
    var kill := KillCount(sampledIdle, c.minWorkers);
    if kill > 0 then c.(layoffs := kill, permits := c.permits + kill) else c
  }
}
