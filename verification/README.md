# Models of XRootD's server core

This project models stateful parts of XRootD's server framework (`src/Xrd`) in Dafny
and proves what they keep over whole runs, with two small codecs beside them.

* **Worker pool** (`SchedulerCore`, `SchedulerRuns`, `DrainRuns`, `LayoffRuns`,
  `SpareRuns`, `TimerSpec`, `TimerRuns`, `TimerLinks`, `TimerFates`, `JobQueues`,
  `Scheduler`). One pure function per critical section or semaphore operation; machines
  whose threads have program counters and step through them in any order, the timer's
  over the links of the jobs themselves; and the scheduler object itself, with intrusive
  linked queues, whose methods are proved to do what those functions say.
* **Link lifetime** (`LinkUse`, `LinkTable`, `LinkRuns`, `LinkLeaks`, `LinkCtl`,
  `LinkTour`). The use count and its semaphore, the table of links with its watermark and
  instance numbers, Alloc, Close and Find interleaved lock hold by lock hold, and the
  table object over arrays.
* **Buffer pool** (`BufferSizes`, `BufferPool`, `Rounding`, `BufferManager`). Size classes, two
  tiers of free lists with their totals, the request profile, the reshaper and the
  trimmer. A client sees a set of buffers in hands; every method says what it does to it.
* **Monitor registry** (`MonItems`, `MonTrees`, `MonMeaning`, `MonJson`, `MonXml`,
  `Lexing`, `MonJsonText`, `MonXmlText`, `MonPrint`, `MonReport`, `MonLocks`). The
  validator, the trees and lock traces that registered vectors mean, the JSON and XML
  printers over a bounded buffer, and readers that take the printed characters back to
  tokens and the tokens back to the tree.
* **Gather send** (`GatherSend`). The resumable write loops against any script of short
  writes, interruptions and errors.
* **Codecs** (`LineReader`, `FattrCodec`). Chunked line reading of the Python binding
  and the file attribute vectors.

Each module of runs has one step per lock hold, so its theorems are about every
interleaving. The classes hold the same sections as methods over arrays and linked
objects, each proved equal to the function the runs step with.

Findings where the code does less than one might expect, each with a run or a condition
proved here:

* `int wtime` in TimeSched truncates: a job due 2^31 seconds or more ahead can be moved
  at once, and only such a job (`TimerLinks.EarlyMoveExact`); one that is late by more
  than 2^31 seconds, modulo 2^32, can be overslept, and only such a job
  (`TimerLinks.StallExact`). WaitMS multiplies in 32 bits: a job due 2149632 seconds or
  more ahead can end the timer thread with an exception (`TimerLinks.EndExact`). What
  passes between the two looks at the clock is overslept (`TimerLinks.LateExact`).
* Timed Schedule releases TimerMutex between its Cancel and its insertion, and stores the
  time with no lock held: two callers for one job can put the queue out of order, let the
  thread oversleep, or close the list into a loop in which every later search
  runs for ever (`TimerLinks.IntactExact`, `TimerLinks.RaceDisorders`,
  `TimerLinks.RaceOversleeps`, `TimerLinks.RaceSticks`).
* The idle count DoIt samples may be out of date when it sets the layoffs; with more than
  two threads ending in between the minimum can be undercut, though the pool never empties
  (`LayoffRuns.DecisionBoundExact`, `SchedulerRuns.PoolNeverEmpties`).
* Find may return a link whose instance it read as 0, and then its next call can drop a
  reference that protects somebody else; a first call with cursor 0 can do the same, and
  so can a reference taken after Close has passed its gate and dropped on the next
  connection (`LinkUse.LateReference`, `LinkRuns.FindGuardExact`).
* Find keeps the count it has raised on a link that was given to another connection
  between its look at it and its setRef: that connection is never closed
  (`LinkLeaks.FindLeaks`, `LinkLeaks.LeakedNeverCloses`).
* A thread in Serialize can be let through by a permit posted for an earlier waiter, while
  another thread uses the link all the time (`LinkUse.WaitExact`, `LinkUse.PermitTaken`).
* Validate never answers false, whatever it logs, contrary to
  src/Xrd/XrdMonRoll.hh:217-223, so nil keys and nil texts can reach the printers
  (`MonItems.Validate`, `MonReport.PrintableExact`).
* The printers escape nothing: `MonReport.JsonReport` and `MonReport.XmlReport` say
  exactly when the output can be read back.
* FormXML gives up on a set with an empty text value, and either printer that gives up
  leaves locked the mutexes it has locked, which is harmless only if nothing is printed
  under a lock (`MonPrint.FormXML`, `MonLocks.XmlLeavesNothing`).

Semaphores are counters; thread creation, the clock, memory, write lengths and read
lengths are parameters or scripts that range over everything they may do.

## Model

| member | source | states |
|---|---|---|
| SchedulerRuns.JobsInOrder | src/Xrd/XrdScheduler.cc:332-438 | in every interleaving of Schedule calls and workers, jobs are handed out in the order they were scheduled, none twice and none skipped; `num_JobsinQ`, `num_Jobs` and `max_QLength` are exact, so the underflow message is dead code |
| SchedulerRuns.NoWakeupLost | src/Xrd/XrdScheduler.cc:332-438 | in every run, permits plus workers woken but not yet through SchedMutex cover the queue and the outstanding layoffs; with everybody asleep each queued job has its permit |
| SchedulerRuns.PoolNeverEmpties | src/Xrd/XrdScheduler.cc:339-360 | once a worker exists, every continuation of every run has a worker that is not about to be laid off |
| SchedulerRuns.NoStuckState | src/Xrd/XrdScheduler.cc:332-370 | from any state of any run with a worker, the workers alone can bring every queued job to a dispatch, in order: a run that does so is constructed |
| SpareRuns.PoolHasSpare | src/Xrd/XrdScheduler.cc:362-366 | in every run in which no hire was refused and every thread could be started, once a worker exists one is free to take the next job, or on its way there: the worker that leaves none waiting and gets a job hires first |
| SpareRuns.RefusedAtLimit | src/Xrd/XrdScheduler.cc:710-720 | in every run a hire is refused if and only if the workers have reached the maximum, and counted either way |
| DrainRuns.DrainBound | src/Xrd/XrdScheduler.cc:332-370 | in every continuation of every run the steps of workers and Start (DoIt looking at an empty queue left out) number at most a potential of the state plus eight for each job scheduled since; and while a job is queued and a worker exists, such a step can be taken |
| DrainRuns.FairDrain | src/Xrd/XrdScheduler.cc:332-370 | so every schedule of the threads that goes on until none of them can, with nothing scheduled meanwhile, has handed out every queued job in order, within that number of steps |
| DrainRuns.InnerUses | src/Xrd/XrdScheduler.cc:332-370 | each such step uses up potential: permits, threads to be started and layoffs to be decided all count |
| SchedulerRuns.LayoffsLeaveMinimum | src/Xrd/XrdScheduler.cc:218-240 | in every run the counters of workers and of idle workers are exact and within the maximum; while no thread creation failed, outstanding layoffs leave at least min_Workers + 1 threads, less those that ended between the last idle sample and its decision |
| LayoffRuns.PromptLeavesMore | src/Xrd/XrdScheduler.cc:218-240 | when no thread ends between a sample and its decision, outstanding layoffs leave more than the minimum |
| LayoffRuns.PunctualLeavesMinimum | src/Xrd/XrdScheduler.cc:218-240 | when at most two threads end in each such window they leave the minimum: the halving in DoIt makes up for two |
| LayoffRuns.LateDecisions | src/Xrd/XrdScheduler.cc:224-235 | a run of the code (minimum 2, nine threads, one idle check at a time, never more than three late) that ends with two threads and a layoff outstanding |
| LayoffRuns.DecisionBoundExact | src/Xrd/XrdScheduler.cc:224-235 | for every k: layoffs leave the minimum in all runs with at most k threads ending between a sample and its decision if and only if k is at most 2 |
| SchedulerRuns.FifoKept | src/Xrd/XrdScheduler.cc:332-438 | every step keeps: scheduled jobs are the dispatched ones followed by the queue, and the statistics agree |
| SchedulerRuns.CoveredKept | src/Xrd/XrdScheduler.cc:332-438 | every step keeps permits plus woken workers at or above queue length plus layoffs |
| SchedulerRuns.CountersKept | src/Xrd/XrdScheduler.cc:339-360 | every step keeps the idle and worker counters equal to the numbers of threads they stand for |
| SchedulerRuns.KeptKept | src/Xrd/XrdScheduler.cc:341-357 | every step keeps a worker that cannot be laid off before it next waits: the `waiting` test leaves the one that was seen |
| SchedulerRuns.FloorKept | src/Xrd/XrdScheduler.cc:218-240 | every step keeps a sampled idle count below the threads that exist or have ended since |
| Scheduler.XrdScheduler.Schedule | src/Xrd/XrdScheduler.cc:376-403 | on the linked queue: the job is appended, one permit posted, the statistics updated, nothing else changed |
| Scheduler.XrdScheduler.ScheduleBatch | src/Xrd/XrdScheduler.cc:407-438 | a chain of exactly numjobs jobs is appended with one permit each |
| Scheduler.XrdScheduler.TakeWork | src/Xrd/XrdScheduler.cc:342-359 | the SchedMutex section of Run: the head job, a layoff, or neither, with all counters |
| Scheduler.XrdScheduler.ReserveWorker | src/Xrd/XrdScheduler.cc:710-720 | a thread is counted if the maximum allows |
| Scheduler.XrdScheduler.ReviseLimits | src/Xrd/XrdScheduler.cc:729-737 | a failed thread creation is uncounted and the limits recomputed from what exists |
| Scheduler.XrdScheduler.SetLayoffs | src/Xrd/XrdScheduler.cc:226-235 | half the surplus over the minimum, cut, or a surplus of one whole, is laid off with that many permits; the count is overwritten, not added to |
| Scheduler.XrdScheduler.ScheduleAt | src/Xrd/XrdScheduler.cc:442-471 | an earlier entry of the job is removed, the new one inserted in order, and the timer thread signalled exactly when it became the head |
| Scheduler.XrdScheduler.TimeSchedTurn | src/Xrd/XrdScheduler.cc:681-692 | the wait with its truncation to int, or the move of the head job to the work queue |
| SchedulerCore.HireFailed | src/Xrd/XrdScheduler.cc:729-737 | the limits after a failure: the maximum is the threads that exist, the minimum a tenth of them and at least one |
| JobQueues.WorkQueue.AppendChain | src/Xrd/XrdScheduler.cc:416-423 | the pointers of the chain and of WorkFirst/WorkLast make the queue followed by the chain |
| JobQueues.WorkQueue.PopFirst | src/Xrd/XrdScheduler.cc:343-344 | the head is unlinked; WorkLast is cleared with the last job |
| JobQueues.TimerQueue.Cancel | src/Xrd/XrdScheduler.cc:188-212 | the pointer surgery removes exactly the job, or nothing when it is not queued |
| JobQueues.TimerQueue.Insert | src/Xrd/XrdScheduler.cc:457-466 | the pointer surgery inserts behind every entry due no later, and signals exactly at the head |
| TimerSpec.InsertKeepsOrder | src/Xrd/XrdScheduler.cc:457-466 | insertion keeps the queue in due order with ties in arrival order, for any time |
| TimerSpec.InsertKeepsUnique | src/Xrd/XrdScheduler.cc:448-466 | a job that is not queued is queued once |
| TimerSpec.CancelRemovesOne | src/Xrd/XrdScheduler.cc:198-207 | Cancel leaves every other entry, removes the job, and keeps order and uniqueness |
| TimerSpec.CancelUndoesInsert | src/Xrd/XrdScheduler.cc:188-212 | cancelling what was just inserted gives the queue back |
| TimerLinks.TimerOrderAndWakeup | src/Xrd/XrdScheduler.cc:442-471 | in every interleaving of the timer thread, callers (each with Cancel, the unlocked store of SchedTime, and the insertion) and the clock in which no two callers race for one job: the links are a list in due order of exactly the jobs that should be queued, each once, and an unsignalled sleep ends no later than the head is due plus what passed between the two looks at the clock, if no turn finds the head more than 2^31 s overdue |
| TimerLinks.LateExact | src/Xrd/XrdScheduler.cc:681-686 | for all k and d: turns of at most k seconds between time(0) and gettimeofday oversleep by at most d seconds in every such run if and only if k is at most d |
| TimerLinks.Refines | src/Xrd/XrdScheduler.cc:442-471 | a run on the jobs' links without a race does step by step what the sorted list does |
| TimerLinks.IntactExact | src/Xrd/XrdScheduler.cc:442-471 | for every run: every way its callers can go on leaves the links a list of exactly the jobs that should be queued, each once, if and only if no two callers were ever between Cancel and insertion for one job |
| TimerFates.NothingLost | src/Xrd/XrdScheduler.cc:442-471 | in every run without a race each insertion is exactly one of: still on the links, taken off by a call for the same job (Cancel or a later Schedule), or taken off by the timer thread; what that thread takes off is what the work queue gets, in the same order and with its job and time; and entries queued together leave in due order, ties in the order of insertion |
| TimerFates.ExactlyOne | src/Xrd/XrdScheduler.cc:442-471 | so the insertions made are as many as are queued, cancelled and handed over, and each is in one place once |
| TimerLinks.TurnExact | src/Xrd/XrdScheduler.cc:681-692 | a turn unlinks the head and hands it to the work queue if and only if it is due, when it is due less than 2^31 s from now or ago; otherwise it changes no link and sleeps |
| TimerLinks.RaceDisorders | src/Xrd/XrdScheduler.cc:454-466 | a run with a race that leaves a job behind one due later, because the other caller overwrote its SchedTime after it was queued |
| TimerLinks.RaceOversleeps | src/Xrd/XrdScheduler.cc:454-466 | a run with a race in which an earlier time is asked for and nobody signalled: the thread sleeps past it, and the job is linked to itself |
| TimerLinks.RaceSticks | src/Xrd/XrdScheduler.cc:195-198 | after that run cancelling any other job never ends, TimerMutex being held |
| JobQueues.InsertTwice | src/Xrd/XrdScheduler.cc:454-466 | on the objects: the second insertion of the only queued job links it to itself and signals nobody, whatever its time |
| TimerLinks.NoEarlyMove | src/Xrd/XrdScheduler.cc:682-690 | without a race no job is moved before its time when every time asked for is less than 2^31 s ahead |
| TimerLinks.EarlyMoveExact | src/Xrd/XrdScheduler.cc:682-690 | a single job can be moved early if and only if it is due 2^31 s or more ahead: `int wtime` truncates |
| TimerLinks.StallExact | src/Xrd/XrdScheduler.cc:682-690 | a single job asked for in the past can be overslept if and only if its lateness at some turn exceeds 2^31 s modulo 2^32; with no delay, if and only if that holds of the time asked for |
| TimerRuns.SleepBound | src/XrdSys/XrdSysPthread.cc:170-206 | a valid wait ends no later than asked, both products by 1000 being taken in 32 bits |
| TimerRuns.WaitHolds | src/XrdSys/XrdSysPthread.cc:170-206 | waits below 2149632 s are always valid, and those below 2147484 s end in the second asked for |
| TimerLinks.EndExact | src/XrdSys/XrdSysPthread.cc:170-206 | a single job can end the timer thread, by the exception of an invalid wait, if and only if it is due 2149632 s (24.9 days) or more ahead |
| LinkUse.RefSet | src/Xrd/XrdLink.cc:455-481 | the use count after setRef is never below one; every waiter is posted if the new count is exactly one, and nobody otherwise |
| LinkUse.RefSetKeepsCovered | src/Xrd/XrdLink.cc:455-481 | setRef keeps "a waiter implies another user" if and only if nobody waits or the new count is at least one |
| LinkUse.SerializeReleasesAll | src/Xrd/XrdLink.cc:372-387 | in every run of Serialize, setRef and Close, threads inside Serialize = doPost + permits, a waiter implies InUse > 1, InUse = 1 + references, and with no other reference every waiter has its permit |
| LinkUse.PostsOnlyWhenAlone | src/Xrd/XrdLink.cc:467-474 | in every run a step posts somebody only if it leaves the count at one and nobody still to be posted, and, while the link is not closed, no reference in any thread's hands |
| LinkUse.WaitExact | src/Xrd/XrdLink.cc:372-387 | a thread that has to wait in Serialize is let through, however the run goes on, only after a point at which the count was one (and, before closing, nobody held a reference), if and only if no permit posted for another was left untaken when it came |
| LinkUse.PermitTaken | src/Xrd/XrdLink.cc:372-387 | a run in which such a permit is there, so that the thread need not wait for one that uses the link |
| LinkUse.ClosedMeansUnreferenced | src/Xrd/XrdLinkXeq.cc:217-240 | in every run Close passes its gate if and only if no thread holds a reference; references taken later, which nothing prevents, are still counted up to one |
| LinkUse.LateReference | src/Xrd/XrdLinkXeq.cc:217-240 | a run in which a reference is held after the gate |
| LinkUse.RenewedExact | src/Xrd/XrdLinkInfo.hh:52-60 | in every run Reset for the next connection leaves every waiting thread its permit if and only if none was still to be posted; nobody is stranded while the link is open and unreferenced |
| LinkUse.LateWaiterStranded | src/Xrd/XrdLinkInfo.hh:52-60 | a run in which a thread that entered Serialize after Close is left without a permit by Reset |
| LinkUse.InvKept | src/Xrd/XrdLinkXeq.cc:217-240 | every step keeps these counts |
| LinkUse.LinkInfo.SetRef | src/Xrd/XrdLink.cc:455-481 | the posting loop releases all waiters and zeroes doPost when the count reaches one |
| LinkUse.LinkInfo.Serialize | src/Xrd/XrdLink.cc:372-387 | a thread counts itself and waits exactly when there is another user |
| LinkUse.LinkInfo.TryClose | src/Xrd/XrdLinkXeq.cc:217-240 | Close goes on exactly when nobody else uses the link, and zeroes the count |
| LinkUse.LinkInfo.Reset | src/Xrd/XrdLinkInfo.hh:52-60 | Reset restores count and doPost but leaves the semaphore alone |
| LinkTable.HookKeeps | src/Xrd/XrdLinkCtl.cc:125-151 | Alloc keeps the watermark, block and instance invariants, and overwrites no existing link |
| LinkTable.UnhookKeeps | src/Xrd/XrdLinkCtl.cc:392-401 | Unhook keeps them; the watermark falls to the highest slot in use |
| LinkTable.LoweredIsHighest | src/Xrd/XrdLinkCtl.cc:399 | the lowering loop stops at the highest used slot, or 0 |
| LinkTable.ChangesKeep | src/Xrd/XrdLinkCtl.cc:157-169 | issuing an instance, naming, counting and closing keep the invariants; no instance is in two slots |
| LinkTable.LookupExact | src/Xrd/XrdLinkCtl.hh:72-92 | fd2link gives a link if and only if the slot is in use, and with an instance if and only if the link carries it |
| LinkTable.CountsAgree | src/Xrd/XrdLink.cc:455-481 | setRef, the gate of Close and the reset in Alloc do to the table's use counts what they do to the link's |
| LinkRuns.TableSound | src/Xrd/XrdLinkCtl.cc:109-191 | in every interleaving the table is sound, and a non-zero instance is found only in the slot of the connection that was issued it |
| LinkRuns.LookupOnce | src/Xrd/XrdLinkCtl.hh:87-92 | if fd2link with one non-zero instance succeeds at two points of a run, it finds the same slot and no connection was hooked, numbered, closed or unhooked there in between |
| LinkRuns.NumbersNeverReused | src/Xrd/XrdLinkCtl.cc:157-169 | the instances a run issues rise strictly from the next number at its start |
| LinkRuns.FindProtects | src/Xrd/XrdLinkCtl.cc:202-238 | in every interleaving of Alloc, Close, Find and setRef by others at any time in which first cursors are negative, no link was returned on instance 0 and no Alloc reset the count of a link with references held, a link Find returned is the connection whose instance was read, in service, and cannot pass Close's gate; the last holds if no reference is taken on a link not in service |
| LinkRuns.LooseFinderUnprotects | src/Xrd/XrdLinkCtl.cc:223-227 | a run of the code: a link returned on instance 0 lets its finder drop another finder's reference, and that connection is closed under it |
| LinkRuns.StrayFinderUnprotects | src/Xrd/XrdLinkCtl.cc:197-213 | a run, with or without a test of instance 0: a first call with cursor 0 (which src/Xrd/XrdLinkCtl.hh:114 allows) drops another finder's reference to slot 0, and that connection is closed under it |
| LinkRuns.LateReferenceUnprotects | src/XrdXrootd/XrdXrootdResponse.cc:448-459 | a run with negative cursors, with or without a test of instance 0: a reference taken after Close's gate, as this caller of fd2link may do, is forgotten when the link is reset, its drop undoes a finder's, and the next connection is closed under the finder |
| LinkRuns.FindGuardExact | src/Xrd/XrdLinkCtl.cc:197-227 | every run protects what Find returned if and only if Find also refuses instance 0, first cursors are negative, and no reference is held while its link is given to the next connection: no two of these will do |
| LinkLeaks.UseExact | src/Xrd/XrdLinkCtl.cc:219-230 | in every run without these faults the use count of a link in service is exactly one for its owner, the other threads' references, the finders' references, and one for each time Find raised it having looked at an earlier connection of the slot; Close passes its gate if and only if all of them but the owner's are none |
| LinkLeaks.LeakedNeverCloses | src/Xrd/XrdLinkCtl.cc:219-230 | a connection whose count Find has so raised is never closed, however the run goes on without the faults |
| LinkLeaks.FindLeaks | src/Xrd/XrdLinkCtl.cc:219-230 | a run of the code that leaves an open link with a count of two and nobody holding a reference |
| LinkRuns.InvKept | src/Xrd/XrdLinkCtl.cc:109-238 | every section of Alloc, Close and Find keeps the table and the reference invariants |
| LinkCtl.XrdLinkCtl.Hook | src/Xrd/XrdLinkCtl.cc:125-151 | on the arrays: the block is filled or the link reset, the slot marked, the watermark raised |
| LinkCtl.XrdLinkCtl.FillBlock | src/Xrd/XrdLinkCtl.cc:136-147 | exactly the slots of the aligned block get new, distinct links |
| LinkCtl.XrdLinkCtl.Alloc | src/Xrd/XrdLinkCtl.cc:109-191 | a descriptor out of range or in use is refused and nothing changes; otherwise the slot is hooked, numbered and named |
| LinkCtl.XrdLinkCtl.Unhook | src/Xrd/XrdLinkCtl.cc:392-401 | on the arrays: the slot is freed and the watermark lowered |
| LinkCtl.XrdLinkCtl.Fd2LinkInstance | src/Xrd/XrdLinkCtl.hh:87-92 | the lookup in the arrays is that of the table |
| LinkCtl.XrdLinkCtl.Find | src/Xrd/XrdLinkCtl.cc:202-238 | uninterrupted, Find drops the cursor's reference and returns, with one more reference, the first link after it that is in use, has a host name and is accepted by the matcher; nothing if there is none up to the end |
| LinkTour.FindAll | src/XrdXrootd/XrdXrootdAdmin.cc:556-559 | a loop over Find meets every link that is in use, has a host name and is accepted, once, in the order of the descriptors, and gives every reference back |
| LinkCtl.BlockFits | src/Xrd/XrdLinkCtl.cc:144 | with a table of whole blocks, the aligned block lies inside it and consists of the slots with the same quotient |
| BufferSizes.Log2Exact | src/XrdOuc/XrdOucUtils.cc:938-947 | the shift cascade is floor(log2 n) for every 64-bit n > 0, and 0 for 0 |
| BufferSizes.InitExact | src/Xrd/XrdBuffXL.cc:64-93 | the largest big buffer is the least power of two (1 GB at most, 4 MB at least) that holds what was asked for, with one bucket per size |
| BufferSizes.RecalcExact | src/Xrd/XrdBuffer.cc:195-215 | over both tiers, for every Init and request: the least power of two not below the request and 1024, 0 outside 1..max; no index reaches the bucket count and nothing exceeds 1 GB |
| BufferSizes.BigRecalc | src/Xrd/XrdBuffXL.cc:155-176 | the same for the big tier: index in range and least power of two |
| BufferSizes.SmallRecalc | src/Xrd/XrdBuffer.cc:195-215 | the same for the small tier |
| BufferPool.Tier.Reuse | src/Xrd/XrdBuffer.cc:161-166 | first lock hold of Obtain: the request is counted once in the bucket and once in the total, and the head of the free list is given |
| BufferPool.Tier.Allocate | src/Xrd/XrdBuffer.cc:172-179 | a fresh buffer of the bucket's size, or none |
| BufferPool.Tier.CountNew | src/Xrd/XrdBuffer.cc:183-187 | second lock hold: totals grow by the new buffer |
| BufferPool.Tier.Release | src/Xrd/XrdBuffer.cc:229-235 | the buffer becomes the head of its bucket's list; totals stay |
| BufferPool.Tier.Discard | src/Xrd/XrdBuffer.cc:282-287 | one free buffer leaves the list and the totals; held buffers stay |
| BufferManager.ReshapeBucket | src/Xrd/XrdBuffer.cc:280-289 | free buffers go until min(numbuf, profile) are left, in list order; `numbuf = 0` is unreachable; the running total follows `totalo` |
| BufferManager.Sweep | src/Xrd/XrdBuffer.cc:276-291 | without interleaving: each swept bucket keeps min(numbuf, profile), largest size first, memslot is always the bucket's size, memhave = totalo; unswept buckets remain only when no more than the target is allocated, and the last one was swept only because more was |
| BufferManager.Profile | src/Xrd/XrdBuffer.cc:263-273 | every share is computed in floats, under any rounding good to 2^-24, from the old request counts, which restart |
| BufferManager.ProfileBound | src/Xrd/XrdBuffer.cc:265-273 | since totreq is the sum of the buckets' requests, the shares add up to at most totbuf and to more than totbuf less one per bucket, but for one part in 2^21 lost to rounding |
| BufferManager.SharesLeast | src/Xrd/XrdBuffer.cc:265-273 | the shares and one per bucket, times totreq, reach totbuf times the requests, but for one part in 2^21 |
| BufferManager.SharesScaled | src/Xrd/XrdBuffer.cc:265-273 | the shares times totreq stay within totbuf times the requests, up to one part in 2^21 |
| Rounding.PartBound | src/Xrd/XrdBuffer.cc:269 | (int)(buffers*((float)numreq/requests)) is buffers * numreq / requests but for one part in 2^21, from the five roundings, and less than one, from the cut |
| BufferManager.TrimTier | src/Xrd/XrdBuffXL.cc:221-250 | each bucket loses exactly its surplus and the request counts restart; held buffers stay |
| BufferManager.Surplus | src/Xrd/XrdBuffXL.cc:233-236 | of a bucket with more than one free buffer and more than were asked for, Trim frees the excess or half of them, whichever is less; of any other none |
| BufferManager.Home | src/Xrd/XrdBuffer.cc:221-227 | a held buffer is in the bucket its index names and in no other, with that bucket's size |
| BufferManager.HandOut | src/Xrd/XrdBuffer.cc:140-189 | handing out adds one buffer to the set in clients' hands |
| BufferManager.TakeBack | src/Xrd/XrdBuffer.cc:221-236 | releasing takes one buffer out of it |
| BufferManager.XrdBuffXL.Obtain | src/Xrd/XrdBuffXL.cc:99-149 | a buffer of exactly Recalc's size that nobody had, added to the set in clients' hands; none exactly when Recalc gives 0 or neither a free buffer nor memory is there |
| BufferManager.XrdBuffManager.Obtain | src/Xrd/XrdBuffer.cc:140-189 | the same across both tiers; the request is counted in the total and in the bucket of its size and in no other; the reshaper is woken exactly by an allocation above the maximum while none is pending |
| BufferManager.XrdBuffManager.Release | src/Xrd/XrdBuffer.cc:221-236 | any buffer in a client's hands leaves the set and becomes the first free one of the bucket it came from |
| BufferManager.XrdBuffManager.Separate | src/Xrd/XrdBuffer.cc:227 | the index in the buffer tells the tiers apart |
| BufferManager.XrdBuffManager.Reshape | src/Xrd/XrdBuffer.cc:242-302 | one round: no client loses a buffer; with enough requests buckets are cut to their share, largest size first, exactly until at most the target is allocated or all are cut; else the pool is untouched; the big tier is trimmed |
| MonItems.Validate | src/Xrd/XrdMonitor.cc:497-590 | the vector ends completed (context, default and end keys), one message per fault is logged, and the answer is always true; the promise of false at src/Xrd/XrdMonRoll.hh:217-223 is not kept |
| MonMeaning.FillExact | src/Xrd/XrdMonitor.cc:510-568 | for every vector and position Validate keeps the item's kind and any key given; one left out becomes "item" for a value or a beginning in an array, at an end the key of the definition it closes, and stays out otherwise |
| MonMeaning.MeaningExact | src/Xrd/XrdMonitor.cc:497-590 | no message is logged if and only if the registered vector stands for a tree (keys left out only at ends and, where they are "item", in arrays) and locks and unlocks its mutexes in turn; it then stands for that one tree only |
| MonMeaning.RegisteredFill | src/Xrd/XrdMonitor.cc:497-590 | a vector that stands for a tree is completed to exactly the items of that tree |
| MonItems.ValidateSchema | src/Xrd/XrdMonitor.cc:531-559 | begin pushes, a paired end pops and takes or must match the key, anything else is a fault |
| MonItems.ValKey | src/Xrd/XrdMonitor.cc:478-489 | a missing key becomes "item" in an array and is a fault elsewhere |
| MonItems.ValEnd | src/Xrd/XrdMonitor.cc:436-454 | a missing end key is taken from the beginning, a different one is a fault |
| MonTrees.CleanExact | src/Xrd/XrdMonitor.cc:497-590 | no message is logged if and only if the completed items, mutexes left out, are the items of a tree and every mutex is alternately locked and unlocked and none left locked |
| MonTrees.ScanAgrees | src/Xrd/XrdMonitor.cc:510-568 | prefix by prefix, the validator's stack and lock set are those of the tree read so far |
| MonTrees.FeedAllAdds | src/Xrd/XrdMonRoll.hh:78-93 | reading items into a tree loses none of them |
| MonTrees.FeedForest | src/Xrd/XrdMonRoll.hh:78-93 | reading back the items of a tree gives the tree |
| MonTrees.FlatUnique | src/Xrd/XrdMonRoll.hh:78-93 | a tree is determined by its items |
| MonTrees.OpNext | src/Xrd/XrdMonitor.cc:520-530 | the lock-set test accepts an operation exactly when the trace stays alternating |
| MonJson.JsonOfClean | src/Xrd/XrdMonitor.cc:146-214 | for a clean vector the emitted tokens are one member: the set's name and the object of the tree, keys exactly in objects and commas exactly between siblings |
| MonJson.ParseExact | src/Xrd/XrdMonitor.cc:146-214 | the parser for sections 4 and 5 of RFC 8259 accepts exactly the printed members and reads each as what was printed |
| MonJson.JsonRoundTrip | src/Xrd/XrdMonitor.cc:146-214 | FormJSON's tokens for a clean vector parse back to the tree whose items are the vector's, without the keys in arrays |
| MonJson.JsonItemsAre | src/Xrd/XrdMonitor.cc:162-208 | item by item, the comma test and the key test print the tree read so far |
| MonXml.XmlOfClean | src/Xrd/XrdMonitor.cc:220-286 | for a clean vector the emitted tags and texts are the elements of the tree |
| MonXml.ReadExact | src/Xrd/XrdMonitor.cc:220-286 | the reader that matches every end tag with the innermost open element (section 3.1 of XML 1.0) accepts exactly the printed documents |
| MonXml.XmlRoundTrip | src/Xrd/XrdMonitor.cc:220-286 | FormXML's tags for a clean vector nest with matching names and read as one element holding the tree |
| MonPrint.Snprintf | src/Xrd/XrdMonitor.cc:142-144 | never writes beyond the room given, terminates with NUL, answers the full length |
| MonPrint.FormJSON | src/Xrd/XrdMonitor.cc:146-214 | for every vector and whatever printf makes of a nil pointer: writes nothing beyond bsize, answers the text's length if and only if it fits and every number could be formatted, else 0; does the mutex operations of exactly the longest prefix of the items that can be printed in bsize |
| MonPrint.FormXML | src/Xrd/XrdMonitor.cc:220-286 | the same, when the text and a NUL fit and no value prints as nothing: V2T's 0 for an empty text is taken for a failure |
| MonPrint.EmitJson | src/Xrd/XrdMonitor.cc:162-208 | one round of the loop: exactly the item's text, or too little room or an unformattable number |
| MonPrint.EmitXml | src/Xrd/XrdMonitor.cc:232-279 | one round of the loop: exactly the item's text if and only if it fits and the value is not empty |
| MonReport.PrintableExact | src/Xrd/XrdMonitor.cc:146-286 | a registered vector brings a nil pointer to a printer if and only if some item, before Validate, has a nil text, or no key where that printer prints one and Validate fills in none |
| MonReport.NilKeyPrinted | src/Xrd/XrdMonitor.cc:180-185 | a vector Validate accepts that makes the printers print a nil key |
| MonReport.CleanPrintable | src/Xrd/XrdMonitor.cc:220-286 | no nil pointer is printed of a vector Validate is silent about |
| MonReport.JsonSetTextIs | src/Xrd/XrdMonitor.cc:356-357 | what is printed under the registered header is the text of the set's tokens if and only if the name has at most 501 characters |
| MonReport.XmlSetTextIs | src/Xrd/XrdMonitor.cc:358-359 | the same for XML and 498 characters |
| Lexing.LexExact | src/Xrd/XrdMonitor.cc:146-286 | for any tokens read one at a time exactly: characters are read as a token sequence if and only if they are its text, each token plain, and none that runs on beside another |
| MonJsonText.TokensExact | src/Xrd/XrdMonitor.cc:146-214 | the lexer for sections 6 and 7 of RFC 8259 (no escapes, no white space) reads characters as tokens if and only if they are the tokens' text, every string free of characters that need escapes, every number a JSON number, and no number next to a number |
| MonJsonText.ReadExact | src/Xrd/XrdMonitor.cc:146-214 | characters read as a member if and only if they are what is printed of it and need no escapes |
| MonXmlText.TagsExact | src/Xrd/XrdMonitor.cc:220-286 | the same for tags, the one attribute and character data of XML 1.0 (sections 2.2 to 2.4 and 3.1) |
| MonXmlText.ReadCharsExact | src/Xrd/XrdMonitor.cc:220-286 | characters read as a set if and only if they are what is printed of it and every tag and text stands for itself |
| MonReport.JsonReport | src/Xrd/XrdMonitor.cc:146-214 | what is printed of a vector that registers a tree reads back, character by character, as that tree if and only if the name fits, no key, name or text needs an escape and every number is a JSON number |
| MonReport.XmlReport | src/Xrd/XrdMonitor.cc:220-286 | the same for XML: if and only if the name fits, keys are XML names, and no value is empty or needs a reference |
| MonReport.ReportJson | src/Xrd/XrdMonitor.cc:308-368 | Register and Format in one: a text is printed if and only if it fits and all numbers can be formatted; Validate is silent if and only if the vector as registered stands for a tree, and then the text reads back as that tree as above and the mutexes are locked and unlocked in turn |
| MonReport.ReportXml | src/Xrd/XrdMonitor.cc:308-368 | the same for XML |
| MonLocks.JsonLeavesNothing | src/Xrd/XrdMonitor.cc:162-208 | FormJSON leaves no mutex of a clean vector locked, whatever the buffer size, if and only if no item that takes room (up to the first number that cannot be formatted) stands while a mutex is held |
| MonLocks.XmlLeavesNothing | src/Xrd/XrdMonitor.cc:232-279 | the same for FormXML: if and only if nothing but mutex operations (up to the first empty value) stands while a mutex is held |
| MonLocks.TakesRoomExact | src/Xrd/XrdMonitor.cc:142-144 | an item takes room, that is needs a larger buffer than those before it, unless it prints nothing or is a single character put by AddC behind something printed with room for its NUL |
| MonLocks.GivesUpLocked | src/Xrd/XrdMonitor.cc:162-183 | an instance: a lock around one number, formatted into too small a buffer, stays locked |
| GatherSend.XrdLinkXeq.WriteAll | src/Xrd/XrdLinkXeq.cc:623-629 | a buffer is written to its end through short writes and interruptions; it stops early only on another error |
| GatherSend.XrdLinkXeq.Send | src/Xrd/XrdLinkXeq.cc:602-636 | success: every byte, length returned; failure: a prefix, and exactly one reported error; bytesOut counts the attempt |
| GatherSend.XrdLinkXeq.SkipWhole | src/Xrd/XrdLinkXeq.cc:867-869 | the loop past whole elements ends inside the vector, at the first unwritten byte |
| GatherSend.XrdLinkXeq.SendIOV | src/Xrd/XrdLinkXeq.cc:847-882 | the concatenation of the segments is sent and its length returned, or a prefix and -1 exactly when the system reported an error; it terminates |
| GatherSend.XrdLinkXeq.SendVector | src/Xrd/XrdLinkXeq.cc:640-685 | the same for vectors longer than maxIOV, cut into accepted pieces |
| GatherSend.LinkSend | src/Xrd/XrdLink.cc:339-349 | the same with the byte count computed when the caller gives 0 |
| GatherSend.RestSplit | src/Xrd/XrdLinkXeq.cc:668-679 | the bytes of the vector from a position are those of the next piece followed by the rest |
| LineReader.File.ReadLine | python/src/PyXRootDFile.cc:417-506 | a default call returns the next line with its newline and moves the offset by its length, for every chunk size and pattern of short reads |
| LineReader.File.ReadLines | python/src/PyXRootDFile.cc:513-557 | terminates with the rest of the file cut at its newlines |
| LineReader.File.Scan | python/src/PyXRootDFile.cc:471-490 | the scan of a chunk stops at the first newline |
| LineReader.File.ReadChunk | python/src/PyXRootDFile.cc:562-576 | bytes from the offset on, none only at the end |
| LineReader.LinesExact | python/src/PyXRootDFile.cc:513-557 | the lines concatenate to the remaining data and have their newline at the end only |
| LineReader.LinesUnique | python/src/PyXRootDFile.cc:513-557 | no other list of lines does |
| FattrCodec.NVecInsert | src/XProtocol/XProtocol.cc:176-188 | two zero bytes, the name, a NUL, at the position and nowhere else |
| FattrCodec.VVecInsert | src/XProtocol/XProtocol.cc:192-205 | a 32-bit big-endian length and the value; nothing else is written |
| FattrCodec.NVecReadName | src/XProtocol/XProtocol.cc:219-224 | the text up to the NUL, and the position after it |
| FattrCodec.VVecReadValue | src/XProtocol/XProtocol.cc:238-245 | the bytes up to the length or a NUL |
| FattrCodec.Be32RoundTrip | src/XProtocol/XProtocol.cc:228-234 | a length below 2^31 survives the byte order |
| FattrCodec.SameText | src/XProtocol/XProtocol.cc:219-224 | what stands before the NUL determines the name read |
| FattrCodec.ReadNames | src/XProtocol/XProtocol.cc:209-224 | reading the entries of a name vector gives the names, zero codes, and ends where the vector does |
| FattrCodec.ReadValues | src/XProtocol/XProtocol.cc:228-245 | the same for values |
| FattrCodec.InsertNames | src/XProtocol/XProtocol.cc:176-188 | inserting names one after the other makes their vector |
| FattrCodec.InsertValues | src/XProtocol/XProtocol.cc:192-205 | the same for values |
| FattrCodec.RoundTrip | src/XProtocol/XProtocol.cc:172-245 | a name vector and a value vector written and then read: names, zero codes and values come back, readers end where writers did, and the rest of the buffer stays |

## Left out

- Sockets, polling, TLS, sendfile, fork, process limits, configuration, protocol loading, statistics output: plumbing or foreign calls.
- SchedulerRuns: the limits are fixed after Start; `setParms`, `setNproc` and the stickiness count are not modelled. DoIt may run on any worker that runs a job.
- SchedulerRuns.LayoffsLeaveMinimum: for runs in which every thread creation succeeded, because a failure rewrites the minimum.
- TimerLinks: NextJob is the timer queue's while a job is in it; what the work queue does to the NextJob of a job handed over, should a race have left it linked here too, is not modelled. Conversions and products that overflow a signed int wrap.
- JobQueues: the work queue and the timer queue are objects of their own beside the scheduler; a job is in at most one of them, which is the caller's duty in the source too.
- LinkUse: one connection and its Reset, and one Close per connection; deferred and repeated Close, Terminate and its hand-off of opMutex are not modelled. Reset leaves the semaphore's value alone, and runs start with it at 0.
- LinkUse.SerializeReleasesAll: every waiter has a permit counted for it; which waiter takes which permit is not fixed, so a thread that calls Serialize later may be woken first (see LinkUse.WaitExact).
- LinkTable: instance numbers are unbounded (the source wraps at 2^32), and allocation of link objects does not fail.
- LinkCtl.XrdLinkCtl.constructor: the table is a whole number of blocks long, as the source assumes and does not check.
- LinkRuns: a finder may look at any eligible slot next, so the runs contain those of every matcher; which slot a given matcher leads to is in LinkCtl.XrdLinkCtl.Find.
- LinkLeaks: for runs without the three faults of LinkRuns.FindGuardExact, which can also lower a count.
- LinkCtl.XrdLinkCtl.Find: stated for an uninterrupted call; the interleaved one is in LinkRuns. The periodic release of LTMutex has no effect of its own.
- BufferPool: a free list is a sequence in the bucket record, so the next pointers inside the buffers are not modelled; the memory behind a buffer is not modelled.
- BufferManager.Profile: the rounding is any that is good to 2^-24 of the result; which one the machine uses is not fixed. The target is any number.
- BufferManager.Sweep: stated without other threads between its lock holds, as are Obtain and Reshape; with them, each hold still keeps the tier valid and the held buffers, but no run of all of them is modelled.
- BufferManager.XrdBuffXL.constructor: one Init. A second one with a small size would leave the bucket count beside no buckets.
- BufferManager.XrdBuffManager.Reshape: one round; the wait between rounds and the clock are not modelled.
- MonItems.Validate: the position is not cut to 16 bits, and messages are counted, not worded.
- MonPrint.FormJSON: what printf makes of a nil pointer, which C leaves open, is one text given from outside. A number is the text V2S makes of it.
- MonJsonText: escapes and white space, which the printer never writes, are not read.
- MonXmlText: references, white space in tags and other markup, which the printer never writes, are not read.
- MonReport.ReportJson: one set; the registry's list, refused duplicate names and the choice of sets by type are not modelled.
- GatherSend: the send queue and the secure path are not modelled, and a socket error's number is not kept. Byte counts stay within an int.
- LineReader.File.ReadLine: calls without an offset and a size, lines of up to 2^32 - 1 bytes; bytes, not UTF-8. A failed read, which the source takes for the end of the file, does not occur.
- FattrCodec.VVecInsert: values shorter than 2^31 bytes, because the source keeps the length in a signed 32-bit number.
