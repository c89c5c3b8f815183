# On-the-fly critical path analysis: a verified model

The tool modelled here measures a hybrid MPI and OpenMP program while it executes.  Every thread
carries four clocks.  Each has a thread, a process and a critical level.  A clock runs or stands
still depending on what the thread is doing: useful computation, OpenMP, MPI.  At each
synchronisation the levels are merged by a maximum.  At the end the critical level is the length of
the critical path, and a few quotients of clocks are the parallel efficiencies that the tool reports.

The project proves what the tool is for and what it rests on.

* **Clocks.** `Clocks` has the clock objects.  `ClockRuns` proves that a scalar clock equals the
  longest path of the event graph, and exactly when.  `ProcessLevel` proves the same of the process
  level and the paths that take no message, and says which times the four clocks measure.
  `ClockOrder` has the orders between clocks and the bound by elapsed time.  `UnlockedArcs` has
  deposits into one object that overlap.
* **Report.** `Metrics` has the factors and the shares of the plot, `Plots` what the shares stand for,
  `Averages` what the reduced sums and maxima are of, `Reports` the figures with the infinities of
  floating-point division.  `FinishedRuns` says what the report is made of in terms of events, and
  proves for whole executions exactly when the factors are efficiencies, and `LateWorkers` has
  executions where they are and where they are not.
* **OpenMP callbacks.** `Cells`, `Barrier` and `BarrierCallbacks` have the three rotating barrier
  clocks, `BarrierTasks` what they do for explicit tasks.  `Tasks`, `TaskOrder` and `TaskRuns` have
  task creation, taskwait, taskgroup and dependences, `TaskStack` the clock-state stack, `TaskForest`
  the reference counts of tasks, `Pools` the object pools.
* **MPI.** `Piggyback` has the shadow messages that carry clocks.  `Handles` and `HandleRuns` have the
  table that maps the application's request and message handles, `OverlappingCompletions` the same
  with threads that complete and post at the same time.  `Maxloc` has the reduction operator,
  `Offsets` the clock offsets between processes.
* **Foundations.** `Atomics` has the compare-and-exchange loops, `HashMaps` and `Vectors` the
  containers.

Time is a `real`.  The raw value of a running clock counts from the epoch: a clock that starts at
time `t` has `t` subtracted, and `t` is added again when it stops.  The *effective* value is the raw
value plus the current time for a clock that runs.  Objects that one thread updates in place are
classes with methods; each method states its effect as a function on values, and the properties are
proved about those functions.  Protocols between threads or processes are state machines: `Enabled`
says what the OpenMP or MPI library allows, `Next` what the code does, and the theorems are about
every sequence of steps.

Some properties that one would expect of the code do not hold.  For each there is a lemma with a
concrete execution and a lemma with the exact condition:

* A clock that runs while it reads a sync object that nobody has written yet jumps to the time since
  the epoch, because the zero of a fresh object is a raw value.  `ClockOrder.FirstLockOvershoots`
  shows it for the clock "outside MPI" at the first acquisition of a lock.
  `ClockRuns.LongestPathExactlyWhen` shows that this is the only way to miss the longest path.
* A worker leaves the barrier into useful computation and ends its implicit task later, after its last
  deposit.  What it computes there reaches nobody.  `LateWorkers.LateWorkerOvershoots` shows OpenMP
  serialisation efficiencies of every value above 1.  The condition is one on the events: some path
  over OpenMP arcs weighs at least the time the worker spent in useful computation
  (`FinishedRuns.CoveredExactlyWhen` for one worker, `FinishedRuns.ReportExactlyWhen` for the report).
* The fork clock shares a slot with barrier round 1, and thread 0 resets that slot when it enters its
  first barrier.  `Barrier.LateThreadMissesFork` shows a thread that begins after that and misses the
  fork; `Barrier.ForkDeliversExactlyWhen` has the condition.
* An explicit task that completes deposits into barrier slot 0, whatever the round, and thread 0
  resets that slot every third round.  `BarrierTasks.TaskIsLost` shows a task that no barrier
  delivers; `BarrierTasks.BarrierDeliversTaskExactlyWhen` and `BarrierTasks.TaskIsLostExactlyWhen` have
  the condition, `BarrierTasks.DoomedIsLost` and `BarrierTasks.SafeIsDelivered` what is known of it when
  the task completes.
* The lock around a deposit is empty for clocks that are atomic numbers.  `UnlockedArcs.DepositIsLost`
  shows a deposit that is lost to the copy of another thread, `UnlockedArcs.CopyIsLost` two copies of
  which the first is lost; `UnlockedArcs.KeepsAllExactlyWhen` says which interleavings keep all
  deposits.
* The index of a completed request is given back before its callback is called.
  `OverlappingCompletions.IndexIsReusedBeforeCallback` shows another thread that gets the index in
  between; `OverlappingCompletions.CallbackPrecedesReuseExactlyWhen` has the condition.
* In a build with Fortran wrappers, for MPI libraries with integer handles, the data of a persistent
  request forget that it is persistent.  `HandleRuns.FortranLosesIndex` shows one that loses its index
  when it is first completed; `HandleRuns.IndexKeptExactlyWhen` has the condition.
* The result of the reduction operator depends on the order of the operands, although the operator is
  declared to commute.  `Maxloc.SwappedOperandsDiffer` has two operands;
  `Maxloc.OrderIndependentExactlyWhen` says that this happens exactly when inputs tie for the largest
  reference value and differ.

## Model

| member | source | states |
|---|---|---|
| Clocks.ThreadClock.constructor | include/criticalPath.h:376-381 | A new thread clock is in STATE_INIT with all clocks zero, except for the critical useful time it inherits. |
| Clocks.ThreadClock.SwitchState | include/criticalPath.h:391-407 | Exactly the clocks that start subtract the time, exactly those that stop add it, at all three levels; the effective values stay (ClockRuns.QuietStep), and ProcessLevel.ClocksMeasureStates says what they come to. |
| Clocks.ThreadClock.EnterState | include/criticalPath.h:425-431 | Switches the clocks and pushes the state; nothing happens when the measurement is off. |
| Clocks.ThreadClock.ExitState | include/criticalPath.h:437-457 | Pops the state and switches the clocks to the one below; a thread in STATE_INIT stays there. |
| Clocks.ThreadClock.SetState | include/criticalPath.h:461-467 | Replaces the top state; with the measurement off only the switch to STATE_INIT works. |
| Clocks.ExitUndoesEnter | include/criticalPath.h:425-457 | A state that is entered and left again leaves the stack as it was. |
| Clocks.SetToInitStops | include/criticalPath.h:461-467 | The last switch, to STATE_INIT, stops all clocks at their effective values, also when the measurement is off. |
| Clocks.ThreadClock.MpiHappensBefore | src/mpi-critical.cpp:35-40 | The payload holds the raw critical values of the three merged clocks. |
| Clocks.ThreadClock.MpiHappensAfter | src/mpi-critical.cpp:18-29 | The three critical values become maxima with the payload; thread and process levels and the GPU clock stay. |
| Clocks.SyncClock.CheckArc | include/criticalPath.h:517-531 | Reports whether the object was fresh and whether the state check holds, which is the case exactly for fresh objects and those in the state of the thread; a fresh object takes the state of the thread. |
| Clocks.SyncClock.OmpHBefore | include/criticalPath.h:538-558 | Copies the three merged clocks into a fresh object; merges their process and critical levels into a used one. |
| Clocks.SyncClock.OmpHAfter | include/criticalPath.h:565-578 | The thread takes the maxima of the process and critical levels, and a fresh object takes the state of its first reader. |
| Clocks.SyncClock.OmpCReset | include/criticalPath.h:580-588 | The object is fresh again and its merged clocks are zero. |
| ClockRuns.QuietStep | include/criticalPath.h:391-467 | Between reads an effective value gains exactly the time that passes while its clock runs, through every state change. |
| ClockRuns.OffChangesNothing | include/criticalPath.h:425-588 | With the measurement off, no step changes anything, except that messages are loaded and that the switch to STATE_INIT stops the clocks of its own thread. |
| ClockRuns.OmpReadStep | include/criticalPath.h:565-578 | A read over OpenMP makes the effective value the maximum of the thread's own and the object's, moved to the present if the clock runs. |
| ClockRuns.MpiReadStep | src/mpi-critical.cpp:18-29 | The same for a clock received with a message. |
| ClockRuns.NeverLoses | include/criticalPath.h:391-467 | No step of an execution lowers an effective critical value. |
| ClockRuns.ObjectAtLeast | include/criticalPath.h:538-588 | A sync object that was written and not reset since still holds at least what was written, in the writer's state. |
| ClockRuns.ObjectOrigin | include/criticalPath.h:538-588 | The value of a used object is that of one visible write, or the zero of a read while it was fresh. |
| ClockRuns.MailOrigin | src/mpi-critical.cpp:35-40 | A message holds exactly what its last load put there. |
| ClockRuns.NoPathIsLonger | include/criticalPath.h:391-588 | Every path of the event graph weighs at most the effective critical value, where an arc weighs its waiting time exactly if the clock runs in the arc's state. |
| ClockRuns.GenuinePathIsAsLong | include/criticalPath.h:391-588 | Without running fresh reads, some path of the event graph weighs exactly the effective critical value. |
| ClockRuns.GenuineAtMostElapsed | include/criticalPath.h:73-80 | No path of the event graph weighs more than the time since the start of the measurement. |
| ClockRuns.RunningFreshReadOvershoots | include/criticalPath.h:573-577 | A running clock that reads a fresh object is longer than every path. |
| ClockRuns.LongestPathExactlyWhen | include/criticalPath.h:391-588 | For every execution and each merged clock: after every event the scalar clock of every thread is the longest path of the event graph, if and only if no thread whose clock runs ever reads a fresh object. |
| ProcessLevel.ThreadLevelIsBusy | include/criticalPath.h:391-467 | For every execution and each of the four clocks, the effective thread level is the sum of the durations that the thread spent in states in which the clock runs. |
| ProcessLevel.ClocksMeasureStates | include/criticalPath.h:73-80 | For every execution, without reference to the state table: the useful time is the time in STATE_USEFUL, and the other three clocks are the elapsed time without that in STATE_INIT and without that in MPI, in OpenMP and on the GPU. |
| ProcessLevel.NoOmpPathIsLonger | include/criticalPath.h:538-588 | Every path over OpenMP arcs weighs at most the effective process level. |
| ProcessLevel.OmpPathIsAsLong | include/criticalPath.h:538-588 | Without running fresh reads, some path over OpenMP arcs weighs exactly the effective process level. |
| ProcessLevel.ProcessLevelExactlyWhen | include/criticalPath.h:253-266 | For every execution and each merged clock: after every event the process level of every thread is the longest path over OpenMP arcs, if and only if no thread whose clock runs ever reads a fresh object. |
| ClockOrder.LevelsAlwaysOrdered | include/criticalPath.h:253-266 | In every reachable state thread <= process <= critical, for every clock of every thread and sync object. |
| ClockOrder.UsefulAlwaysLeast | include/criticalPath.h:73-80 | In every reachable state the effective useful time is at most the time outside MPI and outside OpenMP, at every level, in threads, sync objects and messages. |
| ClockOrder.ClocksAlwaysOrdered | include/criticalPath.h:73-80 | Both orders together, for the clocks that a thread reports. |
| ClockOrder.AtMostElapsed | include/criticalPath.h:391-407 | With OpenMP arcs in the OpenMP state, the critical useful time and time outside OpenMP of every thread are between zero and the elapsed time, even when fresh objects are read. |
| ClockOrder.ObjectAtMostElapsed | include/criticalPath.h:565-578 | The same upper bound for every sync object. |
| ClockOrder.FirstLockOvershoots | src/ompt-critical.cpp:1012-1031 | An execution of two events in which the clock outside MPI reports two seconds where the longest path has one. |
| UnlockedArcs.KeepsAllExactlyWhen | include/criticalPath.h:517-558 | With the look at the state, the mark and the write as separate accesses: an interleaving of one deposit per thread into a fresh object keeps all of them, whatever the clocks are, if and only if no second call looks before the first mark and the call that looked first writes first. |
| UnlockedArcs.LockedCallsKeepAll | src/critical-core.cpp:97-100 | With the lock that the other kind of clock takes, nothing is lost. |
| UnlockedArcs.DepositIsLost | src/critical-core.cpp:97-100 | Two threads of which the second merges between the mark and the copy of the first, and loses its deposit. |
| UnlockedArcs.CopyIsLost | include/criticalPath.h:519-520 | Two threads that both find the object fresh; the one that looked first also writes first, and loses its deposit. |
| Metrics.LocalTotals | src/critical-core.cpp:200-238 | The loop over the threads of a process yields the largest and the summed useful time, or those of the finishing thread when none is registered. |
| Metrics.Reduce | src/critical-core.cpp:240-274 | Maxima and sums over all processes, for contributions of any sign. |
| Averages.AverageIsMean | src/critical-core.cpp:200-274 | The first average is the mean of the useful times of all threads of all processes. |
| Averages.AverageOfTops | src/critical-core.cpp:200-274 | The other average is the mean, over all threads, of the largest useful time in the process of the thread. |
| Averages.LargestUseful | src/critical-core.cpp:200-274 | The first maximum is the useful time of some thread of some process, and no thread has a larger one. |
| Reports.FinishMeasurement | src/critical-core.cpp:175-306 | For all processes and every runtime, zero included: the reported figures are those of the reduced totals, with the infinities and NaN of the divisions; Reports.FiguresAre says which quotients they are. |
| Reports.ReportIsFactors | src/critical-core.cpp:284-306 | Without a zero denominator the figures are the factors of exact arithmetic. |
| Reports.FiniteExactlyWhen | src/critical-core.cpp:284-306 | For all totals: every figure is finite if and only if no denominator is zero. |
| Reports.FiguresAre | src/critical-core.cpp:284-306 | In every finite report each of the eleven figures is the quotient of two reduced totals that its definition names, the differences between the paradigms included: MPI transfer efficiency is the ideal over the time outside OpenMP, OpenMP load balance the average over the average of the largest times, and so on. |
| Reports.ReportWithoutWork | src/critical-core.cpp:284-306 | Without any useful work, communication and transfer efficiency are zero, and the load balances, the serialisation efficiency and PE are NaN. |
| Reports.FiniteFiguresMultiply | src/critical-core.cpp:284-306 | In every finite report PE is the product of the MPI and the OpenMP efficiency. |
| Metrics.FactorsOf | src/critical-core.cpp:284-306 | In exact arithmetic, on the totals that Reports.FiniteExactlyWhen names: the factors of each paradigm multiply up to its efficiency, and PE is the product of the MPI and the OpenMP efficiency and of all six factors; Metrics.FactorsAre says which quotient each of them is. |
| Metrics.FactorsAre | src/critical-core.cpp:284-306 | Each of the eleven factors is the quotient of two totals that its definition names. |
| Metrics.FactorsInUnit | src/critical-core.cpp:284-306 | With ordered totals all six factors lie between 0 and 1. |
| Metrics.EfficiencyIsUsefulShare | src/critical-core.cpp:284-290 | PE is the average useful time of a thread over the runtime. |
| Metrics.ReductionsOrdered | src/critical-core.cpp:200-274 | The reductions give totals whose order needs only one more comparison, and that one holds if and only if the process level of one process covers the useful time of every thread. |
| Metrics.DefinedExactlyWhen | src/critical-core.cpp:284-306 | No denominator is zero if and only if some thread did useful work and some process level is positive; the latter follows where one process covers all threads. |
| Metrics.GoodReportExactlyWhen | src/critical-core.cpp:284-306 | With some useful work: no denominator is zero and the six factors are between 0 and 1, with PE = mpiPE * ompPE and shares that fill the unit interval, if and only if the process level of one process covers the useful time of every thread. |
| Metrics.SharesFillUnit | script/CPT-plot.py:206-227 | The seven stacked shares are non-negative, sum to 1 and start from the reported PE. |
| Metrics.PartSharesFillUnit | script/CPT-plot.py:229-261 | The same for the stacks of one paradigm. |
| Plots.SharesAre | script/CPT-plot.py:206-227 | What each of the seven stacked shares stands for, as a quotient of totals: the share of the OpenMP transfer is the runtime without the time outside OpenMP, over the runtime, and so on. |
| Plots.PartSharesAre | script/CPT-plot.py:229-261 | The same for the stacks of one paradigm. |
| FinishedRuns.ChainCovers | include/criticalPath.h:538-578 | Along every chain of OpenMP arcs, through nested regions too, the process level of the last reader is at least that of the first writer, for every merged clock. |
| FinishedRuns.TotalsOfRun | src/critical-core.cpp:175-274 | At the end of every execution the totals of the report, in terms of events alone: the largest and the mean time that a thread spent in useful computation, the mean of the largest times of its process, the longest paths over OpenMP arcs, and the longest paths of the whole event graph into the reporting thread of rank 0 for the useful time and the time outside OpenMP. |
| FinishedRuns.CoveredExactlyWhen | src/ompt-critical.cpp:550-645 | At the end the useful time of a worker is at most the process level of another thread, if and only if some path over OpenMP arcs into that thread weighs at least the summed durations of the worker in useful computation. |
| FinishedRuns.JoinedIsCovered | src/critical-core.cpp:200-238 | The useful time of a worker that joined through a chain of arcs, and computed after its deposit no longer than the process level grew after the read, is at most that level. |
| LateWorkers.LateWorkerOvershoots | src/ompt-critical.cpp:550-645 | For every end > 1, an execution of 16 events in which a worker joins, computes from 1 to end between barrier end and task end, and the reported OpenMP serialisation efficiency is that end. |
| LateWorkers.PunctualWorkerFinishes | src/ompt-critical.cpp:550-645 | The same execution with a worker that ends its task at once is finished, has useful work and a good report. |
| FinishedRuns.ReportedIsCovered | src/mpi-critical.cpp:208-227 | The process level of a process that took part in the final reduction is at most the critical level of rank 0. |
| FinishedRuns.ReportedRunIsBounded | src/critical-core.cpp:175-306 | Every execution in which all processes reported ends with useful times that are not negative, and process levels below the critical level of rank 0, its time outside OpenMP and the runtime. |
| FinishedRuns.ReportExactlyWhen | src/critical-core.cpp:175-306 | At the end of every such execution with some useful work: all denominators are positive, the six factors are between 0 and 1, PE = mpiPE * ompPE and the plot's shares fill the unit interval, if and only if one path over OpenMP arcs into a reporting thread weighs at least the useful time of every thread. |
| FinishedRuns.FinishedRunIsCovered | src/critical-core.cpp:200-238 | Every execution in which all workers joined in time has a process whose level covers the useful time of every thread. |
| FinishedRuns.ReportOfFinishedRun | src/critical-core.cpp:200-306 | So every execution in which all workers joined in time, all processes reported and some useful work was done has such a report. |
| Cells.CellsRefineClocks | include/criticalPath.h:517-588 | Each merged clock of a sync object behaves like one number with a mark for fresh. |
| Barrier.ResetIsHarmless | src/ompt-critical.cpp:596-599 | The slot that thread 0 resets on entering a round holds no deposit, of any thread and any round, that somebody still has to read. |
| Barrier.StepKeepsInv | src/ompt-critical.cpp:593-645 | Every step of every thread keeps all deposits of a round in its slot while somebody still has to read them. |
| Barrier.BarrierDelivers | src/ompt-critical.cpp:593-645 | For every team size and every interleaving, whoever takes the arc out of round k leaves with at least what each member had at its own arrival at round k. |
| Barrier.BarrierBringsOnly | src/ompt-critical.cpp:593-645 | Whoever leaves round k leaves with its own value or that of somebody who arrived at round k; besides that only with zero, in the rounds of slot 0 with the clock of a completed task, and in round 0 with what a recycled region still had in its slot. |
| Barrier.ForkDeliversExactlyWhen | src/ompt-critical.cpp:243-268 | A thread that begins obtains the fork clock if and only if thread 0 has not entered its first barrier, or the thread has that value already, or the fork clock is not positive; what it takes is exactly what slot 1 had at the beginning of the region, and after that barrier zero. |
| Barrier.LateThreadMissesFork | src/ompt-critical.cpp:543-599 | A team of two in which the second thread begins late and misses the fork clock. |
| BarrierTasks.TaskReachesExactlyWhen | src/ompt-critical.cpp:593-645 | Where the clock of an explicit task is certain to arrive, for clocks that run in the OpenMP state and clocks that do not: a thread has at least that clock, whatever its value, if and only if the arcs lead from its slot to the thread. |
| BarrierTasks.BarrierDeliversTaskByRound | src/ompt-critical.cpp:814 | By rounds: the taker of the arc out of round k is certain to have the task's clock if and only if k is a multiple of three and slot 0 was not reset since the task, or somebody left an earlier round with an arc from slot 0 after the task and before that reset. |
| BarrierTasks.BarrierDeliversTaskExactlyWhen | src/ompt-critical.cpp:593-645 | For every team, round and interleaving: whoever takes the arc out of a barrier is certain to have the clock of an explicit task, if and only if somebody, at this step or before, took an arc from slot 0 after the task and before slot 0 was reset. |
| BarrierTasks.TaskIsLostExactlyWhen | src/ompt-critical.cpp:593-645 | No barrier of the run ever delivers the task, if and only if nobody takes an arc from slot 0 between the task and the next reset. |
| BarrierTasks.DoomedIsLost | src/ompt-critical.cpp:814 | If the task completes when thread 0 is on its way to that reset and nobody is left to read slot 0 before, it is lost whatever the team does. |
| BarrierTasks.SafeIsDelivered | src/ompt-critical.cpp:814 | If it completes when thread 0 is to leave a barrier with an arc from slot 0 first, every taker out of that round and all later ones has its clock. |
| BarrierTasks.TaskIsLost | src/ompt-critical.cpp:814 | A task that completes after round 0 and is delivered by none of the rounds 1 to 3. |
| BarrierCallbacks.ParallelData.ParallelBegin | src/ompt-critical.cpp:504-515 | The encountering thread enters the OpenMP state and deposits into slot 1. |
| BarrierCallbacks.InOmp | src/ompt-critical.cpp:540-542 | A thread in STATE_INIT ends in the OpenMP state, one entry higher on its stack and with the same effective values; any other thread stays as it is. |
| BarrierCallbacks.ParallelData.ImplicitTaskBegin | src/ompt-critical.cpp:532-548 | A thread of the team, brought into the OpenMP state if it has not measured yet, reads slot 1 and then starts useful work. |
| BarrierCallbacks.ParallelData.BarrierBegin | src/ompt-critical.cpp:593-601 | The thread enters the OpenMP state and deposits into its slot; thread 0 then resets the next slot, and no other slot changes. |
| BarrierCallbacks.ParallelData.BarrierEnd | src/ompt-critical.cpp:630-645 | The thread reads its slot if it is in the team or thread 0, advances its index modulo 3, and leaves the OpenMP state if the measurement is on and was on when the task was created. |
| BarrierCallbacks.ArrivedRefines | src/ompt-critical.cpp:593-601 | On every merged clock, entering a barrier is the two steps of the protocol. |
| BarrierCallbacks.LeaveRefines | src/ompt-critical.cpp:630-645 | On every merged clock, the arc out of a barrier is a step of the protocol. |
| BarrierCallbacks.BeginRefines | src/ompt-critical.cpp:532-548 | On every merged clock, what a new implicit task does is the fork step of the protocol on the effective value of its thread, whether the thread has measured before or not. |
| BarrierCallbacks.WorkRefines | include/criticalPath.h:391-467 | In every execution, what a thread does between two moments in the OpenMP state is a step of the protocol that does not lower its effective value. |
| Piggyback.StepKeepsInv | include/mpi-critical.h:395-541 | Every step of every rank keeps both networks in step: per channel, the same sends in the same order. |
| Piggyback.ReceiveMergesItsSender | include/mpi-critical.h:395-541 | Under every interleaving of blocking sends and receives, specific or with wildcards, a receive makes each of the three values the larger of its own and that of the sender of its application message at the step that began this send, and changes no other rank. |
| Piggyback.OnlyReceivesMerge | include/mpi-critical.h:395-541 | No other step of a rank but its own work changes its clock. |
| Piggyback.MergeIsReceived | src/mpi-critical.cpp:18-29 | The merge is what MpiHappensAfter does to the critical values of a thread clock, and makes each value the larger one. |
| Piggyback.ShadowIsThere | include/mpi-critical.h:527-540 | A receiver that holds its application message finds the shadow message of the same send at the head of the channel it asks. |
| Piggyback.ShadowChannelIsAppChannel | include/mpi-critical.h:401-413 | While its receiver is not in a receive, a shadow channel is the application channel plus at most one send in progress. |
| Tasks.AcquireDependencies | src/ompt-critical.cpp:796-800 | The loop over the dependences reads, in order, the objects that each dependence type has to read. |
| Tasks.ReleaseDependencies | src/ompt-critical.cpp:790-794 | The loop over the dependences writes the object of each dependence type. |
| Tasks.AcquireTakes | src/ompt-critical.cpp:201-235 | For all pairs of dependence types that order tasks, the acquiring clock is at least what a predecessor released. |
| Tasks.AcquireOneExactly | src/ompt-critical.cpp:201-220 | For every dependence type: the acquiring clock becomes the largest of its own value and those of exactly the objects that the types it synchronises with write, and exactly those objects are marked as used. |
| Tasks.AcquireTakesOnly | src/ompt-critical.cpp:796-800 | After the loop the clock is its own value or one that some object read for one of the dependences had before. |
| Tasks.ReleaseHolds | src/ompt-critical.cpp:222-234 | After the loop each object that a dependence writes holds at least the task's clock. |
| Tasks.ReleaseWritesOnly | src/ompt-critical.cpp:790-794 | After the loop exactly the objects that some dependence writes have taken the task's clock; all others are unchanged. |
| TaskOrder.StepKeepsInv | src/ompt-critical.cpp:724-974 | Every callback keeps what completed tasks have left for taskwait, taskgroups and dependences. |
| TaskRuns.TaskStartsAfterCreation | src/ompt-critical.cpp:724-760 | In every execution a task starts with at least the critical clock that its creator's thread had at the step that created it. |
| TaskRuns.CreatedAs | src/ompt-critical.cpp:724-760 | A task keeps the parent, the taskgroup and the dependences of the step that created it. |
| TaskRuns.StartedOn | src/ompt-critical.cpp:860-891 | A task that was started stays with the thread that started it. |
| TaskRuns.StepTakesOnly | src/ompt-critical.cpp:790-974 | No callback gives a thread a clock but its own, that of the object of the task it starts, those its dependences read, or that of the taskwait or taskgroup it ends. |
| TaskRuns.TaskwaitReachesChildren | src/ompt-critical.cpp:647-653 | In every execution, each child has completed before a taskwait ends, and after it the thread's critical clock is at least what the child's thread had at that step. |
| TaskRuns.UndeferredIsHeld | src/ompt-critical.cpp:802-829 | The object of a task holds, from the completion of each undeferred child on, at least the clock of that step. |
| TaskRuns.TaskgroupReachesMembers | src/ompt-critical.cpp:655-668 | The same after a taskgroup for every task created in it, by whomever and through nested groups. |
| TaskRuns.DependencesReachSiblings | src/ompt-critical.cpp:790-891 | The same at the start of a task for every completed sibling with a conflicting dependence, in whatever order they were created, also between two mutexinoutset dependences. |
| TaskRuns.DependencesReachPredecessors | src/ompt-critical.cpp:790-891 | In particular for every predecessor that the task had to wait for, for all combinations of dependence types. |
| TaskRuns.TaskwaitOnReachesChildren | src/ompt-critical.cpp:938-943 | The same after a taskwait with dependences for every completed child with a conflicting one. |
| TaskStack.CallbackFits | src/ompt-critical.cpp:831-972 | Each callback turns a stack that is the concatenation of the tasks' frames into one, and its state checks hold. |
| TaskStack.ScheduleKeepsStack | include/criticalPath.h:437-457 | For every schedule of tied tasks the clock-state stack is the base followed by the tasks' frames, STATE_INIT is only at the bottom, no state check fails and all arcs happen in the OpenMP state. |
| TaskStack.ScheduleRestoresStack | src/ompt-critical.cpp:504-572 | When a region is over, the stack is what it was at its beginning. |
| TaskStack.CallbackKeepsValues | src/ompt-critical.cpp:504-972 | In every schedule each clock shows the same effective value just after a callback as just before, arcs apart, at all levels. |
| TaskStack.OneArc | src/ompt-critical.cpp:504-1031 | Every callback takes one arc, except the ends of implicit tasks and parallel regions and the start of waiting for a lock. |
| TaskForest.CountsAreExact | src/ompt-critical.cpp:334-335 | Under every interleaving a task's count is its own liveness plus its unfreed children plus the decrements on their way. |
| TaskForest.ParentIsNotRecycled | src/ompt-critical.cpp:384-396 | The parent pointer of a task in use leads to the very task that created it, although tasks are recycled. |
| TaskForest.FreedOnceAfterDescendants | src/ompt-critical.cpp:782-788 | Each task is freed at most once, and only after all its descendants. |
| TaskForest.QuietRootHasCountOne | src/ompt-critical.cpp:558-560 | The check at the end of an implicit task holds: once all tasks below it are completed and out of freeTask, its count is one. |
| TaskForest.NoTaskLeaks | src/ompt-critical.cpp:782-788 | When all explicit tasks are completed and no thread is in freeTask, none is left. |
| TaskForest.ClimbGoesUp | src/ompt-critical.cpp:782-788 | Each turn of freeTask leads to an older task and keeps all counts exact. |
| TaskForest.OthersKeepHeight | src/ompt-critical.cpp:782-788 | No step of another thread changes which task a thread in freeTask holds, or recycles that task. |
| TaskForest.FreeTaskEnds | src/ompt-critical.cpp:782-788 | Under every interleaving a thread that completes the task with birth number b takes at most 2b + 2 steps in freeTask, and fewer until it leaves. |
| TaskForest.FreeTask | src/ompt-critical.cpp:782-788 | The ancestor loop as a method: it ends, from every reachable state. |
| Pools.StepKeepsInv | src/ompt-critical.cpp:58-177 | Every access to shared memory keeps lists, counters and locks of all pools consistent. |
| Pools.ObjectsArePartitioned | src/ompt-critical.cpp:58-177 | Under every interleaving an object is in the local list of its owner, in its remote list, or out, and in no list twice. |
| Pools.CounterIsRemoteLength | src/ompt-critical.cpp:87-136 | The counter of remote returns is the length of the remote list whenever nobody holds the lock. |
| Pools.MissingIsOutstanding | src/ompt-critical.cpp:82-84 | getMissing is the number of objects that are not in the pool. |
| Pools.HandsOutOwnFreeObject | src/ompt-critical.cpp:111-118 | getData hands out an object of the thread's own pool that nobody has. |
| Pools.LastReturnedIsTaken | src/ompt-critical.cpp:111-127 | A thread that returns an object of its own and then asks for one gets that very object, whatever other threads do in between, and no other object moves. |
| Pools.FilledCanTake | src/ompt-critical.cpp:87-118 | After newDatas, also when it relied on an unlocked look at the counter, the local list is not empty. |
| Handles.RequestData.Init | include/handle-data.h:346-363 | Sets handle and persistence and clears the flags; callbacks that were set before stay. |
| Handles.RequestData.SetCallbacks | include/handle-data.h:416-426 | Sets the callbacks that are given; a start callback makes the data persistent. |
| Handles.RequestData.Start | include/handle-data.h:365-370 | The start callback, if any, is called once; nothing else changes (over whole sequences: HandleRuns.CallbackRunsPerOperation). |
| Handles.RequestData.Cancel | include/handle-data.h:371-378 | Sets the flag and calls the cancel callback, if any, once. |
| Handles.RequestData.IsCancelled | include/handle-data.h:411-415 | Reading the flag clears it. |
| Handles.RequestData.Complete | include/handle-data.h:379-384 | The completion callback, if any, is called once; it merges a clock exactly if it is one of those that update and the request was not cancelled; calling it clears the flag. |
| Handles.RequestData.Fini | include/handle-data.h:389-405 | Nothing in the data refers to a request any more. |
| Handles.Factory.NewIndices | include/tracking.h:448-464 | The table grows by 64 free indices; live handles stay. |
| Handles.Factory.GetData | include/tracking.h:170-177 | Returns unused data that are in no live entry and in no pool. |
| Handles.Factory.NewHandle | include/tracking.h:478-493 | The new index was not live, is not the null handle, and stands for the MPI handle given. |
| Handles.Factory.NewRequest | include/tracking.h:565-577 | The same for requests, with callback; the data remember persistence exactly in builds without Fortran wrappers; the null request is passed through. |
| Handles.Factory.GetHandle | include/tracking.h:525-530 | Returns the MPI handle that a live index stands for. |
| Handles.Factory.FreeHandle | include/tracking.h:495-507 | The index is free again, its data are back in the pool, no callback runs. |
| Handles.Factory.DetachHandle | include/tracking.h:508-517 | The index is free again and its data belong to the caller. |
| Handles.Factory.CompleteRequest | include/tracking.h:604-626 | The callback runs once; a persistent request keeps its index, the index and data of another one are free again. |
| Handles.Factory.StartRequest | include/tracking.h:627-638 | Returns the MPI handle of a persistent request and calls its start callback once (over whole sequences: HandleRuns.CallbackRunsPerOperation). |
| Handles.Factory.CancelRequest | include/tracking.h:639-649 | Marks the request as cancelled, calls its cancel callback once, and changes no other request. |
| Handles.Shim.NewRequest | include/mpi-critical.h:553-600 | A nonblocking operation is one abstract step on the live requests. |
| Handles.Shim.Mprobe | include/mpi-critical.h:457-475 | Data from the request pool become those of a matched message. |
| Handles.Shim.Mrecv | include/mpi-critical.h:489-503 | Returns the handle given at the probe and frees the message; its data go to the message pool. |
| Handles.Shim.Imrecv | include/mpi-critical.h:553-600 | The data of the message become those of the request; both tables stay disjoint. |
| Handles.Shim.Wait | src/completion-wrappers.cpp:55-66 | Completion is one abstract step; a null request changes nothing. |
| Handles.Shim.RequestFree | src/completion-wrappers.cpp:35-43 | Freeing is one abstract step and leaves the null handle. |
| Handles.Shim.RequestStart | src/completion-wrappers.cpp:14-20 | Starting is one abstract step, of which HandleRuns.CallbackRunsPerOperation says what it calls; the MPI handle of the request is started. |
| Handles.Shim.RequestCancel | src/completion-wrappers.cpp:45-53 | Cancelling is one abstract step; a null request changes nothing. |
| Handles.Shim.Waitall | src/completion-wrappers.cpp:68-91 | The loop completes the requests of the array in order and overwrites it with null or, for persistent ones, the same index. |
| Handles.RequestAfterAll | src/completion-wrappers.cpp:83-88 | After the loop a non-persistent request is gone and a persistent one has its own new MPI handle. |
| Handles.OthersKeep | src/completion-wrappers.cpp:83-88 | The loop changes no request that is not in the array. |
| Handles.FiredByAll | src/completion-wrappers.cpp:83-88 | The callbacks of the array's requests run once each, in its order. |
| HandleRuns.CallbackRunsPerOperation | include/tracking.h:546-649 | In every sequence of operations on both tables, as long as a request is in the table its start, cancel and completion callbacks, as given when it was made, have each run exactly once for each start, cancellation and completion of its index, so not before the first, and no other request has its index or callbacks. |
| HandleRuns.NoCallbackAfterEnd | include/tracking.h:495-626 | Once the request is freed, or completed and not persistent, none of its callbacks ever runs again. |
| HandleRuns.RequestStandsForHandle | include/tracking.h:525-626 | In every sequence of operations a live request's index stands for the MPI handle given when it was made, or at its last completion, with or without callbacks. |
| HandleRuns.MessageStandsForHandle | include/tracking.h:478-530 | The index of a matched message stands for the MPI handle of its probe until the message is received, and then is free. |
| HandleRuns.CompletionMerges | include/handle-data.h:371-415 | Every completion calls the completion callback, and merges a clock if and only if it is an updating one and the request was not cancelled since it was made or last completed. |
| HandleRuns.FiresExactlyOnce | include/tracking.h:546-626 | In every sequence of operations on both tables, the completion callback of a non-persistent request runs exactly once, at its completion, merges a clock exactly if it is an updating one and the request was not cancelled, and the index is not given out again before. |
| HandleRuns.FreedNeverFires | include/tracking.h:495-507 | The callback of a request that is freed never runs. |
| HandleRuns.PersistentKeepsIndex | include/tracking.h:583-626 | A request whose data remember that it is persistent keeps its index until it is freed, and each of its callbacks runs once for each operation. |
| HandleRuns.IndexKeptExactlyWhen | include/tracking.h:583-626 | In every sequence of operations, a request keeps its index at its first completion if and only if its data remember that it is persistent. |
| HandleRuns.FortranLosesIndex | include/handle-data.h:346-363 | A persistent request in a build with Fortran wrappers, whose index is free after its first completion. |
| OverlappingCompletions.StepKeepsInv | include/tracking.h:546-626 | Every access of every thread keeps the live entries, the stack of available indices and the data of posts and completions in progress apart. |
| OverlappingCompletions.FiresOnceOnOwnData | include/tracking.h:604-626 | Under every interleaving of posts and completions, the completion of a request calls the callback of that very request, on data that no table entry and no other thread has, and that callback is called only this once. |
| OverlappingCompletions.RequestRunsItsCallback | include/tracking.h:546-626 | From end to end, under every interleaving: the completion of a request that was posted with a callback calls that callback, which runs once in the whole execution. |
| OverlappingCompletions.NothingIsLost | include/tracking.h:448-626 | At every moment every index of the table is either available or has a live request, and all data are either in the pool, or in exactly one entry, or with exactly one thread in the middle of a call. |
| OverlappingCompletions.CallbackIsNeverStuck | include/tracking.h:604-626 | A thread that has given back an index can always go on to the callback. |
| OverlappingCompletions.CallbackPrecedesReuseExactlyWhen | include/tracking.h:546-626 | Under every interleaving the callback precedes every reuse of the index, if and only if at no moment between release and callback the new requests since the release outnumber the later releases. |
| OverlappingCompletions.IndexIsReusedBeforeCallback | include/tracking.h:604-626 | Two threads of which the second gets the index of a request whose callback has not run yet. |
| HashMaps.CompactHashMap.Find | include/containers/CompactHashMap.h:91-103 | The walk ends and finds the position that a linear scan finds, or the end. |
| HashMaps.CompactHashMap.Lookup | include/tracking.h:94-99 | A lookup agrees with the finite map. |
| HashMaps.CompactHashMap.Insert | include/containers/CompactHashMap.h:105-128 | Appends the pair exactly if the key is new, otherwise changes nothing; the position returned has the key. |
| HashMaps.CompactHashMap.At | include/containers/CompactHashMap.h:66-89 | A new key is appended with the default value; the position returned has the key. |
| HashMaps.CompactHashMap.ReHash | include/containers/CompactHashMap.h:145-181 | Growing keeps all pairs and their order and links them anew; the capacity stays a power of two. |
| HashMaps.ChainHoldsBucket | include/containers/CompactHashMap.h:66-128 | The chain of each bucket visits exactly the items that hash to it, and links always go to smaller positions. |
| HashMaps.PositionsAreLookups | include/containers/CompactHashMap.h:91-103 | With distinct keys, the pairs in insertion order and the finite map have the same keys, values and size. |
| HashMaps.AssignmentIsUpdate | include/containers/CompactHashMap.h:66-89 | Writing through the reference of operator[] is an update of the finite map. |
| Vectors.Vector.EnsureSize | include/containers/Vector.h:385-412 | The elements stay, the capacity grows by a quarter to at least 16 and what is required, and no object is left in the old buffer. |
| Vectors.Vector.PushBack | include/containers/Vector.h:141-153 | Appends one element. |
| Vectors.Vector.PopBack | include/containers/Vector.h:155-159 | Removes and destroys the last element. |
| Vectors.Vector.Insert | include/containers/Vector.h:161-194 | Splices one element in at every position; constructors only meet raw slots, assignments only objects, and exactly the elements are live afterwards. |
| Vectors.Vector.InsertRange | include/containers/Vector.h:227-269 | The same for a sequence of elements of every length, with and without growth. |
| Vectors.Vector.Erase | include/containers/Vector.h:271-294 | Cuts the range out, and exactly the remaining elements are live afterwards. |
| Vectors.Vector.Resize | include/containers/Vector.h:325-342 | Cuts off the end or appends default values. |
| Vectors.SpliceUndoesCut | include/containers/Vector.h:227-294 | Inserting what was cut out restores the contents. |
| Atomics.NeverLowered | include/criticalPath.h:93-100 | Under every interleaving of callers of update_maximum, with spurious failures, the shared value never goes down. |
| Atomics.EndsAtMaximum | include/criticalPath.h:93-100 | When all callers are done the value is the largest of the start and all arguments. |
| Atomics.EndsAtSum | src/critical-core.cpp:162-171 | When all callers of atomic_add are done the value is the start plus the sum of all arguments. |
| Maxloc.MaxlocOp | src/tracking.cpp:157-168 | Each element of the result is the operand with the larger reference value, with everything that depends on it; on a tie the second operand stays. |
| Maxloc.ReduceIsLargest | src/tracking.cpp:157-168 | For every reduction tree the result is one of the inputs and has the largest reference value. |
| Maxloc.OrderIndependentExactlyWhen | src/tracking.cpp:157-168 | All trees over the same inputs, in any order, give the same result if and only if inputs that tie for the largest reference value are equal. |
| Maxloc.SwappedOperandsDiffer | src/tracking.cpp:185 | Two operands with equal reference and different dependent values whose order decides the result. |
| Maxloc.MaxUpdateAll | include/criticalPath.h:159-164 | Repeated maxUpdate is such a reduction of the old value and the others. |
| Offsets.MiddleIsNear | src/mpi-critical.cpp:164-173 | If more than half of the samples are within eps of a value, so is the middle of the sorted samples. |
| Offsets.TimerOffsets | src/mpi-critical.cpp:142-173 | The loops give every rank the middle of its sorted samples, and rank 0 the offset zero. |
| Offsets.OffsetIsNear | src/mpi-critical.cpp:142-173 | If at least 10 of the 19 round trips to a rank took at most 2 eps, its offset is within eps of the true one. |

## Left out

- Floating-point rounding, and the rule that the time 0 means "now": time is an exact positive real.
- Weak memory orderings: the steps of threads interleave in one order.
- Clocks.SyncClock.OmpHBefore: in all modules but UnlockedArcs one call is one step, as if the lock around it were taken.
- Clocks.SyncClock.CheckArc: that the state check holds is a condition on executions (ClockRuns.Checked); what the program does after a failed check is not modelled.
- ClockRuns.LongestPathExactlyWhen: the GPU clock is never merged and therefore not covered.
- FinishedRuns.ReportOfFinishedRun: the user-given runtime and the factor that scales the output are not modelled, and all processes share one measurement window.
- FinishedRuns.JoinedIsCovered: with a sufficient condition on the time after the last deposit, easy to see in a trace; FinishedRuns.CoveredExactlyWhen has the exact one, on paths.
- Reports.FinishMeasurement: numbers are exact reals, infinities and NaN; rounding, overflow and the sign of zero are not modelled.
- Barrier.BarrierDelivers: a lower bound, because recycled regions keep old clock values and explicit tasks deposit into slot 0 at any time; Barrier.BarrierBringsOnly says what else can come out.
- BarrierTasks.BarrierDeliversTaskExactlyWhen: about the barrier slots alone; what a thread receives through locks, messages or other tasks is part of the gains between its barriers.
- TaskRuns.TaskwaitReachesChildren: a lower bound for the same reason, TaskRuns.StepTakesOnly has the other side; untied, detached and late-fulfilled tasks are not modelled.
- TaskStack.ScheduleKeepsStack: tied tasks only, with the measurement on throughout and no MPI calls on the stack.
- Piggyback.ReceiveMergesItsSender: blocking point-to-point communication; nonblocking receives post the shadow receive at other moments, MPI_PROC_NULL and probes are not modelled, and a wildcard receive may match any channel with a message.
- The collective operations beyond the clock they carry, and their persistent and nonblocking variants.
- Handles.Factory.NewHandle: the data are initialised before they are in the table; the code puts them there first, which no other thread can notice before the call returns the index.
- Handles.Factory.CompleteRequest: one call at a time; OverlappingCompletions has overlapping calls.
- OverlappingCompletions.FiresOnceOnOwnData: non-persistent requests; frees and cancellations do not overlap with them.
- Handles.RequestData.Complete: a callback is a number and a record of its call; the shadow requests it waits for and the fields for kind, remote rank, tag and root are not modelled.
- Waitsome, Testsome, Waitany and Testany: the same completion of single requests, picked by the MPI library.
- The handle table of MPI libraries with pointer handles, and the translation of Fortran handles.
- HashMaps.CompactHashMap.ReHash: items and bucket heads are two arrays instead of one block of memory, and overflow of the capacity is not modelled.
- Vectors.Vector.Insert: the inserted value does not alias the vector; exceptions of element operations are not modelled.
- Barrier, Piggyback, Tasks, TaskStack, TaskForest, Pools, UnlockedArcs and OverlappingCompletions are state machines over values, so update in place is captured only for the clocks, the handle tables, the containers and the barrier callbacks.
- TaskForest.FreeTask: one thread on its own from any reachable state; TaskForest.FreeTaskEnds has the interleavings.
- Offsets.TimerOffsets: the exchange of the samples is an argument, the library's sort is a function that is proved to sort, and the subtraction of zero local times is dropped.
- Stack traces, option parsing, printing, the forwarding wrappers and the other containers.
