/**
 From a finished run to its report: a run whose workers joined their process, and whose
 processes took part in the last reduction, yields factors that are efficiencies.
 */
module FinishedRuns {
  import opened Clocks
  import opened ClockRuns
  import opened ClockOrder
  import opened ProcessLevel
  import Averages
  import Metrics

  /** Clock `c` of thread `v` is stopped after each of the events `i` to `j`. */
  ghost predicate StoppedFrom(x: Execution, v: nat, i: nat, j: nat, c: ClockType)
    requires x.Node(v, j)
  {
    forall k :: i <= k <= j ==> !Active(x.State(v, k), c)
  }

  /** No OpenMP arc enters thread `v` at any of the events `i` to `j - 1`. */
  ghost predicate NoOmpRead(x: Execution, v: nat, i: nat, j: nat)
    requires x.Node(v, j)
  {
    forall k :: i <= k < j ==> !(x.events[k].op.After? && ReadBy(x, v, k))
  }

  lemma {:induction false} ProcLevelFrozen(x: Execution, v: nat, i: nat, j: nat, c: ClockType)
    requires x.Node(v, j) && i <= j && c < 3 && StoppedFrom(x, v, i, j, c) && NoOmpRead(x, v, i, j)
    ensures x.Raw(v, i, c).proc == x.Raw(v, j, c).proc
    decreases j
  {
    if i < j {
      ProcLevelFrozen(x, v, i, j - 1, c);
      LevelStep(x, v, j - 1, c);
    }
  }

  // ---------------------------------------------------------------------------
  // Joined workers and reporting processes
  // ---------------------------------------------------------------------------

  /** A chain of OpenMP arcs, each from a deposit to a read, and on from the reader's next deposit. */
  datatype Chain = Last(write: nat, read: nat) | Hop(write: nat, read: nat, rest: Chain)

  /** The read that ends a chain. */
  function End(ch: Chain): nat {
    if ch.Last? then ch.read else End(ch.rest)
  }

  /** The chain leads from thread `t` to thread `m`. */
  ghost predicate IsChain(x: Execution, ch: Chain, t: nat, m: nat)
    requires x.Legal()
    decreases ch
  {
    && ch.read < |x.events| && x.Arc(ch.write, ch.read)
    && x.events[ch.write].op.Before? && x.events[ch.write].op.t == t
    && var u := x.events[ch.read].op.t;
       match ch
       case Last(_, _) => u == m
       case Hop(_, j, rest) => j < rest.write && IsChain(x, rest, u, m)
  }

  lemma ChainInRun(x: Execution, ch: Chain, t: nat, m: nat)
    requires x.Legal() && IsChain(x, ch, t, m)
    ensures x.Node(t, ch.write + 1) && End(ch) < |x.events| && x.Node(m, End(ch) + 1)
    decreases ch
  {
    assert x.StepAt(ch.read) && x.StepAt(ch.write);
    x.Shape(ch.read); x.Shape(ch.write);
    if ch.Hop? {
      ChainInRun(x, ch.rest, x.events[ch.read].op.t, m);
    }
  }

  lemma {:induction false} ChainCovers(x: Execution, ch: Chain, t: nat, m: nat, c: ClockType)
    requires x.Legal() && IsChain(x, ch, t, m) && c < 3
    ensures x.Node(t, ch.write + 1) && End(ch) < |x.events| && x.Node(m, End(ch) + 1)
    ensures ProcEff(x, t, ch.write + 1, c) <= ProcEff(x, m, End(ch) + 1, c)
    decreases ch
  {
    ChainInRun(x, ch, t, m);
    ArcBrings(x, ch.write, ch.read, c);
    x.TimeMonotone(ch.write + 1, ch.read + 1);
    if ch.Hop? {
      var u := x.events[ch.read].op.t;
      ChainCovers(x, ch.rest, u, m, c);
      ProcMonotone(x, u, ch.read + 1, ch.rest.write + 1, c);
    }
  }

  /** The useful time of thread `t` after event `i`. */
  ghost function WorkAfter(x: Execution, t: nat, i: nat): real
    requires x.Node(t, i)
  {
    Busy(x, t, |x.events|, USEFUL) - Busy(x, t, i, USEFUL)
  }

  /** What the process level of thread `m` has gained after event `j`. */
  ghost function GainAfter(x: Execution, m: nat, j: nat): real
    requires x.Node(m, j)
  {
    ProcEff(x, m, |x.events|, USEFUL) - ProcEff(x, m, j, USEFUL)
  }

  /** Worker `t` joined `m`, and worked no more after its last deposit than `m` gained after the read. */
  ghost predicate Joined(x: Execution, t: nat, m: nat)
    requires x.Legal() && t < x.Threads() && m < x.Threads()
  {
    t == m || exists ch :: IsChain(x, ch, t, m) && JoinsInTime(x, ch, t, m)
  }

  ghost predicate JoinsInTime(x: Execution, ch: Chain, t: nat, m: nat)
    requires x.Legal() && IsChain(x, ch, t, m)
  {
    ChainInRun(x, ch, t, m);
    WorkAfter(x, t, ch.write + 1) <= GainAfter(x, m, End(ch) + 1)
  }

  /** The final values of a thread in the initial state. */
  lemma FinalLevels(x: Execution, v: nat)
    requires x.Legal() && v < x.Threads() && x.State(v, |x.events|) == Init
    ensures x.Raw(v, |x.events|, USEFUL).thread == Busy(x, v, |x.events|, USEFUL) >= 0.0
    ensures x.Raw(v, |x.events|, USEFUL).proc == ProcEff(x, v, |x.events|, USEFUL) >= 0.0
  {
    ThreadLevelIsBusy(x, v, |x.events|, USEFUL);
    BusyAtMostElapsed(x, v, 0, |x.events|, USEFUL);
    ProcNonnegative(x, v, |x.events|, USEFUL);
  }

  /** A path over OpenMP arcs into thread `m` that weighs at least `value`. */
  ghost predicate OmpPathOf(x: Execution, p: Path, m: nat, value: real)
    requires x.Legal() && m < x.Threads()
  {
    IsOmpPath(x, p, m, |x.events|) && value <= x.Weight(p, m, |x.events|, USEFUL)
  }

  /** The process level at the end reaches a value, if and only if some path over OpenMP arcs does. */
  lemma LevelReachesExactlyWhen(x: Execution, m: nat, value: real)
    requires x.Legal() && m < x.Threads() && x.State(m, |x.events|) == Init
    requires NoRunningFreshRead(x, USEFUL, |x.events|)
    ensures value <= x.Raw(m, |x.events|, USEFUL).proc <==> exists p :: OmpPathOf(x, p, m, value)
  {
    FinalLevels(x, m);
    var longest := OmpPathIsAsLong(x, m, |x.events|, USEFUL);
    if p :| OmpPathOf(x, p, m, value) {
      NoOmpPathIsLonger(x, p, m, |x.events|, USEFUL);
    } else {
      assert !OmpPathOf(x, longest, m, value);
    }
  }

  /**
   At the end the useful time of a worker is covered by the process level of another thread, if and
   only if some path over OpenMP arcs into that thread weighs at least the time that the worker spent
   in useful computation.
   */
  lemma CoveredExactlyWhen(x: Execution, t: nat, m: nat)
    requires x.Legal() && t < x.Threads() && m < x.Threads() && NoRunningFreshRead(x, USEFUL, |x.events|)
    requires x.State(t, |x.events|) == Init && x.State(m, |x.events|) == Init
    ensures x.Raw(t, |x.events|, USEFUL).thread <= x.Raw(m, |x.events|, USEFUL).proc <==>
      exists p :: OmpPathOf(x, p, m, Busy(x, t, |x.events|, USEFUL))
  {
    FinalLevels(x, t);
    LevelReachesExactlyWhen(x, m, Busy(x, t, |x.events|, USEFUL));
  }

  /** Process thread `m` sent its clock to `r`, and neither computed nor joined anyone since. */
  ghost predicate Reported(x: Execution, m: nat, r: nat)
    requires x.Legal() && m < x.Threads() && r < x.Threads()
  {
    m == r || exists i, j :: ReportArc(x, m, r, i, j)
  }

  ghost predicate ReportArc(x: Execution, m: nat, r: nat, i: nat, j: nat)
    requires x.Legal() && m < x.Threads() && r < x.Threads()
  {
    && j < |x.events| && x.Arc(i, j)
    && x.events[i].op.Load? && x.events[i].op.t == m && x.events[j].op.t == r
    && StoppedFrom(x, m, i + 1, |x.events|, USEFUL) && NoOmpRead(x, m, i + 1, |x.events|)
  }

  lemma JoinedIsCovered(x: Execution, t: nat, m: nat)
    requires x.Legal() && t < x.Threads() && m < x.Threads() && Joined(x, t, m)
    requires x.State(t, |x.events|) == Init && x.State(m, |x.events|) == Init
    ensures x.Raw(t, |x.events|, USEFUL).thread <= x.Raw(m, |x.events|, USEFUL).proc
  {
    if t == m {
      ClocksAlwaysOrdered(x, t, |x.events|);
    } else {
      var ch :| IsChain(x, ch, t, m) && JoinsInTime(x, ch, t, m);
      ChainCovers(x, ch, t, m, USEFUL);
      FinalLevels(x, t);
      FinalLevels(x, m);
      ThreadLevelIsBusy(x, t, ch.write + 1, USEFUL);
      ClocksAlwaysOrdered(x, t, ch.write + 1);
    }
  }

  lemma ReportedIsCovered(x: Execution, m: nat, r: nat)
    requires x.Legal() && m < x.Threads() && r < x.Threads() && Reported(x, m, r)
    requires x.State(r, |x.events|) == Init
    ensures x.Raw(m, |x.events|, USEFUL).proc <= x.Raw(r, |x.events|, USEFUL).critical
  {
    var n := |x.events|;
    if m == r {
      ClocksAlwaysOrdered(x, m, n);
    } else {
      var i: nat, j: nat :| ReportArc(x, m, r, i, j);
      ProcLevelFrozen(x, m, i + 1, n, USEFUL);
      ClocksAlwaysOrdered(x, m, i + 1);
      ArcAtLeast(x, i, j, USEFUL);
      assert x.State(r, j) == Mpi by { assert x.StepAt(j); x.Shape(j); }
      CriticalMonotone(x, r, j + 1, n, USEFUL);
    }
  }

  // ---------------------------------------------------------------------------
  // The report
  // ---------------------------------------------------------------------------

  ghost predicate InRun(x: Execution, team: seq<nat>) {
    forall i :: 0 <= i < |team| ==> team[i] < x.Threads()
  }

  /** Teams of thread numbers, one per process, the first thread of a team being the one that reports. */
  ghost predicate Stopped(x: Execution, teams: seq<seq<nat>>)
    requires x.Legal()
  {
    && |teams| > 0
    && (forall p :: 0 <= p < |teams| ==> |teams[p]| > 0 && InRun(x, teams[p]))
    && (forall p, i :: 0 <= p < |teams| && 0 <= i < |teams[p]| ==> x.State(teams[p][i], |x.events|) == Init)
  }

  ghost predicate AllReported(x: Execution, teams: seq<seq<nat>>)
    requires x.Legal() && Stopped(x, teams)
  {
    forall p :: 0 <= p < |teams| ==> Reported(x, teams[p][0], teams[0][0])
  }

  ghost predicate Finished(x: Execution, teams: seq<seq<nat>>)
    requires x.Legal()
  {
    && Stopped(x, teams) && AllReported(x, teams)
    && forall p, i :: 0 <= p < |teams| && 0 <= i < |teams[p]| ==> Joined(x, teams[p][i], teams[p][0])
  }

  ghost function Team(x: Execution, team: seq<nat>): seq<ThreadValue>
    requires x.Legal() && InRun(x, team)
  {
    x.Shape(|x.events|);
    var threads := x.worlds[|x.events|].threads;
    seq(|team|, i requires 0 <= i < |team| && team[i] < |threads| => threads[team[i]])
  }

  ghost function Processes(x: Execution, teams: seq<seq<nat>>): seq<Metrics.Process>
    requires x.Legal() && Stopped(x, teams)
  {
    x.Shape(|x.events|);
    seq(|teams|, p requires 0 <= p < |teams| =>
      Metrics.Process(Team(x, teams[p]), x.worlds[|x.events|].threads[teams[p][0]]))
  }

  /** What the report sees of a thread is what the execution shows. */
  lemma ThreadOfProcess(x: Execution, teams: seq<seq<nat>>, p: nat, i: nat)
    requires x.Legal() && Stopped(x, teams) && p < |teams| && i < |teams[p]|
    ensures var q, n := Processes(x, teams)[p], |x.events|;
      && |Metrics.CountedThreads(q)| == |teams[p]|
      && Metrics.CountedThreads(q)[i].clocks[USEFUL].thread == Busy(x, teams[p][i], n, USEFUL) >= 0.0
      && q.master.clocks[USEFUL].proc == ProcEff(x, teams[p][0], n, USEFUL) >= 0.0
  {
    x.Shape(|x.events|);
    FinalLevels(x, teams[p][i]);
    FinalLevels(x, teams[p][0]);
  }

  /** What holds at the end of every run in which all processes reported. */
  lemma ReportedRunIsBounded(x: Execution, teams: seq<seq<nat>>)
    requires x.Legal() && Stopped(x, teams) && AllReported(x, teams) && OmpArcsInOmp(x)
    ensures Metrics.RunBounded(Processes(x, teams), x.Time(|x.events|) - x.start)
  {
    var ps, n, r := Processes(x, teams), |x.events|, teams[0][0];
    x.Shape(n);
    forall p | 0 <= p < |teams|
      ensures Metrics.ProcessBounded(ps[p])
      ensures ps[p].master.clocks[USEFUL].proc <= ps[0].master.clocks[USEFUL].critical
    {
      ReportedIsCovered(x, teams[p][0], r);
      StoppedProcess(x, teams, p);
    }
    ClocksAlwaysOrdered(x, r, n);
    AtMostElapsed(x, r, n, OOMP);
  }

  /** The useful times of the threads of each team. */
  ghost function BusyTimes(x: Execution, teams: seq<seq<nat>>): seq<seq<real>>
    requires x.Legal() && Stopped(x, teams)
  {
    seq(|teams|, p requires 0 <= p < |teams| =>
      seq(|teams[p]|, i requires 0 <= i < |teams[p]| => Busy(x, teams[p][i], |x.events|, USEFUL)))
  }

  lemma TimesAreBusy(x: Execution, teams: seq<seq<nat>>)
    requires x.Legal() && Stopped(x, teams)
    ensures Averages.TimesOf(Processes(x, teams)) == BusyTimes(x, teams)
  {
    var ps := Processes(x, teams);
    forall p | 0 <= p < |teams|
      ensures Averages.TimesOf(ps)[p] == BusyTimes(x, teams)[p]
    {
      ThreadOfProcess(x, teams, p, 0);
      forall i | 0 <= i < |teams[p]|
        ensures Metrics.CountedThreads(ps[p])[i].clocks[USEFUL].thread == Busy(x, teams[p][i], |x.events|, USEFUL)
      {
        ThreadOfProcess(x, teams, p, i);
      }
    }
  }

  /** `value` is the useful time of some thread, and no thread has a larger one. */
  ghost predicate LargestBusy(x: Execution, teams: seq<seq<nat>>, value: real)
    requires x.Legal() && Stopped(x, teams)
  {
    && (exists p, i :: 0 <= p < |teams| && 0 <= i < |teams[p]| && value == Busy(x, teams[p][i], |x.events|, USEFUL))
    && (forall p, i :: 0 <= p < |teams| && 0 <= i < |teams[p]| ==> Busy(x, teams[p][i], |x.events|, USEFUL) <= value)
  }

  /** `value` is the longest path over OpenMP arcs into one of the reporting threads. */
  ghost predicate LargestLevel(x: Execution, teams: seq<seq<nat>>, value: real)
    requires x.Legal() && Stopped(x, teams)
  {
    && (exists q :: 0 <= q < |teams| && LongestOmpPath(x, teams[q][0], |x.events|, USEFUL, value))
    && (forall q :: 0 <= q < |teams| ==> ProcEff(x, teams[q][0], |x.events|, USEFUL) <= value)
  }

  lemma StoppedProcess(x: Execution, teams: seq<seq<nat>>, p: nat)
    requires x.Legal() && Stopped(x, teams) && p < |teams|
    ensures var q := Processes(x, teams)[p];
      Metrics.ProcessBounded(q) && |Metrics.CountedThreads(q)| == |teams[p]|
  {
    ThreadOfProcess(x, teams, p, 0);
    forall i | 0 <= i < |teams[p]|
      ensures Metrics.CountedThreads(Processes(x, teams)[p])[i].clocks[USEFUL].thread >= 0.0
    {
      ThreadOfProcess(x, teams, p, i);
    }
  }

  lemma LargestTimes(x: Execution, teams: seq<seq<nat>>)
    requires x.Legal() && Stopped(x, teams)
    ensures |Processes(x, teams)| == |Metrics.Locals(Processes(x, teams))| == |teams|
    ensures LargestBusy(x, teams, Metrics.MaxAll(Metrics.MaxUsefuls(Metrics.Locals(Processes(x, teams)))))
  {
    var ps := Processes(x, teams);
    forall p | 0 <= p < |teams|
      ensures Metrics.ProcessBounded(ps[p]) && |Metrics.CountedThreads(ps[p])| == |teams[p]|
    {
      StoppedProcess(x, teams, p);
    }
    var p, i := Averages.LargestUseful(ps);
    ThreadOfProcess(x, teams, p, i);
    forall q, k | 0 <= q < |teams| && 0 <= k < |teams[q]|
      ensures Busy(x, teams[q][k], |x.events|, USEFUL) <= Metrics.MaxAll(Metrics.MaxUsefuls(Metrics.Locals(ps)))
    {
      ThreadOfProcess(x, teams, q, k);
      assert Metrics.Within(ps[q], Metrics.MaxAll(Metrics.MaxUsefuls(Metrics.Locals(ps))));
    }
  }

  lemma LargestLevels(x: Execution, teams: seq<seq<nat>>)
    requires x.Legal() && Stopped(x, teams) && NoRunningFreshRead(x, USEFUL, |x.events|)
    ensures |Metrics.Locals(Processes(x, teams))| == |teams|
    ensures LargestLevel(x, teams, Metrics.MaxAll(Metrics.Procs(Metrics.Locals(Processes(x, teams)))))
  {
    var procs := Metrics.Procs(Metrics.Locals(Processes(x, teams)));
    forall q | 0 <= q < |teams|
      ensures procs[q] == ProcEff(x, teams[q][0], |x.events|, USEFUL)
    {
      ThreadOfProcess(x, teams, q, 0);
    }
    var q := Metrics.MaxAllIsLargest(procs);
    ProcessLevelIsLongestOmpPath(x, teams[q][0], |x.events|, USEFUL);
  }

  /**
   What the report is made of, in terms of the events alone: the largest and the mean time of a thread
   in useful computation, the mean of the largest times of its process, the longest path over OpenMP
   arcs, and for two clocks the longest path of the whole event graph into the reporting thread of
   rank 0.
   */
  lemma TotalsOfRun(x: Execution, teams: seq<seq<nat>>, runtime: real)
    requires x.Legal() && Stopped(x, teams) && OmpArcsInOmp(x)
    ensures var ps := Processes(x, teams);
      && |Metrics.Locals(ps)| == |ps| == |teams| && Metrics.SumOf(Metrics.Counts(Metrics.Locals(ps))) > 0.0
      && var t := Metrics.TotalsOf(Metrics.Locals(ps), ps[0].master, runtime);
      && var all := Averages.Concat(BusyTimes(x, teams));
      && LargestBusy(x, teams, t.maxUseful) && Metrics.IsQuotient(t.avgUseful, Metrics.SumOf(all), |all| as real)
      && var tops := Averages.Concat(Averages.Tops(BusyTimes(x, teams)));
      && Metrics.IsQuotient(t.avgLocalMax, Metrics.SumOf(tops), |all| as real)
      && LargestLevel(x, teams, t.maxProc)
      && LongestPath(x, teams[0][0], |x.events|, USEFUL, t.ideal)
      && LongestPath(x, teams[0][0], |x.events|, OOMP, t.outsideOmp)
  {
    var ps := Processes(x, teams);
    TimesAreBusy(x, teams);
    Averages.AverageIsMean(ps, runtime);
    forall p | 0 <= p < |teams|
      ensures Metrics.ProcessBounded(ps[p])
    {
      StoppedProcess(x, teams, p);
    }
    Averages.AverageOfTops(ps, runtime);
    LargestTimes(x, teams);
    StoppedInOmpIsExact(x, USEFUL, |x.events|);
    StoppedInOmpIsExact(x, OOMP, |x.events|);
    LargestLevels(x, teams);
    x.Shape(|x.events|);
    ScalarIsLongestPath(x, teams[0][0], |x.events|, USEFUL);
    ScalarIsLongestPath(x, teams[0][0], |x.events|, OOMP);
  }

  /** A path over OpenMP arcs into a reporting thread weighs at least the useful time of every thread. */
  ghost predicate CoversEveryThread(x: Execution, teams: seq<seq<nat>>, q: nat, path: Path)
    requires x.Legal() && Stopped(x, teams) && q < |teams|
  {
    && IsOmpPath(x, path, teams[q][0], |x.events|)
    && forall p, i :: 0 <= p < |teams| && 0 <= i < |teams[p]| ==>
         Busy(x, teams[p][i], |x.events|, USEFUL) <= x.Weight(path, teams[q][0], |x.events|, USEFUL)
  }

  ghost predicate OnePathCovers(x: Execution, teams: seq<seq<nat>>)
    requires x.Legal() && Stopped(x, teams)
  {
    exists q, path :: 0 <= q < |teams| && CoversEveryThread(x, teams, q, path)
  }

  lemma CoversExactlyWhen(x: Execution, teams: seq<seq<nat>>, q: nat)
    requires x.Legal() && Stopped(x, teams) && q < |teams|
    ensures Metrics.CoversAll(Processes(x, teams), q) <==>
      forall p, i :: 0 <= p < |teams| && 0 <= i < |teams[p]| ==>
        Busy(x, teams[p][i], |x.events|, USEFUL) <= ProcEff(x, teams[q][0], |x.events|, USEFUL)
  {
    var ps := Processes(x, teams);
    ThreadOfProcess(x, teams, q, 0);
    forall p | 0 <= p < |teams|
      ensures |Metrics.CountedThreads(ps[p])| == |teams[p]|
    {
      ThreadOfProcess(x, teams, p, 0);
    }
    forall p, i | 0 <= p < |teams| && 0 <= i < |teams[p]|
      ensures Metrics.CountedThreads(ps[p])[i].clocks[USEFUL].thread == Busy(x, teams[p][i], |x.events|, USEFUL)
    {
      ThreadOfProcess(x, teams, p, i);
    }
  }

  /** One process level covers all useful times, if and only if one path does. */
  lemma OnePathExactlyWhen(x: Execution, teams: seq<seq<nat>>)
    requires x.Legal() && Stopped(x, teams) && NoRunningFreshRead(x, USEFUL, |x.events|)
    ensures Metrics.Covered(Processes(x, teams)) <==> OnePathCovers(x, teams)
  {
    if Metrics.Covered(Processes(x, teams)) {
      var q :| 0 <= q < |teams| && Metrics.CoversAll(Processes(x, teams), q);
      CoversExactlyWhen(x, teams, q);
      var path := OmpPathIsAsLong(x, teams[q][0], |x.events|, USEFUL);
      assert CoversEveryThread(x, teams, q, path);
    }
    if OnePathCovers(x, teams) {
      var q, path :| 0 <= q < |teams| && CoversEveryThread(x, teams, q, path);
      CoversExactlyWhen(x, teams, q);
      NoOmpPathIsLonger(x, path, teams[q][0], |x.events|, USEFUL);
      assert Metrics.CoversAll(Processes(x, teams), q);
    }
  }

  /**
   At the end of every run in which all processes reported and some thread did useful work: no
   denominator is zero, the six factors are in the unit interval, the parallel efficiency is the
   product of the MPI and the OpenMP efficiency and the stacks of the plot fill the unit interval, if
   and only if some path over OpenMP arcs into a reporting thread weighs at least the useful time of
   every thread.
   */
  lemma ReportExactlyWhen(x: Execution, teams: seq<seq<nat>>, ps: seq<Metrics.Process>, runtime: real)
    requires x.Legal() && Stopped(x, teams) && AllReported(x, teams) && OmpArcsInOmp(x)
    requires ps == Processes(x, teams) && runtime == x.Time(|x.events|) - x.start
    requires Metrics.SomeWork(ps)
    ensures Metrics.GoodReport(ps, runtime) <==> OnePathCovers(x, teams)
  {
    ReportedRunIsBounded(x, teams);
    Metrics.GoodReportExactlyWhen(ps, runtime);
    StoppedInOmpIsExact(x, USEFUL, |x.events|);
    OnePathExactlyWhen(x, teams);
  }

  lemma ProcessIsCovered(x: Execution, teams: seq<seq<nat>>, p: nat)
    requires x.Legal() && Finished(x, teams) && p < |teams|
    ensures var q := Processes(x, teams)[p]; Metrics.Within(q, q.master.clocks[USEFUL].proc)
  {
    x.Shape(|x.events|);
    forall i | 0 <= i < |teams[p]|
      ensures x.Raw(teams[p][i], |x.events|, USEFUL).thread <= x.Raw(teams[p][0], |x.events|, USEFUL).proc
    {
      JoinedIsCovered(x, teams[p][i], teams[p][0]);
    }
  }

  /** If all workers joined in time, the process with the largest process level covers all threads. */
  lemma FinishedRunIsCovered(x: Execution, teams: seq<seq<nat>>)
    requires x.Legal() && Finished(x, teams)
    ensures Metrics.Covered(Processes(x, teams))
  {
    var ps := Processes(x, teams);
    var levels := seq(|ps|, p requires 0 <= p < |ps| => ps[p].master.clocks[USEFUL].proc);
    var q := Metrics.MaxAllIsLargest(levels);
    forall p | 0 <= p < |ps|
      ensures Metrics.Within(ps[p], ps[q].master.clocks[USEFUL].proc)
    {
      ProcessIsCovered(x, teams, p);
      assert levels[p] <= levels[q];
    }
    assert Metrics.CoversAll(ps, q);
  }

  /** So the report of every such run with some work is good. */
  lemma ReportOfFinishedRun(x: Execution, teams: seq<seq<nat>>, ps: seq<Metrics.Process>, runtime: real)
    requires x.Legal() && Finished(x, teams) && OmpArcsInOmp(x)
    requires ps == Processes(x, teams) && runtime == x.Time(|x.events|) - x.start
    requires Metrics.SomeWork(ps)
    ensures Metrics.GoodReport(ps, runtime)
  {
    ReportedRunIsBounded(x, teams);
    FinishedRunIsCovered(x, teams);
    Metrics.GoodReportExactlyWhen(ps, runtime);
  }
}
