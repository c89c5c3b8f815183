/**
 A worker that is still busy after its team's last barrier: between the end of the barrier and the
 end of its implicit task a thread is in the useful state again, and what it works there is
 deposited nowhere.  In the executions below a worker ends its task at some time from 1 on, and that
 time is the OpenMP serialisation efficiency.
 */
module LateWorkers {
  import opened Clocks
  import opened ClockRuns
  import opened ClockOrder
  import opened ProcessLevel
  import opened FinishedRuns
  import Metrics

  // ---------------------------------------------------------------------------
  // Two threads and one object, as far as the report looks at them
  // ---------------------------------------------------------------------------

  /** The stack of a thread, and what both its useful clock and its clock outside OpenMP show. */
  datatype Line = Line(stack: seq<ClockState>, clock: CpClocks)

  datatype Sketch = Sketch(a: Line, b: Line, state: ClockState, clock: CpClocks)

  predicate ShowsThread(v: ThreadValue, l: Line) {
    l.stack != [] && v.stack == l.stack && v.clocks[USEFUL] == l.clock && v.clocks[OOMP] == l.clock
  }

  predicate Shows(w: World, k: Sketch) {
    && w.running && |w.threads| == 2 && |w.syncs| == 1
    && ShowsThread(w.threads[0], k.a) && ShowsThread(w.threads[1], k.b)
    && w.syncs[0].state == k.state && w.syncs[0].clocks[USEFUL] == k.clock && w.syncs[0].clocks[OOMP] == k.clock
  }

  function Top(l: Line): ClockState
    requires l.stack != []
  {
    l.stack[|l.stack| - 1]
  }

  /** The states in which both clocks do the same. */
  predicate Plain(cs: ClockState) {
    cs == Init || cs == Useful || cs == Omp
  }

  function LineOf(k: Sketch, t: nat): Line {
    if t == 0 then k.a else k.b
  }

  function Drawn(k: Sketch, t: nat, l: Line): Sketch {
    if t == 0 then k.(a := l) else k.(b := l)
  }

  function EnterLine(l: Line, cs: ClockState, time: real): Line
    requires l.stack != []
  {
    Line(l.stack + [cs], SwitchedOne(l.clock, USEFUL, Top(l), cs, time))
  }

  function ExitLine(l: Line, time: real): Line
    requires |l.stack| > 1
  {
    var rest := l.stack[..|l.stack| - 1];
    Line(rest, SwitchedOne(l.clock, USEFUL, Top(l), rest[|rest| - 1], time))
  }

  lemma EnterShows(v: ThreadValue, l: Line, cs: ClockState, time: real)
    requires ShowsThread(v, l) && Plain(Top(l)) && Plain(cs)
    ensures ShowsThread(Entered(true, v, time, cs), EnterLine(l, cs, time))
  {
  }

  lemma ExitShows(v: ThreadValue, l: Line, time: real)
    requires ShowsThread(v, l) && |l.stack| > 1 && l.stack[|l.stack| - 1] != Init
    requires Plain(Top(l)) && Plain(l.stack[|l.stack| - 2])
    ensures ShowsThread(Exited(true, v, time), ExitLine(l, time))
  {
  }

  /** An execution with arcs in the OpenMP state, whose last world shows the sketch. */
  ghost predicate Ends(x: Execution, k: Sketch) {
    x.Legal() && OmpArcsInOmp(x) && Shows(x.worlds[|x.events|], k)
  }

  lemma ArcsExtend(x: Execution, e: Event, y: Execution)
    requires x.Legal() && OmpArcsInOmp(x) && x.worlds[|x.events|].running && WellFormed(x.worlds[|x.events|])
    requires y.Legal() && y.events == x.events + [e]
    requires |y.worlds| == |x.worlds| + 1 && y.worlds[..|x.worlds|] == x.worlds
    requires e.op.Before? || e.op.After? ==>
      e.op.t < |x.worlds[|x.events|].threads| && x.worlds[|x.events|].threads[e.op.t].State() == Omp
    ensures OmpArcsInOmp(y)
  {
    forall k | 0 <= k < |y.events| && y.worlds[k].running
      ensures OmpArcAt(y, k)
    {
      assert y.worlds[k] == y.worlds[..|x.worlds|][k] == x.worlds[k];
      if k < |x.events| {
        assert OmpArcAt(x, k) && x.StepAt(k);
        x.Shape(k);
        y.Shape(k);
      }
    }
  }

  lemma Enters(x: Execution, k: Sketch, t: nat, cs: ClockState, time: real, l: Line) returns (y: Execution)
    requires Ends(x, k) && t < 2 && x.Time(|x.events|) <= time
    requires LineOf(k, t).stack != [] && Plain(Top(LineOf(k, t))) && Plain(cs) && l == EnterLine(LineOf(k, t), cs, time)
    ensures Ends(y, Drawn(k, t, l)) && y.start == x.start && y.events == x.events + [Event(time, Enter(t, cs))]
  {
    x.Shape(|x.events|);
    EnterShows(x.worlds[|x.events|].threads[t], LineOf(k, t), cs, time);
    y := Extend(x, Event(time, Enter(t, cs)));
    ArcsExtend(x, Event(time, Enter(t, cs)), y);
  }

  lemma Exits(x: Execution, k: Sketch, t: nat, time: real, l: Line) returns (y: Execution)
    requires Ends(x, k) && t < 2 && x.Time(|x.events|) <= time && |LineOf(k, t).stack| > 1
    requires Top(LineOf(k, t)) != Init && Plain(Top(LineOf(k, t)))
    requires Plain(LineOf(k, t).stack[|LineOf(k, t).stack| - 2])
    requires l == ExitLine(LineOf(k, t), time)
    ensures Ends(y, Drawn(k, t, l)) && y.start == x.start && y.events == x.events + [Event(time, Exit(t))]
  {
    x.Shape(|x.events|);
    ExitShows(x.worlds[|x.events|].threads[t], LineOf(k, t), time);
    y := Extend(x, Event(time, Exit(t)));
    ArcsExtend(x, Event(time, Exit(t)), y);
  }

  lemma Deposits(x: Execution, k: Sketch, t: nat, time: real, k': Sketch) returns (y: Execution)
    requires Ends(x, k) && t < 2 && x.Time(|x.events|) <= time && LineOf(k, t).stack != [] && Top(LineOf(k, t)) == Omp
    requires k.state == Init || k.state == Omp
    requires var c := LineOf(k, t).clock;
      k' == k.(state := Omp, clock := if k.state == Init then c else k.clock.MaxUpdate(c))
    ensures Ends(y, k') && y.start == x.start && y.events == x.events + [Event(time, Before(t, 0))]
  {
    x.Shape(|x.events|);
    y := Extend(x, Event(time, Before(t, 0)));
    ArcsExtend(x, Event(time, Before(t, 0)), y);
  }

  lemma Reads(x: Execution, k: Sketch, t: nat, time: real, l: Line) returns (y: Execution)
    requires Ends(x, k) && t < 2 && x.Time(|x.events|) <= time && LineOf(k, t).stack != [] && Top(LineOf(k, t)) == Omp
    requires k.state == Omp && l == LineOf(k, t).(clock := LineOf(k, t).clock.MaxUpdate(k.clock))
    ensures Ends(y, Drawn(k, t, l)) && y.start == x.start && y.events == x.events + [Event(time, After(t, 0))]
  {
    x.Shape(|x.events|);
    y := Extend(x, Event(time, After(t, 0)));
    ArcsExtend(x, Event(time, After(t, 0)), y);
  }

  /** May the event come next, and what does it draw? */
  predicate Fits(k: Sketch, e: Event) {
    (e.op.Enter? || e.op.Exit? || e.op.Before? || e.op.After?) && e.op.t < 2 &&
    var l := LineOf(k, e.op.t);
    && l.stack != [] && Plain(Top(l))
    && match e.op
       case Enter(_, cs) => Plain(cs)
       case Exit(_) => |l.stack| > 1 && Top(l) != Init && Plain(l.stack[|l.stack| - 2])
       case Before(_, s) => s == 0 && Top(l) == Omp && (k.state == Init || k.state == Omp)
       case After(_, s) => s == 0 && Top(l) == Omp && k.state == Omp
       case _ => false
  }

  function Draw(k: Sketch, e: Event): Sketch
    requires Fits(k, e)
  {
    var l := LineOf(k, e.op.t);
    match e.op
    case Enter(t, cs) => Drawn(k, t, EnterLine(l, cs, e.time))
    case Exit(t) => Drawn(k, t, ExitLine(l, e.time))
    case Before(t, _) => k.(state := Omp, clock := if k.state == Init then l.clock else k.clock.MaxUpdate(l.clock))
    case After(t, _) => Drawn(k, t, l.(clock := l.clock.MaxUpdate(k.clock)))
    case _ => k
  }

  lemma Goes(x: Execution, k: Sketch, e: Event) returns (y: Execution)
    requires Ends(x, k) && Fits(k, e) && x.Time(|x.events|) <= e.time
    ensures Ends(y, Draw(k, e)) && y.start == x.start && y.events == x.events + [e]
  {
    var t := e.op.t;
    match e.op
    case Enter(_, cs) => y := Enters(x, k, t, cs, e.time, EnterLine(LineOf(k, t), cs, e.time));
    case Exit(_) => y := Exits(x, k, t, e.time, ExitLine(LineOf(k, t), e.time));
    case Before(_, _) => y := Deposits(x, k, t, e.time, Draw(k, e));
    case After(_, _) => y := Reads(x, k, t, e.time, LineOf(k, t).(clock := LineOf(k, t).clock.MaxUpdate(k.clock)));
  }

  // ---------------------------------------------------------------------------
  // The executions
  // ---------------------------------------------------------------------------

  /** Both threads begin at 0 and reach the barrier at 1; thread 0 ends its task at 1, thread 1 at `end`. */
  function EventAt(end: real, i: nat): Event {
    match i
    case 0 => Event(0.0, Enter(0, Omp))
    case 1 => Event(0.0, Enter(0, Useful))
    case 2 => Event(0.0, Enter(1, Omp))
    case 3 => Event(0.0, Enter(1, Useful))
    case 4 => Event(1.0, Enter(0, Omp))      // barrier begin
    case 5 => Event(1.0, Before(0, 0))
    case 6 => Event(1.0, Enter(1, Omp))
    case 7 => Event(1.0, Before(1, 0))
    case 8 => Event(1.0, After(0, 0))        // barrier end
    case 9 => Event(1.0, Exit(0))
    case 10 => Event(1.0, Exit(0))           // implicit task end
    case 11 => Event(1.0, Exit(0))
    case 12 => Event(1.0, After(1, 0))       // barrier end
    case 13 => Event(1.0, Exit(1))
    case 14 => Event(end, Exit(1))           // implicit task end
    case _ => Event(end, Exit(1))
  }

  function At(v: real): CpClocks {
    CpClocks(v, v, v)
  }

  const NOT_YET := Line([Init], ZERO)
  const BEGUN := Line([Init, Omp], ZERO)
  const BUSY := Line([Init, Omp, Useful], ZERO)
  const WAITING := Line([Init, Omp, Useful, Omp], At(1.0))

  function SketchAt(end: real, i: nat): Sketch {
    match i
    case 0 => Sketch(NOT_YET, NOT_YET, Init, ZERO)
    case 1 => Sketch(BEGUN, NOT_YET, Init, ZERO)
    case 2 => Sketch(BUSY, NOT_YET, Init, ZERO)
    case 3 => Sketch(BUSY, BEGUN, Init, ZERO)
    case 4 => Sketch(BUSY, BUSY, Init, ZERO)
    case 5 => Sketch(WAITING, BUSY, Init, ZERO)
    case 6 => Sketch(WAITING, BUSY, Omp, At(1.0))
    case 7 => Sketch(WAITING, WAITING, Omp, At(1.0))
    case 8 => Sketch(WAITING, WAITING, Omp, At(1.0))
    case 9 => Sketch(WAITING, WAITING, Omp, At(1.0))
    case 10 => Sketch(BUSY, WAITING, Omp, At(1.0))
    case 11 => Sketch(Line([Init, Omp], At(1.0)), WAITING, Omp, At(1.0))
    case 12 => Sketch(Line([Init], At(1.0)), WAITING, Omp, At(1.0))
    case 13 => Sketch(Line([Init], At(1.0)), WAITING, Omp, At(1.0))
    case 14 => Sketch(Line([Init], At(1.0)), BUSY, Omp, At(1.0))
    case 15 => Sketch(Line([Init], At(1.0)), Line([Init, Omp], At(end)), Omp, At(1.0))
    case _ => Sketch(Line([Init], At(1.0)), Line([Init], At(end)), Omp, At(1.0))
  }

  predicate Links(k: Sketch, e: Event, k': Sketch) {
    Fits(k, e) && k' == Draw(k, e)
  }

  lemma Entering(l: Line, cs: ClockState, time: real, l': Line)
    requires l.stack != [] && l'.stack == l.stack + [cs] && l'.clock == SwitchedOne(l.clock, USEFUL, Top(l), cs, time)
    ensures EnterLine(l, cs, time) == l'
  {
  }

  lemma Exiting(l: Line, cs: ClockState, time: real, l': Line)
    requires l'.stack != [] && l.stack == l'.stack + [cs] && l'.clock == SwitchedOne(l.clock, USEFUL, cs, Top(l'), time)
    ensures ExitLine(l, time) == l'
  {
    assert l.stack[..|l.stack| - 1] == l'.stack;
  }

  lemma LinksToBarrier(end: real, i: nat)
    requires i < 8
    ensures Links(SketchAt(end, i), EventAt(end, i), SketchAt(end, i + 1))
  {
    Entering(NOT_YET, Omp, 0.0, BEGUN);
    Entering(BEGUN, Useful, 0.0, BUSY);
    Entering(BUSY, Omp, 1.0, WAITING);
  }

  lemma LinksOfFirst(end: real, i: nat)
    requires 8 <= i < 12
    ensures Links(SketchAt(end, i), EventAt(end, i), SketchAt(end, i + 1))
  {
    if i == 9 {
      Exiting(WAITING, Omp, 1.0, BUSY);
    } else if i == 10 {
      Exiting(BUSY, Useful, 1.0, Line([Init, Omp], At(1.0)));
    } else if i == 11 {
      Exiting(Line([Init, Omp], At(1.0)), Omp, 1.0, Line([Init], At(1.0)));
    }
  }

  lemma LinksOfSecond(end: real, i: nat)
    requires 12 <= i < 16
    ensures Links(SketchAt(end, i), EventAt(end, i), SketchAt(end, i + 1))
  {
    if i == 13 {
      Exiting(WAITING, Omp, 1.0, BUSY);
    } else if i == 14 {
      Exiting(BUSY, Useful, end, Line([Init, Omp], At(end)));
    } else if i == 15 {
      Exiting(Line([Init, Omp], At(end)), Omp, end, Line([Init], At(end)));
    }
  }

  lemma AllLinks(end: real, i: nat)
    requires i < 16
    ensures Links(SketchAt(end, i), EventAt(end, i), SketchAt(end, i + 1))
  {
    if i < 8 {
      LinksToBarrier(end, i);
    } else if i < 12 {
      LinksOfFirst(end, i);
    } else {
      LinksOfSecond(end, i);
    }
  }

  /** The sketches of an execution, one event after the other. */
  ghost predicate IsStory(ks: seq<Sketch>, es: seq<Event>) {
    && |ks| == |es| + 1 && ks[0] == SketchAt(0.0, 0)
    && (forall i :: 0 <= i < |es| ==> Links(ks[i], es[i], ks[i + 1]))
    && (forall i :: 0 <= i < |es| ==> 0.0 <= es[i].time)
    && (forall i, j :: 0 <= i < j < |es| ==> es[i].time <= es[j].time)
  }

  lemma Begin() returns (x: Execution)
    ensures Ends(x, SketchAt(0.0, 0)) && x.start == 0.0 && x.events == []
  {
    var v := ThreadValue(ZEROS, [Init]);
    x := Execution(0.0, [], [World(true, [v, v], [SyncValue(ZEROS, Init)], [])]);
  }

  lemma {:induction false} Execute(ks: seq<Sketch>, es: seq<Event>, n: nat) returns (x: Execution)
    requires IsStory(ks, es) && n <= |es|
    ensures Ends(x, ks[n]) && x.start == 0.0 && x.events == es[..n]
  {
    if n == 0 {
      x := Begin();
    } else {
      var y := Execute(ks, es, n - 1);
      assert Links(ks[n - 1], es[n - 1], ks[n]);
      x := Goes(y, ks[n - 1], es[n - 1]);
      assert es[..n] == es[..n - 1] + [es[n - 1]];
    }
  }

  function TimeAt(end: real, i: nat): real {
    if i < 4 then 0.0 else if i < 14 then 1.0 else end
  }

  lemma EventTime(end: real, i: nat)
    ensures EventAt(end, i).time == TimeAt(end, i)
  {
  }

  lemma TheStory(end: real) returns (ks: seq<Sketch>, es: seq<Event>)
    requires end >= 1.0
    ensures IsStory(ks, es) && |es| == 16
    ensures es[7] == Event(1.0, Before(1, 0)) && es[8] == Event(1.0, After(0, 0)) && es[15].time == end
    ensures ks[16] == Sketch(Line([Init], At(1.0)), Line([Init], At(end)), Omp, At(1.0))
  {
    ks, es := seq(17, i requires 0 <= i => SketchAt(end, i)), seq(16, i requires 0 <= i => EventAt(end, i));
    forall i | 0 <= i < 16
      ensures Links(ks[i], es[i], ks[i + 1])
    {
      AllLinks(end, i);
    }
    forall i | 0 <= i < 16
      ensures es[i].time == TimeAt(end, i)
    {
      EventTime(end, i);
    }
  }

  // ---------------------------------------------------------------------------
  // Its report
  // ---------------------------------------------------------------------------

  /** One process with the useful times 1 and `end`, and the process and critical level 1, in a runtime of `end`. */
  lemma FactorsOfStory(end: real, v: ThreadValue, w: ThreadValue, ps: seq<Metrics.Process>)
    requires end >= 1.0 && ps == [Metrics.Process([v, w], v)]
    requires v.clocks[USEFUL] == At(1.0) == v.clocks[OOMP] && w.clocks[USEFUL] == At(end)
    ensures Metrics.SomeWork(ps) && Metrics.SumOf(Metrics.Counts(Metrics.Locals(ps))) > 0.0
    ensures var t := Metrics.TotalsOf(Metrics.Locals(ps), v, end);
      Metrics.Defined(t) && Metrics.FactorsOf(t).ompSerE == end
  {
    var us := Metrics.UsefulTimes([v, w]);
    assert us == [1.0, end] && us[..1] == [1.0];
    assert Metrics.MaxOf([1.0]) == 1.0 && Metrics.MaxOf(us) == end;
    var l := Metrics.LocalOf(ps[0]);
    assert l.maxUseful == end && l.procUseful == 1.0 && l.spread == 2.0 * end && l.count == 2;
    var ls := Metrics.Locals(ps);
    assert ls == [l];
    assert Metrics.MaxUsefuls(ls) == [end] && Metrics.Procs(ls) == [1.0];
    assert Metrics.Counts(ls) == [2.0] && Metrics.SumOf([2.0]) == 2.0;
    assert Metrics.Spreads(ls) == [2.0 * end] && Metrics.SumOf([2.0 * end]) == 2.0 * end;
  }

  lemma Story(end: real) returns (x: Execution)
    requires end >= 1.0
    ensures Ends(x, Sketch(Line([Init], At(1.0)), Line([Init], At(end)), Omp, At(1.0))) && x.start == 0.0
    ensures |x.events| == 16 && x.Time(8) == 1.0 && x.Time(16) == end
    ensures x.events[7].op == Before(1, 0) && x.events[8].op == After(0, 0)
  {
    var ks, es := TheStory(end);
    x := Execute(ks, es, 16);
    assert es[..16] == es;
  }

  lemma WorkerJoined(x: Execution)
    requires x.Legal() && |x.events| == 16 && x.events[7].op == Before(1, 0) && x.events[8].op == After(0, 0)
    requires x.worlds[16].running
    ensures IsChain(x, Last(7, 8), 1, 0)
  {
    RanBefore(x, 7, 16);
    RanBefore(x, 8, 16);
  }

  lemma ReportOfStory(end: real, x: Execution)
    requires end >= 1.0 && x.start == 0.0 && |x.events| == 16 && x.Time(16) == end
    requires Ends(x, Sketch(Line([Init], At(1.0)), Line([Init], At(end)), Omp, At(1.0)))
    ensures x.Threads() == 2 && Stopped(x, [[0, 1]])
    ensures var ps := Processes(x, [[0, 1]]);
      && Metrics.SomeWork(ps) && Metrics.SumOf(Metrics.Counts(Metrics.Locals(ps))) > 0.0
      && var t := Metrics.TotalsOf(Metrics.Locals(ps), ps[0].master, end);
      && Metrics.Defined(t) && Metrics.FactorsOf(t).ompSerE == end
  {
    x.Shape(16);
    assert x.Threads() == 2;
    var v, w := x.worlds[16].threads[0], x.worlds[16].threads[1];
    assert Team(x, [0, 1]) == [v, w];
    assert Processes(x, [[0, 1]]) == [Metrics.Process([v, w], v)];
    FactorsOfStory(end, v, w, Processes(x, [[0, 1]]));
  }

  /**
   The worker joined, all arcs are in the OpenMP state, every clock is stopped, and yet the
   OpenMP serialisation efficiency is as large as one likes.
   */
  lemma LateWorkerOvershoots(end: real) returns (x: Execution)
    requires end > 1.0
    ensures x.Legal() && OmpArcsInOmp(x) && Stopped(x, [[0, 1]]) && IsChain(x, Last(7, 8), 1, 0)
    ensures var ps := Processes(x, [[0, 1]]);
      && Metrics.SumOf(Metrics.Counts(Metrics.Locals(ps))) > 0.0
      && var t := Metrics.TotalsOf(Metrics.Locals(ps), ps[0].master, x.Time(|x.events|) - x.start);
      && Metrics.Defined(t) && Metrics.FactorsOf(t).ompSerE == end
  {
    x := Story(end);
    WorkerJoined(x);
    ReportOfStory(end, x);
  }

  /** If the worker ends its task at once, the run is finished, and its report is good. */
  lemma PunctualWorkerFinishes() returns (x: Execution)
    ensures x.Legal() && OmpArcsInOmp(x) && Finished(x, [[0, 1]])
    ensures var ps := Processes(x, [[0, 1]]);
      Metrics.SomeWork(ps) && Metrics.GoodReport(ps, x.Time(|x.events|) - x.start)
  {
    x := Story(1.0);
    WorkerJoined(x);
    ReportOfStory(1.0, x);
    BusyAtMostElapsed(x, 1, 8, 16, USEFUL);
    ChainInRun(x, Last(7, 8), 1, 0);
    ProcMonotone(x, 0, 9, 16, USEFUL);
    assert JoinsInTime(x, Last(7, 8), 1, 0);
    assert Joined(x, 1, 0);
    ReportOfFinishedRun(x, [[0, 1]], Processes(x, [[0, 1]]), x.Time(|x.events|) - x.start);
  }
}
