/**
 What every step of a run keeps: the order of the three levels of a clock, the order of the
 clocks among each other, and the bound by elapsed time.
 */
module ClockOrder {
  import opened Clocks
  import opened ClockRuns

  // ---------------------------------------------------------------------------
  // thread <= proc <= critical
  // ---------------------------------------------------------------------------

  predicate Nested(v: CpClocks) {
    v.thread <= v.proc <= v.critical
  }

  predicate AllNested(clocks: ClockSeq) {
    Nested(clocks[0]) && Nested(clocks[1]) && Nested(clocks[2]) && Nested(clocks[3])
  }

  predicate LevelsOrdered(w: World) {
    && (forall t :: 0 <= t < |w.threads| ==> AllNested(w.threads[t].clocks))
    && (forall s :: 0 <= s < |w.syncs| ==> AllNested(w.syncs[s].clocks))
  }

  lemma SwitchedNested(clocks: ClockSeq, old_: ClockState, new_: ClockState, time: real)
    requires AllNested(clocks)
    ensures AllNested(Switched(clocks, old_, new_, time))
  {
  }

  lemma MergedNested(a: ClockSeq, b: ClockSeq)
    requires AllNested(a) && AllNested(b)
    ensures AllNested(Merged(a, b))
  {
  }

  lemma ThreadStepNested(w: World, e: Event, t: nat)
    requires WellFormed(w) && InRange(w, e.op) && (w.running ==> Checked(w, e.op))
    requires LevelsOrdered(w) && t < |w.threads|
    ensures AllNested(Step(w, e).threads[t].clocks)
  {
    var v := w.threads[t];
    assert v.Valid() && AllNested(v.clocks);
    match e.op
    case Enter(_, cs) => SwitchedNested(v.clocks, v.State(), cs, e.time);
    case Set(_, cs) => SwitchedNested(v.clocks, v.State(), cs, e.time);
    case Exit(_) =>
      if |v.stack| > 1 {
        SwitchedNested(v.clocks, v.State(), v.stack[|v.stack| - 2], e.time);
      }
    case After(_, s) =>
      assert AllNested(w.syncs[s].clocks);
      MergedNested(v.clocks, w.syncs[s].clocks);
    case _ =>
  }

  lemma SyncStepNested(w: World, e: Event, s: nat)
    requires WellFormed(w) && InRange(w, e.op) && (w.running ==> Checked(w, e.op))
    requires LevelsOrdered(w) && s < |w.syncs|
    ensures AllNested(Step(w, e).syncs[s].clocks)
  {
    assert AllNested(w.syncs[s].clocks);
    if e.op.Before? && e.op.s == s {
      assert AllNested(w.threads[e.op.t].clocks);
    }
  }

  lemma StepKeepsLevels(w: World, e: Event)
    requires WellFormed(w) && InRange(w, e.op) && (w.running ==> Checked(w, e.op))
    requires LevelsOrdered(w)
    ensures LevelsOrdered(Step(w, e))
  {
    var r := Step(w, e);
    forall t | 0 <= t < |r.threads| ensures AllNested(r.threads[t].clocks) {
      ThreadStepNested(w, e, t);
    }
    forall s | 0 <= s < |r.syncs| ensures AllNested(r.syncs[s].clocks) {
      SyncStepNested(w, e, s);
    }
  }

  lemma {:induction false} LevelsAlwaysOrdered(x: Execution, j: nat)
    requires x.Legal() && j <= |x.events|
    ensures LevelsOrdered(x.worlds[j])
  {
    if j > 0 {
      LevelsAlwaysOrdered(x, j - 1);
      assert x.StepAt(j - 1);
      StepKeepsLevels(x.worlds[j - 1], x.events[j - 1]);
    }
  }

  // ---------------------------------------------------------------------------
  // USEFUL <= OMPI and USEFUL <= OOMP
  // ---------------------------------------------------------------------------

  /** How far the effective value of clock `c` is ahead of USEFUL on account of the current time. */
  function Gap(s: ClockState, c: ClockType, now: real): real {
    Potential(s, c, now) - Potential(s, USEFUL, now)
  }

  /** In state `s` at time `now`, `c` is at least USEFUL at every level. */
  predicate Covers(clocks: ClockSeq, s: ClockState, c: ClockType, now: real) {
    && clocks[USEFUL].thread <= clocks[c].thread + Gap(s, c, now)
    && clocks[USEFUL].proc <= clocks[c].proc + Gap(s, c, now)
    && clocks[USEFUL].critical <= clocks[c].critical + Gap(s, c, now)
  }

  predicate MailCovers(p: Payload, c: ClockType, now: real)
    requires c < 3
  {
    p[USEFUL] <= p[c] + Gap(Mpi, c, now)
  }

  predicate UsefulLeast(w: World, c: ClockType, now: real)
    requires WellFormed(w) && c < 3
  {
    && (forall t :: 0 <= t < |w.threads| ==> Covers(w.threads[t].clocks, w.threads[t].State(), c, now))
    && (forall s :: 0 <= s < |w.syncs| ==> Covers(w.syncs[s].clocks, w.syncs[s].state, c, now))
    && (forall s :: 0 <= s < |w.syncs| && w.syncs[s].state == Init ==>
          w.syncs[s].clocks[USEFUL] == w.syncs[s].clocks[c] == ZERO)
    && (w.running ==> forall m :: 0 <= m < |w.mails| && w.mails[m].Some? ==> MailCovers(w.mails[m].value, c, now))
  }

  lemma SwitchKeepsCover(v: ThreadValue, old_: ClockState, new_: ClockState, c: ClockType, time: real)
    requires Covers(v.clocks, old_, c, time)
    ensures Covers(Switched(v.clocks, old_, new_, time), new_, c, time)
  {
    SwitchKeepsEffective(v.clocks[USEFUL], USEFUL, old_, new_, time);
    SwitchKeepsEffective(v.clocks[c], c, old_, new_, time);
  }

  lemma AcquireKeepsCover(s: SyncValue, t: ThreadValue, c: ClockType, now: real)
    requires t.Valid() && (c == OMPI || c == OOMP) && 0.0 <= now
    requires Covers(t.clocks, t.State(), c, now) && Covers(s.clocks, s.state, c, now)
    requires if s.state == Init then s.clocks[USEFUL] == s.clocks[c] == ZERO else s.state == t.State()
    ensures Covers(Acquired(true, s, t).clocks, t.State(), c, now)
  {
  }

  lemma ReceiveKeepsCover(p: Payload, t: ThreadValue, c: ClockType, now: real)
    requires t.Valid() && t.State() == Mpi && (c == OMPI || c == OOMP)
    requires Covers(t.clocks, Mpi, c, now) && MailCovers(p, c, now)
    ensures Covers(Received(true, p, t).clocks, Mpi, c, now)
  {
  }

  lemma ThreadCovers(w: World, e: Event, t: nat, c: ClockType)
    requires WellFormed(w) && InRange(w, e.op) && (w.running ==> Checked(w, e.op))
    requires (c == OMPI || c == OOMP) && 0.0 <= e.time && t < |w.threads|
    requires UsefulLeast(w, c, e.time)
    ensures Covers(Step(w, e).threads[t].clocks, Step(w, e).threads[t].State(), c, e.time)
  {
    var v := w.threads[t];
    assert Covers(v.clocks, v.State(), c, e.time);
    if w.running && !e.op.Clear? && !e.op.Stop? && e.op.t == t {
      match e.op
      case Enter(_, cs) => SwitchKeepsCover(v, v.State(), cs, c, e.time);
      case Exit(_) =>
        if v.State() != Init { SwitchKeepsCover(v, v.State(), v.stack[|v.stack| - 2], c, e.time); }
      case Set(_, cs) => SwitchKeepsCover(v, v.State(), cs, c, e.time);
      case After(_, s) =>
        assert Covers(w.syncs[s].clocks, w.syncs[s].state, c, e.time);
        AcquireKeepsCover(w.syncs[s], v, c, e.time);
      case Merge(_, m) => ReceiveKeepsCover(w.mails[m].value, v, c, e.time);
      case _ =>
    } else if e.op.Set? && e.op.t == t {
      SwitchKeepsCover(v, v.State(), e.op.cs, c, e.time);
    }
  }

  lemma SyncCovers(w: World, e: Event, s: nat, c: ClockType)
    requires WellFormed(w) && InRange(w, e.op) && (w.running ==> Checked(w, e.op))
    requires (c == OMPI || c == OOMP) && 0.0 <= e.time && s < |w.syncs|
    requires UsefulLeast(w, c, e.time)
    ensures Covers(Step(w, e).syncs[s].clocks, Step(w, e).syncs[s].state, c, e.time)
    ensures Step(w, e).syncs[s].state == Init ==>
      Step(w, e).syncs[s].clocks[USEFUL] == Step(w, e).syncs[s].clocks[c] == ZERO
  {
    assert Covers(w.syncs[s].clocks, w.syncs[s].state, c, e.time);
    if e.op.Before? || e.op.After? {
      assert Covers(w.threads[e.op.t].clocks, w.threads[e.op.t].State(), c, e.time);
    }
  }

  lemma StepKeepsUsefulLeast(w: World, e: Event, c: ClockType)
    requires WellFormed(w) && InRange(w, e.op) && (w.running ==> Checked(w, e.op))
    requires (c == OMPI || c == OOMP) && 0.0 <= e.time
    requires UsefulLeast(w, c, e.time)
    ensures UsefulLeast(Step(w, e), c, e.time)
  {
    var r := Step(w, e);
    forall t | 0 <= t < |r.threads| ensures Covers(r.threads[t].clocks, r.threads[t].State(), c, e.time) {
      ThreadCovers(w, e, t, c);
    }
    forall s | 0 <= s < |r.syncs|
      ensures Covers(r.syncs[s].clocks, r.syncs[s].state, c, e.time)
      ensures r.syncs[s].state == Init ==> r.syncs[s].clocks[USEFUL] == r.syncs[s].clocks[c] == ZERO
    {
      SyncCovers(w, e, s, c);
    }
    forall m | r.running && 0 <= m < |r.mails| && r.mails[m].Some? ensures MailCovers(r.mails[m].value, c, e.time) {
      if e.op.Load? && e.op.m == m {
        assert Covers(w.threads[e.op.t].clocks, Mpi, c, e.time);
      }
    }
  }

  /** Waiting only widens the gap, because every state that runs USEFUL runs the other two. */
  lemma TimeKeepsUsefulLeast(w: World, c: ClockType, now: real, later: real)
    requires WellFormed(w) && (c == OMPI || c == OOMP) && now <= later
    requires UsefulLeast(w, c, now)
    ensures UsefulLeast(w, c, later)
  {
    forall t | 0 <= t < |w.threads| ensures Covers(w.threads[t].clocks, w.threads[t].State(), c, later) {
      assert Covers(w.threads[t].clocks, w.threads[t].State(), c, now);
    }
    forall s | 0 <= s < |w.syncs| ensures Covers(w.syncs[s].clocks, w.syncs[s].state, c, later) {
      assert Covers(w.syncs[s].clocks, w.syncs[s].state, c, now);
    }
    forall m | w.running && 0 <= m < |w.mails| && w.mails[m].Some? ensures MailCovers(w.mails[m].value, c, later) {
      assert MailCovers(w.mails[m].value, c, now);
    }
  }

  lemma {:induction false} UsefulAlwaysLeast(x: Execution, j: nat, c: ClockType)
    requires x.Legal() && j <= |x.events| && (c == OMPI || c == OOMP)
    ensures WellFormed(x.worlds[j]) && UsefulLeast(x.worlds[j], c, x.Time(j))
  {
    x.Shape(j);
    if j > 0 {
      UsefulAlwaysLeast(x, j - 1, c);
      assert x.StepAt(j - 1);
      x.TimeMonotone(0, j);
      TimeKeepsUsefulLeast(x.worlds[j - 1], c, x.Time(j - 1), x.Time(j));
      StepKeepsUsefulLeast(x.worlds[j - 1], x.events[j - 1], c);
    }
  }

  /** Both orders together, for the effective values of a thread. */
  lemma ClocksAlwaysOrdered(x: Execution, v: nat, j: nat)
    requires x.Node(v, j)
    ensures forall c: ClockType :: Nested(x.Raw(v, j, c))
    ensures x.Eff(v, j, USEFUL) <= x.Eff(v, j, OMPI)
    ensures x.Eff(v, j, USEFUL) <= x.Eff(v, j, OOMP)
  {
    x.Shape(j);
    LevelsAlwaysOrdered(x, j);
    UsefulAlwaysLeast(x, j, OMPI);
    UsefulAlwaysLeast(x, j, OOMP);
    assert AllNested(x.worlds[j].threads[v].clocks);
    assert Covers(x.worlds[j].threads[v].clocks, x.State(v, j), OMPI, x.Time(j));
    assert Covers(x.worlds[j].threads[v].clocks, x.State(v, j), OOMP, x.Time(j));
  }

  // ---------------------------------------------------------------------------
  // The bound by elapsed time
  // ---------------------------------------------------------------------------

  /** OpenMP arcs happen in the OpenMP state. */
  ghost predicate OmpArcsInOmp(x: Execution)
    requires x.Legal()
  {
    forall k :: 0 <= k < |x.events| && x.worlds[k].running ==> OmpArcAt(x, k)
  }

  ghost predicate OmpArcAt(x: Execution, k: nat)
    requires x.Legal() && k < |x.events|
  {
    assert x.StepAt(k); x.Shape(k);
    x.events[k].op.Before? || x.events[k].op.After? ==> x.State(x.events[k].op.t, k) == Omp
  }

  /** The clocks that stop in the OpenMP state are exact even when fresh objects are read. */
  lemma StoppedInOmpIsExact(x: Execution, c: ClockType, j: nat)
    requires x.Legal() && j <= |x.events| && OmpArcsInOmp(x) && (c == USEFUL || c == OOMP)
    ensures NoRunningFreshRead(x, c, j)
  {
    forall k | 0 <= k < j && x.FreshRead(k) ensures ReaderStopped(x, k, c) {
      assert OmpArcAt(x, k);
    }
  }

  lemma AtMostElapsed(x: Execution, v: nat, j: nat, c: ClockType)
    requires x.Node(v, j) && OmpArcsInOmp(x) && (c == USEFUL || c == OOMP)
    ensures 0.0 <= x.Eff(v, j, c) <= x.Time(j) - x.start
  {
    StoppedInOmpIsExact(x, c, j);
    var p := GenuinePathIsAsLong(x, v, j, c);
    GenuineAtMostElapsed(x, p, v, j, c);
    Nonnegative(x, v, j, c);
  }

  lemma ObjectAtMostElapsed(x: Execution, s: nat, j: nat, c: ClockType)
    requires x.Legal() && j <= |x.events| && s < |x.worlds[j].syncs|
    requires OmpArcsInOmp(x) && (c == USEFUL || c == OOMP)
    ensures x.worlds[j].syncs[s].clocks[c].critical <= x.Time(j) - x.start
  {
    x.Shape(j);
    x.TimeMonotone(0, j);
    if x.worlds[j].syncs[s].state == Init {
      FreshIsZero(x, s, j, c);
    } else {
      var i := ObjectOrigin(x, s, j, c);
      if i.Some? {
        var u := x.events[i.value].op.t;
        assert OmpArcAt(x, i.value) && x.StepAt(i.value);
        x.Shape(i.value + 1);
        AtMostElapsed(x, u, i.value + 1, c);
        x.TimeMonotone(i.value + 1, j);
      }
    }
  }

  // ---------------------------------------------------------------------------
  // A clock that runs in the OpenMP state is not bounded
  // ---------------------------------------------------------------------------

  /** A legal run goes on with every event that its last world allows. */
  lemma Extend(x: Execution, e: Event) returns (y: Execution)
    requires x.Legal() && x.Time(|x.events|) <= e.time
    requires var w := x.worlds[|x.events|]; WellFormed(w) && InRange(w, e.op) && Checked(w, e.op)
    ensures y.Legal() && y.start == x.start && y.events == x.events + [e]
    ensures y.worlds == x.worlds + [Step(x.worlds[|x.events|], e)]
  {
    y := Execution(x.start, x.events + [e], x.worlds + [Step(x.worlds[|x.events|], e)]);
    forall i | 0 <= i < |y.events| ensures y.StepAt(i) {
      if i < |x.events| {
        assert x.StepAt(i);
        assert y.events[i] == x.events[i] && y.worlds[i] == x.worlds[i] && y.worlds[i + 1] == x.worlds[i + 1];
        assert y.Time(i) == x.Time(i);
      } else {
        assert y.Time(i) == x.Time(i);
      }
    }
  }

  function OneThread(ompi: CpClocks, ogpu: CpClocks, stack: seq<ClockState>, lock: ClockState): World {
    World(true, [ThreadValue([ZERO, ompi, ZERO, ogpu], stack)], [SyncValue(ZEROS, lock)], [])
  }

  const MINUS_ONE := CpClocks(-1.0, -1.0, -1.0)

  lemma EnteringOmp()
    ensures Step(OneThread(ZERO, ZERO, [Init], Init), Event(1.0, Enter(0, Omp))) ==
      OneThread(MINUS_ONE, MINUS_ONE, [Init, Omp], Init)
  {
    var w := OneThread(ZERO, ZERO, [Init], Init);
    var v := Entered(true, w.threads[0], 1.0, Omp);
    assert v.clocks == [ZERO, MINUS_ONE, ZERO, MINUS_ONE];
    assert v.stack == [Init, Omp];
    assert w.threads[0 := v] == [v];
  }

  /** One second after the epoch a thread enters the OpenMP state. */
  lemma ThreadBegins() returns (x: Execution)
    ensures x.Legal() && x.start == 1.0 && x.events == [Event(1.0, Enter(0, Omp))] && |x.worlds| == 2
    ensures x.worlds[0] == OneThread(ZERO, ZERO, [Init], Init)
    ensures x.worlds[1] == OneThread(MINUS_ONE, MINUS_ONE, [Init, Omp], Init)
  {
    x := Extend(Execution(1.0, [], [OneThread(ZERO, ZERO, [Init], Init)]), Event(1.0, Enter(0, Omp)));
    EnteringOmp();
  }

  /**
   A second later it acquires a lock that nobody held before.  The arc happens in the OpenMP
   state, and yet the OMPI clock reports two seconds where the longest path has one.
   */
  lemma FirstLockOvershoots() returns (x: Execution)
    ensures x.Legal() && x.Threads() == 1 && x.start == 1.0
    ensures x.events == [Event(1.0, Enter(0, Omp)), Event(2.0, After(0, 0))]
    ensures x.Eff(0, 2, OMPI) == 2.0
    ensures LongestPath(x, 0, 2, OMPI, 1.0)
  {
    var y := ThreadBegins();
    x := Extend(y, Event(2.0, After(0, 0)));
    var p := Local(Local(Origin));
    assert x.IsPath(p.prev, 0, 1) && x.Weight(p.prev, 0, 1, OMPI) == 0.0;
    assert x.IsPath(p, 0, 2) && x.Weight(p, 0, 2, OMPI) == 1.0;
    forall q: Path | x.IsPath(q, 0, 2) && q.Genuine() ensures x.Weight(q, 0, 2, OMPI) <= 1.0 {
      GenuineAtMostElapsed(x, q, 0, 2, OMPI);
    }
  }
}
