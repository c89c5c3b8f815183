/**
 The thread and the process level of a clock.  The thread level is the time that the thread itself
 spent with the clock running.  The process level is the longest path of the event graph that takes
 no message, because a message carries only the critical level.
 */
module ProcessLevel {
  import opened Options
  import opened Clocks
  import opened ClockRuns

  /** The effective value of the process level. */
  ghost function ProcEff(x: Execution, v: nat, j: nat, c: ClockType): real
    requires x.Node(v, j)
  {
    x.Raw(v, j, c).proc + Potential(x.State(v, j), c, x.Time(j))
  }

  ghost function ThreadEff(x: Execution, v: nat, j: nat, c: ClockType): real
    requires x.Node(v, j)
  {
    x.Raw(v, j, c).thread + Potential(x.State(v, j), c, x.Time(j))
  }

  /** A switch by the operation of event `j`, if it is one of thread `v`. */
  lemma SwitchAt(x: Execution, v: nat, j: nat, c: ClockType)
    requires x.Node(v, j) && j < |x.events|
    requires x.events[j].op.Enter? || x.events[j].op.Exit? || x.events[j].op.Set?
    ensures x.Raw(v, j + 1, c).thread + Potential(x.State(v, j + 1), c, x.Time(j + 1)) ==
      x.Raw(v, j, c).thread + Potential(x.State(v, j), c, x.Time(j + 1))
    ensures x.Raw(v, j + 1, c).proc + Potential(x.State(v, j + 1), c, x.Time(j + 1)) ==
      x.Raw(v, j, c).proc + Potential(x.State(v, j), c, x.Time(j + 1))
  {
    assert x.StepAt(j);
    x.Shape(j); x.Shape(j + 1);
    var v0, e := x.worlds[j].threads[v], x.events[j];
    if e.op.t == v {
      SwitchKeepsEffective(v0.clocks[c], c, v0.State(), x.State(v, j + 1), e.time);
    }
  }

  /** Thread and process level never lose, and only an OpenMP arc raises the process level. */
  lemma LevelStep(x: Execution, v: nat, j: nat, c: ClockType)
    requires x.Node(v, j) && j < |x.events|
    ensures ThreadEff(x, v, j + 1, c) == x.Raw(v, j, c).thread + Potential(x.State(v, j), c, x.Time(j + 1))
    ensures ProcEff(x, v, j + 1, c) >= x.Raw(v, j, c).proc + Potential(x.State(v, j), c, x.Time(j + 1))
    ensures !(x.events[j].op.After? && ReadBy(x, v, j)) ==>
      ProcEff(x, v, j + 1, c) == x.Raw(v, j, c).proc + Potential(x.State(v, j), c, x.Time(j + 1))
  {
    assert x.StepAt(j);
    x.Shape(j); x.Shape(j + 1);
    if x.events[j].op.Enter? || x.events[j].op.Exit? || x.events[j].op.Set? {
      SwitchAt(x, v, j, c);
    }
  }

  lemma {:induction false} ProcMonotone(x: Execution, v: nat, i: nat, j: nat, c: ClockType)
    requires x.Node(v, j) && i <= j && c < 3
    ensures ProcEff(x, v, i, c) <= ProcEff(x, v, j, c)
    decreases j
  {
    if i < j {
      ProcMonotone(x, v, i, j - 1, c);
      LevelStep(x, v, j - 1, c);
      x.TimeMonotone(j - 1, j);
    }
  }

  // ---------------------------------------------------------------------------
  // The thread level is a sum of durations
  // ---------------------------------------------------------------------------

  /** The time up to event `j` that thread `v` spent in states in which clock `c` runs. */
  ghost function Busy(x: Execution, v: nat, j: nat, c: ClockType): real
    requires x.Node(v, j)
  {
    if j == 0 then 0.0
    else Busy(x, v, j - 1, c) + if Active(x.State(v, j - 1), c) then x.Time(j) - x.Time(j - 1) else 0.0
  }

  lemma {:induction false} ThreadLevelIsBusy(x: Execution, v: nat, j: nat, c: ClockType)
    requires x.Node(v, j)
    ensures ThreadEff(x, v, j, c) == Busy(x, v, j, c)
  {
    if j > 0 {
      ThreadLevelIsBusy(x, v, j - 1, c);
      LevelStep(x, v, j - 1, c);
    }
  }

  lemma {:induction false} BusyAtMostElapsed(x: Execution, v: nat, i: nat, j: nat, c: ClockType)
    requires x.Node(v, j) && i <= j
    ensures 0.0 <= Busy(x, v, j, c) - Busy(x, v, i, c) <= x.Time(j) - x.Time(i)
    decreases j
  {
    if i < j {
      BusyAtMostElapsed(x, v, i, j - 1, c);
      x.TimeMonotone(j - 1, j);
    }
  }

  /** The time up to event `j` that thread `v` spent in one of the states. */
  ghost function TimeIn(x: Execution, v: nat, j: nat, states: set<ClockState>): real
    requires x.Node(v, j)
  {
    if j == 0 then 0.0
    else TimeIn(x, v, j - 1, states) + if x.State(v, j - 1) in states then x.Time(j) - x.Time(j - 1) else 0.0
  }

  lemma {:induction false} BusyIsTimeIn(x: Execution, v: nat, j: nat, c: ClockType, states: set<ClockState>)
    requires x.Node(v, j) && forall cs :: Active(cs, c) <==> cs in states
    ensures Busy(x, v, j, c) == TimeIn(x, v, j, states)
  {
    if j > 0 {
      BusyIsTimeIn(x, v, j - 1, c, states);
    }
  }

  lemma {:induction false} TimesAddUp(x: Execution, v: nat, j: nat, a: set<ClockState>, b: set<ClockState>)
    requires x.Node(v, j) && forall cs :: cs in a <==> cs !in b
    ensures TimeIn(x, v, j, a) + TimeIn(x, v, j, b) == x.Time(j) - x.start
  {
    if j > 0 {
      TimesAddUp(x, v, j - 1, a, b);
    }
  }

  lemma MeasuresOutside(x: Execution, v: nat, j: nat, c: ClockType, on: set<ClockState>, off: set<ClockState>)
    requires x.Node(v, j) && (forall cs :: Active(cs, c) <==> cs in on) && (forall cs :: cs in on <==> cs !in off)
    ensures ThreadEff(x, v, j, c) + TimeIn(x, v, j, off) == x.Time(j) - x.start
  {
    ThreadLevelIsBusy(x, v, j, c);
    BusyIsTimeIn(x, v, j, c, on);
    TimesAddUp(x, v, j, on, off);
  }

  /**
   What the four clocks measure, for every thread and every execution: the time in useful computation,
   and the time since the thread left the initial state without that in MPI, in OpenMP or on the GPU.
   */
  lemma ClocksMeasureStates(x: Execution, v: nat, j: nat)
    requires x.Node(v, j)
    ensures ThreadEff(x, v, j, USEFUL) == TimeIn(x, v, j, {Useful})
    ensures ThreadEff(x, v, j, OMPI) + TimeIn(x, v, j, {Init, Mpi}) == x.Time(j) - x.start
    ensures ThreadEff(x, v, j, OOMP) + TimeIn(x, v, j, {Init, Omp}) == x.Time(j) - x.start
    ensures ThreadEff(x, v, j, OGPU) + TimeIn(x, v, j, {Init, Gpu}) == x.Time(j) - x.start
  {
    ThreadLevelIsBusy(x, v, j, USEFUL);
    BusyIsTimeIn(x, v, j, USEFUL, {Useful});
    MeasuresOutside(x, v, j, OMPI, {NoState, Useful, Omp, Gpu}, {Init, Mpi});
    MeasuresOutside(x, v, j, OOMP, {NoState, Useful, Mpi, Gpu}, {Init, Omp});
    MeasuresOutside(x, v, j, OGPU, {NoState, Useful, Mpi, Omp}, {Init, Gpu});
  }

  // ---------------------------------------------------------------------------
  // Where the process level comes from
  // ---------------------------------------------------------------------------

  lemma ProcReadStep(x: Execution, v: nat, j: nat, c: ClockType)
    requires x.Node(v, j) && j < |x.events| && c < 3 && x.events[j].op.After? && ReadBy(x, v, j)
    ensures x.events[j].op.s < |x.worlds[j].syncs| && x.State(v, j + 1) == x.State(v, j)
    ensures ProcEff(x, v, j + 1, c) ==
      Max(x.Raw(v, j, c).proc, x.worlds[j].syncs[x.events[j].op.s].clocks[c].proc)
      + Potential(x.State(v, j), c, x.Time(j + 1))
  {
    assert x.StepAt(j);
    x.Shape(j); x.Shape(j + 1);
  }

  lemma {:induction false} ObjectProcAtLeast(x: Execution, s: nat, i: nat, j: nat, c: ClockType)
    requires x.Legal() && i < j <= |x.events| && c < 3
    requires x.events[i].op.Before? && x.events[i].op.s == s && x.worlds[i].running
    requires forall k :: i < k < j ==> !x.ClearsAt(k, s)
    ensures x.Node(x.events[i].op.t, i + 1) && s < |x.worlds[j].syncs|
    ensures x.worlds[j].syncs[s].clocks[c].proc >= x.Raw(x.events[i].op.t, i + 1, c).proc
    decreases j
  {
    assert x.StepAt(j - 1);
    x.Shape(j - 1);
    if i + 1 == j {
      x.Shape(j);
    } else {
      ObjectProcAtLeast(x, s, i, j - 1, c);
      ObjectAtLeast(x, s, i, j - 1, c);
      assert !x.ClearsAt(j - 1, s);
    }
  }

  /** As ClockRuns.ObjectKept, for the process level. */
  lemma ObjectProcKept(x: Execution, s: nat, j: nat, c: ClockType)
    requires x.Legal() && j < |x.events| && s < |x.worlds[j + 1].syncs| && c < 3
    requires x.worlds[j + 1].syncs[s].state != Init
    requires !(x.FreshRead(j) && x.events[j].op.s == s)
    ensures s < |x.worlds[j].syncs|
    ensures var w, op, value := x.worlds[j], x.events[j].op, x.worlds[j + 1].syncs[s].clocks[c].proc;
      || (op.Before? && op.s == s && w.running && op.t < |w.threads| && value == w.threads[op.t].clocks[c].proc)
      || (w.syncs[s].state != Init && value == w.syncs[s].clocks[c].proc && !x.ClearsAt(j, s))
  {
    assert x.StepAt(j);
    x.Shape(j); x.Shape(j + 1);
    FreshIsZero(x, s, j, c);
  }

  /** As ClockRuns.ObjectOrigin, for the process level. */
  lemma {:induction false} ObjectProcOrigin(x: Execution, s: nat, j: nat, c: ClockType) returns (i: Option<nat>)
    requires x.Legal() && j <= |x.events| && s < |x.worlds[j].syncs| && c < 3
    requires x.worlds[j].syncs[s].state != Init
    ensures i.Some? ==>
      && i.value < j
      && x.events[i.value].op.Before? && x.events[i.value].op.s == s && x.worlds[i.value].running
      && (forall k :: i.value < k < j ==> !x.ClearsAt(k, s))
      && x.Node(x.events[i.value].op.t, i.value + 1)
      && x.worlds[j].syncs[s].clocks[c].proc == x.Raw(x.events[i.value].op.t, i.value + 1, c).proc
    ensures i.None? ==> x.Tainted(s, j) && x.worlds[j].syncs[s].clocks[c].proc == 0.0
  {
    x.Shape(j);
    if j == 0 {
      assert false;
    } else {
      assert x.StepAt(j - 1);
      x.Shape(j - 1);
      var w, op := x.worlds[j - 1], x.events[j - 1].op;
      if op.Before? && op.s == s && w.running
         && x.worlds[j].syncs[s].clocks[c].proc == w.threads[op.t].clocks[c].proc {
        return Some(j - 1);
      }
      if x.FreshRead(j - 1) && op.s == s {
        FreshIsZero(x, s, j - 1, c);
        return None;
      }
      ObjectProcKept(x, s, j - 1, c);
      i := ObjectProcOrigin(x, s, j - 1, c);
      if i.None? {
        var k :| 0 <= k < j - 1 && x.FreshRead(k) && x.events[k].op.s == s
                 && forall l :: k < l < j - 1 ==> !x.ClearsAt(l, s);
        assert forall l :: k < l < j ==> !x.ClearsAt(l, s);
      }
    }
  }

  /** The process level just before the operation of event `j`. */
  ghost function ProcArriving(x: Execution, v: nat, j: nat, c: ClockType): real
    requires x.Node(v, j) && j < |x.events|
  {
    ProcEff(x, v, j, c) + (if Active(x.State(v, j), c) then x.Time(j + 1) - x.Time(j) else 0.0)
  }

  /** What an arc from event `i` to event `j` brings, with the time of the wait. */
  ghost function Brought(x: Execution, i: nat, j: nat, c: ClockType): real
    requires x.Legal() && j < |x.events| && x.Arc(i, j)
  {
    assert x.StepAt(i) && x.StepAt(j); x.Shape(i); x.Shape(j);
    ProcEff(x, x.events[i].op.t, i + 1, c)
    + (if Active(x.State(x.events[j].op.t, j), c) then x.Time(j + 1) - x.Time(i + 1) else 0.0)
  }

  lemma {:induction false} ProcNonnegative(x: Execution, v: nat, j: nat, c: ClockType)
    requires x.Node(v, j) && c < 3
    ensures ProcEff(x, v, j, c) >= 0.0
  {
    if j > 0 {
      ProcNonnegative(x, v, j - 1, c);
      LevelStep(x, v, j - 1, c);
      x.TimeMonotone(j - 1, j);
    }
  }

  /** Along an OpenMP arc the reader's process level reaches the writer's plus the wait. */
  lemma ArcBrings(x: Execution, i: nat, j: nat, c: ClockType)
    requires x.Legal() && j < |x.events| && x.Arc(i, j) && x.events[i].op.Before? && c < 3
    ensures x.Node(x.events[i].op.t, i + 1) && x.Node(x.events[j].op.t, j + 1)
    ensures Brought(x, i, j, c) <= ProcEff(x, x.events[j].op.t, j + 1, c)
  {
    assert x.StepAt(j) && x.StepAt(i);
    x.Shape(i); x.Shape(j);
    var s := x.events[j].op.s;
    ProcReadStep(x, x.events[j].op.t, j, c);
    ObjectProcAtLeast(x, s, i, j, c);
    ObjectAtLeast(x, s, i, j, c);
  }

  /** Where the process level after a step comes from. */
  lemma ProcStepOrigin(x: Execution, v: nat, j: nat, c: ClockType) returns (i: Option<nat>)
    requires x.Node(v, j) && j < |x.events| && c < 3 && NoRunningFreshRead(x, c, j + 1)
    ensures i.None? ==> ProcEff(x, v, j + 1, c) == ProcArriving(x, v, j, c)
    ensures i.Some? ==>
      && x.Arc(i.value, j) && x.events[i.value].op.Before? && x.events[j].op.t == v
      && x.Node(x.events[i.value].op.t, i.value + 1)
      && ProcEff(x, v, j + 1, c) == Brought(x, i.value, j, c)
  {
    LevelStep(x, v, j, c);
    if !(x.events[j].op.After? && ReadBy(x, v, j)) {
      return None;
    }
    assert x.StepAt(j);
    x.Shape(j); x.Shape(0);
    ProcReadStep(x, v, j, c);
    var s := x.events[j].op.s;
    if ProcEff(x, v, j + 1, c) == ProcArriving(x, v, j, c) {
      return None;
    }
    if x.worlds[j].syncs[s].state == Init {
      FreshIsZero(x, s, j, c);
      i := None;
    } else {
      i := ObjectProcOrigin(x, s, j, c);
    }
    if i.Some? {
      ObjectAtLeast(x, s, i.value, j, c);
    } else {
      ZeroWeighsNothing(x, j, c);
      ProcNonnegative(x, v, j, c);
    }
  }

  // ---------------------------------------------------------------------------
  // The process level is the longest path without messages
  // ---------------------------------------------------------------------------

  /** All arcs of the path are OpenMP arcs. */
  predicate OmpOnly(x: Execution, p: Path) {
    match p
    case Origin => true
    case Local(q) => OmpOnly(x, q)
    case Via(q, i) => i < |x.events| && x.events[i].op.Before? && OmpOnly(x, q)
    case Epoch => false
  }

  ghost predicate IsOmpPath(x: Execution, p: Path, v: nat, j: nat)
    requires x.Node(v, j)
  {
    x.IsPath(p, v, j) && OmpOnly(x, p)
  }

  lemma {:induction false} OmpOnlyIsGenuine(x: Execution, p: Path)
    requires OmpOnly(x, p)
    ensures p.Genuine()
  {
    match p
    case Origin =>
    case Local(q) => OmpOnlyIsGenuine(x, q);
    case Via(q, _) => OmpOnlyIsGenuine(x, q);
  }

  lemma {:induction false} NoOmpPathIsLonger(x: Execution, p: Path, v: nat, j: nat, c: ClockType)
    requires x.Node(v, j) && IsOmpPath(x, p, v, j) && c < 3
    ensures x.Weight(p, v, j, c) <= ProcEff(x, v, j, c)
    decreases p
  {
    match p
    case Origin =>
    case Local(q) =>
      NoOmpPathIsLonger(x, q, v, j - 1, c);
      LevelStep(x, v, j - 1, c);
    case Via(q, i) =>
      assert x.StepAt(i); x.Shape(i);
      NoOmpPathIsLonger(x, q, x.events[i].op.t, i + 1, c);
      ArcBrings(x, i, j - 1, c);
  }

  lemma {:induction false} OmpPathIsAsLong(x: Execution, v: nat, j: nat, c: ClockType) returns (p: Path)
    requires x.Node(v, j) && c < 3 && NoRunningFreshRead(x, c, j)
    ensures IsOmpPath(x, p, v, j) && x.Weight(p, v, j, c) == ProcEff(x, v, j, c)
    decreases j
  {
    if j == 0 {
      p := Origin;
    } else {
      var i := ProcStepOrigin(x, v, j - 1, c);
      if i.Some? {
        var q := OmpPathIsAsLong(x, x.events[i.value].op.t, i.value + 1, c);
        p := Via(q, i.value);
      } else {
        var q := OmpPathIsAsLong(x, v, j - 1, c);
        p := Local(q);
      }
    }
  }

  /** `value` is the largest weight of a path to (v, j) over OpenMP arcs. */
  ghost predicate LongestOmpPath(x: Execution, v: nat, j: nat, c: ClockType, value: real)
    requires x.Node(v, j)
  {
    && (forall p: Path :: IsOmpPath(x, p, v, j) ==> x.Weight(p, v, j, c) <= value)
    && exists p: Path :: IsOmpPath(x, p, v, j) && x.Weight(p, v, j, c) == value
  }

  lemma ProcessLevelIsLongestOmpPath(x: Execution, v: nat, j: nat, c: ClockType)
    requires x.Node(v, j) && c < 3 && NoRunningFreshRead(x, c, j)
    ensures LongestOmpPath(x, v, j, c, ProcEff(x, v, j, c))
  {
    var p := OmpPathIsAsLong(x, v, j, c);
    forall p: Path | IsOmpPath(x, p, v, j)
      ensures x.Weight(p, v, j, c) <= ProcEff(x, v, j, c)
    {
      NoOmpPathIsLonger(x, p, v, j, c);
    }
  }

  lemma RunningFreshReadOvershootsProc(x: Execution, k: nat, c: ClockType)
    requires x.Legal() && k < |x.events| && c < 3 && x.start > 0.0
    requires x.FreshRead(k) && !ReaderStopped(x, k, c)
    ensures x.Node(x.events[k].op.t, k + 1)
    ensures !LongestOmpPath(x, x.events[k].op.t, k + 1, c, ProcEff(x, x.events[k].op.t, k + 1, c))
  {
    assert x.StepAt(k); x.Shape(k); x.Shape(0);
    var v, j := x.events[k].op.t, k + 1;
    ProcReadStep(x, v, k, c);
    FreshIsZero(x, x.events[k].op.s, k, c);
    forall p: Path | IsOmpPath(x, p, v, j)
      ensures x.Weight(p, v, j, c) < ProcEff(x, v, j, c)
    {
      OmpOnlyIsGenuine(x, p);
      GenuineAtMostElapsed(x, p, v, j, c);
    }
  }

  /**
   The process level of every thread is the longest path over OpenMP arcs after every event, if and
   only if no thread whose clock runs ever reads a sync object that is still fresh.
   */
  lemma ProcessLevelExactlyWhen(x: Execution, c: ClockType)
    requires x.Legal() && c < 3 && x.start > 0.0
    ensures NoRunningFreshRead(x, c, |x.events|) <==>
      forall v, j :: x.Node(v, j) ==> LongestOmpPath(x, v, j, c, ProcEff(x, v, j, c))
  {
    if NoRunningFreshRead(x, c, |x.events|) {
      forall v: nat, j: nat | x.Node(v, j) ensures LongestOmpPath(x, v, j, c, ProcEff(x, v, j, c)) {
        ProcessLevelIsLongestOmpPath(x, v, j, c);
      }
    } else {
      var k :| 0 <= k < |x.events| && x.FreshRead(k) && !ReaderStopped(x, k, c);
      RunningFreshReadOvershootsProc(x, k, c);
    }
  }
}
