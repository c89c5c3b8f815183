/**
 Whole runs of the clock protocol, and the event graph they never build.

 A run interleaves, under one global time, state switches of any number of threads, OpenMP
 arcs through any number of sync objects and MPI arcs through any number of messages.  The
 nodes of its event graph are the pairs (thread, number of events so far).  A thread moves
 along its own line, and an arc leads from the event that writes an object to every event
 that later reads it.  Both weigh the time that passes exactly when the clock runs.
 */
module ClockRuns {
  import opened Options
  import opened Clocks

  datatype Op =
    | Enter(t: nat, cs: ClockState)
    | Exit(t: nat)
    | Set(t: nat, cs: ClockState)
    | Before(t: nat, s: nat)
    | After(t: nat, s: nat)
    | Clear(s: nat)
    | Load(t: nat, m: nat)
    | Merge(t: nat, m: nat)
    | Stop

  datatype Event = Event(time: real, op: Op)

  datatype World = World(
    running: bool,
    threads: seq<ThreadValue>,
    syncs: seq<SyncValue>,
    mails: seq<Option<Payload>>)

  predicate WellFormed(w: World) {
    forall t :: 0 <= t < |w.threads| ==> w.threads[t].Valid()
  }

  predicate InRange(w: World, op: Op) {
    && (!op.Clear? && !op.Stop? ==> op.t < |w.threads|)
    && (op.Before? || op.After? || op.Clear? ==> op.s < |w.syncs|)
    && (op.Load? || op.Merge? ==> op.m < |w.mails|)
  }

  /** The debug checks of the code: arcs join equal states, and no pop empties the stack. */
  predicate Checked(w: World, op: Op)
    requires WellFormed(w) && InRange(w, op)
  {
    match op
    case Exit(t) => |w.threads[t].stack| > 1 || w.threads[t].State() == Init
    case Before(t, s) =>
      w.threads[t].State() != Init && (w.syncs[s].state == Init || w.syncs[s].state == w.threads[t].State())
    case After(t, s) =>
      w.threads[t].State() != Init && (w.syncs[s].state == Init || w.syncs[s].state == w.threads[t].State())
    case Load(t, m) => w.threads[t].State() == Mpi
    case Merge(t, m) => w.threads[t].State() == Mpi && w.mails[m].Some?
    case _ => true
  }

  function Step(w: World, e: Event): (r: World)
    requires WellFormed(w) && InRange(w, e.op) && (w.running ==> Checked(w, e.op))
    ensures WellFormed(r) && |r.threads| == |w.threads| && |r.syncs| == |w.syncs| && |r.mails| == |w.mails|
  {
    match e.op
    case Enter(t, cs) => w.(threads := w.threads[t := Entered(w.running, w.threads[t], e.time, cs)])
    case Exit(t) => w.(threads := w.threads[t := Exited(w.running, w.threads[t], e.time)])
    case Set(t, cs) => w.(threads := w.threads[t := SetTo(w.running, w.threads[t], e.time, cs)])
    case Before(t, s) => w.(syncs := w.syncs[s := Deposited(w.running, w.syncs[s], w.threads[t])])
    case After(t, s) =>
      w.(threads := w.threads[t := Acquired(w.running, w.syncs[s], w.threads[t])],
         syncs := w.syncs[s := Touched(w.running, w.syncs[s], w.threads[t])])
    case Clear(s) => w.(syncs := w.syncs[s := Cleared(w.running, w.syncs[s])])
    case Load(t, m) => w.(mails := w.mails[m := Some(Loaded(w.threads[t]))])
    case Merge(t, m) =>
      if w.mails[m].None? then w
      else w.(threads := w.threads[t := Received(w.running, w.mails[m].value, w.threads[t])])
    case Stop => w.(running := false)
  }

  /** With the measurement off, nothing changes but messages that are loaded and clocks that are stopped for good. */
  lemma OffChangesNothing(w: World, e: Event)
    requires WellFormed(w) && InRange(w, e.op) && !w.running
    ensures !e.op.Load? && !(e.op.Set? && e.op.cs == Init) ==> Step(w, e) == w
    ensures e.op.Load? ==> Step(w, e) == w.(mails := Step(w, e).mails)
    ensures e.op.Set? ==>
      Step(w, e) == w.(threads := Step(w, e).threads) && forall t :: 0 <= t < |w.threads| && t != e.op.t ==>
        Step(w, e).threads[t] == w.threads[t]
  {
  }

  predicate Initial(w: World) {
    && w.running
    && (forall t :: 0 <= t < |w.threads| ==> w.threads[t] == ThreadValue(ZEROS, [Init]))
    && (forall s :: 0 <= s < |w.syncs| ==> w.syncs[s] == SyncValue(ZEROS, Init))
    && (forall m :: 0 <= m < |w.mails| ==> w.mails[m].None?)
  }

  /** `worlds[i]` is the world after the first `i` events. */
  datatype Execution = Execution(start: real, events: seq<Event>, worlds: seq<World>) {
    function Time(j: nat): real
      requires j <= |events|
    {
      if j == 0 then start else events[j - 1].time
    }

    ghost predicate Legal() {
      && |worlds| == |events| + 1
      && Initial(worlds[0])
      && 0.0 <= start
      && forall i :: 0 <= i < |events| ==> StepAt(i)
    }

    ghost predicate StepAt(i: nat)
      requires i < |events| && |worlds| == |events| + 1
    {
      && WellFormed(worlds[i])
      && InRange(worlds[i], events[i].op)
      && (worlds[i].running ==> Checked(worlds[i], events[i].op))
      && Time(i) <= events[i].time
      && worlds[i + 1] == Step(worlds[i], events[i])
    }

    function Threads(): nat { if |worlds| == 0 then 0 else |worlds[0].threads| }

    ghost predicate Node(v: nat, j: nat) {
      Legal() && v < Threads() && j <= |events|
    }

    lemma Shape(j: nat)
      requires Legal() && j <= |events|
      ensures WellFormed(worlds[j])
      ensures |worlds[j].threads| == |worlds[0].threads|
      ensures |worlds[j].syncs| == |worlds[0].syncs|
      ensures |worlds[j].mails| == |worlds[0].mails|
    {
      if j > 0 {
        Shape(j - 1);
        assert StepAt(j - 1);
      }
    }

    lemma TimeMonotone(i: nat, j: nat)
      requires Legal() && i <= j <= |events|
      ensures Time(i) <= Time(j)
      decreases j
    {
      if i < j {
        TimeMonotone(i, j - 1);
        assert StepAt(j - 1);
      }
    }

    ghost function State(v: nat, j: nat): ClockState
      requires Node(v, j)
    {
      Shape(j);
      worlds[j].threads[v].State()
    }

    ghost function Raw(v: nat, j: nat, c: ClockType): CpClocks
      requires Node(v, j)
    {
      Shape(j);
      worlds[j].threads[v].clocks[c]
    }

    /** The effective critical value of clock `c` of thread `v` after `j` events. */
    ghost function Eff(v: nat, j: nat, c: ClockType): real
      requires Node(v, j)
    {
      Raw(v, j, c).critical + Potential(State(v, j), c, Time(j))
    }

    // -------------------------------------------------------------------------
    // The event graph
    // -------------------------------------------------------------------------

    ghost predicate ClearsAt(k: nat, s: nat)
      requires k < |events| < |worlds|
    {
      events[k].op == Clear(s) && worlds[k].running
    }

    ghost predicate LoadsAt(k: nat, m: nat)
      requires k < |events|
    {
      events[k].op.Load? && events[k].op.m == m
    }

    /** Does the read at event `j` see what event `i` wrote? */
    ghost predicate Arc(i: nat, j: nat)
      requires Legal() && j < |events|
    {
      && i < j
      && worlds[j].running
      && match (events[i].op, events[j].op)
         case (Before(_, s), After(_, s')) =>
           s == s' && worlds[i].running && forall k :: i < k < j ==> !ClearsAt(k, s)
         case (Load(_, m), Merge(_, m')) =>
           m == m' && forall k :: i < k < j ==> !LoadsAt(k, m)
         case _ => false
    }

    /** Event `k` reads a sync object that nobody wrote since it was created or reset. */
    ghost predicate FreshRead(k: nat)
      requires Legal() && k < |events|
    {
      assert StepAt(k);
      events[k].op.After? && worlds[k].running && worlds[k].syncs[events[k].op.s].state == Init
    }

    /** Some fresh read left its raw zero in object `s`, where it still is at event `j`. */
    ghost predicate Tainted(s: nat, j: nat)
      requires Legal() && j <= |events|
    {
      exists k :: 0 <= k < j && FreshRead(k) && events[k].op.s == s && forall l :: k < l < j ==> !ClearsAt(l, s)
    }

    /** The read at event `j` meets the raw zero of an object that was fresh when first read. */
    ghost predicate ReadsZero(j: nat)
      requires Legal() && j < |events|
    {
      assert StepAt(j);
      events[j].op.After? && worlds[j].running && (FreshRead(j) || Tainted(events[j].op.s, j))
    }

    ghost predicate IsPath(p: Path, v: nat, j: nat)
      requires Node(v, j)
      decreases p
    {
      match p
      case Origin => j == 0
      case Local(q) => j > 0 && IsPath(q, v, j - 1)
      case Via(q, i) =>
        && j > 0 && Arc(i, j - 1) && events[j - 1].op.t == v
        && (assert StepAt(i); Shape(i); IsPath(q, events[i].op.t, i + 1))
      case Epoch => j > 0 && ReadsZero(j - 1) && events[j - 1].op.t == v
    }

    /** Clock `c` collects the time that passes exactly when it runs in the state in question. */
    ghost function Weight(p: Path, v: nat, j: nat, c: ClockType): real
      requires Node(v, j) && IsPath(p, v, j)
      decreases p
    {
      match p
      case Origin => 0.0
      case Local(q) =>
        Weight(q, v, j - 1, c) + (if Active(State(v, j - 1), c) then Time(j) - Time(j - 1) else 0.0)
      case Via(q, i) =>
        assert StepAt(i); Shape(i);
        Weight(q, events[i].op.t, i + 1, c) + (if Active(State(v, j - 1), c) then Time(j) - Time(i + 1) else 0.0)
      case Epoch => if Active(State(v, j - 1), c) then Time(j) else 0.0
    }
  }

  /**
   A path of the event graph, last hop outermost.  `Epoch` is not an edge of the graph: it
   stands for the raw zero of a fresh object, a path that starts at time zero.
   */
  datatype Path = Origin | Local(prev: Path) | Via(prev: Path, write: nat) | Epoch {
    predicate Genuine() {
      match this
      case Origin => true
      case Local(q) => q.Genuine()
      case Via(q, _) => q.Genuine()
      case Epoch => false
    }
  }

  // ---------------------------------------------------------------------------
  // One step
  // ---------------------------------------------------------------------------

  /** A state switch changes the raw value and keeps the effective one. */
  lemma SwitchKeepsEffective(v: CpClocks, c: ClockType, old_: ClockState, new_: ClockState, time: real)
    ensures var r := SwitchedOne(v, c, old_, new_, time);
      && r.thread + Potential(new_, c, time) == v.thread + Potential(old_, c, time)
      && r.proc + Potential(new_, c, time) == v.proc + Potential(old_, c, time)
      && r.critical + Potential(new_, c, time) == v.critical + Potential(old_, c, time)
  {
  }

  /** The effective value of `v` just before the operation of event `j`. */
  ghost function Arriving(x: Execution, v: nat, j: nat, c: ClockType): real
    requires x.Node(v, j) && j < |x.events|
  {
    x.Eff(v, j, c) + (if Active(x.State(v, j), c) then x.Time(j + 1) - x.Time(j) else 0.0)
  }

  ghost predicate ReadBy(x: Execution, v: nat, j: nat)
    requires x.Legal() && j < |x.events|
  {
    (x.events[j].op.After? || x.events[j].op.Merge?) && x.events[j].op.t == v && x.worlds[j].running
  }

  lemma QuietStep(x: Execution, v: nat, j: nat, c: ClockType)
    requires x.Node(v, j) && j < |x.events|
    requires !ReadBy(x, v, j)
    ensures x.Eff(v, j + 1, c) == Arriving(x, v, j, c)
  {
    assert x.StepAt(j);
    x.Shape(j); x.Shape(j + 1);
    var w, e := x.worlds[j], x.events[j];
    match e.op
    case Enter(t, cs) =>
      if t == v { SwitchKeepsEffective(w.threads[v].clocks[c], c, w.threads[v].State(), cs, e.time); }
    case Exit(t) =>
      if t == v && w.running && w.threads[v].State() != Init {
        var rest := w.threads[v].stack[..|w.threads[v].stack| - 1];
        SwitchKeepsEffective(w.threads[v].clocks[c], c, w.threads[v].State(), rest[|rest| - 1], e.time);
      }
    case Set(t, cs) =>
      if t == v { SwitchKeepsEffective(w.threads[v].clocks[c], c, w.threads[v].State(), cs, e.time); }
    case _ =>
  }

  lemma OmpReadStep(x: Execution, v: nat, j: nat, c: ClockType)
    requires x.Node(v, j) && j < |x.events|
    requires c < 3 && x.events[j].op.After? && ReadBy(x, v, j)
    ensures x.events[j].op.s < |x.worlds[j].syncs|
    ensures x.State(v, j + 1) == x.State(v, j)
    ensures x.Eff(v, j + 1, c) ==
      Max(Arriving(x, v, j, c),
          x.worlds[j].syncs[x.events[j].op.s].clocks[c].critical + Potential(x.State(v, j), c, x.Time(j + 1)))
  {
    assert x.StepAt(j);
    x.Shape(j); x.Shape(j + 1);
  }

  lemma MpiReadStep(x: Execution, v: nat, j: nat, c: ClockType)
    requires x.Node(v, j) && j < |x.events|
    requires c < 3 && x.events[j].op.Merge? && ReadBy(x, v, j)
    ensures x.events[j].op.m < |x.worlds[j].mails| && x.worlds[j].mails[x.events[j].op.m].Some?
    ensures x.State(v, j + 1) == x.State(v, j) == Mpi
    ensures x.Eff(v, j + 1, c) ==
      Max(Arriving(x, v, j, c),
          x.worlds[j].mails[x.events[j].op.m].value[c] + Potential(Mpi, c, x.Time(j + 1)))
  {
    assert x.StepAt(j);
    x.Shape(j); x.Shape(j + 1);
  }

  /** No step lowers an effective value, and a running clock gains at least the time that passes. */
  lemma NeverLoses(x: Execution, v: nat, j: nat, c: ClockType)
    requires x.Node(v, j) && j < |x.events|
    requires c < 3
    ensures x.Eff(v, j + 1, c) >= Arriving(x, v, j, c) >= x.Eff(v, j, c)
  {
    assert x.StepAt(j);
    if !ReadBy(x, v, j) { QuietStep(x, v, j, c); }
    else if x.events[j].op.After? { OmpReadStep(x, v, j, c); }
    else { MpiReadStep(x, v, j, c); }
  }

  lemma {:induction false} CriticalMonotone(x: Execution, v: nat, i: nat, j: nat, c: ClockType)
    requires x.Node(v, j) && i <= j && c < 3
    ensures x.Eff(v, i, c) <= x.Eff(v, j, c)
    decreases j
  {
    if i < j {
      CriticalMonotone(x, v, i, j - 1, c);
      NeverLoses(x, v, j - 1, c);
    }
  }

  // ---------------------------------------------------------------------------
  // What a sync object holds
  // ---------------------------------------------------------------------------

  lemma {:induction false} FreshIsZero(x: Execution, s: nat, j: nat, c: ClockType)
    requires x.Legal() && j <= |x.events| && s < |x.worlds[0].syncs| && c < 3
    ensures s < |x.worlds[j].syncs|
    ensures x.worlds[j].syncs[s].state == Init ==> x.worlds[j].syncs[s].clocks[c] == ZERO
  {
    if j > 0 {
      FreshIsZero(x, s, j - 1, c);
      assert x.StepAt(j - 1);
    }
  }

  /** An object that was written and not reset since holds at least what was written, in the writer's state. */
  lemma {:induction false} ObjectAtLeast(x: Execution, s: nat, i: nat, j: nat, c: ClockType)
    requires x.Legal() && i < j <= |x.events| && c < 3
    requires x.events[i].op.Before? && x.events[i].op.s == s && x.worlds[i].running
    requires forall k :: i < k < j ==> !x.ClearsAt(k, s)
    ensures x.Node(x.events[i].op.t, i + 1) && s < |x.worlds[j].syncs|
    ensures x.worlds[j].syncs[s].state == x.State(x.events[i].op.t, i + 1) != Init
    ensures x.worlds[j].syncs[s].clocks[c].critical >= x.Raw(x.events[i].op.t, i + 1, c).critical
    decreases j
  {
    assert x.StepAt(j - 1);
    x.Shape(j - 1);
    if i + 1 == j {
      x.Shape(j);
    } else {
      ObjectAtLeast(x, s, i, j - 1, c);
      assert !x.ClearsAt(j - 1, s);
    }
  }

  /** A step that neither wrote the object's value nor read it first left object and value as they were. */
  lemma ObjectKept(x: Execution, s: nat, j: nat, c: ClockType)
    requires x.Legal() && j < |x.events| && s < |x.worlds[j + 1].syncs| && c < 3
    requires x.worlds[j + 1].syncs[s].state != Init
    requires !(x.FreshRead(j) && x.events[j].op.s == s)
    ensures s < |x.worlds[j].syncs|
    ensures var w, op, value := x.worlds[j], x.events[j].op, x.worlds[j + 1].syncs[s].clocks[c].critical;
      || (op.Before? && op.s == s && w.running && op.t < |w.threads| && value == w.threads[op.t].clocks[c].critical)
      || (w.syncs[s].state != Init && value == w.syncs[s].clocks[c].critical && !x.ClearsAt(j, s))
  {
    assert x.StepAt(j);
    x.Shape(j); x.Shape(j + 1);
    FreshIsZero(x, s, j, c);
  }

  /** Where the value of an object in use comes from: a write that is still visible, or a fresh read. */
  lemma {:induction false} ObjectOrigin(x: Execution, s: nat, j: nat, c: ClockType) returns (i: Option<nat>)
    requires x.Legal() && j <= |x.events| && s < |x.worlds[j].syncs| && c < 3
    requires x.worlds[j].syncs[s].state != Init
    ensures i.Some? ==>
      && i.value < j
      && x.events[i.value].op.Before? && x.events[i.value].op.s == s && x.worlds[i.value].running
      && (forall k :: i.value < k < j ==> !x.ClearsAt(k, s))
      && x.Node(x.events[i.value].op.t, i.value + 1)
      && x.worlds[j].syncs[s].clocks[c].critical == x.Raw(x.events[i.value].op.t, i.value + 1, c).critical
    ensures i.None? ==> x.Tainted(s, j) && x.worlds[j].syncs[s].clocks[c].critical == 0.0
  {
    x.Shape(j);
    if j == 0 {
      assert false;
    } else {
      assert x.StepAt(j - 1);
      x.Shape(j - 1);
      var w, op := x.worlds[j - 1], x.events[j - 1].op;
      if op.Before? && op.s == s && w.running
         && x.worlds[j].syncs[s].clocks[c].critical == w.threads[op.t].clocks[c].critical {
        return Some(j - 1);
      }
      if x.FreshRead(j - 1) && op.s == s {
        FreshIsZero(x, s, j - 1, c);
        return None;
      }
      ObjectKept(x, s, j - 1, c);
      i := ObjectOrigin(x, s, j - 1, c);
      if i.None? {
        var k :| 0 <= k < j - 1 && x.FreshRead(k) && x.events[k].op.s == s
                 && forall l :: k < l < j - 1 ==> !x.ClearsAt(l, s);
        assert forall l :: k < l < j ==> !x.ClearsAt(l, s);
      }
    }
  }

  /** A message holds what its last load put there. */
  lemma {:induction false} MailOrigin(x: Execution, m: nat, j: nat) returns (i: nat)
    requires x.Legal() && j <= |x.events| && m < |x.worlds[j].mails|
    requires x.worlds[j].mails[m].Some?
    ensures i < j && x.LoadsAt(i, m)
    ensures forall k :: i < k < j ==> !x.LoadsAt(k, m)
    ensures x.Node(x.events[i].op.t, i + 1)
    ensures forall c: ClockType :: c < 3 ==>
      x.worlds[j].mails[m].value[c] == x.Raw(x.events[i].op.t, i + 1, c).critical
    ensures x.worlds[i].running ==> x.State(x.events[i].op.t, i + 1) == Mpi
  {
    x.Shape(j);
    if j == 0 {
      assert false;
    } else {
      assert x.StepAt(j - 1);
      x.Shape(j - 1);
      if x.LoadsAt(j - 1, m) {
        i := j - 1;
      } else {
        i := MailOrigin(x, m, j - 1);
      }
    }
  }

  /** While the tool runs it has always run. */
  lemma {:induction false} RanBefore(x: Execution, i: nat, j: nat)
    requires x.Legal() && i <= j <= |x.events| && x.worlds[j].running
    ensures x.worlds[i].running
    decreases j
  {
    if i < j {
      assert x.StepAt(j - 1);
      RanBefore(x, i, j - 1);
    }
  }

  /** Along an arc the effective value of the reader reaches that of the writer plus the wait. */
  lemma ArcAtLeast(x: Execution, i: nat, j: nat, c: ClockType)
    requires x.Legal() && j < |x.events| && x.Arc(i, j) && c < 3
    ensures x.Node(x.events[i].op.t, i + 1) && x.Node(x.events[j].op.t, j + 1)
    ensures x.Eff(x.events[j].op.t, j + 1, c) >=
      x.Eff(x.events[i].op.t, i + 1, c)
      + (if Active(x.State(x.events[j].op.t, j), c) then x.Time(j + 1) - x.Time(i + 1) else 0.0)
  {
    assert x.StepAt(j) && x.StepAt(i);
    x.Shape(i); x.Shape(j);
    var v := x.events[j].op.t;
    if x.events[j].op.After? {
      OmpReadStep(x, v, j, c);
      ObjectAtLeast(x, x.events[j].op.s, i, j, c);
    } else {
      MpiReadStep(x, v, j, c);
      var i' := MailOrigin(x, x.events[j].op.m, j);
      assert x.LoadsAt(i, x.events[j].op.m) && i == i';
      RanBefore(x, i, j);
    }
  }

  /** Where the effective value after a step comes from. */
  lemma StepOrigin(x: Execution, v: nat, j: nat, c: ClockType) returns (i: Option<nat>, zero: bool)
    requires x.Node(v, j) && j < |x.events| && c < 3
    ensures i.None? && !zero ==> x.Eff(v, j + 1, c) == Arriving(x, v, j, c)
    ensures i.Some? ==>
      && ReadBy(x, v, j) && x.Arc(i.value, j)
      && x.Node(x.events[i.value].op.t, i.value + 1)
      && x.Eff(v, j + 1, c) == x.Eff(x.events[i.value].op.t, i.value + 1, c)
           + (if Active(x.State(v, j), c) then x.Time(j + 1) - x.Time(i.value + 1) else 0.0)
    ensures zero ==>
      && x.ReadsZero(j) && x.events[j].op.t == v
      && x.Eff(v, j + 1, c) == Potential(x.State(v, j), c, x.Time(j + 1))
  {
    assert x.StepAt(j);
    x.Shape(j);
    i, zero := None, false;
    var op := x.events[j].op;
    if !ReadBy(x, v, j) {
      QuietStep(x, v, j, c);
    } else if op.After? {
      OmpReadStep(x, v, j, c);
      if x.Eff(v, j + 1, c) != Arriving(x, v, j, c) {
        if x.worlds[j].syncs[op.s].state == Init {
          x.Shape(0);
          FreshIsZero(x, op.s, j, c);
          zero := true;
        } else {
          i := ObjectOrigin(x, op.s, j, c);
          if i.Some? {
            ObjectAtLeast(x, op.s, i.value, j, c);
          } else {
            zero := true;
          }
        }
      }
    } else {
      MpiReadStep(x, v, j, c);
      if x.Eff(v, j + 1, c) != Arriving(x, v, j, c) {
        var l := MailOrigin(x, op.m, j);
        RanBefore(x, l, j);
        i := Some(l);
      }
    }
  }

  // ---------------------------------------------------------------------------
  // The scalar clock is the longest path
  // ---------------------------------------------------------------------------

  /** No path, not even one that starts in a fresh object, is longer than the scalar clock. */
  lemma {:induction false} NoPathIsLonger(x: Execution, p: Path, v: nat, j: nat, c: ClockType)
    requires x.Node(v, j) && x.IsPath(p, v, j) && c < 3
    ensures x.Weight(p, v, j, c) <= x.Eff(v, j, c)
    decreases p
  {
    match p
    case Origin =>
    case Local(q) =>
      NoPathIsLonger(x, q, v, j - 1, c);
      NeverLoses(x, v, j - 1, c);
    case Via(q, i) =>
      assert x.StepAt(i); x.Shape(i);
      NoPathIsLonger(x, q, x.events[i].op.t, i + 1, c);
      ArcAtLeast(x, i, j - 1, c);
    case Epoch => EpochIsNotLonger(x, v, j, c);
  }

  lemma EpochIsNotLonger(x: Execution, v: nat, j: nat, c: ClockType)
    requires x.Node(v, j) && x.IsPath(Epoch, v, j) && c < 3
    ensures x.Weight(Epoch, v, j, c) <= x.Eff(v, j, c)
  {
    assert x.StepAt(j - 1); x.Shape(j - 1);
    OmpReadStep(x, v, j - 1, c);
    ZeroStays(x, j - 1, c);
  }

  /** A read that meets a fresh object's zero finds a raw value of at least zero. */
  lemma ZeroStays(x: Execution, j: nat, c: ClockType)
    requires x.Legal() && j < |x.events| && c < 3 && x.ReadsZero(j)
    ensures x.events[j].op.s < |x.worlds[j].syncs|
    ensures x.worlds[j].syncs[x.events[j].op.s].clocks[c].critical >= 0.0
  {
    assert x.StepAt(j); x.Shape(j); x.Shape(0);
    var s := x.events[j].op.s;
    if x.FreshRead(j) {
      FreshIsZero(x, s, j, c);
    } else {
      var k :| 0 <= k < j && x.FreshRead(k) && x.events[k].op.s == s && forall l :: k < l < j ==> !x.ClearsAt(l, s);
      ZeroFrom(x, s, k, j, c);
    }
  }

  lemma {:induction false} ZeroFrom(x: Execution, s: nat, k: nat, j: nat, c: ClockType)
    requires x.Legal() && k < j <= |x.events| && c < 3 && s < |x.worlds[0].syncs|
    requires x.FreshRead(k) && x.events[k].op.s == s
    requires forall l :: k < l < j ==> !x.ClearsAt(l, s)
    ensures s < |x.worlds[j].syncs|
    ensures x.worlds[j].syncs[s].clocks[c].critical >= 0.0
    ensures x.Node(x.events[k].op.t, k)
    ensures x.worlds[j].syncs[s].state == x.State(x.events[k].op.t, k) != Init
    decreases j
  {
    assert x.StepAt(j - 1); x.Shape(j - 1); x.Shape(j);
    if k + 1 == j {
      FreshIsZero(x, s, k, c);
    } else {
      ZeroFrom(x, s, k, j - 1, c);
      assert !x.ClearsAt(j - 1, s);
    }
  }

  // ---------------------------------------------------------------------------
  // When the fresh objects do no harm
  // ---------------------------------------------------------------------------

  /** No event up to `j` lets a thread whose clock `c` runs read a fresh object. */
  ghost predicate NoRunningFreshRead(x: Execution, c: ClockType, j: nat)
    requires x.Legal() && j <= |x.events|
  {
    forall k :: 0 <= k < j && x.FreshRead(k) ==> ReaderStopped(x, k, c)
  }

  ghost predicate ReaderStopped(x: Execution, k: nat, c: ClockType)
    requires x.Legal() && k < |x.events| && x.FreshRead(k)
  {
    assert x.StepAt(k); x.Shape(k);
    !Active(x.State(x.events[k].op.t, k), c)
  }

  lemma {:induction false} Nonnegative(x: Execution, v: nat, j: nat, c: ClockType)
    requires x.Node(v, j) && c < 3
    ensures x.Eff(v, j, c) >= 0.0
  {
    if j > 0 {
      Nonnegative(x, v, j - 1, c);
      NeverLoses(x, v, j - 1, c);
    }
  }

  /** Without running fresh reads the raw zeros never weigh anything. */
  lemma ZeroWeighsNothing(x: Execution, j: nat, c: ClockType)
    requires x.Legal() && j < |x.events| && c < 3 && x.ReadsZero(j) && NoRunningFreshRead(x, c, j + 1)
    ensures x.Node(x.events[j].op.t, j) && !Active(x.State(x.events[j].op.t, j), c)
  {
    assert x.StepAt(j); x.Shape(j); x.Shape(0);
    var s := x.events[j].op.s;
    if x.FreshRead(j) {
      assert ReaderStopped(x, j, c);
    } else {
      var k :| 0 <= k < j && x.FreshRead(k) && x.events[k].op.s == s && forall l :: k < l < j ==> !x.ClearsAt(l, s);
      assert ReaderStopped(x, k, c);
      ZeroFrom(x, s, k, j, c);
    }
  }

  /** As StepOrigin, without the zeros. */
  lemma GenuineOrigin(x: Execution, v: nat, j: nat, c: ClockType) returns (i: Option<nat>)
    requires x.Node(v, j) && j < |x.events| && c < 3 && NoRunningFreshRead(x, c, j + 1)
    ensures i.None? ==> x.Eff(v, j + 1, c) == Arriving(x, v, j, c)
    ensures i.Some? ==>
      && ReadBy(x, v, j) && x.Arc(i.value, j)
      && x.Node(x.events[i.value].op.t, i.value + 1)
      && x.Eff(v, j + 1, c) == x.Eff(x.events[i.value].op.t, i.value + 1, c)
           + (if Active(x.State(v, j), c) then x.Time(j + 1) - x.Time(i.value + 1) else 0.0)
  {
    var zero;
    i, zero := StepOrigin(x, v, j, c);
    if zero {
      ZeroWeighsNothing(x, j, c);
      Nonnegative(x, v, j, c);
      NeverLoses(x, v, j, c);
    }
  }

  lemma {:induction false} GenuinePathIsAsLong(x: Execution, v: nat, j: nat, c: ClockType) returns (p: Path)
    requires x.Node(v, j) && c < 3 && NoRunningFreshRead(x, c, j)
    ensures x.IsPath(p, v, j) && p.Genuine() && x.Weight(p, v, j, c) == x.Eff(v, j, c)
    decreases j
  {
    if j == 0 {
      p := Origin;
    } else {
      var i := GenuineOrigin(x, v, j - 1, c);
      if i.Some? {
        var q := GenuinePathIsAsLong(x, x.events[i.value].op.t, i.value + 1, c);
        p := Via(q, i.value);
      } else {
        var q := GenuinePathIsAsLong(x, v, j - 1, c);
        p := Local(q);
      }
    }
  }

  /** The graph cannot collect more than the time that has passed. */
  lemma {:induction false} GenuineAtMostElapsed(x: Execution, p: Path, v: nat, j: nat, c: ClockType)
    requires x.Node(v, j) && x.IsPath(p, v, j) && p.Genuine()
    ensures x.Weight(p, v, j, c) <= x.Time(j) - x.start
    decreases p
  {
    match p
    case Origin =>
    case Local(q) =>
      GenuineAtMostElapsed(x, q, v, j - 1, c);
      x.TimeMonotone(j - 1, j);
    case Via(q, i) =>
      assert x.StepAt(i); x.Shape(i);
      GenuineAtMostElapsed(x, q, x.events[i].op.t, i + 1, c);
      x.TimeMonotone(i + 1, j);
  }

  /** `value` is the largest weight of a genuine path to (v, j). */
  ghost predicate LongestPath(x: Execution, v: nat, j: nat, c: ClockType, value: real)
    requires x.Node(v, j)
  {
    && (forall p: Path :: x.IsPath(p, v, j) && p.Genuine() ==> x.Weight(p, v, j, c) <= value)
    && exists p: Path :: x.IsPath(p, v, j) && p.Genuine() && x.Weight(p, v, j, c) == value
  }

  lemma ScalarIsLongestPath(x: Execution, v: nat, j: nat, c: ClockType)
    requires x.Node(v, j) && c < 3 && NoRunningFreshRead(x, c, j)
    ensures LongestPath(x, v, j, c, x.Eff(v, j, c))
  {
    var p := GenuinePathIsAsLong(x, v, j, c);
    forall p: Path | x.IsPath(p, v, j) && p.Genuine()
      ensures x.Weight(p, v, j, c) <= x.Eff(v, j, c)
    {
      NoPathIsLonger(x, p, v, j, c);
    }
  }

  /** A running clock that reads a fresh object jumps to the time since the epoch. */
  lemma RunningFreshReadOvershoots(x: Execution, k: nat, c: ClockType)
    requires x.Legal() && k < |x.events| && c < 3 && x.start > 0.0
    requires x.FreshRead(k) && !ReaderStopped(x, k, c)
    ensures x.Node(x.events[k].op.t, k + 1)
    ensures !LongestPath(x, x.events[k].op.t, k + 1, c, x.Eff(x.events[k].op.t, k + 1, c))
  {
    assert x.StepAt(k); x.Shape(k); x.Shape(0);
    var v := x.events[k].op.t;
    OmpReadStep(x, v, k, c);
    FreshIsZero(x, x.events[k].op.s, k, c);
    forall p: Path | x.IsPath(p, v, k + 1) && p.Genuine()
      ensures x.Weight(p, v, k + 1, c) < x.Eff(v, k + 1, c)
    {
      GenuineAtMostElapsed(x, p, v, k + 1, c);
    }
  }

  /**
   The central claim, with its exact condition: the scalar clock of every thread is the
   longest path of the event graph after every event, if and only if no thread whose clock
   runs ever reads a sync object that is still fresh.
   */
  lemma LongestPathExactlyWhen(x: Execution, c: ClockType)
    requires x.Legal() && c < 3 && x.start > 0.0
    ensures NoRunningFreshRead(x, c, |x.events|) <==>
      forall v, j :: x.Node(v, j) ==> LongestPath(x, v, j, c, x.Eff(v, j, c))
  {
    if NoRunningFreshRead(x, c, |x.events|) {
      forall v: nat, j: nat | x.Node(v, j) ensures LongestPath(x, v, j, c, x.Eff(v, j, c)) {
        ScalarIsLongestPath(x, v, j, c);
      }
    } else {
      var k :| 0 <= k < |x.events| && x.FreshRead(k) && !ReaderStopped(x, k, c);
      RunningFreshReadOvershoots(x, k, c);
    }
  }
}
