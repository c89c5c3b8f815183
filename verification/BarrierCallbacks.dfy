/**
 The callbacks that use the barrier clocks of a parallel region (src/ompt-critical.cpp), on real
 clock objects, and their effect on each merged clock: a step of the protocol in module Barrier.
 */
module BarrierCallbacks {
  import opened Clocks
  import opened Cells
  import Barrier
  import ClockRuns

  type Slots = s: seq<SyncValue> | |s| == 3 witness [FRESH, FRESH, FRESH]

  const FRESH := SyncValue(ZEROS, Init)

  /** Entering a barrier: deposit, and thread 0 resets the slot of the next round. */
  function Arrived(running: bool, slots: Slots, v: ThreadValue, index: nat, first: bool): Slots
    requires v.Valid() && index < 3
  {
    var deposited := slots[index := Deposited(running, slots[index], v)];
    var next := (index + 1) % 3;
    if first then deposited[next := Cleared(running, deposited[next])] else deposited
  }

  function Read(running: bool, slots: Slots, v: ThreadValue, index: nat): Slots
    requires v.Valid() && index < 3
  {
    slots[index := Touched(running, slots[index], v)]
  }

  /** A thread that has not measured yet enters the OpenMP state, with the same effective values; any other stays. */
  function InOmp(running: bool, v: ThreadValue, time: real): (r: ThreadValue)
    requires v.Valid()
    ensures r.Valid() && r.stack == v.stack + if running && v.State() == Init then [Omp] else []
    ensures forall c: ClockType ::
      r.clocks[c] == v.clocks[c].Plus(Potential(v.State(), c, time) - Potential(r.State(), c, time))
  {
    if v.State() == Init then Entered(running, v, time, Omp) else v
  }

  class ParallelData {
    const barrier: seq<SyncClock>

    ghost function Parts(): set<object> {
      if |barrier| != 3 then {}
      else {barrier[0], barrier[1], barrier[2], barrier[0].clocks, barrier[1].clocks, barrier[2].clocks}
    }

    ghost predicate Valid() {
      && |barrier| == 3
      && (forall i :: 0 <= i < 3 ==> barrier[i].Valid())
      && (forall i, j :: 0 <= i < j < 3 ==> barrier[i] != barrier[j] && barrier[i].clocks != barrier[j].clocks)
    }

    ghost function Value(): Slots
      requires Valid()
      reads Parts()
    {
      [barrier[0].Value(), barrier[1].Value(), barrier[2].Value()]
    }

    /** A thread clock has its own memory. */
    ghost predicate Apart(tc: ThreadClock) {
      tc.clocks !in Parts()
    }

    constructor ()
      ensures Valid() && fresh(Parts()) && Value() == [FRESH, FRESH, FRESH]
    {
      var b0 := new SyncClock();
      var b1 := new SyncClock();
      var b2 := new SyncClock();
      barrier := [b0, b1, b2];
    }

    method Deposit(running: bool, tc: ThreadClock, index: nat)
      requires Valid() && tc.Valid() && Apart(tc) && index < 3
      modifies Parts()
      ensures Value() == old(Value())[index := Deposited(running, old(Value())[index], tc.Value())]
      ensures tc.Value() == old(tc.Value())
    {
      barrier[index].OmpHBefore(running, tc);
    }

    method Reset(running: bool, index: nat)
      requires Valid() && index < 3
      modifies Parts()
      ensures Value() == old(Value())[index := Cleared(running, old(Value())[index])]
    {
      barrier[index].OmpCReset(running);
    }

    method Acquire(running: bool, tc: ThreadClock, index: nat)
      requires Valid() && tc.Valid() && Apart(tc) && index < 3
      modifies Parts(), tc.clocks
      ensures tc.Valid() && tc.Value() == Acquired(running, old(Value())[index], old(tc.Value()))
      ensures Value() == Read(running, old(Value()), old(tc.Value()), index)
    {
      barrier[index].OmpHAfter(running, tc);
    }

    /** The fork: the encountering thread leaves its clock in slot 1. */
    method ParallelBegin(running: bool, tc: ThreadClock, time: real)
      requires Valid() && tc.Valid() && Apart(tc)
      modifies Parts(), tc, tc.clocks
      ensures tc.Valid() && tc.Value() == Entered(running, old(tc.Value()), time, Omp)
      ensures Value() == old(Value())[1 := Deposited(running, old(Value())[1], tc.Value())]
    {
      tc.EnterState(running, time, Omp);
      Deposit(running, tc, 1);
    }

    /** A thread of the team begins its implicit task; one that has not measured yet enters the OpenMP state first. */
    method ImplicitTaskBegin(running: bool, tc: ThreadClock, time: real)
      requires Valid() && tc.Valid() && Apart(tc)
      modifies Parts(), tc, tc.clocks
      ensures var v := InOmp(running, old(tc.Value()), time);
        && tc.Valid() && tc.Value() == Entered(running, Acquired(running, old(Value())[1], v), time, Useful)
        && Value() == Read(running, old(Value()), v, 1)
    {
      if tc.GetState() == Init {
        tc.EnterState(running, time, Omp);
      }
      Acquire(running, tc, 1);
      tc.EnterState(running, time, Useful);
    }

    method BarrierBegin(running: bool, tc: ThreadClock, time: real, index: nat, threadNum: nat)
      requires Valid() && tc.Valid() && Apart(tc) && index < 3
      modifies Parts(), tc, tc.clocks
      ensures tc.Valid() && tc.Value() == Entered(running, old(tc.Value()), time, Omp)
      ensures Value() == Arrived(running, old(Value()), tc.Value(), index, threadNum == 0)
    {
      tc.EnterState(running, time, Omp);
      Deposit(running, tc, index);
      if threadNum == 0 {
        Reset(running, (index + 1) % 3);
      }
    }

    /** The task leaves the OpenMP state only if the measurement was on when the task was created. */
    method BarrierEnd(running: bool, tc: ThreadClock, time: real, index: nat, threadNum: nat, inTeam: bool,
                      wasRunning: bool)
      returns (next: nat)
      requires Valid() && tc.Valid() && Apart(tc) && index < 3
      requires running && wasRunning ==> |tc.stack| > 1 || tc.GetState() == Init
      modifies Parts(), tc, tc.clocks
      ensures tc.Valid() && next == (index + 1) % 3
      ensures var arc := inTeam || threadNum == 0;
        && tc.Value() == (
             if arc then Exited(running && wasRunning, Acquired(running, old(Value())[index], old(tc.Value())), time)
             else Exited(running && wasRunning, old(tc.Value()), time))
        && Value() == if arc then Read(running, old(Value()), old(tc.Value()), index) else old(Value())
    {
      if inTeam || threadNum == 0 {
        Acquire(running, tc, index);
      }
      next := (index + 1) % 3;
      tc.ExitState(running && wasRunning, time);
    }
  }

  // ---------------------------------------------------------------------------
  // Refinement
  // ---------------------------------------------------------------------------

  /** One merged clock of the three slots. */
  function CellsOf(slots: Slots, c: ClockType): seq<Cell> {
    [CellOf(slots[0], c), CellOf(slots[1], c), CellOf(slots[2], c)]
  }

  /** Region `r` shows clock `c` of the slots and of thread `t`, which is in the OpenMP state. */
  predicate Shows(r: Barrier.Region, slots: Slots, v: ThreadValue, t: nat, c: ClockType) {
    && Barrier.WellFormed(r) && t < |r.phases|
    && v.Valid() && v.State() == Omp && c < 3
    && r.slots == CellsOf(slots, c) && r.raws[t] == v.clocks[c].critical
  }

  lemma OneCell(slots: Slots, i: nat, s: SyncValue, c: ClockType)
    requires i < 3
    ensures CellsOf(slots[i := s], c) == CellsOf(slots, c)[i := CellOf(s, c)]
  {
  }

  /** Entering a barrier is an arrival followed by what thread 0 does about the next slot. */
  lemma ArrivedRefines(r: Barrier.Region, slots: Slots, v: ThreadValue, t: nat, c: ClockType)
    requires Shows(r, slots, v, t, c) && r.phases[t].Between?
    ensures var r1 := Barrier.Next(r, Barrier.Arrive(t));
      Shows(Barrier.Next(r1, Barrier.Settle(t)), Arrived(true, slots, v, r.index[t], t == 0), v, t, c)
  {
    var i, next := r.index[t], (r.index[t] + 1) % 3;
    var deposited := slots[i := Deposited(true, slots[i], v)];
    CellsRefineClocks(slots[i], v, c);
    OneCell(slots, i, deposited[i], c);
    CellsRefineClocks(deposited[next], v, c);
    OneCell(deposited, next, Cleared(true, deposited[next]), c);
  }

  /** The arc out of a barrier is a step of leaving it. */
  lemma LeaveRefines(r: Barrier.Region, slots: Slots, v: ThreadValue, t: nat, c: ClockType)
    requires Shows(r, slots, v, t, c) && Barrier.Enabled(r, Barrier.Leave(t, true))
    ensures Shows(Barrier.Next(r, Barrier.Leave(t, true)), Read(true, slots, v, r.index[t]),
                  Acquired(true, slots[r.index[t]], v), t, c)
  {
    CellsRefineClocks(slots[r.index[t]], v, c);
  }

  /**
   The arc at the beginning of an implicit task is the fork arc, also for a thread that has not measured
   yet: the region has its effective value, seen from the OpenMP state.
   */
  lemma BeginRefines(r: Barrier.Region, slots: Slots, v: ThreadValue, t: nat, c: ClockType, time: real)
    requires Barrier.WellFormed(r) && Barrier.Enabled(r, Barrier.Begin(t)) && c < 3
    requires v.Valid() && (v.State() == Init || v.State() == Omp) && r.slots == CellsOf(slots, c)
    requires r.raws[t] + Potential(Omp, c, time) == v.clocks[c].critical + Potential(v.State(), c, time)
    ensures var w := InOmp(true, v, time);
      Shows(Barrier.Next(r, Barrier.Begin(t)), Read(true, slots, w, 1), Acquired(true, slots[1], w), t, c)
  {
    CellsRefineClocks(slots[1], InOmp(true, v, time), c);
  }

  /** Between two moments in the OpenMP state, whatever a thread does is a gain of the effective value. */
  lemma WorkRefines(x: ClockRuns.Execution, v: nat, i: nat, j: nat, c: ClockType)
    requires x.Node(v, j) && i <= j && c < 3 && x.State(v, i) == x.State(v, j) == Omp
    ensures var gain := x.Raw(v, j, c).critical - x.Raw(v, i, c).critical;
      gain + Potential(Omp, c, x.Time(j)) >= Potential(Omp, c, x.Time(i))
  {
    ClockRuns.CriticalMonotone(x, v, i, j, c);
  }
}
