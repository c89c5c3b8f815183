/**
 Clock states, the state table and the clock arithmetic of thread and sync clocks
 (include/criticalPath.h).

 A running clock is stored as "accumulated minus start time".  The raw value only has a
 meaning together with the state it is read in: the effective value at time `now` is
 `raw + now` for a clock that runs in that state, and `raw` otherwise.
 */
module Clocks {

  datatype ClockState = Init | NoState | Useful | Mpi | Omp | Gpu

  type ClockType = c: nat | c < 4

  const USEFUL: ClockType := 0
  const OMPI: ClockType := 1
  const OOMP: ClockType := 2
  const OGPU: ClockType := 3
  const CLOCK_LAST := 4

  /** The State table: does clock `c` run in state `s`? */
  predicate Active(s: ClockState, c: ClockType) {
    match s
    case Init => false
    case NoState => c != USEFUL
    case Useful => true
    case Mpi => c == OOMP || c == OGPU
    case Omp => c == OMPI || c == OGPU
    case Gpu => c == OMPI || c == OOMP
  }

  /** What a clock that runs in state `s` owes to the current time. */
  function Potential(s: ClockState, c: ClockType, now: real): real {
    if Active(s, c) then now else 0.0
  }

  function Max(a: real, b: real): real {
    if a < b then b else a
  }

  datatype CpClocks = CpClocks(thread: real, proc: real, critical: real) {
    function Plus(d: real): CpClocks {
      CpClocks(thread + d, proc + d, critical + d)
    }

    /** Only the process and the critical level take part in a merge. */
    function MaxUpdate(o: CpClocks): CpClocks {
      CpClocks(thread, Max(proc, o.proc), Max(critical, o.critical))
    }
  }

  const ZERO := CpClocks(0.0, 0.0, 0.0)

  type ClockSeq = s: seq<CpClocks> | |s| == 4 witness [ZERO, ZERO, ZERO, ZERO]

  const ZEROS: ClockSeq := [ZERO, ZERO, ZERO, ZERO]

  datatype ThreadValue = ThreadValue(clocks: ClockSeq, stack: seq<ClockState>) {
    predicate Valid() { |stack| > 0 }

    function State(): ClockState
      requires Valid()
    {
      stack[|stack| - 1]
    }
  }

  datatype SyncValue = SyncValue(clocks: ClockSeq, state: ClockState)

  // ---------------------------------------------------------------------------
  // What each operation does to the value of a clock
  // ---------------------------------------------------------------------------

  function SwitchedOne(v: CpClocks, c: ClockType, old_: ClockState, new_: ClockState, time: real): CpClocks {
    if Active(old_, c) == Active(new_, c) then v
    else if Active(new_, c) then v.Plus(-time)
    else v.Plus(time)
  }

  function Switched(clocks: ClockSeq, old_: ClockState, new_: ClockState, time: real): ClockSeq {
    seq(4, c requires 0 <= c < 4 => SwitchedOne(clocks[c], c, old_, new_, time))
  }

  function Entered(running: bool, v: ThreadValue, time: real, cs: ClockState): ThreadValue
    requires v.Valid()
  {
    if !running then v
    else ThreadValue(Switched(v.clocks, v.State(), cs, time), v.stack + [cs])
  }

  /** Leaving a state pops the stack; a thread in Init stays there. */
  function Exited(running: bool, v: ThreadValue, time: real): ThreadValue
    requires v.Valid()
    requires running ==> |v.stack| > 1 || v.State() == Init
  {
    if !running || v.State() == Init then v
    else
      var rest := v.stack[..|v.stack| - 1];
      ThreadValue(Switched(v.clocks, v.State(), rest[|rest| - 1], time), rest)
  }

  /** Replaces the top of the stack; only the final switch to Init works when not running. */
  function SetTo(running: bool, v: ThreadValue, time: real, cs: ClockState): ThreadValue
    requires v.Valid()
  {
    if !running && cs != Init then v
    else ThreadValue(Switched(v.clocks, v.State(), cs, time), v.stack[|v.stack| - 1 := cs])
  }

  /** A state that is entered and left again leaves the stack as it was. */
  lemma ExitUndoesEnter(v: ThreadValue, cs: ClockState, entered: real, left: real)
    requires v.Valid() && cs != Init
    ensures Exited(true, Entered(true, v, entered, cs), left).stack == v.stack
  {
    assert (v.stack + [cs])[..|v.stack|] == v.stack;
  }

  /** The last switch, to Init, stops all clocks at their effective values, also when the measurement is off. */
  lemma SetToInitStops(running: bool, v: ThreadValue, time: real)
    requires v.Valid()
    ensures var r := SetTo(running, v, time, Init);
      && |r.stack| == |v.stack| && r.stack[..|v.stack| - 1] == v.stack[..|v.stack| - 1] && r.State() == Init
      && forall c: ClockType :: r.clocks[c] == v.clocks[c].Plus(Potential(v.State(), c, time))
  {
  }

  /** The merged clocks are the first three; the GPU clock keeps its value. */
  function Merged(a: ClockSeq, b: ClockSeq): ClockSeq {
    [a[0].MaxUpdate(b[0]), a[1].MaxUpdate(b[1]), a[2].MaxUpdate(b[2]), a[3]]
  }

  /** OmpHBefore: copy into a fresh object, otherwise merge. */
  function Deposited(running: bool, s: SyncValue, t: ThreadValue): SyncValue
    requires t.Valid()
  {
    if !running then s
    else if s.state == Init then
      SyncValue([t.clocks[0], t.clocks[1], t.clocks[2], s.clocks[3]], t.State())
    else SyncValue(Merged(s.clocks, t.clocks), s.state)
  }

  /** OmpHAfter, the thread side. */
  function Acquired(running: bool, s: SyncValue, t: ThreadValue): ThreadValue {
    if !running then t else t.(clocks := Merged(t.clocks, s.clocks))
  }

  /** OmpHAfter, the object side: a fresh object takes the state of its first reader. */
  function Touched(running: bool, s: SyncValue, t: ThreadValue): SyncValue
    requires t.Valid()
  {
    if !running || s.state != Init then s else s.(state := t.State())
  }

  function Cleared(running: bool, s: SyncValue): SyncValue {
    if !running then s else SyncValue([ZERO, ZERO, ZERO, s.clocks[3]], Init)
  }

  /** The payload of a piggyback message: the raw critical values of the merged clocks. */
  type Payload = p: seq<real> | |p| == 3 witness [0.0, 0.0, 0.0]

  function Loaded(t: ThreadValue): Payload {
    [t.clocks[0].critical, t.clocks[1].critical, t.clocks[2].critical]
  }

  /** MpiHappensAfter: only the critical level crosses process borders. */
  function Received(running: bool, p: Payload, t: ThreadValue): ThreadValue {
    if !running then t
    else t.(clocks := [
      t.clocks[0].(critical := Max(t.clocks[0].critical, p[0])),
      t.clocks[1].(critical := Max(t.clocks[1].critical, p[1])),
      t.clocks[2].(critical := Max(t.clocks[2].critical, p[2])),
      t.clocks[3]])
  }

  // ---------------------------------------------------------------------------
  // The clock objects
  // ---------------------------------------------------------------------------

  class ThreadClock {
    const clocks: array<CpClocks>
    var stack: seq<ClockState>

    ghost predicate Valid()
      reads this
    {
      clocks.Length == 4 && |stack| > 0
    }

    ghost function Value(): ThreadValue
      reads this, clocks
      requires Valid()
    {
      ThreadValue(clocks[..], stack)
    }

    constructor (usefulComputation: real)
      ensures Valid() && fresh(clocks)
      ensures Value() == ThreadValue(ZEROS[USEFUL := ZERO.(critical := usefulComputation)], [Init])
    {
      clocks := new CpClocks[4](_ => ZERO);
      stack := [Init];
      new;
      clocks[USEFUL] := clocks[USEFUL].(critical := usefulComputation);
    }

    function GetState(): (s: ClockState)
      reads this
      requires Valid()
      ensures s == stack[|stack| - 1]
    {
      stack[|stack| - 1]
    }

    method SwitchState(oldCs: ClockState, newCs: ClockState, time: real)
      requires Valid()
      modifies clocks
      ensures clocks[..] == Switched(old(clocks[..]), oldCs, newCs, time)
    {
      if oldCs == newCs {
        return;
      }
      for i := 0 to CLOCK_LAST
        invariant forall c: ClockType :: c < i ==> clocks[c] == SwitchedOne(old(clocks[c]), c, oldCs, newCs, time)
        invariant forall c: ClockType :: i <= c ==> clocks[c] == old(clocks[c])
      {
        if Active(oldCs, i) == Active(newCs, i) {
        } else if !Active(oldCs, i) && Active(newCs, i) {
          clocks[i] := clocks[i].Plus(-time);
        } else {
          clocks[i] := clocks[i].Plus(time);
        }
      }
    }

    method EnterState(running: bool, time: real, cs: ClockState)
      requires Valid()
      modifies this, clocks
      ensures Valid()
      ensures Value() == Entered(running, old(Value()), time, cs)
    {
      if !running {
        return;
      }
      SwitchState(GetState(), cs, time);
      stack := stack + [cs];
    }

    method ExitState(running: bool, time: real)
      requires Valid()
      requires running ==> |stack| > 1 || GetState() == Init
      modifies this, clocks
      ensures Valid()
      ensures Value() == Exited(running, old(Value()), time)
    {
      if !running {
        return;
      }
      var oldCs := GetState();
      if oldCs == Init {
        return;
      }
      stack := stack[..|stack| - 1];
      SwitchState(oldCs, GetState(), time);
    }

    method SetState(running: bool, time: real, cs: ClockState)
      requires Valid()
      modifies this, clocks
      ensures Valid()
      ensures Value() == SetTo(running, old(Value()), time, cs)
    {
      if !running && cs != Init {
        return;
      }
      SwitchState(GetState(), cs, time);
      stack := stack[|stack| - 1 := cs];
    }

    method MpiHappensBefore() returns (values: Payload)
      requires Valid()
      ensures values == Loaded(Value())
    {
      values := [clocks[USEFUL].critical, clocks[OMPI].critical, clocks[OOMP].critical];
    }

    method MpiHappensAfter(running: bool, values: Payload)
      requires Valid()
      modifies clocks
      ensures Valid() && Value() == Received(running, values, old(Value()))
    {
      if !running {
        return;
      }
      clocks[USEFUL] := clocks[USEFUL].(critical := Max(clocks[USEFUL].critical, values[0]));
      clocks[OMPI] := clocks[OMPI].(critical := Max(clocks[OMPI].critical, values[1]));
      clocks[OOMP] := clocks[OOMP].(critical := Max(clocks[OOMP].critical, values[2]));
    }
  }

  class SyncClock {
    const clocks: array<CpClocks>
    var state: ClockState

    ghost predicate Valid() {
      clocks.Length == 4
    }

    ghost function Value(): SyncValue
      reads this, clocks
      requires Valid()
    {
      SyncValue(clocks[..], state)
    }

    constructor ()
      ensures Valid() && fresh(clocks) && Value() == SyncValue(ZEROS, Init)
    {
      clocks := new CpClocks[4](_ => ZERO);
      state := Init;
    }

    /** Reports whether the object was fresh, and whether a used one is in the thread's state, which is checked. */
    method CheckArc(tc: ThreadClock) returns (wasFresh: bool, agrees: bool)
      requires Valid() && tc.Valid()
      modifies this
      ensures wasFresh <==> old(state) == Init
      ensures agrees <==> wasFresh || old(state) == tc.GetState()
      ensures state == if wasFresh then tc.GetState() else old(state)
    {
      if state == Init {
        state := tc.GetState();
        return true, true;
      }
      return false, tc.GetState() == state;
    }

    method OmpHBefore(running: bool, tc: ThreadClock)
      requires Valid() && tc.Valid() && clocks != tc.clocks
      modifies this, clocks
      ensures Value() == Deposited(running, old(Value()), old(tc.Value()))
    {
      if !running {
        return;
      }
      var copy, agrees := CheckArc(tc);
      if copy {
        clocks[USEFUL] := tc.clocks[USEFUL];
        clocks[OOMP] := tc.clocks[OOMP];
        clocks[OMPI] := tc.clocks[OMPI];
        return;
      }
      clocks[USEFUL] := clocks[USEFUL].MaxUpdate(tc.clocks[USEFUL]);
      clocks[OOMP] := clocks[OOMP].MaxUpdate(tc.clocks[OOMP]);
      clocks[OMPI] := clocks[OMPI].MaxUpdate(tc.clocks[OMPI]);
    }

    method OmpHAfter(running: bool, tc: ThreadClock)
      requires Valid() && tc.Valid() && clocks != tc.clocks
      modifies this, tc.clocks
      ensures tc.Valid() && tc.Value() == Acquired(running, old(Value()), old(tc.Value()))
      ensures Value() == Touched(running, old(Value()), old(tc.Value()))
    {
      if !running {
        return;
      }
      var wasFresh, agrees := CheckArc(tc);
      tc.clocks[USEFUL] := tc.clocks[USEFUL].MaxUpdate(clocks[USEFUL]);
      tc.clocks[OOMP] := tc.clocks[OOMP].MaxUpdate(clocks[OOMP]);
      tc.clocks[OMPI] := tc.clocks[OMPI].MaxUpdate(clocks[OMPI]);
    }

    method OmpCReset(running: bool)
      requires Valid()
      modifies this, clocks
      ensures Value() == Cleared(running, old(Value()))
    {
      if !running {
        return;
      }
      clocks[USEFUL] := ZERO;
      clocks[OMPI] := ZERO;
      clocks[OOMP] := ZERO;
      state := Init;
    }
  }
}
