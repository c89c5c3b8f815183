/**
 What a barrier delivers of explicit tasks.  A completed task deposits into the barrier slot of its
 own index, which nothing advances: slot 0, whatever round the team is in (src/ompt-critical.cpp).
 */
module BarrierTasks {
  import opened Clocks
  import opened Cells
  import opened Barrier

  /**
   A run with the time of each state.  Seen from the OpenMP state, the raw value of a clock that runs
   there loses the time of its stops, so that its effective value, the raw value plus the time, never
   falls; that of another clock never falls itself.
   */
  datatype Schedule = Schedule(rs: seq<Region>, steps: seq<Step>, fork: real, times: seq<real>, runs: bool) {
    predicate Timed() {
      && IsRun(rs, steps, fork) && |times| == |rs|
      && (forall j :: 0 <= j < |steps| ==> times[j] <= times[j + 1])
    }

    ghost predicate Valid() {
      Timed() && forall j :: 0 <= j < |steps| ==> NeverLoses(j)
    }

    /** What the effective value adds to the raw one. */
    function Shift(j: nat): real
      requires j < |times|
    {
      if runs then times[j] else 0.0
    }

    predicate Acts(j: nat, t: nat)
      requires j < |steps|
    {
      !steps[j].TaskDone? && steps[j].t == t
    }

    /** The state after the last step of thread `t` before state `j`. */
    function Last(j: nat, t: nat): (l: nat)
      requires j <= |steps|
      ensures l <= j
    {
      if j == 0 || Acts(j - 1, t) then j else Last(j - 1, t)
    }

    ghost predicate NeverLoses(j: nat)
      requires Timed() && j < |steps|
    {
      steps[j].Work? ==> steps[j].gain + Shift(j + 1) >= Shift(Last(j, steps[j].t))
    }

    /** The effective value of a completed task. */
    function Done(i: nat, v: real): real
      requires i < |steps| < |times|
    {
      v + Shift(i + 1)
    }
  }

  /** The slots and threads that have at least the value of one completed task, whatever it is. */
  datatype Reach = Reach(slots: set<nat>, threads: set<nat>)

  function Spread(reach: Reach, r: Region, s: Step): Reach
    requires WellFormed(r) && Enabled(r, s)
  {
    match s
    case Begin(t) => if 1 in reach.slots then reach.(threads := reach.threads + {t}) else reach
    case Work(_, _) => reach
    case Arrive(t) => if t in reach.threads then reach.(slots := reach.slots + {r.index[t]}) else reach
    case Settle(t) => if t == 0 then reach.(slots := reach.slots - {(r.index[0] + 1) % 3}) else reach
    case Leave(t, arc) => if arc && r.index[t] in reach.slots then reach.(threads := reach.threads + {t}) else reach
    case TaskDone(_) => reach
  }

  /** Two regions in the same control state that differ only where the task has reached. */
  predicate Alike(reach: Reach, r: Region, r': Region) {
    && WellFormed(r) && WellFormed(r') && r.phases == r'.phases && r.index == r'.index
    && (forall i :: 0 <= i < 3 && i !in reach.slots ==> r.slots[i] == r'.slots[i])
    && (forall t :: 0 <= t < |r.raws| && t !in reach.threads ==> r.raws[t] == r'.raws[t])
    && (forall i :: 0 <= i < 3 && i in reach.slots ==> !r.slots[i].unused && !r'.slots[i].unused)
  }

  lemma AlikeArc(reach: Reach, r: Region, r': Region, s: Step)
    requires Alike(reach, r, r') && Enabled(r, s) && (s.Arrive? || s.Leave?)
    ensures Enabled(r', s) && Alike(Spread(reach, r, s), Next(r, s), Next(r', s))
  {
  }

  lemma AlikeStep(reach: Reach, r: Region, r': Region, s: Step)
    requires Alike(reach, r, r') && Enabled(r, s)
    ensures Enabled(r', s) && Alike(Spread(reach, r, s), Next(r, s), Next(r', s))
    ensures Spread(reach, r', s) == Spread(reach, r, s)
  {
    if s.Arrive? || s.Leave? {
      AlikeArc(reach, r, r', s);
    }
  }

  /** In effective values: slots at the present, threads at their last step. */
  predicate AtLeast(x: Schedule, j: nat, reach: Reach, r: Region, v: real)
    requires j <= |x.steps| < |x.times|
  {
    && WellFormed(r)
    && (forall i :: 0 <= i < 3 && i in reach.slots ==> !r.slots[i].unused && v <= r.slots[i].raw + x.Shift(j))
    && (forall t :: 0 <= t < |r.raws| && t in reach.threads ==> v <= r.raws[t] + x.Shift(x.Last(j, t)))
  }

  lemma {:induction false} TimesGrow(x: Schedule, i: nat, j: nat)
    requires x.Timed() && i <= j <= |x.steps|
    ensures x.times[i] <= x.times[j] && x.Shift(i) <= x.Shift(j)
    decreases j
  {
    if i < j {
      TimesGrow(x, i, j - 1);
    }
  }

  lemma SlotsAtLeast(x: Schedule, j: nat, reach: Reach, r: Region, v: real, i: nat)
    requires x.Valid() && j < |x.steps| && AtLeast(x, j, reach, r, v) && Enabled(r, x.steps[j])
    requires i < 3 && i in Spread(reach, r, x.steps[j]).slots
    ensures var r' := Next(r, x.steps[j]); !r'.slots[i].unused && v <= r'.slots[i].raw + x.Shift(j + 1)
  {
    var s := x.steps[j];
    TimesGrow(x, j, j + 1);
    if s.Arrive? {
      TimesGrow(x, x.Last(j, s.t), j + 1);
    }
  }

  lemma ThreadAtLeast(x: Schedule, j: nat, reach: Reach, r: Region, v: real, t: nat)
    requires x.Valid() && j < |x.steps| && AtLeast(x, j, reach, r, v) && Enabled(r, x.steps[j])
    requires t < |r.raws| && t in Spread(reach, r, x.steps[j]).threads
    ensures v <= Next(r, x.steps[j]).raws[t] + x.Shift(x.Last(j + 1, t))
  {
    var s := x.steps[j];
    TimesGrow(x, j, j + 1);
    TimesGrow(x, x.Last(j, t), j + 1);
    assert x.NeverLoses(j);
  }

  lemma AtLeastStep(x: Schedule, j: nat, reach: Reach, r: Region, v: real)
    requires x.Valid() && j < |x.steps| && AtLeast(x, j, reach, r, v) && Enabled(r, x.steps[j])
    ensures AtLeast(x, j + 1, Spread(reach, r, x.steps[j]), Next(r, x.steps[j]), v)
  {
    var reach', r' := Spread(reach, r, x.steps[j]), Next(r, x.steps[j]);
    forall i | 0 <= i < 3 && i in reach'.slots
      ensures !r'.slots[i].unused && v <= r'.slots[i].raw + x.Shift(j + 1)
    {
      SlotsAtLeast(x, j, reach, r, v, i);
    }
    forall t | 0 <= t < |r'.raws| && t in reach'.threads
      ensures v <= r'.raws[t] + x.Shift(x.Last(j + 1, t))
    {
      ThreadAtLeast(x, j, reach, r, v, t);
    }
  }

  // ---------------------------------------------------------------------------
  // The same schedule with another value
  // ---------------------------------------------------------------------------

  /** The region after the steps; a step that is not possible is skipped. */
  function Play(r: Region, steps: seq<Step>): Region {
    if steps == [] then r
    else
      var p, s := Play(r, steps[..|steps| - 1]), steps[|steps| - 1];
      if WellFormed(p) && Enabled(p, s) then Next(p, s) else p
  }

  lemma {:induction false} PlayIsRun(x: Schedule, j: nat)
    requires x.Valid() && j <= |x.steps|
    ensures Play(x.rs[0], x.steps[..j]) == x.rs[j]
  {
    if j > 0 {
      PlayIsRun(x, j - 1);
      assert StepAt(x.rs, x.steps, j - 1);
      assert x.steps[..j][..j - 1] == x.steps[..j - 1];
    }
  }

  /** What the task that completed at step `i` has reached after `j` steps. */
  ghost function ReachAt(x: Schedule, i: nat, j: nat): Reach
    requires x.Valid() && i < j <= |x.steps|
    decreases j
  {
    if j == i + 1 then Reach({0}, {})
    else
      assert StepAt(x.rs, x.steps, j - 1);
      Spread(ReachAt(x, i, j - 1), x.rs[j - 1], x.steps[j - 1])
  }

  /** Step `i` with the value `v` instead. */
  function With(steps: seq<Step>, i: nat, v: real): seq<Step>
    requires i < |steps|
  {
    steps[i := TaskDone(v)]
  }

  lemma PlayMore(r: Region, steps: seq<Step>, j: nat)
    requires 0 < j <= |steps|
    ensures var p := Play(r, steps[..j - 1]);
      Play(r, steps[..j]) == if WellFormed(p) && Enabled(p, steps[j - 1]) then Next(p, steps[j - 1]) else p
  {
    assert steps[..j][..j - 1] == steps[..j - 1];
  }

  lemma TaskStep(r: Region, v: real, w: real)
    requires WellFormed(r)
    ensures var p := Next(r, TaskDone(w));
      Alike(Reach({0}, {}), Next(r, TaskDone(v)), p) && !p.slots[0].unused && w <= p.slots[0].raw
  {
  }

  lemma ReplayBegins(x: Schedule, i: nat, v: real)
    requires x.Valid() && i < |x.steps| && x.steps[i].TaskDone?
    ensures Tracks(x, i, v, i + 1)
  {
    PlayMore(x.rs[0], With(x.steps, i, v), i + 1);
    assert With(x.steps, i, v)[..i] == x.steps[..i];
    PlayIsRun(x, i);
    assert StepAt(x.rs, x.steps, i);
    TaskStep(x.rs[i], x.steps[i].raw, v);
  }

  ghost predicate Agree(x: Schedule, j: nat, reach: Reach, r: Region, p: Region, v: real)
    requires j <= |x.steps| < |x.times|
  {
    Alike(reach, r, p) && AtLeast(x, j, reach, p, v)
  }

  lemma ReplayStep(x: Schedule, j: nat, reach: Reach, r: Region, p: Region, v: real)
    requires x.Valid() && j < |x.steps| && Agree(x, j, reach, r, p, v) && Enabled(r, x.steps[j])
    ensures Enabled(p, x.steps[j])
    ensures Agree(x, j + 1, Spread(reach, r, x.steps[j]), Next(r, x.steps[j]), Next(p, x.steps[j]), v)
  {
    AlikeStep(reach, r, p, x.steps[j]);
    AtLeastStep(x, j, reach, p, v);
  }

  /** With the value `v` instead, nothing changes but where the task has reached, and there is at least that value. */
  ghost predicate Tracks(x: Schedule, i: nat, v: real, j: nat)
    requires x.Valid() && i < j <= |x.steps|
  {
    Agree(x, j, ReachAt(x, i, j), x.rs[j], Play(x.rs[0], With(x.steps, i, v)[..j]), x.Done(i, v))
  }

  lemma TracksOn(x: Schedule, i: nat, v: real, j: nat)
    requires x.Valid() && i < j < |x.steps| && Tracks(x, i, v, j)
    ensures Tracks(x, i, v, j + 1)
  {
    var reach, p, s := ReachAt(x, i, j), Play(x.rs[0], With(x.steps, i, v)[..j]), x.steps[j];
    assert StepAt(x.rs, x.steps, j);
    ReplayStep(x, j, reach, x.rs[j], p, x.Done(i, v));
    ReachMore(x, i, j);
    PlaysOn(x, i, v, j, p);
  }

  lemma ReachMore(x: Schedule, i: nat, j: nat)
    requires x.Valid() && i < j < |x.steps|
    ensures StepAt(x.rs, x.steps, j) && ReachAt(x, i, j + 1) == Spread(ReachAt(x, i, j), x.rs[j], x.steps[j])
  {
    assert StepAt(x.rs, x.steps, j);
  }

  lemma PlaysOn(x: Schedule, i: nat, v: real, j: nat, p: Region)
    requires i < j < |x.steps| && |x.rs| > 0 && p == Play(x.rs[0], With(x.steps, i, v)[..j])
    requires WellFormed(p) && Enabled(p, x.steps[j])
    ensures Play(x.rs[0], With(x.steps, i, v)[..j + 1]) == Next(p, x.steps[j])
  {
    PlayMore(x.rs[0], With(x.steps, i, v), j + 1);
  }

  lemma {:induction false} Replay(x: Schedule, i: nat, v: real, j: nat)
    requires x.Valid() && i < j <= |x.steps| && x.steps[i].TaskDone?
    ensures Tracks(x, i, v, j)
    decreases j
  {
    if j - 1 == i {
      ReplayBegins(x, i, v);
    } else {
      Replay(x, i, v, j - 1);
      TracksOn(x, i, v, j - 1);
    }
  }

  /** Whatever the clock of the task is, thread `t` has at least that clock after `j` steps. */
  ghost predicate AlwaysReaches(x: Schedule, i: nat, j: nat, t: nat)
    requires x.Valid() && i < |x.steps| && j <= |x.steps|
  {
    forall v: real :: ReachesWith(x, i, j, t, v)
  }

  ghost predicate ReachesWith(x: Schedule, i: nat, j: nat, t: nat, v: real)
    requires x.Valid() && i < |x.steps| && j <= |x.steps|
  {
    var r := Play(x.rs[0], With(x.steps, i, v)[..j]);
    t < |r.raws| && x.Done(i, v) <= r.raws[t] + x.Shift(j)
  }

  /** A schedule delivers the task's clock to a thread, whatever that clock is, exactly if it has reached the thread. */
  lemma TaskReachesExactlyWhen(x: Schedule, i: nat, j: nat, t: nat)
    requires x.Valid() && i < j <= |x.steps| && x.steps[i].TaskDone? && t < |x.rs[j].raws|
    ensures AlwaysReaches(x, i, j, t) <==> t in ReachAt(x, i, j).threads
  {
    if t in ReachAt(x, i, j).threads {
      forall v: real
        ensures ReachesWith(x, i, j, t, v)
      {
        Replay(x, i, v, j);
        TimesGrow(x, x.Last(j, t), j);
      }
    } else {
      var v := x.rs[j].raws[t] + x.Shift(j) - x.Shift(i + 1) + 1.0;
      Replay(x, i, v, j);
      assert !ReachesWith(x, i, j, t, v);
    }
  }

  // ---------------------------------------------------------------------------
  // Rounds
  // ---------------------------------------------------------------------------

  /** Thread 0 resets slot 0 on entering a round. */
  predicate Resets(r: Region, s: Step) {
    WellFormed(r) && s == Settle(0) && (r.index[0] + 1) % 3 == 0
  }

  /** Somebody takes an arc from slot 0. */
  predicate Reads(r: Region, s: Step) {
    WellFormed(r) && s.Leave? && s.arc && s.t < |r.index| && r.index[s.t] == 0
  }

  ghost predicate ResetBetween(x: Schedule, i: nat, j: nat) {
    exists l :: i < l < j && l < |x.steps| && l < |x.rs| && Resets(x.rs[l], x.steps[l])
  }

  /** At step `l` somebody takes an arc from slot 0, which was not reset since step `i`. */
  ghost predicate ReadInTime(x: Schedule, i: nat, l: nat)
    requires l < |x.steps| < |x.rs|
  {
    i < l && Reads(x.rs[l], x.steps[l]) && !ResetBetween(x, i, l)
  }

  lemma LeavesRound(x: Schedule, j: nat)
    requires x.Valid() && j < |x.steps| && x.steps[j].Leave?
    ensures Inv(x.rs[j]) && x.steps[j].t < |x.rs[j].phases| == |x.rs[j + 1].raws|
    ensures x.rs[j].phases[x.steps[j].t].Waiting?
    ensures x.rs[j].index[x.steps[j].t] == x.rs[j].phases[x.steps[j].t].k % 3
  {
    RunKeepsInv(x.rs, x.steps, x.fork, j);
    assert StepAt(x.rs, x.steps, j) && CountedAt(x.rs[j], x.steps[j].t);
  }

  /** The round whose barrier the thread of step `j` leaves. */
  ghost function RoundAt(x: Schedule, j: nat): nat
    requires x.Valid() && j < |x.steps| && x.steps[j].Leave?
  {
    LeavesRound(x, j);
    x.rs[j].phases[x.steps[j].t].k
  }

  lemma LastSpread(x: Schedule, i: nat, j: nat)
    requires x.Valid() && i < j < |x.steps| && x.steps[j].Leave? && x.steps[j].arc
    ensures var reach, t := ReachAt(x, i, j), x.steps[j].t;
      t in ReachAt(x, i, j + 1).threads <==> t in reach.threads || RoundAt(x, j) % 3 in reach.slots
  {
    LeavesRound(x, j);
    assert StepAt(x.rs, x.steps, j);
  }

  /** Until the reset, slot 0 has the task's clock, whoever reads it. */
  lemma {:induction false} StaysInSlotZero(x: Schedule, i: nat, j: nat)
    requires x.Valid() && i < j <= |x.steps| && !ResetBetween(x, i, j)
    ensures 0 in ReachAt(x, i, j).slots
    decreases j
  {
    if j > i + 1 {
      assert !Resets(x.rs[j - 1], x.steps[j - 1]) && StepAt(x.rs, x.steps, j - 1);
      StaysInSlotZero(x, i, j - 1);
    }
  }

  /** As long as nobody has read slot 0 in time, the task's clock is there until the reset, and nowhere else. */
  lemma {:induction false} WaitsInSlotZero(x: Schedule, i: nat, j: nat)
    requires x.Valid() && i < j <= |x.steps|
    requires forall l :: i < l < j ==> !ReadInTime(x, i, l)
    ensures ReachAt(x, i, j) == Reach(if ResetBetween(x, i, j) then {} else {0}, {})
    decreases j
  {
    if j > i + 1 {
      WaitsInSlotZero(x, i, j - 1);
      assert StepAt(x.rs, x.steps, j - 1) && !ReadInTime(x, i, j - 1);
      assert ResetBetween(x, i, j) <==> ResetBetween(x, i, j - 1) || Resets(x.rs[j - 1], x.steps[j - 1]);
    }
  }

  /** Thread `u` has the task's clock, and what it deposited for round `q` and later is still to be had. */
  ghost predicate Carries(reach: Reach, r: Region, u: nat, q: nat) {
    && u in reach.threads && u < |r.phases| == |r.deposits| && q < Rounds(r.phases[u])
    && forall k :: q <= k < |r.deposits[u]| && Pending(r, k) ==> k % 3 in reach.slots
  }

  lemma CarriesOn(reach: Reach, r: Region, s: Step, u: nat, q: nat)
    requires Inv(r) && Enabled(r, s) && Carries(reach, r, u, q)
    ensures Carries(Spread(reach, r, s), Next(r, s), u, q)
  {
    var r' := Next(r, s);
    assert CountedAt(r, u);
    forall k | q <= k < |r'.deposits[u]| && Pending(r', k)
      ensures k % 3 in Spread(reach, r, s).slots
    {
      PendingShrinks(r, s, k);
      if s == Settle(0) {
        ResetIsHarmless(r, u, k);
      }
    }
  }

  /** Who reads slot 0 in time carries the clock from then on. */
  lemma ReaderCarries(x: Schedule, i: nat, l: nat)
    requires x.Valid() && l < |x.steps| && ReadInTime(x, i, l)
    ensures Carries(ReachAt(x, i, l + 1), x.rs[l + 1], x.steps[l].t, RoundAt(x, l))
  {
    LeavesRound(x, l);
    StaysInSlotZero(x, i, l);
    assert StepAt(x.rs, x.steps, l) && CountedAt(x.rs[l], x.steps[l].t);
  }

  lemma {:induction false} StillCarries(x: Schedule, i: nat, l: nat, j: nat)
    requires x.Valid() && l < j <= |x.steps| && ReadInTime(x, i, l)
    ensures Carries(ReachAt(x, i, j), x.rs[j], x.steps[l].t, RoundAt(x, l))
    decreases j
  {
    if j == l + 1 {
      ReaderCarries(x, i, l);
    } else {
      StillCarries(x, i, l, j - 1);
      RunKeepsInv(x.rs, x.steps, x.fork, j - 1);
      assert StepAt(x.rs, x.steps, j - 1);
      CarriesOn(ReachAt(x, i, j - 1), x.rs[j - 1], x.steps[j - 1], x.steps[l].t, RoundAt(x, l));
    }
  }

  /** Whoever leaves a barrier after that takes the clock there. */
  lemma TakesFromReader(x: Schedule, i: nat, l: nat, j: nat)
    requires x.Valid() && l < j < |x.steps| && ReadInTime(x, i, l) && x.steps[j].Leave?
    ensures RoundAt(x, l) <= RoundAt(x, j) && RoundAt(x, j) % 3 in ReachAt(x, i, j).slots
  {
    StillCarries(x, i, l, j);
    LeavesRound(x, j);
    var r, t, u, q := x.rs[j], x.steps[j].t, x.steps[l].t, RoundAt(x, l);
    assert StepAt(x.rs, x.steps, j);
    assert HasEntered(r.phases[t], q) && HasEntered(r.phases[u], r.phases[t].k);
    assert CountedAt(r, u) && Pending(r, r.phases[t].k);
  }

  /**
   For every round and every interleaving: whoever takes the arc out of a barrier is certain to have
   the clock of an explicit task that completed before, if and only if somebody, at this step or
   before, took an arc from slot 0 after the task and before slot 0 was reset.
   */
  lemma BarrierDeliversTaskExactlyWhen(x: Schedule, i: nat, j: nat)
    requires x.Valid() && i < j < |x.steps| && x.steps[i].TaskDone? && x.steps[j].Leave? && x.steps[j].arc
    ensures AlwaysReaches(x, i, j + 1, x.steps[j].t) <==> exists l :: i < l <= j && ReadInTime(x, i, l)
  {
    LeavesRound(x, j);
    LastSpread(x, i, j);
    TaskReachesExactlyWhen(x, i, j + 1, x.steps[j].t);
    if l :| i < l < j && ReadInTime(x, i, l) {
      TakesFromReader(x, i, l, j);
    } else if ReadInTime(x, i, j) {
      StaysInSlotZero(x, i, j);
    } else {
      WaitsInSlotZero(x, i, j);
    }
  }

  /** By rounds: this one is a multiple of three and slot 0 was not reset, or an earlier one was read in time. */
  lemma BarrierDeliversTaskByRound(x: Schedule, i: nat, j: nat)
    requires x.Valid() && i < j < |x.steps| && x.steps[i].TaskDone? && x.steps[j].Leave? && x.steps[j].arc
    ensures AlwaysReaches(x, i, j + 1, x.steps[j].t) <==>
      || (RoundAt(x, j) % 3 == 0 && !ResetBetween(x, i, j))
      || exists l :: i < l < j && ReadInTime(x, i, l) && RoundAt(x, l) < RoundAt(x, j)
  {
    BarrierDeliversTaskExactlyWhen(x, i, j);
    LeavesRound(x, j);
    assert ReadInTime(x, i, j) <==> RoundAt(x, j) % 3 == 0 && !ResetBetween(x, i, j);
    if l :| i < l < j && ReadInTime(x, i, l) {
      TakesFromReader(x, i, l, j);
      if RoundAt(x, l) == RoundAt(x, j) {
        LeavesRound(x, l);
        StaysWhileRead(x, i, l, j);
      }
    }
  }

  /** While somebody still has to leave the round that was read in time, slot 0 is not reset. */
  lemma {:induction false} StaysWhileRead(x: Schedule, i: nat, l: nat, j: nat)
    requires x.Valid() && l < j < |x.steps| && ReadInTime(x, i, l) && Pending(x.rs[j], RoundAt(x, l))
    ensures !ResetBetween(x, i, j)
    decreases j
  {
    if j > l + 1 {
      var q, u := RoundAt(x, l), x.steps[l].t;
      assert StepAt(x.rs, x.steps, j - 1);
      RunKeepsInv(x.rs, x.steps, x.fork, j - 1);
      PendingShrinks(x.rs[j - 1], x.steps[j - 1], q);
      StaysWhileRead(x, i, l, j - 1);
      StillCarries(x, i, l, j - 1);
      LeavesRound(x, l);
      assert CountedAt(x.rs[j - 1], u);
      if Resets(x.rs[j - 1], x.steps[j - 1]) {
        ResetIsHarmless(x.rs[j - 1], u, q);
      }
    }
  }

  /** No barrier ever delivers the task, if and only if nobody reads slot 0 before thread 0 resets it. */
  lemma TaskIsLostExactlyWhen(x: Schedule, i: nat)
    requires x.Valid() && i < |x.steps| && x.steps[i].TaskDone?
    ensures (forall j :: i < j < |x.steps| && x.steps[j].Leave? && x.steps[j].arc ==>
               !AlwaysReaches(x, i, j + 1, x.steps[j].t))
      <==> forall l :: i < l < |x.steps| ==> !ReadInTime(x, i, l)
  {
    forall j | i < j < |x.steps| && x.steps[j].Leave? && x.steps[j].arc
      ensures AlwaysReaches(x, i, j + 1, x.steps[j].t) <==> exists l :: i < l <= j && ReadInTime(x, i, l)
    {
      BarrierDeliversTaskExactlyWhen(x, i, j);
    }
    forall l | i < l < |x.steps| && ReadInTime(x, i, l)
      ensures AlwaysReaches(x, i, l + 1, x.steps[l].t)
    {
      BarrierDeliversTaskExactlyWhen(x, i, l);
    }
  }

  // ---------------------------------------------------------------------------
  // What is known when the task completes
  // ---------------------------------------------------------------------------

  /** Thread 0 will reset slot 0 before it reads it, and nobody else is left to read it before. */
  predicate Doomed(r: Region)
    requires |r.phases| > 0
  {
    var n := Rounds(r.phases[0]);
    || (n % 3 == 1 && !Pending(r, n - 1))
    || (n % 3 == 2 && !r.phases[0].Waiting?)
  }

  /** Thread 0 will read slot 0 before it resets it. */
  predicate Safe(r: Region)
    requires |r.phases| > 0
  {
    var n := Rounds(r.phases[0]);
    n % 3 == 0 || (n % 3 == 2 && r.phases[0].Waiting?)
  }

  /** The next round, or the present one, whose barrier thread 0 leaves with an arc from slot 0. */
  function NextRead(r: Region): nat
    requires |r.phases| > 0
  {
    var n := Rounds(r.phases[0]);
    n + (3 - n % 3) % 3
  }

  lemma DoomedIsUnread(r: Region, s: Step)
    requires Inv(r) && Enabled(r, s) && Doomed(r)
    ensures !Reads(r, s)
  {
    if s.Leave? {
      var k, n := r.phases[s.t].k, Rounds(r.phases[0]);
      assert CountedAt(r, s.t) && HasEntered(r.phases[0], k) && HasEntered(r.phases[s.t], n - 1);
      assert n % 3 == 1 ==> n - 1 < Rounds(r.phases[s.t]);
    }
  }

  lemma DoomedStep(r: Region, s: Step)
    requires Inv(r) && Enabled(r, s) && Doomed(r)
    ensures Resets(r, s) || Doomed(Next(r, s))
  {
    var r', n := Next(r, s), Rounds(r.phases[0]);
    assert CountedAt(r, 0);
    if s == Settle(0) {
      assert n % 3 == 2 ==> Resets(r, s);
    }
    if s.Leave? && s.t == 0 {
      assert n % 3 == 1 && Rounds(r'.phases[0]) == n + 1;
    } else if n % 3 == 1 {
      assert Rounds(r'.phases[0]) == n;
      if Pending(r', n - 1) {
        PendingShrinks(r, s, n - 1);
      }
    }
  }

  /** The task of a doomed completion is lost, whatever the team does. */
  lemma {:induction false} DoomedIsLost(x: Schedule, i: nat, l: nat)
    requires x.Valid() && i < l <= |x.steps| && x.steps[i].TaskDone? && |x.rs[i].phases| > 0 && Doomed(x.rs[i])
    ensures l < |x.steps| ==> !ReadInTime(x, i, l)
    ensures ResetBetween(x, i, l) || (Inv(x.rs[l]) && Doomed(x.rs[l]))
    decreases l
  {
    RunKeepsInv(x.rs, x.steps, x.fork, l);
    RunKeepsInv(x.rs, x.steps, x.fork, l - 1);
    assert StepAt(x.rs, x.steps, l - 1);
    if l > i + 1 {
      DoomedIsLost(x, i, l - 1);
    }
    if !ResetBetween(x, i, l) {
      DoomedStep(x.rs[l - 1], x.steps[l - 1]);
      if l < |x.steps| {
        assert StepAt(x.rs, x.steps, l);
        DoomedIsUnread(x.rs[l], x.steps[l]);
      }
    }
  }

  lemma SafeStep(r: Region, s: Step)
    requires Inv(r) && Enabled(r, s) && Safe(r)
    ensures !Resets(r, s) && (s.Leave? && s.t == 0 && Rounds(r.phases[0]) % 3 == 0 ==> Reads(r, s))
    ensures Reads(r, s) || (Safe(Next(r, s)) && NextRead(Next(r, s)) == NextRead(r))
  {
    assert CountedAt(r, 0);
  }

  /** After a safe completion thread 0 reads the task's clock in time, or has not left that round yet. */
  lemma {:induction false} SafeIsRead(x: Schedule, i: nat, j: nat)
    requires x.Valid() && i < j <= |x.steps| && x.steps[i].TaskDone? && |x.rs[i].phases| > 0 && Safe(x.rs[i])
    ensures Inv(x.rs[j])
    ensures (exists l :: i < l < j && ReadInTime(x, i, l))
      || (!ResetBetween(x, i, j) && Safe(x.rs[j]) && NextRead(x.rs[j]) == NextRead(x.rs[i]))
    decreases j
  {
    RunKeepsInv(x.rs, x.steps, x.fork, j);
    RunKeepsInv(x.rs, x.steps, x.fork, j - 1);
    assert StepAt(x.rs, x.steps, j - 1);
    if j > i + 1 {
      SafeIsRead(x, i, j - 1);
      if l :| i < l < j - 1 && ReadInTime(x, i, l) {
        assert i < l < j && ReadInTime(x, i, l);
      } else {
        SafeStep(x.rs[j - 1], x.steps[j - 1]);
        assert Reads(x.rs[j - 1], x.steps[j - 1]) ==> ReadInTime(x, i, j - 1);
      }
    }
  }

  /** Whoever takes the arc out of the round that thread 0 reads next, or of a later one, has the task's clock. */
  lemma SafeIsDelivered(x: Schedule, i: nat, j: nat)
    requires x.Valid() && i < j < |x.steps| && x.steps[i].TaskDone? && x.steps[j].Leave? && x.steps[j].arc
    requires |x.rs[i].phases| > 0 && Safe(x.rs[i]) && NextRead(x.rs[i]) <= RoundAt(x, j)
    ensures AlwaysReaches(x, i, j + 1, x.steps[j].t)
  {
    SafeIsRead(x, i, j);
    LeavesRound(x, j);
    BarrierDeliversTaskExactlyWhen(x, i, j);
    if !exists l :: i < l < j && ReadInTime(x, i, l) {
      var r := x.rs[j];
      assert StepAt(x.rs, x.steps, j) && HasEntered(r.phases[0], r.phases[x.steps[j].t].k);
      assert ReadInTime(x, i, j);
    }
  }

  // ---------------------------------------------------------------------------
  // A team of one
  // ---------------------------------------------------------------------------

  predicate Alone(r: Region, p: Phase, k: nat, raw: real) {
    WellFormed(r) && r.phases == [p] && r.index == [k % 3] && r.raws == [raw]
  }

  lemma AloneArrives(r: Region, k: nat, raw: real)
    requires Alone(r, Between(k), k, raw)
    ensures var r' := Next(r, Arrive(0));
      Alone(r', Arriving(k), k, raw) && r'.slots == r.slots[k % 3 := r.slots[k % 3].Put(raw)]
  {
  }

  lemma AloneSettles(r: Region, k: nat, raw: real)
    requires Alone(r, Arriving(k), k, raw)
    ensures var r' := Next(r, Settle(0)); Alone(r', Waiting(k), k, raw) && r'.slots == r.slots[(k + 1) % 3 := EMPTY]
  {
  }

  lemma AloneLeaves(r: Region, k: nat, raw: real)
    requires Alone(r, Waiting(k), k, raw) && !r.slots[k % 3].unused
    ensures var r' := Next(r, Leave(0, true));
      Alone(r', Between(k + 1), k + 1, Max(raw, r.slots[k % 3].raw)) && r'.slots == r.slots
  {
  }

  /** One round of thread 0 on its own. */
  lemma AloneThrough(rs: seq<Region>, steps: seq<Step>, k: nat, raw: real) returns (rs': seq<Region>, steps': seq<Step>)
    requires IsRun(rs, steps, 0.0) && Alone(rs[|steps|], Between(k), k, raw)
    ensures IsRun(rs', steps', 0.0) && steps' == steps + [Arrive(0), Settle(0), Leave(0, true)] && rs <= rs'
    ensures var slots, r := rs[|steps|].slots, rs'[|steps'|];
      && Alone(r, Between(k + 1), k + 1, Max(raw, slots[k % 3].Put(raw).raw))
      && r.slots == slots[k % 3 := slots[k % 3].Put(raw)][(k + 1) % 3 := EMPTY]
  {
    var r0 := rs[|steps|];
    AloneArrives(r0, k, raw);
    var r1 := Next(r0, Arrive(0));
    AloneSettles(r1, k, raw);
    var r2 := Next(r1, Settle(0));
    AloneLeaves(r2, k, raw);
    rs' := Extend(rs, steps, 0.0, Arrive(0));
    rs' := Extend(rs', steps + [Arrive(0)], 0.0, Settle(0));
    rs' := Extend(rs', steps + [Arrive(0)] + [Settle(0)], 0.0, Leave(0, true));
    steps' := steps + [Arrive(0)] + [Settle(0)] + [Leave(0, true)];
    assert steps' == steps + [Arrive(0), Settle(0), Leave(0, true)];
  }

  /** A task with clock 9 completes after round 0: rounds 1 and 2 do not read its slot, and round 3 finds it reset. */
  lemma TaskIsLost() returns (rs: seq<Region>, steps: seq<Step>)
    ensures IsRun(rs, steps, 0.0) && |steps| == 14 && steps[4] == TaskDone(9.0)
    ensures steps[13] == Leave(0, true) && rs[14].phases == [Between(4)] && rs[14].raws == [0.0]
    ensures |rs[4].phases| > 0 && Doomed(rs[4])
  {
    var used := Cell(false, 0.0);
    rs, steps := [Region([EMPTY, used, EMPTY], [Unborn], [0], [0.0], [[]])], [];
    rs := Extend(rs, steps, 0.0, Begin(0));
    steps := [Begin(0)];
    rs, steps := AloneThrough(rs, steps, 0, 0.0);
    assert rs[4].slots == [used, EMPTY, EMPTY] && rs[4].phases == [Between(1)];
    var task := rs[4];
    rs := Extend(rs, steps, 0.0, TaskDone(9.0));
    steps := steps + [TaskDone(9.0)];
    assert rs[5].slots == [Cell(false, 9.0), EMPTY, EMPTY] && rs[5].phases == [Between(1)];
    rs, steps := RoundsOneToThree(rs, steps);
    assert rs[4] == task;
  }

  lemma RoundsOneToThree(rs: seq<Region>, steps: seq<Step>) returns (rs': seq<Region>, steps': seq<Step>)
    requires IsRun(rs, steps, 0.0) && |steps| == 5 && WellFormed(rs[5])
    requires rs[5].slots == [Cell(false, 9.0), EMPTY, EMPTY] && rs[5].phases == [Between(1)]
    requires rs[5].index == [1] && rs[5].raws == [0.0]
    ensures IsRun(rs', steps', 0.0) && |steps'| == 14 && steps <= steps' && rs <= rs' && steps'[13] == Leave(0, true)
    ensures rs'[14].phases == [Between(4)] && rs'[14].raws == [0.0]
  {
    var used := Cell(false, 0.0);
    rs', steps' := AloneThrough(rs, steps, 1, 0.0);
    assert rs'[8].slots == [Cell(false, 9.0), used, EMPTY];
    rs', steps' := AloneThrough(rs', steps', 2, 0.0);
    assert rs'[11].slots == [EMPTY, used, used];
    rs', steps' := AloneThrough(rs', steps', 3, 0.0);
  }
}
