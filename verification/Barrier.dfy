/**
 The three-slot barrier clock of a parallel region (src/ompt-critical.cpp).

 A thread that arrives at its round `k` deposits into slot `k % 3`; thread 0 then resets the
 slot of the next round.  Slot 1 doubles as the fork clock.  Explicit tasks deposit into slot
 0 at any time, because nothing advances their own barrier index.  The OpenMP runtime lets a
 thread leave a round once every member of the team has entered it.
 */
module Barrier {
  import Clocks
  import opened Cells

  datatype Phase =
    | Unborn             // the implicit task has not begun
    | Between(k: nat)    // outside the barrier, `k` rounds behind it
    | Arriving(k: nat)   // deposited for round `k`, still in the callback
    | Waiting(k: nat)    // inside round `k`

  function Rounds(p: Phase): nat {
    if p.Unborn? then 0 else p.k
  }

  predicate HasEntered(p: Phase, k: nat) {
    k < Rounds(p) || p == Waiting(k)
  }

  /** `deposits[t][k]` remembers what thread `t` deposited for round `k`; the code keeps no such record. */
  datatype Region = Region(
    slots: seq<Cell>,
    phases: seq<Phase>,
    index: seq<nat>,
    raws: seq<real>,
    deposits: seq<seq<real>>)

  datatype Step =
    | Begin(t: nat)
    | Work(t: nat, gain: real)    // anything outside the barriers; a raw value can also fall
    | Arrive(t: nat)
    | Settle(t: nat)
    | Leave(t: nat, arc: bool)
    | TaskDone(raw: real)

  predicate WellFormed(r: Region) {
    && |r.slots| == 3
    && |r.phases| == |r.index| == |r.raws| == |r.deposits| > 0
    && forall t :: 0 <= t < |r.index| ==> r.index[t] < 3
  }

  predicate Enabled(r: Region, s: Step)
    requires WellFormed(r)
  {
    match s
    case Begin(t) => t < |r.phases| && r.phases[t] == Unborn
    case Work(t, _) => t < |r.phases|
    case Arrive(t) => t < |r.phases| && r.phases[t].Between?
    case Settle(t) => t < |r.phases| && r.phases[t].Arriving?
    case Leave(t, arc) =>
      && t < |r.phases| && r.phases[t].Waiting?
      && (t == 0 ==> arc)
      && forall u :: 0 <= u < |r.phases| ==> HasEntered(r.phases[u], r.phases[t].k)
    case TaskDone(_) => true
  }

  function Next(r: Region, s: Step): Region
    requires WellFormed(r) && Enabled(r, s)
  {
    match s
    case Begin(t) =>
      r.(phases := r.phases[t := Between(0)],
         raws := r.raws[t := r.slots[1].Get(r.raws[t])],
         slots := r.slots[1 := r.slots[1].Touch()])
    case Work(t, gain) => r.(raws := r.raws[t := r.raws[t] + gain])
    case Arrive(t) =>
      var i := r.index[t];
      r.(phases := r.phases[t := Arriving(r.phases[t].k)],
         slots := r.slots[i := r.slots[i].Put(r.raws[t])],
         deposits := r.deposits[t := r.deposits[t] + [r.raws[t]]])
    case Settle(t) =>
      r.(phases := r.phases[t := Waiting(r.phases[t].k)],
         slots := if t == 0 then r.slots[(r.index[0] + 1) % 3 := EMPTY] else r.slots)
    case Leave(t, arc) =>
      var i := r.index[t];
      r.(phases := r.phases[t := Between(r.phases[t].k + 1)],
         index := r.index[t := (i + 1) % 3],
         raws := if arc then r.raws[t := r.slots[i].Get(r.raws[t])] else r.raws,
         slots := if arc then r.slots[i := r.slots[i].Touch()] else r.slots)
    case TaskDone(raw) => r.(slots := r.slots[0 := r.slots[0].Put(raw)])
  }

  /** A region comes from a pool, so slots 0 and 2 may hold anything; slot 1 holds at least the fork clock. */
  predicate Initial(r: Region, fork: real) {
    && WellFormed(r)
    && !r.slots[1].unused && fork <= r.slots[1].raw
    && forall t :: 0 <= t < |r.phases| ==> r.phases[t] == Unborn && r.index[t] == 0 && r.deposits[t] == []
  }

  // ---------------------------------------------------------------------------
  // What every step keeps
  // ---------------------------------------------------------------------------

  /** No thread is ahead of a round that somebody has not entered. */
  predicate Synchronised(r: Region) {
    forall u, v, k: nat :: 0 <= u < |r.phases| && 0 <= v < |r.phases| && k < Rounds(r.phases[v]) ==>
      HasEntered(r.phases[u], k)
  }

  predicate Counted(r: Region)
    requires WellFormed(r)
  {
    forall t :: 0 <= t < |r.phases| ==> CountedAt(r, t)
  }

  /** Somebody still has to read what belongs to round `k`. */
  predicate Pending(r: Region, k: nat) {
    exists u :: 0 <= u < |r.phases| && Rounds(r.phases[u]) <= k
  }

  /** What was deposited for a round is in its slot as long as somebody still has to read it. */
  predicate Kept(r: Region)
    requires WellFormed(r)
  {
    forall t, k :: 0 <= t < |r.deposits| && 0 <= k < |r.deposits[t]| && Pending(r, k) ==>
      !r.slots[k % 3].unused && r.deposits[t][k] <= r.slots[k % 3].raw
  }

  predicate Inv(r: Region) {
    WellFormed(r) && Synchronised(r) && Counted(r) && Kept(r)
  }

  lemma InitialInv(r: Region, fork: real)
    requires Initial(r, fork)
    ensures Inv(r)
  {
  }

  /** A step only moves its own thread, and never backwards. */
  lemma PendingShrinks(r: Region, s: Step, k: nat)
    requires WellFormed(r) && Enabled(r, s) && Pending(Next(r, s), k)
    ensures Pending(r, k)
  {
    var r' := Next(r, s);
    var u :| 0 <= u < |r'.phases| && Rounds(r'.phases[u]) <= k;
    assert Rounds(r.phases[u]) <= k;
  }

  /**
   The reset on entering round `k` hits neither round `k - 2`, which everybody has left, nor
   round `k + 1`, for which nobody has deposited.
   */
  lemma ResetIsHarmless(r: Region, t: nat, k: nat)
    requires Inv(r) && r.phases[0].Arriving?
    requires t < |r.deposits| && k < |r.deposits[t]| && Pending(r, k)
    ensures k % 3 != (r.index[0] + 1) % 3
  {
    var m := r.phases[0].k;
    assert CountedAt(r, 0) && CountedAt(r, t);
    assert !HasEntered(r.phases[0], m);
    assert Rounds(r.phases[t]) <= m;
    var u :| 0 <= u < |r.phases| && Rounds(r.phases[u]) <= k;
    if m > 0 {
      assert HasEntered(r.phases[u], m - 1);
    }
    assert m - 1 <= k <= m;
  }

  lemma ArriveKeeps(r: Region, t: nat)
    requires Inv(r) && Enabled(r, Arrive(t))
    ensures Kept(Next(r, Arrive(t)))
  {
    var r' := Next(r, Arrive(t));
    forall u, k | 0 <= u < |r'.deposits| && 0 <= k < |r'.deposits[u]| && Pending(r', k)
      ensures !r'.slots[k % 3].unused && r'.deposits[u][k] <= r'.slots[k % 3].raw
    {
      PendingShrinks(r, Arrive(t), k);
      if u == t && k == |r.deposits[t]| {
        assert CountedAt(r, t);
      } else {
        assert r'.deposits[u][k] == r.deposits[u][k];
      }
    }
  }

  lemma SettleKeeps(r: Region, t: nat)
    requires Inv(r) && Enabled(r, Settle(t))
    ensures Kept(Next(r, Settle(t)))
  {
    var r' := Next(r, Settle(t));
    forall u, k | 0 <= u < |r'.deposits| && 0 <= k < |r'.deposits[u]| && Pending(r', k)
      ensures !r'.slots[k % 3].unused && r'.deposits[u][k] <= r'.slots[k % 3].raw
    {
      PendingShrinks(r, Settle(t), k);
      if t == 0 {
        ResetIsHarmless(r, u, k);
      }
    }
  }

  lemma OtherStepsKeep(r: Region, s: Step)
    requires Inv(r) && Enabled(r, s) && !s.Arrive? && !s.Settle?
    ensures Kept(Next(r, s))
  {
    var r' := Next(r, s);
    forall u, k | 0 <= u < |r'.deposits| && 0 <= k < |r'.deposits[u]| && Pending(r', k)
      ensures !r'.slots[k % 3].unused && r'.deposits[u][k] <= r'.slots[k % 3].raw
    {
      PendingShrinks(r, s, k);
    }
  }

  lemma StepKeepsSynchronised(r: Region, s: Step)
    requires Inv(r) && Enabled(r, s)
    ensures Synchronised(Next(r, s))
  {
    var r' := Next(r, s);
    forall u, v, k: nat | 0 <= u < |r'.phases| && 0 <= v < |r'.phases| && k < Rounds(r'.phases[v])
      ensures HasEntered(r'.phases[u], k)
    {
      assert HasEntered(r.phases[u], k);
    }
  }

  predicate CountedAt(r: Region, t: nat)
    requires WellFormed(r) && t < |r.phases|
  {
    && r.index[t] == Rounds(r.phases[t]) % 3
    && |r.deposits[t]| == Rounds(r.phases[t]) + if r.phases[t].Arriving? || r.phases[t].Waiting? then 1 else 0
  }

  lemma NextIndex(k: nat)
    ensures (k % 3 + 1) % 3 == (k + 1) % 3
  {
  }

  lemma StepKeepsCounted(r: Region, s: Step)
    requires Inv(r) && Enabled(r, s)
    ensures WellFormed(Next(r, s)) && Counted(Next(r, s))
  {
    var r' := Next(r, s);
    assert WellFormed(r');
    forall t | 0 <= t < |r'.phases| ensures CountedAt(r', t) {
      assert CountedAt(r, t);
      if s.Leave? && s.t == t { NextIndex(r.phases[t].k); }
    }
  }

  lemma StepKeepsInv(r: Region, s: Step)
    requires Inv(r) && Enabled(r, s)
    ensures Inv(Next(r, s))
  {
    StepKeepsCounted(r, s);
    StepKeepsSynchronised(r, s);
    match s
    case Arrive(t) => ArriveKeeps(r, t);
    case Settle(t) => SettleKeeps(r, t);
    case _ => OtherStepsKeep(r, s);
  }

  // ---------------------------------------------------------------------------
  // Whole runs
  // ---------------------------------------------------------------------------

  predicate IsRun(rs: seq<Region>, steps: seq<Step>, fork: real) {
    && |rs| == |steps| + 1
    && Initial(rs[0], fork)
    && forall i :: 0 <= i < |steps| ==> StepAt(rs, steps, i)
  }

  predicate StepAt(rs: seq<Region>, steps: seq<Step>, i: nat)
    requires i < |steps| < |rs|
  {
    WellFormed(rs[i]) && Enabled(rs[i], steps[i]) && rs[i + 1] == Next(rs[i], steps[i])
  }

  lemma {:induction false} RunKeepsInv(rs: seq<Region>, steps: seq<Step>, fork: real, i: nat)
    requires IsRun(rs, steps, fork) && i < |rs|
    ensures Inv(rs[i])
  {
    if i == 0 {
      InitialInv(rs[0], fork);
    } else {
      RunKeepsInv(rs, steps, fork, i - 1);
      assert StepAt(rs, steps, i - 1);
      StepKeepsInv(rs[i - 1], steps[i - 1]);
    }
  }

  /** At step `a` thread `u` arrives at round `k`. */
  predicate ArrivesAt(rs: seq<Region>, steps: seq<Step>, a: nat, u: nat, k: nat)
    requires a < |steps| < |rs|
  {
    steps[a] == Arrive(u) && u < |rs[a].phases| == |rs[a].raws| && rs[a].phases[u] == Between(k)
  }

  /** The record of a deposit is the raw value with which the thread arrived. */
  lemma {:induction false} DepositIsArrival(rs: seq<Region>, steps: seq<Step>, fork: real, i: nat, u: nat, k: nat)
    returns (a: nat)
    requires IsRun(rs, steps, fork) && i < |rs| && u < |rs[i].deposits| && k < |rs[i].deposits[u]|
    ensures a < i && ArrivesAt(rs, steps, a, u, k) && rs[a].raws[u] == rs[i].deposits[u][k]
  {
    if i == 0 {
      assert false;
    } else {
      RunKeepsInv(rs, steps, fork, i - 1);
      assert StepAt(rs, steps, i - 1);
      if steps[i - 1] == Arrive(u) && k == |rs[i - 1].deposits[u]| {
        a := i - 1;
        assert CountedAt(rs[a], u);
      } else {
        a := DepositIsArrival(rs, steps, fork, i - 1, u, k);
      }
    }
  }

  /**
   In every run of a team of any size, whoever takes the arc out of round `k` leaves with at
   least what each member of the team had when it arrived at that round.
   */
  lemma BarrierDelivers(rs: seq<Region>, steps: seq<Step>, fork: real, i: nat, u: nat) returns (a: nat)
    requires IsRun(rs, steps, fork) && i < |steps|
    requires steps[i].Leave? && steps[i].arc && u < |rs[i].phases|
    ensures steps[i].t < |rs[i].phases| && rs[i].phases[steps[i].t].Waiting? && steps[i].t < |rs[i + 1].raws|
    ensures a < i && ArrivesAt(rs, steps, a, u, rs[i].phases[steps[i].t].k)
    ensures rs[i + 1].raws[steps[i].t] >= rs[a].raws[u]
  {
    RunKeepsInv(rs, steps, fork, i);
    assert StepAt(rs, steps, i);
    var r, t := rs[i], steps[i].t;
    var k := r.phases[t].k;
    assert HasEntered(r.phases[u], k) && CountedAt(r, u) && CountedAt(r, t);
    assert Rounds(r.phases[t]) <= k;
    assert Pending(r, k);
    a := DepositIsArrival(rs, steps, fork, i, u, k);
  }

  // ---------------------------------------------------------------------------
  // Nothing else comes out of a barrier
  // ---------------------------------------------------------------------------

  /** The raw values of the explicit tasks that have completed. */
  function TaskValues(steps: seq<Step>, i: nat): set<real>
    requires i <= |steps|
  {
    set j | 0 <= j < i && steps[j].TaskDone? :: steps[j].raw
  }

  /** The slot of round `k` has been reset for it, if it ever is, and somebody still has to leave the round. */
  predicate Serves(r: Region, k: nat) {
    Pending(r, k) && |r.phases| > 0 && (k > 0 ==> HasEntered(r.phases[0], k - 1))
  }

  /** `raw` was deposited for round `k`, or is what can be in a slot besides that. */
  predicate Holds(r: Region, k: nat, stale: real, tasks: set<real>, raw: real) {
    || raw == 0.0
    || (exists u :: 0 <= u < |r.deposits| && k < |r.deposits[u]| && raw == r.deposits[u][k])
    || (k % 3 == 0 && raw in tasks)
    || (k == 0 && raw == stale)
  }

  /** `stale` is what slot 0 had at the beginning of the region. */
  ghost predicate OnlyRounds(r: Region, stale: real, tasks: set<real>)
    requires WellFormed(r)
  {
    forall k: nat :: Serves(r, k) ==> Holds(r, k, stale, tasks, r.slots[k % 3].raw)
  }

  /** Who arrives at the slot of a round in service arrives at that round. */
  lemma ArrivesInService(r: Region, t: nat, k: nat)
    requires Inv(r) && Enabled(r, Arrive(t)) && Serves(r, k) && r.index[t] == k % 3
    ensures r.phases[t].k == k && |r.deposits[t]| == k
  {
    var m := r.phases[t].k;
    var u :| 0 <= u < |r.phases| && Rounds(r.phases[u]) <= k;
    assert CountedAt(r, t);
    assert m > 0 ==> HasEntered(r.phases[u], m - 1);
    assert k > 1 ==> HasEntered(r.phases[t], k - 2);
    assert k - 1 <= m <= k + 1;
  }

  lemma HoldsOn(r: Region, s: Step, k: nat, stale: real, tasks: set<real>, more: set<real>, raw: real)
    requires Inv(r) && Enabled(r, s) && Holds(r, k, stale, tasks, raw) && tasks <= more
    ensures Holds(Next(r, s), k, stale, more, raw)
  {
    if u :| 0 <= u < |r.deposits| && k < |r.deposits[u]| && raw == r.deposits[u][k] {
      assert raw == Next(r, s).deposits[u][k];
    }
  }

  lemma OnlyRoundsAt(r: Region, s: Step, k: nat, stale: real, tasks: set<real>, more: set<real>)
    requires Inv(r) && Enabled(r, s) && OnlyRounds(r, stale, tasks) && Serves(Next(r, s), k)
    requires tasks <= more && (s.TaskDone? ==> s.raw in more)
    ensures Holds(Next(r, s), k, stale, more, Next(r, s).slots[k % 3].raw)
  {
    var r' := Next(r, s);
    PendingShrinks(r, s, k);
    assert CountedAt(r, 0);
    if s == Settle(0) && k == r.phases[0].k + 1 {
      NextIndex(r.phases[0].k);
    } else {
      assert Serves(r, k);
      HoldsOn(r, s, k, stale, tasks, more, r.slots[k % 3].raw);
      if s.Arrive? && r.index[s.t] == k % 3 {
        ArrivesInService(r, s.t, k);
        assert r'.deposits[s.t][k] == r.raws[s.t];
      }
    }
  }

  lemma {:induction false} RunKeepsOnlyRounds(rs: seq<Region>, steps: seq<Step>, fork: real, i: nat)
    requires IsRun(rs, steps, fork) && i < |rs|
    ensures Inv(rs[i]) && OnlyRounds(rs[i], rs[0].slots[0].raw, TaskValues(steps, i))
  {
    RunKeepsInv(rs, steps, fork, i);
    if i > 0 {
      RunKeepsOnlyRounds(rs, steps, fork, i - 1);
      assert StepAt(rs, steps, i - 1);
      var stale, tasks, more := rs[0].slots[0].raw, TaskValues(steps, i - 1), TaskValues(steps, i);
      forall k: nat | Serves(rs[i], k)
        ensures Holds(rs[i], k, stale, more, rs[i].slots[k % 3].raw)
      {
        OnlyRoundsAt(rs[i - 1], steps[i - 1], k, stale, tasks, more);
      }
    }
  }

  /** Before step `i` somebody arrived at round `k` with `raw`. */
  predicate ArrivedWith(rs: seq<Region>, steps: seq<Step>, i: nat, k: nat, raw: real)
    requires i < |steps| < |rs|
  {
    exists a, u :: 0 <= a < i && 0 <= u < |rs[a].raws| && ArrivesAt(rs, steps, a, u, k) && rs[a].raws[u] == raw
  }

  /**
   Whoever leaves round `k` leaves with its own value, or with that of somebody who arrived at the
   same round, or with what the code lets into the slot besides: zero from a reset, in the rounds that
   use slot 0 a completed task, and in round 0 what the pool left there.
   */
  lemma BarrierBringsOnly(rs: seq<Region>, steps: seq<Step>, fork: real, i: nat)
    requires IsRun(rs, steps, fork) && i < |steps| && steps[i].Leave?
    ensures var t := steps[i].t;
      && t < |rs[i].phases| == |rs[i].raws| == |rs[i + 1].raws| && rs[i].phases[t].Waiting? && |rs[0].slots| == 3
      && var k, raw := rs[i].phases[t].k, rs[i + 1].raws[t];
      || raw == rs[i].raws[t]
      || (steps[i].arc && ArrivedWith(rs, steps, i, k, raw))
      || (steps[i].arc && raw == 0.0)
      || (steps[i].arc && k % 3 == 0 && raw in TaskValues(steps, i))
      || (steps[i].arc && k == 0 && raw == rs[0].slots[0].raw)
  {
    RunKeepsOnlyRounds(rs, steps, fork, i);
    assert StepAt(rs, steps, i);
    var r, t := rs[i], steps[i].t;
    var k := r.phases[t].k;
    assert CountedAt(r, t) && Pending(r, k);
    assert k > 0 ==> HasEntered(r.phases[0], k - 1);
    assert Serves(r, k);
    var slot := r.slots[k % 3].raw;
    if u :| 0 <= u < |r.deposits| && k < |r.deposits[u]| && slot == r.deposits[u][k] {
      var a := DepositIsArrival(rs, steps, fork, i, u, k);
      assert ArrivedWith(rs, steps, i, k, slot);
    }
  }

  // ---------------------------------------------------------------------------
  // The fork arc
  // ---------------------------------------------------------------------------

  /** Thread 0 has reset slot 1, which happens when it enters round 0. */
  predicate ForkIsGone(r: Region)
    requires |r.phases| > 0
  {
    HasEntered(r.phases[0], 0)
  }

  /** `first` is what slot 1 had at the beginning of the region. */
  predicate ForkInv(r: Region, first: real)
    requires WellFormed(r)
  {
    && (!ForkIsGone(r) ==> !r.slots[1].unused && r.slots[1].raw == first)
    && (ForkIsGone(r) && (exists t :: 0 <= t < |r.phases| && r.phases[t] == Unborn) ==> r.slots[1].raw == 0.0)
  }

  lemma StepKeepsForkInv(r: Region, s: Step, first: real)
    requires Inv(r) && Enabled(r, s) && ForkInv(r, first)
    ensures WellFormed(Next(r, s)) && ForkInv(Next(r, s), first)
  {
    var r' := Next(r, s);
    if s.Arrive? && r.index[s.t] == 1 {
      assert CountedAt(r, s.t);
      assert Rounds(r.phases[s.t]) > 0;
      assert forall u :: 0 <= u < |r.phases| ==> HasEntered(r.phases[u], 0);
    }
    if s.Settle? && s.t == 0 { assert CountedAt(r, 0); }
    if s.Settle? && s.t == 0 && r.index[0] != 0 {
      assert Rounds(r.phases[0]) > 0;
      assert forall u :: 0 <= u < |r.phases| ==> HasEntered(r.phases[u], 0);
    }
    if exists t :: 0 <= t < |r'.phases| && r'.phases[t] == Unborn {
      var t :| 0 <= t < |r'.phases| && r'.phases[t] == Unborn;
      assert r.phases[t] == Unborn;
    }
  }

  lemma {:induction false} RunKeepsForkInv(rs: seq<Region>, steps: seq<Step>, fork: real, i: nat)
    requires IsRun(rs, steps, fork) && i < |rs|
    ensures Inv(rs[i]) && ForkInv(rs[i], rs[0].slots[1].raw)
  {
    RunKeepsInv(rs, steps, fork, i);
    if i > 0 {
      RunKeepsForkInv(rs, steps, fork, i - 1);
      assert StepAt(rs, steps, i - 1);
      StepKeepsForkInv(rs[i - 1], steps[i - 1], rs[0].slots[1].raw);
    }
  }

  /**
   The fork arc delivers the fork clock exactly when it is taken before thread 0 enters its
   first round, or when there was nothing to deliver.  What it brings is what slot 1 had at the
   beginning of the region, and after that round zero.
   */
  lemma ForkDeliversExactlyWhen(rs: seq<Region>, steps: seq<Step>, fork: real, i: nat)
    requires IsRun(rs, steps, fork) && i < |steps| && steps[i].Begin?
    ensures |rs[i].phases| > 0 && steps[i].t < |rs[i].raws| == |rs[i + 1].raws|
    ensures rs[i + 1].raws[steps[i].t] >= fork <==>
      !ForkIsGone(rs[i]) || rs[i].raws[steps[i].t] >= fork || 0.0 >= fork
    ensures |rs[0].slots| == 3 && rs[i + 1].raws[steps[i].t] ==
      Clocks.Max(rs[i].raws[steps[i].t], if ForkIsGone(rs[i]) then 0.0 else rs[0].slots[1].raw)
  {
    RunKeepsForkInv(rs, steps, fork, i);
    assert StepAt(rs, steps, i);
    assert rs[i].phases[steps[i].t] == Unborn;
  }

  lemma Extend(rs: seq<Region>, steps: seq<Step>, fork: real, s: Step) returns (more: seq<Region>)
    requires IsRun(rs, steps, fork) && WellFormed(rs[|steps|]) && Enabled(rs[|steps|], s)
    ensures more == rs + [Next(rs[|steps|], s)] && IsRun(more, steps + [s], fork)
  {
    more := rs + [Next(rs[|steps|], s)];
    forall i | 0 <= i < |steps| + 1
      ensures StepAt(more, steps + [s], i)
    {
      assert i < |steps| ==> StepAt(rs, steps, i);
    }
  }

  /** A team of two whose thread 0 is in the first barrier before the other thread has begun. */
  lemma LateThreadMissesFork() returns (rs: seq<Region>, steps: seq<Step>)
    ensures IsRun(rs, steps, 5.0) && |steps| == 4 && steps[3] == Begin(1) && |rs[4].raws| == 2 && rs[4].raws[1] < 5.0
  {
    var stale := Cell(false, 5.0);
    rs, steps := [Region([EMPTY, stale, EMPTY], [Unborn, Unborn], [0, 0], [1.0, 1.0], [[], []])], [];
    rs := Extend(rs, steps, 5.0, Begin(0));
    steps := steps + [Begin(0)];
    assert rs[1] == Region([EMPTY, stale, EMPTY], [Between(0), Unborn], [0, 0], [5.0, 1.0], [[], []]);
    rs := Extend(rs, steps, 5.0, Arrive(0));
    steps := steps + [Arrive(0)];
    assert rs[2].phases == [Arriving(0), Unborn] && rs[2].index == [0, 0] && rs[2].raws == [5.0, 1.0];
    rs := Extend(rs, steps, 5.0, Settle(0));
    steps := steps + [Settle(0)];
    assert rs[3].phases == [Waiting(0), Unborn] && rs[3].raws == [5.0, 1.0] && rs[3].slots[1] == EMPTY;
    rs := Extend(rs, steps, 5.0, Begin(1));
    steps := steps + [Begin(1)];
  }
}
