/**
 Completions of requests that overlap with each other and with new requests (include/tracking.h).

 The table of indices and the pool of data each have a lock, but a call takes them one after the
 other.  The completion of a request that is not persistent makes the index available under the
 first lock, calls the callback under none, and returns the data under the second.  A new request
 takes data, sets their callback, and takes the index that was made available last; if there is
 none, the table grows first.  The steps of different threads interleave.  Callbacks are numbered so
 that every request has its own.
 */
module OverlappingCompletions {
  import opened Options

  datatype Place = Pool | Table(index: nat) | With(thread: nat)

  /** Tool data; where they are is not recorded in the code. */
  datatype Data = Data(place: Place, callback: Option<nat>)

  datatype Phase =
    | Idle
    | Posting(data: nat)                // has data for a new request, not yet an index
    | Releasing(index: nat, data: nat)  // made the index available, has not called the callback
    | Finishing(data: nat)              // called the callback, has not returned the data

  /** `size` is the size of the table, `free` the stack of available indices, `table` the data of the others. */
  datatype State = State(
    size: nat, free: seq<nat>, table: map<nat, nat>, datas: seq<Data>, phases: seq<Phase>,
    fired: seq<nat>, issued: set<nat>)

  datatype Step =
    | Grow                                          // the pool allocates
    | Take(thread: nat, data: nat, callback: nat)
    | Store(thread: nat)
    | Release(thread: nat, index: nat)
    | Fire(thread: nat)
    | Return(thread: nat)

  predicate Is(s: State, d: nat, p: Place) {
    d < |s.datas| && s.datas[d].place == p
  }

  const GROWTH := 64

  /** The stack of indices from which a new request takes the last one. */
  function Available(s: State): (free: seq<nat>)
    ensures free != []
  {
    if s.free == [] then seq(GROWTH, k requires 0 <= k => s.size + k) else s.free
  }

  function NextIndex(s: State): nat {
    Available(s)[|Available(s)| - 1]
  }

  /** A thread completes a live request. */
  predicate Enabled(s: State, step: Step) {
    match step
    case Grow => true
    case Take(t, d, k) => t < |s.phases| && s.phases[t] == Idle && Is(s, d, Pool) && k !in s.issued
    case Store(t) => t < |s.phases| && s.phases[t].Posting? && s.phases[t].data < |s.datas|
    case Release(t, i) => t < |s.phases| && s.phases[t] == Idle && i in s.table && s.table[i] < |s.datas|
    case Fire(t) =>
      && t < |s.phases| && s.phases[t].Releasing? && s.phases[t].data < |s.datas|
      && s.datas[s.phases[t].data].callback.Some?
    case Return(t) => t < |s.phases| && s.phases[t].Finishing? && s.phases[t].data < |s.datas|
  }

  function Next(s: State, step: Step): State
    requires Enabled(s, step)
  {
    match step
    case Grow => s.(datas := s.datas + [Data(Pool, None)])
    case Take(t, d, k) =>
      s.(phases := s.phases[t := Posting(d)], datas := s.datas[d := Data(With(t), Some(k))], issued := s.issued + {k})
    case Store(t) =>
      var d, i, free := s.phases[t].data, NextIndex(s), Available(s);
      s.(size := if s.free == [] then s.size + GROWTH else s.size, free := free[..|free| - 1],
         phases := s.phases[t := Idle], table := s.table[i := d], datas := s.datas[d := s.datas[d].(place := Table(i))])
    case Release(t, i) =>
      var d := s.table[i];
      s.(phases := s.phases[t := Releasing(i, d)], free := s.free + [i], table := s.table - {i},
         datas := s.datas[d := s.datas[d].(place := With(t))])
    case Fire(t) =>
      var d := s.phases[t].data;
      s.(phases := s.phases[t := Finishing(d)], fired := s.fired + [s.datas[d].callback.value],
         datas := s.datas[d := s.datas[d].(callback := None)])
    case Return(t) =>
      var d := s.phases[t].data;
      s.(phases := s.phases[t := Idle], datas := s.datas[d := s.datas[d].(place := Pool)])
  }

  // ---------------------------------------------------------------------------
  // What every step keeps
  // ---------------------------------------------------------------------------

  /** Live entries have data of their own, with a callback. */
  ghost predicate EntryOk(s: State, i: nat)
    requires i in s.table
  {
    Is(s, s.table[i], Table(i)) && s.datas[s.table[i]].callback.Some?
  }

  /** What a thread holds is with it, with a callback until it was called. */
  ghost predicate ThreadOk(s: State, t: nat)
    requires t < |s.phases|
  {
    match s.phases[t]
    case Idle => true
    case Posting(d) => Is(s, d, With(t)) && s.datas[d].callback.Some?
    case Releasing(_, d) => Is(s, d, With(t)) && s.datas[d].callback.Some?
    case Finishing(d) => Is(s, d, With(t)) && s.datas[d].callback.None?
  }

  /** Data in the pool have no callback; a callback that is set was issued and not called. */
  ghost predicate DataOk(s: State, d: nat)
    requires d < |s.datas|
  {
    && (s.datas[d].place == Pool ==> s.datas[d].callback == None)
    && (s.datas[d].callback.Some? ==> s.datas[d].callback.value in s.issued && s.datas[d].callback.value !in s.fired)
  }

  ghost predicate Once(s: seq<nat>) {
    forall i, j :: 0 <= i < j < |s| ==> s[i] != s[j]
  }

  /** The available indices are distinct indices of the table, and none of them is live. */
  ghost predicate IndicesOk(s: State) {
    && Once(s.free)
    && (forall k :: 0 <= k < |s.free| ==> s.free[k] < s.size && s.free[k] !in s.table)
    && (forall i :: i in s.table ==> i < s.size)
  }

  ghost predicate Inv(s: State) {
    && IndicesOk(s)
    && (forall i :: i in s.table ==> EntryOk(s, i))
    && (forall t :: 0 <= t < |s.phases| ==> ThreadOk(s, t))
    && (forall d :: 0 <= d < |s.datas| ==> DataOk(s, d))
    && (forall d, e :: 0 <= d < e < |s.datas| && s.datas[d].callback.Some? ==>
          s.datas[d].callback != s.datas[e].callback)
    && Once(s.fired) && forall k :: k in s.fired ==> k in s.issued
  }

  lemma StepKeepsIndices(s: State, step: Step)
    requires Inv(s) && Enabled(s, step)
    ensures IndicesOk(Next(s, step))
    ensures NextIndex(s) !in s.table
  {
    var free := Available(s);
    assert Once(free) && forall k :: 0 <= k < |free| ==> free[k] !in s.table;
  }

  lemma StepKeepsEntries(s: State, step: Step, i: nat)
    requires Inv(s) && Enabled(s, step) && i in Next(s, step).table
    ensures EntryOk(Next(s, step), i)
  {
    assert i in s.table ==> EntryOk(s, i);
    StepKeepsIndices(s, step);
    if step.Store? || step.Fire? || step.Return? {
      assert ThreadOk(s, step.thread);
    }
    if step.Release? {
      assert EntryOk(s, step.index);
    }
  }

  lemma StepKeepsThreads(s: State, step: Step, t: nat)
    requires Inv(s) && Enabled(s, step) && t < |s.phases|
    ensures ThreadOk(Next(s, step), t)
  {
    assert ThreadOk(s, t);
    if step.Release? {
      assert EntryOk(s, step.index);
    }
    if !step.Grow? {
      assert step.thread < |s.phases| && ThreadOk(s, step.thread);
    }
  }

  lemma StepKeepsCallbacks(s: State, step: Step)
    requires Inv(s) && Enabled(s, step)
    ensures var s' := Next(s, step);
      && (forall d, e :: 0 <= d < e < |s'.datas| && s'.datas[d].callback.Some? ==>
            s'.datas[d].callback != s'.datas[e].callback)
      && Once(s'.fired) && forall k :: k in s'.fired ==> k in s'.issued
  {
    if step.Take? {
      forall e | 0 <= e < |s.datas|
        ensures s.datas[e].callback != Some(step.callback)
      {
        assert DataOk(s, e);
      }
    }
    if step.Fire? {
      assert DataOk(s, s.phases[step.thread].data);
    }
  }

  lemma StepKeepsDatas(s: State, step: Step, d: nat)
    requires Inv(s) && Enabled(s, step) && d < |Next(s, step).datas|
    ensures DataOk(Next(s, step), d)
  {
    if d < |s.datas| {
      assert DataOk(s, d);
    }
    if step.Store? || step.Fire? || step.Return? {
      assert ThreadOk(s, step.thread);
    }
    if step.Fire? {
      assert DataOk(s, s.phases[step.thread].data);
    }
    if step.Take? {
      assert step.callback !in s.fired;
    }
  }

  lemma StepKeepsInv(s: State, step: Step)
    requires Inv(s) && Enabled(s, step)
    ensures Inv(Next(s, step))
  {
    var s' := Next(s, step);
    forall i | i in s'.table ensures EntryOk(s', i) { StepKeepsEntries(s, step, i); }
    forall t | 0 <= t < |s'.phases| ensures ThreadOk(s', t) { StepKeepsThreads(s, step, t); }
    forall d | 0 <= d < |s'.datas| ensures DataOk(s', d) { StepKeepsDatas(s, step, d); }
    StepKeepsCallbacks(s, step);
    StepKeepsIndices(s, step);
  }

  // ---------------------------------------------------------------------------
  // Whole runs
  // ---------------------------------------------------------------------------

  predicate Initial(s: State) {
    && s.size == 0 && s.free == [] && s.table == map[] && s.datas == [] && s.fired == [] && s.issued == {}
    && forall t :: 0 <= t < |s.phases| ==> s.phases[t] == Idle
  }

  predicate StepAt(ss: seq<State>, steps: seq<Step>, i: nat)
    requires i < |steps| < |ss|
  {
    Enabled(ss[i], steps[i]) && ss[i + 1] == Next(ss[i], steps[i])
  }

  predicate IsRun(ss: seq<State>, steps: seq<Step>) {
    |ss| == |steps| + 1 && Initial(ss[0]) && forall i :: 0 <= i < |steps| ==> StepAt(ss, steps, i)
  }

  lemma {:induction false} RunKeepsInv(ss: seq<State>, steps: seq<Step>, i: nat)
    requires IsRun(ss, steps) && i < |ss|
    ensures Inv(ss[i])
  {
    if i > 0 {
      RunKeepsInv(ss, steps, i - 1);
      assert StepAt(ss, steps, i - 1);
      StepKeepsInv(ss[i - 1], steps[i - 1]);
    }
  }

  /** Thread `t` takes no step between `a` and `b`. */
  predicate Pauses(steps: seq<Step>, t: nat, a: nat, b: nat) {
    forall j :: a < j < b && j < |steps| ==> steps[j].Grow? || steps[j].thread != t
  }

  predicate IsRelease(step: Step, i: nat) {
    step.Release? && step.index == i
  }

  /** A new request gets index `i`. */
  predicate Stores(s: State, step: Step, i: nat) {
    step.Store? && NextIndex(s) == i
  }

  lemma EntryStays(s: State, step: Step, i: nat)
    requires Inv(s) && Enabled(s, step) && i in s.table && !IsRelease(step, i)
    ensures var s', d := Next(s, step), s.table[i];
      i in s'.table && s'.table[i] == d && d < |s.datas| && d < |s'.datas| && s'.datas[d] == s.datas[d]
  {
    assert EntryOk(s, i);
    StepKeepsIndices(s, step);
    if step.Store? || step.Fire? || step.Return? {
      assert ThreadOk(s, step.thread);
    }
    if step.Release? {
      assert EntryOk(s, step.index);
    }
  }

  /** The data that a thread has taken from the pool or from the table. */
  function Held(p: Phase): Option<nat> {
    match p
    case Idle => None
    case Posting(d) => Some(d)
    case Releasing(_, d) => Some(d)
    case Finishing(d) => Some(d)
  }

  lemma HeldStays(s: State, step: Step, t: nat)
    requires Inv(s) && Enabled(s, step) && t < |s.phases| && Held(s.phases[t]).Some?
    requires step.Grow? || step.thread != t
    ensures var s', d := Next(s, step), Held(s.phases[t]).value;
      t < |s'.phases| && s'.phases[t] == s.phases[t] && d < |s.datas| && d < |s'.datas| && s'.datas[d] == s.datas[d]
  {
    assert ThreadOk(s, t);
    if step.Store? || step.Fire? || step.Return? {
      assert ThreadOk(s, step.thread);
    }
    if step.Release? {
      assert EntryOk(s, step.index);
    }
  }

  /** From the store to the release, the entry and the data's callback stay. */
  lemma {:induction false} EntryKept(ss: seq<State>, steps: seq<Step>, a: nat, j: nat, i: nat)
    requires IsRun(ss, steps) && a < j < |ss| && Stores(ss[a], steps[a], i)
    requires forall l :: a < l < j ==> !IsRelease(steps[l], i)
    ensures StepAt(ss, steps, a)
    ensures var d := ss[a].phases[steps[a].thread].data;
      && d < |ss[a].datas| && i in ss[j].table && ss[j].table[i] == d
      && d < |ss[j].datas| && ss[j].datas[d].callback == ss[a].datas[d].callback
  {
    assert StepAt(ss, steps, a) && StepAt(ss, steps, j - 1);
    if a + 1 < j {
      EntryKept(ss, steps, a, j - 1, i);
      RunKeepsInv(ss, steps, j - 1);
      EntryStays(ss[j - 1], steps[j - 1], i);
    }
  }

  /** From the release to the callback, the data stay with the thread. */
  lemma {:induction false} DataHeld(ss: seq<State>, steps: seq<Step>, a: nat, j: nat, t: nat, i: nat)
    requires IsRun(ss, steps) && a < j < |ss| && steps[a] == Release(t, i) && Pauses(steps, t, a, j)
    ensures StepAt(ss, steps, a)
    ensures var d := ss[a].table[i];
      && t < |ss[j].phases| && ss[j].phases[t] == Releasing(i, d) && d < |ss[a].datas| && d < |ss[j].datas|
      && ss[j].datas[d] == Data(With(t), ss[a].datas[d].callback)
  {
    assert StepAt(ss, steps, a) && StepAt(ss, steps, j - 1);
    if a + 1 < j {
      DataHeld(ss, steps, a, j - 1, t, i);
      RunKeepsInv(ss, steps, j - 1);
      HeldStays(ss[j - 1], steps[j - 1], t);
    }
  }

  /** From the moment the callback is set to the store, the data stay with the thread. */
  lemma {:induction false} CallbackHeld(ss: seq<State>, steps: seq<Step>, q: nat, j: nat, t: nat, d: nat, k: nat)
    requires IsRun(ss, steps) && q < j < |ss| && steps[q] == Take(t, d, k) && Pauses(steps, t, q, j)
    ensures t < |ss[j].phases| && ss[j].phases[t] == Posting(d)
    ensures d < |ss[j].datas| && ss[j].datas[d] == Data(With(t), Some(k))
  {
    assert StepAt(ss, steps, q) && StepAt(ss, steps, j - 1);
    if q + 1 < j {
      CallbackHeld(ss, steps, q, j - 1, t, d, k);
      RunKeepsInv(ss, steps, j - 1);
      HeldStays(ss[j - 1], steps[j - 1], t);
    }
  }

  lemma {:induction false} FiredGrows(ss: seq<State>, steps: seq<Step>, b: nat, c: nat)
    requires IsRun(ss, steps) && b <= c < |ss|
    ensures ss[b].fired <= ss[c].fired
  {
    if b < c {
      FiredGrows(ss, steps, b, c - 1);
      assert StepAt(ss, steps, c - 1);
    }
  }

  /** A request was stored at `p`, its completion releases the index at `a` and calls the callback at `b`. */
  predicate Completion(ss: seq<State>, steps: seq<Step>, p: nat, a: nat, b: nat, t: nat, i: nat)
    requires |ss| == |steps| + 1
  {
    && p < a < b < |steps| && Stores(ss[p], steps[p], i) && steps[a] == Release(t, i) && steps[b] == Fire(t)
    && (forall l :: p < l < a ==> !IsRelease(steps[l], i)) && Pauses(steps, t, a, b)
  }

  /**
   Under every interleaving, the completion of a request calls the callback that the request was
   stored with, on data that are in no other entry and in no pool, and no other completion ever
   calls that callback.
   */
  lemma FiresOnceOnOwnData(ss: seq<State>, steps: seq<Step>, p: nat, a: nat, b: nat, c: nat, t: nat, i: nat)
    requires IsRun(ss, steps) && Completion(ss, steps, p, a, b, t, i) && b < c < |ss|
    ensures StepAt(ss, steps, p)
    ensures var d := ss[p].phases[steps[p].thread].data;
      && d < |ss[p].datas| && ss[p].datas[d].callback.Some?
      && var k := ss[p].datas[d].callback.value;
      && Is(ss[b], d, With(t)) && (forall x :: x in ss[b].table ==> ss[b].table[x] != d)
      && ss[b + 1].fired == ss[b].fired + [k]
      && |ss[b].fired| < |ss[c].fired| && ss[c].fired[|ss[b].fired|] == k
      && forall j :: 0 <= j < |ss[c].fired| && j != |ss[b].fired| ==> ss[c].fired[j] != k
  {
    EntryKept(ss, steps, p, a, i);
    DataHeld(ss, steps, a, b, t, i);
    RunKeepsInv(ss, steps, p);
    assert StepAt(ss, steps, b);
    assert ThreadOk(ss[p], steps[p].thread);
    RunKeepsInv(ss, steps, b);
    assert forall x :: x in ss[b].table ==> EntryOk(ss[b], x);
    FiredGrows(ss, steps, b + 1, c);
    RunKeepsInv(ss, steps, c);
  }

  /** A thread that has released an index can always go on to the callback. */
  lemma CallbackIsNeverStuck(ss: seq<State>, steps: seq<Step>, j: nat, t: nat)
    requires IsRun(ss, steps) && j < |ss| && t < |ss[j].phases| && ss[j].phases[t].Releasing?
    ensures Enabled(ss[j], Fire(t))
  {
    RunKeepsInv(ss, steps, j);
    assert ThreadOk(ss[j], t);
  }

  /**
   From end to end: the completion of a request that was posted with callback `k` calls `k`, which runs
   once in the whole run.
   */
  lemma RequestRunsItsCallback(ss: seq<State>, steps: seq<Step>, q: nat, p: nat, a: nat, b: nat, t: nat, i: nat)
    requires IsRun(ss, steps) && q < p && Completion(ss, steps, p, a, b, t, i)
    requires steps[q].Take? && steps[p].thread == steps[q].thread && Pauses(steps, steps[q].thread, q, p)
    ensures var k, n := steps[q].callback, |ss[b].fired|;
      && ss[b + 1].fired == ss[b].fired + [k] && n < |ss[|steps|].fired|
      && forall j :: 0 <= j < |ss[|steps|].fired| ==> (ss[|steps|].fired[j] == k <==> j == n)
  {
    CallbackHeld(ss, steps, q, p, steps[q].thread, steps[q].data, steps[q].callback);
    FiresOnceOnOwnData(ss, steps, p, a, b, |steps|, t, i);
  }

  // ---------------------------------------------------------------------------
  // Nothing is lost
  // ---------------------------------------------------------------------------

  /** Data are where they are said to be. */
  ghost predicate PlaceOk(s: State, d: nat)
    requires d < |s.datas|
  {
    match s.datas[d].place
    case Pool => true
    case Table(i) => i in s.table && s.table[i] == d
    case With(t) => t < |s.phases| && Held(s.phases[t]) == Some(d)
  }

  lemma StepKeepsPlace(s: State, step: Step, d: nat)
    requires Inv(s) && Enabled(s, step) && d < |Next(s, step).datas| && (d < |s.datas| ==> PlaceOk(s, d))
    ensures PlaceOk(Next(s, step), d)
  {
    StepKeepsIndices(s, step);
    if step.Store? || step.Fire? || step.Return? {
      assert ThreadOk(s, step.thread);
    }
    if step.Release? {
      assert EntryOk(s, step.index);
    }
  }

  lemma {:induction false} RunKeepsPlace(ss: seq<State>, steps: seq<Step>, j: nat, d: nat)
    requires IsRun(ss, steps) && j < |ss| && d < |ss[j].datas|
    ensures PlaceOk(ss[j], d)
    decreases j
  {
    if j > 0 {
      assert StepAt(ss, steps, j - 1);
      if d < |ss[j - 1].datas| {
        RunKeepsPlace(ss, steps, j - 1, d);
      }
      RunKeepsInv(ss, steps, j - 1);
      StepKeepsPlace(ss[j - 1], steps[j - 1], d);
    }
  }

  /** A new request can get every index that is not live. */
  lemma AllAvailable(s: State, i: nat)
    requires i < s.size ==> i in s.free || i in s.table
    requires i < if s.free == [] then s.size + GROWTH else s.size
    ensures i in Available(s) || i in s.table
  {
    if s.free == [] && i >= s.size {
      assert Available(s)[i - s.size] == i;
    }
  }

  lemma StepKeepsIndex(s: State, step: Step, i: nat)
    requires Enabled(s, step) && i < Next(s, step).size && (i < s.size ==> i in s.free || i in s.table)
    ensures i in Next(s, step).free || i in Next(s, step).table
  {
    var s', free := Next(s, step), Available(s);
    if step.Store? {
      AllAvailable(s, i);
      if i in free && i != NextIndex(s) {
        var k :| 0 <= k < |free| && free[k] == i;
        assert s'.free[k] == i;
      }
    }
  }

  lemma {:induction false} RunKeepsIndex(ss: seq<State>, steps: seq<Step>, j: nat, i: nat)
    requires IsRun(ss, steps) && j < |ss| && i < ss[j].size
    ensures i in ss[j].free || i in ss[j].table
    decreases j
  {
    if j > 0 {
      assert StepAt(ss, steps, j - 1);
      if i < ss[j - 1].size {
        RunKeepsIndex(ss, steps, j - 1, i);
      }
      StepKeepsIndex(ss[j - 1], steps[j - 1], i);
    }
  }

  /**
   At every moment of every run, every index of the table is either available or has a live request,
   and all data are either in the pool, or in one entry of the table, or with one thread that is in the
   middle of a call.
   */
  lemma NothingIsLost(ss: seq<State>, steps: seq<Step>, j: nat, i: nat, d: nat)
    requires IsRun(ss, steps) && j < |ss| && i < ss[j].size && d < |ss[j].datas|
    ensures i in ss[j].table <==> i !in ss[j].free
    ensures forall x :: x in ss[j].table && ss[j].table[x] == d <==> ss[j].datas[d].place == Table(x)
    ensures forall t: nat :: t < |ss[j].phases| && Held(ss[j].phases[t]) == Some(d) <==>
      ss[j].datas[d].place == With(t)
  {
    RunKeepsInv(ss, steps, j);
    RunKeepsPlace(ss, steps, j, d);
    RunKeepsIndex(ss, steps, j, i);
    var s := ss[j];
    forall t: nat | t < |s.phases| && Held(s.phases[t]) == Some(d)
      ensures s.datas[d].place == With(t)
    {
      assert ThreadOk(s, t);
    }
    forall x | x in s.table && s.table[x] == d
      ensures s.datas[d].place == Table(x)
    {
      assert EntryOk(s, x);
    }
  }

  // ---------------------------------------------------------------------------
  // The index
  // ---------------------------------------------------------------------------

  /** Index `i` is given out again before the callback runs. */
  ghost predicate ReusedBefore(ss: seq<State>, a: nat, b: nat, i: nat) {
    exists j :: a < j <= b && j < |ss| && i in ss[j].table
  }

  /** How many new requests got an index at the steps after `a` and before `c`. */
  function Posts(steps: seq<Step>, a: nat, c: nat): nat
    requires c <= |steps|
  {
    if c <= a + 1 then 0 else Posts(steps, a, c - 1) + if steps[c - 1].Store? then 1 else 0
  }

  /** How many indices were made available at the steps after `a` and before `c`. */
  function Releases(steps: seq<Step>, a: nat, c: nat): nat
    requires c <= |steps|
  {
    if c <= a + 1 then 0 else Releases(steps, a, c - 1) + if steps[c - 1].Release? then 1 else 0
  }

  predicate PostsAhead(steps: seq<Step>, a: nat, c: nat)
    requires c <= |steps|
  {
    Posts(steps, a, c) > Releases(steps, a, c)
  }

  /** The index released at step `a` is on the stack, under those released and not taken since. */
  ghost predicate Buried(ss: seq<State>, steps: seq<Step>, a: nat, c: nat)
    requires a < c <= |steps| && |ss| == |steps| + 1 && steps[a].Release?
  {
    var p := |ss[a].free|;
    && p < |ss[c].free| && ss[c].free[p] == steps[a].index
    && |ss[c].free| - p - 1 == Releases(steps, a, c) - Posts(steps, a, c)
  }

  lemma BuriedIsFree(ss: seq<State>, steps: seq<Step>, a: nat, c: nat)
    requires IsRun(ss, steps) && a < c <= |steps| && steps[a].Release? && Buried(ss, steps, a, c)
    ensures steps[a].index !in ss[c].table
  {
    RunKeepsInv(ss, steps, c);
  }

  /** As long as the posts were never ahead, the index stays where it is. */
  lemma {:induction false} StaysBuried(ss: seq<State>, steps: seq<Step>, a: nat, c: nat)
    requires IsRun(ss, steps) && a < c <= |steps| && steps[a].Release?
    requires forall l :: a < l <= c ==> !PostsAhead(steps, a, l)
    ensures Buried(ss, steps, a, c)
    decreases c
  {
    assert StepAt(ss, steps, c - 1) && !PostsAhead(steps, a, c);
    if a + 1 < c {
      StaysBuried(ss, steps, a, c - 1);
    }
  }

  /** When they get ahead for the first time, the new request gets that very index. */
  lemma FirstAheadTakes(ss: seq<State>, steps: seq<Step>, a: nat, c: nat)
    requires IsRun(ss, steps) && a < c <= |steps| && steps[a].Release? && PostsAhead(steps, a, c)
    requires forall l :: a < l < c ==> !PostsAhead(steps, a, l)
    ensures steps[a].index in ss[c].table
  {
    StaysBuried(ss, steps, a, c - 1);
    assert StepAt(ss, steps, c - 1) && !PostsAhead(steps, a, c - 1);
  }

  lemma {:induction false} FirstAhead(steps: seq<Step>, a: nat, b: nat) returns (c: nat)
    requires a < b <= |steps| && PostsAhead(steps, a, b)
    ensures a < c <= b && PostsAhead(steps, a, c) && forall l :: a < l < c ==> !PostsAhead(steps, a, l)
    decreases b
  {
    if l :| a < l < b && PostsAhead(steps, a, l) {
      c := FirstAhead(steps, a, l);
    } else {
      c := b;
    }
  }

  /**
   Under every interleaving, the callback of a completed request precedes every reuse of its index,
   if and only if at no moment in between the new requests since the release outnumber the later
   releases.
   */
  lemma CallbackPrecedesReuseExactlyWhen(ss: seq<State>, steps: seq<Step>, a: nat, b: nat, t: nat, i: nat)
    requires IsRun(ss, steps) && a < b < |steps| && steps[a] == Release(t, i)
    ensures !ReusedBefore(ss, a, b, i) <==> forall c :: a < c <= b ==> !PostsAhead(steps, a, c)
  {
    if c :| a < c <= b && PostsAhead(steps, a, c) {
      var first := FirstAhead(steps, a, c);
      FirstAheadTakes(ss, steps, a, first);
    } else {
      forall j | a < j <= b
        ensures i !in ss[j].table
      {
        StaysBuried(ss, steps, a, j);
        BuriedIsFree(ss, steps, a, j);
      }
    }
  }

  /** A run goes on with every step that its last state allows. */
  lemma Extend(ss: seq<State>, steps: seq<Step>, step: Step) returns (ts: seq<State>)
    requires IsRun(ss, steps) && Enabled(ss[|steps|], step)
    ensures ts == ss + [Next(ss[|steps|], step)] && IsRun(ts, steps + [step])
  {
    ts := ss + [Next(ss[|steps|], step)];
    forall i | 0 <= i < |steps| + 1
      ensures StepAt(ts, steps + [step], i)
    {
      assert i < |steps| ==> StepAt(ss, steps, i);
    }
  }

  /** The indices from 0 on. */
  function UpTo(n: nat): seq<nat> {
    seq(n, k requires 0 <= k => k)
  }

  /** Thread 0 has stored a request with callback 7, which got index 63; there are more data in the pool. */
  lemma OneRequest() returns (ss: seq<State>, steps: seq<Step>)
    ensures IsRun(ss, steps) && |steps| == 4
    ensures ss[4] == State(64, UpTo(63), map[63 := 0], [Data(Table(63), Some(7)), Data(Pool, None)],
                           [Idle, Idle], [], {7})
  {
    ss, steps := [State(0, [], map[], [], [Idle, Idle], [], {})], [];
    ss := Extend(ss, steps, Grow);
    steps := steps + [Grow];
    ss := Extend(ss, steps, Grow);
    steps := steps + [Grow];
    assert ss[2] == State(0, [], map[], [Data(Pool, None), Data(Pool, None)], [Idle, Idle], [], {});
    ss := Extend(ss, steps, Take(0, 0, 7));
    steps := steps + [Take(0, 0, 7)];
    assert ss[3] == State(0, [], map[], [Data(With(0), Some(7)), Data(Pool, None)], [Posting(0), Idle], [], {7});
    ss := Extend(ss, steps, Store(0));
    steps := steps + [Store(0)];
    assert ss[4].free == UpTo(63);
  }

  /** Thread 1 posts a request between the release of index 63 and the callback, and gets that index. */
  lemma IndexIsReusedBeforeCallback() returns (ss: seq<State>, steps: seq<Step>)
    ensures IsRun(ss, steps) && |steps| == 8 && steps[4] == Release(0, 63) && steps[7] == Fire(0)
    ensures ReusedBefore(ss, 4, 7, 63) && ss[7].table == map[63 := 1] && ss[8].fired == [7]
  {
    ss, steps := OneRequest();
    ss := Extend(ss, steps, Release(0, 63));
    steps := steps + [Release(0, 63)];
    assert ss[5] == State(64, UpTo(63) + [63], map[], [Data(With(0), Some(7)), Data(Pool, None)],
                          [Releasing(63, 0), Idle], [], {7});
    ss := Extend(ss, steps, Take(1, 1, 8));
    steps := steps + [Take(1, 1, 8)];
    assert ss[6] == State(64, UpTo(63) + [63], map[], [Data(With(0), Some(7)), Data(With(1), Some(8))],
                          [Releasing(63, 0), Posting(1)], [], {7, 8});
    ss := Extend(ss, steps, Store(1));
    steps := steps + [Store(1)];
    assert ss[7].table == map[63 := 1] && ss[7].phases[0] == Releasing(63, 0);
    ss := Extend(ss, steps, Fire(0));
    steps := steps + [Fire(0)];
    assert 63 in ss[7].table;
  }
}
