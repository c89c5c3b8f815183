/**
 The per-thread pools of reusable objects (src/ompt-critical.cpp).

 The thread that owns a pool takes from and returns to its local list without a lock.  Other
 threads return to the remote list under the lock of the pool and count what they returned.
 The owner reads that counter without the lock and takes the remote list over when its own is
 empty.  Each step below is one access to shared memory; steps of different threads interleave.
 */
module Pools {
  import opened Options

  datatype Pool = Pool(local: seq<nat>, remote: seq<nat>, counter: int, total: int, lock: Option<nat>)

  /** Where a thread is in getData or Delete. */
  datatype Phase =
    | Idle
    | SawRemote               // its local list is empty, the counter was positive
    | SwapLocked              // holds the lock of its own pool
    | Swapped
    | Zeroed
    | Filled                  // newDatas is done
    | Leaving(item: nat)      // about to return an object of another thread
    | PushLocked(item: nat)
    | Pushed(pool: nat)
    | Counted(pool: nat)

  /** Where an object is; the program's part of it is not in the code. */
  datatype Location = Local | Remote | Out | Transit(thread: nat)

  datatype Object = Object(owner: nat, location: Location)

  /** Thread `t` owns pool `t`. */
  datatype State = State(pools: seq<Pool>, phases: seq<Phase>, objects: seq<Object>)

  datatype Step =
    | Take(thread: nat)                  // the end of getData
    | LookRemote(thread: nat)
    | Allocate(thread: nat, count: nat)
    | LockOwn(thread: nat)
    | Swap(thread: nat)
    | Zero(thread: nat)
    | UnlockOwn(thread: nat)
    | ReturnOwn(thread: nat, item: nat)
    | Leave(thread: nat, item: nat)
    | LockOther(thread: nat)
    | Push(thread: nat)
    | Count(thread: nat)
    | UnlockOther(thread: nat)

  function Owner(s: State, o: nat): nat
    requires o < |s.objects|
  {
    s.objects[o].owner
  }

  /** The program only returns what it was given. */
  predicate IsOut(s: State, o: nat) {
    o < |s.objects| && s.objects[o].location == Out && s.objects[o].owner < |s.pools|
  }

  predicate Enabled(s: State, step: Step) {
    var t := step.thread;
    && t < |s.phases| == |s.pools|
    && match step
       case Take(_) => (s.phases[t].Idle? || s.phases[t].Filled?) && s.pools[t].local != []
                       && s.pools[t].local[|s.pools[t].local| - 1] < |s.objects|
       case LookRemote(_) => s.phases[t].Idle? && s.pools[t].local == [] && s.pools[t].counter > 0
       case Allocate(_, n) => s.phases[t].Idle? && s.pools[t].local == [] && s.pools[t].counter <= 0 && n >= 4
       case LockOwn(_) => s.phases[t].SawRemote? && s.pools[t].lock == None
       case Swap(_) => s.phases[t].SwapLocked?
       case Zero(_) => s.phases[t].Swapped?
       case UnlockOwn(_) => s.phases[t].Zeroed?
       case ReturnOwn(_, o) => s.phases[t].Idle? && IsOut(s, o) && Owner(s, o) == t
       case Leave(_, o) => s.phases[t].Idle? && IsOut(s, o) && Owner(s, o) != t
       case LockOther(_) => s.phases[t].Leaving? && s.phases[t].item < |s.objects|
                            && Owner(s, s.phases[t].item) < |s.pools|
                            && s.pools[Owner(s, s.phases[t].item)].lock == None
       case Push(_) => s.phases[t].PushLocked? && s.phases[t].item < |s.objects|
                       && Owner(s, s.phases[t].item) < |s.pools|
       case Count(_) => s.phases[t].Pushed? && s.phases[t].pool < |s.pools|
       case UnlockOther(_) => s.phases[t].Counted? && s.phases[t].pool < |s.pools|
  }

  function Move(objects: seq<Object>, o: nat, l: Location): seq<Object>
    requires o < |objects|
  {
    objects[o := objects[o].(location := l)]
  }

  /** All of the thread's remote objects become local ones. */
  function TakeOver(objects: seq<Object>, t: nat): seq<Object> {
    seq(|objects|, o requires 0 <= o < |objects| =>
      if objects[o] == Object(t, Remote) then Object(t, Local) else objects[o])
  }

  /** Pool `p`, the phase of thread `t` and the objects change. */
  function Set(s: State, p: nat, pool: Pool, t: nat, phase: Phase, objects: seq<Object>): State
    requires p < |s.pools| && t < |s.phases|
  {
    State(s.pools[p := pool], s.phases[t := phase], objects)
  }

  function Next(s: State, step: Step): State
    requires Enabled(s, step)
  {
    var t := step.thread;
    var own := s.pools[t];
    match step
    case Take(_) =>
      var n := |own.local| - 1;
      Set(s, t, own.(local := own.local[..n]), t, Idle, Move(s.objects, own.local[n], Out))
    case LookRemote(_) => Set(s, t, own, t, SawRemote, s.objects)
    case Allocate(_, n) =>
      Set(s, t, own.(local := seq(n, i requires 0 <= i < n => |s.objects| + i), total := own.total + n), t, Filled,
          s.objects + seq(n, i requires 0 <= i < n => Object(t, Local)))
    case LockOwn(_) => Set(s, t, own.(lock := Some(t)), t, SwapLocked, s.objects)
    case Swap(_) => Set(s, t, own.(local := own.remote, remote := own.local), t, Swapped, TakeOver(s.objects, t))
    case Zero(_) => Set(s, t, own.(counter := 0), t, Zeroed, s.objects)
    case UnlockOwn(_) => Set(s, t, own.(lock := None), t, Filled, s.objects)
    case ReturnOwn(_, o) => Set(s, t, own.(local := own.local + [o]), t, Idle, Move(s.objects, o, Local))
    case Leave(_, o) => Set(s, t, own, t, Leaving(o), Move(s.objects, o, Transit(t)))
    case LockOther(_) =>
      var p := Owner(s, s.phases[t].item);
      Set(s, p, s.pools[p].(lock := Some(t)), t, PushLocked(s.phases[t].item), s.objects)
    case Push(_) =>
      var o := s.phases[t].item;
      var p := Owner(s, o);
      Set(s, p, s.pools[p].(remote := s.pools[p].remote + [o]), t, Pushed(p), Move(s.objects, o, Remote))
    case Count(_) =>
      var p := s.phases[t].pool;
      Set(s, p, s.pools[p].(counter := s.pools[p].counter + 1), t, Counted(p), s.objects)
    case UnlockOther(_) =>
      var p := s.phases[t].pool;
      Set(s, p, s.pools[p].(lock := None), t, Idle, s.objects)
  }

  // ---------------------------------------------------------------------------
  // Invariant
  // ---------------------------------------------------------------------------

  ghost predicate Distinct(s: seq<nat>) {
    forall i, j :: 0 <= i < j < |s| ==> s[i] != s[j]
  }

  /** `list` holds the objects of pool `p` at `l`, each once. */
  ghost predicate Lists(list: seq<nat>, objects: seq<Object>, p: nat, l: Location) {
    Distinct(list) && forall o: nat :: o in list <==> o < |objects| && objects[o] == Object(p, l)
  }

  /** The pool's lists and objects agree. */
  ghost predicate ListsAgree(s: State, p: nat)
    requires p < |s.pools|
  {
    Lists(s.pools[p].local, s.objects, p, Local) && Lists(s.pools[p].remote, s.objects, p, Remote)
  }

  /** Thread `t` is between the lock and the unlock of pool `p`. */
  predicate Inside(s: State, t: nat, p: nat) {
    && t < |s.phases|
    && match s.phases[t]
       case SwapLocked => p == t
       case Swapped => p == t
       case Zeroed => p == t
       case PushLocked(o) => o < |s.objects| && p == Owner(s, o)
       case Pushed(q) => p == q
       case Counted(q) => p == q
       case _ => false
  }

  /** The thread inside, if any, has the lock. */
  ghost predicate LockAgrees(s: State, p: nat)
    requires p < |s.pools|
  {
    && (s.pools[p].lock.Some? ==> s.pools[p].lock.value < |s.phases|)
    && forall t: nat :: t < |s.phases| ==> (Inside(s, t, p) <==> s.pools[p].lock == Some(t))
  }

  /** The counter is the length of the remote list, except inside. */
  ghost predicate CounterAgrees(s: State, p: nat)
    requires p < |s.pools|
  {
    var pool := s.pools[p];
    match pool.lock
    case None => pool.counter == |pool.remote|
    case Some(t) =>
      && t < |s.phases|
      && match s.phases[t]
         case Pushed(_) => pool.counter + 1 == |pool.remote|
         case Swapped => pool.remote == []
         case _ => pool.counter == |pool.remote|
  }

  /** Thread `t` is about to return object `o` to another thread. */
  predicate Carries(s: State, t: nat, o: nat) {
    && o < |s.objects| && s.objects[o].location == Transit(t)
    && Owner(s, o) < |s.pools| && Owner(s, o) != t
  }

  /** What a thread may rely on. */
  ghost predicate ThreadAgrees(s: State, t: nat)
    requires t < |s.phases| == |s.pools|
  {
    var own := s.pools[t];
    match s.phases[t]
    case SawRemote => own.local == [] && own.remote != []
    case SwapLocked => own.local == [] && own.remote != []
    case Swapped => own.local != []
    case Zeroed => own.local != []
    case Filled => own.local != []
    case Leaving(o) => Carries(s, t, o)
    case PushLocked(o) => Carries(s, t, o)
    case Pushed(p) => p < |s.pools| && p != t
    case Counted(p) => p < |s.pools| && p != t
    case Idle => true
  }

  /** The objects that pool `p` allocated, and those not in its lists. */
  ghost function OwnedBy(s: State, p: nat): set<nat> {
    set o | 0 <= o < |s.objects| && s.objects[o].owner == p
  }

  ghost function MissingOf(s: State, p: nat): set<nat> {
    set o | 0 <= o < |s.objects| && s.objects[o].owner == p
            && s.objects[o].location != Local && s.objects[o].location != Remote
  }

  ghost predicate Inv(s: State) {
    && |s.phases| == |s.pools|
    && (forall p :: 0 <= p < |s.pools| ==> LockAgrees(s, p))
    && (forall o :: 0 <= o < |s.objects| ==> s.objects[o].owner < |s.pools|)
    && (forall p :: 0 <= p < |s.pools| ==> ListsAgree(s, p))
    && (forall p :: 0 <= p < |s.pools| ==> CounterAgrees(s, p))
    && (forall t :: 0 <= t < |s.phases| ==> ThreadAgrees(s, t))
    && (forall p :: 0 <= p < |s.pools| ==> s.pools[p].total == |OwnedBy(s, p)|)
  }

  // Lists

  lemma ListsAfterMove(list: seq<nat>, objects: seq<Object>, p: nat, l: Location, o: nat, to: Location)
    requires Lists(list, objects, p, l) && o < |objects|
    requires objects[o] != Object(p, l) && Object(objects[o].owner, to) != Object(p, l)
    ensures Lists(list, Move(objects, o, to), p, l)
  {
  }

  lemma ListsAfterPop(list: seq<nat>, objects: seq<Object>, p: nat, l: Location, to: Location)
    requires Lists(list, objects, p, l) && list != [] && to != l
    ensures list[|list| - 1] < |objects| && Lists(list[..|list| - 1], Move(objects, list[|list| - 1], to), p, l)
  {
    var o, rest := list[|list| - 1], list[..|list| - 1];
    assert o in list;
    forall x: nat
      ensures x in rest <==> x in list && x != o
    {
      if x in rest {
        var i :| 0 <= i < |rest| && rest[i] == x;
        assert list[i] == x;
      }
      if x in list && x != o {
        var i :| 0 <= i < |list| && list[i] == x;
        assert rest[i] == x;
      }
    }
  }

  lemma ListsAfterPush(list: seq<nat>, objects: seq<Object>, p: nat, l: Location, o: nat)
    requires Lists(list, objects, p, l) && o < |objects| && objects[o].owner == p && objects[o].location != l
    ensures Lists(list + [o], Move(objects, o, l), p, l)
  {
    assert o !in list;
  }

  /** Every step leaves the lists of every pool in agreement with the objects. */
  lemma StepKeepsLists(s: State, step: Step, p: nat)
    requires Inv(s) && Enabled(s, step) && p < |s.pools|
    ensures ListsAgree(Next(s, step), p)
  {
    var t, s' := step.thread, Next(s, step);
    var own := s.pools[t];
    assert ListsAgree(s, p) && ListsAgree(s, t) && ThreadAgrees(s, t);
    match step
    case Take(_) =>
      ListsAfterPop(own.local, s.objects, t, Local, Out);
      var o := own.local[|own.local| - 1];
      assert o in own.local;
      ListsAfterMove(s.pools[p].remote, s.objects, p, Remote, o, Out);
      if p != t {
        ListsAfterMove(s.pools[p].local, s.objects, p, Local, o, Out);
      }
    case ReturnOwn(_, o) =>
      ListsAfterMove(s.pools[p].remote, s.objects, p, Remote, o, Local);
      if p != t {
        ListsAfterMove(s.pools[p].local, s.objects, p, Local, o, Local);
      } else {
        ListsAfterPush(own.local, s.objects, t, Local, o);
      }
    case Leave(_, o) =>
      ListsAfterMove(s.pools[p].remote, s.objects, p, Remote, o, Transit(t));
      ListsAfterMove(s.pools[p].local, s.objects, p, Local, o, Transit(t));
    case Push(_) =>
      var o := s.phases[t].item;
      ListsAfterMove(s.pools[p].local, s.objects, p, Local, o, Remote);
      if p != Owner(s, o) {
        ListsAfterMove(s.pools[p].remote, s.objects, p, Remote, o, Remote);
      } else {
        ListsAfterPush(s.pools[p].remote, s.objects, p, Remote, o);
      }
    case Swap(_) => ListsAfterSwap(s, t, p);
    case Allocate(_, n) => ListsAfterAllocate(s, t, n, p);
    case _ =>
  }

  lemma ListsAfterSwap(s: State, t: nat, p: nat)
    requires Inv(s) && Enabled(s, Swap(t)) && p < |s.pools|
    ensures ListsAgree(Next(s, Swap(t)), p)
  {
    assert ListsAgree(s, p) && ListsAgree(s, t) && ThreadAgrees(s, t);
  }

  lemma ListsAfterAllocate(s: State, t: nat, n: nat, p: nat)
    requires Inv(s) && Enabled(s, Allocate(t, n)) && p < |s.pools|
    ensures ListsAgree(Next(s, Allocate(t, n)), p)
  {
    assert ListsAgree(s, p) && ListsAgree(s, t);
    var s' := Next(s, Allocate(t, n));
    if p == t {
      forall o: nat | |s.objects| <= o < |s'.objects|
        ensures o in s'.pools[t].local
      {
        assert s'.pools[t].local[o - |s.objects|] == o;
      }
    }
  }

  // Locks and counters

  /** Another thread stays inside or outside. */
  lemma SameInside(s: State, step: Step, u: nat, p: nat)
    requires Inv(s) && Enabled(s, step) && u < |s.phases| && u != step.thread
    ensures Inside(Next(s, step), u, p) == Inside(s, u, p)
  {
    assert ThreadAgrees(s, u);
  }

  lemma StepKeepsLock(s: State, step: Step, p: nat)
    requires Inv(s) && Enabled(s, step) && p < |s.pools|
    ensures LockAgrees(Next(s, step), p)
  {
    var t, s' := step.thread, Next(s, step);
    assert ThreadAgrees(s, t) && LockAgrees(s, p);
    assert Inside(s, t, p) <==> s.pools[p].lock == Some(t);
    forall u: nat | u < |s.phases|
      ensures Inside(s', u, p) <==> s'.pools[p].lock == Some(u)
    {
      assert Inside(s, u, p) <==> s.pools[p].lock == Some(u);
      if u != t {
        SameInside(s, step, u, p);
      }
    }
  }

  lemma StepKeepsCounter(s: State, step: Step, p: nat)
    requires Enabled(s, step) && p < |s.pools| && ThreadAgrees(s, step.thread)
    requires CounterAgrees(s, p) && LockAgrees(s, p)
    ensures CounterAgrees(Next(s, step), p)
  {
    var t := step.thread;
    assert Inside(s, t, p) <==> s.pools[p].lock == Some(t);
  }

  lemma StepKeepsOther(s: State, step: Step, u: nat)
    requires Inv(s) && Enabled(s, step) && u < |s.phases| && u != step.thread
    ensures ThreadAgrees(Next(s, step), u)
  {
    assert ThreadAgrees(s, u) && ThreadAgrees(s, step.thread);
    if s.phases[u].Leaving? || s.phases[u].PushLocked? {
      TransitStays(s, step, u, s.phases[u].item);
    }
  }

  /** What another thread is about to return stays with it. */
  lemma TransitStays(s: State, step: Step, u: nat, o: nat)
    requires Inv(s) && Enabled(s, step) && u != step.thread && o < |s.objects| && s.objects[o].location == Transit(u)
    ensures o < |Next(s, step).objects| && Next(s, step).objects[o] == s.objects[o]
  {
    var t := step.thread;
    assert ThreadAgrees(s, t) && ListsAgree(s, t);
    if step.Take? {
      var last := s.pools[t].local[|s.pools[t].local| - 1];
      assert last in s.pools[t].local;
    }
  }

  lemma StepKeepsOwn(s: State, step: Step)
    requires Inv(s) && Enabled(s, step)
    ensures ThreadAgrees(Next(s, step), step.thread)
  {
    var t := step.thread;
    assert ThreadAgrees(s, t) && CounterAgrees(s, t) && LockAgrees(s, t);
    assert Inside(s, t, t) <==> s.pools[t].lock == Some(t);
  }

  // Sizes

  ghost function Elements(list: seq<nat>): set<nat> {
    set o | o in list
  }

  lemma {:induction false} ListSize(list: seq<nat>)
    requires Distinct(list)
    ensures |Elements(list)| == |list|
  {
    if list != [] {
      var rest, o := list[..|list| - 1], list[|list| - 1];
      ListSize(rest);
      assert list == rest + [o];
      assert Elements(list) == Elements(rest) + {o} && o !in Elements(rest);
    }
  }

  lemma StepKeepsTotal(s: State, step: Step, p: nat)
    requires Inv(s) && Enabled(s, step) && p < |s.pools|
    ensures Next(s, step).pools[p].total == |OwnedBy(Next(s, step), p)|
  {
    var s' := Next(s, step);
    if step.Allocate? && p == step.thread {
      AllocateOwns(s, p, step.count);
    } else {
      OwnersStay(s, step);
      assert OwnedBy(s', p) == OwnedBy(s, p);
    }
  }

  lemma AllocateOwns(s: State, t: nat, n: nat)
    requires Inv(s) && Enabled(s, Allocate(t, n))
    ensures |OwnedBy(Next(s, Allocate(t, n)), t)| == |OwnedBy(s, t)| + n
  {
    var s' := Next(s, Allocate(t, n));
    var local := s'.pools[t].local;
    ListSize(local);
    forall o: nat
      ensures o in Elements(local) <==> |s.objects| <= o < |s'.objects|
    {
      if |s.objects| <= o < |s'.objects| {
        assert local[o - |s.objects|] == o;
      }
    }
    assert OwnedBy(s', t) == OwnedBy(s, t) + Elements(local);
    assert OwnedBy(s, t) !! Elements(local);
  }

  lemma OwnersStay(s: State, step: Step)
    requires Inv(s) && Enabled(s, step)
    ensures |s.objects| <= |Next(s, step).objects|
    ensures forall o :: 0 <= o < |s.objects| ==> Next(s, step).objects[o].owner == s.objects[o].owner
    ensures forall o :: |s.objects| <= o < |Next(s, step).objects| ==>
      step.Allocate? && Next(s, step).objects[o].owner == step.thread
  {
  }

  lemma StepKeepsInv(s: State, step: Step)
    requires Inv(s) && Enabled(s, step)
    ensures Inv(Next(s, step))
  {
    var s' := Next(s, step);
    OwnersStay(s, step);
    forall p | 0 <= p < |s.pools|
      ensures ListsAgree(s', p) && LockAgrees(s', p) && CounterAgrees(s', p) && s'.pools[p].total == |OwnedBy(s', p)|
    {
      StepKeepsLists(s, step, p);
      StepKeepsLock(s, step, p);
      StepKeepsCounter(s, step, p);
      StepKeepsTotal(s, step, p);
    }
    forall u | 0 <= u < |s.phases|
      ensures ThreadAgrees(s', u)
    {
      if u == step.thread {
        StepKeepsOwn(s, step);
      } else {
        StepKeepsOther(s, step, u);
      }
    }
  }

  // ---------------------------------------------------------------------------
  // Whole runs
  // ---------------------------------------------------------------------------

  predicate Initial(s: State) {
    && |s.phases| == |s.pools| && s.objects == []
    && (forall t :: 0 <= t < |s.phases| ==> s.phases[t] == Idle)
    && (forall p :: 0 <= p < |s.pools| ==> s.pools[p] == Pool([], [], 0, 0, None))
  }

  predicate StepAt(ss: seq<State>, steps: seq<Step>, i: nat)
    requires i < |steps| && |ss| == |steps| + 1
  {
    Enabled(ss[i], steps[i]) && ss[i + 1] == Next(ss[i], steps[i])
  }

  predicate IsRun(ss: seq<State>, steps: seq<Step>) {
    |ss| == |steps| + 1 && Initial(ss[0]) && forall i :: 0 <= i < |steps| ==> StepAt(ss, steps, i)
  }

  lemma InitialInv(s: State)
    requires Initial(s)
    ensures Inv(s)
  {
    assert forall p :: 0 <= p < |s.pools| ==> OwnedBy(s, p) == {};
  }

  lemma {:induction false} RunKeepsInv(ss: seq<State>, steps: seq<Step>, i: nat)
    requires IsRun(ss, steps) && i < |ss|
    ensures Inv(ss[i])
  {
    if i == 0 {
      InitialInv(ss[0]);
    } else {
      RunKeepsInv(ss, steps, i - 1);
      assert StepAt(ss, steps, i - 1);
      StepKeepsInv(ss[i - 1], steps[i - 1]);
    }
  }

  /** Each object is in the local list of its owner, in its remote list, or out, and in no list twice. */
  lemma ObjectsArePartitioned(ss: seq<State>, steps: seq<Step>, i: nat, p: nat, o: nat)
    requires IsRun(ss, steps) && i < |ss| && p < |ss[i].pools| && o < |ss[i].objects|
    ensures var pool, own := ss[i].pools[p], ss[i].objects[o].owner == p;
      && (o in pool.local <==> own && ss[i].objects[o].location == Local)
      && (o in pool.remote <==> own && ss[i].objects[o].location == Remote)
      && Distinct(pool.local) && Distinct(pool.remote)
  {
    RunKeepsInv(ss, steps, i);
    assert ListsAgree(ss[i], p);
  }

  /** The counter of remote returns is exact whenever nobody has the lock. */
  lemma CounterIsRemoteLength(ss: seq<State>, steps: seq<Step>, i: nat, p: nat)
    requires IsRun(ss, steps) && i < |ss| && p < |ss[i].pools| && ss[i].pools[p].lock == None
    ensures ss[i].pools[p].counter == |ss[i].pools[p].remote|
  {
    RunKeepsInv(ss, steps, i);
    assert CounterAgrees(ss[i], p);
  }

  function GetMissing(pool: Pool): int {
    pool.total - |pool.local| - |pool.remote|
  }

  lemma MissingSize(s: State, p: nat)
    requires p < |s.pools| && ListsAgree(s, p)
    ensures |OwnedBy(s, p)| == |s.pools[p].local| + |s.pools[p].remote| + |MissingOf(s, p)|
  {
    var local, remote := Elements(s.pools[p].local), Elements(s.pools[p].remote);
    ListSize(s.pools[p].local);
    ListSize(s.pools[p].remote);
    assert local !! remote && (local + remote) !! MissingOf(s, p);
    assert OwnedBy(s, p) == local + remote + MissingOf(s, p);
  }

  /** What the leak check at the end counts is what the program, or a thread that is returning it, still has. */
  lemma MissingIsOutstanding(ss: seq<State>, steps: seq<Step>, i: nat, p: nat)
    requires IsRun(ss, steps) && i < |ss| && p < |ss[i].pools|
    ensures GetMissing(ss[i].pools[p]) == |MissingOf(ss[i], p)|
  {
    RunKeepsInv(ss, steps, i);
    MissingSize(ss[i], p);
  }

  /** No other thread touches a thread's local list. */
  lemma OthersKeepLocal(s: State, step: Step, t: nat)
    requires Enabled(s, step) && t < |s.pools| && step.thread != t
    ensures Next(s, step).pools[t].local == s.pools[t].local
  {
  }

  lemma {:induction false} ReturnedIsLast(ss: seq<State>, steps: seq<Step>, a: nat, b: nat, t: nat, o: nat)
    requires IsRun(ss, steps) && a < b < |ss| && steps[a] == ReturnOwn(t, o)
    requires forall j :: a < j < b ==> steps[j].thread != t
    ensures t < |ss[b].pools| && ss[b].pools[t].local != []
    ensures ss[b].pools[t].local[|ss[b].pools[t].local| - 1] == o
  {
    assert StepAt(ss, steps, b - 1);
    if a + 1 < b {
      ReturnedIsLast(ss, steps, a, b - 1, t, o);
      OthersKeepLocal(ss[b - 1], steps[b - 1], t);
    }
  }

  /** A thread that returns an object of its own and then takes one gets that very object, whatever others do. */
  lemma LastReturnedIsTaken(ss: seq<State>, steps: seq<Step>, a: nat, b: nat, t: nat, o: nat)
    requires IsRun(ss, steps) && a < b < |steps| && steps[a] == ReturnOwn(t, o) && steps[b] == Take(t)
    requires forall j :: a < j < b ==> steps[j].thread != t
    ensures o < |ss[b].objects| == |ss[b + 1].objects|
    ensures ss[b].objects[o].location == Local && ss[b + 1].objects[o].location == Out
    ensures forall p :: 0 <= p < |ss[b].objects| && p != o ==> ss[b + 1].objects[p] == ss[b].objects[p]
  {
    ReturnedIsLast(ss, steps, a, b, t, o);
    assert StepAt(ss, steps, b);
    RunKeepsInv(ss, steps, b);
    assert ListsAgree(ss[b], t);
    assert o in ss[b].pools[t].local;
  }

  /**
   What getData hands out is an object of the thread's own pool that nobody has; a thread that
   has filled its local list always finds one there.
   */
  lemma HandsOutOwnFreeObject(ss: seq<State>, steps: seq<Step>, i: nat)
    requires IsRun(ss, steps) && i < |steps| && steps[i].Take?
    ensures StepAt(ss, steps, i)
    ensures var t, local := steps[i].thread, ss[i].pools[steps[i].thread].local; var o := local[|local| - 1];
      ss[i].objects[o] == Object(t, Local) && ss[i + 1].objects[o] == Object(t, Out)
  {
    RunKeepsInv(ss, steps, i);
    assert StepAt(ss, steps, i);
    var t := steps[i].thread;
    assert ListsAgree(ss[i], t);
    assert ss[i].pools[t].local[|ss[i].pools[t].local| - 1] in ss[i].pools[t].local;
  }

  lemma FilledCanTake(ss: seq<State>, steps: seq<Step>, i: nat, t: nat)
    requires IsRun(ss, steps) && i < |ss| && t < |ss[i].phases| && ss[i].phases[t] == Filled
    ensures Enabled(ss[i], Take(t))
  {
    RunKeepsInv(ss, steps, i);
    assert ThreadAgrees(ss[i], t) && ListsAgree(ss[i], t);
    assert ss[i].pools[t].local[|ss[i].pools[t].local| - 1] in ss[i].pools[t].local;
  }
}
