/**
 Explicit tasks, taskwait, taskgroup and dependences (src/ompt-critical.cpp), for one merged
 clock.  Threads have an effective value that never falls; sync objects hold raw values, which
 count from the epoch when the clock runs in the OpenMP state and are absolute otherwise.
 Objects come from pools, so a new object may hold any old value.
 */
module Tasks {
  import opened Options
  import opened Cells

  // ---------------------------------------------------------------------------
  // Dependences
  // ---------------------------------------------------------------------------

  datatype Kind = In | Out | Inout | Mutexinoutset | Inoutset

  datatype Dep = Dep(variable: nat, kind: Kind)

  datatype DepCells = DepCells(ins: Cell, outs: Cell, inoutsets: Cell)

  /** The object a completing task writes for a dependence. */
  function Target(c: DepCells, kind: Kind): Cell {
    match kind
    case In => c.ins
    case Inoutset => c.inoutsets
    case _ => c.outs
  }

  /** AnnotateBegin */
  function AcquireOne(c: DepCells, kind: Kind, raw: real): (real, DepCells) {
    match kind
    case In => (c.inoutsets.Get(c.outs.Get(raw)), c.(outs := c.outs.Touch(), inoutsets := c.inoutsets.Touch()))
    case Inoutset => (c.outs.Get(c.ins.Get(raw)), c.(ins := c.ins.Touch(), outs := c.outs.Touch()))
    case _ =>
      (c.inoutsets.Get(c.outs.Get(c.ins.Get(raw))), DepCells(c.ins.Touch(), c.outs.Touch(), c.inoutsets.Touch()))
  }

  /** AnnotateEnd */
  function ReleaseOne(c: DepCells, kind: Kind, raw: real): DepCells {
    match kind
    case In => c.(ins := c.ins.Put(raw))
    case Inoutset => c.(inoutsets := c.inoutsets.Put(raw))
    case _ => c.(outs := c.outs.Put(raw))
  }

  /** The objects of the dependence variables of each parent task. */
  type DepMap = map<(nat, nat), DepCells>

  predicate Known(m: DepMap, p: nat, deps: seq<Dep>) {
    forall i :: 0 <= i < |deps| ==> (p, deps[i].variable) in m
  }

  function AcquireAll(m: DepMap, p: nat, deps: seq<Dep>, raw: real): (r: (real, DepMap))
    requires Known(m, p, deps)
    ensures r.1.Keys == m.Keys
  {
    if deps == [] then (raw, m)
    else
      var n := |deps| - 1;
      var (raw', m') := AcquireAll(m, p, deps[..n], raw);
      var key := (p, deps[n].variable);
      var (raw'', c) := AcquireOne(m'[key], deps[n].kind, raw');
      (raw'', m'[key := c])
  }

  function ReleaseAll(m: DepMap, p: nat, deps: seq<Dep>, raw: real): (r: DepMap)
    requires Known(m, p, deps)
    ensures r.Keys == m.Keys
  {
    if deps == [] then m
    else
      var n := |deps| - 1;
      var m' := ReleaseAll(m, p, deps[..n], raw);
      var key := (p, deps[n].variable);
      m'[key := ReleaseOne(m'[key], deps[n].kind, raw)]
  }

  method AcquireDependencies(m: DepMap, p: nat, deps: seq<Dep>, raw: real) returns (raw': real, m': DepMap)
    requires Known(m, p, deps)
    ensures (raw', m') == AcquireAll(m, p, deps, raw)
  {
    raw', m' := raw, m;
    for i := 0 to |deps|
      invariant (raw', m') == AcquireAll(m, p, deps[..i], raw)
    {
      assert deps[..i + 1][..i] == deps[..i];
      var key := (p, deps[i].variable);
      var (r, c) := AcquireOne(m'[key], deps[i].kind, raw');
      raw', m' := r, m'[key := c];
    }
    assert deps[..|deps|] == deps;
  }

  method ReleaseDependencies(m: DepMap, p: nat, deps: seq<Dep>, raw: real) returns (m': DepMap)
    requires Known(m, p, deps)
    ensures m' == ReleaseAll(m, p, deps, raw)
  {
    m' := m;
    for i := 0 to |deps|
      invariant m' == ReleaseAll(m, p, deps[..i], raw)
    {
      assert deps[..i + 1][..i] == deps[..i];
      var key := (p, deps[i].variable);
      m' := m'[key := ReleaseOne(m'[key], deps[i].kind, raw)];
    }
    assert deps[..|deps|] == deps;
  }

  /** An object in use stays in use and never holds less. */
  predicate Grown(c: Cell, c': Cell) {
    !c.unused ==> !c'.unused && c.raw <= c'.raw
  }

  predicate GrownDeps(c: DepCells, c': DepCells) {
    Grown(c.ins, c'.ins) && Grown(c.outs, c'.outs) && Grown(c.inoutsets, c'.inoutsets)
  }

  predicate GrownMap(m: DepMap, m': DepMap) {
    m.Keys <= m'.Keys && forall key :: key in m ==> GrownDeps(m[key], m'[key])
  }

  lemma AcquireOneGrows(c: DepCells, kind: Kind, raw: real)
    ensures GrownDeps(c, AcquireOne(c, kind, raw).1)
    ensures raw <= AcquireOne(c, kind, raw).0
  {
  }

  lemma {:induction false} AcquireGrows(m: DepMap, p: nat, deps: seq<Dep>, raw: real)
    requires Known(m, p, deps)
    ensures GrownMap(m, AcquireAll(m, p, deps, raw).1)
    ensures raw <= AcquireAll(m, p, deps, raw).0
  {
    if deps != [] {
      var n := |deps| - 1;
      AcquireGrows(m, p, deps[..n], raw);
      var (raw', m') := AcquireAll(m, p, deps[..n], raw);
      AcquireOneGrows(m'[(p, deps[n].variable)], deps[n].kind, raw');
    }
  }

  lemma {:induction false} ReleaseGrows(m: DepMap, p: nat, deps: seq<Dep>, raw: real)
    requires Known(m, p, deps)
    ensures GrownMap(m, ReleaseAll(m, p, deps, raw))
  {
    if deps != [] {
      ReleaseGrows(m, p, deps[..|deps| - 1], raw);
    }
  }

  /** After the release every dependence of the task holds at least its clock. */
  lemma {:induction false} ReleaseHolds(m: DepMap, p: nat, deps: seq<Dep>, raw: real, i: nat)
    requires Known(m, p, deps) && i < |deps|
    ensures var c := Target(ReleaseAll(m, p, deps, raw)[(p, deps[i].variable)], deps[i].kind);
      !c.unused && raw <= c.raw
  {
    var n := |deps| - 1;
    if i < n {
      ReleaseHolds(m, p, deps[..n], raw, i);
    }
  }

  /** Two dependences on one variable synchronise unless both are `in` or both are `inoutset`. */
  predicate Synchronise(a: Kind, b: Kind) {
    !(a == In && b == In) && !(a == Inoutset && b == Inoutset)
  }

  lemma AcquireOneTakes(c: DepCells, a: Kind, b: Kind, raw: real)
    requires Synchronise(a, b)
    ensures Target(c, a).raw <= AcquireOne(c, b, raw).0
  {
  }

  /** A dependence reads exactly the objects of the kinds it synchronises with, and writes no value. */
  lemma AcquireOneExactly(c: DepCells, kind: Kind, raw: real)
    ensures var (r, c') := AcquireOne(c, kind, raw);
      && raw <= r && (forall a: Kind :: Synchronise(a, kind) ==> Target(c, a).raw <= r)
      && (r == raw || exists a: Kind :: Synchronise(a, kind) && r == Target(c, a).raw)
      && forall a: Kind :: Target(c', a) == if Synchronise(a, kind) then Target(c, a).Touch() else Target(c, a)
  {
    var (r, c') := AcquireOne(c, kind, raw);
    assert Synchronise(Out, kind);
    if r == c.ins.raw && kind != In {
      assert Synchronise(In, kind) && Target(c, In) == c.ins;
    }
    if r == c.inoutsets.raw && kind != Inoutset {
      assert Synchronise(Inoutset, kind) && Target(c, Inoutset) == c.inoutsets;
    }
    assert Target(c, Out) == c.outs;
  }

  /** `value` is in an object that dependence `d` synchronises with. */
  ghost predicate OfferedBy(m: DepMap, p: nat, d: Dep, value: real)
    requires (p, d.variable) in m
  {
    exists a: Kind :: Synchronise(a, d.kind) && value == Target(m[(p, d.variable)], a).raw
  }

  ghost predicate Offered(m: DepMap, p: nat, deps: seq<Dep>, value: real)
    requires Known(m, p, deps)
  {
    exists i :: 0 <= i < |deps| && OfferedBy(m, p, deps[i], value)
  }

  predicate SameValues(c: DepCells, c': DepCells) {
    c.ins.raw == c'.ins.raw && c.outs.raw == c'.outs.raw && c.inoutsets.raw == c'.inoutsets.raw
  }

  lemma {:induction false} AcquireKeepsValues(m: DepMap, p: nat, deps: seq<Dep>, raw: real)
    requires Known(m, p, deps)
    ensures forall key :: key in m ==> SameValues(m[key], AcquireAll(m, p, deps, raw).1[key])
  {
    if deps != [] {
      AcquireKeepsValues(m, p, deps[..|deps| - 1], raw);
    }
  }

  /** The loop over the dependences takes nothing but the own value and those offered. */
  lemma {:induction false} AcquireTakesOnly(m: DepMap, p: nat, deps: seq<Dep>, raw: real)
    requires Known(m, p, deps)
    ensures AcquireAll(m, p, deps, raw).0 == raw || Offered(m, p, deps, AcquireAll(m, p, deps, raw).0)
  {
    if deps != [] {
      var n := |deps| - 1;
      AcquireTakesOnly(m, p, deps[..n], raw);
      AcquireKeepsValues(m, p, deps[..n], raw);
      var (raw', m') := AcquireAll(m, p, deps[..n], raw);
      var key, r := (p, deps[n].variable), AcquireAll(m, p, deps, raw).0;
      AcquireOneExactly(m'[key], deps[n].kind, raw');
      assert SameValues(m[key], m'[key]);
      if r != raw' {
        assert OfferedBy(m, p, deps[n], r);
      } else if r != raw {
        var i :| 0 <= i < n && OfferedBy(m, p, deps[..n][i], r);
        assert OfferedBy(m, p, deps[i], r);
      }
    }
  }

  /** The kinds that share an object. */
  predicate SameObject(a: Kind, b: Kind) {
    (a == In <==> b == In) && (a == Inoutset <==> b == Inoutset)
  }

  /** The loop over the dependences writes the task's clock into their own objects, and nothing else. */
  lemma {:induction false} ReleaseWritesOnly(m: DepMap, p: nat, deps: seq<Dep>, raw: real, key: (nat, nat), kind: Kind)
    requires Known(m, p, deps) && key in m
    ensures var c, c' := Target(m[key], kind), Target(ReleaseAll(m, p, deps, raw)[key], kind);
      c' == if exists i :: 0 <= i < |deps| && key == (p, deps[i].variable) && SameObject(deps[i].kind, kind)
            then c.Put(raw) else c
  {
    if deps != [] {
      var n := |deps| - 1;
      ReleaseWritesOnly(m, p, deps[..n], raw, key, kind);
      assert forall i :: 0 <= i < n ==> deps[..n][i] == deps[i];
    }
  }

  /** Acquiring a dependence takes in what any synchronising dependence on the variable released. */
  lemma {:induction false} AcquireTakes(m: DepMap, p: nat, deps: seq<Dep>, raw: real, i: nat, kind: Kind)
    requires Known(m, p, deps) && i < |deps| && Synchronise(kind, deps[i].kind)
    requires !Target(m[(p, deps[i].variable)], kind).unused
    ensures Target(m[(p, deps[i].variable)], kind).raw <= AcquireAll(m, p, deps, raw).0
  {
    var n, key := |deps| - 1, (p, deps[i].variable);
    var (raw', m') := AcquireAll(m, p, deps[..n], raw);
    if i < n {
      AcquireTakes(m, p, deps[..n], raw, i, kind);
      AcquireOneGrows(m'[(p, deps[n].variable)], deps[n].kind, raw');
    } else {
      AcquireGrows(m, p, deps[..n], raw);
      assert GrownDeps(m[key], m'[key]);
      AcquireOneTakes(m'[key], kind, deps[i].kind, raw');
    }
  }

  // ---------------------------------------------------------------------------
  // Tasks and groups
  // ---------------------------------------------------------------------------

  datatype Status = Created | Running | Done

  datatype Task = Task(
    parent: Option<nat>,   // none for an implicit task
    deferred: bool,
    born: Option<nat>,     // the taskgroup it was created in
    group: Option<nat>,    // its current taskgroup
    deps: seq<Dep>,
    thread: nat,
    status: Status,
    execution: nat,
    task: Cell,
    taskwait: Cell,
    done: real)            // effective value at completion; not kept by the code

  datatype Group = Group(parent: Option<nat>, owner: nat, open: bool, cell: Cell)

  /** `ticking` tells whether the clock runs in the OpenMP state, in which all arcs happen. */
  datatype World = World(
    ticking: bool,
    now: real,
    eff: seq<real>,
    tasks: seq<Task>,
    groups: seq<Group>,
    deps: DepMap)

  function Offset(w: World): real {
    if w.ticking then w.now else 0.0
  }

  function Raw(w: World, t: nat): real
    requires t < |w.eff|
  {
    w.eff[t] - Offset(w)
  }

  /** OmpHAfter by thread `t`. */
  function Gotten(w: World, t: nat, c: Cell): seq<real>
    requires t < |w.eff|
  {
    w.eff[t := c.Get(Raw(w, t)) + Offset(w)]
  }

  predicate GroupsOrdered(groups: seq<Group>) {
    forall g :: 0 <= g < |groups| && groups[g].parent.Some? ==> groups[g].parent.value < g
  }

  predicate ValidGroup(groups: seq<Group>, h: Option<nat>) {
    h.None? || h.value < |groups|
  }

  /** Group `g` is `h` or encloses it. */
  predicate Within(groups: seq<Group>, g: nat, h: Option<nat>)
    requires GroupsOrdered(groups) && ValidGroup(groups, h)
    decreases if h.None? then 0 else h.value + 1
  {
    h.Some? && (h.value == g || Within(groups, g, groups[h.value].parent))
  }

  predicate Shaped(w: World) {
    && GroupsOrdered(w.groups)
    && (forall k :: 0 <= k < |w.tasks| ==> TaskShaped(w, w.tasks[k], k))
    && (forall g :: 0 <= g < |w.groups| ==> w.groups[g].owner < |w.tasks|)
  }

  predicate TaskShaped(w: World, t: Task, k: nat) {
    && t.thread < |w.eff|
    && (t.parent.Some? ==> t.parent.value < k)
    && ValidGroup(w.groups, t.born) && ValidGroup(w.groups, t.group)
    && (t.parent.Some? ==> Known(w.deps, t.parent.value, t.deps))
    && (t.parent.None? ==> t.status == Running && t.born.None?)
  }

  /** A task that can act: it runs, and no undeferred child of it is unfinished. */
  predicate CanAct(w: World, p: nat) {
    && p < |w.tasks| && w.tasks[p].status == Running
    && forall k :: 0 <= k < |w.tasks| && w.tasks[k].parent == Some(p) && !w.tasks[k].deferred ==>
         w.tasks[k].status == Done
  }

  /** Dependence `b` makes its task wait for an earlier sibling with dependence `a` (section 2.19.11 of OpenMP 5.1). */
  predicate MustWait(a: Kind, b: Kind) {
    Synchronise(a, b) && !(a == Mutexinoutset && b == Mutexinoutset)
  }

  /** Dependence `a` of task `j` and one of `deps` are on the same variable and may not overlap. */
  predicate Conflict(w: World, j: nat, a: nat, deps: seq<Dep>, b: nat)
    requires j < |w.tasks|
  {
    && a < |w.tasks[j].deps| && b < |deps| && w.tasks[j].deps[a].variable == deps[b].variable
    && Synchronise(w.tasks[j].deps[a].kind, deps[b].kind)
  }

  /** A taskwait with dependences waits for every child that a task with these dependences would wait for. */
  predicate AllAwaited(w: World, p: nat, deps: seq<Dep>) {
    forall j: nat, a: nat, b: nat ::
      && j < |w.tasks| && w.tasks[j].parent == Some(p) && a < |w.tasks[j].deps| && b < |deps|
      && Awaits(w, j, a, deps, b)
      ==> w.tasks[j].status == Done
  }

  predicate Awaits(w: World, j: nat, a: nat, deps: seq<Dep>, b: nat)
    requires j < |w.tasks|
  {
    Conflict(w, j, a, deps, b) && MustWait(w.tasks[j].deps[a].kind, deps[b].kind)
  }

  /** Task `j` is a predecessor of its later sibling `k`. */
  predicate Predecessor(w: World, j: nat, k: nat)
    requires j < |w.tasks| && k < |w.tasks|
  {
    && j < k && w.tasks[j].parent == w.tasks[k].parent
    && exists a, b :: 0 <= a < |w.tasks[j].deps| && 0 <= b < |w.tasks[k].deps|
         && w.tasks[j].deps[a].variable == w.tasks[k].deps[b].variable
         && MustWait(w.tasks[j].deps[a].kind, w.tasks[k].deps[b].kind)
  }

  /** Task `k` was created inside the region of group `g`, directly or by a descendant. */
  predicate Member(w: World, g: nat, k: nat)
    requires Shaped(w) && k < |w.tasks|
  {
    assert TaskShaped(w, w.tasks[k], k);
    Within(w.groups, g, w.tasks[k].born)
  }

  datatype Step =
    | Tick(now: real, eff: seq<real>)
    | Create(p: nat, deferred: bool, vars: seq<Dep>, task: Cell, taskwait: Cell, pool: DepMap)
    | Start(k: nat, thread: nat)
    | Complete(k: nat)
    | Taskwait(p: nat)
    | TaskwaitOn(p: nat, vars: seq<Dep>, pool: DepMap)   // taskwait with dependences
    | GroupBegin(p: nat, cell: Cell)
    | GroupEnd(p: nat)

  /** What the OpenMP runtime guarantees when it issues a callback. */
  predicate Enabled(w: World, s: Step)
    requires Shaped(w)
  {
    match s
    case Tick(now, eff) =>
      w.now <= now && |eff| == |w.eff| && forall t :: 0 <= t < |eff| ==> w.eff[t] <= eff[t]
    case Create(p, _, vars, _, _, pool) => CanAct(w, p) && Known(pool + w.deps, p, vars)
    case Start(k, thread) =>
      && k < |w.tasks| && w.tasks[k].status == Created && w.tasks[k].parent.Some? && thread < |w.eff|
      && (!w.tasks[k].deferred ==> w.tasks[k].parent.value < k && thread == w.tasks[w.tasks[k].parent.value].thread)
      && forall j :: 0 <= j < |w.tasks| && Predecessor(w, j, k) ==> w.tasks[j].status == Done
    case Complete(k) => CanAct(w, k) && w.tasks[k].parent.Some? && w.tasks[k].group == w.tasks[k].born
    case Taskwait(p) =>
      CanAct(w, p) && forall k :: 0 <= k < |w.tasks| && w.tasks[k].parent == Some(p) ==> w.tasks[k].status == Done
    case TaskwaitOn(p, vars, pool) => CanAct(w, p) && Known(pool + w.deps, p, vars) && AllAwaited(w, p, vars)
    case GroupBegin(p, _) => CanAct(w, p)
    case GroupEnd(p) =>
      && CanAct(w, p) && w.tasks[p].group.Some? && w.tasks[p].group != w.tasks[p].born
      && forall k :: 0 <= k < |w.tasks| && Member(w, w.tasks[p].group.value, k) ==> w.tasks[k].status == Done
  }

  function Spawned(w: World, s: Step): World
    requires Shaped(w) && s.Create? && Enabled(w, s)
  {
    var parent := w.tasks[s.p];
    var raw := Raw(w, parent.thread);
    var cell := if s.deferred then s.task.Put(raw) else s.task;
    var cell' := if s.vars == [] then cell else cell.Put(raw);
    var child := Task(Some(s.p), s.deferred, parent.group, parent.group, s.vars, parent.thread, Created, 0,
                      cell', s.taskwait, 0.0);
    w.(tasks := w.tasks[s.p := parent.(execution := parent.execution + if s.deferred then 1 else 0)] + [child],
       deps := s.pool + w.deps)
  }

  function Started(w: World, k: nat, thread: nat): World
    requires Shaped(w) && Enabled(w, Start(k, thread))
  {
    var t := w.tasks[k];
    assert TaskShaped(w, t, k);
    var (raw, deps) := AcquireAll(w.deps, t.parent.value, t.deps, Raw(w, thread));
    w.(eff := w.eff[thread := t.task.Get(raw) + Offset(w)],
       tasks := w.tasks[k := t.(status := Running, thread := thread, execution := 1, task := t.task.Touch())],
       deps := deps)
  }

  /**
   completeTask: a deferred task writes its parent's taskwait clock and its taskgroup, an
   undeferred one its parent's task clock.
   */
  function Completed(w: World, k: nat): World
    requires Shaped(w) && Enabled(w, Complete(k))
  {
    var t := w.tasks[k];
    assert TaskShaped(w, t, k);
    var p := t.parent.value;
    var raw := Raw(w, t.thread);
    var parent := w.tasks[p];
    var parent' :=
      if t.deferred then parent.(taskwait := parent.taskwait.Put(raw)) else parent.(task := parent.task.Put(raw));
    w.(tasks := w.tasks[p := parent'][k := t.(status := Done, done := w.eff[t.thread])],
       groups :=
         if t.deferred && t.group.Some?
         then w.groups[t.group.value := w.groups[t.group.value].(cell := w.groups[t.group.value].cell.Put(raw))]
         else w.groups,
       deps := ReleaseAll(w.deps, p, t.deps, raw))
  }

  /** End of a taskwait region. */
  function Waited(w: World, p: nat): World
    requires Shaped(w) && Enabled(w, Taskwait(p))
  {
    var t := w.tasks[p];
    assert TaskShaped(w, t, p);
    if t.execution > 1 then
      w.(eff := Gotten(w, t.thread, t.taskwait), tasks := w.tasks[p := t.(taskwait := t.taskwait.Touch())])
    else w
  }

  /** End of a taskwait with dependences. */
  function Awaited(w: World, s: Step): World
    requires Shaped(w) && s.TaskwaitOn? && Enabled(w, s)
  {
    var thread := w.tasks[s.p].thread;
    assert TaskShaped(w, w.tasks[s.p], s.p);
    var (raw, deps) := AcquireAll(s.pool + w.deps, s.p, s.vars, Raw(w, thread));
    w.(eff := w.eff[thread := raw + Offset(w)], deps := deps)
  }

  function Opened(w: World, p: nat, cell: Cell): World
    requires Shaped(w) && Enabled(w, GroupBegin(p, cell))
  {
    w.(tasks := w.tasks[p := w.tasks[p].(group := Some(|w.groups|))],
       groups := w.groups + [Group(w.tasks[p].group, p, true, cell)])
  }

  function Closed(w: World, p: nat): World
    requires Shaped(w) && Enabled(w, GroupEnd(p))
  {
    var t := w.tasks[p];
    assert TaskShaped(w, t, p);
    var g := t.group.value;
    w.(eff := Gotten(w, t.thread, w.groups[g].cell),
       tasks := w.tasks[p := t.(group := w.groups[g].parent)],
       groups := w.groups[g := w.groups[g].(open := false, cell := w.groups[g].cell.Touch())])
  }

  function Next(w: World, s: Step): World
    requires Shaped(w) && Enabled(w, s)
  {
    match s
    case Tick(now, eff) => w.(now := now, eff := eff)
    case Create(_, _, _, _, _, _) => Spawned(w, s)
    case Start(k, thread) => Started(w, k, thread)
    case Complete(k) => Completed(w, k)
    case Taskwait(p) => Waited(w, p)
    case TaskwaitOn(_, _, _) => Awaited(w, s)
    case GroupBegin(p, cell) => Opened(w, p, cell)
    case GroupEnd(p) => Closed(w, p)
  }
}
