/**
 What every callback keeps of the clocks of completed tasks, so that a thread that leaves a taskwait
 or a taskgroup, or that starts a task with dependences, finds them.
 */
module TaskOrder {
  import opened Options
  import opened Cells
  import opened Tasks

  // ---------------------------------------------------------------------------
  // What no step ever takes back
  // ---------------------------------------------------------------------------

  /** Object `c` delivers at least the effective value `v` to whoever reads it from now on. */
  predicate Holds(w: World, c: Cell, v: real) {
    !c.unused && v <= c.raw + Offset(w)
  }

  predicate SameTask(t: Task, t': Task) {
    && t.parent == t'.parent && t.deferred == t'.deferred && t.born == t'.born && t.deps == t'.deps
    && (t.status == Done ==> t'.status == Done && t.done == t'.done)
    && (t.status != Created ==> t'.status != Created && t.thread == t'.thread && t.execution <= t'.execution)
    && Grown(t.taskwait, t'.taskwait) && Grown(t.task, t'.task)
  }

  predicate SameGroup(g: Group, g': Group) {
    g.parent == g'.parent && g.owner == g'.owner && Grown(g.cell, g'.cell)
  }

  predicate Later(w: World, w': World) {
    && Offset(w) <= Offset(w')
    && |w.eff| == |w'.eff| && (forall t :: 0 <= t < |w.eff| ==> w.eff[t] <= w'.eff[t])
    && |w.tasks| <= |w'.tasks| && (forall k :: 0 <= k < |w.tasks| ==> SameTask(w.tasks[k], w'.tasks[k]))
    && |w.groups| <= |w'.groups| && (forall g :: 0 <= g < |w.groups| ==> SameGroup(w.groups[g], w'.groups[g]))
    && GrownMap(w.deps, w'.deps)
  }

  lemma HoldsLater(w: World, w': World, c: Cell, c': Cell, v: real)
    requires Holds(w, c, v) && Grown(c, c') && Offset(w) <= Offset(w')
    ensures Holds(w', c', v)
  {
  }

  lemma CreateIsLater(w: World, s: Step)
    requires Shaped(w) && Enabled(w, s) && s.Create?
    ensures Later(w, Spawned(w, s)) && Shaped(Spawned(w, s))
  {
    var w' := Spawned(w, s);
    assert TaskShaped(w, w.tasks[s.p], s.p);
    forall k | 0 <= k < |w'.tasks| ensures TaskShaped(w', w'.tasks[k], k) {
      if k < |w.tasks| { assert TaskShaped(w, w.tasks[k], k); }
    }
  }

  lemma StartIsLater(w: World, k: nat, thread: nat)
    requires Shaped(w) && Enabled(w, Start(k, thread))
    ensures Later(w, Started(w, k, thread)) && Shaped(Started(w, k, thread))
  {
    var w' := Started(w, k, thread);
    assert TaskShaped(w, w.tasks[k], k);
    AcquireGrows(w.deps, w.tasks[k].parent.value, w.tasks[k].deps, Raw(w, thread));
    forall j | 0 <= j < |w'.tasks| ensures TaskShaped(w', w'.tasks[j], j) {
      assert TaskShaped(w, w.tasks[j], j);
    }
  }

  lemma CompleteOnlyGrows(w: World, k: nat)
    requires Shaped(w) && Enabled(w, Complete(k))
    ensures Later(w, Completed(w, k))
  {
    assert TaskShaped(w, w.tasks[k], k);
    ReleaseGrows(w.deps, w.tasks[k].parent.value, w.tasks[k].deps, Raw(w, w.tasks[k].thread));
  }

  lemma CompleteIsLater(w: World, k: nat)
    requires Shaped(w) && Enabled(w, Complete(k))
    ensures Later(w, Completed(w, k)) && Shaped(Completed(w, k))
  {
    CompleteOnlyGrows(w, k);
    var w' := Completed(w, k);
    forall j | 0 <= j < |w'.tasks| ensures TaskShaped(w', w'.tasks[j], j) {
      assert TaskShaped(w, w.tasks[j], j);
    }
  }

  lemma WaitIsLater(w: World, p: nat)
    requires Shaped(w) && Enabled(w, Taskwait(p))
    ensures Later(w, Waited(w, p)) && Shaped(Waited(w, p))
  {
    var w' := Waited(w, p);
    assert TaskShaped(w, w.tasks[p], p);
    forall k | 0 <= k < |w'.tasks| ensures TaskShaped(w', w'.tasks[k], k) {
      assert TaskShaped(w, w.tasks[k], k);
    }
  }

  lemma AwaitIsLater(w: World, s: Step)
    requires Shaped(w) && Enabled(w, s) && s.TaskwaitOn?
    ensures Later(w, Awaited(w, s)) && Shaped(Awaited(w, s))
  {
    var w' := Awaited(w, s);
    assert TaskShaped(w, w.tasks[s.p], s.p);
    AcquireGrows(s.pool + w.deps, s.p, s.vars, Raw(w, w.tasks[s.p].thread));
    forall key | key in w.deps
      ensures key in w'.deps && GrownDeps(w.deps[key], w'.deps[key])
    {
      assert (s.pool + w.deps)[key] == w.deps[key];
    }
    forall k | 0 <= k < |w'.tasks| ensures TaskShaped(w', w'.tasks[k], k) {
      assert TaskShaped(w, w.tasks[k], k);
    }
  }

  lemma OpenIsLater(w: World, p: nat, cell: Cell)
    requires Shaped(w) && Enabled(w, GroupBegin(p, cell))
    ensures Later(w, Opened(w, p, cell)) && Shaped(Opened(w, p, cell))
  {
    var w' := Opened(w, p, cell);
    assert TaskShaped(w, w.tasks[p], p);
    forall k | 0 <= k < |w'.tasks| ensures TaskShaped(w', w'.tasks[k], k) {
      assert TaskShaped(w, w.tasks[k], k);
    }
  }

  lemma CloseIsLater(w: World, p: nat)
    requires Shaped(w) && Enabled(w, GroupEnd(p))
    ensures Later(w, Closed(w, p)) && Shaped(Closed(w, p))
  {
    var w' := Closed(w, p);
    assert TaskShaped(w, w.tasks[p], p);
    forall k | 0 <= k < |w'.tasks| ensures TaskShaped(w', w'.tasks[k], k) {
      assert TaskShaped(w, w.tasks[k], k);
    }
  }

  lemma StepIsLater(w: World, s: Step)
    requires Shaped(w) && Enabled(w, s)
    ensures Later(w, Next(w, s)) && Shaped(Next(w, s))
  {
    match s
    case Tick(now, eff) =>
      var w' := Next(w, s);
      forall k | 0 <= k < |w'.tasks| ensures TaskShaped(w', w'.tasks[k], k) {
        assert TaskShaped(w, w.tasks[k], k);
      }
    case Create(_, _, _, _, _, _) => CreateIsLater(w, s);
    case Start(k, thread) => StartIsLater(w, k, thread);
    case Complete(k) => CompleteIsLater(w, k);
    case Taskwait(p) => WaitIsLater(w, p);
    case TaskwaitOn(_, _, _) => AwaitIsLater(w, s);
    case GroupBegin(p, cell) => OpenIsLater(w, p, cell);
    case GroupEnd(p) => CloseIsLater(w, p);
  }

  // ---------------------------------------------------------------------------
  // Completed tasks, taskwait and dependences
  // ---------------------------------------------------------------------------

  /** Everything that hangs on one completed task: its thread, its parent's taskwait clock, its dependences. */
  predicate DoneKept(w: World, k: nat)
    requires Shaped(w) && k < |w.tasks|
  {
    var t := w.tasks[k];
    assert TaskShaped(w, t, k);
    t.status == Done ==>
      && t.done <= w.eff[t.thread]
      && t.parent.Some?
      && Holds(w, if t.deferred then w.tasks[t.parent.value].taskwait else w.tasks[t.parent.value].task, t.done)
      && forall i :: 0 <= i < |t.deps| ==>
           Holds(w, Target(w.deps[(t.parent.value, t.deps[i].variable)], t.deps[i].kind), t.done)
  }

  /** How a task relates to its parent. */
  predicate Related(w: World, k: nat)
    requires Shaped(w) && k < |w.tasks|
  {
    var t := w.tasks[k];
    assert TaskShaped(w, t, k);
    && (t.status == Created ==> t.group == t.born)
    && (t.status == Running ==> t.execution >= 1)
    && (t.parent.Some? ==>
          var p := w.tasks[t.parent.value];
          && p.status != Created
          && (t.deferred ==> p.execution >= 2)
          && (!t.deferred ==> t.thread == p.thread)
          && (!t.deferred && t.status != Done ==> p.status == Running && t.born == p.group))
  }

  lemma DoneKeptLater(w: World, w': World, k: nat)
    requires Shaped(w) && Shaped(w') && Later(w, w') && k < |w.tasks|
    requires w.tasks[k].status == Done && DoneKept(w, k)
    ensures DoneKept(w', k)
  {
    var t := w.tasks[k];
    assert TaskShaped(w, t, k) && SameTask(t, w'.tasks[k]) && TaskShaped(w', w'.tasks[k], k);
    var p := t.parent.value;
    assert SameTask(w.tasks[p], w'.tasks[p]);
    forall i | 0 <= i < |t.deps|
      ensures Holds(w', Target(w'.deps[(p, t.deps[i].variable)], t.deps[i].kind), t.done)
    {
      assert GrownDeps(w.deps[(p, t.deps[i].variable)], w'.deps[(p, t.deps[i].variable)]);
    }
  }

  lemma CompleteKeepsOwn(w: World, k: nat)
    requires Shaped(w) && Enabled(w, Complete(k))
    ensures Shaped(Completed(w, k)) && DoneKept(Completed(w, k), k)
  {
    CompleteIsLater(w, k);
    var t, w' := w.tasks[k], Completed(w, k);
    assert TaskShaped(w, t, k) && TaskShaped(w', w'.tasks[k], k);
    var p, raw := t.parent.value, Raw(w, t.thread);
    forall i | 0 <= i < |t.deps|
      ensures Holds(w', Target(w'.deps[(p, t.deps[i].variable)], t.deps[i].kind), w.eff[t.thread])
    {
      ReleaseHolds(w.deps, p, t.deps, raw, i);
    }
  }

  lemma OnlyCompletionEnds(w: World, s: Step, k: nat)
    requires Shaped(w) && Enabled(w, s) && k < |Next(w, s).tasks| && Next(w, s).tasks[k].status == Done
    ensures k < |w.tasks| && (s == Complete(k) || w.tasks[k].status == Done)
  {
  }

  lemma StepKeepsDone(w: World, s: Step, k: nat)
    requires Shaped(w) && Enabled(w, s) && k < |Next(w, s).tasks|
    requires forall j :: 0 <= j < |w.tasks| ==> DoneKept(w, j)
    ensures Shaped(Next(w, s)) && DoneKept(Next(w, s), k)
  {
    StepIsLater(w, s);
    var w' := Next(w, s);
    if w'.tasks[k].status == Done {
      OnlyCompletionEnds(w, s, k);
      if w.tasks[k].status == Done {
        DoneKeptLater(w, w', k);
      } else {
        CompleteKeepsOwn(w, k);
      }
    }
  }

  lemma CreateKeepsRelated(w: World, s: Step, k: nat)
    requires Shaped(w) && Enabled(w, s) && s.Create? && k <= |w.tasks|
    requires forall j :: 0 <= j < |w.tasks| ==> Related(w, j)
    ensures Shaped(Spawned(w, s)) && Related(Spawned(w, s), k)
  {
    CreateIsLater(w, s);
    assert Related(w, s.p) && TaskShaped(w, w.tasks[s.p], s.p);
    if k < |w.tasks| {
      assert Related(w, k) && TaskShaped(w, w.tasks[k], k);
    }
  }

  lemma StartKeepsRelated(w: World, j: nat, thread: nat, k: nat)
    requires Shaped(w) && Enabled(w, Start(j, thread)) && k < |w.tasks|
    requires forall j :: 0 <= j < |w.tasks| ==> Related(w, j)
    ensures Shaped(Started(w, j, thread)) && Related(Started(w, j, thread), k)
  {
    StartIsLater(w, j, thread);
    assert Related(w, k) && TaskShaped(w, w.tasks[k], k);
  }

  lemma CompleteKeepsRelated(w: World, j: nat, k: nat)
    requires Shaped(w) && Enabled(w, Complete(j)) && k < |w.tasks|
    requires forall j :: 0 <= j < |w.tasks| ==> Related(w, j)
    ensures Shaped(Completed(w, j)) && Related(Completed(w, j), k)
  {
    CompleteIsLater(w, j);
    assert Related(w, k) && TaskShaped(w, w.tasks[k], k) && TaskShaped(w, w.tasks[j], j);
  }

  lemma GroupStepKeepsRelated(w: World, s: Step, k: nat)
    requires Shaped(w) && Enabled(w, s) && (s.GroupBegin? || s.GroupEnd?) && k < |w.tasks|
    requires forall j :: 0 <= j < |w.tasks| ==> Related(w, j)
    ensures Shaped(Next(w, s)) && Related(Next(w, s), k)
  {
    StepIsLater(w, s);
    assert Related(w, k) && TaskShaped(w, w.tasks[k], k);
  }

  lemma QuietStepKeepsRelated(w: World, s: Step, k: nat)
    requires Shaped(w) && Enabled(w, s) && (s.Tick? || s.Taskwait? || s.TaskwaitOn?) && k < |w.tasks|
    requires forall j :: 0 <= j < |w.tasks| ==> Related(w, j)
    ensures Shaped(Next(w, s)) && Related(Next(w, s), k)
  {
    StepIsLater(w, s);
    assert Related(w, k) && TaskShaped(w, w.tasks[k], k);
  }

  lemma StepKeepsRelated(w: World, s: Step, k: nat)
    requires Shaped(w) && Enabled(w, s) && k < |Next(w, s).tasks|
    requires forall j :: 0 <= j < |w.tasks| ==> Related(w, j)
    ensures Shaped(Next(w, s)) && Related(Next(w, s), k)
  {
    match s
    case Create(_, _, _, _, _, _) => CreateKeepsRelated(w, s, k);
    case Start(j, thread) => StartKeepsRelated(w, j, thread, k);
    case Complete(j) => CompleteKeepsRelated(w, j, k);
    case GroupBegin(_, _) => GroupStepKeepsRelated(w, s, k);
    case GroupEnd(_) => GroupStepKeepsRelated(w, s, k);
    case _ => QuietStepKeepsRelated(w, s, k);
  }

  // ---------------------------------------------------------------------------
  // Taskgroups
  // ---------------------------------------------------------------------------

  /** From `h` down to `base`, all groups are open and belong to task `q`. */
  predicate OwnChain(groups: seq<Group>, q: nat, h: Option<nat>, base: Option<nat>)
    requires GroupsOrdered(groups) && ValidGroup(groups, h)
    decreases if h.None? then 0 else h.value + 1
  {
    h == base ||
    (h.Some? && groups[h.value].owner == q && groups[h.value].open && OwnChain(groups, q, groups[h.value].parent, base))
  }

  /** Group `g` is met on the way from `h` down to `base`, which itself does not count. */
  predicate InOwn(groups: seq<Group>, g: nat, h: Option<nat>, base: Option<nat>)
    requires GroupsOrdered(groups) && ValidGroup(groups, h)
    decreases if h.None? then 0 else h.value + 1
  {
    h != base && h.Some? && (h.value == g || InOwn(groups, g, groups[h.value].parent, base))
  }

  predicate SameParents(groups: seq<Group>, groups': seq<Group>) {
    |groups| <= |groups'| &&
    forall g :: 0 <= g < |groups| ==> groups[g].parent == groups'[g].parent && groups[g].owner == groups'[g].owner
  }

  lemma {:induction false} WithinFrame(groups: seq<Group>, groups': seq<Group>, g: nat, h: Option<nat>)
    requires GroupsOrdered(groups) && GroupsOrdered(groups') && ValidGroup(groups, h) && SameParents(groups, groups')
    ensures Within(groups, g, h) == Within(groups', g, h)
    decreases if h.None? then 0 else h.value + 1
  {
    if h.Some? {
      WithinFrame(groups, groups', g, groups[h.value].parent);
    }
  }

  lemma {:induction false} WithinLess(groups: seq<Group>, g: nat, h: Option<nat>)
    requires GroupsOrdered(groups) && ValidGroup(groups, h) && Within(groups, g, h)
    ensures h.Some? && g <= h.value
    decreases if h.None? then 0 else h.value + 1
  {
    if h.value != g {
      WithinLess(groups, g, groups[h.value].parent);
    }
  }

  lemma {:induction false} OwnChainFrame(groups: seq<Group>, groups': seq<Group>,
                                         q: nat, h: Option<nat>, base: Option<nat>)
    requires GroupsOrdered(groups) && GroupsOrdered(groups') && ValidGroup(groups, h) && SameParents(groups, groups')
    requires OwnChain(groups, q, h, base)
    requires forall g :: 0 <= g < |groups| && groups[g].owner == q && groups[g].open && h.Some? && g <= h.value ==>
      groups'[g].open
    ensures OwnChain(groups', q, h, base)
    decreases if h.None? then 0 else h.value + 1
  {
    if h != base {
      OwnChainFrame(groups, groups', q, groups[h.value].parent, base);
    }
  }

  lemma {:induction false} InOwnFrame(groups: seq<Group>, groups': seq<Group>,
                                      g: nat, h: Option<nat>, base: Option<nat>)
    requires GroupsOrdered(groups) && GroupsOrdered(groups') && ValidGroup(groups, h) && SameParents(groups, groups')
    ensures InOwn(groups, g, h, base) == InOwn(groups', g, h, base)
    decreases if h.None? then 0 else h.value + 1
  {
    if h.Some? {
      InOwnFrame(groups, groups', g, groups[h.value].parent, base);
    }
  }

  /** A group around `h` is around `base` already, or task `q` opened it. */
  lemma {:induction false} ChainSplit(groups: seq<Group>, q: nat, h: Option<nat>, base: Option<nat>, g: nat)
    requires GroupsOrdered(groups) && ValidGroup(groups, h) && ValidGroup(groups, base)
    requires OwnChain(groups, q, h, base) && Within(groups, g, h)
    ensures g < |groups|
    ensures Within(groups, g, base) || (groups[g].owner == q && groups[g].open)
    decreases if h.None? then 0 else h.value + 1
  {
    WithinLess(groups, g, h);
    if h != base && h.value != g {
      ChainSplit(groups, q, groups[h.value].parent, base, g);
    }
  }

  lemma {:induction false} ChainAt(groups: seq<Group>, q: nat, g: nat, h: Option<nat>, base: Option<nat>)
    requires GroupsOrdered(groups) && ValidGroup(groups, h)
    requires OwnChain(groups, q, h, base) && InOwn(groups, g, h, base)
    ensures g < |groups| && OwnChain(groups, q, Some(g), base) && Within(groups, g, h) && Some(g) != base
    decreases if h.None? then 0 else h.value + 1
  {
    if h.value != g {
      ChainAt(groups, q, g, groups[h.value].parent, base);
    }
  }

  /**
   An unfinished task has opened what lies between its current group and the one it was born in,
   and its own surroundings are open.
   */
  predicate Nested(w: World, k: nat)
    requires Shaped(w) && k < |w.tasks|
  {
    var t := w.tasks[k];
    assert TaskShaped(w, t, k);
    t.status != Done ==>
      && OwnChain(w.groups, k, t.group, t.born)
      && forall g :: 0 <= g < |w.groups| && Within(w.groups, g, t.born) ==> w.groups[g].open
  }

  /** An open group is one of those its owner, a running task, has opened. */
  predicate Owned(w: World, g: nat)
    requires Shaped(w) && g < |w.groups|
  {
    var q := w.tasks[w.groups[g].owner];
    assert TaskShaped(w, q, w.groups[g].owner);
    w.groups[g].open ==> q.status == Running && InOwn(w.groups, g, q.group, q.born)
  }

  predicate GroupInv(w: World)
    requires Shaped(w)
  {
    && (forall k :: 0 <= k < |w.tasks| ==> Nested(w, k))
    && (forall g :: 0 <= g < |w.groups| ==> Owned(w, g))
  }

  lemma LaterSameParents(w: World, w': World)
    requires Later(w, w')
    ensures SameParents(w.groups, w'.groups)
  {
    forall g | 0 <= g < |w.groups|
      ensures w.groups[g].parent == w'.groups[g].parent && w.groups[g].owner == w'.groups[g].owner
    {
      assert SameGroup(w.groups[g], w'.groups[g]);
    }
  }

  /** The surroundings of a task stay open in any step that closes no group around it. */
  lemma SurroundingsStayOpen(w: World, w': World, k: nat)
    requires Shaped(w) && Shaped(w') && Later(w, w') && k < |w.tasks| && Nested(w, k) && w.tasks[k].status != Done
    requires forall g :: 0 <= g < |w.groups| && w.groups[g].open && !w'.groups[g].open ==> !Member(w, g, k)
    ensures forall g :: 0 <= g < |w'.groups| && Member(w', g, k) ==> w'.groups[g].open
  {
    LaterSameParents(w, w');
    assert TaskShaped(w, w.tasks[k], k) && SameTask(w.tasks[k], w'.tasks[k]);
    forall g | 0 <= g < |w'.groups| && Member(w', g, k) ensures w'.groups[g].open {
      WithinFrame(w.groups, w'.groups, g, w.tasks[k].born);
      WithinLess(w.groups, g, w.tasks[k].born);
      assert Member(w, g, k);
    }
  }

  lemma CreateKeepsNested(w: World, s: Step, k: nat)
    requires Shaped(w) && Enabled(w, s) && s.Create? && GroupInv(w) && k < |Next(w, s).tasks|
    ensures Shaped(Next(w, s)) && Nested(Next(w, s), k)
  {
    StepIsLater(w, s);
    var w' := Next(w, s);
    if k < |w.tasks| {
      assert Nested(w, k) && TaskShaped(w, w.tasks[k], k);
    } else {
      assert Nested(w, s.p) && TaskShaped(w, w.tasks[s.p], s.p);
      forall g | 0 <= g < |w'.groups| && Within(w'.groups, g, w'.tasks[k].born) ensures w'.groups[g].open {
        ChainSplit(w.groups, s.p, w.tasks[s.p].group, w.tasks[s.p].born, g);
      }
    }
  }

  lemma OpenKeepsNested(w: World, p: nat, cell: Cell, k: nat)
    requires Shaped(w) && Enabled(w, GroupBegin(p, cell)) && GroupInv(w) && k < |w.tasks|
    ensures Shaped(Opened(w, p, cell)) && Nested(Opened(w, p, cell), k)
  {
    OpenIsLater(w, p, cell);
    var w', t := Opened(w, p, cell), w.tasks[k];
    LaterSameParents(w, w');
    assert Nested(w, k) && TaskShaped(w, t, k) && TaskShaped(w', w'.tasks[k], k);
    if t.status != Done {
      OwnChainFrame(w.groups, w'.groups, k, t.group, t.born);
      SurroundingsStayOpen(w, w', k);
      forall g | 0 <= g < |w'.groups| && Within(w'.groups, g, w'.tasks[k].born) ensures w'.groups[g].open {
        assert Member(w', g, k);
      }
    }
  }

  lemma CloseKeepsNested(w: World, p: nat, k: nat)
    requires Shaped(w) && Enabled(w, GroupEnd(p)) && GroupInv(w) && k < |w.tasks|
    ensures Shaped(Closed(w, p)) && Nested(Closed(w, p), k)
  {
    CloseIsLater(w, p);
    var w', t, g0 := Closed(w, p), w.tasks[k], w.tasks[p].group.value;
    LaterSameParents(w, w');
    assert Nested(w, k) && TaskShaped(w, t, k) && TaskShaped(w', w'.tasks[k], k);
    assert Nested(w, p) && TaskShaped(w, w.tasks[p], p);
    if t.status != Done {
      OwnChainFrame(w.groups, w'.groups, k, w'.tasks[k].group, t.born);
      SurroundingsStayOpen(w, w', k);
      forall g | 0 <= g < |w'.groups| && Within(w'.groups, g, w'.tasks[k].born) ensures w'.groups[g].open {
        assert Member(w', g, k);
      }
    }
  }

  lemma KeepsItsGroup(w: World, s: Step, k: nat)
    requires Shaped(w) && Enabled(w, s) && k < |w.tasks| && !s.Create? && !s.GroupBegin? && !s.GroupEnd?
    ensures |Next(w, s).tasks| == |w.tasks| && Next(w, s).tasks[k].group == w.tasks[k].group
    ensures |Next(w, s).groups| == |w.groups|
    ensures forall g :: 0 <= g < |w.groups| ==> Next(w, s).groups[g].open == w.groups[g].open
  {
  }

  lemma OtherStepsKeepNested(w: World, s: Step, k: nat)
    requires Shaped(w) && Enabled(w, s) && GroupInv(w) && k < |w.tasks|
    requires !s.Create? && !s.GroupBegin? && !s.GroupEnd?
    ensures Shaped(Next(w, s)) && Nested(Next(w, s), k)
  {
    StepIsLater(w, s);
    var w', t := Next(w, s), w.tasks[k];
    LaterSameParents(w, w');
    assert Nested(w, k) && TaskShaped(w, t, k) && TaskShaped(w', w'.tasks[k], k) && SameTask(t, w'.tasks[k]);
    if w'.tasks[k].status != Done {
      KeepsItsGroup(w, s, k);
      OwnChainFrame(w.groups, w'.groups, k, t.group, t.born);
      SurroundingsStayOpen(w, w', k);
      forall g | 0 <= g < |w'.groups| && Within(w'.groups, g, w'.tasks[k].born) ensures w'.groups[g].open {
        assert Member(w', g, k);
      }
    }
  }

  lemma StepKeepsNested(w: World, s: Step, k: nat)
    requires Shaped(w) && Enabled(w, s) && GroupInv(w) && k < |Next(w, s).tasks|
    ensures Shaped(Next(w, s)) && Nested(Next(w, s), k)
  {
    match s
    case Create(_, _, _, _, _, _) => CreateKeepsNested(w, s, k);
    case GroupBegin(p, cell) => OpenKeepsNested(w, p, cell, k);
    case GroupEnd(p) => CloseKeepsNested(w, p, k);
    case _ => OtherStepsKeepNested(w, s, k);
  }

  lemma OpenKeepsOwned(w: World, p: nat, cell: Cell, g: nat)
    requires Shaped(w) && Enabled(w, GroupBegin(p, cell)) && GroupInv(w) && g <= |w.groups|
    ensures Shaped(Opened(w, p, cell)) && Owned(Opened(w, p, cell), g)
  {
    OpenIsLater(w, p, cell);
    var w' := Opened(w, p, cell);
    LaterSameParents(w, w');
    assert TaskShaped(w, w.tasks[p], p);
    if g < |w.groups| {
      var q := w.groups[g].owner;
      assert Owned(w, g) && TaskShaped(w, w.tasks[q], q);
      InOwnFrame(w.groups, w'.groups, g, w.tasks[q].group, w.tasks[q].born);
    }
  }

  lemma CloseKeepsOwned(w: World, p: nat, g: nat)
    requires Shaped(w) && Enabled(w, GroupEnd(p)) && GroupInv(w) && g < |w.groups|
    ensures Shaped(Closed(w, p)) && Owned(Closed(w, p), g)
  {
    CloseIsLater(w, p);
    var w', q := Closed(w, p), w.groups[g].owner;
    LaterSameParents(w, w');
    assert Owned(w, g) && TaskShaped(w, w.tasks[q], q);
    InOwnFrame(w.groups, w'.groups, g, w'.tasks[q].group, w.tasks[q].born);
  }

  lemma CompleteKeepsOwned(w: World, k: nat, g: nat)
    requires Shaped(w) && Enabled(w, Complete(k)) && GroupInv(w) && g < |w.groups|
    ensures Shaped(Completed(w, k)) && Owned(Completed(w, k), g)
  {
    CompleteIsLater(w, k);
    var w', q := Completed(w, k), w.groups[g].owner;
    LaterSameParents(w, w');
    assert Owned(w, g) && TaskShaped(w, w.tasks[q], q) && TaskShaped(w, w.tasks[k], k);
    InOwnFrame(w.groups, w'.groups, g, w.tasks[q].group, w.tasks[q].born);
  }

  lemma OtherStepsKeepOwned(w: World, s: Step, g: nat)
    requires Shaped(w) && Enabled(w, s) && GroupInv(w) && g < |w.groups|
    requires s.Tick? || s.Create? || s.Start? || s.Taskwait? || s.TaskwaitOn?
    ensures Shaped(Next(w, s)) && Owned(Next(w, s), g)
  {
    StepIsLater(w, s);
    var q := w.groups[g].owner;
    assert Owned(w, g) && TaskShaped(w, w.tasks[q], q);
  }

  lemma StepKeepsOwned(w: World, s: Step, g: nat)
    requires Shaped(w) && Enabled(w, s) && GroupInv(w) && g < |Next(w, s).groups|
    ensures Shaped(Next(w, s)) && Owned(Next(w, s), g)
  {
    match s
    case GroupBegin(p, cell) => OpenKeepsOwned(w, p, cell, g);
    case GroupEnd(p) => CloseKeepsOwned(w, p, g);
    case Complete(k) => CompleteKeepsOwned(w, k, g);
    case _ => OtherStepsKeepOwned(w, s, g);
  }

  // ---------------------------------------------------------------------------
  // Completed members of open groups
  // ---------------------------------------------------------------------------

  /** The clock of completed task `k` waits in open group `h`, which is `g` or lies inside it. */
  predicate CellCovers(w: World, k: nat, g: nat, h: nat)
    requires Shaped(w) && k < |w.tasks|
  {
    h < |w.groups| && w.groups[h].open && Within(w.groups, g, Some(h)) && Holds(w, w.groups[h].cell, w.tasks[k].done)
  }

  /** The thread of running task `q`, which opened `g` or is a member of it, has reached the clock of task `k`. */
  predicate TaskCovers(w: World, k: nat, g: nat, q: nat)
    requires Shaped(w) && k < |w.tasks| && g < |w.groups|
  {
    && q < |w.tasks| && w.tasks[q].status == Running && (Member(w, g, q) || w.groups[g].owner == q)
    && (assert TaskShaped(w, w.tasks[q], q); w.tasks[k].done <= w.eff[w.tasks[q].thread])
  }

  predicate Covered(w: World, k: nat, g: nat)
    requires Shaped(w) && k < |w.tasks| && g < |w.groups|
  {
    || (exists h :: 0 <= h < |w.groups| && CellCovers(w, k, g, h))
    || (exists q :: 0 <= q < |w.tasks| && TaskCovers(w, k, g, q))
  }

  predicate CoverInv(w: World)
    requires Shaped(w)
  {
    forall k, g ::
      0 <= k < |w.tasks| && 0 <= g < |w.groups| && w.tasks[k].status == Done && w.groups[g].open && Member(w, g, k) ==>
      Covered(w, k, g)
  }

  lemma CellCoverLater(w: World, w': World, k: nat, g: nat, h: nat)
    requires Shaped(w) && Shaped(w') && Later(w, w') && k < |w.tasks| && w.tasks[k].status == Done && g < |w.groups|
    requires CellCovers(w, k, g, h) && w'.groups[h].open
    ensures Covered(w', k, g)
  {
    LaterSameParents(w, w');
    assert SameTask(w.tasks[k], w'.tasks[k]) && SameGroup(w.groups[h], w'.groups[h]);
    WithinFrame(w.groups, w'.groups, g, Some(h));
    HoldsLater(w, w', w.groups[h].cell, w'.groups[h].cell, w.tasks[k].done);
    assert CellCovers(w', k, g, h);
  }

  lemma TaskCoverLater(w: World, w': World, k: nat, g: nat, q: nat)
    requires Shaped(w) && Shaped(w') && Later(w, w') && k < |w.tasks| && w.tasks[k].status == Done && g < |w.groups|
    requires TaskCovers(w, k, g, q) && w'.tasks[q].status == Running
    ensures Covered(w', k, g)
  {
    LaterSameParents(w, w');
    assert SameTask(w.tasks[k], w'.tasks[k]) && SameTask(w.tasks[q], w'.tasks[q]);
    assert SameGroup(w.groups[g], w'.groups[g]);
    assert TaskShaped(w, w.tasks[q], q);
    WithinFrame(w.groups, w'.groups, g, w.tasks[q].born);
    assert TaskCovers(w', k, g, q);
  }

  lemma MemberLater(w: World, w': World, k: nat, g: nat)
    requires Shaped(w) && Shaped(w') && Later(w, w') && k < |w.tasks|
    ensures Member(w', g, k) <==> Member(w, g, k)
  {
    LaterSameParents(w, w');
    assert SameTask(w.tasks[k], w'.tasks[k]) && TaskShaped(w, w.tasks[k], k);
    WithinFrame(w.groups, w'.groups, g, w.tasks[k].born);
  }

  /** Task `q`, whose current group lies in `g`, is a member of `g` or opened it. */
  lemma InsideOf(w: World, q: nat, g: nat)
    requires Shaped(w) && q < |w.tasks| && Nested(w, q) && w.tasks[q].status == Running
    requires (assert TaskShaped(w, w.tasks[q], q); Within(w.groups, g, w.tasks[q].group))
    ensures g < |w.groups| && (Member(w, g, q) || w.groups[g].owner == q)
  {
    assert TaskShaped(w, w.tasks[q], q);
    ChainSplit(w.groups, q, w.tasks[q].group, w.tasks[q].born, g);
  }

  /** A completing task is covered by its taskgroup, or by the parent it returns to. */
  lemma CompletedIsCovered(w: World, k: nat, g: nat)
    requires Shaped(w) && Enabled(w, Complete(k)) && GroupInv(w) && Related(w, k)
    requires g < |w.groups| && w.groups[g].open && Member(w, g, k)
    ensures Shaped(Completed(w, k)) && Covered(Completed(w, k), k, g)
  {
    CompleteIsLater(w, k);
    var w', t := Completed(w, k), w.tasks[k];
    LaterSameParents(w, w');
    assert TaskShaped(w, t, k) && Nested(w, k);
    if t.deferred {
      var h := t.group.value;
      WithinFrame(w.groups, w'.groups, g, Some(h));
      assert Within(w.groups, h, t.born);
      assert CellCovers(w', k, g, h);
    } else {
      var p := t.parent.value;
      assert Nested(w, p) && TaskShaped(w, w.tasks[p], p) && TaskShaped(w', w'.tasks[p], p);
      InsideOf(w, p, g);
      MemberLater(w, w', p, g);
      assert TaskCovers(w', k, g, p);
    }
  }

  /** What covers a task covers every task that was done earlier. */
  lemma CoverPasses(w: World, j: nat, k: nat, g: nat)
    requires Shaped(w) && j < |w.tasks| && k < |w.tasks| && g < |w.groups|
    requires Covered(w, k, g) && w.tasks[j].done <= w.tasks[k].done
    ensures Covered(w, j, g)
  {
    if h :| 0 <= h < |w.groups| && CellCovers(w, k, g, h) {
      assert CellCovers(w, j, g, h);
    } else {
      var q :| 0 <= q < |w.tasks| && TaskCovers(w, k, g, q);
      assert TaskCovers(w, j, g, q);
    }
  }

  /** The task that covers `k` may be the one that completes; what covers that one then covers `k` too. */
  lemma CoverOutlives(w: World, k0: nat, k: nat, g: nat, q: nat)
    requires Shaped(w) && Enabled(w, Complete(k0)) && GroupInv(w) && Related(w, k0)
    requires k < |w.tasks| && k != k0 && g < |w.groups| && w.groups[g].open
    requires w.tasks[k].status == Done && TaskCovers(w, k, g, q)
    ensures Shaped(Completed(w, k0)) && Covered(Completed(w, k0), k, g)
  {
    CompleteIsLater(w, k0);
    var w' := Completed(w, k0);
    if q != k0 {
      TaskCoverLater(w, w', k, g, q);
    } else {
      assert Owned(w, g) && TaskShaped(w, w.tasks[k0], k0);
      CompletedIsCovered(w, k0, g);
      CoverPasses(w', k, k0, g);
    }
  }

  lemma CompleteKeepsCovered(w: World, k0: nat, k: nat, g: nat)
    requires Shaped(w) && Enabled(w, Complete(k0)) && GroupInv(w) && CoverInv(w) && Related(w, k0)
    requires k < |w.tasks| && g < |w.groups| && w.groups[g].open && Member(w, g, k)
    requires k == k0 || w.tasks[k].status == Done
    ensures Shaped(Completed(w, k0)) && Covered(Completed(w, k0), k, g)
  {
    CompleteIsLater(w, k0);
    var w' := Completed(w, k0);
    if k == k0 {
      CompletedIsCovered(w, k0, g);
    } else {
      assert Covered(w, k, g);
      if h :| 0 <= h < |w.groups| && CellCovers(w, k, g, h) {
        CellCoverLater(w, w', k, g, h);
      } else {
        var q :| 0 <= q < |w.tasks| && TaskCovers(w, k, g, q);
        CoverOutlives(w, k0, k, g, q);
      }
    }
  }

  lemma CloseKeepsCovered(w: World, p: nat, k: nat, g: nat)
    requires Shaped(w) && Enabled(w, GroupEnd(p)) && GroupInv(w) && CoverInv(w)
    requires k < |w.tasks| && g < |w.groups| && w.tasks[k].status == Done && Member(w, g, k)
    requires w.groups[g].open && g != w.tasks[p].group.value
    ensures Shaped(Closed(w, p)) && Covered(Closed(w, p), k, g)
  {
    CloseIsLater(w, p);
    var w' := Closed(w, p);
    assert Covered(w, k, g);
    if h :| 0 <= h < |w.groups| && CellCovers(w, k, g, h) {
      if h != w.tasks[p].group.value {
        CellCoverLater(w, w', k, g, h);
      } else {
        assert Nested(w, p) && TaskShaped(w, w.tasks[p], p) && TaskShaped(w', w'.tasks[p], p);
        InsideOf(w, p, g);
        MemberLater(w, w', p, g);
        assert TaskCovers(w', k, g, p);
      }
    } else {
      var q :| 0 <= q < |w.tasks| && TaskCovers(w, k, g, q);
      TaskCoverLater(w, w', k, g, q);
    }
  }

  /** Nothing that covers a task ends in a step that completes no task and closes no group. */
  predicate NothingEnds(w: World, w': World)
    requires Later(w, w')
  {
    && (forall h :: 0 <= h < |w.groups| && w.groups[h].open ==> w'.groups[h].open)
    && (forall q :: 0 <= q < |w.tasks| && w.tasks[q].status == Running ==> w'.tasks[q].status == Running)
  }

  lemma OtherStepsEndNothing(w: World, s: Step)
    requires Shaped(w) && Enabled(w, s) && !s.Complete? && !s.GroupEnd?
    ensures Later(w, Next(w, s)) && NothingEnds(w, Next(w, s))
  {
    StepIsLater(w, s);
  }

  lemma CoveredLater(w: World, w': World, k: nat, g: nat)
    requires Shaped(w) && Shaped(w') && Later(w, w') && NothingEnds(w, w')
    requires k < |w.tasks| && g < |w.groups| && w.tasks[k].status == Done && Covered(w, k, g)
    ensures Covered(w', k, g)
  {
    if h :| 0 <= h < |w.groups| && CellCovers(w, k, g, h) {
      CellCoverLater(w, w', k, g, h);
    } else {
      var q :| 0 <= q < |w.tasks| && TaskCovers(w, k, g, q);
      TaskCoverLater(w, w', k, g, q);
    }
  }

  predicate Inv(w: World) {
    && Shaped(w)
    && (forall k :: 0 <= k < |w.tasks| ==> DoneKept(w, k))
    && (forall k :: 0 <= k < |w.tasks| ==> Related(w, k))
    && GroupInv(w) && CoverInv(w)
  }

  /** A group opened by this step has no members yet, and a task created by it is not done. */
  lemma NothingNewIsDone(w: World, s: Step, k: nat, g: nat)
    requires Shaped(w) && Enabled(w, s) && Shaped(Next(w, s))
    requires k < |Next(w, s).tasks| && g < |Next(w, s).groups|
    requires Next(w, s).tasks[k].status == Done && Member(Next(w, s), g, k)
    ensures k < |w.tasks| && g < |w.groups| && Member(w, g, k)
    ensures s == Complete(k) || w.tasks[k].status == Done
  {
    StepIsLater(w, s);
    OnlyCompletionEnds(w, s, k);
    MemberLater(w, Next(w, s), k, g);
    assert TaskShaped(w, w.tasks[k], k);
    WithinLess(w.groups, g, w.tasks[k].born);
  }

  lemma GroupsStayClosed(w: World, s: Step, g: nat)
    requires Shaped(w) && Enabled(w, s) && g < |w.groups| <= |Next(w, s).groups| && Next(w, s).groups[g].open
    ensures w.groups[g].open
  {
  }

  lemma StepKeepsCovered(w: World, s: Step, k: nat, g: nat)
    requires Inv(w) && Enabled(w, s) && k < |w.tasks| && g < |w.groups| && w.groups[g].open && Member(w, g, k)
    requires s == Complete(k) || w.tasks[k].status == Done
    requires Shaped(Next(w, s)) && g < |Next(w, s).groups| && Next(w, s).groups[g].open && k < |Next(w, s).tasks|
    ensures Covered(Next(w, s), k, g)
  {
    match s
    case Complete(k0) => CompleteKeepsCovered(w, k0, k, g);
    case GroupEnd(p) => CloseKeepsCovered(w, p, k, g);
    case _ =>
      OtherStepsEndNothing(w, s);
      CoveredLater(w, Next(w, s), k, g);
  }

  lemma StepKeepsCoverInv(w: World, s: Step)
    requires Inv(w) && Enabled(w, s)
    ensures Shaped(Next(w, s)) && CoverInv(Next(w, s))
  {
    StepIsLater(w, s);
    var w' := Next(w, s);
    forall k, g |
      && 0 <= k < |w'.tasks| && 0 <= g < |w'.groups|
      && w'.tasks[k].status == Done && w'.groups[g].open && Member(w', g, k)
      ensures Covered(w', k, g)
    {
      NothingNewIsDone(w, s, k, g);
      GroupsStayClosed(w, s, g);
      StepKeepsCovered(w, s, k, g);
    }
  }

  lemma StepKeepsInv(w: World, s: Step)
    requires Inv(w) && Enabled(w, s)
    ensures Inv(Next(w, s))
  {
    StepIsLater(w, s);
    var w' := Next(w, s);
    forall k | 0 <= k < |w'.tasks| ensures DoneKept(w', k) { StepKeepsDone(w, s, k); }
    forall k | 0 <= k < |w'.tasks| ensures Related(w', k) { StepKeepsRelated(w, s, k); }
    forall k | 0 <= k < |w'.tasks| ensures Nested(w', k) { StepKeepsNested(w, s, k); }
    forall g | 0 <= g < |w'.groups| ensures Owned(w', g) { StepKeepsOwned(w, s, g); }
    StepKeepsCoverInv(w, s);
  }

  // ---------------------------------------------------------------------------
  // What the steps that wait reach
  // ---------------------------------------------------------------------------

  lemma TaskwaitReaches(w: World, p: nat, k: nat)
    requires Inv(w) && Enabled(w, Taskwait(p)) && k < |w.tasks| && w.tasks[k].parent == Some(p)
    ensures w.tasks[k].status == Done && w.tasks[p].thread < |w.eff|
    ensures w.tasks[k].done <= Waited(w, p).eff[w.tasks[p].thread]
  {
    assert DoneKept(w, k) && Related(w, k) && TaskShaped(w, w.tasks[k], k) && TaskShaped(w, w.tasks[p], p);
  }

  /** Whoever opened a group inside `g` is running, and is a member of `g` or opened it too. */
  lemma InnerOwner(w: World, g: nat, h: nat)
    requires Inv(w) && g < |w.groups| && h < |w.groups| && w.groups[h].open && Within(w.groups, g, Some(h))
    ensures var q := w.groups[h].owner;
      && q < |w.tasks| && TaskShaped(w, w.tasks[q], q) && w.tasks[q].status == Running
      && Within(w.groups, h, w.tasks[q].group)
      && (Member(w, g, q) || w.groups[g].owner == q)
  {
    var q := w.groups[h].owner;
    assert Owned(w, h) && Nested(w, q) && TaskShaped(w, w.tasks[q], q);
    ChainAt(w.groups, q, h, w.tasks[q].group, w.tasks[q].born);
    ChainSplit(w.groups, q, Some(h), w.tasks[q].born, g);
  }

  lemma GroupEndReaches(w: World, p: nat, k: nat)
    requires Inv(w) && Enabled(w, GroupEnd(p)) && k < |w.tasks| && Member(w, w.tasks[p].group.value, k)
    ensures w.tasks[k].status == Done && w.tasks[p].thread < |w.eff|
    ensures w.tasks[k].done <= Closed(w, p).eff[w.tasks[p].thread]
  {
    var g := w.tasks[p].group.value;
    assert TaskShaped(w, w.tasks[p], p) && Nested(w, p);
    assert w.groups[g].owner == p && w.groups[g].open;
    assert Covered(w, k, g);
    if h :| 0 <= h < |w.groups| && CellCovers(w, k, g, h) {
      WithinLess(w.groups, g, Some(h));
      InnerOwner(w, g, h);
      if w.groups[h].owner == p {
        WithinLess(w.groups, h, w.tasks[p].group);
      }
      assert h == g;
    } else {
      var q :| 0 <= q < |w.tasks| && TaskCovers(w, k, g, q);
      assert q == p;
    }
  }

  /** Acquiring dependences reaches every completed child of the parent with a conflicting one. */
  lemma AcquireReachesDone(w: World, m: DepMap, p: nat, deps: seq<Dep>, thread: nat, j: nat, a: nat, b: nat)
    requires Inv(w) && thread < |w.eff| && Known(m, p, deps)
    requires j < |w.tasks| && w.tasks[j].parent == Some(p) && w.tasks[j].status == Done && Conflict(w, j, a, deps, b)
    requires forall key :: key in w.deps ==> key in m && m[key] == w.deps[key]
    ensures w.tasks[j].done <= AcquireAll(m, p, deps, Raw(w, thread)).0 + Offset(w)
  {
    var u := w.tasks[j];
    assert TaskShaped(w, u, j) && DoneKept(w, j);
    assert Holds(w, Target(w.deps[(p, u.deps[a].variable)], u.deps[a].kind), u.done);
    AcquireTakes(m, p, deps, Raw(w, thread), b, u.deps[a].kind);
  }
}
