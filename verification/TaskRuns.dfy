/**
 What task synchronisation guarantees over whole runs, in the values of the steps themselves: a task
 starts with at least the clock of its creator, and a thread that leaves a taskwait or a taskgroup, or
 that starts a task with dependences, has at least the clock that each task it had to wait for had
 when it completed.
 */
module TaskRuns {
  import opened Options
  import opened Tasks
  import opened TaskOrder

  /** One implicit task per thread, and nothing else. */
  predicate Initial(w: World) {
    && |w.tasks| == |w.eff| && w.groups == [] && w.deps == map[]
    && forall k :: 0 <= k < |w.tasks| ==>
         && w.tasks[k].parent.None? && w.tasks[k].born.None? && w.tasks[k].group.None? && w.tasks[k].deps == []
         && w.tasks[k].thread == k && w.tasks[k].status == Running && w.tasks[k].execution == 1
  }

  ghost predicate StepAt(ws: seq<World>, steps: seq<Step>, i: nat)
    requires i < |steps| < |ws|
  {
    Shaped(ws[i]) && Enabled(ws[i], steps[i]) && ws[i + 1] == Next(ws[i], steps[i])
  }

  ghost predicate IsRun(ws: seq<World>, steps: seq<Step>) {
    |ws| == |steps| + 1 && Initial(ws[0]) && forall i :: 0 <= i < |steps| ==> StepAt(ws, steps, i)
  }

  lemma {:induction false} RunKeepsInv(ws: seq<World>, steps: seq<Step>, i: nat)
    requires IsRun(ws, steps) && i < |ws|
    ensures Inv(ws[i])
  {
    if i > 0 {
      RunKeepsInv(ws, steps, i - 1);
      assert StepAt(ws, steps, i - 1);
      StepKeepsInv(ws[i - 1], steps[i - 1]);
    }
  }

  // ---------------------------------------------------------------------------
  // What the records of a task say about the run
  // ---------------------------------------------------------------------------

  lemma TaskStaysAt(ws: seq<World>, steps: seq<Step>, i: nat, k: nat)
    requires i < |steps| < |ws| && StepAt(ws, steps, i) && k < |ws[i].tasks|
    ensures k < |ws[i + 1].tasks| && SameTask(ws[i].tasks[k], ws[i + 1].tasks[k])
  {
    StepIsLater(ws[i], steps[i]);
  }

  lemma SameTaskTwice(a: Task, b: Task, c: Task)
    requires SameTask(a, b) && SameTask(b, c)
    ensures SameTask(a, c)
  {
  }

  lemma {:induction false} TaskStays(ws: seq<World>, steps: seq<Step>, i: nat, j: nat, k: nat)
    requires IsRun(ws, steps) && i <= j < |ws| && k < |ws[i].tasks|
    ensures k < |ws[j].tasks| && SameTask(ws[i].tasks[k], ws[j].tasks[k])
    decreases j
  {
    if i < j {
      TaskStays(ws, steps, i, j - 1, k);
      TaskStaysAt(ws, steps, j - 1, k);
      SameTaskTwice(ws[i].tasks[k], ws[j - 1].tasks[k], ws[j].tasks[k]);
    }
  }

  lemma {:induction false} ClocksGrow(ws: seq<World>, steps: seq<Step>, i: nat, j: nat, t: nat)
    requires IsRun(ws, steps) && i <= j < |ws| && t < |ws[i].eff|
    ensures t < |ws[j].eff| && ws[i].eff[t] <= ws[j].eff[t] && Offset(ws[i]) <= Offset(ws[j])
    decreases j
  {
    if i < j {
      ClocksGrow(ws, steps, i, j - 1, t);
      assert StepAt(ws, steps, j - 1);
      StepIsLater(ws[j - 1], steps[j - 1]);
    }
  }

  /** A task keeps the parent, the taskgroup and the dependences it was created with. */
  lemma CreatedAs(ws: seq<World>, steps: seq<Step>, c: nat, j: nat)
    requires IsRun(ws, steps) && c < j < |ws| && steps[c].Create?
    ensures var k, p := |ws[c].tasks|, steps[c].p;
      && k < |ws[j].tasks| && p < |ws[c].tasks|
      && ws[j].tasks[k].parent == Some(p) && ws[j].tasks[k].deferred == steps[c].deferred
      && ws[j].tasks[k].deps == steps[c].vars && ws[j].tasks[k].born == ws[c].tasks[p].group
  {
    assert StepAt(ws, steps, c);
    TaskStays(ws, steps, c + 1, j, |ws[c].tasks|);
  }

  /** A task that was started stays with its thread. */
  lemma StartedOn(ws: seq<World>, steps: seq<Step>, s: nat, j: nat)
    requires IsRun(ws, steps) && s < j < |ws| && steps[s].Start?
    ensures steps[s].k < |ws[j].tasks| && ws[j].tasks[steps[s].k].thread == steps[s].thread
  {
    assert StepAt(ws, steps, s);
    TaskStays(ws, steps, s + 1, j, steps[s].k);
  }

  /** Task `k` completed at step `c`, with the effective value `v` of its thread. */
  ghost predicate CompletesAt(ws: seq<World>, steps: seq<Step>, c: nat, k: nat, v: real)
    requires |ws| == |steps| + 1
  {
    && c < |steps| && steps[c] == Complete(k) && k < |ws[c].tasks|
    && ws[c].tasks[k].thread < |ws[c].eff| && v == ws[c].eff[ws[c].tasks[k].thread]
  }

  lemma {:induction false} CompletionOf(ws: seq<World>, steps: seq<Step>, i: nat, k: nat) returns (c: nat)
    requires IsRun(ws, steps) && i < |ws| && k < |ws[i].tasks| && ws[i].tasks[k].status == Done
    ensures c < i && CompletesAt(ws, steps, c, k, ws[i].tasks[k].done)
  {
    if i == 0 {
      assert false;
    } else {
      assert StepAt(ws, steps, i - 1);
      var w, s := ws[i - 1], steps[i - 1];
      OnlyCompletionEnds(w, s, k);
      if w.tasks[k].status == Done {
        StepIsLater(w, s);
        assert SameTask(w.tasks[k], ws[i].tasks[k]);
        c := CompletionOf(ws, steps, i - 1, k);
      } else {
        assert TaskShaped(w, w.tasks[k], k);
        c := i - 1;
      }
    }
  }

  // ---------------------------------------------------------------------------
  // The creation of a task
  // ---------------------------------------------------------------------------

  lemma CreateLeaves(w: World, s: Step)
    requires Shaped(w) && s.Create? && Enabled(w, s)
    ensures var w', k := Spawned(w, s), |w.tasks|;
      && w.tasks[s.p].thread < |w.eff| && w'.tasks[k].status == Created
      && (s.deferred ==> Holds(w', w'.tasks[k].task, w.eff[w.tasks[s.p].thread]))
  {
    assert TaskShaped(w, w.tasks[s.p], s.p);
  }

  lemma CreatedHolds(w: World, s: Step, k: nat, v: real)
    requires Inv(w) && Enabled(w, s) && k < |w.tasks| && w.tasks[k].status == Created && Holds(w, w.tasks[k].task, v)
    requires k < |Next(w, s).tasks| && Next(w, s).tasks[k].status == Created
    ensures Holds(Next(w, s), Next(w, s).tasks[k].task, v)
  {
    StepIsLater(w, s);
    if s.Complete? {
      assert Related(w, s.k);
    }
  }

  /** Until a task starts, its object holds what it held at the creation. */
  lemma {:induction false} CreationKept(ws: seq<World>, steps: seq<Step>, i: nat, j: nat, k: nat, v: real)
    requires IsRun(ws, steps) && i <= j < |ws| && k < |ws[i].tasks| && Holds(ws[i], ws[i].tasks[k].task, v)
    requires k < |ws[j].tasks| && ws[j].tasks[k].status == Created
    ensures Holds(ws[j], ws[j].tasks[k].task, v)
    decreases j
  {
    if i < j {
      TaskStays(ws, steps, i, j - 1, k);
      TaskStays(ws, steps, j - 1, j, k);
      CreationKept(ws, steps, i, j - 1, k, v);
      RunKeepsInv(ws, steps, j - 1);
      assert StepAt(ws, steps, j - 1);
      CreatedHolds(ws[j - 1], steps[j - 1], k, v);
    }
  }

  lemma StartTakes(w: World, k: nat, thread: nat, v: real)
    requires Shaped(w) && Enabled(w, Start(k, thread)) && Holds(w, w.tasks[k].task, v)
    ensures v <= Started(w, k, thread).eff[thread]
  {
    assert TaskShaped(w, w.tasks[k], k);
  }

  /** In every run, a task starts with at least the clock that its creator had when it created the task. */
  lemma TaskStartsAfterCreation(ws: seq<World>, steps: seq<Step>, c: nat, j: nat)
    requires IsRun(ws, steps) && c < j < |steps| && steps[c].Create? && steps[j].Start? && steps[j].k == |ws[c].tasks|
    ensures var p := steps[c].p;
      && p < |ws[c].tasks| && ws[c].tasks[p].thread < |ws[c].eff| && steps[j].thread < |ws[j + 1].eff|
      && ws[c].eff[ws[c].tasks[p].thread] <= ws[j + 1].eff[steps[j].thread]
  {
    var p, k := steps[c].p, steps[j].k;
    assert StepAt(ws, steps, c) && StepAt(ws, steps, j);
    CreateLeaves(ws[c], steps[c]);
    CreatedAs(ws, steps, c, j);
    StepIsLater(ws[j], steps[j]);
    if steps[c].deferred {
      CreationKept(ws, steps, c + 1, j, k, ws[c].eff[ws[c].tasks[p].thread]);
      StartTakes(ws[j], k, steps[j].thread, ws[c].eff[ws[c].tasks[p].thread]);
    } else {
      TaskStays(ws, steps, c, j, p);
      ClocksGrow(ws, steps, c, j, ws[c].tasks[p].thread);
    }
  }

  /** Where the clock of a thread comes from after a step that synchronises. */
  lemma StepTakesOnly(w: World, s: Step, t: nat)
    requires Shaped(w) && Enabled(w, s) && t < |w.eff| && !s.Tick?
    ensures t < |Next(w, s).eff|
    ensures var e, raw := Next(w, s).eff[t], Next(w, s).eff[t] - Offset(w);
      || e == w.eff[t]
      || (s.Start? && s.thread == t && (raw == w.tasks[s.k].task.raw
          || (w.tasks[s.k].parent.Some? && Known(w.deps, w.tasks[s.k].parent.value, w.tasks[s.k].deps)
              && Offered(w.deps, w.tasks[s.k].parent.value, w.tasks[s.k].deps, raw))))
      || (s.Taskwait? && w.tasks[s.p].thread == t && raw == w.tasks[s.p].taskwait.raw)
      || (s.TaskwaitOn? && w.tasks[s.p].thread == t && Offered(s.pool + w.deps, s.p, s.vars, raw))
      || (s.GroupEnd? && w.tasks[s.p].thread == t && w.tasks[s.p].group.value < |w.groups|
          && raw == w.groups[w.tasks[s.p].group.value].cell.raw)
  {
    match s
    case Start(k, thread) =>
      assert TaskShaped(w, w.tasks[k], k);
      AcquireTakesOnly(w.deps, w.tasks[k].parent.value, w.tasks[k].deps, Raw(w, thread));
    case TaskwaitOn(p, vars, pool) =>
      assert TaskShaped(w, w.tasks[p], p);
      AcquireTakesOnly(pool + w.deps, p, vars, Raw(w, w.tasks[p].thread));
    case Taskwait(p) => assert TaskShaped(w, w.tasks[p], p);
    case GroupEnd(p) => assert TaskShaped(w, w.tasks[p], p);
    case _ =>
  }

  // ---------------------------------------------------------------------------
  // Waiting for tasks
  // ---------------------------------------------------------------------------

  /** After a taskwait the thread has reached every child of the task. */
  lemma TaskwaitReachesChildren(ws: seq<World>, steps: seq<Step>, i: nat, k: nat) returns (c: nat)
    requires IsRun(ws, steps) && i < |steps| && steps[i].Taskwait?
    requires k < |ws[i].tasks| && ws[i].tasks[k].parent == Some(steps[i].p)
    ensures c < i && steps[c] == Complete(k) && k < |ws[c].tasks| && ws[c].tasks[k].thread < |ws[c].eff|
    ensures steps[i].p < |ws[i].tasks| && ws[i].tasks[steps[i].p].thread < |ws[i + 1].eff|
    ensures ws[c].eff[ws[c].tasks[k].thread] <= ws[i + 1].eff[ws[i].tasks[steps[i].p].thread]
  {
    RunKeepsInv(ws, steps, i);
    assert StepAt(ws, steps, i);
    TaskwaitReaches(ws[i], steps[i].p, k);
    c := CompletionOf(ws, steps, i, k);
  }

  /** The object of a task that may resume holds the clock of every undeferred child that has completed. */
  lemma UndeferredIsHeld(ws: seq<World>, steps: seq<Step>, c: nat, i: nat, k: nat)
    requires IsRun(ws, steps) && c < i < |ws| && steps[c] == Complete(k) && StepAt(ws, steps, c)
    requires k < |ws[c].tasks| && ws[c].tasks[k].parent.Some? && !ws[c].tasks[k].deferred
    ensures ws[c].tasks[k].thread < |ws[c].eff| && ws[c].tasks[k].parent.value < |ws[i].tasks|
    ensures Holds(ws[i], ws[i].tasks[ws[c].tasks[k].parent.value].task, ws[c].eff[ws[c].tasks[k].thread])
  {
    assert TaskShaped(ws[c], ws[c].tasks[k], k);
    TaskStays(ws, steps, c, i, k);
    TaskStays(ws, steps, c + 1, i, k);
    RunKeepsInv(ws, steps, i);
    assert DoneKept(ws[i], k) && TaskShaped(ws[i], ws[i].tasks[k], k);
  }

  /** After a taskgroup the thread has reached every member, through all nested groups. */
  lemma TaskgroupReachesMembers(ws: seq<World>, steps: seq<Step>, i: nat, k: nat) returns (c: nat)
    requires IsRun(ws, steps) && i < |steps| && steps[i].GroupEnd? && StepAt(ws, steps, i)
    requires k < |ws[i].tasks| && Member(ws[i], ws[i].tasks[steps[i].p].group.value, k)
    ensures c < i && steps[c] == Complete(k) && k < |ws[c].tasks| && ws[c].tasks[k].thread < |ws[c].eff|
    ensures ws[i].tasks[steps[i].p].thread < |ws[i + 1].eff|
    ensures ws[c].eff[ws[c].tasks[k].thread] <= ws[i + 1].eff[ws[i].tasks[steps[i].p].thread]
  {
    RunKeepsInv(ws, steps, i);
    GroupEndReaches(ws[i], steps[i].p, k);
    c := CompletionOf(ws, steps, i, k);
  }

  /**
   A task that starts has reached every sibling that is completed and has a conflicting
   dependence, in whatever order they were created, also when both are mutexinoutset.
   */
  lemma DependencesReachSiblings(ws: seq<World>, steps: seq<Step>, i: nat, j: nat, a: nat, b: nat) returns (c: nat)
    requires IsRun(ws, steps) && i < |steps| && steps[i].Start?
    requires j < |ws[i].tasks| && steps[i].k < |ws[i].tasks| && ws[i].tasks[j].status == Done
    requires ws[i].tasks[j].parent == ws[i].tasks[steps[i].k].parent
    requires Conflict(ws[i], j, a, ws[i].tasks[steps[i].k].deps, b)
    ensures c < i && steps[c] == Complete(j) && j < |ws[c].tasks| && ws[c].tasks[j].thread < |ws[c].eff|
    ensures steps[i].thread < |ws[i + 1].eff|
    ensures ws[c].eff[ws[c].tasks[j].thread] <= ws[i + 1].eff[steps[i].thread]
  {
    RunKeepsInv(ws, steps, i);
    assert StepAt(ws, steps, i);
    var w, k, thread := ws[i], steps[i].k, steps[i].thread;
    assert TaskShaped(w, w.tasks[k], k);
    AcquireReachesDone(w, w.deps, w.tasks[k].parent.value, w.tasks[k].deps, thread, j, a, b);
    c := CompletionOf(ws, steps, i, j);
  }

  /** A task that starts has reached every predecessor, for all combinations of dependence types. */
  lemma DependencesReachPredecessors(ws: seq<World>, steps: seq<Step>, i: nat, j: nat) returns (c: nat)
    requires IsRun(ws, steps) && i < |steps| && steps[i].Start?
    requires j < |ws[i].tasks| && steps[i].k < |ws[i].tasks| && Predecessor(ws[i], j, steps[i].k)
    ensures c < i && steps[c] == Complete(j) && j < |ws[c].tasks| && ws[c].tasks[j].thread < |ws[c].eff|
    ensures steps[i].thread < |ws[i + 1].eff|
    ensures ws[c].eff[ws[c].tasks[j].thread] <= ws[i + 1].eff[steps[i].thread]
  {
    assert StepAt(ws, steps, i);
    var t, u := ws[i].tasks[steps[i].k], ws[i].tasks[j];
    var a, b :| 0 <= a < |u.deps| && 0 <= b < |t.deps| && u.deps[a].variable == t.deps[b].variable
                && MustWait(u.deps[a].kind, t.deps[b].kind);
    c := DependencesReachSiblings(ws, steps, i, j, a, b);
  }

  /** After a taskwait with dependences the thread has reached every completed child with a conflicting one. */
  lemma TaskwaitOnReachesChildren(ws: seq<World>, steps: seq<Step>, i: nat, j: nat, a: nat, b: nat) returns (c: nat)
    requires IsRun(ws, steps) && i < |steps| && steps[i].TaskwaitOn?
    requires j < |ws[i].tasks| && ws[i].tasks[j].parent == Some(steps[i].p) && Conflict(ws[i], j, a, steps[i].vars, b)
    ensures Awaits(ws[i], j, a, steps[i].vars, b) ==> ws[i].tasks[j].status == Done
    ensures ws[i].tasks[j].status == Done ==>
      && c < i && steps[c] == Complete(j) && j < |ws[c].tasks| && ws[c].tasks[j].thread < |ws[c].eff|
      && steps[i].p < |ws[i].tasks| && ws[i].tasks[steps[i].p].thread < |ws[i + 1].eff|
      && ws[c].eff[ws[c].tasks[j].thread] <= ws[i + 1].eff[ws[i].tasks[steps[i].p].thread]
  {
    RunKeepsInv(ws, steps, i);
    assert StepAt(ws, steps, i);
    var w, s := ws[i], steps[i];
    assert TaskShaped(w, w.tasks[s.p], s.p);
    c := 0;
    if w.tasks[j].status == Done {
      AcquireReachesDone(w, s.pool + w.deps, s.p, s.vars, w.tasks[s.p].thread, j, a, b);
      c := CompletionOf(ws, steps, i, j);
    }
  }
}
