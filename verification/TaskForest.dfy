/**
 The reference counts of the task tree (src/ompt-critical.cpp).

 A task's count is one for the task itself and one for each child that is not freed.  Threads
 that complete tasks go up the tree, one atomic decrement at a time, and return what they drop
 to a pool, from where it can be taken again at once.  The steps of different threads interleave
 freely.  `born` numbers the tasks of a run; the code has no such number.
 */
module TaskForest {
  import opened Options

  datatype Slot = InPool | Task(born: nat, parent: Option<nat>, refCount: int, alive: bool)

  /** Where a thread is in freeTask: before the decrement, or before the deletion of what it dropped to zero. */
  datatype Phase = Idle | Dropping(task: nat) | Deleting(task: nat)

  datatype Forest = Forest(
    slots: seq<Slot>,
    phases: seq<Phase>,
    mother: seq<Option<nat>>,   // by birth: the birth of the parent
    freed: seq<nat>)            // births, in the order in which the tasks are freed

  datatype Step =
    | Grow                              // the pool allocates
    | NewRoot(task: nat)                // an implicit task begins
    | Create(parent: nat, task: nat)
    | Complete(thread: nat, task: nat)  // the thread enters freeTask
    | Drop(thread: nat)
    | Delete(thread: nat)
    | EndRoot(task: nat)

  predicate Used(f: Forest, x: nat) {
    x < |f.slots| && f.slots[x].Task?
  }

  predicate Alive(f: Forest, x: nat) {
    Used(f, x) && f.slots[x].alive
  }

  predicate Free(f: Forest, x: nat) {
    x < |f.slots| && f.slots[x].InPool?
  }

  predicate ParentIs(f: Forest, y: nat, x: nat) {
    Used(f, y) && f.slots[y].parent == Some(x)
  }

  /** The pointer that a thread in freeTask holds. */
  predicate Holds(p: Phase, x: nat) {
    p == Dropping(x) || p == Deleting(x)
  }

  /** `y` is `x` or below it; at most `n` generations. */
  predicate Below(f: Forest, y: nat, x: nat, n: nat)
    decreases n
  {
    y == x || (n > 0 && Used(f, y) && f.slots[y].parent.Some? && Below(f, f.slots[y].parent.value, x, n - 1))
  }

  /** All tasks below the implicit task `x` have completed, and nobody is in freeTask for one of them. */
  ghost predicate Quiet(f: Forest, x: nat) {
    && (forall y: nat, n: nat :: Used(f, y) && y != x && Below(f, y, x, n) ==> !f.slots[y].alive)
    && (forall t, y: nat, n: nat :: 0 <= t < |f.phases| && Holds(f.phases[t], y) ==> !Below(f, y, x, n))
  }

  ghost predicate Enabled(f: Forest, step: Step) {
    match step
    case Grow => true
    case NewRoot(x) => Free(f, x)
    case Create(p, x) => Alive(f, p) && Free(f, x)
    case Complete(t, x) => t < |f.phases| && f.phases[t].Idle? && Alive(f, x) && f.slots[x].parent.Some?
    case Drop(t) => t < |f.phases| && f.phases[t].Dropping? && Used(f, f.phases[t].task)
    case Delete(t) => t < |f.phases| && f.phases[t].Deleting? && Used(f, f.phases[t].task)
    case EndRoot(x) => Alive(f, x) && f.slots[x].parent.None? && Quiet(f, x)
  }

  function Rooted(f: Forest, x: nat): Forest
    requires Free(f, x)
  {
    f.(slots := f.slots[x := Task(|f.mother|, None, 1, true)], mother := f.mother + [None])
  }

  /** The parent's count goes up. */
  function Created(f: Forest, p: nat, x: nat): Forest
    requires Used(f, p) && Free(f, x)
  {
    var s := f.slots[p];
    f.(slots := f.slots[p := s.(refCount := s.refCount + 1)][x := Task(|f.mother|, Some(p), 1, true)],
       mother := f.mother + [Some(s.born)])
  }

  function Completed(f: Forest, t: nat, x: nat): Forest
    requires t < |f.phases| && Used(f, x)
  {
    f.(slots := f.slots[x := f.slots[x].(alive := false)], phases := f.phases[t := Dropping(x)])
  }

  function Dropped(f: Forest, t: nat, x: nat): Forest
    requires t < |f.phases| && Used(f, x)
  {
    var s := f.slots[x].(refCount := f.slots[x].refCount - 1);
    f.(slots := f.slots[x := s], phases := f.phases[t := if s.refCount == 0 then Deleting(x) else Idle])
  }

  /** Reset and return to the pool. */
  function Recycled(f: Forest, x: nat): Forest
    requires Used(f, x)
  {
    f.(slots := f.slots[x := InPool], freed := f.freed + [f.slots[x].born])
  }

  /** The thread goes on with the parent. */
  function Deleted(f: Forest, t: nat, x: nat): Forest
    requires t < |f.phases| && Used(f, x)
  {
    var parent := f.slots[x].parent;
    Recycled(f, x).(phases := f.phases[t := if parent.Some? then Dropping(parent.value) else Idle])
  }

  ghost function Next(f: Forest, step: Step): Forest
    requires Enabled(f, step)
  {
    match step
    case Grow => f.(slots := f.slots + [InPool])
    case NewRoot(x) => Rooted(f, x)
    case Create(p, x) => Created(f, p, x)
    case Complete(t, x) => Completed(f, t, x)
    case Drop(t) => Dropped(f, t, f.phases[t].task)
    case Delete(t) => Deleted(f, t, f.phases[t].task)
    case EndRoot(x) => Recycled(f, x)
  }

  // ---------------------------------------------------------------------------
  // Invariant
  // ---------------------------------------------------------------------------

  ghost function Children(f: Forest, x: nat): set<nat> {
    set y | 0 <= y < |f.slots| && ParentIs(f, y, x)
  }

  ghost function Droppers(f: Forest, x: nat): set<nat> {
    set t | 0 <= t < |f.phases| && f.phases[t] == Dropping(x)
  }

  ghost function Deleters(f: Forest, x: nat): set<nat> {
    set t | 0 <= t < |f.phases| && f.phases[t] == Deleting(x)
  }

  /** The count is own liveness, children not yet freed, and decrements on their way. */
  ghost predicate Counted(f: Forest, x: nat)
    requires Used(f, x)
  {
    f.slots[x].refCount == |Children(f, x)| + |Droppers(f, x)| + if f.slots[x].alive then 1 else 0
  }

  /** The parent of a task is in use and still the task that created it. */
  ghost predicate HasParent(f: Forest, x: nat)
    requires Used(f, x)
  {
    var s := f.slots[x];
    && s.born < |f.mother|
    && match s.parent
       case None => s.alive && f.mother[s.born] == None
       case Some(p) => Used(f, p) && f.slots[p].born < s.born && f.mother[s.born] == Some(f.slots[p].born)
  }

  /** A task is at zero exactly while one thread deletes it. */
  ghost predicate Zeroed(f: Forest, x: nat)
    requires Used(f, x)
  {
    f.slots[x].refCount == 0 <==> Deleters(f, x) != {}
  }

  /** What is known of a task in use. */
  ghost predicate Good(f: Forest, x: nat)
    requires Used(f, x)
  {
    Counted(f, x) && HasParent(f, x) && Zeroed(f, x)
  }

  /** Threads hold tasks in use, and no two delete the same. */
  ghost predicate Careful(f: Forest) {
    && (forall t :: 0 <= t < |f.phases| && !f.phases[t].Idle? ==> Used(f, f.phases[t].task))
    && (forall t, u :: 0 <= t < u < |f.phases| && f.phases[t].Deleting? ==> f.phases[t] != f.phases[u])
  }

  ghost predicate Sound(f: Forest) {
    Careful(f) && forall x: nat :: Used(f, x) ==> Good(f, x)
  }

  /** Every task of the run is in use or freed, once. */
  ghost predicate Accounted(f: Forest) {
    && (forall x: nat, y: nat :: Used(f, x) && Used(f, y) && x != y ==> f.slots[x].born != f.slots[y].born)
    && (forall i, j :: 0 <= i < j < |f.freed| ==> f.freed[i] != f.freed[j])
    && (forall x: nat :: Used(f, x) ==> f.slots[x].born !in f.freed)
    && (forall b :: 0 <= b < |f.mother| ==> b in f.freed || exists x: nat :: Used(f, x) && f.slots[x].born == b)
    && (forall b :: b in f.freed ==> 0 <= b < |f.mother|)
  }

  /** A task's children are freed before it. */
  ghost predicate ChildrenFirst(f: Forest) {
    forall k, b :: 0 <= k < |f.freed| && 0 <= b < |f.mother| && f.mother[b] == Some(f.freed[k]) ==> b in f.freed[..k]
  }

  ghost predicate Inv(f: Forest) {
    Sound(f) && Accounted(f) && ChildrenFirst(f)
  }

  // Sound

  lemma GrowSound(f: Forest)
    requires Sound(f)
    ensures Sound(Next(f, Grow))
  {
    var g := Next(f, Grow);
    forall x: nat | Used(g, x)
      ensures Good(g, x)
    {
      assert Used(f, x) && Good(f, x);
      assert Children(g, x) == Children(f, x) && Droppers(g, x) == Droppers(f, x);
    }
  }

  /** Nothing refers to what is in the pool. */
  lemma PoolIsUnreferenced(f: Forest, x: nat)
    requires Sound(f) && Free(f, x)
    ensures Children(f, x) == {} && Droppers(f, x) == {} && Deleters(f, x) == {}
    ensures forall t :: 0 <= t < |f.phases| ==> !Holds(f.phases[t], x)
    ensures forall y: nat :: !ParentIs(f, y, x)
  {
    forall y: nat | Used(f, y)
      ensures !ParentIs(f, y, x)
    {
      assert Good(f, y);
    }
  }

  lemma RootedSound(f: Forest, x: nat)
    requires Sound(f) && Free(f, x)
    ensures Sound(Rooted(f, x))
  {
    var g := Rooted(f, x);
    PoolIsUnreferenced(f, x);
    forall y: nat | Used(g, y)
      ensures Good(g, y)
    {
      assert Children(g, y) == Children(f, y) && Droppers(g, y) == Droppers(f, y);
      assert y != x ==> Used(f, y) && Good(f, y);
    }
  }

  lemma SetsOfCreated(f: Forest, p: nat, x: nat, y: nat)
    requires Used(f, p) && Free(f, x)
    ensures Children(Created(f, p, x), y) == if y == p then Children(f, p) + {x} else Children(f, y)
    ensures x !in Children(f, y)
    ensures Droppers(Created(f, p, x), y) == Droppers(f, y) && Deleters(Created(f, p, x), y) == Deleters(f, y)
  {
  }

  lemma NewTaskGood(f: Forest, p: nat, x: nat)
    requires Sound(f) && Alive(f, p) && Free(f, x)
    ensures Good(Created(f, p, x), x)
  {
    PoolIsUnreferenced(f, x);
    SetsOfCreated(f, p, x, x);
    assert Good(f, p);
  }

  lemma OthersHaveParents(f: Forest, p: nat, x: nat, y: nat)
    requires Used(f, p) && Free(f, x) && Used(f, y) && HasParent(f, y)
    ensures HasParent(Created(f, p, x), y)
  {
  }

  lemma OthersGood(f: Forest, p: nat, x: nat, y: nat)
    requires Sound(f) && Alive(f, p) && Free(f, x) && Used(f, y)
    ensures Good(Created(f, p, x), y)
  {
    assert Good(f, y);
    SetsOfCreated(f, p, x, y);
    OthersHaveParents(f, p, x, y);
    if y == p {
      assert |Children(f, p) + {x}| == |Children(f, p)| + 1;
      assert f.slots[p].refCount > 0;
    }
  }

  lemma CreatedSound(f: Forest, p: nat, x: nat)
    requires Sound(f) && Alive(f, p) && Free(f, x)
    ensures Sound(Created(f, p, x))
  {
    forall y: nat | Used(Created(f, p, x), y)
      ensures Good(Created(f, p, x), y)
    {
      if y == x {
        NewTaskGood(f, p, x);
      } else {
        assert Used(f, y);
        OthersGood(f, p, x, y);
      }
    }
  }

  lemma SetsOfCompleted(f: Forest, t: nat, x: nat, y: nat)
    requires t < |f.phases| && f.phases[t].Idle? && Used(f, x)
    ensures Children(Completed(f, t, x), y) == Children(f, y) && Deleters(Completed(f, t, x), y) == Deleters(f, y)
    ensures Droppers(Completed(f, t, x), y) == if y == x then Droppers(f, x) + {t} else Droppers(f, y)
    ensures t !in Droppers(f, y)
  {
  }

  /** Own liveness becomes a decrement on its way. */
  lemma CompletedGood(f: Forest, t: nat, x: nat, y: nat)
    requires Sound(f) && t < |f.phases| && f.phases[t].Idle? && Alive(f, x) && f.slots[x].parent.Some? && Used(f, y)
    ensures Good(Completed(f, t, x), y)
  {
    SetsOfCompleted(f, t, x, y);
    assert Good(f, y);
    CompletedHasParent(f, t, x, y);
    if y == x {
      assert |Droppers(f, x) + {t}| == |Droppers(f, x)| + 1;
    }
  }

  lemma CompletedHasParent(f: Forest, t: nat, x: nat, y: nat)
    requires t < |f.phases| && Used(f, x) && f.slots[x].parent.Some? && Used(f, y) && HasParent(f, y)
    ensures HasParent(Completed(f, t, x), y)
  {
  }

  lemma CompletedSound(f: Forest, t: nat, x: nat)
    requires Sound(f) && t < |f.phases| && f.phases[t].Idle? && Alive(f, x) && f.slots[x].parent.Some?
    ensures Sound(Completed(f, t, x))
  {
    forall y: nat | Used(Completed(f, t, x), y)
      ensures Good(Completed(f, t, x), y)
    {
      assert Used(f, y);
      CompletedGood(f, t, x, y);
    }
  }

  lemma SetsOfDropped(f: Forest, t: nat, x: nat, y: nat)
    requires t < |f.phases| && f.phases[t] == Dropping(x) && Used(f, x)
    ensures Children(Dropped(f, t, x), y) == Children(f, y)
    ensures Droppers(Dropped(f, t, x), y) == if y == x then Droppers(f, x) - {t} else Droppers(f, y)
    ensures Deleters(Dropped(f, t, x), y)
      == if y == x && f.slots[x].refCount == 1 then Deleters(f, x) + {t} else Deleters(f, y)
    ensures t in Droppers(f, x)
  {
  }

  lemma DroppedGood(f: Forest, t: nat, x: nat, y: nat)
    requires Sound(f) && t < |f.phases| && f.phases[t] == Dropping(x) && Used(f, x) && Used(f, y)
    ensures Good(Dropped(f, t, x), y)
  {
    SetsOfDropped(f, t, x, y);
    assert Good(f, y);
    DroppedHasParent(f, t, x, y);
    if y == x {
      assert |Droppers(f, x) - {t}| == |Droppers(f, x)| - 1;
      assert Deleters(f, x) == {};
    }
  }

  lemma DroppedHasParent(f: Forest, t: nat, x: nat, y: nat)
    requires t < |f.phases| && Used(f, x) && Used(f, y) && HasParent(f, y)
    ensures HasParent(Dropped(f, t, x), y)
  {
  }

  lemma DroppedCareful(f: Forest, t: nat, x: nat)
    requires Sound(f) && t < |f.phases| && f.phases[t] == Dropping(x) && Used(f, x)
    ensures Careful(Dropped(f, t, x))
  {
    assert Good(f, x) && t in Droppers(f, x) && Deleters(f, x) == {};
    forall u | 0 <= u < |f.phases|
      ensures f.phases[u] != Deleting(x)
    {
      assert u !in Deleters(f, x);
    }
  }

  lemma DroppedSound(f: Forest, t: nat, x: nat)
    requires Sound(f) && t < |f.phases| && f.phases[t] == Dropping(x) && Used(f, x)
    ensures Sound(Dropped(f, t, x))
  {
    DroppedCareful(f, t, x);
    forall y: nat | Used(Dropped(f, t, x), y)
      ensures Good(Dropped(f, t, x), y)
    {
      assert Used(f, y);
      DroppedGood(f, t, x, y);
    }
  }

  /** What a thread deletes has no children and no other thread holds it. */
  lemma ZeroIsUnreferenced(f: Forest, t: nat, x: nat)
    requires Sound(f) && t < |f.phases| && f.phases[t] == Deleting(x)
    ensures Used(f, x) && Children(f, x) == {} && Droppers(f, x) == {} && !f.slots[x].alive && f.slots[x].parent.Some?
    ensures forall u :: 0 <= u < |f.phases| && u != t ==> !Holds(f.phases[u], x)
    ensures forall y: nat :: !ParentIs(f, y, x)
  {
    assert Good(f, x) && t in Deleters(f, x);
    assert |Children(f, x)| == 0 && |Droppers(f, x)| == 0;
    forall y: nat | Used(f, y)
      ensures !ParentIs(f, y, x)
    {
      assert y !in Children(f, x);
    }
    forall u | 0 <= u < |f.phases| && u != t
      ensures !Holds(f.phases[u], x)
    {
      assert u !in Droppers(f, x);
    }
  }

  lemma SetsOfDeleted(f: Forest, t: nat, x: nat, p: nat, y: nat)
    requires t < |f.phases| && f.phases[t] == Deleting(x) && Used(f, x) && f.slots[x].parent == Some(p) && y != x
    ensures Children(Deleted(f, t, x), y) == if y == p then Children(f, p) - {x} else Children(f, y)
    ensures Droppers(Deleted(f, t, x), y) == if y == p then Droppers(f, p) + {t} else Droppers(f, y)
    ensures Deleters(Deleted(f, t, x), y) == Deleters(f, y)
    ensures x in Children(f, p) && t !in Droppers(f, p)
  {
  }

  lemma DeletedGood(f: Forest, t: nat, x: nat, p: nat, y: nat)
    requires Sound(f) && t < |f.phases| && f.phases[t] == Deleting(x) && Used(f, x) && f.slots[x].parent == Some(p)
    requires Used(f, y) && y != x
    ensures Good(Deleted(f, t, x), y)
  {
    ZeroIsUnreferenced(f, t, x);
    SetsOfDeleted(f, t, x, p, y);
    assert Good(f, y) && !ParentIs(f, y, x);
  }

  /** A child becomes a decrement on its way. */
  lemma DeletedSound(f: Forest, t: nat, x: nat)
    requires Sound(f) && t < |f.phases| && f.phases[t] == Deleting(x) && Used(f, x)
    ensures Sound(Deleted(f, t, x))
  {
    var g := Deleted(f, t, x);
    ZeroIsUnreferenced(f, t, x);
    assert Good(f, x);
    forall y: nat | Used(g, y)
      ensures Good(g, y)
    {
      assert Used(f, y) && y != x;
      DeletedGood(f, t, x, f.slots[x].parent.value, y);
    }
  }

  // Quiet trees

  lemma BelowParent(f: Forest, y: nat, x: nat, n: nat, z: nat)
    requires Below(f, y, x, n) && ParentIs(f, z, y)
    ensures Below(f, z, x, n + 1)
  {
  }

  /** What is completed and in nobody's hands is there for its children. */
  lemma DeadHasChild(f: Forest, y: nat) returns (z: nat)
    requires Sound(f) && Used(f, y) && !f.slots[y].alive && Droppers(f, y) == {} && Deleters(f, y) == {}
    ensures ParentIs(f, z, y) && f.slots[y].born < f.slots[z].born < |f.mother|
  {
    assert Good(f, y);
    assert Children(f, y) != {};
    z :| z in Children(f, y);
    assert Good(f, z);
  }

  /** Once all tasks below an implicit task have completed and are out of freeTask, none is left. */
  lemma {:induction false} NothingLeft(f: Forest, x: nat, y: nat, n: nat)
    requires Sound(f) && Quiet(f, x) && Used(f, x) && f.slots[x].parent.None? && Used(f, y) && Below(f, y, x, n)
    ensures y == x
    decreases |f.mother| - f.slots[y].born
  {
    if y != x {
      ClosedByPhases(f, x, y, n);
      var z := DeadHasChild(f, y);
      BelowParent(f, y, x, n, z);
      NothingLeft(f, x, z, n + 1);
      assert false;
    }
  }

  lemma ClosedByPhases(f: Forest, x: nat, y: nat, n: nat)
    requires Quiet(f, x) && Below(f, y, x, n)
    ensures Droppers(f, y) == {} && Deleters(f, y) == {}
  {
    forall t | 0 <= t < |f.phases|
      ensures !Holds(f.phases[t], y)
    {
    }
  }

  /** The check when an implicit task ends: its count is one. */
  lemma QuietRootHasCountOne(f: Forest, x: nat)
    requires Sound(f) && Quiet(f, x) && Alive(f, x) && f.slots[x].parent.None?
    ensures f.slots[x].refCount == 1 && Children(f, x) == {} && Droppers(f, x) == {} && Deleters(f, x) == {}
  {
    assert Below(f, x, x, 0);
    ClosedByPhases(f, x, x, 0);
    forall z | z in Children(f, x)
      ensures z == x
    {
      assert Below(f, z, x, 1) by { BelowParent(f, x, x, 0, z); }
      NothingLeft(f, x, z, 1);
    }
    assert Good(f, x);
    assert x !in Children(f, x);
  }

  lemma RecycledSound(f: Forest, x: nat)
    requires Sound(f) && Quiet(f, x) && Alive(f, x) && f.slots[x].parent.None?
    ensures Sound(Recycled(f, x)) && forall y: nat :: !ParentIs(f, y, x)
  {
    var g := Recycled(f, x);
    QuietRootHasCountOne(f, x);
    forall y: nat | Used(f, y)
      ensures !ParentIs(f, y, x)
    {
      assert y !in Children(f, x);
    }
    forall t | 0 <= t < |f.phases|
      ensures !Holds(f.phases[t], x)
    {
      assert t !in Droppers(f, x) && t !in Deleters(f, x);
    }
    forall y: nat | Used(g, y)
      ensures Good(g, y)
    {
      assert Used(f, y) && Good(f, y) && !ParentIs(f, y, x);
      assert Children(g, y) == Children(f, y) && Droppers(g, y) == Droppers(f, y) && Deleters(g, y) == Deleters(f, y);
    }
  }

  // Births and frees

  ghost predicate SameTasks(f: Forest, g: Forest) {
    && g.mother == f.mother && g.freed == f.freed
    && (forall x: nat :: Used(f, x) <==> Used(g, x))
    && (forall x: nat :: Used(f, x) ==> g.slots[x].born == f.slots[x].born)
  }

  lemma SameTasksAccounted(f: Forest, g: Forest)
    requires SameTasks(f, g) && Accounted(f)
    ensures Accounted(g)
  {
    forall b | 0 <= b < |g.mother| && b !in g.freed
      ensures exists x: nat :: Used(g, x) && g.slots[x].born == b
    {
      var x: nat :| Used(f, x) && f.slots[x].born == b;
      assert Used(g, x) && g.slots[x].born == b;
    }
  }

  /** Slot `x` gets a new task. */
  ghost predicate NewTask(f: Forest, g: Forest, x: nat) {
    && |g.mother| == |f.mother| + 1 && g.mother[..|f.mother|] == f.mother && g.freed == f.freed
    && Free(f, x) && Used(g, x) && g.slots[x].born == |f.mother|
    && (forall y: nat :: y != x ==> (Used(f, y) <==> Used(g, y)))
    && (forall y: nat :: y != x && Used(f, y) ==> g.slots[y].born == f.slots[y].born)
  }

  lemma NewTaskAccounted(f: Forest, g: Forest, x: nat)
    requires NewTask(f, g, x) && Accounted(f) && forall y: nat :: Used(f, y) ==> f.slots[y].born < |f.mother|
    ensures Accounted(g)
  {
    forall b | 0 <= b < |g.mother| && b !in g.freed
      ensures exists y: nat :: Used(g, y) && g.slots[y].born == b
    {
      if b < |f.mother| {
        var y: nat :| Used(f, y) && f.slots[y].born == b;
        assert Used(g, y) && g.slots[y].born == b;
      }
    }
  }

  /** The birth of the task in slot `p`. */
  ghost function BornOf(f: Forest, p: Option<nat>): Option<nat> {
    if p.Some? && Used(f, p.value) then Some(f.slots[p.value].born) else None
  }

  lemma NewTaskChildrenFirst(f: Forest, g: Forest, x: nat, p: Option<nat>)
    requires NewTask(f, g, x) && Accounted(f) && ChildrenFirst(f)
    requires g.mother[|f.mother|] == BornOf(f, p)
    ensures ChildrenFirst(g)
  {
    forall k, b | 0 <= k < |g.freed| && 0 <= b < |g.mother| && g.mother[b] == Some(g.freed[k])
      ensures b in g.freed[..k]
    {
      assert g.freed[k] in f.freed;
      assert b < |f.mother| ==> g.mother[b] == f.mother[b];
    }
  }

  /** The task in slot `x` is freed. */
  ghost predicate FreesTask(f: Forest, g: Forest, x: nat) {
    && Used(f, x) && g.mother == f.mother && g.freed == f.freed + [f.slots[x].born]
    && g.slots == f.slots[x := InPool]
  }

  lemma FreesTaskAccounted(f: Forest, g: Forest, x: nat)
    requires FreesTask(f, g, x) && Accounted(f) && f.slots[x].born < |f.mother|
    ensures Accounted(g)
  {
    forall b | 0 <= b < |g.mother| && b !in g.freed
      ensures exists y: nat :: Used(g, y) && g.slots[y].born == b
    {
      assert b !in f.freed;
      var y: nat :| Used(f, y) && f.slots[y].born == b;
      assert Used(g, y) && g.slots[y].born == b;
    }
  }

  lemma FreesTaskChildrenFirst(f: Forest, g: Forest, x: nat)
    requires FreesTask(f, g, x) && Sound(f) && Accounted(f) && ChildrenFirst(f) && forall y: nat :: !ParentIs(f, y, x)
    ensures ChildrenFirst(g)
  {
    forall y: nat | Used(f, y)
      ensures f.slots[y].born < |f.mother| && f.mother[f.slots[y].born] != Some(f.slots[x].born)
    {
      assert Good(f, y) && !ParentIs(f, y, x);
    }
    forall k, b | 0 <= k < |g.freed| && 0 <= b < |g.mother| && g.mother[b] == Some(g.freed[k])
      ensures b in g.freed[..k]
    {
      if k < |f.freed| {
        assert g.freed[..k] == f.freed[..k] && g.freed[k] == f.freed[k];
      } else {
        assert g.freed[..k] == f.freed;
      }
    }
  }

  lemma StepKeepsSound(f: Forest, step: Step)
    requires Inv(f) && Enabled(f, step)
    ensures Sound(Next(f, step))
  {
    match step
    case Grow => GrowSound(f);
    case NewRoot(x) => RootedSound(f, x);
    case Create(p, x) => CreatedSound(f, p, x);
    case Complete(t, x) => CompletedSound(f, t, x);
    case Drop(t) => DroppedSound(f, t, f.phases[t].task);
    case Delete(t) => DeletedSound(f, t, f.phases[t].task);
    case EndRoot(x) => RecycledSound(f, x);
  }

  lemma FreesTaskKeeps(f: Forest, g: Forest, x: nat)
    requires FreesTask(f, g, x) && Inv(f) && forall y: nat :: !ParentIs(f, y, x)
    ensures Accounted(g) && ChildrenFirst(g)
  {
    BornBefore(f);
    FreesTaskAccounted(f, g, x);
    FreesTaskChildrenFirst(f, g, x);
  }

  lemma NewTaskKeeps(f: Forest, g: Forest, x: nat, p: Option<nat>)
    requires NewTask(f, g, x) && Inv(f)
    requires g.mother[|f.mother|] == BornOf(f, p)
    ensures Accounted(g) && ChildrenFirst(g)
  {
    BornBefore(f);
    NewTaskAccounted(f, g, x);
    NewTaskChildrenFirst(f, g, x, p);
  }

  lemma StepKeepsTasks(f: Forest, step: Step)
    requires Inv(f) && Enabled(f, step) && (step.Grow? || step.Complete? || step.Drop?)
    ensures SameTasks(f, Next(f, step))
  {
  }

  lemma StepKeepsInv(f: Forest, step: Step)
    requires Inv(f) && Enabled(f, step)
    ensures Inv(Next(f, step))
  {
    var g := Next(f, step);
    StepKeepsSound(f, step);
    match step
    case Grow =>
      StepKeepsTasks(f, step);
      SameTasksAccounted(f, g);
    case Complete(_, _) =>
      StepKeepsTasks(f, step);
      SameTasksAccounted(f, g);
    case Drop(_) =>
      StepKeepsTasks(f, step);
      SameTasksAccounted(f, g);
    case NewRoot(x) => NewTaskKeeps(f, g, x, None);
    case Create(p, x) => NewTaskKeeps(f, g, x, Some(p));
    case Delete(t) =>
      ZeroIsUnreferenced(f, t, f.phases[t].task);
      FreesTaskKeeps(f, g, f.phases[t].task);
    case EndRoot(x) =>
      RecycledSound(f, x);
      FreesTaskKeeps(f, g, x);
  }

  lemma BornBefore(f: Forest)
    requires Sound(f)
    ensures forall x: nat :: Used(f, x) ==> f.slots[x].born < |f.mother|
  {
    forall x: nat | Used(f, x)
      ensures f.slots[x].born < |f.mother|
    {
      assert Good(f, x);
    }
  }

  // ---------------------------------------------------------------------------
  // Whole runs
  // ---------------------------------------------------------------------------

  ghost predicate Initial(f: Forest) {
    && (forall x :: 0 <= x < |f.slots| ==> f.slots[x].InPool?)
    && (forall t :: 0 <= t < |f.phases| ==> f.phases[t].Idle?)
    && f.mother == [] && f.freed == []
  }

  ghost predicate IsRun(fs: seq<Forest>, steps: seq<Step>) {
    && |fs| == |steps| + 1 && Initial(fs[0])
    && forall i :: 0 <= i < |steps| ==> Enabled(fs[i], steps[i]) && fs[i + 1] == Next(fs[i], steps[i])
  }

  lemma {:induction false} RunKeepsInv(fs: seq<Forest>, steps: seq<Step>, i: nat)
    requires IsRun(fs, steps) && i < |fs|
    ensures Inv(fs[i])
  {
    if i > 0 {
      RunKeepsInv(fs, steps, i - 1);
      StepKeepsInv(fs[i - 1], steps[i - 1]);
    }
  }

  /** In every reachable state the count is own liveness, plus children not freed, plus decrements on their way. */
  lemma CountsAreExact(fs: seq<Forest>, steps: seq<Step>, i: nat, x: nat)
    requires IsRun(fs, steps) && i < |fs| && Used(fs[i], x)
    ensures fs[i].slots[x].refCount ==
      |Children(fs[i], x)| + |Droppers(fs[i], x)| + if fs[i].slots[x].alive then 1 else 0
  {
    RunKeepsInv(fs, steps, i);
    assert Good(fs[i], x);
  }

  /** The parent pointer of a task in use leads to the task that created it: its slot was not recycled. */
  lemma ParentIsNotRecycled(fs: seq<Forest>, steps: seq<Step>, i: nat, x: nat, p: nat)
    requires IsRun(fs, steps) && i < |fs| && ParentIs(fs[i], x, p)
    ensures Used(fs[i], p) && fs[i].slots[x].born < |fs[i].mother|
    ensures fs[i].mother[fs[i].slots[x].born] == Some(fs[i].slots[p].born)
  {
    RunKeepsInv(fs, steps, i);
    assert Good(fs[i], x);
  }

  /** Task `b` was created below task `a`, `n` generations down. */
  predicate Descends(mother: seq<Option<nat>>, b: nat, a: nat, n: nat)
    decreases n
  {
    if n == 0 then b == a
    else b < |mother| && mother[b].Some? && Descends(mother, mother[b].value, a, n - 1)
  }

  /** Every task is freed at most once, and only after all its descendants. */
  lemma FreedOnceAfterDescendants(fs: seq<Forest>, steps: seq<Step>, i: nat, k: nat, b: nat, n: nat)
    requires IsRun(fs, steps) && i < |fs| && k < |fs[i].freed| && n > 0 && Descends(fs[i].mother, b, fs[i].freed[k], n)
    ensures b in fs[i].freed[..k]
    ensures forall j :: 0 <= j < |fs[i].freed| && j != k ==> fs[i].freed[j] != fs[i].freed[k]
  {
    RunKeepsInv(fs, steps, i);
    DescendantsFirst(fs[i], k, b, n);
  }

  lemma {:induction false} DescendantsFirst(f: Forest, k: nat, b: nat, n: nat)
    requires ChildrenFirst(f) && k < |f.freed| && n > 0 && Descends(f.mother, b, f.freed[k], n)
    ensures b in f.freed[..k]
    decreases n
  {
    if n > 1 {
      var c := f.mother[b].value;
      DescendantsFirst(f, k, c, n - 1);
      var j :| 0 <= j < k && f.freed[j] == c;
      assert b in f.freed[..j];
    }
  }

  /** When all threads are out of freeTask and all explicit tasks have completed, none is left. */
  lemma NoTaskLeaks(fs: seq<Forest>, steps: seq<Step>, i: nat, x: nat)
    requires IsRun(fs, steps) && i < |fs| && (forall t :: 0 <= t < |fs[i].phases| ==> fs[i].phases[t].Idle?)
    requires forall y: nat :: Used(fs[i], y) && fs[i].slots[y].parent.Some? ==> !fs[i].slots[y].alive
    requires Used(fs[i], x)
    ensures fs[i].slots[x].parent.None? && fs[i].slots[x].refCount == 1
  {
    RunKeepsInv(fs, steps, i);
    OnlyRoots(fs[i], x);
    assert Good(fs[i], x);
    forall y | y in Children(fs[i], x)
      ensures false
    {
      OnlyRoots(fs[i], y);
    }
  }

  lemma {:induction false} OnlyRoots(f: Forest, x: nat)
    requires Sound(f) && (forall t :: 0 <= t < |f.phases| ==> f.phases[t].Idle?) && Used(f, x)
    requires forall y: nat :: Used(f, y) && f.slots[y].parent.Some? ==> !f.slots[y].alive
    ensures f.slots[x].parent.None? && Droppers(f, x) == {}
    decreases |f.mother| - f.slots[x].born
  {
    if f.slots[x].parent.Some? {
      var z := DeadHasChild(f, x);
      OnlyRoots(f, z);
      assert false;
    }
  }

  // ---------------------------------------------------------------------------
  // The loop
  // ---------------------------------------------------------------------------

  /** How far a thread in freeTask still has to go at most. */
  ghost function Height(f: Forest, t: nat): nat {
    if t >= |f.phases| || f.phases[t].Idle? || !Used(f, f.phases[t].task) then 0
    else 2 * f.slots[f.phases[t].task].born + if f.phases[t].Dropping? then 2 else 1
  }

  /** The next step of a thread in freeTask. */
  function Climb(f: Forest, t: nat): Forest
    requires t < |f.phases| && !f.phases[t].Idle? && Used(f, f.phases[t].task)
  {
    if f.phases[t].Dropping? then Dropped(f, t, f.phases[t].task) else Deleted(f, t, f.phases[t].task)
  }

  /** It leads to a parent, which is older. */
  lemma ClimbGoesUp(f: Forest, t: nat)
    requires Inv(f) && t < |f.phases| && !f.phases[t].Idle?
    ensures Used(f, f.phases[t].task) && Inv(Climb(f, t))
    ensures var g := Climb(f, t); t < |g.phases| && Height(g, t) < Height(f, t)
  {
    var x := f.phases[t].task;
    assert Used(f, x) && Good(f, x);
    StepKeepsInv(f, if f.phases[t].Dropping? then Drop(t) else Delete(t));
  }

  predicate Own(step: Step, t: nat) {
    step == Drop(t) || step == Delete(t)
  }

  /** What other threads do does not touch the task that a thread in freeTask holds. */
  lemma OthersKeepHeight(f: Forest, step: Step, t: nat)
    requires Inv(f) && Enabled(f, step) && t < |f.phases| && !f.phases[t].Idle? && !Own(step, t)
    ensures var g, x := Next(f, step), f.phases[t].task;
      && |g.phases| == |f.phases| && g.phases[t] == f.phases[t]
      && Used(f, x) && Used(g, x) && g.slots[x].born == f.slots[x].born
  {
    var x := f.phases[t].task;
    assert Used(f, x);
    match step
    case Delete(u) => ZeroIsUnreferenced(f, u, f.phases[u].task);
    case EndRoot(r) =>
      QuietRootHasCountOne(f, r);
      assert t !in Droppers(f, r) && t !in Deleters(f, r);
    case _ =>
  }

  /** The steps of thread `t` in freeTask, from state `a` to state `b`. */
  function OwnSteps(steps: seq<Step>, t: nat, a: nat, b: nat): nat
    requires b <= |steps|
    decreases b
  {
    if b <= a then 0 else OwnSteps(steps, t, a, b - 1) + if Own(steps[b - 1], t) then 1 else 0
  }

  lemma StepUsesHeight(f: Forest, step: Step, t: nat)
    requires Inv(f) && Enabled(f, step) && t < |f.phases| && !f.phases[t].Idle?
    ensures Height(Next(f, step), t) + (if Own(step, t) then 1 else 0) <= Height(f, t)
  {
    if Own(step, t) {
      ClimbGoesUp(f, t);
    } else {
      OthersKeepHeight(f, step, t);
    }
  }

  /** Thread `t` is in freeTask in all states from `a` to `b`, except perhaps the last. */
  predicate Climbing(fs: seq<Forest>, t: nat, a: nat, b: nat) {
    a <= b < |fs| && forall i :: a <= i < b ==> t < |fs[i].phases| && !fs[i].phases[t].Idle?
  }

  /** Step `i` takes thread `t` no further away from the end, and each own step closer. */
  ghost predicate Falls(fs: seq<Forest>, steps: seq<Step>, t: nat, i: nat) {
    i < |steps| < |fs| && Height(fs[i + 1], t) + (if Own(steps[i], t) then 1 else 0) <= Height(fs[i], t)
  }

  lemma {:induction false} StepsUseUpHeight(fs: seq<Forest>, steps: seq<Step>, t: nat, a: nat, b: nat)
    requires a <= b <= |steps| < |fs| && forall i :: a <= i < b ==> Falls(fs, steps, t, i)
    ensures OwnSteps(steps, t, a, b) + Height(fs[b], t) <= Height(fs[a], t)
    decreases b
  {
    if a < b {
      StepsUseUpHeight(fs, steps, t, a, b - 1);
      assert Falls(fs, steps, t, b - 1);
    }
  }

  lemma RunFalls(fs: seq<Forest>, steps: seq<Step>, t: nat, i: nat)
    requires IsRun(fs, steps) && i < |steps| && t < |fs[i].phases| && !fs[i].phases[t].Idle?
    ensures Falls(fs, steps, t, i)
  {
    RunKeepsInv(fs, steps, i);
    StepUsesHeight(fs[i], steps[i], t);
  }

  lemma ClimbingFalls(fs: seq<Forest>, steps: seq<Step>, t: nat, a: nat, b: nat)
    requires IsRun(fs, steps) && Climbing(fs, t, a, b)
    ensures forall i :: a <= i < b ==> Falls(fs, steps, t, i)
  {
    forall i | a <= i < b
      ensures Falls(fs, steps, t, i)
    {
      RunFalls(fs, steps, t, i);
    }
  }

  lemma StillClimbing(f: Forest, t: nat)
    requires Inv(f) && t < |f.phases| && !f.phases[t].Idle?
    ensures Height(f, t) > 0
  {
  }

  /**
   Whatever the other threads do, a thread that completes a task takes at most twice as many
   steps in freeTask as there were tasks before that one, plus two, and fewer until it leaves.
   */
  lemma FreeTaskEnds(fs: seq<Forest>, steps: seq<Step>, t: nat, x: nat, a: nat, b: nat)
    requires IsRun(fs, steps) && a < |steps| && steps[a] == Complete(t, x) && Climbing(fs, t, a + 1, b)
    ensures Used(fs[a], x) && OwnSteps(steps, t, a + 1, b) <= 2 * fs[a].slots[x].born + 2
    ensures t < |fs[b].phases| && !fs[b].phases[t].Idle? ==> OwnSteps(steps, t, a + 1, b) < 2 * fs[a].slots[x].born + 2
  {
    ClimbingFalls(fs, steps, t, a + 1, b);
    StepsUseUpHeight(fs, steps, t, a + 1, b);
    assert Height(Completed(fs[a], t, x), t) == 2 * fs[a].slots[x].born + 2;
    if t < |fs[b].phases| && !fs[b].phases[t].Idle? {
      RunKeepsInv(fs, steps, b);
      StillClimbing(fs[b], t);
    }
  }

  /** The loop of freeTask ends, whatever other threads have done before. */
  method FreeTask(f0: Forest, t: nat) returns (f: Forest)
    requires Inv(f0) && t < |f0.phases|
    ensures Inv(f) && f.phases == f0.phases[t := Idle] && f.mother == f0.mother && f0.freed <= f.freed
  {
    f := f0;
    while !f.phases[t].Idle?
      invariant Inv(f) && |f.phases| == |f0.phases| && f.phases == f0.phases[t := f.phases[t]]
      invariant f.mother == f0.mother && f0.freed <= f.freed
      decreases Height(f, t)
    {
      ClimbGoesUp(f, t);
      f := Climb(f, t);
    }
  }
}
