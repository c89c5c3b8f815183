/**
 The clock-state stack of one thread that executes tied tasks (src/ompt-critical.cpp).

 A callback of the OpenMP runtime is a short script of state changes and arcs.  For every
 schedule that respects the stack discipline of tied tasks (section 2.12.6 of OpenMP 5.1), the
 clock-state stack is the concatenation of what the tasks on the thread have pushed, all
 checks of the code hold, and all arcs happen in the OpenMP state.
 */
module TaskStack {
  import opened Clocks

  // ---------------------------------------------------------------------------
  // Scripts
  // ---------------------------------------------------------------------------

  datatype Action =
    | Push(cs: ClockState)                             // enterState(cs)
    | Pop                                              // exitState()
    | PopFromTo(from: ClockState, next: ClockState)    // exitState(from, next)
    | Arc                                              // OmpHBefore or OmpHAfter

  /** `ok` is false once a check of the code has failed or an arc was taken outside the OpenMP state. */
  datatype Outcome = Outcome(clock: ThreadValue, ok: bool)

  function Popped(o: Outcome, time: real): Outcome
    requires o.clock.Valid()
  {
    if |o.clock.stack| > 1 && o.clock.State() != Init
    then o.(clock := Exited(true, o.clock, time))
    else o.(ok := false)
  }

  function Do(o: Outcome, a: Action, time: real): (r: Outcome)
    requires o.clock.Valid()
    ensures r.clock.Valid()
  {
    match a
    case Push(cs) => o.(clock := Entered(true, o.clock, time, cs))
    case Pop => Popped(o, time)
    case PopFromTo(from, next) =>
      var r := Popped(o, time);
      r.(ok := r.ok && o.clock.State() == from && r.clock.State() == next)
    case Arc => o.(ok := o.ok && o.clock.State() == Omp)
  }

  // ---------------------------------------------------------------------------
  // Tasks on a thread
  // ---------------------------------------------------------------------------

  /** What a task does besides computing: wait in a sync region, run an inner parallel region, wait for a lock. */
  datatype Region = Free | Sync | Inner | Lock

  /** A task on the thread; all but the topmost are suspended or encountered an inner parallel region. */
  datatype Frame = Frame(implicit: bool, region: Region, suspended: bool)

  datatype Thread = Thread(out: Outcome, base: seq<ClockState>, frames: seq<Frame>)

  datatype Callback =
    | ImplicitBegin
    | ImplicitEnd
    | ParallelBegin
    | ParallelEnd
    | SyncBegin
    | SyncEnd
    | MutexAcquire
    | MutexAcquired
    | Timed                  // task creation, dependences, end of a taskgroup, release of a lock
    | SwitchToNew            // the current task is suspended, a new one starts
    | CompleteToNew          // the current task completes, a new one starts
    | CompleteToSuspended    // the current task completes, the one below resumes

  function Top(t: Thread): Frame
    requires t.frames != []
  {
    t.frames[|t.frames| - 1]
  }

  /** The order in which the runtime may call back. */
  predicate Legal(t: Thread, c: Callback) {
    match c
    case ImplicitBegin => t.frames == [] || Top(t).region == Inner
    case _ =>
      && t.frames != []
      && var f := Top(t);
         match c
         case ImplicitEnd => f.implicit && f.region == Free
         case ParallelBegin => f.region == Free
         case ParallelEnd => f.region == Inner
         case SyncBegin => f.region == Free
         case SyncEnd => f.region == Sync
         case MutexAcquire => f.region == Free
         case MutexAcquired => f.region == Lock
         case Timed => f.region == Free
         case SwitchToNew => f.region == Free || f.region == Sync
         case CompleteToNew => !f.implicit && f.region == Free
         case CompleteToSuspended => !f.implicit && f.region == Free
         case _ => true
  }

  /** The state changes and arcs of a callback; `inBarrier` is about the task that resumes, if any. */
  function Script(c: Callback, inBarrier: bool): seq<Action> {
    match c
    case ImplicitBegin => [Arc, Push(Useful)]
    case ImplicitEnd => [Pop]
    case ParallelBegin => [Push(Omp), Arc]
    case ParallelEnd => [Pop]
    case SyncBegin => [Push(Omp), Arc]
    case SyncEnd => [Arc, Pop]
    case MutexAcquire => [Push(Omp)]
    case MutexAcquired => [Arc, Pop]
    case Timed => [Push(Omp), Arc, Pop]
    case SwitchToNew => [Push(Omp), Arc, Push(Useful)]
    case CompleteToNew => [PopFromTo(Useful, Omp), Arc, Push(Useful)]
    case CompleteToSuspended => [PopFromTo(Useful, Omp), Arc, PopFromTo(Omp, if inBarrier then Omp else Useful)]
  }

  function Run(o: Outcome, script: seq<Action>, time: real): (r: Outcome)
    requires o.clock.Valid()
    ensures r.clock.Valid()
    decreases |script|
  {
    if script == [] then o else Run(Do(o, script[0], time), script[1..], time)
  }

  function Enter(t: Thread, r: Region): seq<Frame>
    requires t.frames != []
  {
    t.frames[|t.frames| - 1 := Top(t).(region := r)]
  }

  const NEW_TASK := Frame(false, Free, false)

  function FramesAfter(t: Thread, c: Callback): seq<Frame>
    requires Legal(t, c)
  {
    match c
    case ImplicitBegin => t.frames + [Frame(true, Free, false)]
    case ImplicitEnd => t.frames[..|t.frames| - 1]
    case ParallelBegin => Enter(t, Inner)
    case ParallelEnd => Enter(t, Free)
    case SyncBegin => Enter(t, Sync)
    case SyncEnd => Enter(t, Free)
    case MutexAcquire => Enter(t, Lock)
    case MutexAcquired => Enter(t, Free)
    case Timed => t.frames
    case SwitchToNew => t.frames[|t.frames| - 1 := Top(t).(suspended := true)] + [NEW_TASK]
    case CompleteToNew => t.frames
    case CompleteToSuspended =>
      var rest := t.frames[..|t.frames| - 1];
      if rest == [] then rest else rest[|rest| - 1 := rest[|rest| - 1].(suspended := false)]
  }

  /** Is the task below the top in a barrier, taskwait or taskgroup? */
  predicate BelowInBarrier(t: Thread) {
    |t.frames| > 1 && t.frames[|t.frames| - 2].region == Sync
  }

  function Next(t: Thread, c: Callback, time: real): Thread
    requires t.out.clock.Valid() && Legal(t, c)
  {
    Thread(Run(t.out, Script(c, BelowInBarrier(t)), time), t.base, FramesAfter(t, c))
  }

  // ---------------------------------------------------------------------------
  // The stack is the concatenation of the frames
  // ---------------------------------------------------------------------------

  function Pushed(f: Frame): seq<ClockState> {
    [Useful] + (if f.region == Free then [] else [Omp]) + (if f.suspended then [Omp] else [])
  }

  function Flatten(fs: seq<Frame>): seq<ClockState> {
    if fs == [] then [] else Flatten(fs[..|fs| - 1]) + Pushed(fs[|fs| - 1])
  }

  predicate InitOnlyAtBottom(stack: seq<ClockState>) {
    |stack| > 0 && stack[0] == Init && forall i :: 0 < i < |stack| ==> stack[i] != Init
  }

  /** The stack below the tasks ends in the OpenMP state: the thread began, or encountered the parallel region. */
  predicate GoodBase(base: seq<ClockState>) {
    InitOnlyAtBottom(base) && |base| > 1 && base[|base| - 1] == Omp
  }

  /** Only a task that was suspended or runs an inner region has something above it. */
  predicate Layered(fs: seq<Frame>) {
    && (forall i :: 0 <= i < |fs| - 1 ==> if fs[i + 1].implicit then fs[i].region == Inner && !fs[i].suspended
                                         else fs[i].suspended && (fs[i].region == Free || fs[i].region == Sync))
    && (fs != [] ==> fs[0].implicit && !fs[|fs| - 1].suspended)
  }

  predicate Inv(t: Thread) {
    && t.out.clock.Valid() && t.out.ok
    && GoodBase(t.base) && Layered(t.frames)
    && t.out.clock.stack == StackOf(t.base, t.frames)
  }

  // The same scripts on the stack alone

  datatype View = View(stack: seq<ClockState>, ok: bool)

  function ViewOf(o: Outcome): View {
    View(o.clock.stack, o.ok)
  }

  function DropLast(s: seq<ClockState>): seq<ClockState>
    requires |s| > 0
  {
    s[..|s| - 1]
  }

  function DoStack(v: View, a: Action): (r: View)
    requires |v.stack| > 0
    ensures |r.stack| > 0
  {
    var n := |v.stack|;
    match a
    case Push(cs) => v.(stack := v.stack + [cs])
    case Pop => if n > 1 && v.stack[n - 1] != Init then v.(stack := DropLast(v.stack)) else v.(ok := false)
    case PopFromTo(from, next) =>
      if n > 1 && v.stack[n - 1] != Init
      then View(DropLast(v.stack), v.ok && v.stack[n - 1] == from && v.stack[n - 2] == next)
      else v.(ok := false)
    case Arc => v.(ok := v.ok && v.stack[n - 1] == Omp)
  }

  lemma DoOnStack(o: Outcome, a: Action, time: real)
    requires o.clock.Valid()
    ensures ViewOf(Do(o, a, time)) == DoStack(ViewOf(o), a)
  {
  }

  function RunStack(v: View, script: seq<Action>): View
    requires |v.stack| > 0
    decreases |script|
  {
    if script == [] then v else RunStack(DoStack(v, script[0]), script[1..])
  }

  lemma {:induction false} RunOnStack(o: Outcome, script: seq<Action>, time: real)
    requires o.clock.Valid()
    ensures ViewOf(Run(o, script, time)) == RunStack(ViewOf(o), script)
    decreases |script|
  {
    if script != [] {
      DoOnStack(o, script[0], time);
      RunOnStack(Do(o, script[0], time), script[1..], time);
    }
  }

  /** The stack after a callback. */
  function After(v: View, c: Callback, inBarrier: bool): View
    requires |v.stack| > 0
  {
    RunStack(v, Script(c, inBarrier))
  }

  lemma {:induction false} FirstAction(v: View, script: seq<Action>)
    requires |v.stack| > 0 && script != []
    ensures RunStack(v, script) == RunStack(DoStack(v, script[0]), script[1..])
  {
  }

  lemma {:induction false} Unrolled(v: View, script: seq<Action>)
    requires |v.stack| > 0
    ensures |script| == 1 ==> RunStack(v, script) == DoStack(v, script[0])
    ensures |script| == 2 ==> RunStack(v, script) == DoStack(DoStack(v, script[0]), script[1])
    ensures |script| == 3 ==> RunStack(v, script) == DoStack(DoStack(DoStack(v, script[0]), script[1]), script[2])
    decreases |script|
  {
    if 1 <= |script| <= 3 {
      FirstAction(v, script);
      Unrolled(DoStack(v, script[0]), script[1..]);
    }
  }

  /** A task that has something above it ends in the OpenMP state. */
  lemma UnderIsOmp(fs: seq<Frame>, base: seq<ClockState>)
    requires GoodBase(base)
    requires fs != [] ==> fs[|fs| - 1].suspended || fs[|fs| - 1].region != Free
    ensures var s := base + Flatten(fs); |s| > 1 && s[|s| - 1] == Omp
  {
  }

  /** The stack that the frames stand for. */
  function StackOf(base: seq<ClockState>, fs: seq<Frame>): seq<ClockState> {
    base + Flatten(fs)
  }

  /** The topmost task on what lies below it, which ends in the OpenMP state. */
  lemma TopOfStack(base: seq<ClockState>, fs: seq<Frame>, f: Frame)
    ensures StackOf(base, fs + [f]) == StackOf(base, fs) + Pushed(f)
  {
    assert (fs + [f])[..|fs|] == fs;
    assert base + (Flatten(fs) + Pushed(f)) == (base + Flatten(fs)) + Pushed(f);
  }

  lemma BelowTop(base: seq<ClockState>, fs: seq<Frame>)
    requires GoodBase(base) && Layered(fs) && fs != []
    ensures var u := StackOf(base, fs[..|fs| - 1]);
      |u| > 1 && u[|u| - 1] == Omp && StackOf(base, fs) == u + Pushed(fs[|fs| - 1])
  {
    var rest := fs[..|fs| - 1];
    assert fs == rest + [fs[|fs| - 1]];
    TopOfStack(base, rest, fs[|fs| - 1]);
    UnderIsOmp(rest, base);
  }

  /** What every callback has to establish for the stack. */
  predicate Fits(base: seq<ClockState>, fs: seq<Frame>, v: View) {
    GoodBase(base) && Layered(fs) && v.ok && v.stack == StackOf(base, fs)
  }

  lemma BeginFits(t: Thread, v: View)
    requires Legal(t, ImplicitBegin) && Fits(t.base, t.frames, v)
    ensures Fits(t.base, FramesAfter(t, ImplicitBegin), After(v, ImplicitBegin, false))
  {
    Unrolled(v, Script(ImplicitBegin, false));
    UnderIsOmp(t.frames, t.base);
    TopOfStack(t.base, t.frames, Frame(true, Free, false));
  }

  lemma EndFits(t: Thread, v: View)
    requires Legal(t, ImplicitEnd) && Fits(t.base, t.frames, v)
    ensures Fits(t.base, FramesAfter(t, ImplicitEnd), After(v, ImplicitEnd, false))
  {
    Unrolled(v, Script(ImplicitEnd, false));
    BelowTop(t.base, t.frames);
    var u := StackOf(t.base, t.frames[..|t.frames| - 1]);
    assert DropLast(u + [Useful]) == u;
  }

  lemma LayeredAfterRegion(fs: seq<Frame>, r: Region)
    requires Layered(fs) && fs != []
    ensures Layered(fs[|fs| - 1 := fs[|fs| - 1].(region := r)])
  {
  }

  predicate Enters(c: Callback, r: Region) {
    (c == ParallelBegin && r == Inner) || (c == SyncBegin && r == Sync) || (c == MutexAcquire && r == Lock)
  }

  predicate Leaves(c: Callback, r: Region) {
    (c == ParallelEnd && r == Inner) || (c == SyncEnd && r == Sync) || (c == MutexAcquired && r == Lock)
  }

  lemma EnterOnStack(s: seq<ClockState>, c: Callback, r: Region)
    requires |s| > 0 && Enters(c, r)
    ensures After(View(s, true), c, false) == View(s + [Omp], true)
  {
    Unrolled(View(s, true), Script(c, false));
  }

  lemma LeaveOnStack(s: seq<ClockState>, c: Callback, r: Region)
    requires |s| > 0 && Leaves(c, r)
    ensures After(View(s + [Omp], true), c, false) == View(s, true)
  {
    Unrolled(View(s + [Omp], true), Script(c, false));
    assert DropLast(s + [Omp]) == s;
  }

  lemma PushedRegion(u: seq<ClockState>, f: Frame, r: Region)
    requires !f.suspended && f.region == Free && r != Free
    ensures u + Pushed(f.(region := r)) == u + Pushed(f) + [Omp]
  {
  }

  /** Entering a sync region, an inner parallel region or a lock. */
  lemma EnterFits(t: Thread, c: Callback, r: Region, v: View)
    requires Legal(t, c) && Fits(t.base, t.frames, v) && Enters(c, r)
    ensures Fits(t.base, FramesAfter(t, c), After(v, c, false))
  {
    var f := Top(t);
    LayeredAfterRegion(t.frames, r);
    ReplaceTop(t.base, t.frames, f.(region := r));
    PushedRegion(StackOf(t.base, t.frames[..|t.frames| - 1]), f, r);
    EnterOnStack(v.stack, c, r);
  }

  /** Leaving it again. */
  lemma LeaveFits(t: Thread, c: Callback, r: Region, v: View)
    requires Legal(t, c) && Fits(t.base, t.frames, v) && Leaves(c, r)
    ensures Fits(t.base, FramesAfter(t, c), After(v, c, false))
  {
    var f := Top(t).(region := Free);
    LayeredAfterRegion(t.frames, Free);
    ReplaceTop(t.base, t.frames, f);
    PushedRegion(StackOf(t.base, t.frames[..|t.frames| - 1]), f, r);
    LeaveOnStack(StackOf(t.base, t.frames[|t.frames| - 1 := f]), c, r);
  }

  lemma TimedFits(t: Thread, v: View)
    requires Legal(t, Timed) && Fits(t.base, t.frames, v)
    ensures Fits(t.base, FramesAfter(t, Timed), After(v, Timed, false))
  {
    Unrolled(v, Script(Timed, false));
    BelowTop(t.base, t.frames);
    assert DropLast(v.stack + [Omp]) == v.stack;
  }

  lemma SwitchOnStack(u: seq<ClockState>, f: Frame)
    requires |u| > 0 && !f.suspended
    ensures After(View(u + Pushed(f), true), SwitchToNew, false)
      == View(u + Pushed(f.(suspended := true)) + Pushed(NEW_TASK), true)
  {
    Unrolled(View(u + Pushed(f), true), Script(SwitchToNew, false));
    assert u + Pushed(f.(suspended := true)) == u + Pushed(f) + [Omp];
  }

  lemma LayeredAfterSwitch(fs: seq<Frame>)
    requires Layered(fs) && fs != [] && (fs[|fs| - 1].region == Free || fs[|fs| - 1].region == Sync)
    ensures Layered(fs[|fs| - 1 := fs[|fs| - 1].(suspended := true)] + [NEW_TASK])
  {
  }

  lemma SwitchFits(t: Thread, v: View)
    requires Legal(t, SwitchToNew) && Fits(t.base, t.frames, v)
    ensures Fits(t.base, FramesAfter(t, SwitchToNew), After(v, SwitchToNew, false))
  {
    BelowTop(t.base, t.frames);
    LayeredAfterSwitch(t.frames);
    var f := Top(t);
    ReplaceTop(t.base, t.frames, f.(suspended := true));
    TopOfStack(t.base, t.frames[|t.frames| - 1 := f.(suspended := true)], NEW_TASK);
    SwitchOnStack(StackOf(t.base, t.frames[..|t.frames| - 1]), f);
  }

  lemma CompleteFits(t: Thread, v: View)
    requires Legal(t, CompleteToNew) && Fits(t.base, t.frames, v)
    ensures Fits(t.base, FramesAfter(t, CompleteToNew), After(v, CompleteToNew, false))
  {
    Unrolled(v, Script(CompleteToNew, false));
    BelowTop(t.base, t.frames);
    var u := StackOf(t.base, t.frames[..|t.frames| - 1]);
    assert DropLast(u + [Useful]) == u;
  }

  /** Completing the task above a suspended one and resuming that one, on any stack. */
  lemma ResumeOnStack(s: seq<ClockState>, inBarrier: bool)
    requires |s| > 0 && s[|s| - 1] == if inBarrier then Omp else Useful
    ensures After(View(s + [Omp] + [Useful], true), CompleteToSuspended, inBarrier) == View(s, true)
  {
    Unrolled(View(s + [Omp] + [Useful], true), Script(CompleteToSuspended, inBarrier));
    assert DropLast(s + [Omp] + [Useful]) == s + [Omp];
    assert DropLast(s + [Omp]) == s;
  }

  lemma PushedSuspended(u: seq<ClockState>, f: Frame)
    requires f.suspended && (f.region == Free || f.region == Sync)
    ensures var s := u + Pushed(f.(suspended := false));
      u + Pushed(f) == s + [Omp] && |s| > 0 && s[|s| - 1] == if f.region == Sync then Omp else Useful
  {
  }

  lemma LayeredAfterResume(fs: seq<Frame>)
    requires Layered(fs) && fs != [] && !fs[|fs| - 1].implicit
    ensures |fs| > 1 && var f := fs[|fs| - 2]; f.suspended && (f.region == Free || f.region == Sync)
    ensures var rest := fs[..|fs| - 1]; Layered(rest[|rest| - 1 := rest[|rest| - 1].(suspended := false)])
  {
  }

  /** What the topmost task of `fs` has pushed, and what replacing that task by `g` means. */
  lemma ReplaceTop(base: seq<ClockState>, fs: seq<Frame>, g: Frame)
    requires fs != []
    ensures StackOf(base, fs) == StackOf(base, fs[..|fs| - 1]) + Pushed(fs[|fs| - 1])
    ensures StackOf(base, fs[|fs| - 1 := g]) == StackOf(base, fs[..|fs| - 1]) + Pushed(g)
  {
    var rest := fs[..|fs| - 1];
    assert fs == rest + [fs[|fs| - 1]] && fs[|fs| - 1 := g] == rest + [g];
    TopOfStack(base, rest, fs[|fs| - 1]);
    TopOfStack(base, rest, g);
  }

  function Resumed(rest: seq<Frame>): seq<Frame>
    requires rest != []
  {
    rest[|rest| - 1 := rest[|rest| - 1].(suspended := false)]
  }

  lemma ResumedStack(base: seq<ClockState>, rest: seq<Frame>, f: Frame)
    requires rest != [] && f == rest[|rest| - 1] && f.suspended && (f.region == Free || f.region == Sync)
    ensures var s := StackOf(base, Resumed(rest));
      StackOf(base, rest) == s + [Omp] && |s| > 0 && s[|s| - 1] == if f.region == Sync then Omp else Useful
  {
    ReplaceTop(base, rest, f.(suspended := false));
    PushedSuspended(StackOf(base, rest[..|rest| - 1]), f);
  }

  lemma ResumeFits(t: Thread, v: View)
    requires Legal(t, CompleteToSuspended) && Fits(t.base, t.frames, v)
    ensures Fits(t.base, FramesAfter(t, CompleteToSuspended), After(v, CompleteToSuspended, BelowInBarrier(t)))
  {
    LayeredAfterResume(t.frames);
    BelowTop(t.base, t.frames);
    var rest, f := t.frames[..|t.frames| - 1], t.frames[|t.frames| - 2];
    assert v == View(StackOf(t.base, rest) + [Useful], true);
    assert FramesAfter(t, CompleteToSuspended) == Resumed(rest);
    ResumedStack(t.base, rest, f);
    ResumeOnStack(StackOf(t.base, Resumed(rest)), f.region == Sync);
  }

  lemma CallbackFits(t: Thread, c: Callback, v: View)
    requires Legal(t, c) && Fits(t.base, t.frames, v)
    ensures |v.stack| > 0 && Fits(t.base, FramesAfter(t, c), After(v, c, BelowInBarrier(t)))
  {
    match c
    case ImplicitBegin => BeginFits(t, v);
    case ImplicitEnd => EndFits(t, v);
    case Timed => TimedFits(t, v);
    case SwitchToNew => SwitchFits(t, v);
    case CompleteToNew => CompleteFits(t, v);
    case CompleteToSuspended => ResumeFits(t, v);
    case ParallelBegin => EnterFits(t, c, Inner, v);
    case SyncBegin => EnterFits(t, c, Sync, v);
    case MutexAcquire => EnterFits(t, c, Lock, v);
    case ParallelEnd => LeaveFits(t, c, Inner, v);
    case SyncEnd => LeaveFits(t, c, Sync, v);
    case MutexAcquired => LeaveFits(t, c, Lock, v);
  }

  lemma StepKeepsInv(t: Thread, c: Callback, time: real)
    requires Inv(t) && Legal(t, c)
    ensures Inv(Next(t, c, time))
  {
    RunOnStack(t.out, Script(c, BelowInBarrier(t)), time);
    CallbackFits(t, c, ViewOf(t.out));
  }

  // ---------------------------------------------------------------------------
  // Whole schedules
  // ---------------------------------------------------------------------------

  datatype Call = Call(callback: Callback, time: real)

  predicate IsSchedule(ts: seq<Thread>, calls: seq<Call>) {
    && |ts| == |calls| + 1
    && ts[0].frames == [] && ts[0].out.ok && GoodBase(ts[0].base) && ts[0].out.clock.stack == ts[0].base
    && forall i :: 0 <= i < |calls| ==>
         && ts[i].out.clock.Valid() && Legal(ts[i], calls[i].callback)
         && ts[i + 1] == Next(ts[i], calls[i].callback, calls[i].time)
  }

  /**
   After every callback of every legal schedule no check has failed, every arc was taken in
   the OpenMP state, the clock-state stack is the base followed by the frames of the tasks on
   the thread, and STATE_INIT occurs only at the bottom.
   */
  lemma {:induction false} ScheduleKeepsStack(ts: seq<Thread>, calls: seq<Call>, i: nat)
    requires IsSchedule(ts, calls) && i < |ts|
    ensures Inv(ts[i]) && ts[i].base == ts[0].base
    ensures InitOnlyAtBottom(ts[i].out.clock.stack)
  {
    if i == 0 {
      assert ts[0].base + Flatten([]) == ts[0].base;
    } else {
      ScheduleKeepsStack(ts, calls, i - 1);
      StepKeepsInv(ts[i - 1], calls[i - 1].callback, calls[i - 1].time);
    }
    NoInitInFrames(ts[i].frames);
  }

  lemma {:induction false} NoInitInFrames(fs: seq<Frame>)
    ensures forall i :: 0 <= i < |Flatten(fs)| ==> Flatten(fs)[i] != Init
  {
    if fs != [] {
      NoInitInFrames(fs[..|fs| - 1]);
    }
  }

  /** What a clock shows: its raw value, and the time if it runs. */
  function Shown(v: ThreadValue, k: ClockType, time: real): CpClocks
    requires v.Valid()
  {
    v.clocks[k].Plus(Potential(v.State(), k, time))
  }

  /** A switch of states changes the raw value of a running clock, not what it shows. */
  lemma ActionKeepsValues(o: Outcome, a: Action, time: real, k: ClockType)
    requires o.clock.Valid()
    ensures Shown(Do(o, a, time).clock, k, time) == Shown(o.clock, k, time)
  {
  }

  lemma {:induction false} ScriptKeepsValues(o: Outcome, script: seq<Action>, time: real, k: ClockType)
    requires o.clock.Valid()
    ensures Shown(Run(o, script, time).clock, k, time) == Shown(o.clock, k, time)
    decreases |script|
  {
    if script != [] {
      ActionKeepsValues(o, script[0], time, k);
      ScriptKeepsValues(Do(o, script[0], time), script[1..], time, k);
    }
  }

  /** In every schedule, what a clock shows just after a callback is what it showed just before. */
  lemma CallbackKeepsValues(ts: seq<Thread>, calls: seq<Call>, i: nat, k: ClockType)
    requires IsSchedule(ts, calls) && i < |calls|
    ensures ts[i].out.clock.Valid() && ts[i + 1].out.clock.Valid()
    ensures Shown(ts[i + 1].out.clock, k, calls[i].time) == Shown(ts[i].out.clock, k, calls[i].time)
  {
    ScriptKeepsValues(ts[i].out, Script(calls[i].callback, BelowInBarrier(ts[i])), calls[i].time, k);
  }

  function Arcs(script: seq<Action>): nat {
    if script == [] then 0 else (if script[0].Arc? then 1 else 0) + Arcs(script[1..])
  }

  /** Every callback takes one arc, except those that only end a region of one thread or begin to wait for a lock. */
  lemma OneArc(c: Callback, inBarrier: bool)
    ensures Arcs(Script(c, inBarrier)) == if c == ImplicitEnd || c == ParallelEnd || c == MutexAcquire then 0 else 1
  {
    ArcsOfShort(Script(c, inBarrier));
  }

  lemma {:induction false} ArcsOfShort(script: seq<Action>)
    requires |script| <= 3
    ensures Arcs(script) == (if |script| > 0 && script[0].Arc? then 1 else 0)
      + (if |script| > 1 && script[1].Arc? then 1 else 0) + if |script| > 2 && script[2].Arc? then 1 else 0
  {
    if script != [] {
      ArcsOfShort(script[1..]);
    }
  }

  /** When the parallel region is over, the thread's stack is what it was before. */
  lemma ScheduleRestoresStack(ts: seq<Thread>, calls: seq<Call>, i: nat)
    requires IsSchedule(ts, calls) && i < |ts| && ts[i].frames == []
    ensures ts[i].out.clock.stack == ts[0].out.clock.stack
  {
    ScheduleKeepsStack(ts, calls, i);
    assert ts[0].base + Flatten([]) == ts[0].base;
  }
}
