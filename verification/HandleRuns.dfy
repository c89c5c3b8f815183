/**
 Whole runs of the handle shim: how often the callbacks of a request run, and which completions merge
 a clock.

 Callbacks are numbered so that every request has its own; the code uses a few functions.
 */
module HandleRuns {
  import opened Options
  import opened Handles

  datatype Run = Run(states: seq<State>, steps: seq<Step>)

  datatype Kind = AtStart | AtCancel | AtCompletion

  function IdOf(c: Callbacks, kind: Kind): Option<nat> {
    match kind
    case AtStart => c.start
    case AtCancel => c.cancel
    case AtCompletion => if c.completion.Some? then Some(c.completion.value.id) else None
  }

  /** Is `c` a call of callback `k`? */
  predicate IsCall(c: Call, kind: Kind, k: nat) {
    match kind
    case AtStart => c == Starting(k)
    case AtCancel => c == Cancelling(k)
    case AtCompletion => c.Completing? && c.id == k
  }

  /** The operations of the application on request `x`. */
  predicate Acts(step: Step, kind: Kind, x: int) {
    match kind
    case AtStart => step == Start(x)
    case AtCancel => step == Cancel(x)
    case AtCompletion => step.Complete? && step.index == x
  }

  predicate MakesRequest(step: Step) {
    step.Post? || step.Move?
  }

  /** The step hands callback `k` to a new request. */
  predicate Issues(step: Step, kind: Kind, k: nat) {
    MakesRequest(step) && IdOf(step.callbacks, kind) == Some(k)
  }

  ghost predicate StepAt(r: Run, i: nat)
    requires i + 1 < |r.states| && i < |r.steps|
  {
    Enabled(r.states[i], r.steps[i]) && r.states[i + 1] == Next(r.states[i], r.steps[i])
  }

  /** No two steps hand out the same callback. */
  ghost predicate IssuesApart(r: Run) {
    forall i, j, kind: Kind, k: nat :: 0 <= i < j < |r.steps| && Issues(r.steps[i], kind, k) ==>
      !Issues(r.steps[j], kind, k)
  }

  ghost predicate IsRun(r: Run) {
    && |r.states| == |r.steps| + 1
    && r.states[0] == State(map[], map[], [])
    && (forall i :: 0 <= i < |r.steps| ==> StepAt(r, i))
    && IssuesApart(r)
  }

  /** How often callback `k` was called. */
  function Count(calls: seq<Call>, kind: Kind, k: nat): nat {
    if calls == [] then 0
    else Count(calls[..|calls| - 1], kind, k) + if IsCall(calls[|calls| - 1], kind, k) then 1 else 0
  }

  lemma CountMore(calls: seq<Call>, more: seq<Call>, kind: Kind, k: nat)
    requires |more| <= 1
    ensures Count(calls + more, kind, k) ==
      Count(calls, kind, k) + if more != [] && IsCall(more[0], kind, k) then 1 else 0
  {
    if more == [] {
      assert calls + more == calls;
    } else {
      assert (calls + more)[..|calls|] == calls;
    }
  }

  predicate Has(e: Entry, kind: Kind, k: nat) {
    IdOf(e.callbacks, kind) == Some(k)
  }

  /** Callback `k` belongs to request `x` and to no other. */
  ghost predicate Owns(s: State, x: int, kind: Kind, k: nat) {
    && x in s.requests && Has(s.requests[x], kind, k)
    && forall y :: y in s.requests && y != x ==> !Has(s.requests[y], kind, k)
  }

  ghost predicate Nowhere(s: State, kind: Kind, k: nat) {
    forall y :: y in s.requests ==> !Has(s.requests[y], kind, k)
  }

  /** What a step calls. */
  function CallsOf(s: State, step: Step): (r: seq<Call>)
    requires Enabled(s, step)
    ensures |r| <= 1 && Next(s, step).calls == s.calls + r
  {
    match step
    case Start(i) => Starts(s.requests[i])
    case Cancel(i) => Cancels(s.requests[i])
    case Complete(i, _) => Fires(s.requests[i])
    case _ => assert s.calls + [] == s.calls; []
  }

  /** A step calls `k` exactly if it is the operation of that kind on a request that has it. */
  lemma CallsOwn(s: State, step: Step, kind: Kind, k: nat)
    requires Enabled(s, step)
    ensures var calls := CallsOf(s, step);
      calls != [] && IsCall(calls[0], kind, k) <==>
        exists x :: x in s.requests && Has(s.requests[x], kind, k) && Acts(step, kind, x)
  {
    var calls := CallsOf(s, step);
    if calls != [] && IsCall(calls[0], kind, k) {
      assert Has(s.requests[step.index], kind, k) && Acts(step, kind, step.index);
    }
  }

  /** The step takes request `x` out of the table. */
  predicate Removes(step: Step, x: int, persistent: bool) {
    step == Free(x) || (step.Complete? && step.index == x && !persistent)
  }

  lemma NowhereStep(s: State, step: Step, kind: Kind, k: nat)
    requires Enabled(s, step) && Nowhere(s, kind, k) && !Issues(step, kind, k)
    ensures Nowhere(Next(s, step), kind, k) && Count(Next(s, step).calls, kind, k) == Count(s.calls, kind, k)
  {
    CallsOwn(s, step, kind, k);
    CountMore(s.calls, CallsOf(s, step), kind, k);
  }

  /** A callback that no step has handed out belongs to no request and has not run. */
  lemma {:induction false} NotIssuedYet(r: Run, i: nat, kind: Kind, k: nat)
    requires IsRun(r) && i < |r.states|
    requires forall j :: 0 <= j < i ==> !Issues(r.steps[j], kind, k)
    ensures Nowhere(r.states[i], kind, k) && Count(r.states[i].calls, kind, k) == 0
  {
    if i > 0 {
      NotIssuedYet(r, i - 1, kind, k);
      assert StepAt(r, i - 1);
      NowhereStep(r.states[i - 1], r.steps[i - 1], kind, k);
    }
  }

  lemma OwnsStep(s: State, step: Step, x: int, kind: Kind, k: nat)
    requires Enabled(s, step) && Owns(s, x, kind, k) && !Issues(step, kind, k)
    requires !Removes(step, x, s.requests[x].persistent)
    ensures Owns(Next(s, step), x, kind, k)
    ensures Count(Next(s, step).calls, kind, k) == Count(s.calls, kind, k) + if Acts(step, kind, x) then 1 else 0
    ensures Next(s, step).requests[x].persistent == s.requests[x].persistent
    ensures Next(s, step).requests[x].callbacks == s.requests[x].callbacks
    ensures !(MakesRequest(step) && step.index == x)
  {
    CallsOwn(s, step, kind, k);
    CountMore(s.calls, CallsOf(s, step), kind, k);
    if Acts(step, kind, x) {
      assert x in s.requests && Has(s.requests[x], kind, k);
    }
  }

  /** Step `a` makes request `x` with callback `k`. */
  predicate Makes(step: Step, x: int, kind: Kind, k: nat) {
    Issues(step, kind, k) && step.index == x
  }

  /** The data of the request that the step makes remember that it is persistent. */
  predicate Persistent(step: Step) {
    step.Post? && step.persistent
  }

  /** No step after `a` and before `b` takes `x`, made at step `a`, out of the table. */
  ghost predicate Stays(r: Run, a: nat, b: nat, x: int)
    requires a < b <= |r.steps|
  {
    forall j :: a < j < b ==> !Removes(r.steps[j], x, Persistent(r.steps[a]))
  }

  /** How many operations of a kind on `x` come after `a` and before `b`. */
  function ActsBetween(r: Run, a: nat, b: nat, kind: Kind, x: int): nat
    requires b <= |r.steps|
  {
    if b <= a + 1 then 0 else ActsBetween(r, a, b - 1, kind, x) + if Acts(r.steps[b - 1], kind, x) then 1 else 0
  }

  /**
   In every run, as long as a request is in the table, each of its callbacks has run exactly once for
   each operation of its kind on the request: the start callback for each start, the cancel callback
   for each cancellation, the completion callback for each completion; and nobody else has the index.
   */
  lemma {:induction false} CallbackRunsPerOperation(r: Run, a: nat, b: nat, x: int, kind: Kind, k: nat)
    requires IsRun(r) && a < b <= |r.steps| && Makes(r.steps[a], x, kind, k) && Stays(r, a, b, x)
    ensures Owns(r.states[b], x, kind, k)
    ensures Count(r.states[b].calls, kind, k) == ActsBetween(r, a, b, kind, x)
    ensures r.states[b].requests[x].persistent == Persistent(r.steps[a])
    ensures r.states[b].requests[x].callbacks == r.steps[a].callbacks
    ensures forall j :: a < j < b ==> !(MakesRequest(r.steps[j]) && r.steps[j].index == x)
  {
    assert StepAt(r, b - 1);
    if b == a + 1 {
      assert forall j :: 0 <= j < a ==> !Issues(r.steps[j], kind, k);
      NotIssuedYet(r, a, kind, k);
      assert r.states[b].calls == r.states[a].calls;
    } else {
      CallbackRunsPerOperation(r, a, b - 1, x, kind, k);
      assert !Removes(r.steps[b - 1], x, Persistent(r.steps[a])) && !Issues(r.steps[b - 1], kind, k);
      OwnsStep(r.states[b - 1], r.steps[b - 1], x, kind, k);
    }
  }

  lemma RemovesStep(s: State, step: Step, x: int, kind: Kind, k: nat)
    requires Enabled(s, step) && Owns(s, x, kind, k) && Removes(step, x, s.requests[x].persistent)
    ensures x !in Next(s, step).requests && Nowhere(Next(s, step), kind, k)
    ensures Count(Next(s, step).calls, kind, k) == Count(s.calls, kind, k) + if Acts(step, kind, x) then 1 else 0
  {
    CallsOwn(s, step, kind, k);
    CountMore(s.calls, CallsOf(s, step), kind, k);
    if Acts(step, kind, x) {
      assert x in s.requests && Has(s.requests[x], kind, k);
    }
  }

  lemma {:induction false} NeverAgain(r: Run, b: nat, c: nat, kind: Kind, k: nat)
    requires IsRun(r) && b <= c < |r.states| && Nowhere(r.states[b], kind, k)
    requires forall j :: b <= j < c ==> !Issues(r.steps[j], kind, k)
    ensures Nowhere(r.states[c], kind, k) && Count(r.states[c].calls, kind, k) == Count(r.states[b].calls, kind, k)
  {
    if b < c {
      NeverAgain(r, b, c - 1, kind, k);
      assert StepAt(r, c - 1);
      NowhereStep(r.states[c - 1], r.steps[c - 1], kind, k);
    }
  }

  /** Once a request is out of the table, none of its callbacks runs any more. */
  lemma NoCallbackAfterEnd(r: Run, a: nat, b: nat, c: nat, x: int, kind: Kind, k: nat)
    requires IsRun(r) && a < b < c < |r.states| && Makes(r.steps[a], x, kind, k) && Stays(r, a, b, x)
    requires Removes(r.steps[b], x, Persistent(r.steps[a]))
    ensures x in r.states[b].requests && x !in r.states[b + 1].requests
    ensures Count(r.states[c].calls, kind, k) ==
      ActsBetween(r, a, b, kind, x) + if Acts(r.steps[b], kind, x) then 1 else 0
  {
    CallbackRunsPerOperation(r, a, b, x, kind, k);
    assert StepAt(r, b);
    RemovesStep(r.states[b], r.steps[b], x, kind, k);
    assert forall j :: b + 1 <= j < c ==> !Issues(r.steps[j], kind, k);
    NeverAgain(r, b + 1, c, kind, k);
  }

  // ---------------------------------------------------------------------------
  // What an index stands for
  // ---------------------------------------------------------------------------

  /** The MPI handle given at step `a`, or at the last completion of `x` after that. */
  function HandleAt(r: Run, a: nat, b: nat, x: int): int
    requires a < b <= |r.steps| && MakesRequest(r.steps[a])
    decreases b
  {
    if b == a + 1 then r.steps[a].handle
    else if Acts(r.steps[b - 1], AtCompletion, x) then r.steps[b - 1].handle
    else HandleAt(r, a, b - 1, x)
  }

  /** In every run a request's index stands for its MPI handle, with or without callbacks, as long as it is live. */
  lemma {:induction false} RequestStandsForHandle(r: Run, a: nat, b: nat, x: int)
    requires IsRun(r) && a < b <= |r.steps| && MakesRequest(r.steps[a]) && r.steps[a].index == x && Stays(r, a, b, x)
    ensures x in r.states[b].requests && r.states[b].requests[x].handle == HandleAt(r, a, b, x)
    ensures r.states[b].requests[x].persistent == Persistent(r.steps[a])
    ensures r.states[b].requests[x].callbacks == r.steps[a].callbacks
    decreases b
  {
    assert StepAt(r, b - 1);
    if b > a + 1 {
      RequestStandsForHandle(r, a, b - 1, x);
      assert !Removes(r.steps[b - 1], x, Persistent(r.steps[a]));
    }
  }

  /** The step takes message `m` out of the table. */
  predicate Matches(step: Step, m: int) {
    step == Receive(m) || (step.Move? && step.message == m)
  }

  /** A matched message's index stands for the MPI handle of its probe until the message is received. */
  lemma {:induction false} MessageStandsForHandle(r: Run, a: nat, b: nat, m: int, h: int)
    requires IsRun(r) && a < b <= |r.steps| && r.steps[a] == Probe(m, h)
    requires forall j :: a < j < b ==> !Matches(r.steps[j], m)
    ensures m in r.states[b].messages && r.states[b].messages[m].handle == h
    ensures b < |r.steps| && Matches(r.steps[b], m) ==> m !in r.states[b + 1].messages
    decreases b
  {
    assert StepAt(r, b - 1);
    if b > a + 1 {
      MessageStandsForHandle(r, a, b - 1, m, h);
    }
    if b < |r.steps| {
      assert StepAt(r, b);
    }
  }

  // ---------------------------------------------------------------------------
  // Which completions merge a clock
  // ---------------------------------------------------------------------------

  /** Step `j` cancels `x`, and no step between `j` and `b` completes it. */
  ghost predicate CancelledAt(r: Run, j: nat, b: nat, x: int)
    requires j < b <= |r.steps|
  {
    r.steps[j] == Cancel(x) && forall l :: j < l < b ==> !Acts(r.steps[l], AtCompletion, x)
  }

  /** `x` was cancelled after step `a` and not completed since. */
  ghost predicate CancelledSince(r: Run, a: nat, b: nat, x: int)
    requires b <= |r.steps|
  {
    exists j :: a < j < b && CancelledAt(r, j, b, x)
  }

  lemma FlagStep(s: State, step: Step, x: int)
    requires Enabled(s, step) && x in s.requests && s.requests[x].callbacks.completion.Some?
    requires !Removes(step, x, s.requests[x].persistent) && !(MakesRequest(step) && step.index == x)
    ensures x in Next(s, step).requests
    ensures Next(s, step).requests[x].cancelled ==
      (!Acts(step, AtCompletion, x) && (s.requests[x].cancelled || step == Cancel(x)))
  {
  }

  lemma {:induction false} FlagIsCancelledSince(r: Run, a: nat, b: nat, x: int, k: nat)
    requires IsRun(r) && a < b <= |r.steps| && Makes(r.steps[a], x, AtCompletion, k) && Stays(r, a, b, x)
    ensures x in r.states[b].requests && r.states[b].requests[x].cancelled == CancelledSince(r, a, b, x)
  {
    assert StepAt(r, b - 1);
    if b > a + 1 {
      FlagIsCancelledSince(r, a, b - 1, x, k);
      CallbackRunsPerOperation(r, a, b - 1, x, AtCompletion, k);
      CallbackRunsPerOperation(r, a, b, x, AtCompletion, k);
      assert !Removes(r.steps[b - 1], x, Persistent(r.steps[a]));
      FlagStep(r.states[b - 1], r.steps[b - 1], x);
      CancelledOnce(r, a, b, x);
    }
  }

  lemma CancelledOnce(r: Run, a: nat, b: nat, x: int)
    requires a + 1 < b <= |r.steps|
    ensures CancelledSince(r, a, b, x) <==>
      !Acts(r.steps[b - 1], AtCompletion, x) && (CancelledSince(r, a, b - 1, x) || r.steps[b - 1] == Cancel(x))
  {
    if CancelledSince(r, a, b - 1, x) && !Acts(r.steps[b - 1], AtCompletion, x) {
      var j :| a < j < b - 1 && CancelledAt(r, j, b - 1, x);
      assert CancelledAt(r, j, b, x);
    }
    if r.steps[b - 1] == Cancel(x) {
      assert CancelledAt(r, b - 1, b, x);
    }
    if CancelledSince(r, a, b, x) {
      var j :| a < j < b && CancelledAt(r, j, b, x);
      assert j < b - 1 ==> CancelledAt(r, j, b - 1, x);
    }
  }

  /**
   In every run, every completion of a request calls its completion callback, which merges a clock
   exactly if it is of an updating kind and the request was not cancelled since it was made or, for a
   persistent one, since its last completion.
   */
  lemma CompletionMerges(r: Run, a: nat, b: nat, x: int, k: nat, h: int)
    requires IsRun(r) && a < b < |r.steps| && Makes(r.steps[a], x, AtCompletion, k) && Stays(r, a, b, x)
    requires r.steps[b] == Complete(x, h)
    ensures r.states[b + 1].calls == r.states[b].calls
      + [Completing(k, r.steps[a].callbacks.completion.value.updates && !CancelledSince(r, a, b, x))]
  {
    CallbackRunsPerOperation(r, a, b, x, AtCompletion, k);
    FlagIsCancelledSince(r, a, b, x, k);
    assert StepAt(r, b);
  }

  // ---------------------------------------------------------------------------
  // Requests that are not persistent, and those that are
  // ---------------------------------------------------------------------------

  lemma {:induction false} NoActs(r: Run, a: nat, b: nat, kind: Kind, x: int)
    requires b <= |r.steps| && forall j :: a < j < b ==> !Acts(r.steps[j], kind, x)
    ensures ActsBetween(r, a, b, kind, x) == 0
    decreases b
  {
    if b > a + 1 {
      NoActs(r, a, b - 1, kind, x);
    }
  }

  /**
   In every run the completion callback of a non-persistent request runs exactly once, in the
   step that completes the request, and the index is not given out again before that step.
   */
  lemma FiresExactlyOnce(r: Run, a: nat, b: nat, c: nat, x: int, k: nat, h: int)
    requires IsRun(r) && a < b < c < |r.states| && Makes(r.steps[a], x, AtCompletion, k) && !Persistent(r.steps[a])
    requires r.steps[b] == Complete(x, h) && Stays(r, a, b, x)
    ensures Count(r.states[b].calls, AtCompletion, k) == 0 && Count(r.states[c].calls, AtCompletion, k) == 1
    ensures r.states[b + 1].calls == r.states[b].calls
      + [Completing(k, r.steps[a].callbacks.completion.value.updates && !CancelledSince(r, a, b, x))]
    ensures x in r.states[b].requests && x !in r.states[b + 1].requests
    ensures forall j :: a < j < b ==> !(MakesRequest(r.steps[j]) && r.steps[j].index == x)
  {
    CallbackRunsPerOperation(r, a, b, x, AtCompletion, k);
    NoActs(r, a, b, AtCompletion, x);
    NoCallbackAfterEnd(r, a, b, c, x, AtCompletion, k);
    CompletionMerges(r, a, b, x, k, h);
  }

  /** A request that is freed before it completes never runs its completion callback. */
  lemma FreedNeverFires(r: Run, a: nat, b: nat, c: nat, x: int, k: nat)
    requires IsRun(r) && a < b < c < |r.states| && Makes(r.steps[a], x, AtCompletion, k)
    requires r.steps[b] == Free(x)
    requires forall j :: a < j < b ==> !Acts(r.steps[j], AtCompletion, x) && r.steps[j] != Free(x)
    ensures Count(r.states[c].calls, AtCompletion, k) == 0
  {
    NoActs(r, a, b, AtCompletion, x);
    NoCallbackAfterEnd(r, a, b, c, x, AtCompletion, k);
  }

  /** A persistent request keeps its index until it is freed; its callbacks run once for each operation. */
  lemma PersistentKeepsIndex(r: Run, a: nat, b: nat, x: int, kind: Kind, k: nat)
    requires IsRun(r) && a < b < |r.states| && Makes(r.steps[a], x, kind, k) && Persistent(r.steps[a])
    requires forall j :: a < j < b ==> r.steps[j] != Free(x)
    ensures Owns(r.states[b], x, kind, k) && r.states[b].requests[x].persistent
    ensures Count(r.states[b].calls, kind, k) == ActsBetween(r, a, b, kind, x)
  {
    CallbackRunsPerOperation(r, a, b, x, kind, k);
  }

  /** A request keeps its index when it is first completed, if and only if its data remember that it is persistent. */
  lemma IndexKeptExactlyWhen(r: Run, a: nat, b: nat, x: int, k: nat, h: int)
    requires IsRun(r) && a < b < |r.steps| && Makes(r.steps[a], x, AtCompletion, k)
    requires r.steps[b] == Complete(x, h) && Stays(r, a, b, x)
    ensures x in r.states[b + 1].requests <==> Persistent(r.steps[a])
  {
    CallbackRunsPerOperation(r, a, b, x, AtCompletion, k);
    assert StepAt(r, b);
  }

  /** With Fortran wrappers a persistent request loses its index when it is first completed. */
  lemma FortranLosesIndex() returns (r: Run)
    ensures IsRun(r) && |r.steps| == 2 && Makes(r.steps[0], 0, AtCompletion, 1) && r.steps[1] == Complete(0, 5)
    ensures r.steps[0].Post? && r.steps[0].persistent == Remembered(true, true)
    ensures 0 in r.states[1].requests && 0 !in r.states[2].requests
  {
    var post := Post(0, 5, Remembered(true, true), Callbacks(Some(1), None, Some(Completion(1, true))));
    var s0 := State(map[], map[], []);
    var s1 := Next(s0, post);
    assert Enabled(s0, post);
    r := Run([s0, s1, Next(s1, Complete(0, 5))], [post, Complete(0, 5)]);
    assert StepAt(r, 0) && StepAt(r, 1);
  }
}
