/**
 The compare-and-exchange loops update_maximum (include/criticalPath.h) and atomic_add
 (src/critical-core.cpp).

 Any number of callers work on one shared value; an exchange may fail although the value is
 the expected one.  Steps of different callers interleave freely.
 */
module Atomics {

  datatype Kind = Maximum | Sum

  /** A caller with argument `v`: not begun, in the loop with the value last seen, or done. */
  datatype Caller = Waiting(v: real) | Looping(v: real, seen: real) | Done(v: real)

  datatype State = State(value: real, callers: seq<Caller>)

  datatype Step = Load(caller: nat) | Exchange(caller: nat, spurious: bool)

  predicate Enabled(s: State, step: Step) {
    && step.caller < |s.callers|
    && match step
       case Load(c) => s.callers[c].Waiting?
       case Exchange(c, _) => s.callers[c].Looping?
  }

  /** One turn of the loop; a failed exchange refreshes what the caller has seen. */
  function Next(k: Kind, s: State, step: Step): State
    requires Enabled(s, step)
  {
    var c := step.caller;
    var v := s.callers[c].v;
    match step
    case Load(_) => s.(callers := s.callers[c := Looping(v, s.value)])
    case Exchange(_, spurious) =>
      var seen := s.callers[c].seen;
      if k.Maximum? && !(seen < v) then s.(callers := s.callers[c := Done(v)])
      else if s.value == seen && !spurious
      then State(if k.Maximum? then v else seen + v, s.callers[c := Done(v)])
      else s.(callers := s.callers[c := Looping(v, s.value)])
  }

  predicate IsRun(k: Kind, ss: seq<State>, steps: seq<Step>) {
    && |ss| == |steps| + 1
    && (forall c :: 0 <= c < |ss[0].callers| ==> ss[0].callers[c].Waiting?)
    && forall i :: 0 <= i < |steps| ==> Enabled(ss[i], steps[i]) && ss[i + 1] == Next(k, ss[i], steps[i])
  }

  predicate AllDone(s: State) {
    forall c :: 0 <= c < |s.callers| ==> s.callers[c].Done?
  }

  lemma {:induction false} SameCallers(k: Kind, ss: seq<State>, steps: seq<Step>, i: nat)
    requires IsRun(k, ss, steps) && i < |ss|
    ensures |ss[i].callers| == |ss[0].callers|
    ensures forall c :: 0 <= c < |ss[0].callers| ==> ss[i].callers[c].v == ss[0].callers[c].v
  {
    if i > 0 {
      SameCallers(k, ss, steps, i - 1);
    }
  }

  // ---------------------------------------------------------------------------
  // Maximum
  // ---------------------------------------------------------------------------

  /** The value covers the start and all who are done, what callers have seen is no more, and it is one of these. */
  ghost predicate IsMaximumSoFar(s: State, start: real) {
    && start <= s.value
    && (forall c :: 0 <= c < |s.callers| && s.callers[c].Done? ==> s.callers[c].v <= s.value)
    && (forall c :: 0 <= c < |s.callers| && s.callers[c].Looping? ==> s.callers[c].seen <= s.value)
    && (s.value == start || exists c :: 0 <= c < |s.callers| && s.callers[c].v == s.value)
  }

  lemma MaximumStep(s: State, step: Step, start: real)
    requires Enabled(s, step) && IsMaximumSoFar(s, start)
    ensures IsMaximumSoFar(Next(Maximum, s, step), start) && s.value <= Next(Maximum, s, step).value
  {
    var s' := Next(Maximum, s, step);
    assert forall c :: 0 <= c < |s.callers| ==> s'.callers[c].v == s.callers[c].v;
    assert s'.value != s.value ==> s'.callers[step.caller].v == s'.value;
  }

  lemma {:induction false} MaximumRun(ss: seq<State>, steps: seq<Step>, i: nat)
    requires IsRun(Maximum, ss, steps) && i < |ss|
    ensures IsMaximumSoFar(ss[i], ss[0].value)
  {
    if i > 0 {
      MaximumRun(ss, steps, i - 1);
      MaximumStep(ss[i - 1], steps[i - 1], ss[0].value);
    }
  }

  lemma {:induction false} NeverLowered(ss: seq<State>, steps: seq<Step>, i: nat, j: nat)
    requires IsRun(Maximum, ss, steps) && i <= j < |ss|
    ensures ss[i].value <= ss[j].value
  {
    if i < j {
      NeverLowered(ss, steps, i, j - 1);
      MaximumRun(ss, steps, j - 1);
      MaximumStep(ss[j - 1], steps[j - 1], ss[0].value);
    }
  }

  /** When all callers are done, the value is the largest of the start and all arguments. */
  lemma EndsAtMaximum(ss: seq<State>, steps: seq<Step>, i: nat)
    requires IsRun(Maximum, ss, steps) && i < |ss| && AllDone(ss[i])
    ensures ss[0].value <= ss[i].value
    ensures forall c :: 0 <= c < |ss[0].callers| ==> ss[0].callers[c].v <= ss[i].value
    ensures ss[i].value == ss[0].value || exists c :: 0 <= c < |ss[0].callers| && ss[0].callers[c].v == ss[i].value
  {
    MaximumRun(ss, steps, i);
    SameCallers(Maximum, ss, steps, i);
  }

  // ---------------------------------------------------------------------------
  // Sum
  // ---------------------------------------------------------------------------

  /** What the callers that are done have added. */
  function Added(callers: seq<Caller>): real {
    if callers == [] then 0.0
    else var last := callers[|callers| - 1]; Added(callers[..|callers| - 1]) + if last.Done? then last.v else 0.0
  }

  lemma {:induction false} AddedAfter(callers: seq<Caller>, c: nat, x: Caller)
    requires c < |callers| && !callers[c].Done?
    ensures Added(callers[c := x]) == Added(callers) + if x.Done? then x.v else 0.0
  {
    var n, after := |callers| - 1, callers[c := x];
    if c < n {
      AddedAfter(callers[..n], c, x);
      assert after[..n] == callers[..n][c := x];
    } else {
      assert after[..n] == callers[..n];
    }
  }

  lemma SumStep(s: State, step: Step)
    requires Enabled(s, step)
    ensures Next(Sum, s, step).value - Added(Next(Sum, s, step).callers) == s.value - Added(s.callers)
  {
    AddedAfter(s.callers, step.caller, Next(Sum, s, step).callers[step.caller]);
  }

  lemma {:induction false} SumRun(ss: seq<State>, steps: seq<Step>, i: nat)
    requires IsRun(Sum, ss, steps) && i < |ss|
    ensures ss[i].value - Added(ss[i].callers) == ss[0].value - Added(ss[0].callers)
  {
    if i > 0 {
      SumRun(ss, steps, i - 1);
      SumStep(ss[i - 1], steps[i - 1]);
    }
  }

  function Total(callers: seq<Caller>): real {
    if callers == [] then 0.0 else Total(callers[..|callers| - 1]) + callers[|callers| - 1].v
  }

  lemma {:induction false} AllOrNothing(callers: seq<Caller>)
    ensures (forall c :: 0 <= c < |callers| ==> callers[c].Done?) ==> Added(callers) == Total(callers)
    ensures (forall c :: 0 <= c < |callers| ==> !callers[c].Done?) ==> Added(callers) == 0.0
  {
    if callers != [] {
      AllOrNothing(callers[..|callers| - 1]);
    }
  }

  lemma {:induction false} SameTotal(a: seq<Caller>, b: seq<Caller>)
    requires |a| == |b| && forall c :: 0 <= c < |a| ==> a[c].v == b[c].v
    ensures Total(a) == Total(b)
  {
    if a != [] {
      SameTotal(a[..|a| - 1], b[..|b| - 1]);
    }
  }

  /** When all callers are done, the value is the start plus the sum of all arguments. */
  lemma EndsAtSum(ss: seq<State>, steps: seq<Step>, i: nat)
    requires IsRun(Sum, ss, steps) && i < |ss| && AllDone(ss[i])
    ensures ss[i].value == ss[0].value + Total(ss[0].callers)
  {
    SumRun(ss, steps, i);
    AllOrNothing(ss[0].callers);
    AllOrNothing(ss[i].callers);
    SameCallers(Sum, ss, steps, i);
    SameTotal(ss[i].callers, ss[0].callers);
  }
}
