/**
 OmpHBefore by several threads on one fresh sync object (include/criticalPath.h).

 A call looks whether the object is fresh; if so it marks it as used and copies its clock into
 it, otherwise it merges its clock.  The lock around these accesses is empty for clocks that
 are atomic numbers (src/critical-core.cpp), so the accesses of different calls interleave.
 One merged clock is enough to see what happens.
 */
module UnlockedArcs {
  import opened Clocks

  /** The three accesses of a call by thread `t`; a call that found the object used has nothing to mark. */
  datatype Step = Look(t: nat) | Mark(t: nat) | Write(t: nat)

  /** `copiers` are the calls that found the object fresh. */
  datatype Object = Object(unused: bool, raw: real, copiers: set<nat>)

  function Next(vs: seq<real>, o: Object, s: Step): Object
    requires s.t < |vs|
  {
    match s
    case Look(t) => if o.unused then o.(copiers := o.copiers + {t}) else o
    case Mark(t) => if t in o.copiers then o.(unused := false) else o
    case Write(t) => o.(raw := if t in o.copiers then vs[t] else Max(o.raw, vs[t]))
  }

  predicate InRange(n: nat, steps: seq<Step>) {
    forall i :: 0 <= i < |steps| ==> steps[i].t < n
  }

  ghost predicate NoneTwice(steps: seq<Step>) {
    forall i, j :: 0 <= i < j < |steps| ==> steps[i] != steps[j]
  }

  /** Thread `t` looks at `i`, marks at `j` and writes at `k`. */
  predicate Calls(steps: seq<Step>, t: nat, i: nat, j: nat, k: nat) {
    i < j < k < |steps| && steps[i] == Look(t) && steps[j] == Mark(t) && steps[k] == Write(t)
  }

  ghost predicate HasCall(steps: seq<Step>, t: nat) {
    exists i: nat, j: nat, k: nat :: Calls(steps, t, i, j, k)
  }

  /** Each of `n` threads makes one call. */
  ghost predicate IsSchedule(n: nat, steps: seq<Step>) {
    && n > 0 && InRange(n, steps) && NoneTwice(steps)
    && forall t: nat :: t < n ==> HasCall(steps, t)
  }

  /** The object after the steps; thread `t` has the clock `vs[t]`. */
  function After(vs: seq<real>, steps: seq<Step>): Object
    requires InRange(|vs|, steps)
  {
    if steps == [] then Object(true, 0.0, {}) else Next(vs, After(vs, steps[..|steps| - 1]), steps[|steps| - 1])
  }

  lemma OneMore(vs: seq<real>, steps: seq<Step>, i: nat)
    requires InRange(|vs|, steps) && 0 < i <= |steps|
    ensures After(vs, steps[..i]) == Next(vs, After(vs, steps[..i - 1]), steps[i - 1])
  {
    assert steps[..i][..i - 1] == steps[..i - 1];
  }

  /** The object holds at least every clock that was deposited. */
  ghost predicate KeepsAll(vs: seq<real>, steps: seq<Step>)
    requires IsSchedule(|vs|, steps)
  {
    forall t :: 0 <= t < |vs| ==> vs[t] <= After(vs, steps).raw
  }

  /** No second call looks before a call has marked the object. */
  predicate LooksAlone(steps: seq<Step>) {
    forall i :: 0 < i < |steps| && steps[i].Look? ==> MarkedBefore(steps, i)
  }

  predicate MarkedBefore(steps: seq<Step>, i: nat) {
    exists m :: 0 <= m < i && m < |steps| && steps[m].Mark?
  }

  /** The first call to look writes before all others. */
  predicate WritesFirst(steps: seq<Step>) {
    forall w :: 0 <= w < |steps| && IsFirstWrite(steps, w) ==> steps[w].t == steps[0].t
  }

  predicate IsFirstWrite(steps: seq<Step>, w: nat) {
    w < |steps| && steps[w].Write? && forall i :: 0 <= i < w ==> !steps[i].Write?
  }

  lemma {:induction false} FirstWrite(steps: seq<Step>, k: nat) returns (w: nat)
    requires k < |steps| && steps[k].Write?
    ensures w <= k && IsFirstWrite(steps, w)
  {
    if j :| 0 <= j < k && steps[j].Write? {
      w := FirstWrite(steps, j);
    } else {
      w := k;
    }
  }

  lemma FirstIsLook(n: nat, steps: seq<Step>)
    requires IsSchedule(n, steps) && steps != []
    ensures steps[0].Look?
  {
    assert HasCall(steps, steps[0].t);
    var i: nat, j: nat, k: nat :| Calls(steps, steps[0].t, i, j, k);
    assert j != 0 && k != 0;
  }

  /** The object is fresh until a first call marks it, and those who have looked by then copy. */
  ghost predicate IsCopier(steps: seq<Step>, i: nat, t: nat) {
    exists l :: 0 <= l < i && l < |steps| && steps[l] == Look(t) && !MarkedBefore(steps, l)
  }

  lemma {:induction false} WhoCopies(vs: seq<real>, steps: seq<Step>, i: nat)
    requires IsSchedule(|vs|, steps) && i <= |steps|
    ensures After(vs, steps[..i]).unused <==> !MarkedBefore(steps, i)
    ensures forall t: nat :: t in After(vs, steps[..i]).copiers <==> IsCopier(steps, i, t)
  {
    if i > 0 {
      OneMore(vs, steps, i);
      WhoCopies(vs, steps, i - 1);
      CopiersStep(steps, i);
      if steps[i - 1].Mark? && !MarkedBefore(steps, i - 1) {
        FirstMarkerCopies(|vs|, steps, i - 1);
      }
    }
  }

  lemma CopiersStep(steps: seq<Step>, i: nat)
    requires 0 < i <= |steps|
    ensures MarkedBefore(steps, i) <==> MarkedBefore(steps, i - 1) || steps[i - 1].Mark?
    ensures forall t: nat :: IsCopier(steps, i, t) <==>
      IsCopier(steps, i - 1, t) || (steps[i - 1] == Look(t) && !MarkedBefore(steps, i - 1))
  {
    if steps[i - 1].Mark? {
      assert 0 <= i - 1 < i && steps[i - 1].Mark?;
    }
  }

  lemma FirstMarkerCopies(n: nat, steps: seq<Step>, m: nat)
    requires IsSchedule(n, steps) && m < |steps| && steps[m].Mark? && !MarkedBefore(steps, m)
    ensures IsCopier(steps, m, steps[m].t)
  {
    var t := steps[m].t;
    assert HasCall(steps, t);
    var i: nat, j: nat, k: nat :| Calls(steps, t, i, j, k);
    assert j == m;
    assert steps[i] == Look(t) && !MarkedBefore(steps, i);
  }

  // ---------------------------------------------------------------------------
  // One copier, and its copy comes first
  // ---------------------------------------------------------------------------

  lemma OneCopier(vs: seq<real>, steps: seq<Step>, i: nat)
    requires IsSchedule(|vs|, steps) && LooksAlone(steps) && 0 < i <= |steps|
    ensures After(vs, steps[..i]).copiers == {steps[0].t}
  {
    FirstIsLook(|vs|, steps);
    WhoCopies(vs, steps, i);
    assert IsCopier(steps, i, steps[0].t) by {
      assert steps[0] == Look(steps[0].t) && !MarkedBefore(steps, 0);
    }
    assert steps[0].t in After(vs, steps[..i]).copiers;
    forall t: nat | t in After(vs, steps[..i]).copiers
      ensures t == steps[0].t
    {
      var l :| 0 <= l < i && steps[l] == Look(t) && !MarkedBefore(steps, l);
      assert l == 0;
    }
  }

  lemma {:induction false} AllWritesStay(vs: seq<real>, steps: seq<Step>, w: nat, i: nat)
    requires IsSchedule(|vs|, steps) && LooksAlone(steps)
    requires IsFirstWrite(steps, w) && steps[w].t == steps[0].t && w < i <= |steps|
    ensures forall j :: 0 <= j < i && steps[j].Write? ==> vs[steps[j].t] <= After(vs, steps[..i]).raw
  {
    FirstIsLook(|vs|, steps);
    OneMore(vs, steps, i);
    OneCopier(vs, steps, i - 1);
    if w < i - 1 {
      AllWritesStay(vs, steps, w, i - 1);
      assert steps[i - 1] != steps[w];
    }
  }

  lemma OrderlyKeepsAll(vs: seq<real>, steps: seq<Step>)
    requires IsSchedule(|vs|, steps) && LooksAlone(steps) && WritesFirst(steps)
    ensures KeepsAll(vs, steps)
  {
    forall t: nat | t < |vs|
      ensures vs[t] <= After(vs, steps).raw
    {
      assert HasCall(steps, t);
      var i: nat, j: nat, k: nat :| Calls(steps, t, i, j, k);
      var w := FirstWrite(steps, k);
      AllWritesStay(vs, steps, w, |steps|);
      assert steps[..|steps|] == steps;
    }
  }

  // ---------------------------------------------------------------------------
  // A copy that comes after another write
  // ---------------------------------------------------------------------------

  /** Thread `u` has the clock 1, all others 0. */
  function Only(n: nat, u: nat): (vs: seq<real>)
    ensures |vs| == n
  {
    seq(n, t requires 0 <= t < n => if t == u then 1.0 else 0.0)
  }

  /** What thread `u` wrote at `w` is gone once a copier `c` writes at `k`. */
  lemma {:induction false} CopyWipesOut(vs: seq<real>, steps: seq<Step>, u: nat, c: nat, w: nat, k: nat, i: nat)
    requires IsSchedule(|vs|, steps) && w < k < i <= |steps| && u != c
    requires steps[w] == Write(u) && steps[k] == Write(c) && IsCopier(steps, k, c) && vs == Only(|vs|, u)
    ensures After(vs, steps[..i]).raw == 0.0
  {
    OneMore(vs, steps, i);
    assert steps[i - 1] != steps[w];
    if k < i - 1 {
      CopyWipesOut(vs, steps, u, c, w, k, i - 1);
    } else {
      WhoCopies(vs, steps, k);
    }
  }

  lemma LostToCopier(n: nat, steps: seq<Step>, u: nat, c: nat, w: nat, k: nat)
    requires IsSchedule(n, steps) && w < k < |steps| && u != c
    requires steps[w] == Write(u) && steps[k] == Write(c) && IsCopier(steps, k, c)
    ensures !KeepsAll(Only(n, u), steps)
  {
    var vs := Only(n, u);
    CopyWipesOut(vs, steps, u, c, w, k, |steps|);
    assert steps[..|steps|] == steps;
    assert u < n && vs[u] == 1.0;
  }

  lemma CopierAtWrite(n: nat, steps: seq<Step>, c: nat, l: nat) returns (k: nat)
    requires IsSchedule(n, steps) && l < |steps| && steps[l] == Look(c) && !MarkedBefore(steps, l)
    ensures l < k < |steps| && steps[k] == Write(c) && IsCopier(steps, k, c)
  {
    assert HasCall(steps, c);
    var i: nat, j: nat, k': nat :| Calls(steps, c, i, j, k');
    assert i == l;
    k := k';
  }

  /** If another call writes first, its deposit is lost to the copy. */
  lemma EarlyWriteIsLost(n: nat, steps: seq<Step>, w: nat)
    requires IsSchedule(n, steps) && IsFirstWrite(steps, w) && steps[w].t != steps[0].t
    ensures !KeepsAll(Only(n, steps[w].t), steps)
  {
    FirstIsLook(n, steps);
    var k := CopierAtWrite(n, steps, steps[0].t, 0);
    LostToCopier(n, steps, steps[w].t, steps[0].t, w, k);
  }

  /** If two calls copy, the copy that comes first is lost to the other one. */
  lemma FirstOfTwoCopiesIsLost(n: nat, steps: seq<Step>, i: nat) returns (u: nat)
    requires IsSchedule(n, steps) && 0 < i < |steps| && steps[i].Look? && !MarkedBefore(steps, i)
    ensures !KeepsAll(Only(n, u), steps)
  {
    FirstIsLook(n, steps);
    var c, d := steps[0].t, steps[i].t;
    assert c != d;
    var k := CopierAtWrite(n, steps, c, 0);
    var l := CopierAtWrite(n, steps, d, i);
    if k < l {
      u := c;
      LostToCopier(n, steps, c, d, k, l);
    } else {
      u := d;
      LostToCopier(n, steps, d, c, l, k);
    }
  }

  /**
   An interleaving keeps every deposit, whatever the clocks are, if and only if no second call
   looks at the object before it is marked, and the call that looked first writes first.
   */
  lemma KeepsAllExactlyWhen(n: nat, steps: seq<Step>)
    requires IsSchedule(n, steps)
    ensures (forall vs: seq<real> :: |vs| == n ==> KeepsAll(vs, steps)) <==> LooksAlone(steps) && WritesFirst(steps)
  {
    if !LooksAlone(steps) {
      var i :| 0 < i < |steps| && steps[i].Look? && !MarkedBefore(steps, i);
      var u := FirstOfTwoCopiesIsLost(n, steps, i);
    } else if !WritesFirst(steps) {
      var w :| 0 <= w < |steps| && IsFirstWrite(steps, w) && steps[w].t != steps[0].t;
      EarlyWriteIsLost(n, steps, w);
    } else {
      forall vs: seq<real> | |vs| == n
        ensures KeepsAll(vs, steps)
      {
        OrderlyKeepsAll(vs, steps);
      }
    }
  }

  /** With a real lock the accesses of a call follow each other, and nothing is lost. */
  lemma LockedCallsKeepAll(vs: seq<real>, steps: seq<Step>)
    requires IsSchedule(|vs|, steps)
    requires forall i :: 0 <= i < |steps| && steps[i].Look? ==>
      i + 2 < |steps| && steps[i + 1] == Mark(steps[i].t) && steps[i + 2] == Write(steps[i].t)
    ensures KeepsAll(vs, steps)
  {
    if steps != [] {
      FirstIsLook(|vs|, steps);
      assert steps[1] == Mark(steps[0].t) && steps[2] == Write(steps[0].t);
      forall i | 0 < i < |steps| && steps[i].Look?
        ensures MarkedBefore(steps, i)
      {
        assert i > 1 && steps[1].Mark?;
      }
    }
    OrderlyKeepsAll(vs, steps);
  }

  // ---------------------------------------------------------------------------
  // Two threads
  // ---------------------------------------------------------------------------

  lemma Overlapping(steps: seq<Step>)
    requires steps == [Look(0), Mark(0), Look(1), Mark(1), Write(1), Write(0)]
    ensures IsSchedule(2, steps) && LooksAlone(steps) && IsFirstWrite(steps, 4)
  {
    assert Calls(steps, 0, 0, 1, 5) && Calls(steps, 1, 2, 3, 4);
    assert HasCall(steps, 0) && HasCall(steps, 1);
    assert steps[1].Mark? && MarkedBefore(steps, 2);
  }

  lemma SideBySide(steps: seq<Step>)
    requires steps == [Look(0), Look(1), Mark(0), Mark(1), Write(0), Write(1)]
    ensures IsSchedule(2, steps) && WritesFirst(steps) && IsCopier(steps, 5, 1)
  {
    assert Calls(steps, 0, 0, 2, 4) && Calls(steps, 1, 1, 3, 5);
    assert HasCall(steps, 0) && HasCall(steps, 1);
    assert steps[1] == Look(1) && !MarkedBefore(steps, 1);
  }

  /** The second thread merges between the mark and the copy of the first. */
  lemma DepositIsLost()
    ensures exists steps: seq<Step> :: IsSchedule(2, steps) && LooksAlone(steps) && !KeepsAll([0.0, 1.0], steps)
  {
    var steps := [Look(0), Mark(0), Look(1), Mark(1), Write(1), Write(0)];
    Overlapping(steps);
    EarlyWriteIsLost(2, steps, 4);
    assert Only(2, 1) == [0.0, 1.0];
  }

  /** Both find the object fresh; the one that looked first also writes first, and loses. */
  lemma CopyIsLost()
    ensures exists steps: seq<Step> :: IsSchedule(2, steps) && WritesFirst(steps) && !KeepsAll([1.0, 0.0], steps)
  {
    var steps := [Look(0), Look(1), Mark(0), Mark(1), Write(0), Write(1)];
    SideBySide(steps);
    LostToCopier(2, steps, 0, 1, 4, 5);
    assert Only(2, 0) == [1.0, 0.0];
  }
}
