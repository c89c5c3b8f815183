/**
 The reductions of the report as statements about all threads (src/critical-core.cpp).
 */
module Averages {
  import opened Clocks
  import opened Metrics

  function Concat(ss: seq<seq<real>>): seq<real> {
    if ss == [] then [] else Concat(ss[..|ss| - 1]) + ss[|ss| - 1]
  }

  function SumsOf(ss: seq<seq<real>>): seq<real> {
    seq(|ss|, p requires 0 <= p < |ss| => SumOf(ss[p]))
  }

  function LengthsOf(ss: seq<seq<real>>): seq<real> {
    seq(|ss|, p requires 0 <= p < |ss| => |ss[p]| as real)
  }

  lemma {:induction false} SumSplits(a: seq<real>, b: seq<real>)
    ensures SumOf(a + b) == SumOf(a) + SumOf(b)
  {
    if b == [] {
      assert a + b == a;
    } else {
      SumSplits(a, b[..|b| - 1]);
      assert (a + b)[..|a + b| - 1] == a + b[..|b| - 1];
    }
  }

  /** Summing process by process is summing over all threads. */
  lemma {:induction false} SumsAddUp(ss: seq<seq<real>>)
    ensures SumOf(SumsOf(ss)) == SumOf(Concat(ss)) && SumOf(LengthsOf(ss)) == |Concat(ss)| as real
  {
    if ss != [] {
      var n := |ss| - 1;
      SumsAddUp(ss[..n]);
      SumSplits(Concat(ss[..n]), ss[n]);
      assert SumsOf(ss)[..n] == SumsOf(ss[..n]) && LengthsOf(ss)[..n] == LengthsOf(ss[..n]);
    }
  }

  /** The useful times of the threads of each process. */
  function TimesOf(ps: seq<Process>): seq<seq<real>> {
    seq(|ps|, p requires 0 <= p < |ps| => UsefulTimes(CountedThreads(ps[p])))
  }

  lemma LocalSums(p: Process)
    ensures LocalOf(p).sumUseful == SumOf(UsefulTimes(CountedThreads(p))) && LocalOf(p).count == |CountedThreads(p)|
  {
    if p.threads == [] {
      assert UsefulTimes([p.master]) == [p.master.clocks[USEFUL].thread];
      assert SumOf([p.master.clocks[USEFUL].thread]) == p.master.clocks[USEFUL].thread;
    }
  }

  lemma SumsAreOfAll(ps: seq<Process>)
    ensures SumOf(SumUsefuls(Locals(ps))) == SumOf(Concat(TimesOf(ps)))
    ensures SumOf(Counts(Locals(ps))) == |Concat(TimesOf(ps))| as real
  {
    forall p | 0 <= p < |ps|
      ensures SumUsefuls(Locals(ps))[p] == SumsOf(TimesOf(ps))[p] && Counts(Locals(ps))[p] == LengthsOf(TimesOf(ps))[p]
    {
      LocalSums(ps[p]);
    }
    assert SumUsefuls(Locals(ps)) == SumsOf(TimesOf(ps)) && Counts(Locals(ps)) == LengthsOf(TimesOf(ps));
    SumsAddUp(TimesOf(ps));
  }

  /** The average is the mean of the useful times of all threads. */
  lemma AverageIsMean(ps: seq<Process>, runtime: real)
    requires ps != []
    ensures SumOf(Counts(Locals(ps))) > 0.0
    ensures var all := Concat(TimesOf(ps));
      IsQuotient(TotalsOf(Locals(ps), ps[0].master, runtime).avgUseful, SumOf(all), |all| as real)
  {
    CountsArePositive(ps);
    SumsAreOfAll(ps);
    RatioIs(SumOf(Concat(TimesOf(ps))), |Concat(TimesOf(ps))| as real);
  }

  /** Every thread with the largest useful time of its process. */
  function Tops(ss: seq<seq<real>>): seq<seq<real>> {
    seq(|ss|, p requires 0 <= p < |ss| => seq(|ss[p]|, i requires 0 <= i => MaxOf(ss[p])))
  }

  lemma {:induction false} SumOfEqual(s: seq<real>, v: real)
    requires forall i :: 0 <= i < |s| ==> s[i] == v
    ensures SumOf(s) == v * |s| as real
  {
    if s != [] {
      SumOfEqual(s[..|s| - 1], v);
    }
  }

  lemma LocalTops(p: Process, top: seq<real>)
    requires ProcessBounded(p) && |top| == |CountedThreads(p)|
    requires forall i :: 0 <= i < |top| ==> top[i] == MaxOf(UsefulTimes(CountedThreads(p)))
    ensures LocalOf(p).spread == SumOf(top)
  {
    SumOfEqual(top, MaxOf(UsefulTimes(CountedThreads(p))));
    if p.threads == [] {
      assert CountedThreads(p)[0] == p.master && UsefulTimes([p.master]) == [p.master.clocks[USEFUL].thread];
      assert MaxOf([p.master.clocks[USEFUL].thread]) == p.master.clocks[USEFUL].thread;
    }
  }

  lemma SpreadsAreTops(ps: seq<Process>)
    requires forall p :: 0 <= p < |ps| ==> ProcessBounded(ps[p])
    ensures SumOf(Spreads(Locals(ps))) == SumOf(Concat(Tops(TimesOf(ps))))
  {
    forall p | 0 <= p < |ps|
      ensures Spreads(Locals(ps))[p] == SumsOf(Tops(TimesOf(ps)))[p]
    {
      LocalTops(ps[p], Tops(TimesOf(ps))[p]);
    }
    assert Spreads(Locals(ps)) == SumsOf(Tops(TimesOf(ps)));
    SumsAddUp(Tops(TimesOf(ps)));
  }

  /** The other average is the mean of the largest useful times, each counted for every thread of its process. */
  lemma AverageOfTops(ps: seq<Process>, runtime: real)
    requires ps != [] && forall p :: 0 <= p < |ps| ==> ProcessBounded(ps[p])
    ensures SumOf(Counts(Locals(ps))) > 0.0
    ensures var all, tops := Concat(TimesOf(ps)), Concat(Tops(TimesOf(ps)));
      IsQuotient(TotalsOf(Locals(ps), ps[0].master, runtime).avgLocalMax, SumOf(tops), |all| as real)
  {
    CountsArePositive(ps);
    SumsAreOfAll(ps);
    SpreadsAreTops(ps);
    RatioIs(SumOf(Concat(Tops(TimesOf(ps)))), |Concat(TimesOf(ps))| as real);
  }

  lemma {:induction false} MaxOfIsElement(s: seq<real>) returns (k: nat)
    requires s != [] && forall k :: 0 <= k < |s| ==> 0.0 <= s[k]
    ensures k < |s| && MaxOf(s) == s[k]
  {
    var n := |s| - 1;
    if n > 0 {
      k := MaxOfIsElement(s[..n]);
      if s[k] < s[n] {
        k := n;
      }
    } else {
      k := 0;
    }
  }

  /** The largest useful time is that of some thread, and no thread has a larger one. */
  lemma LargestUseful(ps: seq<Process>) returns (p: nat, i: nat)
    requires ps != [] && forall q :: 0 <= q < |ps| ==> ProcessBounded(ps[q])
    ensures |Locals(ps)| == |ps|
    ensures p < |ps| && i < |CountedThreads(ps[p])|
    ensures MaxAll(MaxUsefuls(Locals(ps))) == CountedThreads(ps[p])[i].clocks[USEFUL].thread
    ensures forall q :: 0 <= q < |ps| ==> Within(ps[q], MaxAll(MaxUsefuls(Locals(ps))))
  {
    var ls := Locals(ps);
    var m := MaxAll(MaxUsefuls(ls));
    p := MaxAllIsLargest(MaxUsefuls(ls));
    i := LargestOfProcess(ps[p]);
    assert m == LocalOf(ps[p]).maxUseful;
    forall q | 0 <= q < |ps|
      ensures Within(ps[q], m)
    {
      assert MaxUsefuls(ls)[q] == LocalOf(ps[q]).maxUseful;
      LargestExactlyWhen(ps[q], m);
    }
  }

  lemma LargestOfProcess(p: Process) returns (i: nat)
    requires ProcessBounded(p)
    ensures i < |CountedThreads(p)| && LocalOf(p).maxUseful == CountedThreads(p)[i].clocks[USEFUL].thread >= 0.0
  {
    if p.threads == [] {
      i := 0;
    } else {
      var u := UsefulTimes(p.threads);
      assert forall k :: 0 <= k < |u| ==> u[k] == CountedThreads(p)[k].clocks[USEFUL].thread;
      i := MaxOfIsElement(u);
    }
  }
}
