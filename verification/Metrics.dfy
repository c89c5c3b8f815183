/**
 The model factors reported at the end of a run (src/critical-core.cpp) and the shares the
 plot script stacks (script/CPT-plot.py).  The factors are bounded only because of what
 whole runs keep.
 */
module Metrics {
  import opened Clocks

  // ---------------------------------------------------------------------------
  // Aggregation
  // ---------------------------------------------------------------------------

  /** The largest element, at least zero: the accumulators start at zero. */
  function MaxOf(s: seq<real>): real {
    if s == [] then 0.0 else Max(MaxOf(s[..|s| - 1]), s[|s| - 1])
  }

  function SumOf(s: seq<real>): real {
    if s == [] then 0.0 else SumOf(s[..|s| - 1]) + s[|s| - 1]
  }

  /** The largest element, as MPI_MAX reduces. */
  function MaxAll(s: seq<real>): real
    requires s != []
  {
    if |s| == 1 then s[0] else Max(MaxAll(s[..|s| - 1]), s[|s| - 1])
  }

  lemma {:induction false} MaxAllIsLargest(s: seq<real>) returns (q: nat)
    requires s != []
    ensures q < |s| && s[q] == MaxAll(s) && forall k :: 0 <= k < |s| ==> s[k] <= MaxAll(s)
  {
    q := |s| - 1;
    if |s| > 1 {
      var k := MaxAllIsLargest(s[..|s| - 1]);
      if s[q] < s[k] {
        q := k;
      }
    }
  }

  lemma {:induction false} MaxOfIsLargest(s: seq<real>)
    ensures 0.0 <= MaxOf(s) && forall k :: 0 <= k < |s| ==> s[k] <= MaxOf(s)
  {
    if s != [] {
      MaxOfIsLargest(s[..|s| - 1]);
    }
  }

  lemma {:induction false} MaxOfIsLeast(s: seq<real>, b: real)
    requires 0.0 <= b && forall k :: 0 <= k < |s| ==> s[k] <= b
    ensures MaxOf(s) <= b
  {
    if s != [] {
      MaxOfIsLeast(s[..|s| - 1], b);
    }
  }

  lemma {:induction false} SumOfBounds(s: seq<real>, b: real)
    requires forall k :: 0 <= k < |s| ==> 0.0 <= s[k] <= b
    ensures 0.0 <= SumOf(s) <= b * |s| as real
  {
    if s != [] {
      SumOfBounds(s[..|s| - 1], b);
    }
  }

  /** The stopped clocks of one process: its threads, and the one that finishes the run. */
  datatype Process = Process(threads: seq<ThreadValue>, master: ThreadValue)

  function UsefulTimes(threads: seq<ThreadValue>): seq<real> {
    seq(|threads|, i requires 0 <= i < |threads| => threads[i].clocks[USEFUL].thread)
  }

  /** What one process contributes to the reductions. */
  datatype Contribution = Contribution(maxUseful: real, sumUseful: real, procUseful: real, spread: real, count: nat)

  function LocalOf(p: Process): Contribution {
    var u := UsefulTimes(p.threads);
    if p.threads == [] then
      var own := p.master.clocks[USEFUL];
      Contribution(own.thread, own.thread, own.proc, own.thread, 1)
    else
      Contribution(MaxOf(u), SumOf(u), p.master.clocks[USEFUL].proc, MaxOf(u) * |p.threads| as real, |p.threads|)
  }

  method LocalTotals(p: Process) returns (r: Contribution)
    ensures r == LocalOf(p)
  {
    var maxUseful, sumUseful := 0.0, 0.0;
    if |p.threads| == 0 {
      var own := p.master.clocks[USEFUL];
      return Contribution(own.thread, own.thread, own.proc, own.thread, 1);
    }
    ghost var u := UsefulTimes(p.threads);
    for i := 0 to |p.threads|
      invariant maxUseful == MaxOf(u[..i]) && sumUseful == SumOf(u[..i])
    {
      var current := p.threads[i].clocks[USEFUL].thread;
      assert u[..i + 1][..i] == u[..i] && u[..i + 1][i] == current;
      if current > maxUseful {
        maxUseful := current;
      }
      sumUseful := sumUseful + current;
    }
    assert u[..|u|] == u;
    return Contribution(maxUseful, sumUseful, p.master.clocks[USEFUL].proc,
                        maxUseful * |p.threads| as real, |p.threads|);
  }

  // ---------------------------------------------------------------------------
  // The factors
  // ---------------------------------------------------------------------------

  /** The reduced inputs of the formulas. */
  datatype Totals = Totals(
    maxUseful: real,     // maxComputation[0]
    avgUseful: real,     // avgComputation[0]
    maxProc: real,       // maxComputation[3]
    avgLocalMax: real,   // avgComputation[6]
    ideal: real,         // critical USEFUL of rank 0
    outsideOmp: real,    // critical OOMP of rank 0
    runtime: real)

  function MaxUsefuls(ls: seq<Contribution>): seq<real> { seq(|ls|, i requires 0 <= i < |ls| => ls[i].maxUseful) }
  function SumUsefuls(ls: seq<Contribution>): seq<real> { seq(|ls|, i requires 0 <= i < |ls| => ls[i].sumUseful) }
  function Procs(ls: seq<Contribution>): seq<real> { seq(|ls|, i requires 0 <= i < |ls| => ls[i].procUseful) }
  function Spreads(ls: seq<Contribution>): seq<real> { seq(|ls|, i requires 0 <= i < |ls| => ls[i].spread) }
  function Counts(ls: seq<Contribution>): seq<real> { seq(|ls|, i requires 0 <= i < |ls| => ls[i].count as real) }

  function TotalsOf(ls: seq<Contribution>, rank0: ThreadValue, runtime: real): Totals
    requires ls != [] && SumOf(Counts(ls)) > 0.0
  {
    var n := SumOf(Counts(ls));
    Totals(MaxAll(MaxUsefuls(ls)), SumOf(SumUsefuls(ls)) / n, MaxAll(Procs(ls)), SumOf(Spreads(ls)) / n,
           rank0.clocks[USEFUL].critical, rank0.clocks[OOMP].critical, runtime)
  }

  datatype Factors = Factors(
    pe: real, lb: real, commE: real, serE: real, te: real,
    mpiPE: real, mpiLB: real, mpiCommE: real, mpiSerE: real, mpiTE: real,
    ompPE: real, ompLB: real, ompCommE: real, ompSerE: real, ompTE: real)

  /** No denominator is zero. */
  predicate Defined(t: Totals) {
    && t.runtime != 0.0 && t.ideal != 0.0 && t.maxUseful != 0.0
    && t.avgLocalMax != 0.0 && t.outsideOmp != 0.0 && t.maxProc != 0.0
  }

  /** The efficiencies of one paradigm multiply. */
  predicate Grouped(f: Factors) {
    && f.mpiPE == f.mpiLB * f.mpiCommE && f.mpiCommE == f.mpiSerE * f.mpiTE
    && f.ompPE == f.ompLB * f.ompCommE && f.ompCommE == f.ompSerE * f.ompTE
  }

  predicate IsProduct(f: Factors) {
    f.pe == (f.mpiLB * f.ompLB) * ((f.mpiSerE * f.ompSerE) * (f.mpiTE * f.ompTE))
  }

  /** The report of all factors, from six that split load balance, serialisation and transfer in two. */
  function Combined(pe: real, lb: real, commE: real, serE: real, te: real,
                    mpiLB: real, mpiSerE: real, mpiTE: real, ompLB: real, ompSerE: real, ompTE: real): (f: Factors)
    requires mpiLB * ompLB == lb && mpiSerE * ompSerE == serE && mpiTE * ompTE == te
    requires commE == serE * te && pe == lb * commE
    ensures Grouped(f) && IsProduct(f) && f.pe == f.mpiPE * f.ompPE
  {
    var mpiCommE := mpiSerE * mpiTE;
    var ompCommE := ompSerE * ompTE;
    Assemble(pe, lb, commE, serE, te, mpiLB, mpiSerE, mpiTE, ompLB, ompSerE, ompTE);
    Factors(pe, lb, commE, serE, te,
            mpiLB * mpiCommE, mpiLB, mpiCommE, mpiSerE, mpiTE,
            ompLB * ompCommE, ompLB, ompCommE, ompSerE, ompTE)
  }

  /** The second factor of a product whose first factor is known. */
  function Rest(whole: real, part: real): (r: real)
    requires part != 0.0
    ensures part * r == whole && r * part == whole
  {
    whole / part
  }

  function Ratio(a: real, b: real): (r: real)
    requires b != 0.0
    ensures a != 0.0 ==> r != 0.0
  {
    a / b
  }

  /** All factors from the seven quotients of totals. */
  function FromRatios(commE: real, te: real, serE: real, lb: real,
                      mpiLB: real, ompTE: real, mpiSerE: real): (f: Factors)
    requires mpiLB != 0.0 && ompTE != 0.0 && mpiSerE != 0.0 && commE == serE * te
    ensures Grouped(f) && IsProduct(f) && f.pe == f.mpiPE * f.ompPE
  {
    Combined(lb * commE, lb, commE, serE, te,
             mpiLB, mpiSerE, Rest(te, ompTE), Rest(lb, mpiLB), Rest(serE, mpiSerE), ompTE)
  }

  /**
   The hybrid factors multiply up to the parallel efficiency, whatever the inputs: PE is the
   product of the MPI and the OpenMP efficiency, and of all six factors.
   */
  function FactorsOf(t: Totals): (f: Factors)
    requires Defined(t)
    ensures Grouped(f) && IsProduct(f) && f.pe == f.mpiPE * f.ompPE
  {
    Chain(t.maxUseful, t.ideal, t.runtime);
    FromRatios(Ratio(t.maxUseful, t.runtime), Ratio(t.ideal, t.runtime), Ratio(t.maxUseful, t.ideal),
               Ratio(t.avgUseful, t.maxUseful), Ratio(t.avgLocalMax, t.maxUseful),
               Ratio(t.outsideOmp, t.runtime), Ratio(t.maxProc, t.ideal))
  }

  predicate Unit(r: real) { 0.0 <= r <= 1.0 }

  // ---------------------------------------------------------------------------
  // Small facts about quotients
  // ---------------------------------------------------------------------------

  lemma QuotientInUnit(a: real, b: real)
    requires 0.0 <= a <= b && b > 0.0
    ensures Unit(a / b)
  {
    var q := a / b;
    assert q * b == a;
  }

  lemma QuotientOfQuotients(a: real, b: real, d: real)
    requires b > 0.0 && d > 0.0
    ensures b / d > 0.0 && (a / d) / (b / d) == a / b
  {
    var p, q, r := a / d, b / d, a / b;
    assert p * d == a && q * d == b && r * b == a;
    assert p == r * q by {
      assert (p - r * q) * d == 0.0 by {
        assert r * q * d == r * b;
      }
    }
  }

  lemma Chain(a: real, b: real, d: real)
    requires b != 0.0 && d != 0.0
    ensures (a / b) * (b / d) == a / d
  {
    var p, q := a / b, b / d;
    assert p * b == a && q * d == b;
    assert p * q * d == a by {
      assert p * q * d == p * b;
    }
  }

  lemma Regroup(a: real, b: real, c: real, d: real, e: real, f: real)
    ensures (a * (b * c)) * (d * (e * f)) == (a * d) * ((b * e) * (c * f))
  {
    assert (a * (b * c)) * (d * (e * f)) == (a * d) * ((b * c) * (e * f));
    assert (b * c) * (e * f) == (b * e) * (c * f);
  }

  /** How the factors multiply, over plain numbers: `a * d`, `b * e` and `c * f` are the hybrid pairs. */
  lemma Assemble(pe: real, lb: real, commE: real, serE: real, te: real,
                 a: real, b: real, c: real, d: real, e: real, f: real)
    requires a * d == lb && b * e == serE && c * f == te && commE == serE * te && pe == lb * commE
    ensures pe == (a * (b * c)) * (d * (e * f))
    ensures pe == (a * d) * ((b * e) * (c * f))
  {
    Regroup(a, b, c, d, e, f);
  }

  // ---------------------------------------------------------------------------
  // The factors are efficiencies
  // ---------------------------------------------------------------------------

  /** The order of the inputs at the end of every run. */
  predicate Bounded(t: Totals) {
    && 0.0 <= t.avgUseful <= t.avgLocalMax <= t.maxUseful
    && 0.0 <= t.maxProc <= t.ideal <= t.outsideOmp <= t.runtime
  }

  /** The order that makes the factors efficiencies. */
  predicate Ordered(t: Totals) {
    Bounded(t) && t.maxUseful <= t.maxProc
  }

  lemma FactorsInUnit(t: Totals)
    requires Ordered(t) && Defined(t)
    ensures var f := FactorsOf(t);
      AllUnits(f)
  {
    QuotientInUnit(t.outsideOmp, t.runtime);
    QuotientOfQuotients(t.ideal, t.outsideOmp, t.runtime);
    QuotientInUnit(t.ideal, t.outsideOmp);
    QuotientInUnit(t.maxProc, t.ideal);
    QuotientOfQuotients(t.maxUseful, t.maxProc, t.ideal);
    QuotientInUnit(t.maxUseful, t.maxProc);
    QuotientInUnit(t.avgLocalMax, t.maxUseful);
    QuotientOfQuotients(t.avgUseful, t.avgLocalMax, t.maxUseful);
    QuotientInUnit(t.avgUseful, t.avgLocalMax);
  }

  /** `x` is `a / b`. */
  predicate IsQuotient(x: real, a: real, b: real) {
    x * b == a
  }

  /** Which quotient each factor is. */
  predicate Explains(t: Totals, f: Factors) {
    && IsQuotient(f.ompTE, t.outsideOmp, t.runtime) && IsQuotient(f.mpiTE, t.ideal, t.outsideOmp)
    && IsQuotient(f.mpiSerE, t.maxProc, t.ideal) && IsQuotient(f.ompSerE, t.maxUseful, t.maxProc)
    && IsQuotient(f.mpiLB, t.avgLocalMax, t.maxUseful) && IsQuotient(f.ompLB, t.avgUseful, t.avgLocalMax)
    && IsQuotient(f.te, t.ideal, t.runtime) && IsQuotient(f.serE, t.maxUseful, t.ideal)
    && IsQuotient(f.lb, t.avgUseful, t.maxUseful) && IsQuotient(f.commE, t.maxUseful, t.runtime)
    && IsQuotient(f.pe, t.avgUseful, t.runtime)
  }

  lemma RatioIs(a: real, b: real)
    requires b != 0.0
    ensures IsQuotient(Ratio(a, b), a, b)
  {
  }

  lemma RestIs(a: real, b: real, d: real)
    requires b != 0.0 && d != 0.0
    ensures IsQuotient(Rest(Ratio(a, d), Ratio(b, d)), a, b)
  {
    var whole, part := a / d, b / d;
    var rest := Rest(whole, part);
    assert whole * d == a && part * d == b;
    assert rest * b == rest * (part * d) == (part * rest) * d;
  }

  /** The factors, each as its own expression. */
  lemma FactorsFrom(t: Totals)
    requires Defined(t)
    ensures var f := FactorsOf(t);
      && f.te == Ratio(t.ideal, t.runtime) && f.ompTE == Ratio(t.outsideOmp, t.runtime)
      && f.mpiTE == Rest(f.te, f.ompTE)
      && f.serE == Ratio(t.maxUseful, t.ideal) && f.mpiSerE == Ratio(t.maxProc, t.ideal)
      && f.ompSerE == Rest(f.serE, f.mpiSerE)
      && f.lb == Ratio(t.avgUseful, t.maxUseful) && f.mpiLB == Ratio(t.avgLocalMax, t.maxUseful)
      && f.ompLB == Rest(f.lb, f.mpiLB) && f.commE == Ratio(t.maxUseful, t.runtime)
  {
  }

  lemma FactorsAre(t: Totals)
    requires Defined(t)
    ensures Explains(t, FactorsOf(t))
  {
    FactorsFrom(t);
    RatioIs(t.ideal, t.runtime);
    RatioIs(t.outsideOmp, t.runtime);
    RestIs(t.ideal, t.outsideOmp, t.runtime);
    RatioIs(t.maxUseful, t.ideal);
    RatioIs(t.maxProc, t.ideal);
    RestIs(t.maxUseful, t.maxProc, t.ideal);
    RatioIs(t.avgUseful, t.maxUseful);
    RatioIs(t.avgLocalMax, t.maxUseful);
    RestIs(t.avgUseful, t.avgLocalMax, t.maxUseful);
    RatioIs(t.maxUseful, t.runtime);
    EfficiencyIsUsefulShare(t);
    RatioIs(t.avgUseful, t.runtime);
  }

  /** PE is the average useful time over the runtime. */
  lemma EfficiencyIsUsefulShare(t: Totals)
    requires Defined(t)
    ensures FactorsOf(t).pe == t.avgUseful / t.runtime
  {
    Chain(t.avgUseful, t.maxUseful, t.runtime);
  }

  // ---------------------------------------------------------------------------
  // The reductions give ordered inputs
  // ---------------------------------------------------------------------------

  /** The threads whose useful time counts. */
  function CountedThreads(p: Process): (ts: seq<ThreadValue>)
    ensures ts != []
  {
    if p.threads == [] then [p.master] else p.threads
  }

  predicate ProcessBounded(p: Process) {
    && 0.0 <= p.master.clocks[USEFUL].proc
    && forall i :: 0 <= i < |CountedThreads(p)| ==> 0.0 <= CountedThreads(p)[i].clocks[USEFUL].thread
  }

  /** The useful time of every counted thread of `p` is at most `bound`. */
  predicate Within(p: Process, bound: real) {
    forall i :: 0 <= i < |CountedThreads(p)| ==> CountedThreads(p)[i].clocks[USEFUL].thread <= bound
  }

  /** What a process contributes is consistent, and its process level covered by `ideal`. */
  predicate Sound(l: Contribution, ideal: real) {
    && l.count > 0
    && 0.0 <= l.sumUseful <= l.spread
    && 0.0 <= l.maxUseful && 0.0 <= l.procUseful <= ideal
  }

  predicate Spread(l: Contribution) {
    l.spread == l.maxUseful * l.count as real
  }

  lemma SpreadBound(l: Contribution, m: real)
    requires Spread(l) && l.maxUseful <= m
    ensures l.spread <= m * l.count as real
  {
  }

  lemma LocalBounds(p: Process, ideal: real)
    requires ProcessBounded(p) && p.master.clocks[USEFUL].proc <= ideal
    ensures Sound(LocalOf(p), ideal) && Spread(LocalOf(p))
  {
    if p.threads == [] {
      assert CountedThreads(p)[0] == p.master;
    } else {
      var u := UsefulTimes(p.threads);
      forall i | 0 <= i < |u|
        ensures 0.0 <= u[i]
      {
        assert u[i] == CountedThreads(p)[i].clocks[USEFUL].thread;
      }
      MaxOfIsLargest(u);
      SumOfBounds(u, MaxOf(u));
    }
  }

  /** A process contributes the largest useful time of its threads. */
  lemma LargestExactlyWhen(p: Process, bound: real)
    requires ProcessBounded(p) && 0.0 <= bound
    ensures LocalOf(p).maxUseful <= bound <==> Within(p, bound)
  {
    if p.threads == [] {
      assert CountedThreads(p)[0] == p.master;
    } else {
      var u := UsefulTimes(p.threads);
      assert forall i :: 0 <= i < |u| ==> u[i] == CountedThreads(p)[i].clocks[USEFUL].thread;
      MaxOfIsLargest(u);
      if Within(p, bound) {
        MaxOfIsLeast(u, bound);
      }
    }
  }

  lemma {:induction false} SumOrder(a: seq<real>, b: seq<real>)
    requires |a| == |b| && forall k :: 0 <= k < |a| ==> a[k] <= b[k]
    ensures SumOf(a) <= SumOf(b)
  {
    if a != [] {
      SumOrder(a[..|a| - 1], b[..|b| - 1]);
    }
  }

  lemma {:induction false} SumScale(a: seq<real>, b: seq<real>, m: real)
    requires |a| == |b| && forall k :: 0 <= k < |a| ==> a[k] <= m * b[k]
    ensures SumOf(a) <= m * SumOf(b)
  {
    if a != [] {
      SumScale(a[..|a| - 1], b[..|b| - 1], m);
    }
  }

  lemma {:induction false} SumNonnegative(a: seq<real>)
    requires forall k :: 0 <= k < |a| ==> 0.0 <= a[k]
    ensures 0.0 <= SumOf(a)
    ensures forall k :: 0 <= k < |a| ==> a[k] <= SumOf(a)
  {
    if a != [] {
      SumNonnegative(a[..|a| - 1]);
    }
  }

  lemma DivideOrder(a: real, b: real, n: real)
    requires a <= b && n > 0.0
    ensures a / n <= b / n
  {
    var p, q := a / n, b / n;
    assert p * n == a && q * n == b;
    assert (q - p) * n >= 0.0;
  }

  function Locals(ps: seq<Process>): seq<Contribution> {
    seq(|ps|, i requires 0 <= i < |ps| => LocalOf(ps[i]))
  }

  /** The rank that reports covers every process, and the run covers that rank. */
  predicate RunBounded(ps: seq<Process>, runtime: real) {
    && |ps| > 0
    && (forall p :: 0 <= p < |ps| ==>
          ProcessBounded(ps[p]) && ps[p].master.clocks[USEFUL].proc <= ps[0].master.clocks[USEFUL].critical)
    && ps[0].master.clocks[USEFUL].critical <= ps[0].master.clocks[OOMP].critical <= runtime
  }

  /** The process level of process `q` covers the useful time of every thread of every process. */
  predicate CoversAll(ps: seq<Process>, q: nat)
    requires q < |ps|
  {
    forall p :: 0 <= p < |ps| ==> Within(ps[p], ps[q].master.clocks[USEFUL].proc)
  }

  predicate Covered(ps: seq<Process>) {
    exists q :: 0 <= q < |ps| && CoversAll(ps, q)
  }

  /** Some thread did useful work. */
  predicate SomeWork(ps: seq<Process>) {
    exists p :: 0 <= p < |ps| && LocalOf(ps[p]).maxUseful > 0.0
  }

  lemma AllSound(ps: seq<Process>, runtime: real)
    requires RunBounded(ps, runtime)
    ensures |Locals(ps)| == |ps|
    ensures forall k :: 0 <= k < |ps| ==> Sound(Locals(ps)[k], ps[0].master.clocks[USEFUL].critical)
    ensures forall k :: 0 <= k < |ps| ==> Spread(Locals(ps)[k])
  {
    forall p | 0 <= p < |ps|
      ensures Sound(Locals(ps)[p], ps[0].master.clocks[USEFUL].critical) && Spread(Locals(ps)[p])
    {
      LocalBounds(ps[p], ps[0].master.clocks[USEFUL].critical);
    }
  }

  lemma SumsOrdered(ls: seq<Contribution>, ideal: real)
    requires |ls| > 0 && forall k :: 0 <= k < |ls| ==> Sound(ls[k], ideal)
    ensures SumOf(Counts(ls)) > 0.0
    ensures 0.0 <= SumOf(SumUsefuls(ls)) <= SumOf(Spreads(ls))
  {
    SumNonnegative(Counts(ls));
    assert Sound(ls[0], ideal) && 0.0 < Counts(ls)[0];
    forall k | 0 <= k < |ls| ensures 0.0 <= SumUsefuls(ls)[k] <= Spreads(ls)[k] {
      assert Sound(ls[k], ideal);
    }
    SumNonnegative(SumUsefuls(ls));
    SumOrder(SumUsefuls(ls), Spreads(ls));
  }

  lemma SpreadsBounded(ls: seq<Contribution>, m: real)
    requires forall k :: 0 <= k < |ls| ==> Spread(ls[k])
    requires forall k :: 0 <= k < |ls| ==> ls[k].maxUseful <= m
    ensures SumOf(Spreads(ls)) <= m * SumOf(Counts(ls))
  {
    forall k | 0 <= k < |ls| ensures Spreads(ls)[k] <= m * Counts(ls)[k] {
      SpreadBound(ls[k], m);
    }
    SumScale(Spreads(ls), Counts(ls), m);
  }

  lemma MaximaBounded(ls: seq<Contribution>, ideal: real)
    requires |ls| > 0 && forall k :: 0 <= k < |ls| ==> Sound(ls[k], ideal)
    ensures 0.0 <= MaxAll(MaxUsefuls(ls)) && 0.0 <= MaxAll(Procs(ls)) <= ideal
    ensures forall k :: 0 <= k < |ls| ==> ls[k].maxUseful <= MaxAll(MaxUsefuls(ls))
  {
    var p := MaxAllIsLargest(MaxUsefuls(ls));
    var q := MaxAllIsLargest(Procs(ls));
    assert Sound(ls[p], ideal) && Sound(ls[q], ideal);
    assert forall k :: 0 <= k < |ls| ==> ls[k].maxUseful == MaxUsefuls(ls)[k];
  }

  lemma AveragesOrdered(a: real, b: real, m: real, n: real)
    requires 0.0 <= a <= b <= m * n && n > 0.0
    ensures 0.0 <= a / n <= b / n <= m
  {
    DivideOrder(0.0, a, n);
    DivideOrder(a, b, n);
    var q := b / n;
    assert q * n == b;
    assert (m - q) * n >= 0.0;
  }

  /** Divides the sums by the number of threads. */
  lemma TotalsBounded(ls: seq<Contribution>, rank0: ThreadValue, runtime: real)
    requires ls != [] && SumOf(Counts(ls)) > 0.0
    requires 0.0 <= SumOf(SumUsefuls(ls)) <= SumOf(Spreads(ls)) <= MaxAll(MaxUsefuls(ls)) * SumOf(Counts(ls))
    requires 0.0 <= MaxAll(Procs(ls)) <= rank0.clocks[USEFUL].critical
    requires rank0.clocks[USEFUL].critical <= rank0.clocks[OOMP].critical <= runtime
    ensures Bounded(TotalsOf(ls, rank0, runtime))
  {
    AveragesOrdered(SumOf(SumUsefuls(ls)), SumOf(Spreads(ls)), MaxAll(MaxUsefuls(ls)), SumOf(Counts(ls)));
  }

  lemma ReductionsBounded(ls: seq<Contribution>, ideal: real)
    requires |ls| > 0 && forall k :: 0 <= k < |ls| ==> Sound(ls[k], ideal)
    requires forall k :: 0 <= k < |ls| ==> Spread(ls[k])
    ensures SumOf(Counts(ls)) > 0.0
    ensures 0.0 <= SumOf(SumUsefuls(ls)) <= SumOf(Spreads(ls)) <= MaxAll(MaxUsefuls(ls)) * SumOf(Counts(ls))
    ensures 0.0 <= MaxAll(Procs(ls)) <= ideal
  {
    MaximaBounded(ls, ideal);
    SumsOrdered(ls, ideal);
    SpreadsBounded(ls, MaxAll(MaxUsefuls(ls)));
  }

  lemma ContributionsBounded(ls: seq<Contribution>, rank0: ThreadValue, runtime: real)
    requires |ls| > 0 && forall k :: 0 <= k < |ls| ==> Sound(ls[k], rank0.clocks[USEFUL].critical)
    requires forall k :: 0 <= k < |ls| ==> Spread(ls[k])
    requires rank0.clocks[USEFUL].critical <= rank0.clocks[OOMP].critical <= runtime
    ensures SumOf(Counts(ls)) > 0.0
    ensures Bounded(TotalsOf(ls, rank0, runtime))
  {
    ReductionsBounded(ls, rank0.clocks[USEFUL].critical);
    TotalsBounded(ls, rank0, runtime);
  }

  /** The largest useful time is at most the largest process level, if and only if one process covers all threads. */
  lemma LargestCoveredExactlyWhen(ps: seq<Process>, runtime: real)
    requires RunBounded(ps, runtime)
    ensures |Locals(ps)| == |ps|
    ensures MaxAll(MaxUsefuls(Locals(ps))) <= MaxAll(Procs(Locals(ps))) <==> Covered(ps)
  {
    var ls := Locals(ps);
    var p := MaxAllIsLargest(MaxUsefuls(ls));
    var q := MaxAllIsLargest(Procs(ls));
    assert forall k :: 0 <= k < |ps| ==> Procs(ls)[k] == ps[k].master.clocks[USEFUL].proc;
    assert forall k :: 0 <= k < |ps| ==> MaxUsefuls(ls)[k] == LocalOf(ps[k]).maxUseful;
    if MaxAll(MaxUsefuls(ls)) <= MaxAll(Procs(ls)) {
      forall k | 0 <= k < |ps|
        ensures Within(ps[k], ps[q].master.clocks[USEFUL].proc)
      {
        LargestExactlyWhen(ps[k], ps[q].master.clocks[USEFUL].proc);
      }
      assert CoversAll(ps, q);
    } else {
      forall k | 0 <= k < |ps|
        ensures !CoversAll(ps, k)
      {
        LargestExactlyWhen(ps[p], ps[k].master.clocks[USEFUL].proc);
      }
    }
  }

  /** The totals of every run are bounded, and ordered exactly when one process covers all threads. */
  lemma ReductionsOrdered(ps: seq<Process>, runtime: real)
    requires RunBounded(ps, runtime)
    ensures SumOf(Counts(Locals(ps))) > 0.0
    ensures var t := TotalsOf(Locals(ps), ps[0].master, runtime);
      Bounded(t) && (Ordered(t) <==> Covered(ps))
  {
    AllSound(ps, runtime);
    ContributionsBounded(Locals(ps), ps[0].master, runtime);
    LargestCoveredExactlyWhen(ps, runtime);
  }

  lemma WorkShows(ls: seq<Contribution>, ideal: real, p: nat)
    requires p < |ls| && ls[p].maxUseful > 0.0 && Spread(ls[p])
    requires forall k :: 0 <= k < |ls| ==> Sound(ls[k], ideal)
    ensures MaxAll(MaxUsefuls(ls)) > 0.0 && SumOf(Spreads(ls)) > 0.0
  {
    var _ := MaxAllIsLargest(MaxUsefuls(ls));
    assert ls[p].maxUseful == MaxUsefuls(ls)[p] <= MaxAll(MaxUsefuls(ls));
    SumNonnegative(Spreads(ls));
    assert Spreads(ls)[p] > 0.0 by {
      assert Sound(ls[p], ideal);
      assert ls[p].maxUseful * ls[p].count as real > 0.0;
    }
  }

  lemma NoWorkShows(ps: seq<Process>)
    requires !SomeWork(ps) && ps != []
    ensures MaxAll(MaxUsefuls(Locals(ps))) <= 0.0
  {
    var q := MaxAllIsLargest(MaxUsefuls(Locals(ps)));
    assert !(LocalOf(ps[q]).maxUseful > 0.0);
  }

  /** No denominator is zero exactly when some thread did useful work and some process level shows it. */
  lemma DefinedExactlyWhen(ps: seq<Process>, runtime: real)
    requires RunBounded(ps, runtime)
    ensures SumOf(Counts(Locals(ps))) > 0.0
    ensures var t := TotalsOf(Locals(ps), ps[0].master, runtime);
      && (Defined(t) <==> SomeWork(ps) && t.maxProc > 0.0)
      && (SomeWork(ps) ==> t.maxUseful > 0.0)
      && (Covered(ps) ==> (Defined(t) <==> SomeWork(ps)))
  {
    ReductionsOrdered(ps, runtime);
    var ls := Locals(ps);
    if SomeWork(ps) {
      var p :| 0 <= p < |ps| && LocalOf(ps[p]).maxUseful > 0.0;
      AllSound(ps, runtime);
      WorkShows(ls, ps[0].master.clocks[USEFUL].critical, p);
      assert Ratio(SumOf(Spreads(ls)), SumOf(Counts(ls))) != 0.0;
    } else {
      NoWorkShows(ps);
    }
  }

  method Gather(ps: seq<Process>) returns (ls: seq<Contribution>)
    ensures ls == Locals(ps)
  {
    ls := [];
    for p := 0 to |ps|
      invariant ls == Locals(ps)[..p]
    {
      var l := LocalTotals(ps[p]);
      ls := ls + [l];
    }
  }

  lemma OneMore(s: seq<real>, p: nat)
    requires 0 < p < |s|
    ensures MaxAll(s[..p + 1]) == Max(MaxAll(s[..p]), s[p]) && SumOf(s[..p + 1]) == SumOf(s[..p]) + s[p]
  {
    assert s[..p + 1][..p] == s[..p];
  }

  /** The reductions over all processes. */
  method Reduce(ls: seq<Contribution>) returns (max0: real, sum0: real, max3: real, sum6: real, count: real)
    requires ls != []
    ensures
      && max0 == MaxAll(MaxUsefuls(ls)) && sum0 == SumOf(SumUsefuls(ls)) && max3 == MaxAll(Procs(ls))
      && sum6 == SumOf(Spreads(ls)) && count == SumOf(Counts(ls))
  {
    ghost var a, b, c, d, e := MaxUsefuls(ls), SumUsefuls(ls), Procs(ls), Spreads(ls), Counts(ls);
    max0, sum0, max3 := ls[0].maxUseful, ls[0].sumUseful, ls[0].procUseful;
    sum6, count := ls[0].spread, ls[0].count as real;
    assert SumOf(b[..0]) == 0.0 && SumOf(d[..0]) == 0.0 && SumOf(e[..0]) == 0.0;
    for p := 1 to |ls|
      invariant max0 == MaxAll(a[..p]) && sum0 == SumOf(b[..p]) && max3 == MaxAll(c[..p])
      invariant sum6 == SumOf(d[..p]) && count == SumOf(e[..p])
    {
      var l := ls[p];
      OneMore(a, p);
      OneMore(b, p);
      OneMore(c, p);
      OneMore(d, p);
      OneMore(e, p);
      max0 := Max(max0, l.maxUseful);
      sum0 := sum0 + l.sumUseful;
      max3 := Max(max3, l.procUseful);
      sum6 := sum6 + l.spread;
      count := count + l.count as real;
    }
    assert a[..|ls|] == a && b[..|ls|] == b && c[..|ls|] == c && d[..|ls|] == d && e[..|ls|] == e;
  }

  /** Every process counts at least one thread. */
  lemma CountsArePositive(ps: seq<Process>)
    requires ps != []
    ensures SumOf(Counts(Locals(ps))) > 0.0
  {
    SumNonnegative(Counts(Locals(ps)));
    assert Counts(Locals(ps))[0] > 0.0;
  }

  // ---------------------------------------------------------------------------
  // The plot script
  // ---------------------------------------------------------------------------

  datatype Shares = Shares(pe: real, lbMpi: real, lbOmp: real, serMpi: real, serOmp: real, teMpi: real, teOmp: real) {
    function Total(): real { pe + lbMpi + lbOmp + serMpi + serOmp + teMpi + teOmp }
  }

  /** getAbsMetrics: the running products, from the top of the stack to its bottom. */
  function AbsMetrics(f: Factors): Shares {
    var teOmp := 1.0;
    var teMpi := teOmp * f.ompTE;
    var serOmp := teMpi * f.mpiTE;
    var serMpi := serOmp * f.ompSerE;
    var lbOmp := serMpi * f.mpiSerE;
    var lbMpi := lbOmp * f.ompLB;
    Shares(lbMpi * f.mpiLB, lbMpi, lbOmp, serMpi, serOmp, teMpi, teOmp)
  }

  /** getRelMetrics: the differences of neighbouring products. */
  function RelMetrics(f: Factors): Shares {
    var a := AbsMetrics(f);
    Shares(a.pe, a.lbMpi - a.pe, a.lbOmp - a.lbMpi, a.serMpi - a.lbOmp, a.serOmp - a.serMpi,
           a.teMpi - a.serOmp, a.teOmp - a.teMpi)
  }

  lemma ProductShrinks(a: real, u: real)
    requires 0.0 <= a && Unit(u)
    ensures 0.0 <= a * u <= a
  {
  }

  lemma Shrinks(a: real, u: real, p: real)
    requires 0.0 <= a && Unit(u) && p == a * u
    ensures 0.0 <= p <= a
  {
    ProductShrinks(a, u);
  }

  predicate AllUnits(f: Factors) {
    Unit(f.ompTE) && Unit(f.mpiTE) && Unit(f.ompSerE) && Unit(f.mpiSerE) && Unit(f.ompLB) && Unit(f.mpiLB)
  }

  /** Six factors in the unit interval, and the running products `p1` to `p6`. */
  lemma RunningProducts(x1: real, x2: real, x3: real, x4: real, x5: real, x6: real,
                        p2: real, p3: real, p4: real, p5: real, p6: real)
    requires Unit(x1) && Unit(x2) && Unit(x3) && Unit(x4) && Unit(x5) && Unit(x6)
    requires p2 == x1 * x2 && p3 == p2 * x3 && p4 == p3 * x4 && p5 == p4 * x5 && p6 == p5 * x6
    ensures 0.0 <= p6 <= p5 <= p4 <= p3 <= p2 <= x1
  {
    Shrinks(x1, x2, p2);
    Shrinks(p2, x3, p3);
    Shrinks(p3, x4, p4);
    Shrinks(p4, x5, p5);
    Shrinks(p5, x6, p6);
  }

  lemma SharesOfUnits(f: Factors)
    requires AllUnits(f)
    ensures var a := AbsMetrics(f);
      0.0 <= a.pe <= a.lbMpi <= a.lbOmp <= a.serMpi <= a.serOmp <= a.teMpi <= a.teOmp == 1.0
  {
    var a := AbsMetrics(f);
    RunningProducts(f.ompTE, f.mpiTE, f.ompSerE, f.mpiSerE, f.ompLB, f.mpiLB,
                    a.serOmp, a.serMpi, a.lbOmp, a.lbMpi, a.pe);
  }

  lemma ProductOfAll(f: Factors)
    ensures AbsMetrics(f).pe == (f.mpiLB * f.ompLB) * ((f.mpiSerE * f.ompSerE) * (f.mpiTE * f.ompTE))
  {
    SameProduct(f.mpiLB, f.ompLB, f.mpiSerE, f.ompSerE, f.mpiTE, f.ompTE);
  }

  predicate StackFillsUnit(f: Factors) {
    var s := RelMetrics(f);
    && s.Total() == 1.0
    && s.pe == f.pe
    && Unit(s.pe) && s.lbMpi >= 0.0 && s.lbOmp >= 0.0 && s.serMpi >= 0.0 && s.serOmp >= 0.0
    && s.teMpi >= 0.0 && s.teOmp >= 0.0
  }

  lemma StackOfUnits(f: Factors)
    requires AllUnits(f) && IsProduct(f)
    ensures StackFillsUnit(f)
  {
    SharesOfUnits(f);
    ProductOfAll(f);
  }

  /** The stacked shares fill the unit interval and start from the reported parallel efficiency. */
  lemma SharesFillUnit(t: Totals)
    requires Ordered(t) && Defined(t)
    ensures StackFillsUnit(FactorsOf(t))
  {
    FactorsInUnit(t);
    StackOfUnits(FactorsOf(t));
  }

  lemma SameProduct(a: real, b: real, c: real, d: real, e: real, f: real)
    ensures 1.0 * f * e * d * c * b * a == (a * b) * ((c * d) * (e * f))
  {
    assert (c * d) * (e * f) == f * e * d * c;
    assert (a * b) * (f * e * d * c) == f * e * d * c * b * a;
  }

  predicate Multiplies(f: Factors) {
    f.pe == f.mpiPE * f.ompPE
  }

  /** The six factors are efficiencies, PE is a product, and the plot is a proper stack. */
  predicate GoodFactors(f: Factors) {
    AllUnits(f) && Multiplies(f) && StackFillsUnit(f)
  }

  /** Nothing is divided by zero, and the factors are good. */
  predicate GoodReport(ps: seq<Process>, runtime: real) {
    |ps| > 0 && GoodTotals(Locals(ps), ps[0].master, runtime)
  }

  predicate GoodTotals(ls: seq<Contribution>, rank0: ThreadValue, runtime: real) {
    && ls != [] && SumOf(Counts(ls)) > 0.0
    && var t := TotalsOf(ls, rank0, runtime);
       Defined(t) && GoodFactors(FactorsOf(t))
  }

  lemma OrderedTotalsReportWell(t: Totals)
    requires Ordered(t) && Defined(t)
    ensures GoodFactors(FactorsOf(t))
  {
    FactorsInUnit(t);
    SharesFillUnit(t);
  }

  /** A serialisation efficiency of OpenMP of at most 1 needs the order. */
  lemma GoodFactorsAreOrdered(t: Totals)
    requires Bounded(t) && Defined(t) && Unit(FactorsOf(t).ompSerE)
    ensures Ordered(t)
  {
    QuotientOfQuotients(t.maxUseful, t.maxProc, t.ideal);
    var q := t.maxUseful / t.maxProc;
    assert q == FactorsOf(t).ompSerE;
    Shrinks(t.maxProc, q, t.maxUseful);
  }

  /** The report of a run with some work is good, if and only if one process level covers all useful times. */
  lemma GoodReportExactlyWhen(ps: seq<Process>, runtime: real)
    requires RunBounded(ps, runtime) && SomeWork(ps)
    ensures GoodReport(ps, runtime) <==> Covered(ps)
  {
    ReductionsOrdered(ps, runtime);
    DefinedExactlyWhen(ps, runtime);
    var t := TotalsOf(Locals(ps), ps[0].master, runtime);
    if Covered(ps) {
      OrderedTotalsReportWell(t);
    } else if GoodReport(ps, runtime) {
      GoodFactorsAreOrdered(t);
    }
  }

  /** The OpenMP-only and MPI-only stacks of the script. */
  function RelChain(te: real, ser: real, lb: real): (real, real, real, real) {
    var absTe := 1.0;
    var absSer := absTe * te;
    var absLb := absSer * ser;
    var pe := absLb * lb;
    (pe, absLb - pe, absSer - absLb, absTe - absSer)
  }

  lemma ChainOfUnits(pe: real, commE: real, te: real, ser: real, lb: real)
    requires Unit(te) && Unit(ser) && Unit(lb) && pe == lb * commE && commE == ser * te
    ensures FillsUnit(pe, te, ser, lb)
  {
    var p := te * ser;
    ProductShrinks(te, ser);
    ProductShrinks(p, lb);
    assert 1.0 * te * ser * lb == p * lb == lb * (ser * te);
  }

  /** The stack over the factors `te`, `ser` and `lb` fills the unit interval from `pe` on. */
  predicate FillsUnit(pe: real, te: real, ser: real, lb: real) {
    var (s, a, b, c) := RelChain(te, ser, lb);
    s == pe && s + a + b + c == 1.0 && Unit(s) && a >= 0.0 && b >= 0.0 && c >= 0.0
  }

  lemma PartsOfUnits(f: Factors)
    requires AllUnits(f) && Grouped(f)
    ensures FillsUnit(f.ompPE, f.ompTE, f.ompSerE, f.ompLB) && FillsUnit(f.mpiPE, f.mpiTE, f.mpiSerE, f.mpiLB)
  {
    ChainOfUnits(f.ompPE, f.ompCommE, f.ompTE, f.ompSerE, f.ompLB);
    ChainOfUnits(f.mpiPE, f.mpiCommE, f.mpiTE, f.mpiSerE, f.mpiLB);
  }

  lemma PartSharesFillUnit(t: Totals)
    requires Ordered(t) && Defined(t)
    ensures var f := FactorsOf(t);
      FillsUnit(f.ompPE, f.ompTE, f.ompSerE, f.ompLB) && FillsUnit(f.mpiPE, f.mpiTE, f.mpiSerE, f.mpiLB)
  {
    FactorsInUnit(t);
    PartsOfUnits(FactorsOf(t));
  }
}
