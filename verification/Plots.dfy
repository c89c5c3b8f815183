/**
 What the shares of the stacked plots stand for (script/CPT-plot.py), in terms of the totals.
 */
module Plots {
  import opened Metrics

  /** What the shares of the stacked plot stand for: multiples of the runtime. */
  predicate SharesExplained(t: Totals, s: Shares) {
    && IsQuotient(s.teOmp, t.runtime - t.outsideOmp, t.runtime)
    && IsQuotient(s.teMpi, t.outsideOmp - t.ideal, t.runtime)
    && IsQuotient(s.serOmp, t.ideal * (t.maxProc - t.maxUseful), t.runtime * t.maxProc)
    && IsQuotient(s.serMpi, t.maxUseful * (t.ideal - t.maxProc), t.runtime * t.maxProc)
    && IsQuotient(s.lbOmp, t.maxUseful * (t.avgLocalMax - t.avgUseful), t.runtime * t.avgLocalMax)
    && IsQuotient(s.lbMpi, t.avgUseful * (t.maxUseful - t.avgLocalMax), t.runtime * t.avgLocalMax)
    && IsQuotient(s.pe, t.avgUseful, t.runtime)
  }

  lemma Times(p: real, q: real, x: real, a: real, b: real, c: real, d: real)
    requires q == p * x && IsQuotient(p, a, d) && IsQuotient(x, b, c)
    ensures IsQuotient(q, a * b, d * c)
  {
    assert q * (d * c) == (p * d) * (x * c);
  }

  lemma Reduced(q: real, a: real, d: real, c: real)
    requires IsQuotient(q, a * c, d * c) && c != 0.0
    ensures IsQuotient(q, a, d)
  {
    assert (q * d - a) * c == 0.0;
  }

  lemma Widened(q: real, a: real, d: real, c: real)
    requires IsQuotient(q, a, d)
    ensures IsQuotient(q, a * c, d * c)
  {
    assert q * (d * c) == (q * d) * c;
  }

  lemma Difference(p: real, q: real, a: real, b: real, d: real)
    requires IsQuotient(p, a, d) && IsQuotient(q, b, d)
    ensures IsQuotient(p - q, a - b, d)
  {
    assert (p - q) * d == p * d - q * d;
  }

  /** The next product is `a * b / (d * c)`, and the share it leaves is `a * (c - b) / (d * c)`. */
  lemma ShareOf(p: real, q: real, x: real, a: real, b: real, c: real, d: real)
    requires q == p * x && IsQuotient(p, a, d) && IsQuotient(x, b, c)
    ensures IsQuotient(q, a * b, d * c) && IsQuotient(p - q, a * (c - b), d * c)
  {
    Times(p, q, x, a, b, c, d);
    Widened(p, a, d, c);
    Difference(p, q, a * c, a * b, d * c);
    assert a * c - a * b == a * (c - b);
  }

  /** The same where the product before is `a * e / (d * c)`, the factor `c / a` and the next product `e / d`. */
  lemma ReducedShareOf(p: real, q: real, x: real, a: real, c: real, e: real, d: real)
    requires q == p * x && IsQuotient(p, a * e, d * c) && IsQuotient(x, c, a) && a != 0.0 && c != 0.0
    ensures IsQuotient(q, e, d) && IsQuotient(p - q, e * (a - c), d * c)
  {
    Times(p, q, x, a * e, c, a, d * c);
    assert a * e * c == e * (c * a) && d * c * a == d * (c * a);
    assert c * a != 0.0;
    Reduced(q, e, d, c * a);
    Widened(q, e, d, c);
    Difference(p, q, a * e, e * c, d * c);
    assert a * e - e * c == e * (a - c);
  }

  /** One factor that splits a product in two. */
  lemma FirstShareOf(p: real, q: real, x: real, a: real, b: real, d: real)
    requires q == p * x && IsQuotient(p, a, d) && IsQuotient(x, b, a) && a != 0.0
    ensures IsQuotient(q, b, d) && IsQuotient(p - q, a - b, d)
  {
    Times(p, q, x, a, b, a, d);
    assert a * b == b * a;
    Reduced(q, b, d, a);
    Difference(p, q, a, b, d);
  }

  /** Two factors whose product is `b / a`, with `c` in between. */
  lemma TwoShares(p: real, q: real, s: real, x: real, y: real, a: real, b: real, c: real, d: real)
    requires q == p * x && s == q * y && a != 0.0 && c != 0.0
    requires IsQuotient(p, a, d) && IsQuotient(x, b, c) && IsQuotient(y, c, a)
    ensures IsQuotient(s, b, d)
    ensures IsQuotient(p - q, a * (c - b), d * c) && IsQuotient(q - s, b * (a - c), d * c)
  {
    ShareOf(p, q, x, a, b, c, d);
    ReducedShareOf(q, s, y, a, c, b, d);
  }

  /** The running products of the six factors, over plain numbers. */
  lemma SixShares(x1: real, x2: real, x3: real, x4: real, x5: real, x6: real,
                  p1: real, p2: real, p3: real, p4: real, p5: real, p6: real, t: Totals)
    requires Defined(t) && p1 == 1.0 * x1 && p2 == p1 * x2 && p3 == p2 * x3
    requires p4 == p3 * x4 && p5 == p4 * x5 && p6 == p5 * x6
    requires IsQuotient(x1, t.outsideOmp, t.runtime) && IsQuotient(x2, t.ideal, t.outsideOmp)
    requires IsQuotient(x3, t.maxUseful, t.maxProc) && IsQuotient(x4, t.maxProc, t.ideal)
    requires IsQuotient(x5, t.avgUseful, t.avgLocalMax) && IsQuotient(x6, t.avgLocalMax, t.maxUseful)
    ensures SharesExplained(t, Shares(p6, p5 - p6, p4 - p5, p3 - p4, p2 - p3, p1 - p2, 1.0 - p1))
  {
    FirstShareOf(1.0, p1, x1, t.runtime, t.outsideOmp, t.runtime);
    FirstShareOf(p1, p2, x2, t.outsideOmp, t.ideal, t.runtime);
    TwoShares(p2, p3, p4, x3, x4, t.ideal, t.maxUseful, t.maxProc, t.runtime);
    TwoShares(p4, p5, p6, x5, x6, t.maxUseful, t.avgUseful, t.avgLocalMax, t.runtime);
  }

  lemma SharesAre(t: Totals)
    requires Defined(t)
    ensures SharesExplained(t, RelMetrics(FactorsOf(t)))
  {
    FactorsAre(t);
    var f := FactorsOf(t);
    var a := AbsMetrics(f);
    SixShares(f.ompTE, f.mpiTE, f.ompSerE, f.mpiSerE, f.ompLB, f.mpiLB,
              a.teMpi, a.serOmp, a.serMpi, a.lbOmp, a.lbMpi, a.pe, t);
  }

  lemma OmpSharesAre(te: real, ser: real, lb: real, t: Totals)
    requires Defined(t) && IsQuotient(te, t.outsideOmp, t.runtime) && IsQuotient(ser, t.maxUseful, t.maxProc)
    requires IsQuotient(lb, t.avgUseful, t.avgLocalMax)
    ensures var (_, lbShare, serShare, teShare) := RelChain(te, ser, lb);
      && IsQuotient(teShare, t.runtime - t.outsideOmp, t.runtime)
      && IsQuotient(serShare, t.outsideOmp * (t.maxProc - t.maxUseful), t.runtime * t.maxProc)
      && IsQuotient(lbShare, t.outsideOmp * t.maxUseful * (t.avgLocalMax - t.avgUseful),
                    t.runtime * t.maxProc * t.avgLocalMax)
  {
    var p1, p2 := 1.0 * te, 1.0 * te * ser;
    FirstShareOf(1.0, p1, te, t.runtime, t.outsideOmp, t.runtime);
    ShareOf(p1, p2, ser, t.outsideOmp, t.maxUseful, t.maxProc, t.runtime);
    ShareOf(p2, p2 * lb, lb, t.outsideOmp * t.maxUseful, t.avgUseful, t.avgLocalMax, t.runtime * t.maxProc);
  }

  lemma MpiSharesAre(te: real, ser: real, lb: real, t: Totals)
    requires Defined(t) && IsQuotient(te, t.ideal, t.outsideOmp) && IsQuotient(ser, t.maxProc, t.ideal)
    requires IsQuotient(lb, t.avgLocalMax, t.maxUseful)
    ensures var (_, lbShare, serShare, teShare) := RelChain(te, ser, lb);
      && IsQuotient(teShare, t.outsideOmp - t.ideal, t.outsideOmp)
      && IsQuotient(serShare, t.ideal - t.maxProc, t.outsideOmp)
      && IsQuotient(lbShare, t.maxProc * (t.maxUseful - t.avgLocalMax), t.outsideOmp * t.maxUseful)
  {
    var p1, p2 := 1.0 * te, 1.0 * te * ser;
    FirstShareOf(1.0, p1, te, t.outsideOmp, t.ideal, t.outsideOmp);
    FirstShareOf(p1, p2, ser, t.ideal, t.maxProc, t.outsideOmp);
    ShareOf(p2, p2 * lb, lb, t.maxProc, t.avgLocalMax, t.maxUseful, t.outsideOmp);
  }

  /** What the shares of the two stacks for one paradigm stand for. */
  lemma PartSharesAre(t: Totals)
    requires Defined(t)
    ensures var f := FactorsOf(t);
      var (_, lbOmp, serOmp, teOmp) := RelChain(f.ompTE, f.ompSerE, f.ompLB);
      var (_, lbMpi, serMpi, teMpi) := RelChain(f.mpiTE, f.mpiSerE, f.mpiLB);
      && IsQuotient(teOmp, t.runtime - t.outsideOmp, t.runtime)
      && IsQuotient(serOmp, t.outsideOmp * (t.maxProc - t.maxUseful), t.runtime * t.maxProc)
      && IsQuotient(lbOmp, t.outsideOmp * t.maxUseful * (t.avgLocalMax - t.avgUseful),
                    t.runtime * t.maxProc * t.avgLocalMax)
      && IsQuotient(teMpi, t.outsideOmp - t.ideal, t.outsideOmp)
      && IsQuotient(serMpi, t.ideal - t.maxProc, t.outsideOmp)
      && IsQuotient(lbMpi, t.maxProc * (t.maxUseful - t.avgLocalMax), t.outsideOmp * t.maxUseful)
  {
    FactorsAre(t);
    var f := FactorsOf(t);
    OmpSharesAre(f.ompTE, f.ompSerE, f.ompLB, t);
    MpiSharesAre(f.mpiTE, f.mpiSerE, f.mpiLB, t);
  }
}
