/**
 The factors as the code computes them (src/critical-core.cpp): without a check for zero
 denominators, on numbers where a division by zero has a result.
 */
module Reports {
  import opened Clocks
  import opened Metrics

  /** A floating-point number without its rounding and without the sign of zero. */
  datatype Float = Fin(value: real) | Infinite(negative: bool) | NaN

  function Divide(a: Float, b: Float): Float {
    match (a, b)
    case (Fin(x), Fin(y)) =>
      if y != 0.0 then Fin(x / y) else if x == 0.0 then NaN else Infinite(x < 0.0)
    case (Fin(_), Infinite(_)) => Fin(0.0)
    case (Infinite(n), Fin(y)) => Infinite(n != (y < 0.0))
    case _ => NaN
  }

  function Times(a: Float, b: Float): Float {
    match (a, b)
    case (Fin(x), Fin(y)) => Fin(x * y)
    case (Fin(x), Infinite(n)) => if x == 0.0 then NaN else Infinite(n != (x < 0.0))
    case (Infinite(n), Fin(y)) => if y == 0.0 then NaN else Infinite(n != (y < 0.0))
    case (Infinite(n), Infinite(m)) => Infinite(n != m)
    case _ => NaN
  }

  datatype Figures = Figures(
    pe: Float, lb: Float, commE: Float, serE: Float, te: Float,
    mpiPE: Float, mpiLB: Float, mpiCommE: Float, mpiSerE: Float, mpiTE: Float,
    ompPE: Float, ompLB: Float, ompCommE: Float, ompSerE: Float, ompTE: Float)

  function Report(t: Totals): Figures {
    FromQuotients(
      Divide(Fin(t.maxUseful), Fin(t.runtime)), Divide(Fin(t.ideal), Fin(t.runtime)),
      Divide(Fin(t.maxUseful), Fin(t.ideal)), Divide(Fin(t.avgUseful), Fin(t.maxUseful)),
      Divide(Fin(t.avgLocalMax), Fin(t.maxUseful)), Divide(Fin(t.outsideOmp), Fin(t.runtime)),
      Divide(Fin(t.maxProc), Fin(t.ideal)))
  }

  function FromQuotients(commE: Float, te: Float, serE: Float, lb: Float,
                         mpiLB: Float, ompTE: Float, mpiSerE: Float): Figures {
    Products(lb, commE, serE, te, mpiLB, mpiSerE, Divide(te, ompTE), Divide(lb, mpiLB), Divide(serE, mpiSerE), ompTE)
  }

  function Products(lb: Float, commE: Float, serE: Float, te: Float,
                    mpiLB: Float, mpiSerE: Float, mpiTE: Float, ompLB: Float, ompSerE: Float, ompTE: Float): Figures {
    var mpiCommE := Times(mpiSerE, mpiTE);
    var ompCommE := Times(ompSerE, ompTE);
    Figures(Times(lb, commE), lb, commE, serE, te,
            Times(mpiLB, mpiCommE), mpiLB, mpiCommE, mpiSerE, mpiTE,
            Times(ompLB, ompCommE), ompLB, ompCommE, ompSerE, ompTE)
  }

  predicate AllFinite(f: Figures) {
    && f.pe.Fin? && f.lb.Fin? && f.commE.Fin? && f.serE.Fin? && f.te.Fin?
    && f.mpiPE.Fin? && f.mpiLB.Fin? && f.mpiCommE.Fin? && f.mpiSerE.Fin? && f.mpiTE.Fin?
    && f.ompPE.Fin? && f.ompLB.Fin? && f.ompCommE.Fin? && f.ompSerE.Fin? && f.ompTE.Fin?
  }

  /** The same figures as plain numbers. */
  function Exact(f: Factors): Figures {
    Figures(Fin(f.pe), Fin(f.lb), Fin(f.commE), Fin(f.serE), Fin(f.te),
            Fin(f.mpiPE), Fin(f.mpiLB), Fin(f.mpiCommE), Fin(f.mpiSerE), Fin(f.mpiTE),
            Fin(f.ompPE), Fin(f.ompLB), Fin(f.ompCommE), Fin(f.ompSerE), Fin(f.ompTE))
  }

  lemma Quotient(a: real, b: real)
    requires b != 0.0
    ensures Divide(Fin(a), Fin(b)) == Fin(Ratio(a, b)) == Fin(Rest(a, b))
  {
  }

  lemma ProductsAreExact(pe: real, lb: real, commE: real, serE: real, te: real,
                         a: real, b: real, c: real, d: real, e: real, f: real)
    requires a * d == lb && b * e == serE && c * f == te && commE == serE * te && pe == lb * commE
    ensures Products(Fin(lb), Fin(commE), Fin(serE), Fin(te), Fin(a), Fin(b), Fin(c), Fin(d), Fin(e), Fin(f))
      == Exact(Combined(pe, lb, commE, serE, te, a, b, c, d, e, f))
  {
    var g := Combined(pe, lb, commE, serE, te, a, b, c, d, e, f);
    assert Times(Fin(lb), Fin(commE)) == Fin(pe);
    assert Times(Fin(b), Fin(c)) == Fin(g.mpiCommE) && Times(Fin(e), Fin(f)) == Fin(g.ompCommE);
    assert Times(Fin(a), Fin(g.mpiCommE)) == Fin(g.mpiPE) && Times(Fin(d), Fin(g.ompCommE)) == Fin(g.ompPE);
  }

  /** The quotients of the report, as plain numbers. */
  lemma Quotients(t: Totals)
    requires Defined(t)
    ensures Divide(Fin(t.maxUseful), Fin(t.runtime)) == Fin(Ratio(t.maxUseful, t.runtime))
    ensures Divide(Fin(t.ideal), Fin(t.runtime)) == Fin(Ratio(t.ideal, t.runtime))
    ensures Divide(Fin(t.maxUseful), Fin(t.ideal)) == Fin(Ratio(t.maxUseful, t.ideal))
    ensures Divide(Fin(t.avgUseful), Fin(t.maxUseful)) == Fin(Ratio(t.avgUseful, t.maxUseful))
    ensures Divide(Fin(t.avgLocalMax), Fin(t.maxUseful)) == Fin(Ratio(t.avgLocalMax, t.maxUseful))
    ensures Divide(Fin(t.outsideOmp), Fin(t.runtime)) == Fin(Ratio(t.outsideOmp, t.runtime))
    ensures Divide(Fin(t.maxProc), Fin(t.ideal)) == Fin(Ratio(t.maxProc, t.ideal))
  {
  }

  lemma PartsAreExact(pe: real, lb: real, commE: real, serE: real, te: real,
                      a: real, b: real, c: real, d: real, e: real, f: real)
    requires a * d == lb && b * e == serE && c * f == te && commE == serE * te && pe == lb * commE
    requires Divide(Fin(te), Fin(f)) == Fin(c)
    requires Divide(Fin(lb), Fin(a)) == Fin(d) && Divide(Fin(serE), Fin(b)) == Fin(e)
    requires a != 0.0 && b != 0.0 && f != 0.0 && c == Rest(te, f) && d == Rest(lb, a) && e == Rest(serE, b)
    ensures FromQuotients(Fin(commE), Fin(te), Fin(serE), Fin(lb), Fin(a), Fin(f), Fin(b))
      == Exact(FromRatios(commE, te, serE, lb, a, f, b))
  {
    ProductsAreExact(pe, lb, commE, serE, te, a, b, c, d, e, f);
    assert FromRatios(commE, te, serE, lb, a, f, b) == Combined(pe, lb, commE, serE, te, a, b, c, d, e, f);
  }

  lemma QuotientsAreExact(commE: real, te: real, serE: real, lb: real, mpiLB: real, ompTE: real, mpiSerE: real)
    requires mpiLB != 0.0 && ompTE != 0.0 && mpiSerE != 0.0 && commE == serE * te
    ensures FromQuotients(Fin(commE), Fin(te), Fin(serE), Fin(lb), Fin(mpiLB), Fin(ompTE), Fin(mpiSerE))
      == Exact(FromRatios(commE, te, serE, lb, mpiLB, ompTE, mpiSerE))
  {
    Quotient(lb, mpiLB);
    Quotient(te, ompTE);
    Quotient(serE, mpiSerE);
    PartsAreExact(lb * commE, lb, commE, serE, te,
                  mpiLB, mpiSerE, Rest(te, ompTE), Rest(lb, mpiLB), Rest(serE, mpiSerE), ompTE);
  }

  /** Without a zero denominator the report is that of the factors. */
  lemma ReportIsFactors(t: Totals)
    requires Defined(t)
    ensures Report(t) == Exact(FactorsOf(t))
  {
    Quotients(t);
    Chain(t.maxUseful, t.ideal, t.runtime);
    QuotientsAreExact(Ratio(t.maxUseful, t.runtime), Ratio(t.ideal, t.runtime), Ratio(t.maxUseful, t.ideal),
                      Ratio(t.avgUseful, t.maxUseful), Ratio(t.avgLocalMax, t.maxUseful),
                      Ratio(t.outsideOmp, t.runtime), Ratio(t.maxProc, t.ideal));
  }

  lemma QuotientIsFinite(a: real, b: real)
    ensures Divide(Fin(a), Fin(b)).Fin? <==> b != 0.0
    ensures a == 0.0 && b != 0.0 ==> Divide(Fin(a), Fin(b)) == Fin(0.0)
  {
  }

  /** For all totals: the whole report is finite if and only if no denominator is zero. */
  lemma FiniteExactlyWhen(t: Totals)
    ensures AllFinite(Report(t)) <==> Defined(t)
  {
    if Defined(t) {
      ReportIsFactors(t);
    } else {
      QuotientIsFinite(t.maxUseful, t.runtime);
      QuotientIsFinite(t.maxUseful, t.ideal);
      QuotientIsFinite(t.avgUseful, t.maxUseful);
      QuotientIsFinite(t.avgLocalMax, t.maxUseful);
      QuotientIsFinite(t.outsideOmp, t.runtime);
      QuotientIsFinite(t.maxProc, t.ideal);
    }
  }

  predicate FiguresMultiply(f: Figures) {
    f.pe == Times(f.mpiPE, f.ompPE)
  }

  lemma ExactMultiplies(f: Factors)
    requires Multiplies(f)
    ensures FiguresMultiply(Exact(f))
  {
  }

  lemma QuotientsMultiply(commE: real, te: real, serE: real, lb: real, mpiLB: real, ompTE: real, mpiSerE: real)
    requires mpiLB != 0.0 && ompTE != 0.0 && mpiSerE != 0.0 && commE == serE * te
    ensures FiguresMultiply(
      FromQuotients(Fin(commE), Fin(te), Fin(serE), Fin(lb), Fin(mpiLB), Fin(ompTE), Fin(mpiSerE)))
  {
    QuotientsAreExact(commE, te, serE, lb, mpiLB, ompTE, mpiSerE);
    ExactMultiplies(FromRatios(commE, te, serE, lb, mpiLB, ompTE, mpiSerE));
  }

  lemma DefinedMultiplies(t: Totals)
    requires Defined(t)
    ensures FiguresMultiply(Report(t))
  {
    Quotients(t);
    Chain(t.maxUseful, t.ideal, t.runtime);
    QuotientsMultiply(Ratio(t.maxUseful, t.runtime), Ratio(t.ideal, t.runtime), Ratio(t.maxUseful, t.ideal),
                      Ratio(t.avgUseful, t.maxUseful), Ratio(t.avgLocalMax, t.maxUseful),
                      Ratio(t.outsideOmp, t.runtime), Ratio(t.maxProc, t.ideal));
  }

  /** Of finite figures, PE is the product of the efficiencies of the two paradigms. */
  lemma FiniteFiguresMultiply(t: Totals)
    requires AllFinite(Report(t))
    ensures FiguresMultiply(Report(t))
  {
    FiniteExactlyWhen(t);
    DefinedMultiplies(t);
  }

  /** Which quotient each figure of a finite report is. */
  predicate FiguresExplained(t: Totals, f: Figures)
    requires AllFinite(f)
  {
    && IsQuotient(f.ompTE.value, t.outsideOmp, t.runtime) && IsQuotient(f.mpiTE.value, t.ideal, t.outsideOmp)
    && IsQuotient(f.mpiSerE.value, t.maxProc, t.ideal) && IsQuotient(f.ompSerE.value, t.maxUseful, t.maxProc)
    && IsQuotient(f.mpiLB.value, t.avgLocalMax, t.maxUseful) && IsQuotient(f.ompLB.value, t.avgUseful, t.avgLocalMax)
    && IsQuotient(f.te.value, t.ideal, t.runtime) && IsQuotient(f.serE.value, t.maxUseful, t.ideal)
    && IsQuotient(f.lb.value, t.avgUseful, t.maxUseful) && IsQuotient(f.commE.value, t.maxUseful, t.runtime)
    && IsQuotient(f.pe.value, t.avgUseful, t.runtime)
  }

  lemma FiguresAre(t: Totals)
    requires AllFinite(Report(t))
    ensures FiguresExplained(t, Report(t))
  {
    FiniteExactlyWhen(t);
    ReportIsFactors(t);
    FactorsAre(t);
    ExactExplained(t, FactorsOf(t));
  }

  lemma ExactExplained(t: Totals, f: Factors)
    requires Explains(t, f)
    ensures FiguresExplained(t, Exact(f))
  {
  }

  /** Without any useful work, what is left of the report. */
  lemma ReportWithoutWork(t: Totals)
    requires t.maxUseful == 0.0 && t.avgUseful == 0.0 && t.avgLocalMax == 0.0 && t.ideal == 0.0 && t.runtime > 0.0
    ensures var f := Report(t);
      && f.commE == Fin(0.0) && f.te == Fin(0.0) && f.lb == NaN && f.serE == NaN && f.mpiLB == NaN && f.pe == NaN
      && f.mpiSerE == (if t.maxProc == 0.0 then NaN else Infinite(t.maxProc < 0.0))
  {
  }

  /** What the reporting rank computes, from the clocks of all processes. */
  method FinishMeasurement(ps: seq<Process>, runtime: real) returns (f: Figures)
    requires ps != []
    ensures SumOf(Counts(Locals(ps))) > 0.0 && f == Report(TotalsOf(Locals(ps), ps[0].master, runtime))
  {
    var ls := Gather(ps);
    CountsArePositive(ps);
    var max0, sum0, max3, sum6, count := Reduce(ls);
    var rank0 := ps[0].master.clocks;
    f := Report(Totals(max0, sum0 / count, max3, sum6 / count, rank0[USEFUL].critical, rank0[OOMP].critical, runtime));
  }
}
