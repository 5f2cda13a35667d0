/** The server's control of the inter-packet delay, over exact numbers. */
module Pace {

  /** The negotiated pacing parameters of a transfer. */
  datatype Pace = Pace(
    errorRate: nat,   // the threshold error rate
    slowerNum: nat, slowerDen: nat,
    fasterNum: nat, fasterDen: nat,
    ipdTime: nat)     // the delay that the target rate asks for, in microseconds
  {
    /** The divisions of the adjustment are defined. */
    predicate Defined() {
      slowerDen > 0 && fasterDen > 0 && errorRate != 100000
    }

    /** A speedup that is strictly faster. */
    predicate Speeds() {
      Defined() && fasterNum < fasterDen && ipdTime >= 1
    }

    function Clamp(ipd: real): real {
      MaxReal(MinReal(ipd, 10000.0), ipdTime as real)
    }

    /** The delay that a report above the threshold asks for. */
    function Slowed(ipd: real, report: nat): real
      requires Defined()
    {
      var factor1 := slowerNum as real / slowerDen as real - 1.0;
      var factor2 := (1.0 + report as real - errorRate as real) / (100000.0 - errorRate as real);
      ipd * (1.0 + factor1 * factor2)
    }

    /** The delay after an error report. */
    function Adjust(ipd: real, report: nat): real
      requires Defined()
    {
      if report > errorRate then
        Clamp(Slowed(ipd, report))
      else
        Clamp(ipd * (fasterNum as real / fasterDen as real))
    }

    /** The delay after a run of reports. */
    function AdjustAll(ipd: real, reports: seq<nat>): real
      requires Defined()
    {
      if reports == [] then ipd
      else Adjust(AdjustAll(ipd, reports[..|reports| - 1]), reports[|reports| - 1])
    }

    predicate InRange(ipd: real) {
      ipdTime as real <= ipd <= MaxReal(10000.0, ipdTime as real)
    }

    /** What a good report takes off the delay at least. */
    function Step(): real
      requires Speeds()
    {
      ipdTime as real / fasterDen as real
    }

    /** The delay that a transfer starts with. */
    function Initial(): real {
      (3 * ipdTime) as real
    }
  }

  function MinReal(a: real, b: real): real {
    if a < b then a else b
  }

  function MaxReal(a: real, b: real): real {
    if a > b then a else b
  }

  /** Any report, whatever the delay was, brings the delay into its range. */
  lemma AdjustInRange(p: Pace, ipd: real, report: nat)
    requires p.Defined()
    ensures p.InRange(p.Adjust(ipd, report))
  {
    var unclamped :=
      if report > p.errorRate then p.Slowed(ipd, report) else ipd * (p.fasterNum as real / p.fasterDen as real);
    assert p.Adjust(ipd, report) == p.Clamp(unclamped);
  }

  /** A report below the threshold never raises a delay, if faster is not slower. */
  lemma GoodReportNeverRaises(p: Pace, ipd: real, report: nat)
    requires p.Defined() && p.fasterNum <= p.fasterDen
    requires ipd >= p.ipdTime as real && report <= p.errorRate
    ensures p.Adjust(ipd, report) <= ipd
  {
    SpeedupShrinks(ipd, p.fasterNum, p.fasterDen);
  }

  /**
   * If slower is not faster, a report above the threshold keeps or raises the delay if and only if
   * the delay was in range, and a worse report never asks for a shorter delay.
   */
  lemma BadReportLowersExactly(p: Pace, ipd: real, report: nat, worse: nat)
    requires p.Defined() && p.slowerNum >= p.slowerDen && p.errorRate < 100000
    requires ipd >= p.ipdTime as real && p.errorRate < report <= worse
    ensures ipd <= p.Adjust(ipd, report) <==> p.InRange(ipd)
    ensures p.Adjust(ipd, report) <= p.Adjust(ipd, worse)
  {
    SlowedGrows(p, ipd, report, worse);
    ClampOrdered(p, ipd, p.Slowed(ipd, report));
    ClampOrdered(p, p.Slowed(ipd, report), p.Slowed(ipd, worse));
  }

  lemma SlowedGrows(p: Pace, ipd: real, report: nat, worse: nat)
    requires p.Defined() && p.slowerNum >= p.slowerDen && p.errorRate < 100000
    requires ipd >= 0.0 && p.errorRate < report <= worse
    ensures ipd <= p.Slowed(ipd, report) <= p.Slowed(ipd, worse)
  {
    DivideOrdered(p.slowerDen as real, p.slowerNum as real, p.slowerDen as real);
    SlowdownGrows(ipd, p.slowerNum as real / p.slowerDen as real - 1.0, 100000.0 - p.errorRate as real,
                  1.0 + report as real - p.errorRate as real, 1.0 + worse as real - p.errorRate as real);
  }

  // ---------- How much a report changes the delay ----------

  /** A report at or below the threshold multiplies the delay by the speedup factor, within the range. */
  lemma GoodReportExact(p: Pace, ipd: real, report: nat)
    requires p.Defined() && report <= p.errorRate
    ensures var product := ipd * (p.fasterNum as real / p.fasterDen as real);
      var after := p.Adjust(ipd, report);
      && (p.ipdTime as real <= product <= 10000.0 ==> after == product)
      && (product <= p.ipdTime as real ==> after == p.ipdTime as real)
      && (product >= 10000.0 >= p.ipdTime as real ==> after == 10000.0)
  {
  }

  /** A report of 99999 multiplies the delay by the slowdown factor, within the range. */
  lemma WorstReportExact(p: Pace, ipd: real)
    requires p.Defined() && p.errorRate < 99999
    ensures var product := ipd * (p.slowerNum as real / p.slowerDen as real);
      var after := p.Adjust(ipd, 99999);
      && (p.ipdTime as real <= product <= 10000.0 ==> after == product)
      && (product <= p.ipdTime as real ==> after == p.ipdTime as real)
      && (product >= 10000.0 >= p.ipdTime as real ==> after == 10000.0)
  {
    var span := 100000.0 - p.errorRate as real;
    assert p.errorRate as real < 99999.0;
    SelfDivides(span);
    var factor := p.slowerNum as real / p.slowerDen as real;
    assert p.Slowed(ipd, 99999) == ipd * (1.0 + (factor - 1.0) * (span / span));
    assert 1.0 + (factor - 1.0) * 1.0 == factor;
  }

  lemma SelfDivides(x: real)
    requires x > 0.0
    ensures x / x == 1.0
  {
  }

  /**
   * Above the threshold the raise is proportional to how far the report exceeds it, as long as the
   * results are inside the range.
   */
  lemma RaiseIsProportional(p: Pace, ipd: real, report: nat, other: nat)
    requires p.Defined() && p.errorRate < 100000 && p.errorRate < report && p.errorRate < other
    requires p.ipdTime as real < p.Adjust(ipd, report) < 10000.0
    requires p.ipdTime as real < p.Adjust(ipd, other) < 10000.0
    ensures (p.Adjust(ipd, report) - ipd) * (1.0 + other as real - p.errorRate as real)
         == (p.Adjust(ipd, other) - ipd) * (1.0 + report as real - p.errorRate as real)
  {
    var factor := p.slowerNum as real / p.slowerDen as real - 1.0;
    var span := 100000.0 - p.errorRate as real;
    var x, y := 1.0 + report as real - p.errorRate as real, 1.0 + other as real - p.errorRate as real;
    RaiseIs(ipd, factor, span, x);
    RaiseIs(ipd, factor, span, y);
    Commutes(ipd * factor / span, x, y);
  }

  lemma RaiseIs(ipd: real, factor: real, span: real, excess: real)
    requires span > 0.0
    ensures ipd * (1.0 + factor * (excess / span)) - ipd == (ipd * factor / span) * excess
  {
    var q := excess / span;
    assert ipd * (1.0 + factor * q) == ipd + ipd * (factor * q);
    assert ipd * (factor * q) == (ipd * factor) * q;
    assert (ipd * factor) * (excess / span) == (ipd * factor / span) * excess;
  }

  lemma Commutes(k: real, x: real, y: real)
    ensures (k * x) * y == (k * y) * x
  {
  }

  /** What a bad report adds to the delay at least. */
  function RaiseStep(p: Pace): real
    requires p.Defined() && p.errorRate < 100000
  {
    p.ipdTime as real * (p.slowerNum as real / p.slowerDen as real - 1.0) * 2.0 / (100000.0 - p.errorRate as real)
  }

  /** The upper end of the range. */
  function Top(p: Pace): real {
    MaxReal(10000.0, p.ipdTime as real)
  }

  /** A bad report raises a positive delay strictly, unless it is at the upper end already. */
  lemma BadReportRaises(p: Pace, ipd: real, report: nat)
    requires p.Defined() && p.slowerNum > p.slowerDen && p.errorRate < 100000 && p.errorRate < report
    requires 0.0 < ipd < 10000.0 && p.ipdTime as real <= ipd
    ensures p.Adjust(ipd, report) > ipd
    ensures p.Adjust(ipd, report) == Top(p) || p.Adjust(ipd, report) >= ipd + RaiseStep(p)
  {
    var factor := p.slowerNum as real / p.slowerDen as real - 1.0;
    var span := 100000.0 - p.errorRate as real;
    var excess := 1.0 + report as real - p.errorRate as real;
    FactorPositive(p);
    RaiseBounds(ipd, p.ipdTime as real, factor, span, excess);
    RaisedClamps(p, ipd, p.Slowed(ipd, report), RaiseStep(p));
  }

  lemma RaisedClamps(p: Pace, ipd: real, raised: real, step: real)
    requires 0.0 < ipd < 10000.0 && p.ipdTime as real <= ipd && raised > ipd && raised >= ipd + step
    ensures p.Clamp(raised) > ipd
    ensures p.Clamp(raised) == Top(p) || p.Clamp(raised) >= ipd + step
  {
  }

  lemma FactorPositive(p: Pace)
    requires p.Defined() && p.slowerNum > p.slowerDen
    ensures p.slowerNum as real / p.slowerDen as real - 1.0 > 0.0
  {
    var den := p.slowerDen as real;
    assert den / den == 1.0;
    assert p.slowerNum as real >= den + 1.0;
    DivideOrdered(den + 1.0, p.slowerNum as real, den);
    assert (den + 1.0) / den == 1.0 + 1.0 / den;
    assert 1.0 / den > 0.0;
  }

  lemma RaiseBounds(ipd: real, target: real, factor: real, span: real, excess: real)
    requires ipd > 0.0 && 0.0 <= target <= ipd && factor > 0.0 && span > 0.0 && excess >= 2.0
    ensures ipd * (1.0 + factor * (excess / span)) > ipd
    ensures ipd * (1.0 + factor * (excess / span)) >= ipd + target * factor * 2.0 / span
  {
    RaiseIs(ipd, factor, span, excess);
    var k, low := ipd * factor / span, target * factor / span;
    MultiplyOrdered(factor, target, ipd);
    DivideOrdered(target * factor, ipd * factor, span);
    assert ipd * factor > 0.0;
    assert k > 0.0;
    MultiplyOrdered(k, 2.0, excess);
    assert target * factor * 2.0 / span == low * 2.0;
  }

  /** A run of bad reports raises the delay by a step each, until it reaches the upper end. */
  lemma {:induction false} BadReportsRaise(p: Pace, ipd: real, reports: seq<nat>)
    requires p.Defined() && p.slowerNum > p.slowerDen && p.errorRate < 100000 && p.ipdTime >= 1
    requires p.InRange(ipd) && forall r | r in reports :: p.errorRate < r
    ensures var after := p.AdjustAll(ipd, reports);
      p.InRange(after) && (after == Top(p) || after >= ipd + Times(|reports|, RaiseStep(p)))
    decreases |reports|
  {
    if reports == [] {
    } else {
      var front, last := reports[..|reports| - 1], reports[|reports| - 1];
      assert last in reports && forall r | r in front :: r in reports;
      BadReportsRaise(p, ipd, front);
      var before := p.AdjustAll(ipd, front);
      AdjustInRange(p, before, last);
      if before < 10000.0 {
        BadReportRaises(p, before, last);
      } else {
        BadReportLowersExactly(p, before, last, last);
      }
    }
  }

  /**
   * The bound made explicit: so many bad reports reach the upper end of the range exactly, however
   * little they exceed the threshold.
   */
  lemma BadReportsReachTop(p: Pace, ipd: real, reports: seq<nat>)
    requires p.Defined() && p.slowerNum > p.slowerDen && p.errorRate < 100000 && p.ipdTime >= 1
    requires p.InRange(ipd) && forall r | r in reports :: p.errorRate < r
    requires Product(|reports|, RaiseStep(p)) >= Top(p) - ipd
    ensures p.AdjustAll(ipd, reports) == Top(p)
  {
    BadReportsRaise(p, ipd, reports);
    TimesIsProduct(|reports|, RaiseStep(p));
    TopReached(p, p.AdjustAll(ipd, reports), ipd, Times(|reports|, RaiseStep(p)));
  }

  function Product(n: nat, x: real): real {
    n as real * x
  }

  lemma TopReached(p: Pace, after: real, ipd: real, raise: real)
    requires p.InRange(after) && raise >= Top(p) - ipd && (after == Top(p) || after >= ipd + raise)
    ensures after == Top(p)
  {
  }

  /** A transfer starts in range if and only if three times its target delay is. */
  lemma StartInRange(p: Pace)
    ensures p.InRange(p.Initial()) <==> 3 * p.ipdTime <= 10000 || p.ipdTime == 0
  {
    assert p.Initial() == 3.0 * p.ipdTime as real;
  }

  /** Otherwise a first report of complete loss speeds the server up. */
  lemma BadReportLowersStart() returns (p: Pace)
    ensures p.Defined() && p.slowerNum > p.slowerDen && p.errorRate < 100000
    ensures p.Initial() == 15000.0 && p.Adjust(p.Initial(), 100000) == 10000.0
  {
    p := Pace(7500, 25, 24, 5, 6, 5000);
    SlowedGrows(p, p.Initial(), 100000, 100000);
  }

  lemma ClampOrdered(p: Pace, a: real, b: real)
    requires a <= b
    ensures p.Clamp(a) <= p.Clamp(b)
    ensures p.InRange(a) ==> p.Clamp(a) == a
  {
  }

  lemma SlowdownGrows(x: real, factor: real, span: real, excess: real, more: real)
    requires x >= 0.0 && factor >= 0.0 && span > 0.0 && 0.0 <= excess <= more
    ensures x <= x * (1.0 + factor * (excess / span)) <= x * (1.0 + factor * (more / span))
  {
    var low, high := excess / span, more / span;
    DivideOrdered(0.0, excess, span);
    DivideOrdered(excess, more, span);
    MultiplyOrdered(factor, 0.0, low);
    MultiplyOrdered(factor, low, high);
    MultiplyOrdered(x, 1.0, 1.0 + factor * low);
    MultiplyOrdered(x, 1.0 + factor * low, 1.0 + factor * high);
  }

  lemma SpeedupShrinks(x: real, num: nat, den: nat)
    requires x >= 0.0 && 0 < den && num <= den
    ensures x * (num as real / den as real) <= x
  {
    var f := num as real / den as real;
    assert f <= 1.0;
    assert x * (1.0 - f) >= 0.0;
  }

  /** A strict speedup takes at least 1/den of the target delay off a delay above the target. */
  lemma SpeedupStep(p: Pace, x: real)
    requires p.Speeds() && x >= p.ipdTime as real
    ensures x * (p.fasterNum as real / p.fasterDen as real)
         <= x - p.ipdTime as real / p.fasterDen as real
  {
    var den := p.fasterDen as real;
    var f := p.fasterNum as real / den;
    assert p.fasterNum as real <= den - 1.0;
    DivideOrdered(p.fasterNum as real, den - 1.0, den);
    assert (den - 1.0) / den == 1.0 - 1.0 / den;
    assert f <= 1.0 - 1.0 / den;
    MultiplyOrdered(x, f, 1.0 - 1.0 / den);
    assert x * (1.0 - 1.0 / den) == x - x / den;
    DivideOrdered(p.ipdTime as real, x, den);
  }

  lemma DivideOrdered(a: real, b: real, den: real)
    requires a <= b && den > 0.0
    ensures a / den <= b / den
  {
  }

  lemma MultiplyOrdered(x: real, a: real, b: real)
    requires x >= 0.0 && a <= b
    ensures x * a <= x * b
  {
  }

  /** One good report takes a whole step off the delay, or reaches the target. */
  lemma GoodReport(p: Pace, x: real, report: nat)
    requires p.Speeds() && x >= p.ipdTime as real && report <= p.errorRate
    ensures var after := p.Adjust(x, report);
      after == p.ipdTime as real || p.ipdTime as real <= after <= x - Times(1, p.Step())
  {
    SpeedupStep(p, x);
  }

  function Times(n: nat, x: real): real {
    if n == 0 then 0.0 else Times(n - 1, x) + x
  }

  lemma {:induction false} TimesIsProduct(n: nat, x: real)
    ensures Times(n, x) == Product(n, x)
  {
    if n == 0 {
    } else {
      TimesIsProduct(n - 1, x);
      assert n as real == (n - 1) as real + 1.0;
    }
  }

  /** A run of good reports lowers the delay by a step each, until it reaches the target. */
  lemma {:induction false} GoodReportsLower(p: Pace, ipd: real, reports: seq<nat>)
    requires p.Speeds() && ipd >= p.ipdTime as real
    requires forall r | r in reports :: r <= p.errorRate
    ensures var after := p.AdjustAll(ipd, reports);
      after == p.ipdTime as real || p.ipdTime as real <= after <= ipd - Times(|reports|, p.Step())
    decreases |reports|
  {
    if reports == [] {
    } else {
      var front, last := reports[..|reports| - 1], reports[|reports| - 1];
      assert last in reports && forall r | r in front :: r in reports;
      GoodReportsLower(p, ipd, front);
      GoodReport(p, p.AdjustAll(ipd, front), last);
    }
  }

  lemma CrossMultiply(n: real, t: real, den: real, gap: real)
    requires den > 0.0 && n * t >= den * gap
    ensures n * (t / den) >= gap
  {
    assert n * (t / den) == n * t / den;
    assert den * gap / den == gap;
    DivideOrdered(den * gap, n * t, den);
  }

  lemma StepsCover(p: Pace, n: nat, gap: real)
    requires p.Speeds() && n as real * p.ipdTime as real >= p.fasterDen as real * gap
    ensures Times(n, p.Step()) >= gap
  {
    TimesIsProduct(n, p.Step());
    CrossMultiply(n as real, p.ipdTime as real, p.fasterDen as real, gap);
  }

  /** The bound made explicit: den * (start - target) / target good reports suffice. */
  lemma GoodReportsReachTarget(p: Pace, ipd: real, reports: seq<nat>)
    requires p.Speeds() && ipd >= p.ipdTime as real
    requires forall r | r in reports :: r <= p.errorRate
    requires |reports| as real * p.ipdTime as real >= p.fasterDen as real * (ipd - p.ipdTime as real)
    ensures p.AdjustAll(ipd, reports) == p.ipdTime as real
  {
    StepsCover(p, |reports|, ipd - p.ipdTime as real);
    GoodReportsLower(p, ipd, reports);
  }
}
