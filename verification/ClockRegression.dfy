/** What the incremental regression of clocksync.py computes: the moments of the
    whole sample history under exponentially decaying weights, and with them
    the weighted least-squares line. */
module ClockRegression {
  import opened Reals
  import opened ClockSync

  /** A sample of the regression: sent time and 64-bit clock. */
  datatype Point = Point(t: real, c: real)

  // ---------- Exponentially weighted sums of a whole history ----------

  function Power(x: real, n: nat): real {
    if n == 0 then 1.0 else x * Power(x, n - 1)
  }

  /** The weight of sample i among n: the newest counts DECAY, each older one KEEP
      times its successor, and the connect sample carries all that is left. */
  function Weight(n: nat, i: nat): real
    requires i < n
  {
    if i == 0 then Power(KEEP, n - 1) else DECAY * Power(KEEP, n - 1 - i)
  }

  /** Sum of f over the first k of the samples h, weighted. */
  function PartialSum(h: seq<Point>, f: Point -> real, k: nat): real
    requires k <= |h|
  {
    if k == 0 then 0.0 else PartialSum(h, f, k - 1) + Times(Weight(|h|, k - 1), f(h[k - 1]))
  }

  function Expect(h: seq<Point>, f: Point -> real): real {
    PartialSum(h, f, |h|)
  }

  lemma WeightAges(n: nat, i: nat)
    requires i < n
    ensures Weight(n + 1, i) == Times(KEEP, Weight(n, i))
  {
    assert Power(KEEP, n - i) == KEEP * Power(KEEP, n - 1 - i);
  }

  lemma {:induction false} PartialStep(h: seq<Point>, p: Point, f: Point -> real, k: nat)
    requires k <= |h|
    ensures PartialSum(h + [p], f, k) == Times(KEEP, PartialSum(h, f, k))
  {
    hide Times, Weight;
    if k == 0 {
      TimesConstants(KEEP);
    } else {
      PartialStep(h, p, f, k - 1);
      var w, y := Weight(|h|, k - 1), f(h[k - 1]);
      WeightAges(|h|, k - 1);
      Associates(KEEP, w, y);
      DistributesSum(KEEP, PartialSum(h, f, k - 1), Times(w, y));
    }
  }

  /** A new sample scales everything before it by KEEP and comes in with DECAY. */
  lemma ExpectStep(h: seq<Point>, p: Point, f: Point -> real)
    requires h != []
    ensures Expect(h + [p], f) == 29.0 / 30.0 * Expect(h, f) + 1.0 / 30.0 * f(p)
  {
    PartialStep(h, p, f, |h|);
    assert Weight(|h| + 1, |h|) == DECAY;
  }

  lemma ExpectOne(p: Point, f: Point -> real)
    ensures Expect([p], f) == f(p)
  {
    assert Weight(1, 0) == 1.0;
    assert PartialSum([p], f, 0) == 0.0;
  }

  // ---------- Quadratic functions of a sample ----------

  /** tt*t^2 + tc*t*c + cc*c^2 + t1*t + c1*c + one */
  datatype Form = Form(tt: real, tc: real, cc: real, t1: real, c1: real, one: real)

  function Apply(q: Form, x: real, y: real, z: real, t: real, c: real): real {
    Times(q.tt, x) + Times(q.tc, y) + Times(q.cc, z) + Times(q.t1, t) + Times(q.c1, c) + q.one
  }

  function At(q: Form, p: Point): real {
    Apply(q, TimeTime(p), TimeClock(p), ClockClock(p), p.t, p.c)
  }

  function TimeOf(p: Point): real { p.t }
  function ClockOf(p: Point): real { p.c }
  function TimeTime(p: Point): real { Square(p.t) }
  function TimeClock(p: Point): real { Times(p.t, p.c) }
  function ClockClock(p: Point): real { Square(p.c) }

  datatype Moments = Moments(t: real, c: real, tt: real, tc: real, cc: real)

  function RawMoments(h: seq<Point>): Moments {
    Moments(Expect(h, TimeOf), Expect(h, ClockOf), Expect(h, TimeTime), Expect(h, TimeClock), Expect(h, ClockClock))
  }

  function ApplyMoments(q: Form, m: Moments): real { Apply(q, m.tt, m.tc, m.cc, m.t, m.c) }

  function Mix(x: real, y: real): real { KEEP * x + DECAY * y }

  function Mixed(m: Moments, p: Point): Moments {
    Moments(Mix(m.t, p.t), Mix(m.c, p.c), Mix(m.tt, TimeTime(p)), Mix(m.tc, TimeClock(p)), Mix(m.cc, ClockClock(p)))
  }

  lemma MomentsStep(h: seq<Point>, p: Point)
    requires h != []
    ensures RawMoments(h + [p]) == Mixed(RawMoments(h), p)
  {
    ExpectStep(h, p, TimeOf);
    ExpectStep(h, p, ClockOf);
    ExpectStep(h, p, TimeTime);
    ExpectStep(h, p, TimeClock);
    ExpectStep(h, p, ClockClock);
  }

  lemma MomentsOne(p: Point)
    ensures RawMoments([p]) == Moments(p.t, p.c, TimeTime(p), TimeClock(p), ClockClock(p))
  {
    ExpectOne(p, TimeOf);
    ExpectOne(p, ClockOf);
    ExpectOne(p, TimeTime);
    ExpectOne(p, TimeClock);
    ExpectOne(p, ClockClock);
  }

  lemma ApplyMixed(q: Form, m: Moments, p: Point)
    ensures ApplyMoments(q, Mixed(m, p)) == KEEP * ApplyMoments(q, m) + DECAY * At(q, p)
  {
    hide Times, TimeTime, TimeClock, ClockClock;
    MixTerm(q.tt, m.tt, TimeTime(p));
    MixTerm(q.tc, m.tc, TimeClock(p));
    MixTerm(q.cc, m.cc, ClockClock(p));
    MixTerm(q.t1, m.t, p.t);
    MixTerm(q.c1, m.c, p.c);
  }

  lemma MixTerm(a: real, x: real, y: real)
    ensures Times(a, Mix(x, y)) == Mix(Times(a, x), Times(a, y))
  {
  }

  /** The weights sum to one and the sum is linear, so a quadratic function's
      mean follows from the raw moments. */
  lemma {:induction false} ExpectForm(h: seq<Point>, f: Point -> real, q: Form)
    requires h != [] && forall p :: f(p) == At(q, p)
    ensures Expect(h, f) == ApplyMoments(q, RawMoments(h))
    decreases |h|
  {
    hide Expect, Apply;
    var n := |h| - 1;
    var p := h[n];
    if n == 0 {
      assert h == [p];
      ExpectOne(p, f);
      MomentsOne(p);
      assert f(p) == At(q, p);
    } else {
      assert h == h[..n] + [p];
      ExpectForm(h[..n], f, q);
      ExpectStep(h[..n], p, f);
      MomentsStep(h[..n], p);
      ApplyMixed(q, RawMoments(h[..n]), p);
      assert f(p) == At(q, p);
    }
  }

  // ---------- The statistics by definition ----------

  function MeanTime(h: seq<Point>): real { Expect(h, TimeOf) }
  function MeanClock(h: seq<Point>): real { Expect(h, ClockOf) }

  function SquaredDeviation(m: real): Point -> real { (p: Point) => Square(p.t - m) }
  function JointDeviation(m: real, k: real): Point -> real { (p: Point) => Times(p.t - m, p.c - k) }
  function Residual(p: Point, a: real, b: real): real { p.c - a - Times(b, p.t) }
  function SquaredResidual(a: real, b: real): Point -> real { (p: Point) => Square(Residual(p, a, b)) }

  function VarianceOfTime(h: seq<Point>): real { Expect(h, SquaredDeviation(MeanTime(h))) }
  function Covariance(h: seq<Point>): real { Expect(h, JointDeviation(MeanTime(h), MeanClock(h))) }

  /** The weighted squared error of the line clock = a + b * time. */
  function SquaredError(h: seq<Point>, a: real, b: real): real { Expect(h, SquaredResidual(a, b)) }

  function SquareForm(m: real): Form { Form(1.0, 0.0, 0.0, -2.0 * m, 0.0, Square(m)) }
  function JointForm(m: real, k: real): Form { Form(0.0, 1.0, 0.0, -k, -m, Times(m, k)) }
  function ErrorForm(a: real, b: real): Form {
    Form(Square(b), -2.0 * b, 1.0, 2.0 * Times(a, b), -2.0 * a, Square(a))
  }

  lemma SquareFormApplied(m: real, x: real, y: real, z: real, t: real, c: real)
    ensures Apply(SquareForm(m), x, y, z, t, c) == x - 2.0 * Times(m, t) + Square(m)
  {
  }

  lemma JointFormApplied(m: real, k: real, x: real, y: real, z: real, t: real, c: real)
    ensures Apply(JointForm(m, k), x, y, z, t, c) == y - Times(k, t) - Times(m, c) + Times(m, k)
  {
  }

  lemma ErrorFormApplied(a: real, b: real, x: real, y: real, z: real, t: real, c: real)
    ensures Apply(ErrorForm(a, b), x, y, z, t, c)
         == Times(Square(b), x) - 2.0 * Times(b, y) + z + 2.0 * Times(a, Times(b, t)) - 2.0 * Times(a, c) + Square(a)
  {
    hide Times, Square;
    Associates(a, b, t);
    Doubles(Times(a, b), t);
    Doubles(a, c);
    Doubles(b, y);
    TimesConstants(z);
  }

  lemma Doubles(x: real, y: real)
    ensures Times(2.0 * x, y) == 2.0 * Times(x, y) && Times(-2.0 * x, y) == -2.0 * Times(x, y)
  {
  }

  lemma VarianceFromMoments(h: seq<Point>)
    requires h != []
    ensures var m := RawMoments(h); VarianceOfTime(h) == m.tt - Square(m.t)
  {
    hide Expect, Apply, Times, Square, SquareForm;
    var m := MeanTime(h);
    forall p: Point ensures SquaredDeviation(m)(p) == At(SquareForm(m), p) {
      SquareFormApplied(m, TimeTime(p), TimeClock(p), ClockClock(p), p.t, p.c);
      SquareOfDifference(p.t, m);
      Commutes(p.t, m);
    }
    ExpectForm(h, SquaredDeviation(m), SquareForm(m));
    var r := RawMoments(h);
    SquareFormApplied(m, r.tt, r.tc, r.cc, r.t, r.c);
    SquareIsTimes(m);
  }

  lemma CovarianceFromMoments(h: seq<Point>)
    requires h != []
    ensures var m := RawMoments(h); Covariance(h) == m.tc - Times(m.t, m.c)
  {
    hide Expect, Apply, Times, Square, JointForm;
    var m, k := MeanTime(h), MeanClock(h);
    forall p: Point ensures JointDeviation(m, k)(p) == At(JointForm(m, k), p) {
      JointFormApplied(m, k, TimeTime(p), TimeClock(p), ClockClock(p), p.t, p.c);
      DeviationProduct(p.t, p.c, m, k);
    }
    ExpectForm(h, JointDeviation(m, k), JointForm(m, k));
    var r := RawMoments(h);
    JointFormApplied(m, k, r.tt, r.tc, r.cc, r.t, r.c);
    Commutes(m, k);
  }

  lemma DeviationProduct(x: real, y: real, m: real, k: real)
    ensures Times(x - m, y - k) == Times(x, y) - Times(k, x) - Times(m, y) + Times(m, k)
  {
    hide Times;
    DistributesDifference(x - m, y, k);
    DistributesDifference(y, x, m);
    DistributesDifference(k, x, m);
    Commutes(k, x);
  }

  lemma SquareOfThree(a: real, b: real, c: real)
    ensures Square(a + b - c)
         == Square(a) + Square(b) + Square(c) + 2.0 * Times(a, b) - 2.0 * Times(a, c) - 2.0 * Times(b, c)
    ensures Square(c - a - b) == Square(a + b - c)
  {
    hide Times, Square;
    SquareOfDifference(a + b, c);
    SquareOfDifference(c, a + b);
    Commutes(c, a + b);
    SquareOfDifference(a, -b);
    Negation(a, b);
    DistributesSum(c, a, b);
    assert a - -b == a + b && c - (a + b) == c - a - b;
  }

  lemma Negation(a: real, b: real)
    ensures Times(a, -b) == -Times(a, b) && Square(-b) == Square(b)
  {
  }

  /** The squared residual of one sample, term by term. */
  lemma ResidualExpands(p: Point, a: real, b: real)
    ensures Square(Residual(p, a, b)) == At(ErrorForm(a, b), p)
  {
    hide Times, Square, ErrorForm, Apply;
    ErrorFormApplied(a, b, TimeTime(p), TimeClock(p), ClockClock(p), p.t, p.c);
    SquareOfThree(a, Times(b, p.t), p.c);
    SquareOfProduct(b, p.t);
    Associates(b, p.t, p.c);
  }

  lemma ErrorFromMoments(h: seq<Point>, a: real, b: real)
    requires h != []
    ensures SquaredError(h, a, b) == ApplyMoments(ErrorForm(a, b), RawMoments(h))
  {
    hide Expect, At, Times, Square, ErrorForm, Residual;
    forall p: Point ensures SquaredResidual(a, b)(p) == At(ErrorForm(a, b), p) {
      ResidualExpands(p, a, b);
    }
    ExpectForm(h, SquaredResidual(a, b), ErrorForm(a, b));
  }

  // ---------- The fields are these statistics ----------

  /** The four accumulators are the weighted statistics of the history h. */
  predicate Tracks(st: State, h: seq<Point>) {
    && h != []
    && st.timeAvg == MeanTime(h) && st.clockAvg == MeanClock(h)
    && st.timeVariance == VarianceOfTime(h) && st.clockCovariance == Covariance(h)
  }

  lemma ConnectTracks(st: State, mcuFreq: real, uptime: int, sentTime: real)
    requires st.timeVariance == 0.0 && st.clockCovariance == 0.0
    ensures Tracks(Connected(st, mcuFreq, uptime, sentTime), [Point(sentTime, uptime as real)])
  {
    var p := Point(sentTime, uptime as real);
    MomentsOne(p);
    VarianceFromMoments([p]);
    CovarianceFromMoments([p]);
  }

  /** The update of a product moment about the means. */
  function Folded(v: real, product: real): real { (1.0 - DECAY) * (v + product * DECAY) }

  lemma RegressFields(st: State, sentTime: real)
    ensures var r, c := Regress(st, sentTime), st.lastClock as real;
            && r.timeAvg == Mix(st.timeAvg, sentTime) && r.clockAvg == Mix(st.clockAvg, c)
            && r.timeVariance == Folded(st.timeVariance, Square(sentTime - st.timeAvg))
            && r.clockCovariance == Folded(st.clockCovariance, Times(sentTime - st.timeAvg, c - st.clockAvg))
  {
  }

  lemma MomentUpdate(x: real, y: real, xy: real, p: real, q: real)
    ensures Folded(xy - Times(x, y), Times(p - x, q - y)) == Mix(xy, Times(p, q)) - Times(Mix(x, p), Mix(y, q))
  {
    hide Times;
    MixProduct(x, p, y, q);
    DeviationProduct(p, q, x, y);
    Commutes(y, p);
  }

  lemma MixProduct(x: real, p: real, y: real, q: real)
    ensures Times(Mix(x, p), Mix(y, q))
         == KEEP * KEEP * Times(x, y) + KEEP * DECAY * (Times(x, q) + Times(p, y)) + DECAY * DECAY * Times(p, q)
  {
    hide Times;
    DistributesSum(Mix(y, q), KEEP * x, DECAY * p);
    Scaled(KEEP, x, Mix(y, q));
    Scaled(DECAY, p, Mix(y, q));
    MixTerm(x, y, q);
    MixTerm(p, y, q);
  }

  lemma Scaled(k: real, x: real, y: real)
    ensures Times(k * x, y) == k * Times(x, y)
  {
  }

  lemma RegressTracks(st: State, h: seq<Point>, sentTime: real)
    requires Tracks(st, h)
    ensures Tracks(Regress(st, sentTime), h + [Point(sentTime, st.lastClock as real)])
  {
    hide Expect, Regress, Mixed, VarianceOfTime, Covariance;
    var p := Point(sentTime, st.lastClock as real);
    var m := RawMoments(h);
    VarianceFromMoments(h);
    CovarianceFromMoments(h);
    VarianceFromMoments(h + [p]);
    CovarianceFromMoments(h + [p]);
    MomentsStep(h, p);
    RegressMixes(st, m, p);
  }

  lemma RegressMixes(st: State, m: Moments, p: Point)
    requires p.c == st.lastClock as real
    requires st.timeAvg == m.t && st.clockAvg == m.c
    requires st.timeVariance == m.tt - Square(m.t) && st.clockCovariance == m.tc - Times(m.t, m.c)
    ensures var r, x := Regress(st, p.t), Mixed(m, p);
            && r.timeAvg == x.t && r.clockAvg == x.c
            && r.timeVariance == x.tt - Square(x.t) && r.clockCovariance == x.tc - Times(x.t, x.c)
  {
    hide Regress, Folded, Mix, Times, Square;
    RegressFields(st, p.t);
    SquareIsTimes(p.t - m.t);
    SquareIsTimes(p.t);
    SquareIsTimes(m.t);
    SquareIsTimes(Mix(m.t, p.t));
    MomentUpdate(m.t, m.t, m.tt, p.t, p.t);
    MomentUpdate(m.t, m.c, m.tc, p.t, p.c);
  }

  // ---------- Least squares ----------

  /** The error of a line, split into a part no line can avoid and two squares. */
  lemma ErrorSplits(m: Moments, a: real, b: real)
    ensures ApplyMoments(ErrorForm(a, b), m)
         == (m.cc - Square(m.c)) - 2.0 * Times(b, m.tc - Times(m.t, m.c))
            + Times(Square(b), m.tt - Square(m.t)) + Square(a + Times(b, m.t) - m.c)
  {
    hide Times, Square, ErrorForm, Apply;
    ErrorFormApplied(a, b, m.tt, m.tc, m.cc, m.t, m.c);
    SquareOfThree(a, Times(b, m.t), m.c);
    SquareOfProduct(b, m.t);
    Associates(b, m.t, m.c);
    DistributesDifference(b, m.tc, Times(m.t, m.c));
    DistributesDifference(Square(b), m.tt, Square(m.t));
  }

  /** Completing the square in the slope. */
  lemma SlopeSquare(b: real, best: real, v: real)
    ensures Times(Square(b), v) - 2.0 * Times(b, Times(best, v))
         == Times(Square(b - best), v) - Times(Square(best), v)
  {
    hide Times, Square;
    SquareOfDifference(b, best);
    DistributesSum(v, Square(b) - 2.0 * Times(b, best), Square(best));
    DistributesDifference(v, Square(b), 2.0 * Times(b, best));
    Doubles(Times(b, best), v);
    Associates(b, best, v);
  }

  /** The line through the means with slope `b`. */
  function Intercept(h: seq<Point>, b: real): real { MeanClock(h) - Times(b, MeanTime(h)) }

  /** How much worse any line is than the one through the means with slope
      covariance over variance. */
  lemma ErrorExcess(h: seq<Point>, best: real, a: real, b: real)
    requires h != [] && Covariance(h) == Times(best, VarianceOfTime(h))
    ensures SquaredError(h, a, b) - SquaredError(h, Intercept(h, best), best)
         == Times(Square(b - best), VarianceOfTime(h)) + Square(a + Times(b, MeanTime(h)) - MeanClock(h))
  {
    hide Expect, VarianceOfTime, Covariance, SquaredError, ApplyMoments, Square, Times;
    var m := RawMoments(h);
    var a0 := Intercept(h, best);
    ErrorFromMoments(h, a, b);
    ErrorFromMoments(h, a0, best);
    VarianceFromMoments(h);
    CovarianceFromMoments(h);
    ErrorSplits(m, a, b);
    ErrorSplits(m, a0, best);
    SlopeSquare(b, best, VarianceOfTime(h));
    SlopeSquare(best, best, VarianceOfTime(h));
    TimesConstants(VarianceOfTime(h));
    assert a0 + Times(best, m.t) - m.c == 0.0 && best - best == 0.0;
  }

  /** No line has a smaller weighted squared error, and no other line has one as small. */
  ghost predicate IsLeastSquares(h: seq<Point>, a: real, b: real)
  {
    forall a', b' ::
      && SquaredError(h, a, b) <= SquaredError(h, a', b')
      && (SquaredError(h, a, b) == SquaredError(h, a', b') ==> a' == a && b' == b)
  }

  lemma LeastSquares(h: seq<Point>, best: real)
    requires h != [] && Covariance(h) == Times(best, VarianceOfTime(h)) && VarianceOfTime(h) > 0.0
    ensures IsLeastSquares(h, Intercept(h, best), best)
  {
    hide VarianceOfTime, Covariance, SquaredError;
    var a := Intercept(h, best);
    forall a', b'
      ensures SquaredError(h, a, best) <= SquaredError(h, a', b')
      ensures SquaredError(h, a, best) == SquaredError(h, a', b') ==> a' == a && b' == best
    {
      hide Times, Square;
      ErrorExcess(h, best, a', b');
      ExcessVanishes(b' - best, VarianceOfTime(h), a' + Times(b', MeanTime(h)) - MeanClock(h));
    }
  }

  lemma ExcessVanishes(x: real, v: real, y: real)
    requires v > 0.0
    ensures Times(Square(x), v) + Square(y) >= 0.0
    ensures Times(Square(x), v) + Square(y) == 0.0 ==> x == 0.0 && y == 0.0
  {
    hide Times, Square;
    SquareVanishes(x);
    SquareVanishes(y);
    SquareNonNegative(x);
    SquareNonNegative(y);
    TimesConstants(v);
    if Square(x) > 0.0 { TimesPositive(Square(x), v); }
  }

  // ---------- When the division is defined ----------

  lemma {:induction false} WeightPositive(n: nat, i: nat)
    requires i < n
    ensures Weight(n, i) > 0.0
  {
    PowerPositive(n - 1);
    if i > 0 { PowerPositive(n - 1 - i); }
  }

  lemma {:induction false} PowerPositive(n: nat)
    ensures Power(KEEP, n) > 0.0
  {
    if n > 0 { PowerPositive(n - 1); }
  }

  lemma {:induction false} PartialVanishes(h: seq<Point>, f: Point -> real, k: nat)
    requires k <= |h| && forall p :: f(p) >= 0.0
    ensures PartialSum(h, f, k) >= 0.0
    ensures PartialSum(h, f, k) == 0.0 <==> forall i :: 0 <= i < k ==> f(h[i]) == 0.0
  {
    if k > 0 {
      hide Weight, Times;
      PartialVanishes(h, f, k - 1);
      WeightPositive(|h|, k - 1);
      var w, y := Weight(|h|, k - 1), f(h[k - 1]);
      TimesConstants(w);
      if y > 0.0 { TimesPositive(w, y); }
    }
  }

  /** The variance is never negative, and vanishes exactly when all samples
      were sent at one time. */
  lemma VarianceVanishesIff(h: seq<Point>)
    requires h != []
    ensures VarianceOfTime(h) >= 0.0
    ensures VarianceOfTime(h) == 0.0 <==> forall i :: 0 <= i < |h| ==> h[i].t == h[0].t
  {
    hide PartialSum;
    var m := MeanTime(h);
    var f := SquaredDeviation(m);
    forall p ensures f(p) >= 0.0 && (f(p) == 0.0 <==> p.t == m) {
      hide Square;
      SquareVanishes(p.t - m);
      SquareNonNegative(p.t - m);
    }
    PartialVanishes(h, f, |h|);
    if forall i :: 0 <= i < |h| ==> h[i].t == h[0].t {
      SameTimeMean(h);
    }
  }

  lemma SameTimeMean(h: seq<Point>)
    requires h != [] && forall i :: 0 <= i < |h| ==> h[i].t == h[0].t
    ensures MeanTime(h) == h[0].t
    decreases |h|
  {
    hide Expect;
    var n := |h| - 1;
    if n == 0 {
      assert h == [h[0]];
      ExpectOne(h[0], TimeOf);
    } else {
      assert h == h[..n] + [h[n]];
      SameTimeMean(h[..n]);
      ExpectStep(h[..n], h[n], TimeOf);
    }
  }

  // ---------- Runs ----------

  /** connect forgets the last prediction before each of its queries; every
      clock reply goes to _handle_clock. */
  datatype Event = Forget | Reply(p: Params)

  datatype Run = Run(st: State, samples: seq<Point>)

  /** The samples the regression has seen grow unless the reply is dropped. */
  function Step(r: Run, e: Event): Run {
    match e
    case Forget => r.(st := r.st.(lastPredictionTime := -9999.0))
    case Reply(p) =>
      var (next, outcome) := Handle(r.st, p);
      if outcome == Untimed || outcome == Ignored then r.(st := next)
      else Run(next, r.samples + [Point(p.sentTime, next.lastClock as real)])
  }

  function RunAll(r: Run, events: seq<Event>): Run
    decreases |events|
  {
    if events == [] then r else RunAll(Step(r, events[0]), events[1..])
  }

  /** One reply: the accumulators stay the statistics of the samples seen; the
      frequency is then the least-squares slope; and computing it fails exactly
      when every sample so far was sent at the same time. */
  lemma ReplyStep(r: Run, p: Params)
    requires Tracks(r.st, r.samples)
    ensures var next, (st, outcome) := Step(r, Reply(p)), Handle(r.st, p);
            && Tracks(next.st, next.samples)
            && (outcome == Accepted ==>
                  && st.clockEst.clock == MeanClock(next.samples)
                  && st.clockEst.sampleTime == MeanTime(next.samples) + st.minHalfRtt
                  && IsLeastSquares(next.samples, Intercept(next.samples, st.clockEst.freq), st.clockEst.freq))
            && (p.sentTime != 0.0 && outcome != Ignored ==>
                  (outcome == DivisionByZero <==>
                    forall i :: 0 <= i < |next.samples| ==> next.samples[i].t == next.samples[0].t))
  {
    hide VarianceOfTime, Covariance, MeanTime, MeanClock, Dropped, Predict, TrackRtt, Regress;
    var (st, outcome) := Handle(r.st, p);
    if outcome == Accepted || outcome == DivisionByZero {
      var extended := r.st.(queriesPending := 0, lastClock := ExtendClock(r.st.lastClock, p.clock));
      var predicted := Predict(TrackRtt(extended, p), p.sentTime);
      EarlierStages(extended, p);
      RegressTracks(predicted, r.samples, p.sentTime);
      var h := r.samples + [Point(p.sentTime, st.lastClock as real)];
      RegressKeeps(predicted, p.sentTime);
      VarianceVanishesIff(h);
      if outcome == Accepted {
        Quotient(Covariance(h), VarianceOfTime(h));
        LeastSquares(h, st.clockEst.freq);
      }
    } else {
      EarlierStages(r.st.(queriesPending := 0, lastClock := ExtendClock(r.st.lastClock, p.clock)), p);
    }
  }

  /** As when the first reply carries the sent time of connect's own query. */
  lemma FirstReplyDivides(mcuFreq: real, uptime: int, sentTime: real, receiveTime: real)
    requires sentTime != 0.0
    ensures Handle(Connected(UNCONNECTED, mcuFreq, uptime, sentTime),
                   Params(uptime % CLOCK32, sentTime, receiveTime)).1 == DivisionByZero
  {
    hide TrackRtt, Dropped, Predict;
    var p := Params(uptime % CLOCK32, sentTime, receiveTime);
    var st := Connected(UNCONNECTED, mcuFreq, uptime, sentTime);
    ExtendClockIff(uptime, uptime);
    var extended := st.(queriesPending := 0, lastClock := uptime);
    EarlierStages(extended, p);
    OnTimeNotDropped(TrackRtt(extended, p), sentTime);
    assert sentTime - st.timeAvg == 0.0;
  }

  lemma OnTimeNotDropped(st: State, sentTime: real)
    requires st.timeAvg == sentTime && st.clockAvg == st.lastClock as real
    ensures !Dropped(st, sentTime)
  {
    assert ExpectedClock(st, sentTime) == st.clockAvg;
  }

  lemma EarlierStages(st: State, p: Params)
    ensures var a, b := TrackRtt(st, p), Predict(TrackRtt(st, p), p.sentTime);
            && a.timeAvg == st.timeAvg == b.timeAvg && a.clockAvg == st.clockAvg == b.clockAvg
            && a.timeVariance == st.timeVariance == b.timeVariance
            && a.clockCovariance == st.clockCovariance == b.clockCovariance
            && a.lastClock == st.lastClock == b.lastClock
            && b.minHalfRtt == a.minHalfRtt
  {
  }

  lemma RegressKeeps(st: State, sentTime: real)
    ensures Regress(st, sentTime).lastClock == st.lastClock && Regress(st, sentTime).minHalfRtt == st.minHalfRtt
  {
  }

  /** Over every run from connect on. */
  lemma {:induction false} RunTracks(r: Run, events: seq<Event>)
    requires Tracks(r.st, r.samples)
    ensures Tracks(RunAll(r, events).st, RunAll(r, events).samples)
    decreases |events|
  {
    hide Tracks, Handle;
    if events != [] {
      match events[0] {
        case Forget => ForgetTracks(r);
        case Reply(p) => ReplyStep(r, p);
      }
      RunTracks(Step(r, events[0]), events[1..]);
    }
  }

  lemma ForgetTracks(r: Run)
    requires Tracks(r.st, r.samples)
    ensures Tracks(Step(r, Forget).st, Step(r, Forget).samples)
  {
  }

  // ---------- The best round trip ----------

  /** A timed reply: sent time and half its round-trip time. */
  datatype RoundTrip = RoundTrip(t: real, half: real)

  function RoundTripOf(p: Params): RoundTrip {
    RoundTrip(p.sentTime, 0.5 * (p.receiveTime - p.sentTime))
  }

  /** A round trip discounted by age: ten microseconds are granted for every hour it lies back. */
  function Discounted(x: RoundTrip): real { x.half - Times(x.t, 0.000010 / 3600.0) }

  function BestTrip(st: State): RoundTrip { RoundTrip(st.minRttTime, st.minHalfRtt) }

  function TimedTrips(events: seq<Event>): seq<RoundTrip> {
    if events == [] then []
    else (if events[0].Reply? && events[0].p.sentTime != 0.0 then [RoundTripOf(events[0].p)] else []) + TimedTrips(events[1..])
  }

  /** The trip tracked is the first of those given that is best discounted. */
  predicate IsBestOf(best: RoundTrip, trips: seq<RoundTrip>) {
    exists i :: 0 <= i < |trips| && IsFirstBest(trips, i) && trips[i] == best
  }

  /** None is better, and all before it are worse. */
  predicate IsFirstBest(trips: seq<RoundTrip>, i: nat)
    requires i < |trips|
  {
    && (forall j :: 0 <= j < |trips| ==> Discounted(trips[i]) <= Discounted(trips[j]))
    && (forall j :: 0 <= j < i ==> Discounted(trips[i]) < Discounted(trips[j]))
  }

  lemma TrackRttIsBest(st: State, p: Params, trips: seq<RoundTrip>)
    requires IsBestOf(BestTrip(st), trips)
    ensures IsBestOf(BestTrip(TrackRtt(st, p)), trips + [RoundTripOf(p)])
  {
    hide Times;
    DistributesDifference(RTT_AGE, p.sentTime, st.minRttTime);
    var x := RoundTripOf(p);
    assert Discounted(x) < Discounted(BestTrip(st)) <==> x.half < st.minHalfRtt + Times(p.sentTime - st.minRttTime, RTT_AGE);
    assert (p.sentTime - st.minRttTime) * RTT_AGE == Times(p.sentTime - st.minRttTime, RTT_AGE) by { TimesMeans(p.sentTime - st.minRttTime, RTT_AGE); }
    BestOfOneMore(BestTrip(st), trips, x);
  }

  lemma BestOfOneMore(best: RoundTrip, trips: seq<RoundTrip>, x: RoundTrip)
    requires IsBestOf(best, trips)
    ensures IsBestOf(if Discounted(x) < Discounted(best) then x else best, trips + [x])
  {
    hide Discounted;
    var i :| 0 <= i < |trips| && IsFirstBest(trips, i) && trips[i] == best;
    var more := trips + [x];
    assert IsFirstBest(more, if Discounted(x) < Discounted(best) then |trips| else i);
  }

  lemma TimesMeans(x: real, y: real)
    ensures x * y == Times(x, y)
  {
  }

  lemma LaterStagesKeepTrip(st: State, sentTime: real)
    ensures BestTrip(Predict(st, sentTime)) == BestTrip(st) && BestTrip(Regress(st, sentTime)) == BestTrip(st)
  {
  }

  /** Over every run the tracked round trip is the best discounted one of all
      timed replies, counted with what was tracked before. */
  lemma {:induction false} RunKeepsBestTrip(r: Run, events: seq<Event>, trips: seq<RoundTrip>)
    requires IsBestOf(BestTrip(r.st), trips)
    ensures IsBestOf(BestTrip(RunAll(r, events).st), trips + TimedTrips(events))
    decreases |events|
  {
    hide IsBestOf, TrackRtt, Dropped, Predict, Regress, RoundTripOf;
    if events == [] {
      assert trips + [] == trips;
    } else {
      var next := Step(r, events[0]);
      if events[0].Reply? && events[0].p.sentTime != 0.0 {
        var p := events[0].p;
        var extended := r.st.(queriesPending := 0, lastClock := ExtendClock(r.st.lastClock, p.clock));
        var tracked := TrackRtt(extended, p);
        TrackRttIsBest(extended, p, trips);
        LaterStagesKeepTrip(tracked, p.sentTime);
        LaterStagesKeepTrip(Predict(tracked, p.sentTime), p.sentTime);
        RunKeepsBestTrip(next, events[1..], trips + [RoundTripOf(p)]);
        assert (trips + [RoundTripOf(p)]) + TimedTrips(events[1..]) == trips + ([RoundTripOf(p)] + TimedTrips(events[1..]));
      } else {
        RunKeepsBestTrip(next, events[1..], trips);
        assert [] + TimedTrips(events[1..]) == TimedTrips(events[1..]);
      }
    }
  }
}
