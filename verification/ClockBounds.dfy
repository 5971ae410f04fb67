/** Safety of the clock estimate over whole runs: the 64-bit clock is the true
    one, and the estimated frequency stays within the rates really seen. */
module ClockBounds {
  import opened Reals
  import opened ClockSync
  import opened ClockRegression

  /** What really happens: a reply carries the low 32 bits of the true clock. */
  datatype Happening = Forgets | Reports(trueClock: int, sentTime: real, receiveTime: real)

  function Seen(x: Happening): Event {
    match x
    case Forgets => Forget
    case Reports(c, sent, received) => Reply(Params(c % CLOCK32, sent, received))
  }

  /** The true clock at the last reply, and the last reply that had a sent time. */
  datatype Truth = Truth(clock: int, timed: Point)

  function Witness(w: Truth, x: Happening): Truth {
    match x
    case Forgets => w
    case Reports(c, sent, _) => Truth(c, if sent == 0.0 then w.timed else Point(sent, c as real))
  }

  predicate RateWithin(fmin: real, fmax: real, a: Point, b: Point) {
    Times(fmin, b.t - a.t) <= b.c - a.c <= Times(fmax, b.t - a.t)
  }

  /** The clock advances by less than 2^32 between replies; timed replies have
      increasing sent times and consecutive ones a rate between fmin and fmax. */
  predicate Steady(fmin: real, fmax: real, w: Truth, x: Happening) {
    match x
    case Forgets => true
    case Reports(c, sent, _) =>
      && 0 <= c - w.clock < CLOCK32
      && (sent != 0.0 ==> w.timed.t < sent && RateWithin(fmin, fmax, w.timed, Point(sent, c as real)))
  }

  predicate SteadyRun(fmin: real, fmax: real, w: Truth, xs: seq<Happening>)
    decreases |xs|
  {
    xs == [] || (Steady(fmin, fmax, w, xs[0]) && SteadyRun(fmin, fmax, Witness(w, xs[0]), xs[1..]))
  }

  predicate ProductWithin(fmin: real, fmax: real, v: real, c: real) {
    Times(fmin, v) <= c <= Times(fmax, v)
  }

  /** Kept by every happening of a steady run. */
  predicate Safe(fmin: real, fmax: real, w: Truth, st: State) {
    && st.lastClock == w.clock
    && st.timeAvg <= w.timed.t
    && RateWithin(fmin, fmax, Point(st.timeAvg, st.clockAvg), w.timed)
    && st.timeVariance >= 0.0
    && ProductWithin(fmin, fmax, st.timeVariance, st.clockCovariance)
    && st.predictionVariance >= 0.0
  }

  lemma RatesAdd(fmin: real, fmax: real, a: Point, b: Point, c: Point)
    requires RateWithin(fmin, fmax, a, b) && RateWithin(fmin, fmax, b, c)
    ensures RateWithin(fmin, fmax, a, c)
  {
    hide Times;
    DistributesSum(fmin, b.t - a.t, c.t - b.t);
    DistributesSum(fmax, b.t - a.t, c.t - b.t);
    assert (b.t - a.t) + (c.t - b.t) == c.t - a.t;
  }

  lemma ScaleRate(f: real, x: real, y: real, k: real)
    requires k >= 0.0
    ensures Times(f, x) <= y ==> Times(f, Times(k, x)) <= Times(k, y)
    ensures y <= Times(f, x) ==> Times(k, y) <= Times(f, Times(k, x))
  {
    hide Times;
    Associates(f, k, x);
    Commutes(f, k);
    Associates(k, f, x);
    if Times(f, x) <= y { TimesMonotone(k, Times(f, x), y); }
    if y <= Times(f, x) { TimesMonotone(k, y, Times(f, x)); }
  }

  /** After folding in a sample later than the average and within the rates. */
  lemma RegressSafe(fmin: real, fmax: real, st: State, p: Point)
    requires p.c == st.lastClock as real && st.timeAvg < p.t
    requires RateWithin(fmin, fmax, Point(st.timeAvg, st.clockAvg), p)
    requires st.timeVariance >= 0.0 && ProductWithin(fmin, fmax, st.timeVariance, st.clockCovariance)
    ensures var r := Regress(st, p.t);
            && r.timeAvg <= p.t && RateWithin(fmin, fmax, Point(r.timeAvg, r.clockAvg), p)
            && r.timeVariance > 0.0 && ProductWithin(fmin, fmax, r.timeVariance, r.clockCovariance)
  {
    hide Times, Square, Regress, Folded, Mix;
    var dt, dc := p.t - st.timeAvg, p.c - st.clockAvg;
    RegressFields(st, p.t);
    Remaining(st.timeAvg, p.t);
    Remaining(st.clockAvg, p.c);
    ScaleRate(fmin, dt, dc, KEEP);
    ScaleRate(fmax, dt, dc, KEEP);
    ScaleRate(fmin, dt, dc, dt);
    ScaleRate(fmax, dt, dc, dt);
    SquareIsTimes(dt);
    FoldedWithin(fmin, fmax, st.timeVariance, st.clockCovariance, Square(dt), Times(dt, dc));
    TimesPositive(dt, dt);
    FoldedPositive(st.timeVariance, Square(dt));
    TimesPositive(KEEP, dt);
  }

  lemma Remaining(x: real, y: real)
    ensures y - Mix(x, y) == Times(KEEP, y - x)
  {
  }

  lemma FoldedPositive(v: real, square: real)
    requires v >= 0.0 && square > 0.0
    ensures Folded(v, square) > 0.0
  {
  }

  lemma FoldedWithin(fmin: real, fmax: real, v: real, c: real, square: real, product: real)
    requires ProductWithin(fmin, fmax, v, c)
    requires ProductWithin(fmin, fmax, square, product)
    ensures ProductWithin(fmin, fmax, Folded(v, square), Folded(c, product))
  {
    hide Times;
    FoldedScales(fmin, v, square);
    FoldedScales(fmax, v, square);
  }

  lemma FoldedScales(f: real, v: real, square: real)
    ensures Times(f, Folded(v, square)) == Folded(Times(f, v), Times(f, square))
  {
  }

  /** One happening of a steady run keeps everything safe, and if it ends in a
      new estimate, that estimate's frequency is within the rates. It never
      ends in a division by zero. */
  lemma HappeningSafe(fmin: real, fmax: real, w: Truth, st: State, h: seq<Point>, x: Happening)
    requires Safe(fmin, fmax, w, st) && Steady(fmin, fmax, w, x)
    ensures Safe(fmin, fmax, Witness(w, x), Step(Run(st, h), Seen(x)).st)
    ensures x.Reports? ==>
      var (next, outcome) := Handle(st, Seen(x).p);
      && outcome != DivisionByZero
      && (outcome == Accepted ==> next.timeVariance > 0.0 && fmin <= next.clockEst.freq <= fmax)
  {
    hide Times, Regress, TrackRtt, Predict, Dropped;
    if x.Reports? {
      var p := Seen(x).p;
      var extended := st.(queriesPending := 0, lastClock := ExtendClock(st.lastClock, p.clock));
      ExtendClockIff(st.lastClock, x.trueClock);
      if p.sentTime != 0.0 {
        var now := Point(p.sentTime, x.trueClock as real);
        var predicted := Predict(TrackRtt(extended, p), p.sentTime);
        EarlierStages(extended, p);
        PredictSafe(extended, p);
        RatesAdd(fmin, fmax, Point(st.timeAvg, st.clockAvg), w.timed, now);
        RegressSafe(fmin, fmax, predicted, now);
        RegressKeeps(predicted, p.sentTime);
        RegressKeepsPrediction(predicted, p.sentTime);
        var r := Regress(predicted, p.sentTime);
        QuotientWithin(fmin, fmax, r.timeVariance, r.clockCovariance);
      }
    }
  }

  lemma PredictSafe(st: State, p: Params)
    requires st.predictionVariance >= 0.0
    ensures TrackRtt(st, p).predictionVariance >= 0.0
    ensures Predict(TrackRtt(st, p), p.sentTime).predictionVariance >= 0.0
  {
    hide ExpectedClock, Extreme, Square;
    var s := TrackRtt(st, p);
    SquareNonNegative(s.lastClock as real - ExpectedClock(s, p.sentTime));
    SquareNonNegative(0.001 * s.mcuFreq);
  }

  lemma RegressKeepsPrediction(st: State, sentTime: real)
    ensures Regress(st, sentTime).predictionVariance == st.predictionVariance
  {
  }

  lemma QuotientWithin(fmin: real, fmax: real, v: real, c: real)
    requires v > 0.0 && ProductWithin(fmin, fmax, v, c)
    ensures fmin <= c / v <= fmax
  {
    hide Times;
    Quotient(c, v);
    var q := c / v;
    if q < fmin { TimesStrict(q, fmin, v); }
    if fmax < q { TimesStrict(fmax, q, v); }
  }

  function Truths(w: Truth, xs: seq<Happening>): Truth
    decreases |xs|
  {
    if xs == [] then w else Truths(Witness(w, xs[0]), xs[1..])
  }

  function AllSeen(xs: seq<Happening>): seq<Event> {
    if xs == [] then [] else [Seen(xs[0])] + AllSeen(xs[1..])
  }

  /** All that the 64-bit clock asks for: less than 2^32 between replies. */
  predicate Advances(w: Truth, x: Happening) {
    x.Reports? ==> 0 <= x.trueClock - w.clock < CLOCK32
  }

  predicate AdvancingRun(w: Truth, xs: seq<Happening>)
    decreases |xs|
  {
    xs == [] || (Advances(w, xs[0]) && AdvancingRun(Witness(w, xs[0]), xs[1..]))
  }

  lemma StepClock(r: ClockRegression.Run, x: Happening)
    ensures x.Forgets? ==> Step(r, Seen(x)).st.lastClock == r.st.lastClock
    ensures x.Reports? ==> Step(r, Seen(x)).st.lastClock == ExtendClock(r.st.lastClock, x.trueClock % CLOCK32)
  {
    hide Predict, TrackRtt, Dropped, Regress;
    if x.Reports? {
      var p := Seen(x).p;
      var extended := r.st.(queriesPending := 0, lastClock := ExtendClock(r.st.lastClock, p.clock));
      EarlierStages(extended, p);
      RegressKeeps(Predict(TrackRtt(extended, p), p.sentTime), p.sentTime);
    }
  }

  /** After every reply of every run last_clock is the true clock, whatever the
      sent times and rates, and whether samples are used, dropped or fail. */
  lemma {:induction false} ClockStaysTrue(w: Truth, r: ClockRegression.Run, xs: seq<Happening>)
    requires r.st.lastClock == w.clock && AdvancingRun(w, xs)
    ensures RunAll(r, AllSeen(xs)).st.lastClock == Truths(w, xs).clock
    decreases |xs|
  {
    hide Step, Seen, ExtendClock;
    if xs != [] {
      StepClock(r, xs[0]);
      if xs[0].Reports? { ExtendClockIff(w.clock, xs[0].trueClock); }
      ClockStaysTrue(Witness(w, xs[0]), Step(r, Seen(xs[0])), xs[1..]);
      assert AllSeen(xs)[1..] == AllSeen(xs[1..]);
    }
  }

  /** It stays true exactly as long as the clock advances like that: a first
      report that comes too late leaves last_clock wrong. */
  lemma ClockGoesWrong(w: Truth, r: ClockRegression.Run, x: Happening)
    requires r.st.lastClock == w.clock && !Advances(w, x)
    ensures Step(r, Seen(x)).st.lastClock != Witness(w, x).clock
  {
    hide ExtendClock, Step;
    StepClock(r, x);
    ExtendClockIff(w.clock, x.trueClock);
  }

  /** After such a run, any clock from 2^31 below the last report to just under
      2^31 above it is recovered from its low 32 bits. */
  lemma ClockRecovered(w: Truth, r: ClockRegression.Run, xs: seq<Happening>, trueClock: int)
    requires r.st.lastClock == w.clock && AdvancingRun(w, xs)
    ensures Clock32To64(RunAll(r, AllSeen(xs)).st.lastClock, trueClock % CLOCK32) == trueClock
       <==> -HALF_CLOCK32 <= trueClock - Truths(w, xs).clock < HALF_CLOCK32
  {
    hide RunAll, Clock32To64, AdvancingRun;
    ClockStaysTrue(w, r, xs);
    Clock32To64Iff(Truths(w, xs).clock, trueClock);
  }

  /** Safety of every run: after any steady sequence of happenings, whatever was
      skipped, reset or dropped on the way, last_clock is the true clock, the
      square root of the prediction variance exists, and a further steady reply
      is either dropped or gives a frequency within the rates. */
  lemma {:induction false} SteadyRunSafe(fmin: real, fmax: real, w: Truth, r: ClockRegression.Run, xs: seq<Happening>)
    requires Safe(fmin, fmax, w, r.st) && SteadyRun(fmin, fmax, w, xs)
    ensures Safe(fmin, fmax, Truths(w, xs), RunAll(r, AllSeen(xs)).st)
    decreases |xs|
  {
    hide Safe, Steady, Step, Seen;
    if xs != [] {
      HappeningSafe(fmin, fmax, w, r.st, r.samples, xs[0]);
      StepState(r, xs[0]);
      SteadyRunSafe(fmin, fmax, Witness(w, xs[0]), Step(r, Seen(xs[0])), xs[1..]);
      assert AllSeen(xs)[1..] == AllSeen(xs[1..]);
    }
  }

  lemma StepState(r: ClockRegression.Run, x: Happening)
    ensures Step(r, Seen(x)).st == Step(Run(r.st, r.samples), Seen(x)).st
  {
  }

  /** connect starts safe. */
  lemma ConnectSafe(fmin: real, fmax: real, mcuFreq: real, uptime: int, sentTime: real)
    ensures Safe(fmin, fmax, Truth(uptime, Point(sentTime, uptime as real)),
                 Connected(UNCONNECTED, mcuFreq, uptime, sentTime))
  {
    SquareNonNegative(0.001 * mcuFreq);
  }

  /** From connect on, in every steady run: the clock is right and every
      estimate's frequency is within the rates. */
  lemma EstimatesWithinRates(fmin: real, fmax: real, mcuFreq: real, uptime: int, sentTime: real, xs: seq<Happening>, x: Happening)
    requires x.Reports?
    requires SteadyRun(fmin, fmax, Truth(uptime, Point(sentTime, uptime as real)), xs)
    requires Steady(fmin, fmax, Truths(Truth(uptime, Point(sentTime, uptime as real)), xs), x)
    ensures var start := Run(Connected(UNCONNECTED, mcuFreq, uptime, sentTime), [Point(sentTime, uptime as real)]);
            var (next, outcome) := Handle(RunAll(start, AllSeen(xs)).st, Seen(x).p);
            && next.lastClock == x.trueClock
            && outcome != DivisionByZero
            && (outcome == Accepted ==> next.timeVariance > 0.0 && fmin <= next.clockEst.freq <= fmax)
  {
    hide Handle, Steady, RunAll, SteadyRun, Connected;
    var w := Truth(uptime, Point(sentTime, uptime as real));
    var start := Run(Connected(UNCONNECTED, mcuFreq, uptime, sentTime), [Point(sentTime, uptime as real)]);
    ConnectSafe(fmin, fmax, mcuFreq, uptime, sentTime);
    SteadyRunSafe(fmin, fmax, w, start, xs);
    var before := RunAll(start, AllSeen(xs));
    HappeningSafe(fmin, fmax, Truths(w, xs), before.st, before.samples, x);
    ClockAfterReply(before, x);
  }

  lemma ClockAfterReply(r: ClockRegression.Run, x: Happening)
    requires x.Reports?
    ensures Step(r, Seen(x)).st == Handle(r.st, Seen(x).p).0
  {
  }
}
