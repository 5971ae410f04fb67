/** Which samples the outlier filter of clocksync.py ignores, and what the others
    do to the spread it judges by. */
module ClockFilter {
  import opened Reals
  import opened ClockSync
  import opened ClockRegression

  lemma SquareOrder(a: real, b: real)
    requires a >= 0.0 && b >= 0.0
    ensures Square(a) > Square(b) <==> a > b
  {
    hide Square, Times;
    SquareIsTimes(a);
    SquareIsTimes(b);
    if a > b {
      TimesMonotone(b, b, a);
      TimesStrict(b, a, a);
    } else {
      TimesMonotone(a, a, b);
      TimesMonotone(b, a, b);
    }
  }

  lemma SquareOfSize(x: real)
    ensures Square(x) == Square(if x < 0.0 then -x else x)
  {
  }

  lemma FiveTimes(s: real)
    ensures Square(5.0 * s) == 25.0 * Square(s)
  {
  }

  /** How far the report's clock is above the line fitted so far. */
  function Late(st: State, p: Params): real {
    Handle(st, p).0.lastClock as real - ((p.sentTime - st.timeAvg) * st.clockEst.freq + st.clockAvg)
  }

  function Size(x: real): real { if x < 0.0 then -x else x }

  /** Off the line by more than five standard deviations and by more than 500 ppm
      of a second's clocks. */
  predicate FarOff(st: State, spread: real, late: real) {
    Size(late) > 5.0 * spread && Size(late) > 0.0005 * st.mcuFreq
  }

  lemma ExtremeIsFarOff(st: State, sentTime: real, spread: real)
    requires spread >= 0.0 && Square(spread) == st.predictionVariance && st.mcuFreq >= 0.0
    ensures Extreme(st, sentTime) <==> FarOff(st, spread, st.lastClock as real - ExpectedClock(st, sentTime))
  {
    hide Square, ExpectedClock;
    var late := st.lastClock as real - ExpectedClock(st, sentTime);
    SquareOfSize(late);
    FiveTimes(spread);
    SquareOrder(Size(late), 5.0 * spread);
    SquareOrder(Size(late), 0.0005 * st.mcuFreq);
  }

  /** The stages up to the filter change nothing it looks at. */
  lemma BeforeFilter(st: State, p: Params)
    ensures var tracked := TrackRtt(st.(queriesPending := 0, lastClock := ExtendClock(st.lastClock, p.clock)), p);
            && tracked.timeAvg == st.timeAvg && tracked.clockAvg == st.clockAvg && tracked.clockEst == st.clockEst
            && tracked.timeVariance == st.timeVariance && tracked.clockCovariance == st.clockCovariance
            && tracked.predictionVariance == st.predictionVariance && tracked.mcuFreq == st.mcuFreq
            && tracked.lastPredictionTime == st.lastPredictionTime
            && tracked.lastClock == Handle(st, p).0.lastClock
  {
    hide Square;
  }

  /** A sample is ignored exactly if it is late by more than both bounds and was
      sent within ten seconds of the last sample that was as predicted. */
  lemma IgnoredIff(st: State, p: Params, spread: real)
    requires spread >= 0.0 && Square(spread) == st.predictionVariance && st.mcuFreq >= 0.0
    ensures Handle(st, p).1 == Ignored <==>
            && p.sentTime != 0.0
            && Late(st, p) > 5.0 * spread && Late(st, p) > 0.0005 * st.mcuFreq
            && p.sentTime < st.lastPredictionTime + 10.0
  {
    hide Square, Predict, Regress, Extreme;
    var tracked := TrackRtt(st.(queriesPending := 0, lastClock := ExtendClock(st.lastClock, p.clock)), p);
    BeforeFilter(st, p);
    ExtremeIsFarOff(tracked, p.sentTime, spread);
    hide TrackRtt;
    assert ExpectedClock(tracked, p.sentTime) == (p.sentTime - st.timeAvg) * st.clockEst.freq + st.clockAvg;
  }

  /** An ignored sample leaves the regression, the spread and the estimate alone. */
  lemma IgnoredKeeps(st: State, p: Params)
    requires Handle(st, p).1 == Ignored
    ensures var s := Handle(st, p).0;
            && s.timeAvg == st.timeAvg && s.clockAvg == st.clockAvg
            && s.timeVariance == st.timeVariance && s.clockCovariance == st.clockCovariance
            && s.predictionVariance == st.predictionVariance && s.lastPredictionTime == st.lastPredictionTime
            && s.clockEst == st.clockEst && s.mcuFreq == st.mcuFreq
  {
    hide Extreme, Predict, Regress;
    BeforeFilter(st, p);
  }

  /** A sample that is used renews the spread: it starts over at 1000 ppm after one
      that is far off, and otherwise takes the deviation in with the decay of the
      regression, the sample counting as predicted. */
  lemma UsedUpdatesSpread(st: State, p: Params, spread: real)
    requires spread >= 0.0 && Square(spread) == st.predictionVariance && st.mcuFreq >= 0.0
    requires Handle(st, p).1 == Accepted || Handle(st, p).1 == DivisionByZero
    ensures var s, late := Handle(st, p).0, Late(st, p);
            if FarOff(st, spread, late) then
              && s.predictionVariance == Square(0.001 * st.mcuFreq)
              && s.lastPredictionTime == st.lastPredictionTime
            else
              && s.predictionVariance == 29.0 / 30.0 * (st.predictionVariance + Square(late) * (1.0 / 30.0))
              && s.lastPredictionTime == p.sentTime
  {
    hide Square, Extreme;
    var tracked := TrackRtt(st.(queriesPending := 0, lastClock := ExtendClock(st.lastClock, p.clock)), p);
    BeforeFilter(st, p);
    ExtremeIsFarOff(tracked, p.sentTime, spread);
    hide TrackRtt;
    assert ExpectedClock(tracked, p.sentTime) == (p.sentTime - st.timeAvg) * st.clockEst.freq + st.clockAvg;
    assert tracked.lastClock as real - ExpectedClock(tracked, p.sentTime) == Late(st, p);
  }

  // ---------- Runs ----------

  /** Whatever the spread, no sample sent ten seconds after the last prediction is ignored. */
  lemma IgnoredIsSoon(st: State, p: Params)
    requires Handle(st, p).1 == Ignored
    ensures p.sentTime < st.lastPredictionTime + 10.0
  {
    hide Extreme, Predict, Regress;
    BeforeFilter(st, p);
  }

  predicate AllIgnored(r: Run, events: seq<Event>)
    decreases |events|
  {
    events == [] ||
    (events[0].Reply? && Handle(r.st, events[0].p).1 == Ignored && AllIgnored(Step(r, events[0]), events[1..]))
  }

  /** So samples are ignored on end for less than ten seconds, during which the
      estimate stands still. */
  lemma {:induction false} IgnoredLessThanTenSeconds(r: Run, events: seq<Event>)
    requires AllIgnored(r, events)
    ensures forall i :: 0 <= i < |events| ==> events[i].Reply? && events[i].p.sentTime < r.st.lastPredictionTime + 10.0
    ensures RunAll(r, events).samples == r.samples && RunAll(r, events).st.clockEst == r.st.clockEst
    decreases |events|
  {
    hide Handle;
    if events != [] {
      IgnoredIsSoon(r.st, events[0].p);
      IgnoredKeeps(r.st, events[0].p);
      IgnoredLessThanTenSeconds(Step(r, events[0]), events[1..]);
    }
  }
}
