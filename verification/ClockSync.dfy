/** ClockSync of clocksync.py: 64-bit extension of a 32-bit clock, round-trip
    tracking, the outlier filter and the decaying regression. Floats are reals. */
module ClockSync {
  import opened Bytes
  import opened Reals

  const RTT_AGE := 0.000010 / 3600.0
  const DECAY := 1.0 / 30.0
  const KEEP := 29.0 / 30.0
  const TRANSMIT_EXTRA := 0.001

  const CLOCK32 := 0x1_0000_0000
  const HALF_CLOCK32 := 0x8000_0000

  /** (sample time, clock, frequency) */
  datatype Estimate = Estimate(sampleTime: real, clock: real, freq: real)

  datatype Params = Params(clock: int, sentTime: real, receiveTime: real)

  datatype State = State(
    queriesPending: int, mcuFreq: real, lastClock: int, clockEst: Estimate,
    minHalfRtt: real, minRttTime: real,
    timeAvg: real, timeVariance: real, clockAvg: real, clockCovariance: real,
    predictionVariance: real, lastPredictionTime: real)

  datatype Outcome =
    | Untimed         // no sent time: only the clock was extended
    | Ignored         // outlier, dropped
    | Accepted        // the estimate was updated
    | DivisionByZero  // the regression was updated, then the frequency could not be computed

  // ---------- 32 to 64 bits ----------

  function ExtendClock(lastClock: int, clock: int): (c: int) {
    lastClock + (clock - lastClock) % CLOCK32
  }

  function Clock32To64(lastClock: int, clock32: int): (c: int) {
    var diff := (clock32 - lastClock) % CLOCK32;
    lastClock + (if diff >= HALF_CLOCK32 then diff - CLOCK32 else diff)
  }

  /** The report's 32 bits determine the true clock exactly when it advanced by
      less than 2^32 since the last report. */
  lemma ExtendClockIff(lastClock: int, trueClock: int)
    ensures ExtendClock(lastClock, trueClock % 0x1_0000_0000) == trueClock
       <==> 0 <= trueClock - lastClock < 0x1_0000_0000
  {
    SameRemainder(trueClock % CLOCK32 - lastClock, trueClock - lastClock, trueClock / CLOCK32);
  }

  /** A clock near the last report is recovered exactly on the window from 2^31
      below it to just under 2^31 above it. */
  lemma Clock32To64Iff(lastClock: int, trueClock: int)
    ensures Clock32To64(lastClock, trueClock % 0x1_0000_0000) == trueClock
       <==> -0x8000_0000 <= trueClock - lastClock < 0x8000_0000
  {
    SameRemainder(trueClock % CLOCK32 - lastClock, trueClock - lastClock, trueClock / CLOCK32);
  }

  lemma SameRemainder(a: int, b: int, turns: int)
    requires b == a + turns * CLOCK32
    ensures a % CLOCK32 == b % CLOCK32
  {
  }

  // ---------- _handle_clock ----------

  function TrackRtt(st: State, p: Params): State {
    var halfRtt := 0.5 * (p.receiveTime - p.sentTime);
    var agedRtt := (p.sentTime - st.minRttTime) * RTT_AGE;
    if halfRtt < st.minHalfRtt + agedRtt then st.(minHalfRtt := halfRtt, minRttTime := p.sentTime) else st
  }

  function ExpectedClock(st: State, sentTime: real): real {
    (sentTime - st.timeAvg) * st.clockEst.freq + st.clockAvg
  }

  predicate Extreme(st: State, sentTime: real) {
    var diff2 := Square(st.lastClock as real - ExpectedClock(st, sentTime));
    diff2 > 25.0 * st.predictionVariance && diff2 > Square(0.0005 * st.mcuFreq)
  }

  predicate Dropped(st: State, sentTime: real) {
    && Extreme(st, sentTime)
    && st.lastClock as real > ExpectedClock(st, sentTime)
    && sentTime < st.lastPredictionTime + 10.0
  }

  /** The prediction spread after a sample that is not dropped. */
  function Predict(st: State, sentTime: real): State {
    if Extreme(st, sentTime) then st.(predictionVariance := Square(0.001 * st.mcuFreq))
    else
      var diff2 := Square(st.lastClock as real - ExpectedClock(st, sentTime));
      st.(lastPredictionTime := sentTime,
          predictionVariance := (1.0 - DECAY) * (st.predictionVariance + diff2 * DECAY))
  }

  function Regress(st: State, sentTime: real): State {
    var diffTime := sentTime - st.timeAvg;
    var diffClock := st.lastClock as real - st.clockAvg;
    st.(timeAvg := st.timeAvg + DECAY * diffTime,
        timeVariance := (1.0 - DECAY) * (st.timeVariance + Square(diffTime) * DECAY),
        clockAvg := st.clockAvg + DECAY * diffClock,
        clockCovariance := (1.0 - DECAY) * (st.clockCovariance + diffTime * diffClock * DECAY))
  }

  function Reestimate(st: State): State
    requires st.timeVariance != 0.0
  {
    st.(clockEst := Estimate(st.timeAvg + st.minHalfRtt, st.clockAvg, st.clockCovariance / st.timeVariance))
  }

  function Handle(st: State, p: Params): (State, Outcome) {
    var extended := st.(queriesPending := 0, lastClock := ExtendClock(st.lastClock, p.clock));
    if p.sentTime == 0.0 then (extended, Untimed)
    else
      var tracked := TrackRtt(extended, p);
      if Dropped(tracked, p.sentTime) then (tracked, Ignored)
      else
        var regressed := Regress(Predict(tracked, p.sentTime), p.sentTime);
        if regressed.timeVariance == 0.0 then (regressed, DivisionByZero)
        else (Reestimate(regressed), Accepted)
  }

  /** What the serial code is given: frequency, time, a clock three standard
      deviations below the average, and the last clock. */
  datatype SerialEstimate = SerialEstimate(freq: real, time: real, clock: int, lastClock: int)

  /** The arguments of set_clock_est after an accepted sample. */
  function ForSerial(st: State, sqrt: SquareRoot): SerialEstimate {
    SerialEstimate(st.clockEst.freq, st.timeAvg + TRANSMIT_EXTRA,
                   Trunc(st.clockAvg - 3.0 * sqrt(st.predictionVariance)), st.lastClock)
  }

  // ---------- The object ----------

  /** Freshly constructed: no serial connection yet. */
  const UNCONNECTED := State(0, 1.0, 0, Estimate(0.0, 0.0, 0.0), 999999999.9, 0.0, 0.0, 0.0, 0.0, 0.0, 0.0, 0.0)

  /** What connect sets from the uptime reply, before it asks for clocks. */
  function Connected(st: State, mcuFreq: real, uptime: int, sentTime: real): State {
    st.(mcuFreq := mcuFreq, lastClock := uptime, clockAvg := uptime as real, timeAvg := sentTime,
        clockEst := Estimate(sentTime, uptime as real, mcuFreq),
        predictionVariance := Square(0.001 * mcuFreq))
  }

  class Sync {
    var queriesPending: int
    var mcuFreq: real
    var lastClock: int
    var clockEst: Estimate
    var minHalfRtt: real
    var minRttTime: real
    var timeAvg: real
    var timeVariance: real
    var clockAvg: real
    var clockCovariance: real
    var predictionVariance: real
    var lastPredictionTime: real

    ghost function Fields(): State
      reads this
    {
      State(queriesPending, mcuFreq, lastClock, clockEst, minHalfRtt, minRttTime, timeAvg, timeVariance,
            clockAvg, clockCovariance, predictionVariance, lastPredictionTime)
    }

    constructor ()
      ensures Fields() == UNCONNECTED
    {
      queriesPending, mcuFreq, lastClock := 0, 1.0, 0;
      clockEst := Estimate(0.0, 0.0, 0.0);
      minHalfRtt, minRttTime := 999999999.9, 0.0;
      timeAvg, timeVariance := 0.0, 0.0;
      clockAvg, clockCovariance := 0.0, 0.0;
      predictionVariance, lastPredictionTime := 0.0, 0.0;
    }

    method BeginConnect(freq: real, high: nat, low: nat, sentTime: real)
      requires low < CLOCK32
      modifies this
      ensures Fields() == Connected(old(Fields()), freq, high * CLOCK32 + low, sentTime)
    {
      mcuFreq := freq;
      lastClock := high * CLOCK32 + low;
      clockAvg := lastClock as real;
      timeAvg := sentTime;
      clockEst := Estimate(timeAvg, clockAvg, mcuFreq);
      predictionVariance := Square(0.001 * mcuFreq);
    }

    /** connect clears this before each of its own queries. */
    method ForgetPrediction()
      modifies this`lastPredictionTime
      ensures Fields() == old(Fields()).(lastPredictionTime := -9999.0)
    {
      lastPredictionTime := -9999.0;
    }

    /** `sent` is what set_clock_est is called with. */
    method HandleClock(p: Params, sqrt: SquareRoot) returns (outcome: Outcome, sent: Option<SerialEstimate>)
      modifies this
      ensures (Fields(), outcome) == Handle(old(Fields()), p)
      ensures sent == if outcome == Accepted then Some(ForSerial(Fields(), sqrt)) else None
    {
      hide TrackRtt, Dropped, Predict, Regress;
      queriesPending := 0;
      var clockDelta := (p.clock - lastClock) % CLOCK32;
      lastClock := lastClock + clockDelta;
      if p.sentTime == 0.0 { return Untimed, None; }
      UpdateRtt(p);
      var dropped := FilterSample(p.sentTime);
      if dropped { return Ignored, None; }
      AddSample(p.sentTime);
      if timeVariance == 0.0 { return DivisionByZero, None; }
      var newFreq := clockCovariance / timeVariance;
      var predStddev := sqrt(predictionVariance);
      sent := Some(SerialEstimate(newFreq, timeAvg + TRANSMIT_EXTRA, Trunc(clockAvg - 3.0 * predStddev), lastClock));
      clockEst := Estimate(timeAvg + minHalfRtt, clockAvg, newFreq);
      return Accepted, sent;
    }

    /** Keeps the best round trip seen so far. */
    method UpdateRtt(p: Params)
      modifies this`minHalfRtt, this`minRttTime
      ensures Fields() == TrackRtt(old(Fields()), p)
    {
      var halfRtt := 0.5 * (p.receiveTime - p.sentTime);
      var agedRtt := (p.sentTime - minRttTime) * RTT_AGE;
      if halfRtt < minHalfRtt + agedRtt {
        minHalfRtt, minRttTime := halfRtt, p.sentTime;
      }
    }

    /** Drops extreme outliers, and otherwise updates the prediction spread. */
    method FilterSample(sentTime: real) returns (dropped: bool)
      modifies this`predictionVariance, this`lastPredictionTime
      ensures dropped == Dropped(old(Fields()), sentTime)
      ensures Fields() == if dropped then old(Fields()) else Predict(old(Fields()), sentTime)
    {
      hide Square;
      var clock := lastClock as real;
      var expClock := (sentTime - timeAvg) * clockEst.freq + clockAvg;
      var diff2 := Square(clock - expClock);
      assert expClock == ExpectedClock(Fields(), sentTime);
      assert (diff2 > 25.0 * predictionVariance && diff2 > Square(0.0005 * mcuFreq)) == Extreme(Fields(), sentTime);
      if diff2 > 25.0 * predictionVariance && diff2 > Square(0.0005 * mcuFreq) {
        if clock > expClock && sentTime < lastPredictionTime + 10.0 { return true; }
        predictionVariance := Square(0.001 * mcuFreq);
      } else {
        lastPredictionTime := sentTime;
        predictionVariance := (1.0 - DECAY) * (predictionVariance + diff2 * DECAY);
      }
      return false;
    }

    /** Adds the clock and sent time to the linear regression. */
    method AddSample(sentTime: real)
      modifies this`timeAvg, this`timeVariance, this`clockAvg, this`clockCovariance
      ensures Fields() == Regress(old(Fields()), sentTime)
    {
      hide Square;
      var diffTime := sentTime - timeAvg;
      timeAvg := timeAvg + DECAY * diffTime;
      timeVariance := (1.0 - DECAY) * (timeVariance + Square(diffTime) * DECAY);
      var diffClock := lastClock as real - clockAvg;
      clockAvg := clockAvg + DECAY * diffClock;
      clockCovariance := (1.0 - DECAY) * (clockCovariance + diffTime * diffClock * DECAY);
    }
  }

  // ---------- System time to clock and back ----------

  /** Python's int(): towards zero. */
  function Trunc(x: real): (n: int)
    ensures x >= 0.0 ==> n as real <= x < (n + 1) as real
    ensures x < 0.0 ==> (n - 1) as real < x <= n as real
  {
    if x >= 0.0 then x.Floor else -((-x).Floor)
  }

  function GetClock(est: Estimate, eventTime: real): int {
    Trunc(est.clock + Times(eventTime - est.sampleTime, est.freq))
  }

  function EstimateClockSystime(est: Estimate, reqClock: int): real
    requires est.freq != 0.0
  {
    (reqClock as real - est.clock) / est.freq + est.sampleTime
  }

  lemma TruncMonotone(x: real, y: real)
    requires x <= y
    ensures Trunc(x) <= Trunc(y)
  {
  }

  lemma TruncOfInt(n: int)
    ensures Trunc(n as real) == n
  {
  }

  /** The clock at a time x after the estimate's: its own, moved on at its frequency. */
  lemma ClockAfter(est: Estimate, x: real)
    requires est.clock + Times(x, est.freq) >= 0.0
    ensures var c := GetClock(est, est.sampleTime + x);
            c as real <= est.clock + Times(x, est.freq) < c as real + 1.0
  {
    hide Times;
    assert est.sampleTime + x - est.sampleTime == x;
  }

  /** From connect on clocks are predicted at the nominal frequency from the uptime. */
  lemma ConnectPredicts(st: State, mcuFreq: real, uptime: int, sentTime: real, x: real)
    requires uptime as real + Times(x, mcuFreq) >= 0.0
    ensures var s := Connected(st, mcuFreq, uptime, sentTime);
            var c := GetClock(s.clockEst, sentTime + x);
            && c as real <= uptime as real + Times(x, mcuFreq) < c as real + 1.0
            && ExpectedClock(s, sentTime + x) == uptime as real + Times(x, mcuFreq)
            && s.mcuFreq == mcuFreq && s.predictionVariance == Square(0.001 * mcuFreq)
  {
    hide Times, Square;
    ClockAfter(Connected(st, mcuFreq, uptime, sentTime).clockEst, x);
    assert sentTime + x - sentTime == x;
    TimesIs(x, mcuFreq);
  }

  lemma TimesIs(x: real, y: real)
    ensures x * y == Times(x, y)
  {
  }

  /** What the serial code gets: the estimate's frequency, a millisecond after the
      average time, and a clock three standard deviations below the average. */
  lemma ForSerialIsBehind(st: State, sqrt: SquareRoot)
    requires st.clockAvg >= 3.0 * sqrt(st.predictionVariance)
    ensures var e := ForSerial(st, sqrt);
            && e.freq == st.clockEst.freq && e.time - st.timeAvg == 0.001 && e.lastClock == st.lastClock
            && e.clock as real <= st.clockAvg - 3.0 * sqrt(st.predictionVariance) < e.clock as real + 1.0
  {
  }

  /** The estimated system time of a clock is a time with that clock. */
  lemma SystimeInvertsClock(est: Estimate, reqClock: int)
    requires est.freq != 0.0
    ensures GetClock(est, EstimateClockSystime(est, reqClock)) == reqClock
  {
    hide Times;
    var x := reqClock as real - est.clock;
    Quotient(x, est.freq);
    assert EstimateClockSystime(est, reqClock) - est.sampleTime == x / est.freq;
    TruncOfInt(reqClock);
  }
}
