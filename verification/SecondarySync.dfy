/** SecondarySync of clocksync.py: a secondary micro-controller's map from print
    time to its own clock, recalibrated against the primary's estimate. */
module SecondarySync {
  import opened Bytes
  import opened Reals
  import opened ClockSync

  /** clock_adj: (offset, frequency) */
  datatype Adjustment = Adjustment(offset: real, freq: real)

  function PrintTimeToClock(adj: Adjustment, printTime: real): int {
    Trunc(Times(printTime - adj.offset, adj.freq))
  }

  function ClockToPrintTime(adj: Adjustment, clock: int): real
    requires adj.freq != 0.0
  {
    clock as real / adj.freq + adj.offset
  }

  /** The primary's real-valued print time at a system time. */
  function MainPrintTime(main: Estimate, mainFreq: real, sysTime: real): real
    requires mainFreq != 0.0
  {
    (Times(sysTime - main.sampleTime, main.freq) + main.clock) / mainFreq
  }

  /** The system time at which the primary's estimate reaches a print time. */
  function MainSysTime(main: Estimate, mainFreq: real, printTime: real): real
    requires main.freq != 0.0
  {
    main.sampleTime + (Times(printTime, mainFreq) - main.clock) / main.freq
  }

  /** The two points the new map is to go through. */
  datatype SyncPoints = SyncPoints(time1: real, clock1: int, time2: real, clock2: int)

  /** The first is now, or the print time given if that is later. The second is
      four seconds on, but not before the last sync time, nor before what 2.5 times
      the lead asks for. */
  function Points(main: Estimate, mainFreq: real, own: Estimate, adj: Adjustment, lastSyncTime: real,
                  printTime: real, eventTime: real): (p: SyncPoints)
    requires mainFreq != 0.0 && main.freq != 0.0
    ensures var now := MainPrintTime(main, mainFreq, eventTime);
            var ahead := printTime + 2.5 * (printTime - now);
            && p.time1 >= printTime && p.time1 >= now && (p.time1 == printTime || p.time1 == now)
            && p.time2 - p.time1 >= 4.0 && p.time2 >= lastSyncTime && p.time2 >= ahead
            && (p.time2 == p.time1 + 4.0 || p.time2 == lastSyncTime || p.time2 == ahead)
  {
    var estPrintTime := MainPrintTime(main, mainFreq, eventTime);
    var time1 := Max(printTime, estPrintTime);
    var time2 := Max(Max(time1 + 4.0, lastSyncTime), printTime + 2.5 * (printTime - estPrintTime));
    SyncPoints(time1, PrintTimeToClock(adj, time1), time2, GetClock(own, MainSysTime(main, mainFreq, time2)))
  }

  /** The line through the two points, unless it is level: then the code
      divides by a frequency of zero. */
  function Through(p: SyncPoints): Option<Adjustment>
    requires p.time1 < p.time2
  {
    if p.clock1 == p.clock2 then None
    else
      var freq := (p.clock2 - p.clock1) as real / (p.time2 - p.time1);
      FrequencySign(p);
      Some(Adjustment(p.time1 - p.clock1 as real / freq, freq))
  }

  lemma FrequencySign(p: SyncPoints)
    requires p.time1 < p.time2
    ensures var freq := (p.clock2 - p.clock1) as real / (p.time2 - p.time1);
            && (freq > 0.0 <==> p.clock2 > p.clock1) && (freq == 0.0 <==> p.clock2 == p.clock1)
  {
    hide Times;
    var rise, run := (p.clock2 - p.clock1) as real, p.time2 - p.time1;
    var freq := rise / run;
    Quotient(rise, run);
    TimesConstants(run);
    if freq > 0.0 { TimesPositive(freq, run); }
    if freq < 0.0 { TimesStrict(freq, 0.0, run); }
  }

  /** What calibrate_clock finds: both clock estimates and its arguments. */
  datatype Request = Request(main: Estimate, mainFreq: real, own: Estimate, printTime: real, eventTime: real)

  /** The map in force and the last sync time. */
  datatype Adjusted = Adjusted(adj: Adjustment, lastSyncTime: real)

  predicate Divisible(q: Request) {
    q.mainFreq != 0.0 && q.main.freq != 0.0
  }

  function PointsFor(st: Adjusted, q: Request): (p: SyncPoints)
    requires Divisible(q)
    ensures p.time1 < p.time2
  {
    Points(q.main, q.mainFreq, q.own, st.adj, st.lastSyncTime, q.printTime, q.eventTime)
  }

  /** None when one of the divisions fails. */
  function Recalibrated(st: Adjusted, q: Request): (r: Option<Adjusted>)
    ensures r.Some? ==> Divisible(q)
  {
    if !Divisible(q) then None
    else
      match Through(PointsFor(st, q))
      case None => None
      case Some(adj) => Some(Adjusted(adj, PointsFor(st, q).time2))
  }

  class Secondary {
    const main: Sync
    const base: Sync
    var clockAdj: Adjustment
    var lastSyncTime: real

    constructor (main: Sync, base: Sync)
      ensures this.main == main && this.base == base
      ensures clockAdj == Adjustment(0.0, 1.0) && lastSyncTime == 0.0
    {
      this.main, this.base := main, base;
      clockAdj, lastSyncTime := Adjustment(0.0, 1.0), 0.0;
    }

    ghost function Fields(): Adjusted
      reads this
    {
      Adjusted(clockAdj, lastSyncTime)
    }

    ghost function RequestOf(printTime: real, eventTime: real): Request
      reads main, base
    {
      Request(main.clockEst, main.mcuFreq, base.clockEst, printTime, eventTime)
    }

    /** A failure leaves everything as it was. */
    method CalibrateClock(printTime: real, eventTime: real) returns (r: Option<Adjustment>)
      modifies this
      ensures match Recalibrated(old(Fields()), RequestOf(printTime, eventTime))
              case None => r == None && Fields() == old(Fields())
              case Some(next) => r == Some(next.adj) && Fields() == next
    {
      hide Times, GetClock, PrintTimeToClock, MainSysTime;
      var ser, mainFreq := main.clockEst, main.mcuFreq;
      if mainFreq == 0.0 { return None; }
      var estPrintTime := MainPrintTime(ser, mainFreq, eventTime);
      var sync1PrintTime := Max(printTime, estPrintTime);
      var sync2PrintTime := Max(Max(sync1PrintTime + 4.0, lastSyncTime), printTime + 2.5 * (printTime - estPrintTime));
      if ser.freq == 0.0 { return None; }
      var sync2SysTime := MainSysTime(ser, mainFreq, sync2PrintTime);
      var sync1Clock := PrintTimeToClock(clockAdj, sync1PrintTime);
      var sync2Clock := GetClock(base.clockEst, sync2SysTime);
      ghost var p := PointsFor(Fields(), RequestOf(printTime, eventTime));
      assert p == SyncPoints(sync1PrintTime, sync1Clock, sync2PrintTime, sync2Clock);
      FrequencySign(p);
      var freq := (sync2Clock - sync1Clock) as real / (sync2PrintTime - sync1PrintTime);
      if freq == 0.0 { return None; }
      clockAdj := Adjustment(sync1PrintTime - sync1Clock as real / freq, freq);
      lastSyncTime := sync2PrintTime;
      return Some(clockAdj);
    }
  }

  // ---------- What the new map does ----------

  /** It goes through both points exactly, in whole clock ticks, and rises
      exactly when the second clock is the later one. */
  lemma ThroughBothPoints(p: SyncPoints)
    requires p.time1 < p.time2 && p.clock1 != p.clock2
    ensures var adj := Through(p).value;
            && PrintTimeToClock(adj, p.time1) == p.clock1
            && PrintTimeToClock(adj, p.time2) == p.clock2
            && adj.freq != 0.0 && (adj.freq > 0.0 <==> p.clock2 > p.clock1)
  {
    hide Times, Trunc;
    var adj := Through(p).value;
    FrequencySign(p);
    var c1, c2 := p.clock1 as real, p.clock2 as real;
    Quotient(c1, adj.freq);
    assert p.time1 - adj.offset == c1 / adj.freq;
    Quotient((p.clock2 - p.clock1) as real, p.time2 - p.time1);
    Commutes(adj.freq, p.time2 - p.time1);
    DistributesSum(adj.freq, p.time2 - p.time1, p.time1 - adj.offset);
    assert (p.time2 - p.time1) + (p.time1 - adj.offset) == p.time2 - adj.offset;
    TruncOfInt(p.clock1);
    TruncOfInt(p.clock2);
  }

  /** The old and the new map agree where the new one takes over. */
  lemma Continuous(main: Estimate, mainFreq: real, own: Estimate, adj: Adjustment, lastSyncTime: real,
                   printTime: real, eventTime: real)
    requires mainFreq != 0.0 && main.freq != 0.0
    ensures var p := Points(main, mainFreq, own, adj, lastSyncTime, printTime, eventTime);
            p.clock1 != p.clock2 ==>
              PrintTimeToClock(Through(p).value, p.time1) == PrintTimeToClock(adj, p.time1)
  {
    hide PrintTimeToClock, GetClock, MainSysTime, MainPrintTime, Through;
    var p := Points(main, mainFreq, own, adj, lastSyncTime, printTime, eventTime);
    if p.clock1 != p.clock2 { ThroughBothPoints(p); }
  }

  /** The point of the exercise: at the system time when the primary's print
      time is sync2, the secondary's own clock is what the new map gives there. */
  lemma MeetsPrimary(main: Estimate, mainFreq: real, own: Estimate, adj: Adjustment, lastSyncTime: real,
                     printTime: real, eventTime: real)
    requires mainFreq != 0.0 && main.freq != 0.0
    ensures var p := Points(main, mainFreq, own, adj, lastSyncTime, printTime, eventTime);
            var sysTime := MainSysTime(main, mainFreq, p.time2);
            && MainPrintTime(main, mainFreq, sysTime) == p.time2
            && (p.clock1 != p.clock2 ==>
                  PrintTimeToClock(Through(p).value, p.time2) == GetClock(own, sysTime))
  {
    hide Times, PrintTimeToClock, GetClock, Through;
    var p := Points(main, mainFreq, own, adj, lastSyncTime, printTime, eventTime);
    var x := Times(p.time2, mainFreq) - main.clock;
    Quotient(x, main.freq);
    assert MainSysTime(main, mainFreq, p.time2) - main.sampleTime == x / main.freq;
    TimesThenDivide(p.time2, mainFreq);
    if p.clock1 != p.clock2 { ThroughBothPoints(p); }
  }

  /** The primary's print time is its clock in units of its nominal frequency. */
  lemma PrintTimeIsClock(main: Estimate, mainFreq: real, sysTime: real)
    requires mainFreq != 0.0
    ensures Trunc(Times(MainPrintTime(main, mainFreq, sysTime), mainFreq)) == GetClock(main, sysTime)
  {
    hide Trunc, Times;
    Quotient(Times(sysTime - main.sampleTime, main.freq) + main.clock, mainFreq);
  }

  lemma TimesThenDivide(x: real, y: real)
    requires y != 0.0
    ensures Times(x, y) / y == x
  {
  }

  /** A clock's print time is a time with that clock. */
  lemma PrintTimeInvertsClock(adj: Adjustment, clock: int)
    requires adj.freq != 0.0
    ensures PrintTimeToClock(adj, ClockToPrintTime(adj, clock)) == clock
  {
    hide Times, Trunc;
    Quotient(clock as real, adj.freq);
    assert ClockToPrintTime(adj, clock) - adj.offset == clock as real / adj.freq;
    TruncOfInt(clock);
  }

  lemma Rising(adj: Adjustment, t: real, u: real)
    requires adj.freq >= 0.0 && t <= u
    ensures PrintTimeToClock(adj, t) <= PrintTimeToClock(adj, u)
  {
    hide Times, Trunc;
    TimesMonotone(adj.freq, t - adj.offset, u - adj.offset);
    TruncMonotone(Times(t - adj.offset, adj.freq), Times(u - adj.offset, adj.freq));
  }

  // ---------- Whole runs of recalibrations ----------

  /** A map and the print time from which it is in force. */
  datatype Piece = Piece(adj: Adjustment, start: real)

  /** Each map takes over where it agrees with the one before, in order of time,
      and all of them rise. */
  predicate Joined(pieces: seq<Piece>) {
    && (forall i :: 0 <= i < |pieces| ==> pieces[i].adj.freq >= 0.0)
    && (forall i :: 0 < i < |pieces| ==>
          && pieces[i - 1].start <= pieces[i].start
          && PrintTimeToClock(pieces[i].adj, pieces[i].start) == PrintTimeToClock(pieces[i - 1].adj, pieces[i].start))
  }

  /** The maps of a run of calibrations, starting with the map in force since
      `start`; a calibration that fails adds none. */
  function Pieces(st: Adjusted, start: real, requests: seq<Request>): (r: seq<Piece>)
    ensures r != [] && r[0] == Piece(st.adj, start)
    decreases |requests|
  {
    if requests == [] then [Piece(st.adj, start)]
    else
      match Recalibrated(st, requests[0])
      case None => Pieces(st, start, requests[1..])
      case Some(next) => [Piece(st.adj, start)] + Pieces(next, PointsFor(st, requests[0]).time1, requests[1..])
  }

  function AfterAll(st: Adjusted, requests: seq<Request>): Adjusted
    decreases |requests|
  {
    if requests == [] then st
    else
      match Recalibrated(st, requests[0])
      case None => AfterAll(st, requests[1..])
      case Some(next) => AfterAll(next, requests[1..])
  }

  /** The second clock is always the later one, and the first sync times do not go back. */
  predicate RisingRun(st: Adjusted, start: real, requests: seq<Request>)
    decreases |requests|
  {
    requests == [] ||
    match Recalibrated(st, requests[0])
    case None => RisingRun(st, start, requests[1..])
    case Some(next) =>
      var p := PointsFor(st, requests[0]);
      p.clock1 < p.clock2 && start <= p.time1 && RisingRun(next, p.time1, requests[1..])
  }

  lemma RecalibrationJoins(st: Adjusted, q: Request)
    requires Recalibrated(st, q).Some?
    ensures var p, adj := PointsFor(st, q), Recalibrated(st, q).value.adj;
            && PrintTimeToClock(adj, p.time1) == PrintTimeToClock(st.adj, p.time1)
            && (p.clock1 < p.clock2 ==> adj.freq > 0.0)
            && Recalibrated(st, q).value.lastSyncTime >= st.lastSyncTime
  {
    hide PrintTimeToClock, GetClock, MainSysTime, MainPrintTime;
    ThroughBothPoints(PointsFor(st, q));
    Continuous(q.main, q.mainFreq, q.own, st.adj, st.lastSyncTime, q.printTime, q.eventTime);
  }

  /** The maps of such a run join up, and the sync time never decreases. */
  lemma {:induction false} RunJoins(st: Adjusted, start: real, requests: seq<Request>)
    requires st.adj.freq >= 0.0 && RisingRun(st, start, requests)
    ensures Joined(Pieces(st, start, requests))
    ensures AfterAll(st, requests).lastSyncTime >= st.lastSyncTime
    decreases |requests|
  {
    hide PrintTimeToClock, Recalibrated, PointsFor;
    if requests != [] {
      match Recalibrated(st, requests[0]) {
        case None => RunJoins(st, start, requests[1..]);
        case Some(next) =>
          RecalibrationJoins(st, requests[0]);
          var time1 := PointsFor(st, requests[0]).time1;
          RunJoins(next, time1, requests[1..]);
          JoinedFront(Piece(st.adj, start), Pieces(next, time1, requests[1..]));
      }
    }
  }

  lemma JoinedFront(first: Piece, rest: seq<Piece>)
    requires Joined(rest) && rest != [] && first.adj.freq >= 0.0 && first.start <= rest[0].start
    requires PrintTimeToClock(rest[0].adj, rest[0].start) == PrintTimeToClock(first.adj, rest[0].start)
    ensures Joined([first] + rest)
  {
    hide PrintTimeToClock;
    var all := [first] + rest;
    assert forall i :: 0 < i < |all| ==> all[i] == rest[i - 1];
  }

  /** Over any number of recalibrations the clock never runs backwards: a time
      under an earlier map, up to the next one's start, lands no later than a
      time under a later map from its start on. */
  lemma {:induction false} NeverBackwards(pieces: seq<Piece>, i: nat, j: nat, t: real, u: real)
    requires Joined(pieces) && i < j < |pieces|
    requires t <= pieces[i + 1].start && pieces[j].start <= u
    ensures PrintTimeToClock(pieces[i].adj, t) <= PrintTimeToClock(pieces[j].adj, u)
    decreases j - i
  {
    hide PrintTimeToClock;
    var next := pieces[i + 1];
    Rising(pieces[i].adj, t, next.start);
    if i + 1 == j {
      Rising(next.adj, next.start, u);
    } else {
      NeverBackwards(pieces, i + 1, j, next.start, u);
    }
  }

  /** So over any rising run of calibrations: a time up to the start of the next
      map, under its own map, is no later a clock than a time under a later one. */
  lemma RunNeverBackwards(st: Adjusted, start: real, requests: seq<Request>, i: nat, j: nat, t: real, u: real)
    requires st.adj.freq >= 0.0 && RisingRun(st, start, requests)
    requires i < j < |Pieces(st, start, requests)|
    requires t <= Pieces(st, start, requests)[i + 1].start && Pieces(st, start, requests)[j].start <= u
    ensures PrintTimeToClock(Pieces(st, start, requests)[i].adj, t)
         <= PrintTimeToClock(Pieces(st, start, requests)[j].adj, u)
  {
    hide PrintTimeToClock, Pieces, RisingRun, Joined;
    RunJoins(st, start, requests);
    NeverBackwards(Pieces(st, start, requests), i, j, t, u);
  }

  // ---------- Calibrations that go wrong ----------

  /** A primary that counts seconds, calibrated at ten; the own clock lags. */
  function Lagging(seconds: real): Request {
    Request(Estimate(0.0, 0.0, 1.0), 1.0, Estimate(seconds, 0.0, 1.0), 10.0, 10.0)
  }

  lemma LaggingPoints(seconds: real)
    ensures PointsFor(Adjusted(Adjustment(0.0, 1.0), 0.0), Lagging(seconds))
         == SyncPoints(10.0, 10, 14.0, Trunc(14.0 - seconds))
  {
    hide Trunc;
    TruncOfInt(10);
    assert MainPrintTime(Estimate(0.0, 0.0, 1.0), 1.0, 10.0) == 10.0;
    assert MainSysTime(Estimate(0.0, 0.0, 1.0), 1.0, 14.0) == 14.0;
  }

  /** Four seconds behind, both clocks are equal and the calibration divides by zero. */
  lemma EqualClocksDivide()
    ensures Recalibrated(Adjusted(Adjustment(0.0, 1.0), 0.0), Lagging(4.0)) == None
  {
    hide Points;
    LaggingPoints(4.0);
  }

  /** Eight seconds behind, the new map runs backwards. */
  lemma LaggingRunsBackwards()
    ensures var r := Recalibrated(Adjusted(Adjustment(0.0, 1.0), 0.0), Lagging(8.0));
            r.Some? && PrintTimeToClock(r.value.adj, 10.0) == 10 && PrintTimeToClock(r.value.adj, 14.0) == 6
  {
    hide Points, PrintTimeToClock;
    LaggingPoints(8.0);
    ThroughBothPoints(SyncPoints(10.0, 10, 14.0, 6));
  }
}
