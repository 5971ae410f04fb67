/** The timer side of SelectReactor (reactor.py): timer lists copied on every
    change, a cached next wake time, passes over a snapshot of the timers, and
    tasks that pause inside a callback while another task goes on dispatching.

    A callback is an arbitrary sequence of reactor calls followed by a return or
    a pause; an oracle supplies the behaviour of the n-th callback invocation,
    so results for every oracle are results for every program. */
module Reactor {
  import opened Bytes
  import opened Reals

  const NOW := 0.0
  const NEVER := 9999999999999999.0

  type TimerId = nat

  datatype Op =
    | Register(w: real)
    | RegisterCallback(w: real)
    | Update(t: TimerId, w: real)
    | Unregister(t: TimerId)

  datatype End = Return(w: real) | Pause(w: real)

  datatype Behaviour = Behaviour(ops: seq<Op>, end: End)

  /** `parked` maps the wake timer of each paused task to the timer whose
      callback paused, if it was a timer's; `oneshot` are the timers that
      register_callback hides; `calls` lists the timers called so far. */
  datatype State = State(
    timers: seq<TimerId>, waketime: map<TimerId, real>, next: real, created: nat,
    parked: map<TimerId, Option<TimerId>>, oneshot: set<TimerId>, calls: seq<TimerId>)

  const INITIAL := State([], map[], NEVER, 0, map[], {}, [])

  function WakeOf(st: State, t: TimerId): real {
    if t in st.waketime then st.waketime[t] else NEVER
  }

  // ---------- Timer operations ----------

  /** Gives a timer a wake time and lowers the cached one accordingly. */
  function Settle(st: State, t: TimerId, w: real): State {
    st.(waketime := st.waketime[t := w], next := Min(st.next, w))
  }

  function AddTimer(st: State, w: real): State {
    st.(timers := st.timers + [st.created], waketime := st.waketime[st.created := w],
        created := st.created + 1, next := Min(st.next, w))
  }

  function Without(s: seq<TimerId>, t: TimerId): (r: seq<TimerId>)
    ensures forall x :: x in r ==> x in s
    ensures forall x :: x in s && x != t ==> x in r
  {
    if s == [] then [] else if s[0] == t then s[1..] else [s[0]] + Without(s[1..], t)
  }

  function Remove(st: State, t: TimerId): State {
    st.(timers := Without(st.timers, t), waketime := st.waketime[t := NEVER])
  }

  /** Handles that callbacks hold: not those of register_callback, and a paused
      task's wake timer may be woken but not unregistered. */
  predicate Holds(st: State, op: Op) {
    match op
    case Update(t, _) => t < st.created && t !in st.oneshot
    case Unregister(t) => t < st.created && t !in st.oneshot && t !in st.parked
    case _ => true
  }

  /** None stands for an exception: the timer is not in the list. */
  function RunOp(st: State, op: Op): Option<State> {
    if !Holds(st, op) then None
    else
      match op
      case Register(w) => Some(AddTimer(st, w))
      case RegisterCallback(w) => Some(AddTimer(st, w).(oneshot := st.oneshot + {st.created}))
      case Update(t, w) => Some(Settle(st, t, w))
      case Unregister(t) => if t in st.timers then Some(Remove(st, t)) else None
  }

  function RunOps(st: State, ops: seq<Op>): Option<State>
    decreases |ops|
  {
    if ops == [] then Some(st)
    else
      match RunOp(st, ops[0])
      case None => None
      case Some(s) => RunOps(s, ops[1..])
  }

  // ---------- One callback ----------

  datatype Ending = Continued | Paused | Raised

  /** What a callback's return value becomes: a register_callback callback always says NEVER. */
  function Answer(st: State, t: TimerId, w: real): real {
    if t in st.oneshot then NEVER else w
  }

  /** The dispatching task pauses: it gets a wake timer, and whoever dispatches
      next is made to look at every timer again. */
  function Park(st: State, owner: Option<TimerId>, w: real): State {
    AddTimer(st, w).(parked := st.parked[st.created := owner], next := NOW)
  }

  /** A paused task finishes the callback it paused in: the suspended pass takes
      its answer and ends, and its wake timer goes away. */
  function Finish(st: State, t: TimerId, w: real): State
    requires t in st.parked
  {
    var answered := match st.parked[t]
      case Some(owner) => Settle(st, owner, Answer(st, owner, w))
      case None => st;
    Settle(Remove(answered, t).(parked := st.parked - {t}), t, NEVER)
  }

  function Call(st: State, t: TimerId, b: Behaviour): (State, Ending) {
    var called := st.(waketime := st.waketime[t := NEVER], calls := st.calls + [t]);
    var entered := if t in st.oneshot then Remove(called, t) else called;
    match RunOps(entered, b.ops)
    case None => (entered, Raised)
    case Some(s) =>
      if t in s.parked then
        match b.end
        case Return(w) => (Finish(s, t, w), Continued)
        case Pause(w) => (Settle(s, t, w), Continued)
      else
        match b.end
        case Return(w) => (Settle(s, t, Answer(s, t, w)), Continued)
        case Pause(w) => (Park(s, Some(t), w), Paused)
  }

  type Oracle = nat -> Behaviour

  // ---------- One pass ----------

  /** The loop of _check_timers over the rest of its snapshot. */
  function Sweep(st: State, snapshot: seq<TimerId>, eventTime: real, oracle: Oracle): (State, Ending)
    decreases |snapshot|
  {
    if snapshot == [] then (st, Continued)
    else
      var t := snapshot[0];
      if eventTime >= WakeOf(st, t) then
        var (s, ending) := Call(st, t, oracle(|st.calls|));
        if ending != Continued then (s, ending) else Sweep(s, snapshot[1..], eventTime, oracle)
      else Sweep(st.(next := Min(st.next, WakeOf(st, t))), snapshot[1..], eventTime, oracle)
  }

  /** _check_timers: nothing is due, or a pass over all timers. */
  function Check(st: State, eventTime: real, oracle: Oracle): (State, Ending) {
    if eventTime < st.next then (st, Continued)
    else Sweep(st.(next := NEVER), st.timers, eventTime, oracle)
  }

  /** How long the poll may sleep after _check_timers. */
  function Timeout(st: State, eventTime: real, busy: bool): real {
    if eventTime < st.next && !busy then Min(1.0, Max(0.001, st.next - eventTime)) else 0.0
  }

  /** A file descriptor's callback, run by the dispatch loop between passes. */
  function FdCallback(st: State, b: Behaviour): (State, Ending) {
    match RunOps(st, b.ops)
    case None => (st, Raised)
    case Some(s) =>
      match b.end
      case Return(_) => (s, Continued)
      case Pause(w) => (Park(s, None, w), Paused)
  }

  // ---------- The object ----------

  class SelectReactor {
    var timers: seq<TimerId>
    var waketime: map<TimerId, real>
    var nextTimer: real
    var created: nat
    var parked: map<TimerId, Option<TimerId>>
    var oneshot: set<TimerId>
    var calls: seq<TimerId>

    ghost function Fields(): State
      reads this
    {
      State(timers, waketime, nextTimer, created, parked, oneshot, calls)
    }

    constructor ()
      ensures Fields() == INITIAL
    {
      timers, waketime, nextTimer, created := [], map[], NEVER, 0;
      parked, oneshot, calls := map[], {}, [];
    }

    method UpdateTimer(t: TimerId, w: real)
      modifies this`waketime, this`nextTimer
      ensures Fields() == Settle(old(Fields()), t, w)
    {
      waketime := waketime[t := w];
      nextTimer := Min(nextTimer, w);
    }

    method RegisterTimer(w: real) returns (t: TimerId)
      modifies this`timers, this`waketime, this`nextTimer, this`created
      ensures t == old(created) && Fields() == AddTimer(old(Fields()), w)
    {
      t := created;
      created := created + 1;
      waketime := waketime[t := w];
      timers := timers + [t];
      nextTimer := Min(nextTimer, w);
    }

    method UnregisterTimer(t: TimerId)
      modifies this`timers, this`waketime
      ensures Fields() == Remove(old(Fields()), t)
    {
      waketime := waketime[t := NEVER];
      timers := Without(timers, t);
    }

    method PerformOp(op: Op) returns (ok: bool)
      modifies this`timers, this`waketime, this`nextTimer, this`created, this`oneshot
      ensures ok <==> RunOp(old(Fields()), op).Some?
      ensures Fields() == if ok then RunOp(old(Fields()), op).value else old(Fields())
    {
      match op
      case Register(w) =>
        var _ := RegisterTimer(w);
        return true;
      case RegisterCallback(w) =>
        var t := RegisterTimer(w);
        oneshot := oneshot + {t};
        return true;
      case Update(t, w) =>
        if t >= created || t in oneshot { return false; }
        UpdateTimer(t, w);
        return true;
      case Unregister(t) =>
        if t >= created || t in oneshot || t in parked || t !in timers { return false; }
        UnregisterTimer(t);
        return true;
    }

    method PerformOps(ops: seq<Op>) returns (ok: bool)
      modifies this`timers, this`waketime, this`nextTimer, this`created, this`oneshot
      ensures ok <==> RunOps(old(Fields()), ops).Some?
      ensures ok ==> Fields() == RunOps(old(Fields()), ops).value
    {
      hide RunOp;
      for i := 0 to |ops|
        invariant RunOps(old(Fields()), ops) == RunOps(Fields(), ops[i..])
        invariant calls == old(calls) && parked == old(parked)
      {
        assert ops[i..][0] == ops[i] && ops[i..][1..] == ops[i + 1..];
        var fine := PerformOp(ops[i]);
        if !fine { return false; }
      }
      return true;
    }

    /** The dispatching task pauses until w; another one takes over dispatching. */
    method PauseDispatcher(owner: Option<TimerId>, w: real)
      modifies this
      ensures Fields() == Park(old(Fields()), owner, w)
    {
      var t := RegisterTimer(w);
      parked := parked[t := owner];
      nextTimer := NOW;
    }

    method CallTimer(t: TimerId, b: Behaviour) returns (ending: Ending)
      modifies this
      ensures ending == Call(old(Fields()), t, b).1
      ensures ending != Raised ==> Fields() == Call(old(Fields()), t, b).0
    {
      hide RunOps, Park, Remove;
      waketime := waketime[t := NEVER];
      calls := calls + [t];
      if t in oneshot { UnregisterTimer(t); }
      var ok := PerformOps(b.ops);
      if !ok { return Raised; }
      match b.end
      case Return(w) =>
        if t in parked {
          match parked[t] {
            case Some(owner) => UpdateTimer(owner, if owner in oneshot then NEVER else w);
            case None =>
          }
          UnregisterTimer(t);
          parked := parked - {t};
          UpdateTimer(t, NEVER);
        } else {
          UpdateTimer(t, if t in oneshot then NEVER else w);
        }
        return Continued;
      case Pause(w) =>
        if t in parked {
          UpdateTimer(t, w);
          return Continued;
        }
        PauseDispatcher(Some(t), w);
        return Paused;
    }

    method CheckTimers(eventTime: real, busy: bool, oracle: Oracle) returns (timeout: real, ending: Ending)
      modifies this
      ensures timeout == Timeout(old(Fields()), eventTime, busy)
      ensures ending == Check(old(Fields()), eventTime, oracle).1
      ensures ending != Raised ==> Fields() == Check(old(Fields()), eventTime, oracle).0
    {
      hide Call;
      if eventTime < nextTimer {
        timeout := if busy then 0.0 else Min(1.0, Max(0.001, nextTimer - eventTime));
        return timeout, Continued;
      }
      nextTimer := NEVER;
      var snapshot := timers;
      for i := 0 to |snapshot|
        invariant Check(old(Fields()), eventTime, oracle) == Sweep(Fields(), snapshot[i..], eventTime, oracle)
      {
        assert snapshot[i..][0] == snapshot[i] && snapshot[i..][1..] == snapshot[i + 1..];
        var t := snapshot[i];
        var wake := if t in waketime then waketime[t] else NEVER;
        if eventTime >= wake {
          ending := CallTimer(t, oracle(|calls|));
          if ending != Continued { return 0.0, ending; }
        } else {
          nextTimer := Min(nextTimer, wake);
        }
      }
      return 0.0, Continued;
    }
  }
}
