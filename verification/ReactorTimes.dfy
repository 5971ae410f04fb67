/** When the timers of Reactor.dfy fire: wake times are those asked for by
    callbacks and by what callbacks return, and stay until a callback asks for another. */
module ReactorTimes {
  import opened Bytes
  import opened Reals
  import opened Reactor
  import opened ReactorSafety

  // ---------- What one operation asks for ----------

  /** Every other timer keeps its wake time. */
  ghost predicate OthersKeep(a: State, b: State, t: TimerId) {
    forall u :: u != t ==> WakeOf(b, u) == WakeOf(a, u)
  }

  predicate NextLowered(a: State, b: State, w: real) {
    b.next == if w < a.next then w else a.next
  }

  /** Which operations a callback may do: wake any timer it can hold, and take
      such timers off the list that are on it and wake no paused task. */
  lemma OpAllowedIff(st: State, t: TimerId, w: real)
    ensures RunOp(st, Update(t, w)).Some? <==> t < st.created && t !in st.oneshot
    ensures RunOp(st, Unregister(t)).Some? <==> t < st.created && t !in st.oneshot && t !in st.parked && t in st.timers
  {
  }

  lemma UpdateSets(st: State, t: TimerId, w: real)
    requires RunOp(st, Update(t, w)).Some?
    ensures var s := RunOp(st, Update(t, w)).value;
            && WakeOf(s, t) == w && OthersKeep(st, s, t) && NextLowered(st, s, w)
            && s.timers == st.timers && s.oneshot == st.oneshot
  {
  }

  lemma RegisterAdds(st: State, w: real)
    requires Consistent(st)
    ensures RunOp(st, Register(w)).Some?
    ensures var s := RunOp(st, Register(w)).value;
            && s.timers == st.timers + [st.created] && WakeOf(s, st.created) == w && s.created == st.created + 1
            && OthersKeep(st, s, st.created) && NextLowered(st, s, w) && s.oneshot == st.oneshot
  {
  }

  lemma RegisterCallbackAdds(st: State, w: real)
    requires Consistent(st)
    ensures RunOp(st, RegisterCallback(w)).Some?
    ensures var s := RunOp(st, RegisterCallback(w)).value;
            && s.timers == st.timers + [st.created] && WakeOf(s, st.created) == w && s.created == st.created + 1
            && OthersKeep(st, s, st.created) && NextLowered(st, s, w) && s.oneshot == st.oneshot + {st.created}
  {
  }

  lemma UnregisterTakes(st: State, t: TimerId)
    requires Consistent(st) && RunOp(st, Unregister(t)).Some?
    ensures var s := RunOp(st, Unregister(t)).value;
            && t in st.timers && t !in s.timers && WakeOf(s, t) == NEVER && OthersKeep(st, s, t)
            && (forall u :: u != t ==> (u in s.timers <==> u in st.timers))
            && s.next == st.next && s.oneshot == st.oneshot
  {
    WithoutDistinct(st.timers, t);
  }

  /** Operations leave the kind of an existing timer alone. */
  lemma {:induction false} OpsKeepKind(st: State, ops: seq<Op>, t: TimerId)
    requires RunOps(st, ops).Some? && t < st.created
    ensures var s := RunOps(st, ops).value;
            s.parked == st.parked && (t in s.oneshot <==> t in st.oneshot) && s.created >= st.created
    decreases |ops|
  {
    if ops != [] { OpsKeepKind(RunOp(st, ops[0]).value, ops[1..], t); }
  }

  // ---------- What a callback's return value asks for ----------

  /** A call, seen from the state its operations lead to. */
  lemma CallParts(st: State, t: TimerId, b: Behaviour) returns (s: State)
    requires Consistent(st) && t < st.created && Call(st, t, b).1 != Raised
    ensures Consistent(s) && s.parked == st.parked && s.created >= st.created
    ensures forall u: TimerId :: u < st.created ==> (u in s.oneshot <==> u in st.oneshot)
    ensures Call(st, t, b) ==
      if t in s.parked then
        if b.end.Return? then (Finish(s, t, b.end.w), Continued) else (Settle(s, t, b.end.w), Continued)
      else
        if b.end.Return? then (Settle(s, t, Answer(s, t, b.end.w)), Continued) else (Park(s, Some(t), b.end.w), Paused)
  {
    hide Consistent, NoneLostExcept, Settle, Park, Finish, RunOps, Answer;
    var called := st.(waketime := st.waketime[t := NEVER], calls := st.calls + [t]);
    var entered := if t in st.oneshot then Remove(called, t) else called;
    EnterConsistent(st, t);
    OpsKeep(entered, b.ops, []);
    s := RunOps(entered, b.ops).value;
    forall u: TimerId | u < st.created ensures u in s.oneshot <==> u in st.oneshot { OpsKeepKind(entered, b.ops, u); }
  }

  /** Operations run one after the other. */
  lemma {:induction false} OpsInOrder(st: State, a: seq<Op>, b: seq<Op>)
    ensures RunOps(st, a + b) == if RunOps(st, a).None? then None else RunOps(RunOps(st, a).value, b)
    decreases |a|
  {
    hide RunOp;
    if a == [] {
      assert a + b == b;
    } else {
      assert (a + b)[1..] == a[1..] + b;
      if RunOp(st, a[0]).Some? { OpsInOrder(RunOp(st, a[0]).value, a[1..], b); }
    }
  }

  lemma OneOp(st: State, op: Op)
    ensures RunOps(st, [op]) == RunOp(st, op) && RunOps(st, []) == Some(st)
  {
    hide RunOp;
    assert [op][1..] == [];
  }

  /** The state in which a callback begins: its timer is logged and asleep, and
      off the list if it is to run only once. */
  function Begun(st: State, t: TimerId): State {
    var called := st.(waketime := st.waketime[t := NEVER], calls := st.calls + [t]);
    if t in st.oneshot then Remove(called, t) else called
  }

  /** A callback does what its operations do to all timers but its own; it raises
      exactly if one of them does. */
  lemma CallRunsOps(st: State, t: TimerId, b: Behaviour)
    ensures Call(st, t, b).1 == Raised <==> RunOps(Begun(st, t), b.ops) == None
    ensures Call(st, t, b).1 != Raised && t !in RunOps(Begun(st, t), b.ops).value.parked && b.end.Return? ==>
              var during, s := RunOps(Begun(st, t), b.ops).value, Call(st, t, b).0;
              OthersKeep(during, s, t) && s.timers == during.timers && s.oneshot == during.oneshot && s.parked == during.parked
    ensures Call(st, t, b).1 == Paused ==>
              var during, s := RunOps(Begun(st, t), b.ops).value, Call(st, t, b).0;
              OthersKeep(during, s, during.created) && s.timers == during.timers + [during.created] && s.oneshot == during.oneshot
  {
    hide RunOps, Remove, Finish;
  }

  /** A descriptor's callback does what its operations do, and then returns or
      pauses like a timer's. */
  lemma FdCallbackRunsOps(st: State, b: Behaviour)
    ensures FdCallback(st, b).1 == Raised <==> RunOps(st, b.ops) == None
    ensures FdCallback(st, b).1 != Raised ==>
              var during, (s, ending) := RunOps(st, b.ops).value, FdCallback(st, b);
              && (b.end.Return? ==> ending == Continued && s == during)
              && (b.end.Pause? ==>
                    && ending == Paused && s.timers == during.timers + [during.created]
                    && WakeOf(s, during.created) == b.end.w && OthersKeep(during, s, during.created)
                    && during.created in s.parked && s.parked[during.created] == None && s.next == NOW)
  {
    hide RunOps;
  }

  /** What a callback returns is when its timer wakes next, whatever else the
      callback did; a register_callback timer wakes no more. */
  lemma ReturnSetsWake(st: State, t: TimerId, b: Behaviour)
    requires Consistent(st) && t < st.created && t !in st.parked
    requires Call(st, t, b).1 != Raised && b.end.Return?
    ensures Call(st, t, b).1 == Continued
    ensures WakeOf(Call(st, t, b).0, t) == if t in st.oneshot then NEVER else b.end.w
  {
    hide Consistent, Call;
    var s := CallParts(st, t, b);
  }

  /** A callback that pauses leaves a new timer to wake it at the time it gave. */
  lemma PauseSetsWake(st: State, t: TimerId, b: Behaviour)
    requires Consistent(st) && t < st.created && t !in st.parked
    requires Call(st, t, b).1 != Raised && b.end.Pause?
    ensures var (s, ending) := Call(st, t, b);
            && ending == Paused && s.created > st.created
            && var g := s.created - 1;
               g in s.timers && WakeOf(s, g) == b.end.w && g in s.parked && s.parked[g] == Some(t)
               && s.next == NOW
  {
    hide Consistent, Call;
    var s := CallParts(st, t, b);
  }

  /** A paused task that pauses again wakes when it says. */
  lemma PauseAgainSetsWake(st: State, t: TimerId, b: Behaviour)
    requires Consistent(st) && t < st.created && t in st.parked
    requires Call(st, t, b).1 != Raised && b.end.Pause?
    ensures var (s, ending) := Call(st, t, b);
            && ending == Continued && WakeOf(s, t) == b.end.w
            && t in s.timers && t in s.parked && s.parked[t] == st.parked[t]
  {
    hide Call;
    var s := CallParts(st, t, b);
  }

  /** A paused task that finishes gives its answer to the timer in whose callback
      it had paused, and its own wake timer goes away. */
  lemma FinishSetsWake(st: State, t: TimerId, b: Behaviour)
    requires Consistent(st) && t < st.created && t in st.parked
    requires Call(st, t, b).1 != Raised && b.end.Return?
    ensures var (s, ending) := Call(st, t, b);
            && ending == Continued && t !in s.timers && t !in s.parked
            && (st.parked[t].Some? ==>
                  WakeOf(s, st.parked[t].value) == if st.parked[t].value in st.oneshot then NEVER else b.end.w)
  {
    hide Call;
    var s := CallParts(st, t, b);
    FinishShape(s, t, b.end.w);
  }

  lemma FinishShape(s: State, t: TimerId, w: real)
    requires Consistent(s) && t in s.parked
    ensures var r := Finish(s, t, w);
            && t !in r.timers && t !in r.parked
            && (s.parked[t].Some? ==>
                  WakeOf(r, s.parked[t].value) == if s.parked[t].value in s.oneshot then NEVER else w)
  {
    WithoutDistinct(s.timers, t);
  }

  // ---------- Timers left alone ----------

  predicate Names(op: Op, t: TimerId) {
    (op.Update? || op.Unregister?) && op.t == t
  }

  /** The invocations from m up to n do not ask anything of t. */
  predicate LeaveAlone(oracle: Oracle, m: nat, n: nat, t: TimerId) {
    forall k, i :: m <= k < n && 0 <= i < |oracle(k).ops| ==> !Names(oracle(k).ops[i], t)
  }

  /** No task is paused in the callback of t, so none will answer for it. */
  predicate NoneInside(st: State, t: TimerId) {
    forall g :: g in st.parked && st.parked[g].Some? ==> st.parked[g].value != t
  }

  /** The timer t is the same in both states. */
  predicate SameTimer(a: State, b: State, t: TimerId) {
    && WakeOf(a, t) == WakeOf(b, t)
    && (t in a.timers <==> t in b.timers)
    && (t in a.oneshot <==> t in b.oneshot)
    && (t in a.parked <==> t in b.parked)
  }

  lemma {:induction false} OpsLeaveAlone(st: State, ops: seq<Op>, t: TimerId)
    requires RunOps(st, ops).Some? && t < st.created
    requires forall i :: 0 <= i < |ops| ==> !Names(ops[i], t)
    ensures var s := RunOps(st, ops).value; SameTimer(s, st, t) && s.created >= st.created && s.parked == st.parked
    decreases |ops|
  {
    if ops != [] { OpsLeaveAlone(RunOp(st, ops[0]).value, ops[1..], t); }
  }

  /** Calling another timer leaves t alone. */
  lemma CallLeavesAlone(st: State, c: TimerId, b: Behaviour, t: TimerId)
    requires Call(st, c, b).1 == Continued && t < st.created && c != t
    requires forall i :: 0 <= i < |b.ops| ==> !Names(b.ops[i], t)
    requires NoneInside(st, t)
    ensures var s := Call(st, c, b).0; SameTimer(s, st, t) && s.created >= st.created && NoneInside(s, t)
  {
    var called := st.(waketime := st.waketime[c := NEVER], calls := st.calls + [c]);
    var entered := if c in st.oneshot then Remove(called, c) else called;
    OpsLeaveAlone(entered, b.ops, t);
  }

  lemma {:induction false} SweepLogs(st: State, snapshot: seq<TimerId>, eventTime: real, oracle: Oracle)
    ensures |Sweep(st, snapshot, eventTime, oracle).0.calls| >= |st.calls|
    decreases |snapshot|
  {
    hide Call;
    if snapshot != [] {
      var t := snapshot[0];
      if eventTime >= WakeOf(st, t) {
        var (s, ending) := Call(st, t, oracle(|st.calls|));
        CallLogs(st, t, oracle(|st.calls|));
        if ending == Continued { SweepLogs(s, snapshot[1..], eventTime, oracle); }
      } else {
        SweepLogs(st.(next := Min(st.next, WakeOf(st, t))), snapshot[1..], eventTime, oracle);
      }
    }
  }

  /** A pass over other timers whose callbacks leave t alone. */
  lemma {:induction false} SweepLeavesAlone(st: State, snapshot: seq<TimerId>, eventTime: real, oracle: Oracle, t: TimerId)
    requires t !in snapshot && t < st.created && NoneInside(st, t)
    requires Sweep(st, snapshot, eventTime, oracle).1 == Continued
    requires LeaveAlone(oracle, |st.calls|, |Sweep(st, snapshot, eventTime, oracle).0.calls|, t)
    ensures SameTimer(Sweep(st, snapshot, eventTime, oracle).0, st, t)
    ensures NoneInside(Sweep(st, snapshot, eventTime, oracle).0, t)
    decreases |snapshot|
  {
    hide Call, NoneInside;
    if snapshot != [] {
      var c, rest := snapshot[0], snapshot[1..];
      if eventTime >= WakeOf(st, c) {
        var s := Call(st, c, oracle(|st.calls|)).0;
        CallLogs(st, c, oracle(|st.calls|));
        SweepLogs(s, rest, eventTime, oracle);
        CallLeavesAlone(st, c, oracle(|st.calls|), t);
        SweepLeavesAlone(s, rest, eventTime, oracle, t);
      } else {
        var s := st.(next := Min(st.next, WakeOf(st, c)));
        NextInside(st, s.next, t);
        SweepLeavesAlone(s, rest, eventTime, oracle, t);
      }
    }
  }

  lemma NextInside(st: State, next: real, t: TimerId)
    requires NoneInside(st, t)
    ensures NoneInside(st.(next := next), t)
  {
  }

  lemma {:induction false} SweepConsistent(st: State, snapshot: seq<TimerId>, eventTime: real, oracle: Oracle, all: seq<TimerId>)
    requires Consistent(st) && NoneLostExcept(st, all)
    requires forall t :: t in snapshot ==> t < st.created
    requires Sweep(st, snapshot, eventTime, oracle).1 == Continued
    ensures var s := Sweep(st, snapshot, eventTime, oracle).0; Consistent(s) && s.created >= st.created
    decreases |snapshot|
  {
    hide Consistent, NoneLostExcept, Call;
    if snapshot != [] {
      var t, rest := snapshot[0], snapshot[1..];
      assert t in snapshot && forall u :: u in rest ==> u in snapshot;
      MoreAhead(st, t, all);
      if eventTime >= WakeOf(st, t) {
        CallKeeps(st, t, oracle(|st.calls|), all);
        SweepConsistent(Call(st, t, oracle(|st.calls|)).0, rest, eventTime, oracle, all);
      } else {
        PassOverKeeps(st, t, all);
        SweepConsistent(st.(next := Min(st.next, WakeOf(st, t))), rest, eventTime, oracle, all);
      }
    }
  }

  lemma MoreAhead(st: State, t: TimerId, all: seq<TimerId>)
    requires NoneLostExcept(st, all)
    ensures NoneLostExcept(st, [t] + all)
  {
  }

  // ---------- Whole passes ----------

  /** The n-th timer's turn in a pass that goes on to the end. */
  lemma SweepAt(st: State, snapshot: seq<TimerId>, eventTime: real, oracle: Oracle, k: nat)
    requires k < |snapshot| && Sweep(st, snapshot, eventTime, oracle).1 == Continued
    ensures Sweep(st, snapshot[..k], eventTime, oracle).1 == Continued
    ensures var reached := Sweep(st, snapshot[..k], eventTime, oracle).0;
            Sweep(st, snapshot, eventTime, oracle) == Sweep(reached, snapshot[k..], eventTime, oracle)
  {
    hide Sweep;
    assert snapshot == snapshot[..k] + snapshot[k..];
    SweepConcat(st, snapshot[..k], snapshot[k..], eventTime, oracle);
  }

  lemma SweepCall(st: State, snapshot: seq<TimerId>, eventTime: real, oracle: Oracle)
    requires snapshot != [] && eventTime >= WakeOf(st, snapshot[0])
    requires Sweep(st, snapshot, eventTime, oracle).1 == Continued
    ensures var (s, ending) := Call(st, snapshot[0], oracle(|st.calls|));
            ending == Continued && Sweep(st, snapshot, eventTime, oracle) == Sweep(s, snapshot[1..], eventTime, oracle)
  {
    hide Call;
  }

  lemma ReturnedInside(st: State, t: TimerId, b: Behaviour)
    requires Consistent(st) && t < st.created && t !in st.parked && Call(st, t, b).1 == Continued
    ensures b.end.Return? && Call(st, t, b).0.created >= st.created
    ensures NoneInside(st, t) ==> NoneInside(Call(st, t, b).0, t)
  {
    hide Consistent, Call;
    var s := CallParts(st, t, b);
  }

  /** In an unpaused pass, a timer that is called and that no later callback asks
      anything of ends the pass with the wake time its callback returned. */
  lemma SweepReturns(st: State, snapshot: seq<TimerId>, eventTime: real, oracle: Oracle, k: nat)
    requires Consistent(st) && NoneLostExcept(st, snapshot) && Distinct(snapshot) && k < |snapshot|
    requires forall t :: t in snapshot ==> t < st.created
    requires Sweep(st, snapshot, eventTime, oracle).1 == Continued
    requires var reached, t := Sweep(st, snapshot[..k], eventTime, oracle).0, snapshot[k];
             && eventTime >= WakeOf(reached, t) && t !in reached.parked && NoneInside(reached, t)
             && LeaveAlone(oracle, |reached.calls| + 1, |Sweep(st, snapshot, eventTime, oracle).0.calls|, t)
    ensures var reached, t := Sweep(st, snapshot[..k], eventTime, oracle).0, snapshot[k];
            var s, b := Sweep(st, snapshot, eventTime, oracle).0, oracle(|reached.calls|);
            && b.end.Return? && NoneInside(s, t)
            && WakeOf(s, t) == if t in reached.oneshot then NEVER else b.end.w
  {
    hide Consistent, NoneLostExcept, Call, Sweep, NoneInside, LeaveAlone;
    var t := snapshot[k];
    SweepAt(st, snapshot, eventTime, oracle, k);
    assert forall u :: u in snapshot[..k] ==> u in snapshot;
    SweepConsistent(st, snapshot[..k], eventTime, oracle, snapshot);
    var reached := Sweep(st, snapshot[..k], eventTime, oracle).0;
    var b := oracle(|reached.calls|);
    assert snapshot[k..][0] == t && snapshot[k..][1..] == snapshot[k + 1..];
    assert t in snapshot;
    SweepCall(reached, snapshot[k..], eventTime, oracle);
    ReturnedInside(reached, t, b);
    ReturnSetsWake(reached, t, b);
    CallLogs(reached, t, b);
    NotBefore(snapshot, k);
    SweepLeavesAlone(Call(reached, t, b).0, snapshot[k + 1..], eventTime, oracle, t);
  }

  /** The same for a call of _check_timers. */
  lemma CheckReturns(st: State, eventTime: real, oracle: Oracle, k: nat)
    requires Consistent(st) && NoneLost(st) && eventTime >= NOW && k < |st.timers|
    requires Check(st, eventTime, oracle).1 == Continued
    requires var reached, t := Reached(st, eventTime, oracle, k), st.timers[k];
             && eventTime >= WakeOf(reached, t) && t !in reached.parked && NoneInside(reached, t)
             && LeaveAlone(oracle, |reached.calls| + 1, |Check(st, eventTime, oracle).0.calls|, t)
    ensures var reached, t := Reached(st, eventTime, oracle, k), st.timers[k];
            var s, b := Check(st, eventTime, oracle).0, oracle(|reached.calls|);
            && b.end.Return? && NoneInside(s, t)
            && WakeOf(s, t) == if t in reached.oneshot then NEVER else b.end.w
  {
    hide Sweep, NoneInside, LeaveAlone;
    assert Covered(st, st.timers[k]);
    SweepReturns(st.(next := NEVER), st.timers, eventTime, oracle, k);
  }

  lemma NotBefore(s: seq<TimerId>, k: nat)
    requires Distinct(s) && k < |s|
    ensures s[k] !in s[..k] && s[k] !in s[k + 1..]
  {
  }

  /** A timer no earlier callback of a pass asks anything of is called in it
      exactly if its wake time was reached when the pass began. */
  lemma CheckCallsWaiting(st: State, eventTime: real, oracle: Oracle, k: nat)
    requires Consistent(st) && NoneLost(st) && eventTime >= NOW && k < |st.timers|
    requires Check(st, eventTime, oracle).1 == Continued
    requires NoneInside(st, st.timers[k])
    requires LeaveAlone(oracle, |st.calls|, |Reached(st, eventTime, oracle, k).calls|, st.timers[k])
    ensures TimesCalled(Check(st, eventTime, oracle).0, st.timers[k]) ==
            TimesCalled(st, st.timers[k]) + if eventTime >= WakeOf(st, st.timers[k]) then 1 else 0
  {
    hide Sweep, NoneInside, LeaveAlone, TimesCalled;
    var t := st.timers[k];
    CheckCallsDue(st, eventTime, oracle, k);
    if eventTime >= st.next {
      var s := st.(next := NEVER);
      SweepAt(s, s.timers, eventTime, oracle, k);
      NextInside(st, NEVER, t);
      NotBefore(st.timers, k);
      assert t in st.timers && t < s.created;
      SweepLeavesAlone(s, s.timers[..k], eventTime, oracle, t);
    }
  }

  /** So a timer whose callback returns the time w is called again by the first
      pass that finds w reached, as long as no callback in between asks for
      anything else: periodic timers keep firing. */
  lemma CalledAgain(st: State, eventTime: real, later: real, oracle: Oracle, k: nat, j: nat)
    requires Consistent(st) && NoneLost(st) && eventTime >= NOW && later >= NOW && k < |st.timers|
    requires Check(st, eventTime, oracle).1 == Continued
    requires var reached, t := Reached(st, eventTime, oracle, k), st.timers[k];
             && eventTime >= WakeOf(reached, t) && t !in reached.parked && t !in reached.oneshot && NoneInside(reached, t)
             && LeaveAlone(oracle, |reached.calls| + 1, |Check(st, eventTime, oracle).0.calls|, t)
    requires var s := Check(st, eventTime, oracle).0;
             && j < |s.timers| && s.timers[j] == st.timers[k] && Check(s, later, oracle).1 == Continued
             && LeaveAlone(oracle, |s.calls|, |Reached(s, later, oracle, j).calls|, st.timers[k])
    ensures var s, w := Check(st, eventTime, oracle).0, oracle(|Reached(st, eventTime, oracle, k).calls|).end.w;
            TimesCalled(Check(s, later, oracle).0, st.timers[k]) ==
            TimesCalled(s, st.timers[k]) + if later >= w then 1 else 0
  {
    hide Consistent, NoneLost, Check, Reached, NoneInside, LeaveAlone, TimesCalled;
    CheckReturns(st, eventTime, oracle, k);
    CheckKeeps(st, eventTime, oracle);
    CheckCallsWaiting(Check(st, eventTime, oracle).0, later, oracle, j);
  }

  // ---------- The cached wake time is not too early ----------

  /** After a pass that finds nothing due the cached wake time is the earliest of
      all registered timers, so the poll sleeps until then. */
  lemma {:induction false} IdleSweep(st: State, snapshot: seq<TimerId>, eventTime: real, oracle: Oracle)
    requires forall t :: t in snapshot ==> eventTime < WakeOf(st, t)
    ensures var (s, ending) := Sweep(st, snapshot, eventTime, oracle);
            && ending == Continued && s == st.(next := s.next) && s.next <= st.next
            && (forall t :: t in snapshot ==> s.next <= WakeOf(st, t))
            && (s.next == st.next || exists t :: t in snapshot && s.next == WakeOf(st, t))
    decreases |snapshot|
  {
    hide Call;
    if snapshot != [] {
      var t, rest := snapshot[0], snapshot[1..];
      assert t in snapshot && forall u :: u in rest ==> u in snapshot;
      var lowered := st.(next := Min(st.next, WakeOf(st, t)));
      assert forall u :: WakeOf(lowered, u) == WakeOf(st, u);
      IdleSweep(lowered, rest, eventTime, oracle);
      assert forall u :: u in snapshot ==> u == t || u in rest;
    }
  }

  lemma IdlePass(st: State, eventTime: real, oracle: Oracle)
    requires st.next <= eventTime && forall t :: t in st.timers ==> eventTime < WakeOf(st, t)
    ensures var (s, ending) := Check(st, eventTime, oracle);
            && ending == Continued && s == st.(next := s.next)
            && (forall t :: t in st.timers ==> s.next <= WakeOf(st, t))
            && (s.next == NEVER || exists t :: t in st.timers && s.next == WakeOf(st, t))
  {
    hide Sweep;
    var s := st.(next := NEVER);
    assert forall u :: WakeOf(s, u) == WakeOf(st, u);
    IdleSweep(s, s.timers, eventTime, oracle);
  }
}
