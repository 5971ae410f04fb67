/** What every program keeps on the reactor of Reactor.dfy: no wakeup is lost,
    nothing due is passed over, and a register_callback callback runs once. */
module ReactorSafety {
  import opened Bytes
  import opened Reals
  import opened Reactor

  // ---------- The invariant ----------

  predicate Distinct(s: seq<TimerId>) {
    forall i, j :: 0 <= i < j < |s| ==> s[i] != s[j]
  }

  /** The bookkeeping is consistent. */
  predicate Consistent(st: State) {
    && Distinct(st.timers)
    && (forall t :: t in st.timers ==> t in st.waketime)
    && (forall t :: t in st.waketime ==> t < st.created)
    && (forall t :: t in st.oneshot ==> t < st.created)
    && (forall t :: t in st.parked ==> t in st.timers && t !in st.oneshot)
    && (forall t :: t in st.parked && st.parked[t].Some? ==>
          st.parked[t].value < st.created && st.parked[t].value in st.waketime && st.parked[t].value != t)
  }

  /** The cached wake time accounts for this timer. A time up to NOW is always
      due, since the monotonic clock is positive. */
  predicate Covered(st: State, t: TimerId) {
    st.next <= WakeOf(st, t) || st.next <= NOW
  }

  /** No wakeup is lost. */
  predicate NoneLost(st: State) {
    forall t :: t in st.timers ==> Covered(st, t)
  }

  /** During a pass only the timers still ahead in the snapshot may be uncovered. */
  predicate NoneLostExcept(st: State, ahead: seq<TimerId>) {
    forall t :: t in st.timers ==> Covered(st, t) || t in ahead
  }

  lemma {:induction false} WithoutDistinct(s: seq<TimerId>, t: TimerId)
    requires Distinct(s)
    ensures Distinct(Without(s, t)) && t !in Without(s, t)
  {
    if s == [] {
    } else if s[0] == t {
      assert forall j :: 0 <= j < |s| - 1 ==> s[1..][j] == s[j + 1];
    } else {
      assert forall j :: 0 <= j < |s| - 1 ==> s[1..][j] == s[j + 1];
      WithoutDistinct(s[1..], t);
      NotAhead(s, t);
    }
  }

  lemma NotAhead(s: seq<TimerId>, t: TimerId)
    requires Distinct(s) && s != []
    ensures s[0] !in Without(s[1..], t)
  {
    assert forall j :: 0 <= j < |s| - 1 ==> s[1..][j] == s[j + 1];
    assert forall x :: x in s[1..] ==> x != s[0];
  }

  // ---------- Single steps ----------

  lemma SettleKeeps(st: State, t: TimerId, w: real, ahead: seq<TimerId>)
    requires Consistent(st) && t < st.created
    ensures Consistent(Settle(st, t, w)) && Covered(Settle(st, t, w), t)
    ensures NoneLostExcept(st, ahead) ==> NoneLostExcept(Settle(st, t, w), ahead)
  {
    var s := Settle(st, t, w);
    forall u | u in st.timers && Covered(st, u) ensures Covered(s, u) {}
  }

  lemma AddKeeps(st: State, w: real, ahead: seq<TimerId>)
    requires Consistent(st)
    ensures Consistent(AddTimer(st, w))
    ensures NoneLostExcept(st, ahead) ==> NoneLostExcept(AddTimer(st, w), ahead)
  {
    var s := AddTimer(st, w);
    forall u | u in st.timers && Covered(st, u) ensures Covered(s, u) {}
    assert st.created !in st.timers;
  }

  lemma RemoveKeeps(st: State, t: TimerId, ahead: seq<TimerId>)
    requires Consistent(st) && t < st.created && t !in st.parked
    ensures Consistent(Remove(st, t))
    ensures NoneLostExcept(st, ahead) ==> NoneLostExcept(Remove(st, t), ahead)
  {
    WithoutDistinct(st.timers, t);
    var s := Remove(st, t);
    forall u | u in s.timers && Covered(st, u) ensures Covered(s, u) {}
  }

  lemma OpKeeps(st: State, op: Op, ahead: seq<TimerId>)
    requires Consistent(st) && RunOp(st, op).Some?
    ensures Consistent(RunOp(st, op).value)
    ensures NoneLostExcept(st, ahead) ==> NoneLostExcept(RunOp(st, op).value, ahead)
    ensures RunOp(st, op).value.created >= st.created && RunOp(st, op).value.parked == st.parked
    ensures RunOp(st, op).value.waketime.Keys >= st.waketime.Keys && RunOp(st, op).value.oneshot >= st.oneshot
    ensures forall t :: t in st.oneshot ==> t < st.created
  {
    match op {
      case Register(w) => AddKeeps(st, w, ahead);
      case RegisterCallback(w) =>
        AddKeeps(st, w, ahead);
        var s := AddTimer(st, w);
        var r := RunOp(st, op).value;
        assert forall u :: u in r.timers && Covered(s, u) ==> Covered(r, u);
      case Update(t, w) => SettleKeeps(st, t, w, ahead);
      case Unregister(t) => RemoveKeeps(st, t, ahead);
    }
  }

  lemma {:induction false} OpsKeep(st: State, ops: seq<Op>, ahead: seq<TimerId>)
    requires Consistent(st) && RunOps(st, ops).Some?
    ensures Consistent(RunOps(st, ops).value)
    ensures NoneLostExcept(st, ahead) ==> NoneLostExcept(RunOps(st, ops).value, ahead)
    ensures RunOps(st, ops).value.created >= st.created && RunOps(st, ops).value.parked == st.parked
    ensures RunOps(st, ops).value.waketime.Keys >= st.waketime.Keys && RunOps(st, ops).value.oneshot >= st.oneshot
    decreases |ops|
  {
    hide Consistent, RunOp, NoneLostExcept;
    if ops != [] {
      OpKeeps(st, ops[0], ahead);
      OpsKeep(RunOp(st, ops[0]).value, ops[1..], ahead);
    }
  }

  lemma ParkKeeps(st: State, owner: Option<TimerId>, w: real)
    requires Consistent(st) && (owner.Some? ==> owner.value < st.created && owner.value in st.waketime)
    ensures Consistent(Park(st, owner, w)) && NoneLost(Park(st, owner, w))
  {
    AddKeeps(st, w, []);
  }

  lemma FinishKeeps(st: State, t: TimerId, w: real, ahead: seq<TimerId>)
    requires Consistent(st) && t in st.parked
    ensures Consistent(Finish(st, t, w))
    ensures NoneLostExcept(st, ahead) ==> NoneLostExcept(Finish(st, t, w), ahead)
    ensures t !in Finish(st, t, w).timers
  {
    var answered := st;
    match st.parked[t] {
      case Some(owner) =>
        answered := Settle(st, owner, Answer(st, owner, w));
        SettleKeeps(st, owner, Answer(st, owner, w), ahead);
      case None =>
    }
    var unparked := answered.(parked := st.parked - {t});
    assert Consistent(unparked);
    RemoveKeeps(unparked, t, ahead);
    var removed := Remove(unparked, t);
    WithoutDistinct(answered.timers, t);
    SettleKeeps(removed, t, NEVER, ahead);
    assert Finish(st, t, w) == Settle(removed, t, NEVER);
    if NoneLostExcept(st, ahead) {
      assert forall u :: u in unparked.timers && Covered(answered, u) ==> Covered(unparked, u);
    }
  }

  lemma CoveredLeaves(st: State, t: TimerId, rest: seq<TimerId>)
    requires NoneLostExcept(st, [t] + rest) && (t in st.timers ==> Covered(st, t))
    ensures NoneLostExcept(st, rest)
  {
  }

  lemma EnterKeeps(st: State, t: TimerId, rest: seq<TimerId>)
    requires Consistent(st) && t < st.created && NoneLostExcept(st, [t] + rest)
    ensures var called := st.(waketime := st.waketime[t := NEVER], calls := st.calls + [t]);
            var entered := if t in st.oneshot then Remove(called, t) else called;
            Consistent(entered) && NoneLostExcept(entered, [t] + rest)
  {
    var called := st.(waketime := st.waketime[t := NEVER], calls := st.calls + [t]);
    assert Consistent(called);
    assert forall u :: u in st.timers && u != t && Covered(st, u) ==> Covered(called, u);
    if t in st.oneshot { RemoveKeeps(called, t, [t] + rest); }
  }

  /** One callback, whatever it does: if it returns, the timer called is
      accounted for; if it pauses, every timer will be looked at again. */
  lemma CallKeeps(st: State, t: TimerId, b: Behaviour, rest: seq<TimerId>)
    requires Consistent(st) && t < st.created && NoneLostExcept(st, [t] + rest)
    requires Call(st, t, b).1 != Raised
    ensures var (s, ending) := Call(st, t, b);
            && Consistent(s) && s.created >= st.created
            && NoneLostExcept(s, if ending == Paused then [] else rest)
  {
    hide Consistent, NoneLostExcept, RunOps, Settle, Park, Finish, Answer;
    var called := st.(waketime := st.waketime[t := NEVER], calls := st.calls + [t]);
    var entered := if t in st.oneshot then Remove(called, t) else called;
    EnterKeeps(st, t, rest);
    assert t in entered.waketime;
    OpsKeep(entered, b.ops, [t] + rest);
    var s := RunOps(entered, b.ops).value;
    CallEnds(s, t, b, rest);
    SameCreated(s, t, b);
  }

  lemma SameCreated(s: State, t: TimerId, b: Behaviour)
    ensures t in s.parked ==> Finish(s, t, b.end.w).created == s.created
    ensures Settle(s, t, b.end.w).created == s.created && Settle(s, t, Answer(s, t, b.end.w)).created == s.created
    ensures Park(s, Some(t), b.end.w).created == s.created + 1
  {
  }

  lemma CallEnds(s: State, t: TimerId, b: Behaviour, rest: seq<TimerId>)
    requires Consistent(s) && t < s.created && t in s.waketime && NoneLostExcept(s, [t] + rest)
    ensures t in s.parked ==> Consistent(Finish(s, t, b.end.w)) && NoneLostExcept(Finish(s, t, b.end.w), rest)
    ensures Consistent(Settle(s, t, b.end.w)) && NoneLostExcept(Settle(s, t, b.end.w), rest)
    ensures var a := Settle(s, t, Answer(s, t, b.end.w)); Consistent(a) && NoneLostExcept(a, rest)
    ensures Consistent(Park(s, Some(t), b.end.w)) && NoneLostExcept(Park(s, Some(t), b.end.w), [])
  {
    hide Consistent, NoneLostExcept, Settle, Park, Finish, Answer, Covered;
    if t in s.parked {
      FinishKeeps(s, t, b.end.w, [t] + rest);
      CoveredLeaves(Finish(s, t, b.end.w), t, rest);
    }
    var w, a := b.end.w, Answer(s, t, b.end.w);
    SettleKeeps(s, t, w, [t] + rest);
    CoveredLeaves(Settle(s, t, w), t, rest);
    SettleKeeps(s, t, a, [t] + rest);
    CoveredLeaves(Settle(s, t, a), t, rest);
    ParkKeeps(s, Some(t), w);
    NoneLostIsExceptNone(Park(s, Some(t), w));
  }

  lemma NoneLostIsExceptNone(st: State)
    ensures NoneLost(st) <==> NoneLostExcept(st, [])
  {
  }

  lemma {:induction false} SweepKeeps(st: State, snapshot: seq<TimerId>, eventTime: real, oracle: Oracle)
    requires Consistent(st) && NoneLostExcept(st, snapshot)
    requires forall t :: t in snapshot ==> t < st.created
    requires Sweep(st, snapshot, eventTime, oracle).1 != Raised
    ensures Consistent(Sweep(st, snapshot, eventTime, oracle).0)
    ensures NoneLost(Sweep(st, snapshot, eventTime, oracle).0)
    decreases |snapshot|
  {
    hide Consistent, NoneLostExcept, NoneLost, Call;
    if snapshot == [] {
      NoneLostIsExceptNone(st);
    } else {
      var t, rest := snapshot[0], snapshot[1..];
      assert snapshot == [t] + rest;
      assert t in snapshot && forall u :: u in rest ==> u in snapshot;
      if eventTime >= WakeOf(st, t) {
        CallKeeps(st, t, oracle(|st.calls|), rest);
        var (s, ending) := Call(st, t, oracle(|st.calls|));
        if ending == Continued {
          SweepKeeps(s, rest, eventTime, oracle);
        } else {
          NoneLostIsExceptNone(s);
        }
      } else {
        var s := st.(next := Min(st.next, WakeOf(st, t)));
        PassOverKeeps(st, t, rest);
        SweepKeeps(s, rest, eventTime, oracle);
      }
    }
  }

  lemma PassOverKeeps(st: State, t: TimerId, rest: seq<TimerId>)
    requires Consistent(st) && NoneLostExcept(st, [t] + rest)
    ensures var s := st.(next := Min(st.next, WakeOf(st, t)));
            Consistent(s) && NoneLostExcept(s, rest)
  {
    var s := st.(next := Min(st.next, WakeOf(st, t)));
    assert forall u :: u in st.timers && Covered(st, u) ==> Covered(s, u);
  }

  /** Any call of _check_timers keeps the bookkeeping and loses no wakeup. */
  lemma CheckKeeps(st: State, eventTime: real, oracle: Oracle)
    requires Consistent(st) && NoneLost(st) && Check(st, eventTime, oracle).1 != Raised
    ensures Consistent(Check(st, eventTime, oracle).0) && NoneLost(Check(st, eventTime, oracle).0)
  {
    if eventTime >= st.next {
      SweepKeeps(st.(next := NEVER), st.timers, eventTime, oracle);
    }
  }

  lemma FdCallbackKeeps(st: State, b: Behaviour)
    requires Consistent(st) && NoneLost(st) && FdCallback(st, b).1 != Raised
    ensures Consistent(FdCallback(st, b).0) && NoneLost(FdCallback(st, b).0)
  {
    NoneLostIsExceptNone(st);
    OpsKeep(st, b.ops, []);
    var s := RunOps(st, b.ops).value;
    NoneLostIsExceptNone(s);
    ParkKeeps(s, None, b.end.w);
  }

  // ---------- Sleeping and rescanning ----------

  /** A poll never sleeps past a registered timer's wake time by more than the
      one millisecond it sleeps at least when nothing is due; and it sleeps for a
      second unless the cached wake time comes first. */
  lemma WakesInTime(st: State, eventTime: real, busy: bool, t: TimerId)
    requires NoneLost(st) && eventTime >= NOW && t in st.timers
    ensures eventTime + Timeout(st, eventTime, busy) <= Max(WakeOf(st, t), eventTime + 0.001)
    ensures eventTime < st.next && !busy ==> 0.001 <= Timeout(st, eventTime, busy) <= 1.0
    ensures eventTime < st.next && !busy && Timeout(st, eventTime, busy) < 1.0 ==>
              eventTime + Timeout(st, eventTime, busy) >= st.next
    ensures eventTime >= st.next || busy ==> Timeout(st, eventTime, busy) == 0.0
  {
    assert Covered(st, t);
  }

  lemma {:induction false} SweepPausedNow(st: State, snapshot: seq<TimerId>, eventTime: real, oracle: Oracle)
    requires Sweep(st, snapshot, eventTime, oracle).1 == Paused
    ensures Sweep(st, snapshot, eventTime, oracle).0.next == NOW
    decreases |snapshot|
  {
    var t := snapshot[0];
    if eventTime >= WakeOf(st, t) {
      var (s, ending) := Call(st, t, oracle(|st.calls|));
      if ending == Continued { SweepPausedNow(s, snapshot[1..], eventTime, oracle); }
    } else {
      SweepPausedNow(st.(next := Min(st.next, WakeOf(st, t))), snapshot[1..], eventTime, oracle);
    }
  }

  // ---------- Nothing due is passed over ----------

  function TimesCalled(st: State, t: TimerId): nat { multiset(st.calls)[t] }

  lemma {:induction false} OpsKeepCalls(st: State, ops: seq<Op>)
    requires RunOps(st, ops).Some?
    ensures RunOps(st, ops).value.calls == st.calls
    decreases |ops|
  {
    if ops != [] { OpsKeepCalls(RunOp(st, ops[0]).value, ops[1..]); }
  }

  /** A callback logs the timer called, whatever it does and however it ends. */
  lemma CallLogs(st: State, t: TimerId, b: Behaviour)
    ensures Call(st, t, b).0.calls == st.calls + [t]
  {
    hide RunOps;
    var called := st.(waketime := st.waketime[t := NEVER], calls := st.calls + [t]);
    var entered := if t in st.oneshot then Remove(called, t) else called;
    if RunOps(entered, b.ops).Some? { OpsKeepCalls(entered, b.ops); }
  }

  lemma CountOne(st: State, s: State, c: TimerId, t: TimerId)
    requires s.calls == st.calls + [c]
    ensures TimesCalled(s, t) == TimesCalled(st, t) + if c == t then 1 else 0
  {
    assert multiset(s.calls) == multiset(st.calls) + multiset{c};
  }

  lemma {:induction false} SweepConcat(st: State, a: seq<TimerId>, b: seq<TimerId>, eventTime: real, oracle: Oracle)
    ensures var (s, ending) := Sweep(st, a, eventTime, oracle);
            Sweep(st, a + b, eventTime, oracle) == if ending == Continued then Sweep(s, b, eventTime, oracle) else (s, ending)
    decreases |a|
  {
    hide Call;
    if a == [] {
      assert a + b == b;
    } else {
      assert (a + b)[0] == a[0] && (a + b)[1..] == a[1..] + b;
      var t := a[0];
      if eventTime >= WakeOf(st, t) {
        var (s, ending) := Call(st, t, oracle(|st.calls|));
        if ending == Continued { SweepConcat(s, a[1..], b, eventTime, oracle); }
      } else {
        SweepConcat(st.(next := Min(st.next, WakeOf(st, t))), a[1..], b, eventTime, oracle);
      }
    }
  }

  /** No pass calls a timer twice, paused or not, nor one outside its snapshot. */
  lemma {:induction false} SweepCallsOnce(st: State, snapshot: seq<TimerId>, eventTime: real, oracle: Oracle, t: TimerId)
    requires Distinct(snapshot)
    ensures var n := TimesCalled(Sweep(st, snapshot, eventTime, oracle).0, t) - TimesCalled(st, t);
            0 <= n <= 1 && (t !in snapshot ==> n == 0)
    decreases |snapshot|
  {
    hide Call, TimesCalled;
    if snapshot != [] {
      var c, rest := snapshot[0], snapshot[1..];
      assert c !in rest;
      if eventTime >= WakeOf(st, c) {
        var (s, ending) := Call(st, c, oracle(|st.calls|));
        CallLogs(st, c, oracle(|st.calls|));
        CountOne(st, s, c, t);
        if ending == Continued { SweepCallsOnce(s, rest, eventTime, oracle, t); }
      } else {
        var s := st.(next := Min(st.next, WakeOf(st, c)));
        SameCalls(st, s, t);
        SweepCallsOnce(s, rest, eventTime, oracle, t);
      }
    }
  }

  lemma SameCalls(st: State, s: State, t: TimerId)
    requires s.calls == st.calls
    ensures TimesCalled(s, t) == TimesCalled(st, t)
  {
  }

  /** A pass that runs to its end calls the k-th timer of its snapshot exactly once
      if it is due when the pass reaches it, and otherwise not at all. */
  lemma SweepCallsDue(st: State, snapshot: seq<TimerId>, eventTime: real, oracle: Oracle, k: nat)
    requires Distinct(snapshot) && k < |snapshot|
    requires Sweep(st, snapshot, eventTime, oracle).1 == Continued
    ensures var reached := Sweep(st, snapshot[..k], eventTime, oracle).0;
            TimesCalled(Sweep(st, snapshot, eventTime, oracle).0, snapshot[k]) ==
            TimesCalled(st, snapshot[k]) + if eventTime >= WakeOf(reached, snapshot[k]) then 1 else 0
  {
    hide Call, TimesCalled, Sweep;
    var t := snapshot[k];
    var reached := Sweep(st, snapshot[..k], eventTime, oracle).0;
    assert snapshot == snapshot[..k] + snapshot[k..];
    SweepConcat(st, snapshot[..k], snapshot[k..], eventTime, oracle);
    assert Distinct(snapshot[..k]) && Distinct(snapshot[k + 1..]);
    assert t !in snapshot[..k] && t !in snapshot[k + 1..];
    SweepCallsOnce(st, snapshot[..k], eventTime, oracle, t);
    assert snapshot[k..][0] == t && snapshot[k..][1..] == snapshot[k + 1..];
    SweepFirst(reached, snapshot[k..], eventTime, oracle);
  }

  /** The first timer of a pass. */
  lemma SweepFirst(st: State, snapshot: seq<TimerId>, eventTime: real, oracle: Oracle)
    requires Distinct(snapshot) && snapshot != []
    requires Sweep(st, snapshot, eventTime, oracle).1 == Continued
    ensures var t := snapshot[0];
            TimesCalled(Sweep(st, snapshot, eventTime, oracle).0, t) ==
            TimesCalled(st, t) + if eventTime >= WakeOf(st, t) then 1 else 0
  {
    hide Call, TimesCalled;
    var t, rest := snapshot[0], snapshot[1..];
    assert t !in rest;
    if eventTime >= WakeOf(st, t) {
      var s := Call(st, t, oracle(|st.calls|)).0;
      CallLogs(st, t, oracle(|st.calls|));
      CountOne(st, s, t, t);
      SweepCallsOnce(s, rest, eventTime, oracle, t);
    } else {
      var s := st.(next := Min(st.next, WakeOf(st, t)));
      SameCalls(st, s, t);
      SweepCallsOnce(s, rest, eventTime, oracle, t);
    }
  }

  /** The state in which _check_timers comes to the k-th timer. */
  function Reached(st: State, eventTime: real, oracle: Oracle, k: nat): State
    requires k <= |st.timers|
  {
    if eventTime < st.next then st else Sweep(st.(next := NEVER), st.timers[..k], eventTime, oracle).0
  }

  /** For a call of _check_timers that no callback pauses, whatever the callbacks
      register, update or unregister: a timer is called exactly once if it is due
      when it is its turn, made due by an earlier callback or not, and else not. */
  lemma CheckCallsDue(st: State, eventTime: real, oracle: Oracle, k: nat)
    requires Consistent(st) && NoneLost(st) && eventTime >= NOW && k < |st.timers|
    requires Check(st, eventTime, oracle).1 == Continued
    ensures TimesCalled(Check(st, eventTime, oracle).0, st.timers[k]) ==
            TimesCalled(st, st.timers[k]) + if eventTime >= WakeOf(Reached(st, eventTime, oracle, k), st.timers[k]) then 1 else 0
  {
    hide Sweep;
    assert Covered(st, st.timers[k]);
    if eventTime >= st.next {
      var s := st.(next := NEVER);
      SameCalls(st, s, st.timers[k]);
      SweepCallsDue(s, s.timers, eventTime, oracle, k);
    }
  }

  /** No call of _check_timers, paused or not, calls a timer twice or one that was
      not registered when it began. */
  lemma CheckCallsOnce(st: State, eventTime: real, oracle: Oracle, t: TimerId)
    requires Consistent(st)
    ensures var n := TimesCalled(Check(st, eventTime, oracle).0, t) - TimesCalled(st, t);
            0 <= n <= 1 && (t !in st.timers ==> n == 0)
  {
    hide Sweep;
    if eventTime >= st.next {
      var s := st.(next := NEVER);
      SameCalls(st, s, t);
      SweepCallsOnce(s, s.timers, eventTime, oracle, t);
    }
  }

  // ---------- register_callback runs at most once ----------

  /** A hidden timer is called at most once, and once called it is gone. */
  predicate OnceOnly(st: State) {
    && (forall t :: t in st.calls ==> t < st.created)
    && (forall t :: t in st.oneshot ==> TimesCalled(st, t) <= 1)
    && (forall t :: t in st.oneshot && TimesCalled(st, t) == 1 ==> t !in st.timers && WakeOf(st, t) == NEVER)
  }

  lemma OpOnceOnly(st: State, op: Op)
    requires Consistent(st) && OnceOnly(st) && RunOp(st, op).Some?
    ensures OnceOnly(RunOp(st, op).value)
  {
    var s := RunOp(st, op).value;
    assert s.calls == st.calls;
    assert forall i :: 0 <= i < |st.calls| ==> st.calls[i] in st.calls;
    assert st.created !in multiset(st.calls);
    forall t | t in s.oneshot && TimesCalled(s, t) == 1 ensures t !in s.timers && WakeOf(s, t) == NEVER {
      assert t in st.oneshot;
    }
  }

  lemma {:induction false} OpsOnceOnly(st: State, ops: seq<Op>)
    requires Consistent(st) && OnceOnly(st) && RunOps(st, ops).Some?
    ensures OnceOnly(RunOps(st, ops).value) && RunOps(st, ops).value.calls == st.calls
    decreases |ops|
  {
    hide Consistent, OnceOnly;
    if ops != [] {
      OpKeeps(st, ops[0], []);
      OpOnceOnly(st, ops[0]);
      OpsOnceOnly(RunOp(st, ops[0]).value, ops[1..]);
    }
  }

  lemma SettleOnceOnly(st: State, t: TimerId, w: real)
    requires OnceOnly(st) && (t in st.oneshot ==> w == NEVER)
    ensures OnceOnly(Settle(st, t, w))
  {
    assert Settle(st, t, w).calls == st.calls;
  }

  lemma RemoveOnceOnly(st: State, t: TimerId, parked: map<TimerId, Option<TimerId>>)
    requires OnceOnly(st)
    ensures OnceOnly(Remove(st, t).(parked := parked))
  {
    assert Remove(st, t).calls == st.calls;
  }

  lemma ParkOnceOnly(st: State, owner: Option<TimerId>, w: real)
    requires Consistent(st) && OnceOnly(st)
    ensures OnceOnly(Park(st, owner, w))
  {
    assert Park(st, owner, w).calls == st.calls;
    forall t | t in st.oneshot && TimesCalled(st, t) == 1
      ensures t !in Park(st, owner, w).timers && WakeOf(Park(st, owner, w), t) == NEVER
    {
      assert t < st.created;
    }
  }

  lemma FinishOnceOnly(st: State, t: TimerId, w: real)
    requires Consistent(st) && OnceOnly(st) && t in st.parked
    ensures OnceOnly(Finish(st, t, w))
  {
    hide OnceOnly, Settle, Remove;
    var answered := st;
    match st.parked[t] {
      case Some(owner) =>
        answered := Settle(st, owner, Answer(st, owner, w));
        SettleOnceOnly(st, owner, Answer(st, owner, w));
      case None =>
    }
    RemoveOnceOnly(answered, t, st.parked - {t});
    SettleOnceOnly(Remove(answered, t).(parked := st.parked - {t}), t, NEVER);
  }

  lemma EnterOnceOnly(st: State, t: TimerId)
    requires Consistent(st) && OnceOnly(st) && t < st.created && WakeOf(st, t) != NEVER
    ensures var called := st.(waketime := st.waketime[t := NEVER], calls := st.calls + [t]);
            OnceOnly(if t in st.oneshot then Remove(called, t) else called)
  {
    hide TimesCalled;
    var called := st.(waketime := st.waketime[t := NEVER], calls := st.calls + [t]);
    var entered := if t in st.oneshot then Remove(called, t) else called;
    WithoutDistinct(st.timers, t);
    forall u ensures TimesCalled(entered, u) == TimesCalled(st, u) + if u == t then 1 else 0 {
      CountOne(st, entered, t, u);
    }
    assert forall u :: u in entered.calls ==> u < st.created;
  }

  lemma CallOnceOnly(st: State, t: TimerId, b: Behaviour)
    requires Consistent(st) && OnceOnly(st) && t < st.created && WakeOf(st, t) != NEVER
    requires Call(st, t, b).1 != Raised
    ensures OnceOnly(Call(st, t, b).0)
  {
    hide Consistent, OnceOnly, Settle, Park, Finish, RunOps, NoneLostExcept;
    var called := st.(waketime := st.waketime[t := NEVER], calls := st.calls + [t]);
    var entered := if t in st.oneshot then Remove(called, t) else called;
    EnterOnceOnly(st, t);
    EnterConsistent(st, t);
    OpsKeep(entered, b.ops, []);
    OpsOnceOnly(entered, b.ops);
    var s := RunOps(entered, b.ops).value;
    var w := b.end.w;
    if t in s.parked {
      ParkedNotOneShot(s, t);
      FinishOnceOnly(s, t, w);
      SettleOnceOnly(s, t, w);
    } else {
      SettleOnceOnly(s, t, Answer(s, t, w));
      ParkOnceOnly(s, Some(t), w);
    }
  }

  lemma EnterConsistent(st: State, t: TimerId)
    requires Consistent(st) && t < st.created
    ensures var called := st.(waketime := st.waketime[t := NEVER], calls := st.calls + [t]);
            Consistent(if t in st.oneshot then Remove(called, t) else called)
  {
    var called := st.(waketime := st.waketime[t := NEVER], calls := st.calls + [t]);
    assert Consistent(called);
    if t in st.oneshot { RemoveKeeps(called, t, []); }
  }

  lemma ParkedNotOneShot(st: State, t: TimerId)
    requires Consistent(st) && t in st.parked
    ensures t !in st.oneshot
  {
  }

  lemma {:induction false} SweepOnceOnly(st: State, snapshot: seq<TimerId>, eventTime: real, oracle: Oracle)
    requires Consistent(st) && OnceOnly(st) && NoneLostExcept(st, snapshot) && eventTime < NEVER
    requires forall t :: t in snapshot ==> t < st.created
    requires Sweep(st, snapshot, eventTime, oracle).1 != Raised
    ensures OnceOnly(Sweep(st, snapshot, eventTime, oracle).0)
    decreases |snapshot|
  {
    hide Consistent, OnceOnly, Call, NoneLostExcept;
    if snapshot != [] {
      var t, rest := snapshot[0], snapshot[1..];
      assert snapshot == [t] + rest;
      assert t in snapshot && forall u :: u in rest ==> u in snapshot;
      if eventTime >= WakeOf(st, t) {
        CallKeeps(st, t, oracle(|st.calls|), rest);
        CallOnceOnly(st, t, oracle(|st.calls|));
        var (s, ending) := Call(st, t, oracle(|st.calls|));
        if ending == Continued { SweepOnceOnly(s, rest, eventTime, oracle); }
      } else {
        var s := st.(next := Min(st.next, WakeOf(st, t)));
        PassOverKeeps(st, t, rest);
        NextOnceOnly(st, s.next);
        SweepOnceOnly(s, rest, eventTime, oracle);
      }
    }
  }

  lemma NextOnceOnly(st: State, next: real)
    requires OnceOnly(st)
    ensures OnceOnly(st.(next := next))
  {
    assert st.(next := next).calls == st.calls;
  }

  // ---------- Whole runs ----------

  /** What the dispatch loops do, one after the other. */
  datatype Event = Pass(eventTime: real) | Fd(b: Behaviour)

  function Step(st: State, e: Event, oracle: Oracle): (State, Ending) {
    match e
    case Pass(eventTime) => Check(st, eventTime, oracle)
    case Fd(b) => FdCallback(st, b)
  }

  /** After a pause, in a pass or in a descriptor's callback, the next call of
      _check_timers looks at every timer. */
  lemma PauseForcesRescan(st: State, e: Event, oracle: Oracle, later: real)
    requires Step(st, e, oracle).1 == Paused && later >= NOW
    ensures var s := Step(st, e, oracle).0;
            Check(s, later, oracle) == Sweep(s.(next := NEVER), s.timers, later, oracle)
  {
    hide Sweep, RunOps;
    match e {
      case Pass(eventTime) => SweepPausedNow(st.(next := NEVER), st.timers, eventTime, oracle);
      case Fd(_) =>
    }
  }

  /** None when a callback raised an exception. */
  function Run(st: State, events: seq<Event>, oracle: Oracle): Option<State>
    decreases |events|
  {
    if events == [] then Some(st)
    else
      var (s, ending) := Step(st, events[0], oracle);
      if ending == Raised then None else Run(s, events[1..], oracle)
  }

  predicate Safe(st: State) { Consistent(st) && NoneLost(st) && OnceOnly(st) }

  lemma StepSafe(st: State, e: Event, oracle: Oracle)
    requires Safe(st) && (e.Pass? ==> e.eventTime < NEVER) && Step(st, e, oracle).1 != Raised
    ensures Safe(Step(st, e, oracle).0)
  {
    hide Consistent, OnceOnly, Sweep;
    match e {
      case Pass(eventTime) =>
        CheckKeeps(st, eventTime, oracle);
        if eventTime >= st.next {
          var s := st.(next := NEVER);
          NextOnceOnly(st, NEVER);
          NextConsistent(st, NEVER);
          SweepOnceOnly(s, s.timers, eventTime, oracle);
        }
      case Fd(b) =>
        FdCallbackKeeps(st, b);
        OpsOnceOnly(st, b.ops);
        OpsKeep(st, b.ops, []);
        ParkOnceOnly(RunOps(st, b.ops).value, None, b.end.w);
    }
  }

  lemma NextConsistent(st: State, next: real)
    requires Consistent(st)
    ensures Consistent(st.(next := next)) && forall t :: t in st.timers ==> t < st.created
  {
  }

  /** Over every run of every program: no wakeup is lost and every
      register_callback callback runs at most once. */
  lemma {:induction false} RunSafe(st: State, events: seq<Event>, oracle: Oracle)
    requires Safe(st) && Run(st, events, oracle).Some?
    requires forall i :: 0 <= i < |events| && events[i].Pass? ==> events[i].eventTime < NEVER
    ensures Safe(Run(st, events, oracle).value)
    decreases |events|
  {
    hide Safe, Step;
    if events != [] {
      StepSafe(st, events[0], oracle);
      RunSafe(Step(st, events[0], oracle).0, events[1..], oracle);
    }
  }

  lemma InitiallySafe()
    ensures Safe(INITIAL)
  {
  }
}
