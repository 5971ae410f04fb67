/** ReactorMutex of reactor.py: a first-come first-served lock handed over
    between tasks that pause in the reactor. Entering is split where the source
    pauses: Enter up to the pause, Resume when the reactor lets the task go on. */
module ReactorMutex {
  import opened Bytes
  import Reactor

  type Task = nat

  /** The fields, the wake times of the tasks paused in __enter__, and a record
      of who holds the lock, who asked and who was let in, and how often it was left. */
  datatype State = State(
    isLocked: bool, nextPending: bool, queue: seq<Task>, wake: map<Task, real>,
    owner: Option<Task>, arrivals: seq<Task>, grants: seq<Task>, exits: nat)

  function Grant(st: State, g: Task): State {
    st.(owner := Some(g), grants := st.grants + [g])
  }

  datatype Event = Enter(g: Task) | Resume(g: Task) | Exit(g: Task)

  /** A task asks or leaves only while it runs, that is, while it is not queued;
      only a queued task is resumed, at any time and for any reason. */
  predicate Enabled(st: State, e: Event) {
    match e
    case Enter(g) => g !in st.queue
    case Resume(g) => g in st.queue
    case Exit(g) => g !in st.queue
  }

  /** Nobody leaves while another task holds the lock. */
  predicate Proper(st: State, e: Event) {
    Enabled(st, e) && (e.Exit? ==> st.owner == None || st.owner == Some(e.g))
  }

  /** A task that leaves gives up the lock if it is its own. */
  function Leave(st: State, g: Task): State {
    if st.owner == Some(g) then st.(owner := None, exits := st.exits + 1) else st
  }

  function Step(st: State, e: Event): State
    requires Enabled(st, e)
  {
    match e
    case Enter(g) =>
      var asked := st.(arrivals := st.arrivals + [g]);
      if !st.isLocked then Grant(asked.(isLocked := true), g)
      else asked.(queue := st.queue + [g], wake := st.wake[g := Reactor.NEVER])
    case Resume(g) =>
      if st.nextPending && st.queue[0] == g then Grant(st.(nextPending := false, queue := st.queue[1..]), g)
      else st.(wake := st.wake[g := Reactor.NEVER])
    case Exit(g) =>
      var left := Leave(st, g);
      if st.queue == [] then left.(isLocked := false)
      else left.(nextPending := true, wake := st.wake[st.queue[0] := Reactor.NOW])
  }

  class Mutex {
    var isLocked: bool
    var nextPending: bool
    var queue: seq<Task>
    var wake: map<Task, real>
    ghost var owner: Option<Task>
    ghost var arrivals: seq<Task>
    ghost var grants: seq<Task>
    ghost var exits: nat

    ghost function Fields(): State
      reads this
    {
      State(isLocked, nextPending, queue, wake, owner, arrivals, grants, exits)
    }

    /** A mutex may be created locked; then its creator holds it. */
    constructor (locked: bool, ghost creator: Task)
      ensures Fields() == Created(locked, creator)
    {
      isLocked, nextPending, queue, wake := locked, false, [], map[];
      owner := if locked then Some(creator) else None;
      arrivals := if locked then [creator] else [];
      grants := if locked then [creator] else [];
      exits := 0;
    }

    /** __enter__ up to its first pause; `entered` when it does not pause. */
    method Enter(g: Task) returns (entered: bool)
      requires Enabled(Fields(), Event.Enter(g))
      modifies this
      ensures Fields() == Step(old(Fields()), Event.Enter(g))
      ensures entered <==> !old(isLocked)
      ensures old(owner) != Some(g) ==> (entered <==> owner == Some(g))
      ensures entered ==> isLocked
    {
      arrivals := arrivals + [g];
      if !isLocked {
        isLocked := true;
        owner, grants := Some(g), grants + [g];
        return true;
      }
      queue := queue + [g];
      wake := wake[g := Reactor.NEVER];
      return false;
    }

    /** One turn of the loop in __enter__ after a pause. */
    method Resume(g: Task) returns (entered: bool)
      requires Enabled(Fields(), Event.Resume(g))
      modifies this
      ensures Fields() == Step(old(Fields()), Event.Resume(g))
      ensures entered <==> old(nextPending) && old(queue)[0] == g
      ensures old(owner) != Some(g) ==> (entered <==> owner == Some(g))
    {
      if nextPending && queue[0] == g {
        nextPending := false;
        queue := queue[1..];
        owner, grants := Some(g), grants + [g];
        return true;
      }
      wake := wake[g := Reactor.NEVER];
      return false;
    }

    method Exit(ghost g: Task)
      requires Enabled(Fields(), Event.Exit(g))
      modifies this
      ensures Fields() == Step(old(Fields()), Event.Exit(g))
    {
      if owner == Some(g) {
        owner, exits := None, exits + 1;
      }
      if queue == [] {
        isLocked := false;
        return;
      }
      nextPending := true;
      wake := wake[queue[0] := Reactor.NOW];
    }
  }

  function Created(locked: bool, creator: Task): State {
    if locked then State(true, false, [], map[], Some(creator), [creator], [creator], 0)
    else State(false, false, [], map[], None, [], [], 0)
  }

  // ---------- What every run keeps ----------

  /** While a hand-over is pending there is no owner, someone is queued and the
      head of the queue has been woken, and nobody else; otherwise all who queue
      are asleep, and the lock is locked exactly when it is owned. Nobody queues at
      a free lock. Everyone who asked was let in or queues, in order of arrival,
      and each leave let in at most the next. */
  predicate Sound(st: State) {
    && (st.nextPending ==>
          st.isLocked && st.owner == None && st.queue != [])
    && (!st.nextPending ==> (st.isLocked <==> st.owner.Some?))
    && (!st.isLocked ==> st.queue == [])
    && st.arrivals == st.grants + st.queue
    && (st.owner.Some? ==> st.grants != [] && st.grants[|st.grants| - 1] == st.owner.value)
    && |st.grants| == st.exits + (if st.owner.Some? then 1 else 0)
    && (forall i, j :: 0 <= i < j < |st.queue| ==> st.queue[i] != st.queue[j])
    && (forall i :: 0 <= i < |st.queue| ==>
          st.queue[i] in st.wake && st.wake[st.queue[i]] == (if i == 0 && st.nextPending then Reactor.NOW else Reactor.NEVER))
  }

  lemma StepSound(st: State, e: Event)
    requires Sound(st) && Proper(st, e)
    ensures Sound(Step(st, e))
  {
    var s := Step(st, e);
    match e {
      case Enter(g) =>
        assert (st.grants + st.queue) + [g] == st.grants + (st.queue + [g]);
      case Resume(g) =>
        if st.nextPending && st.queue[0] == g {
          assert st.grants + st.queue == (st.grants + [g]) + st.queue[1..];
        }
      case Exit(g) =>
    }
  }

  /** Leaving is harmless exactly when no other task holds the lock. */
  lemma LeaveIff(st: State, g: Task)
    requires Sound(st) && g !in st.queue
    ensures Sound(Step(st, Exit(g))) <==> st.owner == None || st.owner == Some(g)
  {
    if st.owner == None || st.owner == Some(g) { StepSound(st, Exit(g)); }
  }

  predicate EnabledRun(st: State, events: seq<Event>)
    decreases |events|
  {
    events == [] || (Enabled(st, events[0]) && EnabledRun(Step(st, events[0]), events[1..]))
  }

  predicate ProperRun(st: State, events: seq<Event>)
    decreases |events|
  {
    events == [] || (Proper(st, events[0]) && ProperRun(Step(st, events[0]), events[1..]))
  }

  function Run(st: State, events: seq<Event>): State
    requires EnabledRun(st, events)
    decreases |events|
  {
    if events == [] then st else Run(Step(st, events[0]), events[1..])
  }

  /** Over every run: mutual exclusion, first come first served, no hand-over lost. */
  lemma {:induction false} RunSound(st: State, events: seq<Event>)
    requires Sound(st) && ProperRun(st, events)
    ensures EnabledRun(st, events) && Sound(Run(st, events))
    decreases |events|
  {
    hide Sound, Enabled, Step;
    if events != [] {
      StepSound(st, events[0]);
      RunSound(Step(st, events[0]), events[1..]);
    }
  }

  lemma CreatedSound(locked: bool, creator: Task)
    ensures Sound(Created(locked, creator))
  {
  }

  /** The tasks that ask, in order. */
  function Asking(events: seq<Event>): seq<Task> {
    if events == [] then []
    else (if events[0].Enter? then [events[0].g] else []) + Asking(events[1..])
  }

  /** Every request is on record, in order; so RunSound speaks of all of them. */
  lemma {:induction false} RunRecordsArrivals(st: State, events: seq<Event>)
    requires EnabledRun(st, events)
    ensures Run(st, events).arrivals == st.arrivals + Asking(events)
    decreases |events|
  {
    hide Step, Enabled;
    if events != [] {
      var next := Step(st, events[0]);
      StepRecords(st, events[0]);
      RunRecordsArrivals(next, events[1..]);
    }
  }

  lemma StepRecords(st: State, e: Event)
    requires Enabled(st, e)
    ensures Step(st, e).arrivals == st.arrivals + if e.Enter? then [e.g] else []
  {
  }

  /** Entering takes a lock that is free, and waits at one that is not. */
  lemma EnterTakesOrWaits(st: State, g: Task)
    requires Sound(st) && g !in st.queue
    ensures var s := Step(st, Enter(g));
            && s.isLocked
            && (!st.isLocked ==> s.owner == Some(g) && s.queue == [])
            && (st.isLocked ==> s.owner == st.owner && s.queue == st.queue + [g] && s.wake[g] == Reactor.NEVER)
  {
    StepSound(st, Enter(g));
    if st.isLocked { assert Step(st, Enter(g)).queue[|st.queue|] == g; }
  }

  /** The owner's leave frees a lock nobody waits for, and otherwise wakes the
      first who waits. */
  lemma ExitFreesOrWakes(st: State, g: Task)
    requires Sound(st) && st.owner == Some(g) && g !in st.queue
    ensures var s := Step(st, Exit(g));
            && s.owner == None && s.queue == st.queue
            && (st.queue == [] ==> !s.isLocked)
            && (st.queue != [] ==> s.isLocked && s.nextPending && s.wake[st.queue[0]] == Reactor.NOW)
  {
    StepSound(st, Exit(g));
  }

  /** Someone becomes the owner only when there is none, and then it is whoever
      asked first among those not yet let in; no one gets past a queue. */
  lemma GrantsInOrder(st: State, e: Event)
    requires Sound(st) && Proper(st, e) && |Step(st, e).grants| > |st.grants|
    ensures st.owner == None && Step(st, e).owner.Some?
    ensures Step(st, e).owner.value == Step(st, e).arrivals[|st.grants|]
    ensures st.queue != [] ==> Step(st, e).owner.value == st.queue[0]
  {
    StepSound(st, e);
    assert Step(st, e).arrivals == Step(st, e).grants + Step(st, e).queue;
  }

  /** The resumption a hand-over asks for always lets the head of the queue in. */
  lemma HandOverSucceeds(st: State)
    requires Sound(st) && st.nextPending
    ensures Enabled(st, Resume(st.queue[0])) && WakeIsDue(st, st.queue[0])
    ensures Step(st, Resume(st.queue[0])).owner == Some(st.queue[0])
  {
  }

  predicate WakeIsDue(st: State, g: Task) { g in st.wake && st.wake[g] <= Reactor.NOW }

  /** A hand-over is pending for g, and its wakeup is due. */
  predicate HandOverDue(st: State, g: Task) {
    st.nextPending && st.queue != [] && st.queue[0] == g && WakeIsDue(st, g)
  }

  lemma StepKeepsHandOver(st: State, e: Event, g: Task)
    requires Sound(st) && HandOverDue(st, g) && Proper(st, e) && e != Resume(g)
    ensures HandOverDue(Step(st, e), g)
  {
  }

  /** A pending hand-over stays pending and due through any run in which the one
      it is meant for is not resumed: arrivals, stray leaves and spurious wakeups. */
  lemma {:induction false} HandOverKept(st: State, events: seq<Event>, g: Task)
    requires Sound(st) && HandOverDue(st, g) && ProperRun(st, events) && Resume(g) !in events
    ensures EnabledRun(st, events) && HandOverDue(Run(st, events), g)
    decreases |events|
  {
    hide Sound, Enabled, Step, HandOverDue;
    if events != [] {
      StepSound(st, events[0]);
      StepKeepsHandOver(st, events[0], g);
      HandOverKept(Step(st, events[0]), events[1..], g);
    }
  }

  // ---------- Spurious wakeups ----------

  /** A resumption that is no hand-over to the task resumed. */
  predicate Spurious(st: State, e: Event) {
    e.Resume? && !(st.nextPending && st.queue != [] && st.queue[0] == e.g)
  }

  /** The events of a run without its spurious wakeups. */
  function Undisturbed(st: State, events: seq<Event>): seq<Event>
    requires EnabledRun(st, events)
    decreases |events|
  {
    if events == [] then []
    else (if Spurious(st, events[0]) then [] else [events[0]]) + Undisturbed(Step(st, events[0]), events[1..])
  }

  /** The same but for when tasks are to be woken. */
  predicate SameButWake(a: State, b: State) {
    a.(wake := b.wake) == b
  }

  lemma StepSameButWake(a: State, b: State, e: Event)
    requires SameButWake(a, b) && Enabled(a, e)
    ensures Enabled(b, e) && SameButWake(Step(a, e), Step(b, e))
    ensures Spurious(a, e) ==> SameButWake(Step(a, e), b)
  {
  }

  /** Spurious wakeups change nothing: the run without them is possible too, and
      ends with the same owner, queue, arrivals, grants and hand-over. */
  lemma {:induction false} SpuriousWakeupsHarmless(a: State, b: State, events: seq<Event>)
    requires SameButWake(a, b) && EnabledRun(a, events)
    ensures EnabledRun(b, Undisturbed(a, events))
    ensures SameButWake(Run(a, events), Run(b, Undisturbed(a, events)))
    decreases |events|
  {
    hide SameButWake, Enabled, Step, Spurious;
    if events != [] {
      var e, rest := events[0], events[1..];
      var next := Step(a, e);
      StepSameButWake(a, b, e);
      if Spurious(a, e) {
        SpuriousWakeupsHarmless(next, b, rest);
        assert Undisturbed(a, events) == Undisturbed(next, rest);
      } else {
        SpuriousWakeupsHarmless(next, Step(b, e), rest);
        var kept := Undisturbed(a, events);
        assert kept[0] == e && kept[1..] == Undisturbed(next, rest);
      }
    }
  }
}
