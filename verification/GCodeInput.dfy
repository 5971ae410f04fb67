/** The G-code input queue (class GCodeIO of gcode.py): reassembling lines from
    reads, queueing them while a batch is being processed, and flow control.
    _process_data is split where it hands a batch to _process_commands, during
    which it can be entered again by further reads. */
module GCodeInput {
  import opened Bytes
  import opened Text

  const QUEUE_LIMIT := 20

  /** The fields, the batch _process_commands is working on, and a record of the
      characters read and the batches handed over. */
  datatype State = State(
    partialInput: string, pending: seq<string>, isProcessing: bool, reading: bool,
    running: Option<seq<string>>, received: string, handed: seq<seq<string>>)

  const INITIAL := State("", [], false, true, None, "", [])

  datatype Event = Data(text: string) | BatchDone

  /** Reads happen while the descriptor is registered. */
  predicate Enabled(st: State, e: Event) {
    match e
    case Data(_) => st.reading
    case BatchDone => st.running.Some?
  }

  /** Splits what was read into lines; the last one stays behind unfinished. */
  function Reassemble(st: State, text: string): State {
    var lines := Lines(text);
    var joined := [st.partialInput + lines[0]] + lines[1..];
    st.(partialInput := joined[|joined| - 1], pending := st.pending + joined[..|joined| - 1],
        received := st.received + text)
  }

  /** The processing loop: the next batch, or the end of processing. */
  function NextBatch(st: State): State {
    if st.pending != [] then st.(running := Some(st.pending), pending := [], handed := st.handed + [st.pending])
    else st.(running := None, isProcessing := false, reading := true)
  }

  function Step(st: State, e: Event): State {
    match e
    case Data(text) =>
      var read := Reassemble(st, text);
      if read.isProcessing then
        if |read.pending| >= QUEUE_LIMIT then read.(reading := false) else read
      else NextBatch(read.(isProcessing := true))
    case BatchDone => NextBatch(st)
  }

  class GCodeIO {
    var partialInput: string
    var pendingCommands: seq<string>
    var isProcessingData: bool
    var fdRegistered: bool
    ghost var running: Option<seq<string>>
    ghost var received: string
    ghost var handed: seq<seq<string>>

    ghost function Fields(): State
      reads this
    {
      State(partialInput, pendingCommands, isProcessingData, fdRegistered, running, received, handed)
    }

    constructor ()
      ensures Fields() == INITIAL
    {
      partialInput, pendingCommands := "", [];
      isProcessingData, fdRegistered := false, true;
      running, received, handed := None, "", [];
    }

    /** _process_data up to the first batch it hands over, if it does. */
    method ProcessData(data: string) returns (batch: Option<seq<string>>)
      requires Enabled(Fields(), Data(data))
      modifies this
      ensures Fields() == Step(old(Fields()), Data(data))
      ensures batch == if old(isProcessingData) then None else running
    {
      hide Reassemble;
      ReadLines(data);
      if isProcessingData {
        if |pendingCommands| >= QUEUE_LIMIT {
          fdRegistered := false;
        }
        return None;
      }
      isProcessingData := true;
      batch := TakeBatch();
    }

    /** Its first part: the lines completed by the data read. */
    method ReadLines(data: string)
      modifies this`partialInput, this`pendingCommands, this`received
      ensures Fields() == Reassemble(old(Fields()), data)
    {
      hide Lines;
      received := received + data;
      var lines := Lines(data);
      lines := lines[0 := partialInput + lines[0]];
      assert lines == [partialInput + Lines(data)[0]] + Lines(data)[1..];
      partialInput := lines[|lines| - 1];
      lines := lines[..|lines| - 1];
      pendingCommands := pendingCommands + lines;
    }

    /** The rest of _process_data, when _process_commands returns. */
    method FinishBatch() returns (batch: Option<seq<string>>)
      requires Enabled(Fields(), BatchDone)
      modifies this
      ensures Fields() == Step(old(Fields()), BatchDone) && batch == running
    {
      batch := TakeBatch();
    }

    method TakeBatch() returns (batch: Option<seq<string>>)
      modifies this
      ensures Fields() == NextBatch(old(Fields())) && batch == running
    {
      if pendingCommands != [] {
        batch := Some(pendingCommands);
        pendingCommands := [];
        running, handed := batch, handed + [batch.value];
        return;
      }
      running := None;
      isProcessingData := false;
      if !fdRegistered {
        fdRegistered := true;
      }
      return None;
    }
  }

  // ---------- What every run keeps ----------

  /** The lines of a text that have ended. */
  function CompleteLines(s: string): seq<string> { Lines(s)[..|Lines(s)| - 1] }

  function Unfinished(s: string): string { Lines(s)[|Lines(s)| - 1] }

  function Flatten(batches: seq<seq<string>>): seq<string> {
    if batches == [] then [] else Flatten(batches[..|batches| - 1]) + batches[|batches| - 1]
  }

  predicate Sound(st: State) {
    && Flatten(st.handed) + st.pending == CompleteLines(st.received)
    && st.partialInput == Unfinished(st.received)
    && (st.isProcessing <==> st.running.Some?)
    && (st.running.Some? ==> st.running.value != [] && st.handed != [] && st.handed[|st.handed| - 1] == st.running.value)
    && (!st.isProcessing ==> st.pending == [])
    && (!st.reading ==> st.isProcessing)
    && (st.reading ==> |st.pending| < QUEUE_LIMIT)
  }

  lemma ReassembleSound(st: State, text: string)
    requires Flatten(st.handed) + st.pending == CompleteLines(st.received) && st.partialInput == Unfinished(st.received)
    ensures var s := Reassemble(st, text);
            Flatten(s.handed) + s.pending == CompleteLines(s.received) && s.partialInput == Unfinished(s.received)
  {
    hide Lines, Flatten;
    LinesConcat(st.received, text);
    var joined := [st.partialInput + Lines(text)[0]] + Lines(text)[1..];
    var n := |joined| - 1;
    assert Lines(st.received + text) == CompleteLines(st.received) + joined;
    assert CompleteLines(st.received + text) == CompleteLines(st.received) + joined[..n];
    assert Flatten(st.handed) + (st.pending + joined[..n]) == (Flatten(st.handed) + st.pending) + joined[..n];
  }

  lemma NextBatchSound(st: State)
    requires Flatten(st.handed) + st.pending == CompleteLines(st.received) && st.partialInput == Unfinished(st.received)
    requires st.isProcessing
    ensures Sound(NextBatch(st))
  {
    hide CompleteLines, Unfinished;
    if st.pending != [] {
      var h := st.handed + [st.pending];
      assert h[..|h| - 1] == st.handed;
      assert Flatten(h) + [] == Flatten(st.handed) + st.pending;
    }
  }

  lemma StepSound(st: State, e: Event)
    requires Sound(st) && Enabled(st, e)
    ensures Sound(Step(st, e))
  {
    hide CompleteLines, Unfinished, Flatten;
    match e {
      case Data(text) =>
        ReassembleSound(st, text);
        var read := Reassemble(st, text);
        NextBatchSound(read.(isProcessing := true));
      case BatchDone => NextBatchSound(st);
    }
  }

  predicate EnabledRun(st: State, events: seq<Event>)
    decreases |events|
  {
    events == [] || (Enabled(st, events[0]) && EnabledRun(Step(st, events[0]), events[1..]))
  }

  function Run(st: State, events: seq<Event>): State
    decreases |events|
  {
    if events == [] then st else Run(Step(st, events[0]), events[1..])
  }

  function Read(events: seq<Event>): string {
    if events == [] then ""
    else (if events[0].Data? then events[0].text else "") + Read(events[1..])
  }

  lemma StepReceives(st: State, e: Event)
    ensures Step(st, e).received == st.received + (if e.Data? then e.text else "")
  {
  }

  lemma {:induction false} RunSound(st: State, events: seq<Event>)
    requires Sound(st) && EnabledRun(st, events)
    ensures Sound(Run(st, events)) && Run(st, events).received == st.received + Read(events)
    decreases |events|
  {
    hide Sound, Step, Enabled;
    if events == [] {
      assert st.received + "" == st.received;
    } else {
      StepSound(st, events[0]);
      StepReceives(st, events[0]);
      var text := if events[0].Data? then events[0].text else "";
      RunSound(Step(st, events[0]), events[1..]);
      ThreeTexts(st.received, text, Read(events[1..]));
    }
  }

  lemma ThreeTexts(a: string, b: string, c: string)
    ensures (a + b) + c == a + (b + c)
  {
  }

  lemma InitiallySound()
    ensures Sound(INITIAL)
  {
    assert Lines("") == [""];
    assert Flatten([]) + [] == [];
  }

  /** However the characters come in, and whenever they come: the batches handed
      over and the lines still pending are the complete lines received, each
      once and in order, and reading stops only while a batch runs. */
  lemma EveryLineOnce(events: seq<Event>)
    requires EnabledRun(INITIAL, events)
    ensures var st := Run(INITIAL, events);
            && Flatten(st.handed) + st.pending == CompleteLines(Read(events))
            && st.partialInput == Unfinished(Read(events))
            && (st.running == None ==> st.pending == [] && st.reading && Flatten(st.handed) == CompleteLines(Read(events)))
  {
    hide CompleteLines, Unfinished, Flatten, Read;
    InitiallySound();
    RunSound(INITIAL, events);
    assert "" + Read(events) == Read(events);
    var st := Run(INITIAL, events);
    assert st.pending == [] ==> Flatten(st.handed) + st.pending == Flatten(st.handed);
  }

  // ---------- Single steps ----------

  lemma UnfinishedLine(s: string)
    ensures '\n' !in Unfinished(s)
  {
  }

  /** A read completes the lines of what was unfinished and the data together. */
  lemma ReadLinesOf(st: State, text: string)
    requires st.partialInput == Unfinished(st.received)
    ensures var s := Reassemble(st, text);
            && s.pending == st.pending + CompleteLines(st.partialInput + text)
            && s.partialInput == Unfinished(st.partialInput + text)
  {
    UnfinishedLine(st.received);
    LinesConcat(st.partialInput, text);
    LinesFirst(st.partialInput, "");
    OneLineBefore(st.partialInput, Lines(text));
  }

  lemma OneLineBefore(line: string, lines: seq<string>)
    requires lines != []
    ensures Glue([line], lines) == [line + lines[0]] + lines[1..]
  {
  }

  /** A read during a batch queues the lines, and reading stops exactly when
      twenty or more are queued. */
  lemma ReadWhileRunning(st: State, text: string)
    requires Sound(st) && st.reading && st.isProcessing
    ensures var s := Step(st, Data(text));
            && s.running == st.running && s.handed == st.handed && s.isProcessing
            && s.pending == st.pending + CompleteLines(st.partialInput + text)
            && (s.reading <==> |s.pending| < 20)
  {
    hide Reassemble, CompleteLines, Unfinished;
    ReadLinesOf(st, text);
    ReadKeeps(st, text);
  }

  lemma ReadKeeps(st: State, text: string)
    ensures var s := Reassemble(st, text);
            s.running == st.running && s.handed == st.handed && s.isProcessing == st.isProcessing && s.reading == st.reading
  {
  }

  /** A read at rest hands all lines it completes over as one batch, if there are any. */
  lemma ReadAtRest(st: State, text: string)
    requires Sound(st) && st.reading && !st.isProcessing
    ensures var s, lines := Step(st, Data(text)), CompleteLines(st.partialInput + text);
            && s.pending == [] && s.reading
            && (lines == [] ==> s.running == None && !s.isProcessing && s.handed == st.handed)
            && (lines != [] ==> s.running == Some(lines) && s.isProcessing && s.handed == st.handed + [lines])
  {
    hide Reassemble, CompleteLines, Unfinished;
    ReadLinesOf(st, text);
    ReadKeeps(st, text);
    assert [] + CompleteLines(st.partialInput + text) == CompleteLines(st.partialInput + text);
  }

  /** When a batch is done all queued lines are the next, with reading as it is; if
      there are none, processing ends and reading goes on. */
  lemma BatchEnds(st: State)
    requires Sound(st) && st.isProcessing
    ensures var s := Step(st, BatchDone);
            && s.pending == [] && s.partialInput == st.partialInput
            && (st.pending == [] ==> s.running == None && !s.isProcessing && s.reading && s.handed == st.handed)
            && (st.pending != [] ==>
                  s.running == Some(st.pending) && s.isProcessing && s.reading == st.reading && s.handed == st.handed + [st.pending])
  {
  }

  // ---------- The queue is bounded ----------

  lemma {:induction false} FewLines(text: string)
    ensures |Lines(text)| <= |text| + 1
  {
    if text != "" { FewLines(text[1..]); }
  }

  predicate ShortReads(events: seq<Event>, limit: nat) {
    forall e :: e in events && e.Data? ==> |e.text| <= limit
  }

  /** With reads of at most `limit` characters the queue never holds more than a
      full one plus one read. */
  lemma {:induction false} QueueBounded(st: State, events: seq<Event>, limit: nat)
    requires Sound(st) && EnabledRun(st, events) && ShortReads(events, limit)
    requires |st.pending| < QUEUE_LIMIT + limit
    ensures |Run(st, events).pending| < QUEUE_LIMIT + limit
    decreases |events|
  {
    hide Lines, CompleteLines, Unfinished, Flatten;
    if events != [] {
      StepSound(st, events[0]);
      assert events[0] in events;
      if events[0].Data? { FewLines(events[0].text); }
      assert forall e :: e in events[1..] ==> e in events;
      QueueBounded(Step(st, events[0]), events[1..], limit);
    }
  }
}
