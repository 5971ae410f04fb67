/** The read, check and resynchronise loop of parsedump.py. */
module ParseDump {
  import opened Bytes
  import opened Messages
  import opened Framing
  import opened MessageParser

  /** What the scanner does with the bytes at the front of its buffer. */
  datatype Event = Frame(bytes: seq<byte>) | Skipped(b: byte)

  datatype Scanned = Scanned(events: seq<Event>, leftover: seq<byte>)

  function EventBytes(e: Event): seq<byte> {
    match e
    case Frame(f) => f
    case Skipped(b) => [b]
  }

  /** The verdict at the front of the buffer, and the buffer after it. */
  function Next(s: seq<byte>): (r: Option<(Event, seq<byte>)>)
    ensures r.Some? ==> |r.value.1| < |s| && EventBytes(r.value.0) + r.value.1 == s
  {
    var l := CheckPacket(s);
    if l == 0 then None
    else if l < 0 then Some((Skipped(s[0]), s[1..]))
    else Some((Frame(s[..l]), s[l..]))
  }

  /** One scan of a whole stream. */
  function Scan(s: seq<byte>): Scanned
    decreases |s|
  {
    match Next(s)
    case None => Scanned([], s)
    case Some((event, rest)) =>
      var more := Scan(rest);
      Scanned([event] + more.events, more.leftover)
  }

  /** The lines written for the frames, up to the first whose dump fails. */
  datatype Printout = Printout(lines: seq<seq<Parsed>>, crashed: bool)

  function Print(table: Table, events: seq<Event>): Printout {
    if events == [] then Printout([], false)
    else
      match events[0]
      case Skipped(_) => Print(table, events[1..])
      case Frame(f) =>
        match Dump(table, f)
        case Err(_) => Printout([], true)
        case Ok(line) =>
          var more := Print(table, events[1..]);
          Printout([line] + more.lines, more.crashed)
  }

  /** A printout with lines already written in front of it. */
  function Ahead(lines: seq<seq<Parsed>>, p: Printout): Printout {
    Printout(lines + p.lines, p.crashed)
  }

  lemma Printed(lines: seq<seq<Parsed>>, p: Printout)
    ensures Ahead([], p) == p && Ahead(lines, Printout([], p.crashed)) == Printout(lines, p.crashed)
  {
    assert [] + p.lines == p.lines && lines + [] == lines;
  }

  lemma AheadAhead(a: seq<seq<Parsed>>, b: seq<seq<Parsed>>, p: Printout)
    ensures Ahead(a, Ahead(b, p)) == Ahead(a + b, p)
  {
    assert a + (b + p.lines) == (a + b) + p.lines;
  }

  lemma PrintFront(table: Table, events: seq<Event>)
    ensures Print(table, []) == Printout([], false)
    ensures events != [] && events[0].Skipped? ==> Print(table, events) == Print(table, events[1..])
    ensures events != [] && events[0].Frame? ==>
              Print(table, events) == match Dump(table, events[0].bytes)
                case Err(_) => Printout([], true)
                case Ok(line) => Ahead([line], Print(table, events[1..]))
  {
  }

  /** The bytes read before the first empty read, which ends the loop. */
  function Received(chunks: seq<seq<byte>>): seq<byte> {
    if chunks == [] || chunks[0] == [] then [] else chunks[0] + Received(chunks[1..])
  }

  // ---------- Scanning in pieces ----------

  lemma NextStable(s: seq<byte>, more: seq<byte>)
    requires Next(s).Some?
    ensures Next(s + more) == Some((Next(s).value.0, Next(s).value.1 + more))
  {
    hide CheckPacket;
    VerdictStable(s, more);
    var l := CheckPacket(s);
    if l < 0 {
      assert s != [] by { EmptyWaits(s); }
      assert (s + more)[1..] == s[1..] + more;
    } else {
      assert (s + more)[..l] == s[..l] && (s + more)[l..] == s[l..] + more;
    }
  }

  lemma EmptyWaits(s: seq<byte>)
    ensures CheckPacket(s) != 0 ==> s != []
  {
  }

  lemma {:induction false} ScanAppend(s: seq<byte>, more: seq<byte>)
    ensures var first := Scan(s);
            var second := Scan(first.leftover + more);
            Scan(s + more) == Scanned(first.events + second.events, second.leftover)
    decreases |s|
  {
    hide Next, EventBytes;
    if Next(s) == None {
      assert [] + Scan(s + more).events == Scan(s + more).events;
    } else {
      NextStable(s, more);
      var (event, rest) := Next(s).value;
      ScanAppend(rest, more);
      var second := Scan(Scan(rest).leftover + more);
      assert [event] + (Scan(rest).events + second.events) == ([event] + Scan(rest).events) + second.events;
    }
  }

  lemma {:induction false} PrintAppend(table: Table, a: seq<Event>, b: seq<Event>)
    ensures var pa, pb := Print(table, a), Print(table, b);
            Print(table, a + b) == if pa.crashed then pa else Printout(pa.lines + pb.lines, pb.crashed)
    decreases |a|
  {
    hide Dump;
    if a == [] {
      assert a + b == b;
      assert [] + Print(table, b).lines == Print(table, b).lines;
    } else {
      assert (a + b)[1..] == a[1..] + b;
      PrintAppend(table, a[1..], b);
    }
  }

  /** A frame whose dump fails ends the program: what came before it is printed. */
  lemma {:induction false} FailureEndsPrint(table: Table, a: seq<Event>, f: seq<byte>, b: seq<Event>)
    requires !Print(table, a).crashed && Dump(table, f).Err?
    ensures Print(table, a + [Frame(f)] + b) == Printout(Print(table, a).lines, true)
  {
    hide Dump;
    assert a + [Frame(f)] + b == a + ([Frame(f)] + b);
    PrintAppend(table, a, [Frame(f)] + b);
    assert Print(table, [Frame(f)] + b) == Printout([], true);
    assert Print(table, a).lines + [] == Print(table, a).lines;
  }

  // ---------- The program ----------

  /** The inner loop: everything the buffer allows is printed and dropped. */
  method DrainBuffer(table: Table, buffer: seq<byte>)
    returns (lines: seq<seq<Parsed>>, data: seq<byte>, crashed: bool)
    ensures Print(table, Scan(buffer).events) == Printout(lines, crashed)
    ensures !crashed ==> data == Scan(buffer).leftover
  {
    hide CheckPacket, Dump, Print, EventBytes;
    lines, data, crashed := [], buffer, false;
    Printed([], Print(table, Scan(data).events));
    while true
      invariant !crashed
      invariant Print(table, Scan(buffer).events) == Ahead(lines, Print(table, Scan(data).events))
      invariant Scan(buffer).leftover == Scan(data).leftover
      decreases |data|
    {
      var l := CheckPacket(data);
      PrintFront(table, Scan(data).events);
      if l == 0 {
        Printed(lines, Printout([], false));
        break;
      }
      if l < 0 {
        data := data[1..];
        continue;
      }
      var msgs := DumpFrame(table, data[..l]);
      data := data[l..];
      if msgs.Err? {
        Printed(lines, Printout([], true));
        return lines, data, true;
      }
      AheadAhead(lines, [msgs.value], Print(table, Scan(data).events));
      lines := lines + [msgs.value];
    }
  }

  lemma ScanNothing(table: Table)
    ensures Scan([]) == Scanned([], []) && Print(table, Scan([]).events) == Printout([], false)
  {
    EmptyWaits([]);
    hide CheckPacket, Dump;
  }

  method Run(table: Table, chunks: seq<seq<byte>>)
    returns (lines: seq<seq<Parsed>>, data: seq<byte>, crashed: bool)
    ensures Print(table, Scan(Received(chunks)).events) == Printout(lines, crashed)
    ensures !crashed ==> data == Scan(Received(chunks)).leftover
  {
    hide CheckPacket, Dump, Scan, Print;
    lines, data, crashed := [], [], false;
    ghost var read: seq<byte> := [];
    assert [] + Received(chunks) == Received(chunks);
    ScanNothing(table);
    for i := 0 to |chunks|
      invariant Received(chunks) == read + Received(chunks[i..])
      invariant Print(table, Scan(read).events) == Printout(lines, false)
      invariant data == Scan(read).leftover && !crashed
    {
      var newdata := chunks[i];
      if newdata == [] {
        assert read + [] == read;
        return;
      }
      assert chunks[i..][1..] == chunks[i + 1..];
      assert read + (newdata + Received(chunks[i + 1..])) == (read + newdata) + Received(chunks[i + 1..]);
      ghost var before := Scan(read);
      ScanAppend(read, newdata);
      PrintAppend(table, before.events, Scan(data + newdata).events);
      var more, rest, failed := DrainBuffer(table, data + newdata);
      lines, data, crashed := lines + more, rest, failed;
      read := read + newdata;
      if crashed {
        ScanAppend(read, Received(chunks[i + 1..]));
        PrintAppend(table, Scan(read).events, Scan(Scan(read).leftover + Received(chunks[i + 1..])).events);
        return;
      }
    }
    assert read + [] == read;
  }

  // ---------- What the scan keeps ----------

  function AllBytes(events: seq<Event>): seq<byte> {
    if events == [] then [] else EventBytes(events[0]) + AllBytes(events[1..])
  }

  /** No byte is lost, repeated or reordered; every frame is a frame on its own;
      and what is left over is shorter than a frame. */
  lemma {:induction false} ScanKeepsBytes(s: seq<byte>)
    ensures AllBytes(Scan(s).events) + Scan(s).leftover == s
    ensures forall e :: e in Scan(s).events && e.Frame? ==> CheckPacket(e.bytes) == |e.bytes|
    ensures |Scan(s).leftover| < MESSAGE_MAX
    decreases |s|
  {
    hide CheckPacket, Next, EventBytes;
    NextVerdict(s);
    if Next(s).Some? {
      ScanKeepsBytes(Next(s).value.1);
    } else {
      assert [] + s == s;
    }
  }

  lemma NextVerdict(s: seq<byte>)
    ensures Next(s) == None ==> |s| < MESSAGE_MAX
    ensures Next(s).Some? && Next(s).value.0.Frame? ==>
              CheckPacket(Next(s).value.0.bytes) == |Next(s).value.0.bytes|
  {
    hide CheckPacket;
    if CheckPacket(s) == 0 { WaitingIsShort(s); }
    if CheckPacket(s) > 0 { AcceptedAlone(s); }
  }

  function AllSkipped(s: seq<byte>): seq<Event> {
    if s == [] then [] else [Skipped(s[0])] + AllSkipped(s[1..])
  }

  /** Bytes that cannot start a frame are dropped one at a time, and the scan
      goes on as if they had not been there. */
  lemma {:induction false} NoiseSkipped(noise: seq<byte>, s: seq<byte>)
    requires forall i :: 0 <= i < |noise| ==> !(MESSAGE_MIN <= noise[i] as int <= MESSAGE_MAX)
    requires |s| >= MESSAGE_MIN
    ensures Scan(noise + s).leftover == Scan(s).leftover
    ensures Scan(noise + s).events == AllSkipped(noise) + Scan(s).events
    decreases |noise|
  {
    if noise == [] {
      assert noise + s == s;
      assert AllSkipped(noise) + Scan(s).events == Scan(s).events;
    } else {
      NoiseRefused(noise + s);
      hide CheckPacket;
      assert (noise + s)[1..] == noise[1..] + s;
      NoiseSkipped(noise[1..], s);
      assert [Skipped(noise[0])] + (AllSkipped(noise[1..]) + Scan(s).events) == AllSkipped(noise) + Scan(s).events;
    }
  }

  lemma NoiseRefused(s: seq<byte>)
    requires |s| >= MESSAGE_MIN && !(MESSAGE_MIN <= s[0] as int <= MESSAGE_MAX)
    ensures CheckPacket(s) == -1
  {
  }

  // ---------- End to end ----------

  predicate AllDeliverable(table: Table, packets: seq<Packet>) {
    forall p :: p in packets ==> Deliverable(table, p)
  }

  /** The bytes a sender puts on the line for a sequence of packets. */
  function Sent(table: Table, packets: seq<Packet>): seq<byte>
    requires AllDeliverable(table, packets)
  {
    if packets == [] then [] else PacketBytes(table, packets[0]) + Sent(table, packets[1..])
  }

  function Expected(table: Table, packets: seq<Packet>): seq<seq<Parsed>>
    requires AllDeliverable(table, packets)
  {
    assert packets != [] ==> Deliverable(table, packets[0]);
    if packets == [] then [] else [AllDelivered(table, packets[0].calls)] + Expected(table, packets[1..])
  }

  function FramesOf(table: Table, packets: seq<Packet>): seq<Event>
    requires AllDeliverable(table, packets)
  {
    if packets == [] then [] else [Frame(PacketBytes(table, packets[0]))] + FramesOf(table, packets[1..])
  }

  /** Packets sent one after the other are scanned as just these frames, in
      order, with nothing skipped and nothing left, acknowledgements included. */
  lemma {:induction false} SentIsScanned(table: Table, packets: seq<Packet>)
    requires AllDeliverable(table, packets)
    ensures Scan(Sent(table, packets)) == Scanned(FramesOf(table, packets), [])
    decreases |packets|
  {
    hide CheckPacket, Dump, Deliverable, PacketBytes;
    if packets == [] {
      EmptyWaits([]);
    } else {
      var f, rest := PacketBytes(table, packets[0]), Sent(table, packets[1..]);
      PacketRoundTrip(table, packets[0], rest);
      assert (f + rest)[..|f|] == f && (f + rest)[|f|..] == rest;
      SentIsScanned(table, packets[1..]);
    }
  }

  predicate NoneEmpty(packets: seq<Packet>) {
    forall p :: p in packets ==> p.calls != []
  }

  lemma {:induction false} FramesArePrinted(table: Table, packets: seq<Packet>)
    requires AllDeliverable(table, packets)
    ensures Print(table, FramesOf(table, packets)) == Printout(Expected(table, packets), false) <==> NoneEmpty(packets)
    decreases |packets|
  {
    hide Dump, Deliverable, PacketBytes, AllDelivered;
    if packets != [] {
      PacketRoundTrip(table, packets[0], []);
      DeliverableSendable(table, packets[0]);
      FramesArePrinted(table, packets[1..]);
      var frames := FramesOf(table, packets);
      PrintFront(table, frames);
      assert frames[1..] == FramesOf(table, packets[1..]);
      assert NoneEmpty(packets) <==> packets[0].calls != [] && NoneEmpty(packets[1..]);
      if Dump(table, frames[0].bytes).Ok? {
        var line, more := Dump(table, frames[0].bytes).value, Print(table, frames[1..]);
        FirstLine(line, more.lines, AllDelivered(table, packets[0].calls), Expected(table, packets[1..]));
      }
    }
  }

  lemma DeliverableSendable(table: Table, p: Packet)
    requires Deliverable(table, p)
    ensures AllSendable(table, p.calls)
  {
  }

  lemma FirstLine(a: seq<Parsed>, more: seq<seq<Parsed>>, b: seq<Parsed>, rest: seq<seq<Parsed>>)
    ensures [a] + more == [b] + rest <==> a == b && more == rest
  {
    if [a] + more == [b] + rest {
      assert ([a] + more)[0] == a && ([a] + more)[1..] == more;
      assert ([b] + rest)[0] == b && ([b] + rest)[1..] == rest;
    }
  }

  /** Read in any pieces, packets that all carry messages come out of Run as the
      messages that went in, in order, without failure; and only such packets do. */
  lemma SentIsPrintedIff(table: Table, packets: seq<Packet>)
    requires AllDeliverable(table, packets)
    ensures var scanned := Scan(Sent(table, packets));
            && (Print(table, scanned.events) == Printout(Expected(table, packets), false) <==> NoneEmpty(packets))
            && scanned.leftover == []
  {
    SentIsScanned(table, packets);
    FramesArePrinted(table, packets);
  }
}
