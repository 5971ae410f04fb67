/** MessageParser of msgproto.py: building the message tables, and the round
    trip from messages to frame bytes and back through the tables built. */
module MessageParser {
  import opened Bytes
  import opened VarInt
  import opened Messages
  import opened Framing
  import opened Crc16

  datatype Kind = Response | Command | Output

  /** A format string, with what lookup_params and lookup_output_params make of it. */
  datatype Definition = Definition(text: string, name: string, params: seq<(string, ParamType)>, outputTypes: seq<ParamType>)

  datatype Entry = Entry(definition: Definition, tag: int)

  datatype Tables = Tables(messages: seq<(int, Kind, string)>, byId: Table, byName: map<string, Format>, tagByFormat: map<string, int>)

  function KindOf(tag: int, commandTags: seq<int>, outputTags: seq<int>): Kind {
    if tag in commandTags then Command else if tag in outputTags then Output else Response
  }

  predicate SingleByteTag(tag: int) { -32 <= tag <= 95 }

  /** msgtag & 0x7f */
  function MessageId(tag: int): (id: int)
    ensures 0 <= id < 128
  {
    tag % 128
  }

  function FormatOf(e: Entry, kind: Kind): Format {
    var id := ToByte(MessageId(e.tag));
    if kind == Output then OutputFormat(id, e.definition.text, e.definition.outputTypes)
    else MessageFormat(id, e.definition.name, e.definition.params)
  }

  /** One turn of _init_messages; a refused tag has already been listed. */
  function Register(t: Tables, e: Entry, kind: Kind): Tables {
    var listed := t.(messages := t.messages + [(e.tag, kind, e.definition.text)]);
    if !SingleByteTag(e.tag) then listed
    else
      var f := FormatOf(e, kind);
      var filed := listed.(tagByFormat := t.tagByFormat[e.definition.text := e.tag], byId := t.byId[MessageId(e.tag) := f]);
      if kind == Output then filed else filed.(byName := t.byName[e.definition.name := f])
  }

  /** The tables after the loop, which stops at the first refused tag. */
  function RegisterAll(t: Tables, entries: seq<Entry>, commandTags: seq<int>, outputTags: seq<int>): Tables
    decreases |entries|
  {
    if entries == [] then t
    else
      var next := Register(t, entries[0], KindOf(entries[0].tag, commandTags, outputTags));
      if SingleByteTag(entries[0].tag) then RegisterAll(next, entries[1..], commandTags, outputTags) else next
  }

  predicate AllTagsSingleByte(entries: seq<Entry>) {
    forall e :: e in entries ==> SingleByteTag(e.tag)
  }

  class Parser {
    var messages: seq<(int, Kind, string)>
    var messagesById: Table
    var messagesByName: map<string, Format>
    var msgtagByFormat: map<string, int>

    constructor ()
      ensures State() == Tables([], map[], map[], map[])
    {
      messages, messagesById, messagesByName, msgtagByFormat := [], map[], map[], map[];
    }

    ghost function State(): Tables
      reads this
    {
      Tables(messages, messagesById, messagesByName, msgtagByFormat)
    }

    method InitMessages(entries: seq<Entry>, commandTags: seq<int>, outputTags: seq<int>) returns (accepted: bool)
      modifies this
      ensures State() == RegisterAll(old(State()), entries, commandTags, outputTags)
      ensures accepted <==> AllTagsSingleByte(entries)
    {
      for i := 0 to |entries|
        invariant RegisterAll(old(State()), entries, commandTags, outputTags)
               == RegisterAll(State(), entries[i..], commandTags, outputTags)
        invariant forall j :: 0 <= j < i ==> SingleByteTag(entries[j].tag)
      {
        var e := entries[i];
        var kind := Response;
        if e.tag in commandTags {
          kind := Command;
        } else if e.tag in outputTags {
          kind := Output;
        }
        assert entries[i..][0] == e && entries[i..][1..] == entries[i + 1..];
        messages := messages + [(e.tag, kind, e.definition.text)];
        if e.tag < -32 || e.tag > 95 {
          assert e in entries;
          return false;
        }
        msgtagByFormat := msgtagByFormat[e.definition.text := e.tag];
        var f := FormatOf(e, kind);
        messagesById := messagesById[MessageId(e.tag) := f];
        if kind != Output {
          messagesByName := messagesByName[e.definition.name := f];
        }
      }
      return true;
    }
  }

  // ---------- Tags and ids ----------

  /** A tag is accepted exactly when the integer coding gives it one byte, and
      that byte is its message id; so accepted tags that differ never collide. */
  lemma AcceptedTagIsItsCode(tag: int)
    ensures SingleByteTag(tag) <==> |Encode(tag)| == 1
    ensures SingleByteTag(tag) ==> Encode(tag) == [ToByte(MessageId(tag))]
  {
    EncodeLength(tag);
  }

  lemma IdsDistinct(a: int, b: int)
    requires SingleByteTag(a) && SingleByteTag(b) && a != b
    ensures MessageId(a) != MessageId(b)
  {
  }

  predicate DistinctTags(entries: seq<Entry>) {
    forall i, j :: 0 <= i < j < |entries| ==> entries[i].tag != entries[j].tag
  }

  lemma RegisterFiles(t: Tables, e: Entry, kind: Kind)
    requires SingleByteTag(e.tag)
    ensures Register(t, e, kind).byId == t.byId[MessageId(e.tag) := FormatOf(e, kind)]
  {
  }

  /** Registering other tags leaves an id alone. */
  lemma {:induction false} OthersKeepId(t: Tables, entries: seq<Entry>, commandTags: seq<int>, outputTags: seq<int>, tag: int)
    requires AllTagsSingleByte(entries) && SingleByteTag(tag)
    requires forall e :: e in entries ==> e.tag != tag
    requires MessageId(tag) in t.byId
    ensures var id := MessageId(tag);
            var u := RegisterAll(t, entries, commandTags, outputTags);
            id in u.byId && u.byId[id] == t.byId[id]
    decreases |entries|
  {
    hide MessageId, Register, KindOf;
    if entries != [] {
      IdsDistinct(entries[0].tag, tag);
      var kind := KindOf(entries[0].tag, commandTags, outputTags);
      RegisterFiles(t, entries[0], kind);
      var next := Register(t, entries[0], kind);
      OthersKeepId(next, entries[1..], commandTags, outputTags, tag);
    }
  }

  /** After an accepted initialisation with distinct tags every message is
      found under its id, and that format carries the id. */
  lemma {:induction false} RegisteredById(t: Tables, entries: seq<Entry>, commandTags: seq<int>, outputTags: seq<int>, i: nat)
    requires AllTagsSingleByte(entries) && DistinctTags(entries) && i < |entries|
    ensures var id := MessageId(entries[i].tag);
            var u := RegisterAll(t, entries, commandTags, outputTags);
            id in u.byId && u.byId[id] == FormatOf(entries[i], KindOf(entries[i].tag, commandTags, outputTags))
    decreases |entries|
  {
    hide MessageId, Register, KindOf;
    var kind := KindOf(entries[0].tag, commandTags, outputTags);
    var next := Register(t, entries[0], kind);
    RegisterFiles(t, entries[0], kind);
    if i == 0 {
      OthersKeepId(next, entries[1..], commandTags, outputTags, entries[0].tag);
    } else {
      RegisteredById(next, entries[1..], commandTags, outputTags, i - 1);
    }
  }

  // ---------- The other tables ----------

  /** What is filed for an entry: the id is the tag modulo 128. */
  lemma FormatSpelled(e: Entry, kind: Kind)
    ensures var f := FormatOf(e, kind);
            && f.msgid as int == e.tag % 128
            && (kind == Output ==> f.OutputFormat? && f.text == e.definition.text && f.types == e.definition.outputTypes)
            && (kind != Output ==> f.MessageFormat? && f.name == e.definition.name && f.params == e.definition.params)
  {
  }

  /** A tag listed as a command's is one even if it is listed as an output's too. */
  lemma KindSpelled(tag: int, commandTags: seq<int>, outputTags: seq<int>)
    ensures KindOf(tag, commandTags, outputTags) == Command <==> tag in commandTags
    ensures KindOf(tag, commandTags, outputTags) == Output <==> tag in outputTags && tag !in commandTags
  {
  }

  function Listing(entries: seq<Entry>, commandTags: seq<int>, outputTags: seq<int>): (r: seq<(int, Kind, string)>)
    ensures |r| == |entries|
    ensures forall i :: 0 <= i < |r| ==>
      r[i] == (entries[i].tag, KindOf(entries[i].tag, commandTags, outputTags), entries[i].definition.text)
  {
    seq(|entries|, i requires 0 <= i < |entries| =>
      (entries[i].tag, KindOf(entries[i].tag, commandTags, outputTags), entries[i].definition.text))
  }

  lemma ListedFirst(entries: seq<Entry>, commandTags: seq<int>, outputTags: seq<int>)
    requires entries != []
    ensures var l := Listing(entries, commandTags, outputTags);
            l == [l[0]] + Listing(entries[1..], commandTags, outputTags)
  {
    hide KindOf;
  }

  lemma RegisterLists(t: Tables, e: Entry, commandTags: seq<int>, outputTags: seq<int>)
    ensures Register(t, e, KindOf(e.tag, commandTags, outputTags)).messages
         == t.messages + [(e.tag, KindOf(e.tag, commandTags, outputTags), e.definition.text)]
  {
  }

  lemma ListsAssociate(a: seq<(int, Kind, string)>, x: (int, Kind, string), b: seq<(int, Kind, string)>)
    ensures (a + [x]) + b == a + ([x] + b) && a + [] == a
  {
  }

  /** The list of messages grows by all entries, in order. */
  lemma {:induction false} AllListed(t: Tables, entries: seq<Entry>, commandTags: seq<int>, outputTags: seq<int>)
    requires AllTagsSingleByte(entries)
    ensures RegisterAll(t, entries, commandTags, outputTags).messages == t.messages + Listing(entries, commandTags, outputTags)
    decreases |entries|
  {
    hide KindOf, Register, Listing;
    if entries == [] {
      assert t.messages + [] == t.messages;
    } else {
      var next := Register(t, entries[0], KindOf(entries[0].tag, commandTags, outputTags));
      AllListed(next, entries[1..], commandTags, outputTags);
      RegisterLists(t, entries[0], commandTags, outputTags);
      ListedFirst(entries, commandTags, outputTags);
      ListsAssociate(t.messages, Listing(entries, commandTags, outputTags)[0], Listing(entries[1..], commandTags, outputTags));
    }
  }

  /** A refused tag ends the initialisation; it is the last message listed. */
  lemma {:induction false} RefusedIsLast(t: Tables, entries: seq<Entry>, commandTags: seq<int>, outputTags: seq<int>, i: nat)
    requires i < |entries| && AllTagsSingleByte(entries[..i]) && !SingleByteTag(entries[i].tag)
    ensures RegisterAll(t, entries, commandTags, outputTags).messages
         == t.messages + Listing(entries[..i + 1], commandTags, outputTags)
    decreases |entries|
  {
    hide KindOf, Register, Listing;
    var next := Register(t, entries[0], KindOf(entries[0].tag, commandTags, outputTags));
    var listed := entries[..i + 1];
    RegisterLists(t, entries[0], commandTags, outputTags);
    ListedFirst(listed, commandTags, outputTags);
    ListsAssociate(t.messages, Listing(listed, commandTags, outputTags)[0], Listing(listed[1..], commandTags, outputTags));
    if i == 0 {
      assert listed[1..] == [];
    } else {
      assert entries[..i][0] == entries[0];
      assert entries[1..][..i - 1] == entries[..i][1..];
      RefusedIsLast(next, entries[1..], commandTags, outputTags, i - 1);
      assert entries[1..][..i] == listed[1..];
    }
  }

  /** Registering other messages leaves what is filed under a name and a text alone. */
  lemma {:induction false} OthersKeepNames(t: Tables, entries: seq<Entry>, commandTags: seq<int>, outputTags: seq<int>, e: Entry)
    requires AllTagsSingleByte(entries)
    requires forall f :: f in entries ==> f.definition.name != e.definition.name && f.definition.text != e.definition.text
    ensures var u := RegisterAll(t, entries, commandTags, outputTags);
            && (e.definition.name in t.byName ==> e.definition.name in u.byName && u.byName[e.definition.name] == t.byName[e.definition.name])
            && (e.definition.text in t.tagByFormat ==>
                  e.definition.text in u.tagByFormat && u.tagByFormat[e.definition.text] == t.tagByFormat[e.definition.text])
    decreases |entries|
  {
    hide KindOf, FormatOf;
    if entries != [] {
      OthersKeepNames(Register(t, entries[0], KindOf(entries[0].tag, commandTags, outputTags)), entries[1..], commandTags, outputTags, e);
    }
  }

  /** With distinct names and texts every message is found under its name, if it
      is a command or response, and its tag under its text. */
  lemma {:induction false} RegisteredByName(t: Tables, entries: seq<Entry>, commandTags: seq<int>, outputTags: seq<int>, i: nat)
    requires AllTagsSingleByte(entries) && i < |entries|
    requires forall j, k :: 0 <= j < k < |entries| ==>
      entries[j].definition.name != entries[k].definition.name && entries[j].definition.text != entries[k].definition.text
    ensures var u, e := RegisterAll(t, entries, commandTags, outputTags), entries[i];
            var kind := KindOf(e.tag, commandTags, outputTags);
            && (kind != Output ==> e.definition.name in u.byName && u.byName[e.definition.name] == FormatOf(e, kind))
            && e.definition.text in u.tagByFormat && u.tagByFormat[e.definition.text] == e.tag
    decreases |entries|
  {
    hide KindOf, FormatOf;
    var next := Register(t, entries[0], KindOf(entries[0].tag, commandTags, outputTags));
    if i == 0 {
      OthersKeepNames(next, entries[1..], commandTags, outputTags, entries[0]);
    } else {
      RegisteredByName(next, entries[1..], commandTags, outputTags, i - 1);
    }
  }

  // ---------- From messages to bytes and back ----------

  /** A frame's worth of messages, sent under a sequence number; an
      acknowledgement has none. */
  datatype Packet = Packet(seqno: int, calls: seq<Call>)

  predicate Deliverable(table: Table, p: Packet) {
    AllSendable(table, p.calls) && |CallsBytes(table, p.calls)| <= PAYLOAD_MAX
  }

  function PacketBytes(table: Table, p: Packet): (s: seq<byte>)
    requires Deliverable(table, p)
    ensures |s| >= MESSAGE_MIN
  {
    EncodeFrame(p.seqno, CallsBytes(table, p.calls))
  }

  /** A frame is accepted with its length whatever follows. Dumping it gives the
      same messages and parameters in order exactly when there are any, and it
      parses when there is one. */
  lemma PacketRoundTrip(table: Table, p: Packet, rest: seq<byte>)
    requires Deliverable(table, p)
    ensures CheckPacket(PacketBytes(table, p) + rest) == |PacketBytes(table, p)|
    ensures Dump(table, PacketBytes(table, p)) == Ok(AllDelivered(table, p.calls)) <==> p.calls != []
    ensures |p.calls| == 1 ==> ParsePacket(table, PacketBytes(table, p)) == Ok(Delivered(table, p.calls[0]))
    ensures |p.calls| > 1 ==> ParsePacket(table, PacketBytes(table, p)) == Err(ExtraData)
  {
    hide Crc, CheckPacket, Sendable, DumpFrom, ParsePacket, Delivered;
    var cmd := CallsBytes(table, p.calls);
    FrameAccepted(p.seqno, cmd, rest);
    var s := PacketBytes(table, p);
    var header := s[..2];
    var trailer := Crc(Header(p.seqno, cmd)) + [MESSAGE_SYNC];
    assert s == header + cmd + trailer;
    DumpRoundTrip(table, p.calls, header, trailer);
    if p.calls != [] { ParsePacketRoundTrip(table, p.calls, header, trailer); }
  }

  /** A frame without messages, as every acknowledgement is, is accepted too; but
      its first CRC byte is then taken for a message id. Unless that is the id of
      a message, dump and parse report one unknown message; otherwise parse fails. */
  lemma AcknowledgementMisread(table: Table, seqno: int, rest: seq<byte>)
    ensures var s := EncodeFrame(seqno, []);
            && |s| == 5 && CheckPacket(s + rest) == 5 && s[2] == Crc(Header(seqno, []))[0]
            && (s[2] as int !in table ==> Dump(table, s) == Ok([Unknown(s[2], s)]) && ParsePacket(table, s) == Ok(Unknown(s[2], s)))
            && (s[2] as int in table ==> ParsePacket(table, s).Err?)
  {
    hide Crc, CheckPacket, ParseParam;
    FrameAccepted(seqno, [], rest);
    var s := EncodeFrame(seqno, []);
    assert s[2] == Crc(Header(seqno, []))[0];
  }

  /** From any tables an accepted initialisation with distinct tags builds on, every
      registered command or response whose parameters survive can be sent. */
  lemma RegisteredSendable(t: Tables, entries: seq<Entry>, commandTags: seq<int>, outputTags: seq<int>, i: nat, ps: seq<Param>)
    requires AllTagsSingleByte(entries) && DistinctTags(entries) && i < |entries|
    requires KindOf(entries[i].tag, commandTags, outputTags) != Output
    requires ParamsSurvive(entries[i].definition.params, ps)
    ensures var u := RegisterAll(t, entries, commandTags, outputTags);
            var f := FormatOf(entries[i], KindOf(entries[i].tag, commandTags, outputTags));
            Sendable(u.byId, Call(f, ps))
  {
    hide RegisterAll, MessageId;
    RegisteredById(t, entries, commandTags, outputTags, i);
  }
}
