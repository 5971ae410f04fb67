/** Typed messages of msgproto.py: parameter types, message formats, the
    message table, and the walk over a frame's messages. A format string is
    represented by the name and parameter types looked up from it. */
module Messages {
  import opened Bytes
  import opened VarInt

  // ---------- Parameters ----------

  /** Enumerations keep their dictionary order; a Python dict has distinct keys. */
  datatype ParamType =
    | IntType(signed: bool)
    | StringType
    | EnumType(signed: bool, enums: seq<(string, int)>)

  /** UnknownSymbol(v) is the text "?v" given for a number no symbol stands for. */
  datatype Param = Number(i: int) | Text(text: seq<byte>) | Symbol(name: string) | UnknownSymbol(v: int)

  datatype EncodeError = UnknownEnumeration | TypeMismatch | MissingParam

  function Lookup(enums: seq<(string, int)>, name: string): Option<int> {
    if enums == [] then None
    else if enums[0].0 == name then Some(enums[0].1)
    else Lookup(enums[1..], name)
  }

  /** The reversed dictionary: of several symbols with one value, the last wins. */
  function Reverse(enums: seq<(string, int)>, v: int): Option<string> {
    if enums == [] then None
    else if enums[|enums| - 1].1 == v then Some(enums[|enums| - 1].0)
    else Reverse(enums[..|enums| - 1], v)
  }

  predicate DistinctNames(enums: seq<(string, int)>) {
    forall i, j :: 0 <= i < j < |enums| ==> enums[i].0 != enums[j].0
  }

  predicate WellFormed(t: ParamType) {
    t.EnumType? ==> DistinctNames(t.enums)
  }

  /** A string's length is sent in one byte. */
  predicate ShortText(p: Param) {
    p.Text? ==> |p.text| <= 255
  }

  function EncodeParam(t: ParamType, p: Param): (r: Result<seq<byte>, EncodeError>)
    requires ShortText(p)
  {
    match (t, p)
    case (IntType(_), Number(i)) => Ok(Encode(i))
    case (StringType, Text(text)) => Ok([ToByte(|text|)] + text)
    case (EnumType(_, enums), Symbol(name)) =>
      (match Lookup(enums, name)
       case Some(v) => Ok(Encode(v))
       case None => Err(UnknownEnumeration))
    case (EnumType(_, _), _) => Err(UnknownEnumeration)
    case _ => Err(TypeMismatch)
  }

  function Min(a: nat, b: nat): nat { if a < b then a else b }

  /** Slices clamp to the buffer, as Python's do; only reading a byte can fail. */
  function ParseParam(t: ParamType, s: seq<byte>, pos: nat): (r: Result<(Param, nat), ParseError>)
    ensures r.Ok? ==> pos < r.value.1
  {
    match t
    case IntType(signed) =>
      (match Parse(signed, s, pos)
       case Ok((v, next)) => Ok((Number(v), next))
       case Err(e) => Err(e))
    case StringType =>
      if pos >= |s| then Err(IndexError)
      else
        var next := pos + s[pos] as int + 1;
        Ok((Text(s[Min(pos + 1, |s|)..Min(next, |s|)]), next))
    case EnumType(signed, enums) =>
      (match Parse(signed, s, pos)
       case Ok((v, next)) =>
         (match Reverse(enums, v)
          case Some(name) => Ok((Symbol(name), next))
          case None => Ok((UnknownSymbol(v), next)))
       case Err(e) => Err(e))
  }

  // ---------- Which parameters survive the trip ----------

  predicate Representable(signed: bool, v: int) {
    if signed then -0x2_0000_0000 <= v < 0x6_0000_0000 else 0 <= v < 0x1_0000_0000
  }

  /** What a caller can check before sending: the number is in the type's range
      and, for a symbol, no later symbol stands for the same number. */
  predicate Survives(t: ParamType, p: Param) {
    match (t, p)
    case (IntType(signed), Number(i)) => Representable(signed, i)
    case (StringType, Text(text)) => |text| <= 255
    case (EnumType(signed, enums), Symbol(name)) =>
      (match Lookup(enums, name)
       case Some(v) => Representable(signed, v) && Reverse(enums, v) == Some(name)
       case None => false)
    case _ => false
  }

  lemma {:induction false} ReverseNamesItsValue(enums: seq<(string, int)>, v: int, name: string)
    requires DistinctNames(enums) && Reverse(enums, v) == Some(name)
    ensures Lookup(enums, name) == Some(v)
  {
    var n := |enums| - 1;
    if enums[n].1 == v {
      LookupLast(enums);
    } else {
      ReverseNamesItsValue(enums[..n], v, name);
      LookupGrows(enums, name);
    }
  }

  lemma {:induction false} LookupGrows(enums: seq<(string, int)>, name: string)
    requires enums != [] && Lookup(enums[..|enums| - 1], name).Some?
    ensures Lookup(enums, name) == Lookup(enums[..|enums| - 1], name)
  {
    var n := |enums| - 1;
    assert enums[..n][1..] == enums[1..][..n - 1];
    if enums[0].0 != name {
      LookupGrows(enums[1..], name);
    }
  }

  lemma {:induction false} LookupLast(enums: seq<(string, int)>)
    requires enums != [] && DistinctNames(enums)
    ensures Lookup(enums, enums[|enums| - 1].0) == Some(enums[|enums| - 1].1)
  {
    if |enums| > 1 {
      LookupLast(enums[1..]);
    }
  }

  /** An injective enumeration names every value it lists. */
  lemma {:induction false} InjectiveReverse(enums: seq<(string, int)>, i: nat)
    requires i < |enums|
    requires forall j, k :: 0 <= j < k < |enums| ==> enums[j].1 != enums[k].1
    ensures Reverse(enums, enums[i].1) == Some(enums[i].0)
    decreases |enums|
  {
    var n := |enums| - 1;
    if i < n {
      assert enums[..n][i] == enums[i];
      InjectiveReverse(enums[..n], i);
    }
  }

  function Received(signed: bool, v: int): int {
    if signed then Wrapped(v) else v % 0x1_0000_0000
  }

  lemma TextWithin(pre: seq<byte>, length: byte, text: seq<byte>, rest: seq<byte>)
    ensures var s := pre + ([length] + text) + rest;
            s[|pre|] == length && s[|pre| + 1..|pre| + 1 + |text|] == text
  {
    var code := [length] + text;
    var s := pre + code + rest;
    assert s[|pre|..|pre| + |code|] == code;
    assert code[1..] == text;
    assert s[|pre| + 1..|pre| + |code|] == s[|pre|..|pre| + |code|][1..];
  }

  /** Which parameters a type can encode. */
  lemma EncodesIff(t: ParamType, p: Param)
    requires ShortText(p)
    ensures EncodeParam(t, p).Ok? <==>
            match t
            case IntType(_) => p.Number?
            case StringType => p.Text?
            case EnumType(_, enums) => p.Symbol? && exists i :: 0 <= i < |enums| && enums[i].0 == p.name
    ensures t.EnumType? && EncodeParam(t, p).Err? ==> EncodeParam(t, p).error == UnknownEnumeration
  {
    if t.EnumType? && p.Symbol? { LookupFinds(t.enums, p.name); }
  }

  lemma {:induction false} LookupFinds(enums: seq<(string, int)>, name: string)
    ensures Lookup(enums, name).Some? <==> exists i :: 0 <= i < |enums| && enums[i].0 == name
    decreases |enums|
  {
    if enums != [] {
      LookupFinds(enums[1..], name);
      if i :| 0 <= i < |enums| && enums[i].0 == name {
        if i > 0 { assert enums[1..][i - 1].0 == name; }
      }
      if i :| 0 <= i < |enums[1..]| && enums[1..][i].0 == name { assert enums[i + 1].0 == name; }
    }
  }

  /** Parsing an encoded parameter among any other bytes consumes exactly its
      bytes, and gives the parameter back exactly when it survives. */
  lemma ParamRoundTrip(t: ParamType, p: Param, pre: seq<byte>, rest: seq<byte>)
    requires WellFormed(t) && ShortText(p) && EncodeParam(t, p).Ok?
    ensures var code := EncodeParam(t, p).value;
            var r := ParseParam(t, pre + code + rest, |pre|);
            && r.Ok? && r.value.1 == |pre| + |code|
            && (r.value.0 == p <==> Survives(t, p))
            && (t.IntType? ==> r.value.0 == Number(Received(t.signed, p.i)))
            && (t.EnumType? ==>
                  var w := Received(t.signed, Lookup(t.enums, p.name).value);
                  r.value.0 == match Reverse(t.enums, w) { case Some(name) => Symbol(name) case None => UnknownSymbol(w) })
  {
    hide Encode, Parse, Wrapped, Representable, Received;
    match t {
      case IntType(signed) =>
        ParseEncode(signed, p.i, pre, rest);
        NumberComesBack(signed, p.i);
      case StringType =>
        TextWithin(pre, ToByte(|p.text|), p.text, rest);
      case EnumType(signed, enums) =>
        var v := Lookup(enums, p.name).value;
        ParseEncode(signed, v, pre, rest);
        NumberComesBack(signed, v);
        var w := Received(signed, v);
        if Reverse(enums, w) == Some(p.name) {
          ReverseNamesItsValue(enums, w, p.name);
        }
    }
  }

  lemma NumberComesBack(signed: bool, v: int)
    ensures Received(signed, v) == if signed then Wrapped(v) else v % 0x1_0000_0000
    ensures Received(signed, v) == v <==> Representable(signed, v)
  {
  }

  // ---------- Message formats ----------

  datatype Format =
    | MessageFormat(msgid: byte, name: string, params: seq<(string, ParamType)>)
    | OutputFormat(msgid: byte, text: string, types: seq<ParamType>)

  type Params = map<string, Param>

  /** One entry of a dump. */
  datatype Parsed =
    | Message(format: Format, params: Params)
    | OutputLine(format: Format, args: seq<Param>)
    | Unknown(msgid: byte, raw: seq<byte>)

  predicate AllShort(ps: seq<Param>) { forall p :: p in ps ==> ShortText(p) }

  function EncodeParams(types: seq<(string, ParamType)>, ps: seq<Param>): (r: Result<seq<byte>, EncodeError>)
    requires AllShort(ps)
  {
    if types == [] then Ok([])
    else if ps == [] then Err(MissingParam)
    else
      match EncodeParam(types[0].1, ps[0])
      case Err(e) => Err(e)
      case Ok(code) =>
        After(code, EncodeParams(types[1..], ps[1..]))
  }

  /** MessageFormat.encode: the id byte, then each declared parameter in order. */
  function EncodeMessage(f: Format, ps: seq<Param>): (r: Result<seq<byte>, EncodeError>)
    requires f.MessageFormat? && AllShort(ps)
  {
    After([f.msgid], EncodeParams(f.params, ps))
  }

  method EncodeFormat(f: Format, ps: seq<Param>) returns (r: Result<seq<byte>, EncodeError>)
    requires f.MessageFormat? && AllShort(ps)
    ensures r == EncodeMessage(f, ps)
  {
    var out := [f.msgid];
    for i := 0 to |f.params|
      invariant i <= |ps|
      invariant EncodeMessage(f, ps) == After(out, EncodeParams(f.params[i..], ps[i..]))
    {
      if i >= |ps| { return Err(MissingParam); }
      var code := EncodeParam(f.params[i].1, ps[i]);
      if code.Err? { return Err(code.error); }
      assert f.params[i..][1..] == f.params[i + 1..] && ps[i..][1..] == ps[i + 1..];
      AfterAfter(out, code.value, EncodeParams(f.params[i + 1..], ps[i + 1..]));
      out := out + code.value;
    }
    assert out + [] == out;
    return Ok(out);
  }

  /** The parameter loop of MessageFormat.parse, storing into a dictionary. */
  function ParseNamed(types: seq<(string, ParamType)>, s: seq<byte>, pos: nat, out: Params)
    : (r: Result<(Params, nat), ParseError>)
    ensures r.Ok? ==> pos <= r.value.1
    decreases |types|
  {
    if types == [] then Ok((out, pos))
    else
      match ParseParam(types[0].1, s, pos)
      case Err(e) => Err(e)
      case Ok((p, next)) => ParseNamed(types[1..], s, next, out[types[0].0 := p])
  }

  function ParseArgs(types: seq<ParamType>, s: seq<byte>, pos: nat): (r: Result<(seq<Param>, nat), ParseError>)
    ensures r.Ok? ==> pos <= r.value.1
    decreases |types|
  {
    if types == [] then Ok(([], pos))
    else
      match ParseParam(types[0], s, pos)
      case Err(e) => Err(e)
      case Ok((p, next)) =>
        match ParseArgs(types[1..], s, next)
        case Err(e) => Err(e)
        case Ok((ps, end)) => Ok(([p] + ps, end))
  }

  /** messages_by_id, keyed by the number of the id byte. */
  type Table = map<int, Format>

  const TRAILER_SIZE := 3
  const HEADER_SIZE := 2

  /** messages_by_id.get(s[pos], unknown).parse(s, pos). An unknown message
      takes the whole buffer and ends where the trailer starts. */
  function ParseAt(table: Table, s: seq<byte>, pos: nat): (r: Result<(Parsed, int), ParseError>)
    requires pos < |s|
    ensures r.Ok? ==> r.value.1 > pos || r.value.1 == |s| - TRAILER_SIZE
  {
    var msgid := s[pos] as int;
    if msgid !in table then Ok((Unknown(s[pos], s), |s| - TRAILER_SIZE))
    else
      match table[msgid]
      case MessageFormat(_, _, params) =>
        (match ParseNamed(params, s, pos + 1, map[])
         case Err(e) => Err(e)
         case Ok((ps, next)) => Ok((Message(table[msgid], ps), next)))
      case OutputFormat(_, _, types) =>
        (match ParseArgs(types, s, pos + 1)
         case Err(e) => Err(e)
         case Ok((ps, next)) => Ok((OutputLine(table[msgid], ps), next)))
  }

  /** The loop of dump: it reads a message id before asking whether any payload is left. */
  function DumpFrom(table: Table, s: seq<byte>, pos: nat): (r: Result<seq<Parsed>, ParseError>)
    decreases |s| - pos
  {
    if pos >= |s| then Err(IndexError)
    else
      match ParseAt(table, s, pos)
      case Err(e) => Err(e)
      case Ok((x, next)) =>
        if next >= |s| - TRAILER_SIZE then Ok([x])
        else
          After([x], DumpFrom(table, s, next))
  }

  function Dump(table: Table, s: seq<byte>): (r: Result<seq<Parsed>, ParseError>) {
    if |s| < 2 then Err(IndexError) else DumpFrom(table, s, HEADER_SIZE)
  }

  method DumpFrame(table: Table, s: seq<byte>) returns (r: Result<seq<Parsed>, ParseError>)
    ensures r == Dump(table, s)
  {
    if |s| < 2 { return Err(IndexError); }
    var out: seq<Parsed> := [];
    var pos := HEADER_SIZE;
    AfterNothing(DumpFrom(table, s, pos));
    while true
      invariant Dump(table, s) == After(out, DumpFrom(table, s, pos))
      decreases |s| - pos
    {
      if pos >= |s| { return Err(IndexError); }
      var x := ParseAt(table, s, pos);
      if x.Err? { return Err(x.error); }
      out := out + [x.value.0];
      if x.value.1 >= |s| - TRAILER_SIZE { return Ok(out); }
      AfterAfter(out[..|out| - 1], [x.value.0], DumpFrom(table, s, x.value.1));
      pos := x.value.1;
    }
  }

  /** MessageParser.parse: exactly one message must fill the payload. */
  function ParsePacket(table: Table, s: seq<byte>): (r: Result<Parsed, ParseError>) {
    if |s| <= HEADER_SIZE then Err(IndexError)
    else
      match ParseAt(table, s, HEADER_SIZE)
      case Err(e) => Err(e)
      case Ok((x, next)) => if next != |s| - TRAILER_SIZE then Err(ExtraData) else Ok(x)
  }

  // ---------- Round trips ----------

  predicate ParamsSurvive(types: seq<(string, ParamType)>, ps: seq<Param>) {
    |types| == |ps| && forall i :: 0 <= i < |ps| ==> WellFormed(types[i].1) && Survives(types[i].1, ps[i])
  }

  /** The dictionary MessageFormat.parse builds from parameters in order. */
  function Stored(types: seq<(string, ParamType)>, ps: seq<Param>, out: Params): Params
    requires |types| == |ps|
  {
    if types == [] then out else Stored(types[1..], ps[1..], out[types[0].0 := ps[0]])
  }

  lemma {:induction false} StoredKeeps(types: seq<(string, ParamType)>, ps: seq<Param>, out: Params, name: string)
    requires |types| == |ps|
    requires forall i :: 0 <= i < |types| ==> types[i].0 != name
    requires name in out
    ensures name in Stored(types, ps, out) && Stored(types, ps, out)[name] == out[name]
    decreases |types|
  {
    if types != [] {
      StoredKeeps(types[1..], ps[1..], out[types[0].0 := ps[0]], name);
    }
  }

  /** With distinct parameter names every parameter is found under its own name. */
  lemma {:induction false} StoredByName(types: seq<(string, ParamType)>, ps: seq<Param>, out: Params, i: nat)
    requires |types| == |ps| && i < |types|
    requires forall j, k :: 0 <= j < k < |types| ==> types[j].0 != types[k].0
    ensures types[i].0 in Stored(types, ps, out) && Stored(types, ps, out)[types[i].0] == ps[i]
    decreases |types|
  {
    if i == 0 {
      StoredKeeps(types[1..], ps[1..], out[types[0].0 := ps[0]], types[0].0);
    } else {
      StoredByName(types[1..], ps[1..], out[types[0].0 := ps[0]], i - 1);
    }
  }

  lemma SurvivorEncodes(t: ParamType, p: Param)
    requires Survives(t, p)
    ensures ShortText(p) && EncodeParam(t, p).Ok?
  {
  }

  lemma {:induction false} SurvivorsEncode(types: seq<(string, ParamType)>, ps: seq<Param>)
    requires ParamsSurvive(types, ps)
    ensures AllShort(ps) && EncodeParams(types, ps).Ok?
    decreases |types|
  {
    forall p | p in ps ensures ShortText(p) {
      var i :| 0 <= i < |ps| && ps[i] == p;
      SurvivorEncodes(types[i].1, p);
    }
    if types != [] {
      SurvivorEncodes(types[0].1, ps[0]);
      SurvivorsEncode(types[1..], ps[1..]);
    }
  }

  lemma Regroup(pre: seq<byte>, first: seq<byte>, second: seq<byte>, rest: seq<byte>)
    ensures pre + (first + second) + rest == pre + first + (second + rest)
    ensures pre + (first + second) + rest == (pre + first) + second + rest
  {
  }

  lemma {:induction false} ParamsRoundTrip(types: seq<(string, ParamType)>, ps: seq<Param>, pre: seq<byte>, rest: seq<byte>, out: Params)
    requires ParamsSurvive(types, ps) && AllShort(ps) && EncodeParams(types, ps).Ok?
    ensures var code := EncodeParams(types, ps).value;
            ParseNamed(types, pre + code + rest, |pre|, out) == Ok((Stored(types, ps, out), |pre| + |code|))
    decreases |types|
  {
    hide EncodeParam, ParseParam, Survives, ShortText;
    if types != [] {
      var code := EncodeParam(types[0].1, ps[0]).value;
      var more := EncodeParams(types[1..], ps[1..]).value;
      Regroup(pre, code, more, rest);
      ParamRoundTrip(types[0].1, ps[0], pre, more + rest);
      ParamsRoundTrip(types[1..], ps[1..], pre + code, rest, out[types[0].0 := ps[0]]);
    }
  }

  // ---------- Output messages ----------

  function TypesOf(types: seq<(string, ParamType)>): (r: seq<ParamType>)
    ensures |r| == |types|
  {
    if types == [] then [] else [types[0].1] + TypesOf(types[1..])
  }

  lemma FirstType(types: seq<(string, ParamType)>)
    requires types != []
    ensures TypesOf(types) != [] && TypesOf(types)[0] == types[0].1 && TypesOf(types)[1..] == TypesOf(types[1..])
  {
  }

  /** The arguments of an output message, which have no names, come back in order. */
  lemma {:induction false} ArgsRoundTrip(types: seq<(string, ParamType)>, ps: seq<Param>, pre: seq<byte>, rest: seq<byte>)
    requires ParamsSurvive(types, ps) && AllShort(ps) && EncodeParams(types, ps).Ok?
    ensures var code := EncodeParams(types, ps).value;
            ParseArgs(TypesOf(types), pre + code + rest, |pre|) == Ok((ps, |pre| + |code|))
    decreases |types|
  {
    hide EncodeParam, ParseParam, Survives, ShortText, WellFormed, EncodeParams, ParseArgs, TypesOf;
    if types == [] {
      NoArgs(types, ps, pre + EncodeParams(types, ps).value + rest, |pre|);
    } else {
      EncodeFirst(types, ps);
      var code := EncodeParam(types[0].1, ps[0]).value;
      var more := EncodeParams(types[1..], ps[1..]).value;
      Regroup(pre, code, more, rest);
      SurvivorComesBack(types[0].1, ps[0], pre, more + rest);
      ArgsRoundTrip(types[1..], ps[1..], pre + code, rest);
      FirstType(types);
      ParseFirst(TypesOf(types), pre + (code + more) + rest, |pre|, ps[0], |pre + code|, ps[1..], |pre + code| + |more|);
      assert [ps[0]] + ps[1..] == ps;
    }
  }

  lemma SurvivorComesBack(t: ParamType, p: Param, pre: seq<byte>, rest: seq<byte>)
    requires WellFormed(t) && ShortText(p) && EncodeParam(t, p).Ok? && Survives(t, p)
    ensures var code := EncodeParam(t, p).value;
            ParseParam(t, pre + code + rest, |pre|) == Ok((p, |pre| + |code|))
  {
    hide WellFormed, ShortText, EncodeParam, ParseParam, Survives, Reverse, Lookup, Received;
    ParamRoundTrip(t, p, pre, rest);
  }

  lemma NoArgs(types: seq<(string, ParamType)>, ps: seq<Param>, s: seq<byte>, pos: nat)
    requires types == [] && ps == [] && AllShort(ps)
    ensures EncodeParams(types, ps) == Ok([]) && ParseArgs(TypesOf(types), s, pos) == Ok((ps, pos))
  {
  }

  lemma EncodeFirst(types: seq<(string, ParamType)>, ps: seq<Param>)
    requires types != [] && ps != [] && AllShort(ps) && EncodeParams(types, ps).Ok?
    ensures EncodeParam(types[0].1, ps[0]).Ok? && EncodeParams(types[1..], ps[1..]).Ok?
    ensures EncodeParams(types, ps).value == EncodeParam(types[0].1, ps[0]).value + EncodeParams(types[1..], ps[1..]).value
  {
    hide EncodeParam;
  }

  lemma ParseFirst(types: seq<ParamType>, s: seq<byte>, pos: nat, p: Param, next: nat, ps: seq<Param>, end: nat)
    requires types != [] && ParseParam(types[0], s, pos) == Ok((p, next))
    requires ParseArgs(types[1..], s, next) == Ok((ps, end))
    ensures ParseArgs(types, s, pos) == Ok(([p] + ps, end))
  {
    hide ParseParam;
  }

  /** An output message sent by a micro-controller is read with all its arguments. */
  lemma OutputComesBack(table: Table, id: byte, text: string, types: seq<(string, ParamType)>, ps: seq<Param>,
                        pre: seq<byte>, rest: seq<byte>)
    requires id as int in table && table[id as int] == OutputFormat(id, text, TypesOf(types))
    requires ParamsSurvive(types, ps) && AllShort(ps) && EncodeParams(types, ps).Ok?
    ensures var code := [id] + EncodeParams(types, ps).value;
            ParseAt(table, pre + code + rest, |pre|)
            == Ok((OutputLine(OutputFormat(id, text, TypesOf(types)), ps), |pre| + |code|))
  {
    hide EncodeParams, ParseArgs, ParamsSurvive;
    var code := EncodeParams(types, ps).value;
    Regroup(pre, [id], code, rest);
    assert (pre + ([id] + code) + rest)[|pre|] == id;
    ArgsRoundTrip(types, ps, pre + [id], rest);
  }

  /** A message to send: its format and its parameters. */
  datatype Call = Call(format: Format, params: seq<Param>)

  predicate Sendable(table: Table, c: Call) {
    && c.format.MessageFormat?
    && c.format.msgid as int in table && table[c.format.msgid as int] == c.format
    && ParamsSurvive(c.format.params, c.params)
  }

  function Delivered(table: Table, c: Call): Parsed
    requires Sendable(table, c)
  {
    Message(c.format, Stored(c.format.params, c.params, map[]))
  }

  function CallBytes(table: Table, c: Call): (code: seq<byte>)
    requires Sendable(table, c)
    ensures |code| > 0
  {
    SurvivorsEncode(c.format.params, c.params);
    EncodeMessage(c.format, c.params).value
  }

  lemma CallRoundTrip(table: Table, c: Call, pre: seq<byte>, rest: seq<byte>)
    requires Sendable(table, c)
    ensures ParseAt(table, pre + CallBytes(table, c) + rest, |pre|)
         == Ok((Delivered(table, c), |pre| + |CallBytes(table, c)|))
  {
    SurvivorsEncode(c.format.params, c.params);
    var code := EncodeParams(c.format.params, c.params).value;
    hide EncodeParams, ParseNamed, Stored, ParamsSurvive;
    Regroup(pre, [c.format.msgid], code, rest);
    assert (pre + ([c.format.msgid] + code) + rest)[|pre|] == c.format.msgid;
    ParamsRoundTrip(c.format.params, c.params, pre + [c.format.msgid], rest, map[]);
  }

  predicate AllSendable(table: Table, calls: seq<Call>) {
    forall c :: c in calls ==> Sendable(table, c)
  }

  function CallsBytes(table: Table, calls: seq<Call>): (code: seq<byte>)
    requires AllSendable(table, calls)
  {
    if calls == [] then [] else CallBytes(table, calls[0]) + CallsBytes(table, calls[1..])
  }

  function AllDelivered(table: Table, calls: seq<Call>): seq<Parsed>
    requires AllSendable(table, calls)
  {
    if calls == [] then [] else [Delivered(table, calls[0])] + AllDelivered(table, calls[1..])
  }

  /** The walk over a payload gives back the messages that were put in, in order. */
  lemma {:induction false} MessagesComeBack(table: Table, calls: seq<Call>, pre: seq<byte>, trailer: seq<byte>)
    requires AllSendable(table, calls) && calls != [] && |trailer| == TRAILER_SIZE
    ensures DumpFrom(table, pre + CallsBytes(table, calls) + trailer, |pre|) == Ok(AllDelivered(table, calls))
    decreases |calls|
  {
    hide Sendable, ParseAt, CallBytes, Delivered;
    var first := CallBytes(table, calls[0]);
    var more := CallsBytes(table, calls[1..]);
    var s := pre + CallsBytes(table, calls) + trailer;
    Regroup(pre, first, more, trailer);
    CallRoundTrip(table, calls[0], pre, more + trailer);
    var head := [Delivered(table, calls[0])];
    if |calls| == 1 {
      assert more == [];
      assert head + AllDelivered(table, calls[1..]) == head;
    } else {
      MoreBytes(table, calls[1..]);
      MessagesComeBack(table, calls[1..], pre + first, trailer);
      assert DumpFrom(table, s, |pre|) == After(head, DumpFrom(table, s, |pre + first|));
    }
  }

  /** A dump has at least one entry, even of a payload without messages. */
  lemma {:induction false} DumpNeverEmpty(table: Table, s: seq<byte>, pos: nat)
    ensures DumpFrom(table, s, pos).Ok? ==> DumpFrom(table, s, pos).value != []
    decreases |s| - pos
  {
    hide ParseAt;
    if pos < |s| && ParseAt(table, s, pos).Ok? && ParseAt(table, s, pos).value.1 < |s| - TRAILER_SIZE {
      ParseAdvances(table, s, pos);
      DumpNeverEmpty(table, s, ParseAt(table, s, pos).value.1);
    }
  }

  lemma ParseAdvances(table: Table, s: seq<byte>, pos: nat)
    requires pos < |s| && ParseAt(table, s, pos).Ok? && ParseAt(table, s, pos).value.1 < |s| - TRAILER_SIZE
    ensures ParseAt(table, s, pos).value.1 > pos
  {
  }

  /** Dumping a payload gives back its messages exactly when it has any. */
  lemma DumpRoundTrip(table: Table, calls: seq<Call>, pre: seq<byte>, trailer: seq<byte>)
    requires AllSendable(table, calls) && |trailer| == TRAILER_SIZE
    ensures DumpFrom(table, pre + CallsBytes(table, calls) + trailer, |pre|) == Ok(AllDelivered(table, calls)) <==> calls != []
  {
    hide DumpFrom, Sendable, CallBytes, Delivered;
    if calls == [] {
      DumpNeverEmpty(table, pre + CallsBytes(table, calls) + trailer, |pre|);
    } else {
      MessagesComeBack(table, calls, pre, trailer);
    }
  }

  lemma MoreBytes(table: Table, calls: seq<Call>)
    requires AllSendable(table, calls) && calls != []
    ensures |CallsBytes(table, calls)| > 0
  {
    assert |CallBytes(table, calls[0])| > 0;
  }

  /** parse accepts a frame of one message and refuses one of several. */
  lemma ParsePacketRoundTrip(table: Table, calls: seq<Call>, header: seq<byte>, trailer: seq<byte>)
    requires AllSendable(table, calls) && calls != []
    requires |header| == HEADER_SIZE && |trailer| == TRAILER_SIZE
    ensures ParsePacket(table, header + CallsBytes(table, calls) + trailer)
         == if |calls| == 1 then Ok(Delivered(table, calls[0])) else Err(ExtraData)
  {
    hide Sendable, ParseAt, CallBytes, Delivered;
    var first := CallBytes(table, calls[0]);
    var more := CallsBytes(table, calls[1..]);
    assert header + CallsBytes(table, calls) + trailer == header + first + (more + trailer);
    CallRoundTrip(table, calls[0], header, more + trailer);
    if |calls| > 1 { MoreBytes(table, calls[1..]); }
  }
}
