/** The variable-length integer coding of msgproto.py (PT_uint32 and its
    subclasses): seven payload bits a byte, most significant group first, the
    high bit set on every byte but the last, and a first group whose two top
    bits being set mean that the number is negative. */
module VarInt {
  import opened Bytes

  datatype ParseError = IndexError | ExtraData

  // ---------- Encoding ----------

  /** (v >> shift) & 0x7f, where `weight` is 2 to the power `shift`. */
  function Group(v: int, weight: int): (g: int)
    requires weight > 0
    ensures 0 <= g < 128
  {
    v / weight % 128
  }

  /** One of the four conditional leading bytes. */
  function Lead(v: int, above: int, below: int, weight: int): (s: seq<byte>)
    requires weight > 0
  {
    if v >= above || v < below then [ToByte(Group(v, weight) + 128)] else []
  }

  function Encode(v: int): (s: seq<byte>) {
    Lead(v, 0xc000000, -0x4000000, 0x10000000) + Lead(v, 0x180000, -0x80000, 0x200000) +
    Lead(v, 0x3000, -0x1000, 0x4000) + Lead(v, 0x60, -0x20, 0x80) + [ToByte(Group(v, 1))]
  }

  /** The Python list an encoder appends to. */
  class Output {
    var bytes: seq<byte>

    constructor ()
      ensures bytes == []
    {
      bytes := [];
    }

    method Append(b: byte)
      modifies this
      ensures bytes == old(bytes) + [b]
    {
      bytes := bytes + [b];
    }
  }

  method AppendLead(out: Output, v: int, above: int, below: int, weight: int)
    requires weight > 0
    modifies out
    ensures out.bytes == old(out.bytes) + Lead(v, above, below, weight)
  {
    if v >= above || v < below {
      out.Append(ToByte(Group(v, weight) + 128));
    }
  }

  method EncodeTo(out: Output, v: int)
    modifies out
    ensures out.bytes == old(out.bytes) + Encode(v)
  {
    hide Lead, Group, ToByte;
    AppendLead(out, v, 0xc000000, -0x4000000, 0x10000000);
    AppendLead(out, v, 0x180000, -0x80000, 0x200000);
    AppendLead(out, v, 0x3000, -0x1000, 0x4000);
    AppendLead(out, v, 0x60, -0x20, 0x80);
    out.Append(ToByte(Group(v, 1)));
  }

  // ---------- Parsing ----------

  predicate More(c: byte) { c as int >= 128 }

  function Payload(c: byte): (g: int)
    ensures 0 <= g < 128
  {
    c as int % 128
  }

  /** The signed reading of the first byte: v |= -0x20 when bits 5 and 6 are set. */
  function First(c: byte): (v: int)
    ensures -32 <= v < 96
  {
    SignedTop(Payload(c))
  }

  function SignedTop(g: int): int {
    if g >= 0x60 then g - 128 else g
  }

  /** The loop from the byte `c` just read, with `v` accumulated so far. */
  function ParseRest(s: seq<byte>, pos: nat, c: byte, v: int): (r: Result<(int, nat), ParseError>)
    decreases |s| - pos
  {
    if !More(c) then Ok((v, pos))
    else if pos >= |s| then Err(IndexError)
    else ParseRest(s, pos + 1, s[pos], v * 128 + Payload(s[pos]))
  }

  function Unsign(signed: bool, v: int): int {
    if signed then v else v % 0x1_0000_0000
  }

  function Parse(signed: bool, s: seq<byte>, pos: nat): (r: Result<(int, nat), ParseError>)
    ensures r.Ok? ==> pos < r.value.1 <= |s|
  {
    if pos >= |s| then Err(IndexError)
    else
      RestAdvances(s, pos + 1, s[pos], First(s[pos]));
      match ParseRest(s, pos + 1, s[pos], First(s[pos]))
      case Ok((v, next)) => Ok((Unsign(signed, v), next))
      case Err(e) => Err(e)
  }

  lemma {:induction false} RestAdvances(s: seq<byte>, pos: nat, c: byte, v: int)
    requires pos <= |s|
    ensures ParseRest(s, pos, c, v).Ok? ==> pos <= ParseRest(s, pos, c, v).value.1 <= |s|
    decreases |s| - pos
  {
    if More(c) && pos < |s| {
      RestAdvances(s, pos + 1, s[pos], v * 128 + Payload(s[pos]));
    }
  }

  method ParseFrom(signed: bool, s: seq<byte>, pos: nat) returns (r: Result<(int, nat), ParseError>)
    ensures r == Parse(signed, s, pos)
  {
    if pos >= |s| { return Err(IndexError); }
    var c, at := s[pos], pos + 1;
    var v := Payload(c);
    if v >= 0x60 { v := v - 128; }
    while More(c)
      invariant pos < at <= |s|
      invariant ParseRest(s, pos + 1, s[pos], First(s[pos])) == ParseRest(s, at, c, v)
      decreases |s| - at, if More(c) then 1 else 0
    {
      if at >= |s| { return Err(IndexError); }
      c, at := s[at], at + 1;
      v := v * 128 + Payload(c);
    }
    return Ok((Unsign(signed, v), at));
  }

  // ---------- Terminated strings and the number each stands for ----------

  predicate Terminated(s: seq<byte>) {
    && |s| > 0
    && !More(s[|s| - 1])
    && forall i :: 0 <= i < |s| - 1 ==> More(s[i])
  }

  function Value(s: seq<byte>): int
    requires |s| > 0
  {
    if |s| == 1 then First(s[0]) else Value(s[..|s| - 1]) * 128 + Payload(s[|s| - 1])
  }

  function Pow128(n: nat): (p: int)
    ensures p >= 1
  {
    if n == 0 then 1 else 128 * Pow128(n - 1)
  }

  /** The loop, started anywhere inside a terminated string, reaches its value. */
  lemma {:induction false} RestReads(pre: seq<byte>, code: seq<byte>, rest: seq<byte>, k: nat)
    requires Terminated(code) && 1 <= k <= |code|
    ensures ParseRest(pre + code + rest, |pre| + k, code[k - 1], Value(code[..k]))
         == Ok((Value(code), |pre| + |code|))
    decreases |code| - k
  {
    hide More, Payload, First;
    if k == |code| {
      assert code[..k] == code;
    } else {
      var s := pre + code + rest;
      assert s[|pre| + k] == code[k];
      assert code[..k + 1][..k] == code[..k];
      RestReads(pre, code, rest, k + 1);
    }
  }

  /** Parsing a terminated string reads exactly that string, whatever stands around it. */
  lemma ParseReads(signed: bool, pre: seq<byte>, code: seq<byte>, rest: seq<byte>)
    requires Terminated(code)
    ensures Parse(signed, pre + code + rest, |pre|) == Ok((Unsign(signed, Value(code)), |pre| + |code|))
  {
    var s := pre + code + rest;
    assert s[|pre|] == code[0];
    assert Value(code[..1]) == First(code[0]);
    RestReads(pre, code, rest, 1);
  }

  /** Parsing fails exactly when no byte from pos on ends a number. */
  lemma {:induction false} ParseFailsIff(signed: bool, s: seq<byte>, pos: nat)
    ensures Parse(signed, s, pos).Err? <==> forall i :: pos <= i < |s| ==> More(s[i])
  {
    if pos < |s| {
      RestFailsIff(s, pos + 1, s[pos], First(s[pos]));
    }
  }

  lemma {:induction false} RestFailsIff(s: seq<byte>, pos: nat, c: byte, v: int)
    requires 0 < pos <= |s| && c == s[pos - 1]
    ensures ParseRest(s, pos, c, v).Err? <==> forall i :: pos - 1 <= i < |s| ==> More(s[i])
    decreases |s| - pos
  {
    if More(c) && pos < |s| {
      RestFailsIff(s, pos + 1, s[pos], v * 128 + Payload(s[pos]));
    }
  }

  // ---------- Encode hits the value ----------

  /** The representative of v modulo 2^35 in [-2^33, 3 * 2^33). */
  function Wrapped(v: int): (w: int)
    ensures -0x2_0000_0000 <= w < 0x6_0000_0000
    ensures -0x2_0000_0000 <= v < 0x6_0000_0000 ==> w == v
  {
    (v + 0x2_0000_0000) % 0x8_0000_0000 - 0x2_0000_0000
  }

  lemma ValueMore(s: seq<byte>, b: byte)
    requires |s| > 0
    ensures Value(s + [b]) == Value(s) * 128 + Payload(b)
  {
    assert (s + [b])[..|s|] == s;
  }

  lemma GroupByte(v: int, weight: int)
    requires weight > 0
    ensures Payload(ToByte(Group(v, weight) + 128)) == Group(v, weight) && More(ToByte(Group(v, weight) + 128))
    ensures Payload(ToByte(Group(v, weight))) == Group(v, weight) && !More(ToByte(Group(v, weight)))
  {
  }

  /** The leading bytes written so far: none, or a run of continued bytes worth `value`. */
  predicate Leading(s: seq<byte>, needed: bool, value: int) {
    if !needed then s == []
    else |s| > 0 && (forall i :: 0 <= i < |s| ==> More(s[i])) && Value(s) == value
  }

  lemma LeadStep(s: seq<byte>, wasNeeded: bool, v: int, above: int, below: int, weight: int, high: int, value: int)
    requires weight > 0
    requires Leading(s, wasNeeded, high)
    requires wasNeeded ==> v >= above || v < below
    requires v >= above || v < below ==>
      value == if wasNeeded then high * 128 + Group(v, weight) else SignedTop(Group(v, weight))
    ensures Leading(s + Lead(v, above, below, weight), v >= above || v < below, value)
  {
    if v >= above || v < below {
      var b := ToByte(Group(v, weight) + 128);
      GroupByte(v, weight);
      assert s == [] ==> s + [b] == [b];
      if wasNeeded { ValueMore(s, b); }
    } else {
      assert s + Lead(v, above, below, weight) == [];
    }
  }

  lemma LastStep(s: seq<byte>, wasNeeded: bool, v: int, high: int)
    requires Leading(s, wasNeeded, high)
    ensures Terminated(s + [ToByte(Group(v, 1))])
    ensures Value(s + [ToByte(Group(v, 1))])
         == if wasNeeded then high * 128 + Group(v, 1) else SignedTop(Group(v, 1))
  {
    var b := ToByte(Group(v, 1));
    GroupByte(v, 1);
    assert s == [] ==> s + [b] == [b];
    if wasNeeded { ValueMore(s, b); }
  }

  lemma NestedDivisions(v: int)
    ensures v / 0x80 == v / 0x4000 * 128 + v / 0x80 % 128
    ensures v / 0x4000 == v / 0x200000 * 128 + v / 0x4000 % 128
    ensures v / 0x200000 == v / 0x10000000 * 128 + v / 0x200000 % 128
  {
    assert v / 0x80 / 128 == v / 0x4000;
    assert v / 0x4000 / 128 == v / 0x200000;
    assert v / 0x200000 / 128 == v / 0x10000000;
  }

  lemma WholeTurns(v: int, m: int)
    ensures (v - m * 0x8_0000_0000) / 0x80 == v / 0x80 - m * 0x1000_0000
    ensures (v - m * 0x8_0000_0000) / 0x4000 == v / 0x4000 - m * 0x20_0000
    ensures (v - m * 0x8_0000_0000) / 0x200000 == v / 0x200000 - m * 0x4000
    ensures (v - m * 0x8_0000_0000) / 0x10000000 == v / 0x10000000 - m * 0x80
  {
  }

  /** Each group of v continues the number modulo 2^35 read so far ... */
  lemma WrappedGroups(v: int)
    ensures Wrapped(v) / 0x10000000 == SignedTop(Group(v, 0x10000000))
    ensures Wrapped(v) / 0x200000 == Wrapped(v) / 0x10000000 * 128 + Group(v, 0x200000)
    ensures Wrapped(v) / 0x4000 == Wrapped(v) / 0x200000 * 128 + Group(v, 0x4000)
    ensures Wrapped(v) / 0x80 == Wrapped(v) / 0x4000 * 128 + Group(v, 0x80)
    ensures Wrapped(v) == Wrapped(v) / 0x80 * 128 + Group(v, 1)
  {
    var m := (v + 0x2_0000_0000) / 0x8_0000_0000;
    WholeTurns(v, m);
    NestedDivisions(v);
    TopGroup(v, m);
    LowGroup(v, m);
  }

  lemma TopGroup(v: int, m: int)
    requires m == (v + 0x2_0000_0000) / 0x8_0000_0000
    ensures v / 0x10000000 - m * 0x80 == SignedTop(v / 0x10000000 % 128)
  {
    assert m == (v / 0x10000000 + 32) / 128;
  }

  lemma LowGroup(v: int, m: int)
    ensures v - m * 0x8_0000_0000 == (v / 0x80 - m * 0x1000_0000) * 128 + v % 128
  {
  }

  /** ... and the first group of a number short enough is its signed top. */
  lemma FirstGroups(v: int)
    ensures -0x4000000 <= v < 0xc000000 ==> Wrapped(v) / 0x200000 == SignedTop(Group(v, 0x200000))
    ensures -0x80000 <= v < 0x180000 ==> Wrapped(v) / 0x4000 == SignedTop(Group(v, 0x4000))
    ensures -0x1000 <= v < 0x3000 ==> Wrapped(v) / 0x80 == SignedTop(Group(v, 0x80))
    ensures -0x20 <= v < 0x60 ==> Wrapped(v) == SignedTop(Group(v, 1))
  {
  }

  /** Encode yields a terminated string whose value is v modulo 2^35. */
  lemma EncodeValue(v: int)
    ensures Terminated(Encode(v)) && Value(Encode(v)) == Wrapped(v)
  {
    hide Lead, ToByte, Leading, Terminated, Value, Wrapped, Group, SignedTop;
    WrappedGroups(v);
    FirstGroups(v);
    var w := Wrapped(v);
    var n4, n3, n2, n1 := v >= 0xc000000 || v < -0x4000000, v >= 0x180000 || v < -0x80000,
                          v >= 0x3000 || v < -0x1000, v >= 0x60 || v < -0x20;
    var l4 := Lead(v, 0xc000000, -0x4000000, 0x10000000);
    var l3 := Lead(v, 0x180000, -0x80000, 0x200000);
    var l2 := Lead(v, 0x3000, -0x1000, 0x4000);
    var l1 := Lead(v, 0x60, -0x20, 0x80);
    assert Leading([], false, 0) by { NothingLeads(); }
    LeadStep([], false, v, 0xc000000, -0x4000000, 0x10000000, 0, w / 0x10000000);
    assert [] + l4 == l4;
    LeadStep(l4, n4, v, 0x180000, -0x80000, 0x200000, w / 0x10000000, w / 0x200000);
    LeadStep(l4 + l3, n3, v, 0x3000, -0x1000, 0x4000, w / 0x200000, w / 0x4000);
    LeadStep(l4 + l3 + l2, n2, v, 0x60, -0x20, 0x80, w / 0x4000, w / 0x80);
    LastStep(l4 + l3 + l2 + l1, n1, v, w / 0x80);
  }

  lemma NothingLeads()
    ensures Leading([], false, 0)
  {
  }

  // ---------- Main results ----------

  /** For every integer and either signedness, parsing an encoded number among
      any other bytes reads just its bytes; unsigned types recover the number
      modulo 2^32, signed ones modulo 2^35. */
  lemma ParseEncode(signed: bool, v: int, pre: seq<byte>, rest: seq<byte>)
    ensures Parse(signed, pre + Encode(v) + rest, |pre|)
         == Ok((if signed then Wrapped(v) else v % 0x1_0000_0000, |pre| + |Encode(v)|))
  {
    EncodeValue(v);
    ParseReads(signed, pre, Encode(v), rest);
    if !signed { WrappedMod(v); }
  }

  lemma WrappedMod(v: int)
    ensures Wrapped(v) % 0x1_0000_0000 == v % 0x1_0000_0000
  {
    var m := (v + 0x2_0000_0000) / 0x8_0000_0000;
    assert Wrapped(v) == v - (8 * m) * 0x1_0000_0000;
  }

  /** A signed parameter survives exactly on this window. */
  lemma SignedRoundTripIff(v: int)
    ensures Parse(true, Encode(v), 0) == Ok((v, |Encode(v)|)) <==> -0x2_0000_0000 <= v < 0x6_0000_0000
  {
    ParseEncode(true, v, [], []);
    assert [] + Encode(v) + [] == Encode(v);
  }

  /** Terminated strings of n bytes stand for the numbers of this range ... */
  lemma {:induction false} ValueRange(s: seq<byte>)
    requires |s| > 0
    ensures -32 * Pow128(|s| - 1) <= Value(s) < 96 * Pow128(|s| - 1)
    decreases |s|
  {
    if |s| > 1 {
      ValueRange(s[..|s| - 1]);
    }
  }

  /** ... each for a different one. */
  lemma {:induction false} ValueInjective(s: seq<byte>, t: seq<byte>)
    requires |s| == |t| > 0 && Value(s) == Value(t)
    requires forall i :: 0 <= i < |s| ==> (More(s[i]) <==> More(t[i]))
    ensures s == t
    decreases |s|
  {
    hide Payload, More, First;
    var n := |s| - 1;
    if n == 0 {
      FirstInjective(s[0], t[0]);
      SamePayload(s[0], t[0]);
    } else {
      LowestGroup(Value(s[..n]), Payload(s[n]), Value(t[..n]), Payload(t[n]));
      ValueInjective(s[..n], t[..n]);
      SamePayload(s[n], t[n]);
      assert s == s[..n] + [s[n]] && t == t[..n] + [t[n]];
    }
  }

  lemma FirstInjective(a: byte, b: byte)
    requires First(a) == First(b)
    ensures Payload(a) == Payload(b)
  {
    hide Payload;
  }

  lemma LowestGroup(x: int, g: int, y: int, h: int)
    requires 0 <= g < 128 && 0 <= h < 128 && x * 128 + g == y * 128 + h
    ensures x == y && g == h
  {
  }

  lemma SamePayload(a: byte, b: byte)
    requires Payload(a) == Payload(b) && (More(a) <==> More(b))
    ensures a == b
  {
    SameSevenBits(a as int, b as int);
    ByteIsItsNumber(a);
    ByteIsItsNumber(b);
  }

  lemma SameSevenBits(x: int, y: int)
    requires 0 <= x < 256 && 0 <= y < 256
    requires x % 128 == y % 128 && (x >= 128 <==> y >= 128)
    ensures x == y
  {
  }

  /** The number of bytes Encode spends on v. */
  function CodeLength(v: int): nat {
    if v >= 0xc000000 || v < -0x4000000 then 5
    else if v >= 0x180000 || v < -0x80000 then 4
    else if v >= 0x3000 || v < -0x1000 then 3
    else if v >= 0x60 || v < -0x20 then 2
    else 1
  }

  lemma EncodeLength(v: int)
    ensures |Encode(v)| == CodeLength(v)
  {
  }

  lemma PowersOf128()
    ensures Pow128(0) == 1 && Pow128(1) == 0x80 && Pow128(2) == 0x4000
    ensures Pow128(3) == 0x200000 && Pow128(4) == 0x10000000
  {
  }

  /** On the signed window Encode is the unique shortest terminated byte string
      that the signed parser maps to v. */
  lemma EncodeShortest(v: int, t: seq<byte>)
    requires -0x2_0000_0000 <= v < 0x6_0000_0000
    requires Terminated(t) && Parse(true, t, 0) == Ok((v, |t|))
    ensures |Encode(v)| <= |t|
    ensures |Encode(v)| == |t| ==> Encode(v) == t
  {
    hide Encode, Wrapped;
    ParseReads(true, [], t, []);
    assert [] + t + [] == t;
    EncodeValue(v);
    EncodeLength(v);
    ValueRange(t);
    PowersOf128();
    if |Encode(v)| == |t| { ValueInjective(Encode(v), t); }
  }

  /** No code is a proper prefix of another. */
  lemma PrefixFree(v: int, w: int, rest: seq<byte>)
    requires Encode(w) == Encode(v) + rest
    ensures rest == []
  {
    hide Encode;
    EncodeValue(v);
    EncodeValue(w);
    assert Encode(w)[|Encode(v)| - 1] == Encode(v)[|Encode(v)| - 1];
  }
}
