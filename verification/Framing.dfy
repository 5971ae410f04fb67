/** Frames of msgproto.py: length, sequence byte, payload, CRC, sync byte. */
module Framing {
  import opened Bytes
  import opened Crc16
  import opened CrcErrors

  const MESSAGE_MIN := 5
  const MESSAGE_MAX := 64
  const PAYLOAD_MAX := MESSAGE_MAX - MESSAGE_MIN
  const MESSAGE_SYNC: byte := 0x7e

  /** 0 asks for more data, -1 refuses the first byte, otherwise the frame's length. */
  function CheckPacket(s: seq<byte>): (r: int)
    ensures r == -1 || r == 0 || (MESSAGE_MIN <= r <= MESSAGE_MAX && r <= |s|)
  {
    if |s| < MESSAGE_MIN then 0
    else
      var msglen := s[0] as int;
      if msglen < MESSAGE_MIN || msglen > MESSAGE_MAX then -1
      else if s[1] & 0xf0 != 0x10 then -1
      else if |s| < msglen then 0
      else if s[msglen - 1] != MESSAGE_SYNC then -1
      else if Crc(s[..msglen - 3]) != s[msglen - 3..msglen - 1] then -1
      else msglen
  }

  function SeqByte(seqno: int): byte {
    ToByte(seqno % 16 + 16)
  }

  lemma SeqByteAccepted(seqno: int)
    ensures SeqByte(seqno) & 0xf0 == 0x10
  {
    ByteFromSixteen(SeqByte(seqno));
  }

  lemma ByteFromSixteen(b: byte)
    requires 16 <= b as int < 32
    ensures b & 0xf0 == 0x10
  {
  }

  function Header(seqno: int, cmd: seq<byte>): seq<byte>
    requires |cmd| <= 250
  {
    [ToByte(MESSAGE_MIN + |cmd|), SeqByte(seqno)] + cmd
  }

  /** The frame MessageParser.encode is meant to build: the CRC as two flat bytes.
      The length entry is a byte only for commands of up to 250 bytes. */
  function EncodeFrame(seqno: int, cmd: seq<byte>): (s: seq<byte>)
    requires |cmd| <= 250
    ensures |s| == MESSAGE_MIN + |cmd|
  {
    Header(seqno, cmd) + Crc(Header(seqno, cmd)) + [MESSAGE_SYNC]
  }

  /** Followed by anything, an encoded frame is accepted with exactly its own
      length, unless its payload is over the limit. */
  lemma FrameAccepted(seqno: int, cmd: seq<byte>, rest: seq<byte>)
    requires |cmd| <= 250
    ensures CheckPacket(EncodeFrame(seqno, cmd) + rest)
         == if |cmd| <= PAYLOAD_MAX then MESSAGE_MIN + |cmd| else -1
  {
    hide Crc, Header;
    var h := Header(seqno, cmd);
    SeqByteAccepted(seqno);
    HeaderShape(seqno, cmd);
    FrameShape(h, Crc(h), rest);
  }

  lemma HeaderShape(seqno: int, cmd: seq<byte>)
    requires |cmd| <= 250
    ensures var h := Header(seqno, cmd); |h| == |cmd| + 2 && h[0] == ToByte(MESSAGE_MIN + |cmd|) && h[1] == SeqByte(seqno)
  {
  }

  /** Where the parts of a frame are, whatever follows it. */
  lemma FrameShape(h: seq<byte>, crc: seq<byte>, rest: seq<byte>)
    requires |h| >= 2 && |crc| == 2
    ensures var s := h + crc + [MESSAGE_SYNC] + rest;
            && s[0] == h[0] && s[1] == h[1] && s[..|h|] == h
            && s[|h|..|h| + 2] == crc && s[|h| + 2] == MESSAGE_SYNC
  {
  }

  // ---------- The frame as the code builds it ----------

  /** out.append(crc16_ccitt(out)) puts the CRC pair into the list as one element;
      the other elements are Python integers, bytes or not. */
  datatype Item = Number(n: int) | Nested(items: seq<byte>)

  function Numbers(s: seq<byte>): (items: seq<Item>)
    ensures |items| == |s| && forall i :: 0 <= i < |s| ==> items[i] == Number(s[i] as int)
  {
    seq(|s|, i requires 0 <= i < |s| => Number(s[i] as int))
  }

  /** The list for any command; only the length entry may not be a byte, and
      `crc` is what crc16_ccitt made of the part before it. */
  function EncodeAsWritten(seqno: int, cmd: seq<byte>, crc: seq<byte>): seq<Item> {
    [Number(MESSAGE_MIN + |cmd|), Number(SeqByte(seqno) as int)] + Numbers(cmd) + [Nested(crc), Number(MESSAGE_SYNC as int)]
  }

  /** `s` reads the list, with some byte in place of each nested element. */
  predicate Reads(s: seq<byte>, items: seq<Item>) {
    |s| == |items| && forall i :: 0 <= i < |s| && items[i].Number? ==> s[i] as int == items[i].n
  }

  /** One element short, the frame as written is never accepted by itself,
      whatever byte the nested pair is taken for: the receiver waits for more,
      or refuses it for its length. */
  lemma AsWrittenNeverAccepted(seqno: int, cmd: seq<byte>, crc: seq<byte>, s: seq<byte>)
    requires Reads(s, EncodeAsWritten(seqno, cmd, crc))
    ensures CheckPacket(s) == if |cmd| <= PAYLOAD_MAX then 0 else -1
  {
    hide Crc;
    var items := EncodeAsWritten(seqno, cmd, crc);
    assert items[0] == Number(MESSAGE_MIN + |cmd|) && items[1] == Number(SeqByte(seqno) as int);
    assert s[1] == SeqByte(seqno);
    SeqByteAccepted(seqno);
  }

  // ---------- More data ----------

  /** A verdict other than "more data" stands whatever follows. */
  lemma VerdictStable(s: seq<byte>, more: seq<byte>)
    requires CheckPacket(s) != 0
    ensures CheckPacket(s + more) == CheckPacket(s)
  {
    hide Crc;
    var n := s[0] as int;
    if MESSAGE_MIN <= n <= |s| {
      assert (s + more)[..n - 3] == s[..n - 3];
      assert (s + more)[n - 3..n - 1] == s[n - 3..n - 1];
    }
  }

  /** An accepted frame is accepted on its own. */
  lemma AcceptedAlone(s: seq<byte>)
    requires CheckPacket(s) > 0
    ensures CheckPacket(s[..CheckPacket(s)]) == CheckPacket(s)
  {
    hide Crc;
    var n := CheckPacket(s);
    var f := s[..n];
    assert f[..n - 3] == s[..n - 3];
    assert f[n - 3..n - 1] == s[n - 3..n - 1];
  }

  /** Data the receiver keeps waiting on is shorter than one frame. */
  lemma WaitingIsShort(s: seq<byte>)
    requires CheckPacket(s) == 0
    ensures |s| < MESSAGE_MAX
  {
    hide Crc;
  }

  /** The receiver waits exactly when it has less than a smallest frame, or less
      than the length says after a fitting length and sequence byte. */
  lemma WaitsIff(s: seq<byte>)
    ensures CheckPacket(s) == 0 <==>
            || |s| < 5
            || (5 <= s[0] as int <= 64 && 16 <= s[1] as int < 32 && |s| < s[0] as int)
  {
    hide Crc;
    if |s| >= 2 { SequenceByte(s[1]); }
  }

  lemma SequenceByte(b: byte)
    ensures b & 0xf0 == 0x10 <==> 16 <= b as int < 32
  {
    if 16 <= b as int < 32 { ByteFromSixteen(b); }
  }

  // ---------- Corruption ----------

  /** `t` starts with the accepted frame `s`, corrupted anywhere but in its length byte. */
  predicate Corrupted(s: seq<byte>, t: seq<byte>) {
    var n := CheckPacket(s);
    n > 0 && |t| >= n && t[0] == s[0]
  }

  /** What the CRC covers, and the CRC. */
  function Covered(s: seq<byte>, n: nat): seq<byte>
    requires 5 <= n <= |s|
  {
    s[..n - 3]
  }

  function CrcBytes(s: seq<byte>, n: nat): (c: seq<byte>)
    requires 5 <= n <= |s|
    ensures |c| == 2
  {
    s[n - 3..n - 1]
  }

  /** The flipped bits of the two parts. */
  function DataFlips(s: seq<byte>, t: seq<byte>, n: nat): (d: seq<byte>)
    requires 5 <= n <= |s| && n <= |t|
    ensures |d| == n - 3
  {
    Difference(Covered(s, n), Covered(t, n))
  }

  function CrcFlips(s: seq<byte>, t: seq<byte>, n: nat): (d: seq<byte>)
    requires 5 <= n <= |s| && n <= |t|
    ensures |d| == 2
  {
    Difference(CrcBytes(s, n), CrcBytes(t, n))
  }

  /** A corrupted frame is accepted exactly when the bytes around the CRC pass
      and the flips in the data ask for just the flips in the CRC. */
  lemma CorruptedAcceptedIff(s: seq<byte>, t: seq<byte>)
    requires Corrupted(s, t)
    ensures var n := CheckPacket(s);
            CheckPacket(t) ==
              if t[1] & 0xf0 == 0x10 && t[n - 1] == MESSAGE_SYNC
                 && Feed(0, BitsOf(DataFlips(s, t, n))) == Packed(CrcFlips(s, t, n))
              then n else -1
  {
    hide Crc, Feed, BitsOf, Packed, Difference;
    var n := CheckPacket(s);
    FitsIff(Covered(s, n), Covered(t, n), CrcBytes(t, n));
  }

  lemma DifferenceOfFrame(s: seq<byte>, t: seq<byte>, n: nat)
    requires 5 <= n <= |s| && n <= |t|
    ensures Difference(s[..n], t[..n]) == DataFlips(s, t, n) + CrcFlips(s, t, n) + [XorByte(s[n - 1], t[n - 1])]
  {
    hide XorByte;
  }

  /** A burst that the receiver cannot see: it lies in the four bytes before the
      sync byte and is one of the twelve of Slips. */
  predicate UnseenBurst(s: seq<byte>, t: seq<byte>, n: nat)
    requires 5 <= n <= |s| && n <= |t|
  {
    && (forall i :: 0 <= i < n && !(n - 5 <= i < n - 1) ==> t[i] == s[i])
    && Slips(XorByte(s[n - 5], t[n - 5]), XorByte(s[n - 4], t[n - 4]), XorByte(s[n - 3], t[n - 3]), XorByte(s[n - 2], t[n - 2]))
  }

  /** A frame hit by a burst of up to 16 bits, CRC and sync byte included, is
      refused, but for these bursts; those pass. */
  lemma BurstRefusedUnless(s: seq<byte>, t: seq<byte>, p: nat)
    requires Corrupted(s, t) && s[..CheckPacket(s)] != t[..CheckPacket(s)]
    requires OnlyInWindow(BitsOf(Difference(s[..CheckPacket(s)], t[..CheckPacket(s)])), p)
    ensures var n := CheckPacket(s);
            CheckPacket(t) == if t[1] & 0xf0 == 0x10 && UnseenBurst(s, t, n) then n else -1
  {
    hide CheckPacket, Feed, BitsOf, Packed, Difference, SlippingTail, OnlyInWindow, Clear, DataFlips, CrcFlips;
    var n := CheckPacket(s);
    FrameParts(s);
    var d, c := DataFlips(s, t, n), CrcFlips(s, t, n);
    CorruptedAcceptedIff(s, t);
    UnseenIffSlipping(s, t, n);
    if t[n - 1] == s[n - 1] {
      DifferenceOfFrame(s, t, n);
      WithoutLast(d + c, XorByte(s[n - 1], t[n - 1]), p);
      XorByteVanishes(s[n - 1], t[n - 1]);
      DifferenceClear(s[..n], t[..n]);
      BurstSlipsIff(d, c, p);
    }
  }

  /** Such a burst, in the last data byte and the first CRC byte of a frame. */
  lemma UnseenBurstExists()
    ensures var s, t := [0x07, 0x10, 0x03, 0x05, 0xac, 0x50, 0x7e], [0x07, 0x10, 0x03, 0x94, 0x29, 0x50, 0x7e];
            CheckPacket(s) == 7 && CheckPacket(t) == 7 && UnseenBurst(s, t, 7)
  {
    hide CheckPacket, UnseenBurst, Crc;
    CrcsOfExamples();
    FourBytesAccepted(0x03, 0x05, 0xac, 0x50);
    FourBytesAccepted(0x03, 0x94, 0x29, 0x50);
    ExampleIsUnseen();
  }

  lemma FourBytesAccepted(a: byte, b: byte, hi: byte, lo: byte)
    requires Crc([0x07, 0x10, a, b]) == [hi, lo]
    ensures CheckPacket([0x07, 0x10, a, b, hi, lo, 0x7e]) == 7
  {
    hide Crc;
    var s: seq<byte> := [0x07, 0x10, a, b, hi, lo, 0x7e];
    assert s[..4] == [0x07, 0x10, a, b];
    assert s[4..6] == [hi, lo];
  }

  lemma ExampleIsUnseen()
    ensures UnseenBurst([0x07, 0x10, 0x03, 0x05, 0xac, 0x50, 0x7e], [0x07, 0x10, 0x03, 0x94, 0x29, 0x50, 0x7e], 7)
  {
  }

  lemma CrcsOfExamples()
    ensures Crc([0x07, 0x10, 0x03, 0x05]) == [0xac, 0x50]
    ensures Crc([0x07, 0x10, 0x03, 0x94]) == [0x29, 0x50]
  {
    hide Feed, BitsOf, Crc;
    CrcOfFour(0x07, 0x10, 0x03, 0x05, 0xac50);
    CrcOfFour(0x07, 0x10, 0x03, 0x94, 0x2950);
    assert Serialized(0xac50) == [0xac, 0x50] && Serialized(0x2950) == [0x29, 0x50];
  }

  lemma CrcOfFour(a: byte, b: byte, c: byte, d: byte, r: Register)
    requires Update(Update(Update(Update(0xffff, a), b), c), d) == Widened(r)
    ensures Crc([a, b, c, d]) == Serialized(r)
  {
    hide Feed, BitsOf, Update, Serialized, Widened;
    var s := [a, b, c, d];
    UpdatesAreFeed(s);
    assert [a][..0] == [] && Updates([a]) == Update(0xffff, a);
    assert [a, b][..1] == [a] && Updates([a, b]) == Update(Updates([a]), b);
    assert [a, b, c][..2] == [a, b] && Updates([a, b, c]) == Update(Updates([a, b]), c);
    assert s[..3] == [a, b, c];
    WidenedInjective(Feed(INITIAL, BitsOf(s)), r);
  }

  lemma WidenedInjective(a: Register, b: Register)
    requires Widened(a) == Widened(b)
    ensures a == b
  {
  }

  lemma FrameParts(s: seq<byte>)
    requires CheckPacket(s) > 0
    ensures 5 <= CheckPacket(s) <= |s| && s[CheckPacket(s) - 1] == MESSAGE_SYNC
  {
    hide Crc;
  }

  /** Dropping a last byte without flips. */
  lemma WithoutLast(d: seq<byte>, b: byte, p: nat)
    requires OnlyInWindow(BitsOf(d + [b]), p)
    ensures OnlyInWindow(BitsOf(d), p)
    ensures b == 0 ==> (Clear(BitsOf(d + [b])) <==> Clear(BitsOf(d)))
  {
    hide BitsOf, ByteBits;
    LastByte(d + [b]);
    assert (d + [b])[..|d + [b]| - 1] == d;
    assert forall i :: 0 <= i < |BitsOf(d)| ==> BitsOf(d + [b])[i] == BitsOf(d)[i];
    ClearTogether(BitsOf(d), ByteBits(b));
    ZeroBits(b);
  }

  lemma UnseenIffSlipping(s: seq<byte>, t: seq<byte>, n: nat)
    requires 5 <= n <= |s| && n <= |t|
    ensures UnseenBurst(s, t, n) <==> t[n - 1] == s[n - 1] && SlippingTail(DataFlips(s, t, n), CrcFlips(s, t, n))
  {
    hide XorByte, Slips;
    var d := DataFlips(s, t, n);
    forall i | 0 <= i < n - 3 ensures d[i] == 0 <==> s[i] == t[i] { XorByteVanishes(s[i], t[i]); }
  }

  lemma FlipsOfFrame(s: seq<byte>, t: seq<byte>, n: nat)
    requires 5 <= n <= |s| && n <= |t|
    ensures t[n - 1] == s[n - 1] ==>
              Flips(s[..n], t[..n]) == Ones(BitsOf(DataFlips(s, t, n))) + Ones(BitsOf(CrcFlips(s, t, n)))
  {
    hide BitsOf, Ones, Clear, Difference, XorByte, ByteBits;
    if t[n - 1] == s[n - 1] {
      var d, c, b := DataFlips(s, t, n), CrcFlips(s, t, n), XorByte(s[n - 1], t[n - 1]);
      DifferenceOfFrame(s, t, n);
      XorByteVanishes(s[n - 1], t[n - 1]);
      LastByte(d + c + [b]);
      assert (d + c + [b])[..n - 1] == d + c;
      BitsOfConcat(d, c);
      ZeroBits(b);
      ClearHasNoOnes(ByteBits(b));
      OnesConcat(BitsOf(d + c), ByteBits(b));
      OnesConcat(BitsOf(d), BitsOf(c));
    }
  }

  /** A frame in which an odd number of bits, or up to three, have been flipped
      anywhere but in the length byte is refused. */
  lemma FlipsRefused(s: seq<byte>, t: seq<byte>)
    requires Corrupted(s, t)
    requires var f := Flips(s[..CheckPacket(s)], t[..CheckPacket(s)]); f % 2 == 1 || f == 2
    ensures CheckPacket(t) == -1
  {
    hide CheckPacket, Feed, BitsOf, Packed, DataFlips, CrcFlips, Flips, Ones;
    var n := CheckPacket(s);
    FrameParts(s);
    CorruptedAcceptedIff(s, t);
    FlipsOfFrame(s, t, n);
    var d, c := DataFlips(s, t, n), CrcFlips(s, t, n);
    if Feed(0, BitsOf(d)) == Packed(c) && t[n - 1] == MESSAGE_SYNC {
      UnnoticedIsEven(d, c);
      FewBitsNoticed(d, c);
      assert false;
    }
  }
}
