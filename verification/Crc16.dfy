/** crc16_ccitt of msgproto.py: the byte-at-a-time loop, proved against the
    bit-at-a-time reflected CRC (polynomial 0x8408, initial value 0xffff, no
    final complement), and the linearity of that CRC.

    Facts about words of bits are proved in lemmas without induction; the
    inductions hide the word operations and use those lemmas only. */
module Crc16 {
  import opened Bytes

  type Register = bv16

  // ---------- The reference: one message bit at a time ----------

  function Shift(r: Register): Register {
    if r & 1 == 1 then (r >> 1) ^ 0x8408 else r >> 1
  }

  function Xor(a: Register, b: Register): Register { a ^ b }

  function BitWord(bit: bool): Register { if bit then 1 else 0 }

  /** The register after absorbing `bits`. */
  function Feed(r: Register, bits: seq<bool>): Register
    decreases |bits|
  {
    if bits == [] then r else Feed(Shift(Xor(r, BitWord(bits[0]))), bits[1..])
  }

  /** The bits of a byte in sending order, least significant first. */
  function ByteBits(b: byte): (bits: seq<bool>)
    ensures |bits| == 8
  {
    [b & 1 != 0, b & 2 != 0, b & 4 != 0, b & 8 != 0,
     b & 16 != 0, b & 32 != 0, b & 64 != 0, b & 128 != 0]
  }

  function BitsOf(buf: seq<byte>): (bits: seq<bool>)
    ensures |bits| == 8 * |buf|
  {
    if buf == [] then [] else BitsOf(buf[..|buf| - 1]) + ByteBits(buf[|buf| - 1])
  }

  /** The two bytes sent for a register value: high byte first. */
  function Serialized(r: Register): (s: seq<byte>)
    ensures |s| == 2
  {
    [(r >> 8) as bv8, (r & 0xff) as bv8]
  }

  const INITIAL: Register := 0xffff

  function Crc(buf: seq<byte>): (crc: seq<byte>)
    ensures |crc| == 2
  {
    Serialized(Feed(INITIAL, BitsOf(buf)))
  }

  // ---------- The loop of msgproto.py ----------

  /** One turn of the loop. Python's integers do not wrap, so the register gets
      32 bits and staying within 16 of them is a result, not an assumption. */
  function Update(crc: bv32, data: byte): bv32 {
    var d1 := (data as bv32) ^ (crc & 0xff);
    var d2 := d1 ^ ((d1 & 0x0f) << 4);
    ((d2 << 8) | (crc >> 8)) ^ (d2 >> 4) ^ (d2 << 3)
  }

  function Widened(r: Register): bv32 { r as bv32 }

  method Crc16Ccitt(buf: seq<byte>) returns (crcBytes: seq<byte>)
    ensures crcBytes == Crc(buf)
  {
    hide Update, Widened, Feed, Serialized;
    var crc: bv32 := 0xffff;
    for i := 0 to |buf|
      invariant crc == Updates(buf[..i])
    {
      assert buf[..i + 1][..i] == buf[..i];
      crc := Update(crc, buf[i]);
    }
    assert buf[..|buf|] == buf;
    UpdatesAreFeed(buf);
    SerializedWide(Feed(INITIAL, BitsOf(buf)));
    crcBytes := [(crc >> 8) as bv8, (crc & 0xff) as bv8];
  }

  lemma WidenedInitial()
    ensures Widened(INITIAL) == 0xffff
  {
  }

  /** The register never leaves 16 bits, so its high part is a byte. */
  lemma SerializedWide(r: Register)
    ensures Widened(r) >> 8 < 0x100
    ensures [(Widened(r) >> 8) as bv8, (Widened(r) & 0xff) as bv8] == Serialized(r)
  {
  }

  // ---------- Laws of one shift ----------

  /** The polynomial added to a word if the low bit says so. */
  function Terms(half: Register, low: Register): Register {
    half ^ (low << 15) ^ (low << 10) ^ (low << 3)
  }

  /** The shift without its case distinction. */
  function ShiftTerms(r: Register): Register {
    Terms(r >> 1, r & 1)
  }

  lemma ShiftIsShiftTerms(r: Register)
    ensures Shift(r) == ShiftTerms(r)
  {
    hide Terms;
    LowBitDecides(r);
    TermsByLowBit(r >> 1);
  }

  lemma TermsByLowBit(half: Register)
    ensures Terms(half, 1) == half ^ 0x8408 && Terms(half, 0) == half
  {
  }

  lemma LowBitDecides(r: Register)
    ensures r & 1 == 0 || r & 1 == 1
  {
  }

  lemma ShiftTermsLinear(a: Register, b: Register)
    ensures ShiftTerms(Xor(a, b)) == Xor(ShiftTerms(a), ShiftTerms(b))
  {
  }

  lemma ShiftLinear(a: Register, b: Register)
    ensures Shift(Xor(a, b)) == Xor(Shift(a), Shift(b))
  {
    hide Shift, ShiftTerms, Xor;
    ShiftTermsLinear(a, b);
    ShiftIsShiftTerms(a);
    ShiftIsShiftTerms(b);
    ShiftIsShiftTerms(Xor(a, b));
  }

  lemma ShiftKeepsNonZero(r: Register)
    ensures Shift(r) == 0 <==> r == 0
  {
  }

  lemma XorAssociates(a: Register, b: Register, c: Register)
    ensures Xor(a, Xor(b, c)) == Xor(Xor(a, b), c)
  {
  }

  lemma XorZero(a: Register)
    ensures Xor(a, 0) == a && Xor(0, a) == a
  {
  }

  lemma XorVanishes(a: Register, b: Register)
    ensures Xor(a, b) == 0 <==> a == b
  {
    hide Xor;
    XorCancels(a, b);
    XorZero(b);
  }

  lemma XorCancels(a: Register, b: Register)
    ensures Xor(Xor(a, b), b) == a && Xor(a, a) == 0
  {
  }

  lemma XorSwaps(a: Register, b: Register, c: Register, d: Register)
    ensures Xor(Xor(a, b), Xor(c, d)) == Xor(Xor(a, c), Xor(b, d))
  {
    hide Xor;
    XorAssociates(Xor(a, b), c, d);
    XorAssociates(a, b, c);
    XorCommutes(b, c);
    XorAssociates(a, c, b);
    XorAssociates(Xor(a, c), b, d);
  }

  lemma XorCommutes(a: Register, b: Register)
    ensures Xor(a, b) == Xor(b, a)
  {
  }

  function Doubled(r: Register): Register { r << 1 }

  /** No bit in common. */
  predicate Apart(a: Register, b: Register) { a & b == 0 }

  lemma ShiftUndoesDoubling(r: Register)
    requires Apart(r, 0x8000)
    ensures Shift(Doubled(r)) == r
  {
  }

  /** A word whose top bit is clear can be added one position up before a shift. */
  lemma ShiftAddsAbove(a: Register, b: Register)
    requires Apart(b, 0x8000)
    ensures Shift(Xor(a, Doubled(b))) == Xor(Shift(a), b)
  {
    hide Shift, Xor, Doubled, Apart;
    ShiftLinear(a, Doubled(b));
    ShiftUndoesDoubling(b);
  }

  lemma DoubledApart(bit: bool, b: Register, m: Register)
    requires Apart(b, m)
    ensures Apart(Xor(BitWord(bit), Doubled(b)), Doubled(m))
  {
  }

  lemma DoubledNonZero(bit: bool, b: Register)
    requires Apart(b, 0x8000)
    ensures Xor(BitWord(bit), Doubled(b)) == 0 <==> !bit && b == 0
  {
  }

  // ---------- A window of at most 16 bits is a word ----------

  function Shifts(r: Register, n: nat): Register
    decreases n
  {
    if n == 0 then r else Shifts(Shift(r), n - 1)
  }

  /** Up to 16 bits packed into a word, first bit lowest. */
  function Word(bits: seq<bool>): Register {
    if bits == [] then 0 else Xor(BitWord(bits[0]), Doubled(Word(bits[1..])))
  }

  /** The word whose bits n, n+1, ..., 15 are set. */
  function Above(n: nat): Register {
    if n == 0 then 0xffff else Doubled(Above(n - 1))
  }

  lemma AboveFifteen()
    ensures Above(15) == 0x8000
  {
    assert Above(4) == 0xfff0;
    assert Above(8) == 0xff00;
    assert Above(12) == 0xf000;
  }

  lemma ZeroApart(m: Register)
    ensures Apart(0, m)
  {
  }

  lemma {:induction false} WordFits(bits: seq<bool>, n: nat)
    requires |bits| <= n
    ensures Apart(Word(bits), Above(n))
    decreases |bits|
  {
    hide Apart, Xor, Doubled, BitWord;
    if bits == [] {
      ZeroApart(Above(n));
    } else {
      WordFits(bits[1..], n - 1);
      DoubledApart(bits[0], Word(bits[1..]), Above(n - 1));
    }
  }

  lemma ShortWordFits(bits: seq<bool>)
    requires |bits| <= 15
    ensures Apart(Word(bits), 0x8000)
  {
    hide Apart, Xor, Doubled, BitWord;
    WordFits(bits, 15);
    AboveFifteen();
  }

  /** Feeding up to 16 bits is xoring them in at once and shifting. */
  lemma {:induction false} FeedIsShifts(r: Register, bits: seq<bool>)
    requires |bits| <= 16
    ensures Feed(r, bits) == Shifts(Xor(r, Word(bits)), |bits|)
    decreases |bits|
  {
    hide Shift, Xor, BitWord, Doubled, Apart;
    if bits == [] {
      XorZero(r);
    } else {
      var b, w := BitWord(bits[0]), Word(bits[1..]);
      ShortWordFits(bits[1..]);
      ShiftAddsAbove(Xor(r, b), w);
      XorAssociates(r, b, Doubled(w));
      FeedIsShifts(Shift(Xor(r, b)), bits[1..]);
    }
  }

  lemma {:induction false} FeedConcat(r: Register, a: seq<bool>, b: seq<bool>)
    ensures Feed(r, a + b) == Feed(Feed(r, a), b)
    decreases |a|
  {
    hide Shift, Xor, BitWord;
    if a == [] {
      assert a + b == b;
    } else {
      assert (a + b)[1..] == a[1..] + b;
      FeedConcat(Shift(Xor(r, BitWord(a[0]))), a[1..], b);
    }
  }

  // ---------- The byte step is eight bit steps ----------

  function FourShifts(r: Register): Register {
    (r >> 4) ^ ((r & 15) << 12) ^ ((r & 15) << 7) ^ (r & 15)
  }

  lemma FourShiftTerms(r: Register)
    ensures ShiftTerms(ShiftTerms(ShiftTerms(ShiftTerms(r)))) == FourShifts(r)
  {
  }

  lemma FourShiftsCorrect(r: Register)
    ensures Shift(Shift(Shift(Shift(r)))) == FourShifts(r)
  {
    hide Shift, ShiftTerms, FourShifts;
    ShiftIsShiftTerms(r);
    ShiftIsShiftTerms(ShiftTerms(r));
    ShiftIsShiftTerms(ShiftTerms(ShiftTerms(r)));
    ShiftIsShiftTerms(ShiftTerms(ShiftTerms(ShiftTerms(r))));
    FourShiftTerms(r);
  }

  lemma EightShifts(r: Register)
    ensures Shifts(r, 8) == FourShifts(FourShifts(r))
  {
    hide Shift, FourShifts;
    var s := FourShifts(r);
    FourShiftsCorrect(r);
    FourShiftsCorrect(s);
    assert Shifts(r, 8) == Shifts(Shift(Shift(r)), 6) == Shifts(s, 4);
    assert Shifts(s, 4) == Shifts(Shift(Shift(s)), 2);
  }

  function OfByte(d: byte): Register { d as bv16 }

  /** A byte's word, rebuilt from its bits n, n+1, ..., 7. */
  function FromBit(d: byte, n: nat): Register
    requires n <= 8
    decreases 8 - n
  {
    if n == 8 then 0 else Xor(BitWord(ByteBits(d)[n]), Doubled(FromBit(d, n + 1)))
  }

  lemma EightBits(d: byte)
    ensures OfByte(d) ==
            Xor(BitWord(d & 1 != 0), Doubled(Xor(BitWord(d & 2 != 0), Doubled(Xor(BitWord(d & 4 != 0),
            Doubled(Xor(BitWord(d & 8 != 0), Doubled(Xor(BitWord(d & 16 != 0), Doubled(Xor(BitWord(d & 32 != 0),
            Doubled(Xor(BitWord(d & 64 != 0), Doubled(Xor(BitWord(d & 128 != 0), Doubled(0))))))))))))))))
  {
  }

  lemma {:induction false} WordFromBit(d: byte, n: nat)
    requires n <= 8
    ensures Word(ByteBits(d)[n..]) == FromBit(d, n)
    decreases 8 - n
  {
    hide Xor, BitWord, Doubled, ByteBits;
    if n < 8 {
      assert ByteBits(d)[n..][1..] == ByteBits(d)[n + 1..];
      WordFromBit(d, n + 1);
    }
  }

  lemma ByteWord(d: byte)
    ensures Word(ByteBits(d)) == OfByte(d)
  {
    hide Xor, BitWord, Doubled, OfByte;
    WordFromBit(d, 0);
    assert ByteBits(d)[0..] == ByteBits(d);
    assert FromBit(d, 7) == Xor(BitWord(d & 128 != 0), Doubled(FromBit(d, 8)));
    assert FromBit(d, 6) == Xor(BitWord(d & 64 != 0), Doubled(Xor(BitWord(d & 128 != 0), Doubled(0))));
    assert FromBit(d, 4) == Xor(BitWord(d & 16 != 0), Doubled(Xor(BitWord(d & 32 != 0), Doubled(FromBit(d, 6)))));
    assert FromBit(d, 2) == Xor(BitWord(d & 4 != 0), Doubled(Xor(BitWord(d & 8 != 0), Doubled(FromBit(d, 4)))));
    EightBits(d);
  }

  /** Update, which depends on the register and the data only through their sum. */
  function UpdateSum(x: Register): bv32 {
    var d1 := (x as bv32) & 0xff;
    var d2 := d1 ^ ((d1 & 0x0f) << 4);
    ((d2 << 8) | ((x as bv32) >> 8)) ^ (d2 >> 4) ^ (d2 << 3)
  }

  lemma UpdateIsUpdateSum(r: Register, d: byte)
    ensures Update(Widened(r), d) == UpdateSum(Xor(r, OfByte(d)))
  {
    hide Update, UpdateSum;
    UpdateWords(r, d);
  }

  lemma UpdateWords(r: bv16, d: bv8)
    ensures Update(r as bv32, d) == UpdateSum(r ^ (d as bv16))
  {
  }

  lemma UpdateSumIsFourShiftsTwice(x: Register)
    ensures UpdateSum(x) == Widened(FourShifts(FourShifts(x)))
  {
  }

  lemma UpdateIsEightShifts(r: Register, d: byte)
    ensures Update(Widened(r), d) == Widened(Feed(r, ByteBits(d)))
  {
    hide Update, UpdateSum, Widened, Shift, FourShifts, Xor, OfByte, ByteBits;
    FeedIsShifts(r, ByteBits(d));
    ByteWord(d);
    EightShifts(Xor(r, OfByte(d)));
    UpdateIsUpdateSum(r, d);
    UpdateSumIsFourShiftsTwice(Xor(r, OfByte(d)));
  }

  /** The register after the loop. */
  function Updates(buf: seq<byte>): bv32 {
    if buf == [] then 0xffff else Update(Updates(buf[..|buf| - 1]), buf[|buf| - 1])
  }

  lemma {:induction false} UpdatesAreFeed(buf: seq<byte>)
    ensures Updates(buf) == Widened(Feed(INITIAL, BitsOf(buf)))
    decreases |buf|
  {
    hide Update, Widened, ByteBits, Shift, Xor, BitWord;
    if buf == [] {
      WidenedInitial();
    } else {
      var n := |buf| - 1;
      UpdatesAreFeed(buf[..n]);
      UpdateIsEightShifts(Feed(INITIAL, BitsOf(buf[..n])), buf[n]);
      FeedConcat(INITIAL, BitsOf(buf[..n]), ByteBits(buf[n]));
    }
  }

  // ---------- Linearity ----------

  function XorBits(a: seq<bool>, b: seq<bool>): (d: seq<bool>)
    requires |a| == |b|
    ensures |d| == |a|
  {
    seq(|a|, i requires 0 <= i < |a| => a[i] != b[i])
  }

  lemma BitWordLinear(a: bool, b: bool)
    ensures Xor(BitWord(a), BitWord(b)) == BitWord(a != b)
  {
  }

  /** The difference of two registers depends only on the difference of the bits fed. */
  lemma {:induction false} FeedLinear(r: Register, s: Register, a: seq<bool>, b: seq<bool>)
    requires |a| == |b|
    ensures Xor(Feed(r, a), Feed(s, b)) == Feed(Xor(r, s), XorBits(a, b))
    decreases |a|
  {
    hide Shift, Xor, BitWord;
    if a != [] {
      var ra, sb := Xor(r, BitWord(a[0])), Xor(s, BitWord(b[0]));
      FeedLinear(Shift(ra), Shift(sb), a[1..], b[1..]);
      ShiftLinear(ra, sb);
      XorSwaps(r, BitWord(a[0]), s, BitWord(b[0]));
      BitWordLinear(a[0], b[0]);
      assert XorBits(a, b)[1..] == XorBits(a[1..], b[1..]);
    }
  }
}
