/** The error patterns the CRC of Crc16.dfy is bound to detect, in what it covers
    and in the CRC bytes themselves. */
module CrcErrors {
  import opened Bytes
  import opened Crc16

  // ---------- Differences ----------

  function XorByte(a: byte, b: byte): byte { a ^ b }

  /** Byte by byte, the bits at which two buffers differ. */
  function Difference(x: seq<byte>, y: seq<byte>): (d: seq<byte>)
    requires |x| == |y|
    ensures |d| == |x|
  {
    seq(|x|, i requires 0 <= i < |x| => XorByte(x[i], y[i]))
  }

  lemma XorByteVanishes(a: byte, b: byte)
    ensures XorByte(a, b) == 0 <==> a == b
  {
  }

  lemma ByteBitsDiffer(a: byte, b: byte, k: nat)
    requires k < 8
    ensures ByteBits(XorByte(a, b))[k] == (ByteBits(a)[k] != ByteBits(b)[k])
  {
    if k < 4 { LowBitsDiffer(a, b); } else { HighBitsDiffer(a, b); }
  }

  lemma LowBitsDiffer(a: byte, b: byte)
    ensures forall k :: 0 <= k < 4 ==> ByteBits(XorByte(a, b))[k] == (ByteBits(a)[k] != ByteBits(b)[k])
  {
  }

  lemma HighBitsDiffer(a: byte, b: byte)
    ensures forall k :: 4 <= k < 8 ==> ByteBits(XorByte(a, b))[k] == (ByteBits(a)[k] != ByteBits(b)[k])
  {
  }

  lemma {:induction false} BitAt(x: seq<byte>, i: nat)
    requires i < 8 * |x|
    ensures BitsOf(x)[i] == ByteBits(x[i / 8])[i % 8]
    decreases |x|
  {
    hide ByteBits;
    var n := |x| - 1;
    if i < 8 * n { BitAt(x[..n], i); }
  }

  lemma BitsOfDifference(x: seq<byte>, y: seq<byte>)
    requires |x| == |y|
    ensures BitsOf(Difference(x, y)) == XorBits(BitsOf(x), BitsOf(y))
  {
    hide ByteBits, BitsOf, XorByte;
    var d := Difference(x, y);
    forall i | 0 <= i < 8 * |d| ensures BitsOf(d)[i] == XorBits(BitsOf(x), BitsOf(y))[i] {
      BitAt(d, i);
      BitAt(x, i);
      BitAt(y, i);
      ByteBitsDiffer(x[i / 8], y[i / 8], i % 8);
    }
  }

  /** The CRC bytes as a register again. */
  function Packed(c: seq<byte>): Register
    requires |c| == 2
  {
    ((c[0] as bv16) << 8) | (c[1] as bv16)
  }

  lemma PackedSerialized(r: Register)
    ensures Packed(Serialized(r)) == r
  {
    PackedHalves(r);
  }

  lemma PackedHalves(r: Register)
    ensures ((((r >> 8) as bv8) as bv16) << 8) | (((r & 0xff) as bv8) as bv16) == r
  {
  }

  lemma PackedDifference(c: seq<byte>, e: seq<byte>)
    requires |c| == |e| == 2
    ensures Packed(Difference(c, e)) == Xor(Packed(c), Packed(e))
  {
    PackedWords(c[0], c[1], e[0], e[1]);
  }

  lemma PackedWords(a: bv8, b: bv8, c: bv8, d: bv8)
    ensures (((a ^ c) as bv16) << 8) | ((b ^ d) as bv16) == ((((a as bv16) << 8) | (b as bv16)) ^ (((c as bv16) << 8) | (d as bv16)))
  {
  }

  lemma PackedInjective(c: seq<byte>, e: seq<byte>)
    requires |c| == |e| == 2 && Packed(c) == Packed(e)
    ensures c == e
  {
    HalvesOfPacked(c[0], c[1]);
    HalvesOfPacked(e[0], e[1]);
  }

  lemma HalvesOfPacked(a: bv8, b: bv8)
    ensures var r := ((a as bv16) << 8) | (b as bv16); (r >> 8) as bv8 == a && (r & 0xff) as bv8 == b
  {
  }

  /** Whether a corrupted buffer fits its corrupted CRC depends only on where bits
      were flipped, and not on what was sent. */
  lemma FitsIff(x: seq<byte>, y: seq<byte>, c: seq<byte>)
    requires |x| == |y| && |c| == 2
    ensures Crc(y) == c <==> Feed(0, BitsOf(Difference(x, y))) == Packed(Difference(Crc(x), c))
  {
    hide Shift, Xor, BitsOf, Difference, Packed, Serialized, Feed;
    var fx, fy := Feed(INITIAL, BitsOf(x)), Feed(INITIAL, BitsOf(y));
    BitsOfDifference(x, y);
    FeedLinear(INITIAL, INITIAL, BitsOf(x), BitsOf(y));
    XorVanishes(INITIAL, INITIAL);
    PackedDifference(Crc(x), c);
    PackedSerialized(fx);
    PackedSerialized(fy);
    XorLeft(fx, fy, Packed(c));
    if Packed(c) == fy { PackedInjective(c, Serialized(fy)); }
  }

  lemma XorLeft(a: Register, b: Register, c: Register)
    ensures Xor(a, b) == Xor(a, c) <==> b == c
  {
    XorWords(a, b, c);
  }

  lemma XorWords(a: bv16, b: bv16, c: bv16)
    ensures a ^ b == a ^ c <==> b == c
  {
  }

  // ---------- Bursts ----------

  /** Bit i may differ only inside the 16-bit window at p. */
  predicate OnlyInWindow(d: seq<bool>, p: nat) {
    forall i :: 0 <= i < |d| && !(p <= i < p + 16) ==> !d[i]
  }

  predicate Clear(d: seq<bool>) {
    forall i :: 0 <= i < |d| ==> !d[i]
  }

  lemma {:induction false} ShiftsKeepNonZero(r: Register, n: nat)
    ensures Shifts(r, n) == 0 <==> r == 0
    decreases n
  {
    hide Shift;
    ShiftKeepsNonZero(r);
    if n > 0 { ShiftsKeepNonZero(Shift(r), n - 1); }
  }

  lemma {:induction false} WordNonZero(bits: seq<bool>)
    requires |bits| <= 16
    ensures Word(bits) == 0 <==> Clear(bits)
    decreases |bits|
  {
    hide Xor, BitWord, Doubled, Apart;
    if bits != [] {
      ShortWordFits(bits[1..]);
      WordNonZero(bits[1..]);
      DoubledNonZero(bits[0], Word(bits[1..]));
      assert !bits[0] && Clear(bits[1..]) ==> Clear(bits) by {
        assert forall i :: 0 < i < |bits| ==> bits[i] == bits[1..][i - 1];
      }
    }
  }

  lemma ZeroBits(b: byte)
    ensures Clear(ByteBits(b)) <==> b == 0
  {
    hide ByteBits, Word;
    ByteWord(b);
    WordNonZero(ByteBits(b));
    OfByteVanishes(b);
  }

  lemma OfByteVanishes(b: byte)
    ensures OfByte(b) == 0 <==> b == 0
  {
  }

  /** Clear bits shift the register and nothing else. */
  lemma {:induction false} FeedClear(r: Register, bits: seq<bool>)
    requires Clear(bits)
    ensures Feed(r, bits) == Shifts(r, |bits|)
    decreases |bits|
  {
    hide Shift, Xor;
    if bits != [] {
      XorZero(r);
      assert BitWord(bits[0]) == 0;
      FeedClear(Shift(r), bits[1..]);
    }
  }

  lemma ClearKeepsNonZero(r: Register, bits: seq<bool>)
    requires Clear(bits)
    ensures Feed(r, bits) == 0 <==> r == 0
  {
    hide Feed, Shifts, Clear;
    FeedClear(r, bits);
    ShiftsKeepNonZero(r, |bits|);
  }

  lemma WindowLeavesNonZero(window: seq<bool>)
    requires |window| <= 16
    ensures Feed(0, window) == 0 <==> Clear(window)
  {
    hide Shift, Xor, BitWord, Word, Feed, Shifts, Clear;
    FeedIsShifts(0, window);
    XorZero(Word(window));
    WordNonZero(window);
    ShiftsKeepNonZero(Word(window), |window|);
  }

  lemma FeedThree(r: Register, a: seq<bool>, b: seq<bool>, c: seq<bool>)
    ensures Feed(r, a + b + c) == Feed(Feed(Feed(r, a), b), c)
  {
    hide Feed;
    FeedConcat(r, a + b, c);
    FeedConcat(r, a, b);
  }

  /** The end of the window at p. */
  function WindowEnd(d: seq<bool>, p: nat): nat
    requires p <= |d|
  {
    if p + 16 < |d| then p + 16 else |d|
  }

  lemma WindowParts(d: seq<bool>, p: nat)
    requires OnlyInWindow(d, p) && p <= |d|
    ensures var q := WindowEnd(d, p);
            && d == d[..p] + d[p..q] + d[q..] && Clear(d[..p]) && Clear(d[q..])
            && (Clear(d[p..q]) ==> Clear(d))
  {
    var q := WindowEnd(d, p);
    if Clear(d[p..q]) {
      forall i | 0 <= i < |d| ensures !d[i] {
        if p <= i < q { assert !d[p..q][i - p]; }
      }
    }
  }

  lemma PastTheEnd(d: seq<bool>, p: nat)
    requires OnlyInWindow(d, p) && p >= |d|
    ensures Clear(d)
  {
  }

  /** A difference confined to 16 consecutive bits leaves the register changed. */
  lemma BurstLeavesNonZero(d: seq<bool>, p: nat)
    requires OnlyInWindow(d, p) && !Clear(d)
    ensures Feed(0, d) != 0
  {
    hide Feed, Clear, OnlyInWindow;
    if p >= |d| {
      PastTheEnd(d, p);
      assert false;
    }
    var q := WindowEnd(d, p);
    var before, window, behind := d[..p], d[p..q], d[q..];
    WindowParts(d, p);
    FeedThree(0, before, window, behind);
    ClearKeepsNonZero(0, before);
    WindowLeavesNonZero(window);
    ClearKeepsNonZero(Feed(0, window), behind);
  }

  /** The bits of the i-th byte. */
  lemma ByteOfBits(d: seq<byte>, i: nat)
    requires i < |d|
    ensures BitsOf(d)[8 * i..8 * i + 8] == ByteBits(d[i])
  {
    hide ByteBits, BitsOf;
    var bits := BitsOf(d)[8 * i..8 * i + 8];
    forall k | 0 <= k < 8 ensures bits[k] == ByteBits(d[i])[k] {
      BitAt(d, 8 * i + k);
      WithinByte(i, k);
    }
  }

  lemma WithinByte(i: nat, k: nat)
    requires k < 8
    ensures (8 * i + k) / 8 == i && (8 * i + k) % 8 == k
  {
  }

  /** Bits are clear exactly when the bytes are zero. */
  lemma ClearIffZero(d: seq<byte>)
    ensures Clear(BitsOf(d)) <==> forall i :: 0 <= i < |d| ==> d[i] == 0
  {
    hide ByteBits, BitsOf;
    var bits := BitsOf(d);
    if Clear(bits) {
      forall i | 0 <= i < |d| ensures d[i] == 0 {
        ByteOfBits(d, i);
        ZeroBits(d[i]);
      }
    }
    if forall i :: 0 <= i < |d| ==> d[i] == 0 {
      forall k | 0 <= k < |bits| ensures !bits[k] {
        BitAt(d, k);
        ZeroBits(d[k / 8]);
      }
    }
  }

  lemma DifferenceClear(x: seq<byte>, y: seq<byte>)
    requires |x| == |y|
    ensures Clear(BitsOf(Difference(x, y))) <==> x == y
  {
    hide BitsOf, XorByte, Clear;
    var d := Difference(x, y);
    ClearIffZero(d);
    forall i | 0 <= i < |x| ensures d[i] == 0 <==> x[i] == y[i] { XorByteVanishes(x[i], y[i]); }
    if forall i :: 0 <= i < |d| ==> d[i] == 0 { assert forall i :: 0 <= i < |x| ==> x[i] == y[i]; }
  }

  /** Any error burst of up to 16 consecutive bits, wherever it starts, changes the CRC ... */
  lemma BurstDetected(x: seq<byte>, y: seq<byte>, p: nat)
    requires |x| == |y| && x != y && OnlyInWindow(XorBits(BitsOf(x), BitsOf(y)), p)
    ensures Crc(x) != Crc(y)
  {
    hide BitsOf, Difference, Packed, Crc, Clear, OnlyInWindow, Feed;
    BitsOfDifference(x, y);
    DifferenceClear(x, y);
    BurstLeavesNonZero(BitsOf(Difference(x, y)), p);
    FitsIff(x, y, Crc(x));
    NoDifference(Crc(x));
  }

  lemma NoDifference(c: seq<byte>)
    requires |c| == 2
    ensures Packed(Difference(c, c)) == 0
  {
    hide XorByte;
    XorByteVanishes(c[0], c[0]);
    XorByteVanishes(c[1], c[1]);
  }

  /** ... and so does every change inside two adjacent bytes. */
  lemma AdjacentBytesDetected(x: seq<byte>, y: seq<byte>, k: nat)
    requires |x| == |y| && x != y
    requires forall i :: 0 <= i < |x| && i != k && i != k + 1 ==> x[i] == y[i]
    ensures Crc(x) != Crc(y)
  {
    hide BitsOf, ByteBits, Crc;
    forall i | 0 <= i < 8 * |x| && !(8 * k <= i < 8 * k + 16)
      ensures BitsOf(x)[i] == BitsOf(y)[i]
    {
      BitAt(x, i);
      BitAt(y, i);
    }
    BurstDetected(x, y, 8 * k);
  }

  // ---------- Bursts that reach the CRC ----------

  /** Two bytes as a word in sending order. */
  function Pair(a: byte, b: byte): Register {
    (a as bv16) | ((b as bv16) << 8)
  }

  function DoubledBy(r: Register, n: nat): Register
    decreases n
  {
    if n == 0 then r else Doubled(DoubledBy(r, n - 1))
  }

  lemma DoubledLinear(a: Register, b: Register)
    ensures Doubled(Xor(a, b)) == Xor(Doubled(a), Doubled(b))
  {
  }

  lemma {:induction false} WordConcat(a: seq<bool>, b: seq<bool>)
    ensures Word(a + b) == Xor(Word(a), DoubledBy(Word(b), |a|))
    decreases |a|
  {
    hide Xor, Doubled, BitWord;
    if a == [] {
      assert a + b == b;
      XorZero(Word(b));
    } else {
      assert (a + b)[1..] == a[1..] + b;
      WordConcat(a[1..], b);
      DoubledLinear(Word(a[1..]), DoubledBy(Word(b), |a| - 1));
      XorAssociates(BitWord(a[0]), Doubled(Word(a[1..])), DoubledBy(Word(b), |a|));
    }
  }

  lemma DoubledEightTimes(a: byte, b: byte)
    ensures Xor(OfByte(a), DoubledBy(OfByte(b), 8)) == Pair(a, b)
  {
    hide Doubled, Pair, Xor, OfByte;
    var w := OfByte(b);
    assert DoubledBy(w, 2) == Doubled(Doubled(w));
    assert DoubledBy(w, 4) == Doubled(Doubled(DoubledBy(w, 2)));
    assert DoubledBy(w, 6) == Doubled(Doubled(DoubledBy(w, 4)));
    assert DoubledBy(w, 8) == Doubled(Doubled(DoubledBy(w, 6)));
    PairIsEightDoublings(a, b);
  }

  lemma PairIsEightDoublings(a: byte, b: byte)
    ensures Xor(OfByte(a), Doubled(Doubled(Doubled(Doubled(Doubled(Doubled(Doubled(Doubled(OfByte(b)))))))))) == Pair(a, b)
  {
  }

  lemma WordOfTwo(a: byte, b: byte)
    ensures Word(ByteBits(a) + ByteBits(b)) == Pair(a, b)
  {
    hide Word, ByteBits, Pair, Xor, DoubledBy;
    WordConcat(ByteBits(a), ByteBits(b));
    ByteWord(a);
    ByteWord(b);
    DoubledEightTimes(a, b);
  }

  function Sixteen(r: Register): Register {
    FourShifts(FourShifts(FourShifts(FourShifts(r))))
  }

  lemma {:induction false} ShiftsAdd(r: Register, m: nat, n: nat)
    ensures Shifts(r, m + n) == Shifts(Shifts(r, m), n)
    decreases m
  {
    hide Shift;
    if m > 0 { ShiftsAdd(Shift(r), m - 1, n); }
  }

  lemma SixteenShifts(r: Register)
    ensures Shifts(r, 16) == Sixteen(r)
  {
    hide Shifts, FourShifts;
    ShiftsAdd(r, 8, 8);
    EightShifts(r);
    EightShifts(Shifts(r, 8));
  }

  /** What two bytes at the end of the data do to the register. */
  lemma FeedTwoBytes(a: byte, b: byte)
    ensures Feed(0, ByteBits(a) + ByteBits(b)) == Sixteen(Pair(a, b))
  {
    hide Feed, Word, ByteBits, Pair, Xor, Shifts, Sixteen;
    FeedIsShifts(0, ByteBits(a) + ByteBits(b));
    WordOfTwo(a, b);
    XorZero(Pair(a, b));
    SixteenShifts(Pair(a, b));
  }

  /** The word whose bits 0, 1, ..., n - 1 are set. */
  function Below(n: nat): Register {
    if n == 0 then 0 else Xor(1, Doubled(Below(n - 1)))
  }

  function Flipped(m: Register): Register { m ^ 0xffff }

  /** Of the form 2^n - 1. */
  predicate IsMask(m: Register) { m & (m + 1) == 0 }

  lemma MaskStep(m: Register)
    requires IsMask(m)
    ensures IsMask(Xor(1, Doubled(m)))
  {
  }

  lemma {:induction false} BelowIsMask(n: nat)
    ensures IsMask(Below(n))
  {
    hide Xor, Doubled, IsMask;
    if n == 0 { assert IsMask(0) by { ZeroIsMask(); } } else {
      BelowIsMask(n - 1);
      MaskStep(Below(n - 1));
    }
  }

  lemma ZeroIsMask()
    ensures IsMask(0)
  {
  }

  lemma StartStep(w: Register, m: Register)
    requires Apart(w, m)
    ensures Apart(Xor(BitWord(false), Doubled(w)), Xor(1, Doubled(m)))
  {
  }

  lemma EndStep(bit: bool, w: Register, m: Register)
    requires Apart(w, Flipped(m))
    ensures Apart(Xor(BitWord(bit), Doubled(w)), Flipped(Xor(1, Doubled(m))))
  {
  }

  lemma ApartZero(w: Register)
    ensures Apart(w, 0) && Apart(0, w)
  {
  }

  lemma {:induction false} StartsClear(bits: seq<bool>, n: nat)
    requires n <= |bits| && Clear(bits[..n])
    ensures Apart(Word(bits), Below(n))
    decreases n
  {
    hide Xor, Doubled, Apart, BitWord;
    if n == 0 {
      ApartZero(Word(bits));
    } else {
      assert bits[1..][..n - 1] == bits[..n][1..];
      assert !bits[..n][0];
      StartsClear(bits[1..], n - 1);
      StartStep(Word(bits[1..]), Below(n - 1));
    }
  }

  lemma {:induction false} EndsClear(bits: seq<bool>, n: nat)
    requires n <= |bits| <= 16 && Clear(bits[n..])
    ensures Apart(Word(bits), Flipped(Below(n)))
    decreases n
  {
    hide Xor, Doubled, Apart, BitWord, Flipped;
    if n == 0 {
      assert bits[0..] == bits;
      WordNonZero(bits);
      ApartZero(Flipped(Below(0)));
    } else {
      assert bits[1..][n - 1..] == bits[n..];
      EndsClear(bits[1..], n - 1);
      EndStep(bits[0], Word(bits[1..]), Below(n - 1));
    }
  }

  /** The differences in the last two data bytes and the two CRC bytes that go
      unnoticed although they lie in 16 consecutive bits: the CRC is sent high
      byte first, while its bits are computed low bit first. */
  predicate Slips(a: byte, b: byte, hi: byte, lo: byte) {
    || (a == 0x00 && b == 0x20 && hi == 0x21 && lo == 0x02)
    || (a == 0x00 && b == 0x40 && hi == 0x42 && lo == 0x04)
    || (a == 0x00 && b == 0x60 && hi == 0x63 && lo == 0x06)
    || (a == 0x00 && b == 0x80 && hi == 0x84 && lo == 0x08)
    || (a == 0x00 && b == 0x91 && hi == 0x85 && lo == 0x00)
    || (a == 0x00 && b == 0xa0 && hi == 0xa5 && lo == 0x0a)
    || (a == 0x00 && b == 0xc0 && hi == 0xc6 && lo == 0x0c)
    || (a == 0x00 && b == 0xe0 && hi == 0xe7 && lo == 0x0e)
    || (a == 0x10 && b == 0xa3 && hi == 0x02 && lo == 0x00)
    || (a == 0x40 && b == 0xac && hi == 0x29 && lo == 0x00)
    || (a == 0x88 && b == 0x51 && hi == 0x01 && lo == 0x00)
    || (a == 0x98 && b == 0xf2 && hi == 0x03 && lo == 0x00)
  }

  lemma OnlyTheseSlip(a: byte, b: byte, hi: byte, lo: byte, n: Register)
    requires IsMask(n) && Apart(Pair(a, b), n) && Apart(Pair(hi, lo), Flipped(n))
    requires a != 0 || b != 0
    requires Sixteen(Pair(a, b)) == Packed([hi, lo])
    ensures Slips(a, b, hi, lo)
  {
  }

  lemma TheseSlip(a: byte, b: byte, hi: byte, lo: byte)
    requires Slips(a, b, hi, lo)
    ensures Sixteen(Pair(a, b)) == Packed([hi, lo])
  {
  }

  /** The difference is in the last two data bytes and the CRC, and slips. */
  predicate SlippingTail(d: seq<byte>, c: seq<byte>)
    requires |d| >= 2 && |c| == 2
  {
    (forall i :: 0 <= i < |d| - 2 ==> d[i] == 0) && Slips(d[|d| - 2], d[|d| - 1], c[0], c[1])
  }

  lemma LastTwoBytes(d: seq<byte>)
    requires |d| >= 2
    ensures var n := |d| - 2; BitsOf(d) == BitsOf(d[..n]) + (ByteBits(d[n]) + ByteBits(d[n + 1]))
  {
    hide ByteBits, BitsOf;
    var n := |d| - 2;
    LastByte(d);
    LastByte(d[..n + 1]);
    assert d[..n + 1][..n] == d[..n];
    BitsAssociate(BitsOf(d[..n]), ByteBits(d[n]), ByteBits(d[n + 1]));
  }

  lemma BitsAssociate(a: seq<bool>, b: seq<bool>, c: seq<bool>)
    ensures (a + b) + c == a + (b + c)
  {
  }

  lemma LastByte(d: seq<byte>)
    requires d != []
    ensures BitsOf(d) == BitsOf(d[..|d| - 1]) + ByteBits(d[|d| - 1])
  {
    hide ByteBits;
  }

  lemma FeedTail(d: seq<byte>)
    requires |d| >= 2 && forall i :: 0 <= i < |d| - 2 ==> d[i] == 0
    ensures Feed(0, BitsOf(d)) == Sixteen(Pair(d[|d| - 2], d[|d| - 1]))
  {
    hide Feed, BitsOf, ByteBits, Pair, Sixteen, Clear;
    var n := |d| - 2;
    LastTwoBytes(d);
    ClearIffZero(d[..n]);
    FeedConcat(0, BitsOf(d[..n]), ByteBits(d[n]) + ByteBits(d[n + 1]));
    ClearKeepsNonZero(0, BitsOf(d[..n]));
    FeedTwoBytes(d[n], d[n + 1]);
  }

  lemma WindowOfData(d: seq<byte>, c: seq<byte>, p: nat)
    requires |d| >= 2 && |c| == 2 && OnlyInWindow(BitsOf(d + c), p)
    ensures BitsOf(d + c) == BitsOf(d) + BitsOf(c)
    ensures OnlyInWindow(BitsOf(d), p)
    ensures p + 16 <= 8 * |d| ==> Clear(BitsOf(c))
    ensures p >= 8 * |d| ==> Clear(BitsOf(d))
    ensures 8 * |d| - 16 < p < 8 * |d| ==>
              var q := p + 16 - 8 * |d|;
              && Clear(BitsOf(d)[..8 * |d| - 16]) && Clear(BitsOf(d)[8 * |d| - 16..][..q]) && Clear(BitsOf(c)[q..])
  {
    hide BitsOf;
    BitsOfConcat(d, c);
    var bits, n := BitsOf(d + c), 8 * |d|;
    assert forall i :: 0 <= i < n ==> BitsOf(d)[i] == bits[i];
    assert forall i :: 0 <= i < 16 ==> BitsOf(c)[i] == bits[n + i];
  }

  lemma {:induction false} BitsOfConcat(a: seq<byte>, b: seq<byte>)
    ensures BitsOf(a + b) == BitsOf(a) + BitsOf(b)
    decreases |b|
  {
    hide ByteBits, BitsOf;
    if b == [] {
      assert a + b == a;
      assert BitsOf(b) == [];
      assert BitsOf(a) + [] == BitsOf(a);
    } else {
      var n := |b| - 1;
      LastByte(b);
      LastByte(a + b);
      assert (a + b)[..|a + b| - 1] == a + b[..n];
      BitsOfConcat(a, b[..n]);
      BitsAssociate(BitsOf(a), BitsOf(b[..n]), ByteBits(b[n]));
    }
  }

  /** Of all differences within 16 consecutive bits of data and CRC, those of
      SlippingTail and no others go unnoticed. */
  lemma BurstSlipsIff(d: seq<byte>, c: seq<byte>, p: nat)
    requires |d| >= 2 && |c| == 2 && OnlyInWindow(BitsOf(d + c), p)
    requires !Clear(BitsOf(d + c))
    ensures Feed(0, BitsOf(d)) == Packed(c) <==> SlippingTail(d, c)
  {
    hide Feed, BitsOf, Packed, Clear, OnlyInWindow, Slips, Pair, Sixteen;
    if SlippingTail(d, c) {
      FeedTail(d);
      TheseSlip(d[|d| - 2], d[|d| - 1], c[0], c[1]);
      assert c == [c[0], c[1]];
    } else if Feed(0, BitsOf(d)) == Packed(c) {
      WindowOfData(d, c, p);
      ClearTogether(BitsOf(d), BitsOf(c));
      ClearPacked(c);
      if Clear(BitsOf(d)) {
        ClearKeepsNonZero(0, BitsOf(d));
        assert false;
      }
      BurstLeavesNonZero(BitsOf(d), p);
      assert 8 * |d| - 16 < p < 8 * |d|;
      StraddlingSlips(d, c, p + 16 - 8 * |d|);
      assert false;
    }
  }

  lemma ClearTogether(a: seq<bool>, b: seq<bool>)
    ensures Clear(a + b) <==> Clear(a) && Clear(b)
  {
    assert forall i :: 0 <= i < |a| ==> (a + b)[i] == a[i];
    assert forall i :: 0 <= i < |b| ==> (a + b)[|a| + i] == b[i];
  }

  lemma ClearPacked(c: seq<byte>)
    requires |c| == 2
    ensures Clear(BitsOf(c)) <==> Packed(c) == 0
  {
    hide BitsOf, Clear;
    ClearIffZero(c);
    PackedZero(c[0], c[1]);
  }

  lemma PackedZero(a: byte, b: byte)
    ensures Packed([a, b]) == 0 <==> a == 0 && b == 0
  {
  }

  lemma StraddlingSlips(d: seq<byte>, c: seq<byte>, q: nat)
    requires |d| >= 2 && |c| == 2 && q <= 16 && Feed(0, BitsOf(d)) == Packed(c) && !Clear(BitsOf(d))
    requires Clear(BitsOf(d)[..8 * |d| - 16]) && Clear(BitsOf(d)[8 * |d| - 16..][..q]) && Clear(BitsOf(c)[q..])
    ensures SlippingTail(d, c)
  {
    hide Feed, BitsOf, ByteBits, Packed, Clear, Slips, Pair, Sixteen, IsMask, Apart, Flipped, Word;
    var n := |d| - 2;
    LastTwoBytes(d);
    assert BitsOf(d)[..8 * n] == BitsOf(d[..n]);
    assert BitsOf(d)[8 * n..] == ByteBits(d[n]) + ByteBits(d[n + 1]);
    ClearIffZero(d[..n]);
    assert forall i :: 0 <= i < n ==> d[..n][i] == d[i];
    FeedTail(d);
    StartsClear(ByteBits(d[n]) + ByteBits(d[n + 1]), q);
    WordOfTwo(d[n], d[n + 1]);
    TwoBytes(c);
    EndsClear(ByteBits(c[0]) + ByteBits(c[1]), q);
    WordOfTwo(c[0], c[1]);
    BelowIsMask(q);
    if d[n] == 0 && d[n + 1] == 0 { ClearIffZero(d); assert false; }
    assert c == [c[0], c[1]];
    OnlyTheseSlip(d[n], d[n + 1], c[0], c[1], Below(q));
  }

  lemma TwoBytes(c: seq<byte>)
    requires |c| == 2
    ensures BitsOf(c) == ByteBits(c[0]) + ByteBits(c[1])
  {
    LastTwoBytes(c);
    assert c[..0] == [];
    assert BitsOf(c[..0]) == [];
    assert [] + (ByteBits(c[0]) + ByteBits(c[1])) == ByteBits(c[0]) + ByteBits(c[1]);
  }

  // ---------- Odd numbers of flipped bits ----------

  function LowBit(r: Register): Register { r & 1 }

  function Half(r: Register): Register { r >> 1 }

  /** 1 when the number of bits set is odd, else 0. */
  function Parity(r: Register): Register {
    HalfShrinks(r);
    if r == 0 then 0 else Xor(LowBit(r), Parity(Half(r)))
  }

  lemma HalfShrinks(r: Register)
    ensures r != 0 ==> Half(r) < r
  {
  }

  lemma HalfLinear(a: Register, b: Register)
    ensures Half(Xor(a, b)) == Xor(Half(a), Half(b)) && LowBit(Xor(a, b)) == Xor(LowBit(a), LowBit(b))
  {
  }

  lemma ParityStep(r: Register)
    ensures Parity(r) == Xor(LowBit(r), Parity(Half(r)))
  {
    hide Xor;
    if r == 0 { XorZero(0); }
  }

  lemma {:induction false} ParityLinear(a: Register, b: Register)
    ensures Parity(Xor(a, b)) == Xor(Parity(a), Parity(b))
    decreases a
  {
    hide Xor, LowBit, Half;
    if a == 0 {
      XorZero(b);
      XorZero(Parity(b));
    } else {
      HalfShrinks(a);
      ParityStep(a);
      ParityStep(b);
      ParityStep(Xor(a, b));
      HalfLinear(a, b);
      ParityLinear(Half(a), Half(b));
      XorSwaps(LowBit(a), LowBit(b), Parity(Half(a)), Parity(Half(b)));
    }
  }

  lemma ParityOfPolynomial()
    ensures Parity(0x8408) == 1
  {
    assert Parity(0x8) == 1;
    assert Parity(0x80) == 1;
    assert Parity(0x84) == 0;
    assert Parity(0x1081) == 1;
  }

  lemma ShiftHalves(r: Register)
    ensures Shift(r) == if LowBit(r) == 1 then Xor(Half(r), 0x8408) else Half(r)
    ensures LowBit(r) == 0 || LowBit(r) == 1
  {
  }

  /** The polynomial has an even number of terms, so a shift keeps the parity. */
  lemma ParityOfShift(r: Register)
    ensures Parity(Shift(r)) == Parity(r)
  {
    hide Shift, Xor, LowBit, Half;
    ShiftHalves(r);
    ParityStep(r);
    if LowBit(r) == 1 {
      ParityLinear(Half(r), 0x8408);
      ParityOfPolynomial();
      XorCommutes(Parity(Half(r)), 1);
    } else {
      XorZero(Parity(Half(r)));
    }
  }

  lemma ParityOfBit(bit: bool)
    ensures Parity(BitWord(bit)) == BitWord(bit)
  {
  }

  function OddOnes(bits: seq<bool>): bool {
    if bits == [] then false else bits[0] != OddOnes(bits[1..])
  }

  /** x + 1 divides the polynomial, so the register carries the message parity. */
  lemma {:induction false} FeedParity(r: Register, bits: seq<bool>)
    ensures Parity(Feed(r, bits)) == Xor(Parity(r), BitWord(OddOnes(bits)))
    decreases |bits|
  {
    hide Shift, Xor, BitWord, Parity;
    if bits == [] {
      assert BitWord(false) == 0 by { BitWordFalse(); }
      XorZero(Parity(r));
    } else {
      var b := BitWord(bits[0]);
      FeedParity(Shift(Xor(r, b)), bits[1..]);
      ParityOfShift(Xor(r, b));
      ParityLinear(r, b);
      ParityOfBit(bits[0]);
      XorAssociates(Parity(r), b, BitWord(OddOnes(bits[1..])));
      BitWordLinear(bits[0], OddOnes(bits[1..]));
    }
  }

  lemma BitWordFalse()
    ensures BitWord(false) == 0
  {
  }

  /** The number of bits set. */
  function Ones(bits: seq<bool>): nat {
    if bits == [] then 0 else (if bits[0] then 1 else 0) + Ones(bits[1..])
  }

  /** The number of bits at which two buffers differ. */
  function Flips(x: seq<byte>, y: seq<byte>): nat
    requires |x| == |y|
  {
    Ones(BitsOf(Difference(x, y)))
  }

  lemma {:induction false} OddOnesCounts(bits: seq<bool>)
    ensures OddOnes(bits) <==> Ones(bits) % 2 == 1
  {
    if bits != [] { OddOnesCounts(bits[1..]); }
  }

  lemma {:induction false} OnesConcat(a: seq<bool>, b: seq<bool>)
    ensures Ones(a + b) == Ones(a) + Ones(b)
    decreases |a|
  {
    if a == [] {
      assert a + b == b;
    } else {
      assert (a + b)[1..] == a[1..] + b;
      OnesConcat(a[1..], b);
    }
  }

  lemma HalfOfDoubled(w: Register)
    requires Apart(w, 0x8000)
    ensures Half(Doubled(w)) == w && LowBit(Doubled(w)) == 0
  {
  }

  lemma ParityOfDoubled(w: Register)
    requires Apart(w, 0x8000)
    ensures Parity(Doubled(w)) == Parity(w)
  {
    hide Xor, Half, LowBit, Doubled, Apart, Parity;
    HalfOfDoubled(w);
    ParityStep(Doubled(w));
    XorZero(Parity(w));
  }

  lemma ParityOfZero()
    ensures Parity(0) == 0
  {
  }

  lemma {:induction false} ParityOfWord(bits: seq<bool>)
    requires |bits| <= 16
    ensures Parity(Word(bits)) == BitWord(OddOnes(bits))
    decreases |bits|
  {
    hide Xor, BitWord, Doubled, Apart, Parity;
    if bits == [] {
      ParityOfZero();
      BitWordFalse();
    } else {
      var w := Word(bits[1..]);
      ShortWordFits(bits[1..]);
      ParityOfWord(bits[1..]);
      ParityLinear(BitWord(bits[0]), Doubled(w));
      ParityOfBit(bits[0]);
      ParityOfDoubled(w);
      BitWordLinear(bits[0], OddOnes(bits[1..]));
    }
  }

  lemma PackedIsPair(c: seq<byte>)
    requires |c| == 2
    ensures Packed(c) == Pair(c[1], c[0])
  {
    PairWords(c[0], c[1]);
  }

  lemma PairWords(a: bv8, b: bv8)
    ensures ((a as bv16) << 8) | (b as bv16) == (b as bv16) | ((a as bv16) << 8)
  {
  }

  /** The parity of a CRC is that of its bytes. */
  lemma ParityOfPacked(c: seq<byte>)
    requires |c| == 2
    ensures Parity(Packed(c)) == BitWord(Ones(BitsOf(c)) % 2 == 1)
  {
    hide Parity, Packed, Pair, ByteBits, BitsOf, BitWord, Word;
    var hi, lo := ByteBits(c[0]), ByteBits(c[1]);
    PackedIsPair(c);
    WordOfTwo(c[1], c[0]);
    ParityOfWord(lo + hi);
    OddOnesCounts(lo + hi);
    TwoBytes(c);
    OnesConcat(lo, hi);
    OnesConcat(hi, lo);
  }

  lemma BitWordInjective(a: bool, b: bool)
    requires BitWord(a) == BitWord(b)
    ensures a == b
  {
  }

  /** A difference that goes unnoticed has an even number of bits, data and CRC together. */
  lemma UnnoticedIsEven(d: seq<byte>, c: seq<byte>)
    requires |c| == 2 && Feed(0, BitsOf(d)) == Packed(c)
    ensures (Ones(BitsOf(d)) + Ones(BitsOf(c))) % 2 == 0
  {
    hide Parity, Packed, BitsOf, BitWord, Feed, Xor, Ones;
    FeedParity(0, BitsOf(d));
    ParityOfZero();
    XorZero(BitWord(OddOnes(BitsOf(d))));
    ParityOfPacked(c);
    OddOnesCounts(BitsOf(d));
    BitWordInjective(OddOnes(BitsOf(d)), Ones(BitsOf(c)) % 2 == 1);
  }

  /** Any odd number of flipped bits, however scattered, changes the CRC. */
  lemma OddFlipsDetected(x: seq<byte>, y: seq<byte>)
    requires |x| == |y| && Flips(x, y) % 2 == 1
    ensures Crc(x) != Crc(y)
  {
    hide Packed, BitsOf, Crc, Feed, Difference, Ones;
    FitsIff(x, y, Crc(x));
    NoDifference(Crc(x));
    if Crc(y) == Crc(x) {
      UnnoticedIsEven(Difference(x, y), Difference(Crc(x), Crc(x)));
      NothingSet(Crc(x));
      assert false;
    }
  }

  lemma NothingSet(c: seq<byte>)
    requires |c| == 2
    ensures Ones(BitsOf(Difference(c, c))) == 0
  {
    hide BitsOf, Difference;
    DifferenceClear(c, c);
    ClearHasNoOnes(BitsOf(Difference(c, c)));
  }

  lemma {:induction false} ClearHasNoOnes(bits: seq<bool>)
    ensures Clear(bits) <==> Ones(bits) == 0
  {
    if bits != [] {
      ClearHasNoOnes(bits[1..]);
      assert Clear(bits) <==> !bits[0] && Clear(bits[1..]) by {
        assert forall i :: 0 < i < |bits| ==> bits[i] == bits[1..][i - 1];
      }
    }
  }

  // ---------- Two flipped bits ----------

  /** At most one bit set. */
  predicate Lone(r: Register) { r & (r - 1) == 0 }

  lemma LoneDoubled(r: Register)
    requires Lone(r)
    ensures Lone(Doubled(r))
  {
  }

  lemma ShiftInjective(a: Register, b: Register)
    requires Shift(a) == Shift(b)
    ensures a == b
  {
    hide Shift, Xor;
    ShiftLinear(a, b);
    XorVanishes(Shift(a), Shift(b));
    ShiftKeepsNonZero(Xor(a, b));
    XorVanishes(a, b);
  }

  /** The bit that s shifts take down to the lowest one. */
  function BitAbove(s: nat): Register {
    if s == 0 then 1 else Doubled(BitAbove(s - 1))
  }

  lemma BitAboveLow(s: nat)
    requires s < 15
    ensures Apart(BitAbove(s), 0x8000)
  {
    assert BitAbove(4) == 0x10;
    assert BitAbove(8) == 0x100;
    assert BitAbove(12) == 0x1000;
  }

  lemma DoubledNotOne(r: Register)
    ensures Doubled(r) != 1
  {
  }

  /** Only that bit comes down to 1 in s shifts. */
  lemma {:induction false} ComesDown(r: Register, s: nat)
    requires s < 16 && Shifts(r, s) == 1
    ensures r == BitAbove(s) && Lone(r) && (r == 1 ==> s == 0)
    decreases s
  {
    hide Shift, Doubled, Lone, Apart;
    if s == 0 {
      OneIsLone();
    } else {
      ComesDown(Shift(r), s - 1);
      var b := BitAbove(s - 1);
      BitAboveLow(s - 1);
      ShiftUndoesDoubling(b);
      ShiftInjective(r, Doubled(b));
      LoneDoubled(b);
      DoubledNotOne(b);
    }
  }

  lemma OneIsLone()
    ensures Lone(1)
  {
  }

  /** None of the next n registers, sixteen shifts apart, is a lone bit. */
  predicate NoLoneBit(r: Register, n: nat)
    decreases n
  {
    n == 0 || (!Lone(Sixteen(r)) && NoLoneBit(Sixteen(r), n - 1))
  }

  lemma FourNotLone(r: Register, next: Register, n: nat)
    requires !Lone(Sixteen(r)) && !Lone(Sixteen(Sixteen(r))) && !Lone(Sixteen(Sixteen(Sixteen(r)))) && !Lone(next)
    requires next == Sixteen(Sixteen(Sixteen(Sixteen(r)))) && NoLoneBit(next, n)
    ensures NoLoneBit(r, n + 4)
  {
    hide Lone, Sixteen;
    var a := Sixteen(r);
    var b := Sixteen(a);
    assert NoLoneBit(Sixteen(b), n + 1);
    assert NoLoneBit(b, n + 2);
    assert NoLoneBit(a, n + 3);
  }

  /** No register 16, 32, ..., 512 shifts after a lone bit is a lone bit. */
  lemma FrameNotLone()
    ensures NoLoneBit(1, 32)
  {
    hide NoLoneBit;
    assert NoLoneBit(0x922d, 0) by { NoneLeft(0x922d); }
    FourNotLone(0x47e3, 0x922d, 0);
    FourNotLone(0x4d7a, 0x47e3, 4);
    FourNotLone(0x0e3a, 0x4d7a, 8);
    FourNotLone(0x7762, 0x0e3a, 12);
    FourNotLone(0x5b44, 0x7762, 16);
    FourNotLone(0x8e10, 0x5b44, 20);
    FourNotLone(0x81bf, 0x8e10, 24);
    FourNotLone(0x0001, 0x81bf, 28);
  }

  lemma NoneLeft(r: Register)
    ensures NoLoneBit(r, 0)
  {
  }

  lemma {:induction false} SixteenAtATime(r: Register, n: nat, q: nat)
    requires NoLoneBit(r, n) && 1 <= q <= n
    ensures !Lone(Shifts(r, 16 * q))
    decreases q
  {
    hide Lone, Sixteen, Shifts;
    SixteenShifts(r);
    ShiftsAdd(r, 16, 16 * (q - 1));
    if q == 1 {
      NoShifts(Shifts(r, 16));
    } else {
      SixteenAtATime(Sixteen(r), n - 1, q - 1);
    }
  }

  lemma NoShifts(r: Register)
    ensures Shifts(r, 0) == r
  {
  }

  /** A lone bit does not come back within the length of a frame. */
  lemma NeverBack(k: nat)
    requires 1 <= k <= 512
    ensures Shifts(1, k) != 1
  {
    hide Shifts, Lone, NoLoneBit;
    if Shifts(1, k) == 1 {
      var q, s := k / 16, k % 16;
      ShiftsAdd(1, 16 * q, s);
      ComesDown(Shifts(1, 16 * q), s);
      if q == 0 {
        NoShifts(1);
      } else {
        FrameNotLone();
        SixteenAtATime(1, 32, q);
      }
      assert false;
    }
  }

  /** One bit set: its distance from the end tells the register. */
  lemma {:induction false} FeedOneBit(bits: seq<bool>) returns (k: nat)
    requires Ones(bits) == 1
    ensures 1 <= k <= |bits| && Feed(0, bits) == Shifts(1, k)
    decreases |bits|
  {
    hide Shift, Xor, BitWord;
    BitWordFalse();
    BitWordTrue();
    XorZero(0);
    XorZero(1);
    ShiftKeepsNonZero(0);
    if bits[0] {
      ClearHasNoOnes(bits[1..]);
      FeedClear(Shift(1), bits[1..]);
      k := |bits|;
    } else {
      k := FeedOneBit(bits[1..]);
    }
  }

  lemma BitWordTrue()
    ensures BitWord(true) == 1
  {
  }

  lemma {:induction false} FeedSecondBit(m: nat, bits: seq<bool>)
    requires Ones(bits) == 1 && 1 <= m && m + |bits| <= 512
    ensures Feed(Shifts(1, m), bits) != 0
    decreases |bits|
  {
    hide Shift, Xor, BitWord, Shifts, Clear;
    BitWordFalse();
    BitWordTrue();
    var r := Shifts(1, m);
    XorZero(r);
    if bits[0] {
      NeverBack(m);
      XorVanishes(r, 1);
      ShiftKeepsNonZero(Xor(r, 1));
      ClearHasNoOnes(bits[1..]);
      ClearKeepsNonZero(Shift(Xor(r, 1)), bits[1..]);
    } else {
      OneMoreShift(m);
      FeedSecondBit(m + 1, bits[1..]);
    }
  }

  lemma OneMoreShift(m: nat)
    ensures Shifts(1, m + 1) == Shift(Shifts(1, m))
  {
    hide Shift;
    ShiftsAdd(1, m, 1);
    assert Shifts(Shifts(1, m), 1) == Shift(Shifts(1, m));
  }

  /** Two bits set, up to 512 bits apart, leave the register changed. */
  lemma {:induction false} FeedTwoBits(bits: seq<bool>)
    requires Ones(bits) == 2 && |bits| <= 512
    ensures Feed(0, bits) != 0
    decreases |bits|
  {
    hide Shift, Xor, BitWord;
    BitWordFalse();
    BitWordTrue();
    XorZero(0);
    XorZero(1);
    ShiftKeepsNonZero(0);
    if bits[0] {
      assert Shifts(1, 1) == Shift(1);
      FeedSecondBit(1, bits[1..]);
    } else {
      FeedTwoBits(bits[1..]);
    }
  }

  /** Up to three flipped bits in up to 64 bytes change the CRC. */
  lemma FewFlipsDetected(x: seq<byte>, y: seq<byte>)
    requires |x| == |y| <= 64 && 1 <= Flips(x, y) <= 3
    ensures Crc(x) != Crc(y)
  {
    hide Packed, BitsOf, Crc, Feed, Difference, Ones;
    if Flips(x, y) == 2 {
      FeedTwoBits(BitsOf(Difference(x, y)));
      FitsIff(x, y, Crc(x));
      NoDifference(Crc(x));
    } else {
      OddFlipsDetected(x, y);
    }
  }

  /** A lone bit of a word is the register some shifts before 1. */
  lemma {:induction false} LoneBit(bits: seq<bool>) returns (m: nat)
    requires Ones(bits) == 1 && |bits| <= 16
    ensures m < |bits| && Shifts(Word(bits), m) == 1
    decreases |bits|
  {
    hide Shift, Xor, BitWord, Doubled, Apart;
    BitWordFalse();
    BitWordTrue();
    if bits[0] {
      ClearHasNoOnes(bits[1..]);
      WordNonZero(bits[1..]);
      m := 0;
      LowestBit();
    } else {
      m := LoneBit(bits[1..]);
      var w := Word(bits[1..]);
      ShortWordFits(bits[1..]);
      XorZero(Doubled(w));
      ShiftUndoesDoubling(w);
      m := m + 1;
      assert Shifts(Doubled(w), m) == Shifts(Shift(Doubled(w)), m - 1);
    }
  }

  lemma LowestBit()
    ensures Xor(1, Doubled(0)) == 1
  {
  }

  /** One bit of the data and one of the CRC do not make up for each other. */
  lemma DataAndCrcBit(d: seq<byte>, c: seq<byte>)
    requires |d| <= 62 && |c| == 2 && Ones(BitsOf(d)) == 1 && Ones(BitsOf(c)) == 1
    ensures Feed(0, BitsOf(d)) != Packed(c)
  {
    hide Packed, Pair, BitsOf, ByteBits, Feed, Ones, Word, Shifts;
    var k := FeedOneBit(BitsOf(d));
    var hi, lo := ByteBits(c[0]), ByteBits(c[1]);
    PackedIsPair(c);
    WordOfTwo(c[1], c[0]);
    TwoBytes(c);
    OnesConcat(hi, lo);
    OnesConcat(lo, hi);
    var m := LoneBit(lo + hi);
    ShiftsAdd(1, k, m);
    NeverBack(k + m);
  }

  /** No difference of one to three bits, data and CRC together, goes unnoticed. */
  lemma FewBitsNoticed(d: seq<byte>, c: seq<byte>)
    requires |d| <= 62 && |c| == 2 && 1 <= Ones(BitsOf(d)) + Ones(BitsOf(c)) <= 3
    ensures Feed(0, BitsOf(d)) != Packed(c)
  {
    hide Packed, BitsOf, Feed, Ones, Clear;
    if Feed(0, BitsOf(d)) == Packed(c) {
      UnnoticedIsEven(d, c);
      ClearHasNoOnes(BitsOf(d));
      ClearHasNoOnes(BitsOf(c));
      ClearPacked(c);
      if Ones(BitsOf(d)) == 0 {
        ClearKeepsNonZero(0, BitsOf(d));
      } else if Ones(BitsOf(d)) == 1 {
        DataAndCrcBit(d, c);
      } else {
        FeedTwoBits(BitsOf(d));
      }
      assert false;
    }
  }
}
