/** Which error patterns the checksum on the wire is sure to detect (src/voltronic/crc.cc:34-58). */
module CrcPatterns {
  import opened Crc
  import opened CrcTheory
  import opened CrcErrors

  /** A message with the bits of an error pattern flipped. */
  function Flipped(message: seq<Byte>, pattern: seq<Byte>): (r: seq<Byte>)
    requires |message| == |pattern|
    ensures |r| == |message|
  {
    seq(|message|, i requires 0 <= i < |message| => message[i] ^ pattern[i])
  }

  predicate Bit(b: Byte, mask: Byte) { b & mask != 0 }

  predicate IsFlip(f: Byte, a: Byte, p: Byte) { f == a ^ p }

  function Mask(i: nat): Byte
    requires i < 8
  {
    if i == 0 then 0x80 else if i == 1 then 0x40 else if i == 2 then 0x20 else if i == 3 then 0x10
    else if i == 4 then 8 else if i == 5 then 4 else if i == 6 then 2 else 1
  }

  lemma FlippedBit(a: Byte, p: Byte, f: Byte, i: nat)
    requires IsFlip(f, a, p) && i < 8
    ensures Bit(f, Mask(i)) == (Bit(a, Mask(i)) != Bit(p, Mask(i)))
  {}

  lemma BitAt(b: Byte, i: nat)
    requires i < 8
    ensures |BitsOf(b)| == 8 && BitsOf(b)[i] == Bit(b, Mask(i))
  {}

  lemma ByteBits(a: Byte, p: Byte, f: Byte)
    requires IsFlip(f, a, p)
    ensures |BitsOf(a)| == |BitsOf(p)| && BitsOf(f) == XorBits(BitsOf(a), BitsOf(p))
  {
    hide BitsOf, Bit, IsFlip, Mask;
    forall i | 0 <= i < 8
      ensures |BitsOf(a)| == |BitsOf(p)| == |BitsOf(f)| == 8 && BitsOf(f)[i] == XorBits(BitsOf(a), BitsOf(p))[i]
    {
      BitAt(a, i);
      BitAt(p, i);
      BitAt(f, i);
      FlippedBit(a, p, f, i);
    }
    EightBits(a);
    EightBits(p);
    EightBits(f);
  }

  lemma XorBitsConcat(a: seq<bool>, b: seq<bool>, c: seq<bool>, d: seq<bool>)
    requires |a| == |b| && |c| == |d|
    ensures XorBits(a + c, b + d) == XorBits(a, b) + XorBits(c, d)
  {}

  lemma {:induction false} FlippedBits(message: seq<Byte>, pattern: seq<Byte>)
    requires |message| == |pattern|
    ensures MessageBits(Flipped(message, pattern)) == XorBits(MessageBits(message), MessageBits(pattern))
    decreases |message|
  {
    hide BitsOf, XorBits;
    if message == [] {
      NoBits();
    } else {
      FlippedBits(message[1..], pattern[1..]);
      assert Flipped(message, pattern)[1..] == Flipped(message[1..], pattern[1..]);
      ByteBits(message[0], pattern[0], Flipped(message, pattern)[0]);
      EightBits(message[0]);
      EightBits(pattern[0]);
      XorBitsConcat(BitsOf(message[0]), BitsOf(pattern[0]), MessageBits(message[1..]), MessageBits(pattern[1..]));
    }
  }

  lemma NoBits()
    ensures XorBits([], []) == []
  {}

  lemma EightBits(b: Byte)
    ensures |BitsOf(b)| == 8
  {}

  /** The remainder of the flipped message differs by that of the pattern. */
  lemma FlippedCrc(message: seq<Byte>, pattern: seq<Byte>)
    requires |message| == |pattern|
    ensures IsXor(RawCrc(Flipped(message, pattern)), RawCrc(message), RawCrc(pattern))
  {
    hide BitSerial, MessageBits, RawCrc;
    FlippedBits(message, pattern);
    RawIsBitSerial(message);
    RawIsBitSerial(pattern);
    RawIsBitSerial(Flipped(message, pattern));
    Self(0);
    BitSerialLinear(0, 0, 0, MessageBits(message), MessageBits(pattern));
  }

  // ---- Every remainder occurs ----

  /** The register before a step without a message bit. */
  function Before(y: bv16): bv16 { if y & 1 != 0 then ((y ^ 0x1021) >> 1) | 0x8000 else y >> 1 }

  lemma BeforeStep(y: bv16)
    ensures ZeroStep(Before(y)) == y
  {}

  function Earlier(y: bv16, n: nat): bv16
    decreases n
  {
    if n == 0 then y else Earlier(Before(y), n - 1)
  }

  lemma {:induction false} EarlierSteps(y: bv16, n: nat)
    ensures BitSerial(Earlier(y, n), Zeros(n)) == y
    decreases n
  {
    if n > 0 {
      EarlierSteps(Before(y), n - 1);
      assert Zeros(n) == Zeros(n - 1) + [false];
      BitSerialConcat(Earlier(y, n), Zeros(n - 1), [false]);
      OneBit(Before(y), false);
      BeforeStep(y);
    }
  }

  lemma OneBit(x: bv16, b: bool)
    ensures BitSerial(x, [b]) == BitStep(x, b)
  {
    assert [b] + [] == [b];
    BitSerialCons(x, b, []);
  }

  /** The `n` top bits of a register, as they would leave it one by one. */
  function TopBits(x: bv16, n: nat): (bits: seq<bool>)
    ensures |bits| == n
    decreases n
  {
    if n == 0 then [] else [x & 0x8000 != 0] + TopBits(x << 1, n - 1)
  }

  function Shifted(x: bv16, n: nat): bv16
    decreases n
  {
    if n == 0 then x else Shifted(x << 1, n - 1)
  }

  lemma OwnTopBit(x: bv16)
    ensures BitStep(x, x & 0x8000 != 0) == x << 1
  {}

  /** A register fed its own bits only shifts. */
  lemma {:induction false} FedItsOwnBits(x: bv16, n: nat)
    ensures BitSerial(x, TopBits(x, n)) == Shifted(x, n)
    decreases n
  {
    if n > 0 {
      OwnTopBit(x);
      BitSerialCons(x, x & 0x8000 != 0, TopBits(x << 1, n - 1));
      FedItsOwnBits(x << 1, n - 1);
    }
  }

  lemma ShiftedByFour(x: bv16, n: nat)
    ensures Shifted(x, n + 4) == Shifted(x << 4, n)
  {
    assert Shifted(x, n + 4) == Shifted(x << 1, n + 3) == Shifted((x << 1) << 1, n + 2);
    assert Shifted((x << 1) << 1, n + 2) == Shifted(((x << 1) << 1) << 1, n + 1);
    assert Shifted(((x << 1) << 1) << 1, n + 1) == Shifted((((x << 1) << 1) << 1) << 1, n);
    FourShifts(x);
  }

  lemma FourShifts(x: bv16)
    ensures (((x << 1) << 1) << 1) << 1 == x << 4
  {}

  lemma ShiftedOut(x: bv16)
    ensures Shifted(x, 16) == 0
  {
    hide Shifted;
    ShiftedByFour(x, 12);
    ShiftedByFour(x << 4, 8);
    ShiftedByFour((x << 4) << 4, 4);
    ShiftedByFour(((x << 4) << 4) << 4, 0);
    AllOut(x);
    NotShifted(0);
  }

  lemma AllOut(x: bv16)
    ensures (((x << 4) << 4) << 4) << 4 == 0
  {}

  lemma NotShifted(x: bv16)
    ensures Shifted(x, 0) == x
  {}

  lemma FourTopBits(x: bv16, n: nat)
    ensures TopBits(x, n + 4) ==
            [x & 0x8000 != 0, x & 0x4000 != 0, x & 0x2000 != 0, x & 0x1000 != 0] + TopBits(x << 4, n)
  {
    hide TopBits;
    var x1 := x << 1;
    var x2 := x1 << 1;
    var x3 := x2 << 1;
    NextTopBit(x, n + 3);
    NextTopBit(x1, n + 2);
    NextTopBit(x2, n + 1);
    NextTopBit(x3, n);
    FourShifts(x);
    TopsOfShifts(x);
    FourInFront(Top(x), Top(x1), Top(x2), Top(x3), TopBits(x << 4, n));
  }

  predicate Top(x: bv16) { x & 0x8000 != 0 }

  lemma NextTopBit(x: bv16, n: nat)
    ensures TopBits(x, n + 1) == [Top(x)] + TopBits(x << 1, n)
  {}

  lemma FourInFront(a: bool, b: bool, c: bool, d: bool, rest: seq<bool>)
    ensures [a] + ([b] + ([c] + ([d] + rest))) == [a, b, c, d] + rest
  {}

  lemma TopsOfShifts(x: bv16)
    ensures ((x << 1) & 0x8000 != 0) == (x & 0x4000 != 0)
    ensures (((x << 1) << 1) & 0x8000 != 0) == (x & 0x2000 != 0)
    ensures ((((x << 1) << 1) << 1) & 0x8000 != 0) == (x & 0x1000 != 0)
  {}

  predicate WordBit(x: bv16, mask: bv16) { x & mask != 0 }

  lemma HighNibbles(x: bv16, y: bv16)
    requires y == x << 4
    ensures BitsOf(Hi(x)) == [WordBit(x, 0x8000), WordBit(x, 0x4000), WordBit(x, 0x2000), WordBit(x, 0x1000),
                              WordBit(y, 0x8000), WordBit(y, 0x4000), WordBit(y, 0x2000), WordBit(y, 0x1000)]
  {}

  lemma LowIsHigh(x: bv16)
    ensures Hi((x << 4) << 4) == Lo(x)
  {}

  lemma TopNibble(x: bv16, y: bv16, n: nat)
    requires y == x << 4
    ensures TopBits(x, n + 4) ==
            [WordBit(x, 0x8000), WordBit(x, 0x4000), WordBit(x, 0x2000), WordBit(x, 0x1000)] + TopBits(y, n)
  {
    hide TopBits;
    FourTopBits(x, n);
  }

  lemma EightTopBits(x: bv16, y: bv16, z: bv16, n: nat)
    requires y == x << 4 && z == y << 4
    ensures TopBits(x, n + 8) == BitsOf(Hi(x)) + TopBits(z, n)
  {
    hide TopBits, BitsOf, Hi, WordBit;
    TopNibble(x, y, n + 4);
    TopNibble(y, z, n);
    HighNibbles(x, y);
  }

  /** The bits of a register are those of its two bytes. */
  lemma RegisterAsBytes(x: bv16)
    ensures MessageBits([Hi(x), Lo(x)]) == TopBits(x, 16)
  {
    hide BitsOf, Hi, Lo;
    EightTopBits(x, x << 4, (x << 4) << 4, 8);
    EightTopBits((x << 4) << 4, ((x << 4) << 4) << 4, (((x << 4) << 4) << 4) << 4, 0);
    LowIsHigh(x);
    assert TopBits((((x << 4) << 4) << 4) << 4, 0) == [];
    assert [Hi(x), Lo(x)][1..] == [Lo(x)] && [Lo(x)][1..] == [];
    assert MessageBits([Lo(x)]) == BitsOf(Lo(x)) + [];
    assert TopBits((x << 4) << 4, 8) == BitsOf(Lo(x)) + [];
  }

  lemma XorOfZero(c: bv16, x: bv16)
    requires IsXor(c, x, 0)
    ensures x == c
  {}

  /** For every remainder there are two bytes that have it. */
  lemma TwoBytesReach(c: bv16) returns (message: seq<Byte>)
    ensures |message| == 2 && RawCrc(message) == c
  {
    hide MessageBits, BitSerial, RawCrc, Earlier, TopBits, Hi, Lo, Shifted;
    var r := Earlier(c, 16);
    message := [Hi(r), Lo(r)];
    RegisterAsBytes(r);
    RawIsBitSerial(message);
    EarlierSteps(c, 16);
    FedItsOwnBits(r, 16);
    ShiftedOut(r);
    var bits := TopBits(r, 16);
    SameCancel(bits);
    ZeroAndRegister(r);
    BitSerialLinear(0, r, r, bits, bits);
    XorOfZero(c, BitSerial(0, bits));
  }

  lemma SameCancel(bits: seq<bool>)
    ensures XorBits(bits, bits) == Zeros(|bits|)
  {}

  lemma ZeroAndRegister(r: bv16)
    ensures IsXor(r, 0, r)
  {}

  lemma {:induction false} LeadingZeros(n: nat, message: seq<Byte>)
    ensures RawCrc(ZeroMessage(n) + message) == RawCrc(message)
  {
    if n == 0 {
      assert ZeroMessage(0) + message == message;
    } else {
      LeadingZeros(n - 1, message);
      assert (ZeroMessage(n) + message)[1..] == ZeroMessage(n - 1) + message;
      assert ByteStep(0, 0) == 0;
    }
  }

  function ZeroMessage(n: nat): (r: seq<Byte>)
    ensures |r| == n
  {
    seq(n, _ => 0)
  }

  /** A byte that the adjustment merges with the one `d` away. */
  function Partner(d: Byte): Byte { if d == 1 then 0x28 else if d == 3 then 0x0D else 0 }

  lemma PartnerMerges(d: Byte)
    requires Slight(d)
    ensures Merged(Partner(d) ^ d, Partner(d))
  {}

  lemma PartnerRemainder(d: bv16, b: bv16)
    requires Slight(Hi(d)) && Slight(Lo(d)) && IsXor(b, CrcRead(Partner(Hi(d)), Partner(Lo(d))), d)
    ensures Hi(CrcRead(Partner(Hi(d)), Partner(Lo(d)))) == Partner(Hi(d))
    ensures Lo(CrcRead(Partner(Hi(d)), Partner(Lo(d)))) == Partner(Lo(d))
    ensures Hi(b) == Partner(Hi(d)) ^ Hi(d) && Lo(b) == Partner(Lo(d)) ^ Lo(d)
  {}

  /** An error pattern is seen in every message. */
  ghost predicate AlwaysSeen(pattern: seq<Byte>) {
    forall message: seq<Byte> :: |message| == |pattern| ==> CrcOf(Flipped(message, pattern)) != CrcOf(message)
  }

  lemma OneByteRemainder(b: Byte)
    requires Slight(Hi(ByteStep(0, b))) && Slight(Lo(ByteStep(0, b)))
    ensures b == 0
  {}

  /** Below two bytes only the pattern without errors has a slight remainder. */
  lemma ShortPattern(pattern: seq<Byte>)
    requires |pattern| < 2 && Slight(Hi(RawCrc(pattern))) && Slight(Lo(RawCrc(pattern)))
    ensures Flipped(ZeroMessage(|pattern|), pattern) == ZeroMessage(|pattern|)
  {
    hide Slight, Hi, Lo, ByteStep;
    if pattern != [] {
      assert pattern[1..] == [];
      assert Register(ByteStep(0, pattern[0]), []) == ByteStep(0, pattern[0]);
      OneByteRemainder(pattern[0]);
    }
  }

  /** A message in which a pattern with slight remainder goes unnoticed. */
  lemma HidingPlace(pattern: seq<Byte>) returns (message: seq<Byte>)
    requires Slight(Hi(RawCrc(pattern))) && Slight(Lo(RawCrc(pattern)))
    ensures |message| == |pattern| && CrcOf(Flipped(message, pattern)) == CrcOf(message)
  {
    if |pattern| < 2 {
      ShortPattern(pattern);
      return ZeroMessage(|pattern|);
    }
    hide RawCrc, CrcOf, Hi, Lo, CrcRead, Merged, Slight, Partner;
    var d := RawCrc(pattern);
    var c := CrcRead(Partner(Hi(d)), Partner(Lo(d)));
    var tail := TwoBytesReach(c);
    LeadingZeros(|pattern| - 2, tail);
    message := ZeroMessage(|pattern| - 2) + tail;
    FlippedCrc(message, pattern);
    PartnerRemainder(d, RawCrc(Flipped(message, pattern)));
    PartnerMerges(Hi(d));
    PartnerMerges(Lo(d));
    WireCrcCollides(Flipped(message, pattern), message);
  }

  /** The checksum on the wire is sure to show an error pattern, in every message of its length, exactly when
      the remainder of the pattern has a byte other than 0, 1 and 3. */
  lemma SeenExactly(pattern: seq<Byte>)
    ensures AlwaysSeen(pattern) <==> !Slight(Hi(RawCrc(pattern))) || !Slight(Lo(RawCrc(pattern)))
  {
    hide RawCrc, CrcOf, Hi, Lo, Slight, IsXor;
    if !Slight(Hi(RawCrc(pattern))) || !Slight(Lo(RawCrc(pattern))) {
      forall message: seq<Byte> | |message| == |pattern|
        ensures CrcOf(Flipped(message, pattern)) != CrcOf(message)
      {
        FlippedCrc(message, pattern);
        Difference(RawCrc(Flipped(message, pattern)), RawCrc(message), RawCrc(pattern));
        RemainderSeen(Flipped(message, pattern), message, RawCrc(pattern));
      }
    } else {
      var message := HidingPlace(pattern);
      assert |message| == |pattern|;
    }
  }

  lemma Difference(x: bv16, y: bv16, d: bv16)
    requires IsXor(x, y, d)
    ensures IsXor(d, x, y)
  {}
}
