/** What the checksum loop computes: a division, bit by bit (src/voltronic/crc.cc:34-46). */
module CrcTheory {
  import opened Crc

  // ---- The bit-serial division ----

  /** One step of long division by x^16 + x^12 + x^5 + 1, the next message bit entering at the top. */
  function BitStep(crc: bv16, bit: bool): bv16 {
    if ((crc & 0x8000) != 0) != bit then (crc << 1) ^ 0x1021 else crc << 1
  }

  function BitSerial(crc: bv16, bits: seq<bool>): bv16
    decreases |bits|
  {
    if bits == [] then crc else BitSerial(BitStep(crc, bits[0]), bits[1..])
  }

  function BitsOf(b: Byte): seq<bool> {
    [b & 0x80 != 0, b & 0x40 != 0, b & 0x20 != 0, b & 0x10 != 0, b & 8 != 0, b & 4 != 0, b & 2 != 0, b & 1 != 0]
  }

  /** A byte string as bits, most significant first. */
  function MessageBits(bytes: seq<Byte>): (bits: seq<bool>)
    ensures |bits| == 8 * |bytes|
  {
    if bytes == [] then [] else BitsOf(bytes[0]) + MessageBits(bytes[1..])
  }

  function ZeroStep(crc: bv16): bv16 { BitStep(crc, false) }

  /** The step without a message bit, free of case distinctions. */
  function FlatStep(crc: bv16): bv16 {
    (crc << 1) ^ ((0 - (crc >> 15)) & 0x1021)
  }

  lemma ZeroStepIsFlat(crc: bv16)
    ensures ZeroStep(crc) == FlatStep(crc)
  {
    if crc & 0x8000 == 0 {
      assert crc >> 15 == 0;
    } else {
      assert crc >> 15 == 1;
    }
  }

  lemma FlatStepLinear(x: bv16, y: bv16, z: bv16)
    requires z == x ^ y
    ensures FlatStep(z) == FlatStep(x) ^ FlatStep(y)
  {}

  predicate IsXor(z: bv16, x: bv16, y: bv16) { z == x ^ y }

  lemma ZeroStepLinear(x: bv16, y: bv16, z: bv16)
    requires IsXor(z, x, y)
    ensures IsXor(ZeroStep(z), ZeroStep(x), ZeroStep(y))
  {
    FlatStepLinear(x, y, z);
    ZeroStepIsFlat(x);
    ZeroStepIsFlat(y);
    ZeroStepIsFlat(z);
  }

  function Enter(crc: bv16, bit: bool): bv16 { if bit then FlipTop(crc) else crc }

  /** A message bit enters by flipping the top of the register. */
  lemma BitEntersAtTop(crc: bv16, bit: bool)
    ensures BitStep(crc, bit) == ZeroStep(Enter(crc, bit))
  {
    if bit {
      var x := crc ^ 0x8000;
      assert (x & 0x8000 != 0) != (crc & 0x8000 != 0);
      assert x << 1 == crc << 1;
      assert BitStep(crc, true) == ZeroStep(x);
    }
  }

  function FlipTop(crc: bv16): bv16 { crc ^ 0x8000 }

  lemma FlipBoth(x: bv16, y: bv16, z: bv16)
    requires IsXor(z, x, y)
    ensures IsXor(z, FlipTop(x), FlipTop(y))
  {}

  lemma FlipOne(x: bv16, y: bv16, z: bv16)
    requires IsXor(z, x, y)
    ensures IsXor(FlipTop(z), FlipTop(x), y)
  {}

  lemma FlipOther(x: bv16, y: bv16, z: bv16)
    requires IsXor(z, x, y)
    ensures IsXor(FlipTop(z), x, FlipTop(y))
  {}

  lemma EnterLinear(x: bv16, y: bv16, z: bv16, b: bool, c: bool)
    requires IsXor(z, x, y)
    ensures IsXor(Enter(z, b != c), Enter(x, b), Enter(y, c))
  {
    FlipBoth(x, y, z);
    FlipOne(x, y, z);
    FlipOther(x, y, z);
  }

  /** The division step is linear in register and message bit together. */
  lemma BitStepLinear(x: bv16, y: bv16, z: bv16, b: bool, c: bool)
    requires IsXor(z, x, y)
    ensures IsXor(BitStep(z, b != c), BitStep(x, b), BitStep(y, c))
  {
    EnterLinear(x, y, z, b, c);
    ZeroStepLinear(Enter(x, b), Enter(y, c), Enter(z, b != c));
    BitEntersAtTop(x, b);
    BitEntersAtTop(y, c);
    BitEntersAtTop(z, b != c);
  }

  // ---- The table against the division ----

  function FourZeroSteps(x: bv16): bv16 { ZeroStep(ZeroStep(ZeroStep(ZeroStep(x)))) }

  lemma FourLinear(x: bv16, y: bv16, z: bv16)
    requires IsXor(z, x, y)
    ensures IsXor(FourZeroSteps(z), FourZeroSteps(x), FourZeroSteps(y))
  {
    ZeroStepLinear(x, y, z);
    ZeroStepLinear(ZeroStep(x), ZeroStep(y), ZeroStep(z));
    ZeroStepLinear(ZeroStep(ZeroStep(x)), ZeroStep(ZeroStep(y)), ZeroStep(ZeroStep(z)));
    ZeroStepLinear(ZeroStep(ZeroStep(ZeroStep(x))), ZeroStep(ZeroStep(ZeroStep(y))), ZeroStep(ZeroStep(ZeroStep(z))));
  }

  /** Each table entry is four division steps of its index. */
  lemma TableEntry(i: bv16)
    requires i < 16
    ensures Table(i) == FourZeroSteps(i << 12)
  {}

  lemma LowBitsShift(x: bv16)
    requires x < 0x1000
    ensures FourZeroSteps(x) == x << 4
  {}

  /** One table step divides four times, the nibble entering at the top of the register. */
  lemma NibbleStepDivides(crc: bv16, n: bv16, entered: bv16)
    requires n < 16 && entered == crc ^ (n << 12)
    ensures NibbleStep(crc, n) == FourZeroSteps(entered)
  {
    var i, low := (crc >> 12) ^ n, crc & 0x0FFF;
    SplitRegister(crc, n, i, low);
    TableStep(crc, n, i);
    FourLinear(i << 12, low, entered);
    TableEntry(i);
    LowBitsShift(low);
    XorUnique(NibbleStep(crc, n), FourZeroSteps(entered), Table(i), crc << 4);
  }

  lemma XorUnique(z: bv16, z': bv16, x: bv16, y: bv16)
    requires IsXor(z, x, y) && IsXor(z', x, y)
    ensures z == z'
  {}

  lemma SplitRegister(crc: bv16, n: bv16, i: bv16, low: bv16)
    requires n < 16 && i == (crc >> 12) ^ n && low == crc & 0x0FFF
    ensures i < 16 && low < 0x1000 && low << 4 == crc << 4
    ensures IsXor(crc ^ (n << 12), i << 12, low)
  {}

  lemma TableStep(crc: bv16, n: bv16, i: bv16)
    requires n < 16 && i == (crc >> 12) ^ n
    ensures IsXor(NibbleStep(crc, n), Table(i), crc << 4)
  {}

  function FourBitSteps(x: bv16, a: bool, b: bool, c: bool, d: bool): bv16 {
    BitStep(BitStep(BitStep(BitStep(x, a), b), c), d)
  }

  /** Feeding a nibble to a register that holds just that nibble at its top leaves nothing. */
  lemma NibbleCancels(n: bv16)
    requires n < 16
    ensures FourBitSteps(n << 12, n & 8 != 0, n & 4 != 0, n & 2 != 0, n & 1 != 0) == 0
  {}

  lemma FourBitsLinear(x: bv16, y: bv16, z: bv16, a: bool, b: bool, c: bool, d: bool)
    requires IsXor(z, x, y)
    ensures IsXor(FourZeroSteps(z), FourBitSteps(x, a, b, c, d), FourBitSteps(y, a, b, c, d))
  {
    BitStepLinear(x, y, z, a, a);
    var x1, y1, z1 := BitStep(x, a), BitStep(y, a), ZeroStep(z);
    BitStepLinear(x1, y1, z1, b, b);
    var x2, y2, z2 := BitStep(x1, b), BitStep(y1, b), ZeroStep(z1);
    BitStepLinear(x2, y2, z2, c, c);
    BitStepLinear(BitStep(x2, c), BitStep(y2, c), ZeroStep(z2), d, d);
  }

  lemma XorZero(z: bv16, x: bv16, y: bv16)
    requires IsXor(z, x, y) && y == 0
    ensures z == x
  {}

  lemma EnterNibble(crc: bv16, n: bv16, entered: bv16)
    requires entered == crc ^ (n << 12)
    ensures IsXor(entered, crc, n << 12)
  {}

  /** A table step is four steps of the division, for every register and every nibble. */
  lemma NibbleStepIsFourBitSteps(crc: bv16, n: bv16)
    requires n < 16
    ensures NibbleStep(crc, n) == FourBitSteps(crc, n & 8 != 0, n & 4 != 0, n & 2 != 0, n & 1 != 0)
  {
    var entered, top := crc ^ (n << 12), n << 12;
    var a, b, c, d := n & 8 != 0, n & 4 != 0, n & 2 != 0, n & 1 != 0;
    EnterNibble(crc, n, entered);
    NibbleStepDivides(crc, n, entered);
    FourBitsLinear(crc, top, entered, a, b, c, d);
    NibbleCancels(n);
    XorZero(FourZeroSteps(entered), FourBitSteps(crc, a, b, c, d), FourBitSteps(top, a, b, c, d));
  }

  lemma ByteNibbles(b: Byte, hi: bv16, lo: bv16)
    requires hi == (b >> 4) as bv16 && lo == (b & 0x0F) as bv16
    ensures hi < 16 && lo < 16
    ensures (hi & 8 != 0) == (b & 0x80 != 0) && (hi & 4 != 0) == (b & 0x40 != 0)
    ensures (hi & 2 != 0) == (b & 0x20 != 0) && (hi & 1 != 0) == (b & 0x10 != 0)
    ensures (lo & 8 != 0) == (b & 8 != 0) && (lo & 4 != 0) == (b & 4 != 0)
    ensures (lo & 2 != 0) == (b & 2 != 0) && (lo & 1 != 0) == (b & 1 != 0)
  {}

  lemma BitSerialCons(crc: bv16, b: bool, rest: seq<bool>)
    ensures BitSerial(crc, [b] + rest) == BitSerial(BitStep(crc, b), rest)
  {
    assert ([b] + rest)[1..] == rest;
  }

  lemma FourBitsSerial(crc: bv16, a: bool, b: bool, c: bool, d: bool, rest: seq<bool>)
    ensures BitSerial(crc, [a, b, c, d] + rest) == BitSerial(FourBitSteps(crc, a, b, c, d), rest)
  {
    var r0, r1, r2, r3 := rest, [d] + rest, [c, d] + rest, [b, c, d] + rest;
    assert [a, b, c, d] + rest == [a] + r3 && r3 == [b] + r2 && r2 == [c] + r1;
    var x1 := BitStep(crc, a);
    var x2 := BitStep(x1, b);
    BitSerialCons(crc, a, r3);
    BitSerialCons(x1, b, r2);
    BitSerialCons(x2, c, r1);
    BitSerialCons(BitStep(x2, c), d, r0);
  }

  lemma ByteStepIsBitSerial(crc: bv16, byte: Byte, rest: seq<bool>)
    ensures BitSerial(crc, BitsOf(byte) + rest) == BitSerial(ByteStep(crc, byte), rest)
  {
    hide BitSerial;
    var hi, lo := (byte >> 4) as bv16, (byte & 0x0F) as bv16;
    ByteNibbles(byte, hi, lo);
    var bits := BitsOf(byte);
    NibbleStepIsFourBitSteps(crc, hi);
    NibbleStepIsFourBitSteps(NibbleStep(crc, hi), lo);
    assert bits + rest == [bits[0], bits[1], bits[2], bits[3]] + ([bits[4], bits[5], bits[6], bits[7]] + rest);
    FourBitsSerial(crc, bits[0], bits[1], bits[2], bits[3], [bits[4], bits[5], bits[6], bits[7]] + rest);
    FourBitsSerial(NibbleStep(crc, hi), bits[4], bits[5], bits[6], bits[7], rest);
  }

  /** The table-driven loop is the bit-serial division, for every byte string and every initial register. */
  lemma {:induction false} TableIsBitSerial(crc: bv16, bytes: seq<Byte>)
    ensures Register(crc, bytes) == BitSerial(crc, MessageBits(bytes))
    decreases |bytes|
  {
    if |bytes| > 0 {
      ByteStepIsBitSerial(crc, bytes[0], MessageBits(bytes[1..]));
      TableIsBitSerial(ByteStep(crc, bytes[0]), bytes[1..]);
    }
  }

  lemma {:induction false} BitSerialConcat(crc: bv16, a: seq<bool>, b: seq<bool>)
    ensures BitSerial(crc, a + b) == BitSerial(BitSerial(crc, a), b)
    decreases |a|
  {
    if |a| == 0 {
      assert a + b == b;
    } else {
      assert (a + b)[1..] == a[1..] + b;
      BitSerialConcat(BitStep(crc, a[0]), a[1..], b);
    }
  }
}
