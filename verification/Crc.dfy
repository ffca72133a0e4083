/** The vendor's CRC-16 as the device layer uses it (src/voltronic/crc.cc). */
module Crc {
  type Byte = bv8

  // The carriage return that ends a frame, and the other two bytes a checksum may not contain.
  const CR: Byte := 0x0D
  const LF: Byte := 0x0A
  const PAREN: Byte := 0x28

  /** The sixteen entries of the nibble table. */
  function Table(i: bv16): bv16 {
    if i == 0 then 0x0000 else if i == 1 then 0x1021 else if i == 2 then 0x2042 else if i == 3 then 0x3063
    else if i == 4 then 0x4084 else if i == 5 then 0x50A5 else if i == 6 then 0x60C6 else if i == 7 then 0x70E7
    else if i == 8 then 0x8108 else if i == 9 then 0x9129 else if i == 10 then 0xA14A else if i == 11 then 0xB16B
    else if i == 12 then 0xC18C else if i == 13 then 0xD1AD else if i == 14 then 0xE1CE else 0xF1EF
  }

  function NibbleStep(crc: bv16, nibble: bv16): bv16 {
    Table((crc >> 12) ^ nibble) ^ (crc << 4)
  }

  function ByteStep(crc: bv16, b: Byte): bv16 {
    NibbleStep(NibbleStep(crc, (b >> 4) as bv16), (b & 0x0F) as bv16)
  }

  /** The register after feeding `bytes`, starting from `crc`. */
  function Register(crc: bv16, bytes: seq<Byte>): bv16
    decreases |bytes|
  {
    if bytes == [] then crc else Register(ByteStep(crc, bytes[0]), bytes[1..])
  }

  predicate IsReserved(b: Byte) {
    b == PAREN || b == CR || b == LF
  }

  function Hi(crc: bv16): Byte { (crc >> 8) as bv8 }

  function Lo(crc: bv16): Byte { (crc & 0xFF) as bv8 }

  function AdjustLow(crc: bv16): bv16 {
    if IsReserved(Lo(crc)) then crc + 1 else crc
  }

  function AdjustHigh(crc: bv16): bv16 {
    if IsReserved(Hi(crc)) then crc + 0x100 else crc
  }

  /** The vendor adjustment: a reserved byte of the checksum is replaced by its successor. */
  function Adjust(crc: bv16): bv16 {
    AdjustHigh(AdjustLow(crc))
  }

  /** The plain remainder, before the adjustment. */
  function RawCrc(bytes: seq<Byte>): bv16 {
    Register(0, bytes)
  }

  /** The checksum that goes on the wire. */
  function CrcOf(bytes: seq<Byte>): bv16 {
    if |bytes| > 0 then Adjust(RawCrc(bytes)) else 0
  }

  function CrcRead(hi: Byte, lo: Byte): bv16 {
    ((hi as bv16) << 8) | (lo as bv16)
  }

  function CrcBytes(crc: bv16): seq<Byte> {
    [Hi(crc), Lo(crc)]
  }

  /** The table-driven loop over the first `bufSize` bytes of a buffer. */
  method Calculate(buf: array<Byte>, bufSize: nat) returns (crc: bv16)
    requires bufSize <= buf.Length
    ensures crc == CrcOf(buf[..bufSize])
  {
    crc := 0;
    if bufSize > 0 {
      var i, left := 0, bufSize;
      while left > 0
        invariant i + left == bufSize
        invariant Register(crc, buf[i..bufSize]) == RawCrc(buf[..bufSize])
      {
        var byte := buf[i];
        assert buf[i..bufSize] == [byte] + buf[i + 1..bufSize];
        assert Register(crc, buf[i..bufSize]) == Register(ByteStep(crc, byte), buf[i + 1..bufSize]);
        crc := NibbleStep(crc, (byte >> 4) as bv16);
        crc := NibbleStep(crc, (byte & 0x0F) as bv16);
        i := i + 1;
        left := left - 1;
      }
      crc := AdjustLow(crc);
      crc := AdjustHigh(crc);
    }
  }

  /** Stores a checksum, high byte first, at offset `at`. */
  method Write(crc: bv16, buffer: array<Byte>, at: nat)
    requires at + 2 <= buffer.Length
    modifies buffer
    ensures buffer[..] == old(buffer[..at]) + CrcBytes(crc) + old(buffer[at + 2..])
  {
    buffer[at] := Hi(crc);
    buffer[at + 1] := Lo(crc);
  }

  /** Reading back what `Write` stored. */
  lemma ReadBack(crc: bv16)
    ensures CrcRead(Hi(crc), Lo(crc)) == crc
  {}

  lemma BytesReadBack(hi: Byte, lo: Byte)
    ensures Hi(CrcRead(hi, lo)) == hi && Lo(CrcRead(hi, lo)) == lo
  {}

  /** The reserved bytes one by one: an opening parenthesis, a carriage return and a line feed move up. */
  function AdjustByte(b: Byte): Byte {
    if b == 0x28 then 0x29 else if b == 0x0D then 0x0E else if b == 0x0A then 0x0B else b
  }

  /** The adjustment works on each byte separately, without a carry, and leaves no reserved byte. */
  lemma AdjustBytes(crc: bv16)
    ensures Hi(Adjust(crc)) == AdjustByte(Hi(crc))
    ensures Lo(Adjust(crc)) == AdjustByte(Lo(crc))
  {}

  lemma Moved(b: Byte)
    ensures AdjustByte(b) != 0x28 && AdjustByte(b) != 0x0D && AdjustByte(b) != 0x0A
  {}

  /** What goes on the wire for a message: its remainder, high byte first, with the reserved bytes moved. */
  lemma WireChecksum(bytes: seq<Byte>)
    ensures CrcBytes(CrcOf(bytes)) ==
            [AdjustByte((RawCrc(bytes) >> 8) as Byte), AdjustByte((RawCrc(bytes) & 0xFF) as Byte)]
  {
    AdjustBytes(RawCrc(bytes));
  }

  /** No checksum on the wire contains a byte that could be taken for the end of a frame. */
  lemma NeverReserved(bytes: seq<Byte>)
    ensures forall b :: b in CrcBytes(CrcOf(bytes)) ==> b != 0x28 && b != 0x0D && b != 0x0A
  {
    WireChecksum(bytes);
    Moved((RawCrc(bytes) >> 8) as Byte);
    Moved((RawCrc(bytes) & 0xFF) as Byte);
  }
}
