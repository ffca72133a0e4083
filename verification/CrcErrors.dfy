/** Which transmission errors the checksum detects, before and after the reserved-byte adjustment. */
module CrcErrors {
  import opened Crc
  import opened CrcTheory

  function XorBits(a: seq<bool>, b: seq<bool>): (e: seq<bool>)
    requires |a| == |b|
    ensures |e| == |a|
  {
    seq(|a|, i requires 0 <= i < |a| => a[i] != b[i])
  }

  function Zeros(n: nat): seq<bool> { seq(n, _ => false) }

  lemma XorBitsCons(a: seq<bool>, b: seq<bool>)
    requires |a| == |b| > 0
    ensures XorBits(a, b) == [a[0] != b[0]] + XorBits(a[1..], b[1..])
  {}

  /** The whole division is linear over xor, in the register and in the message. */
  lemma {:induction false} BitSerialLinear(x: bv16, y: bv16, z: bv16, a: seq<bool>, b: seq<bool>)
    requires |a| == |b| && IsXor(z, x, y)
    ensures IsXor(BitSerial(z, XorBits(a, b)), BitSerial(x, a), BitSerial(y, b))
    decreases |a|
  {
    if |a| > 0 {
      var bit, rest := a[0] != b[0], XorBits(a[1..], b[1..]);
      XorBitsCons(a, b);
      BitSerialCons(z, bit, rest);
      BitStepLinear(x, y, z, a[0], b[0]);
      BitSerialLinear(BitStep(x, a[0]), BitStep(y, b[0]), BitStep(z, bit), a[1..], b[1..]);
    }
  }

  lemma NoErrorStep()
    ensures BitStep(0, false) == 0
  {}

  lemma {:induction false} NoError(e: seq<bool>)
    requires forall i :: 0 <= i < |e| ==> !e[i]
    ensures BitSerial(0, e) == 0
    decreases |e|
  {
    if |e| > 0 {
      NoErrorStep();
      NoError(e[1..]);
    }
  }

  lemma ZeroStepInjective(d: bv16)
    requires d != 0
    ensures BitStep(d, false) != 0
  {
    if d & 0x8000 == 0 {
      assert d << 1 != 0;
    }
  }

  /** An error once in the register is not forgotten while the rest of the message is right. */
  lemma {:induction false} ErrorStays(d: bv16, e: seq<bool>)
    requires d != 0 && forall i :: 0 <= i < |e| ==> !e[i]
    ensures BitSerial(d, e) != 0
    decreases |e|
  {
    if |e| > 0 {
      ZeroStepInjective(d);
      ErrorStays(BitStep(d, false), e[1..]);
    }
  }

  /** The low `k` bits. */
  function LowMask(k: nat): bv16 {
    if k == 0 then 0 else (LowMask(k - 1) << 1) | 1
  }

  predicate Touches(d: bv16, mask: bv16) { d & mask != 0 }

  lemma LowMaskFree(k: nat)
    requires k <= 15
    ensures LowMask(k) & 0x8000 == 0
  {
    assert LowMask(1) == 0x1 && LowMask(2) == 0x3 && LowMask(3) == 0x7;
    assert LowMask(4) == 0xF && LowMask(5) == 0x1F && LowMask(6) == 0x3F;
    assert LowMask(7) == 0x7F && LowMask(8) == 0xFF && LowMask(9) == 0x1FF;
    assert LowMask(10) == 0x3FF && LowMask(11) == 0x7FF && LowMask(12) == 0xFFF;
    assert LowMask(13) == 0x1FFF && LowMask(14) == 0x3FFF && LowMask(15) == 0x7FFF;
  }

  lemma TouchStep(d: bv16, bit: bool, mask: bv16)
    requires Touches(d, mask) && mask & 0x8000 == 0
    ensures Touches(BitStep(d, bit), (mask << 1) | 1)
  {
    if ((d & 0x8000) != 0) != bit {
      assert ((d << 1) ^ 0x1021) & 1 == 1;
    } else {
      assert (d << 1) & (mask << 1) != 0;
    }
  }

  /** After its first wrong bit a burst keeps a wrong bit among the low `k` of the register, `k` bits later. */
  lemma {:induction false} BurstStays(d: bv16, k: nat, e: seq<bool>)
    requires Touches(d, LowMask(k)) && k + |e| <= 16
    ensures BitSerial(d, e) != 0
    decreases |e|
  {
    if |e| > 0 {
      LowMaskFree(k);
      TouchStep(d, e[0], LowMask(k));
      BurstStays(BitStep(d, e[0]), k + 1, e[1..]);
    }
  }

  lemma {:induction false} BurstSeen(e: seq<bool>)
    requires |e| <= 16 && exists i :: 0 <= i < |e| && e[i]
    ensures BitSerial(0, e) != 0
    decreases |e|
  {
    if e[0] {
      FirstError();
      BurstStays(BitStep(0, true), 1, e[1..]);
    } else {
      NoErrorStep();
      var i :| 0 <= i < |e| && e[i];
      assert e[1..][i - 1];
      BurstSeen(e[1..]);
    }
  }

  lemma FirstError()
    ensures Touches(BitStep(0, true), LowMask(1))
  {
    assert LowMask(1) == 1;
  }

  /** Both messages agree outside the sixteen bits that start at `at`. */
  predicate DifferInWindow(a: seq<bool>, b: seq<bool>, at: nat) {
    |a| == |b| && forall i :: 0 <= i < |a| && !(at <= i < at + 16) ==> a[i] == b[i]
  }

  lemma BurstBetween(before: seq<bool>, burst: seq<bool>, after: seq<bool>)
    requires forall i :: 0 <= i < |before| ==> !before[i]
    requires forall i :: 0 <= i < |after| ==> !after[i]
    requires |burst| <= 16 && exists i :: 0 <= i < |burst| && burst[i]
    ensures BitSerial(0, before + (burst + after)) != 0
  {
    BitSerialConcat(0, before, burst + after);
    NoError(before);
    BitSerialConcat(0, burst, after);
    BurstSeen(burst);
    ErrorStays(BitSerial(0, burst), after);
  }

  lemma BurstErrorSeen(e: seq<bool>, at: nat)
    requires forall i :: 0 <= i < |e| && !(at <= i < at + 16) ==> !e[i]
    requires exists i :: 0 <= i < |e| && e[i]
    ensures BitSerial(0, e) != 0
  {
    hide BitSerial;
    var i :| 0 <= i < |e| && e[i];
    var end := if at + 16 <= |e| then at + 16 else |e|;
    var before, burst, after := e[..at], e[at..end], e[end..];
    assert e == before + (burst + after);
    assert burst[i - at];
    forall k | 0 <= k < |after|
      ensures !after[k]
    {
      assert after[k] == e[end + k];
    }
    BurstBetween(before, burst, after);
  }

  lemma Self(x: bv16)
    ensures IsXor(0, x, x)
  {}

  lemma SameMeansZero(z: bv16, x: bv16)
    requires IsXor(z, x, x)
    ensures z == 0
  {}

  lemma RawIsBitSerial(a: seq<Byte>)
    ensures RawCrc(a) == BitSerial(0, MessageBits(a))
  {
    TableIsBitSerial(0, a);
  }

  lemma SameBits(b: Byte, c: Byte)
    requires BitsOf(b) == BitsOf(c)
    ensures b == c
  {
    var p, q := BitsOf(b), BitsOf(c);
    assert p[0] == q[0] && p[1] == q[1] && p[2] == q[2] && p[3] == q[3];
    assert p[4] == q[4] && p[5] == q[5] && p[6] == q[6] && p[7] == q[7];
  }

  /** Different messages have different bits. */
  lemma {:induction false} BitsDetermine(a: seq<Byte>, b: seq<Byte>)
    requires |a| == |b| && MessageBits(a) == MessageBits(b)
    ensures a == b
  {
    hide BitsOf;
    if a != [] {
      assert BitsOf(a[0]) == MessageBits(a)[..8] && BitsOf(b[0]) == MessageBits(b)[..8];
      assert MessageBits(a[1..]) == MessageBits(a)[8..] && MessageBits(b[1..]) == MessageBits(b)[8..];
      SameBits(a[0], b[0]);
      BitsDetermine(a[1..], b[1..]);
      assert a == [a[0]] + a[1..] && b == [b[0]] + b[1..];
    }
  }

  /** The remainder of the difference is the difference of the remainders. */
  lemma PatternOf(a: seq<Byte>, b: seq<Byte>)
    requires |a| == |b|
    ensures IsXor(BitSerial(0, XorBits(MessageBits(a), MessageBits(b))), RawCrc(a), RawCrc(b))
  {
    hide MessageBits, BitSerial, RawCrc;
    RawIsBitSerial(a);
    RawIsBitSerial(b);
    Self(0);
    BitSerialLinear(0, 0, 0, MessageBits(a), MessageBits(b));
  }

  /** Two different messages of equal length, of any length, whose differences fit into sixteen
      consecutive bits, have different remainders. */
  lemma BurstDetected(a: seq<Byte>, b: seq<Byte>, at: nat)
    requires a != b && |a| == |b|
    requires DifferInWindow(MessageBits(a), MessageBits(b), at)
    ensures RawCrc(a) != RawCrc(b)
  {
    hide MessageBits, BitSerial, RawCrc;
    var p, q := MessageBits(a), MessageBits(b);
    if p == q {
      BitsDetermine(a, b);
    }
    PatternOf(a, b);
    var i :| 0 <= i < |p| && p[i] != q[i];
    var e := XorBits(p, q);
    assert e[i];
    BurstErrorSeen(e, at);
    if RawCrc(a) == RawCrc(b) {
      SameMeansZero(BitSerial(0, e), RawCrc(a));
    }
  }

  // ---- What the adjustment costs ----

  /** Two checksum bytes that the adjustment maps to the same byte. */
  predicate Merged(a: Byte, b: Byte) {
    || a == b
    || (IsReserved(a) && b == a + 1)
    || (IsReserved(b) && a == b + 1)
  }

  lemma AdjustByteMerges(a: Byte, b: Byte)
    ensures AdjustByte(a) == AdjustByte(b) <==> Merged(a, b)
  {}

  lemma SameBytes(c: bv16, d: bv16)
    ensures c == d <==> Hi(c) == Hi(d) && Lo(c) == Lo(d)
  {
    ReadBack(c);
    ReadBack(d);
  }

  lemma AdjustMerges(c: bv16, d: bv16)
    ensures Adjust(c) == Adjust(d) <==> Merged(Hi(c), Hi(d)) && Merged(Lo(c), Lo(d))
  {
    AdjustBytes(c);
    AdjustBytes(d);
    SameBytes(Adjust(c), Adjust(d));
    AdjustByteMerges(Hi(c), Hi(d));
    AdjustByteMerges(Lo(c), Lo(d));
  }

  lemma EmptyMessage()
    ensures CrcOf([]) == Adjust(RawCrc([]))
  {}

  /** The checksums on the wire of two messages are equal exactly when the adjustment merges their
      remainders byte by byte. */
  lemma WireCrcCollides(a: seq<Byte>, b: seq<Byte>)
    ensures CrcOf(a) == CrcOf(b) <==>
            Merged(Hi(RawCrc(a)), Hi(RawCrc(b))) && Merged(Lo(RawCrc(a)), Lo(RawCrc(b)))
  {
    EmptyMessage();
    assert CrcOf(a) == Adjust(RawCrc(a));
    assert CrcOf(b) == Adjust(RawCrc(b));
    AdjustMerges(RawCrc(a), RawCrc(b));
  }

  /** All that separates two bytes that the adjustment merges. */
  predicate Slight(d: Byte) { d == 0 || d == 1 || d == 3 }

  lemma MergedDifferSlightly(a: Byte, b: Byte, d: Byte)
    requires Merged(a, b) && d == a ^ b
    ensures Slight(d)
  {}

  lemma XorByBytes(d: bv16, x: bv16, y: bv16)
    requires IsXor(d, x, y)
    ensures Hi(d) == Hi(x) ^ Hi(y) && Lo(d) == Lo(x) ^ Lo(y)
  {}

  /** Remainders that differ by more than that leave different checksums on the wire. */
  lemma RemainderSeen(a: seq<Byte>, b: seq<Byte>, d: bv16)
    requires IsXor(d, RawCrc(a), RawCrc(b)) && (!Slight(Hi(d)) || !Slight(Lo(d)))
    ensures CrcOf(a) != CrcOf(b)
  {
    hide RawCrc, CrcOf, Hi, Lo, Merged, Slight, IsXor;
    WireCrcCollides(a, b);
    XorByBytes(d, RawCrc(a), RawCrc(b));
    if CrcOf(a) == CrcOf(b) {
      MergedDifferSlightly(Hi(RawCrc(a)), Hi(RawCrc(b)), Hi(d));
      MergedDifferSlightly(Lo(RawCrc(a)), Lo(RawCrc(b)), Lo(d));
    }
  }

  /** On the wire a burst of at most sixteen bits goes unnoticed exactly when the adjustment merges the two
      remainders, though they differ; its pattern then leaves only the bytes 0, 1 and 3, not both 0. */
  lemma BurstOnTheWire(a: seq<Byte>, b: seq<Byte>, at: nat)
    requires a != b && |a| == |b|
    requires DifferInWindow(MessageBits(a), MessageBits(b), at)
    ensures CrcOf(a) == CrcOf(b) <==>
            Merged(Hi(RawCrc(a)), Hi(RawCrc(b))) && Merged(Lo(RawCrc(a)), Lo(RawCrc(b)))
    ensures CrcOf(a) == CrcOf(b) ==>
              var d := BitSerial(0, XorBits(MessageBits(a), MessageBits(b)));
              d != 0 && Slight(Hi(d)) && Slight(Lo(d)) && RawCrc(a) != RawCrc(b)
  {
    hide MessageBits, BitSerial, RawCrc, CrcOf, Hi, Lo, Merged, Slight;
    var d := BitSerial(0, XorBits(MessageBits(a), MessageBits(b)));
    BurstDetected(a, b, at);
    WireCrcCollides(a, b);
    PatternOf(a, b);
    if !Slight(Hi(d)) || !Slight(Lo(d)) {
      RemainderSeen(a, b, d);
    }
    NonzeroDifference(d, RawCrc(a), RawCrc(b));
  }

  lemma NonzeroDifference(d: bv16, x: bv16, y: bv16)
    requires IsXor(d, x, y) && x != y
    ensures d != 0
  {}

  /** Burst detection is lost by the adjustment: these two messages differ within sixteen bits, their
      remainders are 000D and 000E, and the wire carries 000E for both. */
  lemma AdjustmentHidesABurst()
    ensures
      var a, b: seq<Byte> := [0x63, 0xFB], [0xD4, 0x49];
      && MessageBits(a) != MessageBits(b) && DifferInWindow(MessageBits(a), MessageBits(b), 0)
      && RawCrc(a) == 0x000D && RawCrc(b) == 0x000E && CrcOf(a) == 0x000E && CrcOf(b) == 0x000E
  {
    var a, b: seq<Byte> := [0x63, 0xFB], [0xD4, 0x49];
    assert a[1..] == [0xFB] && b[1..] == [0x49];
    assert !MessageBits(a)[0] && MessageBits(b)[0];
    assert ByteStep(ByteStep(0, 0x63), 0xFB) == 0x000D;
    assert ByteStep(ByteStep(0, 0xD4), 0x49) == 0x000E;
    assert RawCrc(a) == Register(ByteStep(0, 0x63), [0xFB]);
    assert RawCrc(b) == Register(ByteStep(0, 0xD4), [0x49]);
  }
}
