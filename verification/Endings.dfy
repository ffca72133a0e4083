/** Why a device operation ends as it does: for each of its outcomes the one cause, told from the answers of the
    operating system and the clock (src/voltronic/device.cc:53-67, 96-175). */
module Endings {
  import opened Crc
  import opened Integers
  import opened Line
  import opened Device
  import opened Framing

  // ---- The clock ----

  /** A timeout of 0 means that there is none. */
  lemma NoTimeout(started: nat, now: nat)
    ensures InTime(0, started, now)
  {}

  /** Otherwise the deadline is over once the timeout has passed, also across a wrap of the 64-bit clock; and a
      clock that was set back counts as late. */
  lemma DeadlineExactly(timeout: nat, started: nat, now: nat)
    requires 0 < timeout < U64 && started < U64 && now < U64
    ensures InTime(timeout, started, now) <==>
            if now >= started then now - started < timeout else now + 0x1_0000_0000_0000_0000 - started < timeout
  {}

  // ---- Reading ----

  /** `n` read calls in a row, whatever comes: what they store, and the line. */
  function Reads(line: Line, capacity: nat, n: nat): (r: (seq<Byte>, Line))
    requires n <= |line.readAnswers|
    ensures |r.0| <= capacity && r.1.readAnswers == line.readAnswers[n..]
    decreases n
  {
    if n == 0 then ([], line)
    else
      var (stored, now) := Reads(line, capacity, n - 1);
      var chunk := ReadOnce(now, capacity - |stored|);
      (stored + chunk.stored, chunk.line)
  }

  /** After `n` calls there is reason for another one: the last call went well, there is no carriage return
      yet, the deadline is not over, and the buffer is not full. */
  predicate ReadsOn(line: Line, capacity: nat, timeout: nat, started: nat, n: nat)
    requires 0 < n <= |line.readAnswers|
  {
    var (stored, now) := Reads(line, capacity, n);
    line.readAnswers[n - 1].Transfer? && 0x0D !in stored && InTime(timeout, started, now.now) && |stored| < capacity
  }

  /** The reading loop has made `n` calls. */
  predicate HasRead(line: Line, capacity: nat, timeout: nat, started: nat, n: nat, r: Reading) {
    && n <= |line.readAnswers| && (r.stored, r.line) == Reads(line, capacity, n)
    && (forall j :: 0 < j < n ==> ReadsOn(line, capacity, timeout, started, j))
    && (r.outcome == Stalled <==>
        n == |line.readAnswers| && (n == 0 || ReadsOn(line, capacity, timeout, started, n)))
    && (r.outcome == Failed(DeviceError) <==> n > 0 && line.readAnswers[n - 1].Fails?)
    && (r.outcome.Done? <==> n > 0 && line.readAnswers[n - 1].Transfer? && 0x0D in r.stored)
    && (r.outcome.Done? ==> r.outcome.count == FirstCR(r.stored) + 1)
    && (r.outcome == Failed(TimeoutError) <==>
        n > 0 && line.readAnswers[n - 1].Transfer? && 0x0D !in r.stored && !InTime(timeout, started, r.line.now))
    && (r.outcome == Failed(OverflowError) <==>
        && n > 0 && line.readAnswers[n - 1].Transfer? && 0x0D !in r.stored && InTime(timeout, started, r.line.now)
        && |r.stored| == capacity)
    && r.outcome != Failed(InvalidDataError)
  }

  lemma {:induction false} ReadsFirst(line: Line, capacity: nat, n: nat)
    requires 0 < n <= |line.readAnswers|
    ensures var first := ReadOnce(line, capacity);
            && first.line.readAnswers == line.readAnswers[1..]
            && var (stored, now) := Reads(first.line, capacity - |first.stored|, n - 1);
               Reads(line, capacity, n) == (first.stored + stored, now)
    decreases n
  {
    hide ReadOnce;
    AnswerUsed(line, capacity);
    var first := ReadOnce(line, capacity);
    if n == 1 {
      assert Reads(line, capacity, 0) == ([], line);
      assert [] + first.stored == first.stored + [];
    } else {
      ReadsFirst(line, capacity, n - 1);
      var (stored, now) := Reads(first.line, capacity - |first.stored|, n - 2);
      var last := ReadOnce(now, capacity - |first.stored| - |stored|);
      assert first.stored + (stored + last.stored) == (first.stored + stored) + last.stored;
    }
  }

  lemma AnswerUsed(line: Line, capacity: nat)
    requires line.readAnswers != []
    ensures var r := ReadOnce(line, capacity);
            && r.line.readAnswers == line.readAnswers[1..] && r.line.now == line.now + line.readAnswers[0].took
            && (r.outcome.Done? <==> line.readAnswers[0].Transfer?)
            && (r.outcome == Failed(DeviceError) <==> line.readAnswers[0].Fails?)
            && r.outcome != Stalled
  {}

  lemma CRIn(bytes: seq<Byte>)
    ensures 0x0D in bytes <==> FirstCR(bytes) < |bytes|
  {
    NoCRFirst(bytes);
  }

  /** The reading loop goes on exactly as long as there is reason to, and every ending has its cause. */
  lemma {:induction false} ReadingEnds(line: Line, capacity: nat, timeout: nat, started: nat) returns (n: nat)
    ensures HasRead(line, capacity, timeout, started, n, ReadFrame(line, capacity, timeout, started))
    decreases |line.readAnswers|
  {
    hide ReadOnce, FirstCR, InTime, HasRead;
    n := 0;
    if line.readAnswers != [] {
      AnswerUsed(line, capacity);
      var chunk := ReadOnce(line, capacity);
      var got := |chunk.stored|;
      CRIn(chunk.stored);
      if chunk.outcome.Done? && FirstCR(chunk.stored) == got
         && InTime(timeout, started, chunk.line.now) && capacity != got {
        var m := ReadingEnds(chunk.line, capacity - got, timeout, started);
        n := m + 1;
        ReadingGoesOn(line, capacity, timeout, started, m);
      } else {
        n := 1;
        OneRead(line, capacity, timeout, started);
      }
    } else {
      NoRead(line, capacity, timeout, started);
    }
  }

  lemma NoRead(line: Line, capacity: nat, timeout: nat, started: nat)
    requires line.readAnswers == []
    ensures HasRead(line, capacity, timeout, started, 0, ReadFrame(line, capacity, timeout, started))
  {}

  lemma OneRead(line: Line, capacity: nat, timeout: nat, started: nat)
    requires line.readAnswers != []
    requires var chunk := ReadOnce(line, capacity);
             !(chunk.outcome.Done? && FirstCR(chunk.stored) == |chunk.stored|
               && InTime(timeout, started, chunk.line.now) && capacity != |chunk.stored|)
    ensures HasRead(line, capacity, timeout, started, 1, ReadFrame(line, capacity, timeout, started))
  {
    hide ReadOnce, FirstCR, InTime, Reads;
    AnswerUsed(line, capacity);
    var chunk := ReadOnce(line, capacity);
    CRIn(chunk.stored);
    ReadsFirst(line, capacity, 1);
    ReadsNothing(chunk.line, capacity - |chunk.stored|);
    assert chunk.stored + [] == chunk.stored;
  }

  lemma ReadingGoesOn(line: Line, capacity: nat, timeout: nat, started: nat, m: nat)
    requires line.readAnswers != []
    requires var chunk := ReadOnce(line, capacity);
             && chunk.outcome.Done? && FirstCR(chunk.stored) == |chunk.stored|
             && InTime(timeout, started, chunk.line.now) && capacity != |chunk.stored|
             && HasRead(chunk.line, capacity - |chunk.stored|, timeout, started, m,
                        ReadFrame(chunk.line, capacity - |chunk.stored|, timeout, started))
    ensures HasRead(line, capacity, timeout, started, m + 1, ReadFrame(line, capacity, timeout, started))
  {
    hide ReadOnce, FirstCR, InTime, Reads;
    AnswerUsed(line, capacity);
    var chunk := ReadOnce(line, capacity);
    var rest := ReadFrame(chunk.line, capacity - |chunk.stored|, timeout, started);
    CRIn(chunk.stored);
    ReadsFirst(line, capacity, m + 1);
    ReadsNothing(chunk.line, capacity - |chunk.stored|);
    FirstCRConcat(chunk.stored, rest.stored);
    CRIn(rest.stored);
    CRIn(chunk.stored + rest.stored);
    forall j | 0 < j <= m + 1
      ensures ReadsOn(line, capacity, timeout, started, j) <==>
              j == 1 || ReadsOn(chunk.line, capacity - |chunk.stored|, timeout, started, j - 1)
    {
      ReadsOnShift(line, capacity, timeout, started, j);
    }
  }

  lemma ReadsOnShift(line: Line, capacity: nat, timeout: nat, started: nat, j: nat)
    requires 0 < j <= |line.readAnswers|
    requires var chunk := ReadOnce(line, capacity);
             && chunk.outcome.Done? && FirstCR(chunk.stored) == |chunk.stored|
             && InTime(timeout, started, chunk.line.now) && capacity != |chunk.stored|
    ensures var chunk := ReadOnce(line, capacity);
            && chunk.line.readAnswers == line.readAnswers[1..]
            && (ReadsOn(line, capacity, timeout, started, j) <==>
                j == 1 || ReadsOn(chunk.line, capacity - |chunk.stored|, timeout, started, j - 1))
  {
    hide ReadOnce, FirstCR, InTime, Reads;
    AnswerUsed(line, capacity);
    var chunk := ReadOnce(line, capacity);
    CRIn(chunk.stored);
    ReadsFirst(line, capacity, j);
    if j == 1 {
      ReadsNothing(chunk.line, capacity - |chunk.stored|);
      assert chunk.stored + [] == chunk.stored;
    }
  }

  lemma ReadsNothing(line: Line, capacity: nat)
    ensures Reads(line, capacity, 0) == ([], line)
  {}

  // ---- Writing ----

  /** `n` write calls in a row: what is left of the data, and the line. */
  function Writes(line: Line, data: seq<Byte>, n: nat): (r: (seq<Byte>, Line))
    requires n <= |line.writeAnswers|
    ensures r.1.writeAnswers == line.writeAnswers[n..]
    decreases n
  {
    if n == 0 then (data, line)
    else
      var (left, now) := Writes(line, data, n - 1);
      var (outcome, after) := WriteOnce(now, left);
      (if outcome.Done? && outcome.count < |left| then left[outcome.count..] else if outcome.Done? then [] else left,
       after)
  }

  predicate WritesOn(line: Line, data: seq<Byte>, timeout: nat, started: nat, n: nat)
    requires 0 < n <= |line.writeAnswers|
  {
    var (left, now) := Writes(line, data, n);
    line.writeAnswers[n - 1].Transfer? && left != [] && InTime(timeout, started, now.now)
  }

  /** The writing loop has made `n` calls. */
  predicate HasWritten(line: Line, data: seq<Byte>, timeout: nat, started: nat, n: nat, outcome: Outcome, after: Line) {
    && n <= |line.writeAnswers| && after == Writes(line, data, n).1
    && (forall j :: 0 < j < n ==> WritesOn(line, data, timeout, started, j))
    && var left := Writes(line, data, n).0;
       && (outcome == Stalled <==>
           n == |line.writeAnswers| && (n == 0 || WritesOn(line, data, timeout, started, n)))
       && (outcome == Failed(DeviceError) <==> n > 0 && line.writeAnswers[n - 1].Fails?)
       && (outcome == Done(0) <==> n > 0 && line.writeAnswers[n - 1].Transfer? && left == [])
       && (outcome == Failed(TimeoutError) <==>
           n > 0 && line.writeAnswers[n - 1].Transfer? && left != [] && !InTime(timeout, started, after.now))
       && outcome != Failed(OverflowError) && outcome != Failed(InvalidDataError)
  }

  lemma WriteUsed(line: Line, data: seq<Byte>)
    requires line.writeAnswers != []
    ensures var (outcome, after) := WriteOnce(line, data);
            && after.writeAnswers == line.writeAnswers[1..] && after.now == line.now + line.writeAnswers[0].took
            && (outcome.Done? <==> line.writeAnswers[0].Transfer?)
            && (outcome == Failed(DeviceError) <==> line.writeAnswers[0].Fails?)
            && outcome != Stalled
  {}

  lemma {:induction false} WritesFirst(line: Line, data: seq<Byte>, n: nat)
    requires 0 < n <= |line.writeAnswers|
    ensures WriteOnce(line, data).1.writeAnswers == line.writeAnswers[1..]
    ensures Writes(line, data, n) == Writes(WriteOnce(line, data).1, Writes(line, data, 1).0, n - 1)
    decreases n
  {
    hide WriteOnce;
    WriteUsed(line, data);
    assert Writes(line, data, 0) == (data, line);
    if n > 1 {
      WritesFirst(line, data, n - 1);
    }
  }

  /** The writing loop goes on exactly as long as there is reason to, and every ending has its cause. */
  lemma {:induction false} WritingEnds(line: Line, data: seq<Byte>, timeout: nat, started: nat) returns (n: nat)
    ensures var (outcome, after) := WriteAll(line, data, timeout, started);
            HasWritten(line, data, timeout, started, n, outcome, after)
    decreases |line.writeAnswers|
  {
    hide WriteOnce, InTime, HasWritten;
    n := 0;
    if line.writeAnswers != [] {
      WriteUsed(line, data);
      var (outcome, after) := WriteOnce(line, data);
      if outcome.Done? && |data| - outcome.count > 0 && InTime(timeout, started, after.now) {
        var m := WritingEnds(after, data[outcome.count..], timeout, started);
        n := m + 1;
        WritingGoesOn(line, data, timeout, started, m);
      } else {
        n := 1;
        OneWrite(line, data, timeout, started);
      }
    } else {
      NoWrite(line, data, timeout, started);
    }
  }

  lemma NoWrite(line: Line, data: seq<Byte>, timeout: nat, started: nat)
    requires line.writeAnswers == []
    ensures var (outcome, after) := WriteAll(line, data, timeout, started);
            HasWritten(line, data, timeout, started, 0, outcome, after)
  {}

  lemma OneWrite(line: Line, data: seq<Byte>, timeout: nat, started: nat)
    requires line.writeAnswers != []
    requires var (outcome, after) := WriteOnce(line, data);
             !(outcome.Done? && |data| - outcome.count > 0 && InTime(timeout, started, after.now))
    ensures var (outcome, after) := WriteAll(line, data, timeout, started);
            HasWritten(line, data, timeout, started, 1, outcome, after)
  {
    hide WriteOnce, InTime, Writes;
    WriteUsed(line, data);
    WritesOne(line, data);
  }

  lemma WritingGoesOn(line: Line, data: seq<Byte>, timeout: nat, started: nat, m: nat)
    requires line.writeAnswers != []
    requires var (first, after) := WriteOnce(line, data);
             && first.Done? && |data| - first.count > 0 && InTime(timeout, started, after.now)
             && var (outcome, end) := WriteAll(after, data[first.count..], timeout, started);
                HasWritten(after, data[first.count..], timeout, started, m, outcome, end)
    ensures var (outcome, end) := WriteAll(line, data, timeout, started);
            HasWritten(line, data, timeout, started, m + 1, outcome, end)
  {
    hide WriteOnce, InTime, Writes, WriteAll;
    WriteUsed(line, data);
    WritesOne(line, data);
    OneMoreWrite(line, data, timeout, started);
    var (first, after) := WriteOnce(line, data);
    var rest := data[first.count..];
    WritesFirst(line, data, m + 1);
    WritesNothing(after, rest);
    forall j | 0 < j <= m + 1
      ensures WritesOn(line, data, timeout, started, j) <==> j == 1 || WritesOn(after, rest, timeout, started, j - 1)
    {
      WritesOnShift(line, data, timeout, started, j);
    }
  }

  lemma OneMoreWrite(line: Line, data: seq<Byte>, timeout: nat, started: nat)
    requires line.writeAnswers != []
    requires var (first, after) := WriteOnce(line, data);
             first.Done? && |data| - first.count > 0 && InTime(timeout, started, after.now)
    ensures var (first, after) := WriteOnce(line, data);
            WriteAll(line, data, timeout, started) == WriteAll(after, data[first.count..], timeout, started)
  {
    hide WriteOnce, InTime;
  }

  lemma WritesOnShift(line: Line, data: seq<Byte>, timeout: nat, started: nat, j: nat)
    requires 0 < j <= |line.writeAnswers|
    requires var (first, after) := WriteOnce(line, data);
             first.Done? && |data| - first.count > 0 && InTime(timeout, started, after.now)
    ensures var (first, after) := WriteOnce(line, data);
            && after.writeAnswers == line.writeAnswers[1..]
            && (WritesOn(line, data, timeout, started, j) <==>
                j == 1 || WritesOn(after, data[first.count..], timeout, started, j - 1))
  {
    hide WriteOnce, InTime, Writes;
    WriteUsed(line, data);
    WritesOne(line, data);
    WritesFirst(line, data, j);
    if j == 1 {
      WritesNothing(WriteOnce(line, data).1, data[WriteOnce(line, data).0.count..]);
    }
  }

  lemma WritesNothing(line: Line, data: seq<Byte>)
    ensures Writes(line, data, 0) == (data, line)
  {}

  lemma WritesOne(line: Line, data: seq<Byte>)
    requires line.writeAnswers != []
    ensures var (outcome, after) := WriteOnce(line, data);
            Writes(line, data, 1) ==
            (if outcome.Done? && outcome.count < |data| then data[outcome.count..]
             else if outcome.Done? then [] else data,
             after)
  {
    hide WriteOnce;
    WritesNothing(line, data);
  }

  // ---- One call of the operating system ----

  /** A read call stores the next bytes in their order: as many as it delivers, as there is room for, as there
      are, and over USB at most eight. */
  lemma OneReadExactly(line: Line, capacity: nat)
    requires line.readAnswers != [] && line.readAnswers[0].Transfer?
    ensures var r := ReadOnce(line, capacity); var n := |r.stored|;
            && r.outcome == Done(n) && n <= |line.incoming|
            && r.stored == line.incoming[..n] && r.line.incoming == line.incoming[n..]
            && n <= line.readAnswers[0].count && n <= capacity && (line.kind.Hid? ==> n <= 8)
            && (n == line.readAnswers[0].count || n == capacity || n == |line.incoming| || (line.kind.Hid? && n == 8))
            && r.line.sent == line.sent && r.line.calls == line.calls + 1
  {}

  /** A write call on a stream takes the next bytes; over USB it sends eight bytes, padded with zeros, and
      reports at most eight. */
  lemma OneWriteExactly(line: Line, data: seq<Byte>)
    requires line.writeAnswers != [] && line.writeAnswers[0].Transfer?
    ensures var (outcome, after) := WriteOnce(line, data);
            && outcome.Done? && outcome.count <= line.writeAnswers[0].count
            && after.incoming == line.incoming && after.calls == line.calls + 1
            && (line.kind.Stream? ==>
                  && outcome.count <= |data| && after.sent == line.sent + data[..outcome.count]
                  && (outcome.count == line.writeAnswers[0].count || outcome.count == |data|))
            && (line.kind.Hid? ==>
                  && outcome.count <= 8 && (outcome.count == line.writeAnswers[0].count || outcome.count == 8)
                  && |after.sent| == |line.sent| + 8 && after.sent[..|line.sent|] == line.sent
                  && forall i :: 0 <= i < 8 ==> after.sent[|line.sent| + i] == if i < |data| then data[i] else 0)
  {}

  // ---- The whole transaction ----

  /** The flags by their bits: 1 adds a checksum, 2 expects one, 4 compares it. */
  lemma FlagBits(flags: bv8)
    ensures Has(flags, FLAG_WRITE_CRC) <==> flags & 1 == 1
    ensures Has(flags, FLAG_READ_CRC) <==> flags & 2 == 2
    ensures Has(flags, FLAG_VERIFY_CRC) <==> flags & 4 == 4
  {}

  /** A device starts with all three flags and a timeout of one second. */
  lemma FactorySettings()
    ensures FLAG_WRITE_CRC | FLAG_READ_CRC | FLAG_VERIFY_CRC == 7 && TIMEOUT == 1000
  {}

  /** What becomes of a response that ended with a carriage return. */
  lemma ResponseExactly(flags: bv8, bytes: seq<Byte>)
    requires |bytes| > 0 && FirstCR(bytes) == |bytes| - 1
    ensures flags & 2 != 2 ==> Unframe(flags, bytes) == Done(|bytes| - 1)
    ensures flags & 2 == 2 && flags & 4 != 4 ==> Unframe(flags, bytes) == Failed(InvalidDataError)
    ensures flags & 2 == 2 && flags & 4 == 4 ==>
              forall n :: Unframe(flags, bytes) == Done(n) <==>
                          exists m :: |m| == n && NoCR(m) && bytes == Frame(1, m)
    ensures Unframe(flags, bytes).Done? || Unframe(flags, bytes) == Failed(InvalidDataError)
  {
    hide FirstCR, Frame, CrcOf, NoCR;
    FlagBits(flags);
    if flags & 2 == 2 && flags & 4 == 4 {
      forall n: nat
        ensures Unframe(flags, bytes) == Done(n) <==> exists m :: |m| == n && NoCR(m) && bytes == Frame(1, m)
      {
        AcceptsExactlyFrames(flags, bytes, n);
      }
    }
  }

  /** Each ending of a transaction has its cause. */
  lemma TransactionCauses(line: Line, flags: bv8, timeout: nat, message: seq<Byte>, capacity: nat)
    ensures var (sent, after) := WriteAll(line, Frame(flags, message), timeout, line.now);
            var read := ReadFrame(after, capacity, timeout, line.now);
            var r := Transact(line, flags, timeout, message, capacity);
            var asked := sent.Done? && InTime(timeout, line.now, after.now);
            && (asked ==> r.stored == read.stored && r.line == read.line)
            && (!asked ==> r.stored == [] && r.line == after)
            && (r.outcome == Stalled <==> sent == Stalled || (asked && read.outcome == Stalled))
            && (r.outcome == Failed(DeviceError) <==>
                sent == Failed(DeviceError) || (asked && read.outcome == Failed(DeviceError)))
            && (r.outcome == Failed(TimeoutError) <==>
                || sent == Failed(TimeoutError) || (sent.Done? && !InTime(timeout, line.now, after.now))
                || (asked && read.outcome == Failed(TimeoutError)))
            && (r.outcome == Failed(OverflowError) <==> asked && read.outcome == Failed(OverflowError))
            && (r.outcome.Done? || r.outcome == Failed(InvalidDataError) <==> asked && read.outcome.Done?)
            && (asked && read.outcome.Done? ==> r.outcome == Unframe(flags, read.stored[..read.outcome.count]))
  {
    hide WriteAll, ReadFrame, Frame, CrcOf;
    var (sent, after) := WriteAll(line, Frame(flags, message), timeout, line.now);
    var n := WritingEnds(line, Frame(flags, message), timeout, line.now);
    var m := ReadingEnds(after, capacity, timeout, line.now);
  }

  /** A frame, byte by byte: the message; with flag 1 its remainder, high byte first, the reserved bytes
      moved; and a carriage return. */
  lemma FrameExactly(flags: bv8, message: seq<Byte>)
    ensures Frame(flags, message) ==
            message +
            (if flags & 1 == 1 then
               [AdjustByte((RawCrc(message) >> 8) as Byte), AdjustByte((RawCrc(message) & 0xFF) as Byte)] else []) +
            [0x0D]
  {
    hide RawCrc, CrcOf, AdjustByte, CrcBytes;
    FlagBits(flags);
    WireChecksum(message);
  }
}
