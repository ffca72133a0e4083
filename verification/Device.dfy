/** The framed transaction of the device layer (src/voltronic/device.cc). */
module Device {
  import opened Crc
  import opened Integers
  import opened Line

  const FLAG_WRITE_CRC: bv8 := 1
  const FLAG_READ_CRC: bv8 := 2
  const FLAG_VERIFY_CRC: bv8 := 4
  const TIMEOUT := 1000

  predicate Has(flags: bv8, flag: bv8) { flags & flag == flag }

  /** What goes on the wire for a message. */
  function Frame(flags: bv8, message: seq<Byte>): seq<Byte> {
    message + (if Has(flags, FLAG_WRITE_CRC) then CrcBytes(CrcOf(message)) else []) + [CR]
  }

  /** What `recv` makes of `size` bytes that end with the first carriage return. */
  function Unframe(flags: bv8, bytes: seq<Byte>): Outcome {
    var crcNeeded := Has(flags, FLAG_READ_CRC);
    var minSize := if crcNeeded then 3 else 1;
    if |bytes| < minSize then Failed(InvalidDataError)
    else
      var dataSize := |bytes| - minSize;
      if crcNeeded then
        var actual := CrcRead(bytes[dataSize], bytes[dataSize + 1]);
        var expected := CrcOf(bytes[..dataSize]);
        if Has(flags, FLAG_VERIFY_CRC) && actual == expected then Done(dataSize) else Failed(InvalidDataError)
      else Done(dataSize)
  }

  function Receive(line: Line, flags: bv8, capacity: nat, timeout: nat, started: nat): Reading {
    var r := ReadFrame(line, capacity, timeout, started);
    if r.outcome.Done? then
      r.(outcome := Unframe(flags, r.stored[..r.outcome.count]))
    else r
  }

  /** A whole transaction: send, check the clock, receive. */
  function Transact(line: Line, flags: bv8, timeout: nat, message: seq<Byte>, capacity: nat): Reading {
    match WriteAll(line, Frame(flags, message), timeout, line.now)
    case (Stalled, after) => Reading(Stalled, [], after)
    case (Failed(e), after) => Reading(Failed(e), [], after)
    case (Done(_), after) =>
      if !InTime(timeout, line.now, after.now) then Reading(Failed(TimeoutError), [], after)
      else Receive(after, flags, capacity, timeout, line.now)
  }

  lemma PrependNothing(r: Reading)
    ensures Prepend([], r) == r
  {
    assert [] + r.stored == r.stored;
  }

  lemma PrependTwice(a: seq<Byte>, b: seq<Byte>, r: Reading)
    ensures Prepend(a, Prepend(b, r)) == Prepend(a + b, r)
  {
    assert a + (b + r.stored) == (a + b) + r.stored;
  }

  class Device {
    var flags: bv8
    var timeout: nat
    var timeStarted: nat
    var line: Line

    constructor (line: Line)
      ensures flags == FLAG_WRITE_CRC | FLAG_READ_CRC | FLAG_VERIFY_CRC
      ensures timeout == TIMEOUT && this.line == line
    {
      flags := FLAG_WRITE_CRC | FLAG_READ_CRC | FLAG_VERIFY_CRC;
      timeout := TIMEOUT;
      timeStarted := 0;
      this.line := line;
    }

    function GetElapsedTime(): nat
      reads this
    {
      SubU64(line.now, timeStarted)
    }

    function GetTimeLeft(): (left: nat)
      reads this
      ensures left == 0 <==> !InTime(timeout, timeStarted, line.now)
    {
      if timeout == 0 then U64 - 1
      else if GetElapsedTime() > timeout then 0
      else timeout - GetElapsedTime()
    }

    method WriteLoop(data: array<Byte>) returns (outcome: Outcome)
      modifies this`line
      ensures (outcome, line) == WriteAll(old(line), data[..], timeout, timeStarted)
    {
      var at, bytesLeft := 0, data.Length;
      while true
        invariant 0 <= at <= data.Length && bytesLeft == data.Length - at
        invariant WriteAll(line, data[at..], timeout, timeStarted) ==
                  WriteAll(old(line), data[..], timeout, timeStarted)
        decreases |line.writeAnswers|
      {
        var (written, after) := WriteOnce(line, data[at..]);
        line := after;
        match written
        case Stalled => return Stalled;
        case Failed(e) => return Failed(e);
        case Done(n) =>
          bytesLeft := bytesLeft - n;
          if bytesLeft <= 0 {
            return Done(0);
          }
          if GetTimeLeft() == 0 {
            return Failed(TimeoutError);
          }
          assert data[at..][n..] == data[at + n..];
          at := at + n;
      }
    }

    /** The allocation in `send`: message, checksum if wanted, carriage return. */
    method BuildFrame(buf: array<Byte>, bufSize: nat) returns (data: array<Byte>)
      requires bufSize <= buf.Length
      ensures fresh(data) && data[..] == Frame(flags, buf[..bufSize])
    {
      ghost var message := buf[..bufSize];
      if Has(flags, FLAG_WRITE_CRC) {
        var crc := Calculate(buf, bufSize);
        data := new Byte[bufSize + 3];
        Crc.Write(crc, data, bufSize);
        assert data[bufSize..bufSize + 2] == CrcBytes(crc);
      } else {
        data := new Byte[bufSize + 1];
      }
      ghost var tail := data[bufSize..data.Length - 1];
      forall i | 0 <= i < bufSize {
        data[i] := buf[i];
      }
      data[data.Length - 1] := CR;
      assert tail == if Has(flags, FLAG_WRITE_CRC) then CrcBytes(CrcOf(message)) else [];
      assert data[..bufSize] == message == buf[..bufSize];
      assert data[bufSize..data.Length - 1] == tail;
      assert data[..] == data[..bufSize] + data[bufSize..data.Length - 1] + [CR];
    }

    method Send(buf: array<Byte>, bufSize: nat) returns (outcome: Outcome)
      requires bufSize <= buf.Length
      modifies this`line
      ensures (outcome, line) == WriteAll(old(line), Frame(flags, buf[..bufSize]), timeout, timeStarted)
    {
      var data := BuildFrame(buf, bufSize);
      outcome := WriteLoop(data);
    }

    /** One read call: what it delivers goes into the buffer from `at` on. */
    method Read(buf: array<Byte>, at: nat) returns (outcome: Outcome)
      requires at <= buf.Length
      modifies this`line, buf
      ensures var r := ReadOnce(old(line), buf.Length - at);
              && outcome == r.outcome && line == r.line
              && buf[..at] == old(buf[..at])
              && buf[at..at + |r.stored|] == r.stored
              && buf[at + |r.stored|..] == old(buf[at + |r.stored|..])
    {
      ghost var rest := buf[at..];
      var r := ReadOnce(line, buf.Length - at);
      line := r.line;
      forall i | 0 <= i < |r.stored| {
        buf[at + i] := r.stored[i];
      }
      outcome := r.outcome;
      assert buf[at + |r.stored|..] == rest[|r.stored|..];
    }

    /** One pass of the loop of `readLoop`: either it ends the loop with a count for this pass, or it
        leaves the next pass a smaller buffer. */
    method ReadPass(buf: array<Byte>, at: nat) returns (ended: bool, outcome: Outcome, next: nat)
      requires at <= buf.Length
      modifies this`line, buf
      ensures at <= next <= buf.Length
      ensures buf[..at] == old(buf[..at]) && buf[next..] == old(buf[next..])
      ensures ended ==>
                ReadFrame(old(line), buf.Length - at, timeout, timeStarted) == Reading(outcome, buf[at..next], line)
      ensures !ended ==>
                && |line.readAnswers| < |old(line.readAnswers)|
                && ReadFrame(old(line), buf.Length - at, timeout, timeStarted) ==
                   Prepend(buf[at..next], ReadFrame(line, buf.Length - next, timeout, timeStarted))
    {
      hide ReadOnce;
      ghost var chunk := ReadOnce(line, buf.Length - at);
      var read := Read(buf, at);
      if !read.Done? {
        return true, read, at;
      }
      next := at + read.count;
      assert buf[at..next] == chunk.stored;
      var i, left := at, read.count;
      while left > 0
        invariant 0 <= left && i + left == next
        invariant at + FirstCR(chunk.stored) == i + FirstCR(buf[i..next])
      {
        left := left - 1;
        assert buf[i..next] == [buf[i]] + buf[i + 1..next];
        if buf[i] == CR {
          return true, Done(i + 1 - at), next;
        }
        i := i + 1;
      }
      if GetTimeLeft() == 0 {
        return true, Failed(TimeoutError), next;
      }
      if buf.Length - next <= 0 {
        return true, Failed(OverflowError), next;
      }
      return false, Stalled, next;
    }

    method ReadLoop(buf: array<Byte>) returns (outcome: Outcome)
      modifies this`line, buf
      ensures var r := ReadFrame(old(line), buf.Length, timeout, timeStarted);
              && outcome == r.outcome && line == r.line
              && buf[..|r.stored|] == r.stored && buf[|r.stored|..] == old(buf[|r.stored|..])
    {
      hide ReadFrame, ReadOnce, FirstCR;
      var size := 0;
      ghost var all := ReadFrame(line, buf.Length, timeout, timeStarted);
      PrependNothing(all);
      while true
        invariant 0 <= size <= buf.Length
        invariant all == Prepend(buf[..size], ReadFrame(line, buf.Length - size, timeout, timeStarted))
        invariant buf[size..] == old(buf[size..])
        decreases |line.readAnswers|
      {
        ghost var stored := buf[..size];
        var ended, result, next := ReadPass(buf, size);
        assert buf[..next] == stored + buf[size..next];
        if ended {
          assert all == Prepend(stored, Reading(result, buf[size..next], line));
          return if result.Done? then Done(size + result.count) else result;
        }
        PrependTwice(stored, buf[size..next], ReadFrame(line, buf.Length - next, timeout, timeStarted));
        size := next;
      }
    }

    method Recv(buf: array<Byte>) returns (outcome: Outcome)
      modifies this`line, buf
      ensures var r := Receive(old(line), flags, buf.Length, timeout, timeStarted);
              && outcome == r.outcome && line == r.line
              && buf[..|r.stored|] == r.stored && buf[|r.stored|..] == old(buf[|r.stored|..])
    {
      ghost var r := ReadFrame(line, buf.Length, timeout, timeStarted);
      var read := ReadLoop(buf);
      if !read.Done? {
        return read;
      }
      var bytesRead := read.count;
      ghost var bytes := r.stored[..bytesRead];
      assert buf[..bytesRead] == bytes;
      var crcNeeded := Has(flags, FLAG_READ_CRC);
      var minSize := if crcNeeded then 3 else 1;
      if bytesRead < minSize {
        return Failed(InvalidDataError);
      }
      var dataSize := bytesRead - minSize;
      assert buf[..dataSize] == bytes[..dataSize];
      if crcNeeded {
        assert buf[dataSize] == bytes[dataSize] && buf[dataSize + 1] == bytes[dataSize + 1];
        var actual := CrcRead(buf[dataSize], buf[dataSize + 1]);
        var expected := Calculate(buf, dataSize);
        if Has(flags, FLAG_VERIFY_CRC) && actual == expected {
          return Done(dataSize);
        }
        return Failed(InvalidDataError);
      }
      return Done(dataSize);
    }

    method Run(inbuf: array<Byte>, inSize: nat, outbuf: array<Byte>) returns (outcome: Outcome)
      requires inSize <= inbuf.Length && inbuf != outbuf
      modifies this`line, this`timeStarted, outbuf
      ensures timeStarted == old(line.now)
      ensures var r := Transact(old(line), flags, timeout, inbuf[..inSize], outbuf.Length);
              && outcome == r.outcome && line == r.line
              && outbuf[..|r.stored|] == r.stored && outbuf[|r.stored|..] == old(outbuf[|r.stored|..])
    {
      timeStarted := line.now;
      var sent := Send(inbuf, inSize);
      if sent.Failed? {
        return Failed(sent.error);
      }
      if sent.Stalled? {
        return Stalled;
      }
      if GetTimeLeft() == 0 {
        return Failed(TimeoutError);
      }
      ghost var started := line;
      outcome := Recv(outbuf);
      assert Transact(old(line), flags, timeout, inbuf[..inSize], outbuf.Length) ==
             Receive(started, flags, outbuf.Length, timeout, timeStarted);
    }
  }
}
