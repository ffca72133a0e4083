/** What the framed transaction guarantees, whatever the line does (src/voltronic/device.cc). */
module Framing {
  import opened Crc
  import opened Line
  import opened Device

  // ---- The first carriage return ----

  lemma {:induction false} FirstCRConcat(a: seq<Byte>, b: seq<Byte>)
    ensures FirstCR(a + b) == if FirstCR(a) < |a| then FirstCR(a) else |a| + FirstCR(b)
  {
    if a == [] {
      assert a + b == b;
    } else {
      assert (a + b)[1..] == a[1..] + b;
      FirstCRConcat(a[1..], b);
    }
  }

  predicate NoCR(bytes: seq<Byte>) { CR !in bytes }

  lemma NoCRFirst(bytes: seq<Byte>)
    ensures NoCR(bytes) <==> FirstCR(bytes) == |bytes|
  {
    if FirstCR(bytes) < |bytes| {
      assert bytes[FirstCR(bytes)] in bytes;
    }
  }

  /** A frame of a message without carriage return has exactly one, at its end. */
  lemma FrameEndsAtFirstCR(flags: bv8, message: seq<Byte>, rest: seq<Byte>)
    requires NoCR(message)
    ensures FirstCR(Frame(flags, message) + rest) == |Frame(flags, message)| - 1
  {
    NeverReserved(message);
    var body := message + if Has(flags, FLAG_WRITE_CRC) then CrcBytes(CrcOf(message)) else [];
    NoCRFirst(body);
    assert Frame(flags, message) + rest == body + ([CR] + rest);
    FirstCRConcat(body, [CR] + rest);
  }

  // ---- Sending ----

  /** Over a stream, whatever the sizes of the partial writes: what was sent is a prefix of the data, in
      order and without repetition; all of it on success, and less than all of it on a timeout. */
  lemma {:induction false} WritesAPrefix(line: Line, data: seq<Byte>, timeout: nat, started: nat) returns (k: nat)
    requires line.kind.Stream?
    ensures var (outcome, after) := WriteAll(line, data, timeout, started);
            && k <= |data| && after.sent == line.sent + data[..k]
            && (outcome == Done(0) ==> k == |data|)
            && (outcome == Failed(TimeoutError) ==> k < |data|)
            && after.kind == line.kind && after.incoming == line.incoming
            && after.readAnswers == line.readAnswers
    decreases |line.writeAnswers|
  {
    var (outcome, after) := WriteOnce(line, data);
    match outcome
    case Stalled => k := 0;
    case Failed(_) => k := 0;
    case Done(n) =>
      k := n;
      if |data| - n > 0 && InTime(timeout, started, after.now) {
        var m := WritesAPrefix(after, data[n..], timeout, started);
        assert data[..n] + data[n..][..m] == data[..n + m];
        k := n + m;
      }
  }

  /** Every answer transfers something, and the deadline is not over when it is in. */
  predicate Responsive(events: seq<Event>, timeout: nat, started: nat, now: nat)
    decreases |events|
  {
    events == [] ||
    (&& events[0].Transfer? && events[0].count > 0
     && InTime(timeout, started, now + events[0].took)
     && Responsive(events[1..], timeout, started, now + events[0].took))
  }

  /** On a responsive stream the loop sends everything. */
  lemma {:induction false} WriteSucceeds(line: Line, data: seq<Byte>, timeout: nat, started: nat)
    requires line.kind.Stream? && |data| > 0 && |line.writeAnswers| >= |data|
    requires Responsive(line.writeAnswers, timeout, started, line.now)
    ensures WriteAll(line, data, timeout, started).0 == Done(0)
    decreases |data|
  {
    var (outcome, after) := WriteOnce(line, data);
    var n := outcome.count;
    if |data| - n > 0 {
      WriteSucceeds(after, data[n..], timeout, started);
    }
  }

  // ---- Reading ----

  /** The reading loop moves bytes from the line to the buffer without loss, it stops at the first
      carriage return and not before, whatever the sizes of the partial reads, and it reports an overflow
      only when the buffer is full. */
  lemma {:induction false} ReadsUpToCR(line: Line, capacity: nat, timeout: nat, started: nat)
    ensures var r := ReadFrame(line, capacity, timeout, started);
            && line.incoming == r.stored + r.line.incoming
            && (r.outcome.Done? ==> r.outcome.count == FirstCR(line.incoming) + 1)
            && (!r.outcome.Done? ==> FirstCR(r.stored) == |r.stored|)
            && (r.outcome == Failed(OverflowError) ==> |r.stored| == capacity)
            && (r.outcome.Failed? ==> r.outcome.error != InvalidDataError)
    decreases |line.readAnswers|
  {
    hide FirstCR, ReadOnce;
    var chunk := ReadOnce(line, capacity);
    var got := |chunk.stored|;
    FirstCRConcat(chunk.stored, chunk.line.incoming);
    if chunk.outcome.Done? && FirstCR(chunk.stored) == got != capacity && InTime(timeout, started, chunk.line.now) {
      var r := ReadFrame(chunk.line, capacity - got, timeout, started);
      ReadsUpToCR(chunk.line, capacity - got, timeout, started);
      FirstCRConcat(chunk.stored, r.stored);
      assert (chunk.stored + r.stored) + r.line.incoming == chunk.stored + (r.stored + r.line.incoming);
    }
  }

  lemma ReadDelivers(line: Line, capacity: nat, timeout: nat, started: nat)
    requires line.readAnswers != [] && line.incoming != [] && capacity > 0
    requires Responsive(line.readAnswers, timeout, started, line.now)
    ensures var r := ReadOnce(line, capacity);
            && r.outcome.Done? && r.outcome.count > 0
            && InTime(timeout, started, r.line.now)
            && Responsive(r.line.readAnswers, timeout, started, r.line.now)
  {}

  /** On a responsive line the loop returns the first frame that fits the buffer. */
  lemma {:induction false} ReadSucceeds(line: Line, capacity: nat, timeout: nat, started: nat)
    requires FirstCR(line.incoming) < |line.incoming| && FirstCR(line.incoming) < capacity
    requires |line.readAnswers| > FirstCR(line.incoming)
    requires Responsive(line.readAnswers, timeout, started, line.now)
    ensures ReadFrame(line, capacity, timeout, started).outcome == Done(FirstCR(line.incoming) + 1)
    decreases |line.readAnswers|
  {
    hide FirstCR, ReadOnce, Responsive;
    var chunk := ReadOnce(line, capacity);
    var got := |chunk.stored|;
    ReadDelivers(line, capacity, timeout, started);
    FirstCRConcat(chunk.stored, chunk.line.incoming);
    if FirstCR(chunk.stored) == got {
      ReadSucceeds(chunk.line, capacity - got, timeout, started);
    }
  }

  // ---- What is accepted ----

  predicate Verifying(flags: bv8) { Has(flags, FLAG_READ_CRC) && Has(flags, FLAG_VERIFY_CRC) }

  lemma AcceptedIsFrame(flags: bv8, bytes: seq<Byte>, n: nat)
    requires Verifying(flags) && |bytes| > 0 && FirstCR(bytes) == |bytes| - 1
    requires Unframe(flags, bytes) == Done(n)
    ensures n + 3 == |bytes| && NoCR(bytes[..n]) && bytes == Frame(FLAG_WRITE_CRC, bytes[..n])
  {
    hide FirstCR;
    WriteFlag();
    BytesReadBack(bytes[n], bytes[n + 1]);
    assert bytes == bytes[..n] + [bytes[n], bytes[n + 1]] + [bytes[n + 2]];
  }

  /** With checksum verification, bytes that end with their first carriage return are accepted exactly
      when they are the frame of some message without carriage return, and then with its length. */
  lemma AcceptsExactlyFrames(flags: bv8, bytes: seq<Byte>, n: nat)
    requires Verifying(flags)
    requires |bytes| > 0 && FirstCR(bytes) == |bytes| - 1
    ensures Unframe(flags, bytes) == Done(n) <==>
            exists message :: NoCR(message) && bytes == Frame(FLAG_WRITE_CRC, message) && n == |message|
  {
    hide FirstCR, Unframe;
    if Unframe(flags, bytes) == Done(n) {
      AcceptedIsFrame(flags, bytes, n);
    }
    if message :| NoCR(message) && bytes == Frame(FLAG_WRITE_CRC, message) && n == |message| {
      UnframeOfFrame(flags, message);
    }
  }

  lemma WriteFlag()
    ensures Has(FLAG_WRITE_CRC, FLAG_WRITE_CRC)
  {}

  lemma UnframeOfFrame(flags: bv8, message: seq<Byte>)
    requires Verifying(flags)
    ensures Unframe(flags, Frame(FLAG_WRITE_CRC, message)) == Done(|message|)
  {
    WriteFlag();
    var n, bytes := |message|, Frame(FLAG_WRITE_CRC, message);
    assert bytes[..n] == message;
    assert bytes[n] == Hi(CrcOf(message)) && bytes[n + 1] == Lo(CrcOf(message));
    ReadBack(CrcOf(message));
  }

  /** Asking for a checksum without asking to verify it rejects every response: the flag test and the
      comparison share one condition. */
  lemma UnverifiedRejectsAll(line: Line, flags: bv8, capacity: nat, timeout: nat, started: nat)
    requires Has(flags, FLAG_READ_CRC)
    ensures !Has(flags, FLAG_VERIFY_CRC) ==> !Receive(line, flags, capacity, timeout, started).outcome.Done?
    ensures Has(flags, FLAG_VERIFY_CRC) <==>
            exists bytes, n :: |bytes| > 0 && FirstCR(bytes) == |bytes| - 1 && Unframe(flags, bytes) == Done(n)
  {
    if Has(flags, FLAG_VERIFY_CRC) {
      var bytes := Frame(FLAG_WRITE_CRC, []);
      FrameEndsAtFirstCR(FLAG_WRITE_CRC, [], []);
      assert bytes + [] == bytes;
      UnframeOfFrame(flags, []);
      assert |bytes| > 0 && FirstCR(bytes) == |bytes| - 1 && Unframe(flags, bytes) == Done(0);
    }
  }

  // ---- Send against receive ----

  /** Whatever arrives behind a frame: receiving it yields the message, or fails for a reason of the
      line (timeout, device error), or still waits. Never a checksum error, never an overflow. */
  lemma ReceivesTheMessage(line: Line, flags: bv8, capacity: nat, timeout: nat, started: nat,
                           message: seq<Byte>, rest: seq<Byte>)
    requires Verifying(flags) && NoCR(message) && |message| + 3 <= capacity
    requires line.incoming == Frame(FLAG_WRITE_CRC, message) + rest
    ensures var r := Receive(line, flags, capacity, timeout, started);
            || (r.outcome == Done(|message|) && |message| <= |r.stored| && r.stored[..|message|] == message)
            || r.outcome == Stalled || r.outcome == Failed(TimeoutError) || r.outcome == Failed(DeviceError)
    ensures |line.readAnswers| >= |message| + 3 && Responsive(line.readAnswers, timeout, started, line.now) ==>
              Receive(line, flags, capacity, timeout, started).outcome.Done?
  {
    hide FirstCR;
    WriteFlag();
    var frame, r := Frame(FLAG_WRITE_CRC, message), ReadFrame(line, capacity, timeout, started);
    assert |frame| == |message| + 3;
    ReadsUpToCR(line, capacity, timeout, started);
    FrameEndsAtFirstCR(FLAG_WRITE_CRC, message, rest);
    if r.outcome.Done? {
      assert r.stored[..|frame|] == line.incoming[..|frame|] == frame;
      UnframeOfFrame(flags, message);
      assert r.stored[..|message|] == frame[..|message|];
    }
    if |line.readAnswers| >= |message| + 3 && Responsive(line.readAnswers, timeout, started, line.now) {
      ReadSucceeds(line, capacity, timeout, started);
    }
  }

  /** Whatever the line does: a response that is accepted was a whole frame at the front of what arrived,
      and the buffer holds its message. */
  lemma OnlyFramesAreReceived(line: Line, flags: bv8, capacity: nat, timeout: nat, started: nat)
    requires Verifying(flags)
    ensures var r := Receive(line, flags, capacity, timeout, started);
            r.outcome.Done? ==>
              && r.outcome.count + 3 <= |r.stored| <= capacity
              && NoCR(r.stored[..r.outcome.count])
              && Frame(FLAG_WRITE_CRC, r.stored[..r.outcome.count]) <= line.incoming
  {
    hide FirstCR, Unframe, Frame, NoCR;
    var r := ReadFrame(line, capacity, timeout, started);
    ReadsUpToCR(line, capacity, timeout, started);
    if Receive(line, flags, capacity, timeout, started).outcome.Done? {
      var bytes := r.stored[..r.outcome.count];
      assert line.incoming == bytes + line.incoming[|bytes|..];
      FirstCRConcat(bytes, line.incoming[|bytes|..]);
      var n := Unframe(flags, bytes).count;
      AcceptedIsFrame(flags, bytes, n);
      assert bytes[..n] == r.stored[..n];
    }
  }

  lemma OneFrameInFront(message: seq<Byte>, other: seq<Byte>, bytes: seq<Byte>)
    requires NoCR(message) && NoCR(other)
    requires Frame(FLAG_WRITE_CRC, message) <= bytes && Frame(FLAG_WRITE_CRC, other) <= bytes
    ensures message == other
  {
    hide FirstCR;
    WriteFlag();
    var f, g := Frame(FLAG_WRITE_CRC, message), Frame(FLAG_WRITE_CRC, other);
    FrameEndsAtFirstCR(FLAG_WRITE_CRC, message, bytes[|f|..]);
    FrameEndsAtFirstCR(FLAG_WRITE_CRC, other, bytes[|g|..]);
    assert f + bytes[|f|..] == bytes == g + bytes[|g|..];
    assert f == bytes[..|f|] && g == bytes[..|g|];
    assert message == f[..|message|] && other == g[..|other|];
  }

  predicate Received(r: Reading, message: seq<Byte>) {
    r.outcome == Done(|message|) && |message| <= |r.stored| && r.stored[..|message|] == message
  }

  /** On a line that delivers in time, a message is received exactly when it has no carriage return, its frame
      fits the buffer, and that frame is what arrives first. */
  lemma ReceivesExactly(line: Line, flags: bv8, capacity: nat, timeout: nat, started: nat, message: seq<Byte>)
    requires Verifying(flags)
    requires |line.readAnswers| >= capacity && Responsive(line.readAnswers, timeout, started, line.now)
    ensures Received(Receive(line, flags, capacity, timeout, started), message) <==>
            NoCR(message) && |message| + 3 <= capacity && Frame(FLAG_WRITE_CRC, message) <= line.incoming
  {
    hide Receive, Frame, NoCR, Responsive;
    OnlyFramesAreReceived(line, flags, capacity, timeout, started);
    FrameLength(message);
    if NoCR(message) && |message| + 3 <= capacity && Frame(FLAG_WRITE_CRC, message) <= line.incoming {
      var rest := line.incoming[|message| + 3..];
      assert line.incoming == Frame(FLAG_WRITE_CRC, message) + rest;
      ReceivesTheMessage(line, flags, capacity, timeout, started, message, rest);
    }
  }

  lemma FrameLength(message: seq<Byte>)
    ensures |Frame(FLAG_WRITE_CRC, message)| == |message| + 3
  {
    WriteFlag();
  }

  /** End to end: what one side sends in arbitrary partial writes, the other side receives in arbitrary
      partial reads as exactly the same message. */
  lemma Loopback(out: Line, back: Line, flags: bv8, timeout: nat, message: seq<Byte>, capacity: nat, started: nat)
    requires out.kind.Stream? && out.sent == []
    requires Has(flags, FLAG_WRITE_CRC) && Verifying(flags) && NoCR(message) && |message| + 3 <= capacity
    requires WriteAll(out, Frame(flags, message), timeout, out.now).0 == Done(0)
    requires back.incoming == WriteAll(out, Frame(flags, message), timeout, out.now).1.sent
    ensures var r := Receive(back, flags, capacity, timeout, started);
            || (r.outcome == Done(|message|) && |message| <= |r.stored| && r.stored[..|message|] == message)
            || r.outcome == Stalled || r.outcome == Failed(TimeoutError) || r.outcome == Failed(DeviceError)
    ensures |back.readAnswers| >= |message| + 3 && Responsive(back.readAnswers, timeout, started, back.now) ==>
              Receive(back, flags, capacity, timeout, started).outcome.Done?
  {
    var frame := Frame(flags, message);
    var k := WritesAPrefix(out, frame, timeout, out.now);
    WriteFlag();
    assert frame == Frame(FLAG_WRITE_CRC, message);
    assert back.incoming == frame + [];
    ReceivesTheMessage(back, flags, capacity, timeout, started, message, []);
  }
}
