/** How many device calls a transaction can make (src/voltronic/device.cc:42-67, 96-113, 150-175). */
module Deadlines {
  import opened Crc
  import opened Integers
  import opened Line
  import opened Device
  import opened Framing

  function Total(events: seq<Event>): nat
    decreases |events|
  {
    if events == [] then 0 else events[0].took + Total(events[1..])
  }

  /** Every call takes at least a millisecond, and the 64-bit clock does not wrap within the schedule. */
  predicate Ticking(line: Line) {
    && (forall i :: 0 <= i < |line.writeAnswers| ==> line.writeAnswers[i].took >= 1)
    && (forall i :: 0 <= i < |line.readAnswers| ==> line.readAnswers[i].took >= 1)
    && line.now + Total(line.writeAnswers) + Total(line.readAnswers) < U64
  }

  /** Without wrap-around the elapsed time is the difference, and the deadline passes when it reaches the
      timeout. */
  lemma Elapsed(timeout: nat, started: nat, now: nat)
    requires timeout > 0 && started <= now < U64
    ensures InTime(timeout, started, now) <==> now - started < timeout
  {}

  lemma {:induction false} WriteCalls(line: Line, data: seq<Byte>, timeout: nat, started: nat)
    requires Ticking(line) && timeout > 0 && started <= line.now < started + timeout
    ensures var (outcome, after) := WriteAll(line, data, timeout, started);
            && Ticking(after) && line.now <= after.now
            && after.calls - line.calls <= after.now - line.now
            && after.calls - line.calls <= timeout - (line.now - started)
            && after.readAnswers == line.readAnswers
            && (|line.writeAnswers| >= timeout - (line.now - started) ==> outcome != Stalled)
    decreases |line.writeAnswers|
  {
    var (outcome, after) := WriteOnce(line, data);
    if outcome.Done? && |data| - outcome.count > 0 {
      Elapsed(timeout, started, after.now);
      if InTime(timeout, started, after.now) {
        WriteCalls(after, data[outcome.count..], timeout, started);
      }
    }
  }

  lemma {:induction false} ReadCalls(line: Line, capacity: nat, timeout: nat, started: nat)
    requires Ticking(line) && timeout > 0 && started <= line.now < started + timeout
    ensures var r := ReadFrame(line, capacity, timeout, started);
            && r.line.calls - line.calls <= timeout - (line.now - started)
            && (|line.readAnswers| >= timeout - (line.now - started) ==> r.outcome != Stalled)
    decreases |line.readAnswers|
  {
    hide FirstCR;
    var chunk := ReadOnce(line, capacity);
    if chunk.outcome.Done? {
      Elapsed(timeout, started, chunk.line.now);
      if FirstCR(chunk.stored) == |chunk.stored| != capacity && InTime(timeout, started, chunk.line.now) {
        ReadCalls(chunk.line, capacity - |chunk.stored|, timeout, started);
      }
    }
  }

  /** With a timeout of `timeout` ms a whole transaction makes at most `timeout` device calls, reads and
      writes together; so it ends, in one way or another, before any longer schedule is used up. */
  lemma TransactionEnds(line: Line, flags: bv8, timeout: nat, message: seq<Byte>, capacity: nat)
    requires Ticking(line) && timeout > 0
    ensures var r := Transact(line, flags, timeout, message, capacity);
            && r.line.calls - line.calls <= timeout
            && (|line.writeAnswers| >= timeout && |line.readAnswers| >= timeout ==> r.outcome != Stalled)
  {
    var (outcome, after) := WriteAll(line, Frame(flags, message), timeout, line.now);
    WriteCalls(line, Frame(flags, message), timeout, line.now);
    if outcome.Done? {
      Elapsed(timeout, line.now, after.now);
      if InTime(timeout, line.now, after.now) {
        ReadCalls(after, capacity, timeout, line.now);
      }
    }
  }

  /** Every call that does not fail delivers something. */
  predicate Nonempty(events: seq<Event>) { forall i :: 0 <= i < |events| ==> events[i].Fails? || events[i].count > 0 }

  lemma CountedRead(line: Line, capacity: nat)
    requires Nonempty(line.readAnswers)
    ensures var r := ReadOnce(line, capacity);
            && r.line.calls <= line.calls + 1 && Nonempty(r.line.readAnswers)
            && (r.outcome == Stalled ==> line.readAnswers == [] && r.line.calls == line.calls)
            && (r.outcome.Done? && capacity > 0 && line.incoming != [] ==> r.stored != [])
  {}

  /** Without a timeout the buffer is what bounds reading: if every call delivers something, be it until the
      answer ends or until the buffer is full, there are at most as many calls as the buffer has bytes,
      and at least one. */
  lemma {:induction false} ReadsWithoutTimeout(line: Line, capacity: nat, started: nat)
    requires Nonempty(line.readAnswers)
    requires |line.incoming| >= capacity || FirstCR(line.incoming) < |line.incoming|
    ensures var r := ReadFrame(line, capacity, 0, started);
            && r.line.calls - line.calls <= (if capacity == 0 then 1 else capacity)
            && (|line.readAnswers| >= 1 && |line.readAnswers| >= capacity ==> r.outcome != Stalled)
    decreases |line.readAnswers|
  {
    hide FirstCR, ReadOnce, Nonempty;
    var chunk := ReadOnce(line, capacity);
    CountedRead(line, capacity);
    FirstCRConcat(chunk.stored, chunk.line.incoming);
    if chunk.outcome.Done? && FirstCR(chunk.stored) == |chunk.stored| != capacity {
      ReadsWithoutTimeout(chunk.line, capacity - |chunk.stored|, started);
    }
  }
}
