/** The line to the inverter as the device layer sees it: what each read and write call may do, and
    when. The environment commits to a schedule of answers in advance; a run that uses its schedule up
    is `Stalled`, that is, still waiting. Quantifying over schedules covers every behaviour. */
module Line {
  import opened Crc
  import opened Integers

  const HID_REPORT_SIZE := 8

  datatype Kind = Stream | Hid

  datatype Error = DeviceError | TimeoutError | InvalidDataError | OverflowError

  /** How a device operation ends: with a count (0 where the operation returns nothing), with an
      exception, or not at all within its schedule. */
  datatype Outcome = Done(count: nat) | Failed(error: Error) | Stalled

  /** One answer of the operating system: a transfer of at most `count` bytes, or an error; and how
      many milliseconds pass until the clock is next read. */
  datatype Event = Transfer(count: nat, took: nat) | Fails(took: nat)

  datatype Line = Line(
    kind: Kind,
    writeAnswers: seq<Event>,     // answers to the write calls to come
    readAnswers: seq<Event>,      // answers to the read calls to come
    incoming: seq<Byte>,    // what the inverter is going to say
    sent: seq<Byte>,        // what has been put on the line
    now: nat,               // the clock
    calls: nat)             // device calls made so far

  /** How a read or a reading loop ends: its outcome, everything it stored, and the line. */
  datatype Reading = Reading(outcome: Outcome, stored: seq<Byte>, line: Line)

  function Min(a: int, b: int): int { if a < b then a else b }

  function ReportSize(size: nat): nat { Min(size, HID_REPORT_SIZE) }

  function ZeroBytes(n: nat): seq<Byte> { seq(n, _ => 0) }

  /** An outgoing HID report carries the next eight bytes, or what is left and zeros. */
  function Report(data: seq<Byte>): (payload: seq<Byte>)
    ensures |payload| == HID_REPORT_SIZE
  {
    data[..ReportSize(|data|)] + ZeroBytes(HID_REPORT_SIZE - ReportSize(|data|))
  }

  /** One write call: the count it returns, and the line afterwards. */
  function WriteOnce(line: Line, data: seq<Byte>): (Outcome, Line) {
    if line.writeAnswers == [] then (Stalled, line)
    else
      var event := line.writeAnswers[0];
      var after := line.(writeAnswers := line.writeAnswers[1..], now := line.now + event.took, calls := line.calls + 1);
      if event.Fails? then (Failed(DeviceError), after)
      else if line.kind.Stream? then
        var n := Min(event.count, |data|);
        (Done(n), after.(sent := line.sent + data[..n]))
      else
        (Done(ReportSize(event.count)), after.(sent := line.sent + Report(data)))
  }

  /** One read call into a buffer with room for `capacity` bytes. */
  function ReadOnce(line: Line, capacity: nat): (r: Reading)
    ensures line.incoming == r.stored + r.line.incoming
    ensures r.outcome.Done? ==>
              && r.outcome.count == |r.stored| <= capacity
              && line.readAnswers != [] && r.line.readAnswers == line.readAnswers[1..]
    ensures !r.outcome.Done? ==> r.stored == []
    ensures r.outcome.Failed? ==> r.outcome.error == DeviceError
  {
    if line.readAnswers == [] then Reading(Stalled, [], line)
    else
      var event := line.readAnswers[0];
      var after := line.(readAnswers := line.readAnswers[1..], now := line.now + event.took, calls := line.calls + 1);
      if event.Fails? then Reading(Failed(DeviceError), [], after)
      else
        var limit := if line.kind.Stream? then capacity else ReportSize(capacity);
        var n := Min(Min(event.count, limit), |line.incoming|);
        Reading(Done(n), line.incoming[..n], after.(incoming := line.incoming[n..]))
  }

  // ---- The deadline clock, on 64-bit unsigned milliseconds ----

  function TimeLeft(timeout: nat, started: nat, now: nat): nat {
    if timeout == 0 then U64 - 1
    else if SubU64(now, started) > timeout then 0
    else timeout - SubU64(now, started)
  }

  predicate InTime(timeout: nat, started: nat, now: nat) { TimeLeft(timeout, started, now) != 0 }

  // ---- The two loops ----

  /** Writing all of `data`, in as many calls as it takes. */
  function WriteAll(line: Line, data: seq<Byte>, timeout: nat, started: nat): (Outcome, Line)
    decreases |line.writeAnswers|
  {
    match WriteOnce(line, data)
    case (Stalled, after) => (Stalled, after)
    case (Failed(e), after) => (Failed(e), after)
    case (Done(n), after) =>
      if |data| - n <= 0 then (Done(0), after)
      else if !InTime(timeout, started, after.now) then (Failed(TimeoutError), after)
      else WriteAll(after, data[n..], timeout, started)
  }

  /** The index of the first carriage return, or the length when there is none. */
  function FirstCR(bytes: seq<Byte>): (k: nat)
    ensures k <= |bytes|
    ensures forall i :: 0 <= i < k ==> bytes[i] != CR
    ensures k < |bytes| ==> bytes[k] == CR
  {
    if bytes == [] || bytes[0] == CR then 0 else 1 + FirstCR(bytes[1..])
  }

  function Prepend(bytes: seq<Byte>, r: Reading): Reading {
    Reading(if r.outcome.Done? then Done(|bytes| + r.outcome.count) else r.outcome, bytes + r.stored, r.line)
  }

  /** Reading until the first carriage return, in as many calls as it takes. */
  function ReadFrame(line: Line, capacity: nat, timeout: nat, started: nat): (r: Reading)
    ensures |r.stored| <= capacity
    ensures r.outcome.Done? ==> 1 <= r.outcome.count <= |r.stored|
    decreases |line.readAnswers|
  {
    var chunk := ReadOnce(line, capacity);
    var got := |chunk.stored|;
    if !chunk.outcome.Done? then chunk
    else if FirstCR(chunk.stored) < got then chunk.(outcome := Done(FirstCR(chunk.stored) + 1))
    else if !InTime(timeout, started, chunk.line.now) then chunk.(outcome := Failed(TimeoutError))
    else if capacity == got then chunk.(outcome := Failed(OverflowError))
    else Prepend(chunk.stored, ReadFrame(chunk.line, capacity - got, timeout, started))
  }
}
