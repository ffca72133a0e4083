/** Messages cut into HID reports (src/voltronic/usb_device.cc:48-68 under src/voltronic/device.cc:96-113). */
module HidLine {
  import opened Crc
  import opened Line
  import opened Device
  import opened Framing

  /** Every report is written in full, before the deadline. */
  predicate FullReports(events: seq<Event>, timeout: nat, started: nat, now: nat)
    decreases |events|
  {
    events == [] ||
    (&& events[0].Transfer? && events[0].count >= HID_REPORT_SIZE
     && InTime(timeout, started, now + events[0].took)
     && FullReports(events[1..], timeout, started, now + events[0].took))
  }

  function Reports(n: nat): nat { (n + 7) / 8 }

  function Padding(n: nat): nat { 8 * Reports(n) - n }

  /** The reports concatenate to the data and zeros up to a multiple of eight, one report for each begun
      group of eight bytes, although the last call reports more bytes than were left. */
  lemma {:induction false} ReportsCarryTheData(line: Line, data: seq<Byte>, timeout: nat, started: nat)
    requires line.kind.Hid? && |data| > 0 && |line.writeAnswers| >= Reports(|data|)
    requires FullReports(line.writeAnswers, timeout, started, line.now)
    ensures var (outcome, after) := WriteAll(line, data, timeout, started);
            && outcome == Done(0)
            && after.sent == line.sent + data + ZeroBytes(Padding(|data|))
            && after.calls == line.calls + Reports(|data|)
            && after.writeAnswers == line.writeAnswers[Reports(|data|)..]
    decreases |data|
  {
    var (outcome, after) := WriteOnce(line, data);
    if |data| > 8 {
      ReportsCarryTheData(after, data[8..], timeout, started);
      assert Report(data) == data[..8];
      assert line.sent + data[..8] + data[8..] == line.sent + data;
      assert Reports(|data|) == 1 + Reports(|data| - 8);
    } else {
      assert Reports(|data|) == 1;
      assert Report(data) == data + ZeroBytes(8 - |data|);
      assert line.sent + (data + ZeroBytes(8 - |data|)) == line.sent + data + ZeroBytes(8 - |data|);
    }
  }

  /** The padding is harmless: a receiver of the reports gets the message back. */
  lemma HidLoopback(out: Line, back: Line, flags: bv8, timeout: nat, message: seq<Byte>, capacity: nat, started: nat)
    requires out.kind.Hid? && out.sent == [] && |out.writeAnswers| >= Reports(|message| + 3)
    requires FullReports(out.writeAnswers, timeout, out.now, out.now)
    requires Has(flags, FLAG_WRITE_CRC) && Verifying(flags) && NoCR(message) && |message| + 3 <= capacity
    requires back.incoming == WriteAll(out, Frame(flags, message), timeout, out.now).1.sent
    requires |back.readAnswers| >= |message| + 3 && Responsive(back.readAnswers, timeout, started, back.now)
    ensures var r := Receive(back, flags, capacity, timeout, started);
            r.outcome == Done(|message|) && |message| <= |r.stored| && r.stored[..|message|] == message
  {
    var frame := Frame(flags, message);
    WriteFlag();
    ReportsCarryTheData(out, frame, timeout, out.now);
    assert [] + frame == frame;
    ReceivesTheMessage(back, flags, capacity, timeout, started, message, ZeroBytes(Padding(|frame|)));
  }
}
