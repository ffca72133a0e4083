/** The layers put together: from the arguments a user gives to the request an inverter reads, and from
    the inverter's answer back to the values a user sees (src/p18/client.cc:31-123,
    src/voltronic/device.cc:53-175). */
module Stack {
  import opened Types
  import opened Text
  import opened Splitting
  import opened Commands
  import opened Encoder
  import opened Decoder
  import opened Response
  import opened Unpackers
  import opened Crc
  import L = Line
  import D = Device
  import F = Framing

  // ---- Characters and bytes ----

  predicate OneByte(s: string) { forall i :: 0 <= i < |s| ==> (s[i] as int) < 256 }

  function ByteOf(c: char): Byte { (c as int % 256) as Byte }

  function CharOf(b: Byte): char { (b as int) as char }

  function Bytes(s: string): (r: seq<Byte>)
    ensures |r| == |s|
  {
    seq(|s|, i requires 0 <= i < |s| => ByteOf(s[i]))
  }

  function Chars(bytes: seq<Byte>): (r: string)
    ensures |r| == |bytes|
  {
    seq(|bytes|, i requires 0 <= i < |bytes| => CharOf(bytes[i]))
  }

  lemma ThereAndBack(c: char)
    requires (c as int) < 256
    ensures CharOf(ByteOf(c)) == c && (ByteOf(c) == CR <==> c == '\r')
  {}

  lemma TextSurvives(s: string)
    requires OneByte(s)
    ensures Chars(Bytes(s)) == s && (F.NoCR(Bytes(s)) <==> '\r' !in s)
  {
    hide CharOf, ByteOf;
    forall i | 0 <= i < |s|
      ensures CharOf(ByteOf(s[i])) == s[i] && (ByteOf(s[i]) == CR <==> s[i] == '\r')
    {
      ThereAndBack(s[i]);
    }
    if '\r' in s {
      var i :| 0 <= i < |s| && s[i] == '\r';
      assert Bytes(s)[i] == CR;
    }
  }

  // ---- Requests ----

  /** A request is one byte per character and has no carriage return exactly when that is so for the
      text of the id in it. */
  lemma RequestText(c: CommandType, a: seq<string>, p: string)
    requires Acceptable(c, a) && Packed(c, Normalised(c, a)) == Some(p)
    ensures OneByte(FrameText(c, p)) <==> OneByte(IdText(c, a))
    ensures '\r' in FrameText(c, p) <==> '\r' in IdText(c, a)
  {
    hide Acceptable, Packed, Normalised, DecodePayload, Meaning, Padded, RawCommand, IdText, IsSet, FixedLength;
    PayloadDecodes(c, a, p);
    PaddedNumber(3, LengthField(c, p));
    NameShape(c);
    var header := "^" + (if IsSet(c) then "S" else "P") + Padded(3, LengthField(c, p)) + RawCommand(c);
    var id, fixed := IdText(c, a), p[|IdText(c, a)|..];
    assert FrameText(c, p) == header + id + fixed;
    assert '\r' !in header && OneByte(header);
    assert '\r' !in fixed && OneByte(fixed);
    ThreeParts(header, id, fixed);
  }

  lemma ThreeParts(a: string, b: string, c: string)
    requires OneByte(a) && OneByte(c)
    ensures OneByte(a + b + c) <==> OneByte(b)
  {
    if OneByte(a + b + c) {
      forall i | 0 <= i < |b|
        ensures (b[i] as int) < 256
      {
        assert b[i] == (a + b + c)[|a| + i];
      }
    }
  }

  /** Such an id passes validation: stoul stops at the carriage return. */
  lemma CarriageReturnInId()
    ensures var a := ["5\r", "10"];
            && Acceptable(SetBatteryMaxChargeCurrent, a)
            && Packed(SetBatteryMaxChargeCurrent, Normalised(SetBatteryMaxChargeCurrent, a)).Some?
            && '\r' in IdText(SetBatteryMaxChargeCurrent, a)
  {
    hide Val, DigitRun;
    assert "5\r" == "5" + "\r" && "5" == ['5'];
    DigitRunAll("5", "\r");
    assert "5\r"[..1] == "5";
    ValSingle('5');
    ParseDigits("10");
    ValBound("10");
    assert Pow10(1) == 10 && Pow10(2) == 100;
  }

  /** The length field tells how many bytes follow it on the wire exactly when the device layer adds
      the checksum. */
  lemma LengthOnTheWire(flags: bv8, c: CommandType, p: string)
    ensures var field := Padded(3, LengthField(c, p));
            && AllDigits(field) && FrameText(c, p)[2..2 + |field|] == field
            && (Val(field) == |D.Frame(flags, Bytes(FrameText(c, p)))| - 2 - |field| <==>
                D.Has(flags, D.FLAG_WRITE_CRC))
  {
    hide RawCommand, IsSet, Padded, D.Has;
    PaddedNumber(3, LengthField(c, p));
  }

  lemma NoCarriageReturn(bytes: seq<Byte>)
    requires F.NoCR(bytes)
    ensures '\r' !in Chars(bytes)
  {
    hide CharOf;
    forall i | 0 <= i < |bytes|
      ensures CharOf(bytes[i]) != '\r'
    {
      OtherByte(bytes[i]);
    }
  }

  lemma OtherByte(b: Byte)
    requires b != CR
    ensures CharOf(b) != '\r'
  {}

  /** Whatever the partial writes on one side and the partial reads on the other: if the inverter's side
      accepts a frame at all, it is the request exactly when the id text has no carriage return, and then
      the command and the numbers that the user gave can be read from it. */
  lemma RequestReachesInverter(c: CommandType, a: seq<string>, p: string, out: L.Line, back: L.Line,
                               flags: bv8, timeout: nat, capacity: nat, started: nat)
    requires Acceptable(c, a) && Packed(c, Normalised(c, a)) == Some(p) && OneByte(IdText(c, a))
    requires out.kind.Stream? && out.sent == [] && D.Has(flags, D.FLAG_WRITE_CRC) && F.Verifying(flags)
    requires |FrameText(c, p)| + 3 <= capacity
    requires L.WriteAll(out, D.Frame(flags, Bytes(FrameText(c, p))), timeout, out.now).0 == L.Done(0)
    requires back.incoming == L.WriteAll(out, D.Frame(flags, Bytes(FrameText(c, p))), timeout, out.now).1.sent
    ensures var r := D.Receive(back, flags, capacity, timeout, started);
            r.outcome.Done? ==>
              && r.outcome.count <= |r.stored|
              && (Chars(r.stored[..r.outcome.count]) == FrameText(c, p) <==> '\r' !in IdText(c, a))
              && ('\r' !in IdText(c, a) ==> Decode(Chars(r.stored[..r.outcome.count])) == Some(Meaning(c, a)))
    ensures '\r' !in IdText(c, a) && |back.readAnswers| >= |FrameText(c, p)| + 3 &&
            F.Responsive(back.readAnswers, timeout, started, back.now) ==>
              D.Receive(back, flags, capacity, timeout, started).outcome.Done?
  {
    hide Acceptable, Packed, Normalised, FrameText, Decode, Meaning, L.WriteAll, D.Receive, D.Frame, IdText, D.Has,
         F.Responsive, F.NoCR;
    RequestText(c, a, p);
    TextSurvives(FrameText(c, p));
    var r := D.Receive(back, flags, capacity, timeout, started);
    F.OnlyFramesAreReceived(back, flags, capacity, timeout, started);
    if r.outcome.Done? {
      NoCarriageReturn(r.stored[..r.outcome.count]);
    }
    if '\r' !in IdText(c, a) {
      FrameDecodes(c, a, p);
      F.Loopback(out, back, flags, timeout, Bytes(FrameText(c, p)), capacity, started);
    }
  }

  // ---- Answers ----

  /** An answer as an inverter frames it: the length counts the data, the checksum and the end mark. */
  function Answer(data: string): string { "^D" + Padded(3, |data| + 3) + data }

  lemma AnswerText(data: string)
    requires OneByte(data) && '\r' !in data
    ensures OneByte(Answer(data)) && '\r' !in Answer(data) && |Answer(data)| >= |data| + 5
  {
    PaddedNumber(3, |data| + 3);
  }

  lemma AnswerParts(data: string)
    requires |data| <= 248
    ensures |Answer(data)| == |data| + 5 && Answer(data)[5..] == data && Answer(data)[..2] == "^D"
    ensures ParseInt(Answer(data)[2..5]) == Some(|data| + 3)
  {
    hide Padded, Val, ParseInt;
    PaddedNumber(3, |data| + 3);
    assert Pow10(1) == 10 && Pow10(2) == 100 && Pow10(3) == 1000;
    ParseDigits(Padded(3, |data| + 3));
    assert Answer(data)[2..5] == Padded(3, |data| + 3);
  }

  /** What arrives for an answer, in whatever chunks: if the transaction succeeds, the data part of the buffer
      is the inverter's data, with any remains behind it; and validation passes exactly when the data has
      at least two characters. */
  lemma AnswerArrives(data: string, line: L.Line, flags: bv8, timeout: nat, started: nat, rest: seq<Byte>,
                      raw: Raw)
    requires OneByte(data) && '\r' !in data
    requires F.Verifying(flags) && line.incoming == D.Frame(D.FLAG_WRITE_CRC, Bytes(Answer(data))) + rest
    requires var r := D.Receive(line, flags, BUFFER_SIZE, timeout, started);
             r.outcome == L.Done(raw.size) && Valid(raw) && raw.size <= |r.stored| &&
             raw.buf[..raw.size] == Chars(r.stored[..raw.size])
    ensures raw.size == |data| + 5 && raw.buf[5..raw.size] == data && Validate(raw) == Some(|data| >= 2)
  {
    hide Answer, D.Receive, D.Frame, Validate, D.Has, ParseInt;
    AnswerText(data);
    TextSurvives(Answer(data));
    F.OnlyFramesAreReceived(line, flags, BUFFER_SIZE, timeout, started);
    F.OneFrameInFront(D.Receive(line, flags, BUFFER_SIZE, timeout, started).stored[..raw.size],
                      Bytes(Answer(data)), line.incoming);
    AnswerParts(data);
    assert raw.buf[..raw.size] == Answer(data);
    assert raw.buf[2..5] == raw.buf[..raw.size][2..5] && raw.buf[..2] == raw.buf[..raw.size][..2];
    assert raw.buf[5..raw.size] == raw.buf[..raw.size][5..];
    Announced(raw, |data| + 3);
  }

  lemma {:induction false} JoinLength(pieces: seq<string>, sep: char)
    requires |pieces| > 0 && forall i :: 0 <= i < |pieces| ==> 1 <= |pieces[i]| <= 4
    ensures |pieces| <= |Join(pieces, sep)| <= 5 * |pieces|
  {
    if |pieces| > 1 {
      JoinLength(pieces[1..], sep);
    }
  }

  lemma {:induction false} JoinOf(pieces: seq<string>, sep: char)
    requires |pieces| > 0 && forall i :: 0 <= i < |pieces| ==> AllDigits(pieces[i])
    ensures forall k :: 0 <= k < |Join(pieces, sep)| ==> IsDigit(Join(pieces, sep)[k]) || Join(pieces, sep)[k] == sep
  {
    if |pieces| > 1 {
      JoinOf(pieces[1..], sep);
    }
  }

  /** A status in range travels from the inverter's fields to the caller's fields unchanged. */
  lemma StatusArrives(g: GeneralStatus, line: L.Line, flags: bv8, timeout: nat, started: nat, rest: seq<Byte>,
                      raw: Raw)
    requires InRange(StatusValues(g), STATUS_WIDTHS)
    requires F.Verifying(flags) && line.incoming == D.Frame(D.FLAG_WRITE_CRC, Bytes(Answer(PrintStatus(g)))) + rest
    requires var r := D.Receive(line, flags, BUFFER_SIZE, timeout, started);
             r.outcome == L.Done(raw.size) && Valid(raw) && raw.size <= |r.stored| &&
             raw.buf[..raw.size] == Chars(r.stored[..raw.size])
    ensures Validate(raw) == Some(true) && UnpackStatus(raw.buf[5..raw.size]) == Some(g)
  {
    hide D.Receive, D.Frame, Answer, Join, UnpackStatus, Printed;
    PrintedFits(StatusValues(g), STATUS_WIDTHS);
    var pieces := Printed(StatusValues(g), STATUS_WIDTHS);
    JoinLength(pieces, ',');
    JoinOf(pieces, ',');
    AnswerArrives(PrintStatus(g), line, flags, timeout, started, rest, raw);
    StatusRoundTrip(g);
  }
}
