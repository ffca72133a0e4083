/** The typed answers, and their round trips with the encoder (src/p18/response.cc:158-197, 225-232,
    345-405, 800-815). */
module Unpackers {
  import opened Types
  import opened Text
  import opened Splitting
  import opened Commands
  import Validator
  import opened Encoder
  import opened Decoder
  import opened Response

  // ---- General status ----

  const STATUS_WIDTHS: seq<nat> := [4, 3, 4, 3, 4, 4, 3, 3, 3, 3, 3, 3, 3, 3, 3, 3, 4, 4, 4, 4, 1, 1, 1, 1, 1, 1, 1, 1]

  datatype GeneralStatus = GeneralStatus(
    gridVoltage: nat,
    gridFreq: nat,
    acOutputVoltage: nat,
    acOutputFreq: nat,
    acOutputApparentPower: nat,
    acOutputActivePower: nat,
    outputLoadPercent: nat,
    batteryVoltage: nat,
    batteryVoltageSCC: nat,
    batteryVoltageSCC2: nat,
    batteryDischargeCurrent: nat,
    batteryChargeCurrent: nat,
    batteryCapacity: nat,
    inverterHeatSinkTemp: nat,
    mppt1ChargerTemp: nat,
    mppt2ChargerTemp: nat,
    pv1InputPower: nat,
    pv2InputPower: nat,
    pv1InputVoltage: nat,
    pv2InputVoltage: nat,
    configurationStatus: nat,
    mppt1ChargerStatus: nat,
    mppt2ChargerStatus: nat,
    loadConnected: nat,
    batteryPowerDirection: nat,
    dcAcPowerDirection: nat,
    linePowerDirection: nat,
    localParallelId: nat)

  /** The fields in the order of the protocol. */
  function StatusValues(g: GeneralStatus): seq<nat> {
    [g.gridVoltage, g.gridFreq, g.acOutputVoltage, g.acOutputFreq, g.acOutputApparentPower, g.acOutputActivePower,
     g.outputLoadPercent, g.batteryVoltage, g.batteryVoltageSCC, g.batteryVoltageSCC2, g.batteryDischargeCurrent,
     g.batteryChargeCurrent, g.batteryCapacity, g.inverterHeatSinkTemp, g.mppt1ChargerTemp, g.mppt2ChargerTemp,
     g.pv1InputPower, g.pv2InputPower, g.pv1InputVoltage, g.pv2InputVoltage, g.configurationStatus,
     g.mppt1ChargerStatus, g.mppt2ChargerStatus, g.loadConnected, g.batteryPowerDirection, g.dcAcPowerDirection,
     g.linePowerDirection, g.localParallelId]
  }

  function StatusOf(v: seq<nat>): GeneralStatus
    requires |v| >= 28
  {
    GeneralStatus(
      v[0], v[1], v[2], v[3], v[4], v[5], v[6], v[7], v[8], v[9], v[10], v[11], v[12], v[13],
      v[14], v[15], v[16], v[17], v[18], v[19], v[20], v[21], v[22], v[23], v[24], v[25], v[26], v[27])
  }

  /** `GeneralStatus::unpack`; `None` when a check or a conversion throws. */
  function UnpackStatus(data: string): Option<GeneralStatus> {
    match GetList(data, Schema(STATUS_WIDTHS), 28)
    case None => None
    case Some(list) =>
      var numbers := Numbers(if |list| < 28 then list else list[..28]);
      if numbers.Some? && |numbers.value| == 28 then Some(StatusOf(numbers.value)) else None
  }

  /** What an inverter writes for a status. */
  function PrintStatus(g: GeneralStatus): string { Join(Printed(StatusValues(g), STATUS_WIDTHS), ',') }

  /** Every status that fits its widths comes back field by field. */
  lemma StatusRoundTrip(g: GeneralStatus)
    requires InRange(StatusValues(g), STATUS_WIDTHS)
    ensures UnpackStatus(PrintStatus(g)) == Some(g)
  {
    hide InRange, Numbers, GetList, Join, Printed;
    ListRoundTrip(StatusValues(g), STATUS_WIDTHS);
    var list := Printed(StatusValues(g), STATUS_WIDTHS);
    assert list[..28] == list;
  }

  /** Where the 28 fields start, and where the commas between them are. */
  const STATUS_STARTS: seq<nat> :=
    [0, 5, 9, 14, 18, 23, 28, 32, 36, 40, 44, 48, 52, 56, 60, 64, 68, 73, 78, 83, 88, 90, 92, 94, 96, 98,
     100, 102]
  const STATUS_COMMAS: set<nat> :=
    {4, 8, 13, 17, 22, 27, 31, 35, 39, 43, 47, 51, 55, 59, 63, 67, 72, 77, 82, 87, 89, 91, 93, 95, 97, 99,
     101}

  /** A status as it appears on the wire: 103 characters, commas in their places and digits everywhere else. */
  predicate StatusText(data: string) {
    |data| == 103 && forall i :: 0 <= i < 103 ==> if i in STATUS_COMMAS then data[i] == ',' else IsDigit(data[i])
  }

  lemma {:induction false} StatusStart(i: nat)
    requires i < 28
    ensures Start(STATUS_WIDTHS, i) == STATUS_STARTS[i]
  {
    if i > 0 {
      StatusStart(i - 1);
      NextStatusStart(i);
    } else {
      assert Start(STATUS_WIDTHS, 0) == 0;
    }
  }

  lemma NextStatusStart(i: nat)
    requires 0 < i < 28
    ensures STATUS_STARTS[i] == STATUS_STARTS[i - 1] + STATUS_WIDTHS[i - 1] + 1
    ensures Start(STATUS_WIDTHS, i) == Start(STATUS_WIDTHS, i - 1) + STATUS_WIDTHS[i - 1] + 1
  {}

  lemma StatusPlace(i: nat)
    requires i < 28
    ensures 1 <= STATUS_WIDTHS[i] <= 4 && STATUS_STARTS[i] + STATUS_WIDTHS[i] <= 103
    ensures forall k :: STATUS_STARTS[i] <= k < STATUS_STARTS[i] + STATUS_WIDTHS[i] ==> k !in STATUS_COMMAS
    ensures i < 27 ==> STATUS_STARTS[i] + STATUS_WIDTHS[i] in STATUS_COMMAS
    ensures i == 27 ==> STATUS_STARTS[i] + STATUS_WIDTHS[i] == 103
  {}

  lemma StatusField(data: string, i: nat)
    requires StatusText(data) && i < 28
    ensures Placed(data, STATUS_WIDTHS, i)
    ensures var f := FieldAt(data, STATUS_WIDTHS, i);
            && f == Slice(data, STATUS_STARTS[i], STATUS_WIDTHS[i])
            && IsNumeric(f) && |f| <= 4 && Val(f) == At(data, STATUS_STARTS[i], STATUS_WIDTHS[i])
  {
    hide Val, Start;
    StatusStart(i);
    StatusPlace(i);
    var f := data[STATUS_STARTS[i]..STATUS_STARTS[i] + STATUS_WIDTHS[i]];
    assert forall k :: 0 <= k < |f| ==> f[k] == data[STATUS_STARTS[i] + k];
  }

  /** The numbers at the places of the protocol. */
  function StatusNumbers(data: string): (v: seq<nat>)
    ensures |v| == 28
  {
    seq(28, i requires 0 <= i < 28 => At(data, STATUS_STARTS[i], STATUS_WIDTHS[i]))
  }

  /** Every status text is accepted, and each named field is the number at its place. */
  lemma StatusExactly(data: string)
    requires StatusText(data)
    ensures UnpackStatus(data) ==
            Some(GeneralStatus(
              At(data, 0, 4), At(data, 5, 3), At(data, 9, 4), At(data, 14, 3), At(data, 18, 4),
              At(data, 23, 4), At(data, 28, 3), At(data, 32, 3), At(data, 36, 3), At(data, 40, 3),
              At(data, 44, 3), At(data, 48, 3), At(data, 52, 3), At(data, 56, 3), At(data, 60, 3),
              At(data, 64, 3), At(data, 68, 4), At(data, 73, 4), At(data, 78, 4), At(data, 83, 4),
              At(data, 88, 1), At(data, 90, 1), At(data, 92, 1), At(data, 94, 1), At(data, 96, 1),
              At(data, 98, 1), At(data, 100, 1), At(data, 102, 1)))
  {
    hide Val, Start, At, Numbers, GetList, StatusText, Slice, Placed, FieldAt;
    forall i | 0 <= i < 28
      ensures Placed(data, STATUS_WIDTHS, i)
      ensures var f := FieldAt(data, STATUS_WIDTHS, i);
              IsNumeric(f) && |f| <= 4 && Val(f) == StatusNumbers(data)[i]
    {
      StatusField(data, i);
    }
    LaidOutIsSplit(data, STATUS_WIDTHS);
    var list := Response.Fields(data, STATUS_WIDTHS);
    NumbersOf(list, StatusNumbers(data));
    assert list[..28] == list;
    StatusByName(data);
  }

  lemma StatusByName(data: string)
    ensures StatusOf(StatusNumbers(data)) ==
            GeneralStatus(
              At(data, 0, 4), At(data, 5, 3), At(data, 9, 4), At(data, 14, 3), At(data, 18, 4),
              At(data, 23, 4), At(data, 28, 3), At(data, 32, 3), At(data, 36, 3), At(data, 40, 3),
              At(data, 44, 3), At(data, 48, 3), At(data, 52, 3), At(data, 56, 3), At(data, 60, 3),
              At(data, 64, 3), At(data, 68, 4), At(data, 73, 4), At(data, 78, 4), At(data, 83, 4),
              At(data, 88, 1), At(data, 90, 1), At(data, 92, 1), At(data, 94, 1), At(data, 96, 1),
              At(data, 98, 1), At(data, 100, 1), At(data, 102, 1))
  {
    hide At;
  }

  // ---- Current time ----

  /** The numbers from the two-digit field `i` on. */
  function TimeRest(data: string, i: nat): Option<seq<nat>>
    requires |data| >= 14 && i <= 5
    decreases 5 - i
  {
    if i == 5 then Some([])
    else
      match Stou(data[4 + 2 * i..6 + 2 * i])
      case None => None
      case Some(n) =>
        match TimeRest(data, i + 1)
        case None => None
        case Some(rest) => Some([n] + rest)
  }

  /** Year, month, day, hour, minute and second. */
  function TimeFields(data: string): Option<seq<nat>>
    requires |data| >= 14
  {
    match Stou(data[..4])
    case None => None
    case Some(y) =>
      match TimeRest(data, 0)
      case None => None
      case Some(rest) => Some([y] + rest)
  }

  function Followed(prefix: seq<nat>, rest: Option<seq<nat>>): Option<seq<nat>> {
    if rest.Some? then Some(prefix + rest.value) else None
  }

  lemma TimeStep(prefix: seq<nat>, data: string, i: nat, n: nat)
    requires |data| >= 14 && i < 5 && Stou(data[4 + 2 * i..6 + 2 * i]) == Some(n)
    ensures Followed(prefix, TimeRest(data, i)) == Followed(prefix + [n], TimeRest(data, i + 1))
  {
    hide Stou;
    if TimeRest(data, i + 1).Some? {
      assert prefix + ([n] + TimeRest(data, i + 1).value) == prefix + [n] + TimeRest(data, i + 1).value;
    }
  }

  class CurrentTime {
    var year: nat
    var month: nat
    var day: nat
    var hour: nat
    var minute: nat
    var second: nat

    function Fields(): seq<nat>
      reads this
    {
      [year, month, day, hour, minute, second]
    }

    /** It reads the buffer, however long the answer was. */
    method Unpack(raw: Raw) returns (ok: bool)
      requires Valid(raw)
      modifies this
      ensures ok <==> TimeFields(raw.buf[5..]).Some?
      ensures ok ==> Some([year, month, day, hour, minute, second]) == TimeFields(raw.buf[5..])
    {
      hide Stou;
      var data := raw.buf[5..];
      var y := Stou(data[..4]);
      if y.None? {
        return false;
      }
      year := y.value;
      assert Fields()[..1] == [year];
      for i := 0 to 5
        invariant TimeFields(data) == Followed(Fields()[..i + 1], TimeRest(data, i))
      {
        var n := Stou(data[4 + 2 * i..6 + 2 * i]);
        if n.None? {
          return false;
        }
        ghost var before := Fields()[..i + 1];
        if i == 0 {
          month := n.value;
        } else if i == 1 {
          day := n.value;
        } else if i == 2 {
          hour := n.value;
        } else if i == 3 {
          minute := n.value;
        } else {
          second := n.value;
        }
        assert Fields()[..i + 2] == before + [n.value];
        TimeStep(before, data, i, n.value);
      }
      assert Fields()[..6] + [] == Fields();
      return true;
    }
  }

  /** Fourteen digits are a date and a time, year first, whatever follows them. */
  lemma TimeExactly(data: string)
    requires |data| >= 14 && AllDigits(data[..14])
    ensures TimeFields(data) ==
            Some([At(data, 0, 4), At(data, 4, 2), At(data, 6, 2), At(data, 8, 2), At(data, 10, 2), At(data, 12, 2)])
  {
    hide Val, Stou, TimeRest, At;
    TimeNumber(data, 0, 4);
    assert data[..4] == data[0..4];
    TimeEnds(data);
    var minutes := [At(data, 10, 2), At(data, 12, 2)];
    TimeFrom(data, 4, [], [At(data, 12, 2)]);
    TimeFrom(data, 3, [At(data, 12, 2)], minutes);
    TimeFrom(data, 2, minutes, [At(data, 8, 2)] + minutes);
    var hours := [At(data, 8, 2)] + minutes;
    TimeFrom(data, 1, hours, [At(data, 6, 2)] + hours);
    TimeFrom(data, 0, [At(data, 6, 2)] + hours, [At(data, 4, 2), At(data, 6, 2)] + hours);
    assert [At(data, 0, 4)] + ([At(data, 4, 2), At(data, 6, 2)] + hours)
        == [At(data, 0, 4), At(data, 4, 2), At(data, 6, 2), At(data, 8, 2), At(data, 10, 2), At(data, 12, 2)];
  }

  lemma TimeEnds(data: string)
    requires |data| >= 14
    ensures TimeRest(data, 5) == Some([])
  {}

  lemma TimeFrom(data: string, i: nat, rest: seq<nat>, all: seq<nat>)
    requires |data| >= 14 && AllDigits(data[..14]) && i < 5 && TimeRest(data, i + 1) == Some(rest)
    requires all == [At(data, 4 + 2 * i, 2)] + rest
    ensures TimeRest(data, i) == Some(all)
  {
    hide Stou, At;
    TimeNumber(data, 4 + 2 * i, 2);
  }

  lemma TimeNumber(data: string, at: nat, n: nat)
    requires |data| >= 14 && AllDigits(data[..14]) && at + n <= 14 && 0 < n <= 4
    ensures Stou(data[at..at + n]) == Some(At(data, at, n))
  {
    hide Val, Stou;
    var s := data[at..at + n];
    assert forall k :: 0 <= k < n ==> s[k] == data[..14][at + k];
    StouOfNumber(s);
  }

  // ---- Serial number ----

  /** `SerialNumber::unpack` on the data behind the header; a length beyond two digits is a negative
      number wrapped around, which the string constructor refuses. */
  function SerialOf(data: string): Option<string>
    requires |data| >= 101
  {
    match Stoul(data[..2])
    case None => None
    case Some(len) => if len <= 99 then Some(data[2..2 + len]) else None
  }

  /** A serial number is as long as its first two characters say; anything else in them is an exception. */
  lemma SerialExactly(data: string)
    requires |data| >= 101
    ensures SerialOf(data) ==
            var n := ParseInt(data[..2]);
            if n.Some? && 0 <= n.value <= 99 then Some(data[2..2 + n.value]) else None
    ensures ParseInt(data[..2]).Some? ==> ParseInt(data[..2]).value <= 99
  {
    hide SkipSpaces;
    TwoCharacters(data[..2]);
  }

  // ---- Time buckets ----

  /** `stouh` */
  function Stouh(s: string): Option<nat> {
    match Stoul(s)
    case None => None
    case Some(n) => Some(AsShort(n))
  }

  /** `ACChargeTimeBucket::unpack` */
  function BucketOf(data: string): Option<seq<nat>> {
    match GetList(data, [Exactly(4), Exactly(4)], 2)
    case None => None
    case Some(list) =>
      if |list| < 2 || |list[0]| != 4 || |list[1]| != 4 then None
      else
        var h, m := Stouh(list[0][..2]), Stouh(list[0][2..]);
        var i, n := Stouh(list[1][..2]), Stouh(list[1][2..]);
        if h.Some? && m.Some? && i.Some? && n.Some? then Some([h.value, m.value, i.value, n.value]) else None
  }

  /** `get_time` */
  function GetTime(h: nat, m: nat): string { Padded(2, h) + ":" + Padded(2, m) }

  class ACChargeTimeBucket {
    var startH: nat
    var startM: nat
    var endH: nat
    var endM: nat

    method Unpack(raw: Raw) returns (ok: bool)
      requires Valid(raw) && Validate(raw) == Some(true)
      modifies this
      ensures ok <==> BucketOf(raw.buf[5..raw.size]).Some?
      ensures ok ==> Some([startH, startM, endH, endM]) == BucketOf(raw.buf[5..raw.size])
    {
      var list := GetListLoop(raw.buf[5..raw.size], [Exactly(4), Exactly(4)], -1);
      if list.None? {
        return false;
      }
      var first, second := list.value[0], list.value[1];
      assert Fits(Exactly(4), |first|) && Fits(Exactly(4), |second|);
      var h := Stouh(first[..2]);
      if h.None? {
        return false;
      }
      startH := h.value;
      var m := Stouh(first[2..]);
      if m.None? {
        return false;
      }
      startM := m.value;
      h := Stouh(second[..2]);
      if h.None? {
        return false;
      }
      endH := h.value;
      m := Stouh(second[2..]);
      if m.None? {
        return false;
      }
      endM := m.value;
      return true;
    }
  }

  // ---- Round trips ----

  lemma TwoMoreDigits(u: string, v: string)
    requires AllDigits(u) && IsNumeric(v) && |v| == 2
    ensures AllDigits(u + v) && Val(u + v) == 100 * Val(u) + Val(v)
  {
    var s, t := u + v, u + v[..1];
    assert s[..|s| - 1] == t && t[..|t| - 1] == u;
    assert Val(s) == 10 * Val(t) + Digit(v[1]) && Val(t) == 10 * Val(u) + Digit(v[0]);
    assert v == [v[0]] + [v[1]] && v[..1] == [v[0]];
    ValSingle(v[0]);
    assert Val(v) == 10 * Val(v[..1]) + Digit(v[1]);
  }

  lemma StouOfSlice(p: string, at: nat)
    requires IsNumeric(Slice(p, at, 2))
    ensures at + 2 <= |p| && Stou(p[at..at + 2]) == Some(At(p, at, 2)) && Stouh(p[at..at + 2]) == Some(At(p, at, 2))
  {
    hide Val, Stoul;
    var s := p[at..at + 2];
    StouOfNumber(s);
    ValBound(s);
    assert Pow10(1) == 10 && Pow10(2) == 100;
    ParseDigits(s);
  }

  lemma BehindCentury(p: string, rest: string, at: nat)
    requires at + 2 <= |p|
    ensures ("20" + p + rest)[2 + at..2 + at + 2] == p[at..at + 2]
  {}

  lemma {:induction false} TimeRestOf(p: string, rest: string, i: nat, n: seq<nat>)
    requires |p| == 12 && |n| == 5 && i <= 5
    requires forall k :: 0 <= k < 5 ==> IsNumeric(Slice(p, 2 + 2 * k, 2)) && At(p, 2 + 2 * k, 2) == n[k]
    ensures TimeRest("20" + p + rest, i) == Some(n[i..])
    decreases 5 - i
  {
    hide Stou, IsNumeric, Slice, At;
    if i < 5 {
      TimeRestOf(p, rest, i + 1, n);
      assert n[i..] == [n[i]] + n[i + 1..];
      StouOfSlice(p, 2 + 2 * i);
      BehindCentury(p, rest, 2 + 2 * i);
    }
  }

  /** The clock an inverter reports after it was set: the century in front of the twelve digits that were
      sent. The six accepted numbers come back, whatever follows in the buffer. */
  lemma CurrentTimeRoundTrip(a: seq<string>, p: string, rest: string)
    requires Acceptable(SetDateTime, a) && Packed(SetDateTime, Normalised(SetDateTime, a)) == Some(p)
    ensures |p| == 12 && TimeFields("20" + p + rest) == Some(Meaning(SetDateTime, a).numbers)
  {
    hide Ints, At, Slice, IsDate, IsTime, Num, Stou, Acceptable1, Acceptable2, IsNumeric;
    var m := DateNumbers(a, p);
    forall k | 0 <= k < 5
      ensures IsNumeric(Slice(p, 2 + 2 * k, 2)) && At(p, 2 + 2 * k, 2) == m[1..][k]
    {
      assert At(p, 2 * (k + 1), 2) == m[k + 1];
    }
    TimeRestOf(p, rest, 0, m[1..]);
    YearOf(p, rest);
    assert m == [m[0]] + m[1..];
  }

  lemma DateNumbers(a: seq<string>, p: string) returns (m: seq<nat>)
    requires |a| == 6 && IsDate(a[0], a[1], a[2]) && IsTime(a[3], a[4], a[5])
    requires Ints(a, 0, 6, NO_COMMA, 2000) == Some(p)
    ensures |p| == 12 && |m| == 6 && m == Meaning(SetDateTime, a).numbers
    ensures forall k :: 0 <= k < 6 ==>
              IsNumeric(Slice(p, 2 * k, 2)) && m[k] == At(p, 2 * k, 2) + if k == 0 then 2000 else 0
  {
    hide Val, Ints, At, Slice, DaysIn, Num;
    m := [Num(a[0]), Num(a[1]), Num(a[2]), Num(a[3]), Num(a[4]), Num(a[5])];
    assert TwoDigits(a, 0, 2000) && TwoDigits(a, 1, 2000) && TwoDigits(a, 2, 2000);
    assert TwoDigits(a, 3, 2000) && TwoDigits(a, 4, 2000) && TwoDigits(a, 5, 2000);
    IntsDecode(a, 0, 6, NO_COMMA, 2000);
    forall k | 0 <= k < 6
      ensures IsNumeric(Slice(p, 2 * k, 2)) && m[k] == At(p, 2 * k, 2) + if k == 0 then 2000 else 0
    {
      assert At(p, Offset(0, k, NO_COMMA), 2) == FieldValue(a, k, 2000);
    }
  }

  lemma YearOf(p: string, rest: string)
    requires |p| == 12 && IsNumeric(Slice(p, 0, 2))
    ensures Stou(("20" + p + rest)[..4]) == Some(2000 + At(p, 0, 2))
  {
    hide Val, Stou;
    assert ("20" + p + rest)[..4] == "20" + p[0..2];
    TwoMoreDigits("", "20");
    TwoMoreDigits("20", p[0..2]);
    CenturyDigits();
    StouOfNumber("20" + p[0..2]);
  }

  lemma CenturyDigits()
    ensures AllDigits("20") && Val("20") == 20
  {
    assert "20" == "2" + "0" && "20"[..1] == "2" && "2"[..0] == "";
  }

  /** Serial numbers of any accepted length, zeros at the end included: the payload always has 22
      characters, and the answer with that payload unpacks to the digits given. */
  lemma SerialNumberRoundTrip(x: string, rest: string)
    requires Acceptable(SetSolarConfig, [x]) && |rest| >= 79
    ensures Packed(SetSolarConfig, Normalised(SetSolarConfig, [x])) == Some(PackSolar(x))
    ensures |PackSolar(x)| == 22 && SerialOf(PackSolar(x) + rest) == Some(x)
  {
    hide Val, Padded;
    var len := Padded(2, |x|);
    PaddedNumber(2, |x|);
    assert Pow10(1) == 10 && Pow10(2) == 100;
    ParseDigits(len);
    var data := PackSolar(x) + rest;
    assert data[..2] == len;
    assert data[2..2 + |x|] == x;
  }

  /** The payload of a time bucket, piece by piece. */
  lemma BucketText(m: seq<string>)
    requires |m| == 4 && forall i :: 0 <= i < 4 ==> PackInt(2, m[i], 0).Some?
    ensures Ints(m, 0, 4, 1, 0) ==
            Some(Join([PackInt(2, m[0], 0).value + PackInt(2, m[1], 0).value,
                       PackInt(2, m[2], 0).value + PackInt(2, m[3], 0).value], ','))
  {
    hide PackInt;
    var a, b := PackInt(2, m[0], 0).value, PackInt(2, m[1], 0).value;
    var c, d := PackInt(2, m[2], 0).value, PackInt(2, m[3], 0).value;
    assert Ints(m, 3, 4, 1, 0) == Some(d) by {
      assert d + "" + "" == d;
    }
    assert Ints(m, 2, 4, 1, 0) == Some(c + d) by {
      assert c + "" + d == c + d;
    }
    assert Ints(m, 1, 4, 1, 0) == Some(b + "," + (c + d));
    assert Ints(m, 0, 4, 1, 0) == Some(a + (b + "," + (c + d))) by {
      assert a + "" + (b + "," + (c + d)) == a + (b + "," + (c + d));
    }
    var pieces := [a + b, c + d];
    assert pieces[1..] == [c + d];
    assert a + (b + "," + (c + d)) == (a + b) + [','] + (c + d);
  }

  lemma PairDigits(a: nat, b: nat)
    requires a < 100 && b < 100
    ensures var s := Padded(2, a) + Padded(2, b);
            && |s| == 4 && AllDigits(s) && ',' !in s
            && Stouh(s[..2]) == Some(a) && Stouh(s[2..]) == Some(b)
  {
    hide Val, Padded, Stoul;
    assert Pow10(1) == 10 && Pow10(2) == 100;
    PaddedNumber(2, a);
    PaddedNumber(2, b);
    var s := Padded(2, a) + Padded(2, b);
    assert s[..2] == Padded(2, a) && s[2..] == Padded(2, b);
    ParseDigits(s[..2]);
    ParseDigits(s[2..]);
  }

  lemma BucketOfPairs(n: seq<nat>)
    requires |n| == 4 && forall i :: 0 <= i < 4 ==> n[i] < 100
    ensures BucketOf(Join([Padded(2, n[0]) + Padded(2, n[1]), Padded(2, n[2]) + Padded(2, n[3])], ',')) == Some(n)
  {
    hide Padded, Stouh, Split, Join;
    PairDigits(n[0], n[1]);
    PairDigits(n[2], n[3]);
    var pieces := [Padded(2, n[0]) + Padded(2, n[1]), Padded(2, n[2]) + Padded(2, n[3])];
    SplitJoin(pieces, ',');
    assert n == [n[0], n[1], n[2], n[3]];
  }

  /** Two pieces of four characters, without commas, are four numbers of two characters, in their order. */
  lemma BucketExactly(x: string, y: string)
    requires |x| == |y| == 4 && ',' !in x && ',' !in y
    ensures BucketOf(x + "," + y) ==
            var h, m, i, n := Stouh(x[..2]), Stouh(x[2..]), Stouh(y[..2]), Stouh(y[2..]);
            if h.Some? && m.Some? && i.Some? && n.Some? then Some([h.value, m.value, i.value, n.value]) else None
  {
    hide Stouh, Split, Join;
    assert [x] + [y] == [x, y];
    JoinCons(x, [y], ',');
    LastJoin([y], ',');
    SplitJoin([x, y], ',');
  }

  predicate IsBucket(c: CommandType) { c.SetACChargeTimeBucket? || c.SetACSupplyTimeBucket? }

  /** Every accepted pair of times packs to HHMM,HHMM, and unpacking that answer recovers the four
      numbers that validation read. */
  lemma BucketRoundTrip(c: CommandType, x: string, y: string)
    requires IsBucket(c) && Acceptable(c, [x, y])
    ensures var n := Clock(x) + Clock(y); var p := Packed(c, Normalised(c, [x, y]));
            && |n| == 4
            && p == Some(Join([Padded(2, n[0]) + Padded(2, n[1]), Padded(2, n[2]) + Padded(2, n[3])], ','))
            && BucketOf(p.value) == Some(n)
  {
    hide Padded, Join, BucketOf, Stoul, Split, Val, ToDec, Ints;
    var n, m := Clock(x) + Clock(y), ClockFields(x) + ClockFields(y);
    forall i | 0 <= i < 4
      ensures m[i] == ToDec(n[i]) && PackInt(2, m[i], 0) == Some(Padded(2, n[i])) && 0 <= n[i] < 100
    {
      ClockField(n[i]);
      Validator.ShortNumber(ToDec(n[i]));
    }
    BucketText(m);
    var values: seq<nat> := n;
    BucketOfPairs(values);
  }

  /** What `get_time` shows is accepted as a time again, with the same hour and minute. */
  lemma GetTimeAccepted(h: nat, m: nat)
    requires h <= 23 && m <= 59
    ensures IsClock(GetTime(h, m)) && Clock(GetTime(h, m)) == [h, m]
    ensures |GetTime(h, m)| == 5 && GetTime(h, m)[2] == ':'
  {
    hide Padded, Join, Split, Val, Stoul;
    assert Pow10(1) == 10 && Pow10(2) == 100;
    PaddedNumber(2, h);
    PaddedNumber(2, m);
    var pieces := [Padded(2, h), Padded(2, m)];
    ParseDigits(Padded(2, h));
    ParseDigits(Padded(2, m));
    SplitJoin(pieces, ':');
    JoinCons(pieces[0], [pieces[1]], ':');
    LastJoin([pieces[1]], ':');
    assert pieces == [pieces[0]] + [pieces[1]];
    assert GetTime(h, m) == Join(pieces, ':');
  }

  /** The two times as `format` shows them. */
  function Shown(n: seq<nat>): seq<string>
    requires |n| == 4
  {
    [GetTime(n[0], n[1]), GetTime(n[2], n[3])]
  }

  /** The full circle: set a bucket, read it back, show it, and set what is shown. The second request
      has the same payload as the first. */
  lemma BucketCircle(c: CommandType, x: string, y: string, p: string, n: seq<nat>)
    requires IsBucket(c) && Acceptable(c, [x, y])
    requires Packed(c, Normalised(c, [x, y])) == Some(p) && BucketOf(p) == Some(n) && |n| == 4
    ensures Acceptable(c, Shown(n)) && Packed(c, Normalised(c, Shown(n))) == Some(p)
  {
    hide GetTime, BucketOf, Split, Stoul, Join, Padded, Packed, Normalised;
    BucketRoundTrip(c, x, y);
    GetTimeAccepted(n[0], n[1]);
    GetTimeAccepted(n[2], n[3]);
    var u, v := GetTime(n[0], n[1]), GetTime(n[2], n[3]);
    BucketRoundTrip(c, u, v);
    assert Clock(u) + Clock(v) == n;
  }
}
