/** Reading request frames back. The program only writes them; the decoder here is the reference by which
    they are judged: whatever validation accepts can be told from its frame (src/p18/client.cc:31-53,
    125-227; src/p18/commands.cc:172-455; src/p18/defines.cc:10-54). */
module Decoder {
  import opened Types
  import opened Text
  import opened Splitting
  import opened Commands
  import opened Validator
  import opened Encoder

  /** What a request asks for. Voltages of batteries are in tenths; a serial number keeps its digits. */
  datatype Request = Request(command: CommandType, numbers: seq<int>, serial: string)

  // ---- The meaning of accepted arguments ----

  function Id(s: string): nat { if Stoul(s).Some? then AsUnsigned(Stoul(s).value) else 0 }

  function Num(s: string): nat { if AllDigits(s) then Val(s) else 0 }

  function Volts(s: string): int { if Stod(s).Some? then Tenths(Stod(s).value) else 0 }

  function Position(allowed: seq<string>, s: string): nat { if s in allowed then IndexOf(allowed, s) else 0 }

  function Meaning1(c: CommandType, x: string): int {
    match c
    case SetACOutputVoltage => Id(x)
    case SetBatteryCutOffVoltage => Volts(x)
    case SetOutputSourcePriority => Position(OUTPUT_PRIORITIES, x)
    case SetSolarPowerPriority => Position(SOLAR_PRIORITIES, x)
    case SetACInputVoltageRange => Position(INPUT_RANGES, x)
    case SetBatteryType => Position(BATTERY_TYPES, x)
    case _ => Num(x)
  }

  function Meaning2(c: CommandType, x: string, y: string): seq<int> {
    match c
    case SetFlag => [Position(FLAGS, x), Num(y)]
    case SetBatteryMaxChargeCurrent | SetBatteryMaxACChargeCurrent => [Id(x), Id(y)]
    case SetBatteryMaxChargeVoltage | SetBatteryChargeThresholds => [Volts(x), Volts(y)]
    case SetChargeSourcePriority => [Id(x), Position(CHARGE_PRIORITIES, y)]
    case SetOutputMode => [Id(x), Position(OUTPUT_MODES, y)]
    case SetACChargeTimeBucket | SetACSupplyTimeBucket => Clock(x) + Clock(y)
    case _ => [Num(x), Num(y)]
  }

  /** The hour and the minute of HH:MM. */
  function Clock(s: string): seq<int> { if IsClock(s) then [Hour(Split(s, ':')[0]), Hour(Split(s, ':')[1])] else [] }

  function Meaning(c: CommandType, a: seq<string>): Request {
    if c.SetSolarConfig? && |a| == 1 then Request(c, [], a[0])
    else if |a| == 1 then Request(c, [Meaning1(c, a[0])], "")
    else if |a| == 2 then Request(c, Meaning2(c, a[0], a[1]), "")
    else Request(c, seq(|a|, i requires 0 <= i < |a| => Num(a[i])), "")
  }

  // ---- The decoder ----

  function Slice(p: string, at: int, n: nat): string { if 0 <= at && at + n <= |p| then p[at..at + n] else "" }

  /** The number in `n` characters from `at` on. */
  function At(p: string, at: int, n: nat): nat { Num(Slice(p, at, n)) }

  function DecodeNumbers(c: CommandType, p: string): seq<int> {
    match c
    case GetMonthGenerated => [At(p, 0, 4), At(p, 4, 2)]
    case GetDayGenerated => [At(p, 0, 4), At(p, 4, 2), At(p, 6, 2)]
    case SetACOutputVoltage => [Num(p) / 10]
    case SetFlag => if |p| == 2 then [p[1] as int - 'A' as int, if p[0] == 'E' then 1 else 0] else []
    case SetBatteryMaxChargeCurrent | SetBatteryMaxACChargeCurrent =>
      [Id(Slice(p, 0, if |p| < 4 then 0 else |p| - 4)), At(p, |p| - 3, 3)]
    case SetChargeSourcePriority | SetOutputMode =>
      [Id(Slice(p, 0, if |p| < 2 then 0 else |p| - 2)), At(p, |p| - 1, 1)]
    case SetBatteryMaxChargeVoltage | SetBatteryChargeThresholds => [At(p, 0, 3), At(p, 4, 3)]
    case SetDateTime =>
      [2000 + At(p, 0, 2), At(p, 2, 2), At(p, 4, 2), At(p, 6, 2), At(p, 8, 2), At(p, 10, 2)]
    case SetACChargeTimeBucket | SetACSupplyTimeBucket => [At(p, 0, 2), At(p, 2, 2), At(p, 5, 2), At(p, 7, 2)]
    case _ => if ArgumentCount(c) == 0 then [] else [Num(p)]
  }

  function DecodePayload(c: CommandType, p: string): Request {
    if c.SetSolarConfig? then Request(c, [], Slice(p, 2, At(p, 0, 2)))
    else Request(c, DecodeNumbers(c, p), "")
  }

  /** Digits, capitals and commas only. */
  predicate Plain(s: string) { forall i :: 0 <= i < |s| ==> IsDigit(s[i]) || IsUpper(s[i]) || s[i] == ',' }

  predicate IsUpper(c: char) { 'A' <= c <= 'Z' }

  function UpperRun(s: string): (n: nat)
    ensures n <= |s| && (n < |s| ==> !IsUpper(s[n]))
  {
    if s != "" && IsUpper(s[0]) then 1 + UpperRun(s[1..]) else 0
  }

  function LookupGet(name: string): Option<CommandType> {
    match name
    case "PI" => Some(GetProtocolID)
    case "T" => Some(GetCurrentTime)
    case "ET" => Some(GetTotalGenerated)
    case "EY" => Some(GetYearGenerated)
    case "EM" => Some(GetMonthGenerated)
    case "ED" => Some(GetDayGenerated)
    case "ID" => Some(GetSerialNumber)
    case "VFW" => Some(GetCPUVersion)
    case "PIRI" => Some(GetRatedInformation)
    case "GS" => Some(GetGeneralStatus)
    case "MOD" => Some(GetWorkingMode)
    case "FWS" => Some(GetFaultsAndWarnings)
    case "FLAG" => Some(GetFlagsAndStatuses)
    case "DI" => Some(GetRatedDefaults)
    case "MCHGCR" => Some(GetAllowedChargeCurrents)
    case "MUCHGCR" => Some(GetAllowedACChargeCurrents)
    case "PRI" => Some(GetParallelRatedInformation)
    case "PGS" => Some(GetParallelGeneralStatus)
    case "ACCT" => Some(GetACChargeTimeBucket)
    case "ACLT" => Some(GetACSupplyTimeBucket)
    case _ => None
  }

  function LookupSet(name: string): Option<CommandType> {
    match name
    case "LON" => Some(SetACSupply)
    case "PF" => Some(SetDefaults)
    case "MCHGC" => Some(SetBatteryMaxChargeCurrent)
    case "MUCHGC" => Some(SetBatteryMaxACChargeCurrent)
    case "F" => Some(SetACOutputFreq)
    case "MCHGV" => Some(SetBatteryMaxChargeVoltage)
    case "V" => Some(SetACOutputVoltage)
    case "POP" => Some(SetOutputSourcePriority)
    case "BUCD" => Some(SetBatteryChargeThresholds)
    case "PCP" => Some(SetChargeSourcePriority)
    case "PSP" => Some(SetSolarPowerPriority)
    case "PGR" => Some(SetACInputVoltageRange)
    case "PBT" => Some(SetBatteryType)
    case "POPM" => Some(SetOutputMode)
    case "PSDV" => Some(SetBatteryCutOffVoltage)
    case "ID" => Some(SetSolarConfig)
    case "CLE" => Some(ClearGenerated)
    case "DAT" => Some(SetDateTime)
    case "ACCT" => Some(SetACChargeTimeBucket)
    case "ACLT" => Some(SetACSupplyTimeBucket)
    case _ => None
  }

  /** The command name is a run of capitals; the flag letter runs into the name "P", which no other name
      continues with D or E. */
  function DecodeBody(set_: bool, body: string): Option<Request> {
    if set_ && |body| == 3 && body[0] == 'P' && (body[1] == 'E' || body[1] == 'D') then
      Some(DecodePayload(SetFlag, body[1..]))
    else
      var n := UpperRun(body);
      match if set_ then LookupSet(body[..n]) else LookupGet(body[..n])
      case None => None
      case Some(c) => Some(DecodePayload(c, body[n..]))
  }

  function Decode(text: string): Option<Request> {
    if |text| < 2 || text[0] != '^' || (text[1] != 'S' && text[1] != 'P') then None
    else
      var rest := text[2..];
      DecodeBody(text[1] == 'S', rest[DigitRun(rest)..])
  }

  lemma LookupFinds(c: CommandType)
    requires !c.SetFlag?
    ensures (if IsSet(c) then LookupSet(RawCommand(c)) else LookupGet(RawCommand(c))) == Some(c)
  {}

  lemma {:induction false} UpperRunOf(name: string, payload: string)
    requires forall i :: 0 <= i < |name| ==> IsUpper(name[i])
    requires payload != "" ==> !IsUpper(payload[0])
    ensures UpperRun(name + payload) == |name|
  {
    if name == "" {
      assert name + payload == payload;
    } else {
      assert (name + payload)[1..] == name[1..] + payload;
      UpperRunOf(name[1..], payload);
    }
  }

  lemma NameShape(c: CommandType)
    ensures 1 <= |RawCommand(c)| <= 7 && forall i :: 0 <= i < |RawCommand(c)| ==> IsUpper(RawCommand(c)[i])
    ensures IsSet(c) && !c.SetFlag? && RawCommand(c)[0] == 'P' ==>
              |RawCommand(c)| > 1 && RawCommand(c)[1] != 'D' && RawCommand(c)[1] != 'E'
  {}

  lemma BodyDecodes(c: CommandType, p: string)
    requires !c.SetFlag? && (p != "" ==> !IsUpper(p[0]))
    ensures DecodeBody(IsSet(c), RawCommand(c) + p) == Some(DecodePayload(c, p))
  {
    hide RawCommand, LookupSet, LookupGet, DecodePayload, IsSet;
    var name := RawCommand(c);
    NameShape(c);
    UpperRunOf(name, p);
    LookupFinds(c);
    assert (name + p)[..|name|] == name && (name + p)[|name|..] == p;
  }

  /** What follows the length field. */
  lemma BodyOf(c: CommandType, p: string)
    ensures var rest := FrameText(c, p)[2..];
            && DigitRun(rest) == |Padded(3, LengthField(c, p))|
            && rest[..DigitRun(rest)] == Padded(3, LengthField(c, p))
            && rest[DigitRun(rest)..] == RawCommand(c) + p
  {
    hide RawCommand, IsSet, Padded;
    var len := Padded(3, LengthField(c, p));
    var body := RawCommand(c) + p;
    NameShape(c);
    PaddedNumber(3, LengthField(c, p));
    DigitRunAll(len, body);
    assert FrameText(c, p)[2..] == len + body;
  }

  lemma TextDecodes(c: CommandType, p: string)
    ensures Decode(FrameText(c, p)) == DecodeBody(IsSet(c), RawCommand(c) + p)
  {
    hide RawCommand, DecodeBody, IsSet, Padded;
    BodyOf(c, p);
  }

  // ---- Numbers through the encoder ----

  /** A two-digit field. */
  predicate TwoDigits(a: seq<string>, i: nat, base: int)
    requires i < |a|
  {
    IsNumeric(a[i]) && |a[i]| <= 4 && 0 <= Val(a[i]) - (if i == 0 then base else 0) < 100
  }

  lemma PackedNumber(width: nat, s: string, offset: int)
    requires width > 0 && IsNumeric(s) && |s| <= 4 && 0 <= Val(s) + offset < Pow10(width)
    ensures PackInt(width, s, offset).Some?
    ensures var p := PackInt(width, s, offset).value; |p| == width && AllDigits(p) && Val(p) == Val(s) + offset
  {
    hide Stoi, Val, Pow10, Padded;
    ShortNumber(s);
    PaddedNumber(width, Val(s) + offset);
  }

  /** Where field `i` of a run starts. */
  function Offset(lo: nat, i: nat, comma: int): int { 2 * (i - lo) + if lo <= comma < i then 1 else 0 }

  function FieldValue(a: seq<string>, i: nat, base: int): int
    requires i < |a|
  {
    Num(a[i]) - if i == 0 then base else 0
  }

  lemma AtShift(head: string, tail: string, at: nat, n: nat)
    ensures Slice(head + tail, |head| + at, n) == Slice(tail, at, n)
    ensures At(head + tail, |head| + at, n) == At(tail, at, n)
  {
    if at + n <= |tail| {
      assert (head + tail)[|head| + at..|head| + at + n] == tail[at..at + n];
    }
  }

  lemma AtStart(head: string, tail: string, n: nat)
    requires n <= |head|
    ensures Slice(head + tail, 0, n) == head[..n]
    ensures At(head + tail, 0, n) == Num(head[..n])
  {
    assert (head + tail)[0..n] == head[..n];
  }

  lemma DigitsAreNumeric(s: string)
    requires AllDigits(s) && s != ""
    ensures IsNumeric(s)
  {}

  lemma FieldOf(a: seq<string>, i: nat, base: int, digits: string)
    requires i < |a| && TwoDigits(a, i, base)
    requires AllDigits(digits) && Val(digits) == Val(a[i]) - if i == 0 then base else 0
    ensures Num(digits) == FieldValue(a, i, base)
  {}

  lemma {:induction false} IntsDecode(a: seq<string>, lo: nat, hi: nat, comma: int, base: int)
    requires lo <= hi <= |a| && forall i :: lo <= i < hi ==> TwoDigits(a, i, base)
    ensures Ints(a, lo, hi, comma, base).Some?
    ensures var p := Ints(a, lo, hi, comma, base).value;
            && |p| == Offset(lo, hi, comma)
            && (forall i :: lo <= i < hi ==>
                    && At(p, Offset(lo, i, comma), 2) == FieldValue(a, i, base)
                    && IsNumeric(Slice(p, Offset(lo, i, comma), 2)))
            && (lo < hi ==> IsDigit(p[0])) && Plain(p)
    decreases hi - lo
  {
    hide Val, PackInt, At, Slice, FieldValue, IsNumeric;
    if lo < hi {
      IntsDecode(a, lo + 1, hi, comma, base);
      assert TwoDigits(a, lo, base) && Pow10(2) == 100;
      PackedNumber(2, a[lo], if lo == 0 then -base else 0);
      var digits := PackInt(2, a[lo], if lo == 0 then -base else 0).value;
      var head := digits + if lo == comma then "," else "";
      var tail := Ints(a, lo + 1, hi, comma, base).value;
      AtStart(head, tail, 2);
      assert head[..2] == digits;
      FieldOf(a, lo, base, digits);
      assert IsNumeric(digits) by {
        DigitsAreNumeric(digits);
      }
      forall i | lo < i < hi
        ensures At(head + tail, Offset(lo, i, comma), 2) == FieldValue(a, i, base)
        ensures IsNumeric(Slice(head + tail, Offset(lo, i, comma), 2))
      {
        AtShift(head, tail, Offset(lo + 1, i, comma), 2);
      }
    }
  }

  lemma DecodedIndex(i: nat)
    requires i < 10
    ensures Num(ToDec(i)) == i && |ToDec(i)| == 1
  {
    ValOfDec(i);
  }

  lemma VoltsPositive(s: string)
    requires VoltsIn(s, 0.0, 99.0)
    ensures 0.0 <= Stod(s).value <= 99.000004
  {
    hide Stod, RoundTo;
    FloatClose(Stod(s).value);
  }

  lemma VoltsDecode(s: string)
    requires VoltsIn(s, 0.0, 99.0)
    ensures PackTenths(s).Some?
    ensures var p := PackTenths(s).value; |p| == 3 && AllDigits(p) && Num(p) == Volts(s)
  {
    hide Stod, Padded, Val, Tenths, Float;
    VoltsPositive(s);
    TenthsAreClose(Stod(s).value, 0);
    var t := Tenths(Stod(s).value);
    assert 0 <= t <= 990;
    PaddedNumber(3, t);
    assert Pow10(1) == 10 && Pow10(2) == 100 && Pow10(3) == 1000;
  }

  lemma TablesInRange()
    ensures forall i :: 0 <= i < |RECHARGE_VOLTAGES| ==> RECHARGE_VOLTAGES[i] <= 900
    ensures forall i :: 0 <= i < |REDISCHARGE_VOLTAGES| ==> REDISCHARGE_VOLTAGES[i] <= 900
  {}

  lemma TableVolts(s: string, table: seq<nat>)
    requires VoltsOneOf(s, table) && forall i :: 0 <= i < |table| ==> table[i] <= 900
    ensures VoltsIn(s, 0.0, 99.0)
  {
    hide Stod, RoundTo;
    var i :| 0 <= i < |table| && Float(Stod(s).value) == Float(table[i] as real / 10.0);
    FloatClose(table[i] as real / 10.0);
  }

  /** A small enough unsigned reading that is also an int reading is the same number. */
  lemma SameReading(s: string)
    requires Stoul(s).Some? && Stoi(s).Some? && Id(s) <= 999
    ensures Stoi(s).value == Id(s)
  {
    hide ParseInt;
  }

  /** The text of an id that goes into the frame as it is. */
  predicate TakesId(c: CommandType) {
    c.SetBatteryMaxChargeCurrent? || c.SetBatteryMaxACChargeCurrent? || c.SetChargeSourcePriority? || c.SetOutputMode?
  }

  function IdText(c: CommandType, a: seq<string>): string { if TakesId(c) && |a| > 0 then a[0] else "" }

  /** The rest of the payload has a length of its own for each command. */
  function FixedLength(c: CommandType): nat {
    match c
    case GetYearGenerated | SetACOutputVoltage | SetBatteryMaxChargeCurrent | SetBatteryMaxACChargeCurrent => 4
    case GetMonthGenerated => 6
    case GetDayGenerated => 8
    case SetFlag | SetACOutputFreq | SetChargeSourcePriority | SetOutputMode => 2
    case SetBatteryMaxChargeVoltage | SetBatteryChargeThresholds => 7
    case SetBatteryCutOffVoltage => 3
    case SetSolarConfig => 22
    case SetDateTime => 12
    case SetACChargeTimeBucket | SetACSupplyTimeBucket => 9
    case _ => ArgumentCount(c)
  }

  /** What is shown of each payload. */
  predicate Decodes(c: CommandType, a: seq<string>, p: string) {
    && DecodePayload(c, p) == Meaning(c, a)
    && |p| == |IdText(c, a)| + FixedLength(c) && IdText(c, a) <= p && Plain(p[|IdText(c, a)|..])
    && (p != "" && !c.SetFlag? ==> !IsUpper(p[0]))
  }

  lemma SolarText(x: string)
    ensures PackSolar(x) == Padded(2, |x|) + (x + if |x| < 20 then Fill(20 - |x|) else "")
  {}

  lemma SolarRead(x: string, p: string)
    requires |p| == 22 && AllDigits(p) && At(p, 0, 2) == |x| <= 20 && p[2..2 + |x|] == x
    ensures Decodes(SetSolarConfig, [x], p)
  {
    hide At;
  }

  lemma SolarDecodes(x: string)
    requires IsNumeric(x) && |x| <= 20
    ensures Decodes(SetSolarConfig, [x], PackSolar(x))
  {
    hide Val, Padded, At, Decodes, PackSolar;
    SolarText(x);
    var len, rest := Padded(2, |x|), x + if |x| < 20 then Fill(20 - |x|) else "";
    PaddedNumber(2, |x|);
    assert Pow10(1) == 10 && Pow10(2) == 100;
    assert len[..2] == len;
    AtStart(len, rest, 2);
    assert (len + rest)[2..2 + |x|] == x;
    SolarRead(x, len + rest);
  }

  lemma OutputVoltageDecodes(x: string)
    requires IsOutputVoltage(x) && Stoi(x).Some?
    ensures Decodes(SetACOutputVoltage, [x], Padded(4, Stoi(x).value * 10))
  {
    hide Stoul, Stoi, Val, Padded;
    SameReading(x);
    PaddedNumber(4, Stoi(x).value * 10);
    SmallPowers(4);
    assert Pow10(3) == 1000 && Pow10(4) == 10000;
  }

  lemma FrequencyDecodes(x: string)
    requires x in FREQUENCIES
    ensures PackInt(2, x, 0).Some? && Decodes(SetACOutputFreq, [x], PackInt(2, x, 0).value)
  {
    hide PackInt;
    assert IsNumeric(x) && |x| == 2;
    ValBound(x);
    assert Pow10(1) == 10 && Pow10(2) == 100;
    PackedNumber(2, x, 0);
  }

  lemma ParallelDecodes(c: CommandType, x: string)
    requires c.GetParallelRatedInformation? || c.GetParallelGeneralStatus?
    requires NumberIn(x, 1, 0, 9)
    ensures PackInt(0, x, 0).Some? && Decodes(c, [x], PackInt(0, x, 0).value)
  {
    hide Stoi, Val, ToDec;
    ShortNumber(x);
    DecodedIndex(Val(x));
  }

  lemma PositionDecodes(c: CommandType, x: string, allowed: seq<string>)
    requires c in {SetOutputSourcePriority, SetSolarPowerPriority, SetACInputVoltageRange, SetBatteryType}
    requires allowed == match c
                        case SetOutputSourcePriority => OUTPUT_PRIORITIES
                        case SetSolarPowerPriority => SOLAR_PRIORITIES
                        case SetACInputVoltageRange => INPUT_RANGES
                        case _ => BATTERY_TYPES
    requires x in allowed
    ensures Decodes(c, [x], ToDec(IndexOf(allowed, x)))
  {
    hide Val, ToDec, IndexOf;
    DecodedIndex(IndexOf(allowed, x));
  }

  lemma RawDecodes(c: CommandType, x: string)
    requires (c.GetYearGenerated? && IsYear(x)) || (c.SetACSupply? && x in ON_OFF)
    ensures Decodes(c, [x], x)
  {
    hide Val;
    assert AllDigits(x) && x != "";
  }

  lemma OneDecodes(c: CommandType, x: string, p: string)
    requires ArgumentCount(c) == 1 && Acceptable1(c, x)
    requires Packed1(c, Normalised1(c, x)) == Some(p)
    ensures Decodes(c, [x], p)
  {
    hide Val, Stoul, Stoi, Stod, Padded, PackSolar, Tenths, ToDec, Pow10, Decodes, IndexOf;
    match c
    case SetSolarConfig => SolarDecodes(x);
    case SetACOutputVoltage => OutputVoltageDecodes(x);
    case SetBatteryCutOffVoltage => CutOffDecodes(x);
    case SetOutputSourcePriority => PositionDecodes(c, x, OUTPUT_PRIORITIES);
    case SetSolarPowerPriority => PositionDecodes(c, x, SOLAR_PRIORITIES);
    case SetACInputVoltageRange => PositionDecodes(c, x, INPUT_RANGES);
    case SetBatteryType => PositionDecodes(c, x, BATTERY_TYPES);
    case SetACOutputFreq => FrequencyDecodes(x);
    case GetParallelRatedInformation | GetParallelGeneralStatus => ParallelDecodes(c, x);
    case GetYearGenerated | SetACSupply => RawDecodes(c, x);
  }

  lemma CutOffDecodes(x: string)
    requires VoltsIn(x, 40.0, 48.0)
    ensures PackTenths(x).Some? && Decodes(SetBatteryCutOffVoltage, [x], PackTenths(x).value)
  {
    hide Val, Stod, Float, PackTenths;
    VoltsDecode(x);
  }

  lemma AtEnd(head: string, tail: string)
    ensures At(head + tail, |head|, |tail|) == Num(tail)
    ensures Slice(head + tail, 0, |head|) == head
  {
    assert (head + tail)[|head|..|head| + |tail|] == tail && (head + tail)[0..|head|] == head;
  }

  /** No number starts with a capital. */
  lemma NumbersAreNotNames(s: string)
    requires Stoul(s).Some?
    ensures s != "" && !IsUpper(s[0])
  {
  }

  lemma MonthDecodes(x: string, y: string)
    requires IsYear(x) && NumberIn(y, 2, 1, 12)
    ensures var p := Cat(Some(x), Ints([x, y], 1, 2, NO_COMMA, 0));
            p.Some? && Decodes(GetMonthGenerated, [x, y], p.value)
  {
    hide Val, Ints, At;
    IntsDecode([x, y], 1, 2, NO_COMMA, 0);
    var tail := Ints([x, y], 1, 2, NO_COMMA, 0).value;
    AtStart(x, tail, 4);
    assert x[..4] == x;
    AtShift(x, tail, Offset(1, 1, NO_COMMA), 2);
    assert FieldValue([x, y], 1, 0) == Num(y);
  }

  lemma FlagDecodes(x: string, y: string)
    requires x in FLAGS && y in ON_OFF
    ensures Decodes(SetFlag, [x, y], (if y == "1" then "E" else "D") + [LETTERS[IndexOf(FLAGS, x)]])
  {
    hide IndexOf;
    hide Val;
    ValSingle('0');
    ValSingle('1');
    assert "0" == ['0'] && "1" == ['1'];
  }

  lemma AmpsDecode(c: CommandType, x: string, y: string)
    requires c.SetBatteryMaxChargeCurrent? || c.SetBatteryMaxACChargeCurrent?
    requires IsParallelId(x) && IsAmps(y) && Stoi(y).Some?
    ensures Decodes(c, [x, y], x + "," + Padded(3, Stoi(y).value))
  {
    hide Stoul, Stoi, Val, Padded, At;
    SameReading(y);
    NumbersAreNotNames(x);
    assert Pow10(1) == 10 && Pow10(2) == 100 && Pow10(3) == 1000;
    var amps := Padded(3, Stoi(y).value);
    PaddedNumber(3, Stoi(y).value);
    AtEnd(x + ",", amps);
    assert x + "," + amps == x + ("," + amps);
    AtEnd(x, "," + amps);
  }

  lemma TwoVoltsDecode(c: CommandType, x: string, y: string)
    requires c.SetBatteryMaxChargeVoltage? || c.SetBatteryChargeThresholds?
    requires VoltsIn(x, 0.0, 99.0) && VoltsIn(y, 0.0, 99.0)
    ensures var p := Cat(Cat(PackTenths(x), Some(",")), PackTenths(y)); p.Some? && Decodes(c, [x, y], p.value)
  {
    hide Val, At, PackTenths, Volts, Stod, Float;
    VoltsDecode(x);
    VoltsDecode(y);
    var p, q := PackTenths(x).value, PackTenths(y).value;
    AtEnd(p + ",", q);
    AtStart(p, "," + q, 3);
    assert p + "," + q == p + ("," + q) && p[..3] == p;
  }

  lemma ChoiceDecodes(c: CommandType, x: string, y: string, allowed: seq<string>)
    requires || (c.SetChargeSourcePriority? && allowed == CHARGE_PRIORITIES)
             || (c.SetOutputMode? && allowed == OUTPUT_MODES)
    requires IsParallelId(x) && y in allowed
    ensures Decodes(c, [x, y], x + "," + ToDec(IndexOf(allowed, y)))
  {
    hide Stoul, Val, ToDec, At, IndexOf;
    NumbersAreNotNames(x);
    DecodedIndex(IndexOf(allowed, y));
    var i := ToDec(IndexOf(allowed, y));
    AtEnd(x + ",", i);
    assert x + "," + i == x + ("," + i);
    AtEnd(x, "," + i);
  }

  lemma DayRead(a: seq<string>, p: string)
    requires |a| == 3 && |p| == 8 && IsDigit(p[0]) && Plain(p)
    requires At(p, 0, 4) == Num(a[0]) && At(p, 4, 2) == Num(a[1]) && At(p, 6, 2) == Num(a[2])
    ensures Decodes(GetDayGenerated, a, p)
  {
    hide At, Num;
  }

  lemma DayDecodes(a: seq<string>)
    requires |a| == 3 && IsDate(a[0], a[1], a[2])
    ensures var p := Cat(Some(a[0]), Ints(a, 1, 3, NO_COMMA, 0)); p.Some? && Decodes(GetDayGenerated, a, p.value)
  {
    hide Val, Ints, At, DaysIn, Decodes;
    assert TwoDigits(a, 1, 0) && TwoDigits(a, 2, 0);
    IntsDecode(a, 1, 3, NO_COMMA, 0);
    var tail := Ints(a, 1, 3, NO_COMMA, 0).value;
    AtStart(a[0], tail, 4);
    assert a[0][..4] == a[0];
    AtShift(a[0], tail, Offset(1, 1, NO_COMMA), 2);
    AtShift(a[0], tail, Offset(1, 2, NO_COMMA), 2);
    assert FieldValue(a, 1, 0) == Num(a[1]) && FieldValue(a, 2, 0) == Num(a[2]);
    DayRead(a, a[0] + tail);
  }

  lemma DateTimeRead(a: seq<string>, p: string)
    requires |a| == 6 && |p| == 12 && IsDigit(p[0]) && Plain(p)
    requires forall i :: 0 <= i < 6 ==> At(p, 2 * i, 2) == Num(a[i]) - if i == 0 then 2000 else 0
    ensures Decodes(SetDateTime, a, p)
  {
    hide At, Num;
    assert Meaning(SetDateTime, a).numbers == [Num(a[0]), Num(a[1]), Num(a[2]), Num(a[3]), Num(a[4]), Num(a[5])];
  }

  lemma DateTimeDecodes(a: seq<string>)
    requires |a| == 6 && IsDate(a[0], a[1], a[2]) && IsTime(a[3], a[4], a[5])
    ensures var p := Ints(a, 0, 6, NO_COMMA, 2000); p.Some? && Decodes(SetDateTime, a, p.value)
  {
    hide Val, Ints, At, DaysIn, Decodes, Num;
    assert TwoDigits(a, 0, 2000) && TwoDigits(a, 1, 2000) && TwoDigits(a, 2, 2000);
    assert TwoDigits(a, 3, 2000) && TwoDigits(a, 4, 2000) && TwoDigits(a, 5, 2000);
    IntsDecode(a, 0, 6, NO_COMMA, 2000);
    var p := Ints(a, 0, 6, NO_COMMA, 2000).value;
    forall i | 0 <= i < 6
      ensures At(p, 2 * i, 2) == Num(a[i]) - if i == 0 then 2000 else 0
    {
      assert At(p, Offset(0, i, NO_COMMA), 2) == FieldValue(a, i, 2000);
    }
    DateTimeRead(a, p);
  }

  lemma ClockField(n: nat)
    requires n <= 59
    ensures IsNumeric(ToDec(n)) && |ToDec(n)| <= 2 && Val(ToDec(n)) == n
  {
    assert Pow10(1) == 10 && Pow10(2) == 100;
    DecLength(n, 2);
    ValOfDec(n);
  }

  lemma BucketDecodes(c: CommandType, x: string, y: string)
    requires c.SetACChargeTimeBucket? || c.SetACSupplyTimeBucket?
    requires IsClock(x) && IsClock(y)
    ensures var p := Ints(ClockFields(x) + ClockFields(y), 0, 4, 1, 0); p.Some? && Decodes(c, [x, y], p.value)
  {
    hide Val, Ints, At, ToDec, Stoul, Split;
    var n, m := Clock(x) + Clock(y), ClockFields(x) + ClockFields(y);
    forall i | 0 <= i < 4
      ensures m[i] == ToDec(n[i]) && TwoDigits(m, i, 0) && FieldValue(m, i, 0) == n[i]
    {
      ClockField(n[i]);
    }
    IntsDecode(m, 0, 4, 1, 0);
    var p := Ints(m, 0, 4, 1, 0).value;
    forall i | 0 <= i < 4
      ensures At(p, if i < 2 then 2 * i else 2 * i + 1, 2) == n[i]
    {
      assert At(p, Offset(0, i, 1), 2) == FieldValue(m, i, 0);
    }
  }

  lemma TwoDecodes(c: CommandType, x: string, y: string, p: string)
    requires ArgumentCount(c) == 2 && Acceptable2(c, x, y)
    requires Packed(c, Normalised2(c, x, y)) == Some(p)
    ensures Decodes(c, [x, y], p)
  {
    hide Decodes, Ints, Stoul, Stoi, Stod, Float, Tenths, Padded, ToDec, IndexOf, IsClock;
    match c
    case GetMonthGenerated => MonthDecodes(x, y);
    case SetFlag => FlagDecodes(x, y);
    case SetBatteryMaxChargeCurrent | SetBatteryMaxACChargeCurrent => AmpsDecode(c, x, y);
    case SetBatteryMaxChargeVoltage => TwoVoltsDecode(c, x, y);
    case SetBatteryChargeThresholds =>
      TablesInRange();
      TableVolts(x, RECHARGE_VOLTAGES);
      TableVolts(y, REDISCHARGE_VOLTAGES);
      TwoVoltsDecode(c, x, y);
    case SetChargeSourcePriority => ChoiceDecodes(c, x, y, CHARGE_PRIORITIES);
    case SetOutputMode => ChoiceDecodes(c, x, y, OUTPUT_MODES);
    case SetACChargeTimeBucket | SetACSupplyTimeBucket => BucketDecodes(c, x, y);
  }

  /** Every payload reads back as what the accepted arguments mean. */
  lemma PayloadDecodes(c: CommandType, a: seq<string>, p: string)
    requires Acceptable(c, a) && Packed(c, Normalised(c, a)) == Some(p)
    ensures Decodes(c, a, p)
  {
    hide Decodes, Acceptable1, Acceptable2, Ints, Normalised1, Normalised2, Packed1, Packed2;
    if |a| == 1 {
      assert a == [a[0]];
      OneDecodes(c, a[0], p);
    } else if |a| == 2 {
      assert a == [a[0], a[1]];
      TwoDecodes(c, a[0], a[1], p);
    } else if |a| == 3 {
      DayDecodes(a);
    } else if |a| == 6 {
      DateTimeDecodes(a);
    } else {
      NothingDecodes(c, a);
    }
  }

  lemma NothingDecodes(c: CommandType, a: seq<string>)
    requires ArgumentCount(c) == 0 && a == []
    ensures Decodes(c, a, "")
  {
    assert DecodeNumbers(c, "") == [];
    assert Meaning(c, a).numbers == [];
  }

  // ---- The theorems ----

  lemma FlagBodyDecodes(p: string)
    requires |p| == 2 && (p[0] == 'E' || p[0] == 'D')
    ensures DecodeBody(true, "P" + p) == Some(DecodePayload(SetFlag, p))
  {
    hide DecodePayload;
    assert ("P" + p)[1..] == p;
  }

  /** Whatever validation accepts and the encoder packs can be read from the frame. */
  lemma FrameDecodes(c: CommandType, a: seq<string>, p: string)
    requires Acceptable(c, a) && Packed(c, Normalised(c, a)) == Some(p)
    ensures Decode(FrameText(c, p)) == Some(Meaning(c, a))
  {
    hide Acceptable1, Acceptable2, DecodePayload, Meaning, DecodeBody, FrameText, Decode, Ints, Normalised1, Stoul;
    PayloadDecodes(c, a, p);
    TextDecodes(c, p);
    if c.SetFlag? {
      FlagShape(a, p);
      FlagBodyDecodes(p);
    } else {
      BodyDecodes(c, p);
    }
  }

  lemma FlagShape(a: seq<string>, p: string)
    requires Acceptable(SetFlag, a) && Packed(SetFlag, Normalised(SetFlag, a)) == Some(p)
    ensures |p| == 2 && (p[0] == 'E' || p[0] == 'D')
  {}

  lemma PayloadOfFrame(c: CommandType, p: string, q: string)
    requires FrameText(c, p) == FrameText(c, q)
    ensures p == q
  {
    hide RawCommand, FrameText, Padded;
    BodyOf(c, p);
    BodyOf(c, q);
    assert (RawCommand(c) + p)[|RawCommand(c)|..] == p && (RawCommand(c) + q)[|RawCommand(c)|..] == q;
  }

  /** Two accepted requests with the same frame are the same command with the same arguments, and an id
      that goes into the frame is even spelt the same. */
  lemma SameFrameSameRequest(c: CommandType, a: seq<string>, p: string, d: CommandType, b: seq<string>, q: string)
    requires Acceptable(c, a) && Packed(c, Normalised(c, a)) == Some(p)
    requires Acceptable(d, b) && Packed(d, Normalised(d, b)) == Some(q)
    requires FrameText(c, p) == FrameText(d, q)
    ensures c == d && p == q && Meaning(c, a) == Meaning(d, b) && IdText(c, a) == IdText(d, b)
  {
    hide Acceptable, FrameText, Packed, Normalised, DecodePayload, Decode;
    FrameDecodes(c, a, p);
    FrameDecodes(d, b, q);
    CommandOf(c, a);
    CommandOf(d, b);
    PayloadOfFrame(c, p, q);
    PayloadDecodes(c, a, p);
    PayloadDecodes(d, b, q);
    assert IdText(c, a) == p[..|p| - FixedLength(c)];
    assert IdText(d, b) == p[..|p| - FixedLength(c)];
  }

  lemma CommandOf(c: CommandType, a: seq<string>)
    ensures Meaning(c, a).command == c
  {}

  lemma OneThrows(c: CommandType, x: string)
    requires ArgumentCount(c) == 1 && Acceptable1(c, x)
    ensures Packed1(c, Normalised1(c, x)).None? <==> c.SetACOutputVoltage? && Stoi(x).None?
  {
    hide Decodes, Stoul, Stoi, Stod, Float, Tenths, Padded, ToDec, IndexOf;
    match c
    case SetBatteryCutOffVoltage => CutOffDecodes(x);
    case SetACOutputFreq => FrequencyDecodes(x);
    case GetParallelRatedInformation | GetParallelGeneralStatus => ParallelDecodes(c, x);
    case _ =>
  }

  lemma TwoThrows(c: CommandType, x: string, y: string)
    requires ArgumentCount(c) == 2 && Acceptable2(c, x, y)
    ensures Packed(c, Normalised2(c, x, y)).None? <==>
            (c.SetBatteryMaxChargeCurrent? || c.SetBatteryMaxACChargeCurrent?) && Stoi(y).None?
  {
    hide Decodes, Ints, Stoul, Stoi, Stod, Float, Tenths, Padded, ToDec, IndexOf, IsClock;
    match c
    case GetMonthGenerated => MonthDecodes(x, y);
    case SetBatteryMaxChargeVoltage => TwoVoltsDecode(c, x, y);
    case SetBatteryChargeThresholds =>
      TablesInRange();
      TableVolts(x, RECHARGE_VOLTAGES);
      TableVolts(y, REDISCHARGE_VOLTAGES);
      TwoVoltsDecode(c, x, y);
    case SetACChargeTimeBucket | SetACSupplyTimeBucket => BucketDecodes(c, x, y);
    case _ =>
  }

  /** Where packing throws although validation was content: exactly when stoi cannot hold a number that
      stoul and the cut to 32 bits had accepted. */
  lemma PackingThrowsExactly(c: CommandType, a: seq<string>)
    requires Acceptable(c, a)
    ensures Packed(c, Normalised(c, a)).None? <==>
            || ((c.SetBatteryMaxChargeCurrent? || c.SetBatteryMaxACChargeCurrent?) && Stoi(a[1]).None?)
            || (c.SetACOutputVoltage? && Stoi(a[0]).None?)
  {
    hide Decodes, Acceptable1, Acceptable2, Normalised1, Normalised2, Packed1, Packed2, Ints, Stoi;
    if |a| == 1 {
      OneThrows(c, a[0]);
    } else if |a| == 2 {
      TwoThrows(c, a[0], a[1]);
    } else if |a| == 3 {
      DayDecodes(a);
    } else if |a| == 6 {
      DateTimeDecodes(a);
    }
  }

  /** Such a number: 2 more than 2^32 amperes. */
  lemma AcceptedButThrows()
    ensures var a := ["0", ToDec(0x1_0000_0002)];
            Acceptable(SetBatteryMaxChargeCurrent, a)
            && Packed(SetBatteryMaxChargeCurrent, Normalised(SetBatteryMaxChargeCurrent, a)).None?
  {
    hide Val, ToDec, ParseInt, Stoul;
    ValOfDec(0x1_0000_0002);
    ParseDigits(ToDec(0x1_0000_0002));
    ValSingle('0');
    assert "0" == ['0'];
    ParseDigits("0");
  }

  /** The length field has its three digits exactly when the frame is short enough, which only the raw text
      of an id can prevent. */
  lemma LengthFits(c: CommandType, a: seq<string>, p: string)
    requires Acceptable(c, a) && Packed(c, Normalised(c, a)) == Some(p)
    ensures LengthField(c, p) == 3 + |RawCommand(c)| + |IdText(c, a)| + FixedLength(c)
    ensures |Padded(3, LengthField(c, p))| == 3 <==> LengthField(c, p) < 1000
    ensures |IdText(c, a)| < 986 ==> LengthField(c, p) < 1000
    ensures !TakesId(c) ==> LengthField(c, p) <= 29
  {
    hide Acceptable, Packed, Normalised, DecodePayload, Meaning, Padded;
    PayloadDecodes(c, a, p);
    PaddedNumber(3, LengthField(c, p));
    assert Pow10(1) == 10 && Pow10(2) == 100 && Pow10(3) == 1000;
    LongestCommand(c);
  }

  lemma LongestCommand(c: CommandType)
    ensures |RawCommand(c)| + FixedLength(c) <= 26
    ensures TakesId(c) ==> |RawCommand(c)| + FixedLength(c) <= 10
  {}
}
