/** From a validated request to the text of its frame (src/p18/client.cc:31-53, 125-227;
    src/p18/defines.cc:10-54). */
module Encoder {
  import opened Types
  import opened Text
  import opened Commands

  /** The enumerators from 100 on. */
  predicate IsSet(c: CommandType) {
    match c
    case GetProtocolID | GetCurrentTime | GetTotalGenerated | GetYearGenerated | GetMonthGenerated
       | GetDayGenerated | GetSerialNumber | GetCPUVersion | GetRatedInformation | GetGeneralStatus
       | GetWorkingMode | GetFaultsAndWarnings | GetFlagsAndStatuses | GetRatedDefaults
       | GetAllowedChargeCurrents | GetAllowedACChargeCurrents | GetParallelRatedInformation
       | GetParallelGeneralStatus | GetACChargeTimeBucket | GetACSupplyTimeBucket => false
    case _ => true
  }

  function RawCommand(c: CommandType): string {
    match c
    case GetProtocolID => "PI"
    case GetCurrentTime => "T"
    case GetTotalGenerated => "ET"
    case GetYearGenerated => "EY"
    case GetMonthGenerated => "EM"
    case GetDayGenerated => "ED"
    case GetSerialNumber => "ID"
    case GetCPUVersion => "VFW"
    case GetRatedInformation => "PIRI"
    case GetGeneralStatus => "GS"
    case GetWorkingMode => "MOD"
    case GetFaultsAndWarnings => "FWS"
    case GetFlagsAndStatuses => "FLAG"
    case GetRatedDefaults => "DI"
    case GetAllowedChargeCurrents => "MCHGCR"
    case GetAllowedACChargeCurrents => "MUCHGCR"
    case GetParallelRatedInformation => "PRI"
    case GetParallelGeneralStatus => "PGS"
    case GetACChargeTimeBucket => "ACCT"
    case GetACSupplyTimeBucket => "ACLT"
    case SetACSupply => "LON"
    case SetFlag => "P"
    case SetDefaults => "PF"
    case SetBatteryMaxChargeCurrent => "MCHGC"
    case SetBatteryMaxACChargeCurrent => "MUCHGC"
    case SetACOutputFreq => "F"
    case SetBatteryMaxChargeVoltage => "MCHGV"
    case SetACOutputVoltage => "V"
    case SetOutputSourcePriority => "POP"
    case SetBatteryChargeThresholds => "BUCD"
    case SetChargeSourcePriority => "PCP"
    case SetSolarPowerPriority => "PSP"
    case SetACInputVoltageRange => "PGR"
    case SetBatteryType => "PBT"
    case SetOutputMode => "POPM"
    case SetBatteryCutOffVoltage => "PSDV"
    case SetSolarConfig => "ID"
    case ClearGenerated => "CLE"
    case SetDateTime => "DAT"
    case SetACChargeTimeBucket => "ACCT"
    case SetACSupplyTimeBucket => "ACLT"
  }

  /** Text pieces; a conversion that throws spoils the whole. */
  function Cat(a: Option<string>, b: Option<string>): Option<string> {
    if a.Some? && b.Some? then Some(a.value + b.value) else None
  }

  /** One number through stoi, padded with zeros. */
  function PackInt(width: nat, s: string, offset: int): Option<string> {
    match Stoi(s)
    case None => None
    case Some(n) => Some(Padded(width, n + offset))
  }

  function PackTenths(s: string): Option<string> {
    match Stod(s)
    case None => None
    case Some(v) => Some(Padded(3, Tenths(v)))
  }

  function PackSolar(s: string): string {
    Padded(2, |s|) + s + (if |s| < 20 then Fill(20 - |s|) else "")
  }

  /** No field is followed by a comma. */
  const NO_COMMA: int := -1

  /** Field `i` of a run of two-digit numbers: argument 0 is reduced by `base`, and a comma follows
      argument `comma`. */
  function IntField(a: seq<string>, i: nat, comma: int, base: int): Option<string>
    requires i < |a|
  {
    Cat(PackInt(2, a[i], if i == 0 then -base else 0), Some(if i == comma then "," else ""))
  }

  /** Arguments `lo` up to `hi` as two-digit fields. */
  function Ints(a: seq<string>, lo: nat, hi: nat, comma: int, base: int): Option<string>
    requires lo <= hi <= |a|
    decreases hi - lo
  {
    if lo == hi then Some("")
    else Cat(IntField(a, lo, comma, base), Ints(a, lo + 1, hi, comma, base))
  }

  function Packed1(c: CommandType, x: string): Option<string> {
    match c
    case GetParallelGeneralStatus | GetParallelRatedInformation => PackInt(0, x, 0)
    case SetACOutputFreq => PackInt(2, x, 0)
    case SetACOutputVoltage => if Stoi(x).Some? then Some(Padded(4, Stoi(x).value * 10)) else None
    case SetBatteryCutOffVoltage => PackTenths(x)
    case SetSolarConfig => Some(PackSolar(x))
    case _ => Some(x)
  }

  function Packed2(c: CommandType, x: string, y: string): Option<string> {
    match c
    case GetMonthGenerated => Cat(Some(x), Ints([x, y], 1, 2, NO_COMMA, 0))
    case SetFlag => Some((if y == "1" then "E" else "D") + x)
    case SetBatteryMaxChargeCurrent | SetBatteryMaxACChargeCurrent => Cat(Some(x + ","), PackInt(3, y, 0))
    case SetBatteryMaxChargeVoltage | SetBatteryChargeThresholds =>
      Cat(Cat(PackTenths(x), Some(",")), PackTenths(y))
    case _ => Some(x + "," + y)
  }

  /** The payload of a request; `None` when a conversion throws. */
  function Packed(c: CommandType, a: seq<string>): Option<string>
    requires |a| == NormalCount(c)
  {
    if |a| == 0 then Some("")
    else if |a| == 1 then Packed1(c, a[0])
    else if |a| == 2 then Packed2(c, a[0], a[1])
    else if |a| == 3 then Cat(Some(a[0]), Ints(a, 1, 3, NO_COMMA, 0))
    else if |a| == 4 then Ints(a, 0, 4, 1, 0)
    else if |a| == 6 then Ints(a, 0, 6, NO_COMMA, 2000)
    else None
  }

  /** The bytes that the length field counts: checksum, carriage return, command and payload. */
  function LengthField(c: CommandType, payload: string): nat { 2 + 1 + |RawCommand(c)| + |payload| }

  /** The text handed to the device layer. */
  function FrameText(c: CommandType, payload: string): string {
    "^" + (if IsSet(c) then "S" else "P") + Padded(3, LengthField(c, payload)) + RawCommand(c) + payload
  }

  // ---- As the code builds it: an output stream appended step by step ----

  lemma CatAssociative(a: Option<string>, b: Option<string>, c: Option<string>)
    ensures Cat(a, Cat(b, c)) == Cat(Cat(a, b), c)
  {
    if a.Some? && b.Some? && c.Some? {
      assert a.value + (b.value + c.value) == (a.value + b.value) + c.value;
    }
  }

  lemma AppendStep(before: string, out: string, a: seq<string>, i: nat, hi: nat, comma: int, base: int)
    requires i < hi <= |a| && Stoi(a[i]).Some?
    requires out == before + Padded(2, if i == 0 then Stoi(a[i]).value - base else Stoi(a[i]).value)
                    + (if i == comma then "," else "")
    ensures Cat(Some(before), Ints(a, i, hi, comma, base)) == Cat(Some(out), Ints(a, i + 1, hi, comma, base))
  {
    hide Stoi, Padded;
    var field := IntField(a, i, comma, base);
    CatAssociative(Some(before), field, Ints(a, i + 1, hi, comma, base));
    assert Cat(Some(before), field) == Some(out) by {
      var p := Padded(2, if i == 0 then Stoi(a[i]).value - base else Stoi(a[i]).value);
      assert before + (p + if i == comma then "," else "") == before + p + if i == comma then "," else "";
    }
  }

  lemma CatUnit(a: Option<string>)
    ensures Cat(Some(""), a) == a
  {
    if a.Some? {
      assert "" + a.value == a.value;
    }
  }

  /** The loops over date, time and bucket arguments. */
  method AppendInts(buf: string, a: seq<string>, lo: nat, hi: nat, comma: int, base: int)
    returns (r: Option<string>)
    requires lo <= hi <= |a|
    ensures r == Cat(Some(buf), Ints(a, lo, hi, comma, base))
  {
    var out := buf;
    for i := lo to hi
      invariant Cat(Some(out), Ints(a, i, hi, comma, base)) == Cat(Some(buf), Ints(a, lo, hi, comma, base))
    {
      var n := Stoi(a[i]);
      if n.None? {
        return None;
      }
      var val := n.value;
      if i == 0 {
        val := val - base;
      }
      ghost var before := out;
      out := out + Padded(2, val);
      if i == comma {
        out := out + ",";
      }
      AppendStep(before, out, a, i, hi, comma, base);
    }
    assert out + "" == out;
    return Some(out);
  }

  /** The loop over the two voltages. */
  method AppendVolts(a: seq<string>) returns (r: Option<string>)
    requires |a| == 2
    ensures r == Cat(Cat(PackTenths(a[0]), Some(",")), PackTenths(a[1]))
  {
    hide Stod, Tenths, Padded;
    var out := "";
    for i := 0 to 2
      invariant Some(out) == if i == 0 then Some("") else if i == 1 then Cat(PackTenths(a[0]), Some(","))
                             else Cat(Cat(PackTenths(a[0]), Some(",")), PackTenths(a[1]))
    {
      var val := Stod(a[i]);
      if val.None? {
        return None;
      }
      out := out + Padded(3, Tenths(val.value));
      assert i == 0 ==> out == Padded(3, Tenths(val.value));
      if i == 0 {
        out := out + ",";
      }
    }
    return Some(out);
  }

  /** The loop that fills a short serial number up to 20 digits. */
  method AppendSolar(s: string) returns (out: string)
    ensures out == PackSolar(s)
  {
    hide Padded;
    out := Padded(2, |s|) + s;
    if |s| < 20 {
      ghost var start := out;
      for i := 0 to 20 - |s|
        invariant out == start + Fill(i)
      {
        out := out + "0";
      }
    }
  }

  /** `packArguments` for the commands of one argument */
  method PackOne(c: CommandType, x: string) returns (r: Option<string>)
    ensures r == Packed1(c, x)
  {
    var buf := "";
    match c {
      case GetParallelGeneralStatus | GetParallelRatedInformation =>
        return PackInt(0, x, 0);
      case SetACOutputFreq =>
        return PackInt(2, x, 0);
      case SetACOutputVoltage =>
        var v := Stoi(x);
        if v.None? {
          return None;
        }
        buf := Padded(4, v.value * 10);
      case SetBatteryCutOffVoltage =>
        return PackTenths(x);
      case SetSolarConfig =>
        buf := AppendSolar(x);
      case _ =>
        buf := x;
    }
    return Some(buf);
  }

  /** `packArguments` for the commands of two arguments */
  method PackTwo(c: CommandType, x: string, y: string) returns (r: Option<string>)
    ensures r == Packed2(c, x, y)
  {
    hide Ints, Stoi, Padded, PackTenths;
    var buf := "";
    match c {
      case GetMonthGenerated =>
        buf := x;
        r := AppendInts(buf, [x, y], 1, 2, NO_COMMA, 0);
        return;
      case SetFlag =>
        buf := if y == "1" then "E" else "D";
        buf := buf + x;
      case SetBatteryMaxChargeCurrent | SetBatteryMaxACChargeCurrent =>
        buf := x + ",";
        var amps := Stoi(y);
        if amps.None? {
          return None;
        }
        buf := buf + Padded(3, amps.value);
      case SetBatteryMaxChargeVoltage | SetBatteryChargeThresholds =>
        r := AppendVolts([x, y]);
        return;
      case _ =>
        buf := x + "," + y;
    }
    return Some(buf);
  }

  /** `packArguments` */
  method PackArguments(c: CommandType, a: seq<string>) returns (r: Option<string>)
    requires |a| == NormalCount(c)
    ensures r == Packed(c, a)
  {
    hide Ints, Packed1, Packed2;
    if |a| == 1 {
      r := PackOne(c, a[0]);
    } else if |a| == 2 {
      r := PackTwo(c, a[0], a[1]);
    } else if |a| == 3 {
      r := AppendInts(a[0], a, 1, 3, NO_COMMA, 0);
    } else if |a| == 4 {
      r := AppendInts("", a, 0, 4, 1, 0);
      CatUnit(Packed(c, a));
    } else if |a| == 6 {
      r := AppendInts("", a, 0, 6, NO_COMMA, 2000);
      CatUnit(Packed(c, a));
    } else {
      r := Some("");
    }
  }

  /** The first half of `execute`: header, length, command and payload. */
  method BuildFrame(c: CommandType, a: seq<string>) returns (packed: Option<string>)
    requires |a| == NormalCount(c)
    ensures packed == if Packed(c, a).Some? then Some(FrameText(c, Packed(c, a).value)) else None
  {
    hide Packed, Padded;
    var packedCommand := RawCommand(c);
    var packedArguments := PackArguments(c, a);
    if packedArguments.None? {
      return None;
    }
    var len := 2 + 1 + |packedCommand| + |packedArguments.value|;
    var buf := "^";
    buf := buf + if IsSet(c) then "S" else "P";
    buf := buf + Padded(3, len);
    buf := buf + packedCommand;
    buf := buf + packedArguments.value;
    return Some(buf);
  }
}
