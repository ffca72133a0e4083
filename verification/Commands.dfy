/** Acceptance and normalisation of command arguments (src/p18/commands.cc, src/p18/defines.cc,
    src/util.cc:18-36). */
module Commands {
  import opened Types
  import opened Text
  import opened Splitting

  // ---- Tables ----

  /** The flag names; a flag's letter is its position, counted from 'A'. */
  const FLAGS: seq<string> := ["BUZZ", "OLBP", "LCDE", "OLRS", "OTRS", "BLON", "ALRM", "FTCR", "MTYP"]
  const LETTERS: string := "ABCDEFGHI"

  const AC_OUTPUT_VOLTAGES: seq<nat> := [202, 208, 220, 230, 240]

  // Battery voltages, in tenths of a volt, for 12, 24 and 48 V batteries.
  const RECHARGE_VOLTAGES: seq<nat> :=
    [110, 113, 115, 118, 120, 123, 125, 128] + [220, 225, 230, 235, 240, 245, 250, 255] +
    [440, 450, 460, 470, 480, 490, 500, 510]
  const REDISCHARGE_VOLTAGES: seq<nat> :=
    [0, 120, 123, 125, 128, 130, 133, 135, 138, 140, 143, 145] +
    [0, 240, 245, 250, 255, 260, 265, 270, 275, 280, 285, 290] +
    [0, 480, 490, 500, 510, 520, 530, 540, 550, 560, 570, 580]

  const ON_OFF: seq<string> := ["0", "1"]
  const FREQUENCIES: seq<string> := ["50", "60"]
  const OUTPUT_PRIORITIES: seq<string> := ["SUB", "SBU"]
  const CHARGE_PRIORITIES: seq<string> := ["SF", "SU", "S"]
  const SOLAR_PRIORITIES: seq<string> := ["BLU", "LBU"]
  const INPUT_RANGES: seq<string> := ["APPLIANCE", "UPS"]
  const BATTERY_TYPES: seq<string> := ["AGM", "FLOODED", "USER"]
  const OUTPUT_MODES: seq<string> := ["S", "P", "1", "2", "3"]

  function ArgumentCount(c: CommandType): nat {
    match c
    case GetYearGenerated | GetParallelRatedInformation | GetParallelGeneralStatus | SetACSupply | SetACOutputFreq
       | SetACOutputVoltage | SetOutputSourcePriority | SetSolarPowerPriority | SetACInputVoltageRange
       | SetBatteryType | SetBatteryCutOffVoltage | SetSolarConfig => 1
    case GetMonthGenerated | SetFlag | SetBatteryMaxChargeCurrent | SetBatteryMaxACChargeCurrent
       | SetBatteryMaxChargeVoltage | SetBatteryChargeThresholds | SetChargeSourcePriority | SetOutputMode
       | SetACChargeTimeBucket | SetACSupplyTimeBucket => 2
    case GetDayGenerated => 3
    case SetDateTime => 6
    case _ => 0
  }

  // ---- What is acceptable, argument by argument ----

  /** A number of at most `digits` digits between `lo` and `hi`. */
  predicate NumberIn(s: string, digits: nat, lo: nat, hi: nat) {
    IsNumeric(s) && |s| <= digits && lo <= Val(s) <= hi
  }

  predicate IsYear(s: string) { |s| == 4 && NumberIn(s, 4, 2000, 2099) }

  /** The Gregorian calendar. */
  predicate IsLeap(y: nat) { y % 4 == 0 && (y % 100 != 0 || y % 400 == 0) }

  function DaysIn(y: nat, m: nat): nat {
    if m == 2 then (if IsLeap(y) then 29 else 28)
    else if m == 4 || m == 6 || m == 9 || m == 11 then 30
    else 31
  }

  predicate IsDate(ys: string, ms: string, ds: string) {
    && IsYear(ys) && NumberIn(ms, 2, 1, 12) && NumberIn(ds, 2, 1, 31)
    && Val(ds) <= DaysIn(Val(ys), Val(ms))
  }

  predicate IsTime(hs: string, ms: string, ss: string) {
    NumberIn(hs, 2, 0, 23) && NumberIn(ms, 2, 0, 59) && NumberIn(ss, 2, 0, 59)
  }

  /** The id is read with stoul and cut to 32 bits; its text is what goes into the frame. */
  predicate IsParallelId(s: string) { Stoul(s).Some? && AsUnsigned(Stoul(s).value) <= 6 }

  predicate IsAmps(s: string) { Stoul(s).Some? && AsUnsigned(Stoul(s).value) <= 999 }

  predicate IsOutputVoltage(s: string) { Stoul(s).Some? && AsUnsigned(Stoul(s).value) in AC_OUTPUT_VOLTAGES }

  /** 58.4, as the double that it is compared with. */
  const DOUBLE_58_4 := 58.39999999999999857891452847979962825775146484375

  /** The voltage, read as a float, is in the range. */
  predicate VoltsIn(s: string, lo: real, hi: real) { Stod(s).Some? && lo <= Float(Stod(s).value) <= hi }

  /** The voltage, read as a float, is one of the floats of the table. */
  predicate VoltsOneOf(s: string, table: seq<nat>) {
    Stod(s).Some? && exists i :: 0 <= i < |table| && Float(Stod(s).value) == Float(table[i] as real / 10.0)
  }

  function Hour(s: string): nat
    requires Stoul(s).Some?
  {
    AsShort(Stoul(s).value)
  }

  /** HH:MM, each part read with stoul and cut to 16 bits. */
  predicate IsClock(s: string) {
    var parts := Split(s, ':');
    && |parts| == 2 && Stoul(parts[0]).Some? && Stoul(parts[1]).Some?
    && Hour(parts[0]) <= 23 && Hour(parts[1]) <= 59
  }

  predicate Acceptable1(c: CommandType, x: string) {
    match c
    case GetYearGenerated => IsYear(x)
    case GetParallelRatedInformation | GetParallelGeneralStatus => NumberIn(x, 1, 0, 9)
    case SetACSupply => x in ON_OFF
    case SetACOutputFreq => x in FREQUENCIES
    case SetACOutputVoltage => IsOutputVoltage(x)
    case SetOutputSourcePriority => x in OUTPUT_PRIORITIES
    case SetSolarPowerPriority => x in SOLAR_PRIORITIES
    case SetACInputVoltageRange => x in INPUT_RANGES
    case SetBatteryType => x in BATTERY_TYPES
    case SetBatteryCutOffVoltage => VoltsIn(x, 40.0, 48.0)
    case SetSolarConfig => IsNumeric(x) && |x| <= 20
    case _ => true
  }

  predicate Acceptable2(c: CommandType, x: string, y: string) {
    match c
    case GetMonthGenerated => IsYear(x) && NumberIn(y, 2, 1, 12)
    case SetFlag => x in FLAGS && y in ON_OFF
    case SetBatteryMaxChargeCurrent | SetBatteryMaxACChargeCurrent => IsParallelId(x) && IsAmps(y)
    case SetBatteryMaxChargeVoltage => VoltsIn(x, 48.0, DOUBLE_58_4) && VoltsIn(y, 48.0, DOUBLE_58_4)
    case SetBatteryChargeThresholds => VoltsOneOf(x, RECHARGE_VOLTAGES) && VoltsOneOf(y, REDISCHARGE_VOLTAGES)
    case SetChargeSourcePriority => IsParallelId(x) && y in CHARGE_PRIORITIES
    case SetOutputMode => IsParallelId(x) && y in OUTPUT_MODES
    case SetACChargeTimeBucket | SetACSupplyTimeBucket => IsClock(x) && IsClock(y)
    case _ => true
  }

  /** The arguments a command takes. */
  predicate Acceptable(c: CommandType, a: seq<string>) {
    && |a| == ArgumentCount(c)
    && (|a| == 1 ==> Acceptable1(c, a[0]))
    && (|a| == 2 ==> Acceptable2(c, a[0], a[1]))
    && (|a| == 3 ==> IsDate(a[0], a[1], a[2]))
    && (|a| == 6 ==> IsDate(a[0], a[1], a[2]) && IsTime(a[3], a[4], a[5]))
  }

  function IndexOf<T(==)>(haystack: seq<T>, needle: T): (i: nat)
    requires needle in haystack
    ensures i < |haystack| && haystack[i] == needle && needle !in haystack[..i]
  {
    if haystack[0] == needle then 0
    else
      var i := IndexOf(haystack[1..], needle);
      assert haystack[..i + 1] == [haystack[0]] + haystack[1..][..i];
      1 + i
  }

  function ClockFields(s: string): (r: seq<string>)
    requires IsClock(s)
    ensures |r| == 2
  {
    [ToDec(Hour(Split(s, ':')[0])), ToDec(Hour(Split(s, ':')[1]))]
  }

  /** How many arguments a validated request has. */
  function NormalCount(c: CommandType): nat {
    if c.SetACChargeTimeBucket? || c.SetACSupplyTimeBucket? then 4 else ArgumentCount(c)
  }

  function Normalised1(c: CommandType, x: string): string
    requires Acceptable1(c, x)
  {
    match c
    case SetOutputSourcePriority => ToDec(IndexOf(OUTPUT_PRIORITIES, x))
    case SetSolarPowerPriority => ToDec(IndexOf(SOLAR_PRIORITIES, x))
    case SetACInputVoltageRange => ToDec(IndexOf(INPUT_RANGES, x))
    case SetBatteryType => ToDec(IndexOf(BATTERY_TYPES, x))
    case _ => x
  }

  function Normalised2(c: CommandType, x: string, y: string): (r: seq<string>)
    requires Acceptable2(c, x, y)
    ensures |r| == if c.SetACChargeTimeBucket? || c.SetACSupplyTimeBucket? then 4 else 2
  {
    match c
    case SetFlag => [[LETTERS[IndexOf(FLAGS, x)]], y]
    case SetChargeSourcePriority => [x, ToDec(IndexOf(CHARGE_PRIORITIES, y))]
    case SetOutputMode => [x, ToDec(IndexOf(OUTPUT_MODES, y))]
    case SetACChargeTimeBucket | SetACSupplyTimeBucket => ClockFields(x) + ClockFields(y)
    case _ => [x, y]
  }

  /** The argument vector that validation leaves behind. */
  function Normalised(c: CommandType, a: seq<string>): (r: seq<string>)
    requires Acceptable(c, a)
    ensures |r| == NormalCount(c)
  {
    if |a| == 1 then [Normalised1(c, a[0])]
    else if |a| == 2 then Normalised2(c, a[0], a[1])
    else a
  }

  datatype Result = Ok(arguments: seq<string>) | InvalidArgument
}
