/** What validation accepts and what it makes of it, command by command and with every constant written out
    (src/p18/commands.cc:64-132, 172-455; src/p18/defines.cc:56-107). */
module Acceptance {
  import opened Types
  import opened Text
  import opened Splitting
  import opened Commands
  import Parsing
  import Voltages

  // ---- Kinds of arguments ----

  /** One or two digits with a value from `lo` to `hi`. */
  predicate ShortNumber(s: string, lo: nat, hi: nat) {
    1 <= |s| <= 2 && AllDigits(s) && lo <= Val(s) <= hi
  }

  /** A year from 2000 to 2099 in four digits. */
  predicate Year(s: string) { |s| == 4 && s[0] == '2' && s[1] == '0' && AllDigits(s) }

  predicate Month(s: string) {
    s in ["1", "2", "3", "4", "5", "6", "7", "8", "9", "10", "11", "12",
          "01", "02", "03", "04", "05", "06", "07", "08", "09"]
  }

  /** A day that the month has; February has 29 days in the years divisible by four. */
  predicate Date(y: string, m: string, d: string) {
    && Year(y) && Month(m) && ShortNumber(d, 1, 31) && AllDigits(m)
    && (Val(d) == 31 ==> Val(m) in {1, 3, 5, 7, 8, 10, 12})
    && (Val(d) == 30 ==> Val(m) != 2)
    && (Val(d) == 29 && Val(m) == 2 ==> Val(y) % 4 == 0)
  }

  /** A text that is read as a number within 64 bits whose low 32 bits are at most `hi`. */
  predicate WordUpTo(s: string, hi: nat) {
    && ParseInt(s).Some? && -18446744073709551616 < ParseInt(s).value < 18446744073709551616
    && ParseInt(s).value % 4294967296 <= hi
  }

  predicate WordIn(s: string, allowed: seq<nat>) {
    && ParseInt(s).Some? && -18446744073709551616 < ParseInt(s).value < 18446744073709551616
    && exists i :: 0 <= i < |allowed| && ParseInt(s).value % 4294967296 == allowed[i]
  }

  /** A text that is read as a number within 64 bits whose low 16 bits are at most `hi`. */
  predicate HalfUpTo(s: string, hi: nat) {
    && ParseInt(s).Some? && -18446744073709551616 < ParseInt(s).value < 18446744073709551616
    && ParseInt(s).value % 65536 <= hi
  }

  /** Hours and minutes, separated by the only colon. */
  predicate TimeOfDay(s: string, h: string, m: string) {
    s == h + ":" + m && ':' !in h && ':' !in m && HalfUpTo(h, 23) && HalfUpTo(m, 59)
  }

  // ---- The laws ----

  /** The commands without arguments take none, and all others some. */
  lemma TakesNothingExactly(c: CommandType, a: seq<string>)
    requires c in {GetProtocolID, GetCurrentTime, GetTotalGenerated, GetSerialNumber, GetCPUVersion,
                   GetRatedInformation, GetGeneralStatus, GetWorkingMode, GetFaultsAndWarnings, GetFlagsAndStatuses,
                   GetRatedDefaults, GetAllowedChargeCurrents, GetAllowedACChargeCurrents, GetACChargeTimeBucket,
                   GetACSupplyTimeBucket, SetDefaults, ClearGenerated}
    ensures Acceptable(c, a) <==> a == []
    ensures Acceptable(c, a) ==> Normalised(c, a) == []
  {}

  lemma YearExactly(s: string)
    ensures IsYear(s) <==> Year(s)
  {
    if |s| == 4 && AllDigits(s) {
      FourDigits(s);
    }
  }

  lemma OneDigitValue(s: string)
    requires |s| == 1 && AllDigits(s)
    ensures Val(s) == Digit(s[0])
  {
    assert s[..0] == "";
  }

  lemma TwoDigitValue(s: string)
    requires |s| == 2 && AllDigits(s)
    ensures Val(s) == 10 * Digit(s[0]) + Digit(s[1])
  {
    OneDigitValue(s[..1]);
    assert Val(s) == 10 * Val(s[..1]) + Digit(s[1]);
  }

  lemma FourDigits(s: string)
    requires |s| == 4 && AllDigits(s)
    ensures Val(s) == 1000 * Digit(s[0]) + 100 * Digit(s[1]) + 10 * Digit(s[2]) + Digit(s[3])
  {
    TwoDigitValue(s[..2]);
    assert s[..3][..2] == s[..2];
    assert Val(s[..3]) == 10 * Val(s[..2]) + Digit(s[2]);
    assert Val(s) == 10 * Val(s[..3]) + Digit(s[3]);
  }

  lemma MonthExactly(s: string)
    ensures NumberIn(s, 2, 1, 12) <==> Month(s)
  {
    hide Val;
    if |s| == 1 && AllDigits(s) {
      OneDigitValue(s);
      assert s == [s[0]];
    } else if |s| == 2 && AllDigits(s) {
      TwoDigitValue(s);
      assert s == [s[0], s[1]];
    }
  }

  lemma YearOnlyExactly(a: seq<string>)
    ensures Acceptable(GetYearGenerated, a) <==> |a| == 1 && Year(a[0])
    ensures Acceptable(GetYearGenerated, a) ==> Normalised(GetYearGenerated, a) == a
  {
    hide IsYear, Year;
    if |a| == 1 {
      YearExactly(a[0]);
    }
  }

  lemma MonthsExactly(a: seq<string>)
    ensures Acceptable(GetMonthGenerated, a) <==> |a| == 2 && Year(a[0]) && Month(a[1])
    ensures Acceptable(GetMonthGenerated, a) ==> Normalised(GetMonthGenerated, a) == a
  {
    hide IsYear, Year, Month, NumberIn;
    if |a| == 2 {
      YearExactly(a[0]);
      MonthExactly(a[1]);
    }
  }

  lemma DateExactly(y: string, m: string, d: string)
    ensures IsDate(y, m, d) <==> Date(y, m, d)
  {
    hide Val, IsYear, Year, Month;
    YearExactly(y);
    MonthExactly(m);
    if IsDate(y, m, d) || Date(y, m, d) {
      YearValue(y);
      LeapYears(Val(y));
    }
  }

  lemma YearValue(y: string)
    requires Year(y)
    ensures AllDigits(y) && 2000 <= Val(y) <= 2099
  {
    FourDigits(y);
  }

  lemma LeapYears(y: nat)
    requires 2000 <= y <= 2099
    ensures IsLeap(y) <==> y % 4 == 0
  {}

  lemma DaysExactly(a: seq<string>)
    ensures Acceptable(GetDayGenerated, a) <==> |a| == 3 && Date(a[0], a[1], a[2])
    ensures Acceptable(GetDayGenerated, a) ==> Normalised(GetDayGenerated, a) == a
  {
    hide IsDate, Date;
    if |a| == 3 {
      DateExactly(a[0], a[1], a[2]);
    }
  }

  lemma DateTimeExactly(a: seq<string>)
    ensures Acceptable(SetDateTime, a) <==>
            && |a| == 6 && Date(a[0], a[1], a[2])
            && ShortNumber(a[3], 0, 23) && ShortNumber(a[4], 0, 59) && ShortNumber(a[5], 0, 59)
    ensures Acceptable(SetDateTime, a) ==> Normalised(SetDateTime, a) == a
  {
    hide IsDate, Date, Val;
    if |a| == 6 {
      DateExactly(a[0], a[1], a[2]);
    }
  }

  lemma ParallelExactly(c: CommandType, a: seq<string>)
    requires c.GetParallelRatedInformation? || c.GetParallelGeneralStatus?
    ensures Acceptable(c, a) <==> |a| == 1 && |a[0]| == 1 && '0' <= a[0][0] <= '9'
    ensures Acceptable(c, a) ==> Normalised(c, a) == a
  {
    hide Val;
    if |a| == 1 && |a[0]| == 1 && AllDigits(a[0]) {
      OneDigitValue(a[0]);
    }
    assert |a| == 1 && |a[0]| == 1 && '0' <= a[0][0] <= '9' ==> AllDigits(a[0]);
  }

  lemma SwitchesExactly(a: seq<string>)
    ensures Acceptable(SetACSupply, a) <==> a == ["0"] || a == ["1"]
    ensures Acceptable(SetACSupply, a) ==> Normalised(SetACSupply, a) == a
    ensures Acceptable(SetACOutputFreq, a) <==> a == ["50"] || a == ["60"]
    ensures Acceptable(SetACOutputFreq, a) ==> Normalised(SetACOutputFreq, a) == a
  {
    assert |a| == 1 ==> a == [a[0]];
  }

  lemma SerialExactly(a: seq<string>)
    ensures Acceptable(SetSolarConfig, a) <==> |a| == 1 && 1 <= |a[0]| <= 20 && AllDigits(a[0])
    ensures Acceptable(SetSolarConfig, a) ==> Normalised(SetSolarConfig, a) == a
  {}

  // ---- Words ----

  lemma FirstPosition(words: seq<string>, w: string, i: nat)
    requires i < |words| && words[i] == w && forall j :: 0 <= j < i ==> words[j] != w
    ensures w in words && IndexOf(words, w) == i
  {}

  /** Words that are replaced by their numbers: a request is accepted exactly with one of them. */
  ghost predicate Numbered(c: CommandType, words: seq<string>, texts: seq<string>)
    requires |words| == |texts|
  {
    && (forall i :: 0 <= i < |words| ==> Acceptable(c, [words[i]]) && Normalised(c, [words[i]]) == [texts[i]])
    && (forall a: seq<string> {:trigger Acceptable(c, a)} :: Acceptable(c, a) ==> |a| == 1 && a[0] in words)
  }

  lemma SmallTexts()
    ensures ToDec(0) == "0" && ToDec(1) == "1" && ToDec(2) == "2" && ToDec(3) == "3" && ToDec(4) == "4"
  {}

  lemma OutputPriorities()
    ensures Numbered(SetOutputSourcePriority, ["SUB", "SBU"], ["0", "1"])
  {
    hide IndexOf, ToDec;
    SmallTexts();
    FirstPosition(OUTPUT_PRIORITIES, "SUB", 0);
    FirstPosition(OUTPUT_PRIORITIES, "SBU", 1);
  }

  lemma SolarPriorities()
    ensures Numbered(SetSolarPowerPriority, ["BLU", "LBU"], ["0", "1"])
  {
    hide IndexOf, ToDec;
    SmallTexts();
    FirstPosition(SOLAR_PRIORITIES, "BLU", 0);
    FirstPosition(SOLAR_PRIORITIES, "LBU", 1);
  }

  lemma InputRanges()
    ensures Numbered(SetACInputVoltageRange, ["APPLIANCE", "UPS"], ["0", "1"])
  {
    hide IndexOf, ToDec;
    SmallTexts();
    FirstPosition(INPUT_RANGES, "APPLIANCE", 0);
    FirstPosition(INPUT_RANGES, "UPS", 1);
  }

  lemma BatteryTypes()
    ensures Numbered(SetBatteryType, ["AGM", "FLOODED", "USER"], ["0", "1", "2"])
  {
    hide IndexOf, ToDec;
    SmallTexts();
    FirstPosition(BATTERY_TYPES, "AGM", 0);
    FirstPosition(BATTERY_TYPES, "FLOODED", 1);
    FirstPosition(BATTERY_TYPES, "USER", 2);
  }

  /** The nine flags, in the order of their letters. */
  function FlagNames(): seq<string> { ["BUZZ", "OLBP", "LCDE", "OLRS", "OTRS", "BLON", "ALRM", "FTCR", "MTYP"] }

  lemma SameFlags()
    ensures FLAGS == FlagNames() && LETTERS == "ABCDEFGHI"
  {}

  lemma FlagsExactly(a: seq<string>)
    ensures Acceptable(SetFlag, a) <==> |a| == 2 && a[0] in FlagNames() && (a[1] == "0" || a[1] == "1")
  {
    hide FlagNames;
    SameFlags();
  }

  lemma FlagsDiffer(i: nat, j: nat)
    requires j < i < 9
    ensures |FlagNames()| == 9 && FlagNames()[j] != FlagNames()[i]
  {}

  /** BUZZ is A, OLBP is B, and so on to MTYP, which is I; the state stays. */
  lemma FlagLetters(i: nat, state: string)
    requires i < 9 && (state == "0" || state == "1")
    ensures |FlagNames()| == 9 && Acceptable(SetFlag, [FlagNames()[i], state])
    ensures Normalised(SetFlag, [FlagNames()[i], state]) == [["ABCDEFGHI"[i]], state]
  {
    hide IndexOf, FlagNames;
    SameFlags();
    forall j | 0 <= j < i
      ensures FlagNames()[j] != FlagNames()[i]
    {
      FlagsDiffer(i, j);
    }
    FirstPosition(FlagNames(), FlagNames()[i], i);
    FlagsExactly([FlagNames()[i], state]);
  }

  // ---- Numbers that are cut ----

  lemma WordRead(s: string)
    ensures Stoul(s).Some? <==>
            ParseInt(s).Some? && -18446744073709551616 < ParseInt(s).value < 18446744073709551616
    ensures Stoul(s).Some? ==>
              && AsUnsigned(Stoul(s).value) == ParseInt(s).value % 4294967296
              && AsShort(Stoul(s).value) == ParseInt(s).value % 65536
  {
    hide ParseInt;
    Parsing.StoulExactly(s);
    if Stoul(s).Some? {
      Parsing.CutExactly(s);
    }
  }

  lemma AmpsExactly(c: CommandType, a: seq<string>)
    requires c.SetBatteryMaxChargeCurrent? || c.SetBatteryMaxACChargeCurrent?
    ensures Acceptable(c, a) <==> |a| == 2 && WordUpTo(a[0], 6) && WordUpTo(a[1], 999)
    ensures Acceptable(c, a) ==> Normalised(c, a) == a
  {
    hide Stoul, ParseInt;
    if |a| == 2 {
      WordRead(a[0]);
      WordRead(a[1]);
    }
  }

  lemma OutputVoltagesExactly(a: seq<string>)
    ensures Acceptable(SetACOutputVoltage, a) <==> |a| == 1 && WordIn(a[0], [202, 208, 220, 230, 240])
    ensures Acceptable(SetACOutputVoltage, a) ==> Normalised(SetACOutputVoltage, a) == a
  {
    hide Stoul, ParseInt;
    if |a| == 1 {
      WordRead(a[0]);
    }
  }

  lemma ChargePrioritiesExactly(a: seq<string>)
    ensures Acceptable(SetChargeSourcePriority, a) <==>
            |a| == 2 && WordUpTo(a[0], 6) && a[1] in ["SF", "SU", "S"]
    ensures Acceptable(SetChargeSourcePriority, a) ==>
              Normalised(SetChargeSourcePriority, a) ==
              [a[0], if a[1] == "SF" then "0" else if a[1] == "SU" then "1" else "2"]
  {
    hide Stoul, ParseInt, IndexOf, ToDec;
    SmallTexts();
    FirstPosition(CHARGE_PRIORITIES, "SF", 0);
    FirstPosition(CHARGE_PRIORITIES, "SU", 1);
    FirstPosition(CHARGE_PRIORITIES, "S", 2);
    if |a| == 2 {
      WordRead(a[0]);
    }
  }

  lemma OutputModesExactly(a: seq<string>)
    ensures Acceptable(SetOutputMode, a) <==> |a| == 2 && WordUpTo(a[0], 6) && a[1] in ["S", "P", "1", "2", "3"]
    ensures Acceptable(SetOutputMode, a) ==>
              Normalised(SetOutputMode, a) ==
              [a[0], if a[1] == "S" then "0" else if a[1] == "P" then "1" else if a[1] == "1" then "2"
                     else if a[1] == "2" then "3" else "4"]
  {
    hide Stoul, ParseInt, IndexOf, ToDec;
    SmallTexts();
    FirstPosition(OUTPUT_MODES, "S", 0);
    FirstPosition(OUTPUT_MODES, "P", 1);
    FirstPosition(OUTPUT_MODES, "1", 2);
    FirstPosition(OUTPUT_MODES, "2", 3);
    FirstPosition(OUTPUT_MODES, "3", 4);
    if |a| == 2 {
      WordRead(a[0]);
    }
  }

  // ---- Voltages ----

  /** A voltage that is read within real limits. */
  predicate VoltsBetween(s: string, lo: real, below: real) { Stod(s).Some? && lo <= Stod(s).value < below }

  /** The floats next to the limits, in steps of 2^-18. */
  lemma NearLimits(v: real)
    ensures 48.0 <= Float(v) <= DOUBLE_58_4 <==> 47.9999980926513671875 <= v < 58.3999996185302734375
    ensures 40.0 <= Float(v) <= 48.0 <==> 39.9999980926513671875 <= v <= 48.0000019073486328125
  {
    if v < 39.0 || v > 59.0 {
      Text.FloatClose(v);
    }
  }

  /** Both charging voltages from 48 up to the float below 58.4, with half a rounding step on each side. */
  lemma ChargeVoltagesAccepted(a: seq<string>)
    ensures Acceptable(SetBatteryMaxChargeVoltage, a) <==>
            && |a| == 2 && VoltsBetween(a[0], 47.9999980926513671875, 58.3999996185302734375)
            && VoltsBetween(a[1], 47.9999980926513671875, 58.3999996185302734375)
    ensures Acceptable(SetBatteryMaxChargeVoltage, a) ==> Normalised(SetBatteryMaxChargeVoltage, a) == a
  {
    hide Stod, Float;
    if |a| == 2 {
      if Stod(a[0]).Some? {
        NearLimits(Stod(a[0]).value);
      }
      if Stod(a[1]).Some? {
        NearLimits(Stod(a[1]).value);
      }
    }
  }

  /** In whole tenths: from 48.0 to 58.3. */
  lemma ChargeTenthsAccepted(x: string, y: string, s: int, t: int)
    requires Voltages.IsTenths(x, s) && Voltages.IsTenths(y, t)
    ensures Acceptable(SetBatteryMaxChargeVoltage, [x, y]) <==> 480 <= s <= 583 && 480 <= t <= 583
  {
    hide Stod;
    ChargeVoltagesAccepted([x, y]);
  }

  lemma CutOffVoltagesAccepted(a: seq<string>)
    ensures Acceptable(SetBatteryCutOffVoltage, a) <==>
            |a| == 1 && Stod(a[0]).Some? && 39.9999980926513671875 <= Stod(a[0]).value <= 48.0000019073486328125
    ensures Acceptable(SetBatteryCutOffVoltage, a) ==> Normalised(SetBatteryCutOffVoltage, a) == a
  {
    hide Stod, Float;
    if |a| == 1 && Stod(a[0]).Some? {
      NearLimits(Stod(a[0]).value);
    }
  }

  lemma CutOffTenthsAccepted(x: string, t: int)
    requires Voltages.IsTenths(x, t)
    ensures Acceptable(SetBatteryCutOffVoltage, [x]) <==> 400 <= t <= 480
  {
    hide Stod;
    CutOffVoltagesAccepted([x]);
  }

  /** The voltage, rounded to a float, is that of some tenths in the list. */
  predicate FloatAmong(s: string, tenths: seq<nat>) {
    Stod(s).Some? && exists i :: 0 <= i < |tenths| && Float(Stod(s).value) == Float(tenths[i] as real / 10.0)
  }

  /** The re-charge voltages for batteries of 12, 24 and 48 V. */
  function RechargeTenths(): seq<nat> {
    [110, 113, 115, 118, 120, 123, 125, 128,
     220, 225, 230, 235, 240, 245, 250, 255,
     440, 450, 460, 470, 480, 490, 500, 510]
  }

  /** The re-discharge voltages; 0 stands for a full battery. */
  function RedischargeTenths(): seq<nat> {
    [0, 120, 123, 125, 128, 130, 133, 135, 138, 140, 143, 145,
     0, 240, 245, 250, 255, 260, 265, 270, 275, 280, 285, 290,
     0, 480, 490, 500, 510, 520, 530, 540, 550, 560, 570, 580]
  }

  /** The first threshold is a re-charge voltage, the second one a re-discharge voltage. */
  lemma ThresholdsAccepted(a: seq<string>)
    ensures Acceptable(SetBatteryChargeThresholds, a) <==>
            |a| == 2 && FloatAmong(a[0], RechargeTenths()) && FloatAmong(a[1], RedischargeTenths())
    ensures Acceptable(SetBatteryChargeThresholds, a) ==> Normalised(SetBatteryChargeThresholds, a) == a
  {
    hide Stod, Float;
    SameTables();
  }

  lemma SameTables()
    ensures RECHARGE_VOLTAGES == RechargeTenths() && REDISCHARGE_VOLTAGES == RedischargeTenths()
  {
    SameRecharge();
    SameRedischarge();
  }

  lemma SameRecharge()
    ensures RECHARGE_VOLTAGES == RechargeTenths()
  {}

  lemma SameRedischarge()
    ensures REDISCHARGE_VOLTAGES == RedischargeTenths()
  {}

  lemma ThresholdTenthsAccepted(x: string, y: string, s: int, t: int)
    requires Voltages.IsTenths(x, s) && Voltages.IsTenths(y, t)
    ensures Acceptable(SetBatteryChargeThresholds, [x, y]) <==> s in RechargeTenths() && t in RedischargeTenths()
  {
    hide Stod, Float, RechargeTenths, RedischargeTenths, VoltsOneOf, Voltages.IsTenths;
    SameTables();
    Voltages.ThresholdsExactly(x, s, RECHARGE_VOLTAGES);
    Voltages.ThresholdsExactly(y, t, REDISCHARGE_VOLTAGES);
  }

  // ---- Time buckets ----

  lemma ClockFound(s: string) returns (h: string, m: string)
    requires IsClock(s)
    ensures TimeOfDay(s, h, m)
    ensures ClockFields(s) == [ToDec(ParseInt(h).value % 65536), ToDec(ParseInt(m).value % 65536)]
  {
    hide Stoul, ParseInt, Split, ToDec, Join;
    var parts := Split(s, ':');
    h, m := parts[0], parts[1];
    JoinSplit(s, ':');
    assert parts == [h] + [m];
    JoinCons(h, [m], ':');
    LastJoin([m], ':');
    WordRead(h);
    WordRead(m);
  }

  lemma ClockMade(s: string, h: string, m: string)
    requires TimeOfDay(s, h, m)
    ensures IsClock(s)
    ensures ClockFields(s) == [ToDec(ParseInt(h).value % 65536), ToDec(ParseInt(m).value % 65536)]
  {
    hide Stoul, ParseInt, Split, ToDec, Join;
    var parts := [h, m];
    assert parts == [h] + [m];
    JoinCons(h, [m], ':');
    LastJoin([m], ':');
    SplitJoin(parts, ':');
    WordRead(h);
    WordRead(m);
  }

  ghost predicate IsTimeOfDay(s: string) { exists h, m :: TimeOfDay(s, h, m) }

  lemma ClocksAreTimes(s: string)
    ensures IsClock(s) <==> IsTimeOfDay(s)
  {
    hide IsClock, TimeOfDay;
    if IsClock(s) {
      var h, m := ClockFound(s);
    }
    if IsTimeOfDay(s) {
      var h, m :| TimeOfDay(s, h, m);
      ClockMade(s, h, m);
    }
  }

  /** A time bucket takes exactly two times of day. */
  lemma BucketsExactly(c: CommandType, a: seq<string>)
    requires c.SetACChargeTimeBucket? || c.SetACSupplyTimeBucket?
    ensures Acceptable(c, a) <==> |a| == 2 && IsTimeOfDay(a[0]) && IsTimeOfDay(a[1])
  {
    hide IsClock, IsTimeOfDay;
    if |a| == 2 {
      ClocksAreTimes(a[0]);
      ClocksAreTimes(a[1]);
    }
  }

  /** And makes of them the four numbers, cut to 16 bits and without leading zeros. */
  lemma BucketNumbers(c: CommandType, x: string, y: string, h: string, m: string, i: string, n: string)
    requires c.SetACChargeTimeBucket? || c.SetACSupplyTimeBucket?
    requires TimeOfDay(x, h, m) && TimeOfDay(y, i, n)
    ensures Acceptable(c, [x, y])
    ensures Normalised(c, [x, y]) ==
            [ToDec(ParseInt(h).value % 65536), ToDec(ParseInt(m).value % 65536),
             ToDec(ParseInt(i).value % 65536), ToDec(ParseInt(n).value % 65536)]
  {
    hide IsClock, ClockFields, ParseInt, ToDec;
    ClockMade(x, h, m);
    ClockMade(y, i, n);
  }
}
