/** `validate_input` as the code runs it, against the acceptance predicates (src/p18/commands.cc:64-132,
    155-455; src/util.cc:18-36). */
module Validator {
  import opened Types
  import opened Text
  import opened Splitting
  import opened Commands

  /** `is_date_valid` */
  predicate IsDateValid(y: int, m: int, d: int) {
    if y < 2000 || y > 2099 then false
    else if d < 1 || d > 31 then false
    else if m < 1 || m > 12 then false
    else if (m == 4 || m == 6 || m == 9 || m == 11) && d == 31 then false
    else m != 2 || (y % 4 != 0 && d <= 28) || (y % 4 == 0 && d <= 29)
  }

  /** Within its century the simple leap rule is the Gregorian one. */
  lemma DateValidIsGregorian(y: nat, m: nat, d: nat)
    ensures IsDateValid(y, m, d) <==> 2000 <= y <= 2099 && 1 <= m <= 12 && 1 <= d <= DaysIn(y, m)
  {
    if 2000 <= y <= 2099 && y % 100 == 0 {
      assert y == 2000;
    }
  }

  method GetArgs(argv: seq<string>, count: nat) returns (arguments: Option<seq<string>>)
    ensures arguments == if |argv| < count then None else Some(argv[..count])
  {
    if |argv| < count {
      return None;
    }
    var list := [];
    for i := 0 to count
      invariant list == argv[..i]
    {
      list := list + [argv[i]];
    }
    arguments := Some(list);
  }

  /** `index_of`: the first position, or -1. */
  method FindIndex<T(==)>(haystack: seq<T>, needle: T) returns (index: int)
    ensures index == if needle in haystack then IndexOf(haystack, needle) else -1
  {
    for i := 0 to |haystack|
      invariant needle !in haystack[..i]
    {
      if haystack[i] == needle {
        IndexOfUnique(haystack, needle, i);
        return i;
      }
    }
    assert haystack[..|haystack|] == haystack;
    return -1;
  }

  lemma IndexOfUnique<T>(haystack: seq<T>, needle: T, i: nat)
    requires i < |haystack| && haystack[i] == needle && needle !in haystack[..i]
    ensures IndexOf(haystack, needle) == i
  {}

  method FindVoltage(table: seq<nat>, v: real) returns (found: bool)
    ensures found <==> exists i :: 0 <= i < |table| && v == Float(table[i] as real / 10.0)
  {
    hide Float;
    for i := 0 to |table|
      invariant forall j :: 0 <= j < i ==> v != Float(table[j] as real / 10.0)
    {
      if v == Float(table[i] as real / 10.0) {
        return true;
      }
    }
    return false;
  }

  lemma ShortNumber(s: string)
    requires IsNumeric(s) && |s| <= 4
    ensures Stoi(s) == Some(Val(s)) && Stoul(s) == Some(Val(s)) && AsUnsigned(Val(s)) == Val(s)
  {
    hide Val, Stoi, Stoul, Pow10;
    ValBound(s);
    SmallPowers(|s|);
    ParseDigits(s);
  }

  method ValidateDateArgs(ys: string, ms: Option<string>, ds: Option<string>) returns (ok: bool)
    requires ds.Some? ==> ms.Some?
    ensures ok <==> && IsYear(ys)
                    && (ms.Some? ==> NumberIn(ms.value, 2, 1, 12))
                    && (ds.Some? ==> IsDate(ys, ms.value, ds.value))
  {
    var m, d := 0, 0;
    var numeric := CheckNumeric(ys);
    if !numeric || |ys| != 4 {
      return false;
    }
    ShortNumber(ys);
    var y := Stoi(ys).value;
    if y < 2000 || y > 2099 {
      return false;
    }
    if ms.Some? {
      numeric := CheckNumeric(ms.value);
      if !numeric || |ms.value| > 2 {
        return false;
      }
      ShortNumber(ms.value);
      m := Stoi(ms.value).value;
      if m < 1 || m > 12 {
        return false;
      }
    }
    if ds.Some? {
      numeric := CheckNumeric(ds.value);
      if !numeric || |ds.value| > 2 {
        return false;
      }
      ShortNumber(ds.value);
      d := Stoi(ds.value).value;
      if d < 1 || d > 31 {
        return false;
      }
    }
    DateValidIsGregorian(y, m, d);
    if y != 0 && m != 0 && d != 0 && !IsDateValid(y, m, d) {
      return false;
    }
    return true;
  }

  method ValidateField(s: string, max: nat) returns (ok: bool)
    ensures ok <==> NumberIn(s, 2, 0, max)
  {
    var numeric := CheckNumeric(s);
    if !numeric || |s| > 2 {
      return false;
    }
    ShortNumber(s);
    var n := AsUnsigned(Stoul(s).value);
    return n <= max;
  }

  method ValidateTimeArgs(hs: string, ms: string, ss: string) returns (ok: bool)
    ensures ok <==> IsTime(hs, ms, ss)
  {
    var h := ValidateField(hs, 23);
    if !h {
      return false;
    }
    var m := ValidateField(ms, 59);
    if !m {
      return false;
    }
    ok := ValidateField(ss, 59);
  }

  /** One clock argument of a time bucket: its two fields, or nothing. */
  method ValidateClock(s: string) returns (fields: Option<seq<string>>)
    ensures fields == if IsClock(s) then Some(ClockFields(s)) else None
  {
    var parts := SplitLoop(s, ':');
    if |parts| != 2 || Stoul(parts[0]).None? || Stoul(parts[1]).None? {
      return None;
    }
    var hour, minute := AsShort(Stoul(parts[0]).value), AsShort(Stoul(parts[1]).value);
    if hour > 23 || minute > 59 {
      return None;
    }
    return Some([ToDec(hour), ToDec(minute)]);
  }

  /** The position of an argument in the list of allowed words, as text. */
  method ToIndex(allowed: seq<string>, argument: string) returns (r: Option<string>)
    ensures r == if argument in allowed then Some(ToDec(IndexOf(allowed, argument))) else None
  {
    var index := FindIndex(allowed, argument);
    if index == -1 {
      return None;
    }
    return Some(ToDec(index));
  }

  method ValidateId(s: string) returns (ok: bool)
    ensures ok <==> IsParallelId(s)
  {
    var id := Stoul(s);
    return id.Some? && AsUnsigned(id.value) <= 6;
  }

  /** The cases of the switch with one argument. */
  method JudgeOne(c: CommandType, x: string) returns (r: Option<string>)
    ensures r == if Acceptable1(c, x) then Some(Normalised1(c, x)) else None
  {
    hide IndexOf, ToDec, Stoul, Stod, Float, Val;
    var ok := true;
    match c {
      case GetYearGenerated =>
        ok := ValidateDateArgs(x, None, None);
      case GetParallelRatedInformation | GetParallelGeneralStatus =>
        var numeric := CheckNumeric(x);
        ok := numeric && |x| <= 1;
        if ok {
          ValBound(x);
          assert Pow10(1) == 10;
        }
      case SetACSupply =>
        ok := x == "0" || x == "1";
      case SetACOutputFreq =>
        ok := x == "50" || x == "60";
      case SetACOutputVoltage =>
        var v := Stoul(x);
        if v.None? {
          return None;
        }
        var index := FindIndex(AC_OUTPUT_VOLTAGES, AsUnsigned(v.value));
        ok := index != -1;
      case SetOutputSourcePriority =>
        r := ToIndex(OUTPUT_PRIORITIES, x);
        return;
      case SetSolarPowerPriority =>
        r := ToIndex(SOLAR_PRIORITIES, x);
        return;
      case SetACInputVoltageRange =>
        r := ToIndex(INPUT_RANGES, x);
        return;
      case SetBatteryType =>
        r := ToIndex(BATTERY_TYPES, x);
        return;
      case SetBatteryCutOffVoltage =>
        var v := Stod(x);
        ok := v.Some? && !(Float(v.value) < 40.0 || Float(v.value) > 48.0);
      case SetSolarConfig =>
        var numeric := CheckNumeric(x);
        ok := numeric && |x| <= 20;
      case _ =>
    }
    return if ok then Some(x) else None;
  }

  method ValidateThresholds(x: string, y: string) returns (ok: bool)
    ensures ok <==> VoltsOneOf(x, RECHARGE_VOLTAGES) && VoltsOneOf(y, REDISCHARGE_VOLTAGES)
  {
    hide Float, Stod;
    var cv, dv := Stod(x), Stod(y);
    if cv.None? || dv.None? {
      return false;
    }
    var recharge := FindVoltage(RECHARGE_VOLTAGES, Float(cv.value));
    if !recharge {
      return false;
    }
    ok := FindVoltage(REDISCHARGE_VOLTAGES, Float(dv.value));
  }

  /** The cases of the switch with two arguments. */
  method JudgeTwo(c: CommandType, x: string, y: string) returns (r: Option<seq<string>>)
    ensures r == if Acceptable2(c, x, y) then Some(Normalised2(c, x, y)) else None
  {
    hide IndexOf, ToDec, Stoul, Stod, Float, VoltsOneOf, IsParallelId, IsClock, ClockFields;
    var ok := true;
    match c {
      case GetMonthGenerated =>
        ok := ValidateDateArgs(x, Some(y), None);
      case SetFlag =>
        var index := FindIndex(FLAGS, x);
        if index == -1 || (y != "0" && y != "1") {
          return None;
        }
        return Some([[LETTERS[index]], y]);
      case SetBatteryMaxChargeCurrent | SetBatteryMaxACChargeCurrent =>
        var id := ValidateId(x);
        var amps := Stoul(y);
        ok := id && amps.Some? && AsUnsigned(amps.value) <= 999;
      case SetBatteryMaxChargeVoltage =>
        var cv, fv := Stod(x), Stod(y);
        ok := cv.Some? && fv.Some? &&
              !(Float(cv.value) < 48.0 || Float(cv.value) > DOUBLE_58_4) &&
              !(Float(fv.value) < 48.0 || Float(fv.value) > DOUBLE_58_4);
      case SetBatteryChargeThresholds =>
        ok := ValidateThresholds(x, y);
      case SetChargeSourcePriority =>
        var id := ValidateId(x);
        var index := ToIndex(CHARGE_PRIORITIES, y);
        return if id && index.Some? then Some([x, index.value]) else None;
      case SetOutputMode =>
        var id := ValidateId(x);
        var index := ToIndex(OUTPUT_MODES, y);
        return if id && index.Some? then Some([x, index.value]) else None;
      case SetACChargeTimeBucket | SetACSupplyTimeBucket =>
        var start := ValidateClock(x);
        var end := ValidateClock(y);
        return if start.Some? && end.Some? then Some(start.value + end.value) else None;
      case _ =>
    }
    return if ok then Some([x, y]) else None;
  }

  /** The switch of `validate_input`, for the command already looked up. */
  method ValidateInput(c: CommandType, argv: seq<string>) returns (r: Result)
    ensures r == if |argv| >= ArgumentCount(c) && Acceptable(c, argv[..ArgumentCount(c)])
                 then Ok(Normalised(c, argv[..ArgumentCount(c)])) else InvalidArgument
  {
    hide Acceptable1, Acceptable2, Normalised1, Normalised2;
    var taken := GetArgs(argv, ArgumentCount(c));
    if taken.None? {
      return InvalidArgument;
    }
    var arguments := taken.value;
    if |arguments| == 1 {
      var x := JudgeOne(c, arguments[0]);
      return if x.Some? then Ok([x.value]) else InvalidArgument;
    }
    if |arguments| == 2 {
      var xy := JudgeTwo(c, arguments[0], arguments[1]);
      return if xy.Some? then Ok(xy.value) else InvalidArgument;
    }
    var ok := true;
    if |arguments| == 3 || |arguments| == 6 {
      ok := ValidateDateArgs(arguments[0], Some(arguments[1]), Some(arguments[2]));
    }
    if ok && |arguments| == 6 {
      ok := ValidateTimeArgs(arguments[3], arguments[4], arguments[5]);
    }
    return if ok then Ok(arguments) else InvalidArgument;
  }
}
