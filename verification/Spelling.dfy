/** The payload of every command, character by character, from the values it carries (src/p18/client.cc:125-227).
    The layouts are written out here on their own; that the encoder keeps to them is what is proved. */
module Spelling {
  import opened Types
  import opened Text
  import opened Splitting
  import opened Commands
  import opened Validator
  import opened Encoder
  import opened Decoder
  import Unpackers

  /** Text as it stands, or a number in so many digits. */
  datatype Piece = Lit(text: string) | Num(width: nat, value: nat)

  /** The last `width` decimal digits of a number. */
  function Digits(width: nat, n: nat): (s: string)
    ensures |s| == width && AllDigits(s)
    decreases width
  {
    if width == 0 then "" else Digits(width - 1, n / 10) + [DigitChar(n % 10)]
  }

  function Written(pieces: seq<Piece>): string {
    if pieces == [] then ""
    else (match pieces[0] case Lit(text) => text case Num(width, n) => Digits(width, n)) + Written(pieces[1..])
  }

  function Number(r: Request, i: nat): nat { if i < |r.numbers| && r.numbers[i] >= 0 then r.numbers[i] else 0 }

  const LETTER_PIECES: seq<Piece> :=
    [Lit("A"), Lit("B"), Lit("C"), Lit("D"), Lit("E"), Lit("F"), Lit("G"), Lit("H"), Lit("I")]

  /** The layout of a payload: `id` is the id as the user spelt it. */
  function Layout(r: Request, id: string): seq<Piece> {
    var a, b, c := Number(r, 0), Number(r, 1), Number(r, 2);
    var d, e, f := Number(r, 3), Number(r, 4), Number(r, 5);
    match r.command
    case GetYearGenerated => [Num(4, a)]
    case GetMonthGenerated => [Num(4, a), Num(2, b)]
    case GetDayGenerated => [Num(4, a), Num(2, b), Num(2, c)]
    case GetParallelRatedInformation | GetParallelGeneralStatus => [Num(1, a)]
    case SetACSupply | SetOutputSourcePriority | SetSolarPowerPriority | SetACInputVoltageRange | SetBatteryType =>
      [Num(1, a)]
    case SetFlag => [Lit(if b == 1 then "E" else "D"), if a < 9 then LETTER_PIECES[a] else Lit("")]
    case SetBatteryMaxChargeCurrent | SetBatteryMaxACChargeCurrent => [Lit(id), Lit(","), Num(3, b)]
    case SetACOutputFreq => [Num(2, a)]
    case SetBatteryMaxChargeVoltage | SetBatteryChargeThresholds => [Num(3, a), Lit(","), Num(3, b)]
    case SetACOutputVoltage => [Num(3, a), Lit("0")]
    case SetChargeSourcePriority | SetOutputMode => [Lit(id), Lit(","), Num(1, b)]
    case SetBatteryCutOffVoltage => [Num(3, a)]
    case SetSolarConfig =>
      [Num(2, |r.serial|), Lit(r.serial), Num(if |r.serial| < 20 then 20 - |r.serial| else 0, 0)]
    case SetDateTime =>
      [Num(2, if a < 2000 then 0 else a - 2000), Num(2, b), Num(2, c), Num(2, d), Num(2, e), Num(2, f)]
    case SetACChargeTimeBucket | SetACSupplyTimeBucket => [Num(2, a), Num(2, b), Lit(","), Num(2, c), Num(2, d)]
    case _ => []
  }

  // ---- Digits ----

  lemma {:induction false} DigitsDetermined(s: string, t: string)
    requires AllDigits(s) && AllDigits(t) && |s| == |t| && Val(s) == Val(t)
    ensures s == t
  {
    if s != "" {
      var n := |s| - 1;
      LastDigit(s);
      LastDigit(t);
      DigitsDetermined(s[..n], t[..n]);
      assert s == s[..n] + [s[n]] && t == t[..n] + [t[n]];
    }
  }

  lemma LastDigit(s: string)
    requires AllDigits(s) && s != ""
    ensures Val(s) % 10 == Digit(s[|s| - 1]) && Val(s) / 10 == Val(s[..|s| - 1])
  {
    var v, d := Val(s[..|s| - 1]), Digit(s[|s| - 1]);
    assert Val(s) == 10 * v + d;
    hide Val;
    TenfoldPlus(v, d);
  }

  lemma TenfoldPlus(v: nat, d: nat)
    requires d < 10
    ensures (10 * v + d) % 10 == d && (10 * v + d) / 10 == v
  {}

  lemma {:induction false} DigitsValue(width: nat, n: nat)
    requires n < Pow10(width)
    ensures Val(Digits(width, n)) == n
    decreases width
  {
    if width > 0 {
      DigitsValue(width - 1, n / 10);
      assert Digits(width, n)[..width - 1] == Digits(width - 1, n / 10);
    }
  }

  /** A number text of the right length is the digits of its value. */
  lemma IsDigits(s: string, width: nat, n: nat)
    requires AllDigits(s) && |s| == width && Val(s) == n
    ensures s == Digits(width, n)
  {
    hide Digits, Val;
    ValBound(s);
    DigitsValue(width, n);
    DigitsDetermined(s, Digits(width, n));
  }

  lemma PaddedIsDigits(width: nat, n: nat)
    requires width > 0 && n < Pow10(width)
    ensures Padded(width, n) == Digits(width, n)
  {
    hide Digits, Val, Padded;
    PaddedNumber(width, n);
    IsDigits(Padded(width, n), width, n);
  }

  lemma PackedDigits(width: nat, s: string, offset: int)
    requires width > 0 && IsNumeric(s) && |s| <= 4 && 0 <= Val(s) + offset < Pow10(width)
    ensures PackInt(width, s, offset) == Some(Digits(width, Val(s) + offset))
  {
    hide PackInt, Val, Digits;
    PackedNumber(width, s, offset);
    IsDigits(PackInt(width, s, offset).value, width, Val(s) + offset);
  }

  lemma {:induction false} ZerosAreDigits(width: nat)
    ensures Fill(width) == Digits(width, 0)
  {
    if width > 0 {
      ZerosAreDigits(width - 1);
      assert Fill(width) == Fill(width - 1) + ['0'];
    }
  }

  // ---- Written layouts ----

  function PieceText(piece: Piece): string {
    match piece case Lit(text) => text case Num(width, n) => Digits(width, n)
  }

  lemma WrittenCons(piece: Piece, rest: seq<Piece>)
    ensures Written([piece] + rest) == PieceText(piece) + Written(rest)
  {
    assert ([piece] + rest)[1..] == rest;
  }

  lemma One(a: Piece)
    ensures Written([a]) == PieceText(a)
  {
    assert [a] + [] == [a];
    WrittenCons(a, []);
    assert PieceText(a) + "" == PieceText(a);
  }

  lemma Two(a: Piece, b: Piece)
    ensures Written([a, b]) == PieceText(a) + PieceText(b)
  {
    assert [a] + [b] == [a, b];
    WrittenCons(a, [b]);
    One(b);
  }

  lemma Three(a: Piece, b: Piece, c: Piece)
    ensures Written([a, b, c]) == PieceText(a) + PieceText(b) + PieceText(c)
  {
    assert [a] + [b, c] == [a, b, c];
    WrittenCons(a, [b, c]);
    Two(b, c);
    assert PieceText(a) + (PieceText(b) + PieceText(c)) == PieceText(a) + PieceText(b) + PieceText(c);
  }

  /** A run of two-digit fields without commas. */
  function Fields(a: seq<string>, lo: nat, hi: nat, base: int): (pieces: seq<Piece>)
    requires lo <= hi <= |a|
    ensures |pieces| == hi - lo
    decreases hi - lo
  {
    if lo == hi then []
    else
      var v := FieldValue(a, lo, base);
      [Num(2, if v < 0 then 0 else v)] + Fields(a, lo + 1, hi, base)
  }

  lemma {:induction false} IntsAreWritten(a: seq<string>, lo: nat, hi: nat, base: int)
    requires lo <= hi <= |a| && forall i :: lo <= i < hi ==> TwoDigits(a, i, base)
    ensures Ints(a, lo, hi, NO_COMMA, base) == Some(Written(Fields(a, lo, hi, base)))
    decreases hi - lo
  {
    hide PackInt, Digits, Val;
    if lo < hi {
      assert TwoDigits(a, lo, base) && Pow10(1) == 10 && Pow10(2) == 100;
      IntsAreWritten(a, lo + 1, hi, base);
      PackedDigits(2, a[lo], if lo == 0 then -base else 0);
      var v := FieldValue(a, lo, base);
      WrittenCons(Num(2, v), Fields(a, lo + 1, hi, base));
      assert Digits(2, v) + "" == Digits(2, v);
    }
  }

  // ---- Command by command ----

  /** The payload is spelt as the layout says. */
  predicate Spelt(c: CommandType, a: seq<string>, p: string) { p == Written(Layout(Meaning(c, a), IdText(c, a))) }

  lemma NumIsVal(s: string)
    requires AllDigits(s)
    ensures Decoder.Num(s) == Val(s)
  {}

  lemma DigitsCommand(c: CommandType, x: string, p: string, width: nat, n: nat)
    requires c in {GetYearGenerated, SetACSupply, GetParallelRatedInformation, GetParallelGeneralStatus,
                   SetACOutputFreq, SetOutputSourcePriority, SetSolarPowerPriority, SetACInputVoltageRange,
                   SetBatteryType, SetBatteryCutOffVoltage}
    requires Layout(Request(c, [n], ""), "") == [Num(width, n)]
    requires Meaning1(c, x) == n && AllDigits(p) && |p| == width && Val(p) == n
    ensures Spelt(c, [x], p)
  {
    hide Val, Digits, Meaning1;
    IsDigits(p, width, n);
    One(Num(width, n));
  }

  lemma IndexCommand(c: CommandType, x: string, allowed: seq<string>)
    requires c in {SetOutputSourcePriority, SetSolarPowerPriority, SetACInputVoltageRange, SetBatteryType}
    requires x in allowed && |allowed| <= 10 && Meaning1(c, x) == IndexOf(allowed, x)
    ensures Spelt(c, [x], ToDec(IndexOf(allowed, x)))
  {
    hide Val, ToDec, IndexOf, Meaning1, Spelt;
    var i := IndexOf(allowed, x);
    DecodedIndex(i);
    ValOfDec(i);
    DigitsCommand(c, x, ToDec(i), 1, i);
  }

  lemma OutputVoltageSpelt(x: string)
    requires IsOutputVoltage(x) && Stoi(x).Some?
    ensures Spelt(SetACOutputVoltage, [x], Padded(4, Stoi(x).value * 10))
  {
    hide Stoul, Stoi, Padded, Digits;
    var n := Id(x);
    SameReading(x);
    assert Pow10(1) == 10 && Pow10(2) == 100 && Pow10(3) == 1000 && Pow10(4) == 10000;
    PaddedIsDigits(4, n * 10);
    TenTimes(n);
    Two(Num(3, n), Lit("0"));
  }

  lemma TenTimes(n: nat)
    ensures Digits(4, n * 10) == Digits(3, n) + "0"
  {
    assert (n * 10) / 10 == n && (n * 10) % 10 == 0;
  }

  lemma SolarSpelt(x: string)
    requires IsNumeric(x) && |x| <= 20
    ensures Spelt(SetSolarConfig, [x], PackSolar(x))
  {
    hide Padded, Digits;
    assert Pow10(1) == 10 && Pow10(2) == 100;
    PaddedIsDigits(2, |x|);
    ZerosAreDigits(20 - |x|);
    Three(Num(2, |x|), Lit(x), Num(20 - |x|, 0));
    assert PackSolar(x) == Padded(2, |x|) + x + Fill(20 - |x|);
  }

  lemma VoltsDigits(s: string)
    requires VoltsIn(s, 0.0, 99.0)
    ensures 0 <= Volts(s) && PackTenths(s) == Some(Digits(3, Volts(s)))
  {
    hide PackTenths, Val, Digits, Volts, VoltsIn;
    VoltsDecode(s);
    var p := PackTenths(s).value;
    NumIsVal(p);
    IsDigits(p, 3, Val(p));
  }

  lemma OneSpelt(c: CommandType, x: string, p: string)
    requires ArgumentCount(c) == 1 && Acceptable1(c, x)
    requires Packed1(c, Normalised1(c, x)) == Some(p)
    ensures Spelt(c, [x], p)
  {
    hide Val, Stoul, Stoi, Stod, Float, Padded, PackSolar, Tenths, ToDec, Pow10, IndexOf, Spelt, Digits;
    match c
    case SetSolarConfig => SolarSpelt(x);
    case SetACOutputVoltage => OutputVoltageSpelt(x);
    case SetBatteryCutOffVoltage =>
      VoltsDecode(x);
      NumIsVal(p);
      DigitsCommand(c, x, p, 3, Val(p));
    case SetOutputSourcePriority => IndexCommand(c, x, OUTPUT_PRIORITIES);
    case SetSolarPowerPriority => IndexCommand(c, x, SOLAR_PRIORITIES);
    case SetACInputVoltageRange => IndexCommand(c, x, INPUT_RANGES);
    case SetBatteryType => IndexCommand(c, x, BATTERY_TYPES);
    case SetACOutputFreq => FrequencySpelt(x);
    case GetParallelRatedInformation | GetParallelGeneralStatus => ParallelSpelt(c, x);
    case GetYearGenerated => DigitsCommand(c, x, x, 4, Val(x));
    case SetACSupply => DigitsCommand(c, x, x, 1, Val(x));
  }

  lemma FrequencySpelt(x: string)
    requires x in FREQUENCIES
    ensures PackInt(2, x, 0).Some? && Spelt(SetACOutputFreq, [x], PackInt(2, x, 0).value)
  {
    hide PackInt, Val, Spelt;
    assert IsNumeric(x) && |x| == 2;
    ValBound(x);
    assert Pow10(1) == 10 && Pow10(2) == 100;
    PackedNumber(2, x, 0);
    NumIsVal(x);
    DigitsCommand(SetACOutputFreq, x, PackInt(2, x, 0).value, 2, Val(x));
  }

  lemma ParallelSpelt(c: CommandType, x: string)
    requires c.GetParallelRatedInformation? || c.GetParallelGeneralStatus?
    requires NumberIn(x, 1, 0, 9)
    ensures PackInt(0, x, 0).Some? && Spelt(c, [x], PackInt(0, x, 0).value)
  {
    hide Stoi, Val, ToDec, Spelt;
    ShortNumber(x);
    DecodedIndex(Val(x));
    ValOfDec(Val(x));
    NumIsVal(x);
    DigitsCommand(c, x, ToDec(Val(x)), 1, Val(x));
  }

  lemma MonthSpelt(x: string, y: string, p: string)
    requires IsYear(x) && NumberIn(y, 2, 1, 12)
    requires Cat(Some(x), Ints([x, y], 1, 2, NO_COMMA, 0)) == Some(p)
    ensures Spelt(GetMonthGenerated, [x, y], p)
  {
    hide Val, Digits, Ints, Decoder.Num;
    NumIsVal(x);
    NumIsVal(y);
    IsDigits(x, 4, Val(x));
    assert TwoDigits([x, y], 1, 0);
    IntsAreWritten([x, y], 1, 2, 0);
    assert Fields([x, y], 2, 2, 0) == [];
    assert Fields([x, y], 1, 2, 0) == [Num(2, Val(y))];
    WrittenCons(Num(4, Val(x)), [Num(2, Val(y))]);
    assert [Num(4, Val(x))] + [Num(2, Val(y))] == [Num(4, Val(x)), Num(2, Val(y))];
  }

  lemma DaySpelt(a: seq<string>, p: string)
    requires |a| == 3 && IsDate(a[0], a[1], a[2])
    requires Cat(Some(a[0]), Ints(a, 1, 3, NO_COMMA, 0)) == Some(p)
    ensures Spelt(GetDayGenerated, a, p)
  {
    hide Val, Digits, Ints, Decoder.Num, DaysIn;
    NumIsVal(a[0]);
    NumIsVal(a[1]);
    NumIsVal(a[2]);
    IsDigits(a[0], 4, Val(a[0]));
    assert TwoDigits(a, 1, 0) && TwoDigits(a, 2, 0);
    IntsAreWritten(a, 1, 3, 0);
    var y, m, d := Num(4, Val(a[0])), Num(2, Val(a[1])), Num(2, Val(a[2]));
    assert Fields(a, 3, 3, 0) == [] && Fields(a, 2, 3, 0) == [d] && Fields(a, 1, 3, 0) == [m, d];
    WrittenCons(y, [m, d]);
    assert [y] + [m, d] == [y, m, d];
  }

  lemma DateTimeSpelt(a: seq<string>, p: string)
    requires |a| == 6 && IsDate(a[0], a[1], a[2]) && IsTime(a[3], a[4], a[5])
    requires Ints(a, 0, 6, NO_COMMA, 2000) == Some(p)
    ensures Spelt(SetDateTime, a, p)
  {
    hide Val, Digits, Ints, Decoder.Num, DaysIn;
    forall i | 0 <= i < 6
      ensures TwoDigits(a, i, 2000) && Decoder.Num(a[i]) == Val(a[i])
    {
      DateTimeField(a, i);
    }
    IntsAreWritten(a, 0, 6, 2000);
    DateTimeFields(a);
  }

  lemma DateTimeField(a: seq<string>, i: nat)
    requires |a| == 6 && IsDate(a[0], a[1], a[2]) && IsTime(a[3], a[4], a[5]) && i < 6
    ensures TwoDigits(a, i, 2000) && Decoder.Num(a[i]) == Val(a[i])
  {
    hide Val, DaysIn;
    assert a[i] == a[0] || a[i] == a[1] || a[i] == a[2] || a[i] == a[3] || a[i] == a[4] || a[i] == a[5];
  }

  lemma DateTimeFields(a: seq<string>)
    requires |a| == 6 && Decoder.Num(a[0]) >= 2000
    ensures Fields(a, 0, 6, 2000) == Layout(Meaning(SetDateTime, a), "")
  {
    hide Decoder.Num, Fields, Layout;
    var n := seq(6, i requires 0 <= i < 6 => Decoder.Num(a[i]));
    NextField(a, 5, 6, 2000);
    NextField(a, 4, 6, 2000);
    NextField(a, 3, 6, 2000);
    NextField(a, 2, 6, 2000);
    NextField(a, 1, 6, 2000);
    NextField(a, 0, 6, 2000);
    assert Meaning(SetDateTime, a).numbers == n;
    DateTimeLayout(Meaning(SetDateTime, a));
  }

  lemma DateTimeLayout(r: Request)
    requires r.command.SetDateTime? && |r.numbers| == 6 && r.numbers[0] >= 2000
    requires forall i :: 0 <= i < 6 ==> r.numbers[i] >= 0
    ensures Layout(r, "") == [Num(2, r.numbers[0] - 2000), Num(2, r.numbers[1]), Num(2, r.numbers[2]),
                              Num(2, r.numbers[3]), Num(2, r.numbers[4]), Num(2, r.numbers[5])]
  {}

  lemma NextField(a: seq<string>, i: nat, hi: nat, base: int)
    requires i < hi <= |a| && FieldValue(a, i, base) >= 0
    ensures Fields(a, i, hi, base) == [Num(2, FieldValue(a, i, base))] + Fields(a, i + 1, hi, base)
    ensures Fields(a, hi, hi, base) == []
  {}

  lemma FlagSpelt(x: string, y: string)
    requires x in FLAGS && y in ON_OFF
    ensures Spelt(SetFlag, [x, y], (if y == "1" then "E" else "D") + [LETTERS[IndexOf(FLAGS, x)]])
  {
    hide Val, IndexOf, Digits;
    ValSingle('0');
    ValSingle('1');
    assert "0" == ['0'] && "1" == ['1'];
    var i := IndexOf(FLAGS, x);
    LetterPiece(i);
    Two(Lit(if y == "1" then "E" else "D"), LETTER_PIECES[i]);
  }

  lemma LetterPiece(i: nat)
    requires i < 9
    ensures LETTER_PIECES[i] == Lit([LETTERS[i]])
  {
    assert [LETTERS[0]] == "A" && [LETTERS[1]] == "B" && [LETTERS[2]] == "C" && [LETTERS[3]] == "D";
    assert [LETTERS[4]] == "E" && [LETTERS[5]] == "F" && [LETTERS[6]] == "G" && [LETTERS[7]] == "H";
    assert [LETTERS[8]] == "I";
  }

  lemma AmpsSpelt(c: CommandType, x: string, y: string)
    requires c.SetBatteryMaxChargeCurrent? || c.SetBatteryMaxACChargeCurrent?
    requires IsParallelId(x) && IsAmps(y) && Stoi(y).Some?
    ensures Spelt(c, [x, y], x + "," + Padded(3, Stoi(y).value))
  {
    hide Stoul, Stoi, Padded, Digits;
    SameReading(y);
    assert Pow10(1) == 10 && Pow10(2) == 100 && Pow10(3) == 1000;
    PaddedIsDigits(3, Id(y));
    Three(Lit(x), Lit(","), Num(3, Id(y)));
  }

  lemma TwoVoltsSpelt(c: CommandType, x: string, y: string, p: string)
    requires c.SetBatteryMaxChargeVoltage? || c.SetBatteryChargeThresholds?
    requires VoltsIn(x, 0.0, 99.0) && VoltsIn(y, 0.0, 99.0)
    requires Cat(Cat(PackTenths(x), Some(",")), PackTenths(y)) == Some(p)
    ensures Spelt(c, [x, y], p)
  {
    hide PackTenths, Digits, Volts, VoltsIn;
    VoltsDigits(x);
    VoltsDigits(y);
    Three(Num(3, Volts(x)), Lit(","), Num(3, Volts(y)));
  }

  lemma ChoiceSpelt(c: CommandType, x: string, y: string, allowed: seq<string>)
    requires || (c.SetChargeSourcePriority? && allowed == CHARGE_PRIORITIES)
             || (c.SetOutputMode? && allowed == OUTPUT_MODES)
    requires y in allowed
    ensures Spelt(c, [x, y], x + "," + ToDec(IndexOf(allowed, y)))
  {
    hide Val, ToDec, IndexOf, Digits, Stoul;
    var i := IndexOf(allowed, y);
    DecodedIndex(i);
    ValOfDec(i);
    IsDigits(ToDec(i), 1, i);
    Three(Lit(x), Lit(","), Num(1, i));
  }

  lemma BucketSpelt(c: CommandType, x: string, y: string, p: string)
    requires Unpackers.IsBucket(c) && IsClock(x) && IsClock(y)
    requires Packed(c, Normalised2(c, x, y)) == Some(p)
    ensures Spelt(c, [x, y], p)
  {
    hide IsClock, Padded, Digits, Packed, Join, Normalised2;
    Unpackers.BucketRoundTrip(c, x, y);
    var n := Clock(x) + Clock(y);
    ClockValues(x);
    ClockValues(y);
    assert Pow10(1) == 10 && Pow10(2) == 100;
    PaddedIsDigits(2, n[0]);
    PaddedIsDigits(2, n[1]);
    PaddedIsDigits(2, n[2]);
    PaddedIsDigits(2, n[3]);
    BucketPieces(n[0], n[1], n[2], n[3]);
  }

  lemma BucketPieces(h: nat, m: nat, i: nat, n: nat)
    ensures Written([Num(2, h), Num(2, m), Lit(","), Num(2, i), Num(2, n)]) ==
            Join([Digits(2, h) + Digits(2, m), Digits(2, i) + Digits(2, n)], ',')
  {
    hide Digits, Join, Written;
    Three(Lit(","), Num(2, i), Num(2, n));
    var tail := [Lit(","), Num(2, i), Num(2, n)];
    WrittenCons(Num(2, m), tail);
    assert [Num(2, m)] + tail == [Num(2, m), Lit(","), Num(2, i), Num(2, n)];
    WrittenCons(Num(2, h), [Num(2, m)] + tail);
    assert [Num(2, h)] + ([Num(2, m)] + tail) == [Num(2, h), Num(2, m), Lit(","), Num(2, i), Num(2, n)];
    var left, right := Digits(2, h) + Digits(2, m), Digits(2, i) + Digits(2, n);
    JoinTwo(left, right);
    Glue(Digits(2, h), Digits(2, m), Digits(2, i), Digits(2, n));
  }

  lemma JoinTwo(left: string, right: string)
    ensures Join([left, right], ',') == left + "," + right
  {
    assert [left] + [right] == [left, right];
    JoinCons(left, [right], ',');
    LastJoin([right], ',');
  }

  lemma Glue(a: string, b: string, c: string, d: string)
    ensures a + b + "," + (c + d) == a + (b + ("," + c + d))
  {}

  lemma ClockValues(s: string)
    requires IsClock(s)
    ensures |Clock(s)| == 2 && 0 <= Clock(s)[0] <= 23 && 0 <= Clock(s)[1] <= 59
  {
    hide Stoul, Split;
  }

  lemma TwoSpelt(c: CommandType, x: string, y: string, p: string)
    requires ArgumentCount(c) == 2 && Acceptable2(c, x, y)
    requires Packed(c, Normalised2(c, x, y)) == Some(p)
    ensures Spelt(c, [x, y], p)
  {
    hide Spelt, Ints, Stoul, Stoi, Stod, Float, Tenths, Padded, ToDec, IndexOf, IsClock;
    match c
    case GetMonthGenerated => MonthSpelt(x, y, p);
    case SetFlag => FlagSpelt(x, y);
    case SetBatteryMaxChargeCurrent | SetBatteryMaxACChargeCurrent => AmpsSpelt(c, x, y);
    case SetBatteryMaxChargeVoltage => TwoVoltsSpelt(c, x, y, p);
    case SetBatteryChargeThresholds =>
      TablesInRange();
      TableVolts(x, RECHARGE_VOLTAGES);
      TableVolts(y, REDISCHARGE_VOLTAGES);
      TwoVoltsSpelt(c, x, y, p);
    case SetChargeSourcePriority => ChoiceSpelt(c, x, y, CHARGE_PRIORITIES);
    case SetOutputMode => ChoiceSpelt(c, x, y, OUTPUT_MODES);
    case SetACChargeTimeBucket | SetACSupplyTimeBucket => BucketSpelt(c, x, y, p);
  }

  lemma NothingSpelt(c: CommandType, a: seq<string>)
    requires ArgumentCount(c) == 0 && a == []
    ensures Spelt(c, a, "")
  {
    assert Meaning(c, a).numbers == [];
  }

  // ---- The theorems ----

  /** Every character of every payload is fixed by the values of the accepted arguments and the text of the id. */
  lemma PayloadSpelt(c: CommandType, a: seq<string>, p: string)
    requires Acceptable(c, a) && Packed(c, Normalised(c, a)) == Some(p)
    ensures p == Written(Layout(Meaning(c, a), IdText(c, a)))
  {
    hide Spelt, Acceptable1, Acceptable2, Ints, Normalised1, Normalised2, Packed1, Packed2;
    if |a| == 1 {
      assert a == [a[0]];
      OneSpelt(c, a[0], p);
    } else if |a| == 2 {
      assert a == [a[0], a[1]];
      TwoSpelt(c, a[0], a[1], p);
    } else if |a| == 3 {
      DaySpelt(a, p);
    } else if |a| == 6 {
      DateTimeSpelt(a, p);
    } else {
      NothingSpelt(c, a);
    }
    SpeltMeans(c, a, p);
  }

  lemma SpeltMeans(c: CommandType, a: seq<string>, p: string)
    ensures Spelt(c, a, p) <==> p == Written(Layout(Meaning(c, a), IdText(c, a)))
  {}

  /** And every character of the frame: a caret, the kind, the length in three digits, the name, the payload. */
  lemma FrameSpelt(c: CommandType, a: seq<string>, p: string)
    requires Acceptable(c, a) && Packed(c, Normalised(c, a)) == Some(p) && |IdText(c, a)| < 986
    ensures FrameText(c, p) ==
            "^" + (if IsSet(c) then "S" else "P") + Digits(3, |RawCommand(c)| + |p| + 3) + RawCommand(c) +
            Written(Layout(Meaning(c, a), IdText(c, a)))
  {
    hide Acceptable, Packed, Normalised, Meaning, Layout, Written, Padded, Digits, RawCommand, IsSet, IdText;
    PayloadSpelt(c, a, p);
    LengthFits(c, a, p);
    ThreeDigits(LengthField(c, p));
  }

  lemma ThreeDigits(n: nat)
    requires n < 1000
    ensures Padded(3, n) == Digits(3, n)
  {
    assert Pow10(1) == 10 && Pow10(2) == 100 && Pow10(3) == 1000;
    PaddedIsDigits(3, n);
  }

  /** Equal values, and the same id text, always pack to the same payload, however they were spelt. */
  lemma SamePayload(c: CommandType, a: seq<string>, p: string, b: seq<string>, q: string)
    requires Acceptable(c, a) && Packed(c, Normalised(c, a)) == Some(p)
    requires Acceptable(c, b) && Packed(c, Normalised(c, b)) == Some(q)
    requires Meaning(c, a) == Meaning(c, b) && IdText(c, a) == IdText(c, b)
    ensures p == q
  {
    hide Acceptable, Packed, Normalised, Meaning, Layout, Written, IdText;
    PayloadSpelt(c, a, p);
    PayloadSpelt(c, b, q);
  }

  /** Unique decodability, exactly: the frames of two accepted requests are equal if and only if they are
      the same command with the same values, and an id is spelt the same. */
  lemma SameFrameExactly(c: CommandType, a: seq<string>, p: string, d: CommandType, b: seq<string>, q: string)
    requires Acceptable(c, a) && Packed(c, Normalised(c, a)) == Some(p)
    requires Acceptable(d, b) && Packed(d, Normalised(d, b)) == Some(q)
    ensures FrameText(c, p) == FrameText(d, q) <==>
            c == d && Meaning(c, a) == Meaning(d, b) && IdText(c, a) == IdText(d, b)
  {
    hide Acceptable, FrameText, Packed, Normalised, Meaning, IdText;
    if FrameText(c, p) == FrameText(d, q) {
      SameFrameSameRequest(c, a, p, d, b, q);
    }
    if c == d && Meaning(c, a) == Meaning(d, b) && IdText(c, a) == IdText(d, b) {
      SamePayload(c, a, p, b, q);
    }
  }
}
