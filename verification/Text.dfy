/** Decimal text: the library conversions that the validator, the encoder and the decoders use
    (std::to_string, setw/setfill, std::stoul, std::stoi, std::stod, and src/util.cc:12-16). */
module Text {
  import opened Integers

  datatype Option<+T> = None | Some(value: T)

  const CRLF := "\r\n"

  predicate IsDigit(c: char) { '0' <= c <= '9' }

  predicate AllDigits(s: string) { forall i :: 0 <= i < |s| ==> IsDigit(s[i]) }

  function Digit(c: char): nat
    requires IsDigit(c)
  {
    c as int - '0' as int
  }

  function DigitChar(d: nat): (c: char)
    requires d < 10
    ensures IsDigit(c) && Digit(c) == d
  {
    ('0' as int + d) as char
  }

  function Pow10(k: nat): (p: nat)
    ensures p > 0
  {
    if k == 0 then 1 else 10 * Pow10(k - 1)
  }

  // ---- Printing ----

  /** std::to_string of a non-negative number. */
  function ToDec(n: nat): (s: string)
    ensures |s| > 0 && AllDigits(s)
  {
    if n < 10 then [DigitChar(n)] else ToDec(n / 10) + [DigitChar(n % 10)]
  }

  function ToText(n: int): string { if n < 0 then "-" + ToDec(-n) else ToDec(n) }

  function Fill(n: nat): (s: string)
    ensures |s| == n && AllDigits(s)
  {
    seq(n, _ => '0')
  }

  /** `setw(width)` with fill character '0'. */
  function PadLeft(width: nat, s: string): string {
    if |s| < width then Fill(width - |s|) + s else s
  }

  function Padded(width: nat, n: int): string { PadLeft(width, ToText(n)) }

  // ---- Parsing ----

  /** The number a digit string denotes. */
  function Val(s: string): nat
    requires AllDigits(s)
  {
    if s == "" then 0 else 10 * Val(s[..|s| - 1]) + Digit(s[|s| - 1])
  }

  predicate IsSpace(c: char) { c == ' ' || '\t' <= c <= '\r' }

  function SkipSpaces(s: string): string {
    if s != "" && IsSpace(s[0]) then SkipSpaces(s[1..]) else s
  }

  /** The length of the leading run of digits. */
  function DigitRun(s: string): (k: nat)
    ensures k <= |s| && AllDigits(s[..k])
    ensures k < |s| ==> !IsDigit(s[k])
  {
    if s == "" || !IsDigit(s[0]) then 0
    else
      var k := DigitRun(s[1..]);
      assert s[..k + 1] == [s[0]] + s[1..][..k];
      k + 1
  }

  predicate Signed(s: string) {
    var t := SkipSpaces(s);
    t != "" && (t[0] == '-' || t[0] == '+')
  }

  predicate Negative(s: string) { Signed(s) && SkipSpaces(s)[0] == '-' }

  /** What follows white space and a sign. */
  function Magnitude(s: string): string { if Signed(s) then SkipSpaces(s)[1..] else SkipSpaces(s) }

  /** What strtol and strtoul read: white space, a sign, and the longest run of digits. */
  function ParseInt(s: string): Option<int> {
    var u := Magnitude(s);
    var k := DigitRun(u);
    var v: int := Val(u[..k]);
    if k == 0 then None else Some(if Negative(s) then -v else v)
  }

  /** std::stoul; `None` is one of its exceptions. A minus sign negates modulo 2^64. */
  function Stoul(s: string): Option<nat> {
    match ParseInt(s)
    case None => None
    case Some(n) => if -U64 < n < U64 then Some(n % U64) else None
  }

  /** std::stoi */
  function Stoi(s: string): Option<int> {
    match ParseInt(s)
    case None => None
    case Some(n) => if -0x8000_0000 <= n < 0x8000_0000 then Some(n) else None
  }

  /** static_cast<unsigned> and static_cast<unsigned short> of a 64-bit number */
  function AsUnsigned(n: nat): nat { n % 0x1_0000_0000 }

  function AsShort(n: nat): nat { n % 0x1_0000 }

  function DecimalValue(whole: string, fraction: string): real
    requires AllDigits(whole) && AllDigits(fraction)
  {
    Val(whole) as real + Val(fraction) as real / Pow10(|fraction|) as real
  }

  /** The number that plain decimal notation denotes, exactly: what std::stod and std::stof round. */
  function Stod(s: string): Option<real> {
    var u := Magnitude(s);
    var k := DigitRun(u);
    var rest := if k < |u| && u[k] == '.' then u[k + 1..] else "";
    var m := DigitRun(rest);
    if k == 0 && m == 0 then None
    else
      var v := DecimalValue(u[..k], rest[..m]);
      Some(if Negative(s) then 0.0 - v else v)
  }

  // ---- Floating point ----

  /** The nearest multiple of 1/scale; halves go to the even one. */
  function RoundTo(v: real, scale: nat): real
    requires scale > 0
  {
    var x := v * scale as real;
    var d := x - x.Floor as real;
    (if d < 0.5 || (d == 0.5 && x.Floor % 2 == 0) then x.Floor else x.Floor + 1) as real / scale as real
  }

  /** Rounding to binary32, between 8 and 64. Other numbers stay as they are: apart from 0, no comparison of
      voltages accepts any of them. */
  function Float(v: real): real {
    if 8.0 <= v < 16.0 then RoundTo(v, 0x10_0000)
    else if 16.0 <= v < 32.0 then RoundTo(v, 0x8_0000)
    else if 32.0 <= v < 64.0 then RoundTo(v, 0x4_0000)
    else v
  }

  /** Rounding to binary64, between 8 and 1024. */
  function Double(v: real): real {
    if 8.0 <= v < 16.0 then RoundTo(v, 0x2_0000_0000_0000)
    else if 16.0 <= v < 32.0 then RoundTo(v, 0x1_0000_0000_0000)
    else if 32.0 <= v < 64.0 then RoundTo(v, 0x8000_0000_0000)
    else if 64.0 <= v < 128.0 then RoundTo(v, 0x4000_0000_0000)
    else if 128.0 <= v < 256.0 then RoundTo(v, 0x2000_0000_0000)
    else if 256.0 <= v < 512.0 then RoundTo(v, 0x1000_0000_0000)
    else if 512.0 <= v < 1024.0 then RoundTo(v, 0x800_0000_0000)
    else v
  }

  /** The C function `round`: halves away from zero. */
  function Round(v: real): int { if v >= 0.0 then (v + 0.5).Floor else -((0.0 - v) + 0.5).Floor }

  /** `(int)round(val*10)` of a number read as a double */
  function Tenths(v: real): int { Round(Double(Double(v) * 10.0)) }

  predicate IsNumeric(s: string) { s != "" && AllDigits(s) }

  /** `is_numeric`: an iterator walks over the digits. */
  method CheckNumeric(s: string) returns (r: bool)
    ensures r == IsNumeric(s)
  {
    var it := 0;
    while it != |s| && IsDigit(s[it])
      invariant 0 <= it <= |s| && AllDigits(s[..it])
      decreases |s| - it
    {
      it := it + 1;
    }
    assert it < |s| ==> !IsDigit(s[it]);
    assert s[..|s|] == s;
    r := s != "" && it == |s|;
  }

  lemma RoundsClose(v: real, scale: nat)
    requires scale > 0x2_0000
    ensures v - 0.000004 <= RoundTo(v, scale) <= v + 0.000004
  {
    var x := v * scale as real;
    var d := x - x.Floor as real;
    var n := if d < 0.5 || (d == 0.5 && x.Floor % 2 == 0) then x.Floor else x.Floor + 1;
    var r := RoundTo(v, scale);
    assert x - 0.5 <= n as real <= x + 0.5;
    assert r * scale as real == n as real;
    assert (r - v) * scale as real == n as real - x;
    Scaled(r - v, scale);
  }

  lemma Scaled(e: real, scale: nat)
    requires scale > 0x2_0000 && -0.5 <= e * scale as real <= 0.5
    ensures -0.000004 <= e <= 0.000004
  {}

  lemma FloatClose(v: real)
    ensures v - 0.000004 <= Float(v) <= v + 0.000004
  {
    hide RoundTo;
    RoundsClose(v, 0x10_0000);
    RoundsClose(v, 0x8_0000);
    RoundsClose(v, 0x4_0000);
  }

  lemma DoubleClose(v: real)
    ensures v - 0.000004 <= Double(v) <= v + 0.000004
  {
    hide RoundTo;
    RoundsClose(v, 0x2_0000_0000_0000);
    RoundsClose(v, 0x1_0000_0000_0000);
    RoundsClose(v, 0x8000_0000_0000);
    RoundsClose(v, 0x4000_0000_0000);
    RoundsClose(v, 0x2000_0000_0000);
    RoundsClose(v, 0x1000_0000_0000);
    RoundsClose(v, 0x800_0000_0000);
  }

  /** The tenths that are sent are never further from the voltage than half a tenth, up to rounding errors;
      for a voltage in whole tenths they are exact. */
  lemma TenthsAreClose(v: real, t: int)
    requires v >= 0.0
    ensures v * 10.0 - 0.50005 <= Tenths(v) as real <= v * 10.0 + 0.50005
    ensures v == t as real / 10.0 ==> Tenths(v) == t
  {
    hide Double;
    DoubleClose(v);
    DoubleClose(Double(v) * 10.0);
  }

  // ---- Printing against parsing ----

  lemma {:induction false} ValOfDec(n: nat)
    ensures Val(ToDec(n)) == n
  {
    if n >= 10 {
      ValOfDec(n / 10);
      assert ToDec(n)[..|ToDec(n)| - 1] == ToDec(n / 10);
    }
  }

  lemma {:induction false} ValOfFill(k: nat, s: string)
    requires AllDigits(s)
    ensures AllDigits(Fill(k) + s) && Val(Fill(k) + s) == Val(s)
  {
    if s == "" {
      assert Fill(k) + s == Fill(k);
      if k > 0 {
        assert Fill(k)[..k - 1] == Fill(k - 1) + "";
        ValOfFill(k - 1, "");
      }
    } else {
      assert (Fill(k) + s)[..k + |s| - 1] == Fill(k) + s[..|s| - 1];
      ValOfFill(k, s[..|s| - 1]);
    }
  }

  lemma {:induction false} DecLength(n: nat, k: nat)
    requires k > 0
    ensures |ToDec(n)| <= k <==> n < Pow10(k)
  {
    if k == 1 {
    } else if n >= 10 {
      DecLength(n / 10, k - 1);
    } else {
      assert Pow10(k - 1) >= 1;
    }
  }

  /** A padded number has exactly the width, if it fits, and reads back as itself in any case. */
  lemma PaddedNumber(width: nat, n: nat)
    requires width > 0
    ensures AllDigits(Padded(width, n)) && Val(Padded(width, n)) == n && |Padded(width, n)| >= width
    ensures |Padded(width, n)| == width <==> n < Pow10(width)
  {
    ValOfDec(n);
    DecLength(n, width);
    if |ToDec(n)| < width {
      ValOfFill(width - |ToDec(n)|, ToDec(n));
    }
  }

  lemma {:induction false} ValBound(s: string)
    requires AllDigits(s)
    ensures Val(s) < Pow10(|s|)
  {
    if s != "" {
      ValBound(s[..|s| - 1]);
    }
  }

  lemma SmallPowers(k: nat)
    requires k <= 4
    ensures Pow10(k) <= 10000
  {
    assert Pow10(1) == 10 && Pow10(2) == 100 && Pow10(3) == 1000 && Pow10(4) == 10000;
  }

  lemma {:induction false} DigitRunAll(s: string, rest: string)
    requires AllDigits(s) && (rest != "" ==> !IsDigit(rest[0]))
    ensures DigitRun(s + rest) == |s|
  {
    if s == "" {
      assert s + rest == rest;
    } else {
      assert (s + rest)[1..] == s[1..] + rest;
      DigitRunAll(s[1..], rest);
    }
  }

  /** On digits alone the library parsers read exactly their number. */
  lemma ParseDigits(s: string)
    requires IsNumeric(s)
    ensures ParseInt(s) == Some(Val(s))
    ensures Val(s) < U64 ==> Stoul(s) == Some(Val(s))
    ensures Val(s) < 0x8000_0000 ==> Stoi(s) == Some(Val(s))
  {
    hide DigitRun, Val;
    assert s + "" == s;
    DigitRunAll(s, "");
    assert s[..|s|] == s;
  }

  lemma {:induction false} ValSingle(c: char)
    requires IsDigit(c)
    ensures Val([c]) == Digit(c)
  {
    assert [c][..0] == "";
  }
}
