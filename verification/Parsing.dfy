/** What the library conversions read, told from the texts themselves: white space, a sign, digits, and anything
    else behind them. */
module Parsing {
  import opened Integers
  import opened Text

  predicate Blank(c: char) { c as int in {9, 10, 11, 12, 13, 32} }

  predicate Blanks(s: string) { forall i :: 0 <= i < |s| ==> Blank(s[i]) }

  predicate IsSign(s: string) { s == "" || s == "+" || s == "-" }

  predicate NoDigitFirst(s: string) { s == "" || !('0' <= s[0] <= '9') }

  function WithSign(sign: string, n: nat): int { if sign == "-" then 0 - n else n }

  lemma {:induction false} BlanksSkipped(blanks: string, rest: string)
    requires Blanks(blanks) && (rest == "" || !Blank(rest[0]))
    ensures SkipSpaces(blanks + rest) == rest
  {
    if blanks == "" {
      assert blanks + rest == rest;
    } else {
      assert (blanks + rest)[1..] == blanks[1..] + rest;
      BlanksSkipped(blanks[1..], rest);
    }
  }

  lemma {:induction false} WhatIsSkipped(s: string) returns (blanks: string)
    ensures Blanks(blanks) && s == blanks + SkipSpaces(s)
    ensures SkipSpaces(s) == "" || !Blank(SkipSpaces(s)[0])
  {
    if s != "" && IsSpace(s[0]) {
      var tail := WhatIsSkipped(s[1..]);
      blanks := [s[0]] + tail;
      assert s == [s[0]] + s[1..];
    } else {
      blanks := "";
    }
  }

  lemma PartsOf(blanks: string, sign: string, u: string)
    requires Blanks(blanks) && IsSign(sign) && u != "" && u[0] != '-' && u[0] != '+' && !Blank(u[0])
    ensures var s := blanks + (sign + u); Magnitude(s) == u && (Negative(s) <==> sign == "-")
  {
    BlanksSkipped(blanks, sign + u);
  }

  /** An integer: white space, at most one sign, digits, and whatever does not go on with a digit. */
  lemma IntegerIsRead(blanks: string, sign: string, digits: string, rest: string)
    requires Blanks(blanks) && IsSign(sign) && AllDigits(digits) && digits != "" && NoDigitFirst(rest)
    ensures ParseInt(blanks + (sign + digits + rest)) == Some(WithSign(sign, Val(digits)))
  {
    hide Val, DigitRun, Magnitude, Negative;
    var u := digits + rest;
    assert sign + digits + rest == sign + u && u[0] == digits[0];
    PartsOf(blanks, sign, u);
    DigitRunAll(digits, rest);
    assert u[..|digits|] == digits;
  }

  /** And nothing else is read as an integer. */
  lemma OnlyIntegersAreRead(s: string) returns (blanks: string, sign: string, digits: string, rest: string)
    requires ParseInt(s).Some?
    ensures Blanks(blanks) && IsSign(sign) && AllDigits(digits) && digits != "" && NoDigitFirst(rest)
    ensures s == blanks + (sign + digits + rest)
    ensures ParseInt(s) == Some(WithSign(sign, Val(digits)))
  {
    hide Val, DigitRun, Magnitude, Negative;
    blanks, sign := PartsFound(s);
    var u := Magnitude(s);
    var k := DigitRun(u);
    digits, rest := u[..k], u[k..];
    assert u == digits + rest && sign + (digits + rest) == sign + digits + rest;
  }

  lemma PartsFound(s: string) returns (blanks: string, sign: string)
    ensures Blanks(blanks) && IsSign(sign) && s == blanks + (sign + Magnitude(s)) && (Negative(s) <==> sign == "-")
  {
    hide SkipSpaces;
    blanks := WhatIsSkipped(s);
    sign := if Signed(s) then [SkipSpaces(s)[0]] else "";
    assert SkipSpaces(s) == sign + Magnitude(s);
  }

  /** stoul: a number within 64 bits, negative ones modulo 2^64. */
  lemma StoulExactly(s: string)
    ensures Stoul(s) ==
            if ParseInt(s).Some? && -18446744073709551616 < ParseInt(s).value < 18446744073709551616
            then Some(if ParseInt(s).value < 0 then ParseInt(s).value + 18446744073709551616 else ParseInt(s).value)
            else None
  {
    hide ParseInt;
  }

  /** stoi: a number within 32 bits. */
  lemma StoiExactly(s: string)
    ensures Stoi(s) ==
            if ParseInt(s).Some? && -2147483648 <= ParseInt(s).value <= 2147483647 then Some(ParseInt(s).value)
            else None
  {
    hide ParseInt;
  }

  /** Reading with stoul and keeping 32 or 16 bits keeps the number modulo 2^32 or 2^16. */
  lemma CutExactly(s: string)
    requires Stoul(s).Some?
    ensures ParseInt(s).Some?
    ensures AsUnsigned(Stoul(s).value) == ParseInt(s).value % 4294967296
    ensures AsShort(Stoul(s).value) == ParseInt(s).value % 65536
  {
    hide ParseInt;
    var n := ParseInt(s).value;
    assert (n % U64) % 4294967296 == n % 4294967296;
    assert (n % U64) % 65536 == n % 65536;
  }

  /** A decimal number with a point. */
  lemma DecimalIsRead(blanks: string, sign: string, whole: string, fraction: string, rest: string)
    requires Blanks(blanks) && IsSign(sign) && AllDigits(whole) && AllDigits(fraction) && |whole| + |fraction| > 0
    requires NoDigitFirst(rest)
    ensures var v := Val(whole) as real + Val(fraction) as real / Pow10(|fraction|) as real;
            Stod(blanks + (sign + (whole + ("." + (fraction + rest))))) == Some(if sign == "-" then 0.0 - v else v)
  {
    hide DecimalValue, DigitRun, Magnitude, Negative, Stod;
    DecimalValueIs(whole, fraction);
    var u := whole + ("." + (fraction + rest));
    assert u[0] == if whole != "" then whole[0] else '.';
    PartsOf(blanks, sign, u);
    PointIsRead(blanks + (sign + u), whole, fraction, rest);
  }

  lemma PointIsRead(s: string, whole: string, fraction: string, rest: string)
    requires AllDigits(whole) && AllDigits(fraction) && |whole| + |fraction| > 0 && NoDigitFirst(rest)
    requires Magnitude(s) == whole + ("." + (fraction + rest))
    ensures Stod(s) ==
            Some(if Negative(s) then 0.0 - DecimalValue(whole, fraction) else DecimalValue(whole, fraction))
  {
    hide DecimalValue, DigitRun, Magnitude, Negative;
    var tail := fraction + rest;
    DigitRunAll(whole, "." + tail);
    DigitRunAll(fraction, rest);
    PointParts(whole, tail);
    assert tail[..|fraction|] == fraction;
  }

  lemma DecimalValueIs(whole: string, fraction: string)
    requires AllDigits(whole) && AllDigits(fraction)
    ensures DecimalValue(whole, fraction) == Val(whole) as real + Val(fraction) as real / Pow10(|fraction|) as real
  {}

  lemma PointParts(whole: string, tail: string)
    ensures var u := whole + ("." + tail);
            u[..|whole|] == whole && u[|whole|] == '.' && u[|whole| + 1..] == tail
  {}

  /** A decimal number without one. */
  lemma WholeIsRead(blanks: string, sign: string, whole: string, rest: string)
    requires Blanks(blanks) && IsSign(sign) && AllDigits(whole) && whole != ""
    requires NoDigitFirst(rest) && (rest == "" || rest[0] != '.')
    ensures var v := Val(whole) as real;
            Stod(blanks + (sign + whole + rest)) == Some(if sign == "-" then 0.0 - v else v)
  {
    hide DecimalValue, DigitRun, Magnitude, Negative;
    var u := whole + rest;
    assert sign + whole + rest == sign + u && u[0] == whole[0];
    PartsOf(blanks, sign, u);
    DigitRunAll(whole, rest);
    assert u[..|whole|] == whole;
    NoFraction(whole);
    assert ""[..0] == "";
  }

  lemma NoFraction(whole: string)
    requires AllDigits(whole)
    ensures DigitRun("") == 0 && DecimalValue(whole, "") == Val(whole) as real
  {}

  // ---- Rounding ----

  /** `r` is the multiple of 1/scale next to `v`, and in the middle the even one. */
  predicate IsNearest(r: real, v: real, scale: nat, n: int)
    requires scale > 0
  {
    && r == n as real / scale as real && -0.5 <= v * scale as real - n as real <= 0.5
    && ((v * scale as real - n as real == 0.5 || v * scale as real - n as real == -0.5) ==> n % 2 == 0)
  }

  lemma RoundsToNearest(v: real, scale: nat) returns (n: int)
    requires scale > 0
    ensures IsNearest(RoundTo(v, scale), v, scale, n)
  {
    var x := v * scale as real;
    var d := x - x.Floor as real;
    n := if d < 0.5 || (d == 0.5 && x.Floor % 2 == 0) then x.Floor else x.Floor + 1;
  }

  /** Floats between 8 and 64 have 24 significant bits. */
  lemma FloatExactly(v: real) returns (n: int)
    requires 8.0 <= v < 64.0
    ensures IsNearest(Float(v), v, if v < 16.0 then 1048576 else if v < 32.0 then 524288 else 262144, n)
  {
    hide RoundTo, IsNearest;
    n := RoundsToNearest(v, if v < 16.0 then 1048576 else if v < 32.0 then 524288 else 262144);
  }

  /** The number of steps of a double between 1 and the next number, in its binade. */
  function DoubleScale(v: real): nat
    requires 8.0 <= v < 1024.0
  {
    if v < 16.0 then 562949953421312 else if v < 32.0 then 281474976710656 else if v < 64.0 then 140737488355328
    else if v < 128.0 then 70368744177664 else if v < 256.0 then 35184372088832
    else if v < 512.0 then 17592186044416 else 8796093022208
  }

  /** Doubles between 8 and 1024 have 53. */
  lemma DoubleExactly(v: real) returns (n: int)
    requires 8.0 <= v < 1024.0
    ensures IsNearest(Double(v), v, DoubleScale(v), n)
  {
    hide RoundTo, IsNearest;
    n := RoundsToNearest(v, DoubleScale(v));
  }

  lemma ZeroStays()
    ensures Float(0.0) == 0.0 && Double(0.0) == 0.0
  {}

  /** The C function `round`: to the nearest whole number, in the middle away from zero. */
  lemma RoundExactly(v: real)
    ensures v >= 0.0 ==> Round(v) as real - 0.5 <= v < Round(v) as real + 0.5
    ensures v < 0.0 ==> Round(v) as real - 0.5 < v <= Round(v) as real + 0.5
  {}
}
