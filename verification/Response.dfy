/** Reading the inverter's answers (src/p18/response.cc:47-110). */
module Response {
  import opened Integers
  import opened Text
  import opened Splitting

  const BUFFER_SIZE := 256

  /** The response buffer, of which the first `size` characters are the answer. What follows is whatever
      the buffer held before. */
  datatype Raw = Raw(buf: string, size: nat)

  predicate Valid(raw: Raw) { |raw.buf| == BUFFER_SIZE && raw.size <= BUFFER_SIZE }

  // ---- The header ----

  /** `GetResponse::validate`; `None` when the length field makes stoul throw. The subtraction is on
      64-bit unsigned numbers. */
  function Validate(raw: Raw): Option<bool>
    requires Valid(raw)
  {
    if raw.size < 5 then Some(false)
    else if raw.buf[0] != '^' || raw.buf[1] != 'D' then Some(false)
    else
      match Stoul(raw.buf[2..5])
      case None => None
      case Some(len) => Some(raw.size >= (len - 5) % U64)
  }

  /** An answer passes exactly when it says "^D" and announces between 5 and `size` + 5 characters:
      shorter announcements wrap around, and longer ones may exceed the data by ten, where checksum and
      end mark account for three. */
  lemma ValidatesExactly(raw: Raw)
    requires Valid(raw)
    ensures Validate(raw) == Some(true) <==>
            && raw.size >= 5 && raw.buf[..2] == "^D"
            && ParseInt(raw.buf[2..5]).Some? && 5 <= ParseInt(raw.buf[2..5]).value <= raw.size + 5
    ensures Validate(raw) == None <==>
            raw.size >= 5 && raw.buf[..2] == "^D" && ParseInt(raw.buf[2..5]) == None
  {
    hide SkipSpaces;
    if raw.size >= 5 {
      ThreeCharacters(raw.buf[2..5]);
    }
  }

  lemma {:induction false} SkipSpacesShortens(s: string)
    ensures |SkipSpaces(s)| <= |s|
  {
    if s != "" && IsSpace(s[0]) {
      SkipSpacesShortens(s[1..]);
    }
  }

  lemma TwoCharacters(s: string)
    requires |s| == 2
    ensures ParseInt(s).Some? ==> -100 < ParseInt(s).value < 100
  {
    hide Val, SkipSpaces;
    SkipSpacesShortens(s);
    var u := Magnitude(s);
    var k := DigitRun(u);
    ValBound(u[..k]);
    assert Pow10(1) == 10 && Pow10(2) == 100;
  }

  /** Three characters are far from the limits of the 64-bit types. */
  lemma ThreeCharacters(s: string)
    requires |s| == 3
    ensures ParseInt(s).Some? ==> -1000 < ParseInt(s).value < 1000
  {
    hide Val, SkipSpaces;
    SkipSpacesShortens(s);
    var t := SkipSpaces(s);
    var u := if t != "" && (t[0] == '-' || t[0] == '+') then t[1..] else t;
    var k := DigitRun(u);
    ValBound(u[..k]);
    assert Pow10(1) == 10 && Pow10(2) == 100 && Pow10(3) == 1000;
  }

  /** What validation makes of an answer that says "^D" and announces `n` characters. */
  lemma Announced(raw: Raw, n: int)
    requires Valid(raw) && raw.size >= 5 && raw.buf[..2] == "^D" && ParseInt(raw.buf[2..5]) == Some(n)
    ensures Validate(raw) == Some(5 <= n <= raw.size + 5)
  {
    hide ParseInt;
    ThreeCharacters(raw.buf[2..5]);
    assert raw.buf[0] == raw.buf[..2][0] && raw.buf[1] == raw.buf[..2][1];
  }

  /** A correct answer with one character of data is rejected: it announces only 4. */
  lemma OneCharacterIsRejected()
    ensures var raw := Raw("^D004" + "1" + Fill(250), 6); Valid(raw) && Validate(raw) == Some(false)
  {
    hide ParseInt;
    var raw := Raw("^D004" + "1" + Fill(250), 6);
    assert raw.buf[2..5] == "004" && raw.buf[..2] == "^D";
    FourAndThirteen();
    ParseDigits("004");
    Announced(raw, 4);
  }

  /** An answer that announces 13 characters, so 10 of data, passes with three. */
  lemma MissingDataPasses()
    ensures var raw := Raw("^D013" + "123" + Fill(248), 8); Valid(raw) && Validate(raw) == Some(true)
  {
    hide ParseInt;
    var raw := Raw("^D013" + "123" + Fill(248), 8);
    assert raw.buf[2..5] == "013" && raw.buf[..2] == "^D";
    FourAndThirteen();
    ParseDigits("013");
    Announced(raw, 13);
  }

  lemma FourAndThirteen()
    ensures AllDigits("004") && Val("004") == 4 && AllDigits("013") && Val("013") == 13
  {
    assert "004"[..2] == "00" && "00"[..1] == "0" && "0"[..0] == "";
    assert "013"[..2] == "01" && "01"[..1] == "0";
  }

  // ---- Lists of fields ----

  datatype FieldLength = FieldLength(min: nat, max: nat)

  function Exactly(n: nat): FieldLength { FieldLength(n, n) }

  predicate Fits(fl: FieldLength, len: nat) { fl.min <= len <= fl.max }

  /** `getList`: `None` for its ParseError. Items beyond the schema are not looked at. */
  function GetList(data: string, lengths: seq<FieldLength>, atLeast: nat): Option<seq<string>> {
    var list := Split(data, ',');
    if lengths == [] then Some(list)
    else if |list| < atLeast then None
    else if forall i :: 0 <= i < |list| && i < |lengths| ==> Fits(lengths[i], |list[i]|) then Some(list)
    else None
  }

  method GetListLoop(data: string, lengths: seq<FieldLength>, expectAtLeast: int) returns (r: Option<seq<string>>)
    requires expectAtLeast >= -1
    ensures r == GetList(data, lengths, if expectAtLeast == -1 then |lengths| else expectAtLeast)
  {
    var list := SplitLoop(data, ',');
    var atLeast := if expectAtLeast == -1 then |lengths| else expectAtLeast;
    if lengths != [] {
      if |list| < atLeast {
        return None;
      }
      for i := 0 to |list|
        invariant forall j :: 0 <= j < i && j < |lengths| ==> Fits(lengths[j], |list[j]|)
      {
        if i >= |lengths| {
          break;
        }
        if !Fits(lengths[i], |list[i]|) {
          return None;
        }
      }
    }
    return Some(list);
  }

  /** Where item `i` of a schema starts: the widths before it, and a comma after each. */
  function Start(widths: seq<nat>, i: nat): nat
    requires i <= |widths|
    decreases i
  {
    if i == 0 then 0 else Start(widths, i - 1) + widths[i - 1] + 1
  }

  function Widths(pieces: seq<string>): seq<nat> { seq(|pieces|, i requires 0 <= i < |pieces| => |pieces[i]|) }

  /** Item `i` of joined pieces is the slice at its start. */
  lemma {:induction false} JoinedSlice(pieces: seq<string>, sep: char, i: nat)
    requires i < |pieces|
    ensures var s, at := Join(pieces, sep), Start(Widths(pieces), i);
            && at + |pieces[i]| <= |s| && s[at..at + |pieces[i]|] == pieces[i]
            && (i == |pieces| - 1 ==> at + |pieces[i]| == |s|)
            && (i < |pieces| - 1 ==> at + |pieces[i]| < |s| && s[at + |pieces[i]|] == sep)
    decreases i
  {
    var s, at := Join(pieces, sep), Start(Widths(pieces), i);
    if i == 0 {
      assert |pieces| > 1 ==> s == pieces[0] + ([sep] + Join(pieces[1..], sep));
    } else {
      var rest := Join(pieces[1..], sep);
      JoinedSlice(pieces[1..], sep, i - 1);
      StartShift(pieces, i);
      var before := Start(Widths(pieces[1..]), i - 1);
      var head := pieces[0] + [sep];
      assert s == head + rest && at == |head| + before;
      SliceShift(head, rest, before, |pieces[i]|);
    }
  }

  lemma SliceShift(head: string, tail: string, at: nat, n: nat)
    requires at + n <= |tail|
    ensures (head + tail)[|head| + at..|head| + at + n] == tail[at..at + n]
  {}

  lemma {:induction false} StartShift(pieces: seq<string>, i: nat)
    requires 0 < i < |pieces|
    ensures Start(Widths(pieces), i) == |pieces[0]| + 1 + Start(Widths(pieces[1..]), i - 1)
    decreases i
  {
    if i > 1 {
      StartShift(pieces, i - 1);
    }
  }

  /** Field `i` lies in its place: without commas, and followed by one, or by nothing. */
  predicate Placed(data: string, widths: seq<nat>, i: nat)
    requires i < |widths|
  {
    var start, end := Start(widths, i), Start(widths, i) + widths[i];
    && end <= |data| && ',' !in data[start..end]
    && (if i == |widths| - 1 then end == |data| else end < |data| && data[end] == ',')
  }

  /** The schema laid over the data. */
  predicate LaidOut(data: string, widths: seq<nat>) {
    forall i :: 0 <= i < |widths| ==> Placed(data, widths, i)
  }

  function FieldAt(data: string, widths: seq<nat>, i: nat): string
    requires i < |widths| && Placed(data, widths, i)
  {
    data[Start(widths, i)..Start(widths, i) + widths[i]]
  }

  function Schema(widths: seq<nat>): seq<FieldLength> {
    seq(|widths|, i requires 0 <= i < |widths| => Exactly(widths[i]))
  }

  function Fields(data: string, widths: seq<nat>): (r: seq<string>)
    requires LaidOut(data, widths)
    ensures |r| == |widths|
  {
    seq(|widths|, i requires 0 <= i < |widths| => FieldAt(data, widths, i))
  }

  lemma FieldPlace(data: string, widths: seq<nat>, k: nat)
    requires k < |widths| && LaidOut(data, widths)
    ensures var start, end := Start(widths, k), Start(widths, k) + widths[k];
            && end <= |data| && Fields(data, widths)[k] == data[start..end]
            && (k + 1 < |widths| ==> end < |data| && data[end] == ',' && Start(widths, k + 1) == end + 1)
            && (k + 1 == |widths| ==> end == |data|)
  {
    assert Placed(data, widths, k);
  }

  lemma {:induction false} FieldsJoin(data: string, widths: seq<nat>, k: nat)
    requires k < |widths| && LaidOut(data, widths)
    ensures Start(widths, k) <= |data| && Join(Fields(data, widths)[k..], ',') == data[Start(widths, k)..]
    decreases |widths| - k
  {
    hide Join, Start, LaidOut, Fields;
    var fields := Fields(data, widths);
    var start, end := Start(widths, k), Start(widths, k) + widths[k];
    FieldPlace(data, widths, k);
    if k + 1 < |widths| {
      FieldsJoin(data, widths, k + 1);
      JoinCons(fields[k], fields[k + 1..], ',');
      assert fields[k..] == [fields[k]] + fields[k + 1..];
      CutAt(data, ',', start, end);
    } else {
      LastJoin(fields[k..], ',');
    }
  }

  lemma SplitIsLaidOut(data: string, widths: seq<nat>)
    requires |Split(data, ',')| == |widths| && Widths(Split(data, ',')) == widths
    ensures LaidOut(data, widths)
  {
    hide Split, Join, Start;
    var list := Split(data, ',');
    JoinSplit(data, ',');
    forall i | 0 <= i < |widths|
      ensures Placed(data, widths, i)
    {
      JoinedSlice(list, ',', i);
    }
  }

  lemma LaidOutIsSplit(data: string, widths: seq<nat>)
    requires |widths| > 0 && LaidOut(data, widths)
    ensures Split(data, ',') == Fields(data, widths)
    ensures GetList(data, Schema(widths), |widths|) == Some(Fields(data, widths))
  {
    hide Split, Join, Start;
    forall i | 0 <= i < |widths|
      ensures ',' !in Fields(data, widths)[i] && |Fields(data, widths)[i]| == widths[i]
    {
      assert Placed(data, widths, i);
    }
    FieldsJoin(data, widths, 0);
    FieldsStart(data, widths);
    SplitJoin(Fields(data, widths), ',');
  }

  /** With one exact width for each item, `getList` accepts data with the full number of items exactly
      when the schema fits it position by position, and then the items are the slices. */
  lemma SchemaAgrees(data: string, widths: seq<nat>)
    requires |widths| > 0
    ensures LaidOut(data, widths) <==>
            GetList(data, Schema(widths), |widths|).Some? && |GetList(data, Schema(widths), |widths|).value| == |widths|
    ensures LaidOut(data, widths) ==> GetList(data, Schema(widths), |widths|) == Some(Fields(data, widths))
  {
    hide Split, Start, LaidOut;
    var list := Split(data, ',');
    if LaidOut(data, widths) {
      LaidOutIsSplit(data, widths);
    } else if GetList(data, Schema(widths), |widths|).Some? && |list| == |widths| {
      assert forall i :: 0 <= i < |list| ==> Fits(Schema(widths)[i], |list[i]|);
      assert Widths(list) == widths;
      SplitIsLaidOut(data, widths);
    }
  }

  lemma FieldsStart(data: string, widths: seq<nat>)
    requires |widths| > 0 && LaidOut(data, widths)
    ensures Fields(data, widths)[0..] == Fields(data, widths)
    ensures Start(widths, 0) == 0 && data[Start(widths, 0)..] == data
  {}

  /** Lengths in ranges: comma-free items are taken exactly when there are enough of them and each one that the
      schema names fits its range; without a schema always. */
  lemma ListExactly(pieces: seq<string>, lengths: seq<FieldLength>, atLeast: nat)
    requires |pieces| > 0 && Free(pieces, ',')
    ensures GetList(Join(pieces, ','), lengths, atLeast) ==
            if lengths == [] ||
               (|pieces| >= atLeast && forall i :: 0 <= i < |pieces| && i < |lengths| ==>
                                         lengths[i].min <= |pieces[i]| <= lengths[i].max)
            then Some(pieces) else None
  {
    hide Split, Join;
    SplitJoin(pieces, ',');
  }

  // ---- Numbers ----

  /** `stou` */
  function Stou(s: string): Option<nat> {
    match Stoul(s)
    case None => None
    case Some(n) => Some(AsUnsigned(n))
  }

  function Numbers(list: seq<string>): Option<seq<nat>> {
    if list == [] then Some([])
    else
      match Stou(list[0])
      case None => None
      case Some(n) =>
        match Numbers(list[1..])
        case None => None
        case Some(rest) => Some([n] + rest)
  }

  lemma StouOfNumber(s: string)
    requires IsNumeric(s) && |s| <= 4
    ensures Stou(s) == Some(Val(s))
  {
    hide Val, Stoul, Pow10;
    ValBound(s);
    SmallPowers(|s|);
    ParseDigits(s);
  }

  /** The fields an inverter writes for the given values. */
  function Printed(values: seq<nat>, widths: seq<nat>): (r: seq<string>)
    requires |values| == |widths|
    ensures |r| == |values|
  {
    seq(|values|, i requires 0 <= i < |values| => Padded(widths[i], values[i]))
  }

  predicate InRange(values: seq<nat>, widths: seq<nat>) {
    |values| == |widths| && forall i :: 0 <= i < |values| ==> 1 <= widths[i] <= 4 && values[i] < Pow10(widths[i])
  }

  lemma PrintedFits(values: seq<nat>, widths: seq<nat>)
    requires InRange(values, widths)
    ensures forall i :: 0 <= i < |values| ==>
              && IsNumeric(Printed(values, widths)[i]) && Val(Printed(values, widths)[i]) == values[i]
              && |Printed(values, widths)[i]| == widths[i]
  {
    hide Val, Padded, Pow10;
    forall i | 0 <= i < |values|
      ensures && IsNumeric(Printed(values, widths)[i]) && Val(Printed(values, widths)[i]) == values[i]
              && |Printed(values, widths)[i]| == widths[i]
    {
      PaddedNumber(widths[i], values[i]);
    }
  }

  lemma {:induction false} NumbersOf(list: seq<string>, values: seq<nat>)
    requires |list| == |values|
    requires forall i :: 0 <= i < |list| ==> IsNumeric(list[i]) && |list[i]| <= 4 && Val(list[i]) == values[i]
    ensures Numbers(list) == Some(values)
  {
    hide Val, Stou;
    if list != [] {
      StouOfNumber(list[0]);
      NumbersOf(list[1..], values[1..]);
      assert values == [values[0]] + values[1..];
    }
  }

  /** Values in range survive printing, joining, splitting, the schema check and parsing. */
  lemma ListRoundTrip(values: seq<nat>, widths: seq<nat>)
    requires |widths| > 0 && InRange(values, widths)
    ensures var data := Join(Printed(values, widths), ',');
            && GetList(data, Schema(widths), |widths|) == Some(Printed(values, widths))
            && Numbers(Printed(values, widths)) == Some(values)
  {
    hide Val, Split, Join, Numbers;
    var list := Printed(values, widths);
    PrintedFits(values, widths);
    NumbersOf(list, values);
    assert Free(list, ',');
    SplitJoin(list, ',');
  }
}
