/** Voltages in whole tenths, through the float comparisons of the validator and the double arithmetic of the
    encoder (src/p18/commands.cc:257-270, 304-321, 389-397; src/p18/client.cc:166-191). */
module Voltages {
  import Types
  import opened Text
  import opened Commands
  import opened Decoder

  /** The text denotes `t` tenths. */
  predicate IsTenths(s: string, t: int) { Stod(s) == Some(t as real / 10.0) }

  lemma FloatOfEnds()
    ensures Float(584 as real / 10.0) > DOUBLE_58_4
    ensures Float(480 as real / 10.0) == 48.0 && Float(400 as real / 10.0) == 40.0
  {}

  /** Charging voltages in whole tenths are accepted from 48.0 to 58.3: 58.4 itself, the limit in the code, is
      refused, because its float lies above its double. */
  lemma ChargeVoltagesExactly(s: string, t: int)
    requires IsTenths(s, t)
    ensures VoltsIn(s, 48.0, DOUBLE_58_4) <==> 480 <= t <= 583
  {
    hide Float, Stod;
    FloatOfEnds();
    FloatClose(t as real / 10.0);
  }

  /** Cut-off voltages in whole tenths are accepted from 40.0 to 48.0. */
  lemma CutOffVoltagesExactly(s: string, t: int)
    requires IsTenths(s, t)
    ensures VoltsIn(s, 40.0, 48.0) <==> 400 <= t <= 480
  {
    hide Float, Stod;
    FloatOfEnds();
    FloatClose(t as real / 10.0);
  }

  /** Thresholds in whole tenths are accepted exactly when they are in the table. */
  lemma ThresholdsExactly(s: string, t: int, table: seq<nat>)
    requires IsTenths(s, t)
    ensures VoltsOneOf(s, table) <==> t in table
  {
    hide Float, Stod;
    FloatClose(t as real / 10.0);
    if VoltsOneOf(s, table) {
      var i :| 0 <= i < |table| && Float(Stod(s).value) == Float(table[i] as real / 10.0);
      FloatClose(table[i] as real / 10.0);
      assert table[i] == t;
    }
  }

  /** And what is sent for them is exactly that many tenths. */
  lemma WholeTenthsAreSent(s: string, t: int)
    requires IsTenths(s, t) && t >= 0
    ensures Volts(s) == t
  {
    hide Stod, Tenths;
    TenthsAreClose(t as real / 10.0, t);
  }

  /** The limit as a user would type it. */
  lemma LimitIsRefused()
    ensures IsTenths("58.4", 584) && !VoltsIn("58.4", 48.0, DOUBLE_58_4)
    ensures !Acceptable(Types.SetBatteryMaxChargeVoltage, ["58.4", "58.4"])
  {
    hide Stod, Float, IsTenths, VoltsIn;
    LimitText();
    ChargeVoltagesExactly("58.4", 584);
  }

  lemma LimitText()
    ensures IsTenths("58.4", 584)
  {
    hide Val, DigitRun;
    assert "58.4" == "58" + ".4" && "58.4"[..2] == "58" && "58.4"[3..] == "4" && "4" + "" == "4" && "4"[..1] == "4";
    DigitRunAll("58", ".4");
    DigitRunAll("4", "");
    FiftyEightAndFour();
    assert Pow10(1) == 10;
  }

  lemma FiftyEightAndFour()
    ensures AllDigits("58") && Val("58") == 58 && AllDigits("4") && Val("4") == 4
  {
    assert "58"[..1] == "5" && "5"[..0] == "" && "4"[..0] == "";
  }
}
