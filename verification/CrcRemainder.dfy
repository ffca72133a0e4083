/** The checksum as what its name says: a polynomial remainder over GF(2). Polynomials are coefficient
    sequences, highest power first. */
module CrcRemainder {
  import opened Crc
  import opened CrcTheory
  import opened CrcErrors

  /** x^16 + x^12 + x^5 + 1 */
  const G: seq<bool> := [true, false, false, false, true, false, false, false, false, false, false, true,
                         false, false, false, false, true]

  function Scale(t: bool, p: seq<bool>): (r: seq<bool>)
    ensures |r| == |p|
  {
    if t then p else Zeros(|p|)
  }

  /** The product q * G. */
  function TimesG(q: seq<bool>): (p: seq<bool>)
    ensures |p| == |q| + 16
  {
    if q == [] then Zeros(16)
    else
      var n := |q| - 1;
      XorBits(TimesG(q[..n]) + [false], Zeros(n) + Scale(q[n], G))
  }

  predicate Has(c: bv16, mask: bv16) { c & mask != 0 }

  function RegisterBits(c: bv16): seq<bool> {
    [Has(c, 0x8000), Has(c, 0x4000), Has(c, 0x2000), Has(c, 0x1000),
     Has(c, 0x800), Has(c, 0x400), Has(c, 0x200), Has(c, 0x100),
     Has(c, 0x80), Has(c, 0x40), Has(c, 0x20), Has(c, 0x10),
     Has(c, 8), Has(c, 4), Has(c, 2), Has(c, 1)]
  }

  predicate IsShift(d: bv16, c: bv16) { d == c << 1 }

  predicate IsSubtract(d: bv16, c: bv16) { d == c ^ 0x1021 }

  lemma ShiftBit(c: bv16, d: bv16, mask: bv16)
    requires mask & 0x8000 == 0 && IsShift(d, c)
    ensures Has(d, mask << 1) == Has(c, mask)
  {
    assert (c << 1) & (mask << 1) == (c & mask) << 1;
  }

  lemma ShiftLow(c: bv16, d: bv16)
    requires IsShift(d, c)
    ensures !Has(d, 1)
  {}

  lemma ShiftCoefficients(c: bv16, d: bv16)
    requires IsShift(d, c)
    ensures RegisterBits(d) == RegisterBits(c)[1..] + [false]
  {
    ShiftBit(c, d, 0x4000);
    ShiftBit(c, d, 0x2000);
    ShiftBit(c, d, 0x1000);
    ShiftBit(c, d, 0x800);
    ShiftBit(c, d, 0x400);
    ShiftBit(c, d, 0x200);
    ShiftBit(c, d, 0x100);
    ShiftBit(c, d, 0x80);
    ShiftBit(c, d, 0x40);
    ShiftBit(c, d, 0x20);
    ShiftBit(c, d, 0x10);
    ShiftBit(c, d, 8);
    ShiftBit(c, d, 4);
    ShiftBit(c, d, 2);
    ShiftBit(c, d, 1);
    ShiftLow(c, d);
  }

  lemma KeepBit(c: bv16, d: bv16, mask: bv16)
    requires mask & 0x1021 == 0 && IsSubtract(d, c)
    ensures Has(d, mask) == Has(c, mask)
  {
    assert (c ^ 0x1021) & mask == c & mask;
  }

  lemma FlipBits(c: bv16, d: bv16)
    requires IsSubtract(d, c)
    ensures Has(d, 0x1000) != Has(c, 0x1000)
    ensures Has(d, 0x20) != Has(c, 0x20)
    ensures Has(d, 1) != Has(c, 1)
  {}

  lemma SubtractG(p: seq<bool>)
    requires |p| == 16
    ensures XorBits(p, G[1..]) ==
            [p[0], p[1], p[2], !p[3], p[4], p[5], p[6], p[7],
             p[8], p[9], !p[10], p[11], p[12], p[13], p[14], !p[15]]
  {}

  lemma SubtractCoefficients(c: bv16, d: bv16)
    requires IsSubtract(d, c)
    ensures RegisterBits(d) == XorBits(RegisterBits(c), G[1..])
  {
    SubtractG(RegisterBits(c));
    FlipBits(c, d);
    KeepBit(c, d, 0x8000);
    KeepBit(c, d, 0x4000);
    KeepBit(c, d, 0x2000);
    KeepBit(c, d, 0x800);
    KeepBit(c, d, 0x400);
    KeepBit(c, d, 0x200);
    KeepBit(c, d, 0x100);
    KeepBit(c, d, 0x80);
    KeepBit(c, d, 0x40);
    KeepBit(c, d, 0x10);
    KeepBit(c, d, 8);
    KeepBit(c, d, 4);
    KeepBit(c, d, 2);
  }

  lemma SubtractNothing(p: seq<bool>)
    ensures XorBits(p, Zeros(|p|)) == p
  {}

  /** One bit of the division, on coefficients. */
  lemma StepOnCoefficients(c: bv16, b: bool, next: bv16)
    requires next == BitStep(c, b)
    ensures RegisterBits(next) ==
            XorBits(RegisterBits(c)[1..] + [false], Scale(RegisterBits(c)[0] != b, G[1..]))
  {
    ShiftCoefficients(c, c << 1);
    SubtractCoefficients(c << 1, (c << 1) ^ 0x1021);
    SubtractNothing(RegisterBits(c << 1));
  }

  /** m * x^16 == q * G + r, with r of degree below 16 */
  predicate Divides(m: seq<bool>, q: seq<bool>, r: seq<bool>) {
    && |q| == |m| && |r| == 16
    && m + Zeros(16) == XorBits(TimesG(q), Zeros(|m|) + r)
  }

  lemma ProductOneMore(m: seq<bool>, t: bool)
    ensures TimesG(m + [t]) == XorBits(TimesG(m) + [false], Zeros(|m|) + Scale(t, G))
  {
    assert (m + [t])[..|m|] == m;
  }

  lemma DivideOneMore(m: seq<bool>, b: bool, q: seq<bool>, r: seq<bool>, r': seq<bool>)
    requires Divides(m, q, r)
    requires r' == XorBits(r[1..] + [false], Scale(r[0] != b, G[1..]))
    ensures Divides(m + [b], q + [r[0] != b], r')
  {
    var t, n := r[0] != b, |m|;
    var p := TimesG(q);
    var p' := TimesG(q + [t]);
    ProductOneMore(q, t);
    var lhs, rhs := m + [b] + Zeros(16), XorBits(p', Zeros(n + 1) + r');
    forall i | 0 <= i < n + 17
      ensures lhs[i] == rhs[i]
    {
      if i < n + 16 {
        assert (m + Zeros(16))[i] == (p[i] != (Zeros(n) + r)[i]);
      }
    }
  }

  lemma BitSerialSnoc(m: seq<bool>, b: bool)
    ensures BitSerial(0, m + [b]) == BitStep(BitSerial(0, m), b)
  {
    BitSerialConcat(0, m, [b]);
    BitSerialCons(BitSerial(0, m), b, []);
    assert [b] + [] == [b];
  }

  lemma {:induction false} DivisionExists(bits: seq<bool>) returns (q: seq<bool>)
    ensures Divides(bits, q, RegisterBits(BitSerial(0, bits)))
  {
    if bits == [] {
      q := [];
      assert RegisterBits(0) == Zeros(16);
    } else {
      var n := |bits| - 1;
      var m, b := bits[..n], bits[n];
      assert bits == m + [b];
      q := DivisionExists(m);
      var r, next := RegisterBits(BitSerial(0, m)), BitSerial(0, bits);
      BitSerialSnoc(m, b);
      StepOnCoefficients(BitSerial(0, m), b, next);
      DivideOneMore(m, b, q, r, RegisterBits(next));
      q := q + [r[0] != b];
    }
  }

  lemma XorAt(a: seq<bool>, b: seq<bool>, i: nat)
    requires |a| == |b| && i < |a|
    ensures XorBits(a, b)[i] == (a[i] != b[i])
  {}

  lemma ScaledAt(n: nat, t: bool, i: nat)
    requires i <= n
    ensures i < |Zeros(n) + Scale(t, G)| && (Zeros(n) + Scale(t, G))[i] == (i == n && t)
  {
    assert Scale(t, G)[0] == t;
  }

  /** The coefficients of a longer product, down to its last leading one. */
  lemma LeadingCoefficient(m: seq<bool>, t: bool, i: nat)
    requires i <= |m|
    ensures TimesG(m + [t])[i] == (TimesG(m)[i] != (i == |m| && t))
  {
    hide TimesG, Scale, XorBits;
    ProductOneMore(m, t);
    XorAt(TimesG(m) + [false], Zeros(|m|) + Scale(t, G), i);
    ScaledAt(|m|, t, i);
  }

  /** The leading coefficients of q * G determine q. */
  lemma {:induction false} LeadingDetermines(q: seq<bool>, q': seq<bool>)
    requires |q| == |q'|
    requires forall i :: 0 <= i < |q| ==> TimesG(q)[i] == TimesG(q')[i]
    ensures q == q'
  {
    hide TimesG;
    if q != [] {
      var n := |q| - 1;
      assert q == q[..n] + [q[n]] && q' == q'[..n] + [q'[n]];
      forall i | 0 <= i < n
        ensures TimesG(q[..n])[i] == TimesG(q'[..n])[i]
      {
        LeadingCoefficient(q[..n], q[n], i);
        LeadingCoefficient(q'[..n], q'[n], i);
      }
      LeadingDetermines(q[..n], q'[..n]);
      LeadingCoefficient(q[..n], q[n], n);
      LeadingCoefficient(q'[..n], q'[n], n);
    }
  }

  lemma RemainderUnique(m: seq<bool>, q: seq<bool>, r: seq<bool>, q': seq<bool>, r': seq<bool>)
    requires Divides(m, q, r) && Divides(m, q', r')
    ensures q == q' && r == r'
  {
    var n := |m|;
    forall i | 0 <= i < n
      ensures TimesG(q)[i] == TimesG(q')[i]
    {
      assert (m + Zeros(16))[i] == (TimesG(q)[i] != (Zeros(n) + r)[i]);
      assert (m + Zeros(16))[i] == (TimesG(q')[i] != (Zeros(n) + r')[i]);
    }
    LeadingDetermines(q, q');
    forall i | 0 <= i < 16
      ensures r[i] == r'[i]
    {
      assert (m + Zeros(16))[n + i] == (TimesG(q)[n + i] != (Zeros(n) + r)[n + i]);
      assert (m + Zeros(16))[n + i] == (TimesG(q')[n + i] != (Zeros(n) + r')[n + i]);
    }
  }

  /** The table-driven loop computes the one remainder of message * x^16 by x^16 + x^12 + x^5 + 1. */
  lemma CrcIsTheRemainder(bytes: seq<Byte>, r: seq<bool>)
    ensures (exists q :: Divides(MessageBits(bytes), q, r)) <==> r == RegisterBits(RawCrc(bytes))
  {
    var m := MessageBits(bytes);
    TableIsBitSerial(0, bytes);
    var q0 := DivisionExists(m);
    if q :| Divides(m, q, r) {
      RemainderUnique(m, q, r, q0, RegisterBits(RawCrc(bytes)));
    }
  }
}
