/**
 Canonical positive quantities: four independent validators
 (electron/faucetApi.ts:236-250, electron/firstReleaseFeeQuoteResponse.ts:236-252,
 electron/firstReleaseInstructionBuilders.ts:21-42, electron/governanceCapabilities.ts:291-310)
 and the one place that prints a quantity (electron/governanceValidationFee.ts:1218-1229).
 */
module Quantities {
  import opened Bytes
  import opened Positional

  const MAX_SCALE := 28
  const MAX_SIGNIFICANT_DIGITS := 154

  /** 2^511 - 1 */
  const MAX_MANTISSA: int :=
    0x7fffffffffffffffffffffffffffffffffffffffffffffffffffffffffffffffffffffffffffffffffffffffffffffffffffffffffffffffffffffffffffffff

  // ---------------------------------------------------------------- decimal text

  predicate IsDigit(c: char) { '0' <= c <= '9' }

  predicate IsDigits(s: string) { forall i :: 0 <= i < |s| ==> IsDigit(s[i]) }

  function DigitsOf(s: string): (d: seq<int>)
    requires IsDigits(s)
    ensures |d| == |s| && InRange(d, 10)
  {
    seq(|s|, i requires 0 <= i < |s| => s[i] as int - '0' as int)
  }

  /** `BigInt` of a digit string. */
  function Big(s: string): (n: int)
    requires IsDigits(s)
    ensures n >= 0
  {
    ValueNonNegative(DigitsOf(s), 10);
    Value(DigitsOf(s), 10)
  }

  /** A literal before and after its first point. */
  datatype Parts = Parts(whole: string, fraction: Option<string>)

  function PointAt(s: string): (i: nat)
    ensures i <= |s| && (i < |s| ==> s[i] == '.') && forall k :: 0 <= k < i ==> s[k] != '.'
  {
    if s == "" || s[0] == '.' then 0 else 1 + PointAt(s[1..])
  }

  function Split(s: string): Parts {
    var i := PointAt(s);
    if i == |s| then Parts(s, None) else Parts(s[..i], Some(s[i + 1..]))
  }

  function FractionOf(p: Parts): string { if p.fraction.Some? then p.fraction.value else "" }

  /** The literal without its point. */
  function Mantissa(p: Parts): (m: string)
    ensures IsDigits(p.whole) && IsDigits(FractionOf(p)) ==> IsDigits(m)
  {
    p.whole + FractionOf(p)
  }

  /** Zero, or digits without a leading zero. */
  predicate IsWhole(s: string) { IsDigits(s) && s != "" && (s == "0" || s[0] != '0') }

  predicate EndsNonZero(s: string) { IsDigits(s) && s != "" && s[|s| - 1] != '0' }

  /** A canonical positive quantity within range. */
  predicate IsQuantity(s: string) {
    var p := Split(s);
    && IsWhole(p.whole) && (p.fraction.Some? ==> EndsNonZero(p.fraction.value)) && |FractionOf(p)| <= MAX_SCALE
    && 0 < Big(Mantissa(p)) <= MAX_MANTISSA
  }

  function StripZeros(s: string): (r: string)
    ensures |r| <= |s| && r == s[|s| - |r|..] && (r != "" ==> r[0] != '0')
    ensures forall i :: 0 <= i < |s| - |r| ==> s[i] == '0'
    ensures IsDigits(s) ==> IsDigits(r)
  {
    if s == "" || s[0] != '0' then s else StripZeros(s[1..])
  }

  // ---------------------------------------------------------------- the validators

  /** faucetApi: the two alternatives of its pattern, then scale and mantissa. */
  predicate FaucetAccepts(s: string) {
    var p := Split(s);
    && (if p.fraction.None? then IsDigits(p.whole) && p.whole != "" && p.whole[0] != '0'
        else IsWhole(p.whole) && EndsNonZero(p.fraction.value))
    && |FractionOf(p)| <= MAX_SCALE && Big(Mantissa(p)) <= MAX_MANTISSA
  }

  /** firstReleaseFeeQuoteResponse: the mantissa without leading zeros is bounded in digits and in value. */
  predicate FeeQuoteAccepts(s: string) {
    var p := Split(s);
    && IsWhole(p.whole)
    && (p.fraction.Some? ==> EndsNonZero(p.fraction.value) && |p.fraction.value| <= MAX_SCALE)
    && var mantissa := StripZeros(Mantissa(p));
       mantissa != "" && |mantissa| <= MAX_SIGNIFICANT_DIGITS && Big(mantissa) <= MAX_MANTISSA
  }

  /** firstReleaseInstructionBuilders: the literal, the scale, the digits and the mantissa are bounded. */
  predicate TransferAccepts(s: string) {
    var p := Split(s);
    && |s| <= MAX_SIGNIFICANT_DIGITS + MAX_SCALE + 1
    && IsWhole(p.whole) && (p.fraction.Some? ==> EndsNonZero(p.fraction.value))
    && var stripped := StripZeros(Mantissa(p));
       var digits := if stripped == "" then "0" else stripped;
       |FractionOf(p)| <= MAX_SCALE && |digits| <= MAX_SIGNIFICANT_DIGITS && Big(digits) <= MAX_MANTISSA
         && Big(digits) != 0
  }

  /** governanceCapabilities with the positive option: any fraction digits, but not a final zero. */
  predicate CapabilityAccepts(s: string) {
    var p := Split(s);
    && IsWhole(p.whole) && (p.fraction.Some? ==> IsDigits(p.fraction.value) && p.fraction.value != "")
    && |FractionOf(p)| <= MAX_SCALE && !(FractionOf(p) != "" && FractionOf(p)[|FractionOf(p)| - 1] == '0')
    && 0 < Big(Mantissa(p)) <= MAX_MANTISSA
  }

  // ---------------------------------------------------------------- the two bounds coincide

  lemma PowerOne(base: nat)
    ensures Power(base, 1) == base
  {
    assert Power(base, 0) == 1;
  }

  lemma MaxMantissa()
    ensures MAX_MANTISSA == Power(2, 511) - 1
  {
    hide Power;
    PowerOne(2);
    PowerAdds(2, 1, 1); PowerAdds(2, 2, 2); PowerAdds(2, 4, 4); PowerAdds(2, 8, 8);
    PowerAdds(2, 16, 16); PowerAdds(2, 32, 32); PowerAdds(2, 64, 64); PowerAdds(2, 128, 128);
    PowerAdds(2, 1, 2); PowerAdds(2, 3, 4); PowerAdds(2, 7, 8); PowerAdds(2, 15, 16);
    PowerAdds(2, 31, 32); PowerAdds(2, 63, 64); PowerAdds(2, 127, 128); PowerAdds(2, 255, 256);
  }

  /** 10^154 exceeds 2^511 - 1. */
  lemma DigitBound()
    ensures Power(10, MAX_SIGNIFICANT_DIGITS) > MAX_MANTISSA
  {
    hide Power;
    PowerOne(10);
    PowerAdds(10, 1, 1); PowerAdds(10, 2, 2); PowerAdds(10, 4, 4); PowerAdds(10, 8, 8);
    PowerAdds(10, 16, 16); PowerAdds(10, 32, 32); PowerAdds(10, 64, 64);
    PowerAdds(10, 2, 8); PowerAdds(10, 10, 16); PowerAdds(10, 26, 128);
  }

  lemma {:induction false} PowerPositive(base: nat, n: nat)
    requires base > 0
    ensures Power(base, n) > 0
  {
    if n == 0 {
    } else {
      PowerPositive(base, n - 1);
      MulMonotone(1, base, 1, Power(base, n - 1));
    }
  }

  /** So a mantissa in range never has more than 154 digits. */
  lemma MantissaDigits(s: string)
    requires IsDigits(s) && Big(s) <= MAX_MANTISSA && (s != "" ==> s[0] != '0')
    ensures |s| <= MAX_SIGNIFICANT_DIGITS
  {
    hide Power, Value;
    if |s| > MAX_SIGNIFICANT_DIGITS {
      var more := |s| - 1 - MAX_SIGNIFICANT_DIGITS;
      ValueAbove(DigitsOf(s), 10);
      DigitBound();
      PowerAdds(10, MAX_SIGNIFICANT_DIGITS, more);
      PowerPositive(10, more);
      MulMonotone(Power(10, MAX_SIGNIFICANT_DIGITS), Power(10, MAX_SIGNIFICANT_DIGITS), 1, Power(10, more));
    }
  }

  lemma StripDigits(s: string)
    requires IsDigits(s)
    ensures IsDigits(StripZeros(s)) && DigitsOf(s) == Zeros(|s| - |StripZeros(s)|) + DigitsOf(StripZeros(s))
  {
    hide StripZeros;
    var r := StripZeros(s);
    var k := |s| - |r|;
    assert r == s[k..];
    assert forall i :: 0 <= i < |r| ==> IsDigit(s[k + i]) && r[i] == s[k + i];
  }

  lemma ValueNone(d: seq<int>)
    ensures d == [] ==> Value(d, 10) == 0
  {
  }

  lemma WholePositive(s: string)
    requires IsDigits(s) && s != "" && s[0] != '0'
    ensures Big(s) > 0
  {
    ValuePositive(DigitsOf(s), 10);
  }

  lemma StripKeepsValue(s: string)
    requires IsDigits(s)
    ensures IsDigits(StripZeros(s)) && Big(StripZeros(s)) == Big(s)
    ensures StripZeros(s) == "" <==> Big(s) == 0
  {
    hide Value, IsDigits, DigitsOf, Zeros;
    var r := StripZeros(s);
    StripDigits(s);
    ValueLeadingZeros(|s| - |r|, DigitsOf(r), 10);
    if r != "" {
      WholePositive(r);
    } else {
      ValueNone(DigitsOf(r));
    }
  }

  /** A fraction that does not end in zero makes the mantissa positive. */
  lemma EndsPositive(whole: string, fraction: string)
    requires IsDigits(whole) && EndsNonZero(fraction)
    ensures Big(whole + fraction) > 0 && Big(whole + fraction) % 10 != 0
  {
    hide Value;
    var d := DigitsOf(whole + fraction);
    var n := |d| - 1;
    assert d[n] == fraction[|fraction| - 1] as int - '0' as int && 0 < d[n] < 10;
    assert d == d[..n] + [d[n]];
    ValueSnoc(d[..n], d[n], 10);
    ValueNonNegative(d[..n], 10);
  }

  // ---------------------------------------------------------------- the validators agree

  lemma FaucetIsQuantity(s: string)
    ensures FaucetAccepts(s) <==> IsQuantity(s)
  {
    hide Value;
    var p := Split(s);
    if p.fraction.Some? {
      if IsWhole(p.whole) && EndsNonZero(p.fraction.value) {
        EndsPositive(p.whole, p.fraction.value);
      }
    } else {
      assert p.whole + "" == p.whole;
      if IsDigits(p.whole) && p.whole != "" {
        if p.whole[0] != '0' {
          WholePositive(p.whole);
        } else if p.whole == "0" {
          StripKeepsValue("0");
        }
      }
    }
  }

  lemma FeeQuoteIsQuantity(s: string)
    ensures FeeQuoteAccepts(s) <==> IsQuantity(s)
  {
    hide Big, StripZeros, Split;
    var p := Split(s);
    if IsDigits(p.whole) && IsDigits(FractionOf(p)) {
      StripKeepsValue(Mantissa(p));
      if Big(Mantissa(p)) <= MAX_MANTISSA {
        MantissaDigits(StripZeros(Mantissa(p)));
      }
    }
  }

  lemma StripNothing(s: string)
    requires s == "" || s[0] != '0'
    ensures StripZeros(s) == s
  {
  }

  lemma ZeroIsZero()
    ensures StripZeros("0") == "" && IsDigits("0") && Big("0") == 0
  {
    assert "0"[1..] == "";
    assert StripZeros("0") == StripZeros("");
    StripKeepsValue("0");
  }

  lemma TransferIsQuantity(s: string)
    ensures TransferAccepts(s) <==> IsQuantity(s)
  {
    hide Big, StripZeros;
    var p := Split(s);
    if IsDigits(p.whole) && IsDigits(FractionOf(p)) {
      StripKeepsValue(Mantissa(p));
      StripKeepsValue("0");
      if Big(Mantissa(p)) <= MAX_MANTISSA {
        MantissaDigits(StripZeros(Mantissa(p)));
        if IsWhole(p.whole) && p.whole[0] != '0' {
          StripNothing(Mantissa(p));
        }
      }
      ZeroIsZero();
    }
  }

  lemma CapabilityIsQuantity(s: string)
    ensures CapabilityAccepts(s) <==> IsQuantity(s)
  {
    hide Big;
  }

  /** The four validators accept the same literals. */
  lemma ValidatorsAgree(s: string)
    ensures FaucetAccepts(s) == FeeQuoteAccepts(s) == TransferAccepts(s) == CapabilityAccepts(s) == IsQuantity(s)
  {
    hide FaucetAccepts, FeeQuoteAccepts, TransferAccepts, CapabilityAccepts, IsQuantity;
    FaucetIsQuantity(s);
    FeeQuoteIsQuantity(s);
    TransferIsQuantity(s);
    CapabilityIsQuantity(s);
  }

  // ---------------------------------------------------------------- one literal for each value

  /** The two literals denote the same number: their mantissas agree once scaled alike. */
  ghost predicate SameValue(a: string, b: string)
    requires IsQuantity(a) && IsQuantity(b)
  {
    Big(Mantissa(Split(a))) * Power(10, |FractionOf(Split(b))|)
      == Big(Mantissa(Split(b))) * Power(10, |FractionOf(Split(a))|)
  }

  lemma Cancel(m: int, n: int, p: int)
    requires p > 0 && m * p == n * p
    ensures m == n
  {
    DivMod(m, 0, p);
    DivMod(n, 0, p);
  }

  /** Of two literals for the same number, the one with more fraction digits has a final zero. */
  lemma ScaledEndsInZero(m: int, i: nat, n: int, j: nat)
    requires i < j && m * Power(10, j) == n * Power(10, i)
    ensures n % 10 == 0
  {
    hide Power;
    var p, q := Power(10, j - i - 1), Power(10, i);
    PowerOne(10);
    PowerAdds(10, 1, j - i - 1);
    PowerAdds(10, j - i, i);
    PowerPositive(10, i);
    assert m * ((10 * p) * q) == (10 * (m * p)) * q;
    Cancel(10 * (m * p), n, q);
  }

  lemma {:induction false} SameLengthSameDigits(a: seq<int>, b: seq<int>)
    requires |a| == |b| && InRange(a, 10) && InRange(b, 10) && Value(a, 10) == Value(b, 10)
    ensures a == b
  {
    if a == [] {
    } else {
      var n := |a| - 1;
      assert 0 <= a[n] < 10 && 0 <= b[n] < 10;
      SameLengthSameDigits(a[..n], b[..n]);
      assert a == a[..n] + [a[n]] && b == b[..n] + [b[n]];
    }
  }

  lemma SameDigitsSameText(a: string, b: string)
    requires IsDigits(a) && IsDigits(b) && DigitsOf(a) == DigitsOf(b)
    ensures a == b
  {
    forall i | 0 <= i < |a|
      ensures a[i] == b[i]
    {
      assert DigitsOf(a)[i] == DigitsOf(b)[i];
    }
  }

  lemma WholeText(s: string)
    requires IsWhole(s)
    ensures s == "0" ==> Big(s) == 0
    ensures s != "0" ==> Big(s) > 0 && DigitsOf(s) == Digits(Big(s), 10)
  {
    hide Value, Digits;
    ZeroIsZero();
    if s != "0" {
      WholePositive(s);
      DigitsUnique(DigitsOf(s), 10);
    }
  }

  lemma WholesEqual(a: string, b: string)
    requires IsWhole(a) && IsWhole(b) && Big(a) == Big(b)
    ensures a == b
  {
    hide Big, Digits, DigitsOf;
    WholeText(a);
    WholeText(b);
    if a != "0" {
      SameDigitsSameText(a, b);
    }
  }

  lemma MantissaSplits(p: Parts)
    requires IsDigits(p.whole) && IsDigits(FractionOf(p))
    ensures Big(Mantissa(p)) == Big(p.whole) * Power(10, |FractionOf(p)|) + Big(FractionOf(p))
    ensures Big(FractionOf(p)) < Power(10, |FractionOf(p)|)
  {
    hide Value, Power;
    assert DigitsOf(Mantissa(p)) == DigitsOf(p.whole) + DigitsOf(FractionOf(p));
    ValueConcat(DigitsOf(p.whole), DigitsOf(FractionOf(p)), 10);
    ValueBelow(DigitsOf(FractionOf(p)), 10);
  }

  lemma WholeDigits(s: string)
    requires IsWhole(s)
    ensures IsDigits(s) && s != ""
  {
  }

  lemma PartsEqual(p: Parts, q: Parts)
    requires IsWhole(p.whole) && (p.fraction.Some? ==> EndsNonZero(p.fraction.value))
    requires IsWhole(q.whole) && (q.fraction.Some? ==> EndsNonZero(q.fraction.value))
    requires |FractionOf(p)| == |FractionOf(q)| && Big(Mantissa(p)) == Big(Mantissa(q))
    ensures p == q
  {
    hide Value, Power, IsWhole;
    WholeDigits(p.whole);
    WholeDigits(q.whole);
    MantissaSplits(p);
    MantissaSplits(q);
    var e := Power(10, |FractionOf(p)|);
    PowerPositive(10, |FractionOf(p)|);
    DivMod(Big(p.whole), Big(FractionOf(p)), e);
    DivMod(Big(q.whole), Big(FractionOf(q)), e);
    WholesEqual(p.whole, q.whole);
    SameLengthSameDigits(DigitsOf(FractionOf(p)), DigitsOf(FractionOf(q)));
    SameDigitsSameText(FractionOf(p), FractionOf(q));
  }

  lemma SplitDetermines(a: string, b: string)
    requires Split(a) == Split(b)
    ensures a == b
  {
    var i, j := PointAt(a), PointAt(b);
    if i < |a| {
      assert a == a[..i] + ['.'] + a[i + 1..] && b == b[..j] + ['.'] + b[j + 1..];
    }
  }

  lemma QuantityParts(s: string)
    requires IsQuantity(s)
    ensures var p := Split(s);
      IsWhole(p.whole) && (p.fraction.Some? ==> EndsNonZero(p.fraction.value)) && IsDigits(FractionOf(p))
        && IsDigits(Mantissa(p))
  {
    hide Big, Split;
  }

  lemma FractionEnds(s: string)
    requires IsQuantity(s)
    ensures var p := Split(s); |FractionOf(p)| > 0 ==> Big(Mantissa(p)) % 10 != 0
  {
    hide Big, Split;
    var p := Split(s);
    if p.fraction.Some? {
      WholeDigits(p.whole);
      EndsPositive(p.whole, p.fraction.value);
    }
  }

  /** Every accepted literal is the only accepted one for its value. */
  lemma OneLiteral(a: string, b: string)
    requires IsQuantity(a) && IsQuantity(b) && SameValue(a, b)
    ensures a == b
  {
    hide Power, Big, Split, IsWhole, IsDigits, EndsNonZero;
    QuantityParts(a);
    QuantityParts(b);
    var p, q := Split(a), Split(b);
    var i, j := |FractionOf(p)|, |FractionOf(q)|;
    FractionEnds(a);
    FractionEnds(b);
    if i < j {
      ScaledEndsInZero(Big(Mantissa(p)), i, Big(Mantissa(q)), j);
    } else if j < i {
      ScaledEndsInZero(Big(Mantissa(q)), j, Big(Mantissa(p)), i);
    } else {
      PowerPositive(10, i);
      Cancel(Big(Mantissa(p)), Big(Mantissa(q)), Power(10, i));
      PartsEqual(p, q);
      SplitDetermines(a, b);
    }
  }

  // ---------------------------------------------------------------- minor units

  function DigitChar(d: int): (c: char)
    requires 0 <= d < 10
    ensures IsDigit(c) && c as int - '0' as int == d
  {
    '0' + d as char
  }

  function TextOf(digits: seq<int>): (s: string)
    requires InRange(digits, 10)
    ensures IsDigits(s) && DigitsOf(s) == digits
  {
    seq(|digits|, i requires 0 <= i < |digits| => DigitChar(digits[i]))
  }

  /** The decimal text of a `BigInt`. */
  function DecimalText(n: nat): (s: string)
    ensures IsDigits(s)
  {
    DigitsDenote(n, 10);
    if n == 0 then "0" else TextOf(Digits(n, 10))
  }

  /** `formatMinorUnits`: always two fraction digits. */
  function FormatMinorUnits(n: nat): string {
    DecimalText(n / 100) + "." + [DigitChar(n % 100 / 10), DigitChar(n % 10)]
  }

  function TrimZeros(s: string): string {
    if s != "" && s[|s| - 1] == '0' then TrimZeros(s[..|s| - 1]) else s
  }

  /** `canonicalQuantityFromMinorUnits` */
  function CanonicalFromMinorUnits(n: nat): string {
    var p := Split(FormatMinorUnits(n));
    var trimmed := TrimZeros(FractionOf(p));
    if trimmed != "" then p.whole + "." + trimmed else p.whole
  }

  lemma TextReads(d: seq<int>)
    requires InRange(d, 10) && d != [] && d[0] != 0
    ensures IsWhole(TextOf(d)) && Big(TextOf(d)) == Value(d, 10)
  {
    hide Value, DigitsOf;
    assert TextOf(d)[0] == DigitChar(d[0]);
  }

  lemma DecimalTextReads(n: nat)
    ensures IsWhole(DecimalText(n)) && Big(DecimalText(n)) == n
  {
    hide Value, Digits, TextOf, Big;
    ZeroIsZero();
    DigitsDenote(n, 10);
    if n != 0 {
      ValueNone(Digits(n, 10));
      TextReads(Digits(n, 10));
    }
  }

  lemma {:induction false} SplitPoint(whole: string, fraction: string)
    requires IsDigits(whole)
    ensures Split(whole + "." + fraction) == Parts(whole, Some(fraction))
  {
    var s := whole + "." + fraction;
    assert s[|whole|] == '.' && forall k :: 0 <= k < |whole| ==> s[k] == whole[k];
    assert PointAt(s) == |whole|;
  }

  lemma SplitWhole(whole: string)
    requires IsDigits(whole)
    ensures Split(whole) == Parts(whole, None)
  {
  }

  lemma TrimSnoc(s: string, d: int)
    requires 0 <= d < 10
    ensures TrimZeros(s + [DigitChar(d)]) == if d == 0 then TrimZeros(s) else s + [DigitChar(d)]
    ensures TrimZeros("") == ""
  {
    assert (s + [DigitChar(d)])[..|s|] == s;
  }

  lemma TwoDigits(a: int, b: int)
    requires 0 <= a < 10 && 0 <= b < 10
    ensures var s := [DigitChar(a), DigitChar(b)]; Big(s) == 10 * a + b && Big(s[..1]) == a
    ensures TrimZeros([DigitChar(a), DigitChar(b)]) ==
      if b != 0 then [DigitChar(a), DigitChar(b)] else if a != 0 then [DigitChar(a)] else ""
  {
    hide Value;
    var s := [DigitChar(a), DigitChar(b)];
    assert DigitsOf(s) == [a] + [b] && DigitsOf(s[..1]) == [] + [a];
    ValueSnoc([a], b, 10);
    ValueSnoc([], a, 10);
    ValueNone([]);
    assert [] + [a] == [a];
    assert s[..|s| - 1] == [DigitChar(a)];
    TrimSnoc([DigitChar(a)], b);
    TrimSnoc("", a);
    assert "" + [DigitChar(a)] == [DigitChar(a)] && [DigitChar(a)] + [DigitChar(b)] == s;
  }

  lemma TimesPower(n: int)
    ensures n * Power(10, 0) == n && n * Power(10, 1) == n * 10 && n * Power(10, 2) == n * 100
  {
    assert Power(10, 0) == 1 && Power(10, 1) == 10 && Power(10, 2) == 100;
  }

  lemma LastDigit(k: nat, d: nat)
    requires d < 10
    ensures (10 * k + d) % 10 == d && (10 * k + d) / 10 == k
  {
  }

  lemma ThreeParts(n: nat)
    ensures n == n / 100 * 100 + n % 100 / 10 * 10 + n % 10
  {
    var q, m := n / 100, n % 100;
    var t, u := m / 10, m % 10;
    assert n == 100 * q + m && m == 10 * t + u;
    assert n == 10 * (10 * q + t) + u;
    LastDigit(10 * q + t, u);
  }

  lemma FractionDenotes(whole: string, fraction: string)
    requires IsWhole(whole) && Big(whole) <= MAX_SAFE_INTEGER && EndsNonZero(fraction) && |fraction| <= 2
    ensures var s := whole + "." + fraction;
      IsQuantity(s) && Big(Mantissa(Split(s))) == Big(whole) * (if |fraction| == 1 then 10 else 100) + Big(fraction)
  {
    hide Big, Split, Power;
    SplitPoint(whole, fraction);
    MantissaSplits(Parts(whole, Some(fraction)));
    EndsPositive(whole, fraction);
    TimesPower(Big(whole));
    TimesPower(1);
  }

  lemma WholeDenotes(whole: string)
    requires IsWhole(whole) && 0 < Big(whole) <= MAX_SAFE_INTEGER
    ensures IsQuantity(whole) && Big(Mantissa(Split(whole))) == Big(whole)
  {
    hide Big, Split;
    SplitWhole(whole);
    assert whole + "" == whole;
  }

  /** The printed fee is always a canonical quantity, and denotes the minor units over 100. */
  lemma MinorUnitsDenote(n: nat)
    requires 0 < n <= MAX_SAFE_INTEGER
    ensures var s := CanonicalFromMinorUnits(n);
      IsQuantity(s) && Big(Mantissa(Split(s))) * 100 == n * Power(10, |FractionOf(Split(s))|)
  {
    hide Big, Split, TrimZeros, DecimalText, Power, IsQuantity, Mantissa;
    var w, a, b := n / 100, n % 100 / 10, n % 10;
    var whole, fraction := DecimalText(w), [DigitChar(a), DigitChar(b)];
    DecimalTextReads(w);
    SplitPoint(whole, fraction);
    TwoDigits(a, b);
    ThreeParts(n);
    TimesPower(n);
    if b != 0 {
      FractionDenotes(whole, fraction);
      SplitPoint(whole, fraction);
    } else if a != 0 {
      assert fraction[..1] == [DigitChar(a)];
      FractionDenotes(whole, fraction[..1]);
      SplitPoint(whole, fraction[..1]);
    } else {
      WholeDenotes(whole);
      SplitWhole(whole);
    }
  }
}
