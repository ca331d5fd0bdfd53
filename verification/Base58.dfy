/**
 Base58 by in-place long division, both ways
 (electron/firstReleaseFeeQuoteResponse.ts:52-56, 153-234).
 */
module Base58 {
  import opened Bytes
  import opened Positional

  // ---------------------------------------------------------------- conversion

  function LeadingZeros(digits: seq<int>): (n: nat)
    ensures n <= |digits| && (n < |digits| ==> digits[n] != 0)
    ensures forall i :: 0 <= i < n ==> digits[i] == 0
  {
    if digits == [] || digits[0] != 0 then 0 else 1 + LeadingZeros(digits[1..])
  }

  /** The same number in another base, with as many leading zeros. */
  function Convert(digits: seq<int>, from: int, to: int): seq<int>
    requires InRange(digits, from) && to >= 2
  {
    ValueNonNegative(digits, from);
    Zeros(LeadingZeros(digits)) + Digits(Value(digits, from), to)
  }

  lemma LeadingZerosOf(zeros: nat, digits: seq<int>)
    requires digits != [] ==> digits[0] != 0
    ensures LeadingZeros(Zeros(zeros) + digits) == zeros
  {
    var all := Zeros(zeros) + digits;
    assert forall i :: 0 <= i < zeros ==> all[i] == 0;
    assert digits != [] ==> all[zeros] == digits[0];
  }

  lemma SplitLeadingZeros(digits: seq<int>)
    ensures digits == Zeros(LeadingZeros(digits)) + digits[LeadingZeros(digits)..]
  {
    hide LeadingZeros;
    var n := LeadingZeros(digits);
    forall i | 0 <= i < |digits|
      ensures digits[i] == (Zeros(n) + digits[n..])[i]
    {
    }
  }

  /** Converting there and back gives the digits back. */
  lemma ConvertBack(digits: seq<int>, from: int, to: int)
    requires InRange(digits, from) && from >= 2 && to >= 2
    ensures InRange(Convert(digits, from, to), to) && Convert(Convert(digits, from, to), to, from) == digits
  {
    hide Value, Digits, LeadingZeros;
    ValueNonNegative(digits, from);
    var v, zeros := Value(digits, from), LeadingZeros(digits);
    var rest := digits[zeros..];
    DigitsDenote(v, to);
    LeadingZerosOf(zeros, Digits(v, to));
    ValueLeadingZeros(zeros, Digits(v, to), to);
    SplitLeadingZeros(digits);
    ValueLeadingZeros(zeros, rest, from);
    DigitsUnique(rest, from);
  }

  // ---------------------------------------------------------------- long division in place

  lemma ValueEmpty(a: seq<int>, b: seq<int>, base: int)
    requires a == [] && b == []
    ensures Value(a, base) == Value(b, base) == 0
  {
  }

  lemma QuotientBelow(n: int, q: int, r: int, from: int, to: int)
    requires n == q * to + r && 0 <= r < to && 0 <= n < from * to
    ensures 0 <= q < from
  {
    if q >= from {
      MulMonotone(from, q, to, to);
    } else if q < 0 {
      MulMonotone(1, -q, to, to);
    }
  }

  lemma DivideDigit(remainder: int, digit: int, from: int, to: int)
    requires 0 <= remainder < to && 0 <= digit < from && to >= 2
    ensures 0 <= (remainder * from + digit) / to < from
    ensures 0 <= (remainder * from + digit) % to < to
  {
    var n := remainder * from + digit;
    MulMonotone(0, remainder, 0, from);
    MulMonotone(remainder, to - 1, from, from);
    assert n < from * to;
    QuotientRemainder(n, to);
    QuotientBelow(n, n / to, n % to, from, to);
  }

  lemma NextDigit(value: int, quotient: int, remainder: int, digit: int, from: int, to: int)
    requires to != 0 && value == quotient * to + remainder
    ensures var n := remainder * from + digit;
      value * from + digit == (quotient * from + n / to) * to + n % to
  {
    var n := remainder * from + digit;
    assert n == (n / to) * to + n % to;
    assert value * from == (quotient * to) * from + remainder * from;
    assert (quotient * from + n / to) * to == (quotient * from) * to + (n / to) * to;
    assert (quotient * to) * from == (quotient * from) * to;
  }

  /** One long division of the digits from `start` on; the quotient replaces them. */
  method DivideInPlace(scratch: array<int>, start: nat, from: int, to: int) returns (remainder: int)
    requires start <= scratch.Length && from >= 2 && to >= 2 && InRange(scratch[..], from)
    modifies scratch
    ensures InRange(scratch[..], from) && 0 <= remainder < to
    ensures scratch[..start] == old(scratch[..start])
    ensures Value(old(scratch[start..]), from) == Value(scratch[start..], from) * to + remainder
  {
    hide Value;
    remainder := 0;
    var index := start;
    ghost var before := scratch[..];
    ValueEmpty(before[start..index], scratch[start..index], from);
    while index < scratch.Length
      invariant start <= index <= scratch.Length && 0 <= remainder < to
      invariant forall k :: 0 <= k < start || index <= k < scratch.Length ==> scratch[k] == before[k]
      invariant InRange(scratch[..], from)
      invariant Value(before[start..index], from) == Value(scratch[start..index], from) * to + remainder
    {
      ghost var quotient := scratch[start..index];
      var digit := scratch[index];
      var accumulator := remainder * from + digit;
      DivideDigit(remainder, digit, from, to);
      scratch[index] := accumulator / to;
      NextDigit(Value(before[start..index], from), Value(quotient, from), remainder, digit, from, to);
      remainder := accumulator % to;
      index := index + 1;
      assert scratch[start..index] == quotient + [accumulator / to];
      assert before[start..index] == before[start..index - 1] + [digit];
      ValueSnoc(quotient, accumulator / to, from);
      ValueSnoc(before[start..index - 1], digit, from);
    }
    assert before[start..] == before[start..index] && scratch[start..] == scratch[start..index];
  }

  function Reversed(s: seq<int>): (r: seq<int>)
    ensures |r| == |s|
  {
    if s == [] then [] else Reversed(s[1..]) + [s[0]]
  }

  lemma {:induction false} ReversedSnoc(s: seq<int>, x: int)
    ensures Reversed(s + [x]) == [x] + Reversed(s)
  {
    if s == [] {
    } else {
      assert (s + [x])[1..] == s[1..] + [x];
      ReversedSnoc(s[1..], x);
    }
  }

  lemma {:induction false} ReversedZeros(s: seq<int>, n: nat)
    ensures Reversed(s + Zeros(n)) == Zeros(n) + Reversed(s)
  {
    if n == 0 {
      assert s + Zeros(0) == s && Zeros(0) + Reversed(s) == Reversed(s);
    } else {
      ReversedZeros(s, n - 1);
      assert s + Zeros(n) == (s + Zeros(n - 1)) + [0];
      ReversedSnoc(s + Zeros(n - 1), 0);
      assert Zeros(n) == [0] + Zeros(n - 1);
    }
  }

  /** The first index at or after `start` whose digit is not zero. */
  method SkipZeros(scratch: array<int>, start: nat) returns (first: nat)
    requires start <= scratch.Length
    ensures start <= first <= scratch.Length && (first < scratch.Length ==> scratch[first] != 0)
    ensures scratch[start..] == Zeros(first - start) + scratch[first..]
  {
    hide Zeros;
    first := start;
    while first < scratch.Length && scratch[first] == 0
      invariant start <= first <= scratch.Length
      invariant forall k :: start <= k < first ==> scratch[k] == 0
    {
      first := first + 1;
    }
    ghost var zeros := Zeros(first - start);
    assert scratch[start..] == scratch[start..first] + scratch[first..];
    assert scratch[start..first] == zeros;
  }

  lemma DigitsNext(v: int, q: int, r: int, to: int)
    requires v > 0 && to >= 2 && 0 <= r < to && v == q * to + r && q >= 0
    ensures Digits(v, to) == Digits(q, to) + [r] && q < v
  {
    DivMod(q, r, to);
    Smaller(v, to);
  }

  lemma InRangeTail(digits: seq<int>, start: nat, base: int)
    requires start <= |digits| && InRange(digits, base)
    ensures InRange(digits[start..], base)
  {
  }

  lemma NoDigits(digits: seq<int>, from: int, to: int)
    requires digits == [] && to >= 2
    ensures Value(digits, from) == 0 && Digits(0, to) == []
  {
  }

  /** Repeated long division; the digits come out least significant first. */
  method ConvertInPlace(scratch: array<int>, from: int, to: int) returns (digits: seq<int>)
    requires from >= 2 && to >= 2 && InRange(scratch[..], from)
    modifies scratch
    ensures digits == Convert(old(scratch[..]), from, to)
  {
    hide Value, Digits, InRange;
    ghost var before := scratch[..];
    ValueNonNegative(before, from);
    ghost var v := Value(before, from);
    var leadingZeroCount := SkipZeros(scratch, 0);
    assert scratch[0..] == before;
    LeadingZerosOf(leadingZeroCount, scratch[leadingZeroCount..]);
    ValueLeadingZeros(leadingZeroCount, scratch[leadingZeroCount..], from);
    var converted: seq<int> := [];
    var start := leadingZeroCount;
    InRangeTail(scratch[..], start, from);
    ValueNonNegative(scratch[start..], from);
    assert Reversed([]) == [] && Digits(v, to) + [] == Digits(v, to);
    while start < scratch.Length
      invariant leadingZeroCount <= start <= scratch.Length && (start < scratch.Length ==> scratch[start] != 0)
      invariant InRange(scratch[..], from) && Value(scratch[start..], from) >= 0
      invariant Digits(v, to) == Digits(Value(scratch[start..], from), to) + Reversed(converted)
      decreases Value(scratch[start..], from)
    {
      ghost var current := Value(scratch[start..], from);
      InRangeTail(scratch[..], start, from);
      assert scratch[start..] == scratch[..][start..];
      ValuePositive(scratch[start..], from);
      var remainder := DivideInPlace(scratch, start, from, to);
      InRangeTail(scratch[..], start, from);
      assert scratch[start..] == scratch[..][start..];
      ValueNonNegative(scratch[start..], from);
      DigitsNext(current, Value(scratch[start..], from), remainder, to);
      ReversedSnoc(converted, remainder);
      assert Digits(v, to) == Digits(Value(scratch[start..], from), to) + ([remainder] + Reversed(converted));
      converted := converted + [remainder];
      var next := SkipZeros(scratch, start);
      ValueLeadingZeros(next - start, scratch[next..], from);
      start := next;
    }
    NoDigits(scratch[start..], from, to);
    assert Digits(v, to) == Reversed(converted);
    ReversedZeros(converted, leadingZeroCount);
    digits := Reversed(converted + Zeros(leadingZeroCount));
  }

  // ---------------------------------------------------------------- Base58 text

  /** The alphabet's index of a character: it leaves out 0, I, O and l. */
  function DigitOf(c: char): Option<int> {
    if '1' <= c <= '9' then Some(c as int - '1' as int)
    else if 'A' <= c <= 'H' then Some(c as int - 'A' as int + 9)
    else if 'J' <= c <= 'N' then Some(c as int - 'J' as int + 17)
    else if 'P' <= c <= 'Z' then Some(c as int - 'P' as int + 22)
    else if 'a' <= c <= 'k' then Some(c as int - 'a' as int + 33)
    else if 'm' <= c <= 'z' then Some(c as int - 'm' as int + 44)
    else None
  }

  function CharOf(d: int): (c: char)
    requires 0 <= d < 58
    ensures DigitOf(c) == Some(d)
  {
    if d < 9 then '1' + d as char
    else if d < 17 then 'A' + (d - 9) as char
    else if d < 22 then 'J' + (d - 17) as char
    else if d < 33 then 'P' + (d - 22) as char
    else if d < 44 then 'a' + (d - 33) as char
    else 'm' + (d - 44) as char
  }

  lemma CharOfDigit(c: char)
    requires DigitOf(c).Some?
    ensures 0 <= DigitOf(c).value < 58 && CharOf(DigitOf(c).value) == c
  {
  }

  /** A non-empty text of alphabet characters. */
  predicate IsBase58(literal: string) {
    literal != "" && forall i :: 0 <= i < |literal| ==> DigitOf(literal[i]).Some?
  }

  function TextDigits(literal: string): (d: seq<int>)
    requires IsBase58(literal)
    ensures |d| == |literal| && InRange(d, 58)
  {
    seq(|literal|, i requires 0 <= i < |literal| => CharOfDigit(literal[i]); DigitOf(literal[i]).value)
  }

  function DigitsText(digits: seq<int>): string
    requires InRange(digits, 58)
  {
    seq(|digits|, i requires 0 <= i < |digits| => CharOf(digits[i]))
  }

  function ByteDigits(bytes: seq<Byte>): (d: seq<int>)
    ensures InRange(d, 256)
  {
    seq(|bytes|, i requires 0 <= i < |bytes| => bytes[i] as int)
  }

  function DigitBytes(digits: seq<int>): seq<Byte>
    requires InRange(digits, 256)
  {
    seq(|digits|, i requires 0 <= i < |digits| => digits[i])
  }

  lemma ConvertInRange(digits: seq<int>, from: int, to: int)
    requires InRange(digits, from) && from >= 2 && to >= 2
    ensures InRange(Convert(digits, from, to), to)
  {
    ConvertBack(digits, from, to);
  }

  function Decode(literal: string): Option<seq<Byte>> {
    if !IsBase58(literal) then None
    else
      ConvertInRange(TextDigits(literal), 58, 256);
      Some(DigitBytes(Convert(TextDigits(literal), 58, 256)))
  }

  function Encode(bytes: seq<Byte>): string {
    ConvertInRange(ByteDigits(bytes), 256, 58);
    DigitsText(Convert(ByteDigits(bytes), 256, 58))
  }

  method DecodeBase58(literal: string) returns (decoded: Option<seq<Byte>>)
    ensures decoded == Decode(literal)
  {
    if !IsBase58(literal) {
      return None;
    }
    var digits := TextDigits(literal);
    var scratch := new int[|digits|](i requires 0 <= i < |digits| => digits[i]);
    assert scratch[..] == digits;
    ConvertInRange(digits, 58, 256);
    var bytes := ConvertInPlace(scratch, 58, 256);
    return Some(DigitBytes(bytes));
  }

  method EncodeBase58(bytes: seq<Byte>) returns (encoded: string)
    ensures encoded == Encode(bytes)
  {
    var digits := ByteDigits(bytes);
    var scratch := new int[|digits|](i requires 0 <= i < |digits| => digits[i]);
    assert scratch[..] == digits;
    ConvertInRange(digits, 256, 58);
    var converted := ConvertInPlace(scratch, 256, 58);
    return DigitsText(converted);
  }

  // ---------------------------------------------------------------- both directions undo each other

  lemma {:induction false} ConvertNonEmpty(digits: seq<int>, from: int, to: int)
    requires InRange(digits, from) && from >= 2 && to >= 2 && digits != []
    ensures Convert(digits, from, to) != []
  {
    ConvertBack(digits, from, to);
    if Convert(digits, from, to) == [] {
      NoDigits([], to, from);
    }
  }

  lemma DecodeEncode(bytes: seq<Byte>)
    requires bytes != []
    ensures Decode(Encode(bytes)) == Some(bytes)
  {
    hide Convert;
    var digits := ByteDigits(bytes);
    ConvertBack(digits, 256, 58);
    ConvertNonEmpty(digits, 256, 58);
    var converted := Convert(digits, 256, 58);
    var text := Encode(bytes);
    assert IsBase58(text);
    assert TextDigits(text) == converted;
    assert DigitBytes(digits) == bytes;
  }

  lemma EncodeDecode(literal: string)
    requires IsBase58(literal)
    ensures Decode(literal).Some? && Encode(Decode(literal).value) == literal
  {
    hide Convert;
    var digits := TextDigits(literal);
    ConvertBack(digits, 58, 256);
    var bytes := Decode(literal).value;
    assert ByteDigits(bytes) == Convert(digits, 58, 256);
    forall i | 0 <= i < |literal|
      ensures DigitsText(digits)[i] == literal[i]
    {
      CharOfDigit(literal[i]);
    }
  }

  /** The bytes of an asset definition id have one literal only. */
  lemma DecodeInjective(a: string, b: string)
    requires IsBase58(a) && IsBase58(b) && Decode(a) == Decode(b)
    ensures a == b
  {
    EncodeDecode(a);
    EncodeDecode(b);
  }

  // ---------------------------------------------------------------- asset definition ids

  const ADDRESS_VERSION := 1
  const ADDRESS_LENGTH := 21

  /** The version, a version-4 UUID and the first four bytes of its hash. */
  predicate IsAddress(bytes: seq<Byte>, blake3: seq<Byte> -> seq<Byte>) {
    && |bytes| == ADDRESS_LENGTH && bytes[0] == ADDRESS_VERSION
    && bytes[7] / 16 == 4 && bytes[9] / 64 == 2
    && |blake3(bytes[..17])| >= 4 && blake3(bytes[..17])[..4] == bytes[17..]
  }

  lemma DecodedIsBase58(literal: string)
    requires Decode(literal).Some?
    ensures IsBase58(literal)
  {
  }

  /**
   `requireCanonicalAssetDefinitionId`: the comparison with the text encoded again never
   decides anything, so exactly the Base58 texts of addresses are accepted.
   */
  method RequireCanonicalAssetDefinitionId(value: string, blake3: seq<Byte> -> seq<Byte>) returns (accepted: bool)
    ensures accepted <==> Decode(value).Some? && IsAddress(Decode(value).value, blake3)
  {
    hide Decode, Encode;
    var decoded := DecodeBase58(value);
    if decoded.None? {
      return false;
    }
    DecodedIsBase58(value);
    EncodeDecode(value);
    var bytes := decoded.value;
    if |bytes| != ADDRESS_LENGTH || bytes[0] != ADDRESS_VERSION {
      return false;
    }
    var encoded := EncodeBase58(bytes);
    if encoded != value {
      return false;
    }
    var uuid, hash := bytes[1..17], blake3(bytes[..17]);
    if uuid[6] / 16 != 4 || uuid[8] / 64 != 2 || |hash| < 4 || hash[..4] != bytes[17..] {
      return false;
    }
    return true;
  }
}
