/** Positional notation: big-endian digits and the numbers they denote. */
module Positional {
  import opened Bytes

  /** The number that big-endian digits denote. */
  function Value(digits: seq<int>, base: int): int {
    if digits == [] then 0
    else Value(digits[..|digits| - 1], base) * base + digits[|digits| - 1]
  }

  lemma MulMonotone(a: int, b: int, c: int, d: int)
    requires 0 <= a <= b && 0 <= c <= d
    ensures a * c <= b * d
  {
    assert b * d - a * c == (b - a) * d + a * (d - c);
  }

  lemma Smaller(n: int, base: int)
    requires n > 0 && base >= 2
    ensures 0 <= n / base < n
  {
    var q := n / base;
    assert n == q * base + n % base;
    if q >= n {
      MulMonotone(n, q, 2, base);
    }
    if q < 0 {
      MulMonotone(1, -q, 1, base);
    }
  }

  /** The digits of a number, most significant first and without leading zeros. */
  function Digits(n: nat, base: int): seq<int>
    requires base >= 2
    decreases n
  {
    if n == 0 then [] else Smaller(n, base); Digits(n / base, base) + [n % base]
  }

  ghost predicate InRange(digits: seq<int>, base: int) {
    forall i :: 0 <= i < |digits| ==> 0 <= digits[i] < base
  }

  lemma DivMod(q: int, r: int, base: int)
    requires 0 <= r < base
    ensures (q * base + r) / base == q && (q * base + r) % base == r
  {
    var n := q * base + r;
    assert n == (n / base) * base + n % base;
    if n / base > q {
      MulMonotone(1, n / base - q, base, base);
    } else if n / base < q {
      MulMonotone(1, q - n / base, base, base);
    }
  }

  lemma {:induction false} ValueNonNegative(digits: seq<int>, base: int)
    requires InRange(digits, base)
    ensures Value(digits, base) >= 0
  {
    if digits == [] {
    } else {
      var n := |digits| - 1;
      assert 0 <= digits[n] < base;
      ValueNonNegative(digits[..n], base);
      MulMonotone(0, Value(digits[..n], base), 0, base);
    }
  }

  /** A number with a non-zero leading digit is positive. */
  lemma {:induction false} ValuePositive(digits: seq<int>, base: int)
    requires InRange(digits, base) && base >= 2 && digits != [] && digits[0] != 0
    ensures Value(digits, base) > 0
  {
    var n := |digits| - 1;
    if n > 0 {
      ValuePositive(digits[..n], base);
      MulMonotone(1, Value(digits[..n], base), 1, base);
    } else {
      assert digits[..0] == [];
    }
  }

  lemma ValueSnoc(digits: seq<int>, d: int, base: int)
    ensures Value(digits + [d], base) == Value(digits, base) * base + d
    ensures Value([], base) == 0
  {
    assert (digits + [d])[..|digits|] == digits;
  }

  lemma DigitsUnfold(n: nat, base: int)
    requires base >= 2
    ensures n > 0 ==> 0 <= n / base < n && Digits(n, base) == Digits(n / base, base) + [n % base]
    ensures Digits(0, base) == []
  {
    if n > 0 {
      Smaller(n, base);
    }
  }

  lemma QuotientRemainder(n: nat, base: int)
    requires base >= 2
    ensures n == n / base * base + n % base && 0 <= n % base < base
  {
  }

  /** The digits of a number denote it, are in range, and do not start with zero. */
  lemma {:induction false} DigitsDenote(n: nat, base: int)
    requires base >= 2
    ensures Value(Digits(n, base), base) == n && InRange(Digits(n, base), base)
    ensures n > 0 ==> Digits(n, base) != []
    ensures Digits(n, base) != [] ==> Digits(n, base)[0] != 0
    decreases n
  {
    hide Digits, Value;
    DigitsUnfold(n, base);
    ValueSnoc([], 0, base);
    if n == 0 {
    } else {
      var q, r := n / base, n % base;
      QuotientRemainder(n, base);
      DigitsDenote(q, base);
      ValueSnoc(Digits(q, base), r, base);
      DigitsUnfold(0, base);
      assert q == 0 ==> r == n;
    }
  }

  /** Digits without leading zeros are the digits of the number they denote. */
  lemma {:induction false} DigitsUnique(digits: seq<int>, base: int)
    requires InRange(digits, base) && base >= 2 && (digits != [] ==> digits[0] != 0)
    ensures Value(digits, base) >= 0 && Digits(Value(digits, base), base) == digits
  {
    ValueNonNegative(digits, base);
    if digits == [] {
    } else {
      var n := |digits| - 1;
      var front, v := digits[..n], Value(digits[..n], base);
      DigitsUnique(front, base);
      ValuePositive(digits, base);
      DivMod(v, digits[n], base);
      assert digits == front + [digits[n]];
    }
  }

  lemma {:induction false} ValueLeadingZeros(zeros: nat, digits: seq<int>, base: int)
    ensures Value(Zeros(zeros) + digits, base) == Value(digits, base)
    decreases |digits|, zeros
  {
    var all := Zeros(zeros) + digits;
    if digits != [] {
      assert all[..|all| - 1] == Zeros(zeros) + digits[..|digits| - 1];
      ValueLeadingZeros(zeros, digits[..|digits| - 1], base);
    } else if zeros > 0 {
      assert all[..|all| - 1] == Zeros(zeros - 1) + digits;
      ValueLeadingZeros(zeros - 1, digits, base);
    }
  }

  function Power(base: nat, n: nat): nat {
    if n == 0 then 1 else base * Power(base, n - 1)
  }

  lemma {:induction false} PowerAdds(base: nat, m: nat, n: nat)
    ensures Power(base, m + n) == Power(base, m) * Power(base, n)
  {
    if m == 0 {
    } else {
      PowerAdds(base, m - 1, n);
      assert base * (Power(base, m - 1) * Power(base, n)) == (base * Power(base, m - 1)) * Power(base, n);
    }
  }

  lemma PowerNext(base: nat, n: nat)
    ensures Power(base, 0) == 1 && Power(base, n + 1) == base * Power(base, n)
  {
  }

  lemma Shift(v: int, p: int, w: int, d: int, base: int)
    ensures (v * p + w) * base + d == v * (base * p) + (w * base + d)
  {
    assert (v * p) * base == v * (base * p);
  }

  /** Appending digits shifts the number and adds theirs. */
  lemma {:induction false} ValueConcat(a: seq<int>, b: seq<int>, base: nat)
    ensures Value(a + b, base) == Value(a, base) * Power(base, |b|) + Value(b, base)
  {
    hide Value, Power;
    if b == [] {
      assert a + b == a;
      PowerNext(base, 0);
      ValueSnoc([], 0, base);
    } else {
      var n := |b| - 1;
      ValueConcat(a, b[..n], base);
      assert a + b == (a + b[..n]) + [b[n]] && b == b[..n] + [b[n]];
      ValueSnoc(a + b[..n], b[n], base);
      ValueSnoc(b[..n], b[n], base);
      PowerNext(base, n);
      Shift(Value(a, base), Power(base, n), Value(b[..n], base), b[n], base);
    }
  }

  /** k digits denote less than base to the k. */
  lemma {:induction false} ValueBelow(digits: seq<int>, base: nat)
    requires InRange(digits, base)
    ensures 0 <= Value(digits, base) < Power(base, |digits|)
  {
    hide Value, Power;
    if digits == [] {
      ValueSnoc([], 0, base);
      PowerNext(base, 0);
    } else {
      var n := |digits| - 1;
      assert 0 <= digits[n] < base;
      ValueBelow(digits[..n], base);
      assert digits == digits[..n] + [digits[n]];
      ValueSnoc(digits[..n], digits[n], base);
      PowerNext(base, n);
      var v, p := Value(digits[..n], base), Power(base, n);
      MulMonotone(v, p - 1, base, base);
      MulMonotone(0, v, 0, base);
      assert (p - 1) * base == base * p - base;
    }
  }

  /** With a non-zero leading digit they denote at least base to the k - 1. */
  lemma {:induction false} ValueAbove(digits: seq<int>, base: nat)
    requires InRange(digits, base) && base >= 2 && digits != [] && digits[0] != 0
    ensures Value(digits, base) >= Power(base, |digits| - 1)
  {
    hide Value, Power;
    var n := |digits| - 1;
    assert 0 <= digits[n] < base;
    assert digits == digits[..n] + [digits[n]];
    ValueSnoc(digits[..n], digits[n], base);
    if n == 0 {
      PowerNext(base, 0);
    } else {
      ValueAbove(digits[..n], base);
      PowerNext(base, n - 1);
      MulMonotone(Power(base, n - 1), Value(digits[..n], base), base, base);
    }
  }
}
