/**
 Canonical JSON: the text that decides whether two projections agree and that their
 hash is taken of (electron/governanceValidationFee.ts:1350-1362, used at 309 and
 1150-1152).
 */
module CanonicalJson {
  import opened Bytes
  import opened JsonText
  import opened Sequences

  /**
   A finite number, by the digits that `Number::toString` chooses for it (ECMA-262,
   section 6.1.6.1.20): its absolute value is 0.d1d2d3... times the power of ten. There
   is one zero, as both zeros print alike.
   */
  datatype Numeral = Zero | Scientific(negative: bool, digits: seq<Byte>, point: int)

  /** A JSON value; the fields of an object are in insertion order, each name with its value. */
  datatype Json =
    | Null
    | Bool(b: bool)
    | Number(n: Numeral)
    | String(s: Text)
    | Array(items: seq<Json>)
    | Object(names: seq<Text>, values: seq<Json>)

  predicate IsDigit(b: Byte) { 48 <= b < 58 }

  predicate AllDigits(t: seq<Byte>) {
    forall i :: 0 <= i < |t| ==> IsDigit(t[i])
  }

  /** The digits start and end with one that is not zero. */
  predicate NumeralOk(n: Numeral) {
    n.Scientific? ==> |n.digits| > 0 && AllDigits(n.digits) && n.digits[0] != 48 && n.digits[|n.digits| - 1] != 48
  }

  /** Every object has one value for each name and no name twice. */
  ghost predicate WellFormed(j: Json) {
    match j
    case Array(items) => forall i :: 0 <= i < |items| ==> WellFormed(items[i])
    case Object(names, values) =>
      |names| == |values| && Distinct(names) && forall i :: 0 <= i < |values| ==> WellFormed(values[i])
    case Number(n) => NumeralOk(n)
    case _ => true
  }

  /** Equal but for the order of object fields. */
  ghost predicate SameUpToOrder(a: Json, b: Json) {
    match a
    case Array(items) =>
      && b.Array? && |items| == |b.items|
      && forall i :: 0 <= i < |items| ==> SameUpToOrder(items[i], b.items[i])
    case Object(names, values) =>
      && b.Object? && |names| == |values| == |b.names| == |b.values|
      && forall i :: 0 <= i < |values| ==> HasField(b, names[i], values[i])
    case _ => a == b
  }

  /** The object has a field of this name with the same value. */
  ghost predicate HasField(b: Json, name: Text, value: Json)
    requires b.Object? && |b.names| == |b.values|
    decreases value
  {
    exists j :: 0 <= j < |b.names| && b.names[j] == name && SameUpToOrder(value, b.values[j])
  }

  // ---------------------------------------------------------------- sorting names

  /** Code-unit order, as `sort` without a comparator uses it. */
  predicate Less(a: Text, b: Text) {
    b != [] && (a == [] || a[0] < b[0] || (a[0] == b[0] && Less(a[1..], b[1..])))
  }

  lemma {:induction false} LessTotal(a: Text, b: Text)
    ensures a == b || Less(a, b) || Less(b, a)
    ensures !(Less(a, b) && Less(b, a)) && !Less(a, a)
  {
    if a == [] {
    } else {
      LessTotal(a[1..], a[1..]);
    }
    if a != [] && b != [] {
      LessTotal(a[1..], b[1..]);
      assert a == [a[0]] + a[1..] && b == [b[0]] + b[1..];
    }
  }

  lemma {:induction false} LessTransitive(a: Text, b: Text, c: Text)
    requires Less(a, b) && Less(b, c)
    ensures Less(a, c)
  {
    if a != [] && a[0] == b[0] == c[0] {
      LessTransitive(a[1..], b[1..], c[1..]);
    }
  }

  function Insert(names: seq<Text>, order: seq<nat>, i: nat): (r: seq<nat>)
    requires i < |names| && forall k :: 0 <= k < |order| ==> order[k] < |names|
    ensures |r| == |order| + 1 && forall k :: 0 <= k < |r| ==> r[k] == i || r[k] in order
    ensures i in r && forall o :: o in order ==> o in r
  {
    if order == [] || Less(names[i], names[order[0]]) then [i] + order
    else [order[0]] + Insert(names, order[1..], i)
  }

  /** The positions of the first n names, in the order of the names. */
  function Order(names: seq<Text>, n: nat): (order: seq<nat>)
    requires n <= |names|
    ensures |order| == n && (forall k :: 0 <= k < n ==> order[k] < n) && (forall i :: 0 <= i < n ==> i in order)
  {
    if n == 0 then [] else Insert(names, Order(names, n - 1), n - 1)
  }

  function Sorted(names: seq<Text>): (r: seq<Text>)
    ensures |r| == |names|
  {
    var order := Order(names, |names|);
    seq(|names|, k requires 0 <= k < |names| => names[order[k]])
  }

  ghost predicate Ascending(names: seq<Text>) {
    forall i, j :: 0 <= i < j < |names| ==> Less(names[i], names[j])
  }

  ghost predicate AscendingAt(names: seq<Text>, order: seq<nat>) {
    && (forall k :: 0 <= k < |order| ==> order[k] < |names|)
    && forall i, j :: 0 <= i < j < |order| ==> Less(names[order[i]], names[order[j]])
  }

  lemma {:induction false} InsertAscends(names: seq<Text>, order: seq<nat>, i: nat)
    requires i < |names| && AscendingAt(names, order)
    requires forall k :: 0 <= k < |order| ==> names[order[k]] != names[i]
    ensures AscendingAt(names, Insert(names, order, i))
  {
    hide Less;
    if order == [] {
    } else {
      LessTotal(names[i], names[order[0]]);
      if Less(names[i], names[order[0]]) {
        forall k | 0 < k < |order|
          ensures Less(names[i], names[order[k]])
        {
          LessTransitive(names[i], names[order[0]], names[order[k]]);
        }
      } else {
        InsertAscends(names, order[1..], i);
        var rest := Insert(names, order[1..], i);
        forall k | 0 <= k < |rest|
          ensures Less(names[order[0]], names[rest[k]])
        {
          if rest[k] != i {
            var m :| 0 <= m < |order[1..]| && order[1..][m] == rest[k];
            assert order[m + 1] == rest[k];
          }
        }
      }
    }
  }

  lemma EmptyAscends(names: seq<Text>)
    ensures AscendingAt(names, [])
  {
  }

  lemma {:induction false} OrderAscends(names: seq<Text>, n: nat)
    requires n <= |names| && Distinct(names)
    ensures AscendingAt(names, Order(names, n))
  {
    hide Insert, AscendingAt, Less;
    if n == 0 {
      EmptyAscends(names);
    } else {
      var order := Order(names, n - 1);
      OrderAscends(names, n - 1);
      forall k | 0 <= k < |order|
        ensures names[order[k]] != names[n - 1]
      {
        assert order[k] < n - 1;
      }
      InsertAscends(names, order, n - 1);
    }
  }

  /** Sorted names are ascending and are the same names. */
  lemma SortedNames(names: seq<Text>)
    requires Distinct(names)
    ensures Ascending(Sorted(names)) && forall x :: x in Sorted(names) <==> x in names
  {
    hide Less;
    var n := |names|;
    OrderAscends(names, n);
    forall x | x in names
      ensures x in Sorted(names)
    {
      var i :| 0 <= i < n && names[i] == x;
      var order := Order(names, n);
      assert i in order;
      var k :| 0 <= k < |order| && order[k] == i;
      assert Sorted(names)[k] == x;
    }
  }

  lemma NoNames(names: seq<Text>)
    ensures (forall x :: x !in names) ==> names == []
  {
    if names != [] {
      assert names[0] in names;
    }
  }

  lemma HeadOnce(a: seq<Text>, x: Text)
    requires Ascending(a) && a != []
    ensures x in a[1..] <==> x in a && x != a[0]
  {
    hide Less;
    LessTotal(a[0], a[0]);
    if x in a[1..] {
      var k :| 0 <= k < |a| - 1 && a[1..][k] == x;
      assert a[k + 1] == x && Less(a[0], a[k + 1]);
    }
  }

  lemma {:induction false} AscendingUnique(a: seq<Text>, b: seq<Text>)
    requires Ascending(a) && Ascending(b) && forall x :: x in a <==> x in b
    ensures a == b
  {
    hide Less;
    if a == [] {
      NoNames(b);
    } else {
      assert a[0] in b && b != [] && b[0] in a;
      var j :| 0 <= j < |b| && b[j] == a[0];
      var i :| 0 <= i < |a| && a[i] == b[0];
      LessTotal(a[0], b[0]);
      assert a[0] == b[0];
      forall x
        ensures x in a[1..] <==> x in b[1..]
      {
        HeadOnce(a, x);
        HeadOnce(b, x);
      }
      AscendingUnique(a[1..], b[1..]);
      assert a == [a[0]] + a[1..] && b == [b[0]] + b[1..];
    }
  }

  // ---------------------------------------------------------------- the text

  function Decimal(n: nat): (t: seq<Byte>)
    ensures |t| > 0 && forall i :: 0 <= i < |t| ==> 48 <= t[i] < 58
  {
    if n < 10 then [48 + n] else Decimal(n / 10) + [48 + n % 10]
  }

  function ZeroDigits(n: nat): (t: seq<Byte>)
    ensures |t| == n && forall i :: 0 <= i < n ==> t[i] == 48
  {
    seq(n, i => 48)
  }

  /** The parts of a printed number: digits, digits behind a point, and an exponent of ten if it is not 0. */
  datatype Form = Form(whole: seq<Byte>, fraction: seq<Byte>, exponent: int)

  /** The form of the unsigned number, as `Number::toString` lays it out. */
  function FormOf(n: Numeral): Form
    requires NumeralOk(n)
  {
    if n.Zero? then Form([48], [], 0)
    else if |n.digits| <= n.point <= 21 then Form(n.digits + ZeroDigits(n.point - |n.digits|), [], 0)
    else if 0 < n.point <= 21 then Form(n.digits[..n.point], n.digits[n.point..], 0)
    else if -6 < n.point <= 0 then Form([48], ZeroDigits(-n.point) + n.digits, 0)
    else Form(n.digits[..1], n.digits[1..], n.point - 1)
  }

  function FractionText(f: Form): seq<Byte> {
    if f.fraction == [] then [] else [46] + f.fraction
  }

  function Sign(n: int): Byte { if n > 0 then 43 else 45 }

  function Magnitude(n: int): nat { if n > 0 then n else -n }

  function ExponentText(f: Form): seq<Byte> {
    if f.exponent == 0 then [] else [101, Sign(f.exponent)] + Decimal(Magnitude(f.exponent))
  }

  function FormText(f: Form): seq<Byte> {
    f.whole + FractionText(f) + ExponentText(f)
  }

  predicate Negative(n: Numeral) { n.Scientific? && n.negative }

  function NumberText(n: Numeral): seq<Byte> {
    if !NumeralOk(n) then []
    else (if Negative(n) then [45] else []) + FormText(FormOf(n))
  }

  function Literal(j: Json): seq<Byte>
    requires !j.Array? && !j.Object?
  {
    match j
    case Null => NULL_TEXT
    case Bool(b) => BoolText(b)
    case Number(n) => NumberText(n)
    case String(s) => Quote(s)
  }

  /** `canonicalJson` */
  function Canonical(j: Json): seq<Byte> {
    match j
    case Array(items) => ArrayText(seq(|items|, i requires 0 <= i < |items| => Canonical(items[i])))
    case Object(names, values) =>
      var order := Order(names, |names|);
      ObjectText(seq(|names|, k requires 0 <= k < |names| =>
                       if order[k] < |values| then FieldText(names[order[k]], Canonical(values[order[k]])) else []))
    case _ => Literal(j)
  }

  /** The value with the fields of every object in the order of their names. */
  function SortFields(j: Json): Json {
    match j
    case Array(items) => Array(seq(|items|, i requires 0 <= i < |items| => SortFields(items[i])))
    case Object(names, values) =>
      var order := Order(names, |names|);
      Object(Sorted(names),
             seq(|names|, k requires 0 <= k < |names| =>
                   if order[k] < |values| then SortFields(values[order[k]]) else Null))
    case _ => j
  }

  /** The text with fields in the order they have. */
  function Print(j: Json): seq<Byte> {
    match j
    case Array(items) => ArrayText(seq(|items|, i requires 0 <= i < |items| => Print(items[i])))
    case Object(names, values) =>
      if |names| != |values| then []
      else ObjectText(seq(|names|, k requires 0 <= k < |names| => FieldText(names[k], Print(values[k]))))
    case _ => Literal(j)
  }

  lemma {:induction false} CanonicalPrintsSorted(j: Json)
    requires WellFormed(j)
    ensures Canonical(j) == Print(SortFields(j))
  {
    match j
    case Array(items) =>
      forall i | 0 <= i < |items|
        ensures Canonical(items[i]) == Print(SortFields(items[i]))
      {
        CanonicalPrintsSorted(items[i]);
      }
      var sorted := SortFields(j);
      assert seq(|items|, i requires 0 <= i < |items| => Canonical(items[i]))
          == seq(|sorted.items|, i requires 0 <= i < |sorted.items| => Print(sorted.items[i]));
    case Object(names, values) =>
      var order := Order(names, |names|);
      forall k | 0 <= k < |names|
        ensures Canonical(values[order[k]]) == Print(SortFields(values[order[k]]))
      {
        CanonicalPrintsSorted(values[order[k]]);
      }
      var sorted := SortFields(j);
      assert seq(|names|, k requires 0 <= k < |names| =>
                   if order[k] < |values| then FieldText(names[order[k]], Canonical(values[order[k]])) else [])
          == seq(|sorted.names|, k requires 0 <= k < |sorted.names| =>
                   FieldText(sorted.names[k], Print(sorted.values[k])));
    case _ =>
  }

  // ---------------------------------------------------------------- the text determines the value

  /** The text goes on with nothing that could extend a number. */
  predicate Stops(x: seq<Byte>) {
    x == [] || x[0] == 44 || x[0] == 93 || x[0] == 125
  }

  function DecimalValue(t: seq<Byte>): int {
    if t == [] then 0 else DecimalValue(t[..|t| - 1]) * 10 + (t[|t| - 1] as int - 48)
  }

  lemma {:induction false} DecimalReads(n: nat)
    ensures DecimalValue(Decimal(n)) == n
  {
    if n >= 10 {
      DecimalReads(n / 10);
      var t := Decimal(n);
      assert t[..|t| - 1] == Decimal(n / 10);
    } else {
      assert Decimal(n)[..0] == [];
    }
  }

  /** What follows the shorter of two runs of digits starts with a digit. */
  lemma DigitsGoOn(a: seq<Byte>, b: seq<Byte>, x: seq<Byte>, y: seq<Byte>)
    requires |a| < |b| && a + x == b + y && forall i :: 0 <= i < |b| ==> IsDigit(b[i])
    ensures |x| > 0 && IsDigit(x[0])
  {
    assert |x| == |b| + |y| - |a|;
    assert x[0] == (a + x)[|a|] == (b + y)[|a|] == b[|a|];
  }

  lemma SameDecimal(m: nat, n: nat, x: seq<Byte>, y: seq<Byte>)
    requires |Decimal(m)| == |Decimal(n)| && Decimal(m) + x == Decimal(n) + y
    ensures m == n && x == y
  {
    hide Decimal;
    var a, b := Decimal(m), Decimal(n);
    assert a == (a + x)[..|a|] == (b + y)[..|a|] == b;
    assert x == (a + x)[|a|..] == (b + y)[|a|..] == y;
    DecimalReads(m);
    DecimalReads(n);
  }

  lemma DecimalPrefixFree(m: nat, n: nat, x: seq<Byte>, y: seq<Byte>)
    requires Stops(x) && Stops(y) && Decimal(m) + x == Decimal(n) + y
    ensures m == n && x == y
  {
    hide Decimal;
    if |Decimal(m)| < |Decimal(n)| {
      DigitsGoOn(Decimal(m), Decimal(n), x, y);
    } else if |Decimal(n)| < |Decimal(m)| {
      DigitsGoOn(Decimal(n), Decimal(m), y, x);
    } else {
      SameDecimal(m, n, x, y);
    }
  }

  /** The first byte of a value tells what kind of value it is. */
  function KindOf(j: Json): int {
    match j
    case Null => 110
    case Bool(b) => if b then 116 else 102
    case Number(n) => if Negative(n) then 45 else 48
    case String(_) => 34
    case Array(_) => 91
    case Object(_, _) => 123
  }

  lemma FirstByte(j: Json)
    requires WellFormed(j)
    ensures |Print(j)| > 0 && (if IsDigit(Print(j)[0]) then 48 else Print(j)[0]) == KindOf(j)
    ensures !Stops(Print(j))
  {
    hide EncodeText, Join, Decimal;
  }

  // ---------------------------------------------------------------- numbers

  predicate StartsWithDigit(x: seq<Byte>) { x != [] && IsDigit(x[0]) }

  lemma SameLength(p: seq<Byte>, q: seq<Byte>, x: seq<Byte>, y: seq<Byte>)
    requires |p| == |q| && p + x == q + y
    ensures p == q && x == y
  {
    assert p == (p + x)[..|p|] == (q + y)[..|p|] == q;
    assert x == (p + x)[|p|..] == (q + y)[|p|..] == y;
  }

  /** A run of digits ends where the digits end. */
  lemma RunsEqual(a: seq<Byte>, b: seq<Byte>, x: seq<Byte>, y: seq<Byte>)
    requires AllDigits(a) && AllDigits(b) && !StartsWithDigit(x) && !StartsWithDigit(y) && a + x == b + y
    ensures a == b && x == y
  {
    if |a| < |b| {
      DigitsGoOn(a, b, x, y);
    } else if |b| < |a| {
      DigitsGoOn(b, a, y, x);
    } else {
      SameLength(a, b, x, y);
    }
  }

  predicate FormOk(f: Form) {
    |f.whole| > 0 && AllDigits(f.whole) && AllDigits(f.fraction)
  }

  lemma FormOfOk(n: Numeral)
    requires NumeralOk(n)
    ensures FormOk(FormOf(n))
  {
  }

  lemma ExponentStarts(f: Form, x: seq<Byte>)
    requires Stops(x)
    ensures var t := ExponentText(f) + x;
      && !StartsWithDigit(t) && (t == [] || t[0] != 46)
      && (f.exponent == 0 ==> t == x) && (f.exponent != 0 ==> t != [] && t[0] == 101)
  {
    hide Decimal;
  }

  lemma FractionStarts(f: Form, t: seq<Byte>)
    requires !StartsWithDigit(t) && (t == [] || t[0] != 46)
    ensures var u := FractionText(f) + t;
      !StartsWithDigit(u) && (f.fraction == [] ==> u == t) && (f.fraction != [] ==> u == [46] + (f.fraction + t))
  {
  }

  lemma ExponentParts(f: Form, x: seq<Byte>)
    requires f.exponent != 0
    ensures ExponentText(f) + x == [101] + ([Sign(f.exponent)] + (Decimal(Magnitude(f.exponent)) + x))
  {
    hide Decimal;
  }

  lemma SameTail(c: Byte, s: seq<Byte>, t: seq<Byte>)
    requires [c] + s == [c] + t
    ensures s == t
  {
    assert s == ([c] + s)[1..] == ([c] + t)[1..] == t;
  }

  lemma ExponentPrefixFree(f: Form, g: Form, x: seq<Byte>, y: seq<Byte>)
    requires Stops(x) && Stops(y) && ExponentText(f) + x == ExponentText(g) + y
    ensures f.exponent == g.exponent && x == y
  {
    hide Decimal, ExponentText;
    ExponentStarts(f, x);
    ExponentStarts(g, y);
    if f.exponent != 0 {
      ExponentParts(f, x);
      ExponentParts(g, y);
      var a, b := Decimal(Magnitude(f.exponent)) + x, Decimal(Magnitude(g.exponent)) + y;
      SameTail(101, [Sign(f.exponent)] + a, [Sign(g.exponent)] + b);
      assert ([Sign(f.exponent)] + a)[0] == ([Sign(g.exponent)] + b)[0];
      SameTail(Sign(f.exponent), a, b);
      DecimalPrefixFree(Magnitude(f.exponent), Magnitude(g.exponent), x, y);
    }
  }

  lemma FormParts(f: Form, x: seq<Byte>)
    ensures FormText(f) + x == f.whole + (FractionText(f) + (ExponentText(f) + x))
  {
    hide FractionText, ExponentText;
  }

  lemma FractionPrefixFree(f: Form, g: Form, s: seq<Byte>, t: seq<Byte>)
    requires AllDigits(f.fraction) && AllDigits(g.fraction) && !StartsWithDigit(s) && !StartsWithDigit(t)
    requires (s == [] || s[0] != 46) && (t == [] || t[0] != 46) && FractionText(f) + s == FractionText(g) + t
    ensures f.fraction == g.fraction && s == t
  {
    hide FractionText, AllDigits, StartsWithDigit;
    FractionStarts(f, s);
    FractionStarts(g, t);
    if f.fraction != [] {
      assert (FractionText(f) + s)[0] == 46;
      SameTail(46, f.fraction + s, g.fraction + t);
      RunsEqual(f.fraction, g.fraction, s, t);
    }
  }

  /** A printed number can be read back into its parts. */
  lemma FormPrefixFree(f: Form, g: Form, x: seq<Byte>, y: seq<Byte>)
    requires FormOk(f) && FormOk(g) && Stops(x) && Stops(y) && FormText(f) + x == FormText(g) + y
    ensures f == g && x == y
  {
    hide FormText, FractionText, ExponentText, Stops, AllDigits, StartsWithDigit;
    var s, t := ExponentText(f) + x, ExponentText(g) + y;
    ExponentStarts(f, x);
    ExponentStarts(g, y);
    FractionStarts(f, s);
    FractionStarts(g, t);
    FormParts(f, x);
    FormParts(g, y);
    RunsEqual(f.whole, g.whole, FractionText(f) + s, FractionText(g) + t);
    FractionPrefixFree(f, g, s, t);
    ExponentPrefixFree(f, g, x, y);
  }

  lemma LeadingZeroDigits(a: nat, b: nat, d: seq<Byte>, e: seq<Byte>)
    requires d != [] && e != [] && d[0] != 48 && e[0] != 48 && ZeroDigits(a) + d == ZeroDigits(b) + e
    ensures a == b && d == e
  {
    var s, t := ZeroDigits(a) + d, ZeroDigits(b) + e;
    assert s[a] == d[0] && t[b] == e[0];
    SameLength(ZeroDigits(a), ZeroDigits(b), d, e);
  }

  lemma TrailingZeroDigits(a: nat, b: nat, d: seq<Byte>, e: seq<Byte>)
    requires d != [] && e != [] && d[|d| - 1] != 48 && e[|e| - 1] != 48 && d + ZeroDigits(a) == e + ZeroDigits(b)
    ensures a == b && d == e
  {
    var s, t := d + ZeroDigits(a), e + ZeroDigits(b);
    assert s[|d| - 1] == d[|d| - 1] && t[|e| - 1] == e[|e| - 1];
    SameLength(d, e, ZeroDigits(a), ZeroDigits(b));
  }

  lemma ZeroForm(n: Numeral)
    requires NumeralOk(n)
    ensures n.Zero? <==> FormOf(n) == FormOf(Zero)
  {
    hide AllDigits;
    if n.Scientific? {
      var f := FormOf(n);
      assert f.whole[0] == 48 ==> f.fraction != [];
    }
  }

  /** What the form of a number says about its digits. */
  lemma FormShape(n: Numeral)
    requires NumeralOk(n) && n.Scientific?
    ensures var f := FormOf(n);
      && |f.whole| > 0
      && if f.exponent != 0 then n.digits == f.whole + f.fraction && n.point == f.exponent + 1
         else if f.whole[0] == 48 then n.point <= 0 && f.fraction == ZeroDigits(-n.point) + n.digits
         else if f.fraction == [] then |n.digits| <= n.point && f.whole == n.digits + ZeroDigits(n.point - |n.digits|)
         else n.digits == f.whole + f.fraction && n.point == |f.whole|
  {
    hide AllDigits;
  }

  /** Different numbers have different forms. */
  lemma FormUnique(m: Numeral, n: Numeral)
    requires NumeralOk(m) && NumeralOk(n) && Negative(m) == Negative(n) && FormOf(m) == FormOf(n)
    ensures m == n
  {
    hide FormOf, AllDigits;
    ZeroForm(m);
    ZeroForm(n);
    if m.Scientific? {
      FormShape(m);
      FormShape(n);
      var f := FormOf(m);
      if f.exponent == 0 && f.whole[0] == 48 {
        LeadingZeroDigits(-m.point, -n.point, m.digits, n.digits);
      } else if f.exponent == 0 && f.fraction == [] {
        TrailingZeroDigits(m.point - |m.digits|, n.point - |n.digits|, m.digits, n.digits);
      }
    }
  }

  lemma SignedText(n: Numeral, x: seq<Byte>)
    requires NumeralOk(n)
    ensures var t := FormText(FormOf(n)) + x; NumberText(n) + x == if Negative(n) then [45] + t else t
  {
    hide FormText, FormOf;
  }

  lemma NumberPrefixFree(m: Numeral, n: Numeral, x: seq<Byte>, y: seq<Byte>)
    requires NumeralOk(m) && NumeralOk(n) && Negative(m) == Negative(n)
    requires Stops(x) && Stops(y) && NumberText(m) + x == NumberText(n) + y
    ensures m == n && x == y
  {
    hide NumberText, FormText, FormOf, Stops;
    SignedText(m, x);
    SignedText(n, y);
    if Negative(m) {
      SameTail(45, FormText(FormOf(m)) + x, FormText(FormOf(n)) + y);
    }
    FormOfOk(m);
    FormOfOk(n);
    FormPrefixFree(FormOf(m), FormOf(n), x, y);
    FormUnique(m, n);
  }

  lemma LiteralPrefixFree(a: Json, b: Json, x: seq<Byte>, y: seq<Byte>)
    requires !a.Array? && !a.Object? && !b.Array? && !b.Object? && KindOf(a) == KindOf(b)
    requires WellFormed(a) && WellFormed(b)
    requires Stops(x) && Stops(y) && Literal(a) + x == Literal(b) + y
    ensures a == b && x == y
  {
    hide Quote, NumberText, Stops;
    match a
    case Null => SameLength(Literal(a), Literal(b), x, y);
    case Bool(_) => SameLength(Literal(a), Literal(b), x, y);
    case String(s) => QuoteInjective(s, b.s, x, y);
    case Number(m) => NumberPrefixFree(m, b.n, x, y);
  }

  function ItemTexts(items: seq<Json>): seq<seq<Byte>> {
    seq(|items|, i requires 0 <= i < |items| => Print(items[i]))
  }

  function MemberTexts(names: seq<Text>, values: seq<Json>): seq<seq<Byte>>
    requires |names| == |values|
  {
    seq(|names|, k requires 0 <= k < |names| => FieldText(names[k], Print(values[k])))
  }

  /** What follows the first part of a joined list: a comma and the rest, or the end. */
  function AfterFirst(parts: seq<seq<Byte>>, end: seq<Byte>): seq<Byte>
    requires parts != []
  {
    if |parts| == 1 then end else [44] + Join(parts[1..]) + end
  }

  lemma JoinFirst(parts: seq<seq<Byte>>, end: seq<Byte>)
    requires parts != []
    ensures Join(parts) + end == parts[0] + AfterFirst(parts, end)
  {
  }

  /** Two lists whose first parts were the same go on alike. */
  lemma AfterFirstEqual(a: seq<seq<Byte>>, b: seq<seq<Byte>>, p: seq<Byte>, q: seq<Byte>)
    requires a != [] && b != [] && p != [] && q != [] && p[0] == q[0] != 44
    requires AfterFirst(a, p) == AfterFirst(b, q)
    ensures |a| == 1 <==> |b| == 1
    ensures if |a| == 1 then p == q else Join(a[1..]) + p == Join(b[1..]) + q
    ensures Stops(AfterFirst(a, p)) <==> Stops(p) || |a| > 1
  {
    hide Join;
    var r, s := AfterFirst(a, p), AfterFirst(b, q);
    assert r[0] == if |a| == 1 then p[0] else 44;
    assert s[0] == if |b| == 1 then q[0] else 44;
    if |a| > 1 {
      assert r[1..] == Join(a[1..]) + p && s[1..] == Join(b[1..]) + q;
    }
  }

  lemma AfterFirstStops(parts: seq<seq<Byte>>, end: seq<Byte>)
    requires parts != [] && Stops(end)
    ensures Stops(AfterFirst(parts, end))
  {
    hide Join;
  }

  lemma NoParts(end: seq<Byte>)
    ensures Join([]) + end == end
  {
  }

  /** An empty list is never read as a list with elements. */
  lemma EmptyList(a: seq<seq<Byte>>, b: seq<seq<Byte>>, p: seq<Byte>, q: seq<Byte>)
    requires Stops(p) && p != [] && Stops(q) && q != []
    requires a != [] ==> a[0] != [] && !Stops(a[0])
    requires b != [] ==> b[0] != [] && !Stops(b[0])
    ensures (a == []) != (b == []) ==> Join(a) + p != Join(b) + q
  {
    if a != [] {
      JoinFirst(a, p);
      assert (Join(a) + p)[0] == a[0][0];
    }
    if b != [] {
      JoinFirst(b, q);
      assert (Join(b) + q)[0] == b[0][0];
    }
  }

  lemma QuoteStarts(s: Text)
    ensures Quote(s) != [] && Quote(s)[0] == 34
  {
    hide EncodeText;
  }

  lemma FirstMember(m: Text, a: Json, n: Text, b: Json, r: seq<Byte>, s: seq<Byte>)
    requires FieldText(m, Print(a)) + r == FieldText(n, Print(b)) + s
    ensures m == n && Print(a) + r == Print(b) + s
  {
    hide Quote, Print;
    assert FieldText(m, Print(a)) + r == Quote(m) + ([58] + (Print(a) + r));
    assert FieldText(n, Print(b)) + s == Quote(n) + ([58] + (Print(b) + s));
    QuoteInjective(m, n, [58] + (Print(a) + r), [58] + (Print(b) + s));
    assert Print(a) + r == ([58] + (Print(a) + r))[1..];
    assert Print(b) + s == ([58] + (Print(b) + s))[1..];
  }

  lemma PrintArray(items: seq<Json>, x: seq<Byte>)
    ensures Print(Array(items)) + x == [91] + (Join(ItemTexts(items)) + ([93] + x))
  {
    hide Join;
  }

  lemma PrintObject(names: seq<Text>, values: seq<Json>, x: seq<Byte>)
    requires |names| == |values|
    ensures Print(Object(names, values)) + x == [123] + (Join(MemberTexts(names, values)) + ([125] + x))
  {
    hide Join, Quote;
  }

  lemma PrintLiteral(j: Json)
    requires !j.Array? && !j.Object?
    ensures Print(j) == Literal(j)
  {
    hide Literal;
  }

  /** Array texts of well-formed items that are followed by a closing bracket. */
  lemma {:induction false} ItemsPrefixFree(a: seq<Json>, b: seq<Json>, x: seq<Byte>, y: seq<Byte>)
    requires forall i :: 0 <= i < |a| ==> WellFormed(a[i])
    requires forall i :: 0 <= i < |b| ==> WellFormed(b[i])
    requires Join(ItemTexts(a)) + ([93] + x) == Join(ItemTexts(b)) + ([93] + y)
    ensures a == b && x == y
    decreases a, 0
  {
    hide Print, WellFormed, Join, AfterFirst;
    var p, q := [93] + x, [93] + y;
    NoParts(p);
    NoParts(q);
    if a != [] {
      FirstByte(a[0]);
      JoinFirst(ItemTexts(a), p);
    }
    if b != [] {
      FirstByte(b[0]);
      JoinFirst(ItemTexts(b), q);
    }
    EmptyList(ItemTexts(a), ItemTexts(b), p, q);
    if a == [] && b == [] {
      assert x == p[1..] && y == q[1..];
    } else if a != [] && b != [] {
      var r, s := AfterFirst(ItemTexts(a), p), AfterFirst(ItemTexts(b), q);
      AfterFirstStops(ItemTexts(a), p);
      AfterFirstStops(ItemTexts(b), q);
      PrintPrefixFree(a[0], b[0], r, s);
      AfterFirstEqual(ItemTexts(a), ItemTexts(b), p, q);
      if |a| == 1 {
        assert x == p[1..] && y == q[1..];
        assert a == [a[0]] && b == [b[0]];
      } else {
        assert ItemTexts(a)[1..] == ItemTexts(a[1..]) && ItemTexts(b)[1..] == ItemTexts(b[1..]);
        ItemsPrefixFree(a[1..], b[1..], x, y);
        assert a == [a[0]] + a[1..] && b == [b[0]] + b[1..];
      }
    }
  }

  /** A printed value can be told from what follows it. */
  lemma {:induction false} PrintPrefixFree(a: Json, b: Json, x: seq<Byte>, y: seq<Byte>)
    requires WellFormed(a) && WellFormed(b) && Stops(x) && Stops(y) && Print(a) + x == Print(b) + y
    ensures a == b && x == y
    decreases a, 1
  {
    hide Print, Join, ItemTexts, MemberTexts, Distinct;
    FirstByte(a);
    FirstByte(b);
    assert (Print(a) + x)[0] == Print(a)[0] && (Print(b) + y)[0] == Print(b)[0];
    match a
    case Array(items) =>
      PrintArray(items, x);
      PrintArray(b.items, y);
      SameTail(91, Join(ItemTexts(items)) + ([93] + x), Join(ItemTexts(b.items)) + ([93] + y));
      ItemsPrefixFree(items, b.items, x, y);
    case Object(names, values) =>
      PrintObject(names, values, x);
      PrintObject(b.names, b.values, y);
      SameTail(123, Join(MemberTexts(names, values)) + ([125] + x), Join(MemberTexts(b.names, b.values)) + ([125] + y));
      MembersPrefixFree(names, values, b.names, b.values, x, y);
    case _ =>
      PrintLiteral(a);
      PrintLiteral(b);
      LiteralPrefixFree(a, b, x, y);
  }

  lemma {:induction false} MembersPrefixFree(m: seq<Text>, a: seq<Json>, n: seq<Text>, b: seq<Json>, x: seq<Byte>,
                                             y: seq<Byte>)
    requires |m| == |a| && |n| == |b|
    requires forall i :: 0 <= i < |a| ==> WellFormed(a[i])
    requires forall i :: 0 <= i < |b| ==> WellFormed(b[i])
    requires Join(MemberTexts(m, a)) + ([125] + x) == Join(MemberTexts(n, b)) + ([125] + y)
    ensures m == n && a == b && x == y
    decreases a, 0
  {
    hide Print, WellFormed, Quote, Join, AfterFirst;
    var p, q := [125] + x, [125] + y;
    NoParts(p);
    NoParts(q);
    if a != [] {
      QuoteStarts(m[0]);
      JoinFirst(MemberTexts(m, a), p);
    }
    if b != [] {
      QuoteStarts(n[0]);
      JoinFirst(MemberTexts(n, b), q);
    }
    EmptyList(MemberTexts(m, a), MemberTexts(n, b), p, q);
    if a == [] && b == [] {
      assert x == p[1..] && y == q[1..];
    } else if a != [] && b != [] {
      var r, s := AfterFirst(MemberTexts(m, a), p), AfterFirst(MemberTexts(n, b), q);
      AfterFirstStops(MemberTexts(m, a), p);
      AfterFirstStops(MemberTexts(n, b), q);
      FirstMember(m[0], a[0], n[0], b[0], r, s);
      PrintPrefixFree(a[0], b[0], r, s);
      AfterFirstEqual(MemberTexts(m, a), MemberTexts(n, b), p, q);
      if |a| == 1 {
        assert x == p[1..] && y == q[1..];
        assert a == [a[0]] && b == [b[0]] && m == [m[0]] && n == [n[0]];
      } else {
        assert MemberTexts(m, a)[1..] == MemberTexts(m[1..], a[1..])
          && MemberTexts(n, b)[1..] == MemberTexts(n[1..], b[1..]);
        MembersPrefixFree(m[1..], a[1..], n[1..], b[1..], x, y);
        assert a == [a[0]] + a[1..] && b == [b[0]] + b[1..] && m == [m[0]] + m[1..] && n == [n[0]] + n[1..];
      }
    }
  }

  // ---------------------------------------------------------------- equal up to field order

  lemma AscendingDistinct(names: seq<Text>)
    requires Ascending(names)
    ensures Distinct(names)
  {
    hide Less;
    forall i, j | 0 <= i < j < |names|
      ensures names[i] != names[j]
    {
      LessTotal(names[i], names[j]);
    }
  }

  lemma {:induction false} SortWellFormed(j: Json)
    requires WellFormed(j)
    ensures WellFormed(SortFields(j))
  {
    match j
    case Array(items) =>
      forall i | 0 <= i < |items|
        ensures WellFormed(SortFields(items[i]))
      {
        SortWellFormed(items[i]);
      }
    case Object(names, values) =>
      var order := Order(names, |names|);
      forall k | 0 <= k < |names|
        ensures WellFormed(SortFields(values[order[k]]))
      {
        SortWellFormed(values[order[k]]);
      }
      SortedNames(names);
      AscendingDistinct(Sorted(names));
    case _ =>
  }

  ghost predicate HasSorted(names: seq<Text>, values: seq<Json>, name: Text, sorted: Json)
    requires |names| == |values|
  {
    exists j :: 0 <= j < |names| && names[j] == name && SortFields(values[j]) == sorted
  }

  lemma SubsetSameSize(a: set<Text>, b: set<Text>)
    requires a <= b && |a| == |b|
    ensures a == b
  {
    assert |b - a| == |b| - |a|;
  }

  lemma {:induction false} DistinctSize(names: seq<Text>)
    requires Distinct(names)
    ensures |set x | x in names| == |names|
  {
    if names == [] {
    } else {
      var n := |names| - 1;
      DistinctSize(names[..n]);
      assert names == names[..n] + [names[n]];
      assert (set x | x in names) == (set x | x in names[..n]) + {names[n]};
      assert names[n] !in names[..n];
    }
  }

  /** A set of names of the same size is the same set. */
  lemma SameNames(m: seq<Text>, n: seq<Text>)
    requires |m| == |n| && Distinct(m) && Distinct(n) && forall x :: x in m ==> x in n
    ensures forall x :: x in n ==> x in m
  {
    DistinctSize(m);
    DistinctSize(n);
    var a, b := set x | x in m, set x | x in n;
    assert a <= b;
    SubsetSameSize(a, b);
    forall x | x in n
      ensures x in m
    {
      assert x in b;
    }
  }

  /** Two objects with the same fields, in any order, have the same sorted form. */
  lemma ObjectSorts(m: seq<Text>, a: seq<Json>, n: seq<Text>, b: seq<Json>)
    requires |m| == |a| == |n| == |b| && Distinct(m) && Distinct(n)
    requires forall i :: 0 <= i < |m| ==> HasSorted(n, b, m[i], SortFields(a[i]))
    ensures SortFields(Object(m, a)) == SortFields(Object(n, b))
  {
    hide Less;
    forall x | x in m
      ensures x in n
    {
      var i :| 0 <= i < |m| && m[i] == x;
      assert HasSorted(n, b, m[i], SortFields(a[i]));
    }
    SameNames(m, n);
    SortedNames(m);
    SortedNames(n);
    AscendingUnique(Sorted(m), Sorted(n));
    var s, t := SortFields(Object(m, a)), SortFields(Object(n, b));
    var p, q := Order(m, |m|), Order(n, |n|);
    forall k | 0 <= k < |m|
      ensures s.values[k] == t.values[k]
    {
      assert Sorted(m)[k] == m[p[k]] && Sorted(n)[k] == n[q[k]];
      assert HasSorted(n, b, m[p[k]], SortFields(a[p[k]]));
      var j :| 0 <= j < |n| && n[j] == m[p[k]] && SortFields(b[j]) == SortFields(a[p[k]]);
      assert j == q[k];
    }
  }

  lemma {:induction false} SameSorts(a: Json, b: Json)
    requires WellFormed(a) && WellFormed(b) && SameUpToOrder(a, b)
    ensures SortFields(a) == SortFields(b)
  {
    match a
    case Array(items) =>
      forall i | 0 <= i < |items|
        ensures SortFields(items[i]) == SortFields(b.items[i])
      {
        SameSorts(items[i], b.items[i]);
      }
      assert SortFields(a).items == SortFields(b).items;
    case Object(names, values) =>
      forall i | 0 <= i < |names|
        ensures HasSorted(b.names, b.values, names[i], SortFields(values[i]))
      {
        assert HasField(b, names[i], values[i]);
        var j :| 0 <= j < |b.names| && b.names[j] == names[i] && SameUpToOrder(values[i], b.values[j]);
        SameSorts(values[i], b.values[j]);
      }
      ObjectSorts(names, values, b.names, b.values);
    case _ =>
  }

  /** The field of the other object that ends up at the same place. */
  lemma SortedPartner(a: Json, b: Json, i: nat) returns (j: nat)
    requires WellFormed(a) && WellFormed(b) && a.Object? && b.Object? && SortFields(a) == SortFields(b) && i < |a.names|
    ensures j < |b.names| == |b.values| && b.names[j] == a.names[i]
    ensures SortFields(a.values[i]) == SortFields(b.values[j])
  {
    var p, q := Order(a.names, |a.names|), Order(b.names, |b.names|);
    assert |SortFields(a).names| == |a.names| && |SortFields(b).names| == |b.names|;
    assert i in p;
    var k :| 0 <= k < |p| && p[k] == i;
    j := q[k];
    assert SortFields(a).names[k] == a.names[i] && SortFields(b).names[k] == b.names[j];
    assert SortFields(a).values[k] == SortFields(a.values[i]) && SortFields(b).values[k] == SortFields(b.values[j]);
  }

  lemma {:induction false} SortsSame(a: Json, b: Json)
    requires WellFormed(a) && WellFormed(b) && SortFields(a) == SortFields(b)
    ensures SameUpToOrder(a, b)
  {
    match a
    case Array(items) =>
      forall i | 0 <= i < |items|
        ensures SameUpToOrder(items[i], b.items[i])
      {
        assert SortFields(a).items[i] == SortFields(b).items[i];
        SortsSame(items[i], b.items[i]);
      }
    case Object(names, values) =>
      assert |SortFields(a).names| == |names| && |SortFields(b).names| == |b.names|;
      forall i | 0 <= i < |values|
        ensures HasField(b, names[i], values[i])
      {
        var j := SortedPartner(a, b, i);
        SortsSame(values[i], b.values[j]);
      }
    case _ =>
  }

  /** Two values have the same canonical text exactly when they are equal up to field order. */
  lemma CanonicalInjective(a: Json, b: Json)
    requires WellFormed(a) && WellFormed(b)
    ensures Canonical(a) == Canonical(b) <==> SameUpToOrder(a, b)
  {
    hide Canonical, SortFields, Print, SameUpToOrder;
    CanonicalPrintsSorted(a);
    CanonicalPrintsSorted(b);
    if Canonical(a) == Canonical(b) {
      SortWellFormed(a);
      SortWellFormed(b);
      PrintPrefixFree(SortFields(a), SortFields(b), [], []);
      SortsSame(a, b);
    }
    if SameUpToOrder(a, b) {
      SameSorts(a, b);
    }
  }
}
