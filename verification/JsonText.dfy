/**
 JSON text as `JSON.stringify` prints it: strings are sequences of UTF-16 code
 units, the text is a sequence of UTF-8 bytes (section 7 of RFC 8259).
 */
module JsonText {
  import opened Bytes

  type CodeUnit = u: int | 0 <= u < 0x10000

  type Text = seq<CodeUnit>

  predicate IsHigh(u: CodeUnit) { 0xd800 <= u <= 0xdbff }

  predicate IsLow(u: CodeUnit) { 0xdc00 <= u <= 0xdfff }

  /** The text starts with a surrogate pair. */
  predicate StartsWithPair(s: Text) {
    |s| >= 2 && IsHigh(s[0]) && IsLow(s[1])
  }

  /** UTF-8 length; an unpaired surrogate becomes U+FFFD. */
  function Utf8Length(s: Text): nat {
    if s == [] then 0
    else if StartsWithPair(s) then 4 + Utf8Length(s[2..])
    else (if s[0] <= 0x7f then 1 else if s[0] <= 0x7ff then 2 else 3) + Utf8Length(s[1..])
  }

  function HexByte(n: int): Byte
    requires 0 <= n < 16
  {
    if n < 10 then 48 + n else 87 + n
  }

  /** A backslash, `u` and four hexadecimal digits. */
  function UnicodeEscape(u: CodeUnit): seq<Byte> {
    [92, 117, HexByte(u / 4096), HexByte(u / 256 % 16), HexByte(u / 16 % 16), HexByte(u % 16)]
  }

  /** One code unit that is not part of a surrogate pair. */
  function EncodeUnit(u: CodeUnit): seq<Byte> {
    if u == 0x22 || u == 0x5c then [92, u]
    else if u == 0x08 then [92, 98]
    else if u == 0x09 then [92, 116]
    else if u == 0x0a then [92, 110]
    else if u == 0x0c then [92, 102]
    else if u == 0x0d then [92, 114]
    else if u <= 0x1f then UnicodeEscape(u)
    else if u <= 0x7f then [u]
    else if u <= 0x7ff then [0xc0 + u / 64, 0x80 + u % 64]
    else if IsHigh(u) || IsLow(u) then UnicodeEscape(u)
    else [0xe0 + u / 4096, 0x80 + u / 64 % 64, 0x80 + u % 64]
  }

  /** A surrogate pair as the four bytes of its code point. */
  function EncodePair(high: CodeUnit, low: CodeUnit): seq<Byte>
    requires IsHigh(high) && IsLow(low)
  {
    var point := 0x10000 + (high - 0xd800) * 1024 + (low - 0xdc00);
    [0xf0 + point / 262144, 0x80 + point / 4096 % 64, 0x80 + point / 64 % 64, 0x80 + point % 64]
  }

  function EncodeText(s: Text): seq<Byte> {
    if s == [] then []
    else if StartsWithPair(s) then EncodePair(s[0], s[1]) + EncodeText(s[2..])
    else EncodeUnit(s[0]) + EncodeText(s[1..])
  }

  /** The JSON string literal. */
  function Quote(s: Text): seq<Byte> {
    [34] + EncodeText(s) + [34]
  }

  function UnitBytes(u: CodeUnit): nat {
    if u in {0x22, 0x5c, 0x08, 0x09, 0x0a, 0x0c, 0x0d} then 2
    else if u <= 0x1f || IsHigh(u) || IsLow(u) then 6
    else if u <= 0x7f then 1
    else if u <= 0x7ff then 2
    else 3
  }

  lemma EncodeNothing()
    ensures EncodeText([]) == []
  {
  }

  /** The bytes of the first code unit or pair. */
  lemma EncodeStep(s: Text)
    requires s != []
    ensures StartsWithPair(s) ==> |EncodeText(s)| == 4 + |EncodeText(s[2..])|
    ensures !StartsWithPair(s) ==> |EncodeText(s)| == UnitBytes(s[0]) + |EncodeText(s[1..])|
  {
  }

  /** `jsonStringByteLength` counts the bytes of the literal without building it. */
  method JsonStringByteLength(value: Text) returns (bytes: nat)
    ensures bytes == |Quote(value)|
  {
    hide EncodeText, EncodeUnit;
    EncodeNothing();
    bytes := 2;
    var index := 0;
    assert value[0..] == value;
    while index < |value|
      invariant index <= |value|
      invariant bytes + |EncodeText(value[index..])| == |Quote(value)|
    {
      ghost var rest := value[index..];
      assert rest[1..] == value[index + 1..];
      assert StartsWithPair(rest) ==> rest[2..] == value[index + 2..];
      EncodeStep(rest);
      var codeUnit := value[index];
      if codeUnit == 0x22 || codeUnit == 0x5c {
        bytes := bytes + 2;
      } else if codeUnit <= 0x1f {
        bytes := bytes + if codeUnit == 0x08 || codeUnit == 0x09 || codeUnit == 0x0a || codeUnit == 0x0c
          || codeUnit == 0x0d
                         then 2 else 6;
      } else if codeUnit <= 0x7f {
        bytes := bytes + 1;
      } else if codeUnit <= 0x7ff {
        bytes := bytes + 2;
      } else if 0xd800 <= codeUnit <= 0xdbff {
        if index + 1 < |value| && 0xdc00 <= value[index + 1] <= 0xdfff {
          bytes := bytes + 4;
          index := index + 1;
        } else {
          bytes := bytes + 6;
        }
      } else {
        bytes := bytes + if 0xdc00 <= codeUnit <= 0xdfff then 6 else 3;
      }
      index := index + 1;
    }
    assert value[index..] == [];
  }

  // ---------------------------------------------------------------- punctuation

  const NULL_TEXT: seq<Byte> := [110, 117, 108, 108]

  function BoolText(b: bool): seq<Byte> {
    if b then [116, 114, 117, 101] else [102, 97, 108, 115, 101]
  }

  /** The parts with commas between them. */
  function Join(parts: seq<seq<Byte>>): seq<Byte> {
    if parts == [] then []
    else if |parts| == 1 then parts[0]
    else parts[0] + [44] + Join(parts[1..])
  }

  function ArrayText(items: seq<seq<Byte>>): seq<Byte> {
    [91] + Join(items) + [93]
  }

  function FieldText(name: Text, value: seq<Byte>): seq<Byte> {
    Quote(name) + [58] + value
  }

  function ObjectText(fields: seq<seq<Byte>>): seq<Byte> {
    [123] + Join(fields) + [125]
  }

  lemma JoinNothing()
    ensures Join([]) == []
  {
  }

  lemma {:induction false} JoinSnoc(parts: seq<seq<Byte>>, last: seq<Byte>)
    ensures Join(parts + [last]) == Join(parts) + (if parts == [] then [] else [44]) + last
  {
    if parts == [] {
    } else {
      assert (parts + [last])[1..] == parts[1..] + [last];
      JoinSnoc(parts[1..], last);
    }
  }

  // ---------------------------------------------------------------- the literal can be read back

  function HexValue(b: Byte): int {
    if b < 58 then b - 48 else b - 87
  }

  /** The number of bytes of the code unit or pair that starts here; 0 if none does. */
  function Width(b: seq<Byte>): (w: nat)
    ensures w <= |b|
  {
    var w := if b == [] then 0
             else if b[0] == 92 then (if |b| > 1 && b[1] == 117 then 6 else 2)
             else if b[0] < 0x80 then 1
             else if b[0] < 0xe0 then 2
             else if b[0] < 0xf0 then 3
             else 4;
    if w <= |b| then w else 0
  }

  /** The code unit whose encoding these bytes are. */
  function DecodeUnit(b: seq<Byte>): int
    requires b != []
  {
    if |b| == 1 then b[0]
    else if |b| == 2 && b[0] == 92 then
      (match b[1]
       case 98 => 0x08
       case 116 => 0x09
       case 110 => 0x0a
       case 102 => 0x0c
       case 114 => 0x0d
       case other => other)
    else if |b| == 2 then (b[0] - 0xc0) * 64 + (b[1] - 0x80)
    else if |b| == 3 then (b[0] - 0xe0) * 4096 + (b[1] - 0x80) * 64 + (b[2] - 0x80)
    else if |b| == 6 then HexValue(b[2]) * 4096 + HexValue(b[3]) * 256 + HexValue(b[4]) * 16 + HexValue(b[5])
    else 0
  }

  function CodePoint(a: int, b: int, c: int, d: int): int {
    (a - 0xf0) * 262144 + (b - 0x80) * 4096 + (c - 0x80) * 64 + (d - 0x80)
  }

  function DecodePair(b: seq<Byte>): (int, int)
    requires |b| == 4
  {
    var point := CodePoint(b[0], b[1], b[2], b[3]);
    (0xd800 + (point - 0x10000) / 1024, 0xdc00 + (point - 0x10000) % 1024)
  }

  /** The code units up to the closing quote, and what follows it. */
  function ReadText(b: seq<Byte>): Option<(seq<int>, seq<Byte>)>
    decreases |b|
  {
    if b != [] && b[0] == 34 then Some(([], b[1..]))
    else
      var w := Width(b);
      if w == 0 then None
      else
        match ReadText(b[w..])
        case None => None
        case Some((s, rest)) =>
          if w == 4 then Some(([DecodePair(b[..4]).0, DecodePair(b[..4]).1] + s, rest))
          else Some(([DecodeUnit(b[..w])] + s, rest))
  }

  lemma HexDigits(n: int)
    requires 0 <= n < 0x10000
    ensures n == n / 4096 * 4096 + n / 256 % 16 * 256 + n / 16 % 16 * 16 + n % 16
    ensures 0 <= n / 4096 < 16
  {
    assert n / 16 / 16 == n / 256 && n / 256 / 16 == n / 4096;
  }

  lemma SixBits(n: int)
    requires 0 <= n
    ensures n == n / 4096 * 4096 + n / 64 % 64 * 64 + n % 64
    ensures n / 4096 == n / 262144 * 64 + n / 4096 % 64
  {
    assert n / 64 / 64 == n / 4096 && n / 4096 / 64 == n / 262144;
  }

  lemma UnitReads(u: CodeUnit)
    ensures EncodeUnit(u) != [] && EncodeUnit(u)[0] != 34 && EncodeUnit(u)[0] < 0xf0
    ensures DecodeUnit(EncodeUnit(u)) == u
  {
    HexDigits(u);
    SixBits(u);
  }

  lemma UnitWidth(u: CodeUnit, x: seq<Byte>)
    ensures Width(EncodeUnit(u) + x) == |EncodeUnit(u)| != 4
  {
    var b := EncodeUnit(u) + x;
    assert b[0] == EncodeUnit(u)[0];
    assert |EncodeUnit(u)| > 1 ==> b[1] == EncodeUnit(u)[1];
  }

  lemma PairPoint(high: CodeUnit, low: CodeUnit)
    requires IsHigh(high) && IsLow(low)
    ensures var n := (high - 0xd800) * 1024 + (low - 0xdc00);
      0 <= n < 0x100000 && n / 1024 == high - 0xd800 && n % 1024 == low - 0xdc00
  {
  }

  lemma PointBytes(point: int)
    requires 0x10000 <= point < 0x110000
    ensures 0 <= point / 262144 <= 4
    ensures CodePoint(0xf0 + point / 262144, 0x80 + point / 4096 % 64, 0x80 + point / 64 % 64, 0x80 + point % 64)
      == point
  {
    SixBits(point);
  }

  lemma PairReads(high: CodeUnit, low: CodeUnit)
    requires IsHigh(high) && IsLow(low)
    ensures DecodePair(EncodePair(high, low)) == (high, low)
    ensures 0xf0 <= EncodePair(high, low)[0] <= 0xf4
  {
    hide CodePoint;
    PairPoint(high, low);
    PointBytes(0x10000 + (high - 0xd800) * 1024 + (low - 0xdc00));
  }

  lemma PairWidth(high: CodeUnit, low: CodeUnit, x: seq<Byte>)
    requires IsHigh(high) && IsLow(low)
    ensures Width(EncodePair(high, low) + x) == |EncodePair(high, low)| == 4
  {
    hide DecodePair;
    PairReads(high, low);
    assert (EncodePair(high, low) + x)[0] == EncodePair(high, low)[0];
  }

  lemma ReadEnd(x: seq<Byte>)
    ensures ReadText([34] + x) == Some(([], x))
  {
    assert ([34] + x)[1..] == x;
  }

  /** One code unit or pair is read, and then the rest. */
  lemma ReadStep(w: seq<Byte>, rest: seq<Byte>)
    requires w != [] && w[0] != 34 && Width(w + rest) == |w| && ReadText(rest).Some?
    ensures var units := if |w| == 4 then [DecodePair(w).0, DecodePair(w).1] else [DecodeUnit(w)];
      ReadText(w + rest) == Some((units + ReadText(rest).value.0, ReadText(rest).value.1))
  {
    hide Width, DecodeUnit, DecodePair;
    var b := w + rest;
    assert b[0] == w[0] && b[..|w|] == w && b[|w|..] == rest;
  }

  /** A literal can be read back, whatever follows it. */
  lemma {:induction false} QuoteReads(s: Text, x: seq<Byte>)
    ensures ReadText(EncodeText(s) + [34] + x) == Some((s, x))
    decreases |s|
  {
    hide ReadText, DecodeUnit, DecodePair, EncodeUnit, EncodePair, Width;
    var b := EncodeText(s) + [34] + x;
    if s == [] {
      assert b == [34] + x;
      ReadEnd(x);
    } else if StartsWithPair(s) {
      var pair, rest := EncodePair(s[0], s[1]), EncodeText(s[2..]) + [34] + x;
      assert b == pair + rest;
      PairReads(s[0], s[1]);
      PairWidth(s[0], s[1], rest);
      QuoteReads(s[2..], x);
      ReadStep(pair, rest);
      assert s == [s[0], s[1]] + s[2..];
    } else {
      var unit, rest := EncodeUnit(s[0]), EncodeText(s[1..]) + [34] + x;
      assert b == unit + rest;
      UnitReads(s[0]);
      UnitWidth(s[0], rest);
      QuoteReads(s[1..], x);
      ReadStep(unit, rest);
      assert s == [s[0]] + s[1..];
    }
  }

  /** A literal determines its string, whatever follows it. */
  lemma QuoteInjective(s: Text, t: Text, x: seq<Byte>, y: seq<Byte>)
    requires Quote(s) + x == Quote(t) + y
    ensures s == t && x == y
  {
    hide EncodeUnit;
    assert EncodeText(s) + [34] + x == (Quote(s) + x)[1..];
    assert EncodeText(t) + [34] + y == (Quote(t) + y)[1..];
    QuoteReads(s, x);
    QuoteReads(t, y);
  }
}
