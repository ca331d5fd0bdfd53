/** Bytes, and the option wrapper the other modules share. */
module Bytes {

  type Byte = x: int | 0 <= x < 256

  /** `Number.MAX_SAFE_INTEGER` */
  const MAX_SAFE_INTEGER := 9007199254740991

  datatype Option<+T> = None | Some(value: T)

  /** True if every byte is zero. */
  predicate IsZero(bytes: seq<Byte>) {
    forall i :: 0 <= i < |bytes| ==> bytes[i] == 0
  }

  function Zeros(n: nat): (z: seq<Byte>)
    ensures |z| == n && IsZero(z)
  {
    seq(n, i => 0)
  }

  /** One lowercase hexadecimal digit. */
  function HexDigit(n: int): char
    requires 0 <= n < 16
  {
    if n < 10 then '0' + n as char else 'a' + (n - 10) as char
  }

  /** `bytesToHex`: two lowercase digits for each byte. */
  function Hex(bytes: seq<Byte>): string
  {
    if bytes == [] then ""
    else [HexDigit(bytes[0] / 16), HexDigit(bytes[0] % 16)] + Hex(bytes[1..])
  }

  /** Distinct byte strings have distinct hexadecimal text. */
  lemma {:induction false} HexInjective(a: seq<Byte>, b: seq<Byte>)
    requires Hex(a) == Hex(b)
    ensures a == b
  {
    if a == [] || b == [] {
    } else {
      assert Hex(a)[2..] == Hex(a[1..]);
      assert Hex(b)[2..] == Hex(b[1..]);
      assert Hex(a)[0] == HexDigit(a[0] / 16) && Hex(a)[1] == HexDigit(a[0] % 16);
      assert Hex(b)[0] == HexDigit(b[0] / 16) && Hex(b)[1] == HexDigit(b[0] % 16);
      HexInjective(a[1..], b[1..]);
      assert a == [a[0]] + a[1..] && b == [b[0]] + b[1..];
    }
  }
}
