/** Little-endian fields and byte ranges of native images. */
module Images {
  import opened Bytes

  /** A normalising routine returns null, throws, or yields the bytes it would hash. */
  datatype Outcome = NotThisFormat | Refused | Normalized(bytes: seq<Byte>)

  function U16(b: seq<Byte>, i: nat): int
    requires i + 2 <= |b|
  {
    b[i] as int + 0x100 * b[i + 1] as int
  }

  function U32(b: seq<Byte>, i: nat): (n: int)
    requires i + 4 <= |b|
    ensures 0 <= n < 0x1_0000_0000
  {
    b[i] as int + 0x100 * b[i + 1] as int + 0x1_0000 * b[i + 2] as int + 0x100_0000 * b[i + 3] as int
  }

  function U64(b: seq<Byte>, i: nat): (n: int)
    requires i + 8 <= |b|
    ensures 0 <= n
  {
    U32(b, i) + 0x1_0000_0000 * U32(b, i + 4)
  }

  /** The four little-endian bytes of a number. */
  function Bytes32(n: int): (b: seq<Byte>)
    requires 0 <= n < 0x1_0000_0000
    ensures |b| == 4
  {
    [n % 0x100, n / 0x100 % 0x100, n / 0x1_0000 % 0x100, n / 0x100_0000]
  }

  function Bytes64(n: int): (b: seq<Byte>)
    requires 0 <= n <= MAX_SAFE_INTEGER
    ensures |b| == 8
  {
    Bytes32(n % 0x1_0000_0000) + Bytes32(n / 0x1_0000_0000)
  }

  lemma Bytes32Reads(n: int)
    requires 0 <= n < 0x1_0000_0000
    ensures U32(Bytes32(n), 0) == n
  {
    assert n / 0x100 / 0x100 == n / 0x1_0000 && n / 0x1_0000 / 0x100 == n / 0x100_0000;
  }

  /** A number that ends in this byte. */
  lemma LastByte(q: int, r: int)
    requires 0 <= r < 0x100
    ensures (q * 0x100 + r) % 0x100 == r && (q * 0x100 + r) / 0x100 == q
  {
  }

  lemma Bytes32Inverse(b: seq<Byte>, i: nat)
    requires i + 4 <= |b|
    ensures Bytes32(U32(b, i)) == b[i..i + 4]
  {
    var n := U32(b, i);
    var third := b[i + 3] as int * 0x100 + b[i + 2] as int;
    var second := third * 0x100 + b[i + 1] as int;
    assert n == second * 0x100 + b[i] as int;
    LastByte(second, b[i]);
    LastByte(third, b[i + 1]);
    LastByte(b[i + 3], b[i + 2]);
    assert n / 0x1_0000 == n / 0x100 / 0x100 && n / 0x100_0000 == n / 0x100 / 0x100 / 0x100;
  }

  lemma Bytes64Inverse(b: seq<Byte>, i: nat)
    requires i + 8 <= |b| && U64(b, i) <= MAX_SAFE_INTEGER
    ensures Bytes64(U64(b, i)) == b[i..i + 8]
  {
    var n := U64(b, i);
    assert n % 0x1_0000_0000 == U32(b, i) && n / 0x1_0000_0000 == U32(b, i + 4);
    Bytes32Inverse(b, i);
    Bytes32Inverse(b, i + 4);
    assert b[i..i + 8] == b[i..i + 4] + b[i + 4..i + 8];
  }

  /** The two images have the same bytes from `lo` up to `hi`. */
  ghost predicate Agree(a: seq<Byte>, b: seq<Byte>, lo: nat, hi: nat) {
    hi <= |a| && hi <= |b| && forall i :: lo <= i < hi ==> a[i] == b[i]
  }

  lemma AgreeU32(a: seq<Byte>, b: seq<Byte>, i: nat)
    requires Agree(a, b, i, i + 4)
    ensures U32(a, i) == U32(b, i)
  {
  }

  lemma AgreeU64(a: seq<Byte>, b: seq<Byte>, i: nat)
    requires Agree(a, b, i, i + 8)
    ensures U64(a, i) == U64(b, i)
  {
    AgreeU32(a, b, i);
    AgreeU32(a, b, i + 4);
  }

  /** A field that was patched reads as the number that was written. */
  lemma FieldReads32(b: seq<Byte>, i: nat, n: int)
    requires 0 <= n < 0x1_0000_0000 && i + 4 <= |b| && b[i..i + 4] == Bytes32(n)
    ensures U32(b, i) == n
  {
    Bytes32Reads(n);
    var field := b[i..i + 4];
    assert field[0] == b[i] && field[1] == b[i + 1] && field[2] == b[i + 2] && field[3] == b[i + 3];
  }

  lemma FieldReads64(b: seq<Byte>, i: nat, n: int)
    requires 0 <= n <= MAX_SAFE_INTEGER && i + 8 <= |b| && b[i..i + 8] == Bytes64(n)
    ensures U64(b, i) == n
  {
    assert b[i..i + 4] == b[i..i + 8][..4] == Bytes32(n % 0x1_0000_0000);
    assert b[i + 4..i + 8] == b[i..i + 8][4..] == Bytes32(n / 0x1_0000_0000);
    FieldReads32(b, i, n % 0x1_0000_0000);
    FieldReads32(b, i + 4, n / 0x1_0000_0000);
  }

  /** The image with other bytes from `at` on. */
  function Patch(b: seq<Byte>, at: nat, field: seq<Byte>): (p: seq<Byte>)
    requires at + |field| <= |b|
    ensures |p| == |b|
    ensures forall i :: 0 <= i < |b| ==> p[i] == if at <= i < at + |field| then field[i - at] else b[i]
  {
    b[..at] + field + b[at + |field|..]
  }

  /** `buffer.fill(0, from, to)` */
  method FillZero(a: array<Byte>, from: nat, to: nat)
    requires from <= to <= a.Length
    modifies a
    ensures a[..] == Patch(old(a[..]), from, Zeros(to - from))
  {
    var i := from;
    while i < to
      invariant from <= i <= to
      invariant forall k :: 0 <= k < a.Length ==> a[k] == if from <= k < i then 0 else old(a[k])
    {
      a[i] := 0;
      i := i + 1;
    }
  }
}
