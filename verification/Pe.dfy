/**
 The signing-independent form of a PE image with or without an Authenticode certificate
 (electron/nativeArtifactHash.ts:191-320, electron/irohaJsNativeProvenance.ts:374-480).
 Hashes are compared through the bytes they are applied to.
 */
module Pe {
  import opened Bytes
  import opened Images

  const DOS_HEADER_BYTES := 64
  const COFF_HEADER_BYTES := 20
  const OPTIONAL_MAGIC_32 := 0x10b
  const OPTIONAL_MAGIC_64 := 0x20b
  const CHECKSUM_OFFSET := 64
  const CERTIFICATE_DIRECTORY_INDEX := 4
  const SIGNATURE: seq<Byte> := [0x50, 0x45, 0, 0]

  // ---------------------------------------------------------------- the headers

  /** The optional header: its first byte and the byte after it. */
  datatype Optional = Optional(offset: nat, end: nat)

  function FindOptional(b: seq<Byte>, unsignedSize: nat): Option<Optional>
    requires DOS_HEADER_BYTES <= unsignedSize <= |b|
  {
    var pe := U32(b, 0x3c);
    if pe < DOS_HEADER_BYTES || pe + 4 + COFF_HEADER_BYTES > unsignedSize || b[pe..pe + 4] != SIGNATURE then None
    else
      var bytes := U16(b, pe + 20);
      var end := pe + 24 + bytes;
      if bytes == 0 || end > unsignedSize then None else Some(Optional(pe + 24, end))
  }

  /** Offsets of the checksum and of the certificate-table entry of the data directories. */
  datatype Header = Header(checksum: nat, directory: nat)

  function Directories(b: seq<Byte>, o: Optional, first: nat): Option<Header>
    requires o.offset + 68 <= first && o.end <= |b|
  {
    if first > o.end || U32(b, first - 4) <= CERTIFICATE_DIRECTORY_INDEX then None
    else
      var directory := first + CERTIFICATE_DIRECTORY_INDEX * 8;
      if directory + 8 > o.end then None else Some(Header(o.offset + CHECKSUM_OFFSET, directory))
  }

  function FindHeader(b: seq<Byte>, o: Optional): Option<Header>
    requires o.offset <= o.end <= |b|
  {
    if o.offset + 2 > o.end then None
    else
      var magic := U16(b, o.offset);
      if magic == OPTIONAL_MAGIC_32 then Directories(b, o, o.offset + 96)
      else if magic == OPTIONAL_MAGIC_64 then Directories(b, o, o.offset + 112)
      else None
  }

  function Find(b: seq<Byte>, unsignedSize: nat): Option<Header>
    requires DOS_HEADER_BYTES <= unsignedSize <= |b|
  {
    var o := FindOptional(b, unsignedSize);
    if o.None? then None else FindHeader(b, o.value)
  }

  /** The masked fields lie behind every field that is read to find them, and apart from each other. */
  predicate HeaderOk(h: Header, unsignedSize: nat) {
    152 <= h.checksum && h.checksum + 60 <= h.directory && h.directory + 8 <= unsignedSize
  }

  predicate Masked(h: Header, i: int) {
    h.checksum <= i < h.checksum + 4 || h.directory <= i < h.directory + 8
  }

  ghost predicate SameOutside(a: seq<Byte>, b: seq<Byte>, h: Header, size: nat) {
    && size <= |a| && size <= |b|
    && forall i :: 0 <= i < size && !Masked(h, i) ==> a[i] == b[i]
  }

  lemma FoundHeaderOk(b: seq<Byte>, unsignedSize: nat)
    requires DOS_HEADER_BYTES <= unsignedSize <= |b| && Find(b, unsignedSize).Some?
    ensures HeaderOk(Find(b, unsignedSize).value, unsignedSize)
    ensures var o := FindOptional(b, unsignedSize).value;
      Find(b, unsignedSize).value.checksum == o.offset + CHECKSUM_OFFSET
  {
    hide U16, U32;
  }

  lemma AgreeU16(a: seq<Byte>, b: seq<Byte>, i: nat)
    requires Agree(a, b, i, i + 2)
    ensures U16(a, i) == U16(b, i)
  {
  }

  lemma OptionalAgrees(a: seq<Byte>, b: seq<Byte>, size: nat, o: Optional)
    requires DOS_HEADER_BYTES <= size <= |a| && size <= |b|
    requires FindOptional(a, size) == Some(o) && Agree(a, b, 0, o.offset)
    ensures FindOptional(b, size) == Some(o)
  {
    hide U16, U32;
    AgreeU32(a, b, 0x3c);
    var pe := U32(a, 0x3c);
    AgreeU16(a, b, pe + 20);
    assert a[pe..pe + 4] == b[pe..pe + 4];
  }

  lemma DirectoriesAgree(a: seq<Byte>, b: seq<Byte>, o: Optional, h: Header)
    requires o.offset <= o.end <= |a| && o.end <= |b|
    requires FindHeader(a, o) == Some(h) && SameOutside(a, b, h, o.end)
    ensures FindHeader(b, o) == Some(h)
  {
    hide U16, U32;
    AgreeU16(a, b, o.offset);
    var first := h.directory - 32;
    AgreeU32(a, b, first - 4);
  }

  /** An image that differs only in masked bytes has the same headers. */
  lemma HeaderAgrees(a: seq<Byte>, b: seq<Byte>, size: nat, h: Header)
    requires DOS_HEADER_BYTES <= size <= |a| && Find(a, size) == Some(h) && SameOutside(a, b, h, size)
    ensures Find(b, size) == Some(h)
  {
    FoundHeaderOk(a, size);
    var o := FindOptional(a, size).value;
    assert Agree(a, b, 0, o.offset);
    OptionalAgrees(a, b, size, o);
    assert SameOutside(a, b, h, o.end);
    hide FindOptional, FindHeader;
    DirectoriesAgree(a, b, o, h);
  }

  // ---------------------------------------------------------------- the normal form

  function CertificateOffset(b: seq<Byte>, h: Header): nat
    requires h.directory + 8 <= |b|
  {
    U32(b, h.directory)
  }

  function CertificateBytes(b: seq<Byte>, h: Header): nat
    requires h.directory + 8 <= |b|
  {
    U32(b, h.directory + 4)
  }

  /** No certificate at all, or one aligned table at the end behind zero padding. */
  predicate CertificateOk(b: seq<Byte>, size: nat, h: Header, requireSigned: bool)
    requires h.directory + 8 <= |b| && size <= |b|
  {
    var at, bytes := CertificateOffset(b, h), CertificateBytes(b, h);
    if at == 0 || bytes == 0 then at == 0 && bytes == 0 && size == |b| && !requireSigned
    else
      && at % 8 == 0 && bytes >= 8 && bytes % 8 == 0
      && size <= at && at - size < 8 && at + bytes == |b|
      && IsZero(b[size..at])
  }

  function Mask(b: seq<Byte>, h: Header): (m: seq<Byte>)
    requires h.checksum + 4 <= |b| && h.directory + 8 <= |b|
    ensures |m| == |b| && forall i :: 0 <= i < |b| ==> m[i] == if Masked(h, i) then 0 else b[i]
  {
    Patch(Patch(b, h.checksum, Zeros(4)), h.directory, Zeros(8))
  }

  predicate SizeOk(b: seq<Byte>, unsignedSize: int) {
    DOS_HEADER_BYTES <= unsignedSize <= |b| && unsignedSize <= MAX_SAFE_INTEGER
  }

  /** The bytes whose hash `peSigningIndependentSha256` returns. */
  function Normalize(b: seq<Byte>, unsignedSize: int, requireSigned: bool): Outcome {
    if |b| < 2 || b[0] != 0x4d || b[1] != 0x5a then NotThisFormat
    else if !SizeOk(b, unsignedSize) || Find(b, unsignedSize).None? then Refused
    else
      FoundHeaderOk(b, unsignedSize);
      var h := Find(b, unsignedSize).value;
      if CertificateOk(b, unsignedSize, h, requireSigned) then Normalized(Mask(b[..unsignedSize], h)) else Refused
  }

  lemma NormalizeDefined(b: seq<Byte>, size: int, requireSigned: bool)
    requires Normalize(b, size, requireSigned).Normalized?
    ensures SizeOk(b, size) && Find(b, size).Some? && HeaderOk(Find(b, size).value, size)
    ensures b[0] == 0x4d && b[1] == 0x5a && CertificateOk(b, size, Find(b, size).value, requireSigned)
    ensures Normalize(b, size, requireSigned) == Normalized(Mask(b[..size], Find(b, size).value))
  {
    hide Find, CertificateOk;
    FoundHeaderOk(b, size);
  }

  lemma NormalizeIs(b: seq<Byte>, size: int, h: Header, requireSigned: bool)
    requires |b| >= 2 && b[0] == 0x4d && b[1] == 0x5a && SizeOk(b, size)
    requires Find(b, size) == Some(h) && HeaderOk(h, size)
    requires CertificateOk(b, size, h, requireSigned)
    ensures Normalize(b, size, requireSigned) == Normalized(Mask(b[..size], h))
  {
    hide Find, CertificateOk;
  }

  // ---------------------------------------------------------------- signing again

  datatype Certificate = Unsigned | Signed(table: seq<Byte>)

  function AlignUp(size: nat): nat { (size + 7) / 8 * 8 }

  lemma Aligned(size: nat)
    ensures AlignUp(size) % 8 == 0 && size <= AlignUp(size) < size + 8
    ensures forall at: nat :: at % 8 == 0 && size <= at && at - size < 8 ==> at == AlignUp(size)
  {
  }

  /** A certificate that an image of this unsigned size can carry. */
  predicate CanCarry(size: nat, c: Certificate) {
    c.Signed? ==> |c.table| >= 8 && |c.table| % 8 == 0 && |c.table| < 0x1_0000_0000 && 0 < AlignUp(size) < 0x1_0000_0000
  }

  function DirectoryEntry(size: nat, c: Certificate): (e: seq<Byte>)
    requires CanCarry(size, c)
    ensures |e| == 8
  {
    match c
    case Unsigned => Zeros(8)
    case Signed(table) => Bytes32(AlignUp(size)) + Bytes32(|table|)
  }

  function Tail(size: nat, c: Certificate): seq<Byte>
    requires CanCarry(size, c)
  {
    match c
    case Unsigned => []
    case Signed(table) => Aligned(size); Zeros(AlignUp(size) - size) + table
  }

  /** The image with another checksum and another certificate, or none. */
  function Sign(b: seq<Byte>, size: nat, h: Header, checksum: seq<Byte>, c: Certificate): (r: seq<Byte>)
    requires size <= |b| && HeaderOk(h, size) && |checksum| == 4 && CanCarry(size, c)
    ensures |r| == size + |Tail(size, c)|
  {
    Patch(Patch(b[..size], h.checksum, checksum), h.directory, DirectoryEntry(size, c)) + Tail(size, c)
  }

  lemma SignedFields(b: seq<Byte>, size: nat, h: Header, checksum: seq<Byte>, c: Certificate)
    requires size <= |b| && HeaderOk(h, size) && |checksum| == 4 && CanCarry(size, c)
    ensures var r := Sign(b, size, h, checksum, c);
      && SameOutside(b, r, h, size)
      && r[h.checksum..h.checksum + 4] == checksum
      && r[h.directory..h.directory + 8] == DirectoryEntry(size, c)
      && r[size..] == Tail(size, c)
  {
    hide Patch, DirectoryEntry, Tail, CanCarry;
  }

  lemma ZeroField(b: seq<Byte>, i: nat)
    requires i + 4 <= |b| && IsZero(b[i..i + 4])
    ensures U32(b, i) == 0
  {
    var f := b[i..i + 4];
    assert f[0] == b[i] && f[1] == b[i + 1] && f[2] == b[i + 2] && f[3] == b[i + 3];
  }

  lemma SignedCertificate(r: seq<Byte>, size: nat, h: Header, c: Certificate, requireSigned: bool)
    requires size <= |r| && HeaderOk(h, size) && CanCarry(size, c) && (requireSigned ==> c.Signed?)
    requires r[h.directory..h.directory + 8] == DirectoryEntry(size, c) && r[size..] == Tail(size, c)
    ensures CertificateOk(r, size, h, requireSigned)
  {
    hide U32, Bytes32, AlignUp;
    var entry := r[h.directory..h.directory + 8];
    assert entry[..4] == r[h.directory..h.directory + 4] && entry[4..] == r[h.directory + 4..h.directory + 8];
    match c
    case Unsigned =>
      ZeroField(r, h.directory);
      ZeroField(r, h.directory + 4);
    case Signed(table) =>
      Aligned(size);
      var at := AlignUp(size);
      FieldReads32(r, h.directory, at);
      FieldReads32(r, h.directory + 4, |table|);
      assert r[size..at] == r[size..][..at - size] == Zeros(at - size);
  }

  lemma MaskAgrees(a: seq<Byte>, b: seq<Byte>, h: Header, size: nat)
    requires SameOutside(a, b, h, size) && HeaderOk(h, size)
    ensures Mask(a[..size], h) == Mask(b[..size], h)
  {
  }

  lemma MagicAgrees(a: seq<Byte>, b: seq<Byte>, h: Header, size: nat)
    requires SameOutside(a, b, h, size) && HeaderOk(h, size)
    ensures |b| >= 2 && a[0] == b[0] && a[1] == b[1]
  {
  }

  /** Signing again, or removing the signature where that is allowed, keeps the normal form. */
  lemma SignAgain(b: seq<Byte>, size: int, requireSigned: bool, checksum: seq<Byte>, c: Certificate)
    requires Normalize(b, size, requireSigned).Normalized?
    requires |checksum| == 4 && CanCarry(size, c) && (requireSigned ==> c.Signed?)
    ensures SizeOk(b, size) && Find(b, size).Some? && HeaderOk(Find(b, size).value, size)
    ensures Normalize(Sign(b, size, Find(b, size).value, checksum, c), size, requireSigned)
      == Normalize(b, size, requireSigned)
  {
    hide Find, Normalize, CertificateOk, SameOutside, Sign, Mask, CanCarry, DirectoryEntry, Tail;
    NormalizeDefined(b, size, requireSigned);
    var h := Find(b, size).value;
    var r := Sign(b, size, h, checksum, c);
    SignedFields(b, size, h, checksum, c);
    HeaderAgrees(b, r, size, h);
    SignedCertificate(r, size, h, c, requireSigned);
    MagicAgrees(b, r, h, size);
    NormalizeIs(r, size, h, requireSigned);
    MaskAgrees(b, r, h, size);
  }

  /** The certificate an accepted image carries. */
  function CertificateOf(b: seq<Byte>, h: Header): Certificate
    requires h.directory + 8 <= |b|
  {
    if CertificateOffset(b, h) == 0 || CertificateOffset(b, h) > |b| then Unsigned
    else Signed(b[CertificateOffset(b, h)..])
  }

  lemma NoBytes(n: int)
    requires n == 0
    ensures Bytes32(n) + Bytes32(n) == Zeros(8)
  {
  }

  lemma CarriedCertificate(b: seq<Byte>, size: nat, h: Header, requireSigned: bool)
    requires size <= |b| && HeaderOk(h, size) && CertificateOk(b, size, h, requireSigned)
    ensures var c := CertificateOf(b, h);
      && CanCarry(size, c) && (requireSigned ==> c.Signed?)
      && b[h.directory..h.directory + 8] == DirectoryEntry(size, c) && b[size..] == Tail(size, c)
  {
    hide U32, Bytes32, AlignUp;
    var c := CertificateOf(b, h);
    Bytes32Inverse(b, h.directory);
    Bytes32Inverse(b, h.directory + 4);
    assert b[h.directory..h.directory + 8] == b[h.directory..h.directory + 4] + b[h.directory + 4..h.directory + 8];
    if c.Signed? {
      Aligned(size);
      var at := CertificateOffset(b, h);
      assert b[size..] == b[size..at] + b[at..];
      assert b[size..at] == Zeros(at - size);
    } else {
      NoBytes(0);
    }
  }

  lemma EqualImages(a: seq<Byte>, b: seq<Byte>, h: Header, size: nat)
    requires HeaderOk(h, size) && SameOutside(a, b, h, size) && a[size..] == b[size..]
    requires a[h.checksum..h.checksum + 4] == b[h.checksum..h.checksum + 4]
    requires a[h.directory..h.directory + 8] == b[h.directory..h.directory + 8]
    ensures a == b
  {
    assert |a| == size + |a[size..]| && |b| == size + |b[size..]|;
    forall i | 0 <= i < |a|
      ensures a[i] == b[i]
    {
      if i >= size {
        assert a[i] == a[size..][i - size] == b[size..][i - size];
      } else if h.checksum <= i < h.checksum + 4 {
        assert a[i] == a[h.checksum..h.checksum + 4][i - h.checksum];
        assert b[i] == b[h.checksum..h.checksum + 4][i - h.checksum];
      } else if h.directory <= i < h.directory + 8 {
        assert a[i] == a[h.directory..h.directory + 8][i - h.directory];
        assert b[i] == b[h.directory..h.directory + 8][i - h.directory];
      }
    }
  }

  lemma SignedAlike(a: seq<Byte>, b: seq<Byte>, size: nat, h: Header, requireSigned: bool)
    requires size <= |a| && size <= |b| && HeaderOk(h, size) && SameOutside(a, b, h, size)
    requires CertificateOk(b, size, h, requireSigned)
    ensures var c := CertificateOf(b, h);
      && CanCarry(size, c) && (requireSigned ==> c.Signed?)
      && b == Sign(a, size, h, b[h.checksum..h.checksum + 4], c)
  {
    hide CertificateOk, CertificateOf, CanCarry, DirectoryEntry, Tail, Sign;
    CarriedCertificate(b, size, h, requireSigned);
    var r := Sign(a, size, h, b[h.checksum..h.checksum + 4], CertificateOf(b, h));
    SignedFields(a, size, h, b[h.checksum..h.checksum + 4], CertificateOf(b, h));
    EqualImages(b, r, h, size);
  }

  lemma MaskedImage(b: seq<Byte>, size: nat, h: Header, n: seq<Byte>)
    requires DOS_HEADER_BYTES <= size <= |b| && Find(b, size) == Some(h) && HeaderOk(h, size) && n == Mask(b[..size], h)
    ensures |n| == size && SameOutside(b, n, h, size) && Find(n, size) == Some(h)
  {
    hide Find;
    HeaderAgrees(b, n, size, h);
  }

  lemma OutsideVia(a: seq<Byte>, n: seq<Byte>, b: seq<Byte>, h: Header, size: nat)
    requires SameOutside(a, n, h, size) && SameOutside(b, n, h, size)
    ensures SameOutside(a, b, h, size)
  {
  }

  /**
   At a fixed unsigned size, two accepted images have the same normal form exactly when
   one is the other signed again: no difference but the checksum, the certificate
   directory entry, and the zero padding and certificate table at the end.
   */
  lemma SameNormalForm(a: seq<Byte>, b: seq<Byte>, size: int, requireSigned: bool)
    requires Normalize(a, size, requireSigned).Normalized?
    requires Normalize(b, size, requireSigned) == Normalize(a, size, requireSigned)
    ensures SizeOk(a, size) && SizeOk(b, size) && Find(a, size).Some? && Find(b, size) == Find(a, size)
    ensures var h := Find(a, size).value;
      && HeaderOk(h, size)
      && var c := CertificateOf(b, h);
         && CanCarry(size, c) && (requireSigned ==> c.Signed?)
         && b == Sign(a, size, h, b[h.checksum..h.checksum + 4], c)
  {
    hide Find, Normalize, CertificateOk, CertificateOf, SameOutside, Sign, Mask, CanCarry;
    NormalizeDefined(a, size, requireSigned);
    NormalizeDefined(b, size, requireSigned);
    var h, n := Find(a, size).value, Normalize(a, size, requireSigned).bytes;
    MaskedImage(a, size, h, n);
    MaskedImage(b, size, Find(b, size).value, n);
    OutsideVia(a, n, b, h, size);
    SignedAlike(a, b, size, h, requireSigned);
  }

  // ---------------------------------------------------------------- the two implementations

  method ReadU16(b: seq<Byte>, offset: int, limit: int) returns (n: Option<int>)
    ensures n == if offset < 0 || offset + 2 > limit || offset + 2 > |b| then None else Some(U16(b, offset))
  {
    if offset < 0 || offset + 2 > limit || offset + 2 > |b| {
      return None;
    }
    return Some(U16(b, offset));
  }

  method ReadU32(b: seq<Byte>, offset: int, limit: int) returns (n: Option<int>)
    ensures n == if offset < 0 || offset + 4 > limit || offset + 4 > |b| then None else Some(U32(b, offset))
  {
    if offset < 0 || offset + 4 > limit || offset + 4 > |b| {
      return None;
    }
    return Some(U32(b, offset));
  }

  method AllZero(b: seq<Byte>, from: nat, to: nat) returns (zero: bool)
    requires from <= to <= |b|
    ensures zero == IsZero(b[from..to])
  {
    for i := from to to
      invariant forall k :: from <= k < i ==> b[k] == 0
    {
      if b[i] != 0 {
        assert b[from..to][i - from] != 0;
        return false;
      }
    }
    return true;
  }

  method Clear2(b: seq<Byte>, h: Header, size: nat) returns (normalized: seq<Byte>)
    requires size <= |b| && h.checksum + 4 <= size && h.directory + 8 <= size
    ensures normalized == Mask(b[..size], h)
  {
    hide Patch, Zeros, Masked;
    var copy := new Byte[size](i requires 0 <= i < size => b[i]);
    assert copy[..] == b[..size];
    FillZero(copy, h.checksum, h.checksum + 4);
    FillZero(copy, h.directory, h.directory + 8);
    return copy[..];
  }

  /** The artifact-hash copy reads the headers field by field. */
  method ReadHeader(b: seq<Byte>, unsignedSize: nat) returns (header: Option<Header>)
    requires DOS_HEADER_BYTES <= unsignedSize <= |b|
    ensures header == Find(b, unsignedSize)
  {
    hide U16, U32;
    var pe := ReadU32(b, 0x3c, unsignedSize);
    if pe.None? || pe.value < DOS_HEADER_BYTES || pe.value + 4 + COFF_HEADER_BYTES > unsignedSize {
      return None;
    }
    if b[pe.value..pe.value + 4] != SIGNATURE {
      return None;
    }
    var coffOffset := pe.value + 4;
    var optionalBytes := ReadU16(b, coffOffset + 16, unsignedSize);
    if optionalBytes.None? {
      return None;
    }
    var optionalOffset := coffOffset + COFF_HEADER_BYTES;
    var optionalEnd := optionalOffset + optionalBytes.value;
    if optionalBytes.value == 0 || optionalEnd > unsignedSize {
      return None;
    }
    var magic := ReadU16(b, optionalOffset, optionalEnd);
    if magic.None? {
      return None;
    }
    var countOffset, directoryOffset;
    if magic.value == OPTIONAL_MAGIC_32 {
      countOffset, directoryOffset := optionalOffset + 92, optionalOffset + 96;
    } else if magic.value == OPTIONAL_MAGIC_64 {
      countOffset, directoryOffset := optionalOffset + 108, optionalOffset + 112;
    } else {
      return None;
    }
    var count := ReadU32(b, countOffset, optionalEnd);
    if count.None? || count.value <= CERTIFICATE_DIRECTORY_INDEX {
      return None;
    }
    var certificateDirectory := directoryOffset + CERTIFICATE_DIRECTORY_INDEX * 8;
    var offset := ReadU32(b, certificateDirectory, optionalEnd);
    var bytes := ReadU32(b, certificateDirectory + 4, optionalEnd);
    var checksum := ReadU32(b, optionalOffset + CHECKSUM_OFFSET, optionalEnd);
    if offset.None? || bytes.None? || checksum.None? {
      return None;
    }
    return Some(Header(optionalOffset + CHECKSUM_OFFSET, certificateDirectory));
  }

  method CheckCertificate(b: seq<Byte>, unsignedSize: nat, h: Header, requireSigned: bool) returns (ok: bool)
    requires unsignedSize <= |b| && HeaderOk(h, unsignedSize)
    ensures ok == CertificateOk(b, unsignedSize, h, requireSigned)
  {
    hide U32, IsZero;
    var certificateOffset, certificateBytes := U32(b, h.directory), U32(b, h.directory + 4);
    if certificateOffset == 0 || certificateBytes == 0 {
      return certificateOffset == 0 && certificateBytes == 0 && unsignedSize == |b| && !requireSigned;
    }
    if certificateOffset % 8 != 0 || certificateBytes < 8 || certificateBytes % 8 != 0
       || certificateOffset < unsignedSize || certificateOffset - unsignedSize >= 8
       || certificateOffset + certificateBytes != |b| {
      return false;
    }
    ok := AllZero(b, unsignedSize, certificateOffset);
  }

  /** The artifact-hash copy; the unsigned size is the file size unless one is given. */
  method SigningIndependent(b: seq<Byte>, givenSize: Option<int>, requireSigned: bool) returns (outcome: Outcome)
    ensures outcome == Normalize(b, if givenSize.Some? then givenSize.value else |b|, requireSigned)
  {
    if |b| < 2 || b[0] != 0x4d || b[1] != 0x5a {
      return NotThisFormat;
    }
    if |b| < DOS_HEADER_BYTES {
      return Refused;
    }
    var unsignedSize := if givenSize.Some? then givenSize.value else |b|;
    if unsignedSize > MAX_SAFE_INTEGER || unsignedSize < DOS_HEADER_BYTES || unsignedSize > |b| {
      return Refused;
    }
    var header := ReadHeader(b, unsignedSize);
    if header.None? {
      return Refused;
    }
    FoundHeaderOk(b, unsignedSize);
    var h := header.value;
    hide Find, CertificateOk, Mask;
    var ok := CheckCertificate(b, unsignedSize, h, requireSigned);
    if !ok {
      return Refused;
    }
    var normalized := Clear2(b, h, unsignedSize);
    return Normalized(normalized);
  }

  /** The provenance copy of the header checks, with both magics in one expression. */
  method ProvenanceHeader(b: seq<Byte>, unsignedSize: nat) returns (header: Option<Header>)
    requires DOS_HEADER_BYTES <= unsignedSize <= |b|
    ensures header == Find(b, unsignedSize)
  {
    hide U16, U32;
    var pe := ReadU32(b, 0x3c, unsignedSize);
    if pe.None? || pe.value < DOS_HEADER_BYTES || pe.value + 4 + COFF_HEADER_BYTES > unsignedSize
       || b[pe.value..pe.value + 4] != SIGNATURE {
      return None;
    }
    var optionalBytes := ReadU16(b, pe.value + 20, unsignedSize);
    var optionalOffset := pe.value + 24;
    if optionalBytes.None? || optionalBytes.value == 0 || optionalOffset + optionalBytes.value > unsignedSize {
      return None;
    }
    var optionalEnd := optionalOffset + optionalBytes.value;
    var magic := ReadU16(b, optionalOffset, optionalEnd);
    if magic.None? {
      return None;
    }
    var countOffset := if magic.value == OPTIONAL_MAGIC_32 then optionalOffset + 92
                       else if magic.value == OPTIONAL_MAGIC_64 then optionalOffset + 108 else -1;
    var directoryOffset := if magic.value == OPTIONAL_MAGIC_32 then optionalOffset + 96
                           else if magic.value == OPTIONAL_MAGIC_64 then optionalOffset + 112 else -1;
    if directoryOffset < 0 {
      return None;
    }
    var count := ReadU32(b, countOffset, optionalEnd);
    if count.None? || count.value <= CERTIFICATE_DIRECTORY_INDEX {
      return None;
    }
    var certificateDirectory := directoryOffset + CERTIFICATE_DIRECTORY_INDEX * 8;
    var offset := ReadU32(b, certificateDirectory, optionalEnd);
    var bytes := ReadU32(b, certificateDirectory + 4, optionalEnd);
    var checksum := ReadU32(b, optionalOffset + CHECKSUM_OFFSET, optionalEnd);
    if offset.None? || bytes.None? || checksum.None? {
      return None;
    }
    return Some(Header(optionalOffset + CHECKSUM_OFFSET, certificateDirectory));
  }

  /** The provenance copy accepts the same images with the same bytes. */
  method ProvenanceSigningIndependent(b: seq<Byte>, unsignedSize: int, requireSigned: bool) returns (outcome: Outcome)
    ensures outcome == Normalize(b, unsignedSize, requireSigned)
  {
    if |b| < 2 || b[0] != 0x4d || b[1] != 0x5a {
      return NotThisFormat;
    }
    if |b| < DOS_HEADER_BYTES || unsignedSize > MAX_SAFE_INTEGER || unsignedSize < DOS_HEADER_BYTES
      || unsignedSize > |b| {
      return Refused;
    }
    var header := ProvenanceHeader(b, unsignedSize);
    if header.None? {
      return Refused;
    }
    FoundHeaderOk(b, unsignedSize);
    var h := header.value;
    hide Find, CertificateOk, Mask;
    var ok := CheckCertificate(b, unsignedSize, h, requireSigned);
    if !ok {
      return Refused;
    }
    var normalized := Clear2(b, h, unsignedSize);
    return Normalized(normalized);
  }
}
