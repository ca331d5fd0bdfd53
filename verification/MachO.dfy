/**
 The signing-independent form of a signed Mach-O image
 (electron/nativeArtifactHash.ts:78-181, electron/irohaJsNativeProvenance.ts:265-372).
 Hashes are compared through the bytes they are applied to.
 */
module MachO {
  import opened Bytes
  import opened Images

  const MAGIC := 0xfeedfacf
  const HEADER_BYTES := 32
  const LC_SEGMENT_64 := 0x19
  const LC_CODE_SIGNATURE := 0x1d
  const MAX_LOAD_COMMANDS := 4096
  const LINKEDIT: seq<Byte> := [0x5f, 0x5f, 0x4c, 0x49, 0x4e, 0x4b, 0x45, 0x44, 0x49, 0x54, 0, 0, 0, 0, 0, 0]

  /** `hasExactSegmentName(bytes, i, "__LINKEDIT")` */
  predicate NamedLinkedit(b: seq<Byte>, i: nat)
    requires i + 16 <= |b|
  {
    b[i..i + 16] == LINKEDIT
  }

  // ---------------------------------------------------------------- the load commands

  /** Offsets of the code-signature command and of the __LINKEDIT segment, as far as found. */
  datatype Found = Found(signature: Option<nat>, linkedit: Option<nat>)

  predicate IsLinkedit(b: seq<Byte>, offset: nat, size: nat)
    requires offset + size <= |b| && offset + 8 <= |b|
  {
    U32(b, offset) == LC_SEGMENT_64 && size >= 72 && NamedLinkedit(b, offset + 8)
  }

  /** The command at this offset has a canonical size. */
  predicate CommandFits(b: seq<Byte>, offset: nat, end: nat)
    requires end <= |b|
  {
    && offset + 8 <= end
    && 8 <= U32(b, offset + 4) && U32(b, offset + 4) % 8 == 0 && offset + U32(b, offset + 4) <= end
  }

  /** What one load command adds to what was found; `None` where the program throws. */
  function Visit(b: seq<Byte>, offset: nat, end: nat, found: Found): Option<Found>
    requires end <= |b| && CommandFits(b, offset, end)
  {
    var size := U32(b, offset + 4);
    if U32(b, offset) == LC_CODE_SIGNATURE then
      if found.signature.Some? || size != 16 then None else Some(found.(signature := Some(offset)))
    else if IsLinkedit(b, offset, size) then
      if found.linkedit.Some? then None else Some(found.(linkedit := Some(offset)))
    else Some(found)
  }

  function Walk(b: seq<Byte>, offset: nat, remaining: nat, end: nat, found: Found): Option<Found>
    requires end <= |b|
    decreases remaining
  {
    if remaining == 0 then if offset == end then Some(found) else None
    else if !CommandFits(b, offset, end) then None
    else
      match Visit(b, offset, end, found)
      case None => None
      case Some(next) => Walk(b, offset + U32(b, offset + 4), remaining - 1, end, next)
  }

  /** The two commands of an image whose load-command table is canonical. */
  datatype Layout = Layout(signature: nat, linkedit: nat)

  function CommandEnd(b: seq<Byte>): (end: nat)
    requires HEADER_BYTES <= |b|
    ensures end >= HEADER_BYTES
  {
    HEADER_BYTES + U32(b, 20)
  }

  function FindLayout(b: seq<Byte>): Option<Layout>
    requires HEADER_BYTES <= |b|
  {
    var count := U32(b, 16);
    if count == 0 || count > MAX_LOAD_COMMANDS || CommandEnd(b) > |b| then None
    else
      match Walk(b, HEADER_BYTES, count, CommandEnd(b), Found(None, None))
      case Some(Found(Some(signature), Some(linkedit))) => Some(Layout(signature, linkedit))
      case _ => None
  }

  /** A walk keeps what was found and finds the rest in the commands still ahead. */
  lemma {:induction false} WalkFinds(b: seq<Byte>, offset: nat, remaining: nat, end: nat, found: Found)
    requires end <= |b|
    ensures var w := Walk(b, offset, remaining, end, found);
      w.Some? ==>
        && offset <= end
        && (found.signature.Some? ==> w.value.signature == found.signature)
        && (found.linkedit.Some? ==> w.value.linkedit == found.linkedit)
        && (found.signature.None? && w.value.signature.Some? ==>
              offset <= w.value.signature.value && w.value.signature.value + 16 <= end)
        && (found.linkedit.None? && w.value.linkedit.Some? ==>
              offset <= w.value.linkedit.value && w.value.linkedit.value + 72 <= end)
    decreases remaining
  {
    hide NamedLinkedit;
    if remaining > 0 && CommandFits(b, offset, end) {
      var next := Visit(b, offset, end, found);
      if next.Some? {
        WalkFinds(b, offset + U32(b, offset + 4), remaining - 1, end, next.value);
      }
    }
  }

  predicate Masked(l: Layout, i: int) {
    || l.linkedit + 32 <= i < l.linkedit + 40
    || l.linkedit + 48 <= i < l.linkedit + 56
    || l.signature + 12 <= i < l.signature + 16
  }

  /** Neither read nor masked bytes apart, the two images are the same. */
  ghost predicate SameOutside(a: seq<Byte>, b: seq<Byte>, l: Layout, end: nat) {
    && end <= |a| && end <= |b|
    && forall i :: 0 <= i < end && !Masked(l, i) ==> a[i] == b[i]
  }

  /** The part of a command that the walk reads. */
  predicate Clear(l: Layout, lo: nat, hi: nat) {
    && (l.linkedit + 56 <= lo || hi <= l.linkedit + 32)
    && (l.signature + 16 <= lo || hi <= l.signature + 12)
  }

  lemma ClearAgrees(a: seq<Byte>, b: seq<Byte>, l: Layout, end: nat, lo: nat, hi: nat)
    requires SameOutside(a, b, l, end) && Clear(l, lo, hi) && hi <= end
    ensures Agree(a, b, lo, hi)
  {
  }

  lemma VisitAgrees(a: seq<Byte>, b: seq<Byte>, l: Layout, offset: nat, end: nat, found: Found)
    requires SameOutside(a, b, l, end) && offset + 8 <= end && Clear(l, offset, offset + 8)
    requires CommandFits(a, offset, end)
    requires U32(a, offset) != LC_CODE_SIGNATURE && U32(a, offset + 4) >= 72 ==> Clear(l, offset, offset + 24)
    ensures CommandFits(b, offset, end) && U32(a, offset + 4) == U32(b, offset + 4)
    ensures Visit(a, offset, end, found) == Visit(b, offset, end, found)
  {
    ClearAgrees(a, b, l, end, offset, offset + 8);
    AgreeU32(a, b, offset);
    AgreeU32(a, b, offset + 4);
    if U32(a, offset) != LC_CODE_SIGNATURE && U32(a, offset + 4) >= 72 {
      ClearAgrees(a, b, l, end, offset, offset + 24);
      assert a[offset + 8..offset + 24] == b[offset + 8..offset + 24];
    }
  }

  /** One step of a walk that finds both commands stays clear of the masked bytes. */
  lemma WalkStep(a: seq<Byte>, l: Layout, offset: nat, remaining: nat, end: nat, found: Found)
    requires end <= |a| && remaining > 0
    requires Walk(a, offset, remaining, end, found) == Some(Found(Some(l.signature), Some(l.linkedit)))
    requires found.signature.Some? ==> l.signature + 16 <= offset
    requires found.linkedit.Some? ==> l.linkedit + 72 <= offset
    ensures CommandFits(a, offset, end) && Visit(a, offset, end, found).Some?
    ensures Walk(a, offset + U32(a, offset + 4), remaining - 1, end, Visit(a, offset, end, found).value)
         == Walk(a, offset, remaining, end, found)
    ensures var next := Visit(a, offset, end, found).value;
      && (next.signature.Some? ==> l.signature + 16 <= offset + U32(a, offset + 4))
      && (next.linkedit.Some? ==> l.linkedit + 72 <= offset + U32(a, offset + 4))
    ensures Clear(l, offset, offset + 8)
    ensures U32(a, offset) != LC_CODE_SIGNATURE && U32(a, offset + 4) >= 72 ==> Clear(l, offset, offset + 24)
  {
    hide NamedLinkedit;
    var size := U32(a, offset + 4);
    var next := Visit(a, offset, end, found).value;
    hide Walk;
    WalkFinds(a, offset, remaining, end, found);
    WalkFinds(a, offset + size, remaining - 1, end, next);
  }

  lemma CommandHeader(b: seq<Byte>, offset: nat, end: nat)
    requires end <= |b| && CommandFits(b, offset, end)
    ensures offset + 8 <= end
  {
  }

  /** The walk never reads a masked byte: masking the fields it finds does not change what it finds. */
  lemma {:induction false} WalkAgrees(a: seq<Byte>, b: seq<Byte>, l: Layout, offset: nat, remaining: nat, end: nat,
                                      found: Found)
    requires SameOutside(a, b, l, end) && end <= |a| && end <= |b|
    requires Walk(a, offset, remaining, end, found) == Some(Found(Some(l.signature), Some(l.linkedit)))
    requires found.signature.Some? ==> l.signature + 16 <= offset
    requires found.linkedit.Some? ==> l.linkedit + 72 <= offset
    ensures Walk(b, offset, remaining, end, found) == Walk(a, offset, remaining, end, found)
    decreases remaining
  {
    hide NamedLinkedit, SameOutside, CommandFits, Visit, Clear, U32;
    if remaining == 0 {
    } else {
      WalkStep(a, l, offset, remaining, end, found);
      CommandHeader(a, offset, end);
      VisitAgrees(a, b, l, offset, end, found);
      WalkAgrees(a, b, l, offset + U32(a, offset + 4), remaining - 1, end, Visit(a, offset, end, found).value);
    }
  }

  /** The two commands do not overlap. */
  predicate Apart(signature: nat, linkedit: nat) {
    signature + 16 <= linkedit || linkedit + 72 <= signature
  }

  lemma {:induction false} WalkDisjoint(b: seq<Byte>, offset: nat, remaining: nat, end: nat, found: Found)
    requires end <= |b| && Walk(b, offset, remaining, end, found).Some?
    requires found.signature.Some? ==> found.signature.value + 16 <= offset
    requires found.linkedit.Some? ==> found.linkedit.value + 72 <= offset
    requires found.signature.Some? && found.linkedit.Some? ==> Apart(found.signature.value, found.linkedit.value)
    ensures var w := Walk(b, offset, remaining, end, found).value;
      w.signature.Some? && w.linkedit.Some? ==> Apart(w.signature.value, w.linkedit.value)
    decreases remaining
  {
    hide NamedLinkedit;
    if remaining == 0 {
    } else {
      WalkDisjoint(b, offset + U32(b, offset + 4), remaining - 1, end, Visit(b, offset, end, found).value);
    }
  }

  /** Where the two commands of an accepted table are. */
  ghost predicate LayoutOk(b: seq<Byte>, l: Layout)
    requires HEADER_BYTES <= |b|
  {
    && CommandEnd(b) <= |b|
    && HEADER_BYTES <= l.signature && l.signature + 16 <= CommandEnd(b)
    && HEADER_BYTES <= l.linkedit && l.linkedit + 72 <= CommandEnd(b)
    && Apart(l.signature, l.linkedit)
  }

  lemma LayoutFound(b: seq<Byte>)
    requires HEADER_BYTES <= |b| && FindLayout(b).Some?
    ensures LayoutOk(b, FindLayout(b).value)
  {
    hide Walk;
    WalkFinds(b, HEADER_BYTES, U32(b, 16), CommandEnd(b), Found(None, None));
    WalkDisjoint(b, HEADER_BYTES, U32(b, 16), CommandEnd(b), Found(None, None));
  }

  /** An image that differs only in masked bytes has the same layout. */
  lemma LayoutAgrees(a: seq<Byte>, b: seq<Byte>, l: Layout)
    requires HEADER_BYTES <= |a| && HEADER_BYTES <= |b|
    requires FindLayout(a) == Some(l) && SameOutside(a, b, l, CommandEnd(a))
    ensures FindLayout(b) == Some(l) && CommandEnd(b) == CommandEnd(a)
  {
    hide Walk, Masked, Agree;
    LayoutFound(a);
    ClearAgrees(a, b, l, CommandEnd(a), 16, 20);
    ClearAgrees(a, b, l, CommandEnd(a), 20, 24);
    AgreeU32(a, b, 16);
    AgreeU32(a, b, 20);
    WalkAgrees(a, b, l, HEADER_BYTES, U32(a, 16), CommandEnd(a), Found(None, None));
  }

  // ---------------------------------------------------------------- the normal form

  function SignatureOffset(b: seq<Byte>, l: Layout): nat
    requires HEADER_BYTES <= |b| && LayoutOk(b, l)
  {
    U32(b, l.signature + 8)
  }

  function LinkeditOffset(b: seq<Byte>, l: Layout): nat
    requires HEADER_BYTES <= |b| && LayoutOk(b, l)
  {
    U64(b, l.linkedit + 40)
  }

  predicate SignatureIsFinal(b: seq<Byte>, l: Layout)
    requires HEADER_BYTES <= |b| && l.signature + 16 <= |b|
  {
    var s, n := U32(b, l.signature + 8), U32(b, l.signature + 12);
    CommandEnd(b) <= s && n != 0 && s + n == |b|
  }

  predicate LinkeditIsFinal(b: seq<Byte>, l: Layout)
    requires l.linkedit + 72 <= |b| && l.signature + 16 <= |b|
  {
    var from, size := U64(b, l.linkedit + 40), U64(b, l.linkedit + 48);
    from <= MAX_SAFE_INTEGER && size <= MAX_SAFE_INTEGER && from <= U32(b, l.signature + 8) && from + size == |b|
  }

  /** The signature and the __LINKEDIT segment end with the file. */
  ghost predicate SizesOk(b: seq<Byte>, l: Layout)
    requires HEADER_BYTES <= |b| && LayoutOk(b, l)
  {
    SignatureIsFinal(b, l) && LinkeditIsFinal(b, l)
  }

  /** The bytes before the signature with the three size fields cleared. */
  function Mask(b: seq<Byte>, l: Layout): (m: seq<Byte>)
    requires l.linkedit + 56 <= |b| && l.signature + 16 <= |b|
    ensures |m| == |b| && forall i :: 0 <= i < |b| ==> m[i] == if Masked(l, i) then 0 else b[i]
  {
    Patch(Patch(Patch(b, l.linkedit + 32, Zeros(8)), l.linkedit + 48, Zeros(8)), l.signature + 12, Zeros(4))
  }

  /** The bytes whose hash `machOSigningIndependentSha256` returns. */
  ghost function Normalize(b: seq<Byte>): Outcome {
    if |b| < 4 || U32(b, 0) != MAGIC then NotThisFormat
    else if |b| < HEADER_BYTES || FindLayout(b).None? then Refused
    else
      var l := FindLayout(b).value;
      LayoutFound(b);
      if !SizesOk(b, l) then Refused else Normalized(Mask(b[..SignatureOffset(b, l)], l))
  }

  lemma {:induction false} NormalizeDefined(b: seq<Byte>)
    requires Normalize(b).Normalized?
    ensures |b| >= HEADER_BYTES && FindLayout(b).Some? && LayoutOk(b, FindLayout(b).value)
    ensures U32(b, 0) == MAGIC && SizesOk(b, FindLayout(b).value)
    ensures Normalize(b) == Normalized(Mask(b[..SignatureOffset(b, FindLayout(b).value)], FindLayout(b).value))
  {
    hide FindLayout;
    LayoutFound(b);
  }

  // ---------------------------------------------------------------- signing again

  /** A signature that an image can be given. */
  predicate CanSign(b: seq<Byte>, l: Layout, virtualSize: seq<Byte>, signature: seq<Byte>)
    requires HEADER_BYTES <= |b| && LayoutOk(b, l)
  {
    && |virtualSize| == 8 && 0 < |signature| < 0x1_0000_0000
    && LinkeditOffset(b, l) <= SignatureOffset(b, l) <= |b|
    && SignatureOffset(b, l) + |signature| - LinkeditOffset(b, l) <= MAX_SAFE_INTEGER
    && CommandEnd(b) <= SignatureOffset(b, l)
  }

  /** The image with another signature and the size fields corrected for it. */
  function Sign(b: seq<Byte>, l: Layout, virtualSize: seq<Byte>, signature: seq<Byte>): (r: seq<Byte>)
    requires HEADER_BYTES <= |b| && LayoutOk(b, l) && CanSign(b, l, virtualSize, signature)
    ensures |r| == SignatureOffset(b, l) + |signature|
  {
    var s := SignatureOffset(b, l);
    var sized := Patch(Patch(b[..s], l.linkedit + 32, virtualSize),
                       l.linkedit + 48, Bytes64(s + |signature| - LinkeditOffset(b, l)));
    Patch(sized, l.signature + 12, Bytes32(|signature|)) + signature
  }

  lemma SignedFields(b: seq<Byte>, l: Layout, virtualSize: seq<Byte>, signature: seq<Byte>)
    requires HEADER_BYTES <= |b| && LayoutOk(b, l) && CanSign(b, l, virtualSize, signature)
    ensures var r := Sign(b, l, virtualSize, signature); var s := SignatureOffset(b, l);
      && SameOutside(b, r, l, s)
      && r[l.linkedit + 32..l.linkedit + 40] == virtualSize
      && r[l.linkedit + 48..l.linkedit + 56] == Bytes64(|r| - LinkeditOffset(b, l))
      && r[l.signature + 12..l.signature + 16] == Bytes32(|signature|)
      && r[s..] == signature
  {
    hide Patch, Bytes32, Bytes64, CommandEnd;
  }

  /** Every accepted image can be signed again. */
  lemma AcceptedCanSign(b: seq<Byte>, l: Layout, virtualSize: seq<Byte>, signature: seq<Byte>)
    requires HEADER_BYTES <= |b| && LayoutOk(b, l) && SizesOk(b, l)
    requires |virtualSize| == 8 && 0 < |signature| < 0x1_0000_0000 && |b| + |signature| <= MAX_SAFE_INTEGER
    ensures CanSign(b, l, virtualSize, signature)
  {
    hide U32, U64;
  }

  lemma OutsidePrefix(a: seq<Byte>, b: seq<Byte>, l: Layout, s: nat)
    requires SameOutside(a, b, l, s)
    ensures s <= |a| && s <= |b| && SameOutside(a[..s], b[..s], l, s)
  {
  }

  lemma OutsideShorter(a: seq<Byte>, b: seq<Byte>, l: Layout, end: nat, s: nat)
    requires SameOutside(a, b, l, s) && end <= s
    ensures SameOutside(a, b, l, end)
  {
  }

  lemma MaskAgrees(a: seq<Byte>, b: seq<Byte>, l: Layout)
    requires |a| == |b| && SameOutside(a, b, l, |a|) && l.linkedit + 56 <= |b| && l.signature + 16 <= |b|
    ensures Mask(a, l) == Mask(b, l)
  {
  }

  lemma NormalizeIs(b: seq<Byte>, l: Layout)
    requires |b| >= HEADER_BYTES && U32(b, 0) == MAGIC && FindLayout(b) == Some(l) && LayoutOk(b, l) && SizesOk(b, l)
    ensures Normalize(b) == Normalized(Mask(b[..SignatureOffset(b, l)], l))
  {
    hide FindLayout;
  }

  lemma SignedSizes(b: seq<Byte>, r: seq<Byte>, l: Layout, signature: seq<Byte>)
    requires HEADER_BYTES <= |b| && LayoutOk(b, l) && SizesOk(b, l)
    requires 0 < |signature| < 0x1_0000_0000 && |r| == SignatureOffset(b, l) + |signature| <= MAX_SAFE_INTEGER
    requires SameOutside(b, r, l, SignatureOffset(b, l)) && CommandEnd(r) == CommandEnd(b)
    requires r[l.linkedit + 48..l.linkedit + 56] == Bytes64(|r| - LinkeditOffset(b, l))
    requires r[l.signature + 12..l.signature + 16] == Bytes32(|signature|)
    ensures LayoutOk(r, l) && SizesOk(r, l) && SignatureOffset(r, l) == SignatureOffset(b, l)
    ensures LinkeditOffset(r, l) == LinkeditOffset(b, l)
  {
    hide U32, U64, Bytes32, Bytes64;
    var s := SignatureOffset(b, l);
    ClearAgrees(b, r, l, s, l.signature + 8, l.signature + 12);
    AgreeU32(b, r, l.signature + 8);
    assert forall i :: l.linkedit + 40 <= i < l.linkedit + 48 ==> !Masked(l, i);
    AgreeU64(b, r, l.linkedit + 40);
    FieldReads64(r, l.linkedit + 48, |r| - LinkeditOffset(b, l));
    FieldReads32(r, l.signature + 12, |signature|);
  }

  lemma SignedAccepted(b: seq<Byte>, r: seq<Byte>, l: Layout, signature: seq<Byte>)
    requires HEADER_BYTES <= |b| && LayoutOk(b, l) && SizesOk(b, l) && FindLayout(b) == Some(l) && U32(b, 0) == MAGIC
    requires 0 < |signature| < 0x1_0000_0000 && |r| == SignatureOffset(b, l) + |signature| <= MAX_SAFE_INTEGER
    requires SameOutside(b, r, l, SignatureOffset(b, l))
    requires r[l.linkedit + 48..l.linkedit + 56] == Bytes64(|r| - LinkeditOffset(b, l))
    requires r[l.signature + 12..l.signature + 16] == Bytes32(|signature|)
    ensures Normalize(r) == Normalized(Mask(b[..SignatureOffset(b, l)], l))
  {
    hide FindLayout, Normalize, U32, U64, Bytes32, Bytes64, SameOutside;
    var s := SignatureOffset(b, l);
    OutsideShorter(b, r, l, CommandEnd(b), s);
    LayoutAgrees(b, r, l);
    ClearAgrees(b, r, l, s, 0, 4);
    AgreeU32(b, r, 0);
    SignedSizes(b, r, l, signature);
    NormalizeIs(r, l);
    OutsidePrefix(b, r, l, s);
    MaskAgrees(b[..s], r[..s], l);
  }

  lemma SignatureInFile(b: seq<Byte>, l: Layout)
    requires HEADER_BYTES <= |b| && LayoutOk(b, l) && SizesOk(b, l)
    ensures CommandEnd(b) <= SignatureOffset(b, l) <= |b|
  {
    hide U32, U64;
  }

  /** Signing again yields an accepted image with the same normal form. */
  lemma SignAgain(b: seq<Byte>, virtualSize: seq<Byte>, signature: seq<Byte>)
    requires Normalize(b).Normalized? && |virtualSize| == 8 && 0 < |signature| < 0x1_0000_0000
    requires |b| + |signature| <= MAX_SAFE_INTEGER
    ensures var l := FindLayout(b).value;
      && |b| >= HEADER_BYTES && LayoutOk(b, l) && CanSign(b, l, virtualSize, signature)
      && Normalize(Sign(b, l, virtualSize, signature)) == Normalize(b)
  {
    hide FindLayout, Normalize, Sign, SizesOk, LayoutOk, CanSign, SameOutside, Bytes32, Bytes64, U32, U64, Mask;
    NormalizeDefined(b);
    var l := FindLayout(b).value;
    AcceptedCanSign(b, l, virtualSize, signature);
    SignedFields(b, l, virtualSize, signature);
    SignatureInFile(b, l);
    SignedAccepted(b, Sign(b, l, virtualSize, signature), l, signature);
  }

  lemma MaskedImage(b: seq<Byte>, l: Layout, n: seq<Byte>)
    requires HEADER_BYTES <= |b| && FindLayout(b) == Some(l) && LayoutOk(b, l) && SizesOk(b, l)
    requires n == Mask(b[..SignatureOffset(b, l)], l)
    ensures |n| == SignatureOffset(b, l) && SameOutside(b, n, l, |n|)
    ensures |n| >= HEADER_BYTES && FindLayout(n) == Some(l)
  {
    hide U32, U64, FindLayout;
    OutsideShorter(b, n, l, CommandEnd(b), |n|);
    LayoutAgrees(b, n, l);
  }

  lemma EqualImages(a: seq<Byte>, b: seq<Byte>, l: Layout, s: nat)
    requires |a| == |b| && SameOutside(a, b, l, s) && a[s..] == b[s..]
    requires l.linkedit + 56 <= s && l.signature + 16 <= s
    requires a[l.linkedit + 32..l.linkedit + 40] == b[l.linkedit + 32..l.linkedit + 40]
    requires a[l.linkedit + 48..l.linkedit + 56] == b[l.linkedit + 48..l.linkedit + 56]
    requires a[l.signature + 12..l.signature + 16] == b[l.signature + 12..l.signature + 16]
    ensures a == b
  {
    forall i | 0 <= i < |a|
      ensures a[i] == b[i]
    {
      if i >= s {
        assert a[i] == a[s..][i - s] == b[s..][i - s];
      } else if l.linkedit + 32 <= i < l.linkedit + 40 {
        assert a[i] == a[l.linkedit + 32..l.linkedit + 40][i - l.linkedit - 32];
        assert b[i] == b[l.linkedit + 32..l.linkedit + 40][i - l.linkedit - 32];
      } else if l.linkedit + 48 <= i < l.linkedit + 56 {
        assert a[i] == a[l.linkedit + 48..l.linkedit + 56][i - l.linkedit - 48];
        assert b[i] == b[l.linkedit + 48..l.linkedit + 56][i - l.linkedit - 48];
      } else if l.signature + 12 <= i < l.signature + 16 {
        assert a[i] == a[l.signature + 12..l.signature + 16][i - l.signature - 12];
        assert b[i] == b[l.signature + 12..l.signature + 16][i - l.signature - 12];
      }
    }
  }

  lemma FieldInRange(b: seq<Byte>, l: Layout)
    requires HEADER_BYTES <= |b| && LayoutOk(b, l) && SizesOk(b, l)
    ensures 0 < |b| - SignatureOffset(b, l) < 0x1_0000_0000
    ensures U32(b, l.signature + 12) == |b| - SignatureOffset(b, l)
    ensures U64(b, l.linkedit + 48) == |b| - LinkeditOffset(b, l) <= MAX_SAFE_INTEGER
  {
  }

  lemma OutsideTrans(a: seq<Byte>, b: seq<Byte>, c: seq<Byte>, l: Layout, s: nat)
    requires SameOutside(a, b, l, s) && SameOutside(a, c, l, s)
    ensures SameOutside(b, c, l, s)
  {
  }

  /** Two images that agree outside the masked bytes, both with consistent sizes. */
  lemma SignedAlike(a: seq<Byte>, b: seq<Byte>, l: Layout)
    requires HEADER_BYTES <= |a| && LayoutOk(a, l) && SizesOk(a, l)
    requires HEADER_BYTES <= |b| && LayoutOk(b, l) && SizesOk(b, l)
    requires SignatureOffset(a, l) == SignatureOffset(b, l) && SameOutside(a, b, l, SignatureOffset(a, l))
    ensures var s := SignatureOffset(a, l);
      && s <= |b| && CanSign(a, l, b[l.linkedit + 32..l.linkedit + 40], b[s..])
      && b == Sign(a, l, b[l.linkedit + 32..l.linkedit + 40], b[s..])
  {
    hide U32, U64, Bytes32, Bytes64, Sign;
    var s := SignatureOffset(a, l);
    assert forall i :: l.linkedit + 40 <= i < l.linkedit + 48 ==> !Masked(l, i);
    AgreeU64(a, b, l.linkedit + 40);
    var v, signature := b[l.linkedit + 32..l.linkedit + 40], b[s..];
    FieldInRange(b, l);
    var r := Sign(a, l, v, signature);
    SignedFields(a, l, v, signature);
    Bytes64Inverse(b, l.linkedit + 48);
    Bytes32Inverse(b, l.signature + 12);
    OutsideTrans(a, b, r, l, s);
    EqualImages(b, r, l, s);
  }

  lemma LayoutInside(b: seq<Byte>, l: Layout)
    requires HEADER_BYTES <= |b| && LayoutOk(b, l)
    ensures l.linkedit + 72 <= |b| && l.signature + 16 <= |b|
  {
  }

  lemma OutsideVia(a: seq<Byte>, n: seq<Byte>, b: seq<Byte>, l: Layout, s: nat)
    requires SameOutside(a, n, l, s) && SameOutside(b, n, l, s)
    ensures SameOutside(a, b, l, s)
  {
  }

  /**
   Two accepted images have the same normal form exactly when one is the other signed
   again: the same load commands, and no difference but the three size fields and the
   signature.
   */
  lemma SameNormalForm(a: seq<Byte>, b: seq<Byte>)
    requires Normalize(a).Normalized? && Normalize(b) == Normalize(a)
    ensures |a| >= HEADER_BYTES && |b| >= HEADER_BYTES && FindLayout(a).Some? && FindLayout(b) == FindLayout(a)
    ensures var l := FindLayout(a).value;
      && LayoutOk(a, l) && LayoutOk(b, l) && SignatureOffset(b, l) == SignatureOffset(a, l) <= |b|
      && var v, signature := b[l.linkedit + 32..l.linkedit + 40], b[SignatureOffset(a, l)..];
         CanSign(a, l, v, signature) && b == Sign(a, l, v, signature)
  {
    hide FindLayout, Normalize, Sign, SizesOk, LayoutOk, CanSign, SameOutside, U32, U64, Mask;
    NormalizeDefined(a);
    NormalizeDefined(b);
    var l, n := FindLayout(a).value, Normalize(a).bytes;
    MaskedImage(a, l, n);
    MaskedImage(b, FindLayout(b).value, n);
    OutsideVia(a, n, b, l, |n|);
    SignedAlike(a, b, l);
    LayoutInside(b, l);
  }

  // ---------------------------------------------------------------- the two implementations

  lemma WalkContinues(b: seq<Byte>, offset: nat, remaining: nat, end: nat, found: Found)
    requires end <= |b| && remaining > 0
    ensures !CommandFits(b, offset, end) ==> Walk(b, offset, remaining, end, found) == None
    ensures CommandFits(b, offset, end) && Visit(b, offset, end, found).None? ==>
      Walk(b, offset, remaining, end, found) == None
    ensures CommandFits(b, offset, end) && Visit(b, offset, end, found).Some? ==>
      Walk(b, offset, remaining, end, found) ==
      Walk(b, offset + U32(b, offset + 4), remaining - 1, end, Visit(b, offset, end, found).value)
  {
    hide CommandFits, Visit;
  }

  lemma WalkEnds(b: seq<Byte>, offset: nat, end: nat, found: Found)
    requires end <= |b|
    ensures Walk(b, offset, 0, end, found) == if offset == end then Some(found) else None
  {
  }

  /** The load-command loop; `None` when it throws or a command is absent. */
  method ScanCommands(b: seq<Byte>) returns (layout: Option<Layout>)
    requires HEADER_BYTES <= |b|
    ensures layout == FindLayout(b)
  {
    hide Walk, NamedLinkedit;
    var commandCount := U32(b, 16);
    var commandBytes := U32(b, 20);
    if commandCount == 0 || commandCount > MAX_LOAD_COMMANDS {
      return None;
    }
    var commandEnd := HEADER_BYTES + commandBytes;
    if commandEnd > |b| {
      return None;
    }
    var offset: nat := HEADER_BYTES;
    var codeSignatureCommand: Option<nat> := None;
    var linkeditSegment: Option<nat> := None;
    var index := 0;
    while index < commandCount
      invariant index <= commandCount
      invariant Walk(b, HEADER_BYTES, commandCount, commandEnd, Found(None, None))
             == Walk(b, offset, commandCount - index, commandEnd, Found(codeSignatureCommand, linkeditSegment))
    {
      WalkContinues(b, offset, commandCount - index, commandEnd, Found(codeSignatureCommand, linkeditSegment));
      if offset + 8 > commandEnd {
        return None;
      }
      var command, size := U32(b, offset), U32(b, offset + 4);
      if size < 8 || size % 8 != 0 || offset + size > commandEnd {
        return None;
      }
      if command == LC_CODE_SIGNATURE {
        if codeSignatureCommand.Some? || size != 16 {
          return None;
        }
        codeSignatureCommand := Some(offset);
      } else if command == LC_SEGMENT_64 && size >= 72 && NamedLinkedit(b, offset + 8) {
        if linkeditSegment.Some? {
          return None;
        }
        linkeditSegment := Some(offset);
      }
      offset := offset + size;
      index := index + 1;
    }
    WalkEnds(b, offset, commandEnd, Found(codeSignatureCommand, linkeditSegment));
    if offset != commandEnd || codeSignatureCommand.None? || linkeditSegment.None? {
      return None;
    }
    return Some(Layout(codeSignatureCommand.value, linkeditSegment.value));
  }

  /** Copies the bytes before the signature and clears the three fields in place. */
  method Clear3(b: seq<Byte>, l: Layout, s: nat) returns (normalized: seq<Byte>)
    requires s <= |b| && l.linkedit + 56 <= s && l.signature + 16 <= s
    ensures normalized == Mask(b[..s], l)
  {
    hide Patch, Zeros, Masked;
    var copy := new Byte[s](i requires 0 <= i < s => b[i]);
    assert copy[..] == b[..s];
    FillZero(copy, l.linkedit + 32, l.linkedit + 40);
    FillZero(copy, l.linkedit + 48, l.linkedit + 56);
    FillZero(copy, l.signature + 12, l.signature + 16);
    return copy[..];
  }

  /** The artifact-hash copy. */
  method SigningIndependent(b: seq<Byte>) returns (outcome: Outcome)
    ensures outcome == Normalize(b)
  {
    hide FindLayout, SignatureIsFinal, LinkeditIsFinal, Mask;
    if |b| < 4 || U32(b, 0) != MAGIC {
      return NotThisFormat;
    }
    if |b| < HEADER_BYTES {
      return Refused;
    }
    var layout := ScanCommands(b);
    if layout.None? {
      return Refused;
    }
    LayoutFound(b);
    var l := layout.value;
    if !SignatureIsFinal(b, l) || !LinkeditIsFinal(b, l) {
      return Refused;
    }
    SignatureInFile(b, l);
    var normalized := Clear3(b, l, U32(b, l.signature + 8));
    return Normalized(normalized);
  }

  datatype Platform = DarwinArm64 | DarwinX64 | Unsupported

  function PageBytes(p: Platform): (page: nat)
    requires p != Unsupported
    ensures page > 0
  {
    if p == DarwinArm64 then 0x4000 else 0x1000
  }

  /** The smallest number of whole pages that holds this many bytes, in bytes. */
  function RoundUp(size: nat, page: nat): nat
    requires page > 0
  {
    (size + page - 1) / page * page
  }

  /** The virtual size of __LINKEDIT is its file size rounded up to whole pages. */
  ghost predicate VirtualSizeCanonical(b: seq<Byte>, p: Platform)
    requires Normalize(b).Normalized?
  {
    NormalizeDefined(b);
    var l := FindLayout(b).value;
    && p != Unsupported
    && U64(b, l.linkedit + 32) <= MAX_SAFE_INTEGER
    && U64(b, l.linkedit + 32) == RoundUp(U64(b, l.linkedit + 48), PageBytes(p))
  }

  /** The provenance copy of the load-command loop finds the same commands. */
  method ProvenanceCommands(b: seq<Byte>) returns (layout: Option<Layout>)
    requires HEADER_BYTES <= |b|
    ensures layout == FindLayout(b)
  {
    hide Walk, NamedLinkedit;
    var commandCount, commandEnd := U32(b, 16), HEADER_BYTES + U32(b, 20);
    if commandCount == 0 || commandCount > MAX_LOAD_COMMANDS || commandEnd > |b| {
      return None;
    }
    var offset: nat := HEADER_BYTES;
    var found := Found(None, None);
    for index := 0 to commandCount
      invariant Walk(b, HEADER_BYTES, commandCount, commandEnd, Found(None, None))
             == Walk(b, offset, commandCount - index, commandEnd, found)
    {
      WalkContinues(b, offset, commandCount - index, commandEnd, found);
      if offset + 8 > commandEnd {
        return None;
      }
      var command, size := U32(b, offset), U32(b, offset + 4);
      if size < 8 || size % 8 != 0 || offset + size > commandEnd {
        return None;
      }
      if command == LC_CODE_SIGNATURE {
        if found.signature.Some? || size != 16 {
          return None;
        }
        found := found.(signature := Some(offset));
      } else if command == LC_SEGMENT_64 && size >= 72 && NamedLinkedit(b, offset + 8) {
        if found.linkedit.Some? {
          return None;
        }
        found := found.(linkedit := Some(offset));
      }
      offset := offset + size;
    }
    WalkEnds(b, offset, commandEnd, found);
    if offset != commandEnd || found.signature.None? || found.linkedit.None? {
      return None;
    }
    return Some(Layout(found.signature.value, found.linkedit.value));
  }

  /**
   The provenance copy: whatever it accepts, the artifact-hash copy accepts with the
   same bytes, and it refuses just the images whose virtual size is not canonical.
   */
  method ProvenanceSigningIndependent(b: seq<Byte>, p: Platform) returns (outcome: Outcome)
    ensures outcome.Normalized? ==> outcome == Normalize(b)
    ensures outcome.Normalized? <==> Normalize(b).Normalized? && VirtualSizeCanonical(b, p)
    ensures outcome.NotThisFormat? <==> Normalize(b).NotThisFormat?
  {
    hide FindLayout, SignatureIsFinal, LinkeditIsFinal, Mask, RoundUp, PageBytes;
    if |b| < 4 || U32(b, 0) != MAGIC {
      return NotThisFormat;
    }
    if |b| < HEADER_BYTES {
      return Refused;
    }
    var layout := ProvenanceCommands(b);
    if layout.None? {
      return Refused;
    }
    LayoutFound(b);
    var l := layout.value;
    if !SignatureIsFinal(b, l) {
      return Refused;
    }
    var size, virtual := U64(b, l.linkedit + 48), U64(b, l.linkedit + 32);
    if p == Unsupported {
      return Refused;
    }
    var expected := RoundUp(size, PageBytes(p));
    if !LinkeditIsFinal(b, l) {
      return Refused;
    }
    if virtual > MAX_SAFE_INTEGER || expected > MAX_SAFE_INTEGER || virtual != expected {
      return Refused;
    }
    SignatureInFile(b, l);
    var normalized := Clear3(b, l, U32(b, l.signature + 8));
    return Normalized(normalized);
  }
}
