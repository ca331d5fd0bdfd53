/**
 Compact lengths (unsigned LEB128, section 7.6 of DWARF 5), length-prefixed fields and
 what is written with them (electron/connectTransactionReview.ts:113-249,
 electron/faucetApi.ts:354-380, electron/firstReleaseNativeInstruction.ts:115-214).
 */
module Archives {
  import opened Bytes
  import opened Images

  const MAX_LENGTH := 0x1_0000_0000
  const MAX_LENGTH_BYTES := 10

  /** The shortest encoding: seven bits a byte, least significant first. */
  function Leb(n: nat): (b: seq<Byte>)
    ensures |b| > 0
  {
    if n < 128 then [n] else [n % 128 + 128] + Leb(n / 128)
  }

  /** The number that starts here and how many bytes it takes, canonical or not. */
  function RawLength(b: seq<Byte>, limit: nat): (r: Option<(nat, nat)>)
    ensures r.Some? ==> 0 < r.value.1 <= |b|
  {
    if b == [] || limit == 0 then None
    else if b[0] < 128 then Some((b[0], 1))
    else
      match RawLength(b[1..], limit - 1)
      case None => None
      case Some((v, consumed)) => Some((b[0] - 128 + 128 * v, consumed + 1))
  }

  function ReadLength(b: seq<Byte>): (r: Option<(nat, nat)>)
    ensures r.Some? ==> r.value.0 <= MAX_LENGTH && 0 < r.value.1 <= |b|
  {
    match RawLength(b, MAX_LENGTH_BYTES)
    case None => None
    case Some((v, consumed)) => if consumed == |Leb(v)| && v <= MAX_LENGTH then Some((v, consumed)) else None
  }

  lemma {:induction false} RawLengthReads(n: nat, rest: seq<Byte>, limit: nat)
    requires |Leb(n)| <= limit
    ensures RawLength(Leb(n) + rest, limit) == Some((n, |Leb(n)|))
    decreases n
  {
    var b := Leb(n) + rest;
    if n < 128 {
    } else {
      RawLengthReads(n / 128, rest, limit - 1);
      assert b[1..] == Leb(n / 128) + rest;
    }
  }

  lemma {:induction false} RawLengthCanonical(b: seq<Byte>, limit: nat)
    ensures var r := RawLength(b, limit); r.Some? && r.value.1 == |Leb(r.value.0)| ==> b[..r.value.1] == Leb(r.value.0)
  {
    var r := RawLength(b, limit);
    if r.Some? && b[0] >= 128 {
      var (v, consumed) := RawLength(b[1..], limit - 1).value;
      RawLengthCanonical(b[1..], limit - 1);
      assert (b[0] - 128 + 128 * v) / 128 == v;
      assert b[..consumed + 1] == [b[0]] + b[1..][..consumed];
    }
  }

  function Power128(k: nat): nat {
    if k == 0 then 1 else 128 * Power128(k - 1)
  }

  lemma {:induction false} LebSize(n: nat, k: nat)
    requires k > 0 && n < Power128(k)
    ensures |Leb(n)| <= k
  {
    if n < 128 {
    } else {
      LebSize(n / 128, k - 1);
    }
  }

  /** The reader reads what the writers write, whatever follows, up to 2^32. */
  lemma LengthReads(n: nat, rest: seq<Byte>)
    requires n <= MAX_LENGTH
    ensures ReadLength(Leb(n) + rest) == Some((n, |Leb(n)|))
  {
    assert Power128(5) == 128 * (128 * (128 * (128 * (128 * Power128(0)))));
    LebSize(n, 5);
    RawLengthReads(n, rest, MAX_LENGTH_BYTES);
  }

  /** The reader accepts nothing but the shortest encoding of a length up to 2^32. */
  lemma LengthCanonical(b: seq<Byte>)
    requires ReadLength(b).Some?
    ensures var (n, consumed) := ReadLength(b).value; n <= MAX_LENGTH && b[..consumed] == Leb(n)
  {
    RawLengthCanonical(b, MAX_LENGTH_BYTES);
  }

  lemma LebUnfolds(n: nat, x: seq<Byte>)
    ensures n < 128 ==> Leb(n) + x == [n] + x
    ensures n >= 128 ==> Leb(n) + x == [n % 128 + 128] + (Leb(n / 128) + x)
  {
  }

  /** No length's encoding is the beginning of another's. */
  lemma {:induction false} LebPrefixFree(m: nat, n: nat, x: seq<Byte>, y: seq<Byte>)
    requires Leb(m) + x == Leb(n) + y
    ensures m == n && x == y
  {
    hide Leb;
    var a, b := Leb(m) + x, Leb(n) + y;
    LebUnfolds(m, x);
    LebUnfolds(n, y);
    assert a[0] == b[0];
    if m < 128 {
      assert x == a[1..] && y == b[1..];
    } else {
      assert a[1..] == Leb(m / 128) + x && b[1..] == Leb(n / 128) + y;
      LebPrefixFree(m / 128, n / 128, x, y);
      assert m == m / 128 * 128 + m % 128 && n == n / 128 * 128 + n % 128;
    }
  }

  // ---------------------------------------------------------------- the writers

  lemma LebNext(written: seq<Byte>, n: nat)
    ensures written + Leb(n) ==
      if n < 128 then written + [n] else (written + [n % 128 + 128]) + Leb(n / 128)
  {
    LebUnfolds(n, []);
    assert Leb(n) + [] == Leb(n) && Leb(n / 128) + [] == Leb(n / 128);
  }

  /** The faucet's writer. */
  method FaucetCompactLength(value: nat) returns (bytes: seq<Byte>)
    ensures bytes == Leb(value)
  {
    hide Leb;
    bytes := [];
    var remaining := value;
    while remaining >= 0x80
      invariant bytes + Leb(remaining) == Leb(value)
    {
      LebNext(bytes, remaining);
      bytes := bytes + [remaining % 0x80 + 0x80];
      remaining := remaining / 0x80;
    }
    LebNext(bytes, remaining);
    bytes := bytes + [remaining];
  }

  /** The instruction encoder's writer, a loop that runs at least once. */
  method NativeCompactLength(value: nat) returns (bytes: seq<Byte>)
    ensures bytes == Leb(value)
  {
    hide Leb;
    bytes := [];
    var remaining := value;
    var more := true;
    while more
      invariant if more then bytes + Leb(remaining) == Leb(value) else bytes == Leb(value)
      decreases more, remaining
    {
      var byte := remaining % 0x80;
      LebNext(bytes, remaining);
      remaining := remaining / 0x80;
      if remaining > 0 {
        byte := byte + 0x80;
      }
      bytes := bytes + [byte];
      more := remaining > 0;
    }
  }

  // ---------------------------------------------------------------- fields

  /** A length-prefixed field. */
  function Field(payload: seq<Byte>): (b: seq<Byte>)
    ensures |b| > |payload|
  {
    Leb(|payload|) + payload
  }

  function ReadField(b: seq<Byte>): (r: Option<(seq<Byte>, seq<Byte>)>)
    ensures r.Some? ==> |r.value.1| < |b|
  {
    match ReadLength(b)
    case None => None
    case Some((n, consumed)) =>
      if consumed + n <= |b| then Some((b[consumed..consumed + n], b[consumed + n..])) else None
  }

  lemma FieldReads(payload: seq<Byte>, rest: seq<Byte>)
    requires |payload| <= MAX_LENGTH
    ensures ReadField(Field(payload) + rest) == Some((payload, rest))
  {
    hide ReadLength;
    var b, c := Field(payload) + rest, |Leb(|payload|)|;
    assert b == Leb(|payload|) + (payload + rest);
    LengthReads(|payload|, payload + rest);
    assert b[c..c + |payload|] == payload && b[c + |payload|..] == rest;
  }

  lemma FieldCanonical(b: seq<Byte>)
    requires ReadField(b).Some?
    ensures var (payload, rest) := ReadField(b).value; b == Field(payload) + rest && |payload| <= MAX_LENGTH
  {
    hide ReadLength;
    LengthCanonical(b);
    var (n, consumed) := ReadLength(b).value;
    assert b == b[..consumed] + b[consumed..consumed + n] + b[consumed + n..];
  }

  /** Fields need no separator. */
  lemma FieldPrefixFree(p: seq<Byte>, q: seq<Byte>, x: seq<Byte>, y: seq<Byte>)
    requires Field(p) + x == Field(q) + y
    ensures p == q && x == y
  {
    assert Field(p) + x == Leb(|p|) + (p + x) && Field(q) + y == Leb(|q|) + (q + y);
    LebPrefixFree(|p|, |q|, p + x, q + y);
    assert p == (p + x)[..|p|] == (q + y)[..|p|] == q;
    assert x == (p + x)[|p|..] == (q + y)[|p|..] == y;
  }

  // ---------------------------------------------------------------- the reader

  /** The result of a read that has already taken `index` bytes worth `value`. */
  function Continue(value: nat, scale: nat, index: nat, rest: Option<(nat, nat)>): Option<(nat, nat)> {
    match rest
    case None => None
    case Some((v, consumed)) => Some((value + scale * v, index + consumed))
  }

  lemma RawLengthStops(b: seq<Byte>, limit: nat)
    ensures b == [] || limit == 0 ==> RawLength(b, limit) == None
  {
  }

  lemma ReadLengthIs(b: seq<Byte>)
    ensures RawLength(b, MAX_LENGTH_BYTES).None? ==> ReadLength(b) == None
    ensures RawLength(b, MAX_LENGTH_BYTES).Some? ==>
      var (v, consumed) := RawLength(b, MAX_LENGTH_BYTES).value;
      ReadLength(b) == if consumed == |Leb(v)| && v <= MAX_LENGTH then Some((v, consumed)) else None
  {
  }

  lemma ContinueNext(value: nat, scale: nat, index: nat, rest: seq<Byte>, limit: nat)
    requires rest != [] && limit > 0
    ensures rest[0] < 128 ==>
      Continue(value, scale, index, RawLength(rest, limit)) == Some((value + scale * (rest[0] % 128), index + 1))
    ensures rest[0] >= 128 ==>
      Continue(value, scale, index, RawLength(rest, limit)) ==
      Continue(value + scale * (rest[0] % 128), scale * 128, index + 1, RawLength(rest[1..], limit - 1))
  {
    if rest[0] >= 128 && RawLength(rest[1..], limit - 1).Some? {
      var v := RawLength(rest[1..], limit - 1).value.0;
      assert scale * (rest[0] - 128 + 128 * v) == scale * (rest[0] - 128) + (scale * 128) * v;
    }
  }

  class ArchiveReader {
    const bytes: seq<Byte>
    var offset: nat

    constructor (bytes: seq<Byte>)
      ensures this.bytes == bytes && offset == 0
    {
      this.bytes, offset := bytes, 0;
    }

    ghost predicate Valid()
      reads this
    {
      offset <= |bytes|
    }

    /** What has not been read yet. */
    function Rest(): seq<Byte>
      requires Valid()
      reads this
    {
      bytes[offset..]
    }

    method Take(length: nat) returns (value: Option<seq<Byte>>)
      requires Valid()
      modifies this
      ensures Valid()
      ensures value.Some? <==> length <= MAX_SAFE_INTEGER && length <= |old(Rest())|
      ensures value.Some? ==> value.value == old(Rest())[..length] && Rest() == old(Rest())[length..]
      ensures offset == if value.Some? then old(offset) + length else old(offset)
    {
      if length > MAX_SAFE_INTEGER || offset + length > |bytes| {
        return None;
      }
      value := Some(bytes[offset..offset + length]);
      offset := offset + length;
    }

    method U32() returns (value: Option<int>)
      requires Valid()
      modifies this
      ensures Valid()
      ensures value.Some? <==> |old(Rest())| >= 4
      ensures value.Some? ==> value.value == Images.U32(old(Rest()), 0) && Rest() == old(Rest())[4..]
    {
      var taken := Take(4);
      if taken.None? {
        return None;
      }
      AgreeU32(taken.value, old(Rest()), 0);
      return Some(Images.U32(taken.value, 0));
    }

    method U64() returns (value: Option<int>)
      requires Valid()
      modifies this
      ensures Valid()
      ensures value.Some? <==> |old(Rest())| >= 8
      ensures value.Some? ==> value.value == Images.U64(old(Rest()), 0) && Rest() == old(Rest())[8..]
    {
      var taken := Take(8);
      if taken.None? {
        return None;
      }
      AgreeU64(taken.value, old(Rest()), 0);
      return Some(Images.U64(taken.value, 0));
    }

    /** `canonicalLength` of a length prefix: one more for each shift by seven bits that leaves something. */
    static method CanonicalLength(value: nat) returns (length: nat)
      ensures length == |Leb(value)|
    {
      length := 1;
      var rest := value / 128;
      while rest > 0
        invariant length + (if rest > 0 then |Leb(rest)| else 0) == |Leb(value)|
      {
        length := length + 1;
        rest := rest / 128;
      }
    }

    method CompactLength() returns (length: Option<nat>)
      requires Valid()
      modifies this
      ensures Valid()
      ensures length.Some? <==> ReadLength(old(Rest())).Some?
      ensures length.Some? ==> var (n, consumed) := ReadLength(old(Rest())).value;
        length.value == n && Rest() == old(Rest())[consumed..]
    {
      hide RawLength, ReadLength, Leb;
      ghost var start := Rest();
      var begin := offset;
      ReadLengthIs(start);
      var value, scale := 0, 1;
      var index := 0;
      assert start[0..] == start;
      while index < MAX_LENGTH_BYTES
        invariant Valid() && index <= MAX_LENGTH_BYTES && value >= 0 && scale > 0
        invariant offset == begin + index && index <= |start| && Rest() == start[index..]
        invariant RawLength(start, MAX_LENGTH_BYTES)
          == Continue(value, scale, index, RawLength(start[index..], MAX_LENGTH_BYTES - index))
      {
        ghost var rest := start[index..];
        RawLengthStops(rest, MAX_LENGTH_BYTES - index);
        var taken := Take(1);
        if taken.None? {
          return None;
        }
        var byte := taken.value[0];
        assert byte == rest[0] && rest[1..] == start[index + 1..];
        ContinueNext(value, scale, index, rest, MAX_LENGTH_BYTES - index);
        value := value + scale * (byte % 128);
        index := index + 1;
        if byte < 128 {
          var canonical := CanonicalLength(value);
          if index != canonical || value > MAX_LENGTH {
            return None;
          }
          return Some(value);
        }
        scale := scale * 128;
      }
      RawLengthStops(start[index..], 0);
      return None;
    }

    method Field() returns (payload: Option<seq<Byte>>)
      requires Valid()
      modifies this
      ensures Valid()
      ensures payload.Some? <==> ReadField(old(Rest())).Some?
      ensures payload.Some? ==> ReadField(old(Rest())) == Some((payload.value, Rest()))
    {
      hide ReadLength;
      ghost var start := Rest();
      var length := CompactLength();
      if length.None? {
        return None;
      }
      ghost var consumed := ReadLength(start).value.1;
      payload := Take(length.value);
      assert payload.Some? ==> start[consumed..][..length.value] == start[consumed..consumed + length.value];
      assert payload.Some? ==> start[consumed..][length.value..] == start[consumed + length.value..];
    }

    method AtEnd() returns (end: bool)
      requires Valid()
      ensures end <==> Rest() == []
    {
      return offset == |bytes|;
    }
  }

  // ---------------------------------------------------------------- executables

  const EXECUTABLE_INSTRUCTIONS := 0
  const EXECUTABLE_BATCH := 4
  const MAX_INSTRUCTIONS := 64

  datatype Kind = Instructions | Batch

  datatype Entry = Instruction(archive: seq<Byte>) | ContractCall(archive: seq<Byte>)

  datatype Executable = Executable(kind: Kind, entries: seq<Entry>)

  function Item(kind: Kind, e: Entry): seq<Byte> {
    if kind == Instructions then e.archive
    else Bytes32(if e.Instruction? then 0 else 1) + Field(e.archive)
  }

  function Items(kind: Kind, entries: seq<Entry>): seq<Byte> {
    if entries == [] then [] else Field(Item(kind, entries[0])) + Items(kind, entries[1..])
  }

  function List(x: Executable): seq<Byte>
    requires |x.entries| <= MAX_INSTRUCTIONS
  {
    Bytes64(|x.entries|) + Items(x.kind, x.entries)
  }

  /** The archive of an executable. */
  function Encode(x: Executable): seq<Byte>
    requires |x.entries| <= MAX_INSTRUCTIONS
  {
    Bytes32(if x.kind == Instructions then EXECUTABLE_INSTRUCTIONS else EXECUTABLE_BATCH) + Field(List(x))
  }

  ghost predicate EntryOk(kind: Kind, e: Entry) {
    && |e.archive| <= MAX_LENGTH && |Item(kind, e)| <= MAX_LENGTH
    && (kind == Instructions ==> e.Instruction?)
  }

  ghost predicate Encodable(x: Executable) {
    && 1 <= |x.entries| <= MAX_INSTRUCTIONS
    && (forall i :: 0 <= i < |x.entries| ==> EntryOk(x.kind, x.entries[i]))
    && |List(x)| <= MAX_LENGTH
  }

  function ReadEntry(kind: Kind, item: seq<Byte>): Option<Entry> {
    if kind == Instructions then Some(Instruction(item))
    else if |item| < 4 then None
    else
      match ReadField(item[4..])
      case None => None
      case Some((archive, rest)) =>
        if rest != [] then None
        else if U32(item, 0) == 0 then Some(Instruction(archive))
        else if U32(item, 0) == 1 then Some(ContractCall(archive))
        else None
  }

  function ReadItems(kind: Kind, b: seq<Byte>, count: nat): Option<(seq<Entry>, seq<Byte>)>
    decreases count
  {
    if count == 0 then Some(([], b))
    else
      match ReadField(b)
      case None => None
      case Some((item, rest)) =>
        var e := ReadEntry(kind, item);
        if e.None? then None
        else
          match ReadItems(kind, rest, count - 1)
          case None => None
          case Some((more, end)) => Some(([e.value] + more, end))
  }

  function ReadKind(variant: int): Option<Kind> {
    if variant == EXECUTABLE_INSTRUCTIONS then Some(Instructions)
    else if variant == EXECUTABLE_BATCH then Some(Batch)
    else None
  }

  function ReadList(kind: Kind, list: seq<Byte>): Option<Executable> {
    if |list| < 8 || U64(list, 0) == 0 || U64(list, 0) > MAX_INSTRUCTIONS then None
    else
      match ReadItems(kind, list[8..], U64(list, 0))
      case None => None
      case Some((entries, end)) => if end == [] then Some(Executable(kind, entries)) else None
  }

  function ReadExecutable(b: seq<Byte>): Option<Executable> {
    if |b| < 4 || ReadKind(U32(b, 0)).None? then None
    else
      match ReadField(b[4..])
      case None => None
      case Some((list, rest)) => if rest != [] then None else ReadList(ReadKind(U32(b, 0)).value, list)
  }

  // ---------------------------------------------------------------- reading undoes writing

  lemma Tagged(tag: int, rest: seq<Byte>)
    requires 0 <= tag < 0x1_0000_0000
    ensures |Bytes32(tag) + rest| >= 4 && U32(Bytes32(tag) + rest, 0) == tag && (Bytes32(tag) + rest)[4..] == rest
  {
    var b := Bytes32(tag) + rest;
    assert b[0..4] == Bytes32(tag);
    FieldReads32(b, 0, tag);
  }

  lemma Untagged(b: seq<Byte>)
    requires |b| >= 4
    ensures b == Bytes32(U32(b, 0)) + b[4..]
  {
    Bytes32Inverse(b, 0);
    assert b == b[0..4] + b[4..];
  }

  lemma EntryReads(kind: Kind, e: Entry)
    requires EntryOk(kind, e)
    ensures ReadEntry(kind, Item(kind, e)) == Some(e)
  {
    hide U32, Bytes32, ReadField, Field;
    if kind == Batch {
      Tagged(if e.Instruction? then 0 else 1, Field(e.archive));
      FieldReads(e.archive, []);
      assert Field(e.archive) + [] == Field(e.archive);
    }
  }

  lemma EntryCanonical(kind: Kind, item: seq<Byte>)
    requires ReadEntry(kind, item).Some? && |item| <= MAX_LENGTH
    ensures var e := ReadEntry(kind, item).value; Item(kind, e) == item && EntryOk(kind, e)
  {
    hide U32, Bytes32, ReadField;
    if kind == Batch {
      Untagged(item);
      FieldCanonical(item[4..]);
      var archive := ReadField(item[4..]).value.0;
      assert Field(archive) + [] == Field(archive);
    }
  }

  lemma EntryFits(kind: Kind, e: Entry)
    requires EntryOk(kind, e)
    ensures |Item(kind, e)| <= MAX_LENGTH
  {
  }

  lemma {:induction false} ItemsRead(kind: Kind, entries: seq<Entry>)
    requires forall i :: 0 <= i < |entries| ==> EntryOk(kind, entries[i])
    ensures ReadItems(kind, Items(kind, entries), |entries|) == Some((entries, []))
  {
    hide ReadField, ReadEntry, Item, Field;
    if entries == [] {
    } else {
      assert EntryOk(kind, entries[0]);
      EntryFits(kind, entries[0]);
      FieldReads(Item(kind, entries[0]), Items(kind, entries[1..]));
      EntryReads(kind, entries[0]);
      ItemsRead(kind, entries[1..]);
      assert entries == [entries[0]] + entries[1..];
    }
  }

  lemma {:induction false} ItemsCanonical(kind: Kind, b: seq<Byte>, count: nat)
    requires ReadItems(kind, b, count).Some?
    ensures var (entries, rest) := ReadItems(kind, b, count).value;
      && |entries| == count && b == Items(kind, entries) + rest
      && forall i :: 0 <= i < |entries| ==> EntryOk(kind, entries[i])
    decreases count
  {
    hide ReadField, ReadEntry, Item, Field, EntryOk;
    var (entries, end) := ReadItems(kind, b, count).value;
    if count > 0 {
      FieldCanonical(b);
      var (item, rest) := ReadField(b).value;
      EntryCanonical(kind, item);
      ItemsCanonical(kind, rest, count - 1);
      assert entries[1..] == ReadItems(kind, rest, count - 1).value.0;
      assert Field(item) + (Items(kind, entries[1..]) + end) == (Field(item) + Items(kind, entries[1..])) + end;
    } else {
      assert Items(kind, []) + b == b;
    }
  }

  lemma Counted(count: int, rest: seq<Byte>)
    requires 0 <= count <= MAX_SAFE_INTEGER
    ensures |Bytes64(count) + rest| >= 8 && U64(Bytes64(count) + rest, 0) == count
    ensures (Bytes64(count) + rest)[8..] == rest
  {
    var b := Bytes64(count) + rest;
    assert b[0..8] == Bytes64(count);
    FieldReads64(b, 0, count);
  }

  lemma Uncounted(b: seq<Byte>)
    requires |b| >= 8 && U64(b, 0) <= MAX_SAFE_INTEGER
    ensures b == Bytes64(U64(b, 0)) + b[8..]
  {
    Bytes64Inverse(b, 0);
    assert b == b[0..8] + b[8..];
  }

  lemma ListReads(x: Executable)
    requires Encodable(x)
    ensures ReadList(x.kind, List(x)) == Some(x)
  {
    hide U64, Bytes64, Items, ReadItems, EntryOk;
    Counted(|x.entries|, Items(x.kind, x.entries));
    ItemsRead(x.kind, x.entries);
  }

  lemma ListCanonical(kind: Kind, list: seq<Byte>)
    requires ReadList(kind, list).Some? && |list| <= MAX_LENGTH
    ensures var x := ReadList(kind, list).value; x.kind == kind && Encodable(x) && list == List(x)
  {
    hide U64, Bytes64, Items, ReadItems, EntryOk;
    Uncounted(list);
    ItemsCanonical(kind, list[8..], U64(list, 0));
    var x := ReadList(kind, list).value;
    assert Items(kind, x.entries) + [] == Items(kind, x.entries);
  }

  lemma ListBounded(x: Executable)
    requires Encodable(x)
    ensures |List(x)| <= MAX_LENGTH
  {
  }

  lemma ReadEncoded(x: Executable)
    requires Encodable(x)
    ensures ReadExecutable(Encode(x)) == Some(x)
  {
    hide U32, Bytes32, ReadField, Field, List, ReadList;
    ListBounded(x);
    Tagged(if x.kind == Instructions then EXECUTABLE_INSTRUCTIONS else EXECUTABLE_BATCH, Field(List(x)));
    FieldReads(List(x), []);
    assert Field(List(x)) + [] == Field(List(x));
    ListReads(x);
  }

  lemma CountOk(x: Executable)
    requires Encodable(x)
    ensures |x.entries| <= MAX_INSTRUCTIONS
  {
  }

  lemma EncodeRead(b: seq<Byte>)
    requires ReadExecutable(b).Some?
    ensures var x := ReadExecutable(b).value; Encodable(x) && Encode(x) == b
  {
    hide U32, Bytes32, ReadField, Field, List, ReadList, Encodable;
    Untagged(b);
    FieldCanonical(b[4..]);
    var list := ReadField(b[4..]).value.0;
    assert Field(list) + [] == Field(list);
    ListCanonical(ReadKind(U32(b, 0)).value, list);
    CountOk(ReadExecutable(b).value);
  }

  /** The accepted bytes are exactly the encodings, so distinct bytes yield distinct executables. */
  lemma ReadInjective(a: seq<Byte>, b: seq<Byte>)
    requires ReadExecutable(a).Some? && ReadExecutable(a) == ReadExecutable(b)
    ensures a == b
  {
    hide ReadExecutable, Encode;
    EncodeRead(a);
    EncodeRead(b);
  }

  /** One element of the list of a batch or an instruction list. */
  method ReadOneEntry(kind: Kind, item: seq<Byte>) returns (e: Option<Entry>)
    ensures e == ReadEntry(kind, item)
  {
    hide ReadField, Images.U32;
    if kind == Instructions {
      return Some(Instruction(item));
    }
    var entry := new ArchiveReader(item);
    assert entry.Rest() == item;
    var tag := entry.U32();
    if tag.None? {
      return None;
    }
    var value := entry.Field();
    if value.None? {
      return None;
    }
    var end := entry.AtEnd();
    if !end || (tag.value != 0 && tag.value != 1) {
      return None;
    }
    return Some(if tag.value == 0 then Instruction(value.value) else ContractCall(value.value));
  }

  /** The result of a list of which some entries have been read. */
  function Prepend(entries: seq<Entry>, more: Option<(seq<Entry>, seq<Byte>)>): Option<(seq<Entry>, seq<Byte>)> {
    match more
    case None => None
    case Some((rest, end)) => Some((entries + rest, end))
  }

  lemma PrependNext(entries: seq<Entry>, kind: Kind, b: seq<Byte>, count: nat)
    requires count > 0
    ensures ReadField(b).None? ==> Prepend(entries, ReadItems(kind, b, count)).None?
    ensures ReadField(b).Some? ==>
      var (item, rest) := ReadField(b).value; var e := ReadEntry(kind, item);
      Prepend(entries, ReadItems(kind, b, count)) ==
      if e.None? then None else Prepend(entries + [e.value], ReadItems(kind, rest, count - 1))
  {
    hide ReadField, ReadEntry;
    if ReadItems(kind, b, count).Some? {
      var (item, rest) := ReadField(b).value;
      var more := ReadItems(kind, rest, count - 1).value.0;
      assert entries + ([ReadEntry(kind, item).value] + more) == (entries + [ReadEntry(kind, item).value]) + more;
    }
  }

  lemma EmptyPrepend(r: Option<(seq<Entry>, seq<Byte>)>)
    ensures Prepend([], r) == r
  {
    if r.Some? {
      assert [] + r.value.0 == r.value.0;
    }
  }

  lemma NoItems(kind: Kind, b: seq<Byte>)
    ensures ReadItems(kind, b, 0) == Some(([], b))
  {
  }

  /** The entries of a list and what follows them. */
  method ReadListEntries(kind: Kind, list: ArchiveReader, count: nat) returns (entries: Option<seq<Entry>>)
    requires list.Valid()
    modifies list
    ensures list.Valid()
    ensures entries.Some? <==> ReadItems(kind, old(list.Rest()), count).Some?
    ensures entries.Some? ==> ReadItems(kind, old(list.Rest()), count) == Some((entries.value, list.Rest()))
  {
    hide ReadField, ReadEntry, ReadItems;
    var read := [];
    var index := 0;
    ghost var start := list.Rest();
    EmptyPrepend(ReadItems(kind, start, count));
    while index < count
      invariant index <= count && list.Valid()
      invariant Prepend(read, ReadItems(kind, list.Rest(), count - index)) == ReadItems(kind, start, count)
    {
      PrependNext(read, kind, list.Rest(), count - index);
      var item := list.Field();
      if item.None? {
        return None;
      }
      var e := ReadOneEntry(kind, item.value);
      if e.None? {
        return None;
      }
      read := read + [e.value];
      index := index + 1;
    }
    NoItems(kind, list.Rest());
    assert read + [] == read;
    return Some(read);
  }

  method ReadEntryList(kind: Kind, bytes: seq<Byte>) returns (x: Option<Executable>)
    ensures x == ReadList(kind, bytes)
  {
    hide ReadItems, Images.U64;
    var list := new ArchiveReader(bytes);
    assert list.Rest() == bytes;
    var count := list.U64();
    if count.None? || count.value == 0 || count.value > MAX_INSTRUCTIONS {
      return None;
    }
    var entries := ReadListEntries(kind, list, count.value);
    if entries.None? {
      return None;
    }
    var end := list.AtEnd();
    return if end then Some(Executable(kind, entries.value)) else None;
  }

  method ReadExecutableEntries(executable: seq<Byte>) returns (x: Option<Executable>)
    ensures x == ReadExecutable(executable)
  {
    hide ReadField, ReadEntry, ReadItems, Images.U32, Images.U64;
    var reader := new ArchiveReader(executable);
    assert reader.Rest() == executable;
    var variant := reader.U32();
    if variant.None? || (variant.value != EXECUTABLE_INSTRUCTIONS && variant.value != EXECUTABLE_BATCH) {
      return None;
    }
    var kind := if variant.value == EXECUTABLE_INSTRUCTIONS then Instructions else Batch;
    var field := reader.Field();
    if field.None? {
      return None;
    }
    var end := reader.AtEnd();
    if !end {
      return None;
    }
    x := ReadEntryList(kind, field.value);
  }

  // ---------------------------------------------------------------- instruction drafts

  const MAX_WIRE_ID_BYTES := 256
  const MAX_INSTRUCTION_BYTES := 16 * 1024 * 1024
  const HEADER_BYTES := 40
  const COMPACT_LENGTH_FLAG := 2
  const NORITO_MAGIC: seq<Byte> := [78, 82, 84, 48]

  /** `instructionBoxPairBody`: the wire id, as a field within a field, and the frame as a byte vector. */
  function PairBody(wireId: seq<Byte>, frame: seq<Byte>): seq<Byte>
    requires |frame| <= MAX_SAFE_INTEGER
  {
    Field(Field(wireId)) + Field(Bytes64(|frame|) + frame)
  }

  method InstructionBoxPairBody(wireId: seq<Byte>, frame: seq<Byte>) returns (body: seq<Byte>)
    requires |frame| <= MAX_SAFE_INTEGER
    ensures body == PairBody(wireId, frame)
  {
    hide Bytes64, Leb;
    var nameLength := NativeCompactLength(|wireId|);
    var nameField := nameLength + wireId;
    var frameField := Bytes64(|frame|) + frame;
    var outer := NativeCompactLength(|nameField|);
    var inner := NativeCompactLength(|frameField|);
    body := outer + nameField + inner + frameField;
    assert body == (outer + nameField) + (inner + frameField);
  }

  /** Printable text of 1 to 256 characters. */
  predicate IsDisplayable(text: seq<Byte>) {
    1 <= |text| <= 256 && forall i :: 0 <= i < |text| ==> 0x20 <= text[i] <= 0x7e
  }

  /** The wire id a review shows; `None` is shown as "unknown". */
  function WireId(archive: seq<Byte>): Option<seq<Byte>> {
    match ReadField(archive)
    case None => None
    case Some((outer, _)) =>
      match ReadField(outer)
      case None => None
      case Some((text, rest)) => if rest == [] && IsDisplayable(text) then Some(text) else None
  }

  method ReadInstructionWireId(archive: seq<Byte>) returns (wireId: Option<seq<Byte>>)
    ensures wireId == WireId(archive)
  {
    hide ReadField;
    var outer := new ArchiveReader(archive);
    assert outer.Rest() == archive;
    var field := outer.Field();
    if field.None? {
      return None;
    }
    var wire := new ArchiveReader(field.value);
    assert wire.Rest() == field.value;
    var text := wire.Field();
    if text.None? {
      return None;
    }
    var end := wire.AtEnd();
    return if end && IsDisplayable(text.value) then Some(text.value) else None;
  }

  /** A wire id a draft may carry. */
  predicate IsDraftWireId(wireId: seq<Byte>) {
    1 <= |wireId| <= MAX_WIRE_ID_BYTES && forall i :: 0 <= i < |wireId| ==> 0x21 <= wireId[i] <= 0x7e
  }

  /** The review shows exactly the wire id that was written. */
  lemma PairBodyWireId(wireId: seq<Byte>, frame: seq<Byte>)
    requires |frame| <= MAX_SAFE_INTEGER && IsDisplayable(wireId)
    ensures WireId(PairBody(wireId, frame)) == Some(wireId)
  {
    hide ReadField, Bytes64;
    LebSize(|wireId|, 2);
    FieldReads(Field(wireId), Field(Bytes64(|frame|) + frame));
    FieldReads(wireId, []);
    assert Field(wireId) + [] == Field(wireId);
  }

  lemma PairBodyInjective(w: seq<Byte>, f: seq<Byte>, v: seq<Byte>, g: seq<Byte>)
    requires |f| <= MAX_SAFE_INTEGER && |g| <= MAX_SAFE_INTEGER && PairBody(w, f) == PairBody(v, g)
    ensures w == v && f == g
  {
    hide Bytes64, Field;
    var p, q := Bytes64(|f|) + f, Bytes64(|g|) + g;
    FieldPrefixFree(Field(w), Field(v), Field(p), Field(q));
    assert Field(p) + [] == Field(q) + [] && Field(w) + [] == Field(v) + [];
    FieldPrefixFree(p, q, [], []);
    FieldPrefixFree(w, v, [], []);
    assert f == p[8..] && g == q[8..];
  }

  /** What `decodeReviewedFirstReleaseInstructionDraft` requires of a draft and the reviewed encoding. */
  predicate DraftMatches(wireId: seq<Byte>, frame: seq<Byte>, encoded: seq<Byte>) {
    && IsDraftWireId(wireId) && 0 < |frame| <= MAX_INSTRUCTION_BYTES && |encoded| <= MAX_INSTRUCTION_BYTES
    && |encoded| > HEADER_BYTES && encoded[..4] == NORITO_MAGIC && encoded[HEADER_BYTES - 1] == COMPACT_LENGTH_FLAG
    && encoded[HEADER_BYTES..] == PairBody(wireId, frame)
  }

  lemma PairBodyNonEmpty(wireId: seq<Byte>, frame: seq<Byte>)
    requires |frame| <= MAX_SAFE_INTEGER
    ensures |PairBody(wireId, frame)| > 0
  {
  }

  method CheckDraft(wireId: seq<Byte>, frame: seq<Byte>, encoded: seq<Byte>) returns (accepted: bool)
    ensures accepted == DraftMatches(wireId, frame, encoded)
  {
    hide PairBody, IsDraftWireId;
    if !IsDraftWireId(wireId) || |frame| == 0 || |frame| > MAX_INSTRUCTION_BYTES || |encoded| > MAX_INSTRUCTION_BYTES {
      return false;
    }
    var body := InstructionBoxPairBody(wireId, frame);
    PairBodyNonEmpty(wireId, frame);
    if |encoded| != HEADER_BYTES + |body| {
      return false;
    }
    return encoded[..4] == NORITO_MAGIC && encoded[HEADER_BYTES - 1] == COMPACT_LENGTH_FLAG
      && encoded[HEADER_BYTES..] == body;
  }

  /**
   One reviewed encoding admits at most one draft, and the wire id a review would show
   for it is the draft's.
   */
  lemma OneDraft(w: seq<Byte>, f: seq<Byte>, v: seq<Byte>, g: seq<Byte>, encoded: seq<Byte>)
    requires DraftMatches(w, f, encoded)
    ensures DraftMatches(v, g, encoded) ==> w == v && f == g
    ensures WireId(encoded[HEADER_BYTES..]) == Some(w)
  {
    hide PairBody, WireId;
    PairBodyWireId(w, f);
    if DraftMatches(v, g, encoded) {
      PairBodyInjective(w, f, v, g);
    }
  }

  // ---------------------------------------------------------------- the faucet's fields

  function Flatten(parts: seq<seq<Byte>>): seq<Byte> {
    if parts == [] then [] else Flatten(parts[..|parts| - 1]) + parts[|parts| - 1]
  }

  lemma FlattenNone(parts: seq<seq<Byte>>)
    ensures Flatten(parts[..0]) == []
  {
  }

  lemma FlattenNext(parts: seq<seq<Byte>>, i: nat)
    requires i < |parts|
    ensures Flatten(parts[..i + 1]) == Flatten(parts[..i]) + parts[i]
  {
    assert parts[..i + 1][..i] == parts[..i];
  }

  lemma {:induction false} FlattenPrefix(parts: seq<seq<Byte>>, i: nat)
    requires i <= |parts|
    ensures Flatten(parts[..i]) <= Flatten(parts)
    decreases |parts|
  {
    if i < |parts| {
      FlattenPrefix(parts[..|parts| - 1], i);
      assert parts[..|parts| - 1][..i] == parts[..i];
    } else {
      assert parts[..i] == parts;
    }
  }

  method Concat(parts: seq<seq<Byte>>) returns (out: seq<Byte>)
    ensures out == Flatten(parts)
  {
    hide Flatten;
    FlattenNone(parts);
    var total := 0;
    for i := 0 to |parts|
      invariant total == |Flatten(parts[..i])|
    {
      FlattenNext(parts, i);
      total := total + |parts[i]|;
    }
    assert parts[..|parts|] == parts;
    var buffer := new Byte[total](i => 0);
    var offset := 0;
    for i := 0 to |parts|
      invariant offset == |Flatten(parts[..i])| <= total == |Flatten(parts)|
      invariant buffer[..offset] == Flatten(parts[..i])
    {
      FlattenNext(parts, i);
      FlattenPrefix(parts, i + 1);
      var start := offset;
      forall k | 0 <= k < |parts[i]| {
        buffer[start + k] := parts[i][k];
      }
      offset := offset + |parts[i]|;
      assert buffer[..offset] == buffer[..start] + parts[i];
    }
    return buffer[..];
  }

  lemma FlattenOne(part: seq<Byte>)
    ensures Flatten([part]) == part
  {
    var none := [part][..|[part]| - 1];
    assert |none| == 0 && Flatten(none) == [];
  }

  method CompactField(payload: seq<Byte>) returns (bytes: seq<Byte>)
    ensures bytes == Field(payload)
  {
    hide Leb;
    var length := FaucetCompactLength(|payload|);
    var parts := [length, payload];
    bytes := Concat(parts);
    assert parts[..|parts| - 1] == [length];
    FlattenOne(length);
  }
}
