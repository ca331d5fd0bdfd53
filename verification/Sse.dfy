/**
 The splitter of server-sent events (electron/firstReleaseSse.ts:92-182). The text is what
 the streaming UTF-8 decoder has produced so far, in UTF-16 code units.
 */
module Sse {
  import opened Bytes
  import opened JsonText

  const LINE_MAX_BYTES := 64 * 1024
  const FIELD_MAX_BYTES := 1024

  const LF := 10
  const CR := 13
  const SPACE := 32
  const COLON := 58
  const DATA: Text := [100, 97, 116, 97]
  const EVENT: Text := [101, 118, 101, 110, 116]
  const ID: Text := [105, 100]
  const RETRY: Text := [114, 101, 116, 114, 121]

  // ---------------------------------------------------------------- one line

  function IndexOf(text: Text, unit: CodeUnit): (i: nat)
    ensures i <= |text| && (i < |text| ==> text[i] == unit)
    ensures forall k :: 0 <= k < i ==> text[k] != unit
  {
    if text == [] || text[0] == unit then 0 else 1 + IndexOf(text[1..], unit)
  }

  function JoinLines(lines: seq<Text>): Text {
    if lines == [] then []
    else if |lines| == 1 then lines[0]
    else JoinLines(lines[..|lines| - 1]) + [LF] + lines[|lines| - 1]
  }

  function FieldOf(line: Text): Text { line[..IndexOf(line, COLON)] }

  function ValueOf(line: Text): Text {
    var separator := IndexOf(line, COLON);
    var value := if separator == |line| then [] else line[separator + 1..];
    if value != [] && value[0] == SPACE then value[1..] else value
  }

  /** The data lines of the event so far, and what was yielded. */
  datatype State = State(dataLines: seq<Text>, yielded: seq<Text>)

  /** The limit of one event, and whether its text parses. */
  datatype Options = Options(maximumEventBytes: nat, parses: Text -> bool)

  /** `appendLine` and the `yield` that follows it; `None` where they throw. */
  function Append(o: Options, s: State, line: Text): Option<State> {
    if Utf8Length(line) > LINE_MAX_BYTES then None
    else if line == [] then
      if s.dataLines == [] then Some(s)
      else
        var data := JoinLines(s.dataLines);
        if Utf8Length(data) > o.maximumEventBytes || !o.parses(data) then None
        else Some(State([], s.yielded + [data]))
    else if line[0] == COLON then Some(s)
    else if FieldOf(line) == DATA then
      var dataLines := s.dataLines + [ValueOf(line)];
      if Utf8Length(JoinLines(dataLines)) > o.maximumEventBytes then None else Some(s.(dataLines := dataLines))
    else if FieldOf(line) == EVENT || FieldOf(line) == ID || FieldOf(line) == RETRY then
      if Utf8Length(ValueOf(line)) > FIELD_MAX_BYTES then None else Some(s)
    else None
  }

  function AppendAll(o: Options, s: State, lines: seq<Text>): Option<State>
    decreases |lines|
  {
    if lines == [] then Some(s)
    else
      match Append(o, s, lines[0])
      case None => None
      case Some(t) => AppendAll(o, t, lines[1..])
  }

  /** What has been handed out by the time a line is refused, or after the last line. */
  function Handed(o: Options, s: State, lines: seq<Text>): seq<Text>
    decreases |lines|
  {
    if lines == [] then s.yielded
    else
      match Append(o, s, lines[0])
      case None => s.yielded
      case Some(t) => Handed(o, t, lines[1..])
  }

  // ---------------------------------------------------------------- the whole text

  function StripCr(line: Text): Text {
    if line != [] && line[|line| - 1] == CR then line[..|line| - 1] else line
  }

  /** The complete lines of a text, and what follows the last line feed. */
  function Split(text: Text): (seq<Text>, Text)
    decreases |text|
  {
    var i := IndexOf(text, LF);
    if i == |text| then ([], text)
    else
      var (lines, rest) := Split(text[i + 1..]);
      ([StripCr(text[..i])] + lines, rest)
  }

  /** The unterminated last line, if any, and the empty line that dispatches the last event. */
  function Finish(o: Options, s: State, rest: Text): Option<State> {
    var last := if rest == [] then Some(s) else Append(o, s, StripCr(rest));
    if last.None? then None else Append(o, last.value, [])
  }

  const START := State([], [])

  /** What a whole text yields; `None` if it is refused. */
  function Payloads(o: Options, text: Text): Option<seq<Text>> {
    var (lines, rest) := Split(text);
    match AppendAll(o, START, lines)
    case None => None
    case Some(s) =>
      match Finish(o, s, rest)
      case None => None
      case Some(t) => Some(t.yielded)
  }

  // ---------------------------------------------------------------- what a text says

  predicate IsComment(line: Text) { line != [] && line[0] == COLON }

  predicate IsData(line: Text) { line != [] && !IsComment(line) && FieldOf(line) == DATA }

  /** A line of bounded length that is blank, a comment, data, or a bounded field that is ignored. */
  predicate LineOk(line: Text) {
    && Utf8Length(line) <= LINE_MAX_BYTES
    && (|| line == [] || IsComment(line) || IsData(line)
        || ((FieldOf(line) == EVENT || FieldOf(line) == ID || FieldOf(line) == RETRY)
            && Utf8Length(ValueOf(line)) <= FIELD_MAX_BYTES))
  }

  /** Every line of a text, with the unterminated one and the blank line that ends the last event. */
  function Lines(text: Text): seq<Text> {
    var (lines, rest) := Split(text);
    lines + (if rest == [] then [] else [StripCr(rest)]) + [[]]
  }

  /** The values of the data lines. */
  function DataOf(lines: seq<Text>): seq<Text> {
    if lines == [] then []
    else (if IsData(lines[0]) then [ValueOf(lines[0])] else []) + DataOf(lines[1..])
  }

  function FirstBlank(lines: seq<Text>): (i: nat)
    ensures i <= |lines| && (i < |lines| ==> lines[i] == []) && forall k :: 0 <= k < i ==> lines[k] != []
  {
    if lines == [] || lines[0] == [] then 0 else 1 + FirstBlank(lines[1..])
  }

  /** The joined data of each group of lines that a blank line ends, where there is any. */
  function Events(lines: seq<Text>): seq<Text>
    decreases |lines|
  {
    var i := FirstBlank(lines);
    if i == |lines| then []
    else
      var data := DataOf(lines[..i]);
      (if data == [] then [] else [JoinLines(data)]) + Events(lines[i + 1..])
  }

  predicate EventOk(o: Options, event: Text) {
    Utf8Length(event) <= o.maximumEventBytes && o.parses(event)
  }

  ghost predicate Readable(o: Options, lines: seq<Text>) {
    && (forall i :: 0 <= i < |lines| ==> LineOk(lines[i]))
    && forall k :: 0 <= k < |Events(lines)| ==> EventOk(o, Events(lines)[k])
  }

  lemma {:induction false} Utf8Prefix(s: Text, n: nat)
    requires n <= |s|
    ensures Utf8Length(s[..n]) <= Utf8Length(s)
    decreases |s|
  {
    if n == 0 {
    } else if n == 1 && StartsWithPair(s) {
      assert s[..1][1..] == [];
      assert Utf8Length(s[..1]) == 3 + Utf8Length([]);
    } else {
      var k := if StartsWithPair(s) then 2 else 1;
      assert s[..n][k..] == s[k..][..n - k];
      assert StartsWithPair(s[..n]) <==> StartsWithPair(s) && n >= 2;
      Utf8Prefix(s[k..], n - k);
    }
  }

  /** More data lines never make an event shorter. */
  lemma {:induction false} JoinGrows(a: seq<Text>, b: seq<Text>)
    requires a != []
    ensures JoinLines(a) <= JoinLines(a + b)
    decreases |b|
  {
    if b == [] {
      assert a + b == a;
    } else {
      var n := |b| - 1;
      JoinGrows(a, b[..n]);
      assert (a + b)[..|a + b| - 1] == a + b[..n];
    }
  }

  lemma DataGrows(data: seq<Text>, more: seq<Text>)
    requires data != []
    ensures Utf8Length(JoinLines(data)) <= Utf8Length(JoinLines(data + more))
  {
    hide JoinLines, Utf8Length;
    JoinGrows(data, more);
    assert JoinLines(data + more)[..|JoinLines(data)|] == JoinLines(data);
    Utf8Prefix(JoinLines(data + more), |JoinLines(data)|);
  }

  ghost predicate BlockOk(o: Options, data: seq<Text>, block: seq<Text>) {
    && (forall i :: 0 <= i < |block| ==> LineOk(block[i]))
    && (DataOf(block) != [] ==> Utf8Length(JoinLines(data + DataOf(block))) <= o.maximumEventBytes)
  }

  lemma BlockNext(o: Options, data: seq<Text>, block: seq<Text>)
    requires block != []
    ensures var more := if IsData(block[0]) then [ValueOf(block[0])] else [];
      && DataOf(block) == more + DataOf(block[1..]) && data + DataOf(block) == (data + more) + DataOf(block[1..])
      && (BlockOk(o, data, block) <==>
            LineOk(block[0]) && BlockOk(o, data + more, block[1..])
            && (more != [] ==> Utf8Length(JoinLines(data + more)) <= o.maximumEventBytes))
  {
    hide IsData, ValueOf, JoinLines, LineOk, Utf8Length;
    var more := if IsData(block[0]) then [ValueOf(block[0])] else [];
    assert data + (more + DataOf(block[1..])) == (data + more) + DataOf(block[1..]);
    if more != [] {
      DataGrows(data + more, DataOf(block[1..]));
      assert (data + more) + [] == data + more;
    }
    assert (forall i :: 0 <= i < |block| ==> LineOk(block[i])) <==>
      LineOk(block[0]) && forall i :: 0 <= i < |block[1..]| ==> LineOk(block[1..][i]) by {
      assert forall i :: 0 < i < |block| ==> block[i] == block[1..][i - 1];
    }
  }

  lemma AppendOne(o: Options, s: State, line: Text)
    requires line != []
    ensures var more := if IsData(line) then [ValueOf(line)] else [];
      Append(o, s, line) ==
      if LineOk(line) && (more != [] ==> Utf8Length(JoinLines(s.dataLines + more)) <= o.maximumEventBytes)
      then Some(s.(dataLines := s.dataLines + more)) else None
  {
    hide JoinLines, Utf8Length, FieldOf, ValueOf;
    assert s.dataLines + [] == s.dataLines;
  }

  lemma EmptyBlock(o: Options, data: seq<Text>)
    ensures BlockOk(o, data, [])
  {
  }

  /** The lines between two blank lines collect their data, unless one of them or their data is refused. */
  lemma {:induction false} AppendBlock(o: Options, s: State, block: seq<Text>)
    requires forall i :: 0 <= i < |block| ==> block[i] != []
    ensures AppendAll(o, s, block) ==
      if BlockOk(o, s.dataLines, block) then Some(s.(dataLines := s.dataLines + DataOf(block))) else None
    decreases |block|
  {
    hide Append, BlockOk, IsData, ValueOf, LineOk, JoinLines, Utf8Length;
    if block == [] {
      assert s.dataLines + DataOf(block) == s.dataLines;
      EmptyBlock(o, s.dataLines);
    } else {
      AppendOne(o, s, block[0]);
      BlockNext(o, s.dataLines, block);
      var t := Append(o, s, block[0]);
      if t.Some? {
        AppendBlock(o, t.value, block[1..]);
      }
    }
  }

  lemma BlankOk()
    ensures Utf8Length([]) == 0
  {
  }

  lemma AppendSingles(o: Options, s: State, line: Text)
    ensures AppendAll(o, s, [line]) == Append(o, s, line) && AppendAll(o, s, []) == Some(s)
  {
    hide Append;
    assert [line][1..] == [];
  }

  lemma {:induction false} AppendAllConcat(o: Options, s: State, a: seq<Text>, b: seq<Text>)
    ensures AppendAll(o, s, a + b) ==
      if AppendAll(o, s, a).None? then None else AppendAll(o, AppendAll(o, s, a).value, b)
    decreases |a|
  {
    hide Append;
    if a == [] {
      assert a + b == b;
    } else {
      assert (a + b)[1..] == a[1..] + b;
      var t := Append(o, s, a[0]);
      if t.Some? {
        AppendAllConcat(o, t.value, a[1..], b);
      }
    }
  }

  /** Reading one group and the blank line behind it. */
  lemma AppendGroup(o: Options, yielded: seq<Text>, block: seq<Text>)
    requires forall i :: 0 <= i < |block| ==> block[i] != []
    ensures var data := DataOf(block); var event := if data == [] then [] else [JoinLines(data)];
      AppendAll(o, State([], yielded), block + [[]]) ==
      if (forall i :: 0 <= i < |block| ==> LineOk(block[i])) && (data != [] ==> EventOk(o, JoinLines(data)))
      then Some(State([], yielded + event)) else None
  {
    hide JoinLines, LineOk, DataOf, Utf8Length;
    AppendBlock(o, State([], yielded), block);
    AppendAllConcat(o, State([], yielded), block, [[]]);
    assert [] + DataOf(block) == DataOf(block);
    BlankOk();
    assert yielded + [] == yielded;
    var s := AppendAll(o, State([], yielded), block);
    if s.Some? {
      AppendSingles(o, s.value, []);
    }
  }

  lemma AllInParts(o: Options, a: seq<Text>, b: seq<Text>)
    ensures (forall k :: 0 <= k < |a + b| ==> EventOk(o, (a + b)[k])) <==>
      (forall k :: 0 <= k < |a| ==> EventOk(o, a[k])) && (forall k :: 0 <= k < |b| ==> EventOk(o, b[k]))
  {
    hide EventOk;
    assert forall k :: 0 <= k < |a| ==> (a + b)[k] == a[k];
    assert forall k :: 0 <= k < |b| ==> (a + b)[|a| + k] == b[k];
  }

  lemma LinesInParts(block: seq<Text>, rest: seq<Text>)
    ensures var lines := block + [[]] + rest;
      (forall i :: 0 <= i < |lines| ==> LineOk(lines[i])) <==>
      (forall i :: 0 <= i < |block| ==> LineOk(block[i])) && (forall i :: 0 <= i < |rest| ==> LineOk(rest[i]))
  {
    BlankOk();
    hide Utf8Length, FieldOf;
    var lines := block + [[]] + rest;
    assert forall i :: 0 <= i < |block| ==> lines[i] == block[i];
    assert lines[|block|] == [];
    assert forall i :: 0 <= i < |rest| ==> lines[|block| + 1 + i] == rest[i];
  }

  /** The first group gives the first event, if it has data. */
  lemma EventsGroup(block: seq<Text>, rest: seq<Text>)
    requires forall i :: 0 <= i < |block| ==> block[i] != []
    ensures var data := DataOf(block);
      Events(block + [[]] + rest) == (if data == [] then [] else [JoinLines(data)]) + Events(rest)
  {
    hide DataOf, JoinLines;
    var lines := block + [[]] + rest;
    assert lines[|block|] == [] && FirstBlank(lines) == |block|;
    assert lines[..|block|] == block && lines[|block| + 1..] == rest;
  }

  lemma ReadableGroup(o: Options, block: seq<Text>, rest: seq<Text>)
    requires forall i :: 0 <= i < |block| ==> block[i] != []
    ensures var lines := block + [[]] + rest; var data := DataOf(block);
      && Events(lines) == (if data == [] then [] else [JoinLines(data)]) + Events(rest)
      && (Readable(o, lines) <==>
            (forall i :: 0 <= i < |block| ==> LineOk(block[i])) && (data != [] ==> EventOk(o, JoinLines(data)))
            && Readable(o, rest))
  {
    hide DataOf, JoinLines, EventOk, LineOk, Events;
    EventsGroup(block, rest);
    var first := if DataOf(block) == [] then [] else [JoinLines(DataOf(block))];
    AllInParts(o, first, Events(rest));
    LinesInParts(block, rest);
    assert (forall k :: 0 <= k < |first| ==> EventOk(o, first[k])) <==>
      (DataOf(block) != [] ==> EventOk(o, JoinLines(DataOf(block)))) by {
      assert DataOf(block) != [] ==> first[0] == JoinLines(DataOf(block));
    }
  }

  lemma NothingToRead(o: Options)
    ensures Readable(o, []) && Events([]) == []
  {
  }

  lemma {:induction false} AppendAllReads(o: Options, yielded: seq<Text>, lines: seq<Text>)
    requires lines != [] ==> lines[|lines| - 1] == []
    ensures AppendAll(o, State([], yielded), lines) ==
      if Readable(o, lines) then Some(State([], yielded + Events(lines))) else None
    decreases |lines|
  {
    hide Readable, Events, LineOk, DataOf, JoinLines, EventOk, Append, FirstBlank;
    if lines == [] {
      NothingToRead(o);
      assert yielded + [] == yielded;
    } else {
      var i := FirstBlank(lines);
      assert i < |lines|;
      var block, rest := lines[..i], lines[i + 1..];
      assert lines == block + [[]] + rest;
      AppendGroup(o, yielded, block);
      AppendAllConcat(o, State([], yielded), block + [[]], rest);
      ReadableGroup(o, block, rest);
      var event := if DataOf(block) == [] then [] else [JoinLines(DataOf(block))];
      AppendAllReads(o, yielded + event, rest);
      assert (yielded + event) + Events(rest) == yielded + (event + Events(rest));
    }
  }

  lemma PayloadsAppendLines(o: Options, text: Text)
    ensures Payloads(o, text) ==
      match AppendAll(o, START, Lines(text))
      case None => None
      case Some(s) => Some(s.yielded)
  {
    hide Append;
    var (lines, rest) := Split(text);
    var last: seq<Text> := if rest == [] then [] else [StripCr(rest)];
    AppendAllConcat(o, START, lines + last, [[]]);
    AppendAllConcat(o, START, lines, last);
    if AppendAll(o, START, lines).Some? {
      AppendSingles(o, AppendAll(o, START, lines).value, StripCr(rest));
    }
    if AppendAll(o, START, lines + last).Some? {
      AppendSingles(o, AppendAll(o, START, lines + last).value, []);
    }
  }

  /**
   A text is accepted exactly when each of its lines and each of its events is in order,
   and it yields the joined data of every group of lines between blank lines.
   */
  lemma PayloadsAreEvents(o: Options, text: Text)
    ensures Payloads(o, text) == if Readable(o, Lines(text)) then Some(Events(Lines(text))) else None
  {
    hide Readable, Events, Split, Payloads;
    PayloadsAppendLines(o, text);
    AppendAllReads(o, [], Lines(text));
    assert [] + Events(Lines(text)) == Events(Lines(text));
  }

  lemma {:induction false} HandedConcat(o: Options, s: State, a: seq<Text>, b: seq<Text>)
    ensures Handed(o, s, a + b) ==
      match AppendAll(o, s, a)
      case None => Handed(o, s, a)
      case Some(t) => Handed(o, t, b)
    decreases |a|
  {
    hide Append;
    if a == [] {
      assert a + b == b;
    } else {
      assert (a + b)[1..] == a[1..] + b;
      var t := Append(o, s, a[0]);
      if t.Some? {
        HandedConcat(o, t.value, a[1..], b);
      }
    }
  }

  lemma HandedAll(o: Options, s: State, lines: seq<Text>)
    ensures AppendAll(o, s, lines).Some? ==> Handed(o, s, lines) == AppendAll(o, s, lines).value.yielded
  {
    HandedConcat(o, s, lines, []);
    assert lines + [] == lines;
  }

  /** Only blank lines hand out anything. */
  lemma {:induction false} HandedNothing(o: Options, s: State, block: seq<Text>)
    requires forall i :: 0 <= i < |block| ==> block[i] != []
    ensures Handed(o, s, block) == s.yielded
    decreases |block|
  {
    hide Append, IsData, ValueOf, LineOk, JoinLines, Utf8Length;
    if block == [] {
    } else {
      AppendOne(o, s, block[0]);
      var t := Append(o, s, block[0]);
      if t.Some? {
        HandedNothing(o, t.value, block[1..]);
      }
    }
  }

  /** A group that is refused hands out nothing. */
  lemma HandedGroup(o: Options, yielded: seq<Text>, block: seq<Text>)
    requires forall i :: 0 <= i < |block| ==> block[i] != []
    ensures AppendAll(o, State([], yielded), block + [[]]).None? ==>
      Handed(o, State([], yielded), block + [[]]) == yielded
  {
    hide Append, LineOk, DataOf, BlockOk;
    var s := State([], yielded);
    HandedConcat(o, s, block, [[]]);
    HandedNothing(o, s, block);
    AppendAllConcat(o, s, block, [[]]);
    AppendBlock(o, s, block);
    if AppendAll(o, s, block).Some? {
      AppendSingles(o, AppendAll(o, s, block).value, []);
    }
  }

  /** What was handed out before a refusal are the first events of the lines. */
  lemma {:induction false} HandedAreEvents(o: Options, yielded: seq<Text>, lines: seq<Text>)
    ensures Handed(o, State([], yielded), lines) <= yielded + Events(lines)
    decreases |lines|
  {
    hide Handed, AppendAll, DataOf, JoinLines, LineOk, EventOk, Events;
    var i := FirstBlank(lines);
    if i == |lines| {
      HandedNothing(o, State([], yielded), lines);
    } else {
      var block, rest := lines[..i], lines[i + 1..];
      assert lines == (block + [[]]) + rest;
      HandedConcat(o, State([], yielded), block + [[]], rest);
      AppendGroup(o, yielded, block);
      HandedGroup(o, yielded, block);
      EventsGroup(block, rest);
      var event := if DataOf(block) == [] then [] else [JoinLines(DataOf(block))];
      HandedAreEvents(o, yielded + event, rest);
      assert (yielded + event) + Events(rest) == yielded + Events(lines);
    }
  }

  lemma EventsNone(lines: seq<Text>)
    ensures FirstBlank(lines) == |lines| ==> Events(lines) == []
  {
  }

  /** More lines add events at the end. */
  lemma {:induction false} EventsGrow(lines: seq<Text>, more: seq<Text>)
    ensures Events(lines) <= Events(lines + more)
    decreases |lines|
  {
    hide DataOf, JoinLines, Events;
    var i := FirstBlank(lines);
    if i == |lines| {
      EventsNone(lines);
    } else {
      var block, rest := lines[..i], lines[i + 1..];
      assert lines == block + [[]] + rest;
      assert lines + more == block + [[]] + (rest + more);
      EventsGroup(block, rest);
      EventsGroup(block, rest + more);
      EventsGrow(rest, more);
    }
  }

  // ---------------------------------------------------------------- chunks

  lemma IndexOfAppend(a: Text, b: Text, unit: CodeUnit)
    ensures IndexOf(a, unit) < |a| ==> IndexOf(a + b, unit) == IndexOf(a, unit)
  {
    var i := IndexOf(a, unit);
    if i < |a| {
      assert (a + b)[i] == unit && forall k :: 0 <= k < i ==> (a + b)[k] == a[k];
    }
  }

  lemma SplitFirst(text: Text)
    ensures var i := IndexOf(text, LF);
      if i == |text| then Split(text) == ([], text)
      else Split(text) == ([StripCr(text[..i])] + Split(text[i + 1..]).0, Split(text[i + 1..]).1)
  {
    hide IndexOf, StripCr;
  }

  /** Splitting can be interrupted anywhere. */
  lemma {:induction false} SplitAppend(a: Text, b: Text)
    ensures var (lines, rest) := Split(a); var (more, end) := Split(rest + b);
      Split(a + b) == (lines + more, end)
    decreases |a|
  {
    hide Split, StripCr, IndexOf;
    var i := IndexOf(a, LF);
    SplitFirst(a);
    if i < |a| {
      IndexOfAppend(a, b, LF);
      SplitFirst(a + b);
      SplitAppend(a[i + 1..], b);
      assert (a + b)[i + 1..] == a[i + 1..] + b && (a + b)[..i] == a[..i];
      var (lines, rest) := Split(a[i + 1..]);
      var (more, end) := Split(rest + b);
      assert [StripCr(a[..i])] + (lines + more) == ([StripCr(a[..i])] + lines) + more;
    } else {
      assert [] + Split(a + b).0 == Split(a + b).0;
    }
  }

  function Concat(chunks: seq<Text>): Text {
    if chunks == [] then [] else Concat(chunks[..|chunks| - 1]) + chunks[|chunks| - 1]
  }

  /** The text that is buffered when the n-th chunk arrives: the unterminated line and the chunk. */
  function Buffered(chunks: seq<Text>, n: nat): Text
    requires n < |chunks|
  {
    Split(Concat(chunks[..n])).1 + chunks[n]
  }

  predicate ChunkFits(o: Options, chunks: seq<Text>, n: nat)
    requires n < |chunks|
  {
    Utf8Length(Buffered(chunks, n)) <= o.maximumEventBytes + LINE_MAX_BYTES
  }

  /** No chunk overflows the buffer. */
  ghost predicate Fits(o: Options, chunks: seq<Text>) {
    forall n :: 0 <= n < |chunks| ==> ChunkFits(o, chunks, n)
  }

  /** The number of chunks before the first one that overflows the buffer. */
  function Fitting(o: Options, chunks: seq<Text>, n: nat): (m: nat)
    requires n <= |chunks|
    ensures n <= m <= |chunks| && (forall k :: n <= k < m ==> ChunkFits(o, chunks, k))
    ensures m < |chunks| ==> !ChunkFits(o, chunks, m)
    decreases |chunks| - n
  {
    if n == |chunks| || !ChunkFits(o, chunks, n) then n else Fitting(o, chunks, n + 1)
  }

  /** The lines that reach the reader: all of them, or the complete ones before the overflow. */
  function Received(o: Options, chunks: seq<Text>): seq<Text> {
    var n := Fitting(o, chunks, 0);
    if n == |chunks| then Lines(Concat(chunks)) else Split(Concat(chunks[..n])).0
  }

  /** The lines of the chunks so far have been appended. */
  ghost predicate Consumed(o: Options, chunks: seq<Text>, s: State, pending: Text) {
    && pending == Split(Concat(chunks)).1
    && AppendAll(o, START, Split(Concat(chunks)).0) == Some(s)
  }

  /** The lines of one chunk are appended one after the other. */
  method AppendLines(o: Options, s: State, buffered: Text) returns (after: State, refused: bool, pending: Text)
    ensures (if refused then None else Some(after)) == AppendAll(o, s, Split(buffered).0)
    ensures after.yielded == Handed(o, s, Split(buffered).0)
    ensures pending == Split(buffered).1 || refused
  {
    hide Append;
    after := s;
    pending := buffered;
    var newline := IndexOf(pending, LF);
    while newline < |pending|
      invariant newline == IndexOf(pending, LF)
      invariant AppendAll(o, after, Split(pending).0) == AppendAll(o, s, Split(buffered).0)
      invariant Handed(o, after, Split(pending).0) == Handed(o, s, Split(buffered).0)
      invariant Split(pending).1 == Split(buffered).1
      decreases |pending|
    {
      var rawLine := pending[..newline];
      ghost var before := pending;
      pending := pending[newline + 1..];
      assert Split(before).0 == [StripCr(rawLine)] + Split(pending).0;
      assert Split(before).0[1..] == Split(pending).0;
      var line := if rawLine != [] && rawLine[|rawLine| - 1] == CR then rawLine[..|rawLine| - 1] else rawLine;
      var next := Append(o, after, line);
      if next.None? {
        return after, true, pending;
      }
      after := next.value;
      newline := IndexOf(pending, LF);
    }
    return after, false, pending;
  }

  lemma ChunkConsumed(o: Options, chunks: seq<Text>, n: nat, s: State, pending: Text)
    requires n < |chunks| && Consumed(o, chunks[..n], s, pending)
    ensures Buffered(chunks, n) == pending + chunks[n]
    ensures var (lines, rest) := Split(pending + chunks[n]);
      && AppendAll(o, START, Split(Concat(chunks[..n + 1])).0) == AppendAll(o, s, lines)
      && Split(Concat(chunks[..n + 1])).1 == rest
  {
    hide Split, AppendAll;
    assert chunks[..n + 1][..n] == chunks[..n];
    assert Concat(chunks[..n + 1]) == Concat(chunks[..n]) + chunks[n];
    SplitAppend(Concat(chunks[..n]), chunks[n]);
    AppendAllConcat(o, START, Split(Concat(chunks[..n])).0, Split(pending + chunks[n]).0);
  }

  lemma {:induction false} ConcatPrefix(chunks: seq<Text>, n: nat)
    requires n <= |chunks|
    ensures Concat(chunks[..n]) <= Concat(chunks)
    decreases |chunks|
  {
    if n < |chunks| {
      ConcatPrefix(chunks[..|chunks| - 1], n);
      assert chunks[..|chunks| - 1][..n] == chunks[..n];
    } else {
      assert chunks[..n] == chunks;
    }
  }

  /** A line that is refused is refused in every longer text. */
  lemma RefusedEarly(o: Options, chunks: seq<Text>, n: nat)
    requires n <= |chunks| && AppendAll(o, START, Split(Concat(chunks[..n])).0).None?
    ensures Payloads(o, Concat(chunks)).None?
  {
    hide Split, AppendAll;
    ConcatPrefix(chunks, n);
    var first, all := Concat(chunks[..n]), Concat(chunks);
    var more := all[|first|..];
    assert all == first + more;
    SplitAppend(first, more);
    AppendAllConcat(o, START, Split(first).0, Split(Split(first).1 + more).0);
  }

  lemma NothingConsumed(o: Options, chunks: seq<Text>)
    ensures Consumed(o, chunks[..0], START, [])
  {
    assert Concat(chunks[..0]) == [];
  }

  lemma PayloadsAre(o: Options, chunks: seq<Text>, s: State, pending: Text)
    requires Consumed(o, chunks, s, pending)
    ensures Payloads(o, Concat(chunks)) ==
      if Finish(o, s, pending).None? then None else Some(Finish(o, s, pending).value.yielded)
  {
    hide Finish, Split, AppendAll;
  }

  /** The complete lines of the first chunks are the first lines of the whole text. */
  lemma {:induction false} LinesPrefix(chunks: seq<Text>, n: nat)
    requires n <= |chunks|
    ensures Split(Concat(chunks[..n])).0 <= Split(Concat(chunks)).0 <= Lines(Concat(chunks))
  {
    hide Split, Concat;
    ConcatPrefix(chunks, n);
    var first, all := Concat(chunks[..n]), Concat(chunks);
    assert all == first + all[|first|..];
    SplitAppend(first, all[|first|..]);
  }

  /** What was handed out for the complete lines of a text are the first events of every text that goes on from it. */
  lemma HandedContinues(o: Options, text: Text, more: Text)
    ensures Handed(o, START, Split(text).0) <= Events(Lines(text + more))
  {
    hide Handed, Events, Split;
    SplitAppend(text, more);
    var first, all := Split(text).0, Lines(text + more);
    assert first <= Split(text + more).0 <= all;
    assert all == first + all[|first|..];
    HandedAreEvents(o, [], first);
    EventsGrow(first, all[|first|..]);
    assert [] + Events(first) == Events(first);
  }

  lemma ReceivedEvents(o: Options, chunks: seq<Text>)
    ensures Handed(o, START, Received(o, chunks)) <= Events(Lines(Concat(chunks)))
  {
    hide Handed, Events, Lines, Split, Concat, ChunkFits;
    var n, text := Fitting(o, chunks, 0), Concat(chunks);
    if n == |chunks| {
      HandedAreEvents(o, [], Lines(text));
      assert [] + Events(Lines(text)) == Events(Lines(text));
    } else {
      ConcatPrefix(chunks, n);
      var first := Concat(chunks[..n]);
      assert text == first + text[|first|..];
      HandedContinues(o, first, text[|first|..]);
    }
  }

  lemma HandedOverflow(o: Options, chunks: seq<Text>, n: nat, s: State, pending: Text)
    requires n < |chunks| && Consumed(o, chunks[..n], s, pending)
    requires (forall k :: 0 <= k < n ==> ChunkFits(o, chunks, k)) && !ChunkFits(o, chunks, n)
    ensures Handed(o, START, Received(o, chunks)) == s.yielded
  {
    hide Handed, AppendAll, Split, Concat, ChunkFits;
    assert Fitting(o, chunks, 0) == n;
    HandedAll(o, START, Split(Concat(chunks[..n])).0);
  }

  lemma ConcatSnoc(chunks: seq<Text>, chunk: Text)
    ensures Concat(chunks + [chunk]) == Concat(chunks) + chunk
  {
    assert (chunks + [chunk])[..|chunks|] == chunks;
  }

  /** A line refused in a chunk that fits is the last one whose group counts. */
  lemma HandedRefused(o: Options, chunks: seq<Text>, n: nat, s: State, pending: Text)
    requires n < |chunks| && Consumed(o, chunks[..n], s, pending)
    requires forall k :: 0 <= k <= n ==> ChunkFits(o, chunks, k)
    requires AppendAll(o, s, Split(pending + chunks[n]).0).None?
    ensures Handed(o, START, Received(o, chunks)) == Handed(o, s, Split(pending + chunks[n]).0)
  {
    hide Handed, AppendAll, Split, Concat, ChunkFits, Lines;
    var m := Fitting(o, chunks, 0);
    assert m > n;
    ChunkConsumed(o, chunks, n, s, pending);
    ConcatSnoc(chunks[..n], chunks[n]);
    assert chunks[..n + 1] == chunks[..n] + [chunks[n]];
    var lines, more := Split(Concat(chunks[..n + 1])).0, Split(pending + chunks[n]).0;
    SplitAppend(Concat(chunks[..n]), chunks[n]);
    HandedConcat(o, START, Split(Concat(chunks[..n])).0, more);
    LinesPrefix(chunks[..m], n + 1);
    assert chunks[..m][..n + 1] == chunks[..n + 1];
    LinesPrefix(chunks, m);
    var received := Received(o, chunks);
    assert chunks[..|chunks|] == chunks;
    assert lines <= received;
    assert received == lines + received[|lines|..];
    HandedConcat(o, START, lines, received[|lines|..]);
  }

  lemma HandedSingle(o: Options, s: State, line: Text)
    ensures Handed(o, s, []) == s.yielded
    ensures Handed(o, s, [line]) == if Append(o, s, line).None? then s.yielded else Append(o, s, line).value.yielded
  {
    hide Append;
    assert [line][1..] == [];
  }

  lemma HandedAtEnd(o: Options, chunks: seq<Text>, s: State, pending: Text)
    requires Consumed(o, chunks, s, pending) && Fits(o, chunks)
    ensures Handed(o, START, Received(o, chunks)) ==
      if pending != [] && Append(o, s, StripCr(pending)).None? then s.yielded
      else
        var last := if pending == [] then s else Append(o, s, StripCr(pending)).value;
        if Append(o, last, []).None? then last.yielded else Append(o, last, []).value.yielded
  {
    hide Append, AppendAll, Handed, Split, Concat, ChunkFits;
    assert Fitting(o, chunks, 0) == |chunks|;
    var lines: seq<Text> := Split(Concat(chunks)).0;
    var last: seq<Text> := if pending == [] then [] else [StripCr(pending)];
    assert Received(o, chunks) == lines + (last + [[]]);
    HandedConcat(o, START, lines, last + [[]]);
    HandedConcat(o, s, last, [[]]);
    HandedSingle(o, s, StripCr(pending));
    AppendSingles(o, s, StripCr(pending));
    if pending == [] || Append(o, s, StripCr(pending)).Some? {
      HandedSingle(o, if pending == [] then s else Append(o, s, StripCr(pending)).value, []);
    }
  }

  /**
   The stream yields exactly what its whole text yields, however it is cut into chunks;
   it is refused when the text is, or when some chunk overflows the buffer. What it hands
   out before that are the events of the lines received, which are the first events of
   the whole text.
   */
  method StreamSse(o: Options, chunks: seq<Text>) returns (yielded: seq<Text>, refused: bool)
    ensures (if refused then None else Some(yielded)) == if Fits(o, chunks) then Payloads(o, Concat(chunks)) else None
    ensures yielded == Handed(o, START, Received(o, chunks))
    ensures yielded <= Events(Lines(Concat(chunks)))
  {
    hide Split, AppendAll, Append, Buffered, Payloads, Concat, Received, Handed, Events, Lines, Fitting;
    ReceivedEvents(o, chunks);
    var pendingText: Text := [];
    var state := START;
    var n := 0;
    NothingConsumed(o, chunks);
    while n < |chunks|
      invariant n <= |chunks| && Consumed(o, chunks[..n], state, pendingText)
      invariant forall k :: 0 <= k < n ==> ChunkFits(o, chunks, k)
    {
      ChunkConsumed(o, chunks, n, state, pendingText);
      var buffered := pendingText + chunks[n];
      if Utf8Length(buffered) > o.maximumEventBytes + LINE_MAX_BYTES {
        HandedOverflow(o, chunks, n, state, pendingText);
        return state.yielded, true;
      }
      var after, stopped, pending := AppendLines(o, state, buffered);
      if stopped {
        RefusedEarly(o, chunks, n + 1);
        HandedRefused(o, chunks, n, state, pendingText);
        return after.yielded, true;
      }
      state, pendingText := after, pending;
      n := n + 1;
    }
    assert chunks[..n] == chunks;
    PayloadsAre(o, chunks, state, pendingText);
    HandedAtEnd(o, chunks, state, pendingText);
    if pendingText != [] {
      var last := Append(o, state,
        if pendingText[|pendingText| - 1] == CR then pendingText[..|pendingText| - 1] else pendingText);
      if last.None? {
        return state.yielded, true;
      }
      state := last.value;
    }
    var final := Append(o, state, []);
    return if final.None? then state.yielded else final.value.yielded, final.None?;
  }

  // ---------------------------------------------------------------- finer chunks

  lemma Utf8Tail(s: Text)
    requires s != []
    ensures Utf8Length(s[1..]) <= Utf8Length(s)
  {
    if StartsWithPair(s) {
      assert s[1..][1..] == s[2..];
    }
  }

  lemma {:induction false} Utf8Suffix(s: Text, n: nat)
    requires n <= |s|
    ensures Utf8Length(s[n..]) <= Utf8Length(s)
    decreases n
  {
    if n == 0 {
      assert s[0..] == s;
    } else {
      Utf8Suffix(s, n - 1);
      Utf8Tail(s[n - 1..]);
      assert s[n - 1..][1..] == s[n..];
    }
  }

  lemma {:induction false} SplitRest(text: Text)
    ensures |Split(text).1| <= |text| && Split(text).1 == text[|text| - |Split(text).1|..]
    decreases |text|
  {
    hide IndexOf, StripCr;
    var i := IndexOf(text, LF);
    if i == |text| {
    } else {
      SplitRest(text[i + 1..]);
    }
  }

  lemma {:induction false} ConcatCut(before: seq<Text>, first: Text, second: Text, after: seq<Text>)
    ensures Concat(before + [first, second] + after) == Concat(before + [first + second] + after)
    decreases |after|
  {
    hide Concat;
    if after == [] {
      assert before + [first, second] + after == (before + [first]) + [second];
      assert before + [first + second] + after == before + [first + second];
      ConcatSnoc(before + [first], second);
      ConcatSnoc(before, first);
      ConcatSnoc(before, first + second);
      assert (Concat(before) + first) + second == Concat(before) + (first + second);
    } else {
      var n := |after| - 1;
      assert before + [first, second] + after == (before + [first, second] + after[..n]) + [after[n]];
      assert before + [first + second] + after == (before + [first + second] + after[..n]) + [after[n]];
      ConcatCut(before, first, second, after[..n]);
      ConcatSnoc(before + [first, second] + after[..n], after[n]);
      ConcatSnoc(before + [first + second] + after[..n], after[n]);
    }
  }

  /** Cutting a chunk in two never overflows a buffer that it did not overflow whole. */
  lemma CutChunkFits(o: Options, before: seq<Text>, first: Text, second: Text, after: seq<Text>)
    requires Fits(o, before + [first + second] + after)
    ensures Fits(o, before + [first, second] + after)
  {
    hide Utf8Length, Split, Concat;
    var coarse, fine := before + [first + second] + after, before + [first, second] + after;
    forall n | 0 <= n < |fine|
      ensures ChunkFits(o, fine, n)
    {
      var k := |before|;
      var rest := Split(Concat(before)).1;
      assert coarse[..k] == before && fine[..k] == before && coarse[k] == first + second;
      assert Buffered(coarse, k) == rest + (first + second) == (rest + first) + second;
      if n < k {
        assert ChunkFits(o, coarse, n);
        assert fine[..n] == coarse[..n] && fine[n] == coarse[n];
        assert Buffered(fine, n) == Buffered(coarse, n);
      } else if n == k {
        assert ChunkFits(o, coarse, k);
        assert Buffered(fine, k) == rest + first == Buffered(coarse, k)[..|rest + first|];
        Utf8Prefix(Buffered(coarse, k), |rest + first|);
      } else if n == k + 1 {
        assert ChunkFits(o, coarse, k);
        assert fine[..n] == before + [first];
        ConcatSnoc(before, first);
        SplitAppend(Concat(before), first);
        SplitRest(rest + first);
        var cut := |rest + first| - |Split(rest + first).1|;
        assert Buffered(fine, n) == Split(rest + first).1 + second == Buffered(coarse, k)[cut..];
        Utf8Suffix(Buffered(coarse, k), cut);
      } else {
        assert ChunkFits(o, coarse, n - 1);
        assert fine[..n] == before + [first, second] + after[..n - k - 2] && fine[n] == coarse[n - 1];
        assert coarse[..n - 1] == before + [first + second] + after[..n - k - 2];
        ConcatCut(before, first, second, after[..n - k - 2]);
        assert Buffered(fine, n) == Buffered(coarse, n - 1);
      }
    }
  }
}
