/**
 `collectWalletConfidentialLedger`: a history of transactions is sorted and replayed
 into a commitment tree, the wallet's spendable notes and their total
 (electron/confidentialWallet.ts:426-585, 662-677, 854-1186).
 */
module ConfidentialLedger {
  import opened Bytes
  import opened LedgerReplay
  import opened Sequences

  const MAX_TRANSACTIONS := 16_000
  const MAX_INSTRUCTIONS := 64
  const MAX_INPUTS := 64
  /** `commitment` is `None` when it is not 32 bytes of lowercase hexadecimal text; likewise `asset`. */
  datatype Shield = NoShield | BadShield | Shield(asset: Option<string>, commitment: Option<nat>)

  /** A transfer or unshield; an array is `None` when it is not an exact array of 32-byte values. */
  datatype Transfer = NoTransfer | BadTransfer
                    | Transfer(asset: Option<string>, inputs: Option<seq<nat>>, outputs: Option<seq<nat>>)

  datatype Instruction = Instruction(shield: Shield, transfer: Transfer, unshield: Transfer)

  /** `shapeOk`: successful, with the allowed fields only and a canonical authority. */
  datatype Transaction = Transaction(hash: nat, shapeOk: bool, block: Option<nat>, order: Option<nat>,
                                     metadata: Metadata, instructions: seq<Instruction>)

  datatype Wallet = Wallet(crypto: Crypto, keys: seq<ReceiveKey>, assets: set<string>, markUnrecognized: bool)

  datatype Ledger = Ledger(exact: bool, notes: seq<Recovered>, spendable: nat, tree: seq<nat>)

  // ---------------------------------------------------------------- parsing

  datatype Parsed<T> = Throws | Skipped | Parsed(value: T)

  predicate HexArrayOk(raw: Option<seq<nat>>, allowEmpty: bool) {
    raw.Some? && |raw.value| <= MAX_INPUTS && (allowEmpty || raw.value != []) && Distinct(raw.value)
  }

  function ParseShield(w: Wallet, i: Instruction): Parsed<nat> {
    match i.shield
    case NoShield => Skipped
    case BadShield => Throws
    case Shield(asset, commitment) =>
      if asset.None? then Throws
      else if asset.value !in w.assets then Skipped
      else if commitment.None? then Throws
      else Parsed(commitment.value)
  }

  datatype Movement = Movement(inputs: seq<nat>, outputs: seq<nat>)

  function ParseMovement(w: Wallet, t: Transfer, outputsMayBeEmpty: bool): Parsed<Movement> {
    match t
    case NoTransfer => Skipped
    case BadTransfer => Throws
    case Transfer(asset, inputs, outputs) =>
      if asset.None? then Throws
      else if asset.value !in w.assets then Skipped
      else if !HexArrayOk(inputs, false) || !HexArrayOk(outputs, outputsMayBeEmpty) then Throws
      else Parsed(Movement(inputs.value, outputs.value))
  }

  /** The transfer or the unshield part of an instruction. */
  function ParsePart(w: Wallet, i: Instruction, unshield: bool): Parsed<Movement> {
    if unshield then ParseMovement(w, i.unshield, true) else ParseMovement(w, i.transfer, false)
  }

  // ---------------------------------------------------------------- the events of a transaction

  function LeafEvent(notes: map<nat, Note>, hash: nat, commitment: nat): Event {
    Leaf(commitment, if commitment in notes then Some(notes[commitment]) else None, hash)
  }

  function SpendEvents(inputs: seq<nat>): seq<Event> {
    seq(|inputs|, i requires 0 <= i < |inputs| => Spend(inputs[i]))
  }

  function LeafEvents(notes: map<nat, Note>, hash: nat, outputs: seq<nat>): seq<Event> {
    seq(|outputs|, i requires 0 <= i < |outputs| => LeafEvent(notes, hash, outputs[i]))
  }

  function MovementEvents(notes: map<nat, Note>, hash: nat, m: Movement): seq<Event> {
    SpendEvents(m.inputs) + LeafEvents(notes, hash, m.outputs)
  }

  function ShieldEvent(w: Wallet, notes: map<nat, Note>, hash: nat, i: Instruction): seq<Event> {
    match ParseShield(w, i)
    case Parsed(commitment) => [LeafEvent(notes, hash, commitment)]
    case _ => []
  }

  function PartEvent(w: Wallet, notes: map<nat, Note>, hash: nat, i: Instruction, unshield: bool): seq<Event> {
    match ParsePart(w, i, unshield)
    case Parsed(m) => MovementEvents(notes, hash, m)
    case _ => []
  }

  function ShieldEvents(w: Wallet, notes: map<nat, Note>, hash: nat, instructions: seq<Instruction>): seq<Event> {
    if instructions == [] then []
    else
      var n := |instructions| - 1;
      ShieldEvents(w, notes, hash, instructions[..n]) + ShieldEvent(w, notes, hash, instructions[n])
  }

  function PartEvents(w: Wallet, notes: map<nat, Note>, hash: nat, instructions: seq<Instruction>,
                      unshield: bool): seq<Event> {
    if instructions == [] then []
    else
      var n := |instructions| - 1;
      PartEvents(w, notes, hash, instructions[..n], unshield) + PartEvent(w, notes, hash, instructions[n], unshield)
  }

  predicate ShieldsParse(w: Wallet, instructions: seq<Instruction>) {
    forall i :: 0 <= i < |instructions| ==> ParseShield(w, instructions[i]) != Throws
  }

  predicate PartsParse(w: Wallet, instructions: seq<Instruction>, unshield: bool) {
    forall i :: 0 <= i < |instructions| ==> ParsePart(w, instructions[i], unshield) != Throws
  }

  function NotesIn(w: Wallet, t: Transaction): Option<map<nat, Note>> {
    NotesOf(w.crypto, w.keys, w.assets, t.metadata)
  }

  /** Shield outputs first, then transfers, then unshields; within each, inputs before outputs. */
  function TransactionEvents(w: Wallet, t: Transaction, notes: map<nat, Note>): seq<Event> {
    ShieldEvents(w, notes, t.hash, t.instructions)
    + PartEvents(w, notes, t.hash, t.instructions, false)
    + PartEvents(w, notes, t.hash, t.instructions, true)
  }

  predicate Readable(w: Wallet, t: Transaction) {
    NotesIn(w, t).Some? && ShieldsParse(w, t.instructions)
    && PartsParse(w, t.instructions, false) && PartsParse(w, t.instructions, true)
  }

  /** The events of a history, in order; `None` if some transaction cannot be read. */
  function Events(w: Wallet, history: seq<Transaction>): Option<seq<Event>> {
    if history == [] then Some([])
    else
      var n := |history| - 1;
      var before := Events(w, history[..n]);
      if before.None? || !Readable(w, history[n]) then None
      else Some(before.value + TransactionEvents(w, history[n], NotesIn(w, history[n]).value))
  }

  /** An unrecognised movement of this kind makes the ledger inexact. */
  predicate Matters(w: Wallet, m: Movement, unshield: bool) {
    if unshield then |m.outputs| > 0 else w.markUnrecognized
  }

  predicate MovesUnrecognized(w: Wallet, i: Instruction, unshield: bool) {
    ParsePart(w, i, unshield).Parsed? && Matters(w, ParsePart(w, i, unshield).value, unshield)
  }

  ghost predicate PartUnrecognized(w: Wallet, notes: map<nat, Note>, instructions: seq<Instruction>, unshield: bool) {
    notes == map[] && exists i :: 0 <= i < |instructions| && MovesUnrecognized(w, instructions[i], unshield)
  }

  /** A transfer, or an unshield with outputs, whose transaction has no note for this wallet. */
  ghost predicate Unrecognized(w: Wallet, t: Transaction) {
    && NotesIn(w, t).Some?
    && (PartUnrecognized(w, NotesIn(w, t).value, t.instructions, false)
        || PartUnrecognized(w, NotesIn(w, t).value, t.instructions, true))
  }

  ghost predicate Exact(w: Wallet, history: seq<Transaction>) {
    forall i :: 0 <= i < |history| ==> !Unrecognized(w, history[i])
  }

  // ---------------------------------------------------------------- chronological order

  /** A transaction with its order within its block: `note_index_order`, or else its position in the input. */
  datatype Entry = Entry(tx: Transaction, rank: nat)

  function BlockOf(t: Transaction): nat {
    if t.block.Some? then t.block.value else MAX_SAFE_INTEGER
  }

  /** `compareTransactionsChronologically` */
  function Compare(left: Entry, right: Entry): int {
    if BlockOf(left.tx) != BlockOf(right.tx) then BlockOf(left.tx) - BlockOf(right.tx)
    else if left.rank != right.rank then left.rank - right.rank
    else left.tx.hash - right.tx.hash
  }

  function Entries(txs: seq<Transaction>): seq<Entry> {
    seq(|txs|, i requires 0 <= i < |txs| => Entry(txs[i], if txs[i].order.Some? then txs[i].order.value else i))
  }

  function Insert(e: Entry, sorted: seq<Entry>): (r: seq<Entry>)
    ensures multiset(r) == multiset(sorted) + multiset{e}
  {
    if sorted == [] || Compare(e, sorted[0]) < 0 then
      assert [e] + sorted == [e] + sorted;
      [e] + sorted
    else
      assert sorted == [sorted[0]] + sorted[1..];
      [sorted[0]] + Insert(e, sorted[1..])
  }

  function Sort(entries: seq<Entry>): (r: seq<Entry>)
    ensures multiset(r) == multiset(entries)
  {
    if entries == [] then []
    else
      assert entries == [entries[0]] + entries[1..];
      Insert(entries[0], Sort(entries[1..]))
  }

  ghost predicate Sorted(entries: seq<Entry>) {
    forall i, j :: 0 <= i < j < |entries| ==> Compare(entries[i], entries[j]) < 0
  }

  ghost predicate DistinctHashes(entries: seq<Entry>) {
    forall i, j :: 0 <= i < j < |entries| ==> entries[i].tx.hash != entries[j].tx.hash
  }

  function Transactions(entries: seq<Entry>): seq<Transaction> {
    seq(|entries|, i requires 0 <= i < |entries| => entries[i].tx)
  }

  // ---------------------------------------------------------------- the ledger

  ghost predicate HistoryOk(txs: seq<Transaction>) {
    && |txs| <= MAX_TRANSACTIONS
    && (forall i :: 0 <= i < |txs| ==> txs[i].shapeOk && 0 < |txs[i].instructions| <= MAX_INSTRUCTIONS)
    && (forall i, j :: 0 <= i < j < |txs| ==> txs[i].hash != txs[j].hash)
  }

  function Unspent(recovered: seq<Recovered>, spent: set<nat>): seq<Recovered> {
    if recovered == [] then []
    else
      var n := |recovered| - 1;
      Unspent(recovered[..n], spent) + (if recovered[n].nullifier in spent then [] else [recovered[n]])
  }

  function Total(notes: seq<Recovered>): nat {
    if notes == [] then 0 else Total(notes[..|notes| - 1]) + notes[|notes| - 1].note.amount
  }

  /** The final order of the notes: by leaf, then creation time, then transaction hash. */
  function CompareNotes(left: Recovered, right: Recovered): int {
    if left.leafIndex != right.leafIndex then left.leafIndex - right.leafIndex
    else if left.note.createdAtMs != right.note.createdAtMs then left.note.createdAtMs - right.note.createdAtMs
    else left.txHash - right.txHash
  }

  function InsertNote(note: Recovered, sorted: seq<Recovered>): seq<Recovered> {
    if sorted == [] || CompareNotes(note, sorted[0]) <= 0 then [note] + sorted
    else [sorted[0]] + InsertNote(note, sorted[1..])
  }

  function SortNotes(notes: seq<Recovered>): seq<Recovered> {
    if notes == [] then [] else InsertNote(notes[0], SortNotes(notes[1..]))
  }

  function Chronological(txs: seq<Transaction>): seq<Transaction> {
    Transactions(Sort(Entries(txs)))
  }

  /** The ledger of a history, or `None` where the program throws. */
  ghost function Collect(w: Wallet, txs: seq<Transaction>): Option<Ledger> {
    if !HistoryOk(txs) then None
    else if w.assets == {} then Some(Ledger(true, [], 0, []))
    else
      var events := Events(w, Chronological(txs));
      if events.None? || Fold(w.crypto, events.value).None? then None
      else
        var s := Fold(w.crypto, events.value).value;
        var notes := SortNotes(Unspent(s.recovered, s.spent));
        Some(Ledger(Exact(w, Chronological(txs)), notes, Total(notes), s.tree))
  }

  // ---------------------------------------------------------------- the replay loop

  lemma FoldExtends(c: Crypto, done: seq<Event>, more: seq<Event>, e: Event)
    ensures Fold(c, done + (more + [e])) ==
      if Fold(c, done + more).None? then None else Apply(c, Fold(c, done + more).value, e)
  {
    hide Apply;
    FoldSnoc(c, done + more, e);
    assert done + (more + [e]) == (done + more) + [e];
  }

  lemma FoldPrefixFails(c: Crypto, done: seq<Event>, prefix: seq<Event>, events: seq<Event>)
    requires prefix <= events && Fold(c, done + prefix).None?
    ensures Fold(c, done + events).None?
  {
    FoldFails(c, done + prefix, events[|prefix|..]);
    assert done + events == (done + prefix) + events[|prefix|..];
  }

  /** Spends the inputs, then adds the outputs, of one transfer or unshield. */
  method ReplayMovement(c: Crypto, notes: map<nat, Note>, hash: nat, m: Movement, before: Replay,
                        ghost done: seq<Event>)
    returns (after: Option<Replay>, recognized: bool)
    requires Fold(c, done) == Some(before)
    ensures after == Fold(c, done + MovementEvents(notes, hash, m))
    ensures after.Some? ==> recognized == exists i :: 0 <= i < |m.outputs| && m.outputs[i] in notes
  {
    hide Fold, Apply;
    ghost var all := MovementEvents(notes, hash, m);
    var state, i := before, 0;
    recognized := false;
    assert done + all[..0] == done;
    while i < |m.inputs|
      invariant i <= |m.inputs|
      invariant Fold(c, done + all[..i]) == Some(state)
    {
      assert all[..i + 1] == all[..i] + [Spend(m.inputs[i])];
      FoldExtends(c, done, all[..i], Spend(m.inputs[i]));
      var next := Apply(c, state, Spend(m.inputs[i]));
      if next.None? {
        FoldPrefixFails(c, done, all[..i + 1], all);
        return None, false;
      }
      state, i := next.value, i + 1;
    }
    var j := 0;
    while j < |m.outputs|
      invariant j <= |m.outputs|
      invariant Fold(c, done + all[..i + j]) == Some(state)
      invariant recognized == exists k :: 0 <= k < j && m.outputs[k] in notes
    {
      var e := LeafEvent(notes, hash, m.outputs[j]);
      assert all[i + j] == e && all[..i + j + 1] == all[..i + j] + [e];
      FoldExtends(c, done, all[..i + j], e);
      var next := Apply(c, state, e);
      if next.None? {
        FoldPrefixFails(c, done, all[..i + j + 1], all);
        return None, false;
      }
      if m.outputs[j] in notes {
        recognized := true;
      }
      state, j := next.value, j + 1;
    }
    assert all[..i + j] == all;
    return Some(state), recognized;
  }

  lemma ShieldEventsNext(w: Wallet, notes: map<nat, Note>, hash: nat, instructions: seq<Instruction>, i: nat)
    requires i < |instructions|
    ensures ShieldEvents(w, notes, hash, instructions[..i + 1])
         == ShieldEvents(w, notes, hash, instructions[..i]) + ShieldEvent(w, notes, hash, instructions[i])
  {
    hide ShieldEvent;
    assert instructions[..i + 1][..i] == instructions[..i];
  }

  lemma PartEventsNext(w: Wallet, notes: map<nat, Note>, hash: nat, instructions: seq<Instruction>, unshield: bool,
                       i: nat)
    requires i < |instructions|
    ensures PartEvents(w, notes, hash, instructions[..i + 1], unshield)
         == PartEvents(w, notes, hash, instructions[..i], unshield)
           + PartEvent(w, notes, hash, instructions[i], unshield)
  {
    hide PartEvent;
    assert instructions[..i + 1][..i] == instructions[..i];
  }

  lemma {:induction false} ShieldPrefix(w: Wallet, notes: map<nat, Note>, hash: nat, instructions: seq<Instruction>,
                                        i: nat)
    requires i <= |instructions|
    ensures ShieldEvents(w, notes, hash, instructions[..i]) <= ShieldEvents(w, notes, hash, instructions)
    decreases |instructions| - i
  {
    if i < |instructions| {
      ShieldEventsNext(w, notes, hash, instructions, i);
      ShieldPrefix(w, notes, hash, instructions, i + 1);
    } else {
      assert instructions[..i] == instructions;
    }
  }

  lemma {:induction false} PartPrefix(w: Wallet, notes: map<nat, Note>, hash: nat, instructions: seq<Instruction>,
                                      unshield: bool, i: nat)
    requires i <= |instructions|
    ensures PartEvents(w, notes, hash, instructions[..i], unshield) <=
      PartEvents(w, notes, hash, instructions, unshield)
    decreases |instructions| - i
  {
    if i < |instructions| {
      PartEventsNext(w, notes, hash, instructions, unshield, i);
      PartPrefix(w, notes, hash, instructions, unshield, i + 1);
    } else {
      assert instructions[..i] == instructions;
    }
  }

  method ReplayShields(w: Wallet, notes: map<nat, Note>, hash: nat, instructions: seq<Instruction>, before: Replay,
                       ghost done: seq<Event>)
    returns (after: Option<Replay>)
    requires Fold(w.crypto, done) == Some(before)
    requires ShieldsParse(w, instructions)
    ensures after == Fold(w.crypto, done + ShieldEvents(w, notes, hash, instructions))
  {
    hide Fold, Apply, LeafEvent, ParseShield;
    var state, i := before, 0;
    assert instructions[..0] == [] && done + [] == done;
    while i < |instructions|
      invariant i <= |instructions|
      invariant Fold(w.crypto, done + ShieldEvents(w, notes, hash, instructions[..i])) == Some(state)
    {
      ghost var events := ShieldEvents(w, notes, hash, instructions[..i]);
      ShieldEventsNext(w, notes, hash, instructions, i);
      var parsed := ParseShield(w, instructions[i]);
      if parsed.Parsed? {
        var e := LeafEvent(notes, hash, parsed.value);
        FoldExtends(w.crypto, done, events, e);
        var next := Apply(w.crypto, state, e);
        if next.None? {
          ShieldPrefix(w, notes, hash, instructions, i + 1);
          FoldPrefixFails(w.crypto, done, events + [e], ShieldEvents(w, notes, hash, instructions));
          return None;
        }
        state := next.value;
      } else {
        assert events + [] == events;
      }
      i := i + 1;
    }
    assert instructions[..i] == instructions;
    return Some(state);
  }

  lemma PartUnrecognizedNext(w: Wallet, notes: map<nat, Note>, instructions: seq<Instruction>, unshield: bool, i: nat)
    requires i < |instructions|
    ensures PartUnrecognized(w, notes, instructions[..i + 1], unshield)
      <==> PartUnrecognized(w, notes, instructions[..i], unshield)
           || (notes == map[] && MovesUnrecognized(w, instructions[i], unshield))
  {
    hide MovesUnrecognized;
    var more := instructions[..i + 1];
    assert more[i] == instructions[i] && forall j :: 0 <= j < i ==> more[j] == instructions[..i][j];
  }

  lemma NoParts(w: Wallet, notes: map<nat, Note>, hash: nat, unshield: bool)
    ensures PartEvents(w, notes, hash, [], unshield) == [] && !PartUnrecognized(w, notes, [], unshield)
  {
  }

  /** The transfers, or the unshields, of a transaction. */
  method ReplayPart(w: Wallet, notes: map<nat, Note>, hash: nat, instructions: seq<Instruction>, unshield: bool,
                    before: Replay,
                    ghost done: seq<Event>)
    returns (after: Option<Replay>, exact: bool)
    requires Fold(w.crypto, done) == Some(before)
    requires PartsParse(w, instructions, unshield)
    ensures after == Fold(w.crypto, done + PartEvents(w, notes, hash, instructions, unshield))
    ensures after.Some? ==> exact == !PartUnrecognized(w, notes, instructions, unshield)
  {
    hide Fold, Apply, ParsePart, MovementEvents, PartEvents, PartUnrecognized;
    var state, i := before, 0;
    exact := true;
    NoParts(w, notes, hash, unshield);
    assert instructions[..0] == [] && done + [] == done;
    while i < |instructions|
      invariant i <= |instructions|
      invariant Fold(w.crypto, done + PartEvents(w, notes, hash, instructions[..i], unshield)) == Some(state)
      invariant exact == !PartUnrecognized(w, notes, instructions[..i], unshield)
    {
      ghost var events := PartEvents(w, notes, hash, instructions[..i], unshield);
      PartEventsNext(w, notes, hash, instructions, unshield, i);
      PartUnrecognizedNext(w, notes, instructions, unshield, i);
      var parsed := ParsePart(w, instructions[i], unshield);
      if parsed.Parsed? {
        ghost var movement := MovementEvents(notes, hash, parsed.value);
        var next, recognized := ReplayMovement(w.crypto, notes, hash, parsed.value, state, done + events);
        assert (done + events) + movement == done + (events + movement);
        if next.None? {
          PartPrefix(w, notes, hash, instructions, unshield, i + 1);
          FoldPrefixFails(w.crypto, done, events + movement, PartEvents(w, notes, hash, instructions, unshield));
          return None, false;
        }
        if Matters(w, parsed.value, unshield) && !recognized && |notes| == 0 {
          exact := false;
        }
        state := next.value;
      } else {
        assert events + [] == events;
      }
      i := i + 1;
    }
    assert instructions[..i] == instructions;
    return Some(state), exact;
  }

  lemma EventsNext(w: Wallet, history: seq<Transaction>, i: nat)
    requires i < |history|
    ensures Events(w, history[..i + 1]) ==
      if Events(w, history[..i]).None? || !Readable(w, history[i]) then None
      else Some(Events(w, history[..i]).value + TransactionEvents(w, history[i], NotesIn(w, history[i]).value))
  {
    hide TransactionEvents, NotesIn, ShieldsParse, PartsParse;
    assert history[..i + 1][..i] == history[..i];
  }

  /** A history whose beginning cannot be replayed cannot be replayed. */
  ghost function FoldHistory(w: Wallet, history: seq<Transaction>): Option<Replay> {
    var events := Events(w, history);
    if events.None? then None else Fold(w.crypto, events.value)
  }

  lemma FoldHistoryNext(w: Wallet, history: seq<Transaction>, i: nat)
    requires i < |history|
    ensures FoldHistory(w, history[..i]).None? || !Readable(w, history[i]) ==> FoldHistory(w, history[..i + 1]).None?
    ensures Events(w, history[..i]).Some? && Readable(w, history[i]) ==>
      FoldHistory(w, history[..i + 1]) ==
      Fold(w.crypto, Events(w, history[..i]).value + TransactionEvents(w, history[i], NotesIn(w, history[i]).value))
  {
    hide TransactionEvents, NotesIn, ShieldsParse, PartsParse, Fold;
    EventsNext(w, history, i);
    if Events(w, history[..i]).Some? && Readable(w, history[i]) && FoldHistory(w, history[..i]).None? {
      FoldFails(w.crypto, Events(w, history[..i]).value,
        TransactionEvents(w, history[i], NotesIn(w, history[i]).value));
    }
  }

  lemma {:induction false} FoldHistoryFails(w: Wallet, history: seq<Transaction>, i: nat)
    requires i <= |history| && FoldHistory(w, history[..i]).None?
    ensures FoldHistory(w, history).None?
    decreases |history| - i
  {
    hide FoldHistory;
    if i < |history| {
      FoldHistoryNext(w, history, i);
      FoldHistoryFails(w, history, i + 1);
    } else {
      assert history[..i] == history;
    }
  }

  /** One transaction of the sorted history. */
  method ReplayTransaction(w: Wallet, t: Transaction, before: Replay, ghost done: seq<Event>)
    returns (after: Option<Replay>, exact: bool)
    requires Fold(w.crypto, done) == Some(before)
    ensures after ==
      if !Readable(w, t) then None else Fold(w.crypto, done + TransactionEvents(w, t, NotesIn(w, t).value))
    ensures after.Some? ==> exact == !Unrecognized(w, t)
  {
    hide Fold, ShieldEvents, PartEvents, ShieldsParse, PartsParse, ParsePart, PartUnrecognized;
    after, exact := None, false;
    var notes := ReadNotesForTransaction(w.crypto, w.keys, w.assets, t.metadata);
    if notes.None? {
      return;
    }
    ghost var shields := ShieldEvents(w, notes.value, t.hash, t.instructions);
    ghost var transfers := PartEvents(w, notes.value, t.hash, t.instructions, false);
    ghost var unshields := PartEvents(w, notes.value, t.hash, t.instructions, true);
    assert done + (shields + transfers + unshields) == done + shields + transfers + unshields;
    if !ShieldsParse(w, t.instructions) {
      return;
    }
    var shielded := ReplayShields(w, notes.value, t.hash, t.instructions, before, done);
    if !PartsParse(w, t.instructions, false) {
      return;
    }
    if shielded.None? {
      FoldFails(w.crypto, done + shields, transfers);
      FoldFails(w.crypto, done + shields + transfers, unshields);
      return;
    }
    var transferred, exactTransfers :=
      ReplayPart(w, notes.value, t.hash, t.instructions, false, shielded.value, done + shields);
    if !PartsParse(w, t.instructions, true) {
      return;
    }
    if transferred.None? {
      FoldFails(w.crypto, done + shields + transfers, unshields);
      return;
    }
    var exactUnshields;
    after, exactUnshields :=
      ReplayPart(w, notes.value, t.hash, t.instructions, true, transferred.value, done + shields + transfers);
    exact := exactTransfers && exactUnshields;
  }

  lemma ExactNext(w: Wallet, history: seq<Transaction>, i: nat)
    requires i < |history|
    ensures Exact(w, history[..i + 1]) <==> Exact(w, history[..i]) && !Unrecognized(w, history[i])
  {
    hide Unrecognized;
    assert history[..i + 1] == history[..i] + [history[i]];
  }

  lemma StartsEmpty(w: Wallet)
    ensures Fold(w.crypto, []) == Some(EMPTY) && Events(w, []) == Some([]) && Exact(w, [])
  {
  }

  /** `collectWalletConfidentialLedger` computes the ledger that its history means. */
  method CollectWalletConfidentialLedger(w: Wallet, txs: seq<Transaction>) returns (ledger: Option<Ledger>)
    ensures ledger == Collect(w, txs)
  {
    hide Fold, Apply, ShieldsParse, PartsParse, Unrecognized, Exact, TransactionEvents, ReadNotes, Insert, Sort,
         InsertNote;
    if |txs| > MAX_TRANSACTIONS {
      return None;
    }
    var seen: set<nat> := {};
    var i := 0;
    while i < |txs|
      invariant i <= |txs|
      invariant forall j :: 0 <= j < i ==> txs[j].shapeOk && 0 < |txs[j].instructions| <= MAX_INSTRUCTIONS
      invariant forall x :: x in seen <==> exists j :: 0 <= j < i && txs[j].hash == x
      invariant forall j, k :: 0 <= j < k < i ==> txs[j].hash != txs[k].hash
    {
      if !txs[i].shapeOk || txs[i].hash in seen || |txs[i].instructions| == 0
        || |txs[i].instructions| > MAX_INSTRUCTIONS {
        return None;
      }
      seen := seen + {txs[i].hash};
      i := i + 1;
    }
    var history := Chronological(txs);
    if w.assets == {} {
      return Some(Ledger(true, [], 0, []));
    }
    var state, exact := EMPTY, true;
    i := 0;
    assert history[..0] == [];
    ghost var done: seq<Event> := [];
    StartsEmpty(w);
    while i < |history|
      invariant i <= |history|
      invariant Events(w, history[..i]) == Some(done) && Fold(w.crypto, done) == Some(state)
      invariant exact == Exact(w, history[..i])
    {
      FoldHistoryNext(w, history, i);
      EventsNext(w, history, i);
      ExactNext(w, history, i);
      var next, recognized := ReplayTransaction(w, history[i], state, done);
      if next.None? {
        FoldHistoryFails(w, history, i + 1);
        return None;
      }
      done := done + TransactionEvents(w, history[i], NotesIn(w, history[i]).value);
      state, exact := next.value, exact && recognized;
      i := i + 1;
    }
    assert history[..i] == history;
    var notes := SortNotes(Unspent(state.recovered, state.spent));
    return Some(Ledger(exact, notes, Total(notes), state.tree));
  }
}
