/**
 The confidential ledger as a replay of shield, transfer and unshield events
 (electron/confidentialWallet.ts:587-660, 951-1186). 32-byte hexadecimal values
 (commitments, nullifiers, transaction hashes) are numbers below 2^256: lowercase text
 of equal length compares as its number does.
 */
module LedgerReplay {
  import opened Bytes

  datatype Note = Note(asset: string, amount: nat, rho: nat, ownerTag: nat, diversifier: nat, commitment: nat,
                       createdAtMs: nat)

  datatype ReceiveKey = ReceiveKey(keyId: string, ownerTag: nat, diversifier: nat, publicKey: string,
                                   privateKey: string)

  /** Encryption and note derivation; `None` where the program throws. */
  datatype Crypto = Crypto(
    open: (seq<Byte>, ReceiveKey) -> Option<Note>,
    ownerTag: nat -> nat,
    commit: Note -> Option<nat>,
    nullifier: Note -> nat)

  /** One entry of the wallet metadata of a transaction. */
  datatype Output = Output(commitment: nat, keyId: string, envelope: seq<Byte>)

  datatype Metadata = NoMetadata | BadMetadata | Outputs(outputs: seq<Output>)

  // ---------------------------------------------------------------- notes of a transaction

  datatype NoteRead = NotMine | Refused | Mine(note: Note)

  function FindKey(keys: seq<ReceiveKey>, keyId: string): Option<ReceiveKey> {
    if keys == [] then None
    else if keys[|keys| - 1].keyId == keyId then Some(keys[|keys| - 1])
    else FindKey(keys[..|keys| - 1], keyId)
  }

  /** Decrypts one output and checks it against its receive key, the wallet and the ledger. */
  function ReadNote(c: Crypto, keys: seq<ReceiveKey>, assets: set<string>, output: Output): NoteRead {
    match FindKey(keys, output.keyId)
    case None => NotMine
    case Some(key) =>
      match c.open(output.envelope, key)
      case None => Refused
      case Some(note) =>
        if note.ownerTag != key.ownerTag || note.diversifier != key.diversifier
          || note.ownerTag != c.ownerTag(note.diversifier)
           || note.asset !in assets || note.commitment != output.commitment || c.commit(note) != Some(output.commitment)
        then Refused else Mine(note)
  }

  /** `readWalletNotesForTransaction` on the first outputs of a metadata record. */
  function ReadNotes(c: Crypto, keys: seq<ReceiveKey>, assets: set<string>,
                     outputs: seq<Output>): Option<map<nat, Note>> {
    if outputs == [] then Some(map[])
    else
      var last := outputs[|outputs| - 1];
      match ReadNotes(c, keys, assets, outputs[..|outputs| - 1])
      case None => None
      case Some(notes) =>
        match ReadNote(c, keys, assets, last)
        case NotMine => Some(notes)
        case Refused => None
        case Mine(note) => Some(notes[last.commitment := note])
  }

  function NotesOf(c: Crypto, keys: seq<ReceiveKey>, assets: set<string>, metadata: Metadata): Option<map<nat, Note>> {
    match metadata
    case NoMetadata => Some(map[])
    case BadMetadata => None
    case Outputs(outputs) => ReadNotes(c, keys, assets, outputs)
  }

  lemma {:induction false} ReadNotesFails(c: Crypto, keys: seq<ReceiveKey>, assets: set<string>, outputs: seq<Output>,
                                          n: nat)
    requires n <= |outputs| && ReadNotes(c, keys, assets, outputs[..n]).None?
    ensures ReadNotes(c, keys, assets, outputs).None?
    decreases |outputs|
  {
    if n < |outputs| {
      assert outputs[..|outputs| - 1][..n] == outputs[..n];
      ReadNotesFails(c, keys, assets, outputs[..|outputs| - 1], n);
    } else {
      assert outputs[..n] == outputs;
    }
  }

  /** Every note that is read is committed to by the output it came with, and is owned by one of the keys. */
  lemma {:induction false} NotesAreBound(c: Crypto, keys: seq<ReceiveKey>, assets: set<string>, outputs: seq<Output>)
    ensures var notes := ReadNotes(c, keys, assets, outputs);
      notes.Some? ==> forall x :: x in notes.value ==>
        var note := notes.value[x];
        && note.commitment == x && c.commit(note) == Some(x) && note.asset in assets
        && note.ownerTag == c.ownerTag(note.diversifier)
        && exists o :: o in outputs && o.commitment == x && ReadNote(c, keys, assets, o) == Mine(note)
  {
    if outputs == [] {
    } else {
      var n := |outputs| - 1;
      NotesAreBound(c, keys, assets, outputs[..n]);
      assert outputs[n] in outputs;
      assert forall o :: o in outputs[..n] ==> o in outputs;
    }
  }

  method ReadNotesForTransaction(c: Crypto, keys: seq<ReceiveKey>, assets: set<string>, metadata: Metadata)
    returns (notes: Option<map<nat, Note>>)
    ensures notes == NotesOf(c, keys, assets, metadata)
  {
    hide ReadNote;
    if metadata == NoMetadata {
      return Some(map[]);
    }
    if metadata == BadMetadata {
      return None;
    }
    var outputs := metadata.outputs;
    var found: map<nat, Note> := map[];
    var i := 0;
    while i < |outputs|
      invariant i <= |outputs|
      invariant ReadNotes(c, keys, assets, outputs[..i]) == Some(found)
    {
      assert outputs[..i + 1][..i] == outputs[..i];
      var read := ReadNote(c, keys, assets, outputs[i]);
      if read == Refused {
        ReadNotesFails(c, keys, assets, outputs, i + 1);
        return None;
      }
      if read.Mine? {
        found := found[outputs[i].commitment := read.note];
      }
      i := i + 1;
    }
    assert outputs[..i] == outputs;
    return Some(found);
  }

  // ---------------------------------------------------------------- events and their replay

  /** A new leaf of the commitment tree, with the wallet's note if it has one; or a spent nullifier. */
  datatype Event = Leaf(commitment: nat, note: Option<Note>, txHash: nat) | Spend(nullifier: nat)

  datatype Recovered = Recovered(note: Note, nullifier: nat, txHash: nat, leafIndex: nat)

  datatype Replay = Replay(tree: seq<nat>, recovered: seq<Recovered>, spent: set<nat>,
                           observedSpent: set<nat>, observedCommitments: set<nat>)

  const EMPTY := Replay([], [], {}, {}, {})

  predicate HasNullifier(recovered: seq<Recovered>, nullifier: nat) {
    exists i :: 0 <= i < |recovered| && recovered[i].nullifier == nullifier
  }

  /** One event; `None` where the program throws. */
  function Apply(c: Crypto, s: Replay, e: Event): Option<Replay> {
    match e
    case Leaf(commitment, note, txHash) =>
      if commitment in s.observedCommitments then None
      else
        var t := s.(tree := s.tree + [commitment], observedCommitments := s.observedCommitments + {commitment});
        if note.None? then Some(t)
        else if HasNullifier(s.recovered, c.nullifier(note.value)) then None
        else Some(t.(recovered := s.recovered + [Recovered(note.value, c.nullifier(note.value), txHash, |s.tree|)]))
    case Spend(nullifier) =>
      if nullifier in s.observedSpent then None
      else Some(s.(observedSpent := s.observedSpent + {nullifier},
                   spent := if HasNullifier(s.recovered, nullifier) then s.spent + {nullifier} else s.spent))
  }

  function Fold(c: Crypto, events: seq<Event>): Option<Replay> {
    if events == [] then Some(EMPTY)
    else
      match Fold(c, events[..|events| - 1])
      case None => None
      case Some(s) => Apply(c, s, events[|events| - 1])
  }

  lemma FoldSnoc(c: Crypto, events: seq<Event>, e: Event)
    ensures Fold(c, events + [e]) == if Fold(c, events).None? then None else Apply(c, Fold(c, events).value, e)
  {
    hide Apply;
    assert (events + [e])[..|events|] == events;
  }

  /** What failed stays failed. */
  lemma {:induction false} FoldFails(c: Crypto, a: seq<Event>, b: seq<Event>)
    requires Fold(c, a).None?
    ensures Fold(c, a + b).None?
    decreases |b|
  {
    hide Apply;
    if b == [] {
      assert a + b == a;
    } else {
      var n := |b| - 1;
      FoldFails(c, a, b[..n]);
      assert a + b == (a + b[..n]) + [b[n]];
      FoldSnoc(c, a + b[..n], b[n]);
    }
  }

  // ---------------------------------------------------------------- what the replay means

  function Commitments(events: seq<Event>): seq<nat> {
    if events == [] then []
    else
      var n := |events| - 1;
      Commitments(events[..n]) + (if events[n].Leaf? then [events[n].commitment] else [])
  }

  /** The wallet's note in this event, if any. */
  predicate IsNote(e: Event) { e.Leaf? && e.note.Some? }

  /** No leaf, no spent nullifier and no wallet note occurs twice. */
  ghost predicate Unrepeated(c: Crypto, events: seq<Event>) {
    && (forall i, j :: 0 <= i < j < |events| && events[i].Leaf? && events[j].Leaf? ==>
         events[i].commitment != events[j].commitment)
    && (forall i, j :: 0 <= i < j < |events| && events[i].Spend? && events[j].Spend? ==>
         events[i].nullifier != events[j].nullifier)
    && (forall i, j :: 0 <= i < j < |events| && IsNote(events[i]) && IsNote(events[j]) ==>
          c.nullifier(events[i].note.value) != c.nullifier(events[j].note.value))
  }

  /** The note recovered at position i of the history sits at the leaf of that event. */
  function RecoveredAt(c: Crypto, events: seq<Event>, i: nat): Recovered
    requires i < |events| && IsNote(events[i])
  {
    Recovered(events[i].note.value, c.nullifier(events[i].note.value), events[i].txHash, |Commitments(events[..i])|)
  }

  function AllRecovered(c: Crypto, events: seq<Event>): seq<Recovered> {
    if events == [] then []
    else
      var n := |events| - 1;
      AllRecovered(c, events[..n]) + (if IsNote(events[n]) then [RecoveredAt(c, events, n)] else [])
  }

  /** Some input processed after the note was recovered carries its nullifier. */
  ghost predicate SpentAfter(c: Crypto, events: seq<Event>, nullifier: nat) {
    exists i, j :: 0 <= i < j < |events| && IsNote(events[i]) && c.nullifier(events[i].note.value) == nullifier
                   && events[j] == Spend(nullifier)
  }

  /** The state holds exactly what the events so far say. */
  ghost predicate Means(c: Crypto, events: seq<Event>, s: Replay) {
    && s.tree == Commitments(events)
    && s.recovered == AllRecovered(c, events)
    && (forall x :: x in s.observedCommitments
         <==> exists i :: 0 <= i < |events| && events[i].Leaf? && events[i].commitment == x)
    && (forall x :: x in s.observedSpent <==> exists i :: 0 <= i < |events| && events[i] == Spend(x))
    && (forall x :: HasNullifier(s.recovered, x) <==>
          exists i :: 0 <= i < |events| && IsNote(events[i]) && c.nullifier(events[i].note.value) == x)
    && (forall x :: x in s.spent <==> SpentAfter(c, events, x))
  }

  lemma RepeatedNext(c: Crypto, events: seq<Event>, s: Replay, e: Event)
    requires Unrepeated(c, events) && Means(c, events, s)
    ensures Apply(c, s, e).Some? <==> Unrepeated(c, events + [e])
  {
    hide Commitments, AllRecovered, HasNullifier, SpentAfter;
    var all := events + [e];
    var n := |events|;
    assert all[n] == e && forall i :: 0 <= i < n ==> all[i] == events[i];
    if Apply(c, s, e).None? {
      if e.Spend? {
        var i :| 0 <= i < n && events[i] == Spend(e.nullifier);
        assert all[i].Spend? && all[n].Spend? && all[i].nullifier == all[n].nullifier;
      } else if e.commitment in s.observedCommitments {
        var i :| 0 <= i < n && events[i].Leaf? && events[i].commitment == e.commitment;
        assert all[i].Leaf? && all[n].Leaf? && all[i].commitment == all[n].commitment;
      } else {
        var x := c.nullifier(e.note.value);
        var i :| 0 <= i < n && IsNote(events[i]) && c.nullifier(events[i].note.value) == x;
        assert IsNote(all[i]) && IsNote(all[n]) && c.nullifier(all[i].note.value) == c.nullifier(all[n].note.value);
      }
    }
  }

  lemma ListsSnoc(c: Crypto, events: seq<Event>, e: Event)
    ensures Commitments(events + [e]) == Commitments(events) + (if e.Leaf? then [e.commitment] else [])
    ensures AllRecovered(c, events + [e]) ==
      AllRecovered(c, events) + (if IsNote(e) then [RecoveredAt(c, events + [e], |events|)] else [])
  {
    hide RecoveredAt;
    assert (events + [e])[..|events|] == events;
  }

  lemma MeansLists(c: Crypto, events: seq<Event>, s: Replay)
    requires Means(c, events, s)
    ensures s.tree == Commitments(events) && s.recovered == AllRecovered(c, events)
  {
    hide Commitments, AllRecovered, HasNullifier, SpentAfter;
  }

  lemma ListsNext(c: Crypto, events: seq<Event>, s: Replay, e: Event)
    requires Means(c, events, s) && Apply(c, s, e).Some?
    ensures var t := Apply(c, s, e).value;
      t.tree == Commitments(events + [e]) && t.recovered == AllRecovered(c, events + [e])
  {
    hide HasNullifier, SpentAfter, Commitments, AllRecovered, Means;
    MeansLists(c, events, s);
    ListsSnoc(c, events, e);
    assert (events + [e])[..|events|] == events;
    assert s.tree + [] == s.tree && s.recovered + [] == s.recovered;
  }

  lemma ObservedNext(c: Crypto, events: seq<Event>, s: Replay, e: Event)
    requires Means(c, events, s) && Apply(c, s, e).Some?
    ensures var t := Apply(c, s, e).value; var all := events + [e];
      && (forall x :: x in t.observedCommitments
           <==> exists i :: 0 <= i < |all| && all[i].Leaf? && all[i].commitment == x)
      && (forall x :: x in t.observedSpent <==> exists i :: 0 <= i < |all| && all[i] == Spend(x))
  {
    hide Commitments, AllRecovered, HasNullifier, SpentAfter;
    var t, all := Apply(c, s, e).value, events + [e];
    assert all[|events|] == e && forall i :: 0 <= i < |events| ==> all[i] == events[i];
    forall x | x in s.observedCommitments
      ensures exists i :: 0 <= i < |all| && all[i].Leaf? && all[i].commitment == x
    {
      var i :| 0 <= i < |events| && events[i].Leaf? && events[i].commitment == x;
      assert all[i] == events[i];
    }
    forall x | x in s.observedSpent
      ensures exists i :: 0 <= i < |all| && all[i] == Spend(x)
    {
      var i :| 0 <= i < |events| && events[i] == Spend(x);
      assert all[i] == events[i];
    }
  }

  lemma HasNullifierNext(recovered: seq<Recovered>, r: Recovered, x: nat)
    ensures HasNullifier(recovered + [r], x) <==> HasNullifier(recovered, x) || r.nullifier == x
  {
    if HasNullifier(recovered, x) {
      var i :| 0 <= i < |recovered| && recovered[i].nullifier == x;
      assert (recovered + [r])[i].nullifier == x;
    }
    assert (recovered + [r])[|recovered|] == r;
  }

  lemma NullifiersNext(c: Crypto, events: seq<Event>, s: Replay, e: Event, x: nat)
    requires Means(c, events, s) && Apply(c, s, e).Some?
    ensures var t := Apply(c, s, e).value; var all := events + [e];
      HasNullifier(t.recovered, x) <==>
      exists i :: 0 <= i < |all| && IsNote(all[i]) && c.nullifier(all[i].note.value) == x
  {
    hide Commitments, AllRecovered, HasNullifier, SpentAfter;
    var t, all := Apply(c, s, e).value, events + [e];
    assert all[|events|] == e && forall i :: 0 <= i < |events| ==> all[i] == events[i];
    if IsNote(e) {
      HasNullifierNext(s.recovered, t.recovered[|s.recovered|], x);
    }
    if HasNullifier(s.recovered, x) {
      var i :| 0 <= i < |events| && IsNote(events[i]) && c.nullifier(events[i].note.value) == x;
      assert all[i] == events[i];
    }
  }

  /** A note is spent by an earlier input, or by the last one. */
  lemma SpentAfterNext(c: Crypto, events: seq<Event>, e: Event, x: nat)
    ensures SpentAfter(c, events + [e], x) <==>
      || SpentAfter(c, events, x)
      || (e == Spend(x)
          && exists i :: 0 <= i < |events| && IsNote(events[i]) && c.nullifier(events[i].note.value) == x)
  {
    var all := events + [e];
    assert all[|events|] == e && forall i :: 0 <= i < |events| ==> all[i] == events[i];
    if SpentAfter(c, all, x) {
      var i, j :| 0 <= i < j < |all| && IsNote(all[i]) && c.nullifier(all[i].note.value) == x && all[j] == Spend(x);
      assert events[i] == all[i];
      assert j < |events| ==> events[j] == all[j];
    }
    if SpentAfter(c, events, x) {
      var i, j :| 0 <= i < j < |events| && IsNote(events[i]) && c.nullifier(events[i].note.value) == x
                  && events[j] == Spend(x);
      assert IsNote(all[i]) && all[j] == Spend(x);
    }
  }

  lemma SpentNext(c: Crypto, events: seq<Event>, s: Replay, e: Event, x: nat)
    requires Means(c, events, s) && Apply(c, s, e).Some?
    ensures x in Apply(c, s, e).value.spent <==> SpentAfter(c, events + [e], x)
  {
    hide Commitments, AllRecovered, HasNullifier, SpentAfter;
    SpentAfterNext(c, events, e, x);
  }

  lemma RepeatedEarlier(c: Crypto, events: seq<Event>, e: Event)
    ensures Unrepeated(c, events + [e]) ==> Unrepeated(c, events)
  {
    assert forall i :: 0 <= i < |events| ==> (events + [e])[i] == events[i];
  }

  lemma NothingYet(c: Crypto)
    ensures Unrepeated(c, []) && Means(c, [], EMPTY)
  {
  }

  lemma MeansNext(c: Crypto, events: seq<Event>, s: Replay, e: Event)
    requires Means(c, events, s) && Apply(c, s, e).Some?
    ensures Means(c, events + [e], Apply(c, s, e).value)
  {
    hide Commitments, AllRecovered, HasNullifier, SpentAfter, Apply;
    ListsNext(c, events, s, e);
    ObservedNext(c, events, s, e);
    forall x
      ensures var all := events + [e];
        HasNullifier(Apply(c, s, e).value.recovered, x) <==>
          exists i :: 0 <= i < |all| && IsNote(all[i]) && c.nullifier(all[i].note.value) == x
    {
      NullifiersNext(c, events, s, e, x);
    }
    forall x
      ensures x in Apply(c, s, e).value.spent <==> SpentAfter(c, events + [e], x)
    {
      SpentNext(c, events, s, e, x);
    }
  }

  /** The replay succeeds exactly when nothing is repeated, and then its state says what happened. */
  lemma {:induction false} FoldMeans(c: Crypto, events: seq<Event>)
    ensures Fold(c, events).Some? <==> Unrepeated(c, events)
    ensures Fold(c, events).Some? ==> Means(c, events, Fold(c, events).value)
  {
    hide Unrepeated, Means, Apply;
    if events == [] {
      NothingYet(c);
    } else {
      var n := |events| - 1;
      var front, e := events[..n], events[n];
      FoldMeans(c, front);
      assert events == front + [e];
      if Fold(c, front).Some? {
        var s := Fold(c, front).value;
        RepeatedNext(c, front, s, e);
        if Apply(c, s, e).Some? {
          MeansNext(c, front, s, e);
        }
      } else {
        RepeatedEarlier(c, front, e);
      }
    }
  }
}
