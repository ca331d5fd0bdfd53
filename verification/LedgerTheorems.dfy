/** What a confidential ledger says about its history, and how it changes with it. */
module LedgerTheorems {
  import opened Bytes
  import opened LedgerReplay
  import opened ConfidentialLedger
  import opened Sequences

  // ---------------------------------------------------------------- leaves and recovered notes

  lemma {:induction false} CommitmentsPrefix(events: seq<Event>, i: nat)
    requires i <= |events|
    ensures Commitments(events[..i]) <= Commitments(events)
    decreases |events|
  {
    if i < |events| {
      CommitmentsPrefix(events[..|events| - 1], i);
      assert events[..|events| - 1][..i] == events[..i];
    } else {
      assert events[..i] == events;
    }
  }

  /** The leaf of an event is found at the number of leaves before it. */
  lemma LeafPosition(events: seq<Event>, i: nat)
    requires i < |events| && events[i].Leaf?
    ensures var k := |Commitments(events[..i])|;
      k < |Commitments(events)| && Commitments(events)[k] == events[i].commitment
  {
    CommitmentsPrefix(events, i + 1);
    assert events[..i + 1][..i] == events[..i];
    assert Commitments(events[..i + 1]) == Commitments(events[..i]) + [events[i].commitment];
  }

  lemma {:induction false} CommitmentsFrom(events: seq<Event>, x: nat)
    requires x in Commitments(events)
    ensures exists i :: 0 <= i < |events| && events[i].Leaf? && events[i].commitment == x
  {
    var n := |events| - 1;
    if x in Commitments(events[..n]) {
      CommitmentsFrom(events[..n], x);
      var i :| 0 <= i < n && events[..n][i].Leaf? && events[..n][i].commitment == x;
      assert events[i].commitment == x;
    }
  }

  lemma CommitmentFresh(events: seq<Event>, x: nat)
    requires forall i :: 0 <= i < |events| && events[i].Leaf? ==> events[i].commitment != x
    ensures x !in Commitments(events)
  {
    if x in Commitments(events) {
      CommitmentsFrom(events, x);
    }
  }

  /** No commitment occurs twice in the tree. */
  lemma {:induction false} TreeUnique(c: Crypto, events: seq<Event>)
    requires Unrepeated(c, events)
    ensures Distinct(Commitments(events))
  {
    if events == [] {
    } else {
      var n := |events| - 1;
      assert events == events[..n] + [events[n]];
      RepeatedEarlier(c, events[..n], events[n]);
      TreeUnique(c, events[..n]);
      if events[n].Leaf? {
        assert forall i :: 0 <= i < n ==> events[..n][i] == events[i];
        CommitmentFresh(events[..n], events[n].commitment);
      }
    }
  }

  /** The recovered notes are those of the history, each at the leaf of its event. */
  lemma {:induction false} RecoveredExactly(c: Crypto, events: seq<Event>, r: Recovered)
    ensures r in AllRecovered(c, events) <==>
      exists i :: 0 <= i < |events| && IsNote(events[i]) && r == RecoveredAt(c, events, i)
  {
    if events == [] {
    } else {
      var n := |events| - 1;
      RecoveredExactly(c, events[..n], r);
      forall i | 0 <= i < n
        ensures events[..n][i] == events[i] && events[..n][..i] == events[..i]
      {
      }
      if r in AllRecovered(c, events[..n]) {
        var i :| 0 <= i < n && IsNote(events[..n][i]) && r == RecoveredAt(c, events[..n], i);
        assert r == RecoveredAt(c, events, i);
      }
      if i :| 0 <= i < |events| && IsNote(events[i]) && r == RecoveredAt(c, events, i) {
        if i < n {
          assert r == RecoveredAt(c, events[..n], i);
        }
      }
    }
  }

  ghost predicate Ascending(notes: seq<Recovered>, bound: nat) {
    && (forall i :: 0 <= i < |notes| ==> notes[i].leafIndex < bound)
    && (forall i, j :: 0 <= i < j < |notes| ==> notes[i].leafIndex < notes[j].leafIndex)
  }

  lemma {:induction false} RecoveredAscending(c: Crypto, events: seq<Event>)
    ensures Ascending(AllRecovered(c, events), |Commitments(events)|)
  {
    if events == [] {
    } else {
      RecoveredAscending(c, events[..|events| - 1]);
    }
  }

  lemma AscendingNone(bound: nat)
    ensures Ascending([], bound)
  {
  }

  lemma AscendingLast(notes: seq<Recovered>, bound: nat)
    requires Ascending(notes, bound) && notes != []
    ensures var n := |notes| - 1;
      && Ascending(notes[..n], bound) && notes[n].leafIndex < bound
      && forall r :: r in notes[..n] ==> r.leafIndex < notes[n].leafIndex
  {
  }

  lemma AscendingSnoc(notes: seq<Recovered>, last: Recovered, bound: nat)
    requires Ascending(notes, bound) && last.leafIndex < bound
    requires forall r :: r in notes ==> r.leafIndex < last.leafIndex
    ensures Ascending(notes + [last], bound)
  {
    forall i | 0 <= i < |notes|
      ensures notes[i].leafIndex < last.leafIndex
    {
      assert notes[i] in notes;
    }
  }

  lemma {:induction false} UnspentAscending(notes: seq<Recovered>, spent: set<nat>, bound: nat)
    requires Ascending(notes, bound)
    ensures Ascending(Unspent(notes, spent), bound)
    ensures forall r :: r in Unspent(notes, spent) <==> r in notes && r.nullifier !in spent
  {
    hide Ascending;
    if notes == [] {
      AscendingNone(bound);
    } else {
      var n := |notes| - 1;
      var r := notes[n];
      AscendingLast(notes, bound);
      UnspentAscending(notes[..n], spent, bound);
      assert notes == notes[..n] + [r];
      var kept := Unspent(notes[..n], spent);
      AscendingSnoc(kept, r, bound);
      assert Unspent(notes, spent) == kept + (if r.nullifier in spent then [] else [r]);
      assert kept + [] == kept;
    }
  }

  /** The notes are found in the order in which they are finally sorted. */
  lemma {:induction false} SortNotesIdle(notes: seq<Recovered>, bound: nat)
    requires Ascending(notes, bound)
    ensures SortNotes(notes) == notes
  {
    if notes == [] {
    } else {
      SortNotesIdle(notes[1..], bound);
      assert notes == [notes[0]] + notes[1..];
      assert |notes| > 1 ==> notes[1..][0] == notes[1];
    }
  }

  // ---------------------------------------------------------------- notes belong to their leaves

  ghost predicate Bound(events: seq<Event>) {
    forall i :: 0 <= i < |events| && IsNote(events[i]) ==> events[i].note.value.commitment == events[i].commitment
  }

  ghost predicate NotesBound(notes: map<nat, Note>) {
    forall x :: x in notes ==> notes[x].commitment == x
  }

  lemma {:induction false} PartEventsBound(w: Wallet, notes: map<nat, Note>, hash: nat,
                                           instructions: seq<Instruction>, unshield: bool)
    requires NotesBound(notes)
    ensures Bound(PartEvents(w, notes, hash, instructions, unshield))
  {
    hide ParsePart;
    if instructions == [] {
    } else {
      PartEventsBound(w, notes, hash, instructions[..|instructions| - 1], unshield);
    }
  }

  lemma {:induction false} ShieldEventsBound(w: Wallet, notes: map<nat, Note>, hash: nat,
                                             instructions: seq<Instruction>)
    requires NotesBound(notes)
    ensures Bound(ShieldEvents(w, notes, hash, instructions))
  {
    hide ParseShield;
    if instructions == [] {
    } else {
      ShieldEventsBound(w, notes, hash, instructions[..|instructions| - 1]);
    }
  }

  lemma NotesInBound(w: Wallet, t: Transaction)
    ensures NotesIn(w, t).Some? ==> NotesBound(NotesIn(w, t).value)
  {
    if t.metadata.Outputs? {
      NotesAreBound(w.crypto, w.keys, w.assets, t.metadata.outputs);
    }
  }

  lemma {:induction false} EventsBound(w: Wallet, history: seq<Transaction>)
    requires Events(w, history).Some?
    ensures Bound(Events(w, history).value)
  {
    hide PartEvents, ShieldEvents, NotesIn, NotesBound;
    if history == [] {
    } else {
      var n := |history| - 1;
      EventsBound(w, history[..n]);
      var t := history[n];
      NotesInBound(w, t);
      var notes := NotesIn(w, t).value;
      ShieldEventsBound(w, notes, t.hash, t.instructions);
      PartEventsBound(w, notes, t.hash, t.instructions, false);
      PartEventsBound(w, notes, t.hash, t.instructions, true);
    }
  }

  // ---------------------------------------------------------------- balances

  function SpentNotes(recovered: seq<Recovered>, spent: set<nat>): seq<Recovered> {
    if recovered == [] then []
    else
      var n := |recovered| - 1;
      SpentNotes(recovered[..n], spent) + (if recovered[n].nullifier in spent then [recovered[n]] else [])
  }

  lemma TotalNext(notes: seq<Recovered>, r: Recovered)
    ensures Total(notes + [r]) == Total(notes) + r.note.amount && notes + [] == notes
  {
    assert (notes + [r])[..|notes|] == notes;
  }

  /** What was recovered is spendable or spent. */
  lemma {:induction false} Conservation(recovered: seq<Recovered>, spent: set<nat>)
    ensures Total(recovered) == Total(Unspent(recovered, spent)) + Total(SpentNotes(recovered, spent))
  {
    if recovered == [] {
    } else {
      var n := |recovered| - 1;
      Conservation(recovered[..n], spent);
      TotalNext(Unspent(recovered[..n], spent), recovered[n]);
      TotalNext(SpentNotes(recovered[..n], spent), recovered[n]);
    }
  }

  // ---------------------------------------------------------------- the main theorem

  /** No input processed after the note's event carries its nullifier. */
  ghost predicate Spendable(c: Crypto, events: seq<Event>, i: nat)
    requires i < |events| && IsNote(events[i])
  {
    forall j :: i < j < |events| ==> events[j] != Spend(c.nullifier(events[i].note.value))
  }

  /** The record of a note that was recovered and is still spendable. */
  ghost predicate IsSpendableNote(c: Crypto, events: seq<Event>, r: Recovered) {
    exists i :: 0 <= i < |events| && IsNote(events[i]) && r == RecoveredAt(c, events, i) && Spendable(c, events, i)
  }

  lemma SpendableMeansUnspent(c: Crypto, events: seq<Event>, i: nat)
    requires Unrepeated(c, events) && i < |events| && IsNote(events[i])
    ensures Spendable(c, events, i) <==> !SpentAfter(c, events, c.nullifier(events[i].note.value))
  {
    var x := c.nullifier(events[i].note.value);
    if SpentAfter(c, events, x) {
      var k, j :| 0 <= k < j < |events| && IsNote(events[k]) && c.nullifier(events[k].note.value) == x
        && events[j] == Spend(x);
      assert k == i;
    }
  }

  /** The ledger of an accepted history with tracked assets, and the events it stands for. */
  ghost predicate IsLedgerOf(w: Wallet, txs: seq<Transaction>, events: seq<Event>, l: Ledger) {
    && HistoryOk(txs) && Events(w, Chronological(txs)) == Some(events) && Unrepeated(w.crypto, events)
    && l.tree == Commitments(events)
    && l.exact == Exact(w, Chronological(txs))
    && (forall r :: r in l.notes <==> IsSpendableNote(w.crypto, events, r))
    && Ascending(l.notes, |l.tree|)
    && l.spendable == Total(l.notes)
  }

  lemma NotesExactly(c: Crypto, events: seq<Event>, s: Replay, r: Recovered)
    requires Unrepeated(c, events) && Means(c, events, s)
    ensures (r in AllRecovered(c, events) && r.nullifier !in s.spent) <==> IsSpendableNote(c, events, r)
  {
    hide Unrepeated, Spendable, SpentAfter, AllRecovered;
    RecoveredExactly(c, events, r);
    forall i | 0 <= i < |events| && IsNote(events[i])
      ensures Spendable(c, events, i) <==> !SpentAfter(c, events, c.nullifier(events[i].note.value))
    {
      SpendableMeansUnspent(c, events, i);
    }
  }

  /**
   A history is accepted exactly when every transaction can be read and nothing is
   repeated; the tree is then each transaction's shield, transfer and unshield outputs
   in chronological order, and the notes are exactly the recovered ones that no later
   input spends.
   */
  lemma LedgerMeans(w: Wallet, txs: seq<Transaction>)
    requires w.assets != {}
    ensures Collect(w, txs).Some? <==>
      HistoryOk(txs) && Events(w, Chronological(txs)).Some? && Unrepeated(w.crypto, Events(w, Chronological(txs)).value)
    ensures Collect(w, txs).Some? ==> IsLedgerOf(w, txs, Events(w, Chronological(txs)).value, Collect(w, txs).value)
  {
    hide HistoryOk, Exact, Chronological, Unrepeated, IsSpendableNote, Fold, Means, Ascending, Commitments,
         AllRecovered;
    var history := Chronological(txs);
    if HistoryOk(txs) && Events(w, history).Some? {
      var events := Events(w, history).value;
      FoldMeans(w.crypto, events);
      if Fold(w.crypto, events).Some? {
        var s := Fold(w.crypto, events).value;
        MeansLists(w.crypto, events, s);
        RecoveredAscending(w.crypto, events);
        UnspentAscending(s.recovered, s.spent, |Commitments(events)|);
        SortNotesIdle(Unspent(s.recovered, s.spent), |Commitments(events)|);
        forall r
          ensures r in Unspent(s.recovered, s.spent) <==> IsSpendableNote(w.crypto, events, r)
        {
          NotesExactly(w.crypto, events, s, r);
        }
      }
    }
  }

  /** The tree has no duplicates and every returned note sits at its own leaf. */
  lemma NotesAtTheirLeaves(w: Wallet, txs: seq<Transaction>)
    requires Collect(w, txs).Some?
    ensures var l := Collect(w, txs).value;
      && Distinct(l.tree)
      && (forall r :: r in l.notes ==> r.leafIndex < |l.tree| && l.tree[r.leafIndex] == r.note.commitment)
      && (forall i, j :: 0 <= i < j < |l.notes| ==> l.notes[i].leafIndex < l.notes[j].leafIndex)
  {
    if w.assets != {} {
      hide Collect, HistoryOk, Exact, Chronological, Unrepeated, Spendable, Events;
      LedgerMeans(w, txs);
      var events := Events(w, Chronological(txs)).value;
      TreeUnique(w.crypto, events);
      EventsBound(w, Chronological(txs));
      var l := Collect(w, txs).value;
      forall r | r in l.notes
        ensures r.leafIndex < |l.tree| && l.tree[r.leafIndex] == r.note.commitment
      {
        var i :| 0 <= i < |events| && IsNote(events[i]) && r == RecoveredAt(w.crypto, events, i)
          && Spendable(w.crypto, events, i);
        LeafPosition(events, i);
      }
    }
  }

  /** Total recovered is total spendable plus the total of the recovered notes that were spent. */
  lemma BalanceConserved(w: Wallet, txs: seq<Transaction>)
    requires Collect(w, txs).Some? && w.assets != {}
    ensures var events := Events(w, Chronological(txs)).value; var s := Fold(w.crypto, events).value;
      && Total(AllRecovered(w.crypto, events)) ==
           Collect(w, txs).value.spendable + Total(SpentNotes(AllRecovered(w.crypto, events), s.spent))
      && forall x :: x in s.spent <==> SpentAfter(w.crypto, events, x)
  {
    hide HistoryOk, Exact, Chronological, Unrepeated, Fold, Events;
    var events := Events(w, Chronological(txs)).value;
    var s := Fold(w.crypto, events).value;
    FoldMeans(w.crypto, events);
    RecoveredAscending(w.crypto, events);
    UnspentAscending(s.recovered, s.spent, |Commitments(events)|);
    SortNotesIdle(Unspent(s.recovered, s.spent), |Commitments(events)|);
    Conservation(s.recovered, s.spent);
  }

  // ---------------------------------------------------------------- the order of the input does not matter

  lemma CompareTransitive(a: Entry, b: Entry, c: Entry)
    requires Compare(a, b) < 0 && Compare(b, c) < 0
    ensures Compare(a, c) < 0
  {
  }

  lemma SortedCons(e: Entry, sorted: seq<Entry>)
    requires Sorted(sorted) || sorted == []
    requires forall j :: 0 <= j < |sorted| ==> Compare(e, sorted[j]) < 0
    ensures Sorted([e] + sorted)
  {
    hide Compare;
  }

  lemma SortedParts(sorted: seq<Entry>)
    requires Sorted(sorted) && sorted != []
    ensures Sorted(sorted[1..]) && forall j :: 0 < j < |sorted| ==> Compare(sorted[0], sorted[j]) < 0
    ensures forall j :: 0 <= j < |sorted[1..]| ==> Compare(sorted[0], sorted[1..][j]) < 0
  {
    hide Compare;
  }

  lemma CompareAntisymmetric(a: Entry, b: Entry)
    requires a.tx.hash != b.tx.hash
    ensures Compare(a, b) < 0 <==> !(Compare(b, a) < 0)
  {
  }

  lemma {:induction false} InsertSorted(e: Entry, sorted: seq<Entry>)
    requires Sorted(sorted) && forall i :: 0 <= i < |sorted| ==> sorted[i].tx.hash != e.tx.hash
    ensures Sorted(Insert(e, sorted))
  {
    hide Compare, Sorted;
    if sorted == [] {
      SortedCons(e, []);
    } else {
      var first, rest := sorted[0], sorted[1..];
      CompareAntisymmetric(e, first);
      SortedParts(sorted);
      if Compare(e, first) < 0 {
        forall j | 0 < j < |sorted|
          ensures Compare(e, sorted[j]) < 0
        {
          CompareTransitive(e, first, sorted[j]);
        }
        SortedCons(e, sorted);
      } else {
        InsertSorted(e, rest);
        forall j | 0 <= j < |Insert(e, rest)|
          ensures Compare(first, Insert(e, rest)[j]) < 0
        {
          assert Insert(e, rest)[j] in multiset(Insert(e, rest));
          assert Insert(e, rest)[j] == e || Insert(e, rest)[j] in rest;
        }
        SortedCons(first, Insert(e, rest));
      }
    }
  }

  lemma CompareIrreflexive(a: Entry)
    ensures !(Compare(a, a) < 0)
  {
  }

  lemma {:induction false} SortSorts(entries: seq<Entry>)
    requires DistinctHashes(entries)
    ensures Sorted(Sort(entries))
  {
    hide Compare;
    if entries == [] {
    } else {
      var rest := Sort(entries[1..]);
      SortSorts(entries[1..]);
      forall i | 0 <= i < |rest|
        ensures rest[i].tx.hash != entries[0].tx.hash
      {
        assert rest[i] in multiset(rest);
        assert rest[i] in entries[1..];
      }
      InsertSorted(entries[0], rest);
    }
  }

  lemma HeadsEqual(a: seq<Entry>, b: seq<Entry>)
    requires Sorted(a) && Sorted(b) && a != [] && b != [] && a[0] in b && b[0] in a
    ensures a[0] == b[0]
  {
    hide Compare;
    SortedParts(a);
    SortedParts(b);
    if a[0] != b[0] {
      assert Compare(a[0], b[0]) < 0;
      assert Compare(b[0], a[0]) < 0;
      CompareTransitive(a[0], b[0], a[0]);
      CompareIrreflexive(a[0]);
    }
  }

  /** Whatever algorithm sorts, there is only one sorted arrangement. */
  lemma {:induction false} SortedUnique(a: seq<Entry>, b: seq<Entry>)
    requires Sorted(a) && Sorted(b) && multiset(a) == multiset(b)
    ensures a == b
  {
    hide Compare, Sorted;
    SameSize(a, b);
    if a == [] {
    } else {
      assert a[0] in b && b[0] in a;
      HeadsEqual(a, b);
      SortedParts(a);
      SortedParts(b);
      Tail(a);
      Tail(b);
      SortedUnique(a[1..], b[1..]);
      assert a == [a[0]] + a[1..] && b == [b[0]] + b[1..];
    }
  }

  /** With an order for every transaction, an entry does not depend on the input position. */
  function Ranked(t: Transaction): Entry {
    Entry(t, if t.order.Some? then t.order.value else 0)
  }

  lemma EntriesRanked(txs: seq<Transaction>)
    requires forall i :: 0 <= i < |txs| ==> txs[i].order.Some?
    ensures Entries(txs) == Map(Ranked, txs)
  {
    var f := Ranked;
    forall i | 0 <= i < |txs|
      ensures Entries(txs)[i] == Map(f, txs)[i]
    {
      assert Map(f, txs)[i] == f(txs[i]) == Ranked(txs[i]);
    }
  }

  lemma TwiceInHistory(a: seq<Transaction>, t: Transaction)
    requires HistoryOk(a)
    ensures multiset(a)[t] <= 1
  {
    if t in a {
      var i :| 0 <= i < |a| && a[i] == t;
      assert a == a[..i] + [t] + a[i + 1..];
      assert t !in a[..i] && t !in a[i + 1..];
    }
  }

  /** Two positions of the same sequence hold transactions with the same hash only in a rejected history. */
  lemma {:induction false} HistoryPermutes(a: seq<Transaction>, b: seq<Transaction>)
    requires multiset(a) == multiset(b) && HistoryOk(a)
    ensures HistoryOk(b)
  {
    assert |a| == |multiset(a)| == |multiset(b)| == |b|;
    forall i | 0 <= i < |b|
      ensures b[i].shapeOk && 0 < |b[i].instructions| <= MAX_INSTRUCTIONS
    {
      assert b[i] in multiset(a);
    }
    forall i, j | 0 <= i < j < |b|
      ensures b[i].hash != b[j].hash
    {
      if b[i] == b[j] {
        assert b == b[..i] + [b[i]] + b[i + 1..j] + [b[j]] + b[j + 1..];
        assert multiset(b)[b[i]] >= 2;
        TwiceInHistory(a, b[i]);
      } else {
        assert b[i] in multiset(a) && b[j] in multiset(a);
      }
    }
  }

  lemma EntriesDistinct(txs: seq<Transaction>)
    requires HistoryOk(txs)
    ensures DistinctHashes(Entries(txs))
  {
  }

  /**
   When every transaction carries its order, any permutation of the input gives the
   same ledger, or both are refused.
   */
  lemma PermutationInvariant(w: Wallet, a: seq<Transaction>, b: seq<Transaction>)
    requires multiset(a) == multiset(b) && forall i :: 0 <= i < |a| ==> a[i].order.Some?
    ensures Collect(w, a) == Collect(w, b)
  {
    hide Fold, Events, Exact, HistoryOk, Sort, Sorted;
    if HistoryOk(a) {
      HistoryPermutes(a, b);
      EntriesDistinct(a);
      EntriesDistinct(b);
      forall i | 0 <= i < |b|
        ensures b[i].order.Some?
      {
        assert b[i] in multiset(a);
      }
      EntriesRanked(a);
      EntriesRanked(b);
      MapPermutes(Ranked, a, b);
      SortSorts(Entries(a));
      SortSorts(Entries(b));
      SortedUnique(Sort(Entries(a)), Sort(Entries(b)));
    } else if HistoryOk(b) {
      HistoryPermutes(b, a);
    }
  }

  // ---------------------------------------------------------------- later transactions only add

  /** Every entry of the second part comes after every entry of the first. */
  ghost predicate After(first: seq<Entry>, second: seq<Entry>) {
    forall i, j :: 0 <= i < |first| && 0 <= j < |second| ==> Compare(first[i], second[j]) < 0
  }

  lemma SortedConcat(a: seq<Entry>, b: seq<Entry>)
    requires Sorted(a) && Sorted(b) && After(a, b)
    ensures Sorted(a + b)
  {
    hide Compare;
  }

  lemma AfterPermutes(first: seq<Entry>, second: seq<Entry>, a: seq<Entry>, b: seq<Entry>)
    requires After(first, second) && multiset(a) == multiset(first) && multiset(b) == multiset(second)
    ensures After(a, b)
  {
    hide Compare;
    SameSize(a, first);
    SameSize(b, second);
    forall i, j | 0 <= i < |a| && 0 <= j < |b|
      ensures Compare(a[i], b[j]) < 0
    {
      assert a[i] in first && b[j] in second;
    }
  }

  lemma DistinctParts(first: seq<Entry>, second: seq<Entry>)
    requires DistinctHashes(first + second)
    ensures DistinctHashes(first) && DistinctHashes(second)
  {
    assert forall i :: 0 <= i < |first| ==> (first + second)[i] == first[i];
    assert forall i :: 0 <= i < |second| ==> (first + second)[|first| + i] == second[i];
  }

  lemma SortAppends(first: seq<Entry>, second: seq<Entry>)
    requires DistinctHashes(first + second) && After(first, second)
    ensures Sort(first + second) == Sort(first) + Sort(second)
  {
    hide Sorted, After, DistinctHashes;
    DistinctParts(first, second);
    SortSorts(first + second);
    SortSorts(first);
    SortSorts(second);
    AfterPermutes(first, second, Sort(first), Sort(second));
    SortedConcat(Sort(first), Sort(second));
    SortedUnique(Sort(first + second), Sort(first) + Sort(second));
  }

  lemma {:induction false} EventsAppend(w: Wallet, a: seq<Transaction>, b: seq<Transaction>)
    requires Events(w, a + b).Some?
    ensures Events(w, a).Some? && Events(w, a).value <= Events(w, a + b).value
    decreases |b|
  {
    hide Readable, TransactionEvents, NotesIn;
    if b == [] {
      assert a + b == a;
    } else {
      var n := |b| - 1;
      assert (a + b)[..|a + b| - 1] == a + b[..n];
      EventsAppend(w, a, b[..n]);
    }
  }

  lemma {:induction false} RecoveredPrefix(c: Crypto, events: seq<Event>, i: nat)
    requires i <= |events|
    ensures AllRecovered(c, events[..i]) <= AllRecovered(c, events)
    decreases |events|
  {
    hide RecoveredAt;
    if i == |events| {
      assert events[..i] == events;
    } else {
      RecoveredPrefix(c, events[..|events| - 1], i);
      assert events[..|events| - 1][..i] == events[..i];
    }
  }

  lemma OldNoteStays(c: Crypto, events: seq<Event>, n: nat, r: Recovered)
    requires n <= |events| && IsSpendableNote(c, events[..n], r) && Spend(r.nullifier) !in events[n..]
    ensures IsSpendableNote(c, events, r)
  {
    var earlier := events[..n];
    var i :| 0 <= i < n && IsNote(earlier[i]) && r == RecoveredAt(c, earlier, i) && Spendable(c, earlier, i);
    assert earlier[..i] == events[..i] && earlier[i] == events[i];
    forall j | i < j < |events|
      ensures events[j] != Spend(r.nullifier)
    {
      if j < n {
        assert earlier[j] == events[j];
      } else {
        assert events[j] == events[n..][j - n];
      }
    }
  }

  lemma LeavesGrow(events: seq<Event>, n: nat, i: nat)
    requires n <= |events| && i <= |events|
    ensures n <= i ==> |Commitments(events[..n])| <= |Commitments(events[..i])|
  {
    if n <= i {
      CommitmentsPrefix(events[..i], n);
      assert events[..i][..n] == events[..n];
    }
  }

  lemma OldNoteWasThere(c: Crypto, events: seq<Event>, n: nat, r: Recovered)
    requires n <= |events| && IsSpendableNote(c, events, r) && r.leafIndex < |Commitments(events[..n])|
    ensures IsSpendableNote(c, events[..n], r)
  {
    var earlier := events[..n];
    var i :| 0 <= i < |events| && IsNote(events[i]) && r == RecoveredAt(c, events, i) && Spendable(c, events, i);
    LeavesGrow(events, n, i);
    assert earlier[..i] == events[..i] && earlier[i] == events[i];
    assert forall j :: i < j < n ==> earlier[j] == events[j];
    assert Spendable(c, earlier, i);
    assert r == RecoveredAt(c, earlier, i);
  }

  lemma NotesLater(c: Crypto, events: seq<Event>, n: nat, before: seq<Recovered>, after: seq<Recovered>)
    requires n <= |events|
    requires forall r :: r in before <==> IsSpendableNote(c, events[..n], r)
    requires forall r :: r in after <==> IsSpendableNote(c, events, r)
    ensures forall r :: r in after && r.leafIndex < |Commitments(events[..n])| ==> r in before
    ensures forall r :: r in before && Spend(r.nullifier) !in events[n..] ==> r in after
  {
    hide IsSpendableNote, Commitments;
    forall r | r in after && r.leafIndex < |Commitments(events[..n])|
      ensures r in before
    {
      OldNoteWasThere(c, events, n, r);
    }
    forall r | r in before && Spend(r.nullifier) !in events[n..]
      ensures r in after
    {
      OldNoteStays(c, events, n, r);
    }
  }

  lemma RepeatedPrefix(c: Crypto, events: seq<Event>, n: nat)
    requires Unrepeated(c, events) && n <= |events|
    ensures Unrepeated(c, events[..n])
  {
  }

  lemma HistoryShorter(txs: seq<Transaction>, more: seq<Transaction>)
    requires HistoryOk(txs + more)
    ensures HistoryOk(txs)
  {
    assert forall i :: 0 <= i < |txs| ==> (txs + more)[i] == txs[i];
  }

  lemma ChronologicalAppends(txs: seq<Transaction>, more: seq<Transaction>)
    requires After(Entries(txs), Entries(txs + more)[|txs|..])
    ensures HistoryOk(txs + more) ==> Chronological(txs) <= Chronological(txs + more)
  {
    hide Compare, HistoryOk, Sort;
    var all := Entries(txs + more);
    if HistoryOk(txs + more) {
      EntriesDistinct(txs + more);
      assert all[..|txs|] == Entries(txs);
      assert all == Entries(txs) + all[|txs|..];
      SortAppends(Entries(txs), all[|txs|..]);
    }
  }

  /**
   Adding transactions that sort after all existing ones adds events to the end of the
   history: the old tree and the notes recovered so far, spent or not, stay as prefixes,
   a note of the old ledger keeps its leaf and leaves the ledger only if one of the new
   events spends it, and a note at an old leaf was already there.
   */
  lemma LaterTransactionsOnlyAdd(w: Wallet, txs: seq<Transaction>, more: seq<Transaction>) returns (added: seq<Event>)
    requires After(Entries(txs), Entries(txs + more)[|txs|..]) && w.assets != {}
    requires Collect(w, txs + more).Some?
    ensures Collect(w, txs).Some? && Events(w, Chronological(txs)).Some?
    ensures Events(w, Chronological(txs + more)) == Some(Events(w, Chronological(txs)).value + added)
    ensures AllRecovered(w.crypto, Events(w, Chronological(txs)).value)
            <= AllRecovered(w.crypto, Events(w, Chronological(txs + more)).value)
    ensures var before, after := Collect(w, txs).value, Collect(w, txs + more).value;
      && before.tree <= after.tree
      && (forall r :: r in after.notes && r.leafIndex < |before.tree| ==> r in before.notes)
      && (forall r :: r in before.notes && Spend(r.nullifier) !in added ==> r in after.notes)
  {
    hide Collect, Chronological, Events, Exact, Unrepeated, Spendable, HistoryOk, Commitments;
    var all := txs + more;
    ChronologicalAppends(txs, more);
    LedgerMeans(w, all);
    HistoryShorter(txs, more);
    var rest := Chronological(all)[|Chronological(txs)|..];
    assert Chronological(all) == Chronological(txs) + rest;
    EventsAppend(w, Chronological(txs), rest);
    var longer := Events(w, Chronological(all)).value;
    var i := |Events(w, Chronological(txs)).value|;
    added := longer[i..];
    assert longer == longer[..i] + added;
    RepeatedPrefix(w.crypto, longer, i);
    assert Events(w, Chronological(txs)).value == longer[..i];
    LedgerMeans(w, txs);
    CommitmentsPrefix(longer, i);
    RecoveredPrefix(w.crypto, longer, i);
    NotesLater(w.crypto, longer, i, Collect(w, txs).value.notes, Collect(w, all).value.notes);
  }
}
