/** Safety of the IrohaConnect protocol over every interleaving. */
module ConnectSafety {
  import opened Bytes
  import opened ConnectTypes
  import opened ConnectProtocol

  // ---------------------------------------------------------------- the invariant

  /** The owners whose secrets must still be there; every other secret is erased. */
  ghost predicate OwnerLive(s: State, owner: Owner)
    requires WellFormed(s)
  {
    match s.history.live
    case NoneLive => false
    case PendingLive(p) => owner == AppKeyOf(p) || owner == WalletKeyOf(p) || owner == PreimageOf(p)
    case AuthorizingLive(p) => owner == AppKeyOf(p) || owner == WalletKeyOf(p) || owner == PreimageOf(p)
    case SessionLive(a) =>
      && a < |s.actives|
      && (|| owner == AppKeyOf(s.history.origin[a]) || owner == WalletKeyOf(s.history.origin[a])
          || (s.actives[a].slot.Slot? && owner == MessageOf(s.actives[a].slot.request)))
  }

  /** At most one session is pending, being authorised or active. */
  ghost predicate OneLive(s: State) {
    match s.history.live
    case NoneLive => s.pendingSessions == map[] && s.authorizing == map[] && s.sessions == map[]
    case PendingLive(p) =>
      p < |s.pendings| && s.pendingSessions == map[s.pendings[p].token := p] && s.authorizing == map[]
        && s.sessions == map[]
    case AuthorizingLive(p) =>
      p < |s.pendings| && s.pendingSessions == map[] && s.authorizing == map[s.pendings[p].token := p]
        && s.sessions == map[]
    case SessionLive(a) =>
      a < |s.actives| && s.pendingSessions == map[] && s.authorizing == map[]
        && s.sessions == map[s.actives[a].token := a]
  }

  /** The live record carries the current context key and generation. */
  ghost predicate Current(s: State)
    requires WellFormed(s) && OneLive(s)
  {
    match s.history.live
    case NoneLive => true
    case PendingLive(p) =>
      s.contextKey != "" && s.pendings[p].contextKey == s.contextKey && s.pendings[p].generation == s.generation
      && p !in s.approveCalls && p !in s.history.promoted
    case AuthorizingLive(p) =>
      s.contextKey != "" && s.pendings[p].contextKey == s.contextKey && s.pendings[p].generation == s.generation
      && p in s.approveCalls && p !in s.history.promoted
    case SessionLive(a) =>
      var p := s.history.origin[a];
      s.contextKey != "" && s.actives[a].contextKey == s.contextKey
      && p < |s.pendings| && s.pendings[p].generation == s.generation && p in s.history.promoted
      && s.actives[a].appKey == s.pendings[p].appKey && s.actives[a].walletKey == s.pendings[p].walletKey
  }

  /** Every buffer belongs to exactly the record it was made for. */
  ghost predicate Owners(s: State)
    requires WellFormed(s)
  {
    && (forall p :: 0 <= p < |s.pendings| ==>
          && s.history.owner[s.pendings[p].appKey] == AppKeyOf(p)
          && s.history.owner[s.pendings[p].walletKey] == WalletKeyOf(p)
          && s.history.owner[s.pendings[p].preimage] == PreimageOf(p))
    && (forall r :: 0 <= r < |s.requests| ==> s.history.owner[s.requests[r].message] == MessageOf(r))
    && (forall b :: 0 <= b < |s.buffers| ==>
          match s.history.owner[b]
          case Unowned => true
          case AppKeyOf(p) => p < |s.pendings| && s.pendings[p].appKey == b
          case WalletKeyOf(p) => p < |s.pendings| && s.pendings[p].walletKey == b
          case PreimageOf(p) => p < |s.pendings| && s.pendings[p].preimage == b
          case MessageOf(r) => r < |s.requests| && s.requests[r].message == b)
  }

  /** A secret whose record is live is intact; every other secret is zero. */
  ghost predicate Secrets(s: State)
    requires WellFormed(s)
  {
    forall b :: 0 <= b < |s.buffers| ==>
      if OwnerLive(s, s.history.owner[b]) then s.buffers[b] == s.history.initial[b] else IsZero(s.buffers[b])
  }

  /** A suspended approval of the current generation is the live record. */
  ghost predicate Approvals(s: State)
    requires WellFormed(s)
  {
    && (forall p :: p in s.approveCalls ==>
          && p !in s.history.promoted
          && (s.pendings[p].generation == s.generation ==> s.history.live == AuthorizingLive(p))
          && (s.pendings[p].generation == s.generation && s.approveCalls[p].stage == Signing ==>
                s.approveCalls[p].message == s.history.initial[s.pendings[p].preimage]))
    && (forall p :: p in s.history.promoted ==> p < |s.pendings|)
    && (forall p :: 0 <= p < |s.pendings| ==> s.pendings[p].generation <= s.generation)
  }

  ghost predicate NeverSigned(s: State, r: nat) {
    forall i :: 0 <= i < |s.history.signed| ==> s.history.signed[i].request != r
  }

  predicate Answers(frame: Released, r: nat) { frame.ResultFrame? && frame.answers == Some(r) }

  /** No released frame answers this request. */
  ghost predicate Unanswered(released: seq<seq<Released>>, r: nat) {
    forall a, i :: 0 <= a < |released| && 0 <= i < |released[a]| ==> !Answers(released[a][i], r)
  }

  /** Frames answer stored requests, and no two frames of any sessions answer the same one. */
  ghost predicate AnsweredOnce(released: seq<seq<Released>>, requests: nat) {
    && (forall r: nat, a, i :: 0 <= a < |released| && 0 <= i < |released[a]| && Answers(released[a][i], r) ==>
          r < requests)
    && forall r: nat, a, i, b, j :: 0 <= a < |released| && 0 <= i < |released[a]| && Answers(released[a][i], r) ==>
         0 <= b < |released| && 0 <= j < |released[b]| && Answers(released[b][j], r) ==> a == b && i == j
  }

  /** Request slots; `busy` is a request being answered without a suspended call. */
  ghost predicate Slots(s: State, busy: Option<nat>)
    requires WellFormed(s)
  {
    forall a :: 0 <= a < |s.actives| && s.actives[a].slot.Slot? ==>
      var r := s.actives[a].slot.request;
      && s.history.live == SessionLive(a)
      && Unanswered(s.history.released, r)
      && (s.actives[a].slot.phase == AwaitingConfirmation ==> r !in s.signCalls && NeverSigned(s, r))
      && (s.actives[a].slot.phase == Executing ==>
            (r in s.signCalls && s.signCalls[r].session == a) || busy == Some(r))
  }

  /** What was shown to the user: the whole message, or the hash in the reviewed transaction. */
  ghost predicate IsReviewed(s: State, r: nat, message: seq<Byte>)
    requires WellFormed(s)
  {
    && r < |s.requests|
    && match s.requests[r].requestType
       case SignRaw => message == s.history.initial[s.requests[r].message]
       case SignTx => s.requests[r].review.Some? && Hex(message) == s.requests[r].review.value.payloadHashHex
  }

  /** The user was shown the request as it was received. */
  ghost predicate WasShown(s: State, r: nat, shown: Confirmation)
    requires WellFormed(s)
  {
    r < |s.requests| && shown == ConfirmationOf(s.requests[r], s.history.initial[s.requests[r].message])
  }

  ghost predicate SignCalls(s: State)
    requires WellFormed(s)
  {
    forall r :: r in s.signCalls ==>
      var c := s.signCalls[r];
      && Unanswered(s.history.released, r) && WasShown(s, r, c.shown)
      && (c.stage != Signing ==> NeverSigned(s, r))
      && (c.stage != Authorizing ==> r in s.history.authorized)
      && (c.stage == Signing ==> exists i :: 0 <= i < |s.history.signed| && s.history.signed[i].request == r
                                             && s.history.signed[i].message == c.message)
      && (s.history.live == SessionLive(c.session) ==> s.actives[c.session].slot == Slot(Executing, r))
  }

  /**
   Every call of `sign` had what the user reviewed, was authorised, and no request
   was signed twice.
   */
  ghost predicate SignLog(s: State)
    requires WellFormed(s)
  {
    && (forall i :: 0 <= i < |s.history.signed| ==>
          var e := s.history.signed[i];
          IsReviewed(s, e.request, e.message) && WasShown(s, e.request, e.shown) && e.request in s.history.authorized)
    && (forall i, j :: 0 <= i < j < |s.history.signed| ==> s.history.signed[i].request != s.history.signed[j].request)
  }

  ghost predicate Numbered(frames: seq<Released>, next: nat) {
    next == |frames| + 1 && forall i :: 0 <= i < |frames| ==> frames[i].sequence == i + 1
  }

  ghost predicate Consecutive(numbers: seq<int>, first: int, next: int) {
    next == first + |numbers| && forall i :: 0 <= i < |numbers| ==> numbers[i] == first + i
  }

  /**
   Wallet frames 1, 2, 3, ..., accepted app frames 2, 3, ..., server events 1, 2, ...
   in every session, and at most one result frame for every request.
   */
  ghost predicate Sequences(s: State)
    requires WellFormed(s)
  {
    && (forall a :: 0 <= a < |s.actives| ==>
          && Numbered(s.history.released[a], s.actives[a].nextWalletSequence)
          && Consecutive(s.history.acceptedApp[a], 2, s.actives[a].nextAppSequence)
          && Consecutive(s.history.acceptedServer[a], 1, s.actives[a].nextServerSequence))
    && AnsweredOnce(s.history.released, |s.requests|)
  }

  /** The live record, the buffers' owners and the suspended approvals. */
  ghost predicate Records(s: State) {
    WellFormed(s) && OneLive(s) && Current(s) && Owners(s) && Approvals(s)
  }

  ghost predicate InvBut(s: State, busy: Option<nat>) {
    && Records(s) && Secrets(s) && Slots(s, busy) && SignCalls(s) && SignLog(s) && Sequences(s)
  }

  ghost predicate Inv(s: State) { InvBut(s, None) }

  lemma InvWellFormed(s: State)
    requires Inv(s)
    ensures WellFormed(s)
  {
    hide WellFormed, OneLive, Current, Owners, Approvals, Secrets, Slots, SignCalls, SignLog, Sequences;
  }

  lemma CallInRange(s: State, r: nat)
    requires WellFormed(s) && r in s.signCalls
    ensures r < |s.requests| && s.signCalls[r].session < |s.actives|
  {
  }

  lemma InitialInv()
    ensures Inv(INITIAL)
  {
  }

  // ---------------------------------------------------------------- framing

  ghost predicate SameIdentity(a: Session, b: Session) {
    && a.token == b.token && a.contextKey == b.contextKey
    && a.appKey == b.appKey && a.walletKey == b.walletKey
  }

  ghost predicate SameCounters(a: Session, b: Session) {
    && a.nextAppSequence == b.nextAppSequence && a.nextServerSequence == b.nextServerSequence
    && a.nextWalletSequence == b.nextWalletSequence
  }

  /** Steps on a session's counters and slot leave the live record as it was. */
  lemma RecordsFrame(s: State, t: State)
    requires Records(s) && WellFormed(t)
    requires t.contextKey == s.contextKey && t.generation == s.generation && t.pendings == s.pendings
    requires t.pendingSessions == s.pendingSessions && t.authorizing == s.authorizing && t.sessions == s.sessions
    requires t.approveCalls == s.approveCalls && t.requests == s.requests && |t.buffers| == |s.buffers|
    requires t.history.live == s.history.live && t.history.owner == s.history.owner
    requires t.history.initial == s.history.initial
    requires t.history.promoted == s.history.promoted && t.history.origin == s.history.origin
    requires |t.actives| == |s.actives| && forall a :: 0 <= a < |s.actives| ==> SameIdentity(s.actives[a], t.actives[a])
    ensures Records(t)
  {
    hide WellFormed;
    if s.history.live.SessionLive? {
      assert SameIdentity(s.actives[s.history.live.session], t.actives[s.history.live.session]);
    }
  }

  lemma OwnersFrame(s: State, t: State)
    requires WellFormed(s) && WellFormed(t) && Owners(s)
    requires t.pendings == s.pendings && t.requests == s.requests
    requires |t.buffers| == |s.buffers| && t.history.owner == s.history.owner
    ensures Owners(t)
  {
    hide WellFormed;
  }

  lemma RequestFrame(s: State, t: State, r: nat)
    requires WellFormed(s) && WellFormed(t) && r < |s.requests|
    requires s.requests <= t.requests && s.history.initial <= t.history.initial
    ensures t.requests[r] == s.requests[r]
    ensures t.history.initial[t.requests[r].message] == s.history.initial[s.requests[r].message]
  {
  }

  /** Signatures stay reviewed when requests and buffers are only added. */
  lemma LogFrame(s: State, t: State)
    requires WellFormed(s) && WellFormed(t) && SignLog(s)
    requires s.requests <= t.requests && s.history.initial <= t.history.initial
    requires t.history.signed == s.history.signed && s.history.authorized <= t.history.authorized
    ensures SignLog(t)
  {
    hide ConfirmationOf, WellFormed;
    forall i | 0 <= i < |s.history.signed|
      ensures var e := s.history.signed[i]; IsReviewed(t, e.request, e.message) && WasShown(t, e.request, e.shown)
    {
      RequestFrame(s, t, s.history.signed[i].request);
    }
  }

  /** Suspended signing calls stay right when requests and buffers are only added. */
  lemma CallsFrame(s: State, t: State)
    requires WellFormed(s) && WellFormed(t) && SignCalls(s)
    requires s.requests <= t.requests && s.history.initial <= t.history.initial && t.signCalls == s.signCalls
    requires t.history.signed == s.history.signed && s.history.authorized <= t.history.authorized
    requires forall r :: r in s.signCalls ==> Unanswered(t.history.released, r)
    requires forall r :: r in s.signCalls && t.history.live == SessionLive(s.signCalls[r].session) ==>
      t.actives[s.signCalls[r].session].slot == Slot(Executing, r)
    ensures SignCalls(t)
  {
    hide ConfirmationOf, WellFormed;
    forall r | r in s.signCalls
      ensures WasShown(t, r, s.signCalls[r].shown)
    {
      RequestFrame(s, t, r);
    }
  }

  /** No request with a suspended call was answered. */
  lemma AnsweredNone(s: State)
    requires WellFormed(s) && SignCalls(s)
    ensures forall r :: r in s.signCalls ==> Unanswered(s.history.released, r)
  {
  }

  lemma SequencesFrame(s: State, t: State)
    requires WellFormed(s) && Sequences(s) && WellFormed(t)
    requires t.history.released == s.history.released
    requires t.history.acceptedApp == s.history.acceptedApp && t.history.acceptedServer == s.history.acceptedServer
    requires |t.actives| == |s.actives| && forall a :: 0 <= a < |s.actives| ==> SameCounters(s.actives[a], t.actives[a])
    requires |s.requests| <= |t.requests|
    ensures Sequences(t)
  {
    hide Numbered, Consecutive;
    forall a | 0 <= a < |t.actives|
      ensures Numbered(t.history.released[a], t.actives[a].nextWalletSequence)
      ensures Consecutive(t.history.acceptedApp[a], 2, t.actives[a].nextAppSequence)
      ensures Consecutive(t.history.acceptedServer[a], 1, t.actives[a].nextServerSequence)
    {
      assert SameCounters(s.actives[a], t.actives[a]);
    }
  }

  /** Steps that release nothing, answer nothing and sign nothing leave the history as it was. */
  lemma HistoryFrame(s: State, t: State)
    requires WellFormed(s) && SignLog(s) && Sequences(s) && WellFormed(t)
    requires t.requests == s.requests && t.history.signed == s.history.signed
    requires t.history.initial == s.history.initial && s.history.authorized <= t.history.authorized
    requires t.history.released == s.history.released
    requires t.history.acceptedApp == s.history.acceptedApp && t.history.acceptedServer == s.history.acceptedServer
    requires |t.actives| == |s.actives| && forall a :: 0 <= a < |s.actives| ==> SameCounters(s.actives[a], t.actives[a])
    ensures SignLog(t) && Sequences(t)
  {
    hide SignLog, Sequences, WellFormed;
    LogFrame(s, t);
    SequencesFrame(s, t);
  }

  ghost predicate SameRequest(a: RequestSlot, b: RequestSlot) {
    a.Slot? == b.Slot? && (a.Slot? ==> a.request == b.request)
  }

  /** Secrets stay right when neither the buffers nor the live record change. */
  lemma SecretsFrame(s: State, t: State)
    requires WellFormed(s) && Secrets(s) && WellFormed(t)
    requires t.buffers == s.buffers && t.history.owner == s.history.owner && t.history.initial == s.history.initial
    requires t.history.live == s.history.live && t.history.origin == s.history.origin && |t.actives| == |s.actives|
    requires forall a :: 0 <= a < |s.actives| ==> SameRequest(s.actives[a].slot, t.actives[a].slot)
    ensures Secrets(t)
  {
    forall b | 0 <= b < |s.buffers| ensures OwnerLive(t, s.history.owner[b]) <==> OwnerLive(s, s.history.owner[b]) {
      if s.history.live.SessionLive? && s.history.live.session < |s.actives| {
        assert SameRequest(s.actives[s.history.live.session].slot, t.actives[s.history.live.session].slot);
      }
    }
  }

  // ---------------------------------------------------------------- erasing

  /** Erasing exactly the secrets whose record stops being live keeps the rest intact. */
  lemma ErasingKeepsSecrets(s: State, t: State, which: set<nat>)
    requires WellFormed(s) && WellFormed(t) && Secrets(s)
    requires t.history.owner == s.history.owner && t.history.initial == s.history.initial
    requires t.buffers == EraseAll(s.buffers, which)
    requires forall b :: 0 <= b < |s.buffers| ==>
      (OwnerLive(t, s.history.owner[b]) <==> OwnerLive(s, s.history.owner[b]) && b !in which)
    ensures Secrets(t)
  {
    forall b | 0 <= b < |t.buffers|
      ensures if OwnerLive(t, t.history.owner[b]) then t.buffers[b] == t.history.initial[b] else IsZero(t.buffers[b])
    {
      assert OwnerLive(t, s.history.owner[b]) <==> OwnerLive(s, s.history.owner[b]) && b !in which;
    }
  }

  ghost function Dispose(s: State, key: string): State
    requires WellFormed(s)
  {
    DisposeAll(s).(generation := s.generation + 1, contextKey := key)
  }

  lemma DisposeWellFormed(s: State, key: string)
    requires WellFormed(s)
    ensures WellFormed(Dispose(s, key))
  {
  }

  lemma DisposeRecords(s: State, key: string)
    requires Inv(s)
    ensures Records(Dispose(s, key))
  {
    hide WellFormed, Owners, Secrets, Slots, SignCalls, SignLog, Sequences, EraseAll, ClearSlots, DisposedBuffers;
    DisposeWellFormed(s, key);
    OwnersFrame(s, Dispose(s, key));
  }

  /** `#disposeAll` reaches every live secret. */
  lemma LiveIsDisposed(s: State, b: nat)
    requires Inv(s) && b < |s.buffers| && OwnerLive(s, s.history.owner[b])
    ensures b in DisposedBuffers(s)
  {
    hide Secrets, Approvals, Slots, SignCalls, SignLog, Sequences;
    match s.history.live
    case NoneLive =>
    case PendingLive(p) =>
      assert s.pendings[p].token in s.pendingSessions && b in PendingBuffers(s.pendings[p]);
    case AuthorizingLive(p) =>
      assert s.pendings[p].token in s.authorizing && b in PendingBuffers(s.pendings[p]);
    case SessionLive(a) =>
      assert s.actives[a].token in s.sessions;
      assert b in SessionBuffers(s.requests, s.actives[a]);
  }

  lemma DisposeSecrets(s: State, key: string)
    requires Inv(s)
    requires WellFormed(Dispose(s, key)) && OneLive(Dispose(s, key))
    ensures Secrets(Dispose(s, key))
  {
    hide Owners, Approvals, Slots, SignCalls, SignLog, Sequences, DisposedBuffers, ClearSlots, Current;
    var t := Dispose(s, key);
    forall b | 0 <= b < |t.buffers| ensures IsZero(t.buffers[b]) {
      if OwnerLive(s, s.history.owner[b]) {
        LiveIsDisposed(s, b);
      } else {
        assert IsZero(s.buffers[b]);
      }
    }
  }

  lemma DisposeRequests(s: State, key: string)
    requires Inv(s) && WellFormed(Dispose(s, key))
    ensures var t := Dispose(s, key); Slots(t, None) && SignCalls(t)
  {
    hide Owners, Approvals, Secrets, SignLog, Sequences, EraseAll, DisposedBuffers, Current, WellFormed;
    var t := Dispose(s, key);
    forall a | 0 <= a < |t.actives| ensures t.actives[a].slot.Empty? {
      if s.actives[a].slot.Slot? {
        assert s.history.live == SessionLive(a);
        assert s.actives[a].token in s.sessions && a in s.sessions.Values;
      }
    }
  }

  lemma DisposeKeeps(s: State, key: string)
    requires Inv(s)
    ensures Inv(Dispose(s, key))
  {
    hide Owners, Approvals, Secrets, Slots, SignCalls, SignLog, Sequences;
    DisposeRecords(s, key);
    DisposeSecrets(s, key);
    DisposeRequests(s, key);
    HistoryFrame(s, Dispose(s, key));
  }

  // ---------------------------------------------------------------- closing a session

  lemma CloseWellFormed(s: State, token: string)
    requires WellFormed(s)
    ensures WellFormed(CloseSession(s, token))
  {
  }

  lemma CloseRecords(s: State, token: string)
    requires Records(s)
    ensures Records(CloseSession(s, token))
  {
    hide WellFormed, Owners, EraseAll, SessionBuffers;
    CloseWellFormed(s, token);
    OwnersFrame(s, CloseSession(s, token));
    if IsBoundaryToken(token) && token in s.sessions {
      assert s.history.live == SessionLive(s.sessions[token]);
      assert CloseSession(s, token).sessions == map[];
    }
  }

  lemma CloseSecrets(s: State, token: string)
    requires Inv(s) && Records(CloseSession(s, token))
    ensures Secrets(CloseSession(s, token))
  {
    hide WellFormed, SignCalls;
  }

  lemma CloseRequests(s: State, token: string)
    requires Inv(s) && WellFormed(CloseSession(s, token))
    ensures var t := CloseSession(s, token); Slots(t, None) && SignCalls(t)
  {
    hide WellFormed, Sequences;
  }

  lemma CloseKeeps(s: State, token: string)
    requires Inv(s)
    ensures Inv(CloseSession(s, token))
  {
    hide Owners, Approvals, Secrets, Slots, SignCalls, SignLog, Sequences, WellFormed;
    CloseRecords(s, token);
    CloseSecrets(s, token);
    CloseRequests(s, token);
    HistoryFrame(s, CloseSession(s, token));
  }

  // ---------------------------------------------------------------- releasing and accepting frames

  lemma ReleaseWellFormed(s: State, a: nat, frame: Released)
    requires WellFormed(s) && a < |s.actives|
    ensures WellFormed(Release(s, a, frame))
  {
  }

  /** Some slot or suspended call still refers to the request. */
  ghost predicate Unfinished(s: State, r: nat) {
    r in s.signCalls || exists a :: 0 <= a < |s.actives| && s.actives[a].slot.Slot? && s.actives[a].slot.request == r
  }

  /** Moving a session's counters does not touch secrets, slots or signatures. */
  lemma CountersFrame(s: State, t: State, busy: Option<nat>)
    requires InvBut(s, busy) && WellFormed(t)
    requires |t.actives| == |s.actives|
    requires forall a :: 0 <= a < |s.actives| ==>
      SameIdentity(s.actives[a], t.actives[a]) && t.actives[a].slot == s.actives[a].slot
    requires t == s.(actives := t.actives,
                     history := s.history.(released := t.history.released, acceptedApp := t.history.acceptedApp,
                                           acceptedServer := t.history.acceptedServer))
    requires forall r :: Unfinished(s, r) && Unanswered(s.history.released, r) ==> Unanswered(t.history.released, r)
    ensures Records(t) && Secrets(t) && Slots(t, busy) && SignCalls(t) && SignLog(t)
  {
    hide WellFormed, Current, Owners, Approvals, Unanswered;
    RecordsFrame(s, t);
    SecretsFrame(s, t);
  }

  lemma StillUnanswered(released: seq<seq<Released>>, a: nat, frame: Released, r: nat)
    requires a < |released| && Unanswered(released, r) && !Answers(frame, r)
    ensures Unanswered(released[a := released[a] + [frame]], r)
  {
  }

  lemma AnsweredOnceMore(released: seq<seq<Released>>, a: nat, frame: Released, requests: nat)
    requires a < |released| && AnsweredOnce(released, requests)
    requires forall r: nat :: Answers(frame, r) ==> r < requests && Unanswered(released, r)
    ensures AnsweredOnce(released[a := released[a] + [frame]], requests)
  {
    hide Answers;
  }

  /** The frame answers no request, or one that is neither pending nor answered. */
  ghost predicate MayRelease(s: State, frame: Released) {
    forall r: nat :: Answers(frame, r) ==> r < |s.requests| && Unanswered(s.history.released, r) && !Unfinished(s, r)
  }

  lemma ReleaseSequences(s: State, a: nat, frame: Released)
    requires WellFormed(s) && Sequences(s) && a < |s.actives| && MayRelease(s, frame)
    requires frame.sequence == s.actives[a].nextWalletSequence
    requires WellFormed(Release(s, a, frame))
    ensures Sequences(Release(s, a, frame))
  {
    hide AnsweredOnce;
    AnsweredOnceMore(s.history.released, a, frame, |s.requests|);
  }

  lemma ReleaseKeeps(s: State, a: nat, frame: Released, busy: Option<nat>)
    requires InvBut(s, busy) && a < |s.actives| && frame.sequence == s.actives[a].nextWalletSequence
    requires MayRelease(s, frame)
    ensures InvBut(Release(s, a, frame), busy)
  {
    hide Owners, Approvals, Secrets, Slots, SignCalls, SignLog, Sequences, Unfinished, Unanswered;
    ReleaseWellFormed(s, a, frame);
    forall r | Unfinished(s, r) && Unanswered(s.history.released, r)
      ensures Unanswered(Release(s, a, frame).history.released, r)
    {
      StillUnanswered(s.history.released, a, frame, r);
    }
    CountersFrame(s, Release(s, a, frame), busy);
    ReleaseSequences(s, a, frame);
  }

  lemma ServerEventSequences(s: State, a: nat)
    requires WellFormed(s) && Sequences(s) && a < |s.actives|
    ensures WellFormed(AcceptServerEvent(s, a)) && Sequences(AcceptServerEvent(s, a))
  {
  }

  lemma ServerEventKeeps(s: State, a: nat)
    requires Inv(s) && a < |s.actives|
    ensures Inv(AcceptServerEvent(s, a))
  {
    ServerEventSequences(s, a);
    CountersFrame(s, AcceptServerEvent(s, a), None);
  }

  lemma AppFrameSequences(s: State, a: nat)
    requires WellFormed(s) && Sequences(s) && a < |s.actives|
    ensures WellFormed(AcceptAppFrame(s, a)) && Sequences(AcceptAppFrame(s, a))
  {
  }

  lemma AppFrameKeeps(s: State, a: nat)
    requires Inv(s) && a < |s.actives|
    ensures Inv(AcceptAppFrame(s, a))
  {
    AppFrameSequences(s, a);
    CountersFrame(s, AcceptAppFrame(s, a), None);
  }

  // ---------------------------------------------------------------- preparing and approving a session

  lemma AllocateErasedWellFormed(s: State, secrets: seq<seq<Byte>>)
    requires WellFormed(s)
    ensures WellFormed(AllocateErased(s, secrets))
  {
  }

  lemma AllocateErasedOwners(s: State, secrets: seq<seq<Byte>>)
    requires WellFormed(s) && Owners(s) && WellFormed(AllocateErased(s, secrets))
    ensures Owners(AllocateErased(s, secrets))
  {
  }

  lemma AllocateErasedRecords(s: State, secrets: seq<seq<Byte>>)
    requires Records(s)
    ensures Records(AllocateErased(s, secrets))
  {
    hide WellFormed, Owners, Zeros;
    AllocateErasedWellFormed(s, secrets);
    AllocateErasedOwners(s, secrets);
  }

  lemma AllocateErasedSecrets(s: State, secrets: seq<seq<Byte>>)
    requires Inv(s) && Records(AllocateErased(s, secrets))
    ensures var t := AllocateErased(s, secrets); Secrets(t) && SignLog(t)
  {
    hide Current, Owners, Approvals;
  }

  lemma AllocateErasedKeeps(s: State, secrets: seq<seq<Byte>>)
    requires Inv(s)
    ensures Inv(AllocateErased(s, secrets))
  {
    AllocateErasedRecords(s, secrets);
    AllocateErasedSecrets(s, secrets);
  }

  ghost predicate Preparable(s: State, pending: Pending) {
    && SlotAvailable(s) && InContext(s, pending.contextKey) && pending.generation == s.generation
    && pending.appKey == |s.buffers| && pending.walletKey == |s.buffers| + 1 && pending.preimage == |s.buffers| + 2
  }

  lemma PrepareWellFormed(s: State, pending: Pending, keys: KeyMaterial, preimage: seq<Byte>)
    requires WellFormed(s) && Preparable(s, pending)
    ensures WellFormed(Prepare(s, pending, keys, preimage))
  {
  }

  lemma PrepareOwners(s: State, pending: Pending, keys: KeyMaterial, preimage: seq<Byte>)
    requires WellFormed(s) && Owners(s) && Preparable(s, pending) && WellFormed(Prepare(s, pending, keys, preimage))
    ensures Owners(Prepare(s, pending, keys, preimage))
  {
    hide SlotAvailable, InContext;
    var t, n := Prepare(s, pending, keys, preimage), |s.buffers|;
    assert forall b :: 0 <= b < n ==> t.history.owner[b] == s.history.owner[b];
    assert t.history.owner[n] == AppKeyOf(|s.pendings|) && t.history.owner[n + 1] == WalletKeyOf(|s.pendings|);
    assert t.history.owner[n + 2] == PreimageOf(|s.pendings|);
  }

  lemma PrepareCurrent(s: State, pending: Pending, keys: KeyMaterial, preimage: seq<Byte>)
    requires WellFormed(s) && OneLive(s) && Approvals(s) && Preparable(s, pending)
    requires WellFormed(Prepare(s, pending, keys, preimage))
    ensures var t := Prepare(s, pending, keys, preimage); OneLive(t) && Current(t) && Approvals(t)
  {
  }

  lemma PrepareRecords(s: State, pending: Pending, keys: KeyMaterial, preimage: seq<Byte>)
    requires Records(s) && Preparable(s, pending)
    ensures Records(Prepare(s, pending, keys, preimage))
  {
    hide WellFormed, OneLive, Current, Owners, Approvals;
    PrepareWellFormed(s, pending, keys, preimage);
    PrepareOwners(s, pending, keys, preimage);
    PrepareCurrent(s, pending, keys, preimage);
  }

  lemma PrepareSecrets(s: State, pending: Pending, keys: KeyMaterial, preimage: seq<Byte>)
    requires Inv(s) && Preparable(s, pending) && WellFormed(Prepare(s, pending, keys, preimage))
    ensures Secrets(Prepare(s, pending, keys, preimage))
  {
    hide Slots, Sequences, SignCalls, SignLog, Approvals;
  }

  lemma PrepareRequests(s: State, pending: Pending, keys: KeyMaterial, preimage: seq<Byte>)
    requires Inv(s) && Preparable(s, pending) && WellFormed(Prepare(s, pending, keys, preimage))
    ensures var t := Prepare(s, pending, keys, preimage); Slots(t, None) && SignCalls(t) && SignLog(t) && Sequences(t)
  {
    hide Current, Owners, Approvals, Secrets, SignCalls, SignLog, Sequences, ConfirmationOf;
    var t := Prepare(s, pending, keys, preimage);
    AnsweredNone(s);
    CallsFrame(s, t);
    LogFrame(s, t);
    SequencesFrame(s, t);
  }

  lemma PrepareKeeps(s: State, pending: Pending, keys: KeyMaterial, preimage: seq<Byte>)
    requires Inv(s) && Preparable(s, pending)
    ensures Inv(Prepare(s, pending, keys, preimage))
  {
    hide Owners, Approvals, Secrets, Slots, SignCalls, SignLog, Sequences;
    PrepareRecords(s, pending, keys, preimage);
    PrepareSecrets(s, pending, keys, preimage);
    PrepareRequests(s, pending, keys, preimage);
  }

  lemma AbandonWellFormed(s: State, p: nat)
    requires WellFormed(s) && p in s.approveCalls
    ensures WellFormed(AbandonApproval(s, p))
  {
  }

  lemma AbandonCurrent(s: State, p: nat)
    requires WellFormed(s) && OneLive(s) && Current(s) && p in s.approveCalls && WellFormed(AbandonApproval(s, p))
    ensures OneLive(AbandonApproval(s, p)) && Current(AbandonApproval(s, p))
  {
    hide WellFormed;
  }

  lemma AbandonApprovals(s: State, p: nat)
    requires WellFormed(s) && OneLive(s) && Owners(s) && Approvals(s) && p in s.approveCalls
    requires WellFormed(AbandonApproval(s, p))
    ensures Owners(AbandonApproval(s, p)) && Approvals(AbandonApproval(s, p))
  {
  }

  lemma AbandonRecords(s: State, p: nat)
    requires Records(s) && p in s.approveCalls
    ensures Records(AbandonApproval(s, p))
  {
    AbandonWellFormed(s, p);
    AbandonCurrent(s, p);
    AbandonApprovals(s, p);
  }

  lemma PendingOwners(s: State, p: nat, b: nat)
    requires WellFormed(s) && Owners(s) && p < |s.pendings| && b < |s.buffers|
    ensures b in PendingBuffers(s.pendings[p]) <==>
      || s.history.owner[b] == AppKeyOf(p)
      || s.history.owner[b] == WalletKeyOf(p)
      || s.history.owner[b] == PreimageOf(p)
  {
  }

  lemma AbandonLive(s: State, p: nat)
    requires Records(s) && p in s.approveCalls
    ensures AbandonApproval(s, p).history.live ==
      if s.history.live == AuthorizingLive(p) then NoneLive else s.history.live
    ensures s.history.live != PendingLive(p)
    ensures s.history.live.SessionLive? ==> s.history.origin[s.history.live.session] != p
  {
  }

  lemma SameOwners(s: State, t: State, owner: Owner)
    requires WellFormed(s) && WellFormed(t)
    requires t.history.live == s.history.live && t.history.origin == s.history.origin && t.actives == s.actives
    ensures OwnerLive(t, owner) <==> OwnerLive(s, owner)
  {
  }

  lemma NotItsOwner(s: State, p: nat, owner: Owner)
    requires WellFormed(s) && s.history.live != AuthorizingLive(p) && s.history.live != PendingLive(p)
    requires s.history.live.SessionLive? && s.history.live.session < |s.actives| ==>
      s.history.origin[s.history.live.session] != p
    requires owner == AppKeyOf(p) || owner == WalletKeyOf(p) || owner == PreimageOf(p)
    ensures !OwnerLive(s, owner)
  {
  }

  /** Erasing an abandoned approval takes nothing from a record that stays live. */
  lemma AbandonErases(s: State, p: nat, b: nat)
    requires Records(s) && p in s.approveCalls && b < |s.buffers|
    requires WellFormed(AbandonApproval(s, p))
    ensures OwnerLive(AbandonApproval(s, p), s.history.owner[b])
            <==> OwnerLive(s, s.history.owner[b]) && b !in PendingBuffers(s.pendings[p])
  {
    PendingOwners(s, p, b);
    AbandonLive(s, p);
    if s.history.live != AuthorizingLive(p) {
      SameOwners(s, AbandonApproval(s, p), s.history.owner[b]);
      if b in PendingBuffers(s.pendings[p]) {
        NotItsOwner(s, p, s.history.owner[b]);
      }
    }
  }

  lemma AbandonSecrets(s: State, p: nat)
    requires Records(s) && Secrets(s) && p in s.approveCalls && WellFormed(AbandonApproval(s, p))
    ensures Secrets(AbandonApproval(s, p))
  {
    hide OneLive, Owners, Approvals, Current, OwnerLive;
    var t := AbandonApproval(s, p);
    forall b | 0 <= b < |s.buffers|
      ensures OwnerLive(t, s.history.owner[b])
        <==> OwnerLive(s, s.history.owner[b]) && b !in PendingBuffers(s.pendings[p])
    {
      AbandonErases(s, p, b);
    }
    ErasingKeepsSecrets(s, t, PendingBuffers(s.pendings[p]));
  }

  lemma AbandonRequests(s: State, p: nat)
    requires Records(s) && Slots(s, None) && SignCalls(s) && p in s.approveCalls && WellFormed(AbandonApproval(s, p))
    ensures var t := AbandonApproval(s, p); Slots(t, None) && SignCalls(t)
  {
    hide Records, PendingBuffers;
    AbandonLive(s, p);
  }

  lemma AbandonKeeps(s: State, p: nat)
    requires Inv(s) && p in s.approveCalls
    ensures Inv(AbandonApproval(s, p))
  {
    hide Owners, Approvals, Secrets, Slots, SignCalls, SignLog, Sequences;
    AbandonRecords(s, p);
    AbandonSecrets(s, p);
    AbandonRequests(s, p);
    HistoryFrame(s, AbandonApproval(s, p));
  }

  lemma TakeWellFormed(s: State, p: nat)
    requires WellFormed(s) && p < |s.pendings|
    ensures WellFormed(Take(s, p))
  {
  }

  lemma TakeRecords(s: State, p: nat)
    requires Records(s) && s.history.live == PendingLive(p)
    ensures Records(Take(s, p))
  {
    hide WellFormed, Owners;
    TakeWellFormed(s, p);
    OwnersFrame(s, Take(s, p));
  }

  lemma TakeSecrets(s: State, p: nat)
    requires WellFormed(s) && Secrets(s) && s.history.live == PendingLive(p) && p < |s.pendings|
    requires WellFormed(Take(s, p))
    ensures Secrets(Take(s, p))
  {
    hide WellFormed;
  }

  lemma TakeRequests(s: State, p: nat)
    requires WellFormed(s) && Slots(s, None) && SignCalls(s) && s.history.live == PendingLive(p) && p < |s.pendings|
    requires WellFormed(Take(s, p))
    ensures Slots(Take(s, p), None) && SignCalls(Take(s, p))
  {
    hide WellFormed, SignCalls, ConfirmationOf;
    AnsweredNone(s);
    CallsFrame(s, Take(s, p));
  }

  lemma TakeKeeps(s: State, p: nat)
    requires Inv(s) && s.history.live == PendingLive(p)
    ensures Inv(Take(s, p))
  {
    hide WellFormed, Current, Owners, Approvals, Secrets, Slots, SignCalls, SignLog, Sequences;
    TakeRecords(s, p);
    TakeSecrets(s, p);
    TakeRequests(s, p);
    HistoryFrame(s, Take(s, p));
  }

  lemma StageWellFormed(s: State, p: nat, call: ApproveCall)
    requires WellFormed(s) && p in s.approveCalls
    ensures WellFormed(SetStage(s, p, call))
  {
  }

  lemma StageApprovals(s: State, p: nat, call: ApproveCall)
    requires WellFormed(s) && Approvals(s) && p in s.approveCalls && WellFormed(SetStage(s, p, call))
    requires s.pendings[p].generation == s.generation && call.stage == Signing ==>
      call.message == s.history.initial[s.pendings[p].preimage]
    ensures Approvals(SetStage(s, p, call))
  {
  }

  lemma StageRecords(s: State, p: nat, call: ApproveCall)
    requires Records(s) && p in s.approveCalls
    requires s.pendings[p].generation == s.generation && call.stage == Signing ==>
      call.message == s.history.initial[s.pendings[p].preimage]
    ensures Records(SetStage(s, p, call))
  {
    hide WellFormed, Owners, Approvals;
    StageWellFormed(s, p, call);
    StageApprovals(s, p, call);
    OwnersFrame(s, SetStage(s, p, call));
  }

  lemma StageKeeps(s: State, p: nat, call: ApproveCall)
    requires Inv(s) && p in s.approveCalls
    requires s.pendings[p].generation == s.generation && call.stage == Signing ==>
      call.message == s.history.initial[s.pendings[p].preimage]
    ensures Inv(SetStage(s, p, call))
  {
    hide WellFormed, OneLive, Current, Owners, Approvals, Secrets, SignLog, Sequences, ConfirmationOf;
    var t := SetStage(s, p, call);
    StageRecords(s, p, call);
    SecretsFrame(s, t);
    CallsFrame(s, t);
    HistoryFrame(s, t);
  }

  /** While its generation is current, the preimage of a suspended approval is as it was built. */
  lemma PreimageIntact(s: State, p: nat)
    requires Inv(s) && p in s.approveCalls && s.pendings[p].generation == s.generation
    ensures s.buffers[s.pendings[p].preimage] == s.history.initial[s.pendings[p].preimage]
  {
    hide Slots, SignCalls, SignLog, Sequences;
    assert s.history.owner[s.pendings[p].preimage] == PreimageOf(p);
  }

  lemma PromoteWellFormed(s: State, p: nat, token: string, verified: Context, frame: seq<Byte>)
    requires WellFormed(s) && p < |s.pendings|
    ensures WellFormed(Promote(s, p, token, verified, frame))
  {
  }

  lemma PromoteRecords(s: State, p: nat, token: string, verified: Context, frame: seq<Byte>)
    requires Records(s) && p in s.approveCalls && s.pendings[p].generation == s.generation
    ensures Records(Promote(s, p, token, verified, frame))
  {
    hide EraseAll, WellFormed, IsZero;
    PromoteWellFormed(s, p, token, verified, frame);
    assert s.history.live == AuthorizingLive(p);
    assert Promote(s, p, token, verified, frame).sessions == map[token := |s.actives|];
  }

  lemma PreimageOwner(s: State, p: nat, b: nat)
    requires WellFormed(s) && Owners(s) && p < |s.pendings| && b < |s.buffers|
    ensures b == s.pendings[p].preimage <==> s.history.owner[b] == PreimageOf(p)
  {
    hide WellFormed;
  }

  lemma PromoteErases(s: State, p: nat, token: string, verified: Context, frame: seq<Byte>, b: nat)
    requires Records(s) && p in s.approveCalls && s.pendings[p].generation == s.generation && b < |s.buffers|
    requires WellFormed(Promote(s, p, token, verified, frame))
    ensures OwnerLive(Promote(s, p, token, verified, frame), s.history.owner[b])
            <==> OwnerLive(s, s.history.owner[b]) && b !in {s.pendings[p].preimage}
  {
    hide EraseAll, EndAuthorizing, OneLive, Owners, Current;
    PendingOwners(s, p, b);
    PreimageOwner(s, p, b);
  }

  lemma PromoteSlots(s: State, p: nat, token: string, verified: Context, frame: seq<Byte>)
    requires Inv(s) && p in s.approveCalls && s.pendings[p].generation == s.generation
    requires WellFormed(Promote(s, p, token, verified, frame))
    ensures Slots(Promote(s, p, token, verified, frame), None)
  {
    hide Owners, Secrets, SignCalls, SignLog, Sequences;
    var t := Promote(s, p, token, verified, frame);
    forall b | 0 <= b < |t.actives| ensures t.actives[b].slot.Empty? {
      if b < |s.actives| {
        assert t.actives[b] == s.actives[b];
      }
    }
  }

  /** An approval frame answers no request. */
  lemma ApprovalAnswersNothing(released: seq<seq<Released>>, frame: seq<Byte>, requests: nat)
    ensures forall r :: Unanswered(released, r) ==> Unanswered(released + [[ApprovalFrame(1, frame)]], r)
    ensures AnsweredOnce(released, requests) ==> AnsweredOnce(released + [[ApprovalFrame(1, frame)]], requests)
  {
    var all := released + [[ApprovalFrame(1, frame)]];
    assert forall a, i, r :: 0 <= a < |all| && 0 <= i < |all[a]| && Answers(all[a][i], r) ==> a < |released|;
    assert forall a :: 0 <= a < |released| ==> all[a] == released[a];
  }

  lemma PromoteSignCalls(s: State, p: nat, token: string, verified: Context, frame: seq<Byte>)
    requires WellFormed(s) && SignCalls(s) && SignLog(s) && p < |s.pendings|
    requires WellFormed(Promote(s, p, token, verified, frame))
    ensures var t := Promote(s, p, token, verified, frame); SignCalls(t) && SignLog(t)
  {
    hide SignCalls, SignLog, Unanswered, EraseAll, EndAuthorizing, NewSession;
    var t := Promote(s, p, token, verified, frame);
    AnsweredNone(s);
    ApprovalAnswersNothing(s.history.released, frame, |s.requests|);
    CallsFrame(s, t);
    LogFrame(s, t);
  }

  lemma PromoteSequences(s: State, p: nat, token: string, verified: Context, frame: seq<Byte>)
    requires WellFormed(s) && Sequences(s) && p < |s.pendings|
    requires WellFormed(Promote(s, p, token, verified, frame))
    ensures Sequences(Promote(s, p, token, verified, frame))
  {
    hide AnsweredOnce, Unanswered, EraseAll, EndAuthorizing;
    var t := Promote(s, p, token, verified, frame);
    ApprovalAnswersNothing(s.history.released, frame, |s.requests|);
    forall b | 0 <= b < |t.actives|
      ensures Numbered(t.history.released[b], t.actives[b].nextWalletSequence)
      ensures Consecutive(t.history.acceptedApp[b], 2, t.actives[b].nextAppSequence)
      ensures Consecutive(t.history.acceptedServer[b], 1, t.actives[b].nextServerSequence)
    {
      if b < |s.actives| {
        assert t.actives[b] == s.actives[b] && t.history.released[b] == s.history.released[b];
      }
    }
  }

  lemma PromoteKeeps(s: State, p: nat, token: string, verified: Context, frame: seq<Byte>)
    requires Inv(s) && p in s.approveCalls && s.pendings[p].generation == s.generation
    ensures Inv(Promote(s, p, token, verified, frame))
  {
    hide Owners, Approvals, Secrets, Slots, SignCalls, SignLog, Sequences;
    var t := Promote(s, p, token, verified, frame);
    PromoteRecords(s, p, token, verified, frame);
    forall b | 0 <= b < |s.buffers|
      ensures OwnerLive(t, s.history.owner[b]) <==> OwnerLive(s, s.history.owner[b]) && b !in {s.pendings[p].preimage}
    {
      PromoteErases(s, p, token, verified, frame, b);
    }
    ErasingKeepsSecrets(s, t, {s.pendings[p].preimage});
    PromoteSlots(s, p, token, verified, frame);
    PromoteSignCalls(s, p, token, verified, frame);
    PromoteSequences(s, p, token, verified, frame);
  }

  // ---------------------------------------------------------------- requests

  ghost predicate Storable(s: State, a: nat, request: Request) {
    a < |s.actives| && s.history.live == SessionLive(a) && s.actives[a].slot.Empty? && request.message == |s.buffers|
  }

  lemma StoreWellFormed(s: State, a: nat, request: Request, bytes: seq<Byte>)
    requires WellFormed(s) && Storable(s, a, request)
    ensures WellFormed(StoreRequest(s, a, request, bytes))
  {
  }

  lemma StoreOwners(s: State, a: nat, request: Request, bytes: seq<Byte>)
    requires WellFormed(s) && Owners(s) && Storable(s, a, request) && WellFormed(StoreRequest(s, a, request, bytes))
    ensures Owners(StoreRequest(s, a, request, bytes))
  {
  }

  lemma StoreRecords(s: State, a: nat, request: Request, bytes: seq<Byte>)
    requires Records(s) && Storable(s, a, request)
    ensures Records(StoreRequest(s, a, request, bytes))
  {
    hide Owners;
    StoreWellFormed(s, a, request, bytes);
    StoreOwners(s, a, request, bytes);
  }

  lemma StoreSecrets(s: State, a: nat, request: Request, bytes: seq<Byte>)
    requires Inv(s) && Storable(s, a, request) && WellFormed(StoreRequest(s, a, request, bytes))
    ensures Secrets(StoreRequest(s, a, request, bytes))
  {
  }

  /** No frame answers a request that is yet to come. */
  lemma NewIsUnanswered(released: seq<seq<Released>>, requests: nat)
    requires AnsweredOnce(released, requests)
    ensures Unanswered(released, requests)
  {
    hide Answers;
  }

  lemma StoreSlots(s: State, a: nat, request: Request, bytes: seq<Byte>)
    requires WellFormed(s) && Slots(s, None) && SignCalls(s) && SignLog(s) && Sequences(s) && Storable(s, a, request)
    requires WellFormed(StoreRequest(s, a, request, bytes))
    ensures Slots(StoreRequest(s, a, request, bytes), None)
  {
    hide ConfirmationOf, WasShown, AnsweredOnce, Unanswered, Numbered, Consecutive;
    NewIsUnanswered(s.history.released, |s.requests|);
  }

  lemma StoreRequests(s: State, a: nat, request: Request, bytes: seq<Byte>)
    requires Inv(s) && Storable(s, a, request) && WellFormed(StoreRequest(s, a, request, bytes))
    ensures var t := StoreRequest(s, a, request, bytes); Slots(t, None) && SignCalls(t) && SignLog(t) && Sequences(t)
  {
    hide OneLive, Current, Owners, Approvals, Secrets, Slots, SignLog, Sequences, ConfirmationOf;
    var t := StoreRequest(s, a, request, bytes);
    StoreSlots(s, a, request, bytes);
    CallsFrame(s, t);
    LogFrame(s, t);
    SequencesFrame(s, t);
  }

  lemma StoreKeeps(s: State, a: nat, request: Request, bytes: seq<Byte>)
    requires Inv(s) && Storable(s, a, request)
    ensures Inv(StoreRequest(s, a, request, bytes))
  {
    hide Owners, Approvals, Secrets, Slots, SignCalls, SignLog, Sequences;
    StoreRecords(s, a, request, bytes);
    StoreSecrets(s, a, request, bytes);
    StoreRequests(s, a, request, bytes);
  }

  lemma MarkWellFormed(s: State, a: nat, r: nat)
    requires WellFormed(s) && a < |s.actives| && r < |s.requests|
    ensures WellFormed(MarkExecuting(s, a, r))
  {
  }

  lemma MarkRequests(s: State, a: nat, r: nat)
    requires Inv(s) && a < |s.actives| && s.actives[a].slot == Slot(AwaitingConfirmation, r)
    ensures var t := MarkExecuting(s, a, r); WellFormed(t) && Slots(t, Some(r)) && SignCalls(t)
  {
    hide Current, Owners, Approvals, Secrets, SignLog, Sequences, ConfirmationOf;
    MarkWellFormed(s, a, r);
    CallsFrame(s, MarkExecuting(s, a, r));
  }

  lemma MarkKeeps(s: State, a: nat, r: nat)
    requires Inv(s) && a < |s.actives| && s.actives[a].slot == Slot(AwaitingConfirmation, r)
    ensures InvBut(MarkExecuting(s, a, r), Some(r))
  {
    hide Owners, Approvals, Secrets, Slots, SignCalls, SignLog, Sequences;
    var t := MarkExecuting(s, a, r);
    MarkRequests(s, a, r);
    RecordsFrame(s, t);
    SecretsFrame(s, t);
    HistoryFrame(s, t);
  }

  /** The request is the session's: it has a suspended call there, or is busy in its slot. */
  ghost predicate Finishable(s: State, a: nat, r: nat, busy: Option<nat>) {
    && a < |s.actives| && r < |s.requests|
    && (r in s.signCalls ==> s.signCalls[r].session == a && busy == None)
    && (r !in s.signCalls ==> busy == Some(r) && s.actives[a].slot == Slot(Executing, r))
  }

  lemma FinishWellFormed(s: State, a: nat, r: nat)
    requires WellFormed(s) && a < |s.actives| && r < |s.requests|
    ensures WellFormed(FinishRequest(s, a, r))
  {
  }

  lemma FinishErases(s: State, a: nat, r: nat, busy: Option<nat>, b: nat)
    requires WellFormed(s) && Owners(s) && Slots(s, busy) && SignCalls(s)
    requires Finishable(s, a, r, busy) && b < |s.buffers|
    requires WellFormed(FinishRequest(s, a, r))
    ensures OwnerLive(FinishRequest(s, a, r), s.history.owner[b])
            <==> OwnerLive(s, s.history.owner[b]) && b !in {s.requests[r].message}
  {
    hide EraseAll, SignCalls, IsZero;
    assert b == s.requests[r].message <==> s.history.owner[b] == MessageOf(r);
  }

  lemma FinishSlots(s: State, a: nat, r: nat, busy: Option<nat>)
    requires WellFormed(s) && Slots(s, busy) && SignCalls(s) && Finishable(s, a, r, busy)
    requires WellFormed(FinishRequest(s, a, r))
    ensures Slots(FinishRequest(s, a, r), None) && !Unfinished(FinishRequest(s, a, r), r)
  {
    hide SignCalls, EraseAll, Zeros;
    var t := FinishRequest(s, a, r);
    forall b | 0 <= b < |t.actives| && t.actives[b].slot.Slot?
      ensures t.actives[b] == s.actives[b] && t.actives[b].slot.request != r {
    }
  }

  lemma FinishSignCalls(s: State, a: nat, r: nat, busy: Option<nat>)
    requires WellFormed(s) && Slots(s, busy) && SignCalls(s) && Finishable(s, a, r, busy)
    requires WellFormed(FinishRequest(s, a, r))
    ensures SignCalls(FinishRequest(s, a, r))
  {
  }

  lemma FinishSecrets(s: State, a: nat, r: nat, busy: Option<nat>)
    requires InvBut(s, busy) && Finishable(s, a, r, busy) && WellFormed(FinishRequest(s, a, r))
    ensures Secrets(FinishRequest(s, a, r))
  {
    hide OneLive, Current, Secrets, SignLog, Sequences, OwnerLive;
    var t := FinishRequest(s, a, r);
    forall b | 0 <= b < |s.buffers|
      ensures OwnerLive(t, s.history.owner[b]) <==> OwnerLive(s, s.history.owner[b]) && b !in {s.requests[r].message}
    {
      FinishErases(s, a, r, busy, b);
    }
    ErasingKeepsSecrets(s, t, {s.requests[r].message});
  }

  lemma FinishKeeps(s: State, a: nat, r: nat, busy: Option<nat>)
    requires InvBut(s, busy) && Finishable(s, a, r, busy)
    ensures Inv(FinishRequest(s, a, r)) && !Unfinished(FinishRequest(s, a, r), r)
  {
    hide Owners, Approvals, Secrets, Slots, SignCalls, SignLog, Sequences, WellFormed, EraseAll;
    var t := FinishRequest(s, a, r);
    FinishWellFormed(s, a, r);
    RecordsFrame(s, t);
    FinishSecrets(s, a, r, busy);
    FinishSlots(s, a, r, busy);
    FinishSignCalls(s, a, r, busy);
    HistoryFrame(s, t);
  }
}
