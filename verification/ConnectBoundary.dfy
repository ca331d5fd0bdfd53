/**
 The boundary object itself: the fields of `IrohaConnectBoundary` and the methods that
 update them in place, each shown to take exactly the step of the protocol it stands
 for, and so to keep the invariant of every interleaving.
 */
module ConnectBoundary {
  import opened Bytes
  import opened ConnectTypes
  import opened ConnectProtocol
  import opened ConnectSafety
  import opened ConnectRuns

  /** Exactly these buffers were filled with zeros. */
  ghost predicate ErasedOnly(before: seq<seq<Byte>>, after: seq<seq<Byte>>, which: set<nat>) {
    && |after| == |before|
    && forall b :: 0 <= b < |before| ==> if b in which then IsZero(after[b]) else after[b] == before[b]
  }

  /** Nothing but this record stopped authorising. */
  ghost predicate EndedOnly(before: map<string, nat>, after: map<string, nat>, token: string, p: nat) {
    && (forall t :: t in after <==> t in before && !(t == token && before[t] == p))
    && forall t :: t in after ==> after[t] == before[t]
  }

  lemma ErasesOnly(buffers: seq<seq<Byte>>, which: set<nat>)
    ensures ErasedOnly(buffers, EraseAll(buffers, which), which)
  {
  }

  lemma AbandonedShape(s: State, p: nat)
    requires WellFormed(s) && p < |s.pendings|
    ensures var t := ConnectProtocol.AbandonApproval(s, p);
      && t.history.promoted == s.history.promoted && p !in t.approveCalls
      && ErasedOnly(s.buffers, t.buffers, PendingBuffers(s.pendings[p]))
      && EndedOnly(s.authorizing, t.authorizing, s.pendings[p].token, p)
  {
    hide EraseAll, ErasedOnly, PendingBuffers;
    ErasesOnly(s.buffers, PendingBuffers(s.pendings[p]));
  }

  lemma CloseKeepsValid(s: State, token: string)
    requires WellFormed(s)
    ensures Inv(s) ==> Inv(ConnectProtocol.CloseSession(s, token))
  {
    hide Inv;
    if Inv(s) {
      CloseKeeps(s, token);
    }
  }

  /** A pending session is listed under its own token. */
  lemma PendingListed(s: State, token: string)
    requires Inv(s) && token in s.pendingSessions
    ensures s.pendingSessions[token] < |s.pendings| && s.pendings[s.pendingSessions[token]].token == token
  {
    hide WellFormed, Current, Owners, Approvals, Secrets, Slots, SignCalls, SignLog, Sequences;
  }

  /** The generation plays no part in disposal. */
  lemma NextGeneration(s: State, generation: nat)
    requires Inv(s)
    ensures var t := s.(generation := generation);
      && WellFormed(s) && WellFormed(t) && OneLive(t)
      && ConnectProtocol.DisposeAll(t) == ConnectProtocol.DisposeAll(s).(generation := generation)
  {
    hide Current, Owners, Approvals, Secrets, Slots, SignCalls, SignLog, Sequences,
         EraseAll, ClearSlots, RecordBuffers, ActiveBuffers;
  }

  lemma SuspendedNotPromoted(s: State, p: nat)
    requires Inv(s) && p in s.approveCalls
    ensures p < |s.pendings| && p !in s.history.promoted
  {
  }

  lemma PromotionRecorded(s: State, p: nat, token: string, verified: Context, frame: seq<Byte>)
    requires p < |s.pendings|
    ensures p in Promote(s, p, token, verified, frame).history.promoted
  {
  }

  lemma PendingBounds(s: State, p: nat)
    requires WellFormed(s) && p < |s.pendings|
    ensures var n := |s.buffers|;
      s.pendings[p].appKey < n && s.pendings[p].walletKey < n && s.pendings[p].preimage < n
  {
  }

  lemma PendingInRange(s: State, p: nat)
    requires WellFormed(s) && p in s.approveCalls
    ensures p < |s.pendings| && s.pendings[p].preimage < |s.buffers|
  {
  }

  lemma InRange(s: State, a: nat)
    requires WellFormed(s) && a < |s.actives|
    ensures s.actives[a].appKey < |s.buffers| && s.actives[a].walletKey < |s.buffers|
    ensures |s.history.released| == |s.history.acceptedApp| == |s.history.acceptedServer| == |s.actives|
  {
  }

  lemma InRangeRequest(s: State, r: nat)
    requires WellFormed(s) && r < |s.requests|
    ensures s.requests[r].message < |s.buffers|
  {
  }

  lemma AcceptedShape(s: State, a: nat)
    requires WellFormed(s) && a < |s.actives|
    ensures WellFormed(AcceptAppFrame(s, a)) && |AcceptAppFrame(s, a).actives| == |s.actives|
  {
  }

  lemma EncryptedShape(d: Dependencies, s: State, a: nat, payload: ResultPayload, answers: Option<nat>)
    requires WellFormed(s) && a < |s.actives|
    ensures var t := ConnectProtocol.EncryptResult(d, s, a, payload, answers).0;
      WellFormed(t) && |t.actives| == |s.actives| && t.requests == s.requests
  {
  }

  /** A result that could not be encrypted leaves no trace. */
  lemma EncryptedNothing(d: Dependencies, s: State, a: nat, payload: ResultPayload, answers: Option<nat>)
    requires WellFormed(s) && a < |s.actives|
    ensures var (t, frame) := ConnectProtocol.EncryptResult(d, s, a, payload, answers);
      t.requests == s.requests && (frame.None? ==> t == s)
  {
    hide WellFormed;
  }

  lemma EraseTwice(buffers: seq<seq<Byte>>, first: set<nat>, second: set<nat>)
    ensures EraseAll(EraseAll(buffers, first), second) == EraseAll(buffers, first + second)
  {
  }

  lemma EraseNothing(buffers: seq<seq<Byte>>)
    ensures EraseAll(buffers, {}) == buffers
  {
  }

  lemma NothingFilled(s: State)
    requires WellFormed(s)
    ensures s.sessions.Keys == {} ==> ActiveBuffers(s.requests, s.actives, s.sessions) == {} && s.sessions.Values == {}
    ensures EraseAll(s.buffers, {}) == s.buffers && ClearSlots(s.actives, {}) == s.actives
  {
  }

  /** When a session is active, the map holds that session only. */
  lemma OnlyActive(s: State, t: string)
    requires WellFormed(s) && OneLive(s) && t in s.sessions
    ensures s.sessions.Keys == {t} && s.sessions.Values == {s.sessions[t]}
    ensures ActiveBuffers(s.requests, s.actives, s.sessions) == SessionBuffers(s.requests, s.actives[s.sessions[t]])
  {
    assert forall u :: u in s.sessions ==> u == t;
    assert forall v :: v in s.sessions.Values ==> v == s.sessions[t];
    assert s.sessions[t] in s.sessions.Values;
  }

  lemma SameShape(s: State, buffers: seq<seq<Byte>>)
    requires WellFormed(s) && OneLive(s) && |buffers| == |s.buffers|
    ensures WellFormed(s.(buffers := buffers)) && OneLive(s.(buffers := buffers))
  {
  }

  lemma AllocateNone(s: State)
    ensures AllocateErased(s, []) == s
  {
  }

  lemma AllocateOneMore(s: State, secrets: seq<seq<Byte>>, bytes: seq<Byte>)
    ensures var t := AllocateErased(s, secrets);
      AllocateErased(s, secrets + [bytes]) ==
        t.(buffers := t.buffers + [Zeros(|bytes|)],
           history := t.history.(owner := t.history.owner + [Unowned], initial := t.history.initial + [bytes]))
  {
    var t, u := AllocateErased(s, secrets), AllocateErased(s, secrets + [bytes]);
    assert u.buffers == t.buffers + [Zeros(|bytes|)];
    assert u.history.owner == t.history.owner + [Unowned];
  }

  class IrohaConnectBoundary {
    const deps: Dependencies
    var currentContextKey: string
    var generation: nat
    var pendingSessions: map<string, nat>
    var authorizingSessions: map<string, nat>
    var sessions: map<string, nat>

    // The objects the maps refer to, by identity.
    var pendings: seq<Pending>
    var actives: seq<Session>
    var requests: seq<Request>
    var buffers: seq<seq<Byte>>

    // The suspended calls.
    var prepareCalls: seq<PrepareCall>
    var approveCalls: map<nat, ApproveCall>
    var signCalls: map<nat, SignCall>

    ghost var history: History

    ghost function Snapshot(): State
      reads this
    {
      State(currentContextKey, generation, pendingSessions, authorizingSessions, sessions, pendings, actives, requests,
            buffers, prepareCalls, approveCalls, signCalls, history)
    }

    ghost predicate Valid()
      reads this
    {
      Inv(Snapshot())
    }

    constructor (deps: Dependencies)
      ensures Valid() && this.deps == deps && Snapshot() == INITIAL
    {
      this.deps := deps;
      currentContextKey, generation := "", 0;
      pendingSessions, authorizingSessions, sessions := map[], map[], map[];
      pendings, actives, requests, buffers := [], [], [], [];
      prepareCalls, approveCalls, signCalls := [], map[], map[];
      history := INITIAL.history;
      new;
      InitialInv();
    }

    /** `fill(0)` on one buffer. */
    method Fill(b: nat)
      requires b < |buffers|
      modifies this`buffers
      ensures buffers == EraseAll(old(buffers), {b})
      ensures buffers == old(buffers)[b := Zeros(|old(buffers)[b]|)]
    {
      buffers := buffers[b := Zeros(|buffers[b]|)];
    }

    // -------------------------------------------------------------- disposal

    /** Fills the three buffers of one pending session. */
    method FillRecord(p: Pending)
      requires p.appKey < |buffers| && p.walletKey < |buffers| && p.preimage < |buffers|
      modifies this`buffers
      ensures buffers == EraseAll(old(buffers), PendingBuffers(p))
    {
      Fill(p.appKey);
      Fill(p.walletKey);
      Fill(p.preimage);
    }

    /** Fills the buffers of every pending session in one of the two maps. */
    method FillPending(records: map<string, nat>) returns (ghost filled: set<nat>)
      requires forall t :: t in records ==> records[t] < |pendings|
      requires forall p :: 0 <= p < |pendings| ==>
        pendings[p].appKey < |buffers| && pendings[p].walletKey < |buffers| && pendings[p].preimage < |buffers|
      modifies this`buffers
      ensures buffers == EraseAll(old(buffers), filled)
      ensures filled == RecordBuffers(pendings, records)
    {
      hide EraseAll, PendingBuffers;
      EraseNothing(buffers);
      var todo := records.Keys;
      filled := {};
      while todo != {}
        invariant todo <= records.Keys
        invariant forall b :: b in filled <==>
          exists t :: t in records && t !in todo && b in PendingBuffers(pendings[records[t]])
        invariant buffers == EraseAll(old(buffers), filled)
      {
        var t :| t in todo;
        FillRecord(pendings[records[t]]);
        EraseTwice(old(buffers), filled, PendingBuffers(pendings[records[t]]));
        filled := filled + PendingBuffers(pendings[records[t]]);
        todo := todo - {t};
      }
    }

    /** Fills the message and the keys of one session and empties its slot. */
    method FillSession(a: nat)
      requires WellFormed(Snapshot()) && a < |actives|
      modifies this`buffers, this`actives
      ensures buffers == EraseAll(old(buffers), SessionBuffers(requests, old(actives)[a]))
      ensures actives == old(actives)[a := old(actives)[a].(slot := Empty)]
    {
      hide EraseAll;
      ghost var before := buffers;
      var session := actives[a];
      ghost var first: set<nat> := {};
      if session.slot.Slot? {
        Fill(requests[session.slot.request].message);
        first := {requests[session.slot.request].message};
        actives := actives[a := session.(slot := Empty)];
      }
      assert buffers == EraseAll(before, first);
      Fill(session.appKey);
      EraseTwice(before, first, {session.appKey});
      Fill(session.walletKey);
      EraseTwice(before, first + {session.appKey}, {session.walletKey});
      assert first + {session.appKey} + {session.walletKey} == SessionBuffers(requests, session);
    }

    /** Fills every active session; there is at most one. */
    method FillSessions()
      requires WellFormed(Snapshot()) && OneLive(Snapshot())
      modifies this`buffers, this`actives
      ensures buffers == EraseAll(old(buffers), ActiveBuffers(requests, old(actives), sessions))
      ensures actives == ClearSlots(old(actives), sessions.Values)
    {
      hide EraseAll, ActiveBuffers, OneLive, ClearSlots, SessionBuffers;
      ghost var before := Snapshot();
      ghost var filled: set<nat> := {};
      NothingFilled(before);
      var todo := sessions.Keys;
      while todo != {}
        invariant todo <= sessions.Keys && (todo == sessions.Keys || todo == {})
        invariant todo == sessions.Keys ==> filled == {} && buffers == before.buffers && actives == before.actives
        invariant todo == {} ==>
          filled == ActiveBuffers(requests, before.actives, sessions) && buffers == EraseAll(before.buffers, filled)
        invariant todo == {} ==> actives == ClearSlots(before.actives, sessions.Values)
      {
        var t :| t in todo;
        OnlyActive(before, t);
        FillSession(sessions[t]);
        filled := SessionBuffers(requests, before.actives[sessions[t]]);
        todo := todo - {t};
      }
    }

    method FillPendings()
      requires WellFormed(Snapshot())
      modifies this`buffers
      ensures buffers == EraseAll(old(buffers), RecordBuffers(pendings, pendingSessions)
                                                + RecordBuffers(pendings, authorizingSessions))
    {
      hide EraseAll, RecordBuffers;
      ghost var before := buffers;
      ghost var first := FillPending(pendingSessions);
      ghost var second := FillPending(authorizingSessions);
      EraseTwice(before, first, second);
    }

    /** Fills the buffers of every live record and empties the slot of every active session. */
    method FillAll()
      requires WellFormed(Snapshot()) && OneLive(Snapshot())
      modifies this`buffers, this`actives
      ensures buffers == EraseAll(old(buffers), DisposedBuffers(old(Snapshot())))
      ensures actives == ClearSlots(old(actives), sessions.Values)
    {
      hide WellFormed, OneLive, EraseAll, ClearSlots, RecordBuffers, ActiveBuffers;
      ghost var before := Snapshot();
      FillPendings();
      SameShape(before, buffers);
      FillSessions();
      EraseTwice(before.buffers,
        RecordBuffers(pendings, pendingSessions) + RecordBuffers(pendings, authorizingSessions),
                 ActiveBuffers(requests, before.actives, sessions));
    }

    /** `#disposeAll` */
    method DisposeAll()
      requires WellFormed(Snapshot()) && OneLive(Snapshot())
      modifies this`buffers, this`actives, this`pendingSessions, this`authorizingSessions, this`sessions, this`history
      ensures Snapshot() == ConnectProtocol.DisposeAll(old(Snapshot()))
    {
      hide WellFormed, OneLive, EraseAll, ClearSlots, RecordBuffers, ActiveBuffers;
      FillAll();
      pendingSessions, authorizingSessions, sessions := map[], map[], map[];
      history := history.(live := NoneLive);
    }

    /** `closeSession`: the session is gone, its keys and its message are erased, and nothing else is. */
    method CloseSession(sessionToken: string)
      requires WellFormed(Snapshot())
      modifies this
      ensures Snapshot() == ConnectProtocol.CloseSession(old(Snapshot()), sessionToken)
      ensures old(Valid()) ==> Valid()
      ensures IsBoundaryToken(sessionToken) ==> sessionToken !in sessions
      ensures !IsBoundaryToken(sessionToken) || sessionToken !in old(sessions) ==> Snapshot() == old(Snapshot())
      ensures IsBoundaryToken(sessionToken) && sessionToken in old(sessions) ==>
        ErasedOnly(old(buffers), buffers, SessionBuffers(requests, old(actives)[old(sessions)[sessionToken]]))
    {
      hide EraseAll, ErasedOnly, Inv, SessionBuffers;
      CloseKeepsValid(Snapshot(), sessionToken);
      if !IsBoundaryToken(sessionToken) || sessionToken !in sessions {
        return;
      }
      var a := sessions[sessionToken];
      ErasesOnly(buffers, SessionBuffers(requests, actives[a]));
      FillSession(a);
      sessions := sessions - {sessionToken};
      history := history.(live := NoneLive);
    }

    // -------------------------------------------------------------- context

    method SetContext(context: Context)
      requires Valid()
      modifies this
      ensures Valid() && Snapshot() == ConnectProtocol.SetContext(deps, old(Snapshot()), context)
    {
      hide Inv, WellFormed, OneLive, ConnectProtocol.DisposeAll;
      ContextKeeps(deps, Snapshot(), context);
      NextGeneration(Snapshot(), generation + 1);
      var normalized := deps.normalizeContext(context);
      if normalized.None? {
        return;
      }
      var nextKey := deps.contextKey(normalized.value);
      if nextKey == currentContextKey {
        return;
      }
      generation := generation + 1;
      DisposeAll();
      currentContextKey := nextKey;
    }

    method Reset()
      requires Valid()
      modifies this
      ensures Valid() && Snapshot() == ConnectProtocol.Reset(old(Snapshot()))
    {
      hide Inv, WellFormed, OneLive, ConnectProtocol.DisposeAll;
      DisposeKeeps(Snapshot(), "");
      NextGeneration(Snapshot(), generation + 1);
      generation := generation + 1;
      DisposeAll();
      currentContextKey := "";
    }

    /** `#uniqueToken` */
    method UniqueToken(tokens: nat -> string) returns (token: Option<string>)
      requires WellFormed(Snapshot())
      ensures token == ConnectProtocol.UniqueToken(Snapshot(), tokens, 0)
    {
      hide IsBoundaryToken;
      var attempt := 0;
      while attempt < TOKEN_ATTEMPTS
        invariant attempt <= TOKEN_ATTEMPTS
        invariant ConnectProtocol.UniqueToken(Snapshot(), tokens, 0)
          == ConnectProtocol.UniqueToken(Snapshot(), tokens, attempt)
      {
        var candidate := tokens(attempt);
        if !IsBoundaryToken(candidate) {
          return None;
        }
        var used := candidate in pendingSessions || candidate in authorizingSessions || candidate in sessions;
        if !used {
          used := exists t :: t in sessions && actives[sessions[t]].slot.Slot?
                              && requests[actives[sessions[t]].slot.request].token == candidate;
        }
        if !used {
          return Some(candidate);
        }
        attempt := attempt + 1;
      }
      return None;
    }

    // -------------------------------------------------------------- prepareSession

    /** `prepareSession` up to its await. */
    method PrepareSession(open: OpenRequest)
      requires Valid()
      modifies this`prepareCalls
      ensures Valid() && Snapshot() == PrepareBegin(deps, old(Snapshot()), open)
    {
      hide Inv;
      PrepareBeginKeeps(deps, Snapshot(), open);
      var requested := deps.normalizeContext(open.context);
      if open.permissions.None? || requested.None? {
        return;
      }
      if currentContextKey == "" || currentContextKey != deps.contextKey(requested.value) {
        return;
      }
      if |pendingSessions| > 0 || |authorizingSessions| > 0 || |sessions| > 0 {
        return;
      }
      if open.requestedNetworkId != requested.value.networkId || !deps.acceptsOpen(open) {
        return;
      }
      prepareCalls := prepareCalls + [PrepareCall(generation, open, requested.value, open.permissions.value)];
    }

    /** Allocates one buffer. */
    method Allocate(bytes: seq<Byte>, ghost owner: Owner) returns (b: nat)
      modifies this`buffers, this`history
      ensures b == |old(buffers)| && buffers == old(buffers) + [bytes]
      ensures history == old(history).(owner := old(history).owner + [owner], initial := old(history).initial + [bytes])
    {
      b := |buffers|;
      buffers := buffers + [bytes];
      history := history.(owner := history.owner + [owner], initial := history.initial + [bytes]);
    }

    /** Secrets that were derived before an exception, and that the `finally` block fills. */
    method AllocateAndFill(secrets: seq<seq<Byte>>)
      modifies this`buffers, this`history
      ensures Snapshot() == AllocateErased(old(Snapshot()), secrets)
    {
      hide EraseAll, Zeros, AllocateErased;
      ghost var before := Snapshot();
      AllocateNone(before);
      var i := 0;
      while i < |secrets|
        invariant i <= |secrets|
        invariant Snapshot() == AllocateErased(before, secrets[..i])
      {
        AllocateOneMore(before, secrets[..i], secrets[i]);
        ghost var previous := buffers;
        var b := Allocate(secrets[i], Unowned);
        Fill(b);
        assert buffers == previous + [Zeros(|secrets[i]|)];
        assert secrets[..i + 1] == secrets[..i] + [secrets[i]];
        i := i + 1;
      }
      assert secrets[..|secrets|] == secrets;
    }

    /** Stores a pending session and its secrets. */
    method StorePending(pending: Pending, keys: KeyMaterial, preimage: seq<Byte>)
      requires pending.appKey == |buffers| && pending.walletKey == |buffers| + 1 && pending.preimage == |buffers| + 2
      modifies this`buffers, this`history, this`pendings, this`pendingSessions
      ensures Snapshot() == Prepare(old(Snapshot()), pending, keys, preimage)
    {
      var p := |pendings|;
      AllocateSecrets(p, keys, preimage);
      pendings := pendings + [pending];
      pendingSessions := pendingSessions[pending.token := p];
      history := history.(live := PendingLive(p));
    }

    /** The three secrets of a pending session. */
    method AllocateSecrets(p: nat, keys: KeyMaterial, preimage: seq<Byte>)
      modifies this`buffers, this`history
      ensures buffers == old(buffers) + [keys.appKey, keys.walletKey, preimage]
      ensures history ==
        old(history).(owner := old(history).owner + [AppKeyOf(p), WalletKeyOf(p), PreimageOf(p)],
                      initial := old(history).initial + [keys.appKey, keys.walletKey, preimage])
    {
      ghost var before := history;
      var appKey := Allocate(keys.appKey, AppKeyOf(p));
      var walletKey := Allocate(keys.walletKey, WalletKeyOf(p));
      var approvalPreimage := Allocate(preimage, PreimageOf(p));
      assert history.owner == before.owner + [AppKeyOf(p), WalletKeyOf(p), PreimageOf(p)];
      assert history.initial == before.initial + [keys.appKey, keys.walletKey, preimage];
    }

    /** The rest of `prepareSession`. */
    method ResumePrepareSession(call: PrepareCall, settled: Settled<Context>, keys: Option<KeyMaterial>,
                                tokens: nat -> string, now: int)
      returns (approvalToken: Option<string>)
      requires Valid()
      modifies this
      ensures Valid() && Snapshot() == PrepareResume(deps, old(Snapshot()), call, settled, keys, tokens, now)
    {
      hide Inv, WellFormed, ConnectProtocol.UniqueToken, TokenUnused, AllocateErased, Prepare;
      InvWellFormed(Snapshot());
      PrepareResumeKeeps(deps, Snapshot(), call, settled, keys, tokens, now);
      approvalToken := None;
      if settled.Rejected? || deps.normalizeContext(settled.value).None? {
        return;
      }
      var verified := deps.normalizeContext(settled.value).value;
      if call.generation != generation || currentContextKey == "" || currentContextKey != deps.contextKey(verified) {
        return;
      }
      if |pendingSessions| > 0 || |authorizingSessions| > 0 || |sessions| > 0 {
        return;
      }
      if verified.networkId != call.requestedContext.networkId || keys.None? {
        return;
      }
      var preimage := deps.approvePreimage(call.open, verified, keys.value);
      if preimage.None? {
        AllocateAndFill([keys.value.appKey, keys.value.walletKey]);
        return;
      }
      approvalToken := UniqueToken(tokens);
      if approvalToken.None? {
        AllocateAndFill([keys.value.appKey, keys.value.walletKey, preimage.value]);
        return;
      }
      var n := |buffers|;
      StorePending(Pending(approvalToken.value, deps.contextKey(verified), call.generation, verified, call.open.sid,
                           keys.value.walletPublicKeyHex, n, n + 1, call.permissions, n + 2,
                           now + SESSION_APPROVAL_TTL_MS), keys.value, preimage.value);
    }

    // -------------------------------------------------------------- approveSession

    method RemoveAuthorizing(p: nat)
      requires p < |pendings|
      modifies this`authorizingSessions
      ensures authorizingSessions == EndAuthorizing(old(authorizingSessions), pendings[p].token, p)
    {
      var token := pendings[p].token;
      if token in authorizingSessions && authorizingSessions[token] == p {
        authorizingSessions := authorizingSessions - {token};
      }
    }

    /** The record is live no more if it was the one that was authorising. */
    method StopAuthorizing(p: nat)
      requires p < |pendings|
      modifies this`authorizingSessions, this`history
      ensures authorizingSessions == EndAuthorizing(old(authorizingSessions), pendings[p].token, p)
      ensures history == if Authorizes(old(authorizingSessions), pendings[p].token, p)
                         then old(history).(live := NoneLive) else old(history)
    {
      hide EndAuthorizing;
      if Authorizes(authorizingSessions, pendings[p].token, p) {
        history := history.(live := NoneLive);
      }
      RemoveAuthorizing(p);
    }

    /**
     The `finally` block of `approveSession` when nothing was promoted: only this record
     stops authorising, and just its three buffers are erased.
     */
    method AbandonApproval(p: nat)
      requires WellFormed(Snapshot()) && p < |pendings|
      modifies this`authorizingSessions, this`buffers, this`approveCalls, this`history
      ensures Snapshot() == ConnectProtocol.AbandonApproval(old(Snapshot()), p)
      ensures history.promoted == old(history).promoted
      ensures ErasedOnly(old(buffers), buffers, PendingBuffers(pendings[p])) && p !in approveCalls
      ensures EndedOnly(old(authorizingSessions), authorizingSessions, pendings[p].token, p)
    {
      hide WellFormed, EraseAll, ErasedOnly, EndedOnly, EndAuthorizing, Authorizes, PendingBuffers;
      PendingBounds(Snapshot(), p);
      AbandonedShape(Snapshot(), p);
      StopAuthorizing(p);
      FillRecord(pendings[p]);
      approveCalls := approveCalls - {p};
    }

    /** `approveSession` up to the user's decision. */
    method ApproveSession(approvalToken: string, now: int)
      requires Valid()
      modifies this
      ensures Valid() && Snapshot() == ApproveBegin(old(Snapshot()), approvalToken, now)
    {
      hide Inv, WellFormed, ConnectProtocol.AbandonApproval, ConnectProtocol.Take;
      InvWellFormed(Snapshot());
      ApproveBeginKeeps(Snapshot(), approvalToken, now);
      if !IsBoundaryToken(approvalToken) || approvalToken !in pendingSessions {
        return;
      }
      var p := pendingSessions[approvalToken];
      PendingListed(Snapshot(), approvalToken);
      TakeWellFormed(Snapshot(), p);
      Take(p);
      if now > pendings[p].expiresAtMs || pendings[p].generation != generation
         || currentContextKey == "" || currentContextKey != pendings[p].contextKey {
        AbandonApproval(p);
      }
    }

    /** The pending session waits for the user, and can be approved no more. */
    method Take(p: nat)
      requires p < |pendings|
      modifies this`pendingSessions, this`authorizingSessions, this`approveCalls, this`history
      ensures Snapshot() == ConnectProtocol.Take(old(Snapshot()), p)
    {
      var pending := pendings[p];
      pendingSessions := pendingSessions - {pending.token};
      authorizingSessions := authorizingSessions[pending.token := p];
      history := history.(live := AuthorizingLive(p));
      approveCalls := approveCalls[p := ApproveCall(Authorizing, pending.context, [])];
    }

    /** The user has decided. */
    method ResumeApproveAuthorized(p: nat, settled: Settled<bool>)
      requires Valid() && ApproveAt(Snapshot(), p, Authorizing)
      modifies this
      ensures Valid() && Snapshot() == ApproveAuthorized(old(Snapshot()), p, settled)
    {
      hide Inv, WellFormed, ConnectProtocol.AbandonApproval;
      InvWellFormed(Snapshot());
      PendingInRange(Snapshot(), p);
      ApproveAuthorizedKeeps(Snapshot(), p, settled);
      if settled.Rejected? || !settled.value {
        AbandonApproval(p);
      } else if pendings[p].generation != generation || currentContextKey == ""
        || currentContextKey != pendings[p].contextKey {
        AbandonApproval(p);
      } else {
        approveCalls := approveCalls[p := ApproveCall(Verifying, pendings[p].context, [])];
      }
    }

    /** The context has been verified; `sign` is called next. */
    method ResumeApproveVerified(p: nat, settled: Settled<Context>)
      requires Valid() && ApproveAt(Snapshot(), p, Verifying)
      modifies this
      ensures Valid() && Snapshot() == ApproveVerified(deps, old(Snapshot()), p, settled)
    {
      hide Inv, WellFormed, ConnectProtocol.AbandonApproval;
      InvWellFormed(Snapshot());
      PendingInRange(Snapshot(), p);
      ApproveVerifiedKeeps(deps, Snapshot(), p, settled);
      if settled.Rejected? || deps.normalizeContext(settled.value).None? {
        AbandonApproval(p);
        return;
      }
      var verified := deps.normalizeContext(settled.value).value;
      if currentContextKey == "" || currentContextKey != deps.contextKey(verified) {
        AbandonApproval(p);
        return;
      }
      approveCalls := approveCalls[p := ApproveCall(Signing, verified, buffers[pendings[p].preimage])];
    }

    /** The preimage has been signed: promote the session, or abandon it. */
    method ResumeApproveSigned(p: nat, settled: Settled<seq<Byte>>, tokens: nat -> string)
      returns (released: Option<seq<Byte>>)
      requires Valid() && ApproveAt(Snapshot(), p, Signing)
      modifies this
      ensures Valid() && Snapshot() == ApproveSigned(deps, old(Snapshot()), p, settled, tokens)
      ensures released.Some? <==> p in history.promoted && p !in old(history).promoted
    {
      hide Inv, WellFormed, ConnectProtocol.AbandonApproval, ConnectProtocol.UniqueToken, Promote;
      InvWellFormed(Snapshot());
      PendingInRange(Snapshot(), p);
      SuspendedNotPromoted(Snapshot(), p);
      ApproveSignedKeeps(deps, Snapshot(), p, settled, tokens);
      var pending, verified := pendings[p], approveCalls[p].verified;
      if settled.Rejected? || pending.generation != generation
         || currentContextKey == "" || currentContextKey != pending.contextKey {
        AbandonApproval(p);
        return None;
      }
      released := deps.encodeApprove(pending.sid, 1, verified, pending.walletPublicKeyHex, settled.value);
      if released.None? {
        AbandonApproval(p);
        return None;
      }
      var token := UniqueToken(tokens);
      if token.None? {
        AbandonApproval(p);
        return None;
      }
      PromotionRecorded(Snapshot(), p, token.value, verified, released.value);
      PromotePending(p, token.value, verified, released.value);
    }

    /** Stores the session and runs the `finally` block of a promoted approval. */
    method PromotePending(p: nat, token: string, verified: Context, frame: seq<Byte>)
      requires p < |pendings| && pendings[p].preimage < |buffers|
      modifies this
      ensures Snapshot() == Promote(old(Snapshot()), p, token, verified, frame)
    {
      hide EraseAll, NewSession, RecordPromotion, EndAuthorizing;
      var pending := pendings[p];
      sessions := sessions[token := |actives|];
      history := RecordPromotion(history, |actives|, p, frame);
      actives := actives + [NewSession(pending, token, verified)];
      RemoveAuthorizing(p);
      Fill(pending.preimage);
      approveCalls := approveCalls - {p};
    }

    // -------------------------------------------------------------- processFrame

    /** `#requireSessionMatches` */
    predicate SessionMatches(a: nat)
      requires a < |actives|
      reads this
      ensures SessionMatches(a) == Matches(Snapshot(), a)
    {
      currentContextKey != "" && currentContextKey == actives[a].contextKey
      && actives[a].token in sessions && sessions[actives[a].token] == a
    }

    /** `#requireSession` */
    method RequireSession(sessionToken: string) returns (found: Option<nat>)
      requires WellFormed(Snapshot())
      ensures found == FindSession(Snapshot(), sessionToken)
    {
      if !IsBoundaryToken(sessionToken) || sessionToken !in sessions || !SessionMatches(sessions[sessionToken]) {
        return None;
      }
      return Some(sessions[sessionToken]);
    }

    /** A wallet frame leaves. */
    method Release(a: nat, ghost frame: Released)
      requires a < |actives| == |history.released|
      modifies this`actives, this`history
      ensures Snapshot() == ConnectProtocol.Release(old(Snapshot()), a, frame)
    {
      actives := actives[a := actives[a].(nextWalletSequence := actives[a].nextWalletSequence + 1)];
      history := history.(released := history.released[a := history.released[a] + [frame]]);
    }

    /** `#encryptResult`: a frame leaves under the next sequence number, or nothing changes. */
    method EncryptResult(a: nat, payload: ResultPayload, ghost answers: Option<nat>) returns (frame: Option<seq<Byte>>)
      requires WellFormed(Snapshot()) && a < |actives|
      modifies this`actives, this`history
      ensures (Snapshot(), frame) == ConnectProtocol.EncryptResult(deps, old(Snapshot()), a, payload, answers)
      ensures WellFormed(Snapshot()) && |actives| == old(|actives|)
      ensures frame.None? ==> Snapshot() == old(Snapshot())
      ensures var sequence := old(actives)[a].nextWalletSequence;
        frame.Some? ==> actives == old(actives)[a := old(actives)[a].(nextWalletSequence := sequence + 1)]
                        && history.released[a]
                             == old(history).released[a] + [ResultFrame(sequence, frame.value, payload, answers)]
    {
      EncryptedShape(deps, Snapshot(), a, payload, answers);
      InRange(Snapshot(), a);
      hide WellFormed, Matches;
      if !SessionMatches(a) {
        return None;
      }
      var sequence := actives[a].nextWalletSequence;
      frame := deps.encryptResult(buffers[actives[a].walletKey], actives[a].sid, sequence, payload);
      if frame.Some? {
        Release(a, ResultFrame(sequence, frame.value, payload, answers));
      }
    }

    /** Answers a request that was not stored. */
    method Refuse(a: nat, code: ErrorCode) returns (processed: Processed)
      requires WellFormed(Snapshot()) && a < |actives|
      modifies this`actives, this`history
      ensures (Snapshot(), processed) == ConnectProtocol.Refuse(deps, old(Snapshot()), a, code)
    {
      hide WellFormed, ConnectProtocol.EncryptResult;
      var frame := EncryptResult(a, SignError(code), None);
      return if frame.Some? then Refused(frame.value, code) else ProcessThrew;
    }

    method StoreRequest(a: nat, request: Request, bytes: seq<Byte>)
      requires a < |actives| && request.message == |buffers|
      modifies this`buffers, this`history, this`requests, this`actives
      ensures Snapshot() == ConnectProtocol.StoreRequest(old(Snapshot()), a, request, bytes)
    {
      var r := |requests|;
      var message := Allocate(bytes, MessageOf(r));
      requests := requests + [request.(message := message)];
      actives := actives[a := actives[a].(slot := Slot(AwaitingConfirmation, r))];
    }

    method AcceptRequest(a: nat, requestType: RequestType, domainTag: Option<string>, bytes: Option<seq<Byte>>,
                         tokens: nat -> string, now: int)
      returns (processed: Processed)
      requires WellFormed(Snapshot()) && a < |actives|
      modifies this
      ensures (Snapshot(), processed)
        == ConnectProtocol.AcceptRequest(deps, old(Snapshot()), a, requestType, domainTag, bytes, tokens, now)
    {
      hide WellFormed, ConnectProtocol.Refuse, ConnectProtocol.UniqueToken, ConnectProtocol.StoreRequest;
      var session := actives[a];
      if session.slot.Slot? {
        processed := Refuse(a, RequestInFlight);
        return;
      }
      if !deps.permits(session.permissions, requestType, domainTag) {
        processed := Refuse(a, PermissionDenied);
        return;
      }
      if bytes.None? {
        return ProcessThrew;
      }
      if bytes.value == [] {
        processed := Refuse(a, InvalidRequest);
        return;
      }
      var review := None;
      if requestType == SignTx {
        var reviewed := deps.reviewTransaction(session.context, bytes.value);
        if reviewed.None? {
          processed := Refuse(a, InvalidTransaction);
          return;
        }
        review := Some(reviewed.value.review);
      }
      var token := UniqueToken(tokens);
      if token.None? {
        return ProcessThrew;
      }
      var request := Request(token.value, session.token, session.contextKey, requestType, domainTag, |buffers|, review,
                             now + REQUEST_APPROVAL_TTL_MS);
      processed := Requested(|requests|, |bytes.value|, Prefix(bytes.value, 96));
      StoreRequest(a, request, bytes.value);
    }

    /** `processFrame` after the sequence number of an app frame was accepted. */
    method ProcessAccepted(a: nat, f: Frame, tokens: nat -> string, now: int) returns (processed: Processed)
      requires WellFormed(Snapshot()) && a < |actives|
      modifies this
      ensures (Snapshot(), processed) == ConnectProtocol.ProcessAccepted(deps, old(Snapshot()), a, f, tokens, now)
    {
      hide WellFormed, IsBoundaryToken;
      InRange(Snapshot(), a);
      hide WellFormed, ConnectProtocol.AcceptRequest, ConnectProtocol.CloseSession, ConnectProtocol.Release;
      var session := actives[a];
      match f.body
      case ControlBody(Ping(nonce)) =>
        var pong := deps.encodePong(session.sid, session.nextWalletSequence, nonce);
        if pong.None? {
          return ProcessThrew;
        }
        Release(a, PongFrame(session.nextWalletSequence, pong.value));
        return PongSent(pong.value);
      case ControlBody(Close(reason)) =>
        CloseSession(session.token);
        return Closed(reason);
      case ControlBody(_) =>
        return ProcessThrew;
      case CipherBody(appToWallet, aead) =>
        if !appToWallet {
          return ProcessThrew;
        }
        var payload := deps.decrypt(buffers[session.appKey], session.sid, f.sequence, aead);
        match payload
        case None => return ProcessThrew;
        case Some(ControlClose(reason)) =>
          CloseSession(session.token);
          return Closed(reason);
        case Some(OtherPayload) => return Ignored;
        case Some(RawRequest(domainTag, bytes)) =>
          processed := AcceptRequest(a, SignRaw, Some(domainTag), bytes, tokens, now);
        case Some(TxRequest(bytes)) => processed := AcceptRequest(a, SignTx, None, bytes, tokens, now);
    }

    /** The next server event is counted. */
    method AcceptServerEvent(a: nat)
      requires a < |actives| == |history.acceptedServer|
      modifies this`actives, this`history
      ensures Snapshot() == ConnectProtocol.AcceptServerEvent(old(Snapshot()), a)
    {
      var expected := actives[a].nextServerSequence;
      actives := actives[a := actives[a].(nextServerSequence := expected + 1)];
      history := history.(acceptedServer := history.acceptedServer[a := history.acceptedServer[a] + [expected]]);
    }

    /** The next app frame is counted. */
    method AcceptAppFrame(a: nat)
      requires a < |actives| == |history.acceptedApp|
      modifies this`actives, this`history
      ensures Snapshot() == ConnectProtocol.AcceptAppFrame(old(Snapshot()), a)
    {
      var expected := actives[a].nextAppSequence;
      actives := actives[a := actives[a].(nextAppSequence := expected + 1)];
      history := history.(acceptedApp := history.acceptedApp[a := history.acceptedApp[a] + [expected]]);
    }

    method ProcessFrame(sessionToken: string, frame: Option<Frame>, tokens: nat -> string, now: int)
      returns (processed: Processed)
      requires Valid()
      modifies this
      ensures Valid()
      ensures (Snapshot(), processed)
        == ConnectProtocol.ProcessFrame(deps, old(Snapshot()), sessionToken, frame, tokens, now)
    {
      hide Inv, WellFormed, Matches, ConnectProtocol.ProcessAccepted, FindSession,
           ConnectProtocol.AcceptServerEvent, ConnectProtocol.AcceptAppFrame;
      InvWellFormed(Snapshot());
      ProcessFrameKeeps(deps, Snapshot(), sessionToken, frame, tokens, now);
      var found := RequireSession(sessionToken);
      if found.None? || frame.None? {
        return ProcessThrew;
      }
      var a, f := found.value, frame.value;
      InRange(Snapshot(), a);
      if f.sid != actives[a].sid || !f.appToWallet {
        return ProcessThrew;
      }
      if f.body == ControlBody(ServerEvent) {
        var expected := actives[a].nextServerSequence;
        if f.sequence != expected {
          return ProcessThrew;
        }
        AcceptServerEvent(a);
        return EventAccepted;
      }
      var expected := actives[a].nextAppSequence;
      if f.sequence != expected {
        return ProcessThrew;
      }
      AcceptedShape(Snapshot(), a);
      AcceptAppFrame(a);
      processed := ProcessAccepted(a, f, tokens, now);
    }

    // -------------------------------------------------------------- approveRequest and rejectRequest

    /** `#beginRequestExecution` up to marking the slot. */
    method FindRequest(sessionToken: string, requestToken: string) returns (found: Option<nat>, a: nat)
      requires WellFormed(Snapshot())
      ensures found == ConnectProtocol.FindRequest(Snapshot(), sessionToken, requestToken)
      ensures found.Some? ==> FindSession(Snapshot(), sessionToken) == Some(a)
    {
      found, a := None, 0;
      var session := RequireSession(sessionToken);
      if session.None? || actives[session.value].slot.Empty? {
        return;
      }
      a := session.value;
      var r := actives[a].slot.request;
      if !IsBoundaryToken(requestToken) || requests[r].token != requestToken
        || requests[r].sessionToken != actives[a].token
         || requests[r].contextKey != actives[a].contextKey || actives[a].slot.phase != AwaitingConfirmation {
        return;
      }
      found := Some(r);
    }

    /** `#finishRequest`: the session's slot no longer holds this request, and just its message is erased. */
    method FinishRequest(a: nat, r: nat)
      requires a < |actives| && r < |requests| && requests[r].message < |buffers|
      modifies this
      ensures Snapshot() == ConnectProtocol.FinishRequest(old(Snapshot()), a, r)
      ensures |actives| == old(|actives|) && !(actives[a].slot.Slot? && actives[a].slot.request == r) && r !in signCalls
      ensures forall b :: 0 <= b < |actives| && b != a ==> actives[b] == old(actives)[b]
      ensures ErasedOnly(old(buffers), buffers, {requests[r].message})
    {
      hide EraseAll, ErasedOnly;
      ErasesOnly(buffers, {requests[r].message});
      if actives[a].slot.Slot? && actives[a].slot.request == r {
        actives := actives[a := actives[a].(slot := Empty)];
      }
      Fill(requests[r].message);
      signCalls := signCalls - {r};
    }

    /** Answers a request and runs the `finally` block; `hasCatch` when an exception is answered as well. */
    method Answer(a: nat, r: nat, payload: ResultPayload, hasCatch: bool) returns (outcome: RequestOutcome)
      requires WellFormed(Snapshot()) && a < |actives| && r < |requests|
      modifies this
      ensures (Snapshot(), outcome) == ConnectProtocol.Answer(deps, old(Snapshot()), a, r, payload, hasCatch)
    {
      InRangeRequest(Snapshot(), r);
      EncryptedNothing(deps, Snapshot(), a, payload, Some(r));
      hide WellFormed, ConnectProtocol.EncryptResult, ConnectProtocol.FinishRequest, ConnectProtocol.Fail;
      var frame := EncryptResult(a, payload, Some(r));
      InRangeRequest(Snapshot(), r);
      if frame.Some? {
        FinishRequest(a, r);
        return Answered(frame.value, payload.SignOk?);
      }
      if hasCatch {
        outcome := Fail(a, r);
        return;
      }
      FinishRequest(a, r);
      return RequestThrew;
    }

    /** The catch block of `approveRequest`. */
    method Fail(a: nat, r: nat) returns (outcome: RequestOutcome)
      requires WellFormed(Snapshot()) && a < |actives| && r < |requests|
      modifies this
      ensures (Snapshot(), outcome) == ConnectProtocol.Fail(deps, old(Snapshot()), a, r)
    {
      InRangeRequest(Snapshot(), r);
      EncryptedNothing(deps, Snapshot(), a, SignError(SigningFailed), Some(r));
      hide WellFormed, ConnectProtocol.EncryptResult, ConnectProtocol.FinishRequest;
      var frame := EncryptResult(a, SignError(SigningFailed), Some(r));
      InRangeRequest(Snapshot(), r);
      if frame.None? {
        FinishRequest(a, r);
        return RequestThrew;
      }
      FinishRequest(a, r);
      return Answered(frame.value, false);
    }

    method RejectRequest(sessionToken: string, requestToken: string, now: int) returns (outcome: RequestOutcome)
      requires Valid()
      modifies this
      ensures Valid()
      ensures (Snapshot(), outcome)
        == ConnectProtocol.RejectRequest(deps, old(Snapshot()), sessionToken, requestToken, now)
    {
      hide Inv, WellFormed, ConnectProtocol.Answer, ConnectProtocol.FindRequest, FindSession;
      InvWellFormed(Snapshot());
      RejectKeeps(deps, Snapshot(), sessionToken, requestToken, now);
      var found, a := FindRequest(sessionToken, requestToken);
      if found.None? {
        return RequestThrew;
      }
      var r := found.value;
      MarkWellFormed(Snapshot(), a, r);
      actives := actives[a := actives[a].(slot := Slot(Executing, r))];
      outcome := Answer(a, r, SignError(if now > requests[r].expiresAtMs then RequestExpired else UserRejected), false);
    }

    /** `approveRequest` up to the user's decision. */
    method ApproveRequest(sessionToken: string, requestToken: string, now: int) returns (outcome: RequestOutcome)
      requires Valid()
      modifies this
      ensures Valid() && (Snapshot(), outcome) == RequestBegin(deps, old(Snapshot()), sessionToken, requestToken, now)
    {
      hide Inv, WellFormed, ConnectProtocol.Answer, ConnectProtocol.FindRequest, FindSession;
      InvWellFormed(Snapshot());
      RequestBeginKeeps(deps, Snapshot(), sessionToken, requestToken, now);
      var found, a := FindRequest(sessionToken, requestToken);
      if found.None? {
        return RequestThrew;
      }
      var r := found.value;
      InRangeRequest(Snapshot(), r);
      MarkWellFormed(Snapshot(), a, r);
      actives := actives[a := actives[a].(slot := Slot(Executing, r))];
      var request := requests[r];
      if now > request.expiresAtMs {
        outcome := Answer(a, r, SignError(RequestExpired), true);
        return;
      }
      var confirmation :=
        if request.requestType == SignTx && request.review.Some? then ConfirmTx(request.review.value)
        else ConfirmRaw(request.domainTag, |buffers[request.message]|, Prefix(buffers[request.message], 96));
      signCalls := signCalls[r := SignCall(a, Authorizing, confirmation, [])];
      return AwaitsUser(r, confirmation);
    }

    /** The user has decided on a request. */
    method ResumeRequestAuthorized(r: nat, settled: Settled<bool>) returns (outcome: RequestOutcome)
      requires Valid() && RequestAt(Snapshot(), r, Authorizing)
      modifies this
      ensures Valid() && (Snapshot(), outcome) == RequestAuthorized(deps, old(Snapshot()), r, settled)
    {
      hide Inv, WellFormed, Matches, ConnectProtocol.Answer, ConnectProtocol.Fail;
      InvWellFormed(Snapshot());
      CallInRange(Snapshot(), r);
      RequestAuthorizedKeeps(deps, Snapshot(), r, settled);
      var a := signCalls[r].session;
      if settled.Rejected? || !SessionMatches(a) {
        outcome := Fail(a, r);
      } else if !settled.value {
        outcome := Answer(a, r, SignError(UserRejected), true);
      } else {
        signCalls := signCalls[r := SignCall(a, Verifying, signCalls[r].shown, [])];
        history := history.(authorized := history.authorized + {r});
        outcome := AwaitsContext;
      }
    }

    /** The bytes to hand to `sign`; `None` when the reviewed hash no longer matches. */
    method SigningBytes(request: Request, verified: Context) returns (message: Option<seq<Byte>>)
      requires request.message < |buffers|
      ensures message == SigningMessage(deps, request, buffers[request.message], verified)
    {
      if request.requestType == SignRaw {
        return Some(buffers[request.message]);
      }
      var reviewed := deps.reviewTransaction(verified, buffers[request.message]);
      if reviewed.None? || request.review.None?
         || reviewed.value.review.payloadHashHex != request.review.value.payloadHashHex
         || Hex(reviewed.value.payloadHash) != request.review.value.payloadHashHex {
        return None;
      }
      return Some(reviewed.value.payloadHash);
    }

    /** The context has been verified again; `sign` is called next. */
    method ResumeRequestVerified(r: nat, settled: Settled<Context>) returns (outcome: RequestOutcome)
      requires Valid() && RequestAt(Snapshot(), r, Verifying)
      modifies this
      ensures Valid() && (Snapshot(), outcome) == RequestVerified(deps, old(Snapshot()), r, settled)
    {
      hide Inv, WellFormed, Matches, SigningMessage, ConnectProtocol.Fail;
      InvWellFormed(Snapshot());
      CallInRange(Snapshot(), r);
      InRangeRequest(Snapshot(), r);
      RequestVerifiedKeeps(deps, Snapshot(), r, settled);
      var a := signCalls[r].session;
      if settled.Rejected? || deps.normalizeContext(settled.value).None? || !SessionMatches(a) {
        outcome := Fail(a, r);
        return;
      }
      var verified := deps.normalizeContext(settled.value).value;
      if deps.contextKey(verified) != actives[a].contextKey {
        outcome := Fail(a, r);
        return;
      }
      var message := SigningBytes(requests[r], verified);
      if message.None? {
        outcome := Fail(a, r);
        return;
      }
      var shown := signCalls[r].shown;
      signCalls := signCalls[r := SignCall(a, Signing, shown, message.value)];
      history := history.(signed := history.signed + [SignEntry(r, a, shown, message.value, verified)]);
      return AwaitsSignature(verified, message.value);
    }

    /** The signature has arrived. */
    method ResumeRequestSigned(r: nat, settled: Settled<seq<Byte>>) returns (outcome: RequestOutcome)
      requires Valid() && RequestAt(Snapshot(), r, Signing)
      modifies this
      ensures Valid() && (Snapshot(), outcome) == RequestSigned(deps, old(Snapshot()), r, settled)
    {
      hide Inv, WellFormed, Matches, ConnectProtocol.Answer, ConnectProtocol.Fail;
      InvWellFormed(Snapshot());
      CallInRange(Snapshot(), r);
      RequestSignedKeeps(deps, Snapshot(), r, settled);
      var a := signCalls[r].session;
      if settled.Rejected? || !SessionMatches(a) {
        outcome := Fail(a, r);
      } else {
        outcome := Answer(a, r, SignOk(settled.value), true);
      }
    }
  }
}
