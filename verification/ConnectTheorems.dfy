/**
 What the IrohaConnect boundary guarantees after any interleaving of its calls with
 context changes, resets, closes and incoming frames.
 */
module ConnectTheorems {
  import opened Bytes
  import opened ConnectTypes
  import opened ConnectProtocol
  import opened ConnectSafety
  import opened ConnectRuns

  lemma ReachedInv(d: Dependencies, events: seq<Event>)
    ensures Inv(Run(d, INITIAL, events))
  {
    InitialInv();
    RunKeeps(d, INITIAL, events);
  }

  /** The state after a run from a fresh boundary. */
  ghost function Reached(d: Dependencies, events: seq<Event>): (s: State)
    ensures WellFormed(s)
  {
    ReachedInv(d, events);
    Run(d, INITIAL, events)
  }

  // ---------------------------------------------------------------- one session, in its own context

  /**
   Pending, authorising and active sessions number at most one; each carries the
   current context key, and the approval it stems from the current generation.
   */
  lemma AtMostOneSession(d: Dependencies, events: seq<Event>)
    ensures var s := Reached(d, events);
      && |s.pendingSessions| + |s.authorizing| + |s.sessions| <= 1
      && (forall t :: t in s.pendingSessions ==>
            s.pendings[s.pendingSessions[t]].contextKey == s.contextKey
            && s.pendings[s.pendingSessions[t]].generation == s.generation)
      && (forall t :: t in s.authorizing ==>
            s.pendings[s.authorizing[t]].contextKey == s.contextKey
            && s.pendings[s.authorizing[t]].generation == s.generation)
      && (forall t :: t in s.sessions ==>
            s.actives[s.sessions[t]].contextKey == s.contextKey
            && s.history.origin[s.sessions[t]] < |s.pendings|
            && s.pendings[s.history.origin[s.sessions[t]]].generation == s.generation)
  {
    hide Owners, Approvals, Secrets, Slots, SignCalls, SignLog, Sequences, Run;
    ReachedInv(d, events);
  }

  /** Generations only grow, and only an approval of the current generation is promoted. */
  ghost predicate PromotesOnlyCurrent(s: State, t: State) {
    && s.generation <= t.generation
    && |s.pendings| <= |t.pendings| && (forall p :: 0 <= p < |s.pendings| ==> t.pendings[p] == s.pendings[p])
    && (forall p :: p in t.history.promoted && p !in s.history.promoted ==>
          p < |s.pendings| && s.pendings[p].generation == s.generation)
  }

  ghost predicate SignsNothing(s: State, t: State) {
    t.history.signed == s.history.signed
  }

  /** `sign` is called for a request of this session now: it is live, in its own context, which was verified again. */
  ghost predicate LiveWhenSigned(d: Dependencies, s: State, e: SignEntry) {
    && e.session < |s.actives| && Matches(s, e.session)
    && d.contextKey(e.context) == s.actives[e.session].contextKey == s.contextKey
    && e.request in s.history.authorized
  }

  /** At most one signature is added, and only for a live session. */
  ghost predicate SignsOnlyLive(d: Dependencies, s: State, t: State) {
    || SignsNothing(s, t)
    || exists e :: t.history.signed == s.history.signed + [e] && LiveWhenSigned(d, s, e)
  }

  /** Nothing is promoted and nothing signed. */
  ghost predicate SameApprovals(s: State, t: State) {
    && t.generation == s.generation && t.pendings == s.pendings && t.history.promoted == s.history.promoted
    && t.history.signed == s.history.signed
  }

  lemma EncryptPromotesNothing(d: Dependencies, s: State, a: nat, payload: ResultPayload, answers: Option<nat>)
    requires WellFormed(s) && a < |s.actives|
    ensures SameApprovals(s, EncryptResult(d, s, a, payload, answers).0)
  {
    hide WellFormed;
  }

  lemma AnswerPromotesNothing(d: Dependencies, s: State, a: nat, r: nat, payload: ResultPayload, hasCatch: bool)
    requires WellFormed(s) && a < |s.actives| && r < |s.requests|
    ensures SameApprovals(s, Answer(d, s, a, r, payload, hasCatch).0)
    ensures SameApprovals(s, Fail(d, s, a, r).0)
  {
    hide WellFormed, EncryptResult;
    EncryptPromotesNothing(d, s, a, payload, Some(r));
    EncryptPromotesNothing(d, s, a, SignError(SigningFailed), Some(r));
  }

  lemma RefusePromotesNothing(d: Dependencies, s: State, a: nat, code: ErrorCode)
    requires WellFormed(s) && a < |s.actives|
    ensures SameApprovals(s, Refuse(d, s, a, code).0)
  {
    hide WellFormed;
  }

  lemma AcceptPromotesNothing(d: Dependencies, s: State, a: nat, requestType: RequestType, domainTag: Option<string>,
                              bytes: Option<seq<Byte>>, tokens: nat -> string, now: int)
    requires WellFormed(s) && a < |s.actives|
    ensures SameApprovals(s, AcceptRequest(d, s, a, requestType, domainTag, bytes, tokens, now).0)
  {
    hide WellFormed, Refuse, UniqueToken;
    RefusePromotesNothing(d, s, a, RequestInFlight);
    RefusePromotesNothing(d, s, a, PermissionDenied);
    RefusePromotesNothing(d, s, a, InvalidRequest);
    RefusePromotesNothing(d, s, a, InvalidTransaction);
  }

  lemma Unchanged(s: State)
    ensures SameApprovals(s, s)
  {
  }

  lemma ClosePromotesNothing(s: State, token: string)
    requires WellFormed(s)
    ensures SameApprovals(s, CloseSession(s, token))
  {
    hide EraseAll, SessionBuffers;
  }

  lemma ReleasePromotesNothing(s: State, a: nat, frame: Released)
    requires WellFormed(s) && a < |s.actives|
    ensures SameApprovals(s, Release(s, a, frame))
  {
    hide WellFormed;
  }

  lemma AcceptedPromotesNothing(d: Dependencies, s: State, a: nat, f: Frame, tokens: nat -> string, now: int)
    requires WellFormed(s) && a < |s.actives|
    ensures SameApprovals(s, ProcessAccepted(d, s, a, f, tokens, now).0)
  {
    hide AcceptRequest, CloseSession, SameApprovals;
    Unchanged(s);
    ClosePromotesNothing(s, s.actives[a].token);
    match f.body
    case ControlBody(Ping(nonce)) =>
      var pong := d.encodePong(s.actives[a].sid, s.actives[a].nextWalletSequence, nonce);
      if pong.Some? {
        ReleasePromotesNothing(s, a, PongFrame(s.actives[a].nextWalletSequence, pong.value));
      }
    case ControlBody(_) =>
    case CipherBody(_, aead) =>
      match d.decrypt(s.buffers[s.actives[a].appKey], s.actives[a].sid, f.sequence, aead)
      case Some(RawRequest(domainTag, bytes)) =>
        AcceptPromotesNothing(d, s, a, SignRaw, Some(domainTag), bytes, tokens, now);
      case Some(TxRequest(bytes)) => AcceptPromotesNothing(d, s, a, SignTx, None, bytes, tokens, now);
      case _ =>
  }

  lemma FramePromotesNothing(d: Dependencies, s: State, token: string, frame: Option<Frame>, tokens: nat -> string,
                             now: int)
    requires WellFormed(s)
    ensures SameApprovals(s, ProcessFrame(d, s, token, frame, tokens, now).0)
  {
    hide AcceptRequest, ProcessAccepted, Matches, IsBoundaryToken;
    var found := FindSession(s, token);
    if found.Some? && frame.Some? {
      var a := found.value;
      var t := AcceptAppFrame(s, a);
      assert WellFormed(t);
      AcceptedPromotesNothing(d, t, a, frame.value, tokens, now);
    }
  }

  lemma StartPromotesNothing(d: Dependencies, s: State, token: string, requestToken: string, now: int)
    requires WellFormed(s)
    ensures SameApprovals(s, RequestBegin(d, s, token, requestToken, now).0)
    ensures SameApprovals(s, RejectRequest(d, s, token, requestToken, now).0)
  {
    hide Answer, Fail, ConfirmationOf;
    var found := FindRequest(s, token, requestToken);
    if found.Some? {
      var a, r := FindSession(s, token).value, found.value;
      var t := MarkExecuting(s, a, r);
      assert WellFormed(t);
      var code := if now > s.requests[r].expiresAtMs then RequestExpired else UserRejected;
      AnswerPromotesNothing(d, t, a, r, SignError(RequestExpired), true);
      AnswerPromotesNothing(d, t, a, r, SignError(code), false);
    }
  }

  lemma AuthorizedPromotesNothing(d: Dependencies, s: State, r: nat, answer: Settled<bool>)
    requires WellFormed(s) && r in s.signCalls
    ensures SameApprovals(s, RequestAuthorized(d, s, r, answer).0)
  {
    hide WellFormed, Answer, Fail, Matches;
    CallInRange(s, r);
    AnswerPromotesNothing(d, s, s.signCalls[r].session, r, SignError(UserRejected), true);
  }

  lemma SignedPromotesNothing(d: Dependencies, s: State, r: nat, signature: Settled<seq<Byte>>)
    requires WellFormed(s) && r in s.signCalls
    ensures SameApprovals(s, RequestSigned(d, s, r, signature).0)
  {
    hide WellFormed, Answer, Fail, Matches;
    CallInRange(s, r);
    AnswerPromotesNothing(d, s, s.signCalls[r].session, r, SignError(UserRejected), true);
    if signature.Resolved? {
      AnswerPromotesNothing(d, s, s.signCalls[r].session, r, SignOk(signature.value), true);
    }
  }

  lemma VerifiedWasAuthorized(s: State, r: nat)
    requires Inv(s) && RequestAt(s, r, Verifying)
    ensures r in s.history.authorized
  {
    hide Records, Secrets, Slots, SignLog, Sequences;
  }

  lemma VerifiedSignsOnlyLive(d: Dependencies, s: State, r: nat, settled: Settled<Context>)
    requires Inv(s) && RequestAt(s, r, Verifying)
    ensures var t := RequestVerified(d, s, r, settled).0; PromotesOnlyCurrent(s, t) && SignsOnlyLive(d, s, t)
  {
    hide WellFormed, SignCalls, Slots, Fail;
    VerifiedWasAuthorized(s, r);
    hide Inv, WellFormed, Fail, Matches, SigningMessage;
    CallInRange(s, r);
    AnswerPromotesNothing(d, s, s.signCalls[r].session, r, SignError(SigningFailed), true);
    var t := RequestVerified(d, s, r, settled).0;
    if t != Fail(d, s, s.signCalls[r].session, r).0 {
      var e := t.history.signed[|s.history.signed|];
      assert t.history.signed == s.history.signed + [e] && LiveWhenSigned(d, s, e);
    }
  }

  lemma DisposePromotesNothing(s: State, key: string)
    requires WellFormed(s)
    ensures PromotesOnlyCurrent(s, Dispose(s, key)) && SignsNothing(s, Dispose(s, key))
  {
    hide WellFormed, DisposedBuffers, EraseAll, ClearSlots;
  }

  lemma NothingPromotesNothing(s: State)
    ensures PromotesOnlyCurrent(s, s) && SignsNothing(s, s)
  {
  }

  lemma ContextPromotesNothing(d: Dependencies, s: State, context: Context)
    requires WellFormed(s)
    ensures PromotesOnlyCurrent(s, SetContext(d, s, context)) && PromotesOnlyCurrent(s, Reset(s))
    ensures SignsNothing(s, SetContext(d, s, context)) && SignsNothing(s, Reset(s))
  {
    hide WellFormed, DisposeAll, PromotesOnlyCurrent, SignsNothing;
    NothingPromotesNothing(s);
    DisposePromotesNothing(s, "");
    if d.normalizeContext(context).Some? {
      DisposePromotesNothing(s, d.contextKey(d.normalizeContext(context).value));
    }
  }

  lemma PrepareBeginPromotesNothing(d: Dependencies, s: State, open: OpenRequest)
    ensures PromotesOnlyCurrent(s, PrepareBegin(d, s, open)) && SignsNothing(s, PrepareBegin(d, s, open))
  {
  }

  lemma AllocatePromotesNothing(s: State, secrets: seq<seq<Byte>>)
    ensures PromotesOnlyCurrent(s, AllocateErased(s, secrets)) && SignsNothing(s, AllocateErased(s, secrets))
  {
    hide Zeros;
  }

  lemma StorePromotesNothing(s: State, pending: Pending, keys: KeyMaterial, preimage: seq<Byte>)
    ensures var t := Prepare(s, pending, keys, preimage); PromotesOnlyCurrent(s, t) && SignsNothing(s, t)
  {
  }

  lemma PreparePromotesNothing(d: Dependencies, s: State, call: PrepareCall, settled: Settled<Context>,
                               keys: Option<KeyMaterial>, tokens: nat -> string, now: int)
    requires WellFormed(s)
    ensures var t := PrepareResume(d, s, call, settled, keys, tokens, now);
      PromotesOnlyCurrent(s, t) && SignsNothing(s, t)
  {
    hide WellFormed, UniqueToken, PrepareStillValid, AllocateErased, Prepare, PromotesOnlyCurrent, SignsNothing;
    NothingPromotesNothing(s);
    if settled.Resolved? && d.normalizeContext(settled.value).Some? && keys.Some? {
      var verified, secrets := d.normalizeContext(settled.value).value, [keys.value.appKey, keys.value.walletKey];
      var preimage, token := d.approvePreimage(call.open, verified, keys.value), UniqueToken(s, tokens, 0);
      AllocatePromotesNothing(s, secrets);
      if preimage.Some? {
        AllocatePromotesNothing(s, [keys.value.appKey, keys.value.walletKey, preimage.value]);
        if token.Some? {
          var n := |s.buffers|;
          var pending := Pending(token.value, d.contextKey(verified), call.generation, verified, call.open.sid,
                                 keys.value.walletPublicKeyHex, n, n + 1, call.permissions, n + 2,
                                 now + SESSION_APPROVAL_TTL_MS);
          StorePromotesNothing(s, pending, keys.value, preimage.value);
        }
      }
    }
  }

  lemma AbandonPromotesNothing(s: State, p: nat)
    requires p < |s.pendings|
    ensures SameApprovals(s, AbandonApproval(s, p))
  {
  }

  lemma ApproveStagesPromoteNothing(d: Dependencies, s: State, p: nat, answer: Settled<bool>,
                                    verified: Settled<Context>)
    requires WellFormed(s) && p in s.approveCalls
    ensures SameApprovals(s, ApproveAuthorized(s, p, answer)) && SameApprovals(s, ApproveVerified(d, s, p, verified))
  {
    hide AbandonApproval;
    AbandonPromotesNothing(s, p);
  }

  lemma ApproveBeginPromotesNothing(s: State, token: string, now: int)
    requires WellFormed(s)
    ensures SameApprovals(s, ApproveBegin(s, token, now))
  {
    hide AbandonApproval;
    if token in s.pendingSessions {
      AbandonPromotesNothing(Take(s, s.pendingSessions[token]), s.pendingSessions[token]);
    }
  }

  lemma ApproveSignedPromotesOnlyCurrent(d: Dependencies, s: State, p: nat, settled: Settled<seq<Byte>>,
                                         tokens: nat -> string)
    requires WellFormed(s) && p in s.approveCalls
    ensures PromotesOnlyCurrent(s, ApproveSigned(d, s, p, settled, tokens))
    ensures SignsNothing(s, ApproveSigned(d, s, p, settled, tokens))
  {
    hide AbandonApproval, UniqueToken;
    AbandonPromotesNothing(s, p);
  }

  /** Nothing but the signature of a live session, and nothing promoted but what is current. */
  lemma Suffices(d: Dependencies, s: State, t: State)
    ensures SameApprovals(s, t) ==> PromotesOnlyCurrent(s, t) && SignsNothing(s, t)
    ensures SignsNothing(s, t) ==> SignsOnlyLive(d, s, t)
  {
  }

  lemma StepPromotesOnlyCurrent(d: Dependencies, s: State, e: Event)
    requires Inv(s)
    ensures PromotesOnlyCurrent(s, Step(d, s, e)) && SignsOnlyLive(d, s, Step(d, s, e))
  {
    hide Inv, SameApprovals, PromotesOnlyCurrent, SignsNothing, SignsOnlyLive,
         ProcessFrame, RequestBegin, RejectRequest, RequestAuthorized, RequestVerified, RequestSigned,
         SetContext, Reset, CloseSession, PrepareBegin, PrepareResume,
         ApproveBegin, ApproveAuthorized, ApproveVerified, ApproveSigned;
    InvWellFormed(s);
    Suffices(d, s, Step(d, s, e));
    Unchanged(s);
    match e
    case FrameEvent(token, frame, tokens, now) => FramePromotesNothing(d, s, token, frame, tokens, now);
    case RequestEvent(token, requestToken, now) => StartPromotesNothing(d, s, token, requestToken, now);
    case RejectEvent(token, requestToken, now) => StartPromotesNothing(d, s, token, requestToken, now);
    case RequestAuthorizedEvent(r, answer) =>
      if r in s.signCalls { AuthorizedPromotesNothing(d, s, r, answer); }
    case RequestVerifiedEvent(r, verified) =>
      if RequestAt(s, r, Verifying) { VerifiedSignsOnlyLive(d, s, r, verified); }
    case RequestSignedEvent(r, signature) =>
      if r in s.signCalls { SignedPromotesNothing(d, s, r, signature); }
    case SetContextEvent(context) => ContextPromotesNothing(d, s, context);
    case ResetEvent => ContextPromotesNothing(d, s, Context("", "", 0, "", ""));
    case CloseEvent(token) => ClosePromotesNothing(s, token);
    case PrepareEvent(open) => PrepareBeginPromotesNothing(d, s, open);
    case PrepareResumed(call, context, keys, tokens, now) =>
      PreparePromotesNothing(d, s, call, context, keys, tokens, now);
    case ApproveEvent(token, now) => ApproveBeginPromotesNothing(s, token, now);
    case ApproveAuthorizedEvent(p, answer) =>
      if p in s.approveCalls { ApproveStagesPromoteNothing(d, s, p, answer, Rejected); }
    case ApproveVerifiedEvent(p, verified) =>
      if p in s.approveCalls { ApproveStagesPromoteNothing(d, s, p, Rejected, verified); }
    case ApproveSignedEvent(p, signature, tokens) =>
      if p in s.approveCalls { ApproveSignedPromotesOnlyCurrent(d, s, p, signature, tokens); }
  }

  lemma {:induction false} RunPromotesNothingStale(d: Dependencies, s: State, events: seq<Event>, p: nat)
    requires Inv(s) && p < |s.pendings| && s.pendings[p].generation < s.generation && p !in s.history.promoted
    ensures p !in Run(d, s, events).history.promoted
    decreases |events|
  {
    hide OneLive, Current, Owners, Approvals, Secrets, Slots, SignCalls, SignLog, Sequences, Step;
    if events == [] {
    } else {
      StepKeeps(d, s, events[0]);
      StepPromotesOnlyCurrent(d, s, events[0]);
      RunPromotesNothingStale(d, Step(d, s, events[0]), events[1..], p);
    }
  }

  /**
   An approval that straddles a reset never becomes a session, even if the boundary
   returns to the same context: whatever happened before, and whatever happens after,
   no session is promoted from a pending session that existed when `reset` ran.
   */
  lemma ResetEndsApprovals(d: Dependencies, before: seq<Event>, after: seq<Event>, p: nat)
    requires p < |Reached(d, before).pendings| && p !in Reached(d, before).history.promoted
    ensures p !in Run(d, Reset(Reached(d, before)), after).history.promoted
  {
    ReachedInv(d, before);
    var s := Reached(d, before);
    DisposeKeeps(s, "");
    assert s.pendings[p].generation <= s.generation;
    RunPromotesNothingStale(d, Reset(s), after, p);
  }

  /** The same for a change to any other context. */
  lemma ContextChangeEndsApprovals(d: Dependencies, before: seq<Event>, context: Context, after: seq<Event>, p: nat)
    requires p < |Reached(d, before).pendings| && p !in Reached(d, before).history.promoted
    requires SetContext(d, Reached(d, before), context).contextKey != Reached(d, before).contextKey
    ensures p !in Run(d, SetContext(d, Reached(d, before), context), after).history.promoted
  {
    hide Step;
    ReachedInv(d, before);
    var s := Reached(d, before);
    ContextKeeps(d, s, context);
    assert s.pendings[p].generation <= s.generation;
    RunPromotesNothingStale(d, SetContext(d, s, context), after, p);
  }

  // ---------------------------------------------------------------- signing

  lemma FailNeverSigns(d: Dependencies, s: State, a: nat, r: nat)
    requires WellFormed(s) && a < |s.actives| && r < |s.requests|
    ensures !Fail(d, s, a, r).1.AwaitsSignature?
    ensures Fail(d, s, a, r).1.Answered? ==> !Fail(d, s, a, r).1.signed
  {
    hide WellFormed;
  }

  /**
   `sign` is called only while the request's session object is live in its own
   context, after the user authorised this request, and with exactly the bytes that
   were reviewed.
   */
  lemma SignsOnlyLiveReviewed(d: Dependencies, events: seq<Event>, r: nat, settled: Settled<Context>)
    requires RequestAt(Reached(d, events), r, Verifying)
    ensures var s := Reached(d, events); var a := s.signCalls[r].session;
      var (t, outcome) := RequestVerified(d, s, r, settled);
      outcome.AwaitsSignature? ==>
        && Matches(s, a) && d.contextKey(outcome.context) == s.contextKey
        && r in s.history.authorized && IsReviewed(s, r, outcome.message)
        && r in t.signCalls && t.signCalls[r] == SignCall(a, Signing, s.signCalls[r].shown, outcome.message)
  {
    hide Fail, Owners, Approvals, Secrets, SignLog, Sequences, Run, ConfirmationOf;
    ReachedInv(d, events);
    var s := Reached(d, events);
    FailNeverSigns(d, s, s.signCalls[r].session, r);
    if Matches(s, s.signCalls[r].session) {
      MessageIntact(s, r);
    }
  }

  lemma SignedAnswer(d: Dependencies, s: State, r: nat, settled: Settled<seq<Byte>>)
    requires WellFormed(s) && r in s.signCalls
    ensures var outcome := RequestSigned(d, s, r, settled).1;
      outcome.Answered? && outcome.signed ==> settled.Resolved?
  {
    hide WellFormed, EncryptResult, Fail, Matches;
    CallInRange(s, r);
    FailNeverSigns(d, s, s.signCalls[r].session, r);
  }

  /**
   When `approveRequest` reports `signed: true`, exactly one call of `sign` was made
   for the request; its bytes were the message as received, or for a transaction the
   hash whose text the user reviewed, and the user had authorised it.
   */
  lemma SignedMeansReviewed(d: Dependencies, events: seq<Event>, r: nat, settled: Settled<seq<Byte>>)
    requires RequestAt(Reached(d, events), r, Signing)
    ensures var s := Reached(d, events); var outcome := RequestSigned(d, s, r, settled).1;
      outcome.Answered? && outcome.signed ==>
        && settled.Resolved? && r in s.history.authorized
        && exists i :: 0 <= i < |s.history.signed| && s.history.signed[i].request == r
             && IsReviewed(s, r, s.history.signed[i].message)
             && forall j :: 0 <= j < |s.history.signed| && s.history.signed[j].request == r ==> j == i
  {
    hide RequestSigned, Owners, Approvals, Secrets, Slots, Sequences, Run, ConfirmationOf;
    ReachedInv(d, events);
    var s := Reached(d, events);
    SignedAnswer(d, s, r, settled);
    var i :| 0 <= i < |s.history.signed| && s.history.signed[i].request == r;
    assert IsReviewed(s, r, s.history.signed[i].message);
  }

  /**
   Over a whole run every signature was authorised, its bytes are what was received or
   the hash whose text was reviewed, the user had been shown just that, and no request
   was signed twice.
   */
  lemma EverySignatureReviewed(d: Dependencies, events: seq<Event>)
    ensures var s := Reached(d, events);
      && (forall i :: 0 <= i < |s.history.signed| ==>
            var e := s.history.signed[i];
            && e.request in s.history.authorized && e.request < |s.requests|
            && var request := s.requests[e.request];
               match request.requestType
               case SignRaw =>
                 && e.message == s.history.initial[request.message]
                 && e.shown == ConfirmRaw(request.domainTag, |e.message|, Prefix(e.message, 96))
               case SignTx =>
                 && request.review.Some? && Hex(e.message) == request.review.value.payloadHashHex
                 && e.shown == ConfirmTx(request.review.value))
      && (forall i, j :: 0 <= i < j < |s.history.signed| ==> s.history.signed[i].request != s.history.signed[j].request)
  {
    hide Owners, Approvals, Secrets, Slots, SignCalls, Sequences, Run;
    ReachedInv(d, events);
  }

  lemma {:induction false} SignaturesStay(d: Dependencies, s: State, events: seq<Event>)
    requires Inv(s)
    ensures s.history.signed <= Run(d, s, events).history.signed
    decreases |events|
  {
    hide Inv, WellFormed, Step, LiveWhenSigned;
    if events == [] {
    } else {
      InvWellFormed(s);
      StepKeeps(d, s, events[0]);
      StepPromotesOnlyCurrent(d, s, events[0]);
      SignaturesStay(d, Step(d, s, events[0]), events[1..]);
    }
  }

  /** The moment in a run at which a signature was started. */
  ghost predicate SignedAt(d: Dependencies, s: State, events: seq<Event>, n: nat, i: nat, e: SignEntry) {
    && n < |events| && |Run(d, s, events[..n]).history.signed| == i && LiveWhenSigned(d, Run(d, s, events[..n]), e)
  }

  lemma {:induction false} RunSignsOnlyLive(d: Dependencies, s: State, events: seq<Event>, i: nat) returns (n: nat)
    requires Inv(s) && |s.history.signed| <= i < |Run(d, s, events).history.signed|
    ensures SignedAt(d, s, events, n, i, Run(d, s, events).history.signed[i])
    decreases |events|
  {
    hide Inv, WellFormed, Step, LiveWhenSigned;
    InvWellFormed(s);
    StepKeeps(d, s, events[0]);
    StepPromotesOnlyCurrent(d, s, events[0]);
    var t := Step(d, s, events[0]);
    SignaturesStay(d, t, events[1..]);
    if i < |t.history.signed| {
      n := 0;
      assert events[..0] == [];
    } else {
      var m := RunSignsOnlyLive(d, t, events[1..], i);
      n := m + 1;
      assert events[..n][0] == events[0] && events[..n][1..] == events[1..][..m];
    }
  }

  /**
   Every signature of a run was started at some moment when its session was live in its
   own context, which had just been verified again, and the user had authorised it.
   */
  lemma SignedWhileLive(d: Dependencies, events: seq<Event>, i: nat)
    requires i < |Reached(d, events).history.signed|
    ensures exists n :: SignedAt(d, INITIAL, events, n, i, Reached(d, events).history.signed[i])
  {
    hide Run, LiveWhenSigned;
    InitialInv();
    var n := RunSignsOnlyLive(d, INITIAL, events, i);
  }

  lemma SigningPreimage(s: State, p: nat)
    requires Inv(s) && ApproveAt(s, p, Signing)
    ensures p < |s.pendings| && p !in s.history.promoted && s.pendings[p].preimage < |s.history.initial|
    ensures s.pendings[p].generation == s.generation ==>
      s.approveCalls[p].message == s.history.initial[s.pendings[p].preimage]
  {
    hide OneLive, Current, Owners, Secrets, Slots, SignCalls, SignLog, Sequences;
  }

  /**
   Whenever an approval is promoted, what `approveSession` had handed to `sign` was its
   preimage as it was built, although the generation is checked only after `sign`.
   */
  lemma PromotionSignedPreimage(d: Dependencies, events: seq<Event>, p: nat, settled: Settled<seq<Byte>>,
                                tokens: nat -> string)
    requires ApproveAt(Reached(d, events), p, Signing)
    ensures var s := Reached(d, events);
      p in ApproveSigned(d, s, p, settled, tokens).history.promoted ==>
        p < |s.pendings| && s.approveCalls[p].message == s.history.initial[s.pendings[p].preimage]
  {
    ReachedInv(d, events);
    var s := Reached(d, events);
    SigningPreimage(s, p);
    hide Run, Inv, AbandonApproval, Promote;
    AbandonPromotesNothing(s, p);
  }

  // ---------------------------------------------------------------- secrets

  lemma DisposedOf(s: State, b: nat)
    requires WellFormed(s) && OneLive(s) && b in DisposedBuffers(s)
    ensures s.history.live != NoneLive
    ensures s.history.live.PendingLive? ==> b in PendingBuffers(s.pendings[s.history.live.pending])
    ensures s.history.live.AuthorizingLive? ==> b in PendingBuffers(s.pendings[s.history.live.pending])
    ensures s.history.live.SessionLive? ==> b in SessionBuffers(s.requests, s.actives[s.history.live.session])
  {
    hide PendingBuffers, SessionBuffers;
  }

  /** The buffers of the live records are those of the live owners. */
  lemma OnlyLiveIsDisposed(s: State, b: nat)
    requires Inv(s) && b < |s.buffers| && b in DisposedBuffers(s)
    ensures OwnerLive(s, s.history.owner[b])
  {
    hide Secrets, Slots, SignCalls, SignLog, Sequences, Approvals, PendingBuffers, DisposedBuffers;
    DisposedOf(s, b);
    match s.history.live
    case NoneLive =>
    case PendingLive(p) => PendingOwners(s, p, b);
    case AuthorizingLive(p) => PendingOwners(s, p, b);
    case SessionLive(a) => PendingOwners(s, s.history.origin[a], b);
  }

  /**
   Every buffer the boundary ever filled with a key, an approval preimage or a request
   message is, at each await boundary, untouched and owned by the one live record, or
   all zero, whichever path ended it.
   */
  lemma SecretsOwnedOrErased(d: Dependencies, events: seq<Event>, b: nat)
    requires b < |Reached(d, events).buffers|
    ensures var s := Reached(d, events);
      if b in DisposedBuffers(s) then s.buffers[b] == s.history.initial[b] else IsZero(s.buffers[b])
  {
    hide Slots, SignCalls, SignLog, Sequences, Run, Owners, Approvals, Current, OneLive, DisposedBuffers;
    ReachedInv(d, events);
    var s := Reached(d, events);
    if OwnerLive(s, s.history.owner[b]) {
      LiveIsDisposed(s, b);
    } else if b in DisposedBuffers(s) {
      OnlyLiveIsDisposed(s, b);
    }
  }

  lemma PendingIsListed(s: State, p: nat)
    requires WellFormed(s) && OneLive(s)
    ensures s.history.live == PendingLive(p) ==> p in s.pendingSessions.Values
  {
    if s.history.live == PendingLive(p) {
      assert s.pendings[p].token in s.pendingSessions;
    }
  }

  /** The approval preimage is zero once `approveSession` has ended. */
  lemma PreimageErased(d: Dependencies, events: seq<Event>, p: nat)
    requires p < |Reached(d, events).pendings| && p !in Reached(d, events).approveCalls
    requires p !in Reached(d, events).pendingSessions.Values
    ensures var s := Reached(d, events); IsZero(s.buffers[s.pendings[p].preimage])
  {
    hide Slots, SignCalls, SignLog, Sequences, Run;
    ReachedInv(d, events);
    PendingIsListed(Reached(d, events), p);
  }

  /** Result frames are sealed with the wallet key as derived, never with an erased one. */
  lemma SealsWithDerivedKey(d: Dependencies, events: seq<Event>, a: nat, payload: ResultPayload,
                            answers: Option<nat>)
    requires a < |Reached(d, events).actives|
    ensures var s := Reached(d, events); var (t, frame) := EncryptResult(d, s, a, payload, answers);
      frame.Some? ==>
        frame == d.encryptResult(s.history.initial[s.actives[a].walletKey], s.actives[a].sid,
          |s.history.released[a]| + 1, payload)
  {
    hide Slots, SignCalls, SignLog, Run;
    ReachedInv(d, events);
    var s := Reached(d, events);
    if Matches(s, a) {
      assert s.history.live == SessionLive(a);
      assert s.history.owner[s.actives[a].walletKey] == WalletKeyOf(s.history.origin[a]);
    }
  }

  // ---------------------------------------------------------------- sequence numbers

  /**
   Within each session the released wallet frames (approval, pongs, results and errors)
   are numbered 1, 2, 3, ..., the accepted app frames 2, 3, ..., the server events
   1, 2, ...; and no two released frames, of whatever sessions, answer the same request.
   */
  lemma SequencesExact(d: Dependencies, events: seq<Event>)
    ensures var s := Reached(d, events);
      && (forall a, i :: 0 <= a < |s.actives| && 0 <= i < |s.history.released[a]| ==>
           s.history.released[a][i].sequence == i + 1)
      && (forall a, i :: 0 <= a < |s.actives| && 0 <= i < |s.history.acceptedApp[a]| ==>
           s.history.acceptedApp[a][i] == i + 2)
      && (forall a, i :: 0 <= a < |s.actives| && 0 <= i < |s.history.acceptedServer[a]| ==>
           s.history.acceptedServer[a][i] == i + 1)
      && (forall r: nat, a, i, b, j :: 0 <= a < |s.actives| && 0 <= i < |s.history.released[a]| ==>
            0 <= b < |s.actives| && 0 <= j < |s.history.released[b]| ==>
              Answers(s.history.released[a][i], r) && Answers(s.history.released[b][j], r) ==> a == b && i == j)
  {
    hide OneLive, Current, Owners, Approvals, Secrets, Slots, SignCalls, SignLog, Run;
    ReachedInv(d, events);
    var s := Reached(d, events);
    forall a | 0 <= a < |s.actives|
      ensures Numbered(s.history.released[a], s.actives[a].nextWalletSequence)
      ensures Consecutive(s.history.acceptedApp[a], 2, s.actives[a].nextAppSequence)
      ensures Consecutive(s.history.acceptedServer[a], 1, s.actives[a].nextServerSequence)
    {
    }
  }

  /** A request that is being executed always has a suspended call that will answer it. */
  lemma ExecutingIsSuspended(d: Dependencies, events: seq<Event>, a: nat)
    requires a < |Reached(d, events).actives| && Reached(d, events).actives[a].slot.Slot?
    requires Reached(d, events).actives[a].slot.phase == Executing
    ensures var s := Reached(d, events); var r := s.actives[a].slot.request;
      r in s.signCalls && s.signCalls[r].session == a && Matches(s, a)
  {
    hide Owners, Secrets, SignLog, Sequences, Run;
    ReachedInv(d, events);
  }
}
