/** Every interleaving of calls to the IrohaConnect boundary, and what holds after it. */
module ConnectRuns {
  import opened Bytes
  import opened ConnectTypes
  import opened ConnectProtocol
  import opened ConnectSafety

  // ---------------------------------------------------------------- composite steps

  /** Finishing a request and releasing a frame can be exchanged. */
  lemma FinishReleases(s: State, a: nat, r: nat, frame: Released)
    requires a < |s.actives| == |s.history.released| && r < |s.requests|
    ensures FinishRequest(Release(s, a, frame), a, r) == Release(FinishRequest(s, a, r), a, frame)
  {
    hide EraseAll;
    var t, u := FinishRequest(Release(s, a, frame), a, r), Release(FinishRequest(s, a, r), a, frame);
    assert t.actives == u.actives;
  }

  lemma FinishKeepsNumbers(s: State, a: nat, r: nat)
    requires a < |s.actives| && r < |s.requests|
    ensures var t := FinishRequest(s, a, r);
      && |t.actives| == |s.actives| && t.requests == s.requests && t.history == s.history
      && t.actives[a].nextWalletSequence == s.actives[a].nextWalletSequence
  {
  }

  lemma AnsweredKeeps(d: Dependencies, s: State, a: nat, r: nat, payload: ResultPayload, busy: Option<nat>)
    requires InvBut(s, busy) && Finishable(s, a, r, busy) && Unanswered(s.history.released, r)
    ensures var (t, frame) := EncryptResult(d, s, a, payload, Some(r)); frame.Some? ==> Inv(FinishRequest(t, a, r))
  {
    hide Owners, Approvals, Secrets, Slots, SignCalls, SignLog, Sequences, Unanswered, Release, FinishRequest;
    var frame := EncryptResult(d, s, a, payload, Some(r)).1;
    if frame.Some? {
      var released := ResultFrame(s.actives[a].nextWalletSequence, frame.value, payload, Some(r));
      FinishKeeps(s, a, r, busy);
      FinishKeepsNumbers(s, a, r);
      ReleaseKeeps(FinishRequest(s, a, r), a, released, None);
      FinishReleases(s, a, r, released);
    }
  }

  lemma FailKeeps(d: Dependencies, s: State, a: nat, r: nat, busy: Option<nat>)
    requires InvBut(s, busy) && Finishable(s, a, r, busy) && Unanswered(s.history.released, r)
    ensures Inv(Fail(d, s, a, r).0)
  {
    hide Owners, Approvals, Secrets, Slots, SignCalls, SignLog, Sequences;
    AnsweredKeeps(d, s, a, r, SignError(SigningFailed), busy);
    FinishKeeps(s, a, r, busy);
  }

  lemma AnswerKeeps(d: Dependencies, s: State, a: nat, r: nat, payload: ResultPayload, hasCatch: bool,
                    busy: Option<nat>)
    requires InvBut(s, busy) && Finishable(s, a, r, busy) && Unanswered(s.history.released, r)
    ensures Inv(Answer(d, s, a, r, payload, hasCatch).0)
  {
    hide Owners, Approvals, Secrets, Slots, SignCalls, SignLog, Sequences;
    AnsweredKeeps(d, s, a, r, payload, busy);
    FailKeeps(d, s, a, r, busy);
    FinishKeeps(s, a, r, busy);
  }

  lemma RefuseKeeps(d: Dependencies, s: State, a: nat, code: ErrorCode)
    requires Inv(s) && a < |s.actives|
    ensures Inv(Refuse(d, s, a, code).0)
  {
    hide Owners, Approvals, Secrets, Slots, SignCalls, SignLog, Sequences, Release, Unanswered, Unfinished;
    var frame := EncryptResult(d, s, a, SignError(code), None).1;
    if frame.Some? {
      ReleaseKeeps(s, a, ResultFrame(s.actives[a].nextWalletSequence, frame.value, SignError(code), None), None);
    }
  }

  lemma AcceptRequestKeeps(d: Dependencies, s: State, a: nat, requestType: RequestType, domainTag: Option<string>,
                           bytes: Option<seq<Byte>>, tokens: nat -> string, now: int)
    requires Inv(s) && a < |s.actives| && s.history.live == SessionLive(a)
    ensures Inv(AcceptRequest(d, s, a, requestType, domainTag, bytes, tokens, now).0)
  {
    hide Owners, Approvals, Secrets, Slots, SignCalls, SignLog, Sequences;
    var session := s.actives[a];
    if session.slot.Slot? {
      RefuseKeeps(d, s, a, RequestInFlight);
    } else if !d.permits(session.permissions, requestType, domainTag) {
      RefuseKeeps(d, s, a, PermissionDenied);
    } else if bytes.Some? {
      if bytes.value == [] {
        RefuseKeeps(d, s, a, InvalidRequest);
      } else if requestType == SignTx && d.reviewTransaction(session.context, bytes.value).None? {
        RefuseKeeps(d, s, a, InvalidTransaction);
      } else {
        var token := UniqueToken(s, tokens, 0);
        if token.Some? {
          var review := if requestType == SignTx
            then Some(d.reviewTransaction(session.context, bytes.value).value.review)
                        else None;
          StoreKeeps(s, a, NewRequest(s, a, token.value, requestType, domainTag, review, now), bytes.value);
        }
      }
    }
  }

  lemma ProcessAcceptedKeeps(d: Dependencies, s: State, a: nat, f: Frame, tokens: nat -> string, now: int)
    requires Inv(s) && a < |s.actives| && s.history.live == SessionLive(a)
    ensures Inv(ProcessAccepted(d, s, a, f, tokens, now).0)
  {
    hide Owners, Approvals, Secrets, Slots, SignCalls, SignLog, Sequences, AcceptRequest, CloseSession;
    match f.body
    case ControlBody(Close(_)) => CloseKeeps(s, s.actives[a].token);
    case ControlBody(Ping(nonce)) =>
      var pong := d.encodePong(s.actives[a].sid, s.actives[a].nextWalletSequence, nonce);
      if pong.Some? {
        ReleaseKeeps(s, a, PongFrame(s.actives[a].nextWalletSequence, pong.value), None);
      }
    case ControlBody(_) =>
    case CipherBody(appToWallet, aead) =>
      match d.decrypt(s.buffers[s.actives[a].appKey], s.actives[a].sid, f.sequence, aead)
      case None =>
      case Some(ControlClose(_)) => CloseKeeps(s, s.actives[a].token);
      case Some(OtherPayload) =>
      case Some(RawRequest(domainTag, bytes)) =>
        AcceptRequestKeeps(d, s, a, SignRaw, Some(domainTag), bytes, tokens, now);
      case Some(TxRequest(bytes)) => AcceptRequestKeeps(d, s, a, SignTx, None, bytes, tokens, now);
  }

  lemma ProcessFrameKeeps(d: Dependencies, s: State, token: string, frame: Option<Frame>, tokens: nat -> string,
                          now: int)
    requires Inv(s)
    ensures Inv(ProcessFrame(d, s, token, frame, tokens, now).0)
  {
    hide Owners, Approvals, Secrets, Slots, SignCalls, SignLog, Sequences, ProcessAccepted;
    var found := FindSession(s, token);
    if found.Some? && frame.Some? {
      var a := found.value;
      assert s.history.live == SessionLive(a);
      ServerEventKeeps(s, a);
      AppFrameKeeps(s, a);
      ProcessAcceptedKeeps(d, AcceptAppFrame(s, a), a, frame.value, tokens, now);
    }
  }

  /** An awaiting request that starts executing has neither been signed nor answered. */
  lemma MarkReady(s: State, a: nat, r: nat)
    requires Inv(s) && a < |s.actives| && s.actives[a].slot == Slot(AwaitingConfirmation, r)
    ensures var t := MarkExecuting(s, a, r);
      InvBut(t, Some(r)) && Finishable(t, a, r, Some(r)) && Unanswered(t.history.released, r) && NeverSigned(t, r)
  {
    hide Owners, Approvals, Secrets, SignLog, Sequences;
    MarkKeeps(s, a, r);
  }

  lemma RejectKeeps(d: Dependencies, s: State, sessionToken: string, requestToken: string, now: int)
    requires Inv(s)
    ensures Inv(RejectRequest(d, s, sessionToken, requestToken, now).0)
  {
    hide Owners, Approvals, Secrets, Slots, SignCalls, SignLog, Sequences, WellFormed, Answer, FindSession;
    var found := FindRequest(s, sessionToken, requestToken);
    if found.Some? {
      var a, r := FindSession(s, sessionToken).value, found.value;
      MarkReady(s, a, r);
      var code := if now > s.requests[r].expiresAtMs then RequestExpired else UserRejected;
      AnswerKeeps(d, MarkExecuting(s, a, r), a, r, SignError(code), false, Some(r));
    }
  }

  lemma SuspendWellFormed(s: State, a: nat, r: nat, shown: Confirmation)
    requires WellFormed(s) && a < |s.actives| && r < |s.requests|
    ensures WellFormed(Suspend(s, a, r, shown))
  {
  }

  lemma SuspendCalls(s: State, a: nat, r: nat, shown: Confirmation)
    requires WellFormed(s) && SignCalls(s) && Finishable(s, a, r, Some(r)) && Unanswered(s.history.released, r)
    requires NeverSigned(s, r) && WasShown(s, r, shown) && WellFormed(Suspend(s, a, r, shown))
    ensures SignCalls(Suspend(s, a, r, shown))
  {
    hide WellFormed, ConfirmationOf;
  }

  lemma SuspendRequests(s: State, a: nat, r: nat, shown: Confirmation)
    requires InvBut(s, Some(r)) && Finishable(s, a, r, Some(r))
    requires Unanswered(s.history.released, r) && NeverSigned(s, r)
    requires WasShown(s, r, shown)
    ensures var t := Suspend(s, a, r, shown); WellFormed(t) && Slots(t, None) && SignCalls(t)
  {
    hide OneLive, Current, Owners, Approvals, Secrets, SignCalls, SignLog, Sequences, ConfirmationOf;
    SuspendWellFormed(s, a, r, shown);
    SuspendCalls(s, a, r, shown);
  }

  lemma SuspendKeeps(s: State, a: nat, r: nat, shown: Confirmation)
    requires InvBut(s, Some(r)) && Finishable(s, a, r, Some(r))
    requires Unanswered(s.history.released, r) && NeverSigned(s, r)
    requires WasShown(s, r, shown)
    ensures Inv(Suspend(s, a, r, shown))
  {
    hide Owners, Approvals, Secrets, Slots, SignCalls, SignLog, Sequences, WellFormed;
    var t := Suspend(s, a, r, shown);
    SuspendRequests(s, a, r, shown);
    RecordsFrame(s, t);
    SecretsFrame(s, t);
    HistoryFrame(s, t);
  }

  /** The buffer of an awaiting request still holds the bytes that were received. */
  lemma AwaitingIntact(s: State, a: nat, r: nat)
    requires Inv(s) && a < |s.actives| && s.actives[a].slot == Slot(AwaitingConfirmation, r)
    ensures s.buffers[s.requests[r].message] == s.history.initial[s.requests[r].message]
  {
    hide Approvals, SignCalls, SignLog, Sequences;
    assert s.history.live == SessionLive(a);
    assert s.history.owner[s.requests[r].message] == MessageOf(r);
  }

  lemma RequestBeginKeeps(d: Dependencies, s: State, sessionToken: string, requestToken: string, now: int)
    requires Inv(s)
    ensures Inv(RequestBegin(d, s, sessionToken, requestToken, now).0)
  {
    hide Owners, Approvals, Secrets, Slots, SignCalls, SignLog, Sequences;
    var found := FindRequest(s, sessionToken, requestToken);
    if found.Some? {
      var a, r := FindSession(s, sessionToken).value, found.value;
      MarkReady(s, a, r);
      AnswerKeeps(d, MarkExecuting(s, a, r), a, r, SignError(RequestExpired), true, Some(r));
      AwaitingIntact(s, a, r);
      SuspendKeeps(MarkExecuting(s, a, r), a, r, ConfirmationOf(s.requests[r], s.buffers[s.requests[r].message]));
    }
  }

  lemma AuthorizeWellFormed(s: State, a: nat, r: nat)
    requires WellFormed(s) && r in s.signCalls && s.signCalls[r].session == a
    ensures WellFormed(Authorize(s, a, r))
  {
  }

  lemma AuthorizeCalls(s: State, a: nat, r: nat)
    requires WellFormed(s) && SignCalls(s) && r in s.signCalls
    requires s.signCalls[r] == SignCall(a, Authorizing, s.signCalls[r].shown, s.signCalls[r].message)
    requires WellFormed(Authorize(s, a, r))
    ensures SignCalls(Authorize(s, a, r))
  {
    hide WellFormed, ConfirmationOf;
  }

  lemma AuthorizeRequests(s: State, a: nat, r: nat)
    requires Inv(s) && r in s.signCalls
    requires s.signCalls[r] == SignCall(a, Authorizing, s.signCalls[r].shown, s.signCalls[r].message)
    ensures var t := Authorize(s, a, r); WellFormed(t) && Slots(t, None) && SignCalls(t)
  {
    hide WellFormed, OneLive, Current, Owners, Approvals, Secrets, SignCalls, SignLog, Sequences;
    AuthorizeWellFormed(s, a, r);
    AuthorizeCalls(s, a, r);
  }

  lemma AuthorizeKeeps(s: State, a: nat, r: nat)
    requires Inv(s) && r in s.signCalls
    requires s.signCalls[r] == SignCall(a, Authorizing, s.signCalls[r].shown, s.signCalls[r].message)
    ensures Inv(Authorize(s, a, r))
  {
    hide Owners, Approvals, Secrets, Slots, SignCalls, SignLog, Sequences;
    var t := Authorize(s, a, r);
    AuthorizeRequests(s, a, r);
    RecordsFrame(s, t);
    SecretsFrame(s, t);
    HistoryFrame(s, t);
  }

  lemma RequestAuthorizedKeeps(d: Dependencies, s: State, r: nat, settled: Settled<bool>)
    requires Inv(s) && r in s.signCalls && s.signCalls[r].stage == Authorizing
    ensures Inv(RequestAuthorized(d, s, r, settled).0)
  {
    hide Owners, Approvals, Secrets, SignLog, Sequences, EncryptResult, Matches;
    var a := s.signCalls[r].session;
    if settled.Rejected? || !Matches(s, a) {
      FailKeeps(d, s, a, r, None);
    } else if !settled.value {
      AnswerKeeps(d, s, a, r, SignError(UserRejected), true, None);
    } else {
      AuthorizeKeeps(s, a, r);
    }
  }

  lemma SignStartedWellFormed(s: State, a: nat, r: nat, message: seq<Byte>, verified: Context)
    requires WellFormed(s) && r in s.signCalls && s.signCalls[r].session == a
    ensures WellFormed(StartSigning(s, a, r, message, verified))
  {
  }

  lemma SignStartedLog(s: State, a: nat, r: nat, message: seq<Byte>, verified: Context)
    requires WellFormed(s) && SignLog(s) && SignCalls(s) && r in s.signCalls
    requires s.signCalls[r].stage == Verifying && s.signCalls[r].session == a
    requires IsReviewed(s, r, message)
    ensures var t := StartSigning(s, a, r, message, verified);
      WellFormed(t) && SignLog(t) && (Sequences(s) ==> Sequences(t))
  {
    hide WellFormed, ConfirmationOf, Numbered, Consecutive;
    SignStartedWellFormed(s, a, r, message, verified);
    CallInRange(s, r);
  }

  lemma SignStartedSlots(s: State, a: nat, r: nat, message: seq<Byte>, verified: Context)
    requires WellFormed(s) && Slots(s, None) && r in s.signCalls && s.signCalls[r].session == a
    requires WellFormed(StartSigning(s, a, r, message, verified))
    ensures Slots(StartSigning(s, a, r, message, verified), None)
  {
  }

  lemma SignStartedCalls(s: State, a: nat, r: nat, message: seq<Byte>, verified: Context)
    requires WellFormed(s) && SignCalls(s) && r in s.signCalls
    requires s.signCalls[r].stage == Verifying && s.signCalls[r].session == a
    requires WellFormed(StartSigning(s, a, r, message, verified))
    ensures SignCalls(StartSigning(s, a, r, message, verified))
  {
    hide WellFormed, ConfirmationOf;
    var t := StartSigning(s, a, r, message, verified);
    var n := |s.history.signed|;
    assert t.history.signed[n].request == r && t.history.signed[n].message == message;
    forall q, i | q in s.signCalls && 0 <= i < n && s.history.signed[i].request == q
      ensures t.history.signed[i] == s.history.signed[i]
    {
    }
  }

  lemma SignStartedKeeps(s: State, a: nat, r: nat, message: seq<Byte>, verified: Context)
    requires Inv(s) && r in s.signCalls && s.signCalls[r].stage == Verifying
    requires s.signCalls[r].session == a && IsReviewed(s, r, message)
    ensures Inv(StartSigning(s, a, r, message, verified))
  {
    hide Owners, Approvals, Secrets, Slots, SignCalls, SignLog, Sequences;
    var t := StartSigning(s, a, r, message, verified);
    SignStartedLog(s, a, r, message, verified);
    SignStartedSlots(s, a, r, message, verified);
    SignStartedCalls(s, a, r, message, verified);
    RecordsFrame(s, t);
    SecretsFrame(s, t);
  }

  lemma CallHasSlot(s: State, r: nat)
    requires WellFormed(s) && SignCalls(s) && r in s.signCalls
    ensures s.history.live == SessionLive(s.signCalls[r].session) ==>
      s.actives[s.signCalls[r].session].slot == Slot(Executing, r)
  {
    hide ConfirmationOf;
  }

  lemma MessageOwner(s: State, r: nat)
    requires WellFormed(s) && Owners(s) && r < |s.requests|
    ensures s.requests[r].message < |s.buffers| && s.history.owner[s.requests[r].message] == MessageOf(r)
  {
  }

  /** While the session is live, the request's buffer still holds what the user was shown. */
  lemma MessageIntact(s: State, r: nat)
    requires Inv(s) && r in s.signCalls && Matches(s, s.signCalls[r].session)
    ensures s.buffers[s.requests[r].message] == s.history.initial[s.requests[r].message]
  {
    hide WellFormed, Current, Approvals, Slots, SignCalls, SignLog, Sequences, ConfirmationOf;
    CallInRange(s, r);
    var a := s.signCalls[r].session;
    assert s.history.live == SessionLive(a);
    CallHasSlot(s, r);
    MessageOwner(s, r);
  }

  lemma RequestVerifiedKeeps(d: Dependencies, s: State, r: nat, settled: Settled<Context>)
    requires Inv(s) && r in s.signCalls && s.signCalls[r].stage == Verifying
    ensures Inv(RequestVerified(d, s, r, settled).0)
  {
    hide EncryptResult, Sequences, SignLog, Matches;
    var a := s.signCalls[r].session;
    if settled.Rejected? || d.normalizeContext(settled.value).None? || !Matches(s, a) {
      FailKeeps(d, s, a, r, None);
    } else {
      var verified := d.normalizeContext(settled.value).value;
      var message := SigningMessage(d, s.requests[r], s.buffers[s.requests[r].message], verified);
      if d.contextKey(verified) != s.actives[a].contextKey || message.None? {
        FailKeeps(d, s, a, r, None);
      } else {
        MessageIntact(s, r);
        SignStartedKeeps(s, a, r, message.value, verified);
      }
    }
  }

  lemma RequestSignedKeeps(d: Dependencies, s: State, r: nat, settled: Settled<seq<Byte>>)
    requires Inv(s) && r in s.signCalls
    ensures Inv(RequestSigned(d, s, r, settled).0)
  {
    var a := s.signCalls[r].session;
    if settled.Rejected? || !Matches(s, a) {
      FailKeeps(d, s, a, r, None);
    } else {
      AnswerKeeps(d, s, a, r, SignOk(settled.value), true, None);
    }
  }

  lemma PrepareResumeKeeps(d: Dependencies, s: State, call: PrepareCall, settled: Settled<Context>,
                           keys: Option<KeyMaterial>, tokens: nat -> string, now: int)
    requires Inv(s)
    ensures Inv(PrepareResume(d, s, call, settled, keys, tokens, now))
  {
    hide Owners, Approvals, Secrets, Slots, SignCalls, SignLog, Sequences, WellFormed;
    if settled.Resolved? && d.normalizeContext(settled.value).Some? && keys.Some? {
      var verified := d.normalizeContext(settled.value).value;
      if PrepareStillValid(d, s, call, verified) {
        var preimage := d.approvePreimage(call.open, verified, keys.value);
        if preimage.None? {
          AllocateErasedKeeps(s, [keys.value.appKey, keys.value.walletKey]);
        } else {
          var token := UniqueToken(s, tokens, 0);
          if token.None? {
            AllocateErasedKeeps(s, [keys.value.appKey, keys.value.walletKey, preimage.value]);
          } else {
            var n := |s.buffers|;
            PrepareKeeps(s, Pending(token.value, d.contextKey(verified), call.generation, verified, call.open.sid,
                                    keys.value.walletPublicKeyHex, n, n + 1, call.permissions, n + 2,
                                    now + SESSION_APPROVAL_TTL_MS), keys.value, preimage.value);
          }
        }
      }
    }
  }

  lemma ApproveBeginKeeps(s: State, token: string, now: int)
    requires Inv(s)
    ensures Inv(ApproveBegin(s, token, now))
  {
    hide Owners, Approvals, Secrets, Slots, SignCalls, SignLog, Sequences;
    if IsBoundaryToken(token) && token in s.pendingSessions {
      var p := s.pendingSessions[token];
      assert s.history.live == PendingLive(p);
      TakeKeeps(s, p);
      AbandonKeeps(Take(s, p), p);
    }
  }

  lemma ApproveSignedKeeps(d: Dependencies, s: State, p: nat, settled: Settled<seq<Byte>>, tokens: nat -> string)
    requires Inv(s) && p in s.approveCalls
    ensures Inv(ApproveSigned(d, s, p, settled, tokens))
  {
    hide Owners, Approvals, Secrets, Slots, SignCalls, SignLog, Sequences;
    var pending, verified := s.pendings[p], s.approveCalls[p].verified;
    if settled.Rejected? || pending.generation != s.generation || !InContext(s, pending.contextKey) {
      AbandonKeeps(s, p);
    } else {
      var frame := d.encodeApprove(pending.sid, 1, verified, pending.walletPublicKeyHex, settled.value);
      var token := UniqueToken(s, tokens, 0);
      if frame.Some? && token.Some? {
        PromoteKeeps(s, p, token.value, verified, frame.value);
      } else {
        AbandonKeeps(s, p);
      }
    }
  }

  // ---------------------------------------------------------------- runs

  /** One call by the renderer, or the resumption of one suspended call. */
  datatype Event =
    | SetContextEvent(context: Context)
    | ResetEvent
    | PrepareEvent(open: OpenRequest)
    | PrepareResumed(call: PrepareCall, context': Settled<Context>, keys: Option<KeyMaterial>, tokens: nat -> string,
      now: int)
    | ApproveEvent(token: string, now: int)
    | ApproveAuthorizedEvent(pending: nat, answer: Settled<bool>)
    | ApproveVerifiedEvent(pending: nat, verified: Settled<Context>)
    | ApproveSignedEvent(pending: nat, signature: Settled<seq<Byte>>, tokens: nat -> string)
    | FrameEvent(token: string, frame: Option<Frame>, tokens: nat -> string, now: int)
    | RequestEvent(token: string, requestToken: string, now: int)
    | RequestAuthorizedEvent(request: nat, answer: Settled<bool>)
    | RequestVerifiedEvent(request: nat, verified: Settled<Context>)
    | RequestSignedEvent(request: nat, signature: Settled<seq<Byte>>)
    | RejectEvent(token: string, requestToken: string, now: int)
    | CloseEvent(token: string)

  ghost predicate ApproveAt(s: State, p: nat, stage: Stage) {
    p in s.approveCalls && s.approveCalls[p].stage == stage
  }

  ghost predicate RequestAt(s: State, r: nat, stage: Stage) {
    r in s.signCalls && s.signCalls[r].stage == stage
  }

  /** An event that resumes a call which is not suspended there changes nothing. */
  ghost function Step(d: Dependencies, s: State, e: Event): State
    requires WellFormed(s)
  {
    match e
    case SetContextEvent(context) => SetContext(d, s, context)
    case ResetEvent => Reset(s)
    case PrepareEvent(open) => PrepareBegin(d, s, open)
    case PrepareResumed(call, context, keys, tokens, now) =>
      if call in s.prepareCalls then PrepareResume(d, s, call, context, keys, tokens, now) else s
    case ApproveEvent(token, now) => ApproveBegin(s, token, now)
    case ApproveAuthorizedEvent(p, answer) =>
      if ApproveAt(s, p, Authorizing) then ApproveAuthorized(s, p, answer) else s
    case ApproveVerifiedEvent(p, verified) =>
      if ApproveAt(s, p, Verifying) then ApproveVerified(d, s, p, verified) else s
    case ApproveSignedEvent(p, signature, tokens) =>
      if ApproveAt(s, p, Signing) then ApproveSigned(d, s, p, signature, tokens) else s
    case FrameEvent(token, frame, tokens, now) => ProcessFrame(d, s, token, frame, tokens, now).0
    case RequestEvent(token, requestToken, now) => RequestBegin(d, s, token, requestToken, now).0
    case RequestAuthorizedEvent(r, answer) =>
      if RequestAt(s, r, Authorizing) then RequestAuthorized(d, s, r, answer).0 else s
    case RequestVerifiedEvent(r, verified) =>
      if RequestAt(s, r, Verifying) then RequestVerified(d, s, r, verified).0 else s
    case RequestSignedEvent(r, signature) => if RequestAt(s, r, Signing) then RequestSigned(d, s, r, signature).0 else s
    case RejectEvent(token, requestToken, now) => RejectRequest(d, s, token, requestToken, now).0
    case CloseEvent(token) => CloseSession(s, token)
  }

  lemma PrepareCallsKeep(s: State, calls: seq<PrepareCall>)
    requires Inv(s)
    ensures Inv(s.(prepareCalls := calls))
  {
    hide OneLive, Current, Owners, Approvals, Secrets, SignLog, Sequences, ConfirmationOf;
    var t := s.(prepareCalls := calls);
    assert WellFormed(t);
    RecordsFrame(s, t);
    SecretsFrame(s, t);
    CallsFrame(s, t);
    HistoryFrame(s, t);
  }

  lemma PrepareBeginKeeps(d: Dependencies, s: State, open: OpenRequest)
    requires Inv(s)
    ensures Inv(PrepareBegin(d, s, open))
  {
    hide Owners, Approvals, Secrets, Slots, SignCalls, SignLog, Sequences;
    var t := PrepareBegin(d, s, open);
    if t != s {
      assert t == s.(prepareCalls := t.prepareCalls);
      PrepareCallsKeep(s, t.prepareCalls);
    }
  }

  lemma ContextKeeps(d: Dependencies, s: State, context: Context)
    requires Inv(s)
    ensures Inv(SetContext(d, s, context)) && Inv(Reset(s))
  {
    hide Owners, Approvals, Secrets, Slots, SignCalls, SignLog, Sequences, WellFormed;
    DisposeKeeps(s, "");
    if d.normalizeContext(context).Some? {
      DisposeKeeps(s, d.contextKey(d.normalizeContext(context).value));
    }
  }

  lemma ApproveAuthorizedKeeps(s: State, p: nat, settled: Settled<bool>)
    requires Inv(s) && p in s.approveCalls
    ensures Inv(ApproveAuthorized(s, p, settled))
  {
    hide Owners, Approvals, Secrets, Slots, SignCalls, SignLog, Sequences;
    AbandonKeeps(s, p);
    StageKeeps(s, p, ApproveCall(Verifying, s.pendings[p].context, []));
  }

  lemma ApproveVerifiedKeeps(d: Dependencies, s: State, p: nat, settled: Settled<Context>)
    requires Inv(s) && p in s.approveCalls
    ensures Inv(ApproveVerified(d, s, p, settled))
  {
    hide Owners, Approvals, Secrets, Slots, SignCalls, SignLog, Sequences, OwnerLive, AbandonApproval;
    AbandonKeeps(s, p);
    if settled.Resolved? && d.normalizeContext(settled.value).Some? {
      if s.pendings[p].generation == s.generation {
        PreimageIntact(s, p);
      }
      StageKeeps(s, p,
        ApproveCall(Signing, d.normalizeContext(settled.value).value, s.buffers[s.pendings[p].preimage]));
    }
  }

  /** The invariant survives every stretch between two awaits. */
  lemma StepKeeps(d: Dependencies, s: State, e: Event)
    requires Inv(s)
    ensures Inv(Step(d, s, e))
  {
    hide Inv, ProcessFrame, RequestBegin, RejectRequest, RequestAuthorized, RequestVerified, RequestSigned,
         SetContext, CloseSession, PrepareBegin, PrepareResume, ApproveBegin, ApproveAuthorized, ApproveVerified,
         ApproveSigned, ProcessAccepted;
    match e
    case SetContextEvent(context) => ContextKeeps(d, s, context);
    case ResetEvent => DisposeKeeps(s, "");
    case PrepareEvent(open) => PrepareBeginKeeps(d, s, open);
    case PrepareResumed(call, context, keys, tokens, now) => PrepareResumeKeeps(d, s, call, context, keys, tokens, now);
    case ApproveEvent(token, now) => ApproveBeginKeeps(s, token, now);
    case ApproveAuthorizedEvent(p, answer) => if ApproveAt(s, p, Authorizing) { ApproveAuthorizedKeeps(s, p, answer); }
    case ApproveVerifiedEvent(p, verified) => if ApproveAt(s, p, Verifying) { ApproveVerifiedKeeps(d, s, p, verified); }
    case ApproveSignedEvent(p, signature, tokens) =>
      if ApproveAt(s, p, Signing) { ApproveSignedKeeps(d, s, p, signature, tokens); }
    case FrameEvent(token, frame, tokens, now) => ProcessFrameKeeps(d, s, token, frame, tokens, now);
    case RequestEvent(token, requestToken, now) => RequestBeginKeeps(d, s, token, requestToken, now);
    case RequestAuthorizedEvent(r, answer) =>
      if RequestAt(s, r, Authorizing) { RequestAuthorizedKeeps(d, s, r, answer); }
    case RequestVerifiedEvent(r, verified) => if RequestAt(s, r, Verifying) { RequestVerifiedKeeps(d, s, r, verified); }
    case RequestSignedEvent(r, signature) => if RequestAt(s, r, Signing) { RequestSignedKeeps(d, s, r, signature); }
    case RejectEvent(token, requestToken, now) => RejectKeeps(d, s, token, requestToken, now);
    case CloseEvent(token) => CloseKeeps(s, token);
  }

  /** The state after these events; `RunKeeps` shows that every state on the way is well formed. */
  ghost function Run(d: Dependencies, s: State, events: seq<Event>): State
    decreases |events|
  {
    if events == [] || !WellFormed(s) then s else Run(d, Step(d, s, events[0]), events[1..])
  }

  /** The invariant survives every interleaving. */
  lemma {:induction false} RunKeeps(d: Dependencies, s: State, events: seq<Event>)
    requires Inv(s)
    ensures Inv(Run(d, s, events))
    decreases |events|
  {
    hide OneLive, Current, Owners, Approvals, Secrets, Slots, SignCalls, SignLog, Sequences, Step;
    if events == [] {
    } else {
      StepKeeps(d, s, events[0]);
      RunKeeps(d, Step(d, s, events[0]), events[1..]);
    }
  }
}
