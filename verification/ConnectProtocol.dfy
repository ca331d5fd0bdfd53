/**
 The IrohaConnect session protocol as a state machine
 (electron/irohaConnectBoundary.ts:487-1185).

 Each function is one stretch of the program between two `await`s; what an awaited
 promise settles to is a parameter of the function that resumes the call. `History`
 records what the program itself forgets, so that safety over whole runs can be
 stated about a single state.
 */
module ConnectProtocol {
  import opened Bytes
  import opened ConnectTypes

  datatype Owner = Unowned | AppKeyOf(pending: nat) | WalletKeyOf(pending: nat) | PreimageOf(pending: nat)
                 | MessageOf(request: nat)

  /** One call of `sign` for a request, and what the user had been shown about it. */
  datatype SignEntry = SignEntry(request: nat, session: nat, shown: Confirmation, message: seq<Byte>, context: Context)

  /** The one record that is pending, being authorised or active, if any. */
  datatype LiveRecord = NoneLive | PendingLive(pending: nat) | AuthorizingLive(pending: nat) | SessionLive(session: nat)

  /**
   The live record, who each buffer was made for and what it was made with, which
   pending sessions were promoted and each session's origin, the frames each session
   released and accepted, the requests the user authorised and the calls of `sign`.
   */
  datatype History = History(live: LiveRecord, owner: seq<Owner>, initial: seq<seq<Byte>>,
                             promoted: set<nat>, origin: seq<nat>,
                             released: seq<seq<Released>>, acceptedApp: seq<seq<int>>, acceptedServer: seq<seq<int>>,
                             authorized: set<nat>, signed: seq<SignEntry>)

  datatype State = State(contextKey: string, generation: nat,
                         pendingSessions: map<string, nat>, authorizing: map<string, nat>, sessions: map<string, nat>,
                         pendings: seq<Pending>, actives: seq<Session>, requests: seq<Request>,
                         buffers: seq<seq<Byte>>,
                         prepareCalls: seq<PrepareCall>, approveCalls: map<nat, ApproveCall>,
                         signCalls: map<nat, SignCall>,
                         history: History)

  const INITIAL := State("", 0, map[], map[], map[], [], [], [], [], [], map[], map[],
                         History(NoneLive, [], [], {}, [], [], [], [], {}, []))

  /** Every number refers to an object of the store. */
  ghost predicate WellFormed(s: State) {
    && (forall t :: t in s.pendingSessions ==> s.pendingSessions[t] < |s.pendings|)
    && (forall t :: t in s.authorizing ==> s.authorizing[t] < |s.pendings|)
    && (forall t :: t in s.sessions ==> s.sessions[t] < |s.actives|)
    && (forall p :: 0 <= p < |s.pendings| ==>
          s.pendings[p].appKey < |s.buffers| && s.pendings[p].walletKey < |s.buffers|
            && s.pendings[p].preimage < |s.buffers|)
    && (forall a :: 0 <= a < |s.actives| ==>
          s.actives[a].appKey < |s.buffers| && s.actives[a].walletKey < |s.buffers|
          && (s.actives[a].slot.Slot? ==> s.actives[a].slot.request < |s.requests|))
    && (forall r :: 0 <= r < |s.requests| ==> s.requests[r].message < |s.buffers|)
    && (forall p :: p in s.approveCalls ==> p < |s.pendings|)
    && (forall r :: r in s.signCalls ==> r < |s.requests| && s.signCalls[r].session < |s.actives|)
    && |s.history.owner| == |s.history.initial| == |s.buffers|
    && |s.history.origin| == |s.history.released| == |s.actives|
    && |s.history.acceptedApp| == |s.history.acceptedServer| == |s.actives|
  }

  // ---------------------------------------------------------------- lookups

  /** `#requireSessionMatches`: the session object is live in its own context. */
  predicate Matches(s: State, a: nat)
    requires a < |s.actives|
  {
    && s.contextKey != "" && s.contextKey == s.actives[a].contextKey
    && s.actives[a].token in s.sessions && s.sessions[s.actives[a].token] == a
  }

  /** `#requireSession` */
  function FindSession(s: State, token: string): (found: Option<nat>)
    requires WellFormed(s)
    ensures found.Some? ==> found.value < |s.actives| && Matches(s, found.value)
  {
    if IsBoundaryToken(token) && token in s.sessions && Matches(s, s.sessions[token])
    then Some(s.sessions[token]) else None
  }

  predicate TokenUnused(s: State, token: string)
    requires WellFormed(s)
  {
    && token !in s.pendingSessions && token !in s.authorizing && token !in s.sessions
    && forall t :: t in s.sessions ==>
         var slot := s.actives[s.sessions[t]].slot;
         slot.Slot? ==> s.requests[slot.request].token != token
  }

  /** `#uniqueToken`; the generator's k-th answer is `tokens(k)`. */
  function UniqueToken(s: State, tokens: nat -> string, attempt: nat): (token: Option<string>)
    requires WellFormed(s)
    ensures token.Some? ==> TokenUnused(s, token.value) && IsBoundaryToken(token.value)
    decreases TOKEN_ATTEMPTS - attempt
  {
    if attempt >= TOKEN_ATTEMPTS || !IsBoundaryToken(tokens(attempt)) then None
    else if TokenUnused(s, tokens(attempt)) then Some(tokens(attempt))
    else UniqueToken(s, tokens, attempt + 1)
  }

  predicate SlotAvailable(s: State) {
    |s.pendingSessions| == 0 && |s.authorizing| == 0 && |s.sessions| == 0
  }

  // ---------------------------------------------------------------- erasing

  function PendingBuffers(p: Pending): set<nat> { {p.appKey, p.walletKey, p.preimage} }

  function SessionBuffers(requests: seq<Request>, a: Session): set<nat>
    requires a.slot.Slot? ==> a.slot.request < |requests|
  {
    {a.appKey, a.walletKey} + if a.slot.Slot? then {requests[a.slot.request].message} else {}
  }

  ghost function RecordBuffers(pendings: seq<Pending>, records: map<string, nat>): set<nat>
    requires forall t :: t in records ==> records[t] < |pendings|
  {
    set t, b | t in records && b in PendingBuffers(pendings[records[t]]) :: b
  }

  ghost function ActiveBuffers(requests: seq<Request>, actives: seq<Session>, sessions: map<string, nat>): set<nat>
    requires forall t :: t in sessions ==> sessions[t] < |actives|
    requires forall a :: 0 <= a < |actives| && actives[a].slot.Slot? ==> actives[a].slot.request < |requests|
  {
    set t, b | t in sessions && b in SessionBuffers(requests, actives[sessions[t]]) :: b
  }

  /** The buffers `#disposeAll` fills: those of every live record. */
  ghost function DisposedBuffers(s: State): set<nat>
    requires WellFormed(s)
  {
    RecordBuffers(s.pendings, s.pendingSessions) + RecordBuffers(s.pendings, s.authorizing)
      + ActiveBuffers(s.requests, s.actives, s.sessions)
  }

  function ClearSlots(actives: seq<Session>, which: set<nat>): (cleared: seq<Session>)
    ensures |cleared| == |actives|
    ensures forall a :: 0 <= a < |actives| ==>
      cleared[a] == if a in which then actives[a].(slot := Empty) else actives[a]
  {
    seq(|actives|, a requires 0 <= a < |actives| => if a in which then actives[a].(slot := Empty) else actives[a])
  }

  ghost function DisposeAll(s: State): State
    requires WellFormed(s)
  {
    s.(buffers := EraseAll(s.buffers, DisposedBuffers(s)),
       actives := ClearSlots(s.actives, s.sessions.Values),
       pendingSessions := map[], authorizing := map[], sessions := map[],
       history := s.history.(live := NoneLive))
  }

  /** `closeSession` */
  function CloseSession(s: State, token: string): State
    requires WellFormed(s)
  {
    if !IsBoundaryToken(token) || token !in s.sessions then s
    else
      var a := s.sessions[token];
      s.(sessions := s.sessions - {token},
         buffers := EraseAll(s.buffers, SessionBuffers(s.requests, s.actives[a])),
         actives := s.actives[a := s.actives[a].(slot := Empty)],
         history := s.history.(live := NoneLive))
  }

  // ---------------------------------------------------------------- context

  ghost function SetContext(d: Dependencies, s: State, context: Context): State
    requires WellFormed(s)
  {
    match d.normalizeContext(context)
    case None => s
    case Some(normalized) =>
      var next := d.contextKey(normalized);
      if next == s.contextKey then s
      else DisposeAll(s).(generation := s.generation + 1, contextKey := next)
  }

  ghost function Reset(s: State): State
    requires WellFormed(s)
  {
    DisposeAll(s).(generation := s.generation + 1, contextKey := "")
  }

  /** `#requireContextKey` */
  predicate InContext(s: State, key: string) {
    s.contextKey != "" && s.contextKey == key
  }

  // ---------------------------------------------------------------- prepareSession

  /** Up to the first await: nothing changes but the suspended call. */
  function PrepareBegin(d: Dependencies, s: State, open: OpenRequest): State {
    match d.normalizeContext(open.context)
    case None => s
    case Some(requested) =>
      if open.permissions.Some? && InContext(s, d.contextKey(requested)) && SlotAvailable(s)
         && open.requestedNetworkId == requested.networkId && d.acceptsOpen(open)
      then s.(prepareCalls := s.prepareCalls + [PrepareCall(s.generation, open, requested, open.permissions.value)])
      else s
  }

  /** The checks after `assertContext` has answered. */
  predicate PrepareStillValid(d: Dependencies, s: State, call: PrepareCall, verified: Context) {
    && call.generation == s.generation
    && InContext(s, d.contextKey(verified))
    && SlotAvailable(s)
    && verified.networkId == call.requestedContext.networkId
  }

  /** Stores a pending session and its three buffers. */
  function Prepare(s: State, pending: Pending, keys: KeyMaterial, preimage: seq<Byte>): State {
    var p := |s.pendings|;
    s.(pendingSessions := s.pendingSessions[pending.token := p],
       pendings := s.pendings + [pending],
       buffers := s.buffers + [keys.appKey, keys.walletKey, preimage],
       history := s.history.(live := PendingLive(p),
                             owner := s.history.owner + [AppKeyOf(p), WalletKeyOf(p), PreimageOf(p)],
                             initial := s.history.initial + [keys.appKey, keys.walletKey, preimage]))
  }

  /** Buffers that were filled with secrets and zeroed again by the `finally` block. */
  function AllocateErased(s: State, secrets: seq<seq<Byte>>): State {
    s.(buffers := s.buffers + seq(|secrets|, i requires 0 <= i < |secrets| => Zeros(|secrets[i]|)),
       history := s.history.(owner := s.history.owner + seq(|secrets|, i => Unowned),
                             initial := s.history.initial + secrets))
  }

  function PrepareResume(d: Dependencies, s: State, call: PrepareCall, settled: Settled<Context>,
                         keys: Option<KeyMaterial>, tokens: nat -> string, now: int): State
    requires WellFormed(s)
  {
    if settled.Rejected? || d.normalizeContext(settled.value).None? then s
    else
      var verified := d.normalizeContext(settled.value).value;
      if !PrepareStillValid(d, s, call, verified) || keys.None? then s
      else
        var preimage := d.approvePreimage(call.open, verified, keys.value);
        var n := |s.buffers|;
        if preimage.None? then AllocateErased(s, [keys.value.appKey, keys.value.walletKey])
        else
          match UniqueToken(s, tokens, 0)
          case None => AllocateErased(s, [keys.value.appKey, keys.value.walletKey, preimage.value])
          case Some(token) =>
            Prepare(s, Pending(token, d.contextKey(verified), call.generation, verified, call.open.sid,
                               keys.value.walletPublicKeyHex, n, n + 1, call.permissions, n + 2,
                               now + SESSION_APPROVAL_TTL_MS), keys.value, preimage.value)
  }

  // ---------------------------------------------------------------- approveSession

  predicate Authorizes(authorizing: map<string, nat>, token: string, p: nat) {
    token in authorizing && authorizing[token] == p
  }

  /** The first statement of the `finally` block: only this very record is removed. */
  function EndAuthorizing(authorizing: map<string, nat>, token: string, p: nat): map<string, nat> {
    if Authorizes(authorizing, token, p) then authorizing - {token} else authorizing
  }

  /** The `finally` block when the session was not promoted. */
  function AbandonApproval(s: State, p: nat): State
    requires p < |s.pendings|
  {
    var stands := Authorizes(s.authorizing, s.pendings[p].token, p);
    s.(authorizing := EndAuthorizing(s.authorizing, s.pendings[p].token, p),
       buffers := EraseAll(s.buffers, PendingBuffers(s.pendings[p])),
       approveCalls := s.approveCalls - {p},
       history := if stands then s.history.(live := NoneLive) else s.history)
  }

  function SetStage(s: State, p: nat, call: ApproveCall): State {
    s.(approveCalls := s.approveCalls[p := call])
  }

  /** The pending session moves to the authorising map and its approval is in flight. */
  function Take(s: State, p: nat): State
    requires p < |s.pendings|
  {
    SetStage(s.(pendingSessions := s.pendingSessions - {s.pendings[p].token},
                authorizing := s.authorizing[s.pendings[p].token := p],
                history := s.history.(live := AuthorizingLive(p))),
             p, ApproveCall(Authorizing, s.pendings[p].context, []))
  }

  function ApproveBegin(s: State, token: string, now: int): State
    requires WellFormed(s)
  {
    if !IsBoundaryToken(token) || token !in s.pendingSessions then s
    else
      var p := s.pendingSessions[token];
      if now > s.pendings[p].expiresAtMs || s.pendings[p].generation != s.generation
         || !InContext(s, s.pendings[p].contextKey)
      then AbandonApproval(Take(s, p), p)
      else Take(s, p)
  }

  function ApproveAuthorized(s: State, p: nat, settled: Settled<bool>): State
    requires p < |s.pendings|
  {
    if settled == Resolved(true) && s.pendings[p].generation == s.generation && InContext(s, s.pendings[p].contextKey)
    then SetStage(s, p, ApproveCall(Verifying, s.pendings[p].context, []))
    else AbandonApproval(s, p)
  }

  function ApproveVerified(d: Dependencies, s: State, p: nat, settled: Settled<Context>): State
    requires p < |s.pendings| && s.pendings[p].preimage < |s.buffers|
  {
    if settled.Rejected? || d.normalizeContext(settled.value).None? then AbandonApproval(s, p)
    else
      var verified := d.normalizeContext(settled.value).value;
      if InContext(s, d.contextKey(verified))
      then SetStage(s, p, ApproveCall(Signing, verified, s.buffers[s.pendings[p].preimage]))
      else AbandonApproval(s, p)
  }

  /** A promoted session: the approval frame is behind it, the app's next frame is its second. */
  function NewSession(pending: Pending, token: string, verified: Context): Session {
    Session(token, pending.contextKey, verified, pending.sid, pending.appKey, pending.walletKey,
            pending.permissions, 2, 1, 2, Empty)
  }

  function RecordPromotion(history: History, a: nat, p: nat, frame: seq<Byte>): History {
    history.(live := SessionLive(a), promoted := history.promoted + {p}, origin := history.origin + [p],
             released := history.released + [[ApprovalFrame(1, frame)]],
             acceptedApp := history.acceptedApp + [[]], acceptedServer := history.acceptedServer + [[]])
  }

  function Promote(s: State, p: nat, token: string, verified: Context, frame: seq<Byte>): State
    requires p < |s.pendings|
  {
    var pending := s.pendings[p];
    var a := |s.actives|;
    s.(sessions := s.sessions[token := a],
       authorizing := EndAuthorizing(s.authorizing, pending.token, p),
       actives := s.actives + [NewSession(pending, token, verified)],
       buffers := EraseAll(s.buffers, {pending.preimage}),
       approveCalls := s.approveCalls - {p},
       history := RecordPromotion(s.history, a, p, frame))
  }

  function ApproveSigned(d: Dependencies, s: State, p: nat, settled: Settled<seq<Byte>>, tokens: nat -> string): State
    requires WellFormed(s) && p < |s.pendings| && p in s.approveCalls
  {
    var pending := s.pendings[p];
    var verified := s.approveCalls[p].verified;
    if settled.Rejected? || pending.generation != s.generation || !InContext(s, pending.contextKey)
    then AbandonApproval(s, p)
    else
      match d.encodeApprove(pending.sid, 1, verified, pending.walletPublicKeyHex, settled.value)
      case None => AbandonApproval(s, p)
      case Some(frame) =>
        match UniqueToken(s, tokens, 0)
        case None => AbandonApproval(s, p)
        case Some(token) => Promote(s, p, token, verified, frame)
  }

  // ---------------------------------------------------------------- processFrame

  datatype Processed =
    | ProcessThrew
    | EventAccepted
    | Closed(reason: string)
    | PongSent(frame: seq<Byte>)
    | Refused(frame: seq<Byte>, code: ErrorCode)
    | Requested(request: nat, byteLength: nat, preview: seq<Byte>)
    | Ignored

  /** The wallet frame leaves and its sequence number is used up. */
  function Release(s: State, a: nat, frame: Released): State
    requires a < |s.actives| == |s.history.released|
  {
    s.(actives := s.actives[a := s.actives[a].(nextWalletSequence := s.actives[a].nextWalletSequence + 1)],
       history := s.history.(released := s.history.released[a := s.history.released[a] + [frame]]))
  }

  /** `#encryptResult`: one result frame under the session's wallet key, or an exception. */
  function EncryptResult(d: Dependencies, s: State, a: nat, payload: ResultPayload,
                         answers: Option<nat>): (r: (State, Option<seq<Byte>>))
    requires WellFormed(s) && a < |s.actives|
    ensures WellFormed(r.0) && |r.0.actives| == |s.actives|
  {
    var session := s.actives[a];
    if !Matches(s, a) then (s, None)
    else
      match d.encryptResult(s.buffers[session.walletKey], session.sid, session.nextWalletSequence, payload)
      case None => (s, None)
      case Some(frame) => (Release(s, a, ResultFrame(session.nextWalletSequence, frame, payload, answers)), Some(frame))
  }

  function AcceptServerEvent(s: State, a: nat): State
    requires a < |s.actives| == |s.history.acceptedServer|
  {
    var n := s.actives[a].nextServerSequence;
    s.(actives := s.actives[a := s.actives[a].(nextServerSequence := n + 1)],
       history := s.history.(acceptedServer := s.history.acceptedServer[a := s.history.acceptedServer[a] + [n]]))
  }

  function AcceptAppFrame(s: State, a: nat): State
    requires a < |s.actives| == |s.history.acceptedApp|
  {
    var n := s.actives[a].nextAppSequence;
    s.(actives := s.actives[a := s.actives[a].(nextAppSequence := n + 1)],
       history := s.history.(acceptedApp := s.history.acceptedApp[a := s.history.acceptedApp[a] + [n]]))
  }

  function Refuse(d: Dependencies, s: State, a: nat, code: ErrorCode): (State, Processed)
    requires WellFormed(s) && a < |s.actives|
  {
    var (t, frame) := EncryptResult(d, s, a, SignError(code), None);
    match frame
    case None => (t, ProcessThrew)
    case Some(f) => (t, Refused(f, code))
  }

  /** The record of a new request, whose message is copied into the next buffer. */
  function NewRequest(s: State, a: nat, token: string, requestType: RequestType, domainTag: Option<string>,
                      review: Option<Review>, now: int): Request
    requires a < |s.actives|
  {
    Request(token, s.actives[a].token, s.actives[a].contextKey, requestType, domainTag, |s.buffers|, review,
            now + REQUEST_APPROVAL_TTL_MS)
  }

  function StoreRequest(s: State, a: nat, request: Request, bytes: seq<Byte>): State
    requires a < |s.actives|
  {
    var r := |s.requests|;
    s.(requests := s.requests + [request],
       actives := s.actives[a := s.actives[a].(slot := Slot(AwaitingConfirmation, r))],
       buffers := s.buffers + [bytes],
       history := s.history.(owner := s.history.owner + [MessageOf(r)], initial := s.history.initial + [bytes]))
  }

  /** A decrypted signing request; `bytes` is `None` when its Base64 text does not decode. */
  function AcceptRequest(d: Dependencies, s: State, a: nat, requestType: RequestType, domainTag: Option<string>,
                         bytes: Option<seq<Byte>>, tokens: nat -> string, now: int): (State, Processed)
    requires WellFormed(s) && a < |s.actives|
  {
    var session := s.actives[a];
    if session.slot.Slot? then Refuse(d, s, a, RequestInFlight)
    else if !d.permits(session.permissions, requestType, domainTag) then Refuse(d, s, a, PermissionDenied)
    else if bytes.None? then (s, ProcessThrew)
    else if bytes.value == [] then Refuse(d, s, a, InvalidRequest)
    else
      var reviewed := d.reviewTransaction(session.context, bytes.value);
      if requestType == SignTx && reviewed.None? then Refuse(d, s, a, InvalidTransaction)
      else
        match UniqueToken(s, tokens, 0)
        case None => (s, ProcessThrew)
        case Some(token) =>
          var review := if requestType == SignTx then Some(reviewed.value.review) else None;
          (StoreRequest(s, a, NewRequest(s, a, token, requestType, domainTag, review, now), bytes.value),
           Requested(|s.requests|, |bytes.value|, Prefix(bytes.value, 96)))
  }

  /** The part of `processFrame` after the app frame's sequence number was accepted. */
  function ProcessAccepted(d: Dependencies, s: State, a: nat, f: Frame, tokens: nat -> string,
                           now: int): (State, Processed)
    requires WellFormed(s) && a < |s.actives|
  {
    var session := s.actives[a];
    match f.body
    case ControlBody(Ping(nonce)) =>
      (match d.encodePong(session.sid, session.nextWalletSequence, nonce)
       case None => (s, ProcessThrew)
       case Some(pong) => (Release(s, a, PongFrame(session.nextWalletSequence, pong)), PongSent(pong)))
    case ControlBody(Close(reason)) => (CloseSession(s, session.token), Closed(reason))
    case ControlBody(_) => (s, ProcessThrew)
    case CipherBody(appToWallet, aead) =>
      if !appToWallet then (s, ProcessThrew)
      else
        match d.decrypt(s.buffers[session.appKey], session.sid, f.sequence, aead)
        case None => (s, ProcessThrew)
        case Some(ControlClose(reason)) => (CloseSession(s, session.token), Closed(reason))
        case Some(OtherPayload) => (s, Ignored)
        case Some(RawRequest(domainTag, bytes)) => AcceptRequest(d, s, a, SignRaw, Some(domainTag), bytes, tokens, now)
        case Some(TxRequest(bytes)) => AcceptRequest(d, s, a, SignTx, None, bytes, tokens, now)
  }

  /** `processFrame`; `frame` is `None` when the frame does not decode. */
  function ProcessFrame(d: Dependencies, s: State, token: string, frame: Option<Frame>,
                        tokens: nat -> string, now: int): (State, Processed)
    requires WellFormed(s)
  {
    var found := FindSession(s, token);
    if found.None? || frame.None? then (s, ProcessThrew)
    else
      var a, f := found.value, frame.value;
      if f.sid != s.actives[a].sid || !f.appToWallet then (s, ProcessThrew)
      else if f.body == ControlBody(ServerEvent) then
        if f.sequence != s.actives[a].nextServerSequence then (s, ProcessThrew)
        else (AcceptServerEvent(s, a), EventAccepted)
      else if f.sequence != s.actives[a].nextAppSequence then (s, ProcessThrew)
      else ProcessAccepted(d, AcceptAppFrame(s, a), a, f, tokens, now)
  }

  // ---------------------------------------------------------------- approveRequest and rejectRequest

  datatype RequestOutcome =
    | RequestThrew
    | AwaitsUser(request: nat, confirmation: Confirmation)
    | AwaitsContext
    | AwaitsSignature(context: Context, message: seq<Byte>)
    | Answered(frame: seq<Byte>, signed: bool)

  /** `#beginRequestExecution` finds an awaiting request of the session under this token. */
  function FindRequest(s: State, sessionToken: string, requestToken: string): (found: Option<nat>)
    requires WellFormed(s)
    ensures found.Some? ==> found.value < |s.requests| && FindSession(s, sessionToken).Some?
                            && s.actives[FindSession(s, sessionToken).value].slot
                                 == Slot(AwaitingConfirmation, found.value)
  {
    var a := FindSession(s, sessionToken);
    if a.None? || s.actives[a.value].slot.Empty? then None
    else
      var session := s.actives[a.value];
      var request := s.requests[session.slot.request];
      if IsBoundaryToken(requestToken) && request.token == requestToken && request.sessionToken == session.token
         && request.contextKey == session.contextKey && session.slot.phase == AwaitingConfirmation
      then Some(session.slot.request) else None
  }

  function MarkExecuting(s: State, a: nat, r: nat): State
    requires a < |s.actives|
  {
    s.(actives := s.actives[a := s.actives[a].(slot := Slot(Executing, r))])
  }

  /** `#finishRequest`, run by the `finally` block. */
  function FinishRequest(s: State, a: nat, r: nat): State
    requires a < |s.actives| && r < |s.requests|
  {
    s.(actives := if s.actives[a].slot.Slot? && s.actives[a].slot.request == r
                  then s.actives[a := s.actives[a].(slot := Empty)] else s.actives,
       buffers := EraseAll(s.buffers, {s.requests[r].message}),
       signCalls := s.signCalls - {r})
  }

  /** The catch block of `approveRequest`, then the `finally` block. */
  function Fail(d: Dependencies, s: State, a: nat, r: nat): (State, RequestOutcome)
    requires WellFormed(s) && a < |s.actives| && r < |s.requests|
  {
    var (t, frame) := EncryptResult(d, s, a, SignError(SigningFailed), Some(r));
    match frame
    case Some(f) => (FinishRequest(t, a, r), Answered(f, false))
    case None => (FinishRequest(s, a, r), RequestThrew)
  }

  /** Answer with a result frame; an exception while encrypting runs the catch block when there is one. */
  function Answer(d: Dependencies, s: State, a: nat, r: nat, payload: ResultPayload,
                  hasCatch: bool): (State, RequestOutcome)
    requires WellFormed(s) && a < |s.actives| && r < |s.requests|
  {
    var (t, frame) := EncryptResult(d, s, a, payload, Some(r));
    match frame
    case Some(f) => (FinishRequest(t, a, r), Answered(f, payload.SignOk?))
    case None => if hasCatch then Fail(d, s, a, r) else (FinishRequest(s, a, r), RequestThrew)
  }

  function RejectRequest(d: Dependencies, s: State, sessionToken: string, requestToken: string,
                         now: int): (State, RequestOutcome)
    requires WellFormed(s)
  {
    match FindRequest(s, sessionToken, requestToken)
    case None => (s, RequestThrew)
    case Some(r) =>
      var a := FindSession(s, sessionToken).value;
      var code := if now > s.requests[r].expiresAtMs then RequestExpired else UserRejected;
      Answer(d, MarkExecuting(s, a, r), a, r, SignError(code), false)
  }

  /** The user is asked. */
  function Suspend(s: State, a: nat, r: nat, shown: Confirmation): State {
    s.(signCalls := s.signCalls[r := SignCall(a, Authorizing, shown, [])])
  }

  /** The user agreed. */
  function Authorize(s: State, a: nat, r: nat): State
    requires r in s.signCalls
  {
    s.(signCalls := s.signCalls[r := SignCall(a, Verifying, s.signCalls[r].shown, [])],
       history := s.history.(authorized := s.history.authorized + {r}))
  }

  /** `sign` is called with these bytes. */
  function StartSigning(s: State, a: nat, r: nat, message: seq<Byte>, verified: Context): State
    requires r in s.signCalls
  {
    var shown := s.signCalls[r].shown;
    s.(signCalls := s.signCalls[r := SignCall(a, Signing, shown, message)],
       history := s.history.(signed := s.history.signed + [SignEntry(r, a, shown, message, verified)]))
  }

  function RequestBegin(d: Dependencies, s: State, sessionToken: string, requestToken: string,
                        now: int): (State, RequestOutcome)
    requires WellFormed(s)
  {
    match FindRequest(s, sessionToken, requestToken)
    case None => (s, RequestThrew)
    case Some(r) =>
      var a := FindSession(s, sessionToken).value;
      var request := s.requests[r];
      var marked := MarkExecuting(s, a, r);
      if now > request.expiresAtMs then Answer(d, marked, a, r, SignError(RequestExpired), true)
      else
        var shown := ConfirmationOf(request, s.buffers[request.message]);
        (Suspend(marked, a, r, shown), AwaitsUser(r, shown))
  }

  function RequestAuthorized(d: Dependencies, s: State, r: nat, settled: Settled<bool>): (State, RequestOutcome)
    requires WellFormed(s) && r in s.signCalls
  {
    var a := s.signCalls[r].session;
    if settled.Rejected? || !Matches(s, a) then Fail(d, s, a, r)
    else if !settled.value then Answer(d, s, a, r, SignError(UserRejected), true)
    else (Authorize(s, a, r), AwaitsContext)
  }

  /** The bytes to sign: the message, or the payload hash if it is still the one reviewed. */
  function SigningMessage(d: Dependencies, request: Request, message: seq<Byte>, verified: Context): Option<seq<Byte>> {
    if request.requestType == SignRaw then Some(message)
    else
      match d.reviewTransaction(verified, message)
      case None => None
      case Some(reviewed) =>
        if request.review.None? || reviewed.review.payloadHashHex != request.review.value.payloadHashHex
           || Hex(reviewed.payloadHash) != request.review.value.payloadHashHex
        then None else Some(reviewed.payloadHash)
  }

  function RequestVerified(d: Dependencies, s: State, r: nat, settled: Settled<Context>): (State, RequestOutcome)
    requires WellFormed(s) && r in s.signCalls
  {
    var a := s.signCalls[r].session;
    if settled.Rejected? || d.normalizeContext(settled.value).None? || !Matches(s, a) then Fail(d, s, a, r)
    else
      var verified := d.normalizeContext(settled.value).value;
      if d.contextKey(verified) != s.actives[a].contextKey then Fail(d, s, a, r)
      else
        match SigningMessage(d, s.requests[r], s.buffers[s.requests[r].message], verified)
        case None => Fail(d, s, a, r)
        case Some(message) =>
          (StartSigning(s, a, r, message, verified), AwaitsSignature(verified, message))
  }

  function RequestSigned(d: Dependencies, s: State, r: nat, settled: Settled<seq<Byte>>): (State, RequestOutcome)
    requires WellFormed(s) && r in s.signCalls
  {
    var a := s.signCalls[r].session;
    if settled.Rejected? || !Matches(s, a) then Fail(d, s, a, r)
    else Answer(d, s, a, r, SignOk(settled.value), true)
  }
}
