/**
 The values the IrohaConnect boundary exchanges with the wire codec, the wallet
 vault and the renderer, and the records it keeps. Everything whose inside is not
 modelled (hashes, AEAD, frame encodings, transaction review) is a field of
 `Dependencies`.

 Objects whose identity the program compares (pending sessions, active sessions,
 requests, byte buffers) are numbered: the number is the object's identity and
 indexes the store that holds its current fields.
 */
module ConnectTypes {
  import opened Bytes

  datatype Context = Context(toriiUrl: string, chainId: string, networkPrefix: int,
                             networkId: string, accountId: string)

  datatype Permissions =
    | NoManifest
    | Manifest(methods: seq<string>, events: seq<string>, resources: Option<seq<string>>)

  /** How an awaited promise settles. */
  datatype Settled<+T> = Resolved(value: T) | Rejected

  datatype RequestType = SignRaw | SignTx

  datatype Review = Review(payloadHashHex: string, authority: string, networkId: string)

  datatype Reviewed = Reviewed(review: Review, payloadHash: seq<Byte>)

  /** The input of `prepareSession`; `None` permissions failed their canonical check. */
  datatype OpenRequest = OpenRequest(context: Context, sid: string, appPublicKeyHex: string,
                                     nonceBase64Url: string, relayToken: string,
                                     requestedNetworkId: string, permissions: Option<Permissions>)

  /** Wallet key pair and direction keys, as the key agreement returns them. */
  datatype KeyMaterial = KeyMaterial(walletPublicKeyHex: string, appKey: seq<Byte>, walletKey: seq<Byte>)

  datatype AppPayload =
    | RawRequest(domainTag: string, bytes: Option<seq<Byte>>)
    | TxRequest(txBytes: Option<seq<Byte>>)
    | ControlClose(closeReason: string)
    | OtherPayload

  datatype Control = ServerEvent | Ping(nonce: seq<Byte>) | Close(reason: string) | OtherControl

  datatype FrameBody = ControlBody(control: Control) | CipherBody(cipherAppToWallet: bool, aead: seq<Byte>)

  /** A decoded Connect frame. */
  datatype Frame = Frame(sid: string, appToWallet: bool, sequence: int, body: FrameBody)

  datatype ErrorCode = RequestInFlight | PermissionDenied | InvalidRequest | InvalidTransaction
                     | RequestExpired | UserRejected | SigningFailed

  datatype ResultPayload = SignOk(signature: seq<Byte>) | SignError(code: ErrorCode)

  /**
   A frame released to the app, as the session's history records it; a result answers a
   stored request, or refuses one that was not stored.
   */
  datatype Released =
    | ApprovalFrame(sequence: nat, frame: seq<Byte>)
    | PongFrame(sequence: nat, frame: seq<Byte>)
    | ResultFrame(sequence: nat, frame: seq<Byte>, payload: ResultPayload, answers: Option<nat>)

  /** What the user is asked to confirm for one signing request. */
  datatype Confirmation =
    | ConfirmRaw(domainTag: Option<string>, byteLength: nat, preview: seq<Byte>)
    | ConfirmTx(review: Review)

  datatype Dependencies = Dependencies(
    normalizeContext: Context -> Option<Context>,
    contextKey: Context -> string,
    acceptsOpen: OpenRequest -> bool,
    approvePreimage: (OpenRequest, Context, KeyMaterial) -> Option<seq<Byte>>,
    encodeApprove: (string, nat, Context, string, seq<Byte>) -> Option<seq<Byte>>,
    encodePong: (string, nat, seq<Byte>) -> Option<seq<Byte>>,
    encryptResult: (seq<Byte>, string, nat, ResultPayload) -> Option<seq<Byte>>,
    decrypt: (seq<Byte>, string, int, seq<Byte>) -> Option<AppPayload>,
    permits: (Permissions, RequestType, Option<string>) -> bool,
    reviewTransaction: (Context, seq<Byte>) -> Option<Reviewed>)

  datatype Pending = Pending(token: string, contextKey: string, generation: nat, context: Context, sid: string,
                             walletPublicKeyHex: string, appKey: nat, walletKey: nat,
                             permissions: Permissions, preimage: nat, expiresAtMs: int)

  datatype Phase = AwaitingConfirmation | Executing

  datatype RequestSlot = Empty | Slot(phase: Phase, request: nat)

  datatype Session = Session(token: string, contextKey: string, context: Context, sid: string,
                             appKey: nat, walletKey: nat, permissions: Permissions,
                             nextAppSequence: int, nextServerSequence: int, nextWalletSequence: nat,
                             slot: RequestSlot)

  datatype Request = Request(token: string, sessionToken: string, contextKey: string, requestType: RequestType,
                             domainTag: Option<string>, message: nat, review: Option<Review>, expiresAtMs: int)

  datatype Stage = Authorizing | Verifying | Signing

  /** The suspended remainder of a `prepareSession` call. */
  datatype PrepareCall = PrepareCall(generation: nat, open: OpenRequest, requestedContext: Context,
                                     permissions: Permissions)

  /**
   The suspended remainder of the `approveSession` call of one pending session; `message`
   is what was handed to `sign`.
   */
  datatype ApproveCall = ApproveCall(stage: Stage, verified: Context, message: seq<Byte>)

  /**
   The suspended remainder of the `approveRequest` call of one request: what the user was
   shown, and what was handed to `sign`.
   */
  datatype SignCall = SignCall(session: nat, stage: Stage, shown: Confirmation, message: seq<Byte>)

  const SESSION_APPROVAL_TTL_MS := 2 * 60_000
  const REQUEST_APPROVAL_TTL_MS := 2 * 60_000
  const TOKEN_ATTEMPTS := 8

  predicate IsBase64UrlCharacter(c: char) {
    'A' <= c <= 'Z' || 'a' <= c <= 'z' || '0' <= c <= '9' || c == '_' || c == '-'
  }

  /** An exact 32-byte base64url token. */
  predicate IsBoundaryToken(token: string) {
    && |token| == 43
    && (forall i :: 0 <= i < 42 ==> IsBase64UrlCharacter(token[i]))
    && token[42] in "AEIMQUYcgkosw048"
  }

  function Prefix(bytes: seq<Byte>, limit: nat): seq<Byte> {
    if |bytes| <= limit then bytes else bytes[..limit]
  }

  /** What the user is asked to confirm about a request with this message. */
  function ConfirmationOf(request: Request, message: seq<Byte>): Confirmation {
    if request.requestType == SignTx && request.review.Some? then ConfirmTx(request.review.value)
    else ConfirmRaw(request.domainTag, |message|, Prefix(message, 96))
  }

  /** The buffer store after `fill(0)` on each of the given buffers. */
  function EraseAll(buffers: seq<seq<Byte>>, which: set<nat>): (erased: seq<seq<Byte>>)
    ensures |erased| == |buffers|
    ensures forall i :: 0 <= i < |buffers| ==> erased[i] == if i in which then Zeros(|buffers[i]|) else buffers[i]
  {
    seq(|buffers|, i requires 0 <= i < |buffers| => if i in which then Zeros(|buffers[i]|) else buffers[i])
  }
}
