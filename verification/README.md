# Electron host: verified models

The Electron host of the wallet keeps a dApp session protocol, copies and searches data it
does not trust, replays a confidential ledger, compares native images without their
signatures, reads binary archives, and remembers the finality it has verified. This project
models those parts and proves what they are for.

* **IrohaConnect sessions** (`Connect*.dfy`). The boundary is a state machine whose steps
  are the stretches of its methods between two awaits. `ConnectProtocol` defines the steps,
  `ConnectSafety` and `ConnectRuns` an invariant of every interleaving, `ConnectTheorems`
  what follows from it over whole runs, and `ConnectBoundary` the class whose methods take
  exactly those steps.
* **JSON snapshots** (`JsonText`, `JsonSnapshot`, `JsonSnapshotter`). A last-in-first-out
  worklist over a possibly cyclic graph refines a recursive definition; the proof is a
  conservation law for containers, nodes and bytes.
* **Secret search** (`SecretSearch`). A budgeted graph walk is sound and complete.
* **Confidential ledger** (`LedgerReplay`, `ConfidentialLedger`, `LedgerTheorems`,
  `Sequences`). Sorted replay against a declarative reading of the event history.
* **Native images** (`Images`, `MachO`, `Pe`). Normalisation ignores exactly the signature,
  and its two copies agree.
* **Base58 and quantities** (`Positional`, `Base58`, `Quantities`). Long division in place,
  both ways; four validators that accept the same literals.
* **Archives** (`Archives`). Compact lengths, fields, executables and instruction drafts:
  reading undoes writing and accepts nothing else.
* **Finality watermark** (`FinalityStore`). Chains under tampering, consistency after crashes.
* **Text** (`CanonicalJson`, `Sse`). An injective print, and a splitter whose result is the
  groups of lines between blank lines, however the text is cut into chunks.

`dafny verify dfyconfig.toml` checks everything.

How the models are stated:

* What an awaited promise settles to, tokens, clocks and failed writes are parameters of the
  step that uses them. The wire codec, encryption, hashes, the strict JSON reader and the
  transaction review are functions given from outside.
* Hashes are compared through the bytes they are applied to.
* The decision whether an input is refused is part of every contract; messages of errors are
  not.
* The Mach-O and PE theorems quantify over images: signing again keeps the normal form, and
  equal normal forms come only from signing again.
* `ConnectBoundary` methods state the whole new state as a step of `ConnectProtocol`, and
  those that erase, free or number something say what changes and what does not; the lemmas
  of `ConnectTheorems` are about runs of those steps.
* A note is spent only by an input processed after the note was recovered, as in the program.
* The event splitter treats a lone carriage return as text and refuses unknown fields, where
  section 9.2 of the WHATWG HTML standard differs; the program's choices are modelled.

## Model

| member | source | states |
|---|---|---|
| `ConnectTheorems.AtMostOneSession` | electron/irohaConnectBoundary.ts:506-708 | after every interleaving, pending, authorising and active sessions together number at most one; each carries the current context key and stems from the current generation |
| `ConnectTheorems.StepPromotesOnlyCurrent` | electron/irohaConnectBoundary.ts:619-708 | a step only ever promotes an approval of the generation in force when it runs, and generations never decrease |
| `ConnectTheorems.RunPromotesNothingStale` | electron/irohaConnectBoundary.ts:1118-1122 | an approval of an earlier generation is not promoted by any continuation of a run |
| `ConnectTheorems.ResetEndsApprovals` | electron/irohaConnectBoundary.ts:517-521 | no approval that existed when `reset` ran ever becomes a session, even if the boundary returns to the same context |
| `ConnectTheorems.ContextChangeEndsApprovals` | electron/irohaConnectBoundary.ts:506-515 | the same for every change to another context |
| `ConnectTheorems.SignsOnlyLiveReviewed` | electron/irohaConnectBoundary.ts:921-957 | `sign` is called only for an authorised request whose session object is live in its own context, with exactly the reviewed bytes |
| `ConnectTheorems.SignedMeansReviewed` | electron/irohaConnectBoundary.ts:954-966 | whenever `signed: true` is reported, exactly one call of `sign` was made for the request, authorised, with the message as received or the reviewed payload hash |
| `ConnectTheorems.EverySignatureReviewed` | electron/irohaConnectBoundary.ts:882-985 | over a whole run every signed message was authorised by a user who was shown the review whose hash text is that of the message, or the length and first 96 bytes of the message; no request is signed twice |
| `ConnectTheorems.SignedWhileLive` | electron/irohaConnectBoundary.ts:932-957 | every signature of a run was started while its session was live in its own context, which is the context that was verified |
| `ConnectTheorems.PromotionSignedPreimage` | electron/irohaConnectBoundary.ts:657-671 | whenever an approval is promoted, the bytes that were handed to `sign` are its preimage as it was built, not erased meanwhile |
| `ConnectTheorems.SecretsOwnedOrErased` | electron/irohaConnectBoundary.ts:575-617 | at each await boundary every secret buffer is intact and owned by the one live record, or all zero, whichever path ended it |
| `ConnectTheorems.OnlyLiveIsDisposed` | electron/irohaConnectBoundary.ts:1164-1184 | `disposeAll` fills no buffer but those of the live record |
| `ConnectTheorems.PreimageErased` | electron/irohaConnectBoundary.ts:698-707 | the approval preimage is zero once `approveSession` has ended |
| `ConnectTheorems.SealsWithDerivedKey` | electron/irohaConnectBoundary.ts:1062-1086 | a result frame is sealed with the wallet key as derived, never with an erased one, under the next sequence number |
| `ConnectTheorems.SequencesExact` | electron/irohaConnectBoundary.ts:672-752 | released wallet frames are numbered 1, 2, 3, ..., accepted app frames 2, 3, ..., server events 1, 2, ...; no two released frames, of whatever sessions, answer the same request |
| `ConnectTheorems.ExecutingIsSuspended` | electron/irohaConnectBoundary.ts:1022-1060 | a request marked as executing always has a suspended call, in its own live session, that will finish it |
| `ConnectRuns.RunKeeps` | electron/irohaConnectBoundary.ts:487-1185 | so it survives every interleaving of calls, context changes, resets, closes and frames |
| `ConnectRuns.StepKeeps` | electron/irohaConnectBoundary.ts:506-1184 | the invariant of the protocol survives every stretch between two awaits of every call |
| `ConnectRuns.MessageIntact` | electron/irohaConnectBoundary.ts:853-870 | while its session is live, the buffer of a request being executed still holds the bytes that were received |
| `ConnectRuns.AcceptRequestKeeps` | electron/irohaConnectBoundary.ts:797-880 | storing or refusing an incoming request keeps the invariant |
| `ConnectRuns.ProcessFrameKeeps` | electron/irohaConnectBoundary.ts:710-880 | processing any frame keeps the invariant |
| `ConnectRuns.PrepareResumeKeeps` | electron/irohaConnectBoundary.ts:564-617 | finishing `prepareSession` keeps the invariant on every path, including the ones that throw |
| `ConnectRuns.ApproveSignedKeeps` | electron/irohaConnectBoundary.ts:657-708 | promoting or abandoning an approval keeps the invariant |
| `ConnectRuns.RequestVerifiedKeeps` | electron/irohaConnectBoundary.ts:932-958 | starting to sign, or refusing to, keeps the invariant |
| `ConnectSafety.LiveIsDisposed` | electron/irohaConnectBoundary.ts:1164-1184 | `disposeAll` reaches every secret of the live record |
| `ConnectSafety.DisposeKeeps` | electron/irohaConnectBoundary.ts:506-521 | a context change or reset keeps the invariant |
| `ConnectSafety.CloseKeeps` | electron/irohaConnectBoundary.ts:1006-1020 | closing a session, live or not, keeps the invariant |
| `ConnectSafety.PromoteKeeps` | electron/irohaConnectBoundary.ts:679-708 | promoting an approval keeps the invariant: its keys pass to the session, its preimage is erased |
| `ConnectSafety.AbandonKeeps` | electron/irohaConnectBoundary.ts:698-707 | abandoning an approval erases its secrets without touching a later record |
| `ConnectSafety.FinishKeeps` | electron/irohaConnectBoundary.ts:1055-1060 | finishing a request keeps the invariant even after its session was closed |
| `ConnectProtocol.UniqueToken` | electron/irohaConnectBoundary.ts:1142-1162 | a token that is handed out is an exact boundary token that no pending, authorising or active session and no waiting request uses |
| `ConnectProtocol.FindRequest` | electron/irohaConnectBoundary.ts:1022-1046 | a request is found only in the awaiting slot of the live session that the caller names |
| `ConnectBoundary.IrohaConnectBoundary.SetContext` | electron/irohaConnectBoundary.ts:506-515 | replaces the context, erasing everything, exactly when the normalised context differs |
| `ConnectBoundary.IrohaConnectBoundary.Reset` | electron/irohaConnectBoundary.ts:517-521 | erases everything and leaves no context |
| `ConnectBoundary.IrohaConnectBoundary.PrepareSession` | electron/irohaConnectBoundary.ts:532-563 | the checks before the first await; nothing but the suspended call changes |
| `ConnectBoundary.IrohaConnectBoundary.ResumePrepareSession` | electron/irohaConnectBoundary.ts:564-617 | the checks after the await, the three secrets, and their erasure on every exception |
| `ConnectBoundary.IrohaConnectBoundary.ApproveSession` | electron/irohaConnectBoundary.ts:619-643 | takes the pending session once and suspends, or abandons it |
| `ConnectBoundary.IrohaConnectBoundary.ResumeApproveAuthorized` | electron/irohaConnectBoundary.ts:643-657 | continues only on consent in the same generation and context |
| `ConnectBoundary.IrohaConnectBoundary.ResumeApproveVerified` | electron/irohaConnectBoundary.ts:657-668 | continues only if the verified context is the current one |
| `ConnectBoundary.IrohaConnectBoundary.ResumeApproveSigned` | electron/irohaConnectBoundary.ts:663-708 | promotes the session, or erases its secrets; a frame is released exactly when it is promoted |
| `ConnectBoundary.IrohaConnectBoundary.AbandonApproval` | electron/irohaConnectBoundary.ts:698-707 | the `finally` block stops this very record from authorising and fills its three buffers; no other record or buffer changes |
| `ConnectBoundary.IrohaConnectBoundary.ProcessFrame` | electron/irohaConnectBoundary.ts:710-880 | the whole of frame processing: counters, pongs, closes, refusals and stored requests |
| `ConnectBoundary.IrohaConnectBoundary.ApproveRequest` | electron/irohaConnectBoundary.ts:882-925 | marks the slot, answers an expired request, or suspends with what the user is shown |
| `ConnectBoundary.IrohaConnectBoundary.ResumeRequestAuthorized` | electron/irohaConnectBoundary.ts:925-935 | answers a refusal, or goes on to verify the context |
| `ConnectBoundary.IrohaConnectBoundary.ResumeRequestVerified` | electron/irohaConnectBoundary.ts:932-958 | derives the bytes to sign again and calls `sign`, or answers with an error |
| `ConnectBoundary.IrohaConnectBoundary.ResumeRequestSigned` | electron/irohaConnectBoundary.ts:954-985 | answers with the signature, or with an error if the session is gone |
| `ConnectBoundary.IrohaConnectBoundary.RejectRequest` | electron/irohaConnectBoundary.ts:987-1004 | answers with the expired or rejected code and frees the slot |
| `ConnectBoundary.IrohaConnectBoundary.CloseSession` | electron/irohaConnectBoundary.ts:1006-1020 | the token is gone and exactly the keys and the waiting message of its session are erased; unknown tokens change nothing; the invariant is kept |
| `ConnectBoundary.IrohaConnectBoundary.FinishRequest` | electron/irohaConnectBoundary.ts:1055-1060 | frees the slot if it still holds this request and erases its message; every other session and buffer is unchanged |
| `ConnectBoundary.IrohaConnectBoundary.EncryptResult` | electron/irohaConnectBoundary.ts:1062-1086 | a sequence number is used up exactly when a frame is produced, and the frame is then recorded under it; no other session changes |
| `ConnectBoundary.IrohaConnectBoundary.UniqueToken` | electron/irohaConnectBoundary.ts:1142-1162 | eight attempts, each refused at once if malformed |
| `ConnectBoundary.IrohaConnectBoundary.DisposeAll` | electron/irohaConnectBoundary.ts:1164-1184 | fills exactly the buffers of every live record and empties the three maps |
| `Bytes.HexInjective` | electron/irohaConnectBoundary.ts:936-953 | the hexadecimal text that was reviewed determines the bytes that are signed |
| `JsonText.JsonStringByteLength` | electron/firstReleaseResourceLimits.ts:54-95 | the count is the length of the JSON string literal of section 7 of RFC 8259, with escapes and surrogates |
| `JsonText.QuoteReads` | electron/firstReleaseResourceLimits.ts:54-95 | a JSON string literal can be read back, whatever follows it |
| `JsonText.QuoteInjective` | electron/governanceValidationFee.ts:1350-1353 | a JSON string literal determines its string and where it ends |
| `JsonSnapshot.PrintLength` | electron/firstReleaseResourceLimits.ts:152-272 | the byte tally of a tree is the length of its compact JSON text |
| `JsonSnapshot.UnfoldComplete` | electron/firstReleaseResourceLimits.ts:165-290 | unfolding within the limits finds every tree that the graph denotes within them |
| `JsonSnapshot.UnfoldSound` | electron/firstReleaseResourceLimits.ts:165-290 | and only such trees, so cyclic graphs have none |
| `JsonSnapshot.PopScalar` | electron/firstReleaseResourceLimits.ts:172-196 | visiting a primitive leaves the verdict on the whole unchanged, or decides it |
| `JsonSnapshot.PopContainer` | electron/firstReleaseResourceLimits.ts:201-282 | replacing a container by its members leaves the verdict unchanged: it fails exactly if the container was seen or a limit is exceeded |
| `JsonSnapshotter.FillKeeps` | electron/firstReleaseResourceLimits.ts:97-108 | filling the field of one work item keeps the copy in step with its original, whatever the order of processing |
| `JsonSnapshotter.ExclusiveSet` | electron/firstReleaseResourceLimits.ts:97-108 | assigning a new container, or a primitive, to a field of the copy makes nothing shared |
| `JsonSnapshotter.CopyUnfolds` | electron/firstReleaseResourceLimits.ts:139-145 | when nothing is pending the copy unfolds to the same JSON value as the original |
| `JsonSnapshotter.Snapshotter.WalkRecord` | electron/firstReleaseResourceLimits.ts:243-282 | succeeds exactly on plain data fields within all limits, pushes one item for each, counts names and punctuation, and lays out the names in source order |
| `JsonSnapshotter.Snapshotter.WalkField` | electron/firstReleaseResourceLimits.ts:255-279 | one own field: refused exactly for its key, its kind or a limit; its bytes are counted, it is defined in order and its value joins the list |
| `JsonSnapshotter.Snapshotter.WalkArray` | electron/firstReleaseResourceLimits.ts:201-241 | succeeds exactly on dense data arrays and pushes one item for each element |
| `JsonSnapshotter.Snapshotter.VisitContainer` | electron/firstReleaseResourceLimits.ts:197-282 | refuses exactly containers seen before or over a limit, and keeps copy, byte count and verdict in step |
| `JsonSnapshotter.Snapshotter.Process` | electron/firstReleaseResourceLimits.ts:165-284 | the loop terminates and accepts exactly what the verdict says |
| `JsonSnapshotter.RequireFirstReleaseJsonObject` | electron/firstReleaseResourceLimits.ts:116-292 | accepts exactly the records that are trees of JSON data within every limit; returns a fresh structure with the same value and member order in which no container is shared, and the exact byte count |
| `SecretSearch.ContainsRendererSigningSecret` | electron/rendererSigningBoundary.ts:30-105 | reports a secret only if a reachable object has one, none only if none has, and complexity only if the reachable graph exceeds a budget; terminates on sharing and cycles |
| `SecretSearch.PushFields` | electron/rendererSigningBoundary.ts:78-102 | pushes every own data field, or fails exactly when a field budget is exceeded |
| `SecretSearch.AllSeen` | electron/rendererSigningBoundary.ts:42-56 | when nothing is pending, every object reachable through own data fields has been searched |
| `SecretSearch.SearchedAll` | electron/rendererSigningBoundary.ts:62-68 | so a search that ends finds every secret there is |
| `LedgerReplay.NotesAreBound` | electron/confidentialWallet.ts:587-660 | every recovered note is committed to by its output, owned by a receive key of the wallet and of a tracked asset |
| `LedgerReplay.ReadNotesForTransaction` | electron/confidentialWallet.ts:587-660 | collects the notes of a transaction or fails on the first output that does not check |
| `LedgerReplay.FoldMeans` | electron/confidentialWallet.ts:1015-1170 | the replay fails exactly when a commitment, a nullifier or a note is repeated; otherwise tree, recovered notes and spent set are what the events say |
| `ConfidentialLedger.ReplayMovement` | electron/confidentialWallet.ts:1060-1107 | inputs before outputs of one transfer or unshield |
| `ConfidentialLedger.ReplayTransaction` | electron/confidentialWallet.ts:1015-1170 | shields, then transfers, then unshields; exact unless something is unrecognised |
| `ConfidentialLedger.CollectWalletConfidentialLedger` | electron/confidentialWallet.ts:854-1186 | computes the ledger that the sorted history means, or fails |
| `LedgerTheorems.LedgerMeans` | electron/confidentialWallet.ts:951-1186 | accepted exactly when all can be read and nothing is repeated; the tree is the shield, transfer and unshield outputs in chronological order; the notes are the recovered ones that no later input spends |
| `LedgerTheorems.NotesAtTheirLeaves` | electron/confidentialWallet.ts:1033-1050 | the tree has no duplicates, each returned note sits at its own leaf, and the notes come in leaf order |
| `LedgerTheorems.BalanceConserved` | electron/confidentialWallet.ts:1162-1179 | total recovered is total spendable plus the total of the recovered notes marked spent |
| `LedgerTheorems.SortNotesIdle` | electron/confidentialWallet.ts:1164-1174 | the final sort finds the notes already in order |
| `LedgerTheorems.SortedUnique` | electron/confidentialWallet.ts:662-677 | chronological order is total on distinct hashes: there is one sorted arrangement |
| `LedgerTheorems.PermutationInvariant` | electron/confidentialWallet.ts:662-677 | when every transaction carries its order, any permutation of the input gives the same ledger or both are refused |
| `LedgerTheorems.LaterTransactionsOnlyAdd` | electron/confidentialWallet.ts:993-1186 | transactions that sort after all others keep the old tree as a prefix and every old leaf; the notes recovered so far stay a prefix of all recovered; an old note leaves only when a new input spends it |
| `MachO.WalkFinds` | electron/nativeArtifactHash.ts:103-139 | the load-command walk keeps what it found and finds the rest ahead, inside the table |
| `MachO.WalkAgrees` | electron/nativeArtifactHash.ts:103-139 | the walk never reads a byte that normalisation clears |
| `MachO.SignAgain` | electron/nativeArtifactHash.ts:146-180 | replacing the signature and correcting the size fields yields an accepted image with the same normal form |
| `MachO.SameNormalForm` | electron/nativeArtifactHash.ts:78-181 | two accepted images with the same normal form have the same load commands, and one is the other signed again |
| `MachO.ScanCommands` | electron/nativeArtifactHash.ts:89-135 | the loop finds the two commands of a canonical table, or refuses |
| `MachO.SigningIndependent` | electron/nativeArtifactHash.ts:78-181 | the artifact-hash copy: null, refusal, or the masked bytes before the signature |
| `MachO.ProvenanceSigningIndependent` | electron/irohaJsNativeProvenance.ts:265-372 | whatever the provenance copy accepts, the artifact-hash copy accepts with the same bytes; it refuses just the images whose virtual size is not canonical |
| `MachO.ProvenanceCommands` | electron/irohaJsNativeProvenance.ts:276-321 | the second copy of the loop finds the same commands |
| `Images.FillZero` | electron/nativeArtifactHash.ts:172-179 | clears exactly the given range in place |
| `Pe.SignAgain` | electron/nativeArtifactHash.ts:285-319 | another certificate, or none where allowed, yields an accepted image with the same normal form |
| `Pe.SameNormalForm` | electron/nativeArtifactHash.ts:191-320 | at a fixed unsigned size, two accepted images with the same normal form differ only in checksum, directory entry, zero padding and certificate table |
| `Pe.ReadHeader` | electron/nativeArtifactHash.ts:217-283 | the artifact-hash copy finds the checksum and the certificate entry, or refuses |
| `Pe.SigningIndependent` | electron/nativeArtifactHash.ts:191-320 | null, refusal, or the masked unsigned bytes |
| `Pe.ProvenanceSigningIndependent` | electron/irohaJsNativeProvenance.ts:388-480 | the provenance copy accepts the same inputs with the same bytes |
| `Pe.ProvenanceHeader` | electron/irohaJsNativeProvenance.ts:405-451 | the second copy of the header checks agrees with the first |
| `Positional.DigitsUnique` | electron/firstReleaseFeeQuoteResponse.ts:153-202 | digits without leading zeros are the only such digits of their number |
| `Base58.DivideInPlace` | electron/firstReleaseFeeQuoteResponse.ts:168-174 | one pass divides the number in place, exactly, with every digit in range and the remainder returned |
| `Base58.ConvertInPlace` | electron/firstReleaseFeeQuoteResponse.ts:153-202 | repeated division yields the same number in the other base with as many leading zeros; the represented number decreases |
| `Base58.DecodeBase58` | electron/firstReleaseFeeQuoteResponse.ts:153-181 | decodes every Base58 text and nothing else |
| `Base58.EncodeBase58` | electron/firstReleaseFeeQuoteResponse.ts:182-202 | encodes every byte string |
| `Base58.DecodeEncode` | electron/firstReleaseFeeQuoteResponse.ts:153-202 | decoding an encoded non-empty byte string gives it back |
| `Base58.EncodeDecode` | electron/firstReleaseFeeQuoteResponse.ts:153-202 | encoding a decoded non-empty Base58 text gives it back |
| `Base58.DecodeInjective` | electron/firstReleaseFeeQuoteResponse.ts:208-234 | the bytes of an asset definition id have one literal only |
| `Base58.RequireCanonicalAssetDefinitionId` | electron/firstReleaseFeeQuoteResponse.ts:208-234 | the comparison with the text encoded again never decides anything |
| `Archives.LengthReads` | electron/connectTransactionReview.ts:141-164 | the reader reads what the writers write, whatever follows, up to 2^32 |
| `Archives.LengthCanonical` | electron/connectTransactionReview.ts:148-160 | the reader accepts only the shortest encoding (unsigned LEB128, section 7.6 of DWARF 5) of a length up to 2^32 |
| `Archives.LebPrefixFree` | electron/faucetApi.ts:354-363 | no length is the beginning of another |
| `Archives.FaucetCompactLength` | electron/faucetApi.ts:354-363 | writes the shortest encoding |
| `Archives.NativeCompactLength` | electron/firstReleaseNativeInstruction.ts:116-126 | writes the same encoding |
| `Archives.CompactField` | electron/faucetApi.ts:375-376 | a length-prefixed field |
| `Archives.Concat` | electron/faucetApi.ts:365-373 | concatenates the parts in order |
| `Archives.ArchiveReader.Take` | electron/connectTransactionReview.ts:120-132 | takes the next bytes, or fails exactly when too few are left |
| `Archives.ArchiveReader.CompactLength` | electron/connectTransactionReview.ts:141-164 | reads one canonical length and nothing more |
| `Archives.ArchiveReader.Field` | electron/connectTransactionReview.ts:166-168 | reads one field and nothing more |
| `Archives.ReadExecutableEntries` | electron/connectTransactionReview.ts:183-233 | the reader of instruction lists and batches |
| `Archives.ReadEncoded` | electron/connectTransactionReview.ts:183-233 | reading an encoded executable gives its kind and entries |
| `Archives.EncodeRead` | electron/connectTransactionReview.ts:183-233 | accepted bytes are exactly the encoding of what is returned |
| `Archives.ReadInjective` | electron/connectTransactionReview.ts:183-233 | distinct accepted bytes yield distinct executables |
| `Archives.ReadInstructionWireId` | electron/connectTransactionReview.ts:236-249 | the wire id a review shows |
| `Archives.InstructionBoxPairBody` | electron/firstReleaseNativeInstruction.ts:135-147 | the wire id as a field within a field, then the frame as a byte vector |
| `Archives.PairBodyWireId` | electron/connectTransactionReview.ts:236-249 | the review shows exactly the wire id that was written |
| `Archives.PairBodyInjective` | electron/firstReleaseNativeInstruction.ts:135-147 | a pair body determines wire id and frame |
| `Archives.CheckDraft` | electron/firstReleaseNativeInstruction.ts:161-214 | accepts a draft exactly when the reviewed encoding is the header and its pair body |
| `Archives.OneDraft` | electron/firstReleaseNativeInstruction.ts:204-214 | one reviewed encoding admits at most one draft, and the review shows its wire id |
| `FinalityStore.GovernanceValidationFeeFinalityStore.VerifyAndPromote` | electron/governanceValidationFeeFinality.ts:371-408 | the whole call: load, cover, hydrate, compare, persist, raise the floor |
| `FinalityStore.GovernanceValidationFeeFinalityStore.LoadState` | electron/governanceValidationFeeFinality.ts:410-455 | an absent state is empty only before anything was initialised; anything but a canonical pair of files is refused |
| `FinalityStore.GovernanceValidationFeeFinalityStore.PersistState` | electron/governanceValidationFeeFinality.ts:475-497 | state first, then the marker, on a first promotion |
| `FinalityStore.CallRaisesFloor` | electron/governanceValidationFeeFinality.ts:371-473 | no call lowers the in-process floor; an accepted one makes its observation the watermark, floor and disk agreeing |
| `FinalityStore.AcceptedFormChain` | electron/governanceValidationFeeFinality.ts:371-473 | whatever happens to the two files between calls, the accepted observations of a scope form a chain without regression or equivocation |
| `FinalityStore.AcceptedStayDurable` | electron/governanceValidationFeeFinality.ts:457-473 | no scope is dropped: after an accepted call the disk covers all accepted before |
| `FinalityStore.CrashConsistent` | electron/governanceValidationFeeFinality.ts:475-497 | without tampering, after a crash between any two atomic writes a fresh process refuses everything or loads a state that covers all earlier acceptances |
| `FinalityStore.RefusedBeforeFirstAcceptance` | electron/governanceValidationFeeFinality.ts:475-497 | it refuses everything only if the first promotion was cut off before its marker, when nothing had been accepted |
| `CanonicalJson.CanonicalInjective` | electron/governanceValidationFee.ts:1350-1362 | two values have the same canonical text exactly when they are equal up to the order of object keys |
| `CanonicalJson.NumberPrefixFree` | electron/governanceValidationFee.ts:1351-1353 | the text of a number, laid out as section 6.1.6.1.20 of ECMA-262 says, determines the number and where it ends |
| `CanonicalJson.PrintPrefixFree` | electron/governanceValidationFee.ts:1350-1362 | a printed value can be told from what follows it |
| `CanonicalJson.SortedNames` | electron/governanceValidationFee.ts:1357-1359 | sorting keeps the keys and puts them in code-unit order |
| `Sse.PayloadsAreEvents` | electron/firstReleaseSse.ts:109-182 | a text is accepted exactly when each line and each event is in order, and yields the joined data values of every group of lines between blank lines |
| `Sse.SplitAppend` | electron/firstReleaseSse.ts:152-165 | splitting into lines can be interrupted anywhere |
| `Sse.AppendLines` | electron/firstReleaseSse.ts:156-165 | appends the complete lines of the buffer and keeps the unterminated one, or stops at the first refused line with what was handed out before it |
| `Sse.StreamSse` | electron/firstReleaseSse.ts:109-182 | yields exactly the payloads of the whole text however it is cut into chunks, and is refused exactly when the text is or a chunk overflows the buffer; what it hands out before a refusal are the first events of the whole text |
| `Sse.HandedContinues` | electron/firstReleaseSse.ts:149-165 | what was handed out for the complete lines of a text are the first events of every text that goes on from it |
| `Sse.CutChunkFits` | electron/firstReleaseSse.ts:149-155 | cutting a chunk in two never overflows a buffer it did not overflow whole |
| `Quantities.MaxMantissa` | electron/firstReleaseFeeQuoteResponse.ts:60 | the mantissa bound is 2^511 - 1 |
| `Quantities.DigitBound` | electron/firstReleaseInstructionBuilders.ts:11-13 | 10^154 exceeds 2^511 - 1, so the digit bound never refuses what the mantissa bound admits |
| `Quantities.FaucetIsQuantity` | electron/faucetApi.ts:236-250 | the faucet validator accepts exactly the canonical positive quantities |
| `Quantities.FeeQuoteIsQuantity` | electron/firstReleaseFeeQuoteResponse.ts:236-252 | so does the fee-quote validator |
| `Quantities.TransferIsQuantity` | electron/firstReleaseInstructionBuilders.ts:21-42 | so does the transfer validator |
| `Quantities.CapabilityIsQuantity` | electron/governanceCapabilities.ts:291-310 | so does the capability validator with its positive option |
| `Quantities.ValidatorsAgree` | electron/faucetApi.ts:236-250 | the four validators accept the same literals |
| `Quantities.OneLiteral` | electron/firstReleaseFeeQuoteResponse.ts:236-252 | each accepted literal is the only accepted one for its value |
| `Quantities.MinorUnitsDenote` | electron/governanceValidationFee.ts:1218-1229 | the printed fee is always a canonical quantity and denotes the minor units over 100 |

## Left out

- Heap identity in IrohaConnect: sessions, requests and byte buffers are numbered, the number being the identity that the program compares, and live in stores that the class updates; Dafny object references and arrays are not used, so aliasing appears as equal numbers.
- The container graph of the snapshotter and of the secret search is numbered in the same way; prototypes, accessors, symbols and holes are flags of a container or field, and proxies are not modelled.
- Snapshotter and search inputs: non-enumerable fields are not part of the model; they are neither copied nor followed.
- `sign` during `approveSession`: the generation is checked again only after it returns, so the guarantee concerns promotion and the release of the frame, not the call.
- `transactionReview`, `now` and `randomToken` are assumed not to call back into the boundary.
- Text checks of `prepareSession` (session id, keys, relay token, session commitment) are one predicate, and `normalizeContext` is a function given from outside.
- Copies that the program makes of permissions, signatures and contexts are values.
- `MachO` and `Pe`: reading a file, and the choice of the caller between the two formats.
- Ledger input shape: exact keys, authority text and success flag of a transaction are one flag; asset identifiers are given as already canonical or not.
- `localeCompare` on 64 lowercase hexadecimal digits is modelled as the order of the numbers they denote.
- The sort of the JavaScript engine is modelled by insertion; `LedgerTheorems.SortedUnique` shows that every sorting algorithm gives the same arrangement.
- Decoding of UTF-8 in `readInstructionWireId`: bytes outside printable ASCII decode to text that the pattern refuses, so the model tests the bytes.
- Canonical JSON: the choice of the shortest digits for a floating-point number is given, and not-a-number and infinities, which the parsed projections do not contain, are left out.
- The check of the `maximumEventBytes` option, abort signals and the HTTP request of the event stream.
- Finality files: parsing and canonical encoding are folded into whether a file is the canonical encoding of a state; size limits of the two files are not reached by 64 scopes and are left out.
- The finality store assumes atomic writes; a file that disappears during one call is modelled for the marker only, where the program looks again.
- Field-by-field schema validators, instruction descriptions, HTTP, windows, dialogs, the vault, the faucet's proof of work, the network pin store: settled one branch at a time or input and output.
