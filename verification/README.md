# QuantaID verification model

A Dafny model of the parts of QuantaID that hold state, loops or wire formats, with proofs of what
they guarantee on every input, every run or every reachable state.

| files | what they model |
|---|---|
| `Bytes`, `RadiusPassword`, `RadiusPacket`, `RadiusVendor` | the RADIUS codec: password hiding, packet framing, Response Authenticator, vendor attributes |
| `AuditPipeline`, `AuditDelivery`, `AuditShutdown` | the asynchronous audit logger as interleaved steps of producers and worker, delivery while it runs, and its shutdown |
| `SessionStore`, `SessionRuns`, `SessionEviction`, `SessionReplies` | the Redis session manager, its runs, what eviction, rotation and revocation do over them, and its replies |
| `RateLimiter` | the fixed-window rate limiter |
| `TokenFamily`, `TokenReplies`, `OAuth`, `OAuthRuns`, `OAuthReplies` | refresh-token families and the OAuth code and refresh chains, over runs and request by request |
| `LdapSync`, `LdapSyncConvergence`, `LdapSyncResult`, `LdapSyncFields` | directory synchronisation, its fixed point, its result as a whole and field by field |
| `LdapScope`, `LdapFilter`, `LdapSubstrings`, `LdapSearch` | the virtual directory: scopes, filters, which substring filters are right, search |
| `SessionPolicy`, `PolicyConditions`, `SessionActions` | policy choice, the meaning of its conditions and of the shipped rules, and the session status machine with its event log |
| `Options`, `Histories`, `Strings` | shared: optional values, runs of a step system, string operations |

Objects whose methods update fields are classes; each method is specified by a function on values
(`View()` before and after), and the theorems are about those functions over whole runs. A run is a
datatype of steps, oldest innermost, so a statement about every run is a statement about every
value of it.

Modelling choices:

- MD5, the S256 transformation, case mapping and Go's `%v` formatting are function parameters; the
  results hold for all of them. Case mapping works character by character and keeps commas apart.
- Time is an integer. UUIDs and random strings are arguments that a run never repeats.
- Session and token keys may vanish from Redis at any step (`Lapse`). This is weaker than any TTL,
  so the results hold for every TTL. The rate limiter models expiry exactly, for both answers to
  whether a key is still there at the very instant of its deadline.
- Failing repository calls are explicit: a failure oracle in the directory sync, call outcomes in
  the OAuth adapter, the token service and the session actions, a failed listing in the directory
  search, partly stored batches in the audit pipeline, script failures in the rate limiter.
- Preconditions that stand for a Go panic: a RADIUS header length below 20 (`HeaderSane`), a
  Vendor-Specific value too short for the octets the scan reads (`ScanSafe`), an inner vendor length
  below 2, `Record` after the channel is closed, a negative batch size, and `RevokeSession` without a
  user under device binding (`RevokePanics`).

Where the code does not do what its comments or tests promise, the model follows the code and proves
the exact condition:

- Eviction removes ids from the index but not the sessions, so revoking all of a user's sessions
  leaves exactly the evicted ones readable (`RevokeAllExact`); none are left in every run that never
  meets the limit (`RevokeAllEndsAll`).
- RevokeSession does not verify ownership as its comment says
  (internal/storage/redis/session_manager.go:331): naming any user ends the session
  (`RevokeIgnoresOwner`).
- With device binding, which internal/server/http/server.go:203 switches on, the request that
  created a session is refused, because no operation stores the device
  (`DeviceBindingLocksOut`); internal/storage/redis/integration_test.go:112-115 expects it to work.
- An authorization code or refresh token is single use exactly when its deletion succeeded
  (`OAuthRuns.ReusableExactly`, `TokenFamily.ReusableExactly`): a failed one is only logged.
- The token service never registers a token family, and without one no refresh token can be
  refreshed (`NoFamilyNoRefresh`); only mocks call CreateFamily
  (internal/domain/auth/repository.go:78).
- A second directory sync reports an error for each user beyond the page read, although nothing is
  wrong with them (`SyncConverges`); users beyond the page are never updated or deactivated
  (`FullSyncIsSafe`), and an attribute change alone is not stored (`FullSyncExact`).
- The directory search lists users with an empty filter, expecting all of them
  (internal/protocol/ldap/virtual_tree.go:48-54); page 0 of size 0 holds nobody, so with either of
  the project's repositories every search returns nothing (`EverySearchIsEmpty`). The other results
  about the search take the listing as given.
- A username with a comma is inserted into the DN unescaped and hides its user from single-level
  searches (`SearchByDepth`).
- Whole-subtree scope compares characters (`ScopeExact`), and the search returns nothing from the
  ancestors of the server's base (`SearchByDepth`).
- Substring pieces are accepted overlapping or out of order (`OverlapAccepted`,
  `WrongOrderAccepted`); a list of pieces is judged rightly on every value exactly when no two
  neighbours among its non-empty pieces clash (`SubstringsExactly`).
- A failed session update leaves the object changed and the log silent (`FailureKeepsLogExactly`,
  `LogFaithfulExactly`), and a terminated session can be revived (`TerminationEndsExactly`).
- Presenting a superseded refresh token does not revoke its family (`RedeemableExactlyCurrent`), and
  whether a token is the current one is never asked (`RedeemableExactly`).

## Model

| member | source | states |
|---|---|---|
| `RadiusPassword.Padded` | internal/protocol/radius/attributes.go:177-183 | the padded password is a positive number of whole 16-octet blocks that starts with the password, adds at most 16 octets and only NULs |
| `RadiusPassword.TrimRight` | internal/protocol/radius/attributes.go:223 | the result is the prefix not ending in NUL after which only NULs follow |
| `RadiusPassword.MaskBlock` | internal/protocol/radius/attributes.go:194-196 | the inner loop writes source xor digest into one block and leaves everything before it as it was |
| `Bytes.XorIsBitwise` | internal/protocol/radius/attributes.go:194-196 | the mask flips exactly the bits in which the two octets differ |
| `RadiusPassword.HideBlocks` | internal/protocol/radius/attributes.go:188-199 | the block loop computes the chained hiding, each block keyed by the previous hidden one |
| `RadiusPassword.UnhideBlocks` | internal/protocol/radius/attributes.go:211-221 | the block loop computes the chained unhiding, each block keyed by the previous received one |
| `RadiusPassword.EncodePassword` | internal/protocol/radius/attributes.go:174-200 | padding and hiding, for every password, authenticator and secret |
| `RadiusPassword.DecodePassword` | internal/protocol/radius/attributes.go:203-224 | unhiding and trimming; the empty string for a length that is zero or no multiple of 16 |
| `RadiusPassword.HideSolvesBlockEquations` | internal/protocol/radius/attributes.go:185-199 | a string is the hidden form if and only if it satisfies the block equations of section 5.2 of RFC 2865 |
| `RadiusPassword.UnhideInvertsHide` | internal/protocol/radius/attributes.go:188-221 | unhiding undoes hiding for every MD5, secret and starting block |
| `RadiusPassword.HideInvertsUnhide` | internal/protocol/radius/attributes.go:188-221 | hiding undoes unhiding for every received string of whole blocks |
| `RadiusPassword.PasswordRoundTrip` | internal/protocol/radius/attributes.go:174-224 | decoding an encoded password gives it without trailing NULs (itself if it has none, also when empty), and the hidden form is a positive multiple of 16 octets |
| `RadiusPassword.HiddenRoundTrip` | internal/protocol/radius/attributes.go:174-224 | encoding a decoded attribute restores it if and only if it is one block or its last plaintext block is not all NUL |
| `RadiusPassword.EncodedInjective` | internal/protocol/radius/attributes.go:174-200 | two passwords hide alike if and only if their padded forms are equal |
| `RadiusPacket.ParseAttributes` | internal/protocol/radius/packet.go:66-93 | the scanning loop computes the attribute list or the first error, tolerating one stray octet |
| `RadiusPacket.ParsePacket` | internal/protocol/radius/packet.go:38-64 | header checks in source order, then a fresh packet with exactly the parsed contents, or the error |
| `RadiusPacket.Packet.AddAttribute` | internal/protocol/radius/packet.go:139-146 | appends one attribute whose length octet is the low byte of 2 + size; nothing else changes |
| `RadiusPacket.Packet.Encode` | internal/protocol/radius/packet.go:96-114 | header, authenticator and attributes in order, with the length patched in modulo 65536 |
| `RadiusPacket.Packet.GetAttribute` | internal/protocol/radius/packet.go:117-127 | none if and only if no attribute has the type; otherwise the first one that has it |
| `RadiusPacket.Packet.CreateResponse` | internal/protocol/radius/packet.go:149-157 | a fresh packet with the request's identifier and secret, the given code and no attributes |
| `RadiusPacket.Packet.CalculateResponseAuthenticator` | internal/protocol/radius/packet.go:160-174 | MD5 of the encoding with the request's authenticator in place, followed by the secret |
| `RadiusPacket.SendResponse` | internal/protocol/radius/server.go:221-230 | the response is signed and encoded so that the client's check of the wire succeeds; only its authenticator changes |
| `RadiusPacket.ParsesExactlyFrames` | internal/protocol/radius/packet.go:66-93 | the parser returns an attribute list if and only if the list is well formed and its bytes are the input, up to one stray octet |
| `RadiusPacket.PacketRoundTrip` | internal/protocol/radius/packet.go:38-114 | parsing an encoded packet restores it with the length filled in if and only if every length octet is right and the packet fits 65535 octets |
| `RadiusPacket.DatagramRoundTrip` | internal/protocol/radius/packet.go:38-114 | re-encoding an accepted datagram gives its first Length octets, or drops one stray octet and lowers the length by one |
| `RadiusPacket.SignedWireAccepted` | internal/protocol/radius/packet.go:160-174 | the client's recomputation from the wire equals octets 4..20, whatever the authenticator field held before signing |
| `RadiusPacket.ResponseVerifies` | internal/protocol/radius/packet.go:149-174 | a client that parses the wire gets the signed packet back, with the request's identifier, and recomputes exactly the authenticator it received |
| `RadiusPacket.AuthenticatorBindsWire` | internal/protocol/radius/packet.go:160-174 | two accepted responses with the same authenticator are the same wire unless MD5 collides on them |
| `RadiusVendor.GetVendorAttribute` | internal/protocol/radius/mschap.go:228-244 | none if and only if no attribute carries the vendor and type; otherwise the first carrier's value after its header |
| `RadiusVendor.VendorAttributeUnique` | internal/protocol/radius/mschap.go:228-244 | the specification of the scan admits one answer |
| `RadiusVendor.VendorRoundTrip` | internal/protocol/radius/attributes.go:227-267 | vendor id, type and value come back from the encoding; the inner length is right up to 253 octets and the outer one if and only if the value has at most 247 |
| `RadiusVendor.DecodersAgree` | internal/protocol/radius/attributes.go:237-267 | the length-checking decoder and the scan read the same value if and only if the inner length covers the whole attribute |
| `RadiusVendor.DecodesExactly` | internal/protocol/radius/attributes.go:243-267 | the decoder accepts if and only if header and inner length fit, and reads as much as that length says |
| `Bytes.U32IsBigEndian` | internal/protocol/radius/attributes.go:227-235 | the vendor id is written with its most significant octet first |
| `RadiusVendor.VendorValueSurvives` | internal/protocol/radius/mschap.go:228-244 | a value added to a packet without one of its kind survives add, encode, parse and scan if and only if it has at most 247 octets |
| `RadiusVendor.ParsedVendorValuesAreShort` | internal/protocol/radius/packet.go:66-93 | no parsed packet yields a vendor value above 247 octets |
| `RadiusVendor.FirstVendorValueWins` | internal/protocol/radius/mschap.go:228-244 | the first carrier of a vendor and type is recovered whatever attributes follow it, ones too short to scan included, and both decoders agree on it |
| `RadiusVendor.CreateMSCHAPAccept` | internal/protocol/radius/mschap.go:194-211 | a fresh Access-Accept carrying the authenticator response as its one Microsoft attribute |
| `RadiusVendor.CreateMSCHAPError` | internal/protocol/radius/mschap.go:213-224 | a fresh Access-Reject carrying the message as its one Microsoft attribute |
| `RadiusVendor.MSCHAPReplyDelivered` | internal/protocol/radius/mschap.go:194-224 | the signed reply is accepted by the client, echoes the identifier and delivers its message if and only if it has at most 247 octets |
| `AuditPipeline.AuditLogger.RecordEvent` | internal/audit/logger.go:63-80 | enrichment, then the channel if there is room and writeSync otherwise: exactly the Record step |
| `AuditPipeline.AuditLogger.ReceiveEvent` | internal/audit/logger.go:101-106 | the head of the channel joins the batch and a full batch starts a flush: exactly the Receive step |
| `AuditPipeline.AuditLogger.TickFlush` | internal/audit/logger.go:107-111 | a non-empty batch starts a flush and an empty one does not: exactly the Tick step, see TickDelivers |
| `AuditPipeline.AuditLogger.DrainBuffer` | internal/audit/logger.go:112-120 | the draining loop moves the whole channel into the batch in order: exactly the Drain step |
| `AuditPipeline.AuditLogger.FlushBatch` | internal/audit/logger.go:131-137 | the sink loop hands every sink the whole batch in order, once, whatever part of it each sink stores, and the batch is reset |
| `AuditPipeline.AuditLogger.WriteSyncAll` | internal/audit/logger.go:83-89 | the sink loop offers the event to every sink once, whichever of them fail, and the producer is done |
| `AuditPipeline.WorkerSideStep` | internal/audit/logger.go:91-137 | every step keeps, at each sink, the worker's offers equal to the flushed events plus the batch once the flush reached the sink |
| `AuditPipeline.ProducerSideStep` | internal/audit/logger.go:63-89 | every step keeps, at each sink, the direct offers plus what producers owe equal to the events Record routed directly |
| `AuditPipeline.ControlInvariantStep` | internal/audit/logger.go:91-128 | every step keeps the channel within capacity, the waiting batch below its limit and the shutdown phases in order |
| `AuditPipeline.OrderStep` | internal/audit/logger.go:99-121 | every step keeps flushed events, batch and channel, in this order, equal to the buffered events in recording order |
| `AuditPipeline.InvariantHolds` | internal/audit/logger.go:63-143 | all of this in every state of every interleaving, and the two routes together are the events Record was called with |
| `AuditPipeline.Conservation` | internal/audit/logger.go:63-137 | in every reachable state and at every sink, offered, owed, unflushed and buffered events are exactly the recorded ones as a multiset, and worker offers are in FIFO order |
| `AuditPipeline.Bounded` | internal/audit/logger.go:91-111 | the channel never exceeds its capacity and a waiting worker's batch is below max(1, batchSize) |
| `AuditPipeline.ShutdownDelivers` | internal/audit/logger.go:112-143 | after shutdown every recorded event was offered to every sink exactly once, buffered ones in order, and a sink that never failed stored exactly the recorded events |
| `AuditDelivery.RecordedAsGiven` | internal/audit/logger.go:63-71 | one event is recorded, with the caller's payload, identifier and timestamp, and generated ones only where the caller gave none |
| `AuditDelivery.RoutedByRoom` | internal/audit/logger.go:72-80 | the event goes to the end of the channel if and only if there is room, and otherwise to a producer that starts at the first sink |
| `AuditDelivery.FlushesAreNonempty` | internal/audit/logger.go:104-121 | in every reachable state a flush in progress has events to flush |
| `AuditDelivery.WritesStoreExactly` | internal/audit/logger.go:83-137 | a sink comes to hold the stored part of a batch or the event of a successful direct write, and nothing else |
| `AuditDelivery.TickDelivers` | internal/audit/logger.go:107-111 | from every reachable state with an idle worker a tick and the flush it starts, and nothing else, empty the batch and offer every sink exactly that batch, whatever the sinks store |
| `AuditDelivery.WorkerCatchesUp` | internal/audit/logger.go:99-111 | from every reachable state before the drain the worker's own steps lead to empty channel and batch with every buffered event offered to every sink in order |
| `AuditShutdown.WorkShrinks` | internal/audit/logger.go:91-137 | every step that records nothing and changes something uses up part of a finite amount of work |
| `AuditShutdown.ShutdownInevitable` | internal/audit/logger.go:112-143 | after cancelling, in every interleaving without new records and whatever sinks fail, only so many steps can change anything; a next one exists if and only if the worker has not stopped or a producer is waiting, and then everything recorded has been offered to every sink once |
| `AuditShutdown.FinishFlush` | internal/audit/logger.go:131-137 | from every state in mid-flush the remaining steps can be taken, and uninterrupted they leave exactly the state the whole loop leaves |
| `AuditShutdown.ShutdownCompletes` | internal/audit/logger.go:112-143 | from every reachable state a finite continuation without new records stops the worker with everything delivered |
| `SessionStore.SessionManager.DeleteSession` | internal/storage/redis/session_manager.go:146-172 | the session key and the user's index entry go, nothing else changes |
| `SessionStore.SessionManager.EnforceMaxSessions` | internal/storage/redis/session_manager.go:175-212 | the oldest ids beyond maximum minus one leave the index; session keys stay |
| `SessionStore.SessionManager.CreateSession` | internal/storage/redis/session_manager.go:56-109 | eviction, then a new key and index entry, or the already-exists error |
| `SessionStore.SessionManager.GetSession` | internal/storage/redis/session_manager.go:112-143 | not found, unreadable grace pointer, expired with proactive deletion, device mismatch, or the stored session |
| `SessionStore.SessionManager.RotateSession` | internal/storage/redis/session_manager.go:215-262 | new session first, then the grace pointer under the old key and the old id out of the index; the device is copied to the answer only; earlier errors pass through |
| `SessionStore.SessionManager.GetUserSessions` | internal/storage/redis/session_manager.go:265-328 | the readable sessions in index order, and dead ids gone from index and store |
| `SessionStore.SessionManager.RevokeSession` | internal/storage/redis/session_manager.go:332-349 | with a user the deletion, without one the look-up of the owner first |
| `SessionStore.SessionManager.RevokeAllUserSessions` | internal/storage/redis/session_manager.go:352-366 | every indexed id gone from the store and from the index |
| `SessionRuns.InvariantHolds` | internal/storage/redis/session_manager.go:56-366 | in every run with fresh ids each indexed id has no record or that user's session record, no record has a device, and indexes are in Redis order, without repeats and within the maximum |
| `SessionRuns.CreatedKeepsInvariant` | internal/storage/redis/session_manager.go:56-109 | creation keeps the invariant and, the id being fresh, succeeds |
| `SessionRuns.RotatedKeepsInvariant` | internal/storage/redis/session_manager.go:215-262 | rotation keeps the invariant and succeeds for every session a look-up would find |
| `SessionRuns.ListingIsExact` | internal/storage/redis/session_manager.go:265-328 | listing returns only that user's unexpired sessions, leaves the index equal to their ids in order, and changes no other user's index or record nor any id's readability |
| `SessionRuns.GetIsExact` | internal/storage/redis/session_manager.go:112-143 | a look-up succeeds if and only if the session is readable and devices are not bound or the device is empty; it returns the record of that very id and changes no id's readability |
| `SessionRuns.DeviceBindingLocksOut` | internal/storage/redis/session_manager.go:137-140 | in every run with device binding, every look-up and every rotation from a real device fails, readable sessions with the mismatch error |
| `SessionEviction.RevokeIsExact` | internal/storage/redis/session_manager.go:330-349 | the key goes, and the entry in the index of the named user or of the one the record names, expired or not; nothing else changes; without a user and a record, or when it panics, nothing does |
| `SessionEviction.RevokeIgnoresOwner` | internal/storage/redis/session_manager.go:330-336 | a call that names a user ends the session whoever owns it; everybody else's sessions survive if and only if the id is not one of theirs |
| `SessionEviction.IndexedUnlessEvicted` | internal/storage/redis/session_manager.go:56-366 | in every run a readable session is in its owner's index if and only if no creation or rotation of the run evicted its id |
| `SessionEviction.RevokeAllExact` | internal/storage/redis/session_manager.go:352-366 | the index is emptied, every indexed id gone, other users untouched; a session of the user is readable afterwards if and only if it was before and had been evicted |
| `SessionEviction.RevokeAllEndsAll` | internal/storage/redis/session_manager.go:352-366 | in every run without a limit or in which no creation or rotation finds the index full, all readable sessions are indexed and revoking all leaves none |
| `SessionEviction.CreateKeepsAllIndexed` | internal/storage/redis/session_manager.go:56-62 | after creation all of the user's readable sessions are indexed if and only if every one of them survives the eviction |
| `SessionEviction.RotateKeepsAllIndexed` | internal/storage/redis/session_manager.go:215-262 | after rotation likewise, for the owner's sessions other than the rotated one |
| `SessionEviction.EvictedSessionOutlivesRevocation` | internal/storage/redis/session_manager.go:193-199 | a concrete run under a limit of one after which both sessions can be read, one of them even after revoking all |
| `SessionEviction.CreatedLivesForTTL` | internal/storage/redis/session_manager.go:66-83 | a new session is indexed, readable before its TTL and not after it; at that instant it is readable if and only if Redis still has the key |
| `SessionRuns.UnreadableForever` | internal/storage/redis/session_manager.go:112-366 | an issued id that became unreadable in any way stays so in every continuation |
| `SessionEviction.RotationMovesSession` | internal/storage/redis/session_manager.go:215-262 | the new id is indexed and readable for the same user, the old one neither, then or ever after; the index is exactly the kept ids and the new one; other indexes stay |
| `SessionEviction.RotationOnFullIndex` | internal/storage/redis/session_manager.go:193-248 | on a full index the oldest entry goes, and the index ends one short of the limit unless the rotated session was the oldest |
| `SessionRuns.IndexIsNewest` | internal/storage/redis/session_manager.go:56-109 | after any run of creations with increasing scores the index is exactly the last min(n, m) ids created, oldest first |
| `SessionRuns.EvictsOldest` | internal/storage/redis/session_manager.go:192-199 | every evicted entry precedes every kept one |
| `SessionReplies.GetReplies` | internal/storage/redis/session_manager.go:112-143 | every answer of a look-up in any run: the error for a missing, rotated, expired or mismatched session, and the clean-up of an expired one only |
| `SessionReplies.RotateReplies` | internal/storage/redis/session_manager.go:215-262 | a rotation fails exactly as a look-up does; otherwise it answers with the owner's session from now until the TTL, stores it, and leaves a pointer to it under the old id |
| `SessionReplies.RotatedDevice` | internal/storage/redis/session_manager.go:227-229 | in any state the answer carries the old session's device and the stored record does not |
| `SessionReplies.CreateReplies` | internal/storage/redis/session_manager.go:56-109 | a taken id is refused after the eviction has happened; otherwise the session is stored and indexed under the current time |
| `SessionReplies.CreateRestoresLimit` | internal/storage/redis/session_manager.go:175-212 | with a limit the index holds at most that many afterwards, however many before, and the newest that fit are kept |
| `SessionReplies.ListedAreReadable` | internal/storage/redis/session_manager.go:265-328 | after a listing only readable ids are indexed for the user |
| `SessionReplies.EndedLeavesNoKey` | internal/storage/redis/session_manager.go:112-349 | deletion, revocation by a named user and looking up an expired session leave no key |
| `RateLimiter.RateLimitMiddleware.Incr` | internal/server/middleware/ratelimit.go:22 | INCR on a live key adds one; on an expired or missing one it starts at one |
| `RateLimiter.RateLimitMiddleware.Execute` | internal/server/middleware/ratelimit.go:95-118 | the script's counter update and verdict, and service without counting when Redis fails |
| `RateLimiter.StepAt` | internal/server/middleware/ratelimit.go:17-32 | a request changes the counter of its own key only |
| `RateLimiter.AtMostLimitPerCounter` | internal/server/middleware/ratelimit.go:17-32 | between a counter's creation and its expiry at most `limit` requests are admitted, over every run |
| `RateLimiter.WindowInvariantStep` | internal/server/middleware/ratelimit.go:17-32 | one script run keeps the relation between the counter and the requests admitted in an interval |
| `RateLimiter.AtMostTwiceLimitPerWindowLength` | internal/server/middleware/ratelimit.go:17-32 | any interval of one window's length, wherever it starts, holds at most 2 * limit - 1 admitted requests, plus those served while Redis was down, whatever other keys do |
| `RateLimiter.AtMostTwiceLimitBothEnds` | internal/server/middleware/ratelimit.go:17-32 | an interval of one window's length with both ends included holds at most 2 * limit admitted requests, plus those served while Redis was down |
| `RateLimiter.BoundIsReached` | internal/server/middleware/ratelimit.go:17-32 | for every limit and every window of at least 2 a run reaches that bound |
| `RateLimiter.NoWindowNoLimit` | internal/server/middleware/ratelimit.go:22-25 | with a window of zero or less a request is served if and only if the limit is at least one or Redis is down |
| `TokenFamily.FamilyOf` | internal/domain/auth/repository.go:63-82 | the family found lists the token; none is found only if no family does |
| `TokenFamily.Service.CreateSessionAndTokens` | internal/domain/auth/service.go:156-188 | the new refresh token stored for the user, or the error of the first failing call; a failed session leaves the token stored |
| `TokenFamily.Service.RefreshAccessToken` | internal/domain/auth/service.go:235-280 | the checks and calls in order, each with its failure; on success new token stored, family extended, old token deleted unless that fails |
| `TokenFamily.Service.RevokeToken` | internal/domain/auth/service.go:283-299 | under the refresh_token hint the family is revoked if one is found, else the token is deleted, unless the write fails |
| `TokenFamily.RefreshKeepsInvariant` | internal/domain/auth/service.go:235-280 | under every outcome of the calls a refresh keeps families disjoint, their tokens distinct and ending with the current one, and stored ones with the family's user |
| `TokenFamily.InvariantHolds` | internal/domain/auth/service.go:156-290 | the same in every state of every run with fresh tokens |
| `TokenFamily.RedeemableExactly` | internal/domain/auth/service.go:235-280 | in every state a member refreshes if and only if it is stored, its family is unrevoked and the calls work, and then for the family's user |
| `TokenFamily.RedeemableExactlyCurrent` | internal/domain/auth/service.go:235-280 | while the family's own deletions succeed, a member refreshes if and only if it is the current token, stored, of an unrevoked family; a refusal changes nothing |
| `TokenFamily.NoFamilyNoRefresh` | internal/domain/auth/service.go:243-246 | in runs in which nobody registers a family every refresh is refused |
| `TokenFamily.GoneForever` | internal/storage/memory/auth_memory_repository.go:72-94 | a token that left the store never returns to it and is never redeemed again |
| `TokenFamily.RefreshSpends` | internal/domain/auth/service.go:267-269 | after a refresh the old token is stored if and only if its deletion failed |
| `TokenFamily.RedeemedAtMostOnce` | internal/domain/auth/service.go:235-280 | over every run a refresh token whose redemption deleted it is not redeemed again, whatever became of other deletions |
| `TokenFamily.ReusableExactly` | internal/domain/auth/service.go:267-269 | after a refresh some continuation redeems the same token again if and only if its deletion failed |
| `TokenFamily.RevokedForever` | internal/domain/auth/service.go:283-290 | a revoked family stays as it is in every continuation |
| `TokenFamily.RevocationEndsFamily` | internal/domain/auth/service.go:235-290 | after a successful revocation through any member no token of the family is ever refreshed again, undeleted ones included |
| `TokenFamily.FamilyGrowsByRedemption` | internal/domain/auth/service.go:262-264 | each issued token but the first came from the redemption of an earlier member for the family's user, of the one just before it while the family's deletions succeed |
| `TokenReplies.LoginExactly` | internal/domain/auth/service.go:156-188 | a login stores its token for the user who logged in if and only if signing and storing work, and answers with it if and only if the session is created too |
| `TokenReplies.RefreshExactly` | internal/domain/auth/service.go:235-280 | the whole of a refresh in any run and under every outcome of its calls: each refusal's error, the tokens and families it changes, and for whom the new token is stored |
| `TokenReplies.RevokeOutsideFamily` | internal/domain/auth/service.go:283-290 | a token in no family, or whose family cannot be looked up, stays stored if and only if it was and its deletion failed; nothing else changes, and once deleted it is never redeemed |
| `TokenReplies.RevokeInsideFamily` | internal/domain/auth/service.go:283-290 | exactly the member's family is revoked, if it can be written, and no stored token is touched; another hint changes nothing |
| `TokenReplies.FamilyInUse` | internal/domain/auth/service.go:235-280 | a concrete family through two refreshes and an expiry |
| `OAuth.OAuthAdapter.HandleAuthRequest` | pkg/auth/protocols/oauth.go:59-117 | the request's objections in source order, a failed write, or a stored grant under the new code |
| `OAuth.OAuthAdapter.GenerateTokens` | pkg/auth/protocols/oauth.go:196-231 | a refresh key for users only, the error when it cannot be stored, and the reply or the later error that leaves the key behind |
| `OAuth.OAuthAdapter.HandleAuthorizationCode` | pkg/auth/protocols/oauth.go:133-156 | missing code, failed PKCE, consumption of the code, then tokens for the granted user, scope and client |
| `OAuth.OAuthAdapter.HandleRefreshToken` | pkg/auth/protocols/oauth.go:158-177 | missing token, missing user (token kept), consumption, then tokens for the same user, scope and client |
| `OAuth.OAuthAdapter.HandleClientCredentials` | pkg/auth/protocols/oauth.go:179-194 | the secret check, then tokens without a user |
| `OAuthRuns.InvariantHolds` | pkg/auth/protocols/oauth.go:96-231 | in every run with fresh strings the stores agree with the history of grants and issues, and every issue is linked to its source |
| `OAuthRuns.LineageIsFaithful` | pkg/auth/protocols/oauth.go:96-231 | every user token goes back, through any number of renewals, to exactly one authorization whose user, client and scope it carries |
| `OAuthRuns.ExchangesMetChallenge` | internal/domain/auth/pkce.go:9-21 | every code exchange met the stored challenge, with method S256 or plain |
| `OAuthRuns.GrantsAreChecked` | pkg/auth/protocols/oauth.go:65-94 | every grant is for a registered client and redirect URI, and for a public client has a challenge |
| `OAuthRuns.MintingSpends` | pkg/auth/protocols/oauth.go:146-174 | after a minting step the code or refresh token is stored if and only if the deletion in that step failed |
| `OAuthRuns.GoneForever` | pkg/auth/protocols/oauth.go:133-177 | a code or refresh token that left the store never returns and mints nothing more |
| `OAuthRuns.SpentSourcesAreGone` | pkg/auth/protocols/oauth.go:146-174 | a code or refresh token whose own deletion succeeded when it minted is never in the store again |
| `OAuthRuns.SourcesAreSingleUse` | pkg/auth/protocols/oauth.go:133-177 | such a code or refresh token mints no second token, whatever became of other deletions |
| `OAuthRuns.ReusableExactly` | pkg/auth/protocols/oauth.go:146-174 | after a minting step some continuation mints from the same source again if and only if the deletion in that step failed |
| `OAuthRuns.OneCodeTwoTokens` | pkg/auth/protocols/oauth.go:146-148 | a concrete run in which one code yields two tokens |
| `OAuthRuns.RepliesMatchIssues` | pkg/auth/protocols/oauth.go:196-231 | in every run a token reply delivers the newest issue, and its refresh token is stored if and only if a user is behind it, for that user, scope and client |
| `OAuthRuns.ClientTokensNeverRedeemable` | pkg/auth/protocols/oauth.go:193-213 | the refresh string returned for client credentials is in no state of any run stored as a refresh token |
| `OAuthReplies.AuthorizeExactly` | pkg/auth/protocols/oauth.go:59-117 | a code is given if and only if one is asked for, client and redirect URI are registered, a public client sends a challenge, and it can be stored; each refusal's error; URI and state are echoed |
| `OAuthReplies.ExchangeExactly` | pkg/auth/protocols/oauth.go:133-156 | an exchange in any run: an unknown code or wrong verifier is an invalid grant and changes nothing; otherwise the code is spent unless its deletion fails, and tokens come if and only if every further call works |
| `OAuthReplies.RenewExactly` | pkg/auth/protocols/oauth.go:158-177 | a refresh likewise, keeping the old token when its user is gone |
| `OAuthReplies.ClientCredentialsExactly` | pkg/auth/protocols/oauth.go:179-194 | tokens if and only if the client is registered, the configured secret is the one presented and signing works; otherwise an invalid client or the signing error; no store changes |
| `OAuthReplies.WrongSecretRefused` | pkg/auth/protocols/oauth.go:189-191 | a request with another secret than the configured one issues nothing and changes nothing |
| `OAuthReplies.IssuesComeFromRequests` | pkg/auth/protocols/oauth.go:133-194 | every issue of every run comes from a request that presented its code, its refresh token, or the client's configured secret |
| `LdapSync.LDAPSyncService.ApplyLifecycleRules` | internal/services/sync/ldap_sync_service.go:193-204 | the rule loop stops at the first match |
| `LdapSync.LDAPSyncService.CreateUser` | internal/services/sync/ldap_sync_service.go:149-158 | the ruled user is appended, or an error is counted when the write fails or the name is taken |
| `LdapSync.LDAPSyncService.UpdateUser` | internal/services/sync/ldap_sync_service.go:160-191 | the in-memory merge, and the write, its failure or no change counted |
| `LdapSync.LDAPSyncService.ProcessRemote` | internal/services/sync/ldap_sync_service.go:89-96 | each remote user in order is updated or created |
| `LdapSync.LDAPSyncService.DisableIfAbsent` | internal/services/sync/ldap_sync_service.go:99-111 | a local user the directory lacks is deactivated unless already inactive |
| `LdapSync.LDAPSyncService.DisableAbsent` | internal/services/sync/ldap_sync_service.go:98-112 | all of the page, in order |
| `LdapSync.LDAPSyncService.IncrementalSync` | internal/services/sync/ldap_sync_service.go:118-147 | each changed user is looked up and created or updated; failed look-ups are counted |
| `LdapSync.LDAPSyncService.FullSync` | internal/services/sync/ldap_sync_service.go:63-116 | both phases on the first page, or nothing when a listing fails |
| `LdapSync.LastIndex` | internal/services/sync/ldap_sync_service.go:84-87 | the index of the last user of that name, as the map built by the loop holds it |
| `LdapSync.EveryUserAccountedFor` | internal/services/sync/ldap_sync_service.go:89-112 | under every failure pattern created + updated + unchanged + disabled + errors is the remote total plus the local users absent from the directory and not inactive |
| `LdapSync.IncrementalAccounts` | internal/services/sync/ldap_sync_service.go:130-143 | an incremental sync counts each changed user exactly once and disables nobody |
| `LdapSyncConvergence.SettledIsFixedPoint` | internal/services/sync/ldap_sync_service.go:63-116 | on a settled repository of any size a sync changes nothing under every failure pattern; users on the page are reported unchanged, the others as errors |
| `LdapSyncConvergence.NoFailuresSettles` | internal/services/sync/ldap_sync_service.go:63-116 | one pass without failures settles the repository |
| `LdapSyncConvergence.FullIsIncrementalThenDisable` | internal/services/sync/ldap_sync_service.go:89-143 | under every pattern of write failures a full sync is an incremental sync of the whole directory followed by deactivation |
| `LdapSyncResult.FirstRuleWins` | internal/services/sync/ldap_sync_service.go:193-204 | the first applicable rule sets the status and nothing else changes |
| `LdapSyncResult.FullSyncExact` | internal/services/sync/ldap_sync_service.go:63-191 | the resulting repository in order: each local user's expected record in place, then the new users in directory order |
| `LdapSyncFields.FullSyncFields` | internal/services/sync/ldap_sync_service.go:149-204 | the result field by field: kept when local data is preferred or the contact data agrees; else the directory's e-mail, phone and attributes and the status of the first rule those attributes satisfy, or the local one; inactive when the directory lacks the user; unknown users with the directory's fields |
| `LdapSyncFields.MergedFields` | internal/services/sync/ldap_sync_service.go:171-181 | an update keeps the name, takes over e-mail, phone and attributes, and applies the rules to the directory's attributes |
| `LdapSyncFields.CountersExact` | internal/services/sync/ldap_sync_service.go:89-112 | without failures created, updated, disabled and unchanged count the new, the outdated, the orphaned and the other users |
| `LdapSyncFields.WritesAreCounted` | internal/services/sync/ldap_sync_service.go:89-204 | under every failure pattern each write attempt is counted once, and the repository has grown by the created ones |
| `LdapSyncFields.IncrementalIsCounted` | internal/services/sync/ldap_sync_service.go:130-143 | likewise in an incremental sync, where each failed look-up is an error and writes nothing |
| `LdapSyncResult.SyncConverges` | internal/services/sync/ldap_sync_service.go:63-116 | after a pass without failures a second one leaves the repository as it is, whatever fails, and reports no user created, updated or disabled; its errors are exactly the users by which local and new ones exceed the page, the rest is unchanged |
| `LdapSyncResult.FullSyncIsSafe` | internal/services/sync/ldap_sync_service.go:63-191 | whatever the directory lists and whatever fails, names stay distinct, nobody is removed and users beyond the page are untouched |
| `LdapSyncResult.FailingWritesChangeNothing` | internal/services/sync/ldap_sync_service.go:149-191 | when every write fails the repository stays as it is and nothing is reported as done |
| `Strings.SplitJoin` | internal/protocol/ldap/virtual_tree.go:134 | splitting a joined list of comma-free parts gives the parts back |
| `Strings.JoinSplit` | internal/protocol/ldap/virtual_tree.go:134 | joining the parts of any string gives the string back |
| `LdapScope.JoinSuffix` | internal/protocol/ldap/virtual_tree.go:123-125 | a joined base is a string suffix of a joined name if and only if its RDNs are the name's last ones, the first possibly cut short |
| `LdapScope.RemainingCount` | internal/protocol/ldap/virtual_tree.go:127-134 | trimming leaves the RDNs in front of a proper tail, and the whole name otherwise |
| `LdapScope.ScopeExact` | internal/protocol/ldap/virtual_tree.go:115-141 | the test's answer for every name and every base, as their parts between commas, in all three scopes |
| `LdapScope.ScopeByDepth` | internal/protocol/ldap/virtual_tree.go:115-141 | for a name of two or more RDNs and the base k levels above: base object iff k = 0, single level iff k = 1, subtree always |
| `LdapScope.OneRDNIsItsOwnChild` | internal/protocol/ldap/virtual_tree.go:134-138 | a one-RDN name passes the single-level test against itself |
| `LdapScope.SubtreeAcceptsCutRDN` | internal/protocol/ldap/virtual_tree.go:123-140 | a concrete base that is no ancestor and passes the subtree test |
| `LdapSearch.Search` | internal/protocol/ldap/virtual_tree.go:26-112 | nothing for a base outside the tree, else the listing's failure, else the selected users' entries, with their attributes, in listing order |
| `LdapSearch.EntriesExact` | internal/protocol/ldap/virtual_tree.go:59-74 | an entry is returned if and only if a listed user with that entry is kept |
| `LdapSearch.GateExact` | internal/protocol/ldap/virtual_tree.go:35-41 | a base passes the check in front of the loop if and only if it is the root or ends in the server's parts, the first possibly cut short |
| `LdapSearch.SearchExact` | internal/protocol/ldap/virtual_tree.go:26-77 | the result for every server base, every base, scope and filter and all users, commas included: nothing when the gate rejects the base, else the matching users in scope by parts, in order |
| `LdapSearch.UserDNJoins` | internal/protocol/ldap/virtual_tree.go:81 | a user's DN is the join of the parts of its uid, ou=users and the server's parts |
| `LdapSearch.SearchByDepth` | internal/protocol/ldap/virtual_tree.go:26-77 | from ou=users, the server base and the root, subtree scope returns exactly the matching users; single level does so from ou=users only and without the users with a comma in their name; base object nobody; from any ancestor of the server base every scope returns nothing |
| `LdapSearch.EverySearchIsEmpty` | internal/storage/memory/identity_memory_repository.go:173-183 | with the page the search asks for, every search returns nothing |
| `LdapSearch.UidLookup` | internal/protocol/ldap/virtual_tree.go:26-98 | a subtree search for uid=x from the server base returns exactly the users whose name EqualFold accepts, in order |
| `LdapSearch.EntryNames` | internal/protocol/ldap/virtual_tree.go:80-112 | the whole entry: its classes, uid and mail; the surname is the first text of lastName and sn, else the username; the common name displayName, else the username; a given name if and only if firstName is text; nothing else |
| `LdapSearch.OwnEntry` | internal/protocol/ldap/virtual_tree.go:26-141 | base-object scope at a user's own name, in any case, returns the matching users whose names agree up to case |
| `LdapFilter.CheckAttributeMatch` | internal/protocol/ldap/filter_parser.go:82-105 | true if and only if the attribute exists and the matcher accepts some value |
| `LdapFilter.MatchesSubstrings` | internal/protocol/ldap/filter_parser.go:31-69 | the flag loops accept if and only if some value passes every piece on its own |
| `LdapFilter.MatchesFilter` | internal/protocol/ldap/filter_parser.go:9-80 | the recursion computes the boolean reading of the filter tree, for any lowering and any EqualFold |
| `LdapFilter.SubstringsNeverMiss` | internal/protocol/ldap/filter_parser.go:42-67 | a value that decomposes into the pieces in order without overlap is accepted |
| `LdapFilter.UnknownPiecesIgnored` | internal/protocol/ldap/filter_parser.go:50-64 | a piece of another tag asks for nothing |
| `LdapFilter.ScanDecides` | internal/protocol/ldap/filter_parser.go:44-45 | for every well-formed list of pieces a value decomposes if and only if one leftmost scan succeeds |
| `LdapSubstrings.RoomNeeded` | internal/protocol/ldap/filter_parser.go:44-45 | a value that decomposes is at least as long as all pieces together, and no longer only as their concatenation |
| `LdapSubstrings.ClashMisjudged` | internal/protocol/ldap/filter_parser.go:47-64 | for any two clashing neighbours a value that is accepted and does not decompose |
| `LdapSubstrings.SubstringsExactly` | internal/protocol/ldap/filter_parser.go:42-67 | for every well-formed list the code is right on every value if and only if no two neighbours among the non-empty pieces clash |
| `LdapSubstrings.SubstringFilterExactly` | internal/protocol/ldap/filter_parser.go:31-69 | the filter is right on every entry under the same condition, and only then |
| `LdapSubstrings.ClearFiltersExact` | internal/protocol/ldap/filter_parser.go:9-80 | a filter all of whose substring parts meet it is exact on every entry, negation included |
| `LdapFilter.OnePieceExact` | internal/protocol/ldap/filter_parser.go:47-64 | with one piece exactly those values are accepted |
| `LdapFilter.InitialFinalExact` | internal/protocol/ldap/filter_parser.go:47-64 | with an initial and a final piece a value decomposes if and only if it is accepted and long enough for both |
| `LdapFilter.OverlapAccepted` | internal/protocol/ldap/filter_parser.go:47-64 | a concrete value accepted through overlapping pieces |
| `LdapFilter.WrongOrderAccepted` | internal/protocol/ldap/filter_parser.go:47-64 | a concrete value accepted with its pieces in the wrong order |
| `LdapFilter.PlainFiltersExact` | internal/protocol/ldap/filter_parser.go:27-78 | equality holds if and only if some value of the attribute matches, presence if and only if it is there, and any other filter never |
| `LdapFilter.PositiveFiltersNeverMiss` | internal/protocol/ldap/filter_parser.go:9-80 | a filter without negation accepts every entry it is meant to accept |
| `LdapFilter.FiltersExact` | internal/protocol/ldap/filter_parser.go:9-80 | where the scans agree on an entry's values a filter is exact, negation included |
| `LdapFilter.SimpleFiltersExact` | internal/protocol/ldap/filter_parser.go:9-80 | a filter whose substring parts have at most one piece is exact on every entry |
| `LdapFilter.NegationCanMiss` | internal/protocol/ldap/filter_parser.go:25-26 | a concrete negated filter that loses an entry through overlap |
| `SessionPolicy.SortByPriority` | internal/auth/session/session_policy.go:102-107 | some permutation of the rules in priority order |
| `SessionPolicy.MatchAllConditions` | internal/auth/session/session_policy.go:118-129 | true if and only if every condition's field is present and matches |
| `SessionPolicy.Engine.DetermineAction` | internal/auth/session/session_policy.go:98-116 | the action and reason of an applicable rule with the least priority number, or none if no rule applies |
| `SessionPolicy.Engine.AddRule` | internal/auth/session/session_policy.go:180-184 | the rule is appended |
| `SessionPolicy.Engine.RemoveRule` | internal/auth/session/session_policy.go:187-197 | all rules with the id are dropped, order kept |
| `SessionPolicy.LeaderCanWin` | internal/auth/session/session_policy.go:102-116 | every applicable rule of the least priority number decides in some order the sort may produce |
| `SessionPolicy.DecisionsAreSorts` | internal/auth/session/session_policy.go:98-116 | the answers DetermineAction may give are exactly those the loop gives on some sorted permutation of the rules |
| `SessionPolicy.DeterminedExactly` | internal/auth/session/session_policy.go:102-116 | all sorted permutations of the rules give the same answer if and only if all leading rules prescribe the same |
| `SessionPolicy.OrderIrrelevant` | internal/auth/session/session_policy.go:98-116 | with distinct priorities all sorted permutations of any two rule lists with the same members give the same answer |
| `SessionPolicy.PresentExactly` | internal/auth/session/session_policy.go:180-197 | after any history a rule is present if and only if it was added and not removed since, or was there from the start and never removed |
| `PolicyConditions.NumbersCompare` | internal/auth/session/session_policy.go:137-144 | on whole, finite and duration values the four comparisons are those of the numbers |
| `PolicyConditions.ComparisonsAreTotalButForNaN` | internal/auth/session/session_policy.go:137-144 | of any two values but NaN exactly one of less, equal and greater holds; NaN satisfies no comparison |
| `PolicyConditions.OthersCountAsZero` | internal/auth/session/session_policy.go:164-177 | a value that is no number compares like zero |
| `PolicyConditions.EqualityIsPrinted` | internal/auth/session/session_policy.go:133-136 | equality and its negation are those of the printed forms |
| `PolicyConditions.ContainsExactly` | internal/auth/session/session_policy.go:145-160 | a list contains its items, a text its substrings, nothing else anything |
| `PolicyConditions.UnknownNeverHolds` | internal/auth/session/session_policy.go:161 | a condition with an unknown operator never holds |
| `PolicyConditions.DefaultPolicyExactly` | internal/auth/session/session_policy.go:43-116 | with the shipped rules, in any order and for every context, DetermineAction answers what they mean: level first, then a geographical jump, then more than an hour of inactivity |
| `PolicyConditions.WithoutKeepsOrder` | internal/auth/session/session_policy.go:187-197 | removal treats each rule on its own and keeps the order of the others |
| `SessionActions.Executor.RecordEvent` | internal/auth/session/session_actions.go:166-192 | an accepted event is appended with previous and new state; without an event store nothing happens and the call succeeds |
| `SessionActions.Executor.RecordCreation` | internal/auth/session/session_manager.go:190-208 | the creation event, without a previous state |
| `SessionActions.Executor.Execute` | internal/auth/session/session_actions.go:61-146 | the action's changes, then the event under the action's name, undeclared actions included; a failed update leaves the object changed and the log silent |
| `SessionActions.Executor.Upgrade` | internal/auth/session/session_actions.go:149-164 | active again, one level up to at most 4, then the event |
| `SessionActions.Executor.ValidateSession` | internal/auth/session/session_manager.go:148-179 | success if and only if found and not terminated, expired, judged unsafe or waiting for step-up; only the activity time changes |
| `SessionActions.SucceedsExactly` | internal/auth/session/session_actions.go:61-192 | a call succeeds if and only if its update works and the event store, if any, accepts; the none action is silent |
| `SessionActions.OneEventACall` | internal/auth/session/session_actions.go:166-192 | a recorded call appends one event with the session before and after it, its kind and the caller's reason; any other leaves the log alone |
| `SessionActions.MarksAreLast` | internal/auth/session/session_actions.go:91-155 | over every run the session carries reason and time of its last termination, downgrade and step-up demand, and no step-up reason since an upgrade |
| `SessionActions.FaithfulStepExactly` | internal/auth/session/session_actions.go:61-192 | any call, failed or not, keeps the log a chain that replays to the session's status and level if and only if it is recorded and not taken for an upgrade, or changes neither |
| `SessionActions.LogFaithfulExactly` | internal/auth/session/session_actions.go:61-192 | over every run, failures included, the log is such a chain at every moment if and only if the creation was recorded and every call was of that kind |
| `SessionActions.LogRebuildsSession` | internal/auth/session/session_actions.go:61-192 | over every run of successful calls with an event store the log is a chain ending in the session's status and level, and replaying event kinds rebuilds them |
| `SessionActions.FailureKeepsLogExactly` | internal/auth/session/session_actions.go:78-83 | a failed call keeps the log faithful if and only if it demands step-up of a session waiting for it, downgrades at the bottom, terminates a terminated session, upgrades at the top, or is no status change |
| `SessionActions.FailedDowngradeBreaksChain` | internal/auth/session/session_actions.go:106-122 | a concrete run whose two events do not chain |
| `SessionActions.FalseUpgradeReplayed` | internal/auth/session/session_actions.go:171-174 | an action named like an upgrade is logged as one, and replay gives a level the session does not have |
| `SessionActions.AuthLevelInRange` | internal/auth/session/session_actions.go:114-118 | a level starting in 1..4 stays there over every run, failures included |
| `SessionActions.LevelNeedsUpgrades` | internal/auth/session/session_actions.go:149-163 | when upgrades are recorded, whatever else fails, the level exceeds the initial one by at most the number of logged upgrades |
| `SessionActions.TerminationEndsExactly` | internal/auth/session/session_actions.go:91-152 | a call takes a session out of the terminated status if and only if it is an upgrade, a step-up demand or a downgrade |
| `SessionActions.TerminationLasts` | internal/auth/session/session_actions.go:130-146 | without such calls a terminated session stays terminated over every continuation |
| `SessionActions.TerminatedSessionRevived` | internal/auth/session/session_actions.go:149-163 | a concrete run of successful calls that ends a session and brings it back a level higher |

## Left out

- Goroutines, the ticker and the wait group of the audit logger appear only as the freedom to interleave steps; a single WriteBatch or WriteSync call of a sink is one step.
- Concurrent session operations, refreshes and OAuth requests: the source takes no locks there, so the runs are sequential; each operation is one step.
- SessionStore.SessionManager.DeleteSession: Redis succeeds, so the error returns of DEL and ZREM are not modelled.
- SessionStore.SessionManager.EnforceMaxSessions: Redis succeeds, so the error returns of ZCARD and ZREMRANGEBYRANK, which the caller only logs, are not modelled.
- SessionStore.SessionManager.CreateSession: Redis succeeds, so the error of SETNX and the clean-up after a failed ZADD are not modelled.
- SessionStore.SessionManager.GetSession: a Redis error is reported as not found by the source and not modelled apart from a missing key.
- SessionStore.SessionManager.RotateSession: Redis succeeds, so the logged failures of the grace pointer and of ZREM are not modelled.
- SessionStore.SessionManager.GetUserSessions: Redis succeeds, so the error returns of ZRANGE and MGET are not modelled.
- SessionStore.SessionManager.RevokeSession: only the effect is stated; the error passed back to the caller is not.
- SessionStore.SessionManager.RevokeAllUserSessions: Redis succeeds, so the error return of ZRANGE is not modelled.
- TokenFamily.FamilyOf: the repository is an interface in the source, so the look-up is modelled as membership in the issued tokens, on copies of the stored families.
- TokenFamily.Service.RevokeToken: a token under another hint goes to the deny list, which is not modelled.
- LdapSync.LDAPSyncService.CreateUser: a taken name is always refused; a taken e-mail address, which the repositories refuse too, is one of the failures the oracle may give.
- Access tokens, ID tokens, JWT claims and the deny list: signing is a call outcome only; metrics and logging are not modelled.
- The rate limiter's choice of key, limit and window from request and policy; the bound is for a key whose limit and window do not change.
- LdapSync.LDAPSyncService.FullSync: in-memory users are copies of repository records, as with a database; a repository that hands out its own pointers would also keep unsaved attribute changes.
- LdapSearch.Search: the listing is what the call returned; `EverySearchIsEmpty` is about what it does return.
- BER decoding, case mappings that change a string's length, and the three-valued logic of RFC 4511 for undefined filters; the source is two-valued.
- Non-string attribute values in lifecycle rules, and 64-bit float rounding in policy comparisons and session scores.
- The session evaluator, scheduler and notifications: calls that would add only easy members.
- MS-CHAP responses, DES keys, EAP, proxying, sockets and worker pools of the RADIUS server.
- SAML, SCIM, WebAuthn, device flow, risk scoring, GORM and OPA back ends.
