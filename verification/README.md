# A verified model of the swe-swe reverse tunnel

The tunnel server lets clients claim names, proves who owns them with Ed25519 keys, obtains a
wildcard certificate for every name and forwards browser requests to the client behind it. The
client keeps one session alive and reconnects. This project models the parts where several
connections share state, or where a fast structure stands for a simple one, and proves what they
promise for every input, every interleaving and every run.

`dafny verify dfyconfig.toml` checks everything (Dafny 4.11).

## How it is laid out

| files | what they hold |
|---|---|
| `Limiter`, `SlidingWindow`, `Ceilings` | the rate limiter on values and as a class, refinement of the full history, retry hint, what evictions and refunds do to its ceiling |
| `Signing`, `Framing`, `Naming` | signing payloads, length-prefixed frames, names and labels, certificate error classes |
| `Protocol` | the registration protocol as a step machine: many handlers, each with a program counter; every store, limiter and registry call is one atomic step; signatures are symbolic |
| `ProtocolSafety`, `Outcomes`, `Gates`, `Refunds`, `RefundBudget`, `GateHint`, `Handshake`, `WrongKey`, `RegistryUse`, `Delisting` | theorems about every run of that machine |
| `Retry`, `GivingUp` | which refusals another attempt can change, against the client's list of permanent ones |
| `Runs`, `Witnesses` | building blocks for runs, and concrete runs that show promises the code does not keep |
| `IdentityStore`, `ControlLoop` | the ownership table and the loop a session runs after registration |
| `Registry`, `Revocation` | the two session maps, allowlist reload and revocation |
| `CertStore`, `CertTable`, `OrderGate`, `OrderResults`, `CertService` | the certificate indexes, the gate in front of the certificate authority, and both together with registration |
| `Strings`, `PortPolicy`, `PortSet`, `Routing` | port policy parser and printer, Host routing |
| `Denials`, `ClientRun`, `ClientTrace` | how the client reads a Deny, the supervisor loop, the language of its events |

## Where the code and its promises differ

- `Rotate` updates by name and reports success even when the row was deleted meanwhile, so a
  handler can return ok while no row carries its key (`Witnesses.RotationWithoutRow`). It is the
  only such case (`Outcomes.OkKeyIsRowKey`).
- internal/control/proto.go:103-104 says a Deregister verifies against the stored key; the server
  verifies it against the session's key and deletes by name, so a session whose name was rotated
  away can delete the new owner's row (`Witnesses.StaleSessionReleases`). On the frames it accepts
  the documented rule would accept iff the row is the session's (`Outcomes.DocumentedRule`), which
  holds iff the last change of the row since the session was decided, if any, was a taking by the
  same key (`Outcomes.ReleaseHitsOwnRow`).
- A refused connection can have changed the table: handleRegister rotates or inserts before the
  registry refuses a live label or the peer is lost (`Witnesses.RefusedButRotated`,
  `Witnesses.LostButInserted`). These are the only two such ends (`Outcomes.UnwelcomedOutcome`).
- The client calls some denials permanent that another attempt can get past: key_mismatch and "cert
  not provisioned" (`Witnesses.RetryAfterMismatch`, `Witnesses.RetryAfterNotProvisioned`, with their
  exact conditions in `WrongKey.MismatchExactly` and `Retry.NotProvisionedExactly`), and complaints
  about the Proof frame; all its other permanent reasons are hopeless (`GivingUp.PermanentReasons`).
  The other way round it retries not_authorized even where no attempt can succeed
  (`GivingUp.RetriedInVain`).
- A limiter at its key cap can admit one key more than max times in a window, because eviction
  forgets (`Limiter.EvictionBreaksCeiling`); it can exactly when the evicted key had an unexpired
  sample (`Ceilings.EvictingUnexpired`, `Ceilings.EvictingExpired`).
- internal/ratelimit/limiter.go:125-128 says that refunding the newest sample for another admission
  keeps the budget correct. It does iff the two were admitted at the same instant or the newest has
  expired (`Ceilings.RefundExactly`); otherwise a window can exceed max (`Ceilings.OlderRefundBreaks`).
- A revocation misses a handler that is past the allowlist and not yet in the registry: it joins
  afterwards and stays open with a delisted key (`Witnesses.DelistedJoins`). These are the only
  sessions it leaves (`Delisting.UnlistedSurvivors`, `Delisting.AfterRevocation`).
- A comment at cmd/swe-swe-tunneld/tunnel.go:594-596 says a "cert not provisioned" failure is
  refunded; the code at lines 612-616 never refunds it (`RefundBudget.OnlyTransientRefunded`).
- Certificates under different base names that share a name can lose it from the index
  (`CertStore.OverlapLosesName`); one addition keeps the indexes complete exactly when it orphans
  no name (`CertStore.CompleteStep`). The names the manager itself asks for never overlap
  (`CertStore.IssuedAreDisjoint`).
- The text of an empty or an `all` port policy does not parse back; every other one does
  (`PortPolicy.PrintThenParse`). `all` next to other pieces is an error (`PortSet.AllAmongOthersFails`).
- The first reconnect delay is not capped when the configured minimum exceeds the maximum
  (`ClientRun.BackoffCapped`).
- After a session was lost, MaxAttempts allows one connect fewer than at start-up
  (`ClientTrace.ConnectsBounded`).
- docs/design.md:60 gives the name pattern with `{1,54}`; the code uses `{1,52}`, and so does the
  model.

## Assumptions

- Time is an integer count of nanoseconds and does not go back in the order in which a limiter's
  lock is taken. The clock-skew comparison is exact where the difference fits `time.Duration`.
  Durations are unbounded integers (a doubled delay would only wrap above 146 years).
- A signature names its signer and the bytes it covers, and exists only if that key signed them. A
  fresh challenge nonce is one that nobody has signed.
- The JSON codec is any pair of functions that round-trips; base64 decoding is an arbitrary
  partial function. `ToLower` is the ASCII one. Go's `%q` is plain quotes around the text.
- A limiter key is an IP text or the 32 raw key bytes. All limiters of a run start empty.
- The ownership table is atomic per statement; a failing statement changes nothing. The step
  machine sees only its name-to-key part (`IdentityStore.Store.Owners`).
- A revocation decides all sessions at one instant, as its walk under the registry's lock does.
- For `CertService`, every EnsureName that succeeds in the protocol is a caller of the order gate that
  returned so, and the certificates in the table are ones the manager asked for.
- singleflight is taken at its contract: callers that join while a call runs get its result. An
  order counts at the instant at which the hourly limiter admits it.
- Entry identity in the certificate table is entry value; every index hit is a current entry, so
  two equal entries are the same one.

## Model

| member | source | states |
|---|---|---|
| `Limiter.RefinesHistory` | internal/ratelimit/limiter.go:67-116 | Over every run with nondecreasing times that does not evict the key, each verdict admits iff fewer than max uncancelled admissions lie in (now-window, now], and each hint is the least wait, as a limiter that keeps the whole history would answer |
| `Limiter.AgreesStep` | internal/ratelimit/limiter.go:67-176 | Every operation, for whichever key, keeps the pruned map in agreement with the full uncancelled history of a key |
| `Limiter.WindowNeverExceeded` | internal/ratelimit/limiter.go:67-144 | Over every run that does not evict the key, no window, wherever placed, holds more than max of the admissions the limiter itself made and did not take back |
| `Limiter.StandingIsHistory` | internal/ratelimit/limiter.go:67-144 | Those admissions are the uncancelled history of the reference, over every run in which each cancel finds its sample |
| `Limiter.EvictionBreaksCeiling` | internal/ratelimit/limiter.go:92-116 | Two keys that evict each other at the cap get one of them admitted twice in a window that allows one |
| `Ceilings.EvictingUnexpired` | internal/ratelimit/limiter.go:92-116 | Evicting a key that has an unexpired sample always opens the ceiling: max further attempts at that instant are admitted on top of those still in the window |
| `Ceilings.EvictingExpired` | internal/ratelimit/limiter.go:92-116 | Evicting a key with only expired samples leaves the limiter in agreement with the key's full history |
| `Ceilings.UnrefundedCapped` | internal/ratelimit/limiter.go:118-144 | With each refund tied to its own admission: if every refund is for the key's newest instant, no window holds more than max admissions whose owners were not refunded |
| `Ceilings.RefundExactly` | internal/ratelimit/limiter.go:118-144 | Dropping the newest sample for a refund of another admission counts right from then on iff the two were admitted at the same instant or the newest has expired |
| `Ceilings.OlderRefundBreaks` | internal/ratelimit/limiter.go:118-144 | Whenever that condition fails, some later attempts are admitted that bring the unrefunded admissions of one window above max |
| `Limiter.OthersInvisible` | internal/ratelimit/limiter.go:92-116 | Striking out every operation on other keys, every prune and every cap change alters no answer about a key that is not evicted |
| `Limiter.AllowThenCancelInvisible` | internal/ratelimit/limiter.go:118-145 | An admission that is cancelled at once changes no later answer |
| `Limiter.CancelRestores` | internal/ratelimit/limiter.go:129-144 | Cancelling the first admission of a key leaves the limiter as it was, without the key |
| `Limiter.AskingPrunes` | internal/ratelimit/limiter.go:77-90 | Asking about a key drops its expired samples, whatever the answer |
| `Limiter.PrunedKeeps` | internal/ratelimit/limiter.go:154-176 | Pruning keeps exactly the unexpired samples of each key |
| `Limiter.RetryIsLeast` | internal/ratelimit/limiter.go:215-246 | The retry hint is the least wait after which the history has room |
| `Limiter.HintAdmitsRetry` | cmd/swe-swe-tunneld/tunnel.go:449-455 | A refused client that waits the delay it derives from the whole-seconds-plus-one hint is admitted by its next attempt, whatever other keys did meanwhile |
| `GateHint.HintOpensGate` | cmd/swe-swe-tunneld/tunnel.go:449-455 | In every run of the protocol, after a rate_limited:ip Deny and the delay the client derives from its hint the next attempt of that IP passes the IP gate, if no call on the IP limiter named or evicted the IP meanwhile |
| `Gates.GateExactly` | cmd/swe-swe-tunneld/tunnel.go:386-405 | In every run that does not evict the name, a handler moves on from the IP gate, the per-key gate or the refund budget iff that gate is off or fewer than its limit of the name's passes not given back, told by the handlers' own moves, lie in its hour, day or hour; the refund budget is shut when off |
| `Gates.TurnedAway` | cmd/swe-swe-tunneld/tunnel.go:449-491 | Whoever does not get through goes on to the rate_limited Deny of its gate, or is refused a refund and told its reason |
| `Gates.HintExactly` | cmd/swe-swe-tunneld/tunnel.go:449-455 | The rate_limited Deny carries, in seconds, a hint above the least wait after which the history has room, by at most one second |
| `Gates.HistoryAgrees` | cmd/swe-swe-tunneld/tunnel.go:449-622 | The three limiters agree in every run with the histories of passes that the handlers' moves tell |
| `Limiter.TrackedKeysBounded` | internal/ratelimit/limiter.go:92-116 | With a positive cap the tracked keys never exceed the larger of the cap and their starting number, over every run |
| `Limiter.EvictionHitsOneKey` | internal/ratelimit/limiter.go:92-116 | An insertion at the cap discards unexpired history of at most one key, below the cap of none |
| `RateLimit.SlidingWindow.AllowAt` | internal/ratelimit/limiter.go:67-116 | The in-place method with its index loop and sweep computes the value limiter's answer and next state |
| `RateLimit.SlidingWindow.CancelLatest` | internal/ratelimit/limiter.go:129-145 | Drops the newest sample of the key, and the key with its last sample, and touches no other key |
| `RateLimit.SlidingWindow.PruneLocked` | internal/ratelimit/limiter.go:161-176 | The sweep leaves exactly the unexpired suffixes and no empty key |
| `RateLimit.SlidingWindow.RetryAfterAt` | internal/ratelimit/limiter.go:215-246 | Returns the least wait and forgets only expired samples |
| `Signing.PayloadInjective` | internal/control/proto.go:117-155 | The Register, Proof and Deregister payloads are injective in their fields and pairwise disjoint |
| `Signing.VerifiedMeansSigned` | internal/control/proto.go:117-155 | A signature that verifies for a statement means its key signed that very statement |
| `Framing.AcceptedLengths` | internal/control/proto.go:196-217 | The reader accepts exactly the lengths 1 to 65536 |
| `Framing.HeaderBytes` | internal/control/proto.go:176-194 | The header is the length in four bytes, most significant first |
| `Framing.ReadsBackWhatWasWritten` | internal/control/proto.go:176-217 | Any sequence of frames written is read back as that sequence, consuming exactly those bytes |
| `Framing.PrefixYieldsCompleteFrames` | internal/control/proto.go:196-217 | Any strict prefix yields its complete frames and then an error |
| `Framing.CompleteIsExact` | internal/control/proto.go:176-217 | The complete frames of a prefix are the greatest number whose bytes fit |
| `Framing.Stream.WriteFrame` | internal/control/proto.go:176-194 | Appends one framed payload, or refuses an oversized one and leaves the stream alone |
| `Framing.Stream.ReadFrame` | internal/control/proto.go:196-217 | Takes exactly one frame off the stream, or fails |
| `Naming.LabelsAreDistinct` | internal/control/proto.go:157-173 | The label of a name is the name and "-tunnel"; different names have different labels; the label of a valid name has no dot and fits a DNS label |
| `Naming.ValidIsPattern` | internal/control/proto.go:157-167 | A name is valid iff it is a letter, one to fifty-two letters, digits or hyphens, and a letter or digit |
| `ProtocolSafety.RowChanges` | cmd/swe-swe-tunneld/tunnel.go:407-718 | Over every interleaving, a row changes only by an admitted insert into a free name, a rotation proved by the key the same handler read, a signed release by a session of the name, or the operator |
| `ProtocolSafety.HandlersEarned` | cmd/swe-swe-tunneld/tunnel.go:407-718 | In every reachable state each handler has passed the gates that come before its program counter |
| `ProtocolSafety.StoredKeysAdmitted` | cmd/swe-swe-tunneld/tunnel.go:457-541 | Every stored key passed the signature, skew, peer-certificate and allowlist gates for that name, and the name's certificate was ensured first |
| `ProtocolSafety.ClaimsConserved` | cmd/swe-swe-tunneld/tunnel.go:623-658 | New registrations of a name equal its deletions plus the row present now |
| `ProtocolSafety.OneClaimBetweenDeletes` | cmd/swe-swe-tunneld/tunnel.go:623-658 | However many handlers race, at most one is told newRegistration between two deletions |
| `Outcomes.OkKeyIsRowKey` | cmd/swe-swe-tunneld/tunnel.go:544-718 | Every ok result of handleRegister has a deciding step (the read that finds its key, the insert or the rotation), and right after it the row holds its key iff it was not a rotation of a row deleted meanwhile |
| `Outcomes.ReleaseHitsOwnRow` | cmd/swe-swe-tunneld/tunnel.go:790-843 | A release deletes a row of the session's own key iff the last effective claim, rotation or give-up of the name since the session's deciding step, if any, was a taking by the same key; in particular when nobody rotated or gave up the name since |
| `Outcomes.DocumentedRule` | internal/control/proto.go:103-109 | On the Deregister frames the server accepts under the session's key, verification under the stored key would accept iff the row is the session's |
| `ProtocolSafety.OnlyOkWrites` | cmd/swe-swe-tunneld/tunnel.go:407-718 | A connection whose handleRegister has not returned ok has changed no row |
| `Outcomes.UnwelcomedOutcome` | cmd/swe-swe-tunneld/tunnel.go:318-335 | A connection that ended without RegisterOK changed a row iff its deciding step was an insert or a rotation of a present row of another key, and then it was refused because its label is taken or its peer was lost between the registry and RegisterOK; these are exactly the unwelcomed ends after an ok handleRegister |
| `Outcomes.NewExactly` | cmd/swe-swe-tunneld/tunnel.go:652-658 | newRegistration is true of a connection iff it inserted the row |
| `ProtocolSafety.LiveSessionsOwned` | cmd/swe-swe-tunneld/tunnel.go:318-335 | Every live label is the label of a valid name held by the connection that registered it |
| `RefundBudget.AttemptsBounded` | cmd/swe-swe-tunneld/tunnel.go:386-405 | In every run shorter than the window, from fresh limiters and without eviction, at most ipMax + max(0, refundMax) attempts of one IP move on from the IP gate, whatever mix of skew denies, grace aborts and certificate failures |
| `RefundBudget.BooksBalance` | cmd/swe-swe-tunneld/tunnel.go:566-622 | At every moment the attempts that moved on from the IP gate, the refunds granted and those still to be taken balance with the two limiters' samples |
| `RefundBudget.OnlyTransientRefunded` | cmd/swe-swe-tunneld/tunnel.go:588-622 | Whoever reaches the refund of a certificate failure is denied with "cert issuance failed"; "cert not provisioned" is never refunded |
| `Refunds.WhoAsks` | cmd/swe-swe-tunneld/tunnel.go:466-491 | The refund budget is asked iff the timestamp is more than 300 seconds off, the peer is lost in the grace period, or the certificate failed for a reason that may go away |
| `Refunds.RefundIsComplete` | cmd/swe-swe-tunneld/tunnel.go:398-405 | A connection that ended gave its IP pass back iff it was granted a refund, and its key pass iff that refund was not for its clock |
| `Refunds.BurntKeepsPasses` | internal/cert/errors.go:27-41 | After an order-cap failure, an authority's rate limit or a certificate that is not provisioned, neither pass is ever given back |
| `Refunds.PermanentIsUnrecoverable` | internal/cert/errors.go:27-41 | IsPermanent is: wraps the order limit, has or mentions the rateLimited problem type, or starts with "cert not provisioned" |
| `Handshake.ServerSpeaksInOrder` | cmd/swe-swe-tunneld/tunnel.go:407-718 | Each connection is sent at most one Challenge, then one RegisterOK or Deny, over every run |
| `Handshake.HandshakeOutcome` | internal/tunnelclient/client.go:433-493 | The client returns unique-tunnel.apex iff the server wrote RegisterOK, and otherwise the server's Deny reason and hint |
| `Handshake.NeverStuck` | internal/tunnelclient/client.go:433-493 | While the client waits, some step of its own handler is possible without the channel, the random source, the store or issuance failing, as long as an unsigned nonce exists |
| `Handshake.HandshakeEnds` | cmd/swe-swe-tunneld/tunnel.go:407-718 | A handshake takes at most twenty server steps however the run interleaves |
| `WrongKey.WrongKeyIsRefused` | cmd/swe-swe-tunneld/tunnel.go:623-718 | Over whole runs, a client that reads a row of another key, at first or after a lost race, is never connected and changes no row, and ends with key_mismatch, or with internal error exactly when the nonce draw failed |
| `WrongKey.MismatchExactly` | cmd/swe-swe-tunneld/tunnel.go:623-718 | A client ends with key_mismatch iff its handler read a row of another key and the nonce draw did not fail |
| `WrongKey.OwnKeyOutcome` | cmd/swe-swe-tunneld/tunnel.go:666-670 | A client that reads its own key is connected in the end, or told that its label is taken |
| `WrongKey.LoserReadsAgain` | cmd/swe-swe-tunneld/tunnel.go:623-657 | Whoever loses a race for a name reads the row again |
| `WrongKey.GoneIsTold` | cmd/swe-swe-tunneld/tunnel.go:633-640 | A loser that finds no row, or cannot read, is told of a store error |
| `Handshake.RegisteringHasNotWritten` | cmd/swe-swe-tunneld/tunnel.go:407-718 | Until handleRegister has returned, its connection has changed no row |
| `Witnesses.RotationWithoutRow` | internal/identity/store.go:144-157 | A run in which a rotation returns ok although the name has no row |
| `Witnesses.StaleSessionReleases` | cmd/swe-swe-tunneld/tunnel.go:790-843 | A run in which a session deletes the row of another key |
| `Witnesses.RefusedButRotated` | cmd/swe-swe-tunneld/tunnel.go:318-327 | A run in which a connection is refused because its label is taken after it rotated the row to its key |
| `Witnesses.LostButInserted` | cmd/swe-swe-tunneld/tunnel.go:323-335 | A run in which a connection inserts a row and its peer is lost before RegisterOK |
| `Witnesses.RetryAfterMismatch` | cmd/swe-swe-tunneld/tunnel.go:666-709 | A run that ends in key_mismatch, and a continuation in which a later connection succeeds with the very same Register frame |
| `Witnesses.RetryAfterNotProvisioned` | cmd/swe-swe-tunneld/tunnel.go:588-622 | A run that ends in "cert not provisioned", and a continuation in which a later connection succeeds with the very same Register frame |
| `Witnesses.DelistedJoins` | cmd/swe-swe-tunneld/tunnel.go:151-176 | A run in which a handler is past the allowlist and not yet in the registry when its key is delisted and the revocation walks the registry, and then becomes a live session that stays open |
| `IdentityStore.Store.Put` | internal/identity/store.go:112-128 | Takes the name iff nobody has it and otherwise reports the clash; on the owners it is the machine's claim step, done or failed |
| `IdentityStore.Store.Touch` | internal/identity/store.go:131-140 | Changes the last-seen time of one row and no owner |
| `IdentityStore.Store.Rotate` | internal/identity/store.go:144-157 | Replaces the key of an existing row; without a row it succeeds and makes none; on the owners it is the machine's rotation step |
| `IdentityStore.Store.Delete` | internal/identity/store.go:159-168 | Removes one row by name; on the owners it is the machine's deletion step |
| `ControlLoop.RunControlLoop` | cmd/swe-swe-tunneld/tunnel.go:752-788 | One reply per frame; true iff a valid, successfully deleted Deregister of the session's own name is reached; no row changes before it and only that one then |
| `ControlLoop.ReleaseIsSigned` | cmd/swe-swe-tunneld/tunnel.go:805-830 | A release implies the session key signed a Deregister for exactly that name and a timestamp within 300 seconds |
| `ControlLoop.DeniedRightly` | cmd/swe-swe-tunneld/tunnel.go:790-830 | A post-register frame is denied for a reason that is true of it, and passes only if none is |
| `ControlLoop.LoopIsRun` | cmd/swe-swe-tunneld/tunnel.go:752-843 | For every script there is a run of the machine in which the session writes the loop's replies, the table ends as the loop leaves it, and the session ends where the loop does |
| `Registry.AlwaysInStep` | cmd/swe-swe-tunneld/tunnel.go:102-134 | In every reachable registry each live label is under exactly one key with the same session in both maps, and no inner map is empty |
| `Registry.AddInStep` | cmd/swe-swe-tunneld/tunnel.go:102-116 | add refuses a live label and otherwise adds exactly that row |
| `Registry.RemoveInStep` | cmd/swe-swe-tunneld/tunnel.go:118-134 | remove takes exactly the session's own row away |
| `Registry.StaleRemove` | cmd/swe-swe-tunneld/tunnel.go:118-134 | A remove by a session that is no longer live changes nothing |
| `Registry.VictimsAreTheScan` | cmd/swe-swe-tunneld/tunnel.go:151-176 | Walking the per-key index collects exactly what a scan of all live sessions against the allowlist would |
| `RegistryUse.HandlersUseRegistryProperly` | cmd/swe-swe-tunneld/tunnel.go:318-327 | In every run a connection joins by add and leaves by remove under the key it joined with |
| `RegistryUse.RegistryInStep` | cmd/swe-swe-tunneld/tunnel.go:102-134 | In every reachable state of the protocol the two maps, as the handlers' calls left them, are in step with the live sessions |
| `Delisting.UnlistedSurvivors` | cmd/swe-swe-tunneld/tunnel.go:151-176 | In every run a live session is closed iff a revocation since it joined found its key off the list then in force; while it is open its key is off the list in force iff the last list loaded since it passed the gate leaves it out and no revocation came after both its join and that reload |
| `Delisting.AfterRevocation` | cmd/swe-swe-tunneld/main.go:569-582 | After a reload and its revocation, of the live sessions the new list lacks, those that had joined before are closed, and until the next revocation exactly those that joined after it stay open, all having passed the gate before the reload |
| `Revocation.SessionRegistry.RevokeMissing` | cmd/swe-swe-tunneld/tunnel.go:151-176 | Closes exactly the live sessions whose key is not allowed and leaves the maps alone; without an allowlist it closes none |
| `Revocation.SessionRegistry.CollectVictims` | cmd/swe-swe-tunneld/tunnel.go:151-176 | The nested loops collect exactly the sessions under keys that are not allowed |
| `Revocation.ParseLines` | internal/allowlist/allowlist.go:126-160 | The keys of all well-formed lines, or nothing if any line is malformed |
| `Revocation.ReadLineMeans` | internal/allowlist/allowlist.go:135-155 | A line says nothing if it is blank before its comment; otherwise it lists the 32 bytes that the trimmed text before the comment decodes to, or is malformed |
| `Revocation.Allowlist.Reload` | internal/allowlist/allowlist.go:52-72 | Counts the keys added and removed and swaps the set; a failed parse keeps it |
| `Revocation.ReloadAndRevoke` | cmd/swe-swe-tunneld/main.go:569-582 | A failed reload keeps the set and closes nobody; a successful one closes exactly the sessions of keys no longer listed |
| `CertStore.AlwaysSound` | internal/cert/store.go:48-77 | After any sequence of additions every index hit is a current entry whose certificate lists the name |
| `CertStore.CompleteStep` | internal/cert/store.go:48-77 | An addition keeps every listed name findable iff it orphans none |
| `CertStore.AlwaysComplete` | internal/cert/store.go:48-77 | With disjoint names per base name every listed name stays findable |
| `CertStore.OverlapLosesName` | internal/cert/store.go:48-77 | Three additions, the last replacing a certificate by one for another name, after which a name listed by a current certificate is in no index |
| `CertStore.GetCertificateIsScan` | internal/cert/store.go:81-101 | With disjoint names the lookup gives the one answer of a linear scan: exact, then one-label wildcard, then apex; the apex only when nothing loaded covers the SNI |
| `CertStore.LookupIsScan` | internal/cert/store.go:81-117 | On any sound and complete table the lookup is an answer of the scan, and has is coverage |
| `CertStore.IssuedAreDisjoint` | internal/cert/manager.go:119-143 | Certificates that Ensure and EnsureName ask for never share a name |
| `CertStore.IssuedServesItsHosts` | internal/cert/manager.go:135-143 | A loaded certificate for a label answers every host one label below it |
| `CertService.RowsAreServed` | cmd/swe-swe-tunneld/tunnel.go:588-658 | Registration, order gate and table together: for every row of the ownership table in every run, the hosts port.label.apex of its label are answered with that label's own certificate |
| `CertTable.Table.AddEntry` | internal/cert/store.go:48-62 | The loops over SANs compute the specified table, keep it sound, and keep it complete iff no name is orphaned |
| `CertTable.Table.RemoveFromIndex` | internal/cert/store.go:64-77 | Removes the index entries that still point to the entry, and no others |
| `CertTable.Table.GetCertificate` | internal/cert/store.go:81-101 | Returns the specified lookup's entry or none |
| `CertTable.Table.HasName` | internal/cert/store.go:105-117 | True only for covered names, and for all of them when the table is complete |
| `OrderGate.OneOrderPerName` | internal/cert/manager.go:198-236 | In every run at most one order is in flight per base name |
| `OrderGate.SlotsAreHeldExactly` | internal/cert/manager.go:211-219 | Slots in use equal the leaders past acquisition on every way out, never exceed the cap, and bound the orders in flight |
| `OrderGate.HourlyCapHolds` | internal/cert/manager.go:87-94 | No hour, wherever placed, holds more than perHour orders, and every order is counted |
| `OrderGate.RefusedExactlyWhenFull` | internal/cert/manager.go:211-223 | A leader is refused iff all slots are held, or the last hour holds perHour orders; a disabled cap refuses nobody |
| `OrderGate.FollowersGetLeadersResult` | internal/cert/manager.go:198-238 | A coalesced caller returns its leader's result |
| `OrderGate.SuccessMeansLoaded` | internal/cert/manager.go:172-238 | A caller that returns success finds a certificate under its base name in a sound table |
| `OrderResults.ResultExactly` | internal/cert/manager.go:172-238 | A caller returns the result of the caller it waited for, or its own: success iff that one read a fresh certificate or was given one, a disk error iff it read a broken one, a failed order iff the authority failed it, the order limit iff it found the slots or the hour full |
| `OrderResults.FreshOrdersNothing` | internal/cert/manager.go:184-232 | An order is placed only by a caller that read no fresh or broken certificate and found room |
| `OrderGate.NobodyStuck` | internal/cert/manager.go:198-238 | A caller that has not returned can step, or waits for a leader that can |
| `OrderGate.CallersReturn` | internal/cert/manager.go:172-238 | Whatever the environment answers, a caller returns after at most ten steps of its own |
| `PortPolicy.ParseMeaning` | internal/portpolicy/portpolicy.go:51-100 | A spec permits exactly what its pieces permit, and fails iff a piece is bad |
| `PortPolicy.AllPermitsEverything` | internal/portpolicy/portpolicy.go:51-60 | The word "all", in any case and with white space around it, permits every port; any other spec that parses permits ports from 1 to 65535 only |
| `PortPolicy.NumbersParse` | internal/portpolicy/portpolicy.go:62-100 | Every port from 1 to 65535 can be asked for by its number and every range by its ends, and then exactly these are permitted |
| `PortPolicy.SpacedRange` | internal/portpolicy/portpolicy.go:62-95 | White space around a range and around its ends does not matter |
| `PortPolicy.JoinIsUnion` | internal/portpolicy/portpolicy.go:51-87 | Joining two specs with a comma permits exactly the union and fails iff either fails |
| `PortPolicy.PrintThenParse` | internal/portpolicy/portpolicy.go:122-140 | For any iteration order the text parses back iff the policy has an element and is not `all`, and then permits the same ports |
| `PortSet.Parse` | internal/portpolicy/portpolicy.go:51-87 | The parsing loop computes the specified policy or fails |
| `PortSet.Allows` | internal/portpolicy/portpolicy.go:103-117 | The scan decides membership in the listed ports and ranges |
| `PortSet.Format` | internal/portpolicy/portpolicy.go:122-140 | The text lists each single port once and then the ranges; it parses back iff the policy has an element and is not `all`, and then to a policy that permits the same ports |
| `PortSet.ReadFileSpec` | internal/portpolicy/set.go:134-154 | The spec of a file is its lines without comments and blanks, joined by commas |
| `PortSet.FileIsUnion` | internal/portpolicy/set.go:134-154 | A file permits exactly the union of its lines, and one bad line fails it |
| `PortSet.FileTextMeans` | internal/portpolicy/set.go:134-154 | From the text of a file: its lines, each with an optional comment, permit exactly the union of what they permit, and one bad line fails the file |
| `PortSet.AllAmongOthersFails` | internal/portpolicy/portpolicy.go:51-87 | `all` together with another piece is an error |
| `PortSet.Set.Reload` | internal/portpolicy/set.go:113-132 | A file that cannot be read or parsed leaves the policy in force; otherwise the new one is swapped in and the change reported |
| `Routing.RouteForwards` | cmd/swe-swe-tunneld/tunnel.go:862-902 | The server forwards iff the normalised Host is port.label.apex, the label is live and the port permitted |
| `Routing.RouteOnHeader` | cmd/swe-swe-tunneld/tunnel.go:862-902 | On the header itself: port.label.apex, in any case, with an optional final dot or port, is forwarded iff it is a tunnel's label, the port is permitted and the label live; answered 502, 404 or by the fallback exactly otherwise |
| `Routing.NormalizesSpelling` | cmd/swe-swe-tunneld/tunnel.go:961-967 | Normalising any spelling of a host, in any case, plain, with a final dot or with a port, gives the host |
| `Routing.PortLabel` | cmd/swe-swe-tunneld/tunnel.go:884-892 | A port written in decimal passes iff there is no policy or the policy permits it |
| `Routing.ForwardedRequests` | cmd/swe-swe-tunneld/tunnel.go:862-902 | In every reachable state a forwarded request names a live session of a valid name and a permitted port, and the client dials that same port |
| `Routing.ClientDialsCheckedPort` | internal/tunnelclient/client.go:495-505 | The client reads the same port label out of the preserved Host as the server checked |
| `Routing.ClientDialsFirstLabel` | internal/tunnelclient/client.go:495-505 | On the header itself the client dials the first label of a dotted host, in any spelling, and nothing without a dot |
| `Denials.ClientReadsText` | internal/tunnelclient/client.go:61-87 | The texts keep the reasons apart: the rate-limit test finds exactly the limiters' denials, and the list of permanent texts exactly the reasons that are not retried, whatever the texts quote |
| `Denials.FixedTextsDiffer` | cmd/swe-swe-tunneld/tunnel.go:424-713 | Reasons that quote nothing have different texts |
| `Retry.HopelessExactly` | cmd/swe-swe-tunneld/tunnel.go:407-541 | A Register frame is malformed, unauthentic or at odds with the TLS certificate exactly when no run of any configuration ever returns ok on it |
| `Retry.HonestFrames` | internal/tunnelclient/client.go:433-470 | The client's own Register can succeed iff its name is valid and no TLS certificate of another key is in the way, and its Proof convinces exactly a server that stored its key |
| `Retry.FrameReasonIsHopeless` | cmd/swe-swe-tunneld/tunnel.go:424-496 | Whoever is denied for its Register frame opened with a frame of which the reason is true, and that no run would ever accept |
| `Retry.IllOpenedIsTold` | cmd/swe-swe-tunneld/tunnel.go:419-442 | Whoever opens with anything but a Register of version 1 for a valid name is told what is wrong with it |
| `Retry.NotProvisionedExactly` | cmd/swe-swe-tunneld/tunnel.go:588-622 | A client is told "cert not provisioned" iff EnsureName said so to its handler |
| `GivingUp.PermanentReasons` | internal/tunnelclient/client.go:65-87 | Of the reasons the client gives up on, exactly those about the row, the certificate or the Proof frame are also told for Register frames that can succeed; the others are told only for frames that never can |
| `GivingUp.ToldToHopeful` | internal/tunnelclient/client.go:65-87 | For each of those reasons a run in which it is told for a frame that can succeed; for key_mismatch and "cert not provisioned" its continuation succeeds with that frame |
| `GivingUp.RetriedInVain` | internal/tunnelclient/client.go:65-87 | The client always retries not_authorized; whoever is told it opened with a frame that can succeed iff the TLS certificate is absent or carries the frame's key |
| `ClientRun.BackoffDuration` | internal/tunnelclient/run.go:220-232 | The doubling loop computes min * 2^(attempt-1) capped at max from the second attempt on |
| `ClientRun.BackoffDoubles` | internal/tunnelclient/run.go:217-232 | The first delay is the minimum and each later one is twice the one before, capped at the maximum; a minimum above the maximum is used once |
| `ClientRun.Defaults` | internal/tunnelclient/run.go:66-81 | Options that are not set are one second, thirty seconds and five minutes |
| `ClientRun.BackoffCapped` | internal/tunnelclient/run.go:217-232 | The delay is within max iff it is not the first or min is within max |
| `ClientRun.BackoffGrows` | internal/tunnelclient/run.go:217-232 | Delays do not shrink with the attempt number, except from a first delay above max |
| `ClientRun.Run` | internal/tunnelclient/run.go:84-215 | On every script of rounds the loop emits the specified events and ends as specified |
| `ClientTrace.ExactLanguage` | internal/tunnelclient/run.go:84-215 | The traces the loop can emit are exactly those an event automaton accepts |
| `ClientTrace.EventsInPlace` | internal/tunnelclient/run.go:84-215 | starting comes once and first, register_ok directly after connecting, fatal and deregister_ok only last |
| `ClientTrace.AttemptsAgree` | internal/tunnelclient/run.go:89-95 | connecting carries the attempt of the reconnecting right before it, or 1 after starting |
| `ClientTrace.DisconnectedThenReconnecting` | internal/tunnelclient/run.go:192-214 | disconnected is directly followed by a reconnecting for attempt 2 |
| `ClientTrace.ConnectsBounded` | internal/tunnelclient/run.go:125-132 | With MaxAttempts = M at no time are there more than M connects since the last registration; after a session at most max(1, M-1) |
| `ClientTrace.GivesUpAtLimit` | internal/tunnelclient/run.go:125-132 | After a retryable failure fatal follows iff that limit is reached, otherwise reconnecting |
| `ClientTrace.FatalIffGaveUp` | internal/tunnelclient/run.go:54-57 | The loop returns an error iff its last event is fatal |
| `ClientTrace.LastEvent` | internal/tunnelclient/run.go:172-192 | The last event is deregister_ok iff the loop was stopped with a session up and the name was released, a non-retryable error iff that release failed, and connecting iff it was stopped while connecting |
| `ClientTrace.RunningMeansWoken` | internal/tunnelclient/run.go:101-214 | The loop goes on only after rounds that were no shutdown, not cancelled and not permanent, and whose sleep ended by itself |
| `ClientTrace.ReasonDecides` | internal/tunnelclient/run.go:101-157 | The server's reason decides the events: fatal at once for the client's list, a limiter's hint waited out to the second or without one the backoff raised to the floor, backoff for the rest |

## Left out

- TLS, connection hijacking, yamux, the reverse proxy and HTTP serving: library behaviour; only the order of protocol steps and "the peer is gone" remain.
- The certificate authority, DNS and propagation checks (`obtain`, precheck.go, dnscheck.go): the environment answers success or failure.
- Renewals (`checkAndRenew`): in the order gate they appear only as certificates being added; the code does not count their orders either.
- Ed25519, X.509, base64 and JSON internals: abstract, as stated under Assumptions.
- SQLite, file reading and PEM loading: files are text already read, statements succeed or fail as told.
- Flags, environment, logging, subcommands, static.go and mtls.go: input and output, or thin lookups.
- Deadlines, tickers and other wall-clock liveness; a run of the client is any finite script of rounds.
- A server built without a refund limiter (nil), which only tests do.
- `List` and the creation times of the ownership table beyond storing them: easy members.
- 64-bit bounds of `strconv.Atoi` and of durations: every caller bounds the value far below them.
- Handlers change the shared limiters, store and registry in the step machine as values, because the claims are about interleavings of single calls; the in-place classes are proved against the same functions.
- OrderGate.HourlyCapHolds: counts an order when the limiter admits it, because how long the leader takes to reach the certificate authority after that is not decided by the program.
- Limiter.RefinesHistory: asks that the key is not evicted, because an eviction forgets the key's history by design (`Limiter.EvictionBreaksCeiling`).
- A closed session in the step machine keeps its registry entry until its handler removes it; its handler can notice the loss at any step, and frames it had already received may still be handled.
- RefundBudget.AttemptsBounded: asks that no call on the two limiters evicts a key and that the run is shorter than the window, as the limits are per window.
- CertStore.GetCertificateIsScan: asks for disjoint names, because without them the property is false (`CertStore.OverlapLosesName`).
