# TurboFlare transport: a verified model

This project models the reliable-stream layer of the TurboFlare transport, which carries one
ordered byte stream in each direction over many short HTTP transactions that a CDN may reorder,
duplicate, cut off or drop. It follows a payload from `EncodeOutgoing` on one side to the
application on the other, through the frame codec, the length-prefixed bodies, the server's tables,
the anti-replay window and the reorder buffer, across any number of key changes.

| file | models |
|---|---|
| `Bytes`, `Bits` | unsigned integers of fixed width, big-endian layout, Go's `<<`, `&` and or on a `uint64` bitmap |
| `Crypto` | AEAD, nonces, HKDF |
| `Frame`, `Batch` | data frame, handshake frame, length-prefixed bodies |
| `Replay`, `Reorder`, `Session` | one end of a connection |
| `Network` | two ends, and a hostile network between them, at the granularity of lock regions |
| `Runs`, `SequenceBudget`, `Fallback` | runs built step by step; where prefix safety ends |
| `Completeness`, `Nonces` | what one key delivers; what one key may seal |
| `Rtt`, `Congestion` | timeout estimator and burst controller |
| `Tokens`, `SessionTable`, `Outbox`, `Outbound`, `Server`, `Client` | the two endpoints |

The objects whose methods update fields in the repository (`ReplayWindow`, `ReorderBuffer`,
`Session`, `CongestionController`, `TokenStore`, `Server`, `Client`, and the locked part of
`connState`) are classes here. Every method is proved equal to a step function on the value of its
object, and the results about whole runs are lemmas about those step functions.

**Cryptography.** A wire is a sequence of octets. An octet of ciphertext remembers the box (key,
nonce, plaintext) it was cut from, so ciphertext can be cut, copied, spliced and truncated byte by
byte but opens only as the whole of one box under the key and nonce that sealed it. Read as a number,
say as a length or a counter in a garbled body, a ciphertext octet counts as 0. X25519 and HMAC are
arbitrary functions with the laws in `Crypto.Algebra.Lawful`. Time and random keys are parameters.

**The main results.**

1. *Prefix safety* (`Network.PrefixSafety`): in every interleaving of the lock regions of any number
   of concurrent sends, receives and rekeys on both sides, with any keys, any connection ids and any
   payload sizes, each side has delivered a prefix of what the other side numbered.
   `SequenceBudget.BudgetIff` shows that the 2^32 bound on numbered payloads is exact, by
   constructing the run that breaks it. When the server answers a reconnect with a fresh session,
   prefix safety survives exactly for a client that held nothing of the old stream
   (`Fallback.FallbackSafeIff`), and its uploads stall (`Fallback.FreshSessionStalls`).
2. *Completeness* (`Completeness.DeliveryIff`): under one key, every order of arrival with
   duplicates delivers everything exactly when no frame first arrives after one whose counter is 64
   or more higher; and the stream runs on across any number of rekeys (`Completeness.EpochsDeliver`).
3. *Replay* (`Replay.ReplayWindow.CheckAndMark`, `Replay.AdmitsByArrivals`): the sliding bitmap is a
   set, and acceptance depends only on the arrivals since the last reset.
4. *Nonces* (`Nonces.NonceUniqueness`, `Nonces.KeyBudgetIff`).
5. *Wire formats*: round trips in both directions with their exact size limits, and bodies cut off
   after any byte (`Batch.TruncatedParse`).
6. *Controller*: bounds over all runs, the exact life of a burst (`Congestion.BurstLife`) and exact
   recovery rates; the integer estimator stays in range and settles logarithmically.
7. *Server*: exactly which handshakes are let in (`Server.OpeningIff`, `Server.OpenWhileHeld`), who
   gets and keeps a token (`Tokens.TakeoverIff`, `Tokens.FreeTokenIff`), connection ids and resumption
   (`Client.ReconnectResumes`), outbox conservation, one dial at a time and no lost socket.

**Where the code and its documentation differ, the model follows the code.**

- docs/PROTOCOL.md and the comment above `OnTimeoutOrServerError` promise that a timeout takes one off
  the window. The statement that does so never runs (`Congestion.DecrementNeverFires`), because the
  abort of the burst has already put the window back to the baseline of 2. The promise is met exactly
  for a window of at most 3 (`Congestion.LinearDecreaseIff`); an unpenalised burst falls from 8 to 2
  (`Congestion.FirstBurstCollapses`).
- The comment above the penalty constants speaks of one recovery step per clean burst; the code takes
  one for every four (`Congestion.RecoveryRate`).
- The comment above `OnIncompleteResponse` says that it does not touch the window; inside a burst it
  does (`Congestion.TruncationKeepsWindowIff`, `Congestion.FirstBurstCollapses`).
- The comment above `DeriveSessionKey` names a client nonce as the salt; the code salts with the
  ephemeral public key (`Frame.HandshakeAgreement`).
- A client that waits for the answer to its CONNECT, as the comment above `forwardPayload` asks, can
  still wait for ever: the server queues "ERROR" before it clears `connecting`, and a retry in between
  is dropped (`Outbound.RetryDroppedIff`, `Outbound.StrandedForEver`, `Outbound.RetryCanBeDropped`).
- A pump that ends closes whatever socket is stored by then, which need not be its own
  (`Outbound.PumpClosesForeignIff`, `Outbound.PumpClosesForeign`).

## Model
| member | source | states |
|---|---|---|
| `Replay.ReplayWindow.CheckAndMark` | transport/replay.go:35-73 | the bitmap refines the set of counters accepted since the last reset: a counter is accepted exactly when it is not in the set and less than 64 below its maximum, and then joins it |
| `Replay.ReplayWindow.AdvanceBits` | transport/replay.go:47-56 | after sliding up by any distance, and marking, each bit of the word still stands for the counter at that distance below the new maximum |
| `Replay.ReplayWindow.MarkBits` | transport/replay.go:61-71 | masking with 1 << diff tests exactly the bit of that counter, and or-ing it in sets that bit and no other |
| `Replay.ReplayWindow.Reset` | transport/replay.go:78-84 | forgets every accepted counter |
| `Replay.AdmitsByArrivals` | transport/replay.go:31-73 | after any history, a counter is accepted exactly when it never arrived before and nothing 64 or more above it did |
| `Replay.NeverAcceptedTwice` | transport/replay.go:13-16 | over any run no counter is accepted at two arrivals |
| `Reorder.ReorderBuffer.Insert` | transport/reorder.go:34-69 | the in-place drain loop computes the step function that the run lemmas are about, and terminates |
| `Reorder.RunReassembles` | transport/reorder.go:34-69 | after any history the output is the first-inserted payloads of start..m-1, m being the least sequence not inserted, and exactly the inserted sequences above m are pending |
| `Reorder.OrderIndependence` | transport/reorder.go:5-15 | two histories with the same items, in any order and with any repetition, end in the same state and output |
| `Reorder.WrapRedelivers` | transport/reorder.go:66 | at the top sequence number the counter wraps to 0 and a stale sequence 0 is released again |
| `Reorder.UnstartedAdopts` | transport/reorder.go:38-41 | a buffer without a starting point takes its first item for the start |
| `Session.Session.constructor` | transport/session.go:73-83 | a new session has no key, both numbers 0, an empty window and a buffer waiting for 0 |
| `Session.Session.CompleteHandshake` | transport/session.go:91-101 | the session then holds exactly that id and key and is active, its nonce counter and window restart, its sequence and reorder buffer run on |
| `Session.Session.NextSendCounter` | transport/session.go:106-108 | returns the counter and moves it on, modulo 2^32 |
| `Session.Session.NextSendSequence` | transport/session.go:112-114 | returns the sequence and moves it on, modulo 2^32 |
| `Session.Session.EncodeOutgoing` | transport/session.go:119-135 | uses up one sequence and one counter, also when sealing fails, and returns the sealed frame that carries them |
| `Session.SentFrameReads` | transport/session.go:119-135 | a peer under the same key reads the session's id and two numbers, stream and acknowledgement 0, the payload, and the given flags with bit 1 set |
| `Session.Session.DecodeIncoming` | transport/session.go:148-169 | malformed frames change nothing, replays are reported, accepted frames are marked and reassembled |
| `Session.ReceiveBody` | client/client.go:191-210 | the offset loop over a body equals decoding the parsed frames one by one, and returns everything they released |
| `Network.PrefixSafety` | transport/session.go:91-169 | over all interleavings, network behaviour and rekeys, each side has delivered a prefix of what the other numbered, and waits for exactly the next sequence |
| `Network.StepKeepsInv` | transport/session.go:91-169 | every single step of either side keeps the invariant behind prefix safety |
| `Network.OpenedMatches` | proto/frame.go:268-285 | whatever opens, under whatever key, holds the payload that the peer numbered with that sequence |
| `Network.AbsorbKeepsStream` | transport/reorder.go:34-69 | absorbing a genuine frame keeps the delivered stream a prefix |
| `Network.AtomicSend` | transport/session.go:119-135 | EncodeOutgoing in one piece is a run of the four fine-grained sending steps |
| `Network.AtomicReceive` | transport/session.go:148-169 | DecodeIncoming in one piece is a run of the fine-grained receiving steps |
| `SequenceBudget.BudgetIff` | transport/session.go:112-114 | prefix safety for all runs with at most n payloads per side holds exactly when n < 2^32 |
| `SequenceBudget.Overrun` | transport/reorder.go:45-47 | a reachable state in which 2^32 payloads were numbered and 2^32 + 1 delivered |
| `Fallback.FreshSessionSplices` | server/server.go:164-168 | if the server answers a reconnect with a fresh session, then over every later run the client keeps what it delivered, and each further position holds the old payload still pending there or else what the fresh session numbered with it |
| `Fallback.FallbackSafeIff` | server/server.go:164-168 | all later runs keep the client's stream a prefix of the new one exactly when the client had neither delivered nor pending payloads at the fallback, also counting only runs whose new stream has caught up |
| `Fallback.FreshSessionStalls` | server/server.go:164-171 | once the client had numbered a payload, the fresh session delivers nothing of its uploads on any run under unused keys |
| `Fallback.SpliceHappens` | server/server.go:164-168 | a reachable state in which the client has [x, z] while the fresh session numbered [y, z] |
| `Completeness.SendAllWires` | transport/session.go:119-135 | a burst after a rekey yields frames with counters 0, 1, ... and consecutive sequences |
| `Completeness.Progress` | transport/session.go:148-169 | after any arrivals the accepted counters are those of the replay rule and the buffer is reassembled from exactly their payloads |
| `Completeness.DeliveryIff` | transport/session.go:148-169 | if every frame arrives at least once, all payloads come out in order exactly when reordering stays below 64, and then nothing is pending |
| `Completeness.AcceptedOnce` | transport/session.go:154-161 | then each frame is accepted at its first arrival and a replay at every later one |
| `Completeness.EpochsDeliver` | transport/session.go:85-101 | over any number of keys, each installed when nothing is in flight and each with bounded reordering, the concatenation of all payloads comes out and the sequence runs on |
| `Completeness.TruncatedBody` | client/client.go:186-210 | a body of frames cut off after any byte delivers exactly the payloads of the frames it still holds whole |
| `Nonces.NonceUniqueness` | transport/session.go:51-54 | with a fresh key per handshake, ids from the server's allocator before it wraps, and at most 2^32 frames per key, no two boxes of one sender, data or handshake, share key and nonce |
| `Nonces.KeyBudgetIff` | transport/session.go:106-108 | the frames of a burst under one key have pairwise different nonces exactly up to 2^32 frames |
| `Nonces.GreetSeals` | proto/frame.go:97-107 | a client's handshake is sealed under the new key with connection id 0 and counter 0 |
| `Crypto.OpenIff` | proto/crypto.go:141-161 | Open returns a plaintext exactly for what Seal made of it under the same key and nonce |
| `Crypto.NonceFields` | proto/crypto.go:130-135 | the first four bytes of a nonce read as the connection id, the last eight as the counter |
| `Crypto.NonceInjective` | proto/crypto.go:130-135 | different (connection id, counter) pairs give different nonces |
| `Crypto.FillNonce` | proto/crypto.go:130-135 | the array is connection id then counter, big-endian |
| `Crypto.HkdfExpand` | proto/crypto.go:75-95 | the loop with its one-byte counter returns the first length octets of T(1), T(2), ... of section 2.3 of RFC 5869, or an error above 255 blocks |
| `Crypto.OkmPrefix` | proto/crypto.go:75-95 | outputs have the asked length, and shorter ones are prefixes of longer ones |
| `Crypto.OkmChain` | proto/crypto.go:75-95 | the first block of every output is the MAC of info and 1, each later one the MAC of its predecessor, info and its number |
| `Crypto.SessionKeyShape` | proto/crypto.go:62-102 | a session key is the MAC of info and 1 under the MAC of the shared secret under the salt, or under 32 zeros without one; always 32 bytes |
| `Bytes.BigEndianDigit` | proto/frame.go:213-223 | byte i of an n-byte field is the base-256 digit of weight 256^(n-1-i) |
| `Frame.DataFlag` | transport/session.go:131 | an outgoing frame has the data bit and otherwise exactly the flags it was given |
| `Frame.EncodePlaintext` | proto/frame.go:213-223 | filling the buffer in place yields header and payload, with the length field modulo 2^16 |
| `Frame.ParsePrinted` | proto/frame.go:213-243 | parsing a printed frame gives it back up to 65535 payload bytes and is refused beyond |
| `Frame.PrintParsed` | proto/frame.go:225-243 | a buffer is accepted exactly when its length field agrees with its size, and is then the print of what was parsed |
| `Frame.DecodeEncoded` | proto/frame.go:249-285 | a wire has 37 bytes more than its payload and decodes to its own frame and counter |
| `Frame.DecodeAccepts` | proto/frame.go:268-285 | a wire is accepted exactly when it is a counter followed by one box sealed for that counter, connection and key |
| `Frame.OpensOnlyOwn` | proto/frame.go:249-285 | a sealed frame opens exactly under its own key, connection id and counter, so that what a session opens carries its own connection id |
| `Frame.EncodeHello` | proto/frame.go:53-59 | device id, connection id and flags in 13 bytes |
| `Frame.ParsePrintedHello` | proto/frame.go:53-70 | the handshake plaintext survives its round trip |
| `Frame.PrintParsedHello` | proto/frame.go:61-70 | exactly the buffers of 13 bytes are accepted, each the print of what was parsed |
| `Frame.HandshakeAgreement` | proto/frame.go:77-161 | for all key pairs, counters and plaintexts, also with a nonzero connection id, the wire has 69 bytes, the session key comes from the shared secret as in `SessionKeyShape`, and the receiver recovers plaintext, session key and ephemeral key |
| `Frame.HandshakeAccepts` | proto/frame.go:123-161 | a wire is accepted exactly when it is an ephemeral key, a counter and one box around the plaintext, sealed for connection 0 and that counter under the key derived from the secret shared with that ephemeral key |
| `Frame.HelloIsNotData` | proto/frame.go:225-228 | a handshake plaintext never parses as a data frame |
| `Batch.PrintLoop` | server/server.go:381-387 | the write loop prints the list of frames |
| `Batch.TruncatedParse` | server/server.go:208-217 | every byte-prefix of a printed body parses to the frames it contains whole, in order |
| `Batch.WholeIsGreatest` | server/server.go:210-215 | that number of frames is the greatest that fits into the prefix |
| `Batch.ParsePrintIff` | client/client.go:191-200 | the whole body gives the list back exactly when every frame has at most 65535 bytes |
| `Batch.PushFits` | client/client.go:123-127 | a pushed payload survives its own batch exactly up to 65498 bytes |
| `Rtt.UpdateFollowsRfc6298` | transport/congestion.go:224-238 | first sample and update are rules 2.2 and 2.3 of RFC 6298, less than one nanosecond off, toward the old value |
| `Rtt.StaysInRange` | transport/congestion.go:224-238 | for samples in [lo, hi] the average stays in [lo, hi] and the deviation in [0, max(first/2, hi-lo)] |
| `Rtt.Converges` | transport/congestion.go:235-248 | after logarithmically many constant samples r, for ever, the average is within 7, the deviation at most 10, and avg + 4 dev in [r-7, r+47] |
| `Rtt.FixedPointIff` | transport/congestion.go:236 | the average stops moving exactly within 7 of the samples |
| `Congestion.CongestionController.OnQueueNonEmpty` | transport/congestion.go:99-116 | the jump to the penalised burst window |
| `Congestion.CongestionController.OnQueueEmpty` | transport/congestion.go:120-127 | ends a burst cleanly, and does nothing outside one |
| `Congestion.CongestionController.CheckBurstTimeout` | transport/congestion.go:132-141 | ends a burst that has lasted 1.5 s |
| `Congestion.CongestionController.EndBurstLocked` | transport/congestion.go:144-157 | back to the baseline, with a recovery step after four clean bursts |
| `Congestion.CongestionController.OnErrorLocked` | transport/congestion.go:163-173 | aborts and penalises a burst, and clears the streaks |
| `Congestion.CongestionController.OnTimeoutOrServerError` | transport/congestion.go:179-186 | the shared reaction followed by the guarded decrement |
| `Congestion.CongestionController.OnIncompleteResponse` | transport/congestion.go:192-201 | the shared reaction followed by the block shrink |
| `Congestion.CongestionController.OnSuccess` | transport/congestion.go:207-222 | estimator update, streak, and growth at 25 |
| `Congestion.CongestionController.UpdateRTTLocked` | transport/congestion.go:224-238 | the integer estimator step |
| `Congestion.CongestionController.CurrentTimeout` | transport/congestion.go:242-256 | the timeout within the limits that is nearest to average plus four deviations, or the smallest one before the first sample |
| `Congestion.StepIsSafe` | transport/congestion.go:99-222 | every event keeps penalty in [0.2, 1], window in [2, 10] and at 2 outside bursts, block in [4 KiB, 24 KiB], both streaks below their limits |
| `Congestion.Run` | transport/congestion.go:99-222 | so does every run |
| `Congestion.BurstLife` | transport/congestion.go:99-173 | over every run, told by the events alone: a burst goes on from the first filled queue until the first drained queue, error, or poll 1.5 s or more after its start; its window is all through the whole part of 8 times the penalty but at least 2, and outside bursts the window is 2 |
| `Congestion.DecrementNeverFires` | transport/congestion.go:183-185 | in every reachable state the decrement statement after a timeout is skipped |
| `Congestion.LinearDecreaseIff` | transport/congestion.go:175-186 | in every reachable state a timeout takes one off the window, not below the baseline, exactly when the window is at most 3 |
| `Congestion.FirstBurstCollapses` | transport/congestion.go:163-201 | in the first burst, with window 8, a timeout and a truncated response both take the window to 2 |
| `Congestion.TruncationKeepsWindowIff` | transport/congestion.go:188-201 | a truncated response keeps the window exactly when it is already the baseline |
| `Congestion.RecoveryRate` | transport/congestion.go:147-156 | over every run that aborts no burst, whatever happens in and between its bursts, one step of 0.05 comes back for every four bursts ended cleanly |
| `Congestion.FullRecoveryIff` | transport/congestion.go:147-156 | over every such run the penalty is gone exactly after 4 ceil((1-p)/0.05) clean bursts, at most 64 |
| `Congestion.FullBurstReturns` | transport/congestion.go:99-116 | from every reachable state, after any run with 64 clean bursts and no aborted one the next burst has the full window |
| `Congestion.PenaltyRate` | transport/congestion.go:163-171 | over every run in which no burst ends cleanly, n bursts aborted by either error multiply the penalty by 0.8^n, down to 0.2 |
| `Congestion.EightAbortsToFloor` | transport/congestion.go:163-171 | over every such run from a full penalty the floor is reached exactly with the eighth aborted burst, and bursts then stay at the baseline window |
| `Congestion.AbortRestartsRecovery` | transport/congestion.go:163-171 | after an abort only the clean bursts since then count for recovery, from 0.8 times the penalty or the floor |
| `Congestion.ShrinkRate` | transport/congestion.go:196-200 | over every run without a success, n truncated responses take n times 4 KiB off the block, down to 4 KiB |
| `Congestion.StreakCounts` | transport/congestion.go:172-221 | over every run the streak is the number of successes since the last error, modulo 25 |
| `Congestion.GrowsIff` | transport/congestion.go:213-221 | in every reachable state a success grows the block by a tenth, rounded down and at most to 24 KiB, exactly if it is the 25th, 50th, ... since the last error |
| `Congestion.GrowthRate` | transport/congestion.go:213-221 | over every run without errors the block grows once for every 25 successes, however they are spread over bursts |
| `Congestion.BlockRecovery` | transport/congestion.go:213-221 | over every such run 475 counted successes reach the soft maximum from every reachable state, and from the minimum no fewer do |
| `Congestion.TimeoutSettles` | transport/congestion.go:242-256 | over any events, after enough successes with round-trip time r and none with another, the timeout lies between the clamped r-7 and r+47 |
| `Tokens.TokenStore.RegisterToken` | server/binding.go:54-60 | makes a token known without touching a binding |
| `Tokens.TokenStore.TryBind` | server/binding.go:64-92 | unknown, accepted or rejected, with the new binding |
| `Tokens.TokenStore.Touch` | server/binding.go:97-103 | moves lastSeen of an active binding |
| `Tokens.TokenStore.Revoke` | server/binding.go:107-113 | frees a known token |
| `Tokens.HolderStays` | server/binding.go:64-103 | without revoke or another acceptance a token stays with its device, last seen at the last accept or touch |
| `Tokens.Exclusivity` | server/binding.go:64-113 | two successive acceptances for different devices have a revoke between them or more than the timeout since the holder was last seen |
| `Tokens.ActiveHolderKeeps` | server/binding.go:80-91 | with a monotone clock, while the holder was seen within the timeout, a bind is accepted exactly for the holder's device |
| `Tokens.TakeoverIff` | server/binding.go:80-91 | whatever the clock does, while a device holds a token a bind is accepted exactly for that device, or for any device once the holder was last seen more than the timeout ago |
| `Tokens.FreeTokenIff` | server/binding.go:68-78 | without an acceptance since the beginning or a revoke, every device is accepted exactly if the token was registered |
| `Tokens.BoundSince` | server/binding.go:75-89 | the remembered time of binding is that of the acceptance at which the present holder got the token |
| `Tokens.KnownIffRegistered` | server/binding.go:54-71 | a token is known exactly once it was registered, for ever |
| `Tokens.ReRegistrationInvisible` | server/binding.go:54-60 | striking a repeated registration from a trace leaves every later state of the store as it was |
| `SessionTable.IdsInUse` | server/server.go:164-168 | before the wrap the ids in use are exactly 1, 2, ..., in order |
| `SessionTable.NewIdsDistinct` | server/server.go:165 | new ids of one run are nonzero and different |
| `SessionTable.DeviceNeverChanges` | server/server.go:157-168 | a connection stays in the table with its device |
| `SessionTable.ResumedIff` | server/server.go:157-163 | a handshake is resumed and confirmed exactly when the id it asks for was issued to the same device earlier |
| `SessionTable.AnswerCanBeResumed` | server/server.go:157-163 | a device that asks for an id it was answered with, as a new or a resumed one, is resumed |
| `SessionTable.OpenNeverResumes` | server/server.go:157 | a request without an id never resumes, also after the wrap |
| `SessionTable.HandshakeEffect` | server/server.go:157-171 | the answered session holds the answered id and the request's device and key; its stream runs on exactly if it was resumed |
| `SessionTable.SessionHoldsItsId` | server/server.go:157-171 | over every run a session sits under its own id with the key of the last handshake answered with that id, untouched since |
| `SessionTable.WrapIff` | server/server.go:165 | the ids of a run of opens are nonzero and different exactly below 2^32 of them |
| `Outbox.Conservation` | server/server.go:376-401 | for every interleaving, all pulls of a connection followed by its queue are exactly what was queued, in order |
| `Outbound.ConnState.EnterForward` | server/server.go:250-266 | drop, dial or send, by the stored socket and the flag |
| `Outbound.ConnState.StoreDialled` | server/server.go:300-303 | stores the socket and clears the flag |
| `Outbound.ConnState.AbandonDial` | server/server.go:294-296 | clears the flag |
| `Outbound.ConnState.TakeOutbound` | server/server.go:349-353 | empties the slot and hands its socket to the caller |
| `Outbound.ForwardBatch` | server/server.go:229-231 | the loop over the payloads that one push made ready |
| `Outbound.BatchOutcome` | server/server.go:229-272 | which payload of a batch is written, taken for a CONNECT or dropped: with a socket stored all are written up to the first failure, without one everything behind the CONNECT is dropped |
| `Outbound.StepKeepsInv` | server/server.go:250-358 | every lock region keeps the invariant behind the next row |
| `Outbound.OneDialOneClose` | server/server.go:250-358 | over all interleavings at most one dial is in flight and none while a socket is stored, storing never overwrites, and no socket is closed twice |
| `Outbound.EverySocketIsClosed` | server/server.go:300-358 | over all interleavings, with no close pending, every socket ever stored was closed exactly once, except the stored one |
| `Outbound.FirstSocketGetsPrefix` | server/server.go:236-272 | with serial pushes and a client that waits for the answer to CONNECT, the bytes written to the first socket are a prefix of the bytes pushed since, and all of them while it is stored and no write is under way |
| `Outbound.DroppedIff` | server/server.go:252-256 | over all interleavings a payload is dropped exactly while a dial is in flight |
| `Outbound.RetryDroppedIff` | server/server.go:252-297 | a waiting client's CONNECT is dropped exactly when it falls between the report of an error and the clearing of the flag |
| `Outbound.StrandedIff` | server/server.go:252-297 | sending a CONNECT leaves the client with nobody to answer it exactly when the CONNECT is dropped |
| `Outbound.StrandedForEver` | server/server.go:250-358 | and it then waits for ever, over every continuation |
| `Outbound.RetryCanBeDropped` | server/server.go:281-297 | the run in which that happens |
| `Outbound.PumpClosesForeignIff` | server/server.go:339-358 | over every run, an ending pump closes the stored socket, and that is another one than its own exactly when a dial connected since |
| `Outbound.PumpClosesForeign` | server/server.go:268-358 | a patient client's run after which the pump of socket 0 closes socket 1 |
| `Server.Server.Authorize` | server/server.go:127-150 | header, size, seal and token checks; a refusal changes nothing |
| `Server.Server.HandleOpen` | server/server.go:120-180 | a refused handshake changes nothing, an accepted one resumes or creates a session and answers with its id |
| `Server.OpeningIff` | server/server.go:127-150 | a handshake is let in exactly with a token, 69 bytes that decode, and a token that is known and free, the device's own, or silent longer than the timeout; the device then holds it, and no other token is touched |
| `Server.OpenWhileHeld` | server/server.go:145-150 | over every trace of the token store, once a device holds a token a sound handshake is let in exactly for that device, or after its timeout |
| `Server.OpenExtendsTrace` | server/server.go:145-150 | an accepted handshake extends that trace by an accepted bind and a touch |
| `Server.ResponseBytes` | server/server.go:173-177 | the id in four bytes, then 0x80 exactly for a resumed session |
| `Server.Server.FindOrCreate` | server/server.go:157-168 | the existing session of the same device, or a new one under the next id |
| `Server.Server.AdmitSession` | server/server.go:152-171 | the session objects behave as the table that the run lemmas are about |
| `Server.Server.HandlePush` | server/server.go:189-234 | decodes the frames of the first 8 MiB into the session of that id, touches no other, and forwards what became ready, payload by payload |
| `Server.Server.QueueOutgoing` | server/server.go:392-401 | seals in that session and appends to its queue; nothing is queued on failure |
| `Server.Server.HandlePull` | server/server.go:363-388 | prints the queue and empties it |
| `Client.Client.Open` | client/client.go:50-88 | 69 bytes that whoever holds the server's private key decodes to this device asking for id 0, the session key that the client keeps, and the client's ephemeral key |
| `Client.Client.Reconnect` | client/client.go:58-88 | refused exactly before the first Open, otherwise the same for the current id |
| `Client.Client.HandleResponse` | client/client.go:100-113 | needs five bytes, then installs id and key |
| `Client.FinishIff` | client/client.go:100-113 | a response is taken exactly from five bytes on; the client then holds the id and key, its stream runs on, and bit 7 tells whether it was resumed |
| `Client.Client.Push` | client/client.go:117-127 | one frame behind its length |
| `Client.Client.Pull` | client/client.go:169-211 | everything the frames of the body released |
| `Client.HandshakePairs` | server/server.go:139-179 | after an accepted handshake both sides hold the same fresh key and id and have only rekeyed, the client knows whether it was resumed, and an idle direction meets the premises of completeness |
| `Client.ReconnectResumes` | client/client.go:58-113 | a client that took an answer and greets again later is understood as asking for the answered id, is resumed and told so, and has only rekeyed |
| `Client.PushDelivers` | server/server.go:189-227 | one push into a paired session delivers exactly that payload |

## Left out
- X25519, AES-GCM, HMAC and SHA-256 themselves: they are symbolic. A forged tag or a hash collision has no counterpart here, and neither has AES-GCM's limit on the plaintext size.
- `Nonces.NonceUniqueness`: about one sender at a time, since both directions share one key and start at counter 0; and each Session method is one step, because EncodeOutgoing takes the key snapshot and the counter separately.
- Reflection: `Network` delivers to each side only what the other side sealed.
- Delivery of frames sealed before a rekey, lost with a cut-off response, or more than 63 counters late: nothing retransmits them, and only safety is stated.
- `Congestion`: the factors 0.8, 0.05 and 1.1 are exact reals, so rounding of float64 is not modelled; the limits are the defaults, although they are exported fields in the code; durations do not overflow.
- `Tokens` and `Server`: bindings and queues are values in a map that the methods reassign, not shared objects; one clock reading serves a whole request; each handler runs without another one in between, whereas `CompleteHandshake` and forwarding run outside the server's lock.
- `Crypto.HkdfExpand`: lengths are not negative; a negative one panics in the code.
- `Outbound.FirstSocketGetsPrefix`: assumes that pushes do not overlap, because forwarding runs outside every lock.
- `Fallback.FreshSessionSplices`: a client that is in the middle of decoding a frame of the old session when the fresh one takes over.
- `Server.Server.HandlePush`: the outbound half of the connection is a parameter, and no dial or pump steps in between; `Outbound` covers those interleavings.
- transport/reconnect.go, a flag machine whose result `Push` does not use, and the number of HTTP requests one push makes.
- HTTP methods and headers, health check, allow-list of targets, real sockets and the pump's reads, logging, fingerprinting, the Android client, SQLite and the test mode.
