# Cypher: verified model of the messenger's protocols

Cypher is an end-to-end encrypted messenger: clients talk to a gateway and a signaling service, keep Double Ratchet
sessions with each other, leave messages in server-side inboxes, transfer files in chunks, and reach the relay through
a one-hop onion circuit. This project models the stateful and arithmetic core of that system in Dafny and proves what
holds of it over every input and every run. `dafny verify dfyconfig.toml` checks all files.

## Layout

| files | part of the system |
|---|---|
| `SymbolicCrypto`, `Ratchet`, `RatchetState`, `RatchetAgreement`, `RatchetRuns`, `RatchetGuarantees`, `KeyAgreement` | X3DH, the Double Ratchet and per-peer sessions |
| `Inbox`, `InboxGuarantees`, `InboxResponse` | the two-phase inbox and the signed answer to a fetch |
| `Registry` | the session registry |
| `FileTransfer`, `FileRecovery`, `WindowSender` | chunks, the resumable assembler, the sliding-window sender |
| `FrameCodec`, `SchemaCodec`, `Utf8`, `Stun`, `StunFormat`, `Onion`, `OnionRuns`, `OnionConversations`, `Datagram` | wire formats and the protocols run over them |
| `TokenBucket`, `Base32` | the rate limiter and identifier encoding |
| `Basics`, `Bytes` | results, byte and bit arithmetic |

Code that updates fields or runs loops is a class or a method proved equal to a function of the old state; the
properties are proved of those functions. Protocols are state machines: a `World` or `System` value, a `Step`, an
`Enabled` predicate with the conditions a run keeps to, `Next` and `Run`.

Cryptography is symbolic. Keys, Diffie-Hellman outputs and ciphertexts of the ratchet are terms, equal exactly when
built the same way from the same inputs. MACs, signatures and the AEAD of the onion layer are function parameters with
the law they are used for (checking accepts what was signed, or exactly that; opening undoes sealing).

## Main results

- **Whole-run agreement.** `KeyAgreement.InitiateAgrees` puts two clients that run the mutual handshake in
  complementary roles on one secret; `RatchetRuns.OneStepAhead` and `RatchetRuns.Agreement` then show, for every
  interleaving of sends and reordered or dropped deliveries, that one end is exactly one Diffie-Hellman step ahead and
  that each delivery returns the plaintext that was encrypted if and only if at most 256 numbers are passed over and at
  most 2048 keys are then stored. `RatchetRuns.KeysNeverReused` shows no two messages of a run share a key.
- **What a session lets in.** `RatchetGuarantees.Authenticity`: in every run a packet put together from any header and
  any ciphertext of the run opens only if it is a message of the peer, whole and not opened before. `HeaderSpent` is the
  price: whatever comes first under a header spends it.
- **Which packets a session survives.** `RatchetRuns.AnyPacketIff`: after any run, any packet, genuine or not, leaves the
  session consistent with its peer if and only if its header is timely. The header is compared byte by byte, so another
  encoding of a known key is not timely (`RecodedBreaks`). The ciphertext plays no part, because `decrypt`
  moves its chain and takes its ratchet step before the AEAD check. `ReplayReached` and `SupersededReached` are runs
  that show it: a repeated message, and one overtaken by an answer and the answer to that.
- **Inbox conservation.** `Inbox.InboxConservedIff`: in every interleaving of push, trim, fetch, acknowledge, list,
  recover and expiry, each stored message is at every moment in the list or in a held claim, or was acknowledged,
  trimmed or expired, exactly once, if and only if every fetch finds its list empty or its token not held. Tokens hold
  only seconds; `SecondFetchLoses` is a run that loses a message. `InboxGuarantees.AckedForGood` and `DueComesBack`: a
  claim acknowledged between 60 seconds before and 300 after its time never comes back, one nobody acknowledged does.
- **Crash-safe file transfer.** `FileRecovery.CompletionIsCorrect` and `ResumeCompletes`: chunks in any order with
  repeats, crashes inside a chunk write or inside a sidecar save, sidecars torn to any prefix, resumption; completion
  implies the file is the source. `ResumeIff`: from any disk with any sidecar, resumption ends with the source if and
  only if the disk holds what the sidecar names. `CrashLosesFew`: a crash costs fewer than 64 chunks.
  `FileTransfer.CoverageIff`: the chunks cover the file if and only if their number fits 32 bits.
- **Registry.** `Registry.InverseIffCareful`: in every interleaving the two maps are inverse at every moment if and only
  if every registration and every deregistration script finds its session id free or its peer's own, as ids that are
  never shared ensure (`OneOwnerIsCareful`). `RegistrySafety` adds the gauge, `NewerSessionSurvives` says a stale
  deregistration changes nothing, and `RegisteredIsFound` what a lookup finds after any run.
- **Codecs.** `FrameCodec.AnyFragmentation`, `SchemaCodec.DispatchRoundTrip` (if and only if no earlier constructor
  has the same id), `Utf8.Utf8Iff`, `InboxResponse.ParseUnambiguous` and `AcceptedIffGiven` (accepted if and only if the
  server signed that list, count, inbox and time), `StunFormat.ResponseMeans` for any response octets,
  `Base32.EncodesIff`.
- **Onion.** `OnionRuns.SealedOnceIff`: runs with sequence numbers below a limit never seal twice under one key and
  nonce if and only if public keys have one encoding each, the limit is at most 2^63, and all frames come on one
  connection. The relay tells circuits apart by the bytes of the key, responses by 63 bits of the number, and remembers
  neither beyond a connection; `TwoEncodings`, `TopBitRepeats` and `TwoConnections` are the runs that fail.
  `NoncesDistinct` is the condition for runs over many connections. `Onion.ExchangeIff` says when a request is answered,
  and with what; `OnionConversations.ResponsesInOrder` and `Conversation` what is written on a connection.
- **Datagrams.** `Datagram.DeliveredInOrder` for one direction; with both directions under one MAC key
  `Datagram.InOrderIffNoEcho`, whose condition is on each datagram as it arrives, and the run `EchoDelivered`.
- **Refinement.** `TokenBucketSpec.AdmittedIff`: the bucket admits a request exactly when no window of time would
  exceed burst plus rate. `WindowSender.TransferSender.Run` and `RunSelective`: whatever the peer acknowledges, a new
  sender with a window never has more than it outstanding and waits only with it full or everything sent. Its in-flight
  subtraction underflows if and only if the window is empty; with a used one the exact condition is on the old
  acknowledgements and the first new one.

Where the documentation and the code differ the code is followed: `ONION_ROUTING_PLAN.md` describes claims pushed
to the tail and a timed backup key, while the scripts restore at the head and keep the claim until it is acknowledged
or recovered; the doc comment of the window sender speaks of the lowest unacknowledged index, while the code counts
unacknowledged chunks.

## Model

| member | source | states |
|---|---|---|
| `SymbolicCrypto.IterateInjective` | crates/cypher-crypto/src/ratchet.rs:17-29 | different positions of a symmetric chain hold different keys |
| `SymbolicCrypto.ReadKeyInjective` | crates/cypher-crypto/src/ratchet.rs:205-218 | public keys are told apart by their bytes: equal exactly when these are, whether or not they name one point |
| `Bytes.ByteOrder` | crates/cypher-transport/src/codec.rs:93-112 | little-endian words start with the lowest byte, big-endian ones with the highest |
| `Ratchet.SkipKeysChain` | crates/cypher-crypto/src/ratchet.rs:284-292 | stepping a receiving chain from one count to another reaches the later iterate of the same base |
| `Ratchet.SkipKeysStored` | crates/cypher-crypto/src/ratchet.rs:284-292 | skipping stores exactly the message keys of the numbers it passes over, under the right header, and keeps every other stored key |
| `Ratchet.PerformBound` | crates/cypher-crypto/src/ratchet.rs:198-295 | any one call, failing or not, with any header and ciphertext, adds at most 256 stored keys and leaves at most 2048 |
| `Ratchet.SkippedKeysBounded` | crates/cypher-crypto/src/ratchet.rs:84-295 | from either initial state every sequence of calls keeps at most 2048 stored keys |
| `RatchetObject.RatchetState.InitSender` | crates/cypher-crypto/src/ratchet.rs:84-106 | the new sender state, whose whole value is the specified one |
| `RatchetObject.RatchetState.InitReceiver` | crates/cypher-crypto/src/ratchet.rs:112-129 | the new receiver state, which can neither send nor has a peer key yet |
| `RatchetObject.RatchetState.Encrypt` | crates/cypher-crypto/src/ratchet.rs:169-192 | result and whole new state, the error without a sending chain included |
| `RatchetObject.RatchetState.SkipMessages` | crates/cypher-crypto/src/ratchet.rs:266-295 | the loop equals the recursive skip; either error exactly beyond its limit, 256 ahead or 2048 in all, and then nothing changes |
| `RatchetObject.RatchetState.Decrypt` | crates/cypher-crypto/src/ratchet.rs:198-263 | result and whole new state for stored keys, ratchet steps, limit errors and failed opening; RatchetRuns.Agreement says what they are in every run |
| `RatchetAgreement.ReceiveStored` | crates/cypher-crypto/src/ratchet.rs:205-212 | a message whose key is stored opens to its plaintext, and the end stays in sync without that key |
| `RatchetAgreement.ReceiveCurrent` | crates/cypher-crypto/src/ratchet.rs:245-263 | a message at or past the count of the current chain opens with the sender's key of that number, or meets its limit and changes nothing |
| `RatchetAgreement.DhStepInSync` | crates/cypher-crypto/src/ratchet.rs:220-241 | a ratchet step on the peer's next key derives the root and both chains the peer derives |
| `RatchetAgreement.ReceiveTimely` | crates/cypher-crypto/src/ratchet.rs:198-263 | every timely genuine message returns exactly what was sealed unless it meets a limit, and either way the end stays in sync |
| `RatchetAgreement.ReplayBreaks` | crates/cypher-crypto/src/ratchet.rs:247-263 | a replay fails to open, yet advances the chain while setting the count back, so no account makes the state consistent |
| `RatchetAgreement.SupersededBreaks` | crates/cypher-crypto/src/ratchet.rs:220-263 | an unstored message of an older ratchet key fails, and the ratchet step it caused leaves a state no run reaches |
| `RatchetAgreement.WrongKeyBreaks` | crates/cypher-crypto/src/ratchet.rs:214-248 | whatever it carries, a packet with an unstored header and any ratchet key but the one the peer has moved on to leaves the session out of sync |
| `RatchetAgreement.UnfitBreaks` | crates/cypher-crypto/src/ratchet.rs:266-295 | whatever it carries, a packet numbered behind the current chain, or at the last 32-bit number within the limits, leaves the session out of sync |
| `RatchetAgreement.InSyncIffTimely` | crates/cypher-crypto/src/ratchet.rs:198-263 | receiving a genuine message leaves a consistent session if and only if the message is timely |
| `RatchetAgreement.ConsistentIff` | crates/cypher-crypto/src/ratchet.rs:198-295 | for every packet, forged ones included: the session stays consistent if and only if the header is timely (stored key, fitting number of the current chain, or the key the peer has moved on to), whatever the ciphertext |
| `RatchetAgreement.RecodedBreaks` | crates/cypher-crypto/src/ratchet.rs:205-248 | a ratchet key in any encoding but the published one, even of the current key, is taken for a new key and the session is lost |
| `RatchetAgreement.ReplayLosesChain` | crates/cypher-crypto/src/ratchet.rs:198-263 | after one replay no later message of that chain opens |
| `RatchetRuns.EncryptInSync` | crates/cypher-crypto/src/ratchet.rs:169-192 | an end in sync can send exactly when it has a chain, seals under its epoch's next key, and stays in sync |
| `RatchetRuns.EnabledIsTimely` | crates/cypher-crypto/src/ratchet.rs:198-263 | at-most-once delivery of unsuperseded messages makes every delivery timely |
| `RatchetRuns.DeliverReturnsPlaintext` | crates/cypher-crypto/src/ratchet.rs:198-263 | in any reachable state a delivery returns the plaintext sent, or exactly the limit error it meets |
| `RatchetRuns.StepKeepsInv` | crates/cypher-crypto/src/ratchet.rs:169-263 | every send and delivery keeps both ends in sync, one a step ahead, and headers unique |
| `RatchetRuns.OneStepAhead` | crates/cypher-crypto/src/ratchet.rs:84-263 | for all runs: one end is exactly one Diffie-Hellman step ahead of the other |
| `RatchetRuns.Agreement` | crates/cypher-crypto/src/ratchet.rs:84-263 | for all runs: a delivery whose key is stored returns the plaintext; any other returns it if and only if the number is at most 256 past the receive count and the stored keys and the numbers passed over are together at most 2048; beyond 256 it is the one error, and in the remaining case the other |
| `RatchetRuns.AnyPacketIff` | crates/cypher-crypto/src/ratchet.rs:198-295 | after every run, at either end, any packet leaves the session consistent if and only if its header is timely |
| `RatchetRuns.ReplayReached` | crates/cypher-crypto/src/ratchet.rs:247-263 | a reachable state in which a first message delivered again fails and leaves the session out of sync |
| `RatchetRuns.SupersededReached` | crates/cypher-crypto/src/ratchet.rs:214-248 | a run of plain reordering: a message overtaken by an answer and the answer to that cannot be opened and leaves the session out of sync |
| `RatchetRuns.StoredKeysExact` | crates/cypher-crypto/src/ratchet.rs:266-295 | for all runs: the receiving chain is the count-th iterate of the sender's, and the stored keys are exactly the unopened numbers below the count |
| `RatchetRuns.MessageKeyUnique` | crates/cypher-crypto/src/ratchet.rs:17-45 | chains of different epochs never share a message key |
| `RatchetRuns.KeysNeverReused` | crates/cypher-crypto/src/ratchet.rs:169-192 | for all runs: no two messages of either end are sealed under one key |
| `RatchetGuarantees.OpenedNeverAgain` | crates/cypher-crypto/src/ratchet.rs:198-263 | a message that was opened once does not open again, wherever its end has got to |
| `RatchetGuarantees.HeaderSpent` | crates/cypher-crypto/src/ratchet.rs:205-263 | whatever arrives first under the header of a timely message spends it: the message itself then does not open |
| `RatchetGuarantees.OwnMessageFails` | crates/cypher-crypto/src/ratchet.rs:198-263 | an end does not open what it sent itself |
| `RatchetGuarantees.Authenticity` | crates/cypher-crypto/src/ratchet.rs:169-263 | for all runs, and any packet with any header and any ciphertext of the run: if it opens it is a message of the peer, header included, not opened before, and gives its plaintext |
| `RatchetGuarantees.CountersExact` | crates/cypher-crypto/src/ratchet.rs:169-241 | for all runs: an end's counters are the numbers of messages it sent under its present ratchet key and under the one before |
| `RatchetGuarantees.NothingToOpenWith` | crates/cypher-crypto/src/ratchet.rs:245-263 | before the first answer a packet under the pre-key is refused for want of a receiving chain and changes nothing |
| `KeyAgreement.HandshakesAgree` | crates/cypher-crypto/src/x3dh.rs:43-134 | initiator and responder agree, and the mutual handshake is symmetric for every total order on its outputs |
| `KeyAgreement.MutualSecretBinds` | crates/cypher-crypto/src/x3dh.rs:107-134 | equal mutual secrets come from equal identity exchanges and the same two crossings of identity and pre-key |
| `KeyAgreement.MutualSorted` | crates/cypher-crypto/src/x3dh.rs:107-134 | the two crossings enter the mutual secret in ascending order |
| `KeyAgreement.InitiatorSecretBinds` | crates/cypher-crypto/src/x3dh.rs:43-100 | initiators have one secret if and only if identity with pre-key, ephemeral with identity and ephemeral with pre-key are the same pairs |
| `KeyAgreement.LessTotal` | crates/cypher-client-core/src/api/messaging.rs:125-135 | of two different identifiers exactly one is smaller, so exactly one side is the sender |
| `KeyAgreement.LessIff` | crates/cypher-client-core/src/api/messaging.rs:125-135 | one identifier is smaller than another if and only if it is so at the first byte in which they differ, or is a strict prefix |
| `KeyAgreement.InitiateAgrees` | crates/cypher-client-core/src/api/messaging.rs:118-135 | the two clients' sessions are the two ends of the initial state of a run |
| `KeyAgreement.KeyManager.constructor` | crates/cypher-client-core/src/crypto.rs:21-28 | no sessions |
| `KeyAgreement.KeyManager.InitiateSession` | crates/cypher-client-core/src/api/messaging.rs:73-135 | an existing session is untouched; otherwise exactly one session is added, in the role the order of identifiers gives |
| `KeyAgreement.KeyManager.EncryptForPeer` | crates/cypher-client-core/src/crypto.rs:71-83 | only that peer's session moves, by the ratchet's step; no session is an error that changes nothing |
| `KeyAgreement.KeyManager.DecryptFromPeer` | crates/cypher-client-core/src/crypto.rs:92-110 | a ratchet key that is not 32 bytes is refused first, then a missing session, both changing nothing; otherwise only that peer's session moves, by the key those very bytes are, also when opening fails |
| `Inbox.Redis.LPush` | services/signaling/src/inbox.rs:21 | the message becomes the head of its inbox and nothing else changes |
| `Inbox.Redis.LTrim` | services/signaling/src/inbox.rs:22 | the first hundred messages are kept |
| `Inbox.Redis.FetchScript` | services/signaling/src/inbox.rs:59-79 | returns the list and moves it, if not empty, into a claim due 300 seconds later |
| `Inbox.Redis.AckScript` | services/signaling/src/inbox.rs:118-149 | for the token's own inbox, at most 300 seconds after its time and at most 60 before, drops claim and index entry and nothing else; otherwise changes nothing |
| `Inbox.Redis.RecoverScript` | services/signaling/src/inbox.rs:184-211 | the push loop puts the claimed messages back in order before the present ones, trims, and forgets the claim |
| `Inbox.PushConserved` | services/signaling/src/inbox.rs:21 | a push accounts for the one new message |
| `Inbox.TrimConserved` | services/signaling/src/inbox.rs:22 | what a trim cuts is counted as trimmed |
| `Inbox.FetchConserved` | services/signaling/src/inbox.rs:59-79 | a fetch under a token not held moves every copy from list to claim |
| `Inbox.AckConserved` | services/signaling/src/inbox.rs:136-148 | an acknowledgement moves exactly the claim's messages to the confirmed ones |
| `Inbox.RecoverConserved` | services/signaling/src/inbox.rs:184-211 | a recovery moves the claim's messages to the list, and what overflows to the trimmed ones |
| `Inbox.InboxSafety` | services/signaling/src/inbox.rs:14-218 | for all interleavings in which no fetch finds both a message and its token held: conservation of every message, list length at most 100 plus pushes awaiting their trim, claim records and claim index with the same keys |
| `Inbox.InboxConservedIff` | services/signaling/src/inbox.rs:14-218 | for all interleavings: no message is lost or invented at any moment if and only if every fetch finds its list empty or its token not held |
| `Inbox.SettledStays` | services/signaling/src/inbox.rs:118-218 | a claim acknowledged or restored stays so, is never held again, and is never both |
| `Inbox.NeverRestoredAgain` | services/signaling/src/inbox.rs:184-211 | a recovery of a claim settled earlier in any run changes no list |
| `Inbox.RestoredAfterDeadline` | services/signaling/src/inbox.rs:177-211 | a claim is restored only after a listing at or past its deadline |
| `Inbox.RestoredWhole` | services/signaling/src/inbox.rs:184-211 | a claim taken with no push in flight goes back whole, in order, at the front |
| `Inbox.FetchConservesIff` | services/signaling/src/inbox.rs:43-79 | a fetch keeps every message if and only if the list is empty or its token is not held |
| `Inbox.SecondFetchLoses` | services/signaling/src/inbox.rs:43-79 | a run after which a second fetch in the same second loses a message |
| `InboxGuarantees.StoreKeepsNewest` | services/signaling/src/inbox.rs:14-30 | storing a message keeps it and the newest others, a hundred in all, in order, and touches no other inbox and no claim |
| `InboxGuarantees.FetchClaims` | services/signaling/src/inbox.rs:59-79 | a fetch empties the list and claims what was in it, under inbox and second, for 300 seconds |
| `InboxGuarantees.AckInSpan` | services/signaling/src/inbox.rs:118-149 | an acknowledgement drops exactly its claim if made for the token's inbox within 60 seconds before and 300 after its time; any other changes nothing |
| `InboxGuarantees.RecoverPutsBack` | services/signaling/src/inbox.rs:184-211 | the inbox then holds the first hundred of the claimed messages and the present ones, in this order; the claim and its index entry are gone, an entry without a claim too |
| `InboxGuarantees.ConfirmedOnlyBy` | services/signaling/src/inbox.rs:118-149 | messages are confirmed only by an acknowledgement in time of a claim of their inbox |
| `InboxGuarantees.TrimmedOnlyBy` | services/signaling/src/inbox.rs:14-211 | messages are pushed out only when their inbox would hold more than a hundred |
| `InboxGuarantees.AckedForGood` | services/signaling/src/inbox.rs:43-218 | for all runs: what was claimed at a second and acknowledged in time, before a recovery of it, is confirmed, and no recovery ever puts it back |
| `InboxGuarantees.ListedWhenDue` | services/signaling/src/inbox.rs:177-183 | a held claim is listed if and only if 300 seconds have passed since its time |
| `InboxGuarantees.DueComesBack` | services/signaling/src/inbox.rs:177-211 | for all runs: a claim found due and left alone since can be recovered, and its messages are then the first of their inbox |
| `Registry.SessionRegistry.HandleRegister` | services/signaling/src/peer.rs:36-76 | peer and session name each other afterwards; new entries and gauge for a new, refreshed and replaced session |
| `Registry.SessionRegistry.HandleDeregister` | services/signaling/src/peer.rs:89-129 | an unknown session changes nothing; otherwise entries and gauge drop only if the peer still has that session |
| `Registry.RegisterInverseIff` | services/signaling/src/peer.rs:39-58 | a registration keeps the maps inverse if and only if the session id is free or already the peer's |
| `Registry.SharedIdBreaks` | services/signaling/src/peer.rs:39-58 | one session id registered for two peers leaves the maps not inverse |
| `Registry.StaleDeregister` | services/signaling/src/peer.rs:100-113 | a deregistration of a superseded session changes nothing |
| `Registry.DeregisterInverseIff` | services/signaling/src/peer.rs:100-113 | a deregistration script keeps the maps inverse if and only if the session id is free or the peer's own |
| `Registry.InverseIffCareful` | services/signaling/src/peer.rs:16-132 | for all interleavings: the maps are inverse at every moment if and only if every registration and every script finds its session id free or its peer's own |
| `Registry.StepKeepsInv` | services/signaling/src/peer.rs:16-132 | with session ids never shared, each read, script, lapse and gauge update is careful and keeps the maps inverse and the gauge accounted for |
| `Registry.OneOwnerIsCareful` | services/gateway/src/main.rs:107-109 | session ids that are never shared make every run careful |
| `Registry.RegistrySafety` | services/signaling/src/peer.rs:16-132 | for all careful interleavings, however ids are given out: the maps are mutual inverses, and with nothing lapsed and no update in flight the gauge is the number of sessions |
| `Registry.NewerSessionSurvives` | services/signaling/src/peer.rs:89-113 | a script whose read preceded the peer's reconnection leaves all entries as they are |
| `Registry.RegisterEntries` | services/signaling/src/peer.rs:36-76 | after a registration peer and session name each other and every other peer keeps its entry; from inverse maps the peer's other session is gone and every other session keeps its entry |
| `Registry.RegistrationNamed` | services/signaling/src/peer.rs:39-58 | new exactly if the peers become one more, refreshed exactly if the peer entries stay as they were |
| `Registry.DeregisterEntries` | services/signaling/src/peer.rs:100-113 | from inverse maps, a script for the peer's own session removes that pair of entries and no other |
| `Registry.RegisteredIsFound` | services/signaling/src/peer.rs:16-132 | for all runs: after a peer's last registration, with no script for its id and no lapse since, the peer is found under that id, and in a careful run the session under the peer |
| `Registry.DeregisteredIsGone` | services/signaling/src/peer.rs:89-113 | for all runs: a peer whose own session was deregistered or lapsed is not found until it registers again |
| `FileTransfer.ReadChunk` | crates/cypher-transfer/src/chunker.rs:71-91 | a chunk exists exactly for indices below the count, is not empty and fits the chunk size |
| `FileTransfer.ChunkIs` | crates/cypher-transfer/src/chunker.rs:71-91 | a chunk is the 262144 bytes, or what is left of the file, from 262144 times its index on, and exists exactly if that is inside the file |
| `FileTransfer.CoverageIff` | crates/cypher-transfer/src/chunker.rs:39-43 | every byte lies in some chunk if and only if the true number of chunks fits 32 bits |
| `FileTransfer.OversizeUncovered` | crates/cypher-transfer/src/chunker.rs:39-43 | the first size whose count wraps: no chunk of it can be read |
| `FileTransfer.UnpackTorn` | crates/cypher-transfer/src/assembler.rs:56-63 | however a packed list of indices is cut, what is read back is a prefix of it, and all of it if nothing was cut |
| `FileTransfer.UnpackPack` | crates/cypher-client-core/src/api/runtime.rs:85-98 | the sender reads back exactly the missing indices that were packed |
| `FileTransfer.PackAll` | crates/cypher-client-core/src/api/files.rs:80-84 | the appending loop packs the list in order |
| `FileTransfer.AcceptFile` | crates/cypher-client-core/src/api/files.rs:60-92 | starts a new file without a sidecar; otherwise resumes from it and asks for exactly the indices it does not name |
| `FileTransfer.FileAssembler.New` | crates/cypher-transfer/src/assembler.rs:31-46 | a file of zeros of the announced size, nothing received |
| `FileTransfer.FileAssembler.LoadState` | crates/cypher-transfer/src/assembler.rs:56-79 | the loop over an existing sidecar receives exactly its in-range indices and leaves the file alone |
| `FileTransfer.FileAssembler.SaveState` | crates/cypher-transfer/src/assembler.rs:82-87 | the sidecar becomes a packing of some listing of exactly the received indices |
| `FileTransfer.FileAssembler.WriteChunk` | crates/cypher-transfer/src/assembler.rs:95-125 | which error, in which order; on success the patched file, the new index and the periodic save; on error nothing changes |
| `FileTransfer.FileAssembler.MissingChunks` | crates/cypher-transfer/src/assembler.rs:128-137 | the filter over all indices as a loop; empty exactly when completion is reported |
| `FileTransfer.MissingExact` | crates/cypher-transfer/src/assembler.rs:133-137 | an index is listed as missing if and only if it is in range and not received |
| `FileTransfer.MissingAscends` | crates/cypher-transfer/src/assembler.rs:133-137 | each missing index is listed once, in ascending order |
| `FileTransfer.CountReachedIff` | crates/cypher-transfer/src/assembler.rs:128-137 | having as many indices as expected and lacking none are the same |
| `FileTransfer.LoadedUnpack` | crates/cypher-transfer/src/assembler.rs:56-63 | the loaded set is the unpacked indices that are in range |
| `FileRecovery.PatchKeeps` | crates/cypher-transfer/src/assembler.rs:112-115 | writing any part of a genuine chunk spoils no chunk already on disk |
| `FileRecovery.TornLoads` | crates/cypher-transfer/src/assembler.rs:51-87 | a sidecar torn to any prefix names only chunks that were received |
| `FileRecovery.StepKeepsInv` | crates/cypher-transfer/src/assembler.rs:31-125 | through accept, write, torn write, torn save, crash and finish, the received set and the sidecar name only chunks on disk |
| `FileRecovery.CompleteIffNoneMissing` | crates/cypher-transfer/src/assembler.rs:128-137 | an assembler reports completion if and only if no index is missing |
| `FileRecovery.CompletionIsCorrect` | crates/cypher-transfer/src/assembler.rs:31-137 | for all runs from any stale file: an assembler that reports completion has the source on disk |
| `FileRecovery.ResumeCompletes` | crates/cypher-client-core/src/api/files.rs:60-92 | resending exactly what the resumption request names, in any order, completes the file |
| `FileRecovery.ResumeIff` | crates/cypher-transfer/src/assembler.rs:51-137 | from any disk and any sidecar: resumption always reports completion, and ends with the source if and only if the file is no longer than it and holds what the sidecar names |
| `FileRecovery.FinishedStartsAnew` | crates/cypher-transfer/src/assembler.rs:31-91 | a finished transfer leaves its file and nothing to resume |
| `FileRecovery.CrashLosesFew` | crates/cypher-transfer/src/assembler.rs:31-125 | for all runs: a crash, also inside a chunk write, costs fewer than 64 of the received chunks; opening the disk again finds the others |
| `WindowSender.SendStep` | crates/cypher-transfer/src/sender.rs:66-76 | a send below the window keeps every moment of the trace within it |
| `WindowSender.AckStep` | crates/cypher-transfer/src/sender.rs:59-63 | an acknowledgement of anything at all, waited for with the window full or nothing left to send, keeps the trace within the window |
| `WindowSender.ReadyAfterAck` | crates/cypher-transfer/src/sender.rs:59-70 | after any acknowledgement, whatever was acknowledged from the start: either the sender is jammed, or no more is acknowledged than sent |
| `WindowSender.WaitsFull` | crates/cypher-transfer/src/sender.rs:66-76 | for a new sender that stops to wait: the window is full, or everything is sent, and something is outstanding |
| `WindowSender.InFlightWraps` | crates/cypher-transfer/src/sender.rs:66-70 | the in-flight count is the 64-bit word that gives the sent count when the acknowledged one is added back |
| `WindowSender.TransferSender.FirstWindow` | crates/cypher-transfer/src/sender.rs:102-109 | sends the first window, or stops at the first index in it the file does not have |
| `WindowSender.TransferSender.FillWindow` | crates/cypher-transfer/src/sender.rs:117-126 | sends until the window is full or the indices run out, or stops at an index the file does not have; its subtraction underflows exactly when the sender is jammed |
| `WindowSender.TransferSender.FirstChunks` | crates/cypher-transfer/src/sender.rs:45-52 | sends the first window of the file |
| `WindowSender.TransferSender.SendAhead` | crates/cypher-transfer/src/sender.rs:62-76 | as FillWindow, for the whole file |
| `WindowSender.TransferSender.Run` | crates/cypher-transfer/src/sender.rs:35-85 | for all acknowledgements, checked or not, and a sender new or used: each chunk sent once in order and exactly as many as the acknowledgements taken allow; the subtraction underflows if and only if there is something left to acknowledge and the first acknowledgement leaves more acknowledged than the window; a new sender with a window never has more than it outstanding and waits only with the window full or all chunks sent; success if and only if enough different acknowledgements arrive |
| `WindowSender.TransferSender.RunSelective` | crates/cypher-transfer/src/sender.rs:91-140 | the same for any list of indices, repeated ones included, with the error at the first one out of range |
| `WindowSender.NewUnderflows` | crates/cypher-transfer/src/sender.rs:91-126 | for a new sender the subtraction underflows exactly with an empty window, something to send and any acknowledgement |
| `WindowSender.UsedSuccess` | crates/cypher-transfer/src/sender.rs:35-85 | a sender used before with as many acknowledgements as chunks reports success after the first window alone |
| `WindowSender.HonestSuccess` | crates/cypher-transfer/src/sender.rs:91-140 | with a new sender, if only sent chunks are acknowledged, success means that every chunk was and that no index was repeated |
| `FrameCodec.ReceiveBuffer.Encode` | crates/cypher-transport/src/codec.rs:93-112 | appends the frame's bytes, or refuses exactly the frames over the size limit and appends nothing |
| `FrameCodec.ReceiveBuffer.Decode` | crates/cypher-transport/src/codec.rs:34-87 | outcome and remaining buffer, with both length errors |
| `FrameCodec.ReceiveBuffer.DecodeAll` | crates/cypher-transport/src/codec.rs:34-87 | repeated decoding yields what the whole buffer decodes to |
| `FrameCodec.ReceiveBuffer.Receive` | crates/cypher-transport/src/codec.rs:34-87 | feeding reads one by one yields what their concatenation decodes to |
| `FrameCodec.DrainAppend` | crates/cypher-transport/src/codec.rs:34-87 | decoding a buffer and later its continuation equals decoding both at once |
| `FrameCodec.EncodedDecodes` | crates/cypher-transport/src/codec.rs:34-112 | a frame's bytes, whatever follows, decode to the frame and leave what follows |
| `FrameCodec.PrefixWaits` | crates/cypher-transport/src/codec.rs:39-66 | no strict prefix of a frame yields a frame or an error or is consumed |
| `FrameCodec.AnyFragmentation` | crates/cypher-transport/src/codec.rs:34-112 | for every list of frames and every cut of its bytes into reads: exactly those frames, in order, never an error |
| `FrameCodec.DecodedIff` | crates/cypher-transport/src/codec.rs:34-87 | on any bytes: too small exactly below a length of 9, too large exactly above 1048576, and more is needed exactly while the length word or the frame is incomplete |
| `FrameCodec.FitsIff` | crates/cypher-transport/src/codec.rs:34-112 | a frame can be encoded, and its bytes decode to it, if and only if 9 and its payload are at most 1048576 |
| `FrameCodec.DecodedEncodes` | crates/cypher-transport/src/codec.rs:34-112 | whatever is decoded from any bytes, encoded again, is those bytes |
| `SchemaCodec.DecodeBytes` | crates/cypher-proto/src/lib.rs:30-48 | on any bytes, whatever is returned lies inside the buffer |
| `SchemaCodec.DecodeField` | crates/cypher-proto/build.rs:185-222 | any field decoded from any bytes is well typed, strings being UTF-8 |
| `Utf8.Utf8Iff` | crates/cypher-proto/build.rs:185-222 | a string field accepts exactly the concatenated UTF-8 encodings of scalar values |
| `SchemaCodec.AppendBytes` | crates/cypher-proto/src/lib.rs:19-26 | appends length, bytes and padding |
| `SchemaCodec.SerializeMessage` | crates/cypher-proto/build.rs:162-183 | the generated appends, field by field, give the serialization |
| `SchemaCodec.DeserializeMessage` | crates/cypher-proto/build.rs:262-291 | the generated offset loop equals the recursive decoding, with its three kinds of error |
| `SchemaCodec.Lookup` | crates/cypher-proto/build.rs:300-319 | the first constructor with the id, or none |
| `SchemaCodec.BytesRoundTrip` | crates/cypher-proto/src/lib.rs:19-48 | decoding at any offset undoes encoding and ends after the padding |
| `SchemaCodec.FieldsRoundTrip` | crates/cypher-proto/build.rs:162-222 | for every list of field types and well-typed values, decoding undoes encoding |
| `SchemaCodec.DispatchRoundTrip` | crates/cypher-proto/build.rs:300-319 | for every schema, message and trailing bytes: dispatch returns the message if and only if no earlier constructor has its id |
| `SchemaCodec.SerializedLength` | crates/cypher-proto/src/lib.rs:19-26 | the length in four-byte words, so always a multiple of four |
| `SchemaCodec.DispatchStable` | crates/cypher-proto/build.rs:300-319 | whatever bytes are accepted, the message re-serializes to bytes read the same way |
| `InboxResponse.BuildBlob` | services/signaling/src/inbox.rs:81-89 | the appending loop frames the non-empty messages |
| `InboxResponse.WalkBlob` | crates/cypher-client-core/src/api/runtime.rs:352-375 | the offset loop reads what the recursive walk reads, within bounds on any bytes |
| `InboxResponse.WalkOfBlob` | crates/cypher-client-core/src/api/runtime.rs:352-375 | walking a built list gives back the non-empty messages in order |
| `InboxResponse.WalkExact` | crates/cypher-client-core/src/api/runtime.rs:352-375 | on any bytes: what is read, packed again, is what stands there, and what is left over does not hold one more message |
| `InboxResponse.PrefixIsNotInbox` | crates/cypher-client-core/src/onion/bootstrap.rs:76-100 | no strict prefix of an inbox answer is read as one |
| `InboxResponse.ParseUnambiguous` | crates/cypher-client-core/src/onion/bootstrap.rs:76-100 | an answer alone is unsigned; followed by any 40-byte token and 64-byte signature it parses into exactly its parts |
| `InboxResponse.ParseExact` | crates/cypher-client-core/src/onion/bootstrap.rs:76-100 | on any bytes: signed exactly if all but the last 104 are an inbox answer, cut after those and after 40 more; unsigned exactly if it is not and is one whole |
| `InboxResponse.FetchedMessagesArrive` | crates/cypher-client-core/src/onion/bootstrap.rs:102-141 | the client rebuilds the signed bytes, accepts, and finds the stored messages and the token's time; AcceptedIffGiven says that it accepts nothing else |
| `InboxResponse.SignedDataInjective` | crates/cypher-client-core/src/onion/bootstrap.rs:120-129 | for inbox ids of one length the signed bytes determine list, count, inbox and time |
| `InboxResponse.SignedDataShifts` | crates/cypher-client-core/src/onion/bootstrap.rs:120-129 | for ids of different lengths they do not: two answers with the same signed bytes |
| `InboxResponse.AcceptedIffGiven` | crates/cypher-client-core/src/onion/bootstrap.rs:102-141 | for a check that accepts only the server's signatures on the answers it gave: list, count, token and signature are accepted for an inbox if and only if the server gave that list and count for that inbox at the token's time and the signature is its own on it |
| `InboxResponse.UnsignedAccepted` | crates/cypher-client-core/src/onion/bootstrap.rs:102-141 | without a trailer exactly the inbox answers are accepted |
| `Stun.XorTwice` | crates/cypher-nat/src/stun.rs:176-214 | combining with a key twice is the identity |
| `Stun.XorAddress` | services/signaling/src/stun.rs:68-116 | the array loop combines octet by octet |
| `Stun.WalkAttributes` | crates/cypher-nat/src/stun.rs:139-167 | the offset loop terminates in bounds on any bytes and equals the recursive walk |
| `Stun.PadsToFour` | crates/cypher-nat/src/stun.rs:164-166 | the offset moves on to the next multiple of four |
| `Stun.ParseBindingResponse` | crates/cypher-nat/src/stun.rs:105-173 | the header checks in order, then the walk, then the choice between the two addresses, as the function that StunFormat.HeaderRefused and StunFormat.ResponseMeans describe |
| `Stun.WalkEncoded` | crates/cypher-nat/src/stun.rs:139-167 | the bytes of any list of padded attributes are read as exactly that list |
| `Stun.FoldIsLast` | crates/cypher-nat/src/stun.rs:134-173 | of each kind of address the last attribute counts |
| `Stun.ParsesLastAddress` | crates/cypher-nat/src/stun.rs:105-244 | for every well-formed attribute list: the last XOR-MAPPED-ADDRESS as read, else the last MAPPED-ADDRESS, else an error; StunFormat says how each is read |
| `Stun.AddressRoundTrip` | crates/cypher-nat/src/stun.rs:176-214 | parsing undoes the server's combination for IPv4 and IPv6 |
| `Stun.ResponseRoundTrip` | services/signaling/src/stun.rs:68-116 | the client reads back the address and port the server saw, for every address and transaction |
| `StunFormat.MappedIff` | crates/cypher-nat/src/stun.rs:217-243 | a MAPPED-ADDRESS is read as an address if and only if it is a reserved octet, the family, the port and the address, whatever follows; refused exactly for any other family or too few octets |
| `StunFormat.XorMappedIff` | crates/cypher-nat/src/stun.rs:176-214 | an XOR-MAPPED-ADDRESS is read as an address if and only if it carries it combined with the cookie, and for IPv6 with the transaction |
| `StunFormat.HeaderRefused` | crates/cypher-nat/src/stun.rs:105-131 | which response is refused for its header, and with which of the five errors |
| `StunFormat.ResponseMeans` | crates/cypher-nat/src/stun.rs:105-243 | any other response, whatever its octets, is a list of attributes up to one cut off, and yields an error if an address attribute is malformed, else the last XOR-MAPPED-ADDRESS, else the last MAPPED-ADDRESS, else an error |
| `StunFormat.OnlyMapped` | crates/cypher-nat/src/stun.rs:105-243 | a response that carries only a MAPPED-ADDRESS yields it, for both families and any reserved octet, following octets and padding |
| `StunFormat.ServerWrites` | services/signaling/src/stun.rs:68-116 | the server's response octet by octet |
| `Onion.RequestRoundTrip` | crates/cypher-client-core/src/onion/encoder.rs:28-57 | header, client-library decoder and relay all read a request back, cut to its 32-bit length field; whole if and only if it fits |
| `Onion.ResponseRoundTrip` | crates/cypher-client-core/src/onion/decoder.rs:81-112 | the same for responses |
| `Onion.HeaderParts` | crates/cypher-client-core/src/onion/decoder.rs:12-26 | the cleartext header splits into its circuit and number whatever follows it |
| `Onion.ExchangeIff` | services/relay/src/onion.rs:131-241 | a request is answered if and only if its circuit is known with a smaller number or new with room, and the client reads exactly the backend's reply to its payload |
| `OnionRuns.AdmitNewer` | services/relay/src/onion.rs:152-173 | a frame passes the cache check only with a number above all earlier ones of its circuit on its connection, and disturbs no other circuit |
| `OnionRuns.AcceptedIncrease` | services/relay/src/onion.rs:49-173 | for all runs on any bytes over any number of connections: at most 16 circuits on each, and accepted numbers strictly increase on each circuit of it |
| `OnionRuns.MaterialInjective` | crates/cypher-client-core/src/onion/circuit.rs:91-97 | nonce materials are equal exactly when circuit and number are |
| `OnionRuns.SealingsMeetIff` | services/relay/src/onion.rs:104-123 | exactly when two requests, two responses, or a request and a response share key and nonce: one point, one identifier, and numbers equal, equal but for the top bit, or so with the request at 2^63 or more |
| `OnionRuns.NoncesDistinct` | services/relay/src/onion.rs:49-241 | for all runs over any number of connections with numbers below 2^63, in which requests of one point and identifier are of one circuit and their frames come on one connection under one encoding: nothing is sealed twice under one circuit key and nonce |
| `OnionRuns.TwoConnections` | services/relay/src/onion.rs:49-52 | one frame on two connections, each with its own cache: both answer, and two replies are sealed under one key and nonce |
| `OnionRuns.TwoEncodings` | services/relay/src/onion.rs:142-173 | two encodings of one point are two circuits to the cache: a run that seals two responses under one key and nonce |
| `OnionRuns.TopBitRepeats` | services/relay/src/onion.rs:116-173 | two numbers of one circuit that differ by 2^63: a run that seals two responses under one key and nonce |
| `OnionRuns.SealedOnceIff` | services/relay/src/onion.rs:49-241 | every run with numbers below a limit on at most so many connections seals all under different keys or nonces if and only if points have one encoding each, the limit is at most 2^63, and there is one connection |
| `OnionRuns.IgnoredBitNotCanonical` | services/relay/src/onion.rs:142-144 | a decoding that ignores the top bit of a key has points with two encodings |
| `OnionObject.Circuit.NextNonceMaterial` | crates/cypher-client-core/src/onion/circuit.rs:91-97 | identifier and present count; the count advances and wraps at 64 bits |
| `OnionObject.Circuit.EncodeRelayRequest` | crates/cypher-client-core/src/onion/encoder.rs:28-57 | the appends give the request numbered with the present count |
| `OnionObject.OnionConnection.ProcessOnionRequest` | services/relay/src/onion.rs:131-173 | cache and result, with the cache updated before decryption also when that fails |
| `OnionObject.OnionConnection.Reply` | services/relay/src/onion.rs:175-241 | opening, its four errors, and the sealed reply |
| `OnionObject.OnionConnection.HandleConnection` | services/relay/src/onion.rs:42-102 | the loop answers frame by frame, ignoring foreign ones and writing nothing on errors |
| `OnionObject.HandledIsRun` | services/relay/src/onion.rs:42-102 | handling any frames of a connection is a run and leaves its cache, so what holds of all runs holds of it |
| `OnionRuns.RequestsNumbered` | crates/cypher-client-core/src/onion/circuit.rs:91-97 | for all runs: a circuit's requests are numbered from 0 with none left out |
| `OnionConversations.RequestLayout` | crates/cypher-client-core/src/onion/encoder.rs:28-57 | a request byte by byte and what is sealed in it |
| `OnionConversations.ResponseLayout` | services/relay/src/onion.rs:104-123 | a response byte by byte, sealed under the number with its top bit set |
| `OnionConversations.UndecodedHeaders` | crates/cypher-client-core/src/onion/decoder.rs:12-112 | which bytes the client library's decoders refuse unopened, and how |
| `OnionConversations.RefusedUnopened` | services/relay/src/onion.rs:131-173 | a frame is refused unopened exactly if shorter than 58 bytes, numbered no higher than its known circuit, or the seventeenth circuit; the cache then stays, and otherwise remembers the number |
| `OnionConversations.ForeignInner` | crates/cypher-client-core/src/onion/decoder.rs:28-78 | a request whose inner text names another circuit is served by the relay and refused by the client library |
| `OnionConversations.BadInner` | services/relay/src/onion.rs:175-200 | which sealed texts are refused as no request or as claiming more than they hold |
| `OnionConversations.BadResponse` | crates/cypher-client-core/src/onion/decoder.rs:81-112 | the same for the client reading a response |
| `OnionConversations.ResponsesInOrder` | services/relay/src/onion.rs:42-102 | the responses written are the answers to the frames, in order: one for each frame that is answered, none for any other |
| `OnionConversations.Conversation` | services/relay/src/onion.rs:42-241 | every request of a circuit on a new connection is answered, once and in order, and the client reads from each answer the reply to that request |
| `DatagramObject.ConstantTimeEq` | crates/cypher-nat/src/dtls.rs:238-247 | the XOR-OR loop is exactly equality |
| `DatagramObject.DtlsSession.SendAuthenticated` | crates/cypher-nat/src/dtls.rs:178-201 | number, MAC in place of its placeholder, payload; the counter advances and wraps |
| `DatagramObject.DtlsSession.VerifyAndStrip` | crates/cypher-nat/src/dtls.rs:204-234 | accepts exactly verified datagrams with a newer number, and only then moves the last number |
| `Datagram.EncodedAccepted` | crates/cypher-nat/src/dtls.rs:178-234 | a sent datagram verifies, and is accepted exactly when its number is newer |
| `Datagram.StepKeepsInv` | crates/cypher-nat/src/dtls.rs:178-234 | each send and arrival keeps the delivered payloads an increasing selection of the sent ones |
| `Datagram.DeliveredInOrder` | crates/cypher-nat/src/dtls.rs:178-234 | for all runs over a network that drops, repeats and reorders, and in which only numbers and payloads the peer computed a MAC of arrive with it: delivered payloads are a subsequence of the sent ones, each at most once |
| `Datagram.LosslessDelivers` | crates/cypher-nat/src/dtls.rs:178-234 | over a network that keeps order everything sent is delivered |
| `Datagram.ArrivalInOrderIff` | crates/cypher-nat/src/dtls.rs:204-234 | one arrival keeps the deliveries in order if and only if the datagram is refused or is on the peer's wire |
| `Datagram.InOrderIffNoEcho` | crates/cypher-nat/src/dtls.rs:178-234 | both directions under one MAC key, for all runs: an end's deliveries are at every moment a subsequence of what its peer has sent if and only if no datagram it accepted was off its peer's wire when it came |
| `Datagram.EchoDelivered` | crates/cypher-nat/src/dtls.rs:204-234 | a run in which an end's own datagram comes back and is delivered to it |
| `Datagram.AcceptedFromEither` | crates/cypher-nat/src/dtls.rs:204-234 | both directions, for all runs: whatever is accepted is a datagram of one of the two ends, its number included |
| `TokenBucketObject.TokenBucket.constructor` | crates/cypher-common/src/ratelimit.rs:15-22 | a full bucket |
| `TokenBucketObject.TokenBucket.Refill` | crates/cypher-common/src/ratelimit.rs:25-30 | the capped refill for the time passed |
| `TokenBucketObject.TokenBucket.TryConsume` | crates/cypher-common/src/ratelimit.rs:33-42 | admission and the new level; a refusal still refills |
| `TokenBucketSpec.RefillKeepsMinimum` | crates/cypher-common/src/ratelimit.rs:25-30 | capping step by step keeps the level the minimum over all earlier moments |
| `TokenBucketSpec.RunIsMinimum` | crates/cypher-common/src/ratelimit.rs:15-42 | after every run the level is the minimum over all moments since the start of capacity plus refill since then minus grants since then, and not negative |
| `TokenBucketSpec.AdmittedIff` | crates/cypher-common/src/ratelimit.rs:33-42 | a request is admitted if and only if every window up to now stays within capacity plus its refill |
| `Base32.Base32Encode` | crates/cypher-common/src/types.rs:122-141 | the 32-bit accumulator that is never masked spells, five bits a letter, the whole bit string with fewer than five zero bits of fill |
| `Base32.EncodesIff` | crates/cypher-common/src/types.rs:122-141 | two encodings are equal if and only if the byte strings are, whatever their lengths |

## Left out

- Cryptographic internals (X25519, HKDF, AES-GCM, HMAC, Ed25519, SHA-256): symbolic terms or parameters.
- Ratchet counters: runs are considered with fewer than 2^32 - 1 messages on one chain; the increment itself wraps.
- Message numbers in packet headers are unbounded naturals in the ratchet model; a 32-bit one is a special case.
- Ratchet state serialization and its at-rest encryption.
- Length checks of the keys fetched from the server before a session is initiated, and storage of the peer's inbox id.
- Hexadecimal encoding of stored inbox payloads, JSON envelopes and the NATS subjects around the scripts.
- Expiry of inbox lists is a step that may happen at any time rather than a clock; the one-day period is not modelled.
- Registry session data (address, capabilities) besides peer and session id, and number formatting inside the Lua scripts.
- Zstandard compression of files and the final whole-file hash comparison.
- I/O errors of reads, sends and sidecar writes other than a crash at any byte.
- FileRecovery.CompletionIsCorrect: the run starts without a sidecar (FileRecovery.ResumeIff covers the others) and chunks are genuine pieces of the source.
- FileTransfer.FileAssembler.LoadState: the missing sidecar is the other branch, in FileTransfer.AcceptFile.
- RatchetGuarantees.Authenticity: the ciphertexts are those of the run and ones no key opens; nobody but the two ends seals under a session key.
- InboxResponse.AcceptedIffGiven: the inbox ids a server signs for have one length; InboxResponse.SignedDataShifts shows that different lengths can meet in one signed text.
- FileRecovery.CrashLosesFew: a crash inside a sidecar save is left to FileRecovery.TornLoads, since the save is not atomic and can lose any part of the list.
- WindowSender.TransferSender.Run: the subtraction wraps as in a release build; a debug build stops there instead.
- WindowSender.TransferSender.RunSelective: as Run.
- The schema text parser; schemas start as parsed constructors. The position of the inbox answer in the schema and its two fields are assumptions, the schema file not being part of this model.
- STUN request building, retransmission and timeouts.
- Relay dispatch of the inner payload and the NATS round trip: one function from payload to optional reply per frame. PING, SESSION_CLOSE and frame numbering of the connection loop.
- Datagram.DeliveredInOrder: fewer than 2^64 sends, receives one at a time, and no MAC but of what the peer sent; Datagram.InOrderIffNoEcho allows those of both ends. The two-message handshake, timeouts and the source-address check.
- TokenBucketSpec.AdmittedIff: reals in place of floating point, a rate that is not negative and a clock that does not go back.
- Gateway routing, relay pairing, cover traffic, ICE and hole punching, Tor, the user interfaces and the command line.
