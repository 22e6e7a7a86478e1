# Miru: verified models of the protocol and data-structure core

Miru is a remote-desktop and AI-agent stack. This project models its self-contained state machines
and data structures in Dafny and proves what they promise, over every input, run or interleaving.
`dafny verify dfyconfig.toml` checks the whole project.

| file | modules | what it models |
|---|---|---|
| `common.dfy`, `bits.dfy` | `Common`, `Bits`, `Bytes` | shared definitions; machine words as naturals, bit operations, byte encodings |
| `crypto.dfy` | `Crypto` | the session cipher: send counter, 128-bit sliding replay window |
| `relay_transport.dfy` | `RelayTransport` | relay framing and size limits |
| `handshake.dfy`, `handshake_network.dfy` | `Handshake`, `HandshakeNetwork` | key agreement and the directional key split; many handshakes over a network that delivers, changes, repeats and makes up messages |
| `channel.dfy` | `Channel` | both directions of a session over a network that drops, repeats, reorders and makes up frames |
| `merkle_log.dfy` | `MerkleLog` | root, inclusion proof and proof check of the session log |
| `capability.dfy`, `rate_limit.dfy` | `Capabilities`, `RateLimit` | token bucket with remainder carry and daily cap |
| `relay_server.dfy` | `RelayServer` | relay slots as interleaved tasks |
| `rendezvous.dfy`, `rendezvous_tasks.dfy` | `Rendezvous`, `RendezvousTasks` | request limiter and device registration; connections as interleaved tasks over the registry |
| `file_receive.dfy` | `FileReceive` | receiving files: chunks, hash check, temp files, dedup names |
| `audio.dfy` | `Audio` | framing and channel multiplexing over stateful codecs |
| `fingerprint_log.dfy`, `audit_log.dfy` | `FingerprintLog`, `AuditLog` | the two hash-chained logs |
| `agent_session.dfy` | `AgentGate` | authorization of agent actions, with concurrent calls interleaved |
| `stun.dfy`, `replay_guard.dfy` | `Stun`, `Replay` | STUN response parser; nonce window of the tool server |
| `color.dfy`, `i420.dfy` | `Bt601`, `I420` | colour conversion and the three I420 converters |

Each component has the same layout. Specification functions on plain values say what one step does;
classes and methods follow the program's imperative code and are proved equal to those functions; lemmas
prove the properties of whole runs of the functions. Besides, each operation's answers are stated in plain
terms, with every limit, text and constant as a literal value and without the specification's own helpers, so
that a constant or a branch cannot drift. Classes keep the program's fields. `ghost` fields and
the history parts of step-system states (`trail`, `saved`, `joins`, `delivered`) record what happened and are
not read by any step.

Assumptions are explicit: AEAD, X25519, Ed25519, HKDF, SHA-256 and the audio codec are parameters with just
the laws a lemma names (`Crypto.Lawful`, `Handshake.Lawful`, `MerkleLog.CollisionFree`, `AuditLog.CollisionFree`,
`HandshakeNetwork.Ideal`, `Audio.Carries`). The laws of the cryptography can be met: `Crypto.LawfulAeadExists`,
`Handshake.LawfulSuiteExists`, `HandshakeNetwork.IdealSuiteExists`, `MerkleLog.FreeHasherCollisionFree` and
`AuditLog.CollisionFreeHashExists` give an instance each. Authenticated encryption is ideal in the sense of
`Channel.IdealRun`: bytes open only if that text was sealed before under that key and number. Signatures are ideal in
the sense of `HandshakeNetwork.IdealRun`: for an honest identity they verify only if it made them. Clocks,
randomness, user answers and the success of system calls are arguments.

## Where the code and its promises differ

Each of these is a proved statement, with the exact condition where there is one.

- A sequence number is recorded before the AEAD runs, so a forged frame uses up the number it carries
  (`Channel.ForgeryUsesNumber`), and a genuine frame is delivered exactly when its number is unrecorded and
  in the window (`Channel.GenuineFrameDelivers`).
- Refused `encrypt` calls still advance the counter, so nonces are distinct exactly for runs of at most
  2^64 calls (`Crypto.NoncesDistinctIff`).
- Merkle roots bind a log only together with its length: `[a, b, c]` and `[a, b, c, c]` share a root
  (`MerkleLog.EqualRootsIff`, `MerkleLog.OddLogRepeatsLast`).
- The token bucket's bound of `burst + ceil(d / refill_every)` per window of length d holds for all runs of a
  fresh bucket that end by a given time if and only if that time is less than 2^32 refill intervals after its
  making (`RateLimit.WindowBoundIff`). From then on the `u32` clamp leaves `last_refill` behind and a full burst is
  followed by one more at the same instant, under every such policy (`RateLimit.ClampBreaksWindowBound`); for the
  default of pointer moves that is after 2.3 years (`RateLimit.PointerMoveFlood`).
- The comment at `crates/miru-mcp/src/rate_limit.rs:101` calls the daily cap a sliding window, but it is per fixed
  day: no sliding 24 hours hold more than the cap if and only if the run ends within the bucket's first day
  (`RateLimit.SlidingDayIff`). Around the first reset twice the cap passes (`RateLimit.DailyCapDoublesAcrossReset`):
  60 shell commands within an hour where the cap is 30 (`RateLimit.ShellExecHour`).
- The dedup loop forms candidate 9999 and then always gives up on it, so the usable names are 0 to 9998
  (`FileReceive.DoneSavesIff`); with exactly those taken, a complete and correct file is thrown away although 9999
  is free (`FileReceive.LastCandidateNeverUsed`).
- A registration with a signature and a key but no signing time counts as unsigned, yet locks its entry
  (`Rendezvous.LockUnverifiedIff`, `Rendezvous.UnverifiedLock`).
- A locked id is meant to be re-registered only with a valid signature for its key
  (`crates/miru-signal/src/main.rs:394-397`). Without a signing time the signature is not checked, so while
  the registry has room the entry can be replaced without a valid one if and only if signatures are not required
  (`RendezvousTasks.TakeoverPossibleIff`, `RendezvousTasks.VerifiedDeviceTakenOver`).
- The lock and the size of the registry are read before the entry is inserted. With n registrations under way at
  once the registry can exceed its cap by n - 1, and by no more (`RendezvousTasks.OverlapBound`,
  `RendezvousTasks.OverlapReachesBound`); a lock holds in every continuation if and only if no registration of its
  id with another key is under way already (`RendezvousTasks.LockHoldsIff`).
- A connection that ends removes only the id it registered last, whoever is listed there. An id stays listed after
  everyone is gone if and only if all who stood for it at its last registration registered something else later
  (`RendezvousTasks.LeftOverIff`, `RendezvousTasks.FirstIdStays`), and a connected device can be unlisted by
  another's leaving (`RendezvousTasks.SuccessorUnlisted`).
- `handshake.rs:10` promises that the signed challenge excludes replay. The challenge is the signer's own ephemeral
  key, so every Hello is accepted again at any time (`HandshakeNetwork.HelloReplays`); what holds instead is that of
  all these hosts at most one shares keys with the viewer (`HandshakeNetwork.AgreesWithOneHost`). The signature
  covers neither the session id (`HandshakeNetwork.SessionIdUnsigned`) nor the role
  (`HandshakeNetwork.RoleUnsigned`), and does not prove possession of the ephemeral secret
  (`HandshakeNetwork.HostNamesAnother`).
- `is_auto_approved` reads the clock before it takes the lock, so it may use a time older than the newest grant.
  Its answer is exact for the latest time and errs by no more than that delay for an older one
  (`AgentGate.HitIff`).
- `revoke` does not stop a call that is already past the flag check (`AgentGate.InFlightSurvivesRevoke`); it
  stops exactly the calls that enter later (`AgentGate.RevokeStopsLaterCallsIff`).
- The chroma pass of `packed32_to_i420` stays in bounds exactly for even or empty frames
  (`I420.ChromaInBoundsIff`).

## Model

| member | source | states |
|---|---|---|
| Bytes.LeRoundTrip | crates/miru-common/src/crypto.rs:187-191 | little-endian words of any width read back |
| Bits.BitAnd | crates/miru-common/src/crypto.rs:165-172 | the mask test works bit by bit |
| Bits.BitXor | crates/miru-transport/src/nat.rs:98-115 | taking the cookie off works bit by bit |
| Crypto.NonceInjective | crates/miru-common/src/crypto.rs:187-191 | different counters give different 12-byte nonces |
| Crypto.NonceLayout | crates/miru-common/src/crypto.rs:187-191 | a nonce is the number's eight bytes, lowest first, and four zero bytes |
| Crypto.SealedDecryptsIffAcceptable | crates/miru-common/src/crypto.rs:96-138 | what `encrypt` produced decrypts to the same text if and only if its number is unrecorded and less than 128 below the highest, and is refused as replay otherwise |
| Crypto.SealsIff | crates/miru-common/src/crypto.rs:96-114 | a text of up to 4 MiB is sealed if and only if the counter reads less than 2^64 - 2, behind the eight bytes of that number; at the last two values the answer is exhaustion |
| Crypto.DecryptAnswers | crates/miru-common/src/crypto.rs:121-174 | under 24 bytes is too short; a number recorded before, or 128 or more below a recorded one, is a replay; anything else is recorded and opened |
| Crypto.NoncesDistinctIff | crates/miru-common/src/crypto.rs:96-114 | the numbers of the calls that go through are pairwise different if and only if there are at most 2^64 calls, refused ones included |
| Crypto.CounterAfter | crates/miru-common/src/crypto.rs:96-114 | the counter of a cipher after one more call is the next call's number, at the wrap too |
| Crypto.ReplayWindow.CheckAndRecordSeq | crates/miru-common/src/crypto.rs:140-174 | the sliding bitmap refines the plain set of recorded numbers: same answer, same new set, for every number and every state |
| Crypto.SlideBits | crates/miru-common/src/crypto.rs:140-174 | shifting the 128-bit map and setting bit 0 moves every old bit by exactly the distance and drops those beyond 127 |
| Crypto.SessionCipher.Encrypt | crates/miru-common/src/crypto.rs:96-114 | seals under the old counter behind its 8 bytes unless it is exhausted (`Crypto.SealsIff` says when), and advances the counter in every case |
| Crypto.SessionCipher.Decrypt | crates/miru-common/src/crypto.rs:121-138 | too short, replay, forged or the text, with the number recorded even when the body does not open |
| RelayTransport.AdmittedFramesFit | crates/miru-transport/src/relay.rs:92-165 | a message is within the sender's limit if and only if its frame is within the receiver's, and then unframes to the same bytes or is stale |
| RelayTransport.AdmittedSendsUnlessExhausted | crates/miru-transport/src/relay.rs:92-137 | a message of at most 4 MiB less 24 bytes is sealed if and only if the counter reads less than 2^64 - 2 |
| RelayTransport.FrameLayout | crates/miru-transport/src/relay.rs:92-137 | a frame is the payload's length in four bytes, lowest first, and the payload |
| RelayTransport.PlainRoundTrip | crates/miru-transport/src/relay.rs:92-165 | without a cipher a payload arrives as sent if it is at most 4 MiB, and is refused otherwise |
| RelayTransport.ReceiveAnswers | crates/miru-transport/src/relay.rs:139-165 | fewer than 4 bytes are skipped, more than 4 MiB and 4 are refused, and of the rest the header is dropped before decrypting |
| RelayTransport.Limits | crates/miru-transport/src/relay.rs:92-165 | a receiver refuses a sealed message as oversized if and only if it is longer than 4 MiB less 24 bytes |
| RelayTransport.Transport.Send | crates/miru-transport/src/relay.rs:92-137 | the frame handed to the writer, the error cases in the code's order, the closed channel included, and the cipher state afterwards |
| RelayTransport.Transport.Receive | crates/miru-transport/src/relay.rs:139-165 | takes the oldest queued frame and answers as the receive specification, with and without cipher |
| Handshake.HonestRunAgrees | crates/miru-transport/src/handshake.rs:50-230 | when both messages arrive as sent, each sending key is the peer's receiving key, the two directions differ, and each side learns the other's identity |
| Handshake.HostAnswers | crates/miru-transport/src/handshake.rs:134-230 | version 1, the peer's signature over prefix, ephemeral key and identity, and a common codec are asked for in that order; what the answer holds and which keys are derived, with every text written out |
| Handshake.ViewerAccepts | crates/miru-transport/src/handshake.rs:74-130 | the Hello sent, and that an answer is accepted if and only if its signature verifies, with the keys derived |
| HandshakeNetwork.RunKeeps | crates/miru-transport/src/handshake.rs:74-230 | what every run of any number of handshakes keeps: ephemeral secrets are not shared, and an accepted key field with an honest identity was made by that identity |
| HandshakeNetwork.AgreeIff | crates/miru-transport/src/handshake.rs:74-230 | under an active network, a viewer and a host of which one names an honest peer hold the keys of one session if and only if each used the other's ephemeral key and both the same session id |
| HandshakeNetwork.AttributionIff | crates/miru-transport/src/handshake.rs:74-230 | of two ends that used each other's keys, each names the other if and only if the identity it names is honest |
| HandshakeNetwork.NamedPeerTookPart | crates/miru-transport/src/handshake.rs:74-130 | a viewer that names an honest identity uses an ephemeral key which that identity made |
| HandshakeNetwork.AgreesWithOneHost | crates/miru-transport/src/handshake.rs:74-230 | a viewer that names an honest peer shares keys with at most one host, replays of its Hello included |
| HandshakeNetwork.KeyHolders | crates/miru-transport/src/handshake.rs:134-230 | who can derive the keys of a host that names an honest peer holds that host's ephemeral secret or one that the named identity had made |
| HandshakeNetwork.HelloReplays | crates/miru-transport/src/handshake.rs:134-230 | at any point of any run a new host accepts any Hello sent before and names its sender |
| HandshakeNetwork.SessionIdUnsigned | crates/miru-transport/src/handshake.rs:105-130 | a viewer accepts a host's answer under another session id and then shares no keys with it |
| HandshakeNetwork.RoleUnsigned | crates/miru-transport/src/handshake.rs:105-130 | a viewer accepts its own Hello, turned into an answer |
| HandshakeNetwork.HostNamesAnother | crates/miru-transport/src/handshake.rs:134-230 | a host that shares keys with a viewer names another identity, put to the viewer's ephemeral key |
| Channel.RunKeepsLanes | crates/miru-transport/src/relay.rs:92-165 | what every run keeps about one direction: every delivery has a source, no number is delivered twice |
| Channel.DeliveriesMatchSends | crates/miru-common/src/crypto.rs:96-174 | channel safety: under any network, deliveries of a direction map one-to-one into messages the peer sent in that direction |
| Channel.SendStep | crates/miru-transport/src/relay.rs:92-137 | the transport's send is the channel's step: its counter stays the number of the lane's next call, what goes out is exactly the frame of the message that joined the sent ones, and with the channel open each of the first 2^64 - 2 messages of admitted size goes out |
| Channel.ReceiveStep | crates/miru-transport/src/relay.rs:139-165 | the transport's receive is the channel's step on the oldest queued frame, and hands out exactly what that delivers |
| Channel.HandshakenChannelIsSafe | crates/miru-transport/src/handshake.rs:50-230 | the same for the keys an honest handshake derives: that they differ by direction is proved, not assumed |
| Channel.SentNoncesDistinct | crates/miru-common/src/crypto.rs:96-114 | within 2^64 uses of a cipher no two sealed messages of any run share a nonce, whatever the network and the other direction do |
| Channel.AllSealedIff | crates/miru-common/src/crypto.rs:96-114 | in every run all messages of admitted size handed over are sealed, in order, if and only if there are at most 2^64 - 2 |
| Channel.GenuineFrameDelivers | crates/miru-common/src/crypto.rs:121-174 | at any point of any run, a sent message's frame delivers it if and only if its number is still acceptable, and changes nothing otherwise |
| Channel.DelayedFrameDeliversIff | crates/miru-common/src/crypto.rs:121-174 | at any point of any run a sent message's frame delivers if and only if its number is not recorded and no recorded number is 128 or more above it |
| Channel.ConversationDelivers | crates/miru-transport/src/relay.rs:92-165 | over a network that passes frames on, the receiver gets exactly the messages sent, in order, up to 2^64 - 2 of them |
| Channel.ForgeryUsesNumber | crates/miru-common/src/crypto.rs:121-138 | any long enough frame makes its number unacceptable from then on, and is delivered exactly when it opens |
| MerkleLog.ProofsVerify | crates/miru-transparency/src/lib.rs:223-305 | completeness: every leaf's proof verifies against the root and is as long as the tree is high, for every size |
| MerkleLog.HeightIsCeilLog2 | crates/miru-transparency/src/lib.rs:223-246 | the height is the ceiling of log2 of the number of leaves |
| MerkleLog.RootIsTree | crates/miru-transparency/src/lib.rs:223-246 | the layers give the tree as seen from above: left half before right half, a missing half replaced by the other, zero bytes for no leaves |
| MerkleLog.VerifiesIff | crates/miru-transparency/src/lib.rs:292-305 | soundness: `verify_proof` accepts against a log's root exactly the leaf the index leads to with that leaf's own proof; no assumption on the proof's length or the index |
| MerkleLog.LengthForced | crates/miru-transparency/src/lib.rs:292-327 | domain separation forces the proof length to the tree height |
| MerkleLog.EqualRootsIff | crates/miru-transparency/src/lib.rs:223-246 | two nonempty logs share a root if and only if their trees have the same height and agree once missing partners are filled in |
| MerkleLog.EqualLengthBinding | crates/miru-transparency/src/lib.rs:223-246 | logs of equal length with equal roots are equal |
| MerkleLog.OddLogRepeatsLast | crates/miru-transparency/src/lib.rs:223-246 | repeating the last leaf of an odd log keeps the root |
| MerkleLog.VerifyProof | crates/miru-transparency/src/lib.rs:292-305 | the loop computes the specification's verdict |
| MerkleLog.Log.Append | crates/miru-transparency/src/lib.rs:216-220 | the leaf is added at the returned index |
| MerkleLog.Log.Root | crates/miru-transparency/src/lib.rs:223-245 | the layer loop computes the root of the tree |
| MerkleLog.Log.Proof | crates/miru-transparency/src/lib.rs:248-280 | the layer loop computes the path, and out of range is an error |
| RateLimit.PolicyRates | crates/miru-mcp/src/rate_limit.rs:55-75 | rounding up never refills faster than the configured rate, also for a zero burst |
| RateLimit.RefillCatchesUpIff | crates/miru-mcp/src/rate_limit.rs:98-141 | `last_refill` never passes the present, and every whole interval is used up if and only if the count fits in `u32` |
| RateLimit.GrantsArePaid | crates/miru-mcp/src/rate_limit.rs:98-141 | over any run, successes and remaining tokens are paid for by the starting tokens and the refills |
| RateLimit.ShortRunsDoNotClamp | crates/miru-mcp/src/rate_limit.rs:98-141 | runs that end within 2^32 intervals of the last refill never meet the clamp |
| RateLimit.WindowBound | crates/miru-mcp/src/rate_limit.rs:98-141 | in every window of length d of every run, at most burst + ceil(d / refill_every) successes |
| RateLimit.WindowBoundIff | crates/miru-mcp/src/rate_limit.rs:98-141 | every window of every run of a fresh bucket that ends by a given time keeps that bound if and only if the time is less than 4294967296 intervals after its making |
| RateLimit.ClampBreaksWindowBound | crates/miru-mcp/src/rate_limit.rs:98-141 | under every policy, a run of a fresh bucket that grants `burst + 1` calls at one instant, 2^32 intervals after its making |
| RateLimit.PointerMoveFlood | crates/miru-mcp/src/rate_limit.rs:34-141 | the same for the default policy of pointer moves, less than 846 days after the bucket was made |
| RateLimit.DailyBound | crates/miru-mcp/src/rate_limit.rs:98-141 | at most twice the daily cap in any half-open 24 hours, and at most the cap when no reset falls inside |
| RateLimit.SlidingDayIff | crates/miru-mcp/src/rate_limit.rs:98-141 | every sliding 24 hours of every run of a fresh bucket that ends by a given time hold at most the cap if and only if the time is within its first day |
| RateLimit.DailyCapDoublesAcrossReset | crates/miru-mcp/src/rate_limit.rs:98-141 | under every policy that can spend its cap within a day, a run of a fresh bucket with twice the cap in less than two caps' worth of refills |
| RateLimit.ShellExecHour | crates/miru-mcp/src/rate_limit.rs:34-141 | 60 shell commands in 59 minutes under the default cap of 30 |
| RateLimit.RetryAfterIsExact | crates/miru-mcp/src/rate_limit.rs:98-141 | after a refusal at t with wait r and any refused calls since, the call at t' succeeds if and only if t' >= t + r |
| RateLimit.GrantedIff | crates/miru-mcp/src/rate_limit.rs:98-141 | a call is granted if and only if the cap is not used up or its 24 hours are over, and a token is left or an interval has passed |
| RateLimit.CapAnswerIsExact | crates/miru-mcp/src/rate_limit.rs:98-118 | after a refusal for the cap, calls are refused for it until exactly the time named, 24 hours after the day began |
| RateLimit.RefusalIsStutterIff | crates/miru-mcp/src/rate_limit.rs:98-141 | a refused call leaves the bucket unchanged up to a day rollover, if and only if the `u32` sum does not wrap |
| RateLimit.TokenBucket.TryConsume | crates/miru-mcp/src/rate_limit.rs:98-141 | new fields and answer are those of the one-call specification |
| RateLimit.DefaultsStartAt | crates/miru-mcp/src/rate_limit.rs:34-53 | every default policy meets the conditions of the bounds above |
| RateLimit.DefaultTable | crates/miru-mcp/src/rate_limit.rs:34-75 | burst, interval and cap of every default policy |
| RateLimit.DefaultsMeetConditions | crates/miru-mcp/src/rate_limit.rs:34-75 | every default policy meets the conditions of the two exact statements |
| RateLimit.CapabilitiesIndependent | crates/miru-mcp/src/rate_limit.rs:153-175 | after any mix of requests each capability's bucket and next answer are those of its own requests alone |
| RateLimit.RateLimiter.TryConsume | crates/miru-mcp/src/rate_limit.rs:167-175 | serves from the capability's own bucket object, made on first use, and leaves the others alone |
| RelayServer.RunKeepsInv | crates/miru-signal/src/main.rs:465-733 | the slot and connection invariant holds after every interleaving |
| RelayServer.SlotLifecycle | crates/miru-signal/src/main.rs:500-733 | a present slot is unclaimed with its reaper pending and never joined, or claimed with every session that ever joined it still running |
| RelayServer.ReaperSparesClaimed | crates/miru-signal/src/main.rs:511-524 | a firing reaper removes its own slot if and only if nobody ever joined it, and no other slot |
| RelayServer.DrainsEmpty | crates/miru-signal/src/main.rs:500-733 | once all sessions ended and all reapers fired, the table is empty |
| RelayServer.PeersShareToken | crates/miru-signal/src/main.rs:630-692 | a forwarding session sends to one that joined the same token on the other side |
| RelayServer.GoneForGood | crates/miru-signal/src/main.rs:500-733 | a removed slot never comes back |
| RelayServer.JoinIffPresent | crates/miru-signal/src/main.rs:597-655 | a well-formed token gets in if and only if its slot is present, at any load, and takes exactly its own side |
| RelayServer.AdmitsIff | crates/miru-signal/src/main.rs:597-622 | a token passes the first tests if and only if it is 32 hexadecimal digits, and known or the table below capacity |
| RelayServer.OpensAndCloses | crates/miru-signal/src/main.rs:500-733 | what issuing, arriving, quitting and reaping do to slots and connections |
| RelayServer.ClaimMeets | crates/miru-signal/src/main.rs:630-655 | a claim takes its own side and forwards at once to exactly whoever is registered on the other, or waits |
| RelayServer.PollMeets | crates/miru-signal/src/main.rs:681-691 | a waiting connection that polls forwards to exactly whoever is registered on the other side, or goes on waiting |
| RelayServer.BothSidesMeet | crates/miru-signal/src/main.rs:630-692 | in every run, if one host and one viewer joined a token and neither has quit, each forwards to the other once both have polled |
| RelayServer.RelayTable.RemoveIfUnclaimed | crates/miru-signal/src/main.rs:511-524 | removes the slot exactly when neither side is taken |
| RelayServer.RelayTable.Claim | crates/miru-signal/src/main.rs:630-655 | registers one side and returns the other side's connection in one step, or reports an unknown token |
| RelayServer.RelayTable.Poll | crates/miru-signal/src/main.rs:681-691 | returns the connection on the opposite side of the slot |
| RelayServer.RelayTable.Admit | crates/miru-signal/src/main.rs:597-622 | malformed tokens and unknown tokens at capacity are turned away, and nothing else |
| Rendezvous.PruneLosesOnlyExpired | crates/miru-signal/src/main.rs:125-147 | the pruned table differs from a full one only in counters whose window is over |
| Rendezvous.PruningInvisible | crates/miru-signal/src/main.rs:125-147 | every request is answered as if no counter were ever forgotten |
| Rendezvous.ConnectRateBound | crates/miru-signal/src/main.rs:125-147 | at most 40 requests of an address pass in any half-open minute |
| Rendezvous.TwentyAMinute | crates/miru-signal/src/main.rs:125-147 | within 60 s of an address's first request, its requests pass exactly up to the twentieth |
| Rendezvous.WindowRestarts | crates/miru-signal/src/main.rs:125-147 | 60 s after a window began the next request passes and begins a new one |
| Rendezvous.PruneIs | crates/miru-signal/src/main.rs:125-147 | a check forgets exactly the counters whose window began 120 s or more before |
| Rendezvous.LockUnverifiedIff | crates/miru-signal/src/main.rs:353-456 | an accepted registration locks without verification if and only if it has signature and key but no signing time |
| Rendezvous.UnverifiedLock | crates/miru-signal/src/main.rs:353-456 | for every id and key within their lengths, a registration that is accepted and locks unverified |
| Rendezvous.TakeoverUnverifiedIff | crates/miru-signal/src/main.rs:353-456 | an accepted registration of a locked id makes the sender its owner and keeps the key, and is unverified if and only if it has no signing time |
| Rendezvous.RegisterIs | crates/miru-signal/src/main.rs:286-456 | the first reason that applies for each refusal, with the length limits 256, 64, 128 and 128, and every field of the entry an accepted registration makes |
| Rendezvous.AppState.CheckConnectRate | crates/miru-signal/src/main.rs:125-147 | new table and answer are those of the specification |
| Rendezvous.AppState.ProcessRegister | crates/miru-signal/src/main.rs:286-464 | reply code, registry with owner and address, limiter and the connection's own id after one registration, refusals in the code's order |
| Rendezvous.AppState.Disconnect | crates/miru-signal/src/main.rs:270-276 | the entry under the connection's own id is gone, whoever it points to, and the others stay |
| RendezvousTasks.SoloRegister | crates/miru-signal/src/main.rs:286-464 | the three steps of a registration that nothing interleaves are the sequential registration |
| RendezvousTasks.ListedIff | crates/miru-signal/src/main.rs:236-464 | after any interleaving, a connection is listed under an id if and only if it registered that id last and nobody who stood for the id has left since |
| RendezvousTasks.LeftOverIff | crates/miru-signal/src/main.rs:236-464 | once every connection is gone, an id is still listed if and only if all who stood for it at its last registration registered something else later |
| RendezvousTasks.DrainsIff | crates/miru-signal/src/main.rs:236-464 | once every connection is gone the registry is empty if and only if there is no such id |
| RendezvousTasks.DrainsWhenFaithful | crates/miru-signal/src/main.rs:236-464 | the registry drains whenever each connection keeps to one id |
| RendezvousTasks.FirstIdStays | crates/miru-signal/src/main.rs:236-464 | a run of one connection with two ids after which the first stays listed |
| RendezvousTasks.SuccessorUnlisted | crates/miru-signal/src/main.rs:236-464 | a run in which the first holder of an id leaves and a connected second one is no longer listed |
| RendezvousTasks.OverlapBound | crates/miru-signal/src/main.rs:353-456 | with at most n registrations under way at once, the registry exceeds its cap by at most n - 1 in every run; one after the other, never |
| RendezvousTasks.OverlapReachesBound | crates/miru-signal/src/main.rs:353-456 | from any state with room for one more, any number of overlapping registrations of new ids all get in |
| RendezvousTasks.LockHoldsIff | crates/miru-signal/src/main.rs:353-456 | while there is room and no connection that stands for the id leaves, a key lock is neither moved nor dropped in any continuation, if and only if no registration of the id with another key is under way |
| RendezvousTasks.RunKeepsEntries | crates/miru-signal/src/main.rs:286-456 | in every interleaving entries keep their size limits, and in strict mode every entry was verified |
| RendezvousTasks.TakeoverPossibleIff | crates/miru-signal/src/main.rs:353-456 | in every reachable state with room left, a locked id can be taken over without a valid signature if and only if signatures are not required |
| RendezvousTasks.VerifiedDeviceTakenOver | crates/miru-signal/src/main.rs:353-456 | a concrete run in which a verified device is replaced by another connection that has no valid signature |
| FileReceive.SanitizedNames | crates/miru-host/src/safe_fs.rs:159-168 | sanitized names are short, free of separators and control characters, never start with a dot, and stay the same when sanitized again |
| FileReceive.SanitizedIs | crates/miru-host/src/safe_fs.rs:159-168 | sanitizing keeps the characters that are no separator, colon or control character, in order, without leading dots and up to 255 |
| FileReceive.CandidateSpelled | crates/miru-host/src/session.rs:156-179 | the k-th candidate carries k in decimal before the last extension, or at the end |
| FileReceive.FirstFreeIndex | crates/miru-host/src/session.rs:156-179 | the dedup loop's choice is the first free candidate, and none exactly when 0 to 9998 are all taken |
| FileReceive.ChooseDestination | crates/miru-host/src/session.rs:156-179 | the loop and its counter check compute that choice |
| FileReceive.HashFileStreaming | crates/miru-host/src/session.rs:939-953 | hashing in pieces of any size hashes the whole file |
| FileReceive.WriteAtBytes | crates/miru-host/src/session.rs:131-137 | seek and write changes exactly the written range and fills a gap with zeros |
| FileReceive.RunKeepsInv | crates/miru-host/src/session.rs:59-205 | the invariant on transfers, temp files and saved files holds after every message sequence, whatever system calls fail |
| FileReceive.SavedFilesHash | crates/miru-host/src/session.rs:142-196 | every saved file hashes to its declared hash, is within the size limit, has a name that was free and never a temp name; earlier files are untouched |
| FileReceive.TempFilesAreLive | crates/miru-host/src/session.rs:65-205 | with deletions succeeding, the temp files are exactly those of the at most eight live transfers, none over its declared size |
| FileReceive.StartIff | crates/miru-host/src/session.rs:65-117 | a transfer begins, under the sanitized name and with an empty temp file, if and only if fewer than 8 are live, the size is within the limit, the hash is 64 hexadecimal digits, a character of the name survives and the temp file is new; else nothing happens |
| FileReceive.OrdinaryStart | crates/miru-host/src/session.rs:65-117 | a name of at most 255 clean characters without a leading dot is admitted as it is |
| FileReceive.ChunkWritesOrEnds | crates/miru-host/src/session.rs:117-141 | a chunk within the declared size is written; one past it, or one that fails, ends the transfer and its temp file |
| FileReceive.DoneSavesOrEnds | crates/miru-host/src/session.rs:142-196 | `Done` saves exactly if the file can be read, has the declared hash, finds a name and is renamed; else it ends the transfer |
| FileReceive.AbortEnds | crates/miru-host/src/session.rs:197-205 | `Abort` ends a live transfer and its temp file, and touches nothing else |
| FileReceive.NoLeaks | crates/miru-host/src/session.rs:65-205 | with deletions succeeding no temp file is ever left behind |
| FileReceive.DoneSavesIff | crates/miru-host/src/session.rs:142-196 | a transfer with the right hash is saved, under the first free name, if and only if one of the candidates 0 to 9998 is free |
| FileReceive.LastCandidateNeverUsed | crates/miru-host/src/session.rs:142-196 | for every name and content, a run in which a correct transfer is discarded while candidate 9999 is free |
| FileReceive.ReassemblyAnyOrder | crates/miru-host/src/session.rs:65-196 | chunks in any order, overlap or repetition, amid other traffic, that cover content with the declared hash lead to exactly that content being saved |
| FileReceive.OrdinaryFileArrives | crates/miru-host/src/session.rs:65-196 | from an ordinary `Start` with fewer than 8 transfers live, through chunks in any order amid other traffic, to the whole content under the first free name |
| FileReceive.Receiver.HandleFileTransfer | crates/miru-host/src/session.rs:59-205 | files, transfer table and history after one message are those of the specification |
| Audio.LayoutRoundTrip | crates/miru-audio/src/lib.rs:29-46 | layouts stand for 1, 2, 6 and 8 channels and map back; a frame is 960 samples a channel |
| Audio.StreamCounts | crates/miru-audio/src/lib.rs:59-88 | one codec stream for mono and stereo, three for 5.1 and four for 7.1 |
| Audio.CutsRejoin | crates/miru-audio/src/lib.rs:93-132 | cutting into frames loses nothing and keeps the order |
| Audio.PairIs | crates/miru-audio/src/lib.rs:112-132 | pair k holds channels 2k and 2k + 1, sample by sample |
| Audio.PrefixIs | crates/miru-audio/src/lib.rs:112-132 | in front of a packet stands its length, low byte first |
| Audio.CallsJoin | crates/miru-audio/src/lib.rs:93-132 | splitting the input across calls does not matter: some call fails if and only if one call on everything does, and otherwise frames, encoders and leftover are the same |
| Audio.EncodeFailsIff | crates/miru-audio/src/lib.rs:93-132 | a call fails if and only if some stream's encoder, fed that stream's packets alone, refuses one |
| Audio.DemuxUndoesMux | crates/miru-audio/src/lib.rs:112-204 | length-prefixed packets are taken apart into what each stream alone makes of its pair, and every decoder is left as it would be alone |
| Audio.ChunkGoesThrough | crates/miru-audio/src/lib.rs:93-219 | one frame decodes to what every stream alone makes of its part, and leaves encoders and decoders as they would be alone, for any stateful codec |
| Audio.DecodesPlain | crates/miru-audio/src/lib.rs:169-181 | mono and stereo give what the one decoder gives, or an error beyond 960 samples a channel |
| Audio.FramingIsTransparent | crates/miru-audio/src/lib.rs:93-219 | over any split of the input into calls, decoding all frames gives every 20 ms piece as the per-pair codec streams do when each runs alone over its own packets, in order and numbered from 1 |
| Audio.MuxRoundTrip | crates/miru-audio/src/lib.rs:93-219 | when the streams give their packets back unchanged, decoding gives back the longest whole-frame prefix of the input |
| Audio.AudioEncoder.Encode | crates/miru-audio/src/lib.rs:93-132 | encoder states, buffer, counter and emitted frames, or the codec's refusal with the samples of the refused frame gone, are those of the specification |
| Audio.AudioDecoder.SplitPairs | crates/miru-audio/src/lib.rs:183-204 | the cursor loop takes apart the packets, one decoder each, fails on an overlong one and stops on short data |
| Audio.AudioDecoder.WritePairs | crates/miru-audio/src/lib.rs:206-218 | in-place writes give the pairs in channel order over silence |
| Audio.AudioDecoder.Decode | crates/miru-audio/src/lib.rs:169-219 | samples and decoder states are those of the specification |
| FingerprintLog.ReopenChangesNothing | crates/miru-auth/src/fingerprint_log.rs:94-144 | a run with reopenings anywhere is the run without them, and reopening rebuilds counter, hash and pins |
| FingerprintLog.TrustOnFirstUse | crates/miru-auth/src/fingerprint_log.rs:149-232 | FirstSeen exactly at a device's first check, Match exactly on the first fingerprint, otherwise Mismatch naming it |
| FingerprintLog.OneEntryPerCheck | crates/miru-auth/src/fingerprint_log.rs:149-232 | one entry per check, numbered from 0 |
| FingerprintLog.EntriesRecordChecks | crates/miru-auth/src/fingerprint_log.rs:149-232 | the k-th entry holds the k-th check's label, device, fingerprint and time, and what came of it |
| FingerprintLog.LoadsIffChained | crates/miru-auth/src/fingerprint_log.rs:94-144 | a file loads if and only if no line is unreadable and its entries are numbered from 0 and chained by hash; what is loaded is their number, the last hash and each device's last Pin |
| FingerprintLog.RefusedFor | crates/miru-auth/src/fingerprint_log.rs:94-144 | which fault is reported for the first line that does not fit |
| FingerprintLog.LastEntryDeterminesAll | crates/miru-auth/src/fingerprint_log.rs:94-144 | two files that load with as many entries and the same last one hold the same entries |
| FingerprintLog.EditedRefused | crates/miru-auth/src/fingerprint_log.rs:94-144 | replacing any entry that another one follows makes a file be refused |
| FingerprintLog.PinLog.Open | crates/miru-auth/src/fingerprint_log.rs:94-144 | the replay loop accepts exactly the readable, chained files and loads their number, last hash and pins; the first fault otherwise |
| FingerprintLog.PinLog.CheckOrPin | crates/miru-auth/src/fingerprint_log.rs:149-232 | verdict, appended entry and new state |
| AuditLog.AppendVerifies | crates/miru-agent/src/audit.rs:121-164 | appending to a verified file of n entries gives one of n + 1 whose tip is the new hash, and the entry holds number, hash before, time, token, capability, redacted action, confirmation and outcome |
| AuditLog.GenesisIs | crates/miru-agent/src/audit.rs:71-117 | the first entry carries 64 zeros as the hash before it |
| AuditLog.VerifiedIffChained | crates/miru-agent/src/audit.rs:185-222 | a file verifies if and only if every line is readable and the entries form a chain |
| AuditLog.RefusedFor | crates/miru-agent/src/audit.rs:185-222 | which fault is reported for the first line that does not fit |
| AuditLog.TipDeterminesEntries | crates/miru-agent/src/audit.rs:185-222 | two files that verify with the same count and tip hold the same entries |
| AuditLog.EditIsVisible | crates/miru-agent/src/audit.rs:185-222 | replacing any entry breaks the chain, or changes the tip if it was the last |
| AuditLog.ReplayChain | crates/miru-agent/src/audit.rs:185-222 | the loop computes tip and count, or the first fault |
| AuditLog.ReadAllVerified | crates/miru-agent/src/audit.rs:235-266 | accepts the same files with the same fault, and returns their entries |
| AuditLog.Log.Open | crates/miru-agent/src/audit.rs:71-117 | opens exactly the files that verify, with their tip and count |
| AuditLog.Log.Append | crates/miru-agent/src/audit.rs:121-164 | the file grows by exactly the chained entry and memory holds its tip |
| AgentGate.RunKeeps | crates/miru-agent/src/session.rs:86-218 | the invariants on calls, trail and cache hold after every interleaving |
| AgentGate.OneEntryPerCall | crates/miru-agent/src/session.rs:86-181 | in any interleaving a returned call wrote exactly one entry, Ok if and only if allowed; none only when the write failed |
| AgentGate.AllowedHasConsent | crates/miru-agent/src/session.rs:86-181 | an allowed action is granted by a token found unlisted and unexpired when it was checked, and a clipboard read, file read, file write or shell command follows the user's consent to it, or to one of the same capability and scope that was cached before the hit and under 30 s before the time this call read |
| AgentGate.AnswerHasReason | crates/miru-agent/src/session.rs:86-181 | in any interleaving every refusal has its reason: the token was listed, without the capability or expired when it was checked; and whatever got further was none of these |
| AgentGate.RevokeStopsLaterCallsIff | crates/miru-agent/src/session.rs:86-103 | a call is refused as revoked if and only if it entered after `revoke` |
| AgentGate.InFlightSurvivesRevoke | crates/miru-agent/src/session.rs:86-181 | a concrete run in which a call past the flag check is allowed after `revoke` |
| AgentGate.PruneDropsExpiredPrefix | crates/miru-agent/src/session.rs:184-192 | on a sorted cache `retain` cuts off a prefix, the expired entries |
| AgentGate.CacheBounded | crates/miru-agent/src/session.rs:184-209 | at most 1000 entries, sorted by expiry, and always the latest grants |
| AgentGate.HitIff | crates/miru-agent/src/session.rs:184-209 | at the latest time the cache answers yes if and only if one of the last 1000 grants covers the request and has not expired; at an older time every yes has such a grant, and every grant that is valid at the latest time gets one |
| AgentGate.SoloCallDecides | crates/miru-agent/src/session.rs:86-181 | the steps of a call run alone decide, log and return what the sequential specification says |
| AgentGate.AllowedIff | crates/miru-agent/src/session.rs:86-192 | a call is allowed if and only if session and token are not revoked, the token grants the capability and has not expired, and for the four dangerous capabilities the user agrees or an unexpired entry covers it |
| AgentGate.AnswersInOrder | crates/miru-agent/src/session.rs:86-181 | which refusal is given, the first that applies, and when the user was asked |
| AgentGate.AskedCache | crates/miru-agent/src/session.rs:184-209 | what asking leaves in the cache: the unexpired entries, at most 1000, and for 30 s the new one unless its scope is over 4096 bytes |
| Capabilities.Levels | crates/miru-agent/src/token.rs:80-104 | the level of every capability, and which four need confirmation |
| AgentGate.AgentSession.IsAutoApproved | crates/miru-agent/src/session.rs:184-192 | an entry stays if and only if it has not expired; the answer is yes if and only if some entry of the old cache has the capability and scope and has not expired |
| AgentGate.AgentSession.AddAutoApprove | crates/miru-agent/src/session.rs:194-209 | skips oversized scopes, evicts the oldest at 1000, appends |
| AgentGate.AgentSession.Authorize | crates/miru-agent/src/session.rs:86-181 | allowed exactly under the conditions of `AllowedIff`; reply, cache and the one audit entry are those of the sequential specification |
| Stun.ParseXorMapped | crates/miru-transport/src/nat.rs:83-122 | terminates in bounds on every byte string with the specified answer |
| Stun.AnswerAt | crates/miru-transport/src/nat.rs:83-122 | an attribute of type 0x0020, family 1 and at least 8 bytes answers with its port and address, the magic cookie taken off; any other is skipped with its padding |
| Stun.NoAnswerAt | crates/miru-transport/src/nat.rs:83-122 | the search ends where no whole attribute is left |
| Stun.AnswerIsFirst | crates/miru-transport/src/nat.rs:83-122 | the answer is the first IPv4 mapped address among the buffer's attributes |
| Stun.FirstIff | crates/miru-transport/src/nat.rs:83-122 | not found if and only if no attribute holds one, else that of the first that does |
| Stun.FirstOfWritten | crates/miru-transport/src/nat.rs:83-122 | over any written list of padded attributes the parser reads that list, then goes on behind it |
| Stun.ParseFindsMapped | crates/miru-transport/src/nat.rs:83-122 | behind any header and any other attributes, an encoded address and port parse back, whatever follows (section 15.2 of RFC 5389) |
| Stun.ParsedInRange | crates/miru-transport/src/nat.rs:104-118 | what is parsed is a 32-bit address and a 16-bit port |
| Replay.OrderIsLatest | crates/miru-mcp/src/replay.rs:62-89 | the queue holds the nonces of the last 1000 accepted requests |
| Replay.FreshIff | crates/miru-mcp/src/replay.rs:62-89 | Fresh if and only if within 30 s and not among the last 1000 accepted nonces |
| Replay.AcceptancesApart | crates/miru-mcp/src/replay.rs:62-89 | between two acceptances of a nonce there are at least 1000 others |
| Replay.ReplayNeedsFlood | crates/miru-mcp/src/replay.rs:62-89 | a request repeated word for word is accepted again only within 60 s and after 1000 acceptances |
| Replay.ReplayGuard.Check | crates/miru-mcp/src/replay.rs:62-89 | the set mirrors the queue, which is bounded and free of duplicates; answer and queue are those of the specification |
| Bt601.ClampsNeverFire | crates/miru-codec/src/color.rs:9-19 | for byte inputs the arithmetic alone stays in the limited ranges |
| Bt601.RoundedSums | crates/miru-codec/src/color.rs:9-19 | each component is its weighted sum of red, green and blue over 256, rounded to the nearest integer |
| Bt601.GreyIsNeutral | crates/miru-codec/src/color.rs:9-19 | greys have chroma 128, black and white luma 16 and 235 |
| I420.RgbToI420 | crates/miru-codec/src/decoder.rs:83-129 | the three planes of any image, odd sizes included |
| I420.SamplesAt | crates/miru-codec/src/decoder.rs:83-129 | sample (col, row) of each plane is the conversion of that pixel or 2 x 2 block |
| I420.PixelBytes | crates/miru-host/src/capture_loop.rs:190-217 | the bytes of a pixel at row * stride + 4 * col, in the orders blue, green, red and red, green, blue |
| I420.AverageIs | crates/miru-host/src/capture_loop.rs:226-233 | the mean of four bytes, rounded down |
| I420.Packed32ToI420 | crates/miru-host/src/capture_loop.rs:197-245 | for every even frame and stride, all accesses are in bounds and the output is the three planes of the picture shown |
| I420.ChromaInBoundsIff | crates/miru-host/src/capture_loop.rs:220-242 | all chroma writes are in bounds if and only if the frame is even or empty |
| I420.ConvertersAgree | crates/miru-host/src/capture_loop.rs:197-245 | the two RGB converters give the same planes on the same picture |
| I420.PaddingNeverRead | crates/miru-host/src/capture_loop.rs:197-245 | frames that agree on their pixel bytes show the same picture |
| I420.Nv12ToI420 | crates/miru-host/src/capture_loop.rs:247-278 | strips the padding and separates the chroma bytes, for every size |
| I420.Nv12GivesBackPlanes | crates/miru-host/src/capture_loop.rs:247-278 | planes laid out as NV12 with any padding come back |

## Left out

- Real cryptography and serde encodings: ChaCha20-Poly1305, X25519, Ed25519, HKDF, SHA-256 and JSON are parameters; `derive_subkey` and `commitment` only add calls to them.
- Sockets, tokio scheduling, WebSocket, QUIC, TLS, mDNS and the transparency-log HTTP client: only the step structure remains. Relay forwarding of data frames is not modelled, only who may forward to whom.
- The refusals of the Connect arm before it issues a slot (overlong target, rate, unknown device): one-branch checks in front of `RelayTable.Issue`; the limiter they use is modelled.
- `max_relay_sessions` as a bound on the table: the code does not check it when it issues a slot.
- Interleavings within the first checks of a registration: rate, sizes, signature and lock are looked at in one step, the registry's size and the insertion in two more.
- Parsing of the base64 key field in Hello and HelloAck, and the pinning of the identity it names, which is the subject of `fingerprint_log.dfy`.
- Two clock reads in `Bucket::new`: one instant stands for both.
- Debug builds of the token bucket: the `u32` sum wraps as in a release build, where a debug build would panic.
- File appends as several system calls, fsync, permissions and poisoned locks: an append is one atomic step. In the agent gate's step system an append may also fail as a whole.
- Partial writes: after a failed chunk write the transfer is discarded; what a leaked temp file then holds is not modelled.
- Windows temp files: only the exclusive creation of the Unix branch is modelled. `resolve_safe_path` is one success flag.
- Unicode: names and scopes are strings whose length stands for the length in bytes where the code counts bytes.
- Bitrate, error-correction and packet-loss settings of the codec: they are part of the encoder state that the model leaves open. Samples are reals; a loss in the codec is covered by `Audio.FramingIsTransparent`.
- Stereo and mono decoding buffers: a packet that decodes to more than one frame is an error.
- Products in index arithmetic of the converters are written as repeated addition (`I420.Times`, equal to the product by `I420.TimesIsProduct`); the passes of a converter are methods of their own.
- `qos_bbr.rs`, screen capture, input, clipboard, sandbox, codecs and the user interface: floating point, foreign calls or operating-system effects.
- Key tables, codec negotiation, Wake-on-LAN, backoff, redaction and token parsing: lookups or one-branch facts.
