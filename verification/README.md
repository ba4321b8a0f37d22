# AXON RMW: a Dafny model of the transport and discovery core

AXON is a ROS 2 middleware. Processes on one host exchange samples through a
shared-memory ring, daemons replicate a graph of nodes to each other, remote
samples travel over QUIC, and an optional mode protects messages with keys from
a quantum key distribution (QKD) network. This project models the parts of that
core where state, concurrency or byte layout make mistakes easy, and proves what
they keep over every input, every interleaving or every run.

Code that works step by step is modelled by classes and methods whose loops are
proved against specification functions; code shared between threads, processes
or hosts is modelled as a state machine whose steps interleave freely. The
theorems are about the specification functions and the state machines.

| file | contents |
|---|---|
| `Bytes.dfy`, `Unicode.dfy`, `Wrappers.dfy`, `RingErrors.dfy` | integers on the wire, UTF-8, shared small types |
| `SeqlockRing.dfy`, `RingReads.dfy` | the shared-memory ring, access by access, any number of writers and readers; when reads succeed and why they fail |
| `ByteRing.dfy` | the same ring call by call over its byte array |
| `Codec.dfy`, `SyncCodec.dfy`, `SyncWire.dfy`, `WireLayout.dfy` | lawful codecs, the graph sync messages, the loops that write and read them, and where each byte goes |
| `NodeTable.dfy`, `PeerMerge.dfy`, `MergeMatches.dfy`, `GraphSync.dfy` | the node table, merging a peer's snapshot, what becomes of matches, pushing a graph end to end |
| `Qos.dfy`, `Matching.dfy`, `MatchOrigins.dfy`, `Discovery.dfy` | QoS compatibility, match maintenance, where matches come from and how they are signalled, the table updated in place |
| `Provenance.dfy`, `SyncRounds.dfy`, `LocalSteps.dfy` | any network of daemons exchanging graphs as bytes |
| `MessageKeyCache.dfy`, `MessageKeyRuns.dfy`, `MessageKeyAnswers.dfy`, `MessageKeyStore.dfy`, `ClaimRace.dfy`, `ClaimRaceCalls.dfy` | the message-key cache: as atomic calls, over runs, in place, as interleaved scans, and how the two levels fit |
| `SessionStore.dfy`, `SessionKeyStore.dfy`, `Handshake.dfy`, `HandshakeAgreement.dfy`, `HandshakeProgress.dfy`, `KeyMessages.dfy` | QKD sessions, their setup between any number of daemons, when the two sides agree and that they get there, and the datagrams |
| `KeyRotation.dfy`, `SealCache.dfy` | outgoing keys and sealed publications |
| `SendPipeline.dfy`, `SubscriberQueue.dfy`, `TokenBucket.dfy` | ordered sending, the fan-out queue, the rate limiter |
| `EndpointInfo.dfy` | endpoint records across the C boundary |

Results that go against expectation are stated as such, with the condition under
which the expectation holds next to them:

- Two writers in one ring slot let a reader accept bytes of the wrong sample, on
  every ring (`LappedWriterBreaksReads`); with one writer in flight per slot every
  read is exact (`ReadsAreExact`).
- A read of the first sample can report it overwritten although nothing replaced it,
  on every ring (`FirstReadMayFail`): the sequence word of a zeroed slot is that of
  sample 0. Every other refusal has the reason its error names (`RefusedForReason`), and
  a sample whose write was complete when the read began is returned (`FinishedIsRead`).
- Clearing a message-key entry leaves no trace in the probe chain, so a pair that
  hashes like an abandoned one can be claimed twice and an older key handed out
  (`AbandonAllowsSecondClaim`, `AbandonAllowsStaleKey`). Over all runs of atomic
  calls this happens if and only if a claim meets an entry of its pair behind a gap
  (`ClaimKeepsOneIff`, `RunSoundIff`); otherwise the key handed out is the one last
  published (`FoundIsLast`).
- Evicting from a full table lets two processes claim one pair
  (`EvictionAllowsSecondClaim`). In every interleaving of single accesses the cache
  stays sound if and only if no process is told to fetch a pair that another slot
  holds (`RaceSoundIff`); without clears a pair is taken twice if and only if a
  process evicts for a pair taken before (`ClaimedOnceIff`), and then its entry had
  been evicted or the process had scanned past it (`SecondClaimNeedsEviction`).
- A QKD session removed while its announcement is under way can leave the two
  daemons active under different keys (`RemovalBreaksAgreement`). In every run both
  sides agree if and only if no step drops, resets or pushes out a session the peer
  counts on, activates a key the peer no longer holds, or takes over a key that is
  no longer the initiator's (`AgreementIff`); runs without removal, reset and
  eviction have no such step (`BothSidesAgree`).
- The daemon's QoS check on table entries and the check on profiles differ on
  zero and on very long durations and on unknown liveliness; the conditions are
  exact (`DeadlineAgreesIff`, `LifespanAgreesIff`, `LivelinessAgreesIff`). Profiles
  stored in the table come back unless a duration is zero or too long, a depth is zero
  or too large, or the liveliness is unknown (`ProfileRoundTripIff`).
- Endpoint records lose zero durations, unknown liveliness, depths from 2^31 on
  (except those that sign extension restores) and strings with a zero byte, and
  nothing else (`RecordReadsIff`).

## Model

| member | source | states |
|---|---|---|
| `SeqlockRing.RunInv` | axon_core/src/local.rs:502-618 | in every interleaving of slot and header accesses with one writer in flight per slot, copies stay in bounds and each slot is as zeroed, in the middle of one known write, or holds exactly the payload logged under its sequence word |
| `SeqlockRing.LoggedWasWritten` | axon_core/src/local.rs:502-520 | each sequence number stands for the payload of the one write call that reserved it, at an earlier step |
| `SeqlockRing.ReadsAreExact` | axon_core/src/local.rs:555-618 | a read of `s` that returns data returns the bytes an earlier write call stored as `s`: never torn, stale, from a later lap, or the zeroed slot; when it returns data is stated by the next rows |
| `RingReads.FinishedIsRead` | axon_core/src/local.rs:583-618 | in every interleaving with one writer in flight per slot: a read begun when write `s` is complete, and during which nothing begins to replace it, returns its payload if that fits the buffer and at most n writes, counted from `s`, were begun; otherwise it fails for one of these two reasons |
| `RingReads.RefusedForReason` | axon_core/src/local.rs:583-618 | in every such interleaving a refused read was refused at one of its own accesses, in a state where the sample was not written yet, was in the middle of its write, was overwritten or being overwritten, or did not fit, as the error says |
| `RingReads.FirstReadMayFail` | axon_core/src/local.rs:583-618 | on every ring and for every first payload a reader of sample 0 can be told it was overwritten although it is the only sample: the exception in the reasons is needed |
| `RingReads.WriteAlone` | axon_core/src/local.rs:502-548 | from every reachable state with no write in flight a write call finishes, its sample is complete under the next number, and the read index moves exactly when it is a ring behind |
| `RingReads.ReadAlone` | axon_core/src/local.rs:555-618 | a read call left to itself returns every complete sample among the last n that fits, and moves the read index past it exactly when it consumes and is not behind |
| `RingReads.WriteThenRead` | axon_core/src/local.rs:502-618 | from every reachable state with no write in flight, a payload written and read back comes back as written |
| `RingReads.RestingReadIsCall` | axon_core/src/local.rs:555-618 | from every such state a read call left to itself gives, for every number and every buffer, value or error, what the ring taken call by call over its byte array gives |
| `SeqlockRing.LappedWriterBreaksReads` | axon_core/src/local.rs:69-70 | on a ring of any n slots and any capacity, for any two different bytes, a run in bounds with two writers in one slot after which a reader of sample n accepts the byte of sample 0 although another was published as n: the single-producer rule is needed |
| `ByteRing.StrideForPayload` | axon_core/src/local.rs:55-61 | the stride is the least multiple of eight that holds header and payload, refused exactly when it exceeds 32 bits |
| `ByteRing.ChooseSlotCount` | axon_core/src/local.rs:115-174 | the slot count is the first halving of the clamped request that is not refused for lack of space; creation fails exactly when that one is refused for another reason or a single slot has no space |
| `ByteRing.ClampedIsLargest` | axon_core/src/local.rs:115-143 | the request is clamped to the largest number of slots within the request, 4096, the byte limit and the space available, or to one |
| `ByteRing.SlotsDisjoint` | axon_core/src/local.rs:55-65 | different slots share no byte and all lie inside the data area |
| `ByteRing.RetainsAppend` | axon_core/src/local.rs:502-548 | filling one slot turns an array retaining the last n log entries into one retaining the last n of the longer log |
| `ByteRing.Ring.constructor` | axon_core/src/local.rs:176-215 | a fresh ring holds the empty log |
| `ByteRing.Ring.Write` | axon_core/src/local.rs:502-548 | a payload that fits is appended to the log under the sequence returned; one that does not changes nothing; the watermark moves exactly when the reader is a ring behind |
| `ByteRing.Ring.ReadSlot` | axon_core/src/local.rs:583-618 | reading the byte array gives, error by error, what reading a log cut to its last n entries gives |
| `ByteRing.Ring.Read` | axon_core/src/local.rs:555-569 | the same, and success moves the watermark past the sample; a sample of the current generation was written after the mark |
| `ByteRing.Ring.SlotDataSize` | axon_core/src/local.rs:624-647 | the size reported is that of the log entry, with the errors of a read |
| `ByteRing.Ring.DataAvailableFrom` | axon_core/src/local.rs:699-721 | true exactly when the cursor is retained, or was overrun while something is unread |
| `ByteRing.Ring.MarkGeneration` | axon_core/src/local.rs:679-689 | the generation starts at the present end of the log |
| `ByteRing.Ring.SkipAllPending` | axon_core/src/local.rs:966-974 | everything written so far counts as read |
| `SyncCodec.ResponseRoundTripIff` | axon_core/src/daemon/peer_sync.rs:308-519 | decoding an encoded response gives it back if and only if every string is shorter than 65536 bytes of UTF-8, every list shorter than 2^32 and no node has more than eight addresses |
| `SyncCodec.ResponsePrefixRejected` | axon_core/src/daemon/peer_sync.rs:390-519 | no proper prefix of a response decodes |
| `SyncCodec.DecodedResponseFits` | axon_core/src/daemon/peer_sync.rs:390-519 | whatever bytes decode, the nodes obtained could have been sent |
| `SyncCodec.PushRoundTrip` | axon_core/src/daemon/peer_sync.rs:254-306 | a push decodes to its domain, daemon id and nodes |
| `WireLayout.ResponseLayout` | axon_core/src/daemon/peer_sync.rs:308-313 | a response is tag 2, the domain and the node count at fixed places, every byte as the base-256 digit it is, then the nodes |
| `WireLayout.PushLayout` | axon_core/src/daemon/peer_sync.rs:254-270 | a push is tag 1, the domain and the daemon id, then a whole response; its first five bytes are the plain request |
| `WireLayout.HeadLayout` | axon_core/src/daemon/peer_sync.rs:325-337 | the hashes and QoS of a topic stand at their places in 48 bytes, little end first |
| `WireLayout.EndpointLayout` | axon_core/src/daemon/peer_sync.rs:380-385 | port, address count and four bytes an address stand at their places |
| `WireLayout.StringLayout` | axon_core/src/daemon/peer_sync.rs:338-349 | a string is its length in two bytes, little end first, and its bytes |
| `Unicode.Utf8Iff` | axon_core/src/daemon/peer_sync.rs:391-405 | the bytes accepted as a string are exactly the encodings of sequences of Unicode scalar values, as section 3 of RFC 3629 defines them |
| `SyncWire.EncodeSyncResponse` | axon_core/src/daemon/peer_sync.rs:308-388 | the encoding loops produce the bytes of the codec |
| `SyncWire.DecodeSyncResponse` | axon_core/src/daemon/peer_sync.rs:390-519 | the decoding loops give, on every input, the value or the error of the codec |
| `SyncWire.ReadTopic` | axon_core/src/daemon/peer_sync.rs:407-450 | one topic is read as the codec reads it, at any offset of any buffer |
| `SyncWire.ReadString` | axon_core/src/daemon/peer_sync.rs:391-405 | a string is read if and only if the bytes at the offset are the encoding of one shorter than 65536 bytes of UTF-8; it is then that string and the offset moves past it; otherwise the three errors are those of the codec |
| `SyncWire.DecodeSyncRequestPush` | axon_core/src/daemon/peer_sync.rs:294-306 | the push decoder gives, through the loops above, the value or the error of the codec on every input |
| `NodeTable.RetainInPlace` | axon_core/src/daemon/peer_sync.rs:619-649 | index-by-index compaction keeps exactly the accepted matches in order, zeroes the freed slots and bumps the generation when something went |
| `NodeTable.RetainIs` | axon_core/src/daemon/peer_sync.rs:619-649 | compaction keeps the accepted matches in order, zeroes exactly the places freed, leaves the rest of the array and every other field, and adds one to the response generation exactly when a match goes |
| `NodeTable.ForgetAllLive` | axon_core/src/daemon/peer_sync.rs:619-649 | forgetting a list of nodes drops exactly their matches, moves the response generation exactly when that drops one, and leaves an entry without any of them untouched |
| `PeerMerge.MergeIsSnapshot` | axon_core/src/daemon/peer_sync.rs:651-754 | after a merge ids stay unique and those held under the origin are among the pushed ones, and are exactly those if and only if there is room |
| `PeerMerge.PlacedIffRoom` | axon_core/src/daemon/peer_sync.rs:690-754 | the placing loop finds a slot for every node if and only if the empty slots suffice for the ids not yet held |
| `PeerMerge.MergeCarries` | axon_core/src/daemon/peer_sync.rs:690-754 | with room, every pushed node is carried by an active entry under the origin with its addresses, topics and names |
| `PeerMerge.MergeSparesOthers` | axon_core/src/daemon/peer_sync.rs:586-754 | every other entry changes only by losing its matches on nodes dropped or pushed with different endpoints |
| `MergeMatches.MergeKeepsMatches` | axon_core/src/daemon/peer_sync.rs:651-754 | after a merge every active entry that is not dropped, pushed ones included, has exactly its old matches, in order, less those on nodes dropped or pushed with different endpoints, and its response generation moves exactly when that loses one |
| `MergeMatches.NewHasNone` | axon_core/src/daemon/peer_sync.rs:690-754 | an empty slot taken for a pushed node starts without matches |
| `PeerMerge.DroppedIdsExact` | axon_core/src/daemon/peer_sync.rs:662-683 | the ids whose matches are removed first are exactly the non-zero ids of the entries dropped |
| `PeerMerge.ChangedIdsExact` | axon_core/src/daemon/peer_sync.rs:552-584 | the ids whose matches are removed later are exactly those pushed with different endpoints than held |
| `PeerMerge.MergeTwice` | axon_core/src/daemon/peer_sync.rs:651-754 | repeating a merge changes nothing but the time stamps under the origin |
| `GraphSync.NameSurvivesIff` | axon_core/src/daemon/peer_sync.rs:521-526 | a name keeps its text across export and import if and only if it is NUL-terminated UTF-8 |
| `GraphSync.CollectSound` | axon_core/src/daemon/peer_sync.rs:218-250 | every collected node comes from an active entry of the domain with origin 0 whose process, if it has one, is alive |
| `GraphSync.CollectComplete` | axon_core/src/daemon/peer_sync.rs:218-250 | every such entry is collected |
| `GraphSync.CollectJoins` | axon_core/src/daemon/peer_sync.rs:218-250 | entries are collected one by one in table order |
| `GraphSync.CollectFits` | axon_core/src/daemon/peer_sync.rs:67-250 | whatever the table holds, what is collected can be encoded without loss |
| `GraphSync.PushHandled` | axon_core/src/daemon/peer_sync.rs:767-785 | handling an encoded push merges exactly the nodes sent and answers with the local ones |
| `GraphSync.RequestHandled` | axon_core/src/daemon/peer_sync.rs:767-785 | a plain request is answered with the local nodes and merges nothing |
| `GraphSync.RefusedChangesNothing` | axon_core/src/daemon/peer_sync.rs:756-785 | a payload is refused if and only if it is neither empty, nor a ping, nor a request whose push decodes; a refused one, a ping and an empty one change nothing, and a ping is answered by a pong |
| `GraphSync.PushedGraphArrives` | axon_core/src/daemon/peer_sync.rs:67-785 | end to end through the bytes: the ids B holds under A become those of A's local active nodes, each shown by B with the same addresses, topics, QoS and names |
| `Qos.DeadlineAgreesIff` | axon_core/src/daemon/discovery_shm.rs:434-464 | the nanosecond check on entries and the check on profiles agree on deadlines if and only if no zero deadline meets a positive one and clamped ones keep their order |
| `Qos.LifespanAgreesIff` | axon_core/src/daemon/discovery_shm.rs:434-464 | the same for lifespans |
| `Qos.LivelinessAgreesIff` | axon_core/src/qos.rs:155-189 | the two agree on liveliness unless an unknown publisher meets a manual-by-topic subscriber |
| `Qos.ChecksAgree` | axon_core/src/session/routing.rs:447-481 | on known liveliness and storable durations both checks decide alike for all profiles |
| `Qos.OffersWhatIsRequested` | axon_core/src/qos.rs:155-189 | profiles of known liveliness are compatible if and only if the publisher offers at least what the subscriber requests: reliability, durability and liveliness no weaker, deadline no longer, lifespan no shorter |
| `Qos.EntryOffersWhatIsRequested` | axon_core/src/daemon/discovery_shm.rs:434-464 | the same for table entries, on the codes a table holds |
| `Qos.ProfileRoundTripIff` | axon_core/src/session/routing.rs:447-537 | a profile stored in the table comes back as it was if and only if its durations are absent or positive with seconds in 32 bits, its depth positive and below 2^31, and its liveliness known |
| `Matching.MatchesAreLive` | axon_core/src/bin/axon_daemon.rs:682-724 | after an update every match in an active entry names an active node |
| `Matching.AllPairsAreRecorded` | axon_core/src/bin/axon_daemon.rs:567-681 | if each active entry knows all its matches already, or has room for the addresses it is missing and one more node's, every compatible pair of a domain is recorded on both sides for each address |
| `Matching.ProcessTwice` | axon_core/src/bin/axon_daemon.rs:567-724 | a second update then changes nothing, response generations included |
| `Matching.ProcessCore` | axon_core/src/bin/axon_daemon.rs:567-724 | an update changes nothing but matches, match counts and response generations |
| `MatchOrigins.GenerationIff` | axon_core/src/bin/axon_daemon.rs:567-724 | an update never moves a response generation back, and moves it on if and only if it added a match to the entry or dropped one from it |
| `MatchOrigins.NewMatchesAreSignalled` | axon_core/src/bin/axon_daemon.rs:567-724 | so a node whose matches changed sees a larger generation |
| `MatchOrigins.MatchPairTracks` | axon_core/src/bin/axon_daemon.rs:567-681 | one pair adds one to the generation exactly of the entries it adds a match to |
| `MatchOrigins.AddedIsFounded` | axon_core/src/bin/axon_daemon.rs:567-681 | every match an update adds carries the id, port, one of the addresses and the topic hash of an active node of the same domain with which the entry has a compatible publication and subscription |
| `MatchOrigins.DroppedIsDead` | axon_core/src/bin/axon_daemon.rs:682-724 | an update drops only matches on nodes that are not active |
| `Discovery.ShmDiscovery.ClaimFreeSlot` | axon_core/src/daemon/discovery_shm.rs:332-348 | the first empty slot is claimed, or none if there is none, and nothing else changes |
| `Discovery.ShmDiscovery.RemoveMatchesForNode` | axon_core/src/daemon/peer_sync.rs:619-649 | in place, every active entry forgets the node |
| `Discovery.ShmDiscovery.MergeRemoteNodes` | axon_core/src/daemon/peer_sync.rs:651-754 | the passes over the table compute the merge the theorems are about |
| `Discovery.ShmDiscovery.ProcessTopicUpdates` | axon_core/src/bin/axon_daemon.rs:567-724 | the nested loops over the table compute the update the theorems are about; its response generations are those of `MatchOrigins.GenerationIff` |
| `Discovery.ShmDiscovery.CollectDomainNodes` | axon_core/src/daemon/peer_sync.rs:218-250 | the export loop collects what the theorems are about |
| `Discovery.ShmDiscovery.HandleSyncPayload` | axon_core/src/daemon/peer_sync.rs:767-785 | on every input, table and reply are those of the specification, and the table generation moves by one exactly when a push is merged |
| `Provenance.RemoteWasLocal` | axon_core/src/bin/axon_daemon.rs:1735-1945 | over any network, with messages late, repeated or lost: an entry held under origin o shows, field by field, a node that a daemon with id o held as its own local active node at the same or an earlier step |
| `Provenance.AbsorbOk` | axon_core/src/bin/axon_daemon.rs:1758-1925 | merging a reply keeps that every remote entry shows a node given out under its origin |
| `Provenance.MergeOk` | axon_core/src/daemon/peer_sync.rs:651-754 | merging a push keeps it too |
| `SyncRounds.RoundCompletes` | axon_core/src/bin/axon_daemon.rs:1735-1945 | from every reachable state of any network, one round between any two daemons leaves the server with the asker's local nodes merged from its push, the asker with the server's merged from the reply, and everyone else as they were |
| `SyncRounds.ServeMerges` | axon_core/src/daemon/peer_sync.rs:767-785 | serving a request merges exactly the nodes the asker had when it asked, however late, and answers with the server's own |
| `SyncRounds.LearnMerges` | axon_core/src/bin/axon_daemon.rs:1754-1944 | learning a reply merges exactly the nodes in it |
| `SyncRounds.AskSends` | axon_core/src/bin/axon_daemon.rs:1735-1753 | asking sends the daemon's own nodes |
| `SyncRounds.AbsorbShows` | axon_core/src/bin/axon_daemon.rs:1760-1944 | every node of a reply is shown under its daemon afterwards, field by field, unless the table is full |
| `SyncRounds.AbsorbLists` | axon_core/src/bin/axon_daemon.rs:1760-1944 | and what is held under that daemon afterwards is in the reply |
| `SyncRounds.AbsorbSpares` | axon_core/src/bin/axon_daemon.rs:1760-1944 | every other entry loses at most matches on nodes of the reply or no longer in it |
| `LocalSteps.MatchingIsLocal` | axon_core/src/bin/axon_daemon.rs:567-724 | matching neither creates remote entries nor alters what they show |
| `MessageKeyCache.ClaimOfMissing` | axon_core/src/qkd.rs:975-1082 | a pair without entry goes into the first empty slot of its chain, else over the oldest ready entry, and fails only when all entries are pending |
| `MessageKeyRuns.ClaimKeepsOneIff` | axon_core/src/qkd.rs:965-1082 | in any state with one entry a pair, dead claimants included, a claim leaves one entry a pair if and only if no entry of its pair lies behind an empty or half-written slot of its chain |
| `MessageKeyRuns.RunSoundIff` | axon_core/src/qkd.rs:961-1179 | over every run of claims with any processes alive, publications, abandoned claims, resets and crashes while writing: all states have one entry a pair and ready entries hold the key last published, if and only if no claim met such a hidden entry |
| `MessageKeyRuns.FoundIsLast` | axon_core/src/qkd.rs:1015-1045 | in such a run a key handed out is the one last published for its pair |
| `MessageKeyRuns.HeldUntilLost` | axon_core/src/qkd.rs:961-1179 | in every run a pair that has an entry and later has none lost it at a step in between, to an eviction as the oldest of a table without empty slots, its own abandonment, a reset or a crash |
| `MessageKeyRuns.ClaimedAgain` | axon_core/src/qkd.rs:961-1179 | in every run, between two callers told to fetch one pair's key the pair lost its entry, or the second met it hidden or deserted by its claimant |
| `MessageKeyRuns.ClaimAnswers` | axon_core/src/qkd.rs:961-1082 | in a run of claims and publications by live processes no entry is ever hidden, and a caller is told to fetch if and only if the pair has no entry and some slot is not pending; otherwise it waits, gets the key last published for the pair, or learns that nothing is available |
| `MessageKeyRuns.OneClaimUntilEviction` | axon_core/src/qkd.rs:1035-1062 | and between two callers told to fetch one pair's key another pair's claim evicted its ready entry, the oldest of a table without empty slots |
| `MessageKeyAnswers.AnswerIs` | axon_core/src/qkd.rs:965-1082 | in every state with one entry a pair, dead claimants included: a caller is told to fetch if and only if the pair has no entry and some slot is not pending, or its entry is hidden or deserted; nothing is available if and only if it has none and all are pending; otherwise it gets the key its entry holds, or waits for it |
| `MessageKeyAnswers.ClaimTouches` | axon_core/src/qkd.rs:965-1082 | a claim changes only entries dead processes left, and one more if and only if it is told to fetch, which then is the pair's pending entry under the next generation; a refused name changes nothing |
| `MessageKeyAnswers.ClaimAfterReset` | axon_core/src/qkd.rs:1174-1179 | a reset clears every entry and moves the generation on, and the next claim of any pair is told to fetch |
| `MessageKeyAnswers.FoundSinceReset` | axon_core/src/qkd.rs:961-1179 | in every run of calls a key handed out was published for its pair after the last reset |
| `MessageKeyRuns.AbandonAllowsSecondClaim` | axon_core/src/qkd.rs:1097-1112 | for every hash, every table of two slots or more and any two pairs that hash alike: after the first one's claim is abandoned the second, which has its entry, is claimed again |
| `MessageKeyRuns.AbandonAllowsStaleKey` | axon_core/src/qkd.rs:1084-1112 | and after two publications a claim hands out the key of the first slot of the chain, the older one unless the chain wraps around in between |
| `MessageKeyStore.KeyStore.ClaimMessageKey` | axon_core/src/qkd.rs:965-1082 | the scan loops, recoveries and rescans compute the claim of the specification, in place |
| `MessageKeyStore.KeyStore.PublishMessageKey` | axon_core/src/qkd.rs:1084-1095 | the first pending entry of the pair becomes ready with the key and no other entry changes; the call reports the claim lost if and only if there is none |
| `MessageKeyStore.KeyStore.AbandonMessageKey` | axon_core/src/qkd.rs:1097-1112 | the first pending entry of the pair is cleared and no other entry changes |
| `MessageKeyStore.KeyStore.ClearAll` | axon_core/src/qkd.rs:1174-1179 | every entry is cleared and the generation moves on |
| `ClaimRace.FoundWasPublished` | axon_core/src/qkd.rs:965-1179 | in every interleaving, with evictions, abandoned and deserted claims, recoveries and resets, a key handed out for a pair was published for that very pair |
| `ClaimRace.RaceSoundIff` | axon_core/src/qkd.rs:965-1179 | in every such interleaving all states have one entry a pair and ready entries hold the key last published, if and only if no process was told to fetch a pair that another slot held |
| `ClaimRace.FoundIsLast` | axon_core/src/qkd.rs:1015-1045 | and then each key is the one last published for its pair when it is handed out |
| `ClaimRace.ClaimedAtMostOnce` | axon_core/src/qkd.rs:975-1082 | in every interleaving without evictions and clears, any number of processes scanning step by step, a pair is claimed at most once |
| `ClaimRace.AnswersAgree` | axon_core/src/qkd.rs:1015-1045 | and everyone who is handed a pair's key is handed the same one |
| `ClaimRace.SecondClaimNeedsEviction` | axon_core/src/qkd.rs:975-1082 | in every interleaving without clears, a process that takes a slot for a pair another slot was taken for earlier had already scanned past that slot, or the slot was evicted in between |
| `ClaimRace.ClaimedOnceIff` | axon_core/src/qkd.rs:975-1082 | in every interleaving without clears, no pair is taken twice if and only if no process evicts for a pair taken before, and then a pair is claimed at most once |
| `ClaimRace.EvictionAllowsSecondClaim` | axon_core/src/qkd.rs:1050-1068 | from every state whose table is full of other pairs' ready entries, two processes can both claim one pair, the second after the first has published |
| `ClaimRaceCalls.AloneIsClaim` | axon_core/src/qkd.rs:965-1082 | from every state in which no live process is installing an entry, a claim whose accesses run without interference ends with the table, answer and generation of the atomic call, whatever dead processes left behind |
| `ClaimRaceCalls.FoundSinceReset` | axon_core/src/qkd.rs:961-1179 | in every interleaving of accesses a key handed out was published for its pair after the last reset |
| `ClaimRaceCalls.ResetClears` | axon_core/src/qkd.rs:1174-1179 | a reset clears every entry, moves the generation on and leaves scanning processes where they are |
| `SessionStore.PutIsUpdate` | axon_core/src/qkd.rs:847-897 | storing replaces the daemon's session and no other, except that a full table loses slot 0 |
| `SessionStore.RemoveIsErasure` | axon_core/src/qkd.rs:927-947 | removing erases that daemon's session only |
| `SessionStore.ActivationIsExact` | axon_core/src/qkd.rs:899-925 | activating by key id touches only a session under that id, and reports none if and only if no session uses it |
| `SessionStore.PrepareIs` | axon_core/src/qkd.rs:1426-1443 | an announcement is due if and only if the table then has a session with the daemon under that identity, and names that session's key; a session already there is kept, and a new one is waiting with the key fetched |
| `SessionStore.AcceptIs` | axon_core/src/qkd.rs:1463-1484 | an announcement is acknowledged if and only if the table then has an active session with the daemon under that identity and key id, with the key fetched if it is new; a refused one changes nothing |
| `SessionKeyStore.SessionTable.PutSession` | axon_core/src/qkd.rs:847-897 | own slot, else a free one, else slot 0; refused identifiers change nothing |
| `SessionKeyStore.SessionTable.ActivateSession` | axon_core/src/qkd.rs:899-925 | the first session with that daemon and key id becomes active, and the generation moves on if anything changed |
| `SessionKeyStore.SessionTable.RemoveSession` | axon_core/src/qkd.rs:927-947 | all sessions with that daemon are cleared, no other is touched, and the generation moves on if anything changed |
| `SessionKeyStore.SessionTable.PrepareOutbound` | axon_core/src/qkd.rs:1426-1443 | an existing session is kept, otherwise a fetched key is stored as waiting |
| `SessionKeyStore.SessionTable.ActivateOutboundByKeyId` | axon_core/src/qkd.rs:1450-1457 | computes the activation the theorems are about |
| `SessionKeyStore.SessionTable.AcceptInbound` | axon_core/src/qkd.rs:1463-1484 | a repeated announcement is accepted again, a new one stores the fetched key as active |
| `Handshake.RunInv` | axon_core/src/bin/axon_daemon.rs:1543-1717 | over every run of any number of daemons with loss, duplication, reordering and misrouting: each session holds the key behind its id, issued between exactly these two daemons, and active means accepted by the responder |
| `Handshake.ActiveWasAccepted` | axon_core/src/bin/axon_daemon.rs:1585-1600 | an initiator's active key was accepted at an earlier step by the peer, which then held an active session with it under the same bytes |
| `Handshake.LateAckIsHarmless` | axon_core/src/qkd.rs:1450-1457 | in every run an acknowledgement leaves each session under another key as it was |
| `Handshake.BothSidesAgree` | axon_core/src/qkd.rs:1426-1484 | without removal, reset or eviction both sides hold the same key id and bytes once the initiator is active, and whatever a responder holds its initiator holds too |
| `Handshake.RoomForAll` | axon_core/src/qkd.rs:847-871 | no eviction happens while the table has a slot for every other daemon |
| `HandshakeAgreement.AgreementIff` | axon_core/src/qkd.rs:847-1484 | over every run of any number of daemons, with loss, duplication, reordering, misrouting, removal, reset and eviction: all pairs agree in all states if and only if no step drops, resets or pushes out a session the peer counts on, activates a key the peer no longer holds, or takes over a key that is no longer the initiator's |
| `HandshakeAgreement.AgreeingSides` | axon_core/src/qkd.rs:1426-1484 | agreeing means that an active initiator has an active responder under the same key id and bytes, and whatever a responder holds its initiator holds |
| `HandshakeProgress.HandshakeCompletes` | axon_core/src/bin/axon_daemon.rs:1543-1717 | from every reachable state in which the lower daemon has no active session with the higher one, whatever else the tables hold: greeting, announcement and acknowledgement leave both sides active under the same key id and key bytes |
| `Handshake.RemovalBreaksAgreement` | axon_core/src/bin/axon_daemon.rs:1996-2007 | from every reachable state without sessions, a run with one removal after which both sides are active under different keys |
| `KeyMessages.AnnouncementExact` | axon_core/src/qkd.rs:1510-1549 | an announcement is decoded if and only if the bytes are its canonical ones: round trip, no truncation, no extension, no second encoding |
| `KeyMessages.AckExact` | axon_core/src/qkd.rs:1551-1571 | the same for acknowledgements |
| `KeyMessages.AnnouncementRoundTrip` | axon_core/src/qkd.rs:1510-1549 | every announcement a daemon may send arrives as sent |
| `KeyMessages.AckRoundTrip` | axon_core/src/qkd.rs:1551-1571 | and so does every acknowledgement |
| `KeyMessages.SendableIff` | axon_core/src/qkd.rs:313-324 | announcements and acknowledgements can be sent if and only if their identifiers are non-empty, below the limits and free of control bytes; envelopes if and only if theirs have one to 192 bytes |
| `KeyMessages.EnvelopeRoundTrip` | axon_core/src/security.rs:164-378 | an encoded envelope opens under its own kind and topic to the same nonce, sender, key id and payload, and under no other |
| `KeyMessages.EnvelopeExact` | axon_core/src/security.rs:164-378 | bytes open under a kind and topic to an envelope if and only if they are its canonical bytes for that kind and topic, the three reserved bytes aside, with identifiers of one to 192 bytes of UTF-8 and at least 52 bytes in all |
| `KeyRotation.RotationOverRuns` | axon_core/src/security.rs:132-153 | over every sequence of calls for any peers, failed fetches included: after n messages to a peer exactly ceil(n/10) keys were fetched for it and message i used key i/10 |
| `KeyRotation.FetchIff` | axon_core/src/security.rs:136-144 | a key is asked for if and only if the number of messages to the peer so far is a multiple of ten |
| `KeyRotation.OutboundKeys.EncryptionKey` | axon_core/src/security.rs:132-153 | a key is fetched if and only if the peer has none or has used it ten times; the call fails if and only if that fetch does, and then changes nothing; the key given is the one cached with its uses counted, and no other peer is touched |
| `SealCache.RunInv` | axon_core/src/security.rs:233-281 | in every interleaving of callers: order is free of duplicates and equal to the map's keys, at most 256 publications are cached, every envelope handed out is the one sealed for its cell, and sealing happened once for each filled cell |
| `SealCache.CachedIsReused` | axon_core/src/security.rs:240-269 | asking for a cached, sealed publication hands out the same envelope and uses no key |
| `SealCache.SameCellSameWire` | axon_core/src/security.rs:262-269 | two answers from one cell are one envelope |
| `SealCache.CellStays` | axon_core/src/security.rs:241-281 | a publication changes its cell only by eviction as the oldest of a full cache or by the clean-up of its own failed sealing |
| `SealCache.RunOldestFirst` | axon_core/src/security.rs:240-281 | in every interleaving the order of eviction is the order in which the cells were made |
| `SealCache.FailureIsForgotten` | axon_core/src/security.rs:270-281 | in every interleaving a failed sealing's cell is gone after its clean-up, the next caller gets a cell never tried, and no other publication is touched |
| `SealCache.WaitsForSomeone` | axon_core/src/security.rs:262-281 | in every interleaving a waiting caller can take the envelope, can seal it itself, or another caller is sealing it |
| `SealCache.TopicSealCache.Lookup` | axon_core/src/security.rs:240-261 | the eviction loop and insertion compute the first lock section and keep the cache invariant |
| `SealCache.TopicSealCache.Forget` | axon_core/src/security.rs:270-281 | the second lock section removes the key only while its cell is the current one, and no other key |
| `SendPipeline.PipelineKeepsOrder` | axon_core/src/quic_transport.rs:1357-1512 | in every run: written, in hand, preparing and queued messages together are an in-order subsequence of the publications that includes the newest, and at most four are prepared at once |
| `SendPipeline.UnlimitedLosesNothing` | axon_core/src/quic_transport.rs:1493-1511 | when every push is unlimited they are all publications, across any failures, retries and reconnects |
| `SendPipeline.BoundedPushKeepsNewest` | axon_core/src/quic_transport.rs:1493-1511 | after a bounded push exactly as many are queued as there were and one more, or its depth if that is less, always the newest without gaps, and nothing is taken from the worker |
| `SendPipeline.LeavesQueueOnlyIf` | axon_core/src/quic_transport.rs:1391-1511 | in every run a queued message leaves the queue only when the worker takes it as the oldest, or by a bounded push that finds at least its depth queued, as one of the oldest in excess |
| `SendPipeline.StopsOnlyWhenFull` | axon_core/src/quic_transport.rs:1391-1424 | the worker stops taking only with four messages in preparation or an empty queue |
| `SendPipeline.QuietMeansDelivered` | axon_core/src/quic_transport.rs:1391-1424 | no wake-up is lost: a worker asleep for good has written everything it took and nothing is queued, so with unlimited pushes everything was written |
| `SendPipeline.NeverStuck` | axon_core/src/quic_transport.rs:1391-1424 | short of that some step of the worker, a preparation or a signal is possible, without a failed write |
| `SendPipeline.DrainsWithin` | axon_core/src/quic_transport.rs:1391-1488 | however the steps fall, a stretch of a run without pushes has at most as many steps as the work at hand plus two for each failed write |
| `SendPipeline.ReachesQuiet` | axon_core/src/quic_transport.rs:1391-1488 | from every reachable state a continuation without pushes and failed writes, no longer than the work at hand, reaches quiet |
| `SendPipeline.WrittenGrows` | axon_core/src/quic_transport.rs:1426-1488 | what was written is never taken back |
| `SendPipeline.RawDataSlot.Enqueue` | axon_core/src/quic_transport.rs:1493-1511 | an unlimited push appends; a bounded one drops just enough of the oldest to leave its depth, keeps the rest in order and appends |
| `SubscriberQueue.Queue.constructor` | axon_core/src/subscriber_queue.rs:26-36 | an empty queue with a capacity of at least one |
| `SubscriberQueue.Queue.Push` | axon_core/src/subscriber_queue.rs:38-53 | the sample is appended under the number returned, and the oldest goes if and only if the queue was full; all other samples stay, with timestamps for exactly those retained |
| `SubscriberQueue.PushKeeps` | axon_core/src/subscriber_queue.rs:38-53 | a push retains the new sample and every other but the oldest of a full queue |
| `SubscriberQueue.StaysRetained` | axon_core/src/subscriber_queue.rs:38-134 | over any run, a retained sample stays so while it is among the last `capacity` pushed and nobody takes it or a later one |
| `SubscriberQueue.OverrunOnlyBehind` | axon_core/src/subscriber_queue.rs:38-134 | over any run without takes a cursor is overrun only after more than `capacity` pushes past it |
| `SubscriberQueue.Queue.TryTake` | axon_core/src/subscriber_queue.rs:63-102 | the sample served is copied and removed with everything before it, if it fits; otherwise only its size is reported |
| `SubscriberQueue.Queue.ReadAt` | axon_core/src/subscriber_queue.rs:112-134 | the same sample, left in place |
| `SubscriberQueue.Queue.PeekSize` | axon_core/src/subscriber_queue.rs:186-203 | size and number of the sample a read would give |
| `SubscriberQueue.Queue.PeekPrefix` | axon_core/src/subscriber_queue.rs:162-184 | its first five bytes, padded |
| `SubscriberQueue.Queue.DataAvailableFrom` | axon_core/src/subscriber_queue.rs:136-139 | true exactly when a read would give a sample |
| `SubscriberQueue.CursorAdvances` | axon_core/src/subscriber_queue.rs:104-134 | over any run of pushes, takes and reads, a cursor is given strictly increasing numbers of pushed samples |
| `SubscriberQueue.ReadsAreConsecutive` | axon_core/src/subscriber_queue.rs:112-134 | a read gives the sample the cursor names, or the newest if that one is no longer retained, with the bytes pushed under its number |
| `SubscriberQueue.ServedIs` | axon_core/src/subscriber_queue.rs:104-134 | nothing is served if and only if nothing at or after the cursor is retained; otherwise the sample itself if retained, else the newest |
| `SubscriberQueue.NothingMissed` | axon_core/src/subscriber_queue.rs:112-134 | a cursor that is never overrun has seen every number in turn |
| `TokenBucket.WindowBound` | axon_core/src/resource.rs:40-80 | for all calls at non-decreasing times, the bytes let through in any window of t milliseconds are at most one full bucket plus t times the rate, despite rounding, saturation and rejected calls |
| `TokenBucket.RejectedIffShort` | axon_core/src/resource.rs:44-61 | short of 64-bit saturation a call is rejected if and only if it exceeds the refilled tokens, and then changes nothing |
| `TokenBucket.LeakyBucket.Send` | axon_core/src/resource.rs:40-80 | a call passes if and only if its bytes are there after the refill; what remains and the bytes together are the refilled tokens, at most the old ones plus what the elapsed time earns; a refusal changes nothing and the tokens never exceed the maximum |
| `EndpointInfo.RecordIs` | axon_core/src/c_bridge_graph.rs:777-787 | the pieces written for a record have together the serialized length |
| `EndpointInfo.WriteInfos` | axon_core/src/c_bridge_graph.rs:647-775 | with a moving offset and early breaks, exactly the longest run of whole records that fits is written |
| `EndpointInfo.GetEndpointInfo` | axon_core/src/c_bridge_graph.rs:789-821 | a buffer of the summed length holds every record; a smaller one is refused untouched with the count |
| `EndpointInfo.RecordReadsIff` | rmw_axon/src/misc_stubs.cpp:963-1085 | the reader recovers a record if and only if its strings hold no zero byte, its depth survives 32 bits, no duration is zero and the liveliness is known |
| `EndpointInfo.RecordsReadIff` | rmw_axon/src/misc_stubs.cpp:963-1085 | a list of records is recovered if and only if each of them is |
| `EndpointInfo.FillEndpointInfo` | rmw_axon/src/misc_stubs.cpp:928-1087 | across both languages, with the doubling buffer: an error for every list over 16 MiB, and for every other list the right endpoints if and only if each survives |

## Left out

- Provenance.RemoteWasLocal: the origin a reply is stored under is taken to be its true sender; the code uses the id heard in the peer's HELLO (axon_core/src/bin/axon_daemon.rs:1623 and 1840).
- MessageKeyStore.KeyStore.ClaimMessageKey: calls are atomic here, so a half-written entry belongs to a process that died; waiting for a live writer is a step of `ClaimRace.dfy`.
- MessageKeyRuns.RunSoundIff: calls are atomic in the same way; single accesses interleave in `ClaimRace.dfy`.
- TokenBucket.WindowBound: concurrent callers between the two compare-exchange operations are not modelled, each call is one step.
- SubscriberQueue.Queue.Push: the keep-all mode is not modelled; there a refused push still uses up a number.
- EndpointInfo.WriteInfos: bytes of a record that fits only in part are left unspecified, as no reader counts that record.
- Weak memory: accesses to shared memory are sequentially consistent; the release and acquire orderings of the ring are taken to give that.
- Non-atomic field updates of a message-key or session entry inside one store call, and the 10 ms grace period before a half-written entry is recovered.
- Wrap-around of 64-bit counters (write index, generations, sequence numbers).
- The loaned-message path of the ring (borrow, commit, take), futex waits and wake-ups, file descriptors and memory mapping.
- `process_pending_registrations`, `process_departed_nodes` and stale-peer removal, except as local steps in `Provenance.dfy`.
- `record_peer_hello`, multicast discovery, RPC handlers, sessions, services and `try_complete_pending_response`.
- Compression, encryption, TLS and HTTP; the key management entity is a function from key id to key, the hash of a pair any function, process liveness a set or predicate, the clock and the allocator parameters.
- Memory reserved ahead by decoders for announced counts; bytes after the last node of a response are ignored, as in the code.
- Big-endian hosts: endpoint records are modelled in little-endian machine order.
