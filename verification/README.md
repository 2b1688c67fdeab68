# Lockframe: a model of its ordering, sync, key and session logic

Lockframe is a messaging server and client built from deterministic state machines that return
actions. This project models the parts whose correctness spans several components, and proves what
they keep in every run:

- **The ordering pipeline** (`Storage`, `Sequencer`, `RoomManager`, `Pipeline`). A frame is checked for
  epoch and membership, takes a log index from a cached counter, is signature-checked only then, and is
  persisted later by a batch of actions. Processing and executing take the driver lock separately, so
  batches of different streams interleave. `Pipeline.Step` is that step system: create a room, prepare a
  commit, receive a frame, execute any outstanding batch with any of its stores refused, start a new
  sequencer. `TotalOrder`, `Restarts`, `Completeness`, `Drift`, `Provenance`, `Records`, `MlsEpochs`, `Rosters` and
  `Serial` prove what its runs keep; `Admission` says field by field which frames get in; `Scenarios` holds the frames and states of the concrete runs.
- **The wire and sync** (`Header`, `Frames`, `Streams`, `Sync`, `SyncDuringRun`): the 128-byte header, the
  framing loop, and the paging loop over a log that grows meanwhile.
- **Sender keys** (`Ratchet`, `SenderKeys`, `Delivery`): the hash-chain ratchet, one per sender, and message
  delivery over a network that loses, duplicates and reorders.
- **The session state machine** (`Connections`, `Handshake`, `Settling`, `Heartbeat`): two endpoints with
  frames in flight, and one endpoint against a clock.
- **Subscriptions** (`Registries`, `Drivers`, `DriverBooks`): the two-way index and the driver's session
  bookkeeping, against a plain account of its events.
- **The reference model of the harness** (`ModelWorlds`, `ModelViews`, `ModelDelivery`, `ModelBooks`).

Each source object that updates fields in place is a class here. Its methods are proved equal to a
function on values (`View() == Spec(old(View()))`); the theorems are about those functions, over all runs.

## How the source is read

- Ed25519, HMAC, HKDF and the AEAD are function-valued parameters. All that is asked of them is that
  decryption undoes encryption (`SenderKeys.Sound`).
- MLS is an epoch, members with their signature keys, and a pending flag. What it makes of a Commit frame is a parameter
  (`CommitOutcome`): refused with no change, or processed; a commit moves the epoch by one (section 12.4.2 of
  RFC 9420) and leaves a new roster. Content that is no commit, under the Commit opcode, leaves the group;
  exporting the new state may fail after the epoch has moved. The code does both.
- Storage failures are parameters: any read may be refused, and any store may be refused leaving storage
  as it was.
- Integers are unbounded except where width matters: 64-bit log indices and their overflow check, 32-bit
  generations, the payload size cut to 32 bits, and `start + limit`, which wraps at 64 bits as release
  arithmetic does. Debug assertions are not behaviour.
- Time is in nanoseconds; subtracting a later instant gives zero.

## Where intent and code part

- *A rejected frame never gets an index* (fuzz/fuzz_targets/room_manager_fuzzer.rs:15). The counter moves
  before the signature check, so it fails on exactly the frames that take an index and then fail a late
  check: `RoomManager.RejectedFrameTakesIndexIff`. `Drift.RejectedFrameStopsFreshRoom` is an input: one unsigned
  first message, and the room's log stays empty for as long as the sequencer lives.
- *The MLS epoch advances only on a valid Commit* (fuzz/fuzz_targets/room_manager_fuzzer.rs:16). It does, and by
  exactly one; but a Commit whose new state cannot be exported is rejected after the epoch has moved
  (`RoomManager.EpochMovesIff`, and the first frame of a room in `Drift.RejectedCommitMovesEpochExample`).
- *A frame from a non-member must be rejected* (fuzz/fuzz_targets/room_manager_fuzzer.rs:19). Epochs are checked
  against the group, membership against stored MLS state, which lags while a commit's batch is outstanding and
  may not be there at all. It fails of exactly the senders that pass for members
  (`Rosters.NonMemberAcceptedIff`); `Rosters.NonMemberAcceptedExample` is a removed member whose frame is accepted.
  It holds once nothing waits to be stored, in every run that does not fall behind (`Rosters.NonMembersRejected`).
- *All stored frames have valid signatures* (fuzz/fuzz_targets/e2e_pipeline_fuzzer.rs:18). Not those of Commits,
  Proposals and unknown opcodes, nor in a room with no stored MLS state: `RoomManager.UnsignedFrameAcceptedIff`,
  `Records.StoredFramesSignedUnlessExempt`, `Records.UnsignedFrameStoredExample`.
- *After processing all frames, the client's epoch should match the server's* (a sync reply's documentation,
  crates/lockframe-proto/src/payloads/session.rs:146-149). It does exactly when no frame past the log moved the
  group: `Records.ServerEpochIsLogsIff`, `Records.ServerEpochAheadExample`.
- *A new sequencer goes on where the old one stopped.* Exactly when every log is caught up
  (`TotalOrder.RestartKeepsOrderedIff`); `Restarts.RestartBreaksOrderExample` hands out index 0 twice. A sequencer that
  is replaced at a boundary between requests also shows when the log's last index cannot be read, and only then
  (`Serial.CacheIsUnobservableIff`, `Serial.CacheShowsExample`).
- *`has_more` says whether entries remain.* Wrong for exactly one family: limit 0 from index 0 of a
  one-entry log (`Sync.HasMoreIff`).
- *A range error leaves the ratchet untouched.* True; but asking for generation 2^32 - 1 from within reach is
  no range error, fails, and uses the ratchet up (`Ratchet.SymmetricRatchet.AdvanceTo`).
- *No idle close when the heartbeat interval plus the tick gap is within the idle timeout.* The exact bound is one
  nanosecond wider (`Heartbeat.NoIdleCloseIff`).
- *Client lists are subsequences of the log, epochs agree.* Each fails on exactly one kind of room creation
  (`ModelViews.ViewsRefineLogIff`, `ModelViews.EpochsKeptIff`); `ModelViews.ViewsBreakExample` and
  `ModelViews.EpochsBreakExample` are runs of a new world that show it.
- *The registry's authenticated flag follows the connection.* Accepting a second connection under a flagged
  session id leaves the flag on a connection that has not authenticated; nothing else does
  (`Drivers.FlagsKeptIff`, with the three events of `Drivers.FlagsDisagreeExample`).
- *Stored MLS state follows the group.* It is never ahead, but batches run out of order can take it back:
  `MlsEpochs.StoredGoesBackIff` and `MlsEpochs.InOrderKeptIff` say which, and `MlsEpochs.StoredGoesBackExample` is a
  run of two commits.

## Model

| member | source | states |
|---|---|---|
| `Bytes.FirstByteWeighsMost` | crates/lockframe-proto/src/header.rs:186-262 | integers are read most significant byte first |
| `Header.ParseToBytes` | crates/lockframe-proto/src/header.rs:129-164 | every header, of any field values, is read back from its 128 bytes whatever follows them |
| `Header.ToBytesParse` | crates/lockframe-proto/src/header.rs:129-164 | every 128-byte pattern is a header and serialises to itself |
| `Header.Layout` | crates/lockframe-proto/src/header.rs:37-70 | the place of every field in the 128 bytes |
| `Header.BlankParses` | crates/lockframe-proto/src/header.rs:88-100 | a fresh header passes the checks of `from_bytes`, with its opcode, no flags and every other field zero |
| `Header.SigningDataCovers` | crates/lockframe-proto/src/header.rs:274-280 | the 56 signed bytes are every routing field but the context id, in wire order |
| `Header.SameSigningData` | crates/lockframe-proto/src/header.rs:274-297 | two headers have the same signed bytes exactly when they agree off context id and signature |
| `Header.SigningDataArray` | crates/lockframe-proto/src/header.rs:274-280 | the slice copies into a zeroed array yield those bytes |
| `Frames.DecodeEncode` | crates/lockframe-proto/src/frame.rs:104-180 | an encoded frame, with any bytes after it, decodes to itself exactly when magic, version and size field are right |
| `Frames.EncodeDecode` | crates/lockframe-proto/src/frame.rs:104-180 | whatever decodes is valid and encodes to the first 128 + size bytes that were read |
| `Frames.DecodeFailsWith` | crates/lockframe-proto/src/frame.rs:143-180 | what decodes meets the limits, and what does not fails with the first of too short, magic, version, over 16 MB, truncated, with its numbers |
| `Frames.EncodeInto` | crates/lockframe-proto/src/frame.rs:104-118 | encoding appends the whole frame to the caller's buffer, or nothing, exactly when the payload is over 16 MB |
| `Streams.SplitsBack` | crates/lockframe-server/src/lib.rs:218-254 | the read loop splits any concatenation of encoded frames into the same list, then goes on with what follows |
| `Streams.ReadsAPrefix` | crates/lockframe-server/src/lib.rs:218-254 | on any bytes at all the frames read are valid and spell a prefix of the input |
| `Streams.ReadFrame` | crates/lockframe-server/src/lib.rs:218-254 | one turn, header then announced payload, yields the frame at the front or stops |
| `Streams.ReadStream` | crates/lockframe-server/src/lib.rs:218-254 | the loop yields exactly the frames of the input, in order |
| `Storage.MemoryStorage.StoreFrame` | crates/lockframe-server/src/storage/memory.rs:84-111 | appends exactly when the index is the log's length, otherwise changes no log; other rooms are untouched |
| `Storage.MemoryStorage.LatestLogIndex` | crates/lockframe-server/src/storage/memory.rs:117-123 | the last index of a non-empty log, none for a missing or empty one |
| `Storage.MemoryStorage.StoreMlsState` | crates/lockframe-server/src/storage/memory.rs:156-166 | replaces one room's MLS state and nothing else |
| `Sequencer.WithIndexChangesOnlyContext` | crates/lockframe-server/src/sequencer.rs:244-249 | rebuilding a frame changes its context id and nothing else exactly when the size field already was the payload length cut to 32 bits |
| `Sequencer.WithIndexReadsBack` | crates/lockframe-server/src/sequencer.rs:244-249 | the rebuilt frame carries the index it was given |
| `Sequencer.SequencingKeepsVerdict` | crates/lockframe-server/src/sequencer.rs:124-130 | for every frame passing the structural check and any index: same signed bytes, sender, epoch, room, opcode, payload, and the same signature verdict; sequencing again keeps only the last index |
| `Sequencer.SigningDataSurvivesIff` | crates/lockframe-server/src/sequencer.rs:244-249 | off the structural check, the signed bytes survive exactly when the size field is right |
| `Sequencer.FrameSequencer.ProcessFrame` | crates/lockframe-server/src/sequencer.rs:161-225 | the counter map and actions of every branch; the frame gets the counter's old value and no other room's counter moves |
| `RoomManager.FinishByCase` | crates/lockframe-server/src/room_manager.rs:401-451 | after the index: rejected exactly when the signature fails or MLS refuses or cannot export; otherwise two equal persists, a broadcast, and for a Commit the MLS state at the group's new epoch with its members and keys |
| `RoomManager.ProcessWithIndex` | crates/lockframe-server/src/room_manager.rs:377-451 | one index taken, then rejection exactly when a late check fails on the frame as it arrived, or actions at that index |
| `RoomManager.NoIndexNoPersist` | crates/lockframe-server/src/room_manager.rs:377-399 | a frame that takes no index leaves next index, other counters and groups alone and persists nothing |
| `RoomManager.RejectedFrameTakesIndexIff` | fuzz/fuzz_targets/room_manager_fuzzer.rs:15-15 | a rejected frame moves the counter exactly when it takes an index and then fails a late check |
| `RoomManager.EpochMovesIff` | crates/lockframe-server/src/room_manager.rs:430-448 | a group's epoch moves, by one and in the frame's room alone, exactly on a Commit that takes an index and that MLS processes as one or as our pending one, and only then do its members change; it moves for a rejected frame exactly when the export then fails |
| `RoomManager.UnsignedFrameAcceptedIff` | crates/lockframe-server/src/room_manager.rs:193-229 | a frame whose signature does not verify is accepted exactly when its opcode carries no checked signature or the room has no stored state, and MLS takes it if a Commit |
| `RoomManager.SplitValidationAgrees` | crates/lockframe-core/src/mls/validator.rs:42-111 | checking epoch and membership before sequencing and the signature after accepts exactly what the one-shot `validate_frame` accepts of the frame as it arrived |
| `Admission.NeedsSignatureIff` | crates/lockframe-proto/src/opcodes.rs:146-195 | the opcodes that carry a checked signature, one by one |
| `Admission.SignatureVerdictIff` | crates/lockframe-core/src/mls/validator.rs:74-111 | a signature passes exactly when the sender's stored key is usable and verifies it over the routing fields in wire order, the context id left out |
| `Admission.OnlyTheSignedHeaderPasses` | crates/lockframe-core/src/mls/validator.rs:74-111 | where one key signed one string, only frames with that key, that signature and exactly those routing fields pass |
| `Admission.TamperedFrameRejected` | crates/lockframe-core/src/mls/validator.rs:103-104 | of a frame accepted under its one signature no version with another routing field or signature is accepted, in any state, wherever signatures are checked |
| `Admission.ValidateFrameVerdict` | crates/lockframe-core/src/mls/validator.rs:42-68 | the verdict with its reason: epoch, membership, key, signature, in that order |
| `Admission.AcceptedIff` | crates/lockframe-server/src/room_manager.rs:377-451 | a frame takes an index and is accepted exactly when, field by field, it is well formed and no Welcome, its room is at its epoch with reads answered and an index left, the stored state lets sender and signature in, and a Commit is taken and exported |
| `Admission.CommitStoresState` | crates/lockframe-server/src/room_manager.rs:430-448 | an accepted Commit whose batch is executed stores the room, the new epoch, and the members and keys MLS left |
| `Admission.CommittedMemberIsHeard` | crates/lockframe-server/src/room_manager.rs:155-229 | then a member it left with a usable key gets a well-formed frame in at the new epoch, signed where asked for |
| `Admission.GroupDecides` | crates/lockframe-server/src/room_manager.rs:155-229 | in every run that starts level and does not fall behind, once nothing waits and a state is stored, the frames that get in are exactly those of the group's own members, at its epoch, signed with their keys where asked for |
| `Admission.PreparedCommitMoves` | crates/lockframe-server/src/room_manager.rs:434-436 | after the server prepared a commit of its own the next processed Commit frame moves the group, whatever it holds |
| `Admission.PendingIsSpent` | crates/lockframe-core/src/mls/group.rs:282-303 | the Commit that moves the group spends it: content that is no commit then leaves the epoch |
| `Admission.RefusedCommitKeepsGroups` | crates/lockframe-server/src/room_manager.rs:430-448 | a commit MLS refuses leaves every group as it was, its pending commit included |
| `Admission.RefusedBeforeIndexWith` | crates/lockframe-server/src/room_manager.rs:377-399 | a frame that takes no index is refused with the first fault found in it, in the order looked at, or is a Welcome and broadcast; the manager is unchanged but for a counter that ran out |
| `Admission.RefusedAfterIndexWith` | crates/lockframe-server/src/room_manager.rs:401-448 | one refused after its index is badly signed, or a Commit refused or not exported, and says so |
| `Admission.OversizedCommitStoresNothing` | crates/lockframe-server/src/lib.rs:301-306 | a Commit too large to broadcast moves the group and its state is not stored |
| `RoomManager.RoomManager.CreateRoom` | crates/lockframe-server/src/room_manager.rs:255-272 | a room is created once, at epoch 0; a second creation, or one for which MLS makes no group, is refused and changes nothing |
| `RoomManager.RoomManager.ValidateSequenced` | crates/lockframe-server/src/room_manager.rs:193-229 | the loop returns the first signature failure over the sequenced actions, or none |
| `RoomManager.RoomManager.ProcessFrame` | crates/lockframe-server/src/room_manager.rs:377-451 | the state and result of every branch, storage failures and commit outcomes included |
| `Pipeline.ExecuteActions` | crates/lockframe-server/src/lib.rs:277-348 | the action loop leaves the storage that executing each action in turn gives, refusals skipped, up to a broadcast that cannot be encoded |
| `Pipeline.AppendOnly` | crates/lockframe-server/src/storage/memory.rs:84-111 | from any state along any run, failures and new sequencers included, each log only grows by appending |
| `Pipeline.EntriesCarryTheirPlace` | crates/lockframe-server/src/sequencer.rs:161-225 | in every run from empty logs, new sequencers included, entry i of a room's log carries index i and the room's id |
| `Pipeline.ExecutedCarrying` | crates/lockframe-server/src/room_manager.rs:404-427 | executing an accepted frame's batch stores it once, exactly if its index is the log's length and storage takes one of the two persists |
| `TotalOrder.StepKeepsOrdered` | crates/lockframe-server/src/lib.rs:256-270 | every step of one sequencer keeps each log a prefix of the assigned order, the counter at the number of indices handed out, and outstanding persists at the indices their frames were given |
| `TotalOrder.RestartKeepsOrderedIff` | crates/lockframe-server/src/sequencer.rs:178-199 | a new sequencer keeps that exactly when every room's log holds as many frames as were given an index |
| `TotalOrder.TotalOrderInEveryRun` | crates/lockframe-server/src/lib.rs:256-270 | in every interleaving from empty logs whose new sequencers start caught up: the log is a prefix of the frames in the order indices were assigned, all accepted, never past a rejected index; log length <= counter; every outstanding persist is below the counter |
| `Restarts.RestartBreaksOrderExample` | crates/lockframe-server/src/sequencer.rs:178-199 | a Commit received, a new sequencer, a Proposal received and executed first: no prefix, epochs that do not start at 0, counter 1 after two indices |
| `Restarts.RecoveredLogIsSubsequence` | crates/lockframe-server/src/sequencer.rs:178-199 | in every run whose new sequencers start with nothing outstanding that can still be stored, drift and rejections notwithstanding, the log is a subsequence of the accepted frames in assigned order |
| `Restarts.CaughtUpIsSettled` | crates/lockframe-server/src/sequencer.rs:178-199 | an ordered state that is caught up has nothing outstanding that can still be stored |
| `Completeness.NothingLostIff` | crates/lockframe-server/src/lib.rs:256-270 | a step keeps log plus outstanding frames equal to all frames given an index, in order, exactly when it is no late rejection, no batch executed ahead of an earlier one of its room, and not both persists of a batch are refused |
| `Completeness.RunOwes` | crates/lockframe-server/src/storage/memory.rs:94-99 | along any run, new sequencers included, no room's number of frames that have an index and are neither stored nor outstanding ever goes down |
| `Completeness.NothingLostInRunIff` | crates/lockframe-server/src/lib.rs:256-270 | a run whose new sequencers start caught up ends with everything stored or outstanding exactly when none of its steps dropped a frame |
| `Completeness.DrainedLogIsEverything` | crates/lockframe-server/src/lib.rs:256-348 | once such a run has no batch left, each log is every frame given an index there, in order, and the counter is its length |
| `Drift.DroppedFrameNeverStored` | crates/lockframe-server/src/storage/memory.rs:94-99 | an index handed out, not stored and not outstanding is never stored: as long as the sequencer lives the log never passes it |
| `Drift.DriftIsPermanentIff` | crates/lockframe-server/src/storage/memory.rs:94-99 | with the log behind the counter, no run of the same sequencer ever appends to the room again exactly when nothing outstanding sits at the log's next index |
| `Drift.LateRejectionBlocksIff` | crates/lockframe-server/src/room_manager.rs:398-401 | a late rejection blocks its room at the index it took, in any state, exactly unless the log is past it or an earlier sequencer's batch is outstanding there |
| `Drift.RejectedFrameStopsFreshRoom` | crates/lockframe-server/src/room_manager.rs:398-401 | an unsigned first message in a room just created is rejected, index 0 is gone, and the log stays empty whatever the same sequencer does next |
| `Drift.RejectedCommitMovesEpochExample` | crates/lockframe-server/src/room_manager.rs:430-448 | the first frame of a room just created, a Commit whose state cannot be exported: rejected, epoch 1, index 0 gone |
| `Drift.NewSequencerCatchesUp` | crates/lockframe-server/src/sequencer.rs:178-199 | a new sequencer counts from the log again, so no room is behind under it |
| `Provenance.StoredFramesWereAccepted` | crates/lockframe-server/src/lib.rs:256-348 | in every run, new sequencers included, each stored frame is one that was given an index in its room and accepted, and no log reaches the last 64-bit index |
| `Records.StoredFramesWereChecked` | fuzz/fuzz_targets/room_manager_fuzzer.rs:17-18 | in every run, new sequencers included, each stored frame was accepted with its structure checked, its epoch against the group, and its sender, key and, where the opcode asks for one, signature against the stored MLS state of the moment, if there was one |
| `Records.StoredFramesSignedUnlessExempt` | fuzz/fuzz_targets/e2e_pipeline_fuzzer.rs:18-18 | in every run each stored frame was signed, or of an opcode whose signature is not checked, or stored in a room without MLS state |
| `Records.UnsignedFrameStoredExample` | fuzz/fuzz_targets/e2e_pipeline_fuzzer.rs:18-18 | where no signature verifies a Proposal is stored |
| `Records.GroupEpochBounded` | crates/lockframe-server/src/sequencer.rs:136-142 | in every run, new sequencers included, a group is at most one past MAX_EPOCH |
| `Records.EpochsAlongLog` | crates/lockframe-server/src/room_manager.rs:430-448 | in every run whose new sequencers start caught up: stored epochs start at 0, differ by 0 or 1, rise only right after a Commit, stay at most MAX_EPOCH |
| `Records.ServerEpochIsLogsIff` | crates/lockframe-proto/src/payloads/session.rs:146-149 | the server's epoch is the one the room's log leads to exactly when no frame given an index past the log moved the group |
| `Records.ServerEpochAheadExample` | crates/lockframe-proto/src/payloads/session.rs:146-149 | a Proposal stored, then a Commit that cannot be exported: the log leads to epoch 0, the server is at 1 |
| `Records.StoredFramesTravel` | crates/lockframe-proto/src/frame.rs:104-180 | if every frame came off the wire, every frame stored in any run, new sequencers included, encodes and decodes to itself |
| `MlsEpochs.StoredNeverAheadIff` | crates/lockframe-server/src/room_manager.rs:430-448 | in every run the stored epoch and those waiting to be stored are at most the group's, and those waiting are in order, exactly when any state stored for the room beforehand is of epoch 0 |
| `MlsEpochs.StoredGoesBackIff` | crates/lockframe-server/src/storage/memory.rs:156-166 | a step takes the stored epoch back exactly when it executes a batch whose MLS state is older than the stored one, reached and not refused |
| `MlsEpochs.StoredGoesBackExample` | crates/lockframe-server/src/lib.rs:256-270 | two commits in a room just created, the second's batch executed first: stored epoch 2, then 1, with the group at 2 |
| `MlsEpochs.InOrderKeptIff` | crates/lockframe-server/src/lib.rs:256-270 | while stored and waiting epochs are in order none goes back, and a step keeps them in order exactly when no batch overtakes an older one that waits |
| `MlsEpochs.StoredNeverGoesBack` | crates/lockframe-server/src/lib.rs:256-270 | so along a run without overtaking the stored epoch never goes back |
| `MlsEpochs.CatchesUpKeptIff` | crates/lockframe-server/src/room_manager.rs:430-448 | storing what waits, in order, still ends at the group's epoch exactly unless a moved group could not be exported, or the newest epoch was refused or stored ahead of an older one |
| `MlsEpochs.StoredIsGroupEpoch` | crates/lockframe-server/src/room_manager.rs:430-448 | in every run without such a step, from a room whose earlier state, if any, is of epoch 0, once nothing waits the stored epoch is the group's |
| `Rosters.NonMemberAcceptedIff` | fuzz/fuzz_targets/room_manager_fuzzer.rs:19-19 | in any state some frame of a given non-member takes an index and is accepted exactly when the room takes frames and the stored state lists the sender with a usable key, or nothing is stored and the group is at epoch 0 |
| `Rosters.CurrentKeptIff` | crates/lockframe-server/src/room_manager.rs:430-448 | a step keeps every stored or waiting state of the group's epoch at the group's members and keys exactly unless it creates the room over a state that is not its founder's |
| `Rosters.CheckedAgainstGroupIff` | crates/lockframe-server/src/room_manager.rs:155-189 | in every run from such a start the stored state a frame is checked against is never ahead of the group, and is the group's own, epoch, members and keys, exactly when its epoch is the group's |
| `Rosters.NonMembersRejected` | fuzz/fuzz_targets/room_manager_fuzzer.rs:19-19 | in every such run that does not fall behind, once nothing waits and a state is stored, no frame of a non-member is accepted |
| `Rosters.NonMemberAcceptedExample` | crates/lockframe-server/src/room_manager.rs:155-189 | a Commit leaves only 9 in the group; before its batch runs a frame of 7 at the new epoch takes an index and is accepted |
| `Serial.AcceptedFrameStoredOnce` | crates/lockframe-server/src/room_manager.rs:404-427 | with each batch finished before the next frame, whatever reads are refused, an accepted frame is stored once despite two persists, at the log's own length, and the counter is the new length |
| `Serial.OtherwiseNothingStored` | crates/lockframe-server/src/sequencer.rs:166-190 | a frame that takes no index, a Welcome or a refused read included, leaves storage as it was |
| `Serial.AgreementKeptIff` | crates/lockframe-server/src/sequencer.rs:178-224 | serving a request, whatever reads are refused, keeps every cached counter equal to its log's length exactly when it is not rejected after taking its index |
| `Serial.CacheIsUnobservableIff` | crates/lockframe-server/src/sequencer.rs:178-224 | two managers whose caches agree with storage give the same reply, and then the same storage and groups, exactly unless the log's last index cannot be read for a frame that needs it and one has the counter cached and the other not |
| `Serial.CacheShowsExample` | crates/lockframe-server/src/sequencer.rs:178-190 | a Proposal in a fresh room with that read refused |
| `Serial.CachedRefinesRecomputedIff` | crates/lockframe-server/src/sequencer.rs:178-224 | along a run without late rejections the cached sequencer gives the replies of one rebuilt from storage at any points, down to before every request, exactly when no refused read tells them apart; then the storage too |
| `Sync.LoadIsSlice` | crates/lockframe-server/src/storage/memory.rs:129-150 | loading yields the asked-for slice, except a panic exactly when the range wraps at 64 bits from within the log |
| `Sync.HasMoreIff` | crates/lockframe-server/src/room_manager.rs:351-357 | `has_more` tells whether entries remain on every request but limit 0 from index 0 of a one-entry log |
| `Sync.SyncByCase` | crates/lockframe-server/src/room_manager.rs:325-367 | a request panics exactly when its frames are reached and the range wraps or one cannot be encoded; it fails exactly for an unknown, never stored or unreadable room, or when the last index cannot be read, with that error |
| `Sync.RefusedStoreMakesRoomKnown` | crates/lockframe-server/src/storage/memory.rs:84-99 | a store at a wrong index, though refused, makes its room known: its sync is then answered with no frames where it was an error |
| `Sync.PageIsSlice` | crates/lockframe-server/src/room_manager.rs:325-367 | a page decodes to exactly the asked-for slice, `has_more` is set exactly when entries remain, and its last frame's index plus one is where the next page starts |
| `Sync.SyncAll` | crates/lockframe-proto/src/payloads/session.rs:128-150 | the loop from last index + 1 ends, with the whole suffix of the log as it stood at the last page, though the log grows between pages |
| `SyncDuringRun.ReachableIsServable` | crates/lockframe-server/src/room_manager.rs:339-349 | every state reachable from the wire, new sequencers included, can serve every room with a stored frame: the encoding `expect` never fires |
| `SyncDuringRun.SyncWhileRunning` | crates/lockframe-server/src/room_manager.rs:325-367 | a client paging while the server runs through any events, batches interleaving, stores failing and sequencers restarting, ends with exactly the log's suffix |
| `Ratchet.ClosedForm` | crates/lockframe-crypto/src/sender_keys/ratchet.rs:102-154 | after any calls, failed ones included, the chain key is the seed's chain at the current generation, and every key returned is the message key of its own generation |
| `Ratchet.SymmetricRatchet.Advance` | crates/lockframe-crypto/src/sender_keys/ratchet.rs:102-118 | one step along the chain with the key of the generation left, or overflow with nothing changed |
| `Ratchet.SymmetricRatchet.AdvanceTo` | crates/lockframe-crypto/src/sender_keys/ratchet.rs:124-154 | the loop lands where the chain's closed form says, succeeds exactly when generation <= t <= generation + 1000 and t < 2^32 - 1, in at most 1001 advances; range errors name both generations and change nothing |
| `SenderKeys.NoncePrefixNamesUse` | crates/lockframe-crypto/src/sender_keys/encryption.rs:111-132 | the first 16 bytes of two nonces agree exactly when epoch, sender and generation agree, and the rest are the random bytes |
| `SenderKeys.BuildNonce` | crates/lockframe-crypto/src/sender_keys/encryption.rs:111-132 | the slice copies lay out epoch, sender, generation and random bytes |
| `SenderKeys.SenderKeyStore.constructor` | crates/lockframe-client/src/sender_key_store.rs:37-46 | the loop gives every member, repeated or not, a ratchet of its own at generation 0 from its own seed |
| `SenderKeys.SenderKeyStore.Encrypt` | crates/lockframe-client/src/sender_key_store.rs:66-79 | advances the sender's ratchet only and encrypts under the generation left; unknown senders change nothing |
| `SenderKeys.SenderKeyStore.Decrypt` | crates/lockframe-client/src/sender_key_store.rs:93-108 | epoch and sender errors change nothing; otherwise only that sender's ratchet moves, by the closed form |
| `Delivery.OperationTouchesSubject` | crates/lockframe-client/src/sender_key_store.rs:66-108 | an operation leaves every other sender's ratchet alone and turns none back |
| `Delivery.EncryptMakesGenuine` | crates/lockframe-client/src/sender_key_store.rs:66-79 | whatever a store did before, what it encrypts is the sender's genuine message of its next generation |
| `Delivery.GenuineArrival` | crates/lockframe-client/src/sender_key_store.rs:93-108 | a genuine message decrypts to its plaintext exactly when cur <= g <= cur + 1000, and otherwise fails with the store unchanged |
| `Delivery.WindowAfterAnyMessage` | crates/lockframe-client/src/sender_key_store.rs:93-108 | after any message of generation g within reach, opened or not, genuine h is delivered exactly when g < h <= g + 1001 |
| `Delivery.DecryptFailsWith` | crates/lockframe-client/src/sender_key_store.rs:93-108 | what a refusal says: epoch, sender, reach with its numbers, the last generation, or a message that does not open; a key of another generation opens nothing |
| `Delivery.DeliveryUnderAnySchedule` | crates/lockframe-client/src/sender_key_store.rs:93-108 | for any losses, duplicates and reorderings, mixed with forged messages under the sender's name and any work for others, the store delivers what a receiver that is a single number would |
| `Delivery.DeliveryFromEpochStart` | crates/lockframe-client/src/sender_key_store.rs:37-108 | in particular between stores built from the same secret, epoch and members |
| `Delivery.NoReuse` | crates/lockframe-crypto/src/sender_keys/encryption.rs:111-132 | over any interleaving on one store, forged input included: each sender's uses have strictly increasing generations, none is used or decrypted twice, and no two nonces share their first 16 bytes |
| `Connections.Connection.CheckTimeout` | crates/lockframe-core/src/connection.rs:238-248 | the elapsed time exactly when beyond the timeout of a Pending or Authenticated connection |
| `Connections.Connection.Tick` | crates/lockframe-core/src/connection.rs:254-290 | timeout closes; otherwise a due heartbeat records itself as activity; otherwise nothing |
| `Connections.Connection.SendHello` | crates/lockframe-core/src/connection.rs:169-184 | only from Init |
| `Connections.Connection.HandleFrame` | crates/lockframe-core/src/connection.rs:300-419 | the new state and the answer or error for every frame in every state |
| `Connections.RefusedFrame` | crates/lockframe-core/src/connection.rs:300-419 | the frames refused, state by state, each with its error, and nothing changed but activity |
| `Connections.PeerCloses` | crates/lockframe-core/src/connection.rs:383-411 | a Goodbye and an error close with the peer's reason; only the Goodbye is answered |
| `Handshake.StepAgreed` | crates/lockframe-core/src/connection.rs:300-419 | every step of the network keeps the agreement and lowers neither endpoint's rank |
| `Handshake.HandshakeAgreement` | crates/lockframe-core/src/connection.rs:300-419 | under loss, duplication, reordering, ticks and closes: agreement in every reachable state, ranks never drop, Closed is final |
| `Handshake.AgreementFromStart` | crates/lockframe-core/src/connection.rs:158-184 | an Authenticated client holds the server's session id and the server has authenticated; an Authenticated server has a client that left Init |
| `Handshake.ExchangeQuiesces` | crates/lockframe-core/src/connection.rs:314-418 | without ticks or duplication, from any state, the number of deliveries is bounded by the weight in flight plus the open endpoints |
| `Settling.HandshakeSettles` | crates/lockframe-core/src/connection.rs:314-369 | however the handshake's frames are delivered, once none is left both endpoints are Authenticated under one session id |
| `Settling.HandshakeSettlesFromStart` | crates/lockframe-core/src/connection.rs:158-184 | so from the client's Hello on |
| `Settling.GoodbyeClosesBoth` | crates/lockframe-core/src/connection.rs:383-405 | with a Goodbye on its way to each open endpoint, or to one that will answer it, both are closed by the time nothing is in flight |
| `Settling.GoodbyeSentClosesBoth` | crates/lockframe-core/src/connection.rs:383-405 | so for one Goodbye sent between open endpoints in either direction, among any frames but errors |
| `Heartbeat.StepRegular` | crates/lockframe-core/src/connection.rs:254-290 | every frame and tick, in time order, keeps the last ping, last tick and last activity in their places and pings an interval apart |
| `Heartbeat.PingsSpacedAndGapCloses` | crates/lockframe-core/src/connection.rs:238-290 | in every run any two pings are at least an interval apart, and after a gap longer than the idle timeout the next tick closes an Authenticated connection |
| `Heartbeat.NoIdleClose` | crates/lockframe-core/src/connection.rs:238-290 | with ticks at most d apart within the bound, no tick of any run closes an Authenticated connection however silent the peer |
| `Heartbeat.NoIdleCloseIff` | crates/lockframe-core/src/connection.rs:238-290 | from authentication on, that holds of all runs exactly when d <= idle timeout and interval + d <= idle timeout + 1 ns |
| `Heartbeat.TickClosesIff` | crates/lockframe-core/src/connection.rs:238-270 | a tick closes a Pending connection exactly past the handshake timeout and an Authenticated one exactly past the idle timeout, with the reason and the time gone by, and no other |
| `Heartbeat.SilentHandshakeTimesOut` | crates/lockframe-core/src/connection.rs:169-290 | a client that sent Hello and hears nothing is Pending through every tick up to the handshake timeout and closed by the first after it; one that sent none is never closed by ticks |
| `Heartbeat.FrameRenewsActivity` | crates/lockframe-core/src/connection.rs:300-382 | any frame keeps ticks from closing for an idle timeout; every Ping to an Authenticated endpoint gets one Pong |
| `Registries.ApplyRefines` | crates/lockframe-server/src/registry.rs:63-134 | each operation keeps the two maps inverse with no empty room and replies as the plain relation does |
| `Registries.RegistryRefinesRelation` | crates/lockframe-server/src/registry.rs:63-134 | over every run from the empty registry: exact inverses, no empty room, every subscriber registered, every reply the relation's |
| `Registries.SubscribersAfter` | crates/lockframe-server/src/registry.rs:63-134 | who is in a room's set after each operation |
| `Registries.ConnectionRegistry.RegisterSession` | crates/lockframe-server/src/registry.rs:63-70 | a session is registered once, with no rooms |
| `Registries.ConnectionRegistry.UnregisterSession` | crates/lockframe-server/src/registry.rs:75-89 | the cleanup loop, in any order, takes the session out of every room and drops the rooms left empty |
| `Registries.ConnectionRegistry.Subscribe` | crates/lockframe-server/src/registry.rs:109-117 | both maps or, for an unregistered session, neither |
| `Registries.ConnectionRegistry.Unsubscribe` | crates/lockframe-server/src/registry.rs:122-134 | both maps, a room left empty dropped; true exactly if it was subscribed |
| `Drivers.StepKeepsBooks` | crates/lockframe-server/src/driver.rs:202-226 | every event keeps registered sessions equal to connections, within the limit, over a sound index |
| `Drivers.DriverKeepsBooks` | crates/lockframe-server/src/driver.rs:392-418 | in every state reached from a new driver that holds and every broadcast target has a connection |
| `DriverBooks.DriverFollowsItsEvents` | crates/lockframe-server/src/driver.rs:202-549 | in every run of a new driver connections, rooms and every room's subscribers are exactly those of a plain account of its events: creators and Welcome receivers subscribed, the disconnected gone |
| `DriverBooks.SessionsAreIndependent` | crates/lockframe-server/src/driver.rs:202-445 | in every run each session's connection is what its own events and the ticks make of it, whatever other sessions do |
| `DriverBooks.SyncRequestsDoNotRenew` | crates/lockframe-server/src/driver.rs:253-307 | a tick closes an authenticated session exactly when nothing but sync requests came from it for longer than the idle timeout |
| `Drivers.FlagsKeptIff` | crates/lockframe-server/src/driver.rs:229-313 | every event keeps the authenticated flag in agreement with the connection, except exactly an accept under a flagged session id |
| `Drivers.FlagsAgreeInEveryRun` | crates/lockframe-server/src/driver.rs:229-313 | so in every run of a new driver without such an accept |
| `Drivers.FlagsDisagreeExample` | crates/lockframe-server/src/driver.rs:202-226 | accept 7, a good Hello, accept 7 again: flagged, and not authenticated |
| `Drivers.ServerDriver.HandleAccepted` | crates/lockframe-server/src/driver.rs:202-226 | refuses at the limit, otherwise opens a connection with its session id set and registers it |
| `Drivers.ServerDriver.HandleClosed` | crates/lockframe-server/src/driver.rs:392-418 | connection and session go together, with all subscriptions |
| `Drivers.ServerDriver.HandleReceived` | crates/lockframe-server/src/driver.rs:229-313 | session frames go to the connection, a Hello taken marks the session, a Welcome subscribes it even if the room manager then refuses; an error exactly for an unknown session, a refused session frame or a refused room frame |
| `Drivers.ServerDriver.HandleTick` | crates/lockframe-server/src/driver.rs:421-445 | the loop ticks every connection, in any order, and removes none |
| `Drivers.ServerDriver.CreateRoomFor` | crates/lockframe-server/src/driver.rs:517-539 | the creator is subscribed to the room it creates; an unknown session, an existing room or a group MLS does not make changes nothing |
| `ModelWorlds.ModelWorld.ApplyCreateRoom` | crates/lockframe-harness/src/model/world.rs:136-151 | the errors, and the room on both sides |
| `ModelWorlds.ModelWorld.ApplySendMessage` | crates/lockframe-harness/src/model/world.rs:157-175 | the errors, and the message logged at the next index and queued for the members of the moment |
| `ModelWorlds.ModelWorld.AdvanceMembers` | crates/lockframe-harness/src/model/world.rs:196-217 | the loop moves every client in the room one epoch on and no other |
| `ModelWorlds.ModelWorld.ApplyLeaveRoom` | crates/lockframe-harness/src/model/world.rs:196-217 | the errors, and the departure on both sides with everyone left one epoch on |
| `ModelWorlds.ModelWorld.ApplyAddMember` | crates/lockframe-harness/src/model/world.rs:222-256 | the errors, and the invitee in at the server's new epoch |
| `ModelWorlds.ModelWorld.ApplyRemoveMember` | crates/lockframe-harness/src/model/world.rs:261-298 | the errors, and the target out with everyone left one epoch on |
| `ModelWorlds.ModelWorld.DeliverOne` | crates/lockframe-harness/src/model/world.rs:178-191 | a message reaches exactly its recipients who are in the room, in any order |
| `ModelWorlds.ModelWorld.ApplyDeliverPending` | crates/lockframe-harness/src/model/world.rs:178-191 | the whole queue is delivered in order and emptied |
| `ModelViews.ApplyKeepsMembership` | crates/lockframe-harness/src/model/world.rs:66-92 | every operation keeps: a client is in a room exactly when the server lists it, and no listed room is empty |
| `ModelViews.MembershipInEveryRun` | crates/lockframe-harness/src/model/world.rs:66-92 | so after any operations on a new world |
| `ModelViews.ViewsRefineLogInEveryRun` | crates/lockframe-harness/src/model/world.rs:157-191 | along a run of a new world that revives no room with queued messages, each client's list is a subsequence of the server log with strictly increasing indices |
| `ModelViews.ViewsRefineLogIff` | crates/lockframe-harness/src/model/world.rs:136-191 | an operation leaves all such continuations with such lists exactly when it revives no room while old messages of that id are queued |
| `ModelViews.ViewsBreakExample` | crates/lockframe-harness/src/model/world.rs:136-191 | create, send, leave, create again, deliver: the list holds a message the log does not |
| `ModelViews.ViewsRefineLogUnlessRecreated` | crates/lockframe-harness/src/model/server.rs:158-175 | if no room id is created again after its last member left, every list in every run of a new world is such a subsequence |
| `ModelViews.EpochsKeptIff` | crates/lockframe-harness/src/model/world.rs:136-298 | an operation keeps every member at the server's epoch exactly when it is no creation by which a client enters an existing room past epoch 0 |
| `ModelViews.EpochsAgreeInEveryRun` | crates/lockframe-harness/src/model/world.rs:136-298 | so along every run of a new world without such a creation |
| `ModelViews.EpochsBreakExample` | crates/lockframe-harness/src/model/world.rs:136-151 | create, add a member, create again by a third client: that client is an epoch behind |
| `ModelDelivery.DeliveryGivesAwaiting` | crates/lockframe-harness/src/model/world.rs:178-191 | delivery gives each member exactly what was queued for it, in order |
| `ModelDelivery.UpToDateKeptIff` | crates/lockframe-harness/src/model/world.rs:66-92 | a client whose list plus queue is the log from some entry on stays so exactly as long as it is not taken out of the room |
| `ModelDelivery.EntersUpToDateIff` | crates/lockframe-harness/src/model/world.rs:222-256 | a client entering a room is so from there on exactly when no message of that room is queued for it from an earlier stay |
| `ModelDelivery.MemberSeesEverything` | crates/lockframe-harness/src/model/world.rs:178-191 | whatever anyone does meanwhile, a member that stays has after each delivery exactly the log since it entered |
| `ModelDelivery.EntrantSeesEverything` | crates/lockframe-harness/src/model/world.rs:66-92 | so in every run of a new world in which a client enters with nothing queued from an earlier stay, and stays |
| `ModelBooks.RoomsFollowOperations` | crates/lockframe-harness/src/model/world.rs:66-298 | in every run of a new world each server room is the plain account of its operations: members, epoch, and a log of everything said since its creation, each with sender, content, position and the epoch of the moment |
| `ModelBooks.EntrantHearsWhatWasSaid` | crates/lockframe-harness/src/model/world.rs:178-191 | so a client that enters with nothing queued from an earlier stay, and stays, has after a delivery exactly what was said since |
| `ModelBooks.AnswersFollowOperations` | crates/lockframe-harness/src/model/world.rs:136-298 | in every run each operation answers what that account says, and a member is never told its room does not exist |

## Left out

- OpenMLS itself, and most of the group and provider wrappers: an epoch, members, a pending flag and an outcome parameter stand for them; tree hash and serialised group state are not modelled.
- `add_members`, `remove_members` and `leave_room` of the room manager: only that a commit may become pending.
- Client-side signing, which covers header bytes 0 to 63 where the validator checks the 56-byte signing data: nothing is claimed of client-signed frames.
- The client's glue over MLS and CBOR (crates/lockframe-client/src/client.rs), which asks for sync by its own path: the paging loop is the one the payload documentation prescribes.
- CBOR: session payloads are datatypes, and one that does not decode is a case of its own.
- Transport, TLS, tracing, the simulation transport: input and output.
- The sending of broadcasts and of the driver's error frames: it changes no modelled state.
- The failure rate of chaotic storage: any operation may be refused.
- Error texts, flag tables, and opcodes beyond known or unknown.
- `Connection::handle_hello`, a variant of the Hello arm that makes up its own session id.
- The model client's per-room send counter and the world's observable snapshot.
- The bound on pending deliveries, a debug assertion, and zeroization of keys.
- Header setters change a copied value; they are functional updates here, so aliasing is not an issue they capture.
- The driver holds connections as values of the connection state, not as objects of `Connections.Connection`.
- Recipients and members are sets; the orders in which the source walks them are all covered by the loops' proofs, and not told apart.
- `Sync.SyncAll`: a page that storage refuses is an error reply, after which the client asks again; the loop is over the pages that are served.
- `Restarts.RecoveredLogIsSubsequence`: the condition on restarts is enough, not necessary; an outstanding batch may turn out harmless.
