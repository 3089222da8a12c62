# CodeComm commitments and coordination, modelled in Dafny

This project models the parts of the CodeComm daemon whose correctness is least visible from reading one
function: the hash commitments of `internal/chain`, the canonical JSON code of `internal/codec`, the snapshot
repository, the outbox workers and boot-origin lane of `internal/agent`, and three schedulers and allocators
of `cmd/codecommd`. Every result is for all inputs, all runs or all reachable states.

## How it is organised

- **Bytes and text.** `Wrappers`, `Bytes`, `CanonicalJson` (values and their compact printing), `CanonicalProfile`, `ObjectScanner` and
  `ObjectMembers` (the printing is self-delimiting and injective), `MemberRemoval` (the byte scanner that cuts a
  member out), `JsonProfile` (the recursive validator over tokens), `SurrogateEscapes`.
- **Commitments.** `HashChain`, `ResultChain`, `ChainMethods`; `KeyedOrder`, `Mapping`, `Mutations`, `MutationCodec`,
  `MutationMethods`, `MutationDecoding`, `Accumulator`; `StateDigest`, `StateDigestProofs`, `StateCommitment`,
  `StateDigester`; `CoveredTables` (the concrete registry).
- **Snapshot repository.** `SnapshotModel` (critical sections and steps), `SnapshotSafety` (the invariant),
  `SnapshotTheorems`, `SnapshotPaths`, `SnapshotRace` and `SnapshotPublisher` (directories), `SnapshotRepository` (the object and its loops).
- **Agents.** `OutboxWorkers`, `BootOriginLane`, `BootQueues`.
- **Daemon.** `DiscoveryAssignment`, `CheckpointCadence`, `VersionReportGate`.

## Conventions

- SHA-256 is an arbitrary function `H` from byte strings to 32 bytes. Injectivity is never assumed. "Or a collision" always
  means `CollisionBetween`: two different strings, one hashed in each computation, with equal hashes. A bare "a
  collision exists" would be true of every such function.
- Concurrent code is a state machine whose steps are the critical sections under the code's own lock; runs are arbitrary
  interleavings. Artifacts and workers are objects with an identity of their own, because one ID or scope can be carried by
  several of them over time.
- Clocks, leadership, consensus outcomes, durable stores and file removal are parameters or nondeterministic steps.
- The commitment results are proved for any schema whose table names differ and whose valid keys and rows are array and
  object texts within the codec's size limits; `CoveredTables` shows that the repository's registry is one.

## Where the code falls short of a simple statement

- **Republishing (`SnapshotPaths`, `SnapshotRace`, `SnapshotPublisher`).** At the level of objects no artifact with an open transfer is
  ever handed to removal. A directory, however, is named by the artifact ID, and `publish` accepts an ID that is still
  published. If that artifact is no longer among the two newest and its handoff ends while the publish is under way, the ID is
  retired and then registered as a second object on the same directory, and the cleanup of one object removes files under a
  transfer of the other. The condition "the ID is unpublished or among the two newest when the publish begins" is exact.
  The daemon never sends such an input: its publisher first asks for capacity for a new artifact, and every run
  of the daemon is proved safe without a condition.
- **Due time (`CheckpointCadence`).** Wake-ups can push a checkpoint's due time back in two ways: the event threshold is raised while the checkpoint
  was due by count, or durable (wall-clock) elapsed time governed and the wall clock then advanced less than the
  monotonic clock. There is no third way. The bound of one interval from the first local observation holds regardless.
- **Address assignment (`DiscoveryAssignment`).** The greedy second phase can give away an address that another class needed. On given
  interfaces every refresh serves every class maximally if and only if no address is eligible in two classes, which a
  caller can check on the interfaces alone.
- **Version reports (`BootOriginLane`).** A report reserved while commands of this boot are queued stands behind them, and the barrier it
  raises keeps the lane from forwarding them: it is forwarded by the lane alone exactly when the queue was empty when it was
  reserved. Otherwise only commits that arrive without the lane can free it, and the drain reports an integrity failure.
- **Wrapped results (`ResultChain`).** A proposal or outcome that uses all 32 levels is canonical alone and refused once wrapped in a result.

## Design note

The member scanner of `MemberRemoval` relies on the canonicality check that `RemoveCanonicalObjectMember` makes before it: on `{"a":{}`
the scan alone would index past the end.

Draining through a report (`BootQueues.DrainScopeThrough`) does not stop at the report when its collision finds it resolved already, and
then fails if another command is next. Nothing is ever queued behind a report that this boot reserved
(`BootOriginLane.ReportKeepsItsPlace`), so this concerns only reports that an earlier boot queued without installing them.

## Model

| member | source | states |
|---|---|---|
| `Bytes.Uint64Injective` | internal/chain/hash.go:132-136 | eight big-endian bytes determine their integer on the whole 64-bit range |
| `Bytes.SafeIntegerLeadsWithZero` | internal/chain/hash.go:132-136 | an exact integer (at most 2^53-1) always starts with a zero byte; the separation of seeds from appends rests on this |
| `HashChain.LabelsSeparate` | internal/chain/hash.go:120-130 | strings framed under different domain labels never coincide, and the frame determines label and content |
| `HashChain.SeedContentInjective` | internal/chain/hash.go:104-118 | a seed determines its whole generation boundary, also across generation 0 and successors |
| `HashChain.SeedIsNeverAppend` | internal/chain/hash.go:48-53 | no seed of any valid boundary hashes the same string as any append, although both use one label |
| `HashChain.HeadCommitsToHistory` | internal/chain/hash.go:32-53 | equal heads mean the same boundary and the same whole sequence of payloads, also for sequences of different length, or else two of the strings hashed collide |
| `HashChain.ChainsNeverCross` | internal/chain/hash.go:104-130 | heads of chains under two labels agree only when two of the strings hashed collide |
| `HashChain.ObjectTextIsPayload` | internal/chain/json.go:13-22 | the canonical text of any object begins with the brace that tells an append from a seed |
| `ChainMethods.DigestDomain` | internal/chain/hash.go:120-130 | feeding a hasher the label, a zero byte and the parts one by one hashes exactly the framed concatenation |
| `ChainMethods.ChainSeed` | internal/chain/hash.go:72-118 | refuses exactly the invalid boundaries and otherwise returns the head of the empty history |
| `ChainMethods.AppendPayload` | internal/chain/hash.go:120-130 | the hashing of an append takes the head of any history to the head of that history with one more payload |
| `ChainMethods.AppendEvent` | internal/chain/hash.go:48-53 | refuses exactly the payloads that are not canonical objects; otherwise returns the head of the longer event history |
| `ChainMethods.AppendResult` | internal/chain/result.go:286-292 | refuses exactly the invalid results; otherwise returns the head of the longer result history and the result's text |
| `ChainMethods.AccumulatorSeed` | internal/chain/hash.go:57-70 | both accumulator seeds are the heads of the empty step sequence |
| `ChainMethods.AppendAccumulator` | internal/chain/projection.go:255-284 | accepts exactly a positive exact index with encodable mutations, moves the head of any step sequence to the head of the longer one, and returns the canonical mutation bytes |
| `ResultChain.EncodeResult` | internal/chain/result.go:194-264 | refuses exactly the results whose index, outcome, proposal digest or chain tuple is inconsistent, whose parts are not canonical, or that are too deep or too large once wrapped; otherwise prints the closed six-member object |
| `ResultChain.WrappingCostsOneLevel` | internal/chain/result.go:243-264 | the second canonicalisation accepts exactly when proposal and outcome fit one level deeper |
| `ResultChain.DeepestProposalIsRefused` | internal/chain/result.go:243-264 | a proposal of 32 levels is canonical alone and refused once wrapped |
| `ResultChain.ResultTextInjective` | internal/chain/result.go:194-264 | the encoding of a result determines every field of it |
| `ResultChain.ResultHeadCommits` | internal/chain/result.go:286-292 | equal result-chain heads mean the same boundary and the same results in order and number, or a collision among the strings hashed |
| `ResultChain.EventHeadIsNeverResultHead` | internal/chain/hash.go:11-13 | an event-chain head equals a result-chain head only on such a collision |
| `Accumulator.EncodingNeverSixteen` | internal/chain/projection.go:196-251 | no mutation encoding is 16 bytes long; this is the length at which a successor seed and an append could coincide |
| `Accumulator.SeedIsNeverStep` | internal/chain/hash.go:57-70 | neither kind of accumulator seed hashes the same string as any append |
| `Accumulator.SeedBytesInjective` | internal/chain/hash.go:57-70 | an initial seed is never a successor seed, and each determines its inputs |
| `Accumulator.StepBytesInjective` | internal/chain/projection.go:255-284 | an append string determines the previous head, result index, result hash and set of mutations |
| `Accumulator.AccumulatorCommitsToHistory` | internal/chain/projection.go:255-284 | equal accumulator heads mean the same seed kind and inputs and, step by step, the same index, hash and mutation set, or a collision among the strings hashed |
| `KeyedOrder.SortSorts` | internal/chain/projection.go:93-101 | sorting by covered-table position and key bytes gives a sorted arrangement of the same records |
| `KeyedOrder.NeighboursSuffice` | internal/chain/projection.go:512-521 | comparing neighbours after sorting finds every repeated key |
| `KeyedOrder.SortIgnoresOrder` | internal/chain/projection.go:93-101 | records with distinct keys have one sorted arrangement, whatever order they came in |
| `Mutations.Lookup` | internal/chain/types.go:442-449 | a name is found exactly when the registry holds it, at its position |
| `MutationMethods.EncodePrepared` | internal/chain/projection.go:196-251 | the byte-appending loops produce the canonical array text, and give up exactly when it exceeds the byte ceiling |
| `MutationMethods.PrepareLoop` | internal/chain/projection.go:27-91 | accepts exactly when every mutation is valid; an unknown table is reported only at the first invalid mutation |
| `MutationMethods.RepeatedNeighbour` | internal/chain/projection.go:102-111 | finds a repeated neighbour exactly when there is one |
| `MutationMethods.EncodeMutations` | internal/chain/projection.go:27-114 | every outcome: success exactly for valid, duplicate-free sets within the ceiling, with the canonical encoding |
| `MutationCodec.EncodeTextIsPrint` | internal/chain/projection.go:196-251 | the appended bytes are the compact printing of an array of four-member objects |
| `MutationCodec.EncodingInjective` | internal/chain/projection.go:27-114 | equal encodings come from the same set of mutations |
| `MutationCodec.EncodingIgnoresOrder` | internal/chain/projection.go:27-114 | the encoding and its success do not depend on input order |
| `MutationDecoding.ElementsOfPrint` | internal/chain/projection.go:118-187 | splitting the printed array yields exactly the printed items |
| `MutationDecoding.WireOfEncoding` | internal/chain/projection.go:118-187 | reading the entries of an encoding gives back the sorted mutations |
| `MutationDecoding.SortedReencodes` | internal/chain/projection.go:118-187 | the decoded mutations are sorted, encodable, and encode to the same bytes |
| `MutationDecoding.DecodeMutations` | internal/chain/projection.go:118-187 | accepts exactly the byte strings the encoder can produce, returns the same set in canonical order, and re-encoding gives the input back |
| `CoveredTables.CoveredSchemaWellFormed` | internal/chain/types.go:160-440 | the seventeen covered tables with the validators of rows and keys form a schema for which every commitment result holds |
| `CoveredTables.RowFixesKey` | internal/chain/json.go:102-165 | no logical row is valid under two primary keys of a table |
| `CoveredTables.KeyReadingUnique` | internal/chain/json.go:24-75 | a valid primary key has exactly one reading as components |
| `StateDigestProofs.NextTableInv` | internal/chain/projection.go:431-460 | leaving a table folds its digest into the state exactly once and starts the next table empty |
| `StateDigestProofs.AppendMeaning` | internal/chain/projection.go:352-405 | a row is taken exactly when it may follow the accepted rows: valid, strictly next in order, earlier counts met, room left; a refused row leaves the digester standing for the same rows |
| `StateDigestProofs.SumMeaning` | internal/chain/projection.go:409-429 | Sum succeeds exactly when every declared count is met and then returns the nested row/table/state digest of the accepted rows |
| `StateDigestProofs.ContinuationsExact` | internal/chain/projection.go:352-429 | from any unfinished state the successful continuations are exactly those that complete the accepted rows |
| `StateDigestProofs.SumAfterAnyCalls` | internal/chain/projection.go:352-460 | after any mix of accepted and refused calls Sum answers for exactly the accepted rows |
| `StateDigestProofs.RefusalChangesNoFuture` | internal/chain/projection.go:352-460 | a refused append or failed sum leaves the outcome of every continuation as it was |
| `StateCommitment.RowPreimageInjective` | internal/chain/projection.go:561-574 | a row digest string determines table, key and row |
| `StateCommitment.TableCommits` | internal/chain/projection.go:431-460 | equal table digests mean equal counts and equal rows, or a collision |
| `StateCommitment.StateDigestCommits` | internal/chain/projection.go:464-544 | equal state digests mean equal versions, counts and rows, or a collision among the state, table and row strings hashed |
| `StateDigester.Digester.constructor` | internal/chain/projection.go:308-348 | a new digester stands for no rows |
| `StateDigester.Digester.LeaveTable` | internal/chain/projection.go:447-460 | one step of finishing a table and starting the next |
| `StateDigester.Digester.Append` | internal/chain/projection.go:352-405 | takes a row exactly when it may follow the rows taken; otherwise keeps them |
| `StateDigester.Digester.Sum` | internal/chain/projection.go:409-429 | succeeds exactly on complete rows, returns their specified digest, and repeats it |
| `StateDigester.NewStateDigester` | internal/chain/projection.go:308-348 | refused exactly for bad versions or a count vector that does not name the registry in order with exact counts |
| `StateDigester.StreamAll` | internal/chain/projection.go:530-544 | feeding a complete list in order: every append is taken and the sum is its specified digest |
| `StateDigester.BatchDigest` | internal/chain/projection.go:464-544 | the batch form fails only for bad versions, an invalid row, a repeated key, or more rows than an exact integer counts; its streaming phase never fails otherwise, and the digest is the nested specification on the sorted rows |
| `StateDigester.BatchIgnoresOrder` | internal/chain/projection.go:464-544 | validity, duplicate keys, the too-many-rows refusal and the digest are the same for every reordering of the rows |
| `ObjectScanner.ValueSpanOfPrint` | internal/codec/object.go:147-195 | the one-counter bracket scanner returns exactly the length of a compact value, whatever follows it |
| `ObjectScanner.PrintPrefixFree` | internal/codec/object.go:147-195 | compact values are self-delimiting before a comma or closing bracket |
| `ObjectMembers.PrintInjective` | internal/codec/canonical.go:53-63 | the compact text determines the value |
| `MemberRemoval.ScanString` | internal/codec/object.go:129-145 | the index loop finds the end of the string literal, or that there is none |
| `MemberRemoval.ScanContainer` | internal/codec/object.go:147-195 | the depth, in-string and escape loop finds the end of the container |
| `MemberRemoval.ScanValue` | internal/codec/object.go:147-195 | dispatching on the first byte finds the end of any value |
| `MemberRemoval.ScanObjectMembers` | internal/codec/object.go:71-127 | the member loop computes the object scan, including where it would index past the end |
| `MemberRemoval.ScanFindsGrammarSpans` | internal/codec/object.go:71-127 | on every compact object the scan stays in range and returns exactly the key and value spans of the grammar |
| `MemberRemoval.UncheckedScanRunsOffTheEnd` | internal/codec/object.go:71-127 | on a text that is not canonical the same scan can index past the end, so it depends on the canonicality check before it |
| `MemberRemoval.RemoveCanonicalObjectMember` | internal/codec/object.go:20-61 | each outcome; on success the bytes are the exact printing of the object without the member, plus that value exactly |
| `MemberRemoval.InsertUndoesRemoval` | internal/codec/object.go:20-61 | re-inserting the removed member at its place in key order restores the object |
| `CanonicalJson.UnescapeEscape` | internal/codec/object.go:71-127 | decoding an escaped key gives the key back |
| `JsonProfile.DecimalNumberOk` | internal/codec/canonical.go:193-206 | a decimal integer passes the number check exactly when it lies within plus or minus 2^53-1 |
| `JsonProfile.ConsumeSound` | internal/codec/canonical.go:109-191 | whatever is accepted is a value within the depth limit, without repeated keys, with exact integers only, followed by the untouched rest |
| `JsonProfile.ConsumeComplete` | internal/codec/canonical.go:109-191 | every such value is accepted and returned, and exactly the following tokens remain |
| `JsonProfile.ConsumeExact` | internal/codec/canonical.go:109-191 | acceptance is equivalent to the profile |
| `JsonProfile.TokensPrefixFree` | internal/codec/canonical.go:109-191 | token streams of values are self-delimiting |
| `JsonProfile.ConsumeObject` | internal/codec/canonical.go:141-166 | the member loop with its key set computes the recursive specification |
| `JsonProfile.ConsumeArray` | internal/codec/canonical.go:167-176 | the item loop computes the recursive specification |
| `JsonProfile.ValidateTokens` | internal/codec/canonical.go:83-107 | accepts exactly one value of the profile with nothing after it, and returns it |
| `SurrogateEscapes.HexCodeUnit` | internal/codec/canonical.go:246-265 | reads four hexadecimal digits of either case as a sixteen-bit unit, or refuses |
| `SurrogateEscapes.PairsIsWellPaired` | internal/codec/canonical.go:208-244 | reading pairs from left to right agrees with the position-wise statement: a high surrogate is followed by a low one and a low one never stands alone |
| `SurrogateEscapes.OutsideExact` | internal/codec/canonical.go:208-244 | on every JSON text the scan accepts exactly when all literals are well paired |
| `SurrogateEscapes.ValidateSurrogateEscapes` | internal/codec/canonical.go:208-244 | the index loops stay in bounds on every byte string and decide exactly that |
| `SnapshotSafety.NewerStrict` | cmd/codecommd/snapshot_repository.go:1771-1790 | the newer-than comparison is a strict order that decides any two different artifact IDs |
| `SnapshotSafety.PruneKeeps` | cmd/codecommd/snapshot_repository.go:348-394 | retiring keeps the whole invariant: it claims exactly the idle retired objects, once each, and never the latest |
| `SnapshotSafety.CloseTransferKeeps` | cmd/codecommd/snapshot_repository.go:821-844 | releasing a transfer keeps it, including the hand-over to cleanup of the last reader |
| `SnapshotSafety.CleanupStepKeeps` | cmd/codecommd/snapshot_repository.go:407-489 | scheduling, cancelling, starting and finishing a cleanup keep it |
| `SnapshotSafety.RegisterKeeps` | cmd/codecommd/snapshot_repository.go:1060-1079 | registering an artifact keeps it, for a known ID and for a new object |
| `SnapshotSafety.ExpireKeeps` | cmd/codecommd/snapshot_repository.go:537-561 | an expiring timer keeps it, and a timer that must be re-armed exists |
| `SnapshotSafety.StepKeeps` | cmd/codecommd/snapshot_repository.go:348-590 | every atomic step keeps it |
| `SnapshotSafety.RunKeeps` | cmd/codecommd/snapshot_repository.go:348-590 | so does every run |
| `SnapshotTheorems.OpenTransfersAreNeverRemoved` | cmd/codecommd/snapshot_repository.go:563-590 | in every interleaving an object with an open transfer is owned by no cleanup, each counter equals the number of unclosed transfers, and no object has two cleanups |
| `SnapshotTheorems.LatestIsNewest` | cmd/codecommd/snapshot_repository.go:491-513 | the latest artifact is the newest ever registered, is published, and is never retired |
| `SnapshotTheorems.AtMostThreeArtifacts` | cmd/codecommd/snapshot_repository.go:1086-1108 | published and retired artifact IDs together never exceed three, however long deletion is delayed |
| `SnapshotTheorems.HandoffHonoured` | cmd/codecommd/snapshot_repository.go:491-535 | a root returned at time t can be opened at every later time before t plus the handoff lifetime, through any steps, unless the repository closes |
| `SnapshotPaths.CarefulRunsArePathSafe` | cmd/codecommd/snapshot_repository.go:1086-1108 | if no publish reuses an ID that is published beyond the two newest, no directory is removed under an open transfer |
| `SnapshotRace.RepublishingCanRemoveAnOpenDirectory` | cmd/codecommd/snapshot_repository.go:1060-1108 | from every state in which an ID is published beyond the two newest, a publish of it, which the repository accepts, can end with its directory owned by a cleanup under an open transfer: the condition is exact |
| `SnapshotRace.RiskIsReachable` | cmd/codecommd/snapshot_repository.go:491-535 | states with an ID published beyond the two newest arise in ordinary runs, so the condition on the next publish is not empty |
| `SnapshotPublisher.TwoAreNewest` | cmd/codecommd/snapshot_repository.go:1086-1108 | with at most two published artifacts every published ID is among the two newest |
| `SnapshotPublisher.DaemonRunsAreCareful` | cmd/codecommd/snapshot_publisher.go:192-261 | the publisher asks for capacity for a new artifact before each publish, so every publish the daemon begins meets the condition |
| `SnapshotPublisher.DaemonRunsArePathSafe` | cmd/codecommd/snapshot_publisher.go:192-261 | in every run of the daemon no directory is removed under an open transfer |
| `SnapshotRepository.SortNewest` | cmd/codecommd/snapshot_repository.go:362-368 | lists the published artifacts newest first |
| `SnapshotRepository.ThirdOnIsBeyond` | cmd/codecommd/snapshot_repository.go:366-384 | the positions from the third on are exactly the artifacts with two newer published ones |
| `SnapshotRepository.Repository.MoveExpired` | cmd/codecommd/snapshot_repository.go:362-384 | the first loop moves exactly the expired artifacts beyond retention |
| `SnapshotRepository.Repository.ClaimIdle` | cmd/codecommd/snapshot_repository.go:385-393 | the second loop claims each idle retired object once |
| `SnapshotRepository.Repository.RetireSnapshotArtifacts` | cmd/codecommd/snapshot_repository.go:348-394 | refused exactly when closed; otherwise the transition of the model, with its claims as a list without repeats |
| `SnapshotRepository.Repository.LatestSnapshot` | cmd/codecommd/snapshot_repository.go:491-535 | returns the latest root and reserves its handoff |
| `SnapshotRepository.Repository.ExpireSnapshotHandoff` | cmd/codecommd/snapshot_repository.go:537-561 | clears an expired handoff and re-arms a pending one |
| `SnapshotRepository.Repository.OpenSnapshotTransfer` | cmd/codecommd/snapshot_repository.go:563-590 | opens exactly a published artifact with this root, unless closed |
| `SnapshotRepository.Repository.ReleaseSnapshotTransfer` | cmd/codecommd/snapshot_repository.go:821-844 | gives up one transfer and says whether its caller must schedule a cleanup |
| `SnapshotRepository.Repository.FinishRetiredCleanup` | cmd/codecommd/snapshot_repository.go:471-489 | acts only on the object the retired map holds |
| `SnapshotRepository.Repository.RegisterArtifact` | cmd/codecommd/snapshot_repository.go:1060-1079 | keeps a known object, refuses changed metadata, and moves latest to the newer artifact |
| `SnapshotRepository.AtMostTwoNewest` | cmd/codecommd/snapshot_repository.go:369-384 | at most two artifacts have fewer than two newer ones |
| `SnapshotRepository.KeepsTwoNewest` | cmd/codecommd/snapshot_repository.go:301-303 | the prune after loading keeps exactly the two newest artifacts |
| `SnapshotRepository.CleanAll` | cmd/codecommd/snapshot_repository.go:333-345 | every candidate is tried; those whose files cannot be removed stay retired and unclaimed, and failure is reported exactly when there is one |
| `SnapshotRepository.Load` | cmd/codecommd/snapshot_repository.go:211-346 | a successful open keeps exactly the artifacts with fewer than two newer ones, with nothing retired and the newest as latest; it fails only when files cannot be removed |
| `OutboxWorkers.WakeKeeps` | internal/agent/worker.go:33-58 | a wake leaves a token with the mapped worker or starts one with a token, keeping the whole invariant |
| `OutboxWorkers.DecideKeeps` | internal/agent/worker.go:267-280 | a worker that saw an empty queue either consumes a token or leaves the map in the same critical section |
| `OutboxWorkers.CommitKeeps` | internal/agent/worker.go:157-202 | whatever commits, commits at the head of its queue, even when its apply call had failed and nobody holds it |
| `OutboxWorkers.AbandonKeeps` | internal/agent/worker.go:165-202 | abandoning an unresolved collision takes the head out of its queue once and fails the service |
| `OutboxWorkers.RunKeeps` | internal/agent/worker.go:60-106 | the invariant holds in every run |
| `OutboxWorkers.OneDrainerPerScope` | internal/agent/worker.go:60-78 | at most one worker of a scope may drain it; commands leave their queue once each, in the order accepted, and unless the service has failed each of them committed |
| `OutboxWorkers.NoWakeIsLost` | internal/agent/worker.go:264-288 | while the service is neither closed nor failed, a queued command whose wake was published has a mapped active worker that holds a token or has not seen the queue empty |
| `OutboxWorkers.WokenCommandCanSettle` | internal/agent/worker.go:60-203 | from every healthy state the workers alone can settle such a command, without another wake |
| `OutboxWorkers.Service.WakeScope` | internal/agent/worker.go:33-58 | the locked wake operation |
| `OutboxWorkers.Service.ConsumeWakeOrRetire` | internal/agent/worker.go:267-280 | continues exactly on a token; otherwise the scope is unmapped |
| `OutboxWorkers.Service.RemoveWorker` | internal/agent/worker.go:282-288 | takes away only the worker's own entry |
| `BootOriginLane.ExclusiveAlone` | internal/agent/boot_origin.go:1487-1533 | the weights alone keep everyone else off the lane while its whole capacity is held |
| `BootOriginLane.ReportChanges` | internal/agent/version_report.go:262-296 | a report is installed or cleared only while every other task is off the lane |
| `BootOriginLane.StepKeeps` | internal/agent/boot_origin.go:1224-1343 | every step keeps the invariant |
| `BootOriginLane.NoReservationPastAReport` | internal/agent/boot_origin.go:1499-1512 | in every run no boot-scope reservation is made while a version report is installed |
| `BootOriginLane.OnlyTheReportIsForwarded` | internal/agent/boot_origin.go:1224-1268 | while a report is installed nothing is forwarded but that report |
| `BootOriginLane.PushKeeps` | internal/agent/boot_origin.go:1487-1533 | only the holder of the lane can add to this boot's queue, so a queue seen empty under the whole lane stays empty until the operation starts |
| `BootOriginLane.OperationStartsClean` | internal/agent/boot_origin.go:341-530 | an exclusive or ordered operation starts with no report, with this boot's queue still as empty as its task saw it, and with everyone else off the lane |
| `BootOriginLane.OperationRunsAlone` | internal/agent/boot_origin.go:341-530 | until it ends, this boot's queue is the old one followed by exactly what the operation reserves, less what pairing settles at its head, and no report appears |
| `BootOriginLane.ReleasedOnlyWhenResolved` | internal/agent/version_report.go:144-188 | every report ever installed is still installed or resolved |
| `BootOriginLane.ReportKeepsItsPlace` | internal/agent/boot_origin.go:1224-1268 | until an installed report is resolved, the queue it waits in is what it was, less what commits elsewhere at its head; nothing is queued behind a report this boot reserved |
| `BootOriginLane.ReportSettlesExactly` | internal/agent/boot_origin.go:1131-1136 | the lane can forward an installed report exactly when everything that stood before it has committed elsewhere |
| `BootOriginLane.ReservedReportSettlesExactly` | internal/agent/version_report.go:54-113 | a newly reserved report can be forwarded by the lane alone exactly when this boot's queue was empty when it was reserved |
| `BootOriginLane.ReportBehindACommand` | internal/agent/version_report.go:54-113 | reports are reserved behind commands in ordinary runs |
| `BootOriginLane.LaneNeverOverflows` | internal/agent/boot_origin.go:1487-1533 | the counter stays within the capacity, with at most one exclusive holder and then no shared one |
| `BootQueues.DrainScopeThrough` | internal/agent/boot_origin.go:1106-1222 | while other commands keep arriving, draining settles the longest prefix that can be settled and reports empty only when nothing that has arrived is left; with a report to stop after it settles nothing else, and fails when that report is not the head or when its resolved collision leaves another command at the head |
| `BootQueues.FindPendingVersionReport` | internal/agent/version_report.go:190-260 | finds a report exactly when it is the only one, sound, and head of its scope; refuses any other record set with a report |
| `DiscoveryAssignment.SortSelectors` | cmd/codecommd/discovery_runtime.go:1294-1308 | an ordered arrangement of the same selectors |
| `DiscoveryAssignment.RefreshedSound` | cmd/codecommd/discovery_runtime.go:1091-1118 | no address is given twice and every address given is eligible |
| `DiscoveryAssignment.KeepExact` | cmd/codecommd/discovery_runtime.go:1096-1105 | a still-eligible previous address is lost exactly to another selector that kept the same one |
| `DiscoveryAssignment.PreviousBindingsKept` | cmd/codecommd/discovery_runtime.go:1096-1105 | with injective previous bindings every still-eligible one is kept |
| `DiscoveryAssignment.FillSaturates` | cmd/codecommd/discovery_runtime.go:1106-1118 | a selector is left without an address only when all its eligible addresses are used |
| `DiscoveryAssignment.AlwaysMaximumExactly` | cmd/codecommd/discovery_runtime.go:1091-1118 | on given interfaces every refresh, for all previous bindings and sorted selectors, serves every interface, family and scope class maximally exactly when no address is eligible in two classes |
| `DiscoveryAssignment.SharingLoses` | cmd/codecommd/discovery_runtime.go:1091-1118 | a shared address always admits previous bindings and selectors on which a class gets fewer addresses than it could |
| `DiscoveryAssignment.MaximumPerClassExactly` | cmd/codecommd/discovery_runtime.go:1091-1118 | one refresh serves a class maximally exactly when no selector of the class goes without an address that another class holds and it could take |
| `DiscoveryAssignment.MaximumPerClass` | cmd/codecommd/discovery_runtime.go:1091-1118 | in particular when interfaces share no address |
| `DiscoveryAssignment.SharedAddressLosesASelector` | cmd/codecommd/discovery_runtime.go:1106-1118 | with a shared address the greedy phase can leave a selector unserved that another assignment serves |
| `DiscoveryAssignment.RefreshIsAFixpoint` | cmd/codecommd/discovery_runtime.go:1091-1118 | refreshing again on the same interfaces changes nothing |
| `DiscoveryAssignment.IndexByName` | cmd/codecommd/discovery_runtime.go:1009-1022 | refuses exactly repeated names among the listed interfaces, and otherwise indexes them |
| `DiscoveryAssignment.Advertise` | cmd/codecommd/discovery_runtime.go:1119-1136 | advertises for each interface, family and scope with a binding the least bound address, and nothing else |
| `DiscoveryAssignment.RefreshSelection` | cmd/codecommd/discovery_runtime.go:999-1147 | every refusal: no or repeated selectors, no port, repeated interface names, unreadable addresses of a selected interface; otherwise the loops compute that assignment for the sorted selectors and what it advertises |
| `CheckpointCadence.SteadyKeepsFirst` | cmd/codecommd/checkpoint_scheduler.go:439-513 | over a run with one lineage, baseline and interval the cadence refuses nothing and keeps its first local observation |
| `CheckpointCadence.DueWithinOneInterval` | cmd/codecommd/checkpoint_scheduler.go:439-513 | however the wall clock jumps, the checkpoint is due now or within one interval of that observation |
| `CheckpointCadence.DuePushedBackExactly` | cmd/codecommd/checkpoint_scheduler.go:439-513 | a later reading moves the due time back exactly when it does not find the checkpoint due and either the event threshold had been reached before, or durable elapsed time governed and the wall clock then advanced less than the monotonic one |
| `CheckpointCadence.RunPushedBackExactly` | cmd/codecommd/checkpoint_scheduler.go:439-513 | over every run with one lineage, baseline and interval some wake-up pushes the due time back exactly when some step does |
| `CheckpointCadence.DueNeverPushedBack` | cmd/codecommd/checkpoint_scheduler.go:439-513 | not when the wall clock keeps up and the event threshold is never raised |
| `CheckpointCadence.BackwardWallClockDelaysTheCheckpoint` | cmd/codecommd/checkpoint_scheduler.go:439-513 | a backward step of the wall clock does |
| `CheckpointCadence.RaisedThresholdDelaysTheCheckpoint` | cmd/codecommd/checkpoint_scheduler.go:491-495 | raising the event threshold of a checkpoint that was due by count does |
| `CheckpointCadence.NextRetry` | cmd/codecommd/checkpoint_scheduler.go:594-602 | the halving test computes doubling that saturates at the maximum |
| `CheckpointCadence.TurnKeeps` | cmd/codecommd/checkpoint_scheduler.go:288-437 | what one turn of the loop keeps |
| `CheckpointCadence.RunScheduler` | cmd/codecommd/checkpoint_scheduler.go:288-437 | unless it fails, the loop forces a checkpoint at exactly the turns where one is due and this node leads; committed ones in an unbroken lineage lie at strictly increasing baselines; every retry delay stays between its bounds; it gives up exactly for a failed or unreadable source, a refused reading, a committed checkpoint that did not advance the baseline, or a final failure while one was due |
| `VersionReportGate.Gate.ReportOnce` | cmd/codecommd/version_report.go:265-339 | one report: on a matching read it is settled; otherwise a next one is reserved only when the version advanced or the one retry at the same version is unused, and the lexicographic measure shrinks |
| `VersionReportGate.Gate.SynchronizeOnce` | cmd/codecommd/version_report.go:340-383 | synchronisation happens once and either leaves membership matching or starts another report |
| `VersionReportGate.Gate.Finish` | cmd/codecommd/version_report.go:384-408 | the barrier is completed only for the settled report, and agents are recovered last |
| `VersionReportGate.Gate.Run` | cmd/codecommd/version_report.go:256-414 | ends against every environment; ready only when the last membership read matched and agents were recovered after it; a barrier is completed only for a report awaited to an outcome, followed by a matching read, with nothing reserved since; a report is reserved only right after a read that did not match, at the version read; every call but the last made succeeded; it ends ready unless closed, failed, or the last call was cancelled, and fails only because that last call erred or an awaited report left membership unmatched |
| `VersionReportGate.Gate.Bind` | cmd/codecommd/version_report.go:482-498 | agents bind exactly through a ready gate that is neither closed nor failed, and then the last membership read matched this binary and agents were recovered after it |

## Left out

- The general JSON decoder: member and element texts of canonical input are read with the compact scanners proved here; white space, and numbers in other than plain decimal form, are outside the printed grammar.
- UTF-8 validity and the JCS library: the outcome of canonicalising and comparing is a parameter of the member removal and of the event append; the canonical text of a value is its compact printing.
- SHA-256, Ed25519, random IDs: abstract or absent. The base64url text of a digest is an arbitrary injective function in `ResultChain`.
- `DecodeResult`: only the encoding direction of results is modelled.
- `GenesisDigest`: one call of the framed hash.
- MutationMethods.EncodeMutations: `sort.Slice` is a sorting function on values, not an in-place permutation.
- SnapshotRepository.Load: staging directories, inventory synchronisation and the validation of artifact files are not modelled; loading starts from the list of valid roots with distinct, nonempty IDs.
- SnapshotSafety.RegisterKeeps: the root registered carries the ID that the publish was started for, as the builder guarantees; building, staging and promotion are a gap in time between two steps.
- OutboxWorkers.NoWakeIsLost: the durable store is a queue per scope; a store closed under a running service is treated as the service being closed.
- BootOriginLane.OperationStartsClean: the semaphore's waiting queue and fairness are not modelled; any order of acquisition is allowed.
- BootQueues.DrainScopeThrough: finitely many commands arrive during one drain; with endless arrivals the loop need not end.
- DiscoveryAssignment.RefreshSelection: listeners and the normalisation of raw interface addresses are not modelled; within one interface, family and scope addresses are compared by value.
- CheckpointCadence.RunScheduler: cancellation of the context and failing timers end the loop early and are not distinguished; a zero clock reading is not modelled.
- VersionReportGate.Gate.Run: a close during the run is visible only through the closed flag read at its end.
- The command-line client, TLS, HTTP, certificates, multicast and listeners, settled replication, credential renewal, pairing, daemon start-up, Raft, the reducer and the store: input, output or code outside the modelled packages.
