# SteadQ in Dafny

SteadQ is a queue made of files: jobs are names in a directory tree, and every step of a job is one rename that never
overwrites. This project models the parts its correctness rests on and proves what they promise, for every input and every
failure the file system may report; for the job protocol and the wall floor also for every interleaving of processes, and
for a recovery pass for whatever others do to the tree between its steps.

| file | what it models |
|---|---|
| `CborFormat`, `CborEncode`, `CborDecode`, `CborItemProofs`, `CborTheorems` | the deterministic CBOR extension header (a restricted form of section 4.2.1 of RFC 8949): validator, encoder, bounded recursive parser, both round trips |
| `RetryLedger`, `RetryProofs`, `RetryFairness`, `RetryDurability` | the recovery cursor's ledger of directories to retry, in memory and on disk |
| `ScanBudget`, `ScanLimits` | bounded and streamed directory reads under three shared budgets |
| `PhaseCycle` | the five-phase recovery loop over passes |
| `StateMachine`, `JobProtocol`, `JobTheorems` | the transition table, identities and tickets, and the shared namespace of job names |
| `SpecValidator` | the validator of the protocol specification |
| `Backoff`, `WallFloor` | retry delays, time buckets and the rollback-safe wall floor |
| `QuarantinePublish`, `PassConservation` | moving objects into quarantine within an operation budget; what a whole pass does to every object |
| `Fsck`, `FsckTheorems` | the consistency check and what its report means |
| `TransferLoops`, `ProcPath` | loops around partial reads and writes, and the descriptor path |
| `BinaryRecords`, `BinaryTheorems`, `QueueTheorems` | fixed-width records, job envelopes, and results across parts |
| `Common`, `Arithmetic`, `LexOrder`, `Utf8` | integers, division, lexicographic order, UTF-8 |

How to read it. Code that updates something in place (the parser, the encoder's buffer, the cursor, the counters, the
report, the namespace, byte buffers) is a class or a method with loops, proved equal to a function of the old state; the
theorems are about those functions. Clocks, directory contents, system-call results, random ids and hash values are
parameters, so a statement "for all" ranges over all of them. SHA-256 is an arbitrary function to 32 bytes. Rust strings
are byte sequences that are well-formed UTF-8; machine integers are ranges of `int` with wrap-around, saturation and
overflow checks written out where the code has them.

Five promises turned out to hold only with a condition. Each has its exact condition proved:

- Re-encoding a decoded extension header gives the same bytes exactly when the input carries no empty map under key 3
  (`DecodeThenEncode`, with the input of `ExplicitEmptyIsNotReencoded`).
- With jitter, the next retry delay is never shorter exactly while doubling stays within one of the cap, or the cap is one
  millisecond (`MonotoneExactly`, with the policy of `ShrinkingExample`).
- Re-encoding a FORMAT, receipt or watermark record gives the same bytes exactly when its minor version is 1
  (`FormatReencodes`, `ReceiptReencodes`, `WatermarkReencodes`); every record of minor version 2 is a counterexample
  (`LaterFormatIsNotReencoded`, `LaterReceiptIsNotReencoded`, `LaterWatermarkIsNotReencoded`).
- No floor falls into an earlier terminal bucket exactly when the terminal width is a multiple of the delayed width
  (`NoEarlierTerminalBucket`, `MultipleIsNeeded`), which `FormatRecord` enforces.
- Recording a failed directory keeps the cursor valid exactly when its components are canonical or the ledger is full
  (`RememberValidExactly`); the walk passes canonical names only.

Two bounds on the life of a job, both reached: the table and the tickets alone allow 3 * max + 3 steps besides renewals;
with the checks the consumer and the reaper add, there are at most 3 * max + 1 (`LimitedLifetime`).

## Model

| member | source | states |
|---|---|---|
| CborEncode.ValidateMetadataKey | crates/steadq-format/src/cbor.rs:123-138 | accepts exactly keys of 1 to 64 bytes from `[a-z0-9._-]` that start with a letter or digit |
| CborEncode.ValidateContentType | crates/steadq-format/src/cbor.rs:140-150 | accepts exactly 1 to 255 printable ASCII bytes, with the error of the first failing check |
| CborEncode.Validate | crates/steadq-format/src/cbor.rs:153-188 | accepts exactly the valid headers; an error is the fault of the earliest failing check, and within the metadata that of the least faulty key |
| CborEncode.OneFault | crates/steadq-format/src/cbor.rs:153-188 | which determines the error |
| CborEncode.KeysByEncodedBytes | crates/steadq-format/src/cbor.rs:225-237 | metadata keys come out in the order of their encoded bytes, each once |
| CborEncode.CborBuffer.EncodeHeader | crates/steadq-format/src/cbor.rs:95-111 | appends the shortest head of a value |
| CborEncode.CborBuffer.EncodeFields | crates/steadq-format/src/cbor.rs:193-266 | appends exactly the deterministic bytes of a header, keys ascending, absent fields left out |
| CborEncode.Encode | crates/steadq-format/src/cbor.rs:190-273 | succeeds exactly for valid headers of at most 65536 encoded bytes, with those bytes |
| CborFormat.HeadInjective | crates/steadq-format/src/cbor.rs:95-111 | two heads that start the same bytes have the same major type and value |
| CborFormat.SortedKeysUnique | crates/steadq-format/src/cbor.rs:236 | the sorted key list is the only ascending list of a key set |
| CborDecode.CborParser.ReadUint | crates/steadq-format/src/cbor.rs:310-363 | the parser's value, error and new position are those of the position-based specification |
| CborDecode.CborParser.ReadItem | crates/steadq-format/src/cbor.rs:365-454 | the same for a whole item, nesting depth restored on success |
| CborDecode.CborParser.ReadMap | crates/steadq-format/src/cbor.rs:413-436 | the same for a map body, entry by entry, after the length guards |
| CborDecode.DecodeMetadataMap | crates/steadq-format/src/cbor.rs:499-562 | the three loops over a metadata map compute its specification, errors included |
| CborDecode.CborParser.DecodeExtension | crates/steadq-format/src/cbor.rs:456-595 | the field loop computes the specified header or error |
| CborDecode.Decode | crates/steadq-format/src/cbor.rs:275-289 | the whole decoder equals the function `DecodeExact` describes |
| CborItemProofs.UintCanonical | crates/steadq-format/src/cbor.rs:310-363 | an accepted head is the shortest encoding of its value |
| CborItemProofs.ItemParseExact | crates/steadq-format/src/cbor.rs:365-454 | at every position the parser reads an item exactly when its canonical bytes are there and it fits the depth and size limits |
| CborTheorems.DecodeExact | crates/steadq-format/src/cbor.rs:275-595 | the decoder returns h exactly for a valid h in normal form and its encoding, or the same with an explicit empty metadata map |
| CborTheorems.EncodeThenDecode | crates/steadq-format/src/cbor.rs:190-289 | decoding an encoded header gives it back with each non-negative I64 as the equal U64 |
| CborTheorems.DecodeThenEncode | crates/steadq-format/src/cbor.rs:190-289 | encoding a decoded header gives the input back exactly when the input does not parse to a map with an empty map under key 3 |
| CborTheorems.DecodeInjective | crates/steadq-format/src/cbor.rs:275-289 | two accepted inputs of one header are equal exactly when both or neither carry that empty map |
| CborTheorems.ExplicitEmptyIsNotReencoded | crates/steadq-format/src/cbor.rs:221-222 | an input that decodes and re-encodes shorter |
| CborTheorems.MetadataSound | crates/steadq-format/src/cbor.rs:499-562 | an accepted metadata map is valid, in normal form, and its entries are those of its sorted keys |
| CborTheorems.MetadataComplete | crates/steadq-format/src/cbor.rs:499-562 | the sorted entries of any valid normal map pass the key, order and value checks |
| RetryLedger.RetryBelowIsTotal | crates/steadq-core/src/queue/cursors.rs:79-129 | the derived order on phase, kind and components is a strict total order |
| RetryLedger.RecoveryCursor.RememberRetry | crates/steadq-core/src/recovery.rs:1158-1198 | records the directory, flags its phase when the ledger is full, refuses names that are not UTF-8, and says which |
| RetryLedger.RecoveryCursor.PreparePhase | crates/steadq-core/src/recovery.rs:1241-1254 | clears the overflow flag together with the resume position, and picks the next retry |
| RetryLedger.RecoveryCursor.NextRetry | crates/steadq-core/src/recovery.rs:1256-1277 | the first pending retry beyond the frontier, else the first |
| RetryLedger.RecoveryCursor.RetryOne | crates/steadq-core/src/recovery.rs:1293-1421 | for any clock, open and read results: interrupted attempts change nothing, failed ones move the frontier, resolved ones drop the retry |
| RetryLedger.RecoveryCursor.Begin | crates/steadq-core/src/recovery/phases/promote.rs:21-30 | a phase start is preparation followed by one attempt |
| RetryProofs.RememberValidExactly | crates/steadq-core/src/recovery.rs:190-275 | recording a retry keeps the cursor valid exactly when it is canonical or the ledger is full |
| RetryProofs.FrontierCap | crates/steadq-core/src/recovery.rs:262-270 | frontiers sorted by phase are at most five |
| RetryProofs.RunValid | crates/steadq-core/src/recovery.rs:190-275 | every state of every run passes the validity check of a stored cursor |
| RetryProofs.FailureIsRecorded | crates/steadq-core/src/recovery.rs:1176-1197 | a failed directory is listed, or the ledger is full and its phase flagged |
| RetryProofs.ListedUntilResolved | crates/steadq-core/src/recovery.rs:1361-1420 | over every run a listed directory stays listed until an attempt of its own resolves it |
| RetryProofs.FlaggedUntilRestart | crates/steadq-core/src/recovery.rs:1241-1254 | over every run a flagged phase stays flagged until it starts, and then its scan starts over |
| RetryFairness.NextIsLeast | crates/steadq-core/src/recovery.rs:1256-1277 | the attempt takes the first pending retry in cyclic order from the frontier, and there is one exactly when any is pending |
| RetryFairness.Rotate | crates/steadq-core/src/recovery.rs:1279-1291 | moving the frontier to the first puts it last and keeps the others in order |
| RetryFairness.RoundRobin | crates/steadq-core/src/recovery.rs:1256-1421 | in any run that lists no new retry of the phase, whatever else happens in it, with at most as many completed attempts of the phase as retries are pending, a retry has one turn if fewer are ahead of it than there are attempts, else none |
| RetryFairness.FullRound | crates/steadq-core/src/recovery.rs:1256-1421 | with exactly as many attempts as pending retries each of them has exactly one turn, after the turns of exactly those ahead of it |
| RetryFairness.TurnsBringCloser | crates/steadq-core/src/recovery.rs:1158-1421 | over every run, until its own turn, turns taken plus distance left equals distance at the start plus failures recorded ahead |
| RetryFairness.BehindFrontierDoesNotDelay | crates/steadq-core/src/recovery.rs:1271-1277 | a failure at or behind the frontier does not raise the distance of a retry beyond it |
| RetryFairness.TurnComes | crates/steadq-core/src/recovery.rs:1158-1421 | as many turns as retries are pending, and one for each failure recorded ahead, include one of every pending retry |
| RetryDurability.SavedStepSees | crates/steadq-core/src/recovery.rs:751-893 | over passes whose save may fail, each saved step works on the ledger that the saved steps before it make |
| RetryDurability.OnDiskIsRun | crates/steadq-core/src/recovery.rs:751-893 | the ledger on disk is the run of the saved steps alone, so that all results on runs hold of it |
| RetryDurability.UnsavedLeavesNoTrace | crates/steadq-core/src/recovery.rs:751-893 | a pass that is not saved changes nothing of it, neither listings nor resume positions |
| RetryDurability.DiskValid | crates/steadq-core/src/recovery.rs:190-275 | whatever passes are saved, the ledger on disk passes the validity check |
| RetryDurability.NothingIsLost | crates/steadq-core/src/recovery.rs:751-893 | a failure seen by a saved pass is listed or flagged on disk until a later saved step resolves it or starts its phase over, through any passes saved or not |
| RetryDurability.FullRoundOnDisk | crates/steadq-core/src/recovery.rs:751-893 | the exactly-once round over the saved steps of any passes |
| ScanBudget.ReadDirEntryNames | crates/steadq-fs-linux/src/lib.rs:1257-1321 | the enumeration loop computes its specification, result and progress |
| ScanBudget.EnumerateExact | crates/steadq-fs-linux/src/lib.rs:1257-1321 | it succeeds exactly when the directory ends in time within both bounds, and returns every name but dots, in order |
| ScanBudget.EnumerateBounded | crates/steadq-fs-linux/src/lib.rs:1291-1315 | progress exceeds the bounds by at most one entry and one name, and not at all on success |
| ScanLimits.RecoveryScan.ReadDirectory | crates/steadq-core/src/recovery.rs:69-117 | admission, charging with saturation, and the mapped error |
| ScanLimits.RecoveryScan.StreamDirectory | crates/steadq-core/src/recovery.rs:126-159 | the streaming loop: counters, position, visited entries and outcome |
| ScanLimits.ReadsWithinBudget | crates/steadq-core/src/recovery.rs:69-159 | over any mix of reads directories and entries stay within their maxima and name bytes within 254 of theirs |
| ScanLimits.MinimumBudgetExact | crates/steadq-core/src/recovery.rs:25-38 | validation accepts exactly the budgets that admit a fifth read after any four successful ones of directories with distinct names |
| ScanLimits.FullReadCost | crates/steadq-core/src/recovery.rs:25-28 | the largest directory a read accepts, and what it costs |
| ScanLimits.FullDirectoryIsDirectory | crates/steadq-core/src/recovery.rs:25-28 | its 65536 names are distinct |
| ScanLimits.StreamCovers | crates/steadq-core/src/recovery.rs:119-125 | a stream is done with exactly the entries between its two positions |
| ScanLimits.StreamLeaves | crates/steadq-core/src/recovery.rs:119-125 | a finished stream leaves nothing, a stopped one leaves the entry it stopped at first |
| ScanLimits.PassesCover | crates/steadq-core/src/recovery.rs:119-125 | resumed streams together handle each entry up to the last position once, in order, even if the directory changes between them beyond the position reached |
| PhaseCycle.RecoveryLoop.RunPass | crates/steadq-core/src/recovery.rs:814-885 | the loop runs the specified phases and leaves the specified one |
| PhaseCycle.PassRunsInOrder | crates/steadq-core/src/recovery.rs:814-885 | a pass runs at least one phase, in cycle order, and never wraps past the last one |
| PhaseCycle.PassEnd | crates/steadq-core/src/recovery.rs:814-885 | a pass leaves its last phase, or the one after it if that was completed |
| PhaseCycle.PassLeavesFirstIncomplete | crates/steadq-core/src/recovery.rs:814-885 | the phase left is the first one not completed; a wall-sensitive phase without a floor completes |
| PhaseCycle.WalkIsContiguous | crates/steadq-core/src/recovery.rs:751-893 | over any calls, saved or not, the completed phases walk the cycle without a gap from the stored phase |
| StateMachine.MovesStepIdentity | crates/steadq-core/src/errors.rs:178-205 | every move raises the generation by one and the attempt exactly on a claim; it fails exactly on overflow |
| JobProtocol.MoveFollows | crates/steadq-core/src/state_machine.rs:214-452 | each table row with the attempt guard keeps job and maximum, and lowers the number of steps left unless it renews |
| JobProtocol.RunKeeps | crates/steadq-core/src/state_machine.rs:214-452 | the namespace invariant holds in every world any interleaving reaches |
| JobTheorems.OneNamePerJob | crates/steadq-fs-linux/src/lib.rs:527-553 | no job ever has two visible names |
| JobTheorems.OneWinnerPerGeneration | crates/steadq-core/src/errors.rs:178-205 | no generation of a job is left twice; generations are left in order |
| JobTheorems.DestinationIsFree | crates/steadq-core/src/queue/engine.rs:449-472 | a move never finds its destination taken, and takes effect exactly when its source is there |
| JobTheorems.UsedHandleIsFenced | crates/steadq-fs-linux/src/lib.rs:527-553 | once a handle was used, no handle of that job and generation or earlier has an effect again, in any continuation |
| JobTheorems.NameTellsHistory | crates/steadq-core/src/errors.rs:182-204 | generation is the number of steps since publication, attempt the number of claims, at most the maximum |
| JobTheorems.TicketExact | crates/steadq-core/src/errors.rs:545-577 | a ticket is valid exactly when it describes a row of the table with an attempt to spare and canonical boot ids |
| JobTheorems.TicketDestination | crates/steadq-core/src/errors.rs:522-533 | a valid ticket leads to the name its move creates |
| JobTheorems.TerminalNamesStay | crates/steadq-core/src/state_machine.rs:214-452 | a dead or acknowledged job never has another name |
| JobTheorems.LifetimeBound | crates/steadq-core/src/state_machine.rs:214-452 | at most 3 * max + 3 steps other than renewals follow publication |
| JobTheorems.LifetimeBoundIsReached | crates/steadq-core/src/state_machine.rs:214-452 | for every maximum a run takes exactly that many |
| JobTheorems.LimitedLifetime | crates/steadq-core/src/queue/consumer.rs:245-259 | with the retry limit at most 3 * max + 1, and a waiting job always has an attempt left |
| JobTheorems.LimitedLifetimeIsReached | crates/steadq-core/src/queue/consumer.rs:245-259 | for every maximum a run within the limit takes exactly that many |
| SpecValidator.RepeatedSync | xtask/src/protocol.rs:346-355 | finds a repeated sync step exactly when there is one |
| SpecValidator.ValidateTransitionInvariant | xtask/src/protocol.rs:640-777 | accepts exactly the generated row of the operation |
| SpecValidator.ValidateRows | xtask/src/protocol.rs:325-357 | accepts exactly distinct operations with their own rows |
| SpecValidator.ValidateTransitions | xtask/src/protocol.rs:321-365 | accepts exactly the canonical transition lists |
| SpecValidator.ValidateExceptions | xtask/src/protocol.rs:367-397 | accepts exactly one row for each exception, as expected, with a description that is not blank |
| SpecValidator.ValidateUnlinks | xtask/src/protocol.rs:399-430 | the same for unlinks |
| SpecValidator.ValidateReentries | xtask/src/protocol.rs:431-464 | the same for re-entries, which must create a new identity |
| SpecValidator.ValidateSpec | xtask/src/protocol.rs:308-466 | accepts exactly the canonical specifications |
| SpecValidator.CanonicalIsPermutation | xtask/src/protocol.rs:321-365 | the accepted transition lists are the permutations of the generated table |
| SpecValidator.SameLegalTransitions | crates/steadq-core/src/state_machine.rs:549-553 | every accepted specification allows exactly the legal transitions |
| SpecValidator.LegalTransitions | crates/steadq-core/src/state_machine.rs:549-553 | which states can follow which |
| Backoff.RetryDelayMs | crates/steadq-math/src/lib.rs:183-223 | the sampling loop computes the specified delay for any 64 draws |
| Backoff.DoublingExact | crates/steadq-math/src/lib.rs:155-168 | saturating doubling is min(2^64 - 1, base * 2^(n-1)) |
| Backoff.DelayRange | crates/steadq-math/src/lib.rs:202-222 | the delays that can occur are exactly those from half the ceiling, rounded up, to the ceiling |
| Backoff.UniformOffsets | crates/steadq-math/src/lib.rs:205-220 | every offset has exactly floor(2^64 / span) accepted draws |
| Backoff.MostDrawsAccepted | crates/steadq-math/src/lib.rs:205-220 | more than half of all draws are accepted |
| Backoff.MonotoneExactly | crates/steadq-math/src/lib.rs:183-223 | with jitter no next delay is shorter exactly when base * 2^n is at most cap + 1 or the cap is 1 |
| Backoff.PlainDelayGrows | crates/steadq-math/src/lib.rs:195-200 | without jitter the delay never shrinks |
| Backoff.ShrinkingExample | crates/steadq-math/src/lib.rs:183-223 | a policy whose delays can shrink |
| WallFloor.EligibilityExact | crates/steadq-math/src/lib.rs:28-48 | the eligible time is the first bucket start not before the request, or none fits 64 bits |
| WallFloor.EligibleByBucket | crates/steadq-math/src/lib.rs:44-48 | comparing times and comparing buckets decide eligibility alike |
| WallFloor.StabilizedExact | crates/steadq-core/src/queue/watermark.rs:194-208 | a floor is at least the clock and lies in the stored bucket, which never falls, whatever the write does |
| WallFloor.FloorStep | crates/steadq-core/src/queue/watermark.rs:101-150 | the same for any handle with its cached floor |
| WallFloor.NoEarlierDelayedBucket | crates/steadq-math/src/lib.rs:239-249 | for any clocks and handles no later floor falls into an earlier delayed bucket |
| WallFloor.NoEarlierTerminalBucket | crates/steadq-format/src/lib.rs:84-89 | nor into an earlier terminal bucket when the terminal width is a multiple of the delayed width |
| WallFloor.MultipleIsNeeded | crates/steadq-format/src/lib.rs:87-89 | for every other terminal width a run with an earlier terminal bucket |
| WallFloor.NoOverflowAfterFloor | crates/steadq-math/src/lib.rs:247 | once the product fits it never overflows again |
| QuarantinePublish.Namespace.MoveNoreplace | crates/steadq-core/src/queue/engine.rs:449-525 | the move renames exactly when the source is there and the destination is not, and its outcome says so |
| QuarantinePublish.Namespace.Unlink | crates/steadq-core/src/queue/engine.rs:740-757 | removes the name unless the call fails, and the outcome says whether it is gone |
| QuarantinePublish.Namespace.CompactReceipt | crates/steadq-core/src/recovery/phases/retain.rs:507-607 | replaces the receipt, leaves the temporary file behind, or changes nothing, as the first failure decides |
| QuarantinePublish.PublishObject | crates/steadq-core/src/quarantine.rs:1008-1091 | the attempt loop computes the specified namespace, outcome and attempts |
| QuarantinePublish.PublishConserves | crates/steadq-core/src/quarantine.rs:1008-1091 | published and unknown outcomes moved the bytes to a name that did not exist, all others changed nothing; attempts stay within the limit |
| QuarantinePublish.FreshIdPublishes | crates/steadq-core/src/quarantine.rs:1042-1060 | the first free name within the limit is used and everything else is untouched |
| QuarantinePublish.RecoveryWork.Quarantine | crates/steadq-core/src/recovery.rs:911-971 | the counters, the exhaustion flag and the answer after one object |
| QuarantinePublish.RecoveryWork.Operate | crates/steadq-core/src/recovery.rs:982-1002 | one operation of a phase, counted, with its effect on the namespace, or none once the budget is used up |
| QuarantinePublish.QuarantineStepWithin | crates/steadq-core/src/recovery.rs:920-942 | operations never pass the maximum; the pass is told to stop only when they are used up |
| QuarantinePublish.PassWithinBudget | crates/steadq-core/src/recovery.rs:982-1002 | the same over a whole pass of quarantine calls and other operations |
| PassConservation.PassKeepsObjects | crates/steadq-core/src/recovery.rs:814-885 | over a whole pass with its renames, unlinks and compactions, and any renames, unlinks and new files of other processes between its steps, in quarantine too, every object is where its tracked fate says with the bytes it says |
| PassConservation.LostOnlyByName | crates/steadq-core/src/recovery/phases/retain.rs:168-188 | an object loses its bytes only to an unlink or a compaction that names it where it then is |
| PassConservation.UnnamedIsKept | crates/steadq-core/src/recovery.rs:814-885 | an object that no rename, unlink or compaction names where it then is keeps its bytes, and its name unless the pass quarantines it |
| PassConservation.QuarantineIsKept | crates/steadq-core/src/quarantine.rs:1262-1280 | an object in quarantine stays as it is through every step of a pass exactly when no step of another process takes it |
| PassConservation.RemovalTakes | crates/steadq-core/src/quarantine.rs:1262-1280 | removing it from quarantine meanwhile does take it |
| PassConservation.PassKeepsApart | crates/steadq-core/src/queue/engine.rs:449-525 | no two objects end up under one name |
| PassConservation.PassOrigin | crates/steadq-core/src/recovery.rs:814-885 | every name after the pass holds an object from before it, or one that a step of it put there |
| Fsck.FsckReport.CheckFile | crates/steadq-core/src/quarantine.rs:362-565 | the checks of one object, in order, add exactly the specified findings and counts |
| Fsck.FsckReport.CheckJob | crates/steadq-core/src/quarantine.rs:567-884 | the same from the zero-length check to the payload hash |
| Fsck.FsckReport.CheckHeader | crates/steadq-core/src/quarantine.rs:641-849 | no fault exactly when the header, size, tag and shard part of verification holds; only a negative size is not set aside |
| FsckTheorems.HeaderFaultIsFirst | crates/steadq-core/src/quarantine.rs:641-849 | the fault reported applies, and none of an earlier check does |
| Fsck.FsckReport.Walk | crates/steadq-core/src/quarantine.rs:268-355 | the recursive walk adds exactly the specified report for any tree and any failures |
| Fsck.FsckReport.WalkEntry | crates/steadq-core/src/quarantine.rs:293-353 | one entry: object, subdirectory, stray, vanished or unscannable |
| Fsck.RunFsck | crates/steadq-core/src/quarantine.rs:226-263 | the five states one after the other |
| FsckTheorems.VerdictExactly | crates/steadq-core/src/quarantine.rs:362-884 | the check order decides exactly between vanished, residue, verified and faulty |
| FsckTheorems.VerifiedExactly | crates/steadq-core/src/quarantine.rs:851 | an object is counted as verified exactly when every structural check holds of it |
| FsckTheorems.ObjectCleanExactly | crates/steadq-core/src/quarantine.rs:362-884 | no error finding exactly when it is verified, vanished, or residue that repair could move |
| FsckTheorems.TreeCleanExactly | crates/steadq-core/src/quarantine.rs:265-355 | a walk has no error finding exactly when every directory was listed to its end and every entry is clean |
| FsckTheorems.CleanMeansComplete | crates/steadq-core/src/quarantine.rs:226-263 | the same for the whole queue, for every failure pattern |
| FsckTheorems.WalkCountsExactly | crates/steadq-core/src/quarantine.rs:268-355 | totals count the objects reached; verified ones are at shard depth; the rest vanished, were residue or are at fault |
| FsckTheorems.RootDepthIsCanonical | crates/steadq-core/src/quarantine.rs:236-243 | each state's walk depth puts its objects at the path length their tags need |
| TransferLoops.OutputFile.WriteAll | crates/steadq-fs-linux/src/lib.rs:815-848 | for any answers, the written bytes and the result of the loop |
| TransferLoops.OutputFile.Consume | crates/steadq-fs-linux/src/lib.rs:884-895 | dropping written bytes leaves exactly the rest, without empty vectors |
| TransferLoops.OutputFile.WritevAll | crates/steadq-fs-linux/src/lib.rs:851-898 | the vectored write does to the concatenation what the plain write does, answer for answer |
| TransferLoops.TransferEnds | crates/steadq-fs-linux/src/lib.rs:851-898 | success means every byte once and in order, an error a proper prefix |
| TransferLoops.EnoughAnswersFinish | crates/steadq-fs-linux/src/lib.rs:866-897 | interruptions aside, as many positive answers as bytes always finish |
| TransferLoops.PreadExact | crates/steadq-fs-linux/src/lib.rs:958-974 | fills the buffer from the offset, or a prefix of it and nothing else |
| ProcPath.ProcSelfFdPath | crates/steadq-fs-linux/src/lib.rs:396-415 | the buffer holds the prefix, the decimal descriptor and zeros |
| ProcPath.DecimalExact | crates/steadq-fs-linux/src/lib.rs:401-413 | the digits stand for the number, without a leading zero |
| BinaryRecords.EncodeHeader | crates/steadq-format/src/lib.rs:305-325 | fails exactly on an extension length mismatch modulo 2^32, else fills the 128 bytes field by field |
| BinaryRecords.EncodeFormat | crates/steadq-format/src/lib.rs:132-152 | fills 128 bytes and appends their digest |
| BinaryRecords.EncodeReceipt | crates/steadq-format/src/lib.rs:444-460 | fills 96 bytes and appends their digest |
| BinaryRecords.EncodeWatermark | crates/steadq-format/src/lib.rs:519-532 | fills 32 bytes and appends their digest |
| BinaryTheorems.HeaderExact | crates/steadq-format/src/lib.rs:305-388 | the decoder returns h exactly for the encoding of a valid h |
| BinaryTheorems.FormatExact | crates/steadq-format/src/lib.rs:154-247 | the decoder returns r exactly for a valid r and its sealed encoding with any minor version |
| BinaryTheorems.ReceiptExact | crates/steadq-format/src/lib.rs:462-500 | the same for receipts with minor version 1 or later |
| BinaryTheorems.WatermarkExact | crates/steadq-format/src/lib.rs:534-564 | the same for watermarks with any minor version |
| BinaryTheorems.FormatReencodes | crates/steadq-format/src/lib.rs:132-247 | re-encoding gives the same bytes exactly when the minor version is 1 |
| BinaryTheorems.LaterFormatIsNotReencoded | crates/steadq-format/src/lib.rs:132-247 | a record of minor version 2 decodes and re-encodes to other bytes |
| BinaryTheorems.ReceiptReencodes | crates/steadq-format/src/lib.rs:444-500 | the same for receipts |
| BinaryTheorems.LaterReceiptIsNotReencoded | crates/steadq-format/src/lib.rs:444-500 | the same |
| BinaryTheorems.WatermarkReencodes | crates/steadq-format/src/lib.rs:519-564 | the same for watermarks |
| BinaryTheorems.LaterWatermarkIsNotReencoded | crates/steadq-format/src/lib.rs:519-564 | the same |
| BinaryTheorems.EnvelopeExact | crates/steadq-format/src/lib.rs:622-670 | an envelope is accepted exactly when it is header, extension and payload with matching lengths and digests |
| BinaryTheorems.SealedEnvelopeIsAccepted | crates/steadq-format/src/lib.rs:398-417 | an envelope sealed with the computed digest is accepted: the digest does not depend on its own field |
| QueueTheorems.JobFileReadsBack | crates/steadq-format/src/lib.rs:622-676 | a job file written with an encoded extension header reads back as that header in normal form and the payload |
| QueueTheorems.JobFileIsDetermined | crates/steadq-format/src/lib.rs:622-670 | header, extension and payload determine the file |
| QueueTheorems.AcceptedFormatIsRollbackSafe | crates/steadq-format/src/lib.rs:154-247 | every decodable FORMAT record has widths for which floors never fall into an earlier terminal bucket |
| QueueTheorems.SoundExactlyWhenReadable | crates/steadq-core/src/quarantine.rs:567-884 | for a job file with given bytes the consistency check finds it sound exactly when the envelope reader accepts the bytes, with the payload digest for a deep check, and the envelope agrees with its name, place and limit |
| QueueTheorems.UnreportedJobReadsBack | crates/steadq-core/src/quarantine.rs:567-884 | a job file that is not empty and for which no error is reported is accepted by the envelope reader |

## Left out

- The text of error messages.
- SpecValidator.ValidateExceptions: the rows are compared as a whole; which field's message comes first is not modelled.
- SpecValidator.ValidateUnlinks: the same.
- ScanLimits.PassesCover: a directory is the sequence of its entries; what a file system does to positions when entries
  before them come and go is not modelled.
- Fsck.FsckReport.CheckFile: filename grammar, header decoding, receipt verification, tag authentication and payload
  hashing are answers it is given; `QueueTheorems` ties those about header and payload to the bytes of a job. Counters are
  not limited to 64 bits.
- RetryLedger.RecoveryCursor.RetryOne: the directory read is an answer; its effect on the scan counters is in `ScanLimits`.
- TransferLoops.OutputFile.WritevAll: running out of answers counts as a failure, since a system call may be interrupted
  for ever.
- QuarantinePublish.PublishObject: nothing else changes the namespace between two attempts of one publication. A single
  attempt is a rename, and what `PassConservation` says of renames by others between any steps holds of it too.
- QuarantinePublish.Namespace.CompactReceipt: nothing else changes the namespace while one receipt is compacted.
- JobProtocol.RunKeeps: job ids are never reused; the source draws 128 random bits. Leases, deadlines, tokens and buckets
  are part of a name's uninterpreted remainder.
- WallFloor.FloorStep: a request that advances the record reads and replaces it under its lock; one answered from the
  cache authenticates the record without the lock and counts at the moment of its read. Failing to obtain the lock or to
  read the record is not modelled, since nothing changes then.
- BinaryTheorems.EnvelopeExact: the size overflow branch cannot be reached on a 64-bit machine and is not modelled.
- Crash behaviour and fsync ordering, OFD locks, inotify, and the colocated-lease scan position of the cursor.
- Which objects the reap, promote, retain and compaction passes choose, and requeueing; what they then do to the
  namespace is in `PassConservation`.
- JSON forms of tickets and cursors, hexadecimal and filename grammar beyond canonical directory names.
- The command line, the C interface, the worker loop, the test kit and the generators of `xtask` other than its validator.
