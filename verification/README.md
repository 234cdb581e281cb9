# ccs-trans: verification model

The program keeps its configuration in two stores, speaks a framed protocol to its GUI,
rewrites request bodies by rules, logs through a bounded queue, routes by canonical path
and limits memory with lock-free counters. This project models those parts in Dafny and
proves what they promise over whole runs: every crash point, every split of a stream,
every interleaving, every document.

| files | subject |
|---|---|
| DurableStore, CrashRecovery, Transactions, CompositeConfigRepository | config.json and profiles.db tied together by a journal: durable steps, recovery as a plan, the four transactions, and the repository object under any schedule of faults and crashes |
| Utf8, FrameCodec | the UTF-8 validator and the incremental frame decoder against a one-shot parse |
| Sha256Spec, Sha256, Sha256Values, Sha256Vector | FIPS 180-4 on whole messages, the streaming class, what the constants and word functions compute, and the digest of "abc" worked out |
| Json, JsonPointer, Rules, RulePipeline | JSON trees, RFC 6901 pointers, the three rules and the pipeline |
| LogFamily, LogQueue | rotation, retention and compaction; the producers, the writer thread and drain |
| Snapshots, Session, OutboundChannel | deltas and the client replica, the session classes, and the channel that feeds the replica |
| InflightBudget, Cancellation | atomics as one step per operation over arbitrarily many threads |
| HttpPath, HttpPathForm, RouteTable, ConfigDocument, ProtocolRegistry, RuntimeCompiler, ConfigCandidate | canonical paths, the route table, and validation against compilation |
| SnapshotConversion | stored profiles to document and back |
| Bytes, Ordering, Wrappers | shared definitions |

Code that changes state is a class or a method with loops, proved against a specification
function; protocols and lock-free code are state machines whose runs are sequences of
steps.

Assumptions. A rename, a write through a temporary file and a SQLite transaction are
atomic; a SQLite save that reports failure has changed nothing; equal SHA-256 hashes mean
equal database files; SQLite creates a database over leftover sidecars, keeps its own
beside an open one, and cannot use a database file that was put beside those of another.
Removing profiles.db with its sidecars is one step per file, building a database one for
its file and one per transaction. Removing the journal
directory is not taken as atomic: the state in between is modelled, recovery refuses it,
and both stores are shown to be consistent.

What the proofs show to fail, each with the exact condition or the run:

- A crash between the creation of the database file and the commit of its schema makes
  the initialize journal unrecoverable, and so does a -wal or -shm file without
  profiles.db, left over or outliving a rollback (`InitializeIsCrashAtomicIff`,
  `RollbackIsStrandedIff`, `InitializeFreshLocked`).
- A leftover sidecar beside a missing profiles.db derails every migration that has
  published its journal: interrupted, it is unrecoverable; uninterrupted, it ends with the
  new config, an unusable database and no journal (`MigrationIsCrashAtomicIff`,
  `MigrationIsStrandedIff`, `ArrivedBesideSidecarIsStrandedIff`, `MigrateDocument`).
- A crash at any stage of building the temporary database leaves it for good and blocks
  later migrations, and so does, without a crash, an open_or_create that fails after the
  file has appeared (`MigrationTemporaryOutlivesIff`, `ReplacementTemporaryOutlivesIff`,
  `StageMigration`, `MigrateDocument`).
- set_field keeps an old value that nlohmann takes for equal (`SetFieldIsExactIff`).
- A log sink that refuses a record without a message loses it silently, and drain still
  returns true (`SilentRefusalIsReportedAsFlushed`, `CleanStopWritesEverything`).
- A snapshot queued while a state job is, or behind the published state, and a
  publication rejected for lack of room can leave the GUI behind
  (`UnguardedSnapshotGoesStale`, `RejectedPublicationIsLost`, `GuardedRunConverges`).

## Model

| member | source | states |
|---|---|---|
| `CrashRecovery.RecoveryReentrant` | src/config/composite_config_repository.cpp:1328-1399 | from any disk, a recovery that crashes after any of its steps and starts again ends on the disk the first one was heading for; only a crash inside the journal removal stops it, and then both stores already hold their final contents |
| `CrashRecovery.RecoveryConverges` | src/config/composite_config_repository.cpp:1328-1399 | the same for any number of crashes, inside the backup restore included |
| `CrashRecovery.RefusalIsStable` | src/config/composite_config_repository.cpp:1334-1386 | a refused recovery changes nothing, however often it is repeated |
| `CrashRecovery.ClearStartsAtConsistentPair` | src/config/composite_config_repository.cpp:796-808 | the journal directory starts to disappear only when config.json and profiles.db are both old or both new |
| `CrashRecovery.DatabaseDecides` | src/config/composite_config_repository.cpp:1334-1376 | when both stores hold something the journal knows, recovery keeps the database and makes the config follow it, and touches nothing else but journal and temporary |
| `CrashRecovery.RepairIsRepeatable` | src/config/composite_config_repository.cpp:1334-1386 | what recovery does before clearing can be cut anywhere and repeated with the same result, a consistent pair |
| `CrashRecovery.RestoreIsRepeatable` | src/config/composite_config_repository.cpp:1199-1254 | the backup restore can be cut after any step and repeated; it ends in the old pair |
| `CrashRecovery.UnreadableDatabaseIsRestoredIff` | src/config/composite_config_repository.cpp:830-840 | an unreadable database is replaced by the backup exactly when the backup is usable and the failure is an invalid document, corruption, an unsupported schema or required recovery; a busy, inaccessible or otherwise failing one is reported and nothing is touched |
| `CrashRecovery.BackupUsableIff` | src/config/composite_config_repository.cpp:1199-1226 | a backup is used exactly when it was made of the old pair of this migration and its file is still what its manifest records |
| `Transactions.CommitIsCrashAtomic` | src/config/composite_config_repository.cpp:1568-1596 | save_snapshot with both stores changed: a crash after step k and any crashes of later recoveries end in (old, old) before the database save and in (new, saved) from it on |
| `Transactions.InitializeIsCrashAtomicIff` | src/config/composite_config_repository.cpp:1401-1429 | from every start that load accepts, a crash of initialization strands it exactly between the appearance of the database file and its schema commit, and, if a -wal or -shm file lay there from the start, between the journal and the database file; every other crash settles empty or complete |
| `Transactions.InitializingIsStrandedIff` | src/config/composite_config_repository.cpp:603-620 | in the middle of an initialization recovery is refused, for good, exactly when a sidecar is there without profiles.db or the schema is missing |
| `Transactions.RollbackIsStrandedIff` | src/config/composite_config_repository.cpp:481-492 | a rollback cut after any of its steps is stranded exactly while a sidecar outlives profiles.db, or before its first step on an unsettled database; afterwards it ends empty |
| `Transactions.InitializationEnds` | src/config/composite_config_repository.cpp:1413-1434 | the outcome promised of an initialization that did not succeed |
| `Transactions.MigrationIsCrashAtomicIff` | src/config/composite_config_repository.cpp:1767-1874 | plain migration, from every start without profiles.db: a crash, or no crash at all, ends in (v2 config, no database) up to the arrival of the database and in (new config, imported database) from it on, exactly when no -wal or -shm file was left over or the journal is not yet published; otherwise it derails |
| `Transactions.DerailedNeverSettles` | src/config/composite_config_repository.cpp:1328-1399 | a derailed migration ends in neither pair, whatever recoveries follow |
| `Transactions.ReplacementIsCrashAtomic` | src/config/composite_config_repository.cpp:1851-1874 | replacing migration: old pair before the rename, imported pair after it; if the rebuilt database is the very same file, one of the two |
| `Transactions.ReplacementAlwaysRecovers` | src/config/composite_config_repository.cpp:1334-1386 | with a usable managed backup recovery succeeds exactly unless config.json is unreadable or the database failure may be transient, and then ends in a known pair |
| `Transactions.PlainRecoverySucceedsIff` | src/config/composite_config_repository.cpp:1340-1386 | without a backup recovery succeeds exactly from the four known combinations of config and database |
| `Transactions.MigrationIsStrandedIff` | src/config/composite_config_repository.cpp:605-615 | migration checks profiles.db only: between the journal and the arrival of the database recovery is refused, for good, exactly when a -wal or -shm file was left over |
| `Transactions.ArrivedBesideSidecarIsStrandedIff` | src/config/composite_config_repository.cpp:1859-1866 | the same once the database has arrived, on the assumption that a file beside foreign sidecars is unusable, until the journal goes |
| `Transactions.MigrationTemporaryOutlivesIff` | src/config/composite_config_repository.cpp:1800-1874 | whatever recoveries follow, a crash of a plain migration leaves profiles.db.migrating exactly when it falls, at any stage of building, between the creation of that file and the journal, or, beside a leftover sidecar, before the file has moved |
| `Transactions.ReplacementTemporaryOutlivesIff` | src/config/composite_config_repository.cpp:1800-1874 | the same for a replacing migration |
| `Transactions.RecoveredMatches` | src/config/composite_config_repository.cpp:1328-1399 | a successful recovery ends without a journal in a pair the journal knows |
| `Transactions.EndsWhereRecoveryEnds` | src/config/composite_config_repository.cpp:1328-1399 | whatever sequence of crashes follows, restarts end where one uninterrupted recovery ends |
| `Transactions.InFlightSettles` | src/config/composite_config_repository.cpp:1568-1592 | a disk in the middle of a transaction settles in the old or the new pair |
| `Transactions.RecoveryKeepsEither` | src/config/composite_config_repository.cpp:1328-1399 | a recovery cut after any step keeps that promise |
| `CompositeConfigRepositories.CompositeConfigRepository.Perform` | src/config/composite_config_repository.cpp:458-479 | one durable operation under a fault schedule: it fails or the process dies, before or after it took effect, and the caller sees just that |
| `CompositeConfigRepositories.CompositeConfigRepository.ClearJournal` | src/config/composite_config_repository.cpp:796-808 | removes the temporary of a migration and the journal, a prefix of the planned steps when cut |
| `CompositeConfigRepositories.CompositeConfigRepository.RestoreFromBackup` | src/config/composite_config_repository.cpp:1199-1254 | a usable backup is restored as planned; any other leaves the disk untouched |
| `CompositeConfigRepositories.CompositeConfigRepository.RecoverLocked` | src/config/composite_config_repository.cpp:1328-1399 | the method takes exactly the planned steps, or a prefix of them, and reports the planned failure without touching anything; a database that is locked or cannot be read for another passing reason is such a failure |
| `CompositeConfigRepositories.CompositeConfigRepository.InitializeFreshLocked` | src/config/composite_config_repository.cpp:1401-1435 | under every fault schedule and from every start: done means the new pair and no journal; otherwise the repository is stranded exactly when a sidecar outlives profiles.db, or the schema is missing, under the journal, and else settles empty or complete |
| `CompositeConfigRepositories.CompositeConfigRepository.OpenOrCreate` | src/config/composite_config_repository.cpp:1416-1427 | creates the file and commits its schema; a reported failure of either, with nothing else going wrong, is undone without a trace |
| `CompositeConfigRepositories.CompositeConfigRepository.RollBackInitialize` | src/config/composite_config_repository.cpp:1418-1423 | takes the rollback steps or a prefix; once begun it is stranded exactly when a sidecar outlives profiles.db |
| `CompositeConfigRepositories.CompositeConfigRepository.CommitBoth` | src/config/composite_config_repository.cpp:1568-1596 | done means both new, by exactly the steps of the commit transaction; failure and crash settle in the old or the new pair, and a failure that was recovered from leaves no journal over changed stores |
| `CompositeConfigRepositories.CompositeConfigRepository.LoadReadyLocked` | src/config/composite_config_repository.cpp:1437-1482 | succeeds exactly on a v3 config with a readable database whose snapshot converts, and the snapshot then holds the settings, profiles, revision and origin of the two stores; the snapshot is replaced as soon as both stores were read |
| `CompositeConfigRepositories.CompositeConfigRepository.LoadFailure` | src/config/composite_config_repository.cpp:1437-1478 | otherwise the failure is that of the first check that fails |
| `CompositeConfigRepositories.CompositeConfigRepository.Load` | src/config/composite_config_repository.cpp:1484-1512 | after recovery an empty repository is initialized, any other is left as it is; success leaves no journal and the snapshot of the disk; without faults the answer is that of reading the stores; a failed initialization ends as promised there |
| `CompositeConfigRepositories.CompositeConfigRepository.SaveSnapshot` | src/config/composite_config_repository.cpp:1514-1629 | success means the desired config and profiles are on disk, the profiles under the next revision exactly when they changed, the snapshot holds just that, the caller's revision was current and the snapshot converts; failure settles in the pair before or the pair after; a refused snapshot touches nothing; without faults the answer is the one of SaveAnswer |
| `CompositeConfigRepositories.CompositeConfigRepository.SaveAnswer` | src/config/composite_config_repository.cpp:1539-1619 | stale exactly for another source or revision, invalid for another origin, and done otherwise unless the saved snapshot does not convert |
| `CompositeConfigRepositories.CompositeConfigRepository.SavedImage` | src/config/composite_config_repository.cpp:1551-1603 | the saved database holds the desired profiles and keeps its origin; it is the old one when the profiles are the same, and has the next revision otherwise |
| `CompositeConfigRepositories.CompositeConfigRepository.SaveChanges` | src/config/composite_config_repository.cpp:1539-1619 | the same from the comparison with the loaded snapshot on |
| `CompositeConfigRepositories.CompositeConfigRepository.MigrateV2` | src/config/composite_config_repository.cpp:1725-1896 | success means a v2 document became the new config with the imported database, its copy was kept, no temporary and no leftover sidecar was in the way and the result serializes to it again; failure after a clean recovery settles in the old or the new pair, or, beside a leftover sidecar, in the old pair or derails |
| `CompositeConfigRepositories.CompositeConfigRepository.MigrateRecovered` | src/config/composite_config_repository.cpp:1746-1890 | the same after recovery, with the answer for every kind of document |
| `CompositeConfigRepositories.CompositeConfigRepository.NotMigratedAnswer` | src/config/composite_config_repository.cpp:1746-1766 | without a v2 document: not loaded, invalid, unsupported, or already migrated exactly for a readable v3 pair with an origin |
| `CompositeConfigRepositories.CompositeConfigRepository.MigrateDocument` | src/config/composite_config_repository.cpp:1768-1880 | without faults a permitted migration goes through exactly when no temporary is left over; otherwise neither store changes or one of the two pairs is reached; beside a leftover sidecar going through means an unusable database |
| `CompositeConfigRepositories.CompositeConfigRepository.PrepareMigration` | src/config/composite_config_repository.cpp:1768-1808 | refuses an existing database without permission, an invalid document, a foreign backup and a leftover temporary, in this order, and keeps copy and backup |
| `CompositeConfigRepositories.CompositeConfigRepository.ExecuteMigration` | src/config/composite_config_repository.cpp:1809-1880 | from the temporary to the end: done by exactly the steps of the transaction, or settled in the old or the new pair |
| `CompositeConfigRepositories.CompositeConfigRepository.StepsOfMigration` | src/config/composite_config_repository.cpp:1768-1874 | a migration that goes through takes the steps whose crashes the transaction results are about |
| `CompositeConfigRepositories.CompositeConfigRepository.StageMigration` | src/config/composite_config_repository.cpp:1800-1857 | a failure leaves profiles.db.migrating exactly when open_or_create failed after the file had appeared, or when the removal after a later failure failed; without a journal no restart ever removes it |
| `CompositeConfigRepositories.CompositeConfigRepository.WriteMigrationBackup` | src/config/composite_config_repository.cpp:850-912 | keeps the v2 source under its name, and refuses a different one that is already there |
| `CompositeConfigRepositories.CompositeConfigRepository.MoveFile` | src/config/composite_config_repository.cpp:405-430 | link and unlink; when one of them alone fails, the link is removed again and nothing has changed |
| `CompositeConfigRepositories.CompositeConfigRepository.MoveDatabase` | src/config/composite_config_repository.cpp:1862-1863 | under the journal this keeps the pair recoverable; beside a leftover sidecar every outcome is stranded |
| `CompositeConfigRepositories.CompositeConfigRepository.ReplaceDatabase` | src/config/composite_config_repository.cpp:1189-1197 | sidecars go before the rename, so the imported file is never read beside a foreign log |
| `CompositeConfigRepositories.CompositeConfigRepository.BackUpDatabase` | src/config/composite_config_repository.cpp:1787-1799 | the managed backup holds the very database that is about to be replaced, with its log checkpointed |
| `Utf8.AcceptsExactlyUtf8` | src/gui_ipc/frame_codec.cpp:35-83 | the validator accepts a byte string exactly when it is a concatenation of encodings of Unicode scalar values, section 3 of RFC 3629 |
| `Utf8.ValidUtf8` | src/gui_ipc/frame_codec.cpp:35-83 | the index loop decides that predicate |
| `Utf8.AcceptedIsEncoded` | src/gui_ipc/frame_codec.cpp:35-83 | for an accepted string the scalar values that encode to it can be named |
| `Utf8.EncodedIsAccepted` | src/gui_ipc/frame_codec.cpp:35-83 | every encoding is accepted, whatever scalar values it is made of |
| `Utf8.DecodeInverts` | src/gui_ipc/frame_codec.cpp:17-83 | what is accepted at the front decodes to a scalar value, never a surrogate, overlong form or value above U+10FFFF |
| `FrameCodec.ChunkingIsIrrelevant` | src/gui_ipc/frame_codec.cpp:114-204 | for every split of a stream into consume calls, emitted frames, unused bytes and failed flag are those of a one-shot parse |
| `FrameCodec.FinishedIffFrames` | src/gui_ipc/frame_codec.cpp:193-204 | finish holds after the chunks exactly when they cut up the concatenation of the frames of the payloads emitted |
| `FrameCodec.ParseResumes` | src/gui_ipc/frame_codec.cpp:114-191 | parsing may stop anywhere and go on from what it left over |
| `FrameCodec.ParseOfFrames` | src/gui_ipc/frame_codec.cpp:85-191 | concatenated frames parse to exactly their payloads |
| `FrameCodec.ParsedBytesAreFrames` | src/gui_ipc/frame_codec.cpp:154-191 | whatever was parsed is the encoding of the payloads reported |
| `FrameCodec.CompleteStreams` | src/gui_ipc/frame_codec.cpp:85-204 | a stream is accepted as a whole exactly when it is a concatenation of encodable payloads |
| `FrameCodec.LeftoverIsIncomplete` | src/gui_ipc/frame_codec.cpp:154-191 | what is left over holds no complete frame and fits the buffer with room to spare |
| `FrameCodec.FrameLayout` | src/gui_ipc/frame_codec.cpp:85-112 | a frame is four octets of length, least significant first, and a payload of 1 to 16777216 octets |
| `FrameCodec.FrontErrors` | src/gui_ipc/frame_codec.cpp:154-180 | a zero length, one above 16777216 and a payload that is not UTF-8 are turned away, each with its error, and nothing else is |
| `FrameCodec.EncodeFrame` | src/gui_ipc/frame_codec.cpp:85-112 | accepts exactly non-empty UTF-8 payloads within the limit and returns length field and payload; otherwise says which check failed |
| `FrameCodec.FrameDecoder.Consume` | src/gui_ipc/frame_codec.cpp:114-152 | one call does to the decoder what the one-shot parse of the pending and new bytes says; the buffer bound is kept and its TooLarge guards are never taken |
| `FrameCodec.FrameDecoder.DecodeAvailable` | src/gui_ipc/frame_codec.cpp:154-191 | emits every complete frame and keeps the rest, failing on the first bad one |
| `FrameCodec.FrameDecoder.Finish` | src/gui_ipc/frame_codec.cpp:193-204 | true exactly for a decoder that has not failed and holds no bytes |
| `Sha256Spec.PaddingIsMinimal` | src/core/sha256.cpp:67-84 | the zero count is the least solution of the padding equation of section 5.1.1 of FIPS 180-4 |
| `Sha256Stream.Sha256.Update` | src/core/sha256.cpp:40-65 | the message grows by the content however it meets the block boundaries; refused exactly when the byte count would overflow |
| `Sha256Stream.Sha256.Finish` | src/core/sha256.cpp:67-91 | the digest is the compression function folded over the padded message, section 6.2.2 of FIPS 180-4, for every message below 2^61 bytes; above, with the length field modulo 2^64 |
| `Sha256Stream.Sha256.Transform` | src/core/sha256.cpp:93-148 | schedule, rounds and addition in the arrays are the compression function |
| `Sha256Stream.Sha256.AbsorbBlocks` | src/core/sha256.cpp:56-59 | hashes whole blocks straight from the input and leaves less than one block |
| `Sha256Stream.Sha256.FillBuffer` | src/core/sha256.cpp:46-55 | tops up a partial block without losing or repeating a byte |
| `Sha256Stream.Sha256.MarkEnd` | src/core/sha256.cpp:67-78 | the end mark and the zeros are those of the padding, with a block of their own exactly when the length field does not fit |
| `Sha256Stream.HashPieces` | src/core/sha256.cpp:172-200 | a file that arrives in any pieces gets the digest of its contents |
| `Sha256Vector.DigestOfAbc` | tests/unit/sha256_tests.cpp:27-30 | the digest of abc is ba7816bf 8f01cfea 414140de 5dae2223 b00361a3 96177a9c b410ff61 f20015ad, worked out round by round |
| `Sha256Values.BigEndian64Reads` | src/core/sha256.cpp:79-82 | the length field, read most significant octet first, is the bit count |
| `Sha256Values.BlockWordReads` | src/core/sha256.cpp:93-99 | a word of a block is its four octets read most significant first |
| `Sha256Values.ChoiceAndMajority` | src/core/sha256.cpp:123-128 | choice takes the second word where the first has a one and the third elsewhere; majority takes what the first two agree on and the third where they differ |
| `Sha256Values.RoundConstantsAreCubeRoots` | src/core/sha256.cpp:15-32 | the round constants are the first 32 fractional bits of the cube roots of the first 64 primes, section 4.2.2 of FIPS 180-4 |
| `Sha256Values.InitialHashIsSquareRoots` | src/core/sha256.cpp:147-156 | the initial hash values are those of the square roots of the first eight, section 5.3.3 |
| `Json.ArrayIndexIsInjective` | src/rules/generic_json_rules.cpp:118-147 | strict decimal indexes: different tokens never name the same array element |
| `Json.ArrayIndexNames` | src/rules/generic_json_rules.cpp:118-147 | a token names element i exactly when it is the decimal of i, within the array and below 2^64; otherwise the error says whether it is no index or beyond the end |
| `Json.NumbersCompareByValue` | src/rules/generic_json_rules.cpp:180 | numbers are equal by value, except that an unsigned one from 2^63 on counts as a negative one against a signed one |
| `Json.EqualIsCongruent` | src/rules/generic_json_rules.cpp:175-188 | equal values at the same place make equal trees |
| `Json.EqualIsIdentity` | src/rules/generic_json_rules.cpp:180 | apart from numbers of different kinds, equal trees are the same tree |
| `Json.RemovedElement` | src/rules/generic_json_rules.cpp:212-214 | the array without the element of that number, and nothing else |
| `Json.ResolveAfterSet` | src/rules/generic_json_rules.cpp:149-188 | after a set at p, q below p resolves inside the value, q above p holds the updated subtree, and an incomparable q resolves or fails as before |
| `Json.SetsCommute` | src/rules/generic_json_rules.cpp:175-188 | sets at incomparable pointers commute |
| `Json.RemoveSucceedsIffPresent` | src/rules/generic_json_rules.cpp:198-225 | remove_field succeeds exactly when the pointer resolves |
| `Json.ChildAfterRemoveChild` | src/rules/generic_json_rules.cpp:198-225 | the removed field is gone; an array is one shorter, the elements behind the removed one move up, and nothing follows the last of them |
| `Json.ResolveAfterRemove` | src/rules/generic_json_rules.cpp:198-225 | nothing outside the container changes, and a container that is an array is one shorter |
| `JsonPointer.PointerRoundTrip` | src/rules/generic_json_rules.cpp:30-87 | pointer texts within the length limit and token lists correspond one to one (sections 3 and 4 of RFC 6901) |
| `JsonPointer.UnescapeOfEscape` | src/rules/generic_json_rules.cpp:30-50 | decoding inverts escaping |
| `JsonPointer.EscapeOfUnescape` | src/rules/generic_json_rules.cpp:30-50 | decoding is injective on the texts between two slashes |
| `JsonPointer.DecodePointerToken` | src/rules/generic_json_rules.cpp:30-50 | the accumulating loop computes that decoding, errors included |
| `JsonPointer.ParseJsonPointer` | src/rules/generic_json_rules.cpp:52-87 | the parser computes the token list the round trip is about |
| `JsonPointer.SplitTokens` | src/rules/generic_json_rules.cpp:67-85 | the loop over slashes |
| `Rules.SetFieldEstablishesValue` | src/rules/generic_json_rules.cpp:175-188 | after set_field the pointer resolves to a value equal to the configured one, and to exactly that value when the tree was modified |
| `Rules.SetFieldIsExactIff` | src/rules/generic_json_rules.cpp:175-188 | the stored value is the configured one if and only if the old value was not a different value that nlohmann equality takes for the same |
| `Rules.SetFieldMayKeepAnEqualNumber` | src/rules/generic_json_rules.cpp:180 | the input that shows it: 1 stays where 1.0 was configured |
| `Rules.SetFieldIsLocal` | src/rules/generic_json_rules.cpp:175-188 | no incomparable pointer resolves differently afterwards |
| `Rules.SetFieldsCommute` | src/rules/generic_json_rules.cpp:175-188 | two set_field rules at incomparable pointers give the same tree and reports in either order |
| `Rules.NeighboursCommute` | src/rules/rule.cpp:129-220 | such neighbours can change places in any pipeline |
| `Rules.FoldUnmodifiedIsUnchanged` | src/rules/rule.cpp:222-228 | a pipeline that reports no modification left the tree exactly as it was |
| `Rules.KeptIsShorter` | src/rules/remove_tool_rule.cpp:69-100 | remove_tool keeps exactly the tools that do not match, and all of them when none was dropped |
| `Rules.KeptOfParts` | src/rules/remove_tool_rule.cpp:84-98 | what stays is decided entry by entry, in order and with repetitions |
| `Rules.MatchesToolByPointer` | src/rules/remove_tool_rule.cpp:39-60 | the tool is recognized by /name, for responses also by /namespace, and for chat by /function/name |
| `Rules.SetFieldReports` | src/rules/generic_json_rules.cpp:175-188 | value_unchanged exactly for an equal value, else the tree with the value set, modified, one target; an unresolved pointer is the error |
| `Rules.RemoveFieldReports` | src/rules/generic_json_rules.cpp:198-225 | the tree without the target, modified, one target; an unresolved pointer is the error |
| `Rules.RemoveToolReports` | src/rules/remove_tool_rule.cpp:69-100 | the body with the remaining tools and the number removed, or the reason why nothing was done |
| `Rules.RemoveToolIsIdempotent` | src/rules/remove_tool_rule.cpp:69-100 | a second application finds nothing to remove |
| `RulePipeline.Walk` | src/rules/generic_json_rules.cpp:149-173 | resolve_child token by token finds the chain of nodes to the target, or the error that resolving gives |
| `RulePipeline.Overwrite` | src/rules/generic_json_rules.cpp:184-186 | overwriting the node at the end of a chain, node by node up to the root, is the set of the specification |
| `RulePipeline.Candidate.SetField` | src/rules/generic_json_rules.cpp:175-188 | the walk and overwrite are the set of the specification; an error leaves the tree alone |
| `RulePipeline.Candidate.RemoveField` | src/rules/generic_json_rules.cpp:198-225 | likewise for remove_field |
| `RulePipeline.Candidate.RemoveTool` | src/rules/remove_tool_rule.cpp:69-100 | likewise for remove_tool |
| `RulePipeline.RemoveIf` | src/rules/remove_tool_rule.cpp:84-96 | the in-place compaction of the array is an order-preserving filter with the right count |
| `RulePipeline.Apply` | src/rules/rule.cpp:58-275 | the pipeline method computes the outcome function, whatever parsing yields and whatever interrupts it |
| `RulePipeline.RunIsFold` | src/rules/rule.cpp:129-220 | without interruptions the loop is the left-to-right fold of the pure rules |
| `RulePipeline.ApplyIsAllOrNothing` | src/rules/rule.cpp:222-275 | a rewritten body exists exactly when every rule succeeded and one modified, and is the printed result of the fold |
| `RulePipeline.FailureKeepsOriginal` | src/rules/rule.cpp:58-275 | a failed result carries no rewritten body |
| `RulePipeline.RunStopsAtError` | src/rules/rule.cpp:129-220 | no rule after a failing one has any effect |
| `RulePipeline.TracesPerRule` | src/rules/rule.cpp:127-220 | one trace per rule that was tried; a failing or interrupted rule leaves the last one, a null rule none |
| `RulePipeline.TracesAreReports` | src/rules/rule.cpp:143-220 | each trace is what its rule reported on the tree its predecessors left, and blank for a rule that failed or was interrupted |
| `RulePipeline.ModifiedByTrace` | src/rules/rule.cpp:143-147 | the run has modified the tree exactly when one of its traces says so |
| `RulePipeline.OutcomeCounts` | src/rules/rule.cpp:58-275 | a result counts one parse unless there are no rules and one print exactly when it printed or was interrupted there, and names the failure of the stage it reached |
| `RulePipeline.StatusCodes` | src/rules/rule.cpp:58-275 | 503 for an exhausted budget, 400 for a bad body or a failing rule, 500 for the rest |
| `LogFamily.CompactionKeepsLongestSuffix` | src/logging/logger.cpp:343-375 | compaction keeps the longest suffix within the limit that starts right after a newline, and nothing exactly when no non-empty one exists |
| `LogFamily.CompactionStart` | src/logging/logger.cpp:343-375 | the scan in blocks of 8192 bytes finds that start, whatever the alignment |
| `LogFamily.PrunedIsLongestFit` | src/logging/logger.cpp:461-482 | retention keeps the longest run of newest archives that fits beside the active file |
| `LogFamily.FileLogSink.PruneArchives` | src/logging/logger.cpp:461-482 | drops oldest archives and no more than needed; the error about the active file is never reached |
| `LogFamily.FileLogSink.Rotate` | src/logging/logger.cpp:426-459 | the active file becomes the newest archive; retained records and total stay; fails exactly on an exhausted sequence or an I/O fault |
| `LogFamily.FileLogSink.Write` | src/logging/logger.cpp:69-93 | the record goes behind the active file while that is empty or both fit a segment; otherwise the active file becomes the newest archive and the record starts a new one; then retention prunes; without faults and exhaustion every record within the limit is accepted |
| `LogFamily.FileLogSink.Append` | src/logging/logger.cpp:80-92 | writing and pruning alone |
| `LogFamily.FileLogSink.Open` | src/logging/logger.cpp:41-67 | leaves the compacted active file and the newest archives that fit, and a segment size of the smaller of 128 MiB and a sixteenth of the limit, at least 1; without faults it fails exactly on a zero limit or a listed archive with the last sequence number |
| `LogFamily.FileLogSink.ScanListing` | src/logging/logger.cpp:265-322 | the directory entry by entry: every archive with exact size |
| `LogFamily.FileLogSink.ScanExisting` | src/logging/logger.cpp:245-331 | finds every listed archive, in sequence order, with exact sizes and the next free number |
| `LogFamily.FileLogSink.CompactOversizedActive` | src/logging/logger.cpp:333-424 | the active file is kept whole when it fits and from the compaction start otherwise |
| `LogFamily.FileLogSink.ScanArchive` | src/logging/logger.cpp:301-322 | one archive of the listing keeps the accounting; the last sequence number stops the scan |
| `LogFamily.FileLogSink.InsertArchive` | src/logging/logger.cpp:315-330 | push_back and sort keep order, members and total |
| `LogQueue.PendingIsExact` | src/logging/logger.cpp:898-921 | over every run, pending counts are queue plus batch in flight and never wrap; pending bytes exceed the capacity only for a single record |
| `LogQueue.SinkReceivesPrefix` | src/logging/logger.cpp:1002-1037 | over every run whose sink always gives a reason when it refuses, the sink receives a gapless prefix of the accepted lines in order, each once, and everything up to the flushed sequence is flushed |
| `LogQueue.CleanStopWritesEverything` | src/logging/logger.cpp:1078-1092 | a clean stop has everything accepted flushed; all of it was written if and only if no refusal came without a reason |
| `LogQueue.TrueMeansFlushed` | src/logging/logger.cpp:930-968 | when drain or an error-level log returns true, everything accepted up to the noted sequence is flushed, under that same condition |
| `LogQueue.SilentRefusalIsReportedAsFlushed` | src/logging/logger.cpp:1006-1019 | the run that shows the condition is needed: a refused write without a message loses the record, yet the batch is committed and drain returns true |
| `LogQueue.FailureIsFinal` | src/logging/logger.cpp:1107-1137 | after a writer failure nothing more is accepted, written or flushed |
| `LogQueue.Logger.Log` | src/logging/logger.cpp:878-921 | accepts exactly when running, not stopping and within space, and then assigns the next sequence |
| `LogQueue.Logger.Drain` | src/logging/logger.cpp:938-957 | answers at once exactly when all accepted records are flushed, else notes the last accepted sequence and marks the last queued record |
| `LogQueue.Logger.Awaited` | src/logging/logger.cpp:930-935 | a true result means everything accepted up to the target is flushed, a false one that the writer is stopping or gone, and a waiter that stays asleep waits for a record still pending |
| `LogQueue.Logger.TakeBatch` | src/logging/logger.cpp:998-1002 | takes the whole queue and its byte count |
| `LogQueue.Logger.CommitBatch` | src/logging/logger.cpp:1045-1049 | subtracts exactly the batch, and the flushed sequence grows by its length |
| `LogQueue.Logger.WriteRecord` | src/logging/logger.cpp:1006-1019 | one turn of the write loop, by what the sink answers |
| `LogQueue.Logger.ReportWriterFailure` | src/logging/logger.cpp:1107-1121 | clears queue and counts and ends the writer |
| `Snapshots.DiffRebuilds` | src/hosts/windows/gui_bridge/gui_snapshot_builder.cpp:197-232 | applying the delta to the older state gives the newer one, closing editors included; it is empty exactly when only the revision moved |
| `Snapshots.ReplicaIsNeverWrong` | src/gui_ipc/session.cpp:223-274 | however snapshots and truthful deltas are lost, repeated or reordered, the copy is the server's true state at the revision it claims, and a copy that requires no snapshot has one |
| `Snapshots.DiffIsTruthful` | src/presentation/main_window_view_model.cpp:1411-1421 | deltas built between two published revisions are truthful |
| `Snapshots.DiffCarriesExactlyChanges` | src/hosts/windows/gui_bridge/gui_snapshot_builder.cpp:197-235 | every part of the window is in the delta exactly when it changed |
| `Snapshots.BlockedUntilSnapshot` | src/gui_ipc/session.cpp:242-255 | once a snapshot is required the copy is frozen until a complete snapshot replaces it |
| `Snapshots.DeltaAdvancesOrBlocks` | src/gui_ipc/session.cpp:247-255 | a following copy takes a truthful delta exactly when it starts at its revision, moves forward and changes something; any other blocks it |
| `Sessions.OutboundQueue.Push` | src/gui_ipc/session.cpp:40-67 | accepted exactly when open and either coalescing or below capacity; replaces in place the one item with the key or appends; every push is accounted for and each keyed item holds the last accepted envelope |
| `Sessions.OutboundQueue.Pop` | src/gui_ipc/session.cpp:69-82 | first in, first out, also after close; no second item with the key remains |
| `Sessions.OutboundQueue.Reset` | src/gui_ipc/session.cpp:92-96 | empties and reopens the queue, and accounts for what it dropped |
| `Sessions.ServerSession.AcceptHello` | src/gui_ipc/session.cpp:108-171 | at most one hello is ever accepted, also across a disconnect, and only an authentic one; a rejected one changes nothing |
| `Sessions.WellFormedEnvelopes` | src/gui_ipc/protocol_types.cpp:193-233 | which envelopes are well formed, kind by kind |
| `Sessions.ServerSession.AcceptMessage` | src/gui_ipc/session.cpp:173-199 | the accepted client sequences are 1, 2, 3, ... without repetition or gap |
| `Sessions.ServerSession.NextServerSequence` | src/gui_ipc/session.cpp:201-203 | the server's numbers are 1, 2, 3, ... |
| `Sessions.ClientStateTracker.AcceptSnapshot` | src/gui_ipc/session.cpp:223-236 | the step of the replica for a snapshot |
| `Sessions.ClientStateTracker.ApplyDelta` | src/gui_ipc/session.cpp:238-269 | the step of the replica for a delta, part by part |
| `OutboundChannels.ReplicaIsBaseline` | src/hosts/windows/gui_bridge/gui_outbound_channel.cpp:192-283 | whatever is published, queued, coalesced or rejected, a client that has read the pipe to its end asks for a snapshot or holds exactly the state the next delta starts from |
| `OutboundChannels.ClientIsNeverWrong` | src/hosts/windows/gui_bridge/gui_outbound_channel.cpp:192-283 | if what is published and queued was true of the server at its revision, then at every moment of every run the client shows a state the server had at the revision it claims |
| `OutboundChannels.GuardedRunConverges` | src/hosts/windows/gui_bridge/gui_outbound_channel.cpp:106-153 | if no publication is rejected, no snapshot is queued while a state job is or behind the published state, no write fails and no stop drops queued work, then a quiet channel, closed after its drain or not, leaves the client asking for a snapshot or not behind the latest published state |
| `OutboundChannels.UnguardedSnapshotGoesStale` | src/hosts/windows/gui_bridge/gui_outbound_channel.cpp:106-153 | the guard on snapshots is exact: one queued against it can leave the client behind for good, with nothing pending |
| `OutboundChannels.RejectedPublicationIsLost` | src/hosts/windows/gui_bridge/gui_outbound_channel.cpp:125-132 | so is the guard on publications: in every reachable full channel a rejected one becomes the latest state but, unless a state job is in hand, reaches nobody, and the client can end for good with what was pending before |
| `OutboundChannels.FailedWriteIsTheEnd` | src/hosts/windows/gui_bridge/gui_outbound_channel.cpp:247-283 | a failed write closes the channel, empties it and leaves pipe, client and baseline as they were |
| `OutboundChannels.OverIsFinal` | src/hosts/windows/gui_bridge/gui_outbound_channel.cpp:106-190 | once the channel is closed with nothing left, nothing reaches the pipe any more, whatever is called |
| `OutboundChannels.ClosingDrains` | src/hosts/windows/gui_bridge/gui_outbound_channel.cpp:155-162 | close_after_drain lets the writer send everything queued and take nothing more |
| `OutboundChannels.StoppingDrops` | src/hosts/windows/gui_bridge/gui_outbound_channel.cpp:164-178 | stop drops the queue, lets the job in hand go, and no job is taken after it |
| `OutboundChannels.Drained` | src/hosts/windows/gui_bridge/gui_outbound_channel.cpp:251-283 | whatever is queued, writer and client end on the last snapshot in the queue |
| `OutboundChannels.GuiOutboundChannel.PublishState` | src/hosts/windows/gui_bridge/gui_outbound_channel.cpp:117-139 | stores the latest state, keeps at most one state job, rejects exactly when closed or full |
| `OutboundChannels.GuiOutboundChannel.SendJob` | src/hosts/windows/gui_bridge/gui_outbound_channel.cpp:192-283 | full snapshot without a baseline, delta against the baseline otherwise, nothing when nothing changed; a failed write closes the channel |
| `OutboundChannels.GuiOutboundChannel.TakeJob` | src/hosts/windows/gui_bridge/gui_outbound_channel.cpp:254-267 | the oldest job, freeing the state slot |
| `InflightBudget.CurrentIsBounded` | src/core/runtime_metrics.cpp:46-66 | under every interleaving the counter stays between zero and the budget and never wraps |
| `InflightBudget.ReleaseNeverUnderflows` | src/core/runtime_metrics.cpp:68-80 | the underflow assertion is unreachable through acquire, grow, shrink, move and reset |
| `InflightBudget.QuietMeansExact` | src/core/inflight_memory_budget.cpp:22-78 | with no operation in flight the counter equals the bytes of the live leases and the peak is the largest value it ever had |
| `InflightBudget.BudgetIsSetOnce` | src/core/runtime_metrics.cpp:32-44 | the budget changes at most once, from zero |
| `InflightBudget.ConfigureAnswersRightly` | src/core/runtime_metrics.cpp:32-44 | configure returns true exactly when the budget then has the requested value |
| `InflightBudget.RejectedOnlyWhenFull` | src/core/runtime_metrics.cpp:55-66 | an acquisition is turned away exactly when, at a moment of that very call, the bytes accounted for left too little room under the budget; where all operations had booked theirs, these are the bytes of the live leases |
| `InflightBudget.AcquiresExactly` | src/core/runtime_metrics.cpp:46-66 | when acquire or grow returns, true has added exactly the requested bytes to the lease and false has left it alone, however other threads interleaved |
| `InflightBudget.ReleasesExactly` | src/core/runtime_metrics.cpp:68-80 | when shrink or reset returns, exactly the bytes to be released are gone, and after a reset the lease is empty |
| `InflightBudget.CallsAimRight` | src/core/inflight_memory_budget.cpp:22-78 | acquire and grow ask for all the bytes, shrink releases no more than the lease holds, reset all of it, and move hands it over |
| `InflightBudget.StepKeepsInv` | src/core/runtime_metrics.cpp:16-80 | one load or compare-exchange of any thread keeps the accounting |
| `InflightBudget.ReleaseSeesEnough` | src/core/runtime_metrics.cpp:72-77 | a load during a release sees at least the bytes being released |
| `Cancellation.ExactlyOneCancelWins` | src/core/cancellation.cpp:80-96 | at most one cancel returns true, and once any has returned there is exactly one that won |
| `Cancellation.CallbackRunsAtMostOnce` | src/core/cancellation.cpp:40-96 | a callback runs at most once, and only when claimed after cancellation |
| `Cancellation.NoCallbackIsLost` | src/core/cancellation.cpp:40-96 | when cancel and the registration have returned, the callback has run exactly once unless its registration was reset before either side claimed it |
| `Cancellation.RegisterKeepsInv` | src/core/cancellation.cpp:40-71 | registering, claiming, calling and resetting keep the invariant behind these |
| `Cancellation.CancelKeepsInv` | src/core/cancellation.cpp:80-96 | so does every step of cancel |
| `HttpPaths.Canonicalize` | src/core/url.cpp:127-205 | the loops compute the canonical form or the first error in the order of the checks |
| `HttpPaths.CanonicalIsIdempotent` | src/core/url.cpp:127-205 | a canonical path is its own canonical form |
| `HttpPaths.CanonicalIsShorter` | src/core/url.cpp:127-205 | it is never longer than the input |
| `HttpPaths.SameFormIffSameMeaning` | src/core/url.cpp:127-205 | two accepted paths share a canonical form exactly when they say the same, token by token, up to one trailing separator (sections 6.2.2.1 and 6.2.2.2 of RFC 3986) |
| `HttpPaths.EscapingUnreservedIsInvisible` | src/core/url.cpp:165-184 | escaping an unreserved byte other than a dot changes neither form nor error |
| `HttpPaths.HexCaseIsInvisible` | src/core/url.cpp:165-184 | nor does the case of hex digits |
| `HttpPaths.TrailingSlashIsInvisible` | src/core/url.cpp:201-203 | nor does one trailing separator |
| `HttpPaths.TokensOfRender` | src/core/url.cpp:150-185 | reading back normalized text gives the same tokens |
| `HttpPathForms.CanonicalIsClean` | src/core/url.cpp:127-205 | a canonical path starts with a slash, ends with one only when it is all there is, has no empty, . or .. segment, no control byte, query, fragment or backslash, and only escapes in upper case |
| `HttpPathForms.DecodingIsKept` | src/core/url.cpp:127-205 | canonicalization never changes what a path decodes to, but for one trailing slash |
| `HttpPathForms.CanonicalErrors` | src/core/url.cpp:131-139 | the errors about the start and the length, in their order, and otherwise that of the first bad token |
| `HttpPathForms.FirstTokenErrors` | src/core/url.cpp:143-174 | which bytes and which escapes are turned away, by value, and with which error |
| `HttpPathForms.UnreservedBytes` | src/core/url.cpp:175 | letters, digits, hyphen, dot, underscore and tilde, section 2.3 of RFC 3986 |
| `HttpPathForms.HexDigits` | src/core/url.cpp:159-181 | the hex digits and their values, and the upper-case digit written back |
| `RouteTables.RouteTable.Add` | src/routing/route_table.cpp:41-80 | adds exactly a valid, unreserved, complete route whose method and canonical path are free, and nothing otherwise |
| `RouteTables.RouteTable.Lookup` | src/routing/route_table.cpp:82-106 | the answer is matched exactly for a stored route under the canonical path; otherwise the sorted list of exactly the allowed methods, not found, or invalid path |
| `RouteTables.InsertKeepsSorted` | src/routing/route_table.cpp:76-77 | the allowed methods stay sorted without repetition |
| `RouteTables.ReservedPaths` | src/routing/route_table.cpp:55-66 | reserved are /_ccs-trans and everything below it |
| `RouteTables.MethodBytes` | src/routing/route_table.cpp:13-22 | a method is 1 to 32 capital letters, digits and hyphens |
| `ConfigDocuments.ValidateDefinition` | src/config/config_document.cpp:791-942 | accepts exactly complete definitions with usable paths, apart from the checks left abstract |
| `ConfigDocuments.ValidateDocument` | src/config/config_document.cpp:1101-1134 | the loop over the profiles with its limits on profiles and routes |
| `ConfigDocuments.DocumentLimits` | src/config/config_document.cpp:1101-1134 | an accepted document has at most 128 profiles and 256 local paths in all |
| `ConfigDocuments.EnabledIsComplete` | src/config/config_document.cpp:791-942 | an enabled profile of an accepted document has a protocol, a base URL, and local and upstream paths in pairs, the local ones outside the reserved ones |
| `RuntimeCompilers.Compile` | src/config/runtime_compiler.cpp:23-138 | succeeds exactly for an absolute root, a valid document, a non-empty selection of runnable profiles with distinct routes and a usable log path; the table then holds exactly their routes, with the profiles by id and the resolved log path; each refusal has its own exact condition, in the order of the checks |
| `RuntimeCompilers.CompileProfiles` | src/config/runtime_compiler.cpp:79-134 | the loop: all profiles runnable and no two routes alike; every profile is published under its id with its pipeline; it stops at the first profile that is refused, or whose routes collide with those before it, and names the reason |
| `RuntimeCompilers.PublishedUnderItsId` | src/config/runtime_compiler.cpp:95-104 | with the distinct ids of a document, each profile is found under its own |
| `RuntimeCompilers.CompileProfile` | src/config/runtime_compiler.cpp:79-104 | one profile up to its pipeline: an unregistered protocol, a profile its handler does not accept and rules that do not compile are refused, each with its own error |
| `RuntimeCompilers.RunnableMeans` | src/config/runtime_compiler.cpp:79-104 | a profile runs exactly with a complete definition, a registered protocol whose handler has a usage route if the profile does and takes each enabled rule that some handler specializes in, and rules that compile |
| `RuntimeCompilers.AddRoutes` | src/config/runtime_compiler.cpp:106-133 | adds the request route and, when there is one, the usage route, or meets a collision |
| `RuntimeCompilers.RoutesOfKeys` | src/routing/route_table.cpp:68-79 | the table has exactly the keys of the routes, and each route under its key |
| `ProtocolRegistries.ProtocolRegistry.RegisterHandler` | src/protocols/protocol_registry.cpp:29-68 | registers exactly a handler with routable methods and a free id, and keeps the known specialized rules those of the registered handlers |
| `ProtocolRegistries.BuildRegistry` | src/protocols/protocol_registry.cpp:120-134 | succeeds exactly when each handler is sound and has its own id; every one is then found under it, and nothing else |
| `ConfigCandidates.Validate` | src/config/config_editing_service.cpp:71-191 | accepts exactly the acceptable candidates; its trial compilation never fails for an absolute root, and what it accepts compiles |
| `ConfigCandidates.ValidateProfiles` | src/config/config_editing_service.cpp:89-160 | the loop with its own route map accepts exactly when every profile passes and no two routes collide |
| `ConfigCandidates.CheckProfile` | src/config/config_editing_service.cpp:90-134 | a disabled profile without enabled rules passes; any other is turned away for a missing or unknown protocol, a profile or rules the handler does not take, in this order |
| `ConfigCandidates.CandidateKeyIsInjective` | src/config/config_editing_service.cpp:38-42 | the joined key tells method and path apart |
| `ConfigCandidates.SameCollisions` | src/config/config_editing_service.cpp:38-57 | both passes see the same collisions |
| `ConfigCandidates.AddCandidateRoute` | src/config/config_editing_service.cpp:23-57 | inserts under the canonical path, or reports a bad path or a collision |
| `ConfigCandidates.LookupServesProfile` | src/routing/route_table.cpp:82-98 | any spelling of a profile's request path is answered with that profile, kind and upstream |
| `ConfigCandidates.LookupServesUsage` | src/routing/route_table.cpp:82-98 | likewise for its usage path |
| `ConfigCandidates.LookupServesNothingElse` | src/routing/route_table.cpp:82-98 | whatever is matched is the request or usage route of a compiled profile, under a spelling of its path |
| `ConfigCandidates.EveryProfileIsServed` | src/config/runtime_compiler.cpp:106-133 | the table of a compiled snapshot holds each profile's request and usage routes under their method and canonical path |
| `ConfigCandidates.NothingElseIsServed` | src/config/runtime_compiler.cpp:106-133 | and every route in it is one of a compiled profile |
| `SnapshotConversions.StoredRoundTrip` | src/config/configuration_snapshot.cpp:51-158 | stored profiles that convert to a document come back unchanged: order, storage keys, rule order, option text |
| `SnapshotConversions.ToDocument` | src/config/configuration_snapshot.cpp:112-158 | the document holds exactly the definitions, keyed by id in map order, with their positions; otherwise a bad rule, a duplicate id or an invalid document is at fault |
| `SnapshotConversions.ToStored` | src/config/configuration_snapshot.cpp:51-110 | the profiles in stable order of position |
| `SnapshotConversions.SortRestoresOrder` | src/config/configuration_snapshot.cpp:94-103 | sorting by position restores the stored order |
| `SnapshotConversions.UnpositionedComeLast` | src/config/configuration_snapshot.cpp:90-103 | profiles without a position come last, in id order |
| `SnapshotConversions.StableSortOrder` | src/config/configuration_snapshot.cpp:94-99 | the sorted list is ordered by position, then id, and has the same members |
| `SnapshotConversions.RulesRoundTrip` | src/config/configuration_snapshot.cpp:28-47 | rule order, keys and option text survive |
| `SnapshotConversions.DefinitionCarries` | src/config/configuration_snapshot.cpp:112-158 | every field of a stored profile goes to its own field of the definition, with its place as the position |
| `SnapshotConversions.RuleCarries` | src/config/configuration_snapshot.cpp:28-47 | a stored rule converts exactly when its option text is an object that prints as it stands, and keeps every field |
| `SnapshotConversions.RulesInPlace` | src/config/configuration_snapshot.cpp:28-47 | rules keep their places |

## Left out

- SaveSnapshot: the checks on a desired snapshot are one function of it, and the keys that the store gives to new profiles and rules are not modelled: the saved profiles are the desired ones. The merging of stable keys belongs to `save`, which is left out.
- MigrateV2: the sidecars of profiles.db.migrating are not modelled, because migrate_v2 looks at the file alone; whether the result serializes to the v2 document again is an input.
- RegisterHandler: the syntax of protocol ids and rule types is outside, and the rule types of a handler are a set.
- Write: a record that reached the disk only in part before an I/O failure is not counted, and log sizes are unbounded numbers, because the configured limit keeps them far below 2^64.
- Open: deleting stale compaction files and the parsing of archive names are outside; the listing gives sequence numbers and contents.
- Log: the lease of the memory budget that a queued record holds, and records that fail to render, are not modelled.
- AcceptHello: the constant-time token comparison is an equality, because timing is outside the model.
- ValidateDefinition: ids, option names, rule counts and base URL syntax are one abstract check, because both passes use the same one.
- Compile: the rule compiler and the log path resolver are functions of their inputs.
- ToStored: definitions are sorted and then converted, while the source converts first; the results agree because conversion is per profile.
- Candidate: a JSON tree is a value, so an overwrite rebuilds the nodes above it; aliasing of nodes is not captured.
- Sequence counters of 64 bits in sessions, log queue and channel are unbounded.
- InflightBudget and Cancellation are state machines on values, because their point is the interleaving of atomic operations; memory orders weaker than one total order are not captured.
- SQLite itself, file locks, permissions, fsync and the Windows and POSIX branches.
- The JSON parser and printer and the rounding of floating-point numbers; a parse is an abstract function.
- The hexadecimal rendering of a digest.
- Timestamps, metrics and the timing of condition variables; a wait is the predicate it waits for.
- Deletion and verification of managed backups, storage inspection, `save` on whole documents.
- Allocation failures, and exceptions thrown by callbacks.
- JSON codecs of the GUI protocol, command routing, CLI, HTTP heads, upstream transport and SSE forwarding.
