# Workstream registration and dispatch: a verified model

This project models the marker lifecycle of the `workstream_registration` package and the
record-first dispatch of `workstream_dispatch`, and proves what they promise. Paths below are
relative to the repository root. `dafny verify dfyconfig.toml` checks everything.

## What is modelled

| modules | part of the system |
|---|---|
| `Text`, `Utf8`, `Json`, `JsonLaws`, `JsonForms` | Python text, UTF-8 (sections 3 and 4 of RFC 3629), the compact JSON printer and `json.loads` with and without hooks (sections 2 to 7 of RFC 8259) |
| `RawGuard`, `RawGuardLaws`, `GuardCodes` | the raw guard: depth scan, hooks, control scan, the pipeline over bytes, and which code it gives |
| `Marker`, `MarkerLaws`, `ClassifyLaws`, `DraftLaws`, `FieldLaws` | the marker schema, `draft`, and the three readers (classification, read-back, projection) |
| `Protocol` | `register`, `unregister`, `resolve_invalid` and `recover_lock` as a step system: one step for each filesystem call, any number of calls, deaths at any step, every failure and short write an answer of the environment |
| `ProtocolLock`, `ProtocolPlaces`, `ProtocolPaths`, `ProtocolLimits` | what the lock protects, exactly when, and what goes wrong otherwise |
| `ProtocolCrash` | what a crashed owner's lock file means for everybody else |
| `ProtocolVerdicts` | what each step of each operation answers, in literal results that stand for the rest of any run |
| `ProtocolMarker`, `ProtocolHistory` | what holds of the marker, of results, of confirmations and of identities without relying on the lock |
| `ProtocolExclusion` | what a call may rely on inside the lock block |
| `ProtocolAlone`, `ProtocolUndo` | undisturbed calls: all three operations complete, over a dead owner's complete lock too, and unregister undoes register |
| `ProtocolReports` | what the results of unregister and resolve-invalid say about deletion, exactly |
| `TargetHandle`, `HandleFormats`, `LockMetadata`, `Filesystem` | identities and their encodings, the lock file's bytes, and the filesystem functions as methods on files |
| `Projection`, `ProjectionLaws` | the projection table with its unique index: update, remove, rebuild, listing |
| `Chain`, `ChainLaws`, `ChainRules` | job records and the chains they form |
| `Dispatch`, `DispatchLaws`, `DispatchVerdicts` | dispatch as a step system |
| `Diagnostics`, `DiagnosticLaws` | bounded serialisation |
| `CommandLine`, `CommandLineLaws`, `CommandLineVerdicts` | the argument parser |

In the step system a call is one run of an operation and `Die` is the death of its process; the
liveness check may err towards alive only, the lease clock, the comparisons of captured handles and
the projection hook are answers of the environment. Digests are taken as injective, so "the digest
matches" is "the bytes are the same". A confirmation is an identifier handed to a call together with
whether it is bound to this very draft or envelope and workspace.

## What turned out

- **Late checks break locks.** Stale recovery is safe exactly when no replacement happens while
  another live call owns the lock. That two recoveries must not overlap is not enough: one recovery
  alone breaks a live lock when the owner it read releases, another call acquires, the first owner's
  process ends, and only then the check is made (`ProtocolLimits.LateCheck`). Both halves of careful
  recovery are needed (`ProtocolLimits.OverlappingRecoveries`).
- **A harmful replacement always shows.** Whichever operation makes it, `recover_lock` included, the
  run can go on to two live calls inside the block (`ProtocolLimits.HarmIsTwoInBlock`).
- **A crashed owner's lock is recoverable if and only if its metadata is complete**, as long as no
  live call is already past the point where it looks at the lock file
  (`ProtocolCrash.CrashedLockExact`). Metadata that cannot be read is never broken, so a lock file
  torn by a crash stays for good: exactly when its writer is gone and no live call is between reading
  an earlier owner's metadata and replacing the lock, or about to unlink it
  (`ProtocolCrash.TornForeverExact`). Such a lock is reached by a crash right after the lock file is
  created (`ProtocolCrash.StuckIsReachable`).
- The metadata the operations write themselves is always readable (`Filesystem.OwnLockIsReleased`).
  The public `acquire_lock` takes any owner id: with one of 5,000 characters the lock can be acquired
  and not released (`Filesystem.OversizedLockStays`).
- The module documentation of `filesystem.py` says a stale lock is broken only by `recover_lock`
  after a confirmation, and that parent creation and lock creation are one atomic step. In the code
  every register, unregister and resolve-invalid call recovers stale locks, and the two are separate
  calls. The model follows the code.
- `resolve_invalid` reports a deleted marker when it found none to delete. What an undisturbed call
  says about deletion is true if and only if there was a marker when it began
  (`ProtocolReports.ResolveAloneExact`).
- `unregister` can delete the marker, answer `changed-marker-stopped` and claim no deletion
  (`ProtocolReports.DeletedButDenied`), though the documentation promises "no delete" with that
  outcome. In harmless runs it answers `unregistered` if and only if one of its three absence checks
  does not fail (`ProtocolReports.UnregisterReportsExact`).
- A document that is `null` is refused for a line break behind it, which the guard accepts behind
  any other document (`RawGuardLaws.NullQuirk`).
- The documentation of the raw guard puts duplicate names before non-finite constants. Its hooks fire
  as the text is read: a constant is reported before the names of the object around it are compared
  (`GuardCodes.ConstantsComeFirst`, with an input in `GuardCodes.ConstantsComeFirstExample`).
- The documentation of `rebuild` says stale entries are repaired. It inserts before it deletes, so a
  root whose target the table still holds under another identity makes it fail until that row is
  removed (`ProjectionLaws.StaleRowBlocksRebuild`, with an input in `ProjectionLaws.StaleRowExample`).
- The label cap is documented as 256 bytes; the schema counts 256 characters
  (`contracts/workstream-registration/v1/workstream.schema.json:21-27`). The bound on the whole
  marker holds all the same (`MarkerLaws.DraftFits`).
- `confirm` in `intent.py` says its confirmation cannot be replayed, but makes a fresh one at each
  call; at-most-once dispatch rests on the exclusive create of the record alone
  (`DispatchLaws.SpawnsAtMostOnce`).
- Chain building ends if and only if no walk from a head meets a job id twice
  (`ChainLaws.BuildingEndsExact`). Two records that share a job id can make it run forever
  (`ChainLaws.SharedIdNeverStops`); records read from one directory never do
  (`Chain.ReadIdsDistinct`, `Chain.DistinctIdsStop`).

## Model

| member | source | states |
|---|---|---|
| Utf8.DecodeEncode | src/workstream_registration/registration.py:579-580 | decoding undoes encoding for every text of scalar values |
| Utf8.EncodeDecode | src/workstream_registration/raw_guard.py:276-279 | encoding undoes decoding: bytes that decode are the one form of their text, so overlong forms, surrogates and values above U+10FFFF are refused |
| Utf8.DecodeConcat | src/workstream_registration/raw_guard.py:264-280 | strict decoding is local: what decodes keeps decoding the same in front of more bytes |
| Utf8.CutDecodesToStrictPrefix | src/workstream_registration/filesystem.py:686-695 | bytes of a text cut anywhere, inside a character too, decode to a strict prefix of it or not at all |
| JsonLaws.ValueLocal | src/workstream_registration/raw_guard.py:175-206 | a closed value is parsed the same whatever follows it |
| JsonLaws.DocumentModes | src/workstream_registration/raw_guard.py:175-206 | plain `json.loads` and the hooked call accept only what the grammar accepts, and see the grammar's document exactly when it has no duplicate names and no non-finite constants; otherwise the hooked call refuses |
| JsonLaws.ValueRoundTrip | src/workstream_registration/registration.py:579-580 | the parser reads back what the compact printer wrote, up to exactly its end |
| JsonLaws.DocumentRoundTrip | src/workstream_registration/registration.py:579-580 | the same for whole documents, in all three ways of parsing |
| JsonLaws.StrictPrefixMalformed | src/workstream_registration/filesystem.py:686-695 | no strict prefix of a printed object, array or string is a document |
| JsonLaws.PrintMadeOf | src/workstream_registration/registration.py:579-580 | printing adds nothing but printable ASCII to the characters of a value |
| JsonForms.NumberExact | src/workstream_registration/raw_guard.py:194-199 | what the parser takes as a number is one by section 6 of RFC 8259, and no longer prefix of the text is |
| JsonForms.LetterEscapes | src/workstream_registration/raw_guard.py:194-199 | the eight one-letter escapes and their characters |
| JsonForms.OtherEscapes | src/workstream_registration/raw_guard.py:194-199 | no other letter but `u` may follow a backslash |
| JsonForms.UnitEscapes | src/workstream_registration/raw_guard.py:194-199 | hexadecimal escapes: two that write a surrogate pair make one character, any other stands for itself, and after a high surrogate a broken one is refused |
| JsonForms.DictExact | src/workstream_registration/registration.py:491-492 | of several members with one name plain loading keeps the last, and of every name one |
| RawGuard.DepthScan | src/workstream_registration/raw_guard.py:149-172 | the one-pass loop computes the depth verdict of the recursive scan |
| RawGuardLaws.DepthScanExact | src/workstream_registration/raw_guard.py:149-172 | for every document in every layout the scan rejects if and only if containers nest deeper than 8; brackets, quotes and escapes inside names and strings never count |
| RawGuard.ControlsScan | src/workstream_registration/raw_guard.py:222-242 | the explicit-stack scan ends, and rejects if and only if some name or string value at any depth holds a prohibited control |
| RawGuard.PushMembers | src/workstream_registration/raw_guard.py:226-234 | one object's entries: stops at a prohibited name, otherwise puts every value on the stack |
| RawGuardLaws.GuardTextExact | src/workstream_registration/raw_guard.py:245-261 | over text: a document other than `null` passes if and only if it is at most 8 deep, strict and free of controls; `null` passes by the text scan |
| RawGuardLaws.NullQuirk | src/workstream_registration/raw_guard.py:253-257 | `null` and `true` with the same line break behind them get different verdicts |
| RawGuardLaws.DocumentHasNoBom | src/workstream_registration/raw_guard.py:136-146 | bytes that decode to a document never begin with a byte order mark |
| RawGuardLaws.GuardExact | src/workstream_registration/raw_guard.py:264-280 | over bytes that decode to a document: passes if and only if within 262,144 bytes and passed over text |
| GuardCodes.ByteCodesExact | src/workstream_registration/raw_guard.py:264-280 | the code over bytes: too long above 262,144; then any of the five byte order marks; then not UTF-8; otherwise the code over text |
| GuardCodes.TextCodesExact | src/workstream_registration/raw_guard.py:245-261 | the code over the text of a document: nesting over 8; then the first fault a hook meets, constants as they are read and names when their object ends; then a control |
| GuardCodes.ControlsExact | src/workstream_registration/raw_guard.py:209-212 | the prohibited characters: C0, DEL and C1, and the eleven bidirectional controls |
| GuardCodes.ConstantsComeFirst | src/workstream_registration/raw_guard.py:183-206 | an object that repeats a name and holds a non-finite constant is blamed for the constant, against the documented order |
| GuardCodes.ConstantsComeFirstExample | src/workstream_registration/raw_guard.py:183-206 | `{"a":NaN,"a":1}` is such an object |
| GuardCodes.NoDocument | src/workstream_registration/raw_guard.py:251-258 | text that is no document is left to the schema phase unless it holds a control |
| MarkerLaws.DraftFits | src/workstream_registration/registration.py:583-635 | an accepted draft's marker is at most 262,144 bytes |
| MarkerLaws.WriteReadBackInverse | src/workstream_registration/registration.py:961-1002 | those bytes pass the guard, parse to the same marker, classify as linked-existing with the draft's identity, and the read-back is verified |
| MarkerLaws.InterruptedWrite | src/workstream_registration/registration.py:475-542 | every strict byte prefix is occupied-invalid (partial), invisible to the projection and unverified for any draft |
| MarkerLaws.BelievedIsComplete | src/workstream_registration/registration.py:475-542 | a prefix is believed if and only if it is the whole marker |
| ClassifyLaws.ClassifyExact | src/workstream_registration/registration.py:475-542 | for every clean document that fits: unsupported if and only if it is an object with a member `version` other than the integer 1; invalid if and only if it has none and does not match the schema, or is no object; otherwise linked with the identity it holds |
| ClassifyLaws.UnreadableIsPartial | src/workstream_registration/registration.py:479-503 | partial if and only if the bytes fail the guard or do not load |
| ClassifyLaws.SmallDocuments | src/workstream_registration/registration.py:515-531 | `{"version":2}` is unsupported, `{}` is invalid |
| ClassifyLaws.ReadBackExact | src/workstream_registration/registration.py:961-992 | what a read-back finds wrong, exactly: each fault if and only if the inspection of the same bytes says so, in the order of the code |
| MarkerLaws.ReadersAgree | src/workstream_registration/projection.py:749-763 | inspection, read-back and projection believe the same bytes and see the same identity |
| MarkerLaws.LoadedIsClean | src/workstream_registration/raw_guard.py:245-261 | a document that passed the guard and was loaded is clean, `null` aside |
| MarkerLaws.BelievedIdentity | src/workstream_registration/registration.py:532-542 | a believed identity is a lower-case version 4 UUID, without the final line break the schema's pattern lets through |
| DraftLaws.AcceptedExact | src/workstream_registration/registration.py:608-635 | `draft` accepts exactly the inputs that match the schema, hold no prohibited control and can be encoded; depth never matters |
| DraftLaws.RefusedExact | src/workstream_registration/registration.py:616-622 | why it refuses: a control is reported by the guard whatever else is wrong; then the schema, never for its version; then the encoding fails |
| FieldLaws.AcceptedFields | contracts/workstream-registration/v1/workstream.schema.json:9-82 | the same through the fields of the input: a version 4 UUID in lower case; a label of 1 to 256 characters with something visible, no control and no surrogate; direct or proxy; 1 to 32 sources, no two alike, each a type of at most 64 and a URI of at most 2,048 printable ASCII characters and nothing else |
| DraftLaws.ExampleIsAccepted | src/workstream_registration/registration.py:608-635 | there is an accepted draft |
| ProtocolLock.DecideMovesLock | src/workstream_registration/filesystem.py:471-576 | what each single step can do to the lock, given the caller's part in the lock protocol |
| ProtocolLock.OwnedStep | src/workstream_registration/filesystem.py:503-514 | a step leaves every live call's lock in place if and only if it is not a replacement made while another live call owns the lock |
| ProtocolLock.OwnedThroughout | src/workstream_registration/filesystem.py:471-614 | over whole runs: no live call ever loses its lock if and only if every replacement is harmless |
| ProtocolLock.OwnedIsExclusive | src/workstream_registration/filesystem.py:579-614 | then at most one live call is inside a lock block |
| ProtocolLock.CarefulRunsAreExclusive | src/workstream_registration/filesystem.py:403-419 | with deaths at any step: mutual exclusion, if each passing stale check finds the metadata it read still there and no other recovery in progress |
| ProtocolLock.CarefulRunsAreHarmless | src/workstream_registration/filesystem.py:503-514 | such runs are harmless throughout |
| ProtocolLock.DeathFreeRunsAreExclusive | src/workstream_registration/filesystem.py:471-614 | nobody dying: mutual exclusion in every run, with no further hypothesis |
| ProtocolLock.LockChangesHands | src/workstream_registration/filesystem.py:556-576 | a lock is created in its absence, completed or removed by its owner only, and taken over only from the dead |
| ProtocolCrash.StuckForever | src/workstream_registration/filesystem.py:408-419 | a torn lock whose writer is gone, with no live call poised to touch it, stays whatever happens, and nobody comes to own a lock |
| ProtocolCrash.TornForeverExact | src/workstream_registration/filesystem.py:503-514 | in every reachable state a torn lock stays for good if and only if its writer is gone and no live call is at a stale check, in a replacement or about to unlink |
| ProtocolCrash.StuckKeepsOut | src/workstream_registration/filesystem.py:408-419 | after a harmless run such a lock keeps every call out of the block for good |
| ProtocolCrash.StuckIsReachable | src/workstream_registration/filesystem.py:422-440 | a run that ends with such a lock |
| ProtocolCrash.CrashedLockExact | src/workstream_registration/filesystem.py:503-514 | with nobody poised, a crashed owner's lock can be taken over by a new call if and only if its metadata is complete |
| ProtocolCrash.AlwaysKnown | src/workstream_registration/filesystem.py:408-419 | complete metadata, at the lock path or read from it, names a call that has completed it |
| ProtocolCrash.TornLockBlocksCarefulRuns | src/workstream_registration/filesystem.py:503-514 | in careful runs an abandoned torn lock stays even with calls that have read an earlier one, and nobody is inside the block |
| ProtocolPlaces.AlwaysFits | src/workstream_registration/filesystem.py:622-662 | a call is only ever at steps of its own operation; `recover_lock` never creates a lock file |
| ProtocolLimits.HarmIsTwoInBlock | src/workstream_registration/filesystem.py:443-514 | a harmful replacement, whichever operation makes it, can be continued to two live calls inside the block |
| ProtocolLimits.NewCallEnters | src/workstream_registration/filesystem.py:503-514 | a new call takes over the complete lock of a dead owner and enters the block, nobody else moving |
| ProtocolLimits.OverlappingRecoveries | src/workstream_registration/filesystem.py:503-514 | a run with overlapping recoveries, each finding the lock as it read it, ends with two calls inside |
| ProtocolLimits.LateCheck | src/workstream_registration/filesystem.py:503-514 | a run with a single recovery, whose check comes late, ends with two calls inside |
| ProtocolMarker.MarkerIsDraftPrefix | src/workstream_registration/filesystem.py:665-695 | in every run, without relying on the lock, the marker path is free or holds a byte prefix of exactly one confirmed draft's bytes |
| ProtocolMarker.InspectionNamesConfirmedDraft | src/workstream_registration/registration.py:418-466 | an inspection says linked-existing exactly when that draft is completely there, with its identity; otherwise partial |
| ProtocolMarker.ResultsAreTruthful | src/workstream_registration/registration.py:704-829 | marker_written exactly when the create-only write completed in the call; cancelled, occupied-invalid and linked-existing changed nothing; a partial write only with write-failed; which outcomes claim a deletion, and that a deleting resolve-invalid claims it |
| ProtocolVerdicts.StartVerdict | src/workstream_registration/registration.py:864-869 | without a confirmation a call is cancelled as rejected, with a spent or foreign one as expired, for good |
| ProtocolVerdicts.RegisterPreparingVerdict | src/workstream_registration/registration.py:870-890 | each check of a register call before the lock: which answer lets it go on and which result it ends with otherwise, whatever follows |
| ProtocolVerdicts.RegisterCreatingVerdict | src/workstream_registration/registration.py:895-913 | the recapture under the lock and the create-only open: cancelled, write-failed, or on to writing or to the collision |
| ProtocolVerdicts.RegisterWritingVerdict | src/workstream_registration/filesystem.py:686-695 | the short writes: where they go on, when they end in write-failed and when they raise |
| ProtocolVerdicts.ReadBackVerdict | src/workstream_registration/registration.py:961-1002 | written-unverified, with the code of what is wrong with the bytes read back or with the target, unless they are linked with the draft's identity and the target is still the confirmed one |
| ProtocolVerdicts.CollisionVerdict | src/workstream_registration/registration.py:921-958 | after a collision: occupied-invalid, with the code of what is there, unless it is a valid marker, which goes on to be linked |
| ProtocolVerdicts.ProjectionVerdict | src/workstream_registration/registration.py:761-829 | in every run: linked gives registered after the call's own write and linked-existing after a collision, a conflict is a conflict in both, any other answer gives registered-unlinked after the write and stops the call after a collision |
| ProtocolVerdicts.UnregisterPreparingVerdict | src/workstream_registration/unregister.py:306-327 | each check of an unregister call before the lock, with its result |
| ProtocolVerdicts.UnregisterWorkingVerdict | src/workstream_registration/unregister.py:328-362 | under the lock: target, three comparisons with the bound bytes, the unlink and three looks for its absence, with the result and the code of each |
| ProtocolVerdicts.MismatchExact | src/workstream_registration/unregister.py:233-243 | the code of a comparison that fails: the identity if and only if the marker is another draft's complete one with another identity; otherwise the marker, a marker still being written included |
| ProtocolVerdicts.ResolveVerdict | src/workstream_registration/registration.py:1103-1145 | each step of resolve-invalid with its result; the unlink leaves the marker absent |
| ProtocolVerdicts.LockVerdict | src/workstream_registration/filesystem.py:471-553 | each step of taking the lock: what lets the call go on, what denies it, and that before the deadline it tries again |
| ProtocolVerdicts.ReleaseVerdict | src/workstream_registration/filesystem.py:556-576 | the lock is unlinked only if it is read as the call's own |
| ProtocolVerdicts.ConsumedOnlyChecked | src/workstream_registration/registration.py:864-890 | a confirmation is consumed only by a call whose every check before the lock was answered yes |
| ProtocolMarker.UnconfirmedDoesNothing | src/workstream_registration/registration.py:864-869 | without a confirmation, or with one bound to something else, a call is at its first step or has returned, has changed nothing, and its next step leaves lock, parent, marker and confirmations as they are |
| ProtocolMarker.MoveKeepsLocal | src/workstream_registration/registration.py:843-958 | what a call has consumed, created, completed and deleted by the time it is at each step |
| ProtocolHistory.AlwaysChronicle | src/workstream_registration/filesystem.py:713-748 | creations and deletions of the marker alternate from a creation on, agree with the path, and no call accounts for two |
| ProtocolHistory.OneChangePerConfirmation | src/workstream_registration/registration.py:864-890 | a confirmation reused by calls that follow one another accounts for at most one creation or deletion, and each change for a confirmation that matches |
| ProtocolHistory.ReportedIdentities | src/workstream_registration/registration.py:921-958 | in every run the identity of any result is that of a confirmed draft whose marker was written completely |
| ProtocolExclusion.BoundedReadDecides | src/workstream_registration/filesystem.py:698-710 | the read of one byte over the limit decides equality with the bound bytes exactly when they are within the limit |
| ProtocolExclusion.AlwaysGuarded | src/workstream_registration/unregister.py:327-362 | in harmless runs the marker does not change under a live call inside the block |
| ProtocolExclusion.UnregisterDeletesBound | src/workstream_registration/unregister.py:337-354 | unregister only deletes a marker whose whole content is what its confirmation is bound to, a confirmed draft's complete marker |
| ProtocolExclusion.ReportedWhileTrue | src/workstream_registration/unregister.py:355-360 | unregistered and invalid-marker-resolved are reported only while the marker is absent, marker_written only while the whole marker is there |
| ProtocolExclusion.ReadBackSucceeds | src/workstream_registration/registration.py:961-992 | under exclusion the read-back of a completed write finds the draft unless the read itself fails |
| ProtocolAlone.Workspace.Perform | src/workstream_registration/registration.py:843-918 | making a call and taking its steps is the run of the step system |
| ProtocolAlone.RegisterAloneCompletes | src/workstream_registration/registration.py:843-918 | an undisturbed register call, the lock free or a dead owner's, returns whatever the short writes, with the whole marker in place, the draft's identity in the result, the outcome the projection's answer stands for, and the lock free |
| ProtocolReports.ResolveAloneExact | src/workstream_registration/registration.py:1103-1143 | an undisturbed resolve-invalid call from any state with the lock to be had: when it claims a deletion, when it deletes, and that the two agree if and only if there was a marker when it began |
| ProtocolReports.ResolvedWithoutDeleting | src/workstream_registration/registration.py:1115-1116 | a run in which resolve-invalid reports a deletion and deletes nothing |
| ProtocolReports.UnregisterReportsExact | src/workstream_registration/unregister.py:353-360 | in harmless runs a call that has deleted the marker ends unregistered if and only if one of its three absence checks does not fail, and otherwise reports changed-marker-stopped |
| ProtocolReports.DeletedButDenied | src/workstream_registration/unregister.py:353-360 | a run in which unregister deletes the marker and reports changed-marker-stopped |
| ProtocolUndo.DeleteAloneCompletes | src/workstream_registration/registration.py:1088-1145 | an undisturbed resolve-invalid or unregister call bound to the marker that is there, the lock free or a dead owner's, deletes it and returns invalid-marker-resolved or unregistered, the lock free |
| ProtocolUndo.RegisterThenUnregister | src/workstream_registration/unregister.py:299-362 | unregister undoes register: the marker path ends as it was, and the lock free |
| TargetHandle.DecodeEncode | src/workstream_registration/filesystem.py:225-252 | strict base64 decoding undoes encoding (section 4 of RFC 4648) |
| HandleFormats.DecodesExact | src/workstream_registration/filesystem.py:234-252 | exactly the text of whole groups of four letters of the alphabet, at most two of them padding at the very end, decodes |
| HandleFormats.KnownAnswers | src/workstream_registration/filesystem.py:225-232 | the test vectors of section 10 of RFC 4648 |
| TargetHandle.EncodeShape | src/workstream_registration/filesystem.py:225-232 | encoded text comes in groups of four and holds no colon, so it is never `ABSENT` |
| TargetHandle.CaptureInjective | src/workstream_registration/filesystem.py:157-185 | packed identities are equal if and only if the 64-bit device and inode are |
| HandleFormats.CaptureExact | src/workstream_registration/filesystem.py:157-185 | a capture, exactly: when it is unavailable and why; otherwise device and inode in eight bytes each, the lowest first |
| TargetHandle.FromDictToDict | src/workstream_registration/filesystem.py:234-252 | `from_dict` undoes `to_dict` |
| TargetHandle.ToBytesInjective | src/workstream_registration/filesystem.py:225-232 | handles have equal byte forms if and only if they are equal |
| TargetHandle.CaptureLosesNothing | src/workstream_registration/filesystem.py:255-292 | stored handles of two captures are equal if and only if device and inode of workspace and parent agree |
| LockMetadata.MetadataReadsBack | src/workstream_registration/filesystem.py:362-391 | metadata reads back as written if and only if it is within 4,096 bytes and names an owner and a process; otherwise it is unreadable |
| LockMetadata.TornMetadataUnreadable | src/workstream_registration/filesystem.py:408-419 | no strict prefix of written metadata can be read |
| Filesystem.WriteAll | src/workstream_registration/filesystem.py:432-437 | the short-write loop leaves exactly the bytes taken, is complete exactly when that is the payload, and blames an empty write exactly when there was one |
| Filesystem.TakenExact | src/workstream_registration/filesystem.py:432-437 | what is taken is the sum of the amounts before the first empty write, up to the payload |
| Filesystem.EnoughWritesComplete | src/workstream_registration/filesystem.py:686-692 | writes that always take something complete the payload |
| Filesystem.Workspace.TryAcquire | src/workstream_registration/filesystem.py:471-514 | one attempt: result and lock bytes are those of the attempt function, whose laws on free, torn and written locks are below |
| Filesystem.Workspace.AcquireLock | src/workstream_registration/filesystem.py:517-553 | the retry loop: an attempt that finds the lock in use leaves it, the first other one decides |
| Filesystem.AcquireExact | src/workstream_registration/filesystem.py:517-553 | a lock is had if and only if some attempt gets it, from its absence or from a stale owner of the same workspace, after all before it have missed; otherwise the lock file is as it was, except that a failed write on a free lock leaves it torn |
| Filesystem.WrittenLockExact | src/workstream_registration/filesystem.py:503-514 | on a lock that an operation wrote: an attempt takes it over if and only if its owner is stale, its workspace is the same, nothing fails and the write completes; exactly when it is in use; otherwise its bytes stay |
| Filesystem.LiveLockStays | src/workstream_registration/filesystem.py:503-514 | the lock of an owner that no attempt finds stale, or of another workspace, is never acquired and its bytes stay |
| Filesystem.WrittenLockTaken | src/workstream_registration/filesystem.py:517-553 | over all attempts: who gets such a lock has found its owner stale in its own workspace, after all attempts before it found it in use |
| Filesystem.TornLockStays | src/workstream_registration/filesystem.py:503-505 | a torn lock file is never acquired and never released, whatever clock and liveness say |
| Filesystem.ReleaseUndoesAcquire | src/workstream_registration/filesystem.py:556-576 | the owner can release its lock if and only if its metadata is readable; nobody else can |
| LockMetadata.OwnMetadataFits | src/workstream_registration/filesystem.py:593-610 | metadata of the form the operations write is within 4,096 bytes |
| Filesystem.OwnLockIsReleased | src/workstream_registration/filesystem.py:579-614 | so it reads back, and its owner can release the lock |
| Filesystem.OversizedLockStays | src/workstream_registration/filesystem.py:517-576 | an owner id with which a lock can be acquired and not released |
| Filesystem.Workspace.ReleaseLock | src/workstream_registration/filesystem.py:556-576 | the lock file afterwards: gone if it names this owner, otherwise as it was |
| Filesystem.WrittenLockReleased | src/workstream_registration/filesystem.py:556-576 | the lock that an operation wrote is released exactly by its owner, when the unlink works; otherwise it stays |
| Filesystem.Workspace.WriteMarkerCreateOnly | src/workstream_registration/filesystem.py:665-695 | an existing marker is never overwritten; exactly when the marker is complete; what a failed write leaves is a strict prefix |
| Filesystem.Workspace.ReadMarker | src/workstream_registration/filesystem.py:698-710 | the whole marker, or its first 262,145 bytes |
| Filesystem.Workspace.ConditionalDelete | src/workstream_registration/filesystem.py:729-748 | deletes if and only if the whole marker is the bound bytes, when these are within the limit |
| Projection.Index.UpdateRow | src/workstream_registration/projection.py:498-564 | status and table are those of the update function, whose laws are below |
| ProjectionLaws.UpdateExact | src/workstream_registration/projection.py:498-564 | failed when the store fails, conflict when another identity holds the target, otherwise linked, with the row and all rows for other targets |
| ProjectionLaws.RemoveExact | src/workstream_registration/projection.py:566-597 | unlinked when the store works, then without the row of this identity and target; otherwise failed and unchanged |
| Projection.Index.RemoveEntry | src/workstream_registration/projection.py:566-597 | drops exactly the row of this identity and target, and reports its ordinal exactly when there is one and the store works |
| Projection.Index.RebuildFrom | src/workstream_registration/projection.py:599-676 | both loops and the transaction compute the rebuild function, whose laws are below |
| Projection.Listing | src/workstream_registration/projection.py:678-691 | the same rows, by ordinal |
| ProjectionLaws.ListingSorted | src/workstream_registration/projection.py:678-691 | every row once, ordered by ordinal and then by identity |
| ProjectionLaws.ListingOrder | src/workstream_registration/projection.py:678-691 | of two entries the ordinals grow, and for one ordinal the identities, by their first differing character |
| ProjectionLaws.UpsertRows | src/workstream_registration/projection.py:517-535 | an upsert fails exactly when another identity holds the target; otherwise it replaces that target's row or adds one |
| ProjectionLaws.UpsertAllRows | src/workstream_registration/projection.py:641-661 | the inserts of a rebuild fail exactly when some row meets another identity on its target |
| ProjectionLaws.ResolvedExact | src/workstream_registration/projection.py:614-639 | the loop over the roots succeeds exactly on acceptable lists, and collects one row for each distinct target with the path and 1-based position of the first root that has it |
| ProjectionLaws.RebuildExact | src/workstream_registration/projection.py:599-676 | exactly when a rebuild succeeds; then the listing is the roots' rows in first-occurrence order, otherwise the table is unchanged |
| ProjectionLaws.DraftRow | src/workstream_registration/projection.py:642-661 | the row of a draft's marker at the first root of its target: the draft's identity and label, that target, that root's path and 1-based position |
| ProjectionLaws.RebuiltDraftRow | src/workstream_registration/projection.py:641-676 | that row is what a successful rebuild lists for the target, and the only one for it |
| ProjectionLaws.RebuildIgnoresTheTable | src/workstream_registration/projection.py:599-676 | the list a successful rebuild returns does not depend on the earlier table |
| ProjectionLaws.RebuildFromEmpty | src/workstream_registration/projection.py:599-676 | from an empty table it succeeds exactly on acceptable lists |
| ProjectionLaws.StaleRowBlocksRebuild | src/workstream_registration/projection.py:641-669 | a row that holds a root's target under another identity makes every rebuild fail |
| ProjectionLaws.StaleRowExample | src/workstream_registration/projection.py:641-669 | a table and a root for which it does, and for which it succeeds without that row |
| ProjectionLaws.RebuildIsUpdates | src/workstream_registration/projection.py:498-676 | from an empty table a rebuild is the fold of update over the collected rows |
| ProjectionLaws.OneRowEach | src/workstream_registration/projection.py:614-639 | for roots with distinct handles the collected rows are those of the roots one by one, so that fold is over the roots |
| ProjectionLaws.StepKeeps | src/workstream_registration/projection.py:445-461 | every operation keeps one row for each target, changes no row's identity, and changes nothing on conflict or failure |
| ProjectionLaws.RunKeeps | src/workstream_registration/projection.py:445-461 | over any run each target has at most one row |
| Chain.ReadAllRecords | src/workstream_dispatch/records.py:216-236 | the loop computes the valid records |
| Chain.AllRecordsSorted | src/workstream_dispatch/records.py:225-236 | sorted by creation time, those of one moment in the order of the directory, none lost or doubled |
| Chain.ReadIdsDistinct | src/workstream_dispatch/records.py:199-236 | records read from one directory have distinct job ids |
| ChainRules.ReadExact | src/workstream_dispatch/records.py:199-236 | a record is read if and only if the file named after its job holds it |
| Chain.BuildChains | src/workstream_dispatch/chain.py:52-77 | ends wherever the source ends, cycles included; one chain for each head, a path on `follows` that nothing continues |
| ChainRules.FollowersExact | src/workstream_dispatch/chain.py:58-62 | of several records that follow one job the last is taken; a job has a follower if and only if some record names it, and an empty name is none |
| ChainRules.ChainExact | src/workstream_dispatch/chain.py:65-75 | a chain on the records alone: it starts with a record that follows nothing, each next one is the last that follows the one before, and nothing follows its end |
| ChainRules.BuiltExact | src/workstream_dispatch/chain.py:65-77 | the chains are such, one for each record that follows nothing, in the order of these |
| ChainRules.ForkExample | src/workstream_dispatch/chain.py:58-75 | of A, B after A and C after A the chain is A, C |
| Chain.DistinctIdsStop | src/workstream_dispatch/chain.py:69-74 | with distinct job ids every walk stops within as many turns as there are records |
| Chain.PathIsShort | src/workstream_dispatch/chain.py:69-74 | no path from a head is longer than the list of records |
| ChainLaws.ChainsDisjoint | src/workstream_dispatch/chain.py:65-75 | a record is in at most one chain, and there once |
| ChainLaws.ChainsUnique | src/workstream_dispatch/chain.py:52-77 | the records determine the chains |
| ChainLaws.CoverageExact | src/workstream_dispatch/chain.py:52-77 | every record is in a chain if and only if `follows` is injective, acyclic and points to present records |
| ChainLaws.PermutationExact | src/workstream_dispatch/chain.py:52-77 | under exactly that condition the chains together are a permutation of the records |
| ChainLaws.WalkStopsExact | src/workstream_dispatch/chain.py:69-74 | the walk from a head stops if and only if it never meets a job id twice, and whether it has after as many turns as there are records decides it |
| ChainLaws.BuildingEndsExact | src/workstream_dispatch/chain.py:66-75 | so building ends if and only if no walk from a head meets a job id twice |
| ChainLaws.SharedIdNeverStops | src/workstream_dispatch/chain.py:69-74 | two records with one job id for which the loop never stops |
| DispatchLaws.MovesAreGood | src/workstream_dispatch/dispatch.py:96-184 | what each step of a dispatch call does to its record, to spawns and to bindings |
| DispatchLaws.AlwaysSound | src/workstream_dispatch/dispatch.py:96-184 | the invariant of every interleaving |
| DispatchVerdicts.DraftingVerdict | src/workstream_dispatch/dispatch.py:96-105 | each check before the record: confirmation, workspace, draft, and the outcome of each when it fails, for good |
| DispatchVerdicts.RecordVerdict | src/workstream_dispatch/dispatch.py:123-142 | the create-only open, the synchronisation and the read-back of the record, with collision, write-failed and written-unverified |
| DispatchVerdicts.WritingVerdict | src/workstream_dispatch/records.py:164-196 | the short writes of the record |
| DispatchVerdicts.SpawnVerdict | src/workstream_dispatch/dispatch.py:147-184 | a failed spawn is a partial success; a failed binding is dispatched all the same |
| DispatchVerdicts.EffectVerdict | src/workstream_dispatch/dispatch.py:123-184 | what each step does to records, spawn attempts and bindings, and that a record grows as its own bytes in order |
| DispatchVerdicts.UnacceptedDoesNothing | src/workstream_dispatch/dispatch.py:96-99 | in every run a call that was not accepted owns no record, spawn or binding; with a confirmation it is cancelled, without one stopped by its draft or refused its workspace |
| DispatchVerdicts.OwnersAreAccepted | src/workstream_dispatch/dispatch.py:96-184 | so every record, spawn attempt and binding is that of an accepted call |
| DispatchVerdicts.UnresolvedDoesNothing | src/workstream_dispatch/dispatch.py:101-105 | a call whose workspace is not resolved ends as invalid and owns nothing, in every continuation |
| DispatchVerdicts.EarlyOwnsNothing | src/workstream_dispatch/dispatch.py:96-142 | a call that ended before its record was created owns nothing |
| DispatchLaws.SpawnsAtMostOnce | src/workstream_dispatch/dispatch.py:155-184 | at most one spawn for each job id, by a call whose complete valid record stands; every binding was made by that call |
| DispatchLaws.RecordBeforeSpawn | src/workstream_dispatch/dispatch.py:123-163 | when a spawn is attempted the verified record is there and the job was never spawned |
| DispatchLaws.RecordsAreKept | src/workstream_dispatch/records.py:164-196 | for the rest of any run a record keeps its creator, its bytes only grow, and a complete one stays as it is |
| DispatchLaws.OneDispatchPerJob | src/workstream_dispatch/dispatch.py:123-184 | of all calls with one job id, replays included, at most one is told that it dispatched the job |
| Diagnostics.Serialize | src/workstream_registration/diagnostics.py:252-274 | at most 65,536 bytes, the count is the number of items, and the items are the longest prefix of the bounded list that fits |
| Diagnostics.TextGrows | src/workstream_registration/diagnostics.py:263-271 | one more item never makes the document shorter |
| Diagnostics.LongerDoesNotFit | src/workstream_registration/diagnostics.py:263-271 | so the early break drops no item that would have fitted |
| Diagnostics.BoundedTwice | src/workstream_registration/diagnostics.py:240-250 | bounding is idempotent |
| DiagnosticLaws.BoundedExact | src/workstream_registration/diagnostics.py:196-250 | the first 32 are kept in order, the fields cut at 16, 32, 256, 256 and 1,024 characters, empty optional fields dropped |
| DiagnosticLaws.SerializedReadsBack | src/workstream_registration/diagnostics.py:252-274 | the serialised text parses to a document whose count is the number of items and whose items are these, field by field |
| CommandLine.Parse | src/workstream_registration/cli.py:428-497 | the loops compute the parse function, for every argument list |
| CommandLine.ParseRecordSources | src/workstream_registration/cli.py:146-159 | every entry split at its first equals sign, or a usage error |
| CommandLineVerdicts.EveryLineIsSpelled | src/workstream_registration/cli.py:452-469 | every list of tokens is spelled by whole pieces, with nothing, a help flag and anything, or a last option behind them |
| CommandLineVerdicts.RegisterVerdict | src/workstream_registration/cli.py:470-512 | what `register` makes of every line of pieces: each usage error exactly, in the order of the checks; otherwise the first label, the first kind or direct, and all sources |
| CommandLineVerdicts.PathVerdict | src/workstream_registration/cli.py:470-546 | the other commands: exactly one workspace, for `rebuild` at least one, and no option |
| CommandLineVerdicts.EndVerdict | src/workstream_registration/cli.py:458-465 | a help flag asks for help whatever follows it; an option at the end is refused for its missing value |
| CommandLineVerdicts.CommandVerdict | src/workstream_registration/cli.py:428-446 | no command, `help` and `--help` ask for help; an unknown command is refused |
| CommandLineVerdicts.SourceExact | src/workstream_registration/cli.py:150-157 | an entry is a source if and only if it splits at its first equals sign into two parts that are not blank |
| CommandLineVerdicts.EntriesExact | src/workstream_registration/cli.py:150-157 | all entries must be sources, and the result holds them in order |
| CommandLineLaws.GatherRendered | src/workstream_registration/cli.py:452-469 | the token loop gathers what the pieces of a rendered command line say, in any order |
| CommandLineLaws.SourcesRoundTrip | src/workstream_registration/cli.py:146-159 | record sources parse back, in order |
| CommandLineLaws.ParseUndoesRender | src/workstream_registration/cli.py:428-512 | for every interleaving of options, positional and `--json` tokens a register command parses to the same workspace, label, kind, json flag and sources |

## Left out

- SQLite itself, WAL files, permissions, ACLs and sidecar checks: a transaction is all or nothing on a table, and whether the store works is an answer of the environment; the exception `list_projection` can raise after a committed rebuild is not modelled.
- HMAC, SHA-256, uuid and clock formats: digests are injective, timestamps are text, the lease clock and the liveness check are answers of the environment; process id reuse is not modelled.
- The `jsonschema` library: the marker schema is a predicate; the job-record schema is a flag of the record's bytes.
- Diagnostic codes are kept except that the three codes of a failing capture are one, and those of the schema one; validity fields and safe paths of results are not modelled.
- Path resolution, symbolic links and reparse points: captures of handles succeed, fail, agree or disagree.
- Writers that ignore the lock protocol: a disclosed limitation of the design, not an actor here.
- Reuse of one confirmation by calls that overlap in time: the accounting of confirmations is for calls that follow one another.
- Which bytes resolve-invalid deletes under interleaving: the code does not read the marker again after it has the lock, so nothing is claimed.
- Temporary files of lock replacement: never read by anyone, so they are not part of the state.
- Registering calls that share state in the projection: the step system sees the projection hook as an answer of the environment, and the table is modelled on its own.
- The write loops of registration calls and of dispatch are one step of the step system for each `os.write`; as loops they are `Filesystem.WriteAll`. The lock's metadata is written in steps of which the last completes it.
- Lone surrogates in drafts make the encoding fail, as modelled; in diagnostics they are excluded by a precondition.
- LockMetadata.MetadataReadsBack: owner ids and timestamps are printable ASCII, as the code makes them, so escaping to ASCII is the identity; entries of other JSON types, which Python coerces, are reported as `Coerced` and not interpreted.
- The limit of 4,300 digits on converting numbers, recursion limits of the parser, and floating point values of numbers: numbers are lexemes.
- Chain.ReadAllRecords: the directory is a list of named entries with their parsed content; bytes of job records are not parsed.
- The Paseo and git adapters, activity rendering, job states, outcome notes, previews, redaction, exit codes and help texts: external processes or presentation.
- Interactive confirmation prompts: a confirmation is handed to a call or not.
