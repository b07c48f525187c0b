# Verified model of binpass

binpass is a password manager over a tree of encrypted entries, with synchronisation between
devices, plugins under capability patterns, a Secret Service provider and an audit. This project
models its cores and proves what they promise: one module or a few for each.

- **Synchronisation.** `VersionVectors` and `Causality` (what the vectors mean over any history of
  edits and syncs), `MergeEngine` (the three-way decision per path), `SyncEngine` (the local store,
  the remote and the base as three maps changed one write at a time, so that every prefix of the
  writes is a state a crash can leave), `NoLoss` (for any three snapshots), `Pipeline`,
  `Unscanned`, `RemoteLosses` and `Stability` (the program's own scan, listing and snapshot, what
  becomes of files the scan passes over, when a run loses what the remote held, and what a second
  and third run do), `ScanEffects` and `ActionEffects` (what one scan and one action mean by
  themselves: digests, races lost, contents transferred, histories recorded), `ConflictNames`,
  `StateDB` (the write-ahead log).
- **Plugins.** `Glob` (the pattern language and the two matchers) and `Plugin` (grants, guards).
- **The store.** `StoreTree` (entries of two formats, recipients files, the writes of each
  operation), `Store` (the class carrying them out), `StoreEffects` (what each operation means to
  readers), `Reencryption`, `Governance`, `Folders`, `Relocation`, `PathSafety` (cleaning and containment of
  paths) and `NamePaths` (where a name is kept).
- **The Secret Service.** `SecretFormat`, `Items`, `ItemAttributes` and `EntryText` (the entry format),
  `AttributeIndex`, `ItemStore`, `ItemEffects` and `IndexRefinement` (the blinded index against a
  linear scan), `Sessions` and `TransportFormat` (key agreement and transport).
- **The audit.** `Audit` (the run) and `AuditReports` (what every report satisfies).

`Ordering`, `Strings`, `Runs` and `Wrappers` are shared: sorting and the order of strings, the string
functions used, runs of jobs made of single writes, optional values. A run is a sequence of
writes; "after `n` writes" is how crashes, interruptions and errors part way are stated.

`dafny verify dfyconfig.toml` checks everything.

## Where the code and its promises differ

Each of these is a lemma with the exact condition or a concrete case.

- A glob such as `*.token` is documented as matching entries whose *final segment* ends so. The code
  matches names of one segment only (`Glob.SuffixPattern`).
- The remote snapshot copies the base's version onto every known remote file, so a file the base
  knows is never pulled and never conflicts (`Stability.PathActionKinds`).
- A local file that the scan passes over, such as the recipients file `.gpg-id`, is overwritten
  without a copy when the remote lists a file of its name that the base does not know and that
  differs. S3 lists every object but directory markers and the lock, whatever its name
  (pkg/remote/s3.go:166-195). The file survives a
  completed run if and only if the remote has no file of its name, or the base knows it, or the
  contents are the same (`Unscanned.UntrackedSurvivesExactly`; for a differing recipients file,
  `Unscanned.RecipientsFileIsReplaced`). No other local content is ever lost by a run
  (`Unscanned.RunLosesOnly`).
- An entry edited on two devices is lost on one of them. The remote snapshot gives the other device's
  content the base's version, so the plan is a push under the current revision, and that content is
  overwritten without a conflict copy (internal/cli/sync.go:234-258, 551-571;
  `RemoteLosses.EditedTwiceIsOverwritten`). In the same way an entry deleted or renamed here is
  deleted on the remote though it was edited there. A remote content survives a run if and only if
  the base does not know the file, or the scan sees it here and finds no edit, or the local file has
  the same content (`RemoteLosses.RemoteSurvivesExactly`). An edit is found if and only if size or
  time differs from the base and the digest too (`Unscanned.EditIsCounted`).
- A secret of several lines is stored as it is, so a later line of the form `attr.x: y` is read back
  as an attribute that the item does not have and that no index lists. Attributes survive if and
  only if the secret plants none of that kind (`ItemAttributes.SurviveExactly`,
  `ItemAttributes.SecondLinePlants`).
- With an attribute of empty value whose blinded pair collides with another, creating an item can
  replace the wrong one and leave two items of one attribute map
  (`IndexRefinement.CollisionMakesDuplicate`).
- Two copies that differ in an HOTP counter alone are to be merged into one with the greater counter,
  but no file is written: each side keeps its own, and the base records both histories as known
  (internal/cli/sync.go:343-350; `ActionEffects.MergedCounterIsRecorded`).
- A remote file that the scan would not track and the base does not know is pulled by the first run
  and deleted from the remote by the second. The second run plans only pushes if and only if there
  is no such file (`Stability.SecondRunOnlyPushes`, `Stability.UntrackedNewsIsDeleted`).
- The way back from a listed conflict name to an ordinary entry fails exactly when the device name or
  the timestamp has a dot in it, as the host name `laptop.lan` has. A copy of a conflict copy leads
  back to what stands before the first mark, with the end of the newer tag
  (`ConflictNames.EntryNameRecovery`, `ConflictNames.EntryNameLeadsTo`, `ConflictNames.DottedHostName`).
- Moving a folder onto itself or beneath itself destroys its entries: `mv a/b a` resolves to a/b
  and empties it, `mv a a` resolves to a/a. An entry survives if and only if its new name is not
  beneath the source (`Relocation.RelocatedExactly`, `Relocation.MoveIntoItselfDestroys`,
  `Relocation.MoveToOwnParentDestroys`).
- Moving or copying a hidden entry to a visible name can put an entry among the listed ones that is
  sealed for the wrong recipients. A transfer keeps listed entries governed, in every store, exactly
  when the source is listed or the destination is not, and a transfer of a folder exactly when the
  source has no hidden component or the destination has one
  (`Governance.TransferKeepsListedExactly`, `Governance.FolderTransferKeepsListedExactly`).
- A scan of the items takes a missing attribute for an empty one; the index does not
  (`IndexRefinement.EmptyValueIsMissed`). The theorem on searches is about non-empty values.
- The index lists bare IDs. Recording or deleting an item keeps it right exactly when items of the
  same ID in other collections lose no pair by it (`IndexRefinement.RecordingKeepsIndexExactly`;
  deleting one of two items of one ID, `IndexRefinement.SharedIdIsForgotten`).
- An entry kept in both formats is listed twice under one name (pkg/store/store.go:255-265), so the
  audit reports it as reused with itself (`AuditReports.ListedTwiceIsReused`).

## Model

| member | source | states |
|---|---|---|
| VersionVectors.Equal | pkg/sync/version.go:28-44 | two maps are equal iff every device has the same counter in both, a missing counter being 0 |
| VersionVectors.Dominates | pkg/sync/version.go:46-71 | true iff no counter is smaller and one is greater |
| VersionVectors.Merge | pkg/sync/version.go:73-84 | the pointwise maximum, the arguments unchanged |
| VersionVectors.Increment | pkg/sync/version.go:86-91 | one device's counter is raised, the others are kept |
| VersionVectors.Clone | pkg/sync/version.go:93-103 | a copy with the same entries |
| VersionVectors.Diverges | pkg/sync/version.go:117-119 | neither vector counts all edits of the other |
| VersionVectors.JoinIsLeastUpperBound | pkg/sync/version.go:66-84 | the merged vector is above both and below everything above both |
| Causality.VectorsAreExactCausality | pkg/sync/version.go:14-119 | in every run of any number of devices, Equal, Dominates and Diverges are exactly equality, strict inclusion and incomparability of the sets of edits seen |
| Causality.RunKeepsInv | pkg/sync/version.go:73-91 | every reachable counter counts an initial run of its device's edits, the ones seen |
| MergeEngine.Merge | pkg/sync/merge.go:82-107 | exactly one action per path of the three snapshots, strictly sorted, each the decision for its path |
| MergeEngine.PlanIsUnique | pkg/sync/merge.go:82-107 | the plan does not depend on the order in which maps are walked |
| MergeEngine.MergedVersionIsLeastUpperBound | pkg/sync/merge.go:109-258 | except for Delete the recorded version is the least upper bound of the versions present |
| MergeEngine.DeletesOnlyUneditedFiles | pkg/sync/merge.go:109-207 | Delete is decided exactly when no copy carries an edit that the base lacks and a side is missing |
| MergeEngine.ConflictMeansDivergence | pkg/sync/merge.go:209-265 | with a base, only histories that diverged with different contents conflict |
| MergeEngine.MergeMirrors | pkg/sync/merge.go:82-258 | with no opener, swapping local and remote swaps Push with Pull and changes no other kind |
| ConflictNames.ConflictNameInjective | pkg/sync/merge.go:344-375 | one device at stamps of one length gives one name only to one path, for all paths |
| ConflictNames.ConflictNameKeepsDirectory | pkg/sync/merge.go:344-361 | the copy lies in the directory of the original |
| ConflictNames.ConflictNameText | pkg/sync/merge.go:344-361 | the whole name of a copy: cleaned device and time after the mark, before the extension of the last component or at the end |
| ConflictNames.NameSafeFilters | pkg/sync/merge.go:359-375 | cleaning drops exactly the unsafe characters and keeps the others in order |
| ConflictNames.ConflictRecovery | internal/cli/conflicts.go:166-187 | the way back recovers a path iff its stem has no mark and it has an extension, or the tag has no dot |
| ConflictNames.EntryNameRecovery | internal/cli/conflicts.go:166-187 | for every listed name: an ordinary entry is recovered iff device and timestamp have no dot, a conflict copy iff from its first mark on it is the text of the tag from its last dot |
| ConflictNames.EntryNameLeadsTo | internal/cli/conflicts.go:172-187 | what a conflict copy of any listed name leads back to |
| ConflictNames.DottedHostName | internal/cli/conflicts.go:172-187 | on the host laptop.lan every copy leads to a name ending in the domain and the timestamp |
| SyncEngine.Engine.ApplyAction | internal/cli/sync.go:227-375 | one action makes exactly its writes, in order, and fails in exactly its cases |
| SyncEngine.Engine.ApplyActions | internal/cli/sync.go:227-375 | the loop makes the writes of the plan in order, up to the first failure, and no others |
| ActionEffects.OtherClientIsNotOverwritten | pkg/remote/s3.go:219-265 | an upload or deletion planned from one listing fails and writes nothing once another client has changed or removed the listed file |
| ActionEffects.UploadSucceedsExactly | internal/cli/sync.go:244-260 | an upload of a local file succeeds iff the path is accepted, the file is there and the remote one is still as listed |
| ActionEffects.DeletionSucceedsExactly | internal/cli/sync.go:333-341 | the same for a deletion |
| ActionEffects.DownloadSucceedsExactly | internal/cli/sync.go:262-283 | a download succeeds iff the path is accepted and the remote file is still there |
| ActionEffects.ConflictFailsExactly | internal/cli/sync.go:285-331 | a conflict fails iff a file is missing; if it is the remote one, the local content has been saved aside |
| ActionEffects.NothingAfterFailedAction | internal/cli/sync.go:235-375 | the first action that fails is the last one that writes |
| ActionEffects.WrittenPathsAreAccepted | internal/cli/sync.go:236-242 | no file is written at a path that the check refuses, conflict copies included |
| ActionEffects.UploadCopies | internal/cli/sync.go:244-260 | after a completed upload the remote has the local content, the base the scanned state, and all else is as before |
| ActionEffects.DownloadCopies | internal/cli/sync.go:262-283 | the same the other way round for a download |
| ActionEffects.ConflictKeepsBoth | internal/cli/sync.go:285-331 | after a completed conflict the remote content is at the path, the local one in the copy, and the base records the least upper bound of both histories |
| ActionEffects.DeletionForgets | internal/cli/sync.go:333-341 | a completed deletion leaves the path on neither the remote nor the base, and the local files alone |
| ActionEffects.AgreementIsRecorded | internal/cli/sync.go:352-370 | where both sides agree nothing is transferred, and the base comes to record a history covering both |
| ActionEffects.MergedCounterIsRecorded | internal/cli/sync.go:343-350 | a merge of counters transfers nothing and records the local state under both histories |
| ActionEffects.CounterIsTheOpeners | pkg/sync/merge.go:246-306 | a counter is merged only when the opener, asked for both files, gives it |
| NoLoss.NoVersionIsLost | internal/cli/sync.go:227-375 | after any number of writes of a plan, for any snapshots of which the local one may pass files over, each content is at its path or its conflict copy, unless a strictly later version superseded it, it was unchanged and deleted on the other side, or it is a passed-over local file of whose path the remote has news |
| NoLoss.OwnKept | internal/cli/sync.go:234-375 | each single write of one action leaves both contents of its path safe |
| NoLoss.UnseenSurvivesExactly | internal/cli/sync.go:266-300 | a local file the snapshot passes over survives a completed run iff the remote has no news of its path, or the same content |
| NoLoss.PlanIsApart | pkg/sync/merge.go:344-361 | conflict copies of a plan have names of their own, at any moments they are made |
| Pipeline.Scan | pkg/sync/scan.go:37-128 | the snapshot of all tracked files: unchanged files keep the base's state, edited ones get one more edit of this device |
| ScanEffects.AgreementIsByContent | pkg/sync/merge.go:109-132 | a file on both sides and without a base is in agreement iff the contents have one known digest, and in conflict otherwise |
| ScanEffects.ScanIsTrue | pkg/sync/scan.go:76-121 | a scanned file is recorded with the digest of its content, if its base entry, where it fits size and time, was |
| ScanEffects.TouchIsNoEdit | pkg/sync/scan.go:81-99 | touching a file whose scanned state is recorded adds no edit |
| ScanEffects.KnownFileAddsEdits | pkg/sync/scan.go:101-121 | the version of a scanned file is its base entry's, with one more of this device iff it was edited |
| ScanEffects.RemoteAsListed | internal/cli/sync.go:523-571 | what the remote snapshot says of each listed file: size, time, revision, version, and the digest where it can be known |
| ScanEffects.OtherFileIsUntracked | pkg/sync/scan.go:45-70 | a name with an extension of neither format, and of no container, is passed over |
| Pipeline.FillUnknownRemoteHashes | internal/cli/sync.go:523-549 | only files on both sides that neither transport nor base can tell about get the digest of their content |
| Pipeline.RemoteFilesToSnapshot | internal/cli/sync.go:551-571 | every listed path is in the snapshot with the base's version, or one edit when there is no base; the last listing of a path counts |
| Pipeline.SnapshotOfListing | internal/cli/sync.go:523-571 | the remote snapshot is one function of the state, whatever the order of the listing |
| Pipeline.RunSync | internal/cli/sync.go:75-178 | the phases in order: the plan is Merge's for this scan and this listing, and its writes are carried out |
| Unscanned.RunLosesOnly | internal/cli/sync.go:75-178 | after any number of writes of the program's own plan a local content is lost only if the scan passed it over, the remote has a file of its name and the base does not; a remote content only if the base has an entry of its name and the file is not seen here or was edited |
| Unscanned.UntrackedSurvivesExactly | pkg/sync/scan.go:37-128 | a local file the scan passes over survives a completed run iff the remote has no file of its name, or the base knows it, or the contents are the same |
| Unscanned.RecipientsFileIsReplaced | pkg/sync/merge.go:126-132 | with different recipients files on the two sides and no base, every completed run loses the local one |
| Unscanned.UntrackedFileIsPulled | pkg/sync/merge.go:126-132 | there are such runs: the plan is one download, and it completes |
| Unscanned.EditIsCounted | pkg/sync/scan.go:76-121 | a scan adds an edit to the version iff size or time differs from the base, and the digest too |
| RemoteLosses.RemoteSurvivesExactly | internal/cli/sync.go:551-571 | a remote content survives a run iff the base does not know the file, or it is seen here unedited, or the local file has the same content |
| RemoteLosses.EditedTwiceIsOverwritten | internal/cli/sync.go:234-258 | an entry edited on both devices: the plan is Push, the run completes, and the remote's content is nowhere afterwards |
| RemoteLosses.EditedTwiceRuns | internal/cli/sync.go:551-571 | there are such runs, for any entry edited on both devices |
| RemoteLosses.EntryIsTracked | pkg/sync/scan.go:37-70 | a file name without separators or a leading dot that ends in an entry extension is scanned and accepted |
| Stability.PathActionKinds | pkg/sync/merge.go:109-258 | which action a single-device run plans, by presence, edits and content, both directions for every kind |
| Stability.ActionCarried | internal/cli/sync.go:227-375 | an action of such a run succeeds and changes its path, its conflict copy and nothing else |
| Stability.RunCompletes | internal/cli/sync.go:75-178 | a run completes, and what it leaves at every path |
| Stability.SecondRunOnlyPushes | internal/cli/sync.go:75-178 | the second run plans only Push and None iff every remote file the base did not know is one the scan tracks |
| Stability.UntrackedNewsIsDeleted | internal/cli/sync.go:551-571 | any other remote file is deleted from the remote by the second run |
| Stability.SyncStabilises | internal/cli/sync.go:75-178 | from any state two runs complete, then base, remote and scanned files have one set of paths, and the third run plans only None, completes and changes nothing |
| Stability.SyncThrice | internal/cli/sync.go:75-178 | the program run three times, from conditions on the starting state and the first clock alone: all runs succeed, the third plans only None, and the sides end with one set of paths, as the second run left them |
| StateDB.Database.Begin | pkg/sync/statedb.go:232-247 | the operation is appended to the log and to the pending list, under the next key |
| StateDB.Database.Commit | pkg/sync/statedb.go:249-267 | the oldest entry leaves the log and the pending list |
| StateDB.Database.ReplayWAL | pkg/sync/statedb.go:269-315 | the logged operations are applied in order and the log is emptied |
| StateDB.LastEntryDecides | pkg/sync/statedb.go:269-315 | the last logged entry about a path decides whether it is there and with which state |
| StateDB.ReapplyTail | pkg/sync/statedb.go:269-315 | applying the uncommitted tail again, after any part of it, gives the map of the whole list |
| StateDB.RunCrashRecover | pkg/sync/statedb.go:209-315 | any run of begin, apply and commit, a crash and a reopening give every begun operation applied once in order, and an empty log |
| Glob.MatchesIsLanguage | pkg/plugin/glob.go:7-25 | the recursive definition is the pattern language: each item of a pattern gets its stretch of the name |
| Glob.LeftmostIsEnough | pkg/plugin/glob.go:87-114 | taking a middle literal at its first place never misses a match |
| Glob.MatchSegment | pkg/plugin/glob.go:87-114 | the scan decides the segment language |
| Glob.SplitPath | pkg/plugin/glob.go:39-50 | the in-place filter gives the non-empty segments in order |
| Glob.MatchSegments | pkg/plugin/glob.go:52-85 | the branching recursion decides the language of whole segments |
| Glob.MatchPath | pkg/plugin/glob.go:20-25 | true iff the name's segments can be assigned to the pattern |
| Glob.PlainPattern | pkg/plugin/glob.go:20-49 | the empty pattern covers nothing, any other without stars exactly the names of its own segments |
| Glob.MatchAny | pkg/plugin/glob.go:28-35 | true iff some pattern matches |
| Glob.SubtreePattern | pkg/plugin/glob.go:7-14 | `a/**` is the entry a and everything beneath it |
| Glob.ChildrenPattern | pkg/plugin/glob.go:7-14 | `a/*` is the direct children of a |
| Glob.SuffixPattern | pkg/plugin/glob.go:7-14 | `*.token` is the one-segment names with that ending |
| Plugin.SubsumedMatches | pkg/plugin/lock.go:215-238 | when `subsumes` accepts, every name the narrower pattern matches is matched by the wider |
| Plugin.ValidGrantCovers | pkg/plugin/lock.go:160-251 | a valid grant allows every read, write, decryption, host and binary the manifest's capabilities allow |
| Plugin.VerdictMeans | pkg/plugin/lock.go:160-172 | when a check answers missing, stale, widened or valid: valid needs a record under the name, the same digest and nothing wider |
| Plugin.NotWiderExactly | pkg/plugin/lock.go:174-251 | nothing is wider iff decryption, every pattern, host and binary asked for is allowed by some granted one |
| Plugin.GuardMeans | pkg/plugin/guard.go:34-114 | what an active guard lets through: each access by a matching pattern or name, plaintext by the decrypt grant too |
| Plugin.NothingUnasked | pkg/plugin/guard.go:34-62 | without the decrypt grant no plaintext, without write patterns no write |
| Plugin.Lock.Grant | pkg/plugin/lock.go:97-108 | the record of this plugin is replaced and no other |
| Plugin.Lock.Revoke | pkg/plugin/lock.go:111-111 | the record of this plugin is removed and no other |
| Plugin.FilterIsReadable | pkg/plugin/guard.go:121-133 | what is shown is exactly what may be read |
| Plugin.FilterKeepsOrder | pkg/plugin/guard.go:121-133 | in the order of the listing |
| PathSafety.CheckedPathStaysWithin | pkg/remote/remote.go:200-224 | an accepted path joined to any root and cleaned is the root or beneath it, under both readings of a backslash |
| PathSafety.CheckPathIsContainment | pkg/remote/remote.go:200-224 | a relative path is accepted iff it stays within every directory under both readings |
| PathSafety.CheckPathExactly | pkg/remote/remote.go:200-224 | a path is accepted iff it is relative, has no NUL and stays in every directory under both readings of a backslash |
| PathSafety.BackslashClimbs | pkg/remote/remote.go:211-222 | a path that climbs out with a backslash as separator is refused though it is one name on Unix |
| PathSafety.EntryPathIsBeneathStore | pkg/storage/fs.go:38-74 | every file path built for an accepted name is strictly beneath the store |
| PathSafety.EntryDirIsWithinStore | pkg/storage/fs.go:47-74 | the directory of an accepted name is the store's or beneath it |
| NamePaths.EntryPathIs | pkg/storage/fs.go:38-45 | an entry of proper names is kept in the file of these names beneath the store, with its extension on the last |
| NamePaths.NameIsRefusedExactly | pkg/storage/fs.go:59-74 | a relative name is refused iff it climbs out of the store, and otherwise cleaned to a path of the same place |
| NamePaths.OneSlashMakesNoDifference | pkg/storage/fs.go:59-66 | one leading slash is dropped |
| NamePaths.TwoSlashesAreRefused | pkg/storage/fs.go:59-66 | two leading slashes are refused |
| PathSafety.ConflictNameIsChecked | pkg/sync/merge.go:344-375 | the conflict copy of an accepted path has an accepted path |
| StoreTree.ParseRecipients | pkg/crypto/recipients.go:14-70 | walking up from a folder finds the nearest recipients file; one without recipients is an error |
| StoreTree.Entries | pkg/storage/fs.go:126-167 | each entry file of the folder once, without anything hidden |
| Store.Store.Set | pkg/store/store.go:180-245 | an existing entry keeps its format, a new one gets the first configured; sealed for whoever governs its folder |
| StoreEffects.SetMeans | pkg/store/store.go:180-245 | after a Set the name reads as the secret given, sealed for whoever governs its folder; every other name, file and recipients file is as before |
| StoreEffects.SetSucceedsExactly | pkg/store/store.go:180-245 | it succeeds iff someone governs the folder in the entry's format, or for a new entry in either, and writes nothing otherwise |
| StoreEffects.FormatOfSet | pkg/store/store.go:197-245 | an entry keeps its format; a new one gets the configured format if its folder has recipients for it, and else the other |
| StoreEffects.GoverningIsNearest | pkg/crypto/recipients.go:14-34 | the recipients are those of the nearest file on the way to the root, none if that one is empty |
| Store.Store.Init | pkg/store/store.go:131-140 | the folder gets its recipients file and nothing else changes |
| StoreEffects.InitMeans | pkg/store/store.go:131-140 | with recipients the folder and its parents are there and it is governed by exactly these; no entry and no other recipients file is touched |
| StoreEffects.InitGovernsBeneath | pkg/store/store.go:131-140 | so are the folders beneath that have no nearer recipients file |
| Store.Store.Remove | pkg/store/store.go:268-274 | the first format found is removed and folders left empty go with it |
| StoreEffects.RemoveLeavesNoEmptyFolder | pkg/storage/fs.go:174-196 | removing leaves no empty folder on the way up and takes no other folder |
| StoreEffects.RemoveMeans | pkg/store/store.go:268-274 | the name reads from its other format if there is one and not at all otherwise; every other name reads as before |
| Store.Store.RemoveDir | pkg/store/store.go:277-287 | the folder and everything under it go; the root is refused |
| StoreEffects.RemoveDirMeans | pkg/store/store.go:277-287 | exactly the names, folders and recipients files at or beneath the folder are gone; the root is refused |
| Store.Store.SameRecipientList | pkg/store/transfer.go:104-130 | counting decides equality of the two lists as multisets |
| Store.Store.Transfer | pkg/store/transfer.go:14-100 | Move and Copy make exactly the writes of the transfer, entry by entry or for one entry |
| StoreEffects.TransferSeals | pkg/store/transfer.go:35-79 | one entry keeps text and format; the ciphertext goes as it is within a folder or between folders of the same recipients, and is sealed for the destination's otherwise |
| StoreEffects.TransferSucceedsExactly | pkg/store/transfer.go:35-79 | a transfer of one entry succeeds iff it is there and stays in its folder or both folders have recipients |
| StoreEffects.DeliveredIsThere | pkg/store/transfer.go:35-79 | afterwards the destination has the delivered file in the source's format, the source is gone after a move, and every other file is as before |
| StoreEffects.DestinationMeans | pkg/store/transfer.go:26-31 | a destination that is a folder, or written as one, means the source's own last name in it |
| StoreEffects.MoveLeavesNoEmptyFolder | pkg/storage/fs.go:174-196 | moving an entry leaves no empty folder where it was |
| Store.Store.Reencrypt | pkg/store/store.go:303-333 | exactly the writes of the re-encryption of one listing of the folder, up to the first failure |
| StoreEffects.ListingShows | pkg/storage/fs.go:123-167 | walking a folder reports the entries beneath it without a component starting with a dot |
| Reencryption.ReencryptKeepsMeaning | pkg/store/store.go:303-349 | after each write and each removal every name reads as before, in both formats or one |
| Reencryption.ReencryptCompletes | pkg/store/store.go:303-349 | on completion each listed entry of the folder is sealed for whom governs it, with a target in that format only; nothing else changed |
| Reencryption.RerunReachesSameFiles | pkg/store/store.go:303-349 | after an interruption, at any write, of a run that would complete, a rerun completes and ends in the files of an uninterrupted run |
| Governance.GovernanceIsInvariant | pkg/store/store.go:180-349 | every history of operations, any of them cut short at any write, keeps each listed entry sealed for its nearest recipients; transfers are from listed names or the root, or to hidden names |
| Governance.GovernanceOfAllIsInvariant | pkg/store/transfer.go:14-130 | counting hidden entries too, transfers from any name keep it |
| Folders.FoldersAreInvariant | pkg/storage/fs.go:174-196 | over every such history each file, recipients file and folder keeps the folders it is in: pruning takes none that is in use |
| Folders.InitKeepsHoused | pkg/store/store.go:131-140 | and so does initialising, cut short at any write |
| Governance.TransferKeepsListedExactly | pkg/store/transfer.go:35-79 | moving or copying an entry keeps it for listed entries, in every store, iff the source is listed or the destination is not |
| Governance.FolderTransferKeepsListedExactly | pkg/store/transfer.go:81-100 | moving or copying a folder keeps it iff the source has no hidden component or the destination has one |
| Governance.InitBreaksOnlyBeneath | pkg/store/store.go:131-140 | new recipients for a folder leave every entry outside it governed |
| Governance.ReencryptRestores | pkg/store/store.go:303-349 | re-encrypting a folder restores the invariant broken only beneath it |
| Governance.InitThenReencrypt | pkg/store/store.go:131-349 | changing recipients and re-encrypting there leaves a governed store |
| Relocation.MoveRelocates | pkg/store/transfer.go:14-100 | a completed folder move, onto or into itself or to names not taken: every listed entry reads the same at its new name unless that is beneath the source, nothing is left at the source, nothing else changes |
| Relocation.RelocatedExactly | pkg/store/transfer.go:81-100 | an entry is relocated iff its new name is not beneath the source |
| Relocation.MoveOutsideRelocates | pkg/store/transfer.go:81-100 | with a destination neither at, beneath nor above the source all is relocated |
| Relocation.MoveNeverLoses | pkg/store/transfer.go:35-100 | after any number of writes of a move to a destination neither at, beneath nor above the source, each listed entry reads as before at its old or its new name, and nothing else outside the folder has changed |
| Relocation.MoveIntoItselfDestroys | pkg/store/transfer.go:81-100 | with a destination at or beneath the source, names taken or not, every entry is gone from both names |
| Relocation.ResolvedIntoItself | pkg/store/transfer.go:26-31 | a folder moved to the folder it is in resolves to itself, one moved to itself to a name inside it |
| Relocation.MoveToOwnParentDestroys | pkg/store/transfer.go:81-100 | moving a folder to the folder it is in empties it |
| Relocation.CopyDuplicates | pkg/store/transfer.go:14-100 | a copy reads the same at the new names and keeps everything else |
| SecretFormat.SetPasswordKeepsBody | pkg/secret/secret.go:142-146 | the new password reads back and the body is kept up to a final line break |
| SecretFormat.PrintedField | pkg/secret/secret.go:157-171 | a line "key: value" reads as that field |
| SecretFormat.PrintedLines | pkg/secret/secret.go:69-80 | text made of whole lines gives back the lines |
| EntryText.FirstLineIsPassword | pkg/secret/secret.go:52-65 | the password is the first line without a carriage return, the body all the rest |
| EntryText.IsField | pkg/secret/secret.go:157-171 | which lines are fields, of which key and value |
| EntryText.NoField | pkg/secret/secret.go:157-171 | and which are none |
| Items.ToSecret | pkg/secretservice/item.go:63-85 | the text appended piece by piece is the item's lines, attributes in key order |
| Items.ParseItem | pkg/secretservice/item.go:92-111 | the loop over the fields fills the item that the text stands for |
| Items.ItemRoundTrip | pkg/secretservice/item.go:63-111 | a printed item parses back to itself, for any number of attributes |
| Items.PrintIsUnique | pkg/secretservice/item.go:74-78 | an item has one text, whatever the order of its attribute map |
| EntryText.ItemText | pkg/secretservice/item.go:63-85 | the text of an item character by character: secret, label, attribute, times in decimal seconds |
| EntryText.FieldSets | pkg/secretservice/item.go:92-111 | what each field of a text sets and leaves alone |
| EntryText.LastFieldWins | pkg/secretservice/item.go:92-111 | where a field is given twice the last one counts |
| EntryText.AttributesInOrder | pkg/secretservice/item.go:74-78 | an attribute a line, by key from least to greatest |
| EntryText.NoNumberIsZeroTime | pkg/secretservice/item.go:128-136 | what is no 64-bit number reads as the zero time |
| EntryText.MatchMeans | pkg/secretservice/item.go:119-126 | an item matches iff each pair asked for is there, or is of empty value and not there |
| ItemAttributes.FieldsSnoc | pkg/secret/secret.go:69-111 | a further line adds the field on it and changes no other, whatever the text before |
| ItemAttributes.PrintedAttributes | pkg/secretservice/item.go:63-111 | the attributes read back depend on secret, label and attributes alone, not on name or times |
| ItemAttributes.SurviveExactly | pkg/secretservice/item.go:63-111 | with a label of one line and plain attributes, they survive iff the later lines of the secret plant none the item does not have; always for a secret of one line |
| ItemAttributes.SecondLinePlants | pkg/secretservice/item.go:92-111 | a second line shaped like an attribute plants it |
| AttributeIndex.Index.Add | pkg/secretservice/index.go:58-66 | exactly the item's blinded pairs are added, whatever the order of its attributes |
| AttributeIndex.Index.Remove | pkg/secretservice/index.go:69-83 | the ID leaves every pair, other IDs stay, no list is left empty |
| AttributeIndex.Index.Search | pkg/secretservice/index.go:90-119 | the IDs listed under every pair of the query, sorted; none for an empty query |
| AttributeIndex.IndexIsItsRelation | pkg/secretservice/index.go:58-83 | an index is determined by which ID is under which pair |
| ItemStore.Store.ListItems | pkg/secretservice/store.go:114-133 | every listed item of the collection, in ID order |
| ItemEffects.ListingShows | pkg/secretservice/store.go:114-133 | a listing has exactly the items whose names, like the collection's, have no leading dot |
| ItemStore.Store.Search | pkg/secretservice/store.go:208-231 | for any index, the items it names that exist and match, in ID order; all items for an empty query |
| ItemStore.Store.FindByAttributes | pkg/secretservice/store.go:235-252 | the first search result with as many attributes, or none |
| ItemStore.Store.CreateItem | pkg/secretservice/store.go:150-186 | the whole new state: kept, replaced in place, or stored under a fresh ID; the index records the new attributes alone |
| ItemEffects.CreatedReadsBack | pkg/secretservice/store.go:150-186 | a created or replaced item reads back whole and every other text is as it was |
| ItemEffects.CreatedIsFound | pkg/secretservice/store.go:150-231 | and a search for some of its attributes finds it |
| ItemEffects.StampMeans | pkg/secretservice/store.go:150-186 | the ID and birth stored are the replaced item's, or those given, or fresh; secret, label and attributes are those given |
| ItemStore.Store.DeleteItem | pkg/secretservice/store.go:189-199 | the item and its ID in the index go; a missing item changes nothing |
| ItemEffects.DeletedIsGone | pkg/secretservice/store.go:189-199 | the ID is in no listing and no search result of its collection, and every other text is as it was |
| ItemStore.Store.Collections | pkg/secretservice/store.go:89-111 | the names of the collections holding a listed item, in order |
| ItemStore.Store.Reindex | pkg/secretservice/store.go:258-277 | from any index, the one of the listed items, and how many there are |
| IndexRefinement.IndexRefinesScan | pkg/secretservice/store.go:150-277 | after any sequence of creates, deletes and reindexings of items whose attributes survive printing, for any blinding, every search with non-empty values is the matching part of the listing |
| IndexRefinement.AttributesStayUnique | pkg/secretservice/store.go:150-277 | over such a sequence no attribute map is stored twice in a collection, if the created pairs have values or no collisions |
| IndexRefinement.CollisionMakesDuplicate | pkg/secretservice/store.go:150-186 | otherwise the first found may be another item, and replacing it makes two of one attribute map |
| IndexRefinement.SearchIsScan | pkg/secretservice/store.go:208-231 | with a right index a search is the filtered listing, in its order |
| IndexRefinement.StaleSearchIsPartial | pkg/secretservice/store.go:200-231 | whatever the index, a search never returns a wrong item |
| IndexRefinement.EmptyValueIsMissed | pkg/secretservice/item.go:119-126 | a query for an empty value matches an item without the attribute that the index cannot name |
| IndexRefinement.CandidateIsEqual | pkg/secretservice/store.go:235-252 | an item is found by attributes with values, or without collisions, iff it has exactly these attributes |
| IndexRefinement.RecordingKeepsIndexExactly | pkg/secretservice/store.go:150-199 | creating or deleting keeps the index right iff other collections' items of the ID lose no pair |
| IndexRefinement.SharedIdIsForgotten | pkg/secretservice/store.go:189-199 | deleting an item under an ID that another collection uses too leaves the other item out of the index |
| IndexRefinement.ReindexRestores | pkg/secretservice/store.go:254-277 | reindexing makes the index right whatever it was |
| IndexRefinement.SettingASecretStaysInPlace | pkg/secretservice/store.go:150-186 | re-creating an existing item with a new secret rewrites that item and no other, whatever the secret |
| Sessions.SessionAgreement | pkg/secretservice/session.go:72-114 | a client key is accepted iff strictly between 1 and p-1, however it is written, and then the client derives the session's key from the padded answer |
| TransportFormat.AnswerAndKey | pkg/secretservice/session.go:72-114 | the answer is 128 bytes standing for 2 to the private exponent modulo p, and the key is derived from the 128 bytes of the client's number to it |
| Sessions.RefusedKeysFixTheSecret | pkg/secretservice/session.go:84-89 | the refused residues force the shared value to 0, 1 or p-1 |
| Sessions.WidthOfPrime | pkg/secretservice/session.go:179-184 | 128 bytes are the fewest that hold every residue |
| Sessions.PadToPrimeIsNumber | pkg/secretservice/session.go:172-184 | the padded bytes stand for the number |
| Sessions.Pad | pkg/secretservice/session.go:189-204 | the message and its padding, on a block boundary, by at most one block |
| TransportFormat.PaddingBytes | pkg/secretservice/session.go:186-204 | 1 to 16 bytes follow the message, each telling how many, up to a block boundary |
| Sessions.Unpad | pkg/secretservice/session.go:207-223 | accepts a string iff it is the padding of a message, and gives that message |
| Sessions.PaddedInjective | pkg/secretservice/session.go:186-204 | a padded string has one reading |
| Sessions.Encrypt | pkg/secretservice/session.go:117-135 | the chained encryption of the padded message and the IV; the message itself for a plain session |
| TransportFormat.SentBlock | pkg/secretservice/session.go:117-135 | each block sent is the encryption of the padded text's block combined with the block sent before, the first with the IV |
| TransportFormat.PlainIsItself | pkg/secretservice/session.go:117-141 | a plain session sends and reads the message itself |
| TransportFormat.XorBlockBit | pkg/secretservice/session.go:131-134 | combining two blocks puts a one exactly where one of them has a one |
| Sessions.Decrypt | pkg/secretservice/session.go:138-157 | accepts iff the value is what some message encrypts to under the IV sent along |
| TransportFormat.ReadBlock | pkg/secretservice/session.go:138-157 | each block of the padded text read is the decrypted block received combined with the one before |
| Sessions.DecryptUndoesEncrypt | pkg/secretservice/session.go:117-157 | for every key, IV and message, what is sent is what arrives |
| Audit.Run | pkg/audit/audit.go:160-332 | for any listing: sorted entries, counters of worst severities, marks from the table of hashes; for distinct names the exact entries and findings, and the counters as sizes of disjoint sets |
| AuditReports.ReportIsDetermined | pkg/audit/audit.go:160-332 | for distinct names, entries and counters are the same for every order of arrival and every walk of the hash table |
| AuditReports.ReusedMeansShared | pkg/audit/audit.go:278-313 | for distinct names, an entry is reported as reused iff another audited entry has the same non-empty password hash |
| AuditReports.SamePasswordIsReused | pkg/audit/audit.go:270-313 | without collisions an entry is reported as reused iff another audited entry has the same non-empty password |
| AuditReports.ReusedCounts | pkg/audit/audit.go:281-313 | the number reported is that of the entries sharing the password hash |
| AuditReports.ReusedMeansListedTwice | pkg/audit/audit.go:278-313 | in any report a name is marked as reused iff two listings share a non-empty password hash, one of them under this name |
| AuditReports.ListedTwiceIsReused | pkg/audit/audit.go:278-313 | an entry listed twice is reported as reused with itself |
| AuditReports.ReportAccounts | pkg/audit/audit.go:315-328 | in any report critical, warning, info and clean add up to audited, none negative; audited and skipped to the total |
| AuditReports.LeakIsReported | pkg/audit/audit.go:226-276 | a leaked password is in the report, as critical, whatever else is found of the entry |
| AuditReports.SoundEntryIsNotReported | pkg/audit/audit.go:226-313 | an entry without findings of its own whose password no other has is not in the report |
| AuditReports.FoundExactly | pkg/audit/audit.go:226-276 | the findings of one entry, each iff its check is on and says so |
| AuditReports.GravestFirst | pkg/audit/report.go:45-67 | critical entries come first, then warnings, then remarks, by name within one gravity |

## Left out

- ConflictNames.ConflictNameInjective: two conflict names of one device whose cleaned timestamps differ in length are not compared; the program's timestamps have one format.
- NoLoss.NoVersionIsLost: assumes that the names of conflict copies are new in all three snapshots and on disk, as the program does by stamping them with the time.
- Stability.SyncStabilises: assumes that deleting a missing remote file succeeds, that conflict names are new, that every path is one the program accepts, and that nothing edits the stores between runs; contents are not claimed equal, since a known remote file is never fetched again.
- MergeEngine.MergeMirrors: is about merges without an opener, because in the program the opener reads the same local file for both sides.
- StateDB.RunCrashRecover: the log is modelled by itself; `applyActions` does not call `Begin` or `Commit`.
- Relocation.MoveRelocates: outside the source assumes that no destination name is taken, since an entry already there is replaced by design.
- Items.ItemRoundTrip: assumes what one line can carry: no line breaks, no outer blanks, keys without colon or blanks, whole seconds within 64 bits, a secret of one line not ending in a carriage return.
- IndexRefinement.IndexRefinesScan: assumes IDs used in one collection only, names that a listing shows, and attributes that survive being printed and read back; its queries have no empty values.
- Audit.Run: assumes a breach check that answers alike for like passwords.
- AuditReports.ReportIsDetermined: is about distinct names; two results of one name and one severity tie, and the order of ties is not told by the program's sort.
- HOTP merging: whether two copies differ in a counter alone is a parameter; the URL parsing behind it is not modelled. Branches of `mergeFile` that no input reaches and the reason texts are omitted.
- Transports are an abstract map with a revision function; a conditional write to a missing file fails when a revision is expected. Git and restic, whose working tree is the local store, S3, rclone and their advisory locks are not modelled, nor are failures of a download while unknown hashes are filled.
- Clocks, random IDs, private exponents and IVs are parameters. Contents are strings, digests numbers, counters unbounded.
- Encryption is a plain text with the list of whom it was sealed for; decryption succeeds for the owner. An error part way is the state after a prefix of the writes.
- Removing a folder is one write. Listing order is arbitrary; the library's sort is a sorting method of this project.
- Names in the store model are cleaned segments; `PathSafety` covers the cleaning, on a Unix host without volume names. Trimming knows ASCII blanks only.
- Secret Service collections and IDs are single path segments; reads of existing entries succeed; the index file is absent, readable or damaged, and its JSON is not modelled. AES is any invertible map on blocks, key derivation and blinding are any functions.
- Grant times, the on-disk form of grants and the databases, device naming.
- Parsing of HIBP answers, password strength, expiry dates and the filter on entry names in the audit are functions given to it; the human-readable report is not modelled.
- The tomb, import planning, password generation, one-time passwords, the D-Bus layer, external programs, the terminal interface and configuration.
