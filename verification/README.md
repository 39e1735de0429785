# Verified model of the Booth storage service

This Dafny project models the algorithms and protocols of the Go backend of the Booth storage
service and proves what its callers rely on. `dafny verify dfyconfig.toml` checks all of it.

| file | what it models |
|---|---|
| `Outcomes.dfy`, `Text.dfy` | result types; the few string functions the code uses (splitting, suffixes, byte order) and their laws |
| `Paths.dfy` | object paths, listing prefixes and folders (`internal/backend/backend.go`) |
| `Listing.dfy`, `ListingContents.dfy`, `ListingTheorems.dfy`, `Browsing.dfy` | the filesystem kind's cursor-paged listing: the pruned walk as methods that append to a page, the plain unpaged listing they refine, what it holds entry by entry, paging, resuming, and browsing folder by folder |
| `AtomicWrite.dfy` | the filesystem kind's write: temp file, sync, close, hard link or rename, as steps of any number of interleaved writers over names, inodes and bytes, with the directories they make, failures, kills and power losses |
| `FlatStores.dfy` | folder delete and move on flat-key stores: paged list-then-act with rollback over a store whose calls may fail |
| `Leases.dfy`, `LeaseProtocol.dfy` | SeaweedFS leases: the lease store and one sweep cycle; minting, recording, returning and sweeping interleaved call by call with lost replies and crashes |
| `Registry.dfy`, `Probe.dfy` | the registry service over its two stores, each call of which may fail; the create-only probe |
| `RegistryReplicas.dfy` | one backend's record, credentials and every replica's client cache, with opens interleaving with each store call of creations, edits, deletions and tests |
| `Grants.dfy`, `GrantStores.dfy` | upload grants: validation, scope keys, the ID-keyed store as a scope-keyed map, the admission lookup |
| `Auth.dfy`, `Uploads.dfy` | roles from an already verified token, the write handler end to end, runs of requests |
| `Ranges.dfy` | single-range reads, section 14.1.2 of RFC 9110, with int64 arithmetic |

## How to read it

Objects the source updates in place are classes with the same fields; the methods change them and
are proved against functions and predicates about which the theorems are stated. Protocols with
several actors (`AtomicWrite`, `LeaseProtocol`, `RegistryReplicas`) are state machines: one function
per call, an event per call, and `Run` over any list of events; an event that cannot happen leaves
the state as it is. A lost reply is an event with an effect and a reported failure, or the effect
followed by a crash. Fields described as bookkeeping exist only to state what happened. In the
classes a ghost counter `faults` counts failed calls, so that "at most one call failed" can be said.

The registry appears twice: as one replica's service over its stores, and as the replica machine, whose
uninterrupted operations are proved to have the effects the service's contracts state.

Random names, fresh identifiers, the clock and what remote servers answer are parameters or
nondeterministic choices. Strings stand for Go byte strings.

## Where the code and its documentation part

The model follows the code.

- `CleanPrefix("a//")` is accepted and returns `"a//"`: the segment check trims one more slash
  (`internal/backend/backend.go:242-251`, `internal/backend/backend.go:274`). A recursive listing then
  starts at a path the walk refuses, and a grant stored under such a prefix admits nothing
  (`Paths.CleanPrefixText`, `Paths.DoubledSlashIsKept`, `Grants.PrefixesThatAdmit`).
- The recursive listing and browsing agree only when every folder passes the path rules: a folder
  with a backslash in its name, which the file system allows, is a dead end for browsing
  (`Browsing.RecursiveAgainstBrowsing`, `Browsing.BackslashFolderIsADeadEnd`).
- `parseRange` answers 416 for a start at or past the size before it reads the end text, so
  `bytes=500-abc` on a short object is 416, not an ignored malformed header
  (`internal/api/server.go:444-446`, exactly when: `Ranges.MalformedText`).
- `parseRange` names section 14.1.2 of RFC 9110 (`internal/api/server.go:407-409`). It reads signs, which
  the grammar does not have: `bytes=+0-+1` is served, not ignored (`Ranges.ReadsAgainstGrammar`,
  `Ranges.SignedRangeIsServed`). It ignores well-formed ranges with a number past int64, which the
  grammar does not bound (`bytes=0-9223372036854775808`, `Ranges.LongNumbersAreIgnored`), with a unit
  that is not in lower case, and with a suffix of length zero (`Ranges.ZeroSuffixAndUnitCase`); exactly
  when: `Ranges.RangeMeaning`.
- The write handler's comment says a caller without write access is a viewer
  (`internal/api/server.go:486-488`); it can also be the grants service or have no role at all
  (`Auth.RolesWithoutWriteAccess`). The admission lookup goes by subject, not role, and the service's
  own subject never holds a grant (`Uploads.AdmittedWriteShape`).
- The mint says any failure after the user exists is unwound
  (`internal/backend/s3/seaweedfs_iam.go:54-58`); the unwinding calls' own errors are ignored, and a
  live key that no lease tracks can stay (`LeaseProtocol.IgnoredUndoFailureLeavesAKey`; exactly
  when: `LeaseProtocol.StepStrands`, `LeaseProtocol.NoUntrackedKeys`).
- The sweeper says a backend reconfigured to another kind has nothing left to clean up and counts as
  success (`internal/seaweedfssweep/sweep.go:120-122`); a backend registered without stored credentials
  is an error before its kind is looked at, every cycle
  (`LeaseProtocol.UnreadableBackendBlocksItsLeases`, `LeaseProtocol.MarkedIffReadable`), and 200 such
  leases, expired before all others, stall the sweeper (`Leases.StuckBatchStarves`).
- A create-only write of a path where a directory stands is answered as if an object existed: linking
  onto a directory reports "exists" (`internal/backend/filesystem/filesystem.go:237-241`), so all writers
  of the path can be refused (`AtomicWrite.DirectoryIsAnsweredAsAnObject`,
  `AtomicWrite.OneCreatesUnlessADirectory`). Names are not flushed to the disk, so a power loss can take
  back an object already answered as stored (`AtomicWrite.TwoAreToldStored`; exactly when:
  `AtomicWrite.ExactlyOneCreates`, `AtomicWrite.CreateOnlyNeverReplaces`).
- A failed copy reports "nothing was moved"; copies stay under the destination when the rollback's
  deletes fail too (`FlatStores.MoveFolderFlat`).
- After a failed record write the stored credentials are newer than the record, "which the next
  successful update reconciles" (`internal/registry/service.go:221-222`). Only an update that brings
  credentials does (`RegistryReplicas.EditReconciles`, `RegistryReplicas.RenameDoesNotReconcile`). Until
  then the old record is opened with the refused edit's credentials
  (`RegistryReplicas.RefusedCredentialsAreUsed`; exactly when: `RegistryReplicas.LatestGivenIsUsed`).
- A leftover secret is called inert (`internal/registry/service.go:274-275`); an open between the
  reservation of a reused ID and the write of its new credentials builds with it
  (`RegistryReplicas.LeftoverSecretIsServed`; exactly when: `RegistryReplicas.LoadsOlderExactlyInTheWindow`,
  `RegistryReplicas.FreshUnlessLoadedInTheWindow`).
- Stamps are said to keep the cache from mistaking a changed record for an unchanged one
  (`internal/registry/service.go:200-201`); that holds within one life of a record. Across a deletion
  and a new registration it needs stamps that are not reused while held
  (`RegistryReplicas.CoherentStep`, `RegistryReplicas.ReusedStampMarksAnotherTarget`; which tests then
  mark a record that was never probed: `RegistryReplicas.VerifiedStep`).

## Model

| member | source | states |
|---|---|---|
| `Text.CompareMeaning` | internal/backend/filesystem/filesystem.go:571-580 | the byte order of names: decided by the first byte that differs, a proper prefix first |
| `Text.TrimSpaceMeaning` | internal/registry/service.go:160-169 | what trimming a name leaves: the text without the blanks at both ends |
| `Paths.CleanPathMeaning` | internal/backend/backend.go:226-237 | a path is accepted exactly when it is at most 1024 bytes, holds no NUL or backslash, and every slash-separated segment is non-empty and neither "." nor ".."; accepted text comes back unchanged |
| `Paths.RefusedPaths` | internal/backend/backend.go:226-283 | on the texts: "..", "." or an empty segment anywhere, a NUL or a backslash anywhere refuses a path |
| `Paths.PlainNamesAreAccepted` | internal/backend/backend.go:215-237 | a name of any other bytes is accepted exactly up to 1024 of them |
| `Paths.CleanPrefixShape` | internal/backend/backend.go:242-251 | every accepted prefix is the root, a clean path with one slash, or, since the segment check trims one more slash, a clean path with two |
| `Paths.CleanPrefixAccepts` | internal/backend/backend.go:242-283 | on the text as given: a prefix is accepted if and only if it is the root or a clean path with no, one or two slashes behind it |
| `Paths.CleanPrefixText` | internal/backend/backend.go:242-251 | the result is the text with a slash added if it has none at its end, the root for "" and "/"; it ends in a doubled slash exactly when the text does |
| `Paths.DoubledSlashIsKept` | internal/backend/backend.go:242-251 | "a//" is accepted and comes back as it is |
| `Paths.CleanFolderAccepts` | internal/backend/backend.go:253-283 | on the text as given: a folder is accepted if and only if it is a clean path with no, one or two slashes behind it, and comes back with a slash added if it had none |
| `Paths.CleanFolderIsABoundary` | internal/backend/backend.go:253-283 | an accepted folder is a path and a slash, and prefix matching against it is matching segment by segment |
| `Paths.CleanPrefixIdempotent` | internal/backend/backend.go:242-251 | cleaning a cleaned prefix changes nothing, doubled slash included |
| `Paths.DirOfIsClean` | internal/uploadgrant/service.go:114-121 | the directory of an accepted object path is always a fixed point of prefix cleaning, so some grant can name it |
| `Listing.ComparePaths` | internal/backend/filesystem/filesystem.go:571-580 | the comparison loop computes the order on segment sequences |
| `Listing.PruneIsSafe` | internal/backend/filesystem/filesystem.go:531-538 | for every cursor text, a directory the walk skips holds no entry after the cursor |
| `Listing.Walk.Visit` | internal/backend/filesystem/filesystem.go:512-554 | one visit appends at most the node itself, asks to skip only a directory with nothing left to list, and stops exactly when the page is full |
| `Listing.Walk.WalkDir` | internal/backend/filesystem/filesystem.go:509-559 | the pruned walk collects what the unpruned pre-order listing holds after the cursor, cut at one entry beyond the page |
| `Listing.Walk.ListDir` | internal/backend/filesystem/filesystem.go:459-505 | the directory read collects the directory's own shown entries after the cursor, cut at one beyond the page |
| `Listing.List` | internal/backend/filesystem/filesystem.go:259-317 | the whole request: error cases, missing folder, and the page with its next cursor, equal to the plain specification over the unpaged listing |
| `ListingContents.ListErrors` | internal/backend/filesystem/filesystem.go:259-303 | a list request fails if and only if it names no folder by the path rules, or names one that is there, with a doubled slash, in recursive mode |
| `ListingContents.MissingFolderIsEmpty` | internal/backend/filesystem/filesystem.go:272-288 | a folder that following names down the tree does not reach, whether nothing or a file is there, answers an empty page and no error |
| `ListingContents.RecursiveListingHolds` | internal/backend/filesystem/filesystem.go:509-559 | for every tree and folder: a recursive listing holds exactly the files that names lead to below the folder, under their own paths and sizes, with no temp name on the way |
| `ListingContents.LevelListingHolds` | internal/backend/filesystem/filesystem.go:459-505 | and a non-recursive one exactly the folder's own files and directories without a temp name |
| `ListingTheorems.PathOrderIsTotal` | internal/backend/filesystem/filesystem.go:571-580 | the resume order is total and transitive, and calls two paths equal exactly when they differ by at most a trailing slash |
| `ListingTheorems.FlattenAscending` | internal/backend/filesystem/filesystem.go:509-580 | the pre-order walk visits strictly ascending paths in the resume order |
| `ListingTheorems.LevelAscending` | internal/backend/filesystem/filesystem.go:459-505 | so does the non-recursive read |
| `ListingTheorems.ResumeAtEntry` | internal/backend/filesystem/filesystem.go:563-580 | resuming at any entry of an ascending listing gives exactly the entries behind it |
| `ListingTheorems.AfterIsTail` | internal/backend/filesystem/filesystem.go:563-565 | resuming at any text whatever gives a tail of the listing: nothing is skipped in the middle or repeated |
| `ListingTheorems.PagesAreTheListing` | internal/backend/filesystem/filesystem.go:259-317 | for every tree, prefix, mode, limit and start, following the next cursor ends and the pages put together are what lies after the start |
| `ListingTheorems.PagesAreFull` | internal/backend/filesystem/filesystem.go:303-316 | every page but the last holds exactly the clamped limit |
| `ListingTheorems.PagingFromTheStart` | internal/backend/filesystem/filesystem.go:259-317 | from the empty cursor the pages are the full listing in order, no path twice |
| `Browsing.BrowseFinds` | internal/backend/filesystem/filesystem.go:459-559 | listing folder by folder and descending into each shown directory finds, in order, exactly the recursive listing's files whose folder can be named in a request |
| `Browsing.RecursiveAgainstBrowsing` | internal/backend/filesystem/filesystem.go:459-559 | the two agree if and only if every listed file's folder passes prefix cleaning; below a temp-named start the recursive listing is empty |
| `Browsing.DescendingIsListing` | internal/backend/filesystem/filesystem.go:266-299 | the step browsing takes is the request a client makes: the shown path lists that directory or is refused |
| `Browsing.BackslashFolderIsADeadEnd` | internal/backend/filesystem/filesystem.go:509-559 | a folder with a backslash in its name: its file is listed recursively and cannot be reached by browsing |
| `Browsing.TempStartListsNothingRecursively` | internal/backend/filesystem/filesystem.go:525-530 | a start folder that itself carries the temp prefix lists nothing recursively while its own files are listed non-recursively |
| `Browsing.NoTempFlattened` | internal/backend/filesystem/filesystem.go:525-530 | no recursive entry passes through or ends in a temp name below its start |
| `Browsing.NoTempShown` | internal/backend/filesystem/filesystem.go:472-476 | no non-recursive entry is a temp name |
| `AtomicWrite.RunInv` | internal/backend/filesystem/filesystem.go:187-257 | the protocol invariant survives every call, failed call, kill and power loss in every interleaving of writers |
| `AtomicWrite.VisibleObjectsAreWhole` | internal/backend/filesystem/filesystem.go:187-257 | in every run a visible object holds its initial bytes or exactly the bytes that one committed writer of that path was started with |
| `AtomicWrite.WriterIsRequested` | internal/backend/filesystem/filesystem.go:187-257 | in every run a writer works on exactly the path, bytes and mode of the event that started it |
| `AtomicWrite.OpenReadersSeeOneVersion` | internal/backend/filesystem/filesystem.go:90-119 | a reader that opened an object reads that one version whatever is written afterwards |
| `AtomicWrite.StepRefines` | internal/backend/filesystem/filesystem.go:187-257 | each protocol step is one whole-object operation of a simple store, or nothing |
| `AtomicWrite.RunRefines` | internal/backend/filesystem/filesystem.go:187-257 | a whole interleaved run equals its committed writes performed one at a time in commit order |
| `AtomicWrite.OpsAreRequests` | internal/backend/filesystem/filesystem.go:187-257 | and those are the writes that the start events asked for: path, bytes and mode |
| `AtomicWrite.LoneWriteObjects` | internal/backend/filesystem/filesystem.go:187-257 | in every reachable state a write nobody disturbs makes its directories and is stored, changing that object alone to exactly its bytes, unless a directory has the path or, for a create-only one, an object; then it is refused or fails and no object changes |
| `AtomicWrite.RunTree` | internal/backend/filesystem/filesystem.go:195-203 | in every run every object and directory stands in directories that are there, power losses included, and no directory is made that no writer needs |
| `AtomicWrite.FailedCallsAreAnswered` | internal/backend/filesystem/filesystem.go:207-246 | a write one of whose calls fails before the commit is never answered "stored" and changes no object, whatever follows |
| `AtomicWrite.LeftoverTempNames` | internal/backend/filesystem/filesystem.go:242-245 | a temp name whose removal fails stays behind and changes no answer |
| `AtomicWrite.PowerLossBytes` | internal/backend/filesystem/filesystem.go:222-231 | a power loss keeps synced bytes and may leave anything in the others |
| `AtomicWrite.CreateOnlyNeverReplaces` | internal/backend/filesystem/filesystem.go:233-246 | while only create-only writers aim at a path, an object there stays exactly as it is throughout the run if and only if every power loss finds it on the disk |
| `AtomicWrite.DurableObjectsStay` | internal/backend/filesystem/filesystem.go:233-246 | once on the disk, such an object stays through everything |
| `AtomicWrite.ExactlyOneCreates` | internal/backend/filesystem/filesystem.go:233-246 | competing create-only writers of a path without an object, all answered "stored" or "exists": exactly one is told it stored and its bytes are there, if and only if an object stands there at the end and every power loss found the object of its time on the disk |
| `AtomicWrite.OneCreatesUnlessADirectory` | internal/backend/filesystem/filesystem.go:233-246 | when power losses spare what stands at the path, exactly one creates if and only if no directory ends up there |
| `AtomicWrite.TwoAreToldStored` | internal/backend/filesystem/filesystem.go:233-257 | a run with a power loss after which two create-only writers of one path have been told that theirs is stored |
| `AtomicWrite.DirectoryIsAnsweredAsAnObject` | internal/backend/filesystem/filesystem.go:198-242 | a run in which a writer of "a/b" makes directory "a" and the create-only writer of "a" is told an object exists |
| `AtomicWrite.StoredMeansCommitted` | internal/backend/filesystem/filesystem.go:233-257 | success is reported only to a writer whose commit changed the object at the path it was started with to the bytes it was started with, and that alone; a create-only one found none there |
| `FlatStores.KeysUnder` | internal/backend/flatstore.go:29-48 | however the store splits its pages, the keys under the prefix in the store's order, each once, or a refusal exactly when there are more than the limit; nothing is changed |
| `FlatStores.UnderIsBelow` | internal/backend/flatstore.go:29-48 | for an accepted folder the keys acted on are exactly the stored ones below it segment by segment |
| `FlatStores.DeleteFolderFlat` | internal/backend/flatstore.go:51-69 | only keys under the folder go; after a failure part-way exactly the keys listed before it are gone; the count is the number of non-placeholder keys actually gone; with every call working the outcome is determined by the folder's contents |
| `FlatStores.MoveObjectFlat` | internal/backend/flatstore.go:72-91 | success is exactly a rename of one key; a failure leaves the store as it was or with the copy beside the original |
| `FlatStores.MoveFolderFlat` | internal/backend/flatstore.go:96-138 | success is exactly a rename; a failed copy loses nothing and leaves the starting store if and only if it was the only failing call; a failed delete leaves every copy in place, exactly the originals listed before it gone, and reports that key and the right counts; with every call working the outcome is determined by the store |
| `FlatStores.CopyAll` | internal/backend/flatstore.go:118-131 | the copying loop: all copies in place, or nothing lost and nothing left over if and only if every rollback delete worked |
| `FlatStores.Rollback` | internal/backend/flatstore.go:118-131 | undoing removes only copies, all of them when no delete fails and not all of them when one does |
| `FlatStores.DeleteOriginals` | internal/backend/flatstore.go:132-136 | the deleting loop removes a prefix of the keys and stops at the first failure |
| `FlatStores.FoldersAreDisjoint` | internal/backend/flatstore.go:100-116 | an empty destination and the prefix guard force the two folders apart: no key, present or possible, lies under both |
| `FlatStores.RenameIsExact` | internal/backend/flatstore.go:96-138 | after a rename each suffix is found under the destination with its content exactly when it was under the source, nothing is left there, all other keys are unchanged |
| `FlatStores.RenameRoundTrip` | internal/backend/flatstore.go:96-138 | moving a folder and moving it back restores the store |
| `Leases.MemoryStore.PendingSweep` | internal/seaweedfslease/memory.go:29-43 | pending leases only, each once, oldest expiry first, as many as the limit allows, none left out that expired before one taken |
| `Leases.EachLeaseIsOne` | internal/seaweedfslease/memory.go:29-67 | at every instant each lease is exactly one of swept, pending or active, and the three counts add up |
| `Leases.SweepOnce` | internal/seaweedfssweep/sweep.go:77-118 | one cycle marks exactly the batch less what failed, swept plus failed is the batch length, and the reported age is that of the oldest pending lease, zero when there is none |
| `Leases.CycleShrinksBacklog` | internal/seaweedfssweep/sweep.go:31-107 | with fewer than 200 leases that keep failing, a cycle empties the rest of the backlog or shrinks it by a batch less those |
| `Leases.BacklogEmpties` | internal/seaweedfssweep/sweep.go:81-107 | a backlog of n beside at most f < 200 failing leases is empty after ceil(n / (200 - f)) quiet cycles |
| `Leases.StuckBatchStarves` | internal/seaweedfssweep/sweep.go:81-107 | the bound is sharp: 200 failing leases older than all others make every cycle change nothing |
| `LeaseProtocol.RunInv` | internal/backend/s3/seaweedfs_iam.go:59-143 | the invariant over mints, accounts, leases and sweepers survives every call, lost reply and crash in every interleaving |
| `LeaseProtocol.ReturnedMeansStored` | internal/credentialbroker/provider.go:250-289 | a credential is returned only when its lease is stored |
| `LeaseProtocol.LeaseLifetime` | internal/backend/s3/seaweedfs_iam.go:90-104 | in every run a lease expires at the time it was recorded plus the time to live its mint was begun with, 300 seconds when none was asked for |
| `LeaseProtocol.ReturnedCredentialLives` | internal/seaweedfslease/memory.go:29-46 | in every run, while that time has not passed, a returned credential has its user and its key and its lease is not swept |
| `LeaseProtocol.LoneMint` | internal/backend/s3/seaweedfs_iam.go:58-112 | a mint nobody disturbs ends with exactly one more user, key and lease, and the credential returned; for a backend that is not S3 nothing is begun |
| `LeaseProtocol.UndoneMint` | internal/backend/s3/seaweedfs_iam.go:63-107 | a mint one of whose calls fails without effect, its undo working, leaves no user, key or lease |
| `LeaseProtocol.SweepersDeleteKeysFirst` | internal/backend/s3/seaweedfs_iam.go:131-143 | no sweeper call removes a user whose key is still there |
| `LeaseProtocol.MarksAndKeys` | internal/seaweedfssweep/sweep.go:94-141 | a lease marked by a sweeper that read its own address has neither key nor user; one nobody read that address for still has its key |
| `LeaseProtocol.SweptAndGone` | internal/seaweedfssweep/sweep.go:123-141 | for a returned, swept lease whose sweepers all read the same thing: the credential is gone if and only if they read the address it was minted under |
| `LeaseProtocol.SweptWhileRegistered` | internal/seaweedfssweep/sweep.go:94-141 | while the backend stays registered as it was minted under, a lease is marked swept only when key and user are both gone |
| `LeaseProtocol.StepStrands` | internal/backend/s3/seaweedfs_iam.go:59-118 | a step leaves a live key that nobody records or deletes any more if and only if it is a key creation behind a failure reply, an undo of the key that does nothing, or a crash between key creation and lease or undo |
| `LeaseProtocol.NoUntrackedKeys` | internal/backend/s3/seaweedfs_iam.go:59-118 | in every run a live key without lease and without a mint at work on it exists if and only if one of those calls happened for it |
| `LeaseProtocol.IgnoredUndoFailureLeavesAKey` | internal/backend/s3/seaweedfs_iam.go:104-111 | a run in which recording fails, the ignored undo fails too, and a live key is left that no lease tracks |
| `LeaseProtocol.LostMintReplies` | internal/backend/s3/seaweedfs_iam.go:58-107 | a mint call whose reply is lost leaves the server as one that reports success; one without effect leaves it as it was |
| `LeaseProtocol.LostSweepReplies` | internal/seaweedfssweep/sweep.go:123-141 | and so do the calls of a sweeper |
| `LeaseProtocol.SweepersReadTheRegistry` | internal/seaweedfssweep/sweep.go:119-133 | a sweeper acts on what the registry was last given for its lease: the address, nothing to delete, or an error |
| `LeaseProtocol.SweepersTakeTurns` | internal/seaweedfssweep/sweep.go:119-141 | a sweeper makes only the call that is its turn |
| `LeaseProtocol.RepeatingAHalfDoneSweep` | internal/backend/s3/seaweedfs_iam.go:120-143 | whatever part of a sweep ran before a crash, sweeping again ends in the same users, keys and leases as one sweep |
| `LeaseProtocol.RemovedBackendIsMarkedOnly` | internal/seaweedfssweep/sweep.go:123-133 | a lease of a removed backend, or of one of another kind now, is marked swept with nothing deleted |
| `LeaseProtocol.MarkedIffReadable` | internal/seaweedfssweep/sweep.go:77-141 | with every call working, a sweep marks an expired lease if and only if its backend is gone or can be read |
| `LeaseProtocol.UnreadableBackendBlocksItsLeases` | internal/seaweedfssweep/sweep.go:123-132 | while the backend is registered without stored credentials no run marks its leases swept |
| `Registry.KeyInjective` | internal/registry/service.go:76-76 | two backends of valid workspaces never share a store key |
| `Registry.EditKeeps` | internal/registry/service.go:153-207 | an edit gets a strictly later stamp whatever the clock reads, keeps workspace, ID, kind, creator and creation time, and keeps the probe result only with the config |
| `Registry.EditedMeaning` | internal/registry/service.go:153-199 | part by part, what an edit gives is taken and the rest stays; exactly which edits are refused |
| `Registry.NamesTaken` | internal/registry/service.go:160-169 | a name is trimmed, a blank one becomes the ID |
| `Registry.NameTexts` | internal/registry/model.go:122-145 | the texts that are workspaces and IDs |
| `Registry.CreatableMeaning` | internal/registry/service.go:80-117 | exactly which creations are refused: workspace, ID, kind, name, config, credentials or the resulting backend |
| `Registry.Service.Create` | internal/registry/service.go:80-138 | success stores exactly the new record and its credentials; a refused, duplicate or failed request leaves both stores as they were unless two calls failed, and then a record is left behind; without faults records and credentials stay matched |
| `Registry.Service.PrepareUpdate` | internal/registry/service.go:153-207 | the record an update would store, part by part what the edit gives or what was there, its stamp, and the credentials its client would use, with nothing persisted; refused exactly when the name, the config, the credentials or the resulting backend is not acceptable |
| `Registry.Service.Update` | internal/registry/service.go:210-237 | success stores the record with what the edit gives and nothing else changed, replaces the credentials only if asked and drops the cached client; a failure leaves the record and at worst newer credentials; with every call working it is done exactly when it is not refused |
| `Registry.Service.Delete` | internal/registry/service.go:266-280 | the record and its cached client go; credentials stay only when removing them failed |
| `Registry.Service.Open` | internal/registry/service.go:300-333 | the cached client exactly when stamp and age allow, else one built from the record and stored credentials and cached under its stamp |
| `Registry.Service.RawCredentials` | internal/registry/service.go:341-354 | the record with the credentials actually stored; while both stores match, it succeeds exactly when there are any |
| `Registry.Service.TestSaved` | internal/registry/service.go:394-413 | only the probe flag changes, to what the probe of the opened client says, and only for S3; that client is the cached one or built from the record and the stored credentials; without faults it succeeds exactly when there is such a client and its server answers |
| `Probe.ProbeCreateOnly` | internal/registry/probe.go:27-46 | a server that silently overwrites never passes, whatever fails; without faults the probe passes if and only if the server enforces and the key was free; no other object is touched |
| `RegistryReplicas.RunInv` | internal/registry/service.go:80-431 | in every interleaving of replicas each cached or loading client was built from the version its stamp names |
| `RegistryReplicas.UninterruptedCreate` | internal/registry/service.go:80-138 | run without interleaving, the creation steps leave what the service method's contract says, also when the credential write fails and its undo works or fails; when that write only seems to fail, the secret stays |
| `RegistryReplicas.NewRecordsAreReserved` | internal/registry/service.go:80-117 | and the records the service makes are the ones the machine reserves, unverified and stamped as created |
| `RegistryReplicas.UninterruptedUpdate` | internal/registry/service.go:210-237 | likewise the editing steps: record, credentials and the dropped client |
| `RegistryReplicas.EditsTakenUp` | internal/registry/service.go:153-207 | the machine takes up exactly the edits that the service does not refuse, with what they give |
| `RegistryReplicas.FailedUpdate` | internal/registry/service.go:221-234 | when the record write fails: the old record with the new credentials |
| `RegistryReplicas.EditReconciles` | internal/registry/service.go:221-236 | a later successful edit makes the record and the stored credentials agree again if and only if it brings credentials or they agreed before |
| `RegistryReplicas.RenameDoesNotReconcile` | internal/registry/service.go:210-237 | a run in which an edit that removes the credentials fails at the record, a rename then succeeds, and the record still says it has credentials while none are stored |
| `RegistryReplicas.RefusedCredentialsAreUsed` | internal/registry/service.go:221-234 | a run in which the old record is opened with the credentials of the edit that was refused |
| `RegistryReplicas.UninterruptedDelete` | internal/registry/service.go:266-280 | likewise the deletion steps, with and without a failed cleanup |
| `RegistryReplicas.UninterruptedOpen` | internal/registry/service.go:300-333 | likewise the opening steps: a hit changes nothing, a miss caches the built client |
| `RegistryReplicas.HitsWithinALife` | internal/registry/service.go:300-333 | within one life a hit serves the current config with credentials at least as new as its update's, or with a secret left over when the ID was reserved |
| `RegistryReplicas.ServedForTenMinutes` | internal/registry/service.go:300-333 | in every run a replica serves from its cache only a client stored there less than ten minutes before, under the stamp the record has now |
| `RegistryReplicas.RestartsForget` | internal/registry/service.go:300-333 | a restarted replica serves nothing from its cache, an open that is given up leaves nothing behind |
| `RegistryReplicas.VersionsOfALife` | internal/registry/service.go:200-206 | over one life stamps strictly increase and kind, ID, creator and creation time never change |
| `RegistryReplicas.CoherentStep` | internal/registry/service.go:308-313 | a step keeps all replicas coherent if and only if it gives no stamp that some replica already holds for another target |
| `RegistryReplicas.HitsServeTheRecord` | internal/registry/service.go:308-313 | under that condition every hit of every replica in every run serves the place, kind and config of the record as it is |
| `RegistryReplicas.FreshStampsSuffice` | internal/registry/service.go:200-206 | a clock that never repeats a stamp of an earlier life is enough |
| `RegistryReplicas.ReusedStampMarksAnotherTarget` | internal/registry/service.go:394-413 | a run with a reused stamp in which a test probes the old target and marks the new record create-only capable |
| `RegistryReplicas.VerifiedStep` | internal/registry/service.go:394-413 | whether a marked record has had a passing probe of exactly its target since its config was last set, step by step: it is lost exactly by a recorded pass on a cached client of another target with no pass standing, and regained exactly when the flag or the record goes or a probe of the target passes |
| `RegistryReplicas.VerifiedUnlessMarkedWrongly` | internal/registry/service.go:394-413 | so in every run a record marked create-only capable has had such a probe if and only if no such test has marked it without anything since having ended that |
| `RegistryReplicas.VerifiedMeansProbed` | internal/registry/service.go:170-180 | which no run without a clobbered stamp shows |
| `RegistryReplicas.GivenStep` | internal/registry/service.go:118-237 | exactly which steps set a record and its credentials apart (a failed undo or record write, or a crash before it, over other credentials) and which bring them together (an edit with credentials, a removal) |
| `RegistryReplicas.LatestGivenIsUsed` | internal/registry/service.go:300-333 | in every run an open between operations builds with the credentials of the record's latest successful creation or edit if and only if nothing has set the two apart since they were last brought together; failed credential deletions do not matter |
| `RegistryReplicas.TidyStep` | internal/registry/service.go:118-280 | exactly which steps make the record and the presence of stored credentials disagree, and which end that |
| `RegistryReplicas.StoredExactlyWhenSaid` | internal/registry/service.go:118-280 | in every run, between operations credentials are stored exactly when a record says it has them, if and only if no such step has gone without a later one that ends it |
| `RegistryReplicas.LoadsOlderExactlyInTheWindow` | internal/registry/service.go:315-328 | an open builds with the stored credentials; they are older than its version's if and only if that version's creation has reserved the ID and nothing was written since, while a secret is there all the same |
| `RegistryReplicas.StepClientsFresh` | internal/registry/service.go:300-333 | a step keeps every client's credentials at least as new as its version's if and only if it is no such open |
| `RegistryReplicas.FreshUnlessLoadedInTheWindow` | internal/registry/service.go:300-333 | so a whole run shows no client with older credentials if and only if no such open happens in it |
| `RegistryReplicas.ClientsAreNeverOlder` | internal/registry/service.go:118-138 | in runs in which record and stored credentials never come to disagree there is none |
| `RegistryReplicas.HitsServeRecordAndCredentials` | internal/registry/service.go:300-333 | with no such open and stamps not repeated, every hit serves the record as it is, with credentials at least as new as its latest creation's or edit's |
| `RegistryReplicas.LeftoverSecretIsServed` | internal/registry/service.go:118-138 | a run in which an open inside a creation builds with the secret a failed cleanup left, and that client is served afterwards |
| `Grants.ValidPrincipalMeaning` | internal/uploadgrant/model.go:102-114 | an accepted principal is exactly an app subject of that workspace, the reserved app excepted |
| `Grants.PrincipalTexts` | internal/uploadgrant/model.go:79-114 | on the texts: "streamlit:", the workspace, ":" and 1 to 128 of the allowed characters, but not "grants" |
| `Grants.ValidateExtensions` | internal/uploadgrant/model.go:121-139 | accepted exactly when non-empty and every one is bare once normalized; the result holds the normalized ones, each once |
| `Grants.ExtensionTexts` | internal/uploadgrant/model.go:116-131 | on the texts: 1 to 15 small letters and digits |
| `Grants.ExtensionsNormalized` | internal/uploadgrant/model.go:127-131 | one leading dot and letter case do not matter to a grant |
| `Grants.ExtensionsTaken` | internal/uploadgrant/model.go:142-154 | on the texts: letter case does not matter to an upload either; another extension, or none, does not pass |
| `Grants.LettersLowered` | internal/uploadgrant/model.go:142-154 | letter by letter: capitals become small letters, every other byte stays |
| `Grants.HasExtensionMeaning` | internal/uploadgrant/model.go:142-154 | what passes the check on a whole path: its last segment ends in a dot and an allowed extension, letter case aside |
| `Grants.AllowedNamePasses` | internal/uploadgrant/model.go:142-154 | and every such path passes |
| `Grants.ScopeKeyInjective` | internal/uploadgrant/memory.go:22-24 | on grants that can be created the key text tells scopes apart, even when a backend ID holds the separator |
| `Grants.PrefixesThatAdmit` | internal/uploadgrant/service.go:100-121 | a stored prefix admits some path if and only if it has no doubled slash and leaves room for a name |
| `GrantStores.MemoryStore.Upsert` | internal/uploadgrant/memory.go:26-39 | refines saving into a scope-keyed map: the scope's former grant is replaced, its ID included |
| `GrantStores.MemoryStore.List` | internal/uploadgrant/memory.go:51-66 | exactly the workspace's grants, of one principal if named, sorted by ID |
| `GrantStores.MemoryStore.Delete` | internal/uploadgrant/memory.go:68-77 | refines removal from the scope-keyed map, an error exactly when there is nothing to remove |
| `GrantStores.MemoryStore.DeleteByPrincipal` | internal/uploadgrant/memory.go:79-91 | refines revoking all of one principal's scopes and reports exactly those grants, sorted |
| `GrantStores.OnePerScope` | internal/uploadgrant/memory.go:26-39 | in every state the store can reach, at most one grant per scope |
| `GrantStores.MapHoldsLatest` | internal/uploadgrant/memory.go:26-91 | after any operations a scope holds its last save, unless it was removed or revoked since |
| `GrantStores.Create` | internal/uploadgrant/service.go:41-69 | accepted exactly when every check passes; then the grant, with exactly the normalized extensions given, each once, is the scope's only one; otherwise nothing changes |
| `GrantStores.MatchForUpload` | internal/uploadgrant/service.go:100-112 | for a caller with a subject, precisely the grant of the path's own directory, if there is one |
| `GrantStores.LookupIsLatestLive` | internal/uploadgrant/service.go:100-121 | after any operations the lookup answers the latest unrevoked grant of the directory, and that directory is always a creatable prefix |
| `Auth.ParseGroupMeaning` | internal/auth/auth.go:227-228 | a group text names a workspace and role exactly when it is the text built from them |
| `Auth.RoleInWorkspace` | internal/auth/auth.go:263-275 | the highest role any group gives in that workspace, none when there is none |
| `Auth.EffectiveRoleIsTheWeaker` | internal/auth/auth.go:283-294 | never stronger than either role, exactly the weaker when the forwarded one is known, none when it is unknown |
| `Auth.GrantsServiceMeaning` | internal/auth/auth.go:239-248 | the reserved service is recognized exactly by its module and its workspace's reserved subject |
| `Auth.Authenticate` | internal/auth/auth.go:343-403 | who is let through and as what, and exactly who is not |
| `Auth.OneGroup` | internal/auth/auth.go:227-327 | on the texts: a token with the single group of a workspace is let in exactly for the roles "owner", "editor" and "viewer", as that role; a viewer reads, an editor also writes, an owner also administers |
| `Auth.ForwardedRoleNarrows` | internal/auth/auth.go:283-294 | a forwarded role no stronger than that is taken, a stronger one is refused, an unknown one leaves no role |
| `Auth.ServiceTexts` | internal/auth/auth.go:230-248 | the subject "streamlit:<workspace>:grants" of the module "streamlit" is the service in that workspace whatever its groups, and may not read, write or administer |
| `Auth.RolesRestOnTheToken` | internal/auth/auth.go:307-327 | write and admin rights always rest on a group of the token itself; the service identity can neither read, write nor administer |
| `Auth.RolesWithoutWriteAccess` | internal/auth/auth.go:283-294 | a caller let through without write access is a viewer, the service, or has no role at all, the last exactly when the forwarded role is unknown |
| `Uploads.Server.Admit` | internal/api/server.go:476-506 | who may attempt the write: an editor or owner, or a create-only request whose scope holds a live grant allowing the extension; the grant handed on is exactly that one |
| `Uploads.Server.Land` | internal/api/server.go:508-560 | the write of an admitted request: a create-only one is refused as unsupported exactly on an S3 backend that has not passed the probe; a stored body fits the module's cap and the grant's and, if create-only, was absent; with the backend answering, exactly which status when |
| `Uploads.Server.HandleWrite` | internal/api/server.go:469-537 | the status is determined case by case; a stored write is the whole body at the path, within every cap, create-only when admitted by a grant |
| `Uploads.Server.Put` | internal/api/server.go:469-537 | from verified token to store: a stored write is within the module's cap and is an editor's by effective role, or a create-only one of an absent object under a grant; with the backend answering, a request is stored if and only if nothing named stands against it |
| `Uploads.ByEditorMeaning` | internal/auth/auth.go:343-403 | whose writes need no grant: the token gives at least editor there and the forwarded role, if any, is at least editor and no stronger |
| `Uploads.AdmittedWriteShape` | internal/uploadgrant/service.go:100-121 | an admitted object sits one segment below its grant's prefix, its name ends in an allowed extension, it fits the cap, and its caller is not the reserved service |
| `Uploads.AdmittedWritesAreGranted` | internal/api/server.go:469-537 | in every run of requests and grant operations, lookups and writes interleaved, each object stored for a caller who is neither editor nor owner was absent at the write, sits one segment below the prefix of the latest unrevoked grant, at the lookup, for that workspace, subject and backend, has an allowed extension, fits the grant's cap and the module's, and its subject is not the reserved one |
| `Uploads.RemovedGrantStillAdmits` | internal/api/server.go:491-534 | for every grant and request it admits, a run in which the grant is removed between lookup and write and the object is stored |
| `Uploads.EveryObjectHasAWriter` | internal/api/server.go:469-537 | in every such run an object that is not as it was at the start is the body of one stored request for its path |
| `Uploads.OnlyEditorsReplace` | internal/api/server.go:469-537 | in every such run without a request by an effective editor or owner a present object stays exactly as it is |
| `Ranges.ReadMeaning` | internal/api/server.go:412-458 | for every range the parser reads and every size the served positions are exactly the selected ones, and "unsatisfiable" is answered exactly when there are none |
| `Ranges.RangeMeaning` | internal/api/server.go:407-458 | for every range of the RFC's grammar: the positions served are exactly the selected ones, "unsatisfiable" means none is selected, and it is ignored if and only if its unit is not in lower case, it is a suffix of length zero, or a number past int64 is read before the answer is known |
| `Ranges.ReadsAgainstGrammar` | internal/api/server.go:412-458 | what the parser reads is in the grammar if and only if neither number carries a sign |
| `Ranges.SignsAreRead` | internal/api/server.go:440-452 | a plus before digits changes nothing, a minus negates, within int64 |
| `Ranges.UnitSpellings` | internal/api/server.go:412-416 | the texts that are the unit by the RFC: six characters, in any letter case |
| `Ranges.ServedRangesAreWellFormed` | internal/api/server.go:412-458 | a range is served only for text the parser reads, which is well-formed by the grammar if and only if no number in it carries a sign |
| `Ranges.SignedRangeIsServed` | internal/api/server.go:440-458 | "bytes=+0-+1" is not well-formed and is served |
| `Ranges.LongNumbersAreIgnored` | internal/api/server.go:449-452 | a range from 0 to any number past int64 is well-formed, selects the whole object and is ignored |
| `Ranges.ZeroSuffixAndUnitCase` | internal/api/server.go:413-429 | "bytes=-0" and "Bytes=-5" are well-formed and are ignored |
| `Ranges.EndTextUnreadPastTheSize` | internal/api/server.go:440-451 | a start at or past the size is unsatisfiable whatever follows the dash |
| `Ranges.MalformedText` | internal/api/server.go:404-458 | text outside the grammar is ignored if and only if its start is no number at or past the size and it is not a range but for a sign |
| `Ranges.RangeRoundTrip` | internal/api/server.go:412-458 | printing an in-bounds range and parsing it gives it back |
| `Ranges.PartialResponsesAreExact` | internal/api/server.go:295-363 | with the object unchanged every satisfiable range is served, with exactly Content-Length bytes equal to that slice |
| `Ranges.ReadRangesAreAnswered` | internal/api/server.go:295-363 | with the object unchanged a range that selects bytes is answered with exactly those, one that selects none with "not satisfiable" and the size |
| `Ranges.OtherResponses` | internal/api/server.go:295-363 | an ignored header, in particular one without "bytes=", is answered with the whole object as it is read |
| `Ranges.ChangedObjects` | internal/backend/filesystem/filesystem.go:121-154 | with the object changed in between, the guard accepts exactly when the range still lies inside it |
| `Ranges.AdjacentRangesMakeTheObject` | internal/api/server.go:295-363 | two adjacent ranges put together are the object |

## Left out

- The S3, Azure and GCS SDK calls behind a flat-key store; the store is the class `FlatStores.FlatStore`, which nobody else changes meanwhile, whose failed calls have no effect, and whose one-entry listing finds a key if there is one.
- Filesystem metadata (ETags, content types, times, permissions) and symbolic links: any node that is neither file nor directory is one kind that is never listed. Trees do not change during a listing.
- Filesystem `Mkdir`, `DeleteObject`, `DeleteFolder`, `MoveObject` and `MoveFolder`: single calls whose meaning is the operating system's.
- Removing directories while writes run: a directory that was made goes only with a power loss. A missing temp directory is the open's failure event.
- Object paths whose last segment carries the temp prefix: writers are assumed not to use them; the code does not enforce it.
- The credential broker's HTTP and JSON layer, `scopedPolicy` and MinIO service accounts: their meaning lies in a foreign policy engine. A lease's prefix and access are not modelled.
- OIDC and JWT verification, JSON decoding, header plumbing, response bodies, logging and events: the model starts from verified claims and ends at a status.
- The PostgreSQL and Kubernetes stores; the in-memory stores carry the same contract. Store locks: each store call is one step.
- The config, credential and client checks per backend kind: the parameters `Rules.normalize`, `Rules.accepts` and `Rules.builds`. Checking or creating a filesystem root is a nondeterministic refusal.
- Lost replies in the one-replica registry service: in `Registry` a failed store call has no effect, so that "at most one failed call leaves both stores as they were" rests on it; a credential write that lands and reports failure leaves a secret behind a working undo. `RegistryReplicas` has that event.
- Lost replies of an upload: in `Uploads` a backend write that reports failure has stored nothing.
- Overlapping creations, edits, deletions or tests of one backend: in `RegistryReplicas` they follow each other, though their calls interleave with any opens and may be cut short. A test is one step.
- The registry's connection tests of unsaved input, its listing and its health check: they only read.
- Servers that change after their probe: in `Uploads` a backend that passes `SupportsCreateOnly` enforces create-only writes.
- What removing an IAM user does to its keys: in `LeaseProtocol` the key outlives the user until it is deleted itself, and `LeaseProtocol.StepStrands` rests on that.
- Header lists and white space in ranges: a header with a comma is ignored, which section 14.2 of RFC 9110 allows, and is not in the grammar of `Ranges`, which has one range.
- Lower-casing of extensions and blank text are ASCII only.
- The stores' one-assignment methods have no rows; they carry contracts all the same.
- Deleting and moving objects through the HTTP interface, and the web interface.
