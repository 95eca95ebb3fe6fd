# Shared node agent: a model and its proofs

The repository has two programs. A compiler turns a bundle of a Minecraft server into one immutable archive
and publishes it through a job queue. An agent on each node restores a server's workspace, starts and stops
its container, and syncs the workspace back to object storage. This project models the four parts where
correctness depends on all inputs or on all runs.

**Package format.** `Tar`, `TarRoundTrip`, `TarCode`, `Zstd`, `Package`: the hand-written ustar writer and
reader inside a raw Zstandard frame, with the checks and size budgets around it. `CodeUnits`: its paths as
JavaScript strings. `Zip`, `ZipReaders`, `ZipCode`: the stored ZIP writer and its three readers. `Bundle`: acceptance
and assembly of a bundle; `Assembly` follows it to the shipped archive.

**Compiler job protocol.** `JobQueue` is the queue as a state machine over file steps with crashes;
`FileQueue` and `MemoryQueue` are the two implementations as classes that refine it. `Upload` is the worker's
prepare, upload, reconcile and publish protocol over a lossy network with any number of attempts;
`UploadCode` is the worker's own sequence of calls. `Worker` joins queue and network.

**Agent commands.** `Agent` is the state machine of commands, durable state, workspaces, staged drafts and outside
effects with crashes and redelivery; `AgentCode` is the daemon as a class that refines it.

**Workspaces.** `Layers` splits a workspace into layers and shards. `Keys` and `Manifests` say which manifests
are acceptable. `Drafts`, `Acceptance`, `History`, `Collision` build manifests on earlier ones and prove which
are accepted. `Json` and `Rereading` say what is read back of them, and `Swapping` what a restore with a selected
runtime leaves on file. `Restores`, `WorkspaceRoundTrip` restore them. `Publishing` is sync as a protocol against a
create-only store, `Grants` and `Resuming` what is accepted from the broker and from the staging directory, and
`SyncCode` the agent's side of the protocol. `WorkspaceCode` holds the loops, and `FailingInputs` the inputs at
which a restore or a sync does not do what one would expect.

`Bytes`, `Text`, `Sorting`, `Counting` and `Options` are shared by these.

Text is UTF-8 bytes in the compiler's formats and Go strings, one character a byte, in the agent. SHA-256, CRC-32,
JSON, inflate and the agent's tar and zstd libraries are functions given to the model, with the inverse or
shape that is needed of them stated as a named predicate. No theorem assumes that a digest never collides:
where it matters, the two byte strings, or the two lists of descriptors, that must not collide are named.

## Findings

Some properties one would expect do not hold. Each has a condition under which it holds, proved in both
directions, and an input or a run at which it fails.

- A path with a leading BOM, with a NUL or with half of a surrogate pair does not survive the tar reader
  (`TarRoundTripExact`, `StringRoundTripExact`, `BomPathIsLost`, `LoneHalfIsLost`); a ZIP name with a leading BOM
  does not survive the installer reader (`InstallerRoundTrip`).
- An empty input makes a frame without blocks, which the reader refuses (`FrameRoundTrip`).
- A parked body that outlives a crash can replace a newer one (`ClaimIsCurrentExactly`, `StaleBodyComesBack`).
- Publishing is safe exactly for reproducible builders (`PublishSafeExactly`, `UnsafeRun`).
- An envelope that does not expire after it is issued can be accepted, and is then retried for ever
  (`AcceptedIsExecutable`, `ArchivedWasExecutable`, `AcceptedButNeverExecutable`).
- A sync can upload something else than the stop before it left: what a restore that was given up put there, nothing
  after another command's release, or the staged draft of an earlier session (`SyncsWhatWasStopped`,
  `SyncAfterCutShortRestore`, `SyncAfterRelease`, `OldDraftIsSynced`).
- A redelivered stop can release the workspace of a later assignment (`ReleaseHitsAssignment`,
  `ReleaseUnderRunningService`).
- A service or account named `world` publishes manifests that no restore accepts (`PublishedAcceptedExactly`,
  `MarkedPrefixRefused`, `NamedWorldIsMarked`).
- One named `compiler-content` never publishes a change of its own content (`OwnContentIsRepublished`,
  `OldContentStays`).
- A file name that is not UTF-8 is synced and published, and no restore, no restarted sync and no restarted agent
  takes the manifest (`PublishedAcceptedExactly`, `SyncedWorkspaceComesBack`, `ReloadedExactly`, `StrayNameIsLost`).
- A sync whose manifest no restore accepts is published the first time and refused after a restart
  (`StagedDraftResumesExactly`, `WorldDraftNotTakenUp`).
- Changed files that are synced again at the same revision can share a key (`DraftAcceptedExactly`,
  `ShardKeysDiffer`, `SyncAgainAccepted`, `SameRevisionCollides`).
- A compiler content with a file where the config has a directory cannot be restored (`WorkspaceOverContent`,
  `ConfigFileBlocksDirectory`).

## Model

| member | source | states |
|---|---|---|
| `Sorting.SortCanonical` | compiler/src/reviewed-builder.mjs:913-916 | what a sort yields depends on the elements alone, not on the order they arrive in |
| `Sorting.LexMeans` | compiler/src/reviewed-builder.mjs:1243-1245 | the order that paths are sorted in is decided where they first differ, and a prefix comes first |
| `Text.CutAtAscii` | compiler/src/reviewed-builder.mjs:1255-1267 | UTF-8 text can be cut at an ASCII byte: both halves are UTF-8 |
| `Text.PathOrder` | compiler/src/reviewed-builder.mjs:1243-1245 | UTF-16 code unit order on paths is a strict total order |
| `Text.ResolvesToItself` | compiler/src/reviewed-builder.mjs:1152-1156 | resolving the parts of a path one by one gives those parts exactly if none is empty, a dot or two dots |
| `Text.SafePathExactly` | compiler/src/reviewed-builder.mjs:1152-1156 | a path is safe exactly if it is short enough, has no backslash, is not absolute, names no drive, and resolves to itself, so never out of its directory |
| `Tar.SplitTarPathExact` | compiler/src/reviewed-builder.mjs:1255-1267 | a path of at most 100 bytes is kept whole; a longer one is cut at the first slash that leaves a prefix and a name that fit, and refused exactly if there is none |
| `Tar.OctalFits` | compiler/src/reviewed-builder.mjs:1275-1279 | a number fits an octal field exactly if it is below 8 to the power of its width |
| `Tar.ChecksumFits` | compiler/src/reviewed-builder.mjs:1281-1285 | the checksum of a 512 byte header always fits its field |
| `Tar.FieldReads` | compiler/src/reviewed-builder.mjs:1287-1295 | a text field gives back what was written up to its first NUL, decoded |
| `Tar.OctalFieldReads` | compiler/src/reviewed-builder.mjs:1297-1303 | an octal field gives back the number that was written |
| `Tar.TrimExactly` | compiler/src/reviewed-builder.mjs:1297-1303 | around the digits of an octal field exactly the white space goes: what is left neither begins nor ends with any |
| `Tar.HeaderLayout` | compiler/src/reviewed-builder.mjs:917-933 | every field a reader looks at holds what was written there, at its offset |
| `Tar.HeaderRest` | compiler/src/reviewed-builder.mjs:917-933 | all other bytes of a header: user, group and time 0, an ordinary file, ustar version 00, owner and group root, NUL elsewhere |
| `Tar.HeaderSummed` | compiler/src/reviewed-builder.mjs:932-933 | the checksum field holds, in six octal digits, a NUL and a blank, the sum of all bytes of the header with blanks in place of itself |
| `Tar.HeaderReads` | compiler/src/reviewed-builder.mjs:1000-1024 | a written header parses to its path as text decoding returns it, its size and its mode, and is never the end marker |
| `TarRoundTrip.RereadLength` | compiler/src/reviewed-builder.mjs:1011-1016 | a safe path comes back as itself exactly if it has neither a leading BOM in a field nor a NUL, and comes back shorter otherwise |
| `TarRoundTrip.UnpackReadsBody` | compiler/src/reviewed-builder.mjs:1000-1031 | unpacking a written body of entries yields them as collected one by one, for every list of entries |
| `TarRoundTrip.NothingLost` | compiler/src/reviewed-builder.mjs:1000-1031 | if every written path is among the ones read, none of them lost text |
| `TarRoundTrip.PackageTarCanonical` | compiler/src/reviewed-builder.mjs:908-946 | the tar depends on the file map only, not on insertion order |
| `TarRoundTrip.TarRoundTripExact` | compiler/src/reviewed-builder.mjs:908-1031 | unpacking a packaged map gives exactly that map if and only if every path, taken as its UTF-8 bytes, survives text decoding |
| `TarRoundTrip.BomPathIsLost` | compiler/src/reviewed-builder.mjs:1287-1295 | counterexample: a path that starts with a BOM is packaged without complaint and comes back changed |
| `CodeUnits.EncodedComesBack` | compiler/src/reviewed-builder.mjs:1255-1273 | a string without half of a surrogate pair is read back from its UTF-8 bytes |
| `CodeUnits.UnitsAreWellFormed` | compiler/src/reviewed-builder.mjs:1287-1295 | what a decoder yields has no half of a pair and encodes to the bytes it came from |
| `CodeUnits.WhiteSpaceExactly` | compiler/src/reviewed-builder.mjs:1297-1298 | what is trimmed is what the language standard calls white space or a line terminator |
| `CodeUnits.LengthIsUnits` | compiler/src/reviewed-builder.mjs:1152-1153 | the length that limits a path is its number of UTF-16 code units |
| `CodeUnits.OrderIsOfUnits` | compiler/src/reviewed-builder.mjs:1243-1245 | the order computed on UTF-8 bytes is the code unit order of the strings, for every two texts |
| `CodeUnits.TarInOrder` | compiler/src/reviewed-builder.mjs:913-916 | a tar lists its entries in the code unit order of their paths |
| `CodeUnits.ReadPathsAreText` | compiler/src/reviewed-builder.mjs:1000-1031 | whatever bytes are unpacked, every path that comes out is text |
| `CodeUnits.StringRoundTripExact` | compiler/src/reviewed-builder.mjs:908-1031 | over JavaScript strings: a packaged map comes back exactly if and only if no path has half of a surrogate pair and every encoded path survives decoding |
| `CodeUnits.LoneHalfIsLost` | compiler/src/reviewed-builder.mjs:1269-1273 | counterexample: a path with half of a surrogate pair is packaged without complaint and does not come back |
| `TarCode.WriteTarText` | compiler/src/reviewed-builder.mjs:1269-1273 | in place: the field holds the text and nothing else changes; refused exactly if the text is too long |
| `TarCode.WriteTarOctal` | compiler/src/reviewed-builder.mjs:1275-1279 | in place: the field holds the padded octal text; refused exactly if it does not fit |
| `TarCode.WriteTarChecksum` | compiler/src/reviewed-builder.mjs:1281-1285 | in place: the loop that adds up the bytes puts the specified checksum in its field; HeaderSummed says what that is |
| `TarCode.WriteHeader` | compiler/src/reviewed-builder.mjs:917-933 | writes the specified header field by field, and fails exactly on an entry that cannot be encoded |
| `TarCode.PackTar` | compiler/src/reviewed-builder.mjs:913-946 | the loop over sorted entries computes the specified tar |
| `TarCode.ReadTarText` | compiler/src/reviewed-builder.mjs:1287-1295 | the search for a NUL and the decoding compute the specified text of a field |
| `TarCode.ReadTarOctal` | compiler/src/reviewed-builder.mjs:1297-1303 | the digits, read one by one, give the specified number, refused above the largest safe integer |
| `TarCode.ReadHeader` | compiler/src/reviewed-builder.mjs:1012-1021 | reads the specified path, size and mode from a header, or refuses it |
| `TarCode.ReadTar` | compiler/src/reviewed-builder.mjs:1000-1031 | the reading loop, with its own limits and modes, computes the specified map or failure on every byte string |
| `Zstd.FrameAlwaysFits` | compiler/src/reviewed-builder.mjs:948-966 | framing fails only for an oversized input: the frame budget is never the reason |
| `Zstd.FrameRoundTrip` | compiler/src/reviewed-builder.mjs:948-998 | a frame gives its input back if and only if the input is not empty |
| `Zstd.FrameHeaderIsStandard` | compiler/src/reviewed-builder.mjs:948-955 | a frame begins as RFC 8878 has it: magic number, a descriptor for one segment with a four byte size and no checksum or dictionary, and the size of the input |
| `Zstd.BlocksAreStandard` | compiler/src/reviewed-builder.mjs:955-964 | every block header is a raw one of RFC 8878 with the number of bytes that follow, at most 128 KiB; the last one, and only it, says so |
| `Zstd.WriteRawZstd` | compiler/src/reviewed-builder.mjs:948-966 | the block loop computes the specified frame |
| `Zstd.ReadRawZstd` | compiler/src/reviewed-builder.mjs:968-998 | the block reader computes the specified result on every byte string |
| `Package.OutputSizeWithinLimit` | compiler/src/production-limits.mjs:1-21 | the running total with early exits decides exactly the limit on the whole |
| `Package.ValidateOutputFiles` | compiler/src/reviewed-builder.mjs:880-906 | accepts exactly the valid outputs and describes each file, in path order |
| `Package.BudgetsNeverExceeded` | compiler/src/reviewed-builder.mjs:880-966 | every accepted output fits the tar and frame budgets; only a path that cannot be split stops packaging |
| `Package.PackageCanonical` | compiler/src/reviewed-builder.mjs:908-966 | the archive is a function of the file map alone |
| `Package.PackageRoundTrip` | compiler/src/reviewed-builder.mjs:908-1031 | same paths, modes and bytes come back if and only if every path survives text decoding |
| `Package.ValidateEntryMetadata` | compiler/src/reviewed-builder.mjs:1033-1062 | accepts exactly the well-formed, strictly ordered entry lists within the totals |
| `Package.ValidateImmutableContent` | compiler/src/reviewed-builder.mjs:466-493 | decides exactly the acceptance of a content record |
| `Package.AcceptedIsExact` | compiler/src/reviewed-builder.mjs:466-493 | an accepted archive unpacks to precisely the listed paths, each with its listed size, hash and mode, and is the recorded archive |
| `Package.RecordAcceptedExactly` | compiler/src/reviewed-builder.mjs:311-337 | the record of the builder is accepted if and only if paths survive decoding, the key is well formed and the generated files agree |
| `Package.AddGenerated` | compiler/src/reviewed-builder.mjs:840-843 | a generated file is added exactly if its path is free |
| `Package.AllFiles` | compiler/src/reviewed-builder.mjs:311-313 | both generated files and every earlier file are there, and nothing else |
| `Package.BuildShipsExactly` | compiler/src/reviewed-builder.mjs:311-337 | a build ships if and only if every file is an ordinary one, there are at most 16382, all hold at most 384 MiB, the key is short and without control characters, and the generated files agree |
| `Package.FinishBuild` | compiler/src/reviewed-builder.mjs:311-337 | ships exactly the shippable files, and what it ships unpacks to exactly those files |
| `Zip.PastEnd` | compiler/src/bubblewrap-sandbox.mjs:344-350 | numbers past the end of an archive are read as if NULs followed, and slices are clamped to it |
| `Zip.EntryLayout` | compiler/src/bubblewrap-sandbox.mjs:293-331 | for every entry: where its local and central headers are, every field in them byte for byte, with the checksum and the sizes of its own bytes, and where its name and bytes are |
| `Zip.EndLayout` | compiler/src/bubblewrap-sandbox.mjs:323-330 | the end record has its signature, one disk, the number of entries twice, the size and the place of the central directory, and no comment |
| `ZipReaders.InstallerRoundTrip` | compiler/src/bubblewrap-sandbox.mjs:255-331 | the installer reader recovers the written entries in order if and only if no name starts with a BOM |
| `ZipReaders.BundleRoundTrip` | compiler/src/bundle.mjs:272-343 | the bundle reader accepts exactly the archives whose names, as decoded, it can keep apart and read, and recovers the contents under these names |
| `ZipReaders.CatalogRoundTrip` | compiler/src/toolchain-catalog.mjs:740-773 | the catalog reader returns the first entry of the wanted name, and fails for a name that is not there when the archive has one end record |
| `ZipReaders.ReadersAgree` | compiler/src/bubblewrap-sandbox.mjs:255-331 | all three readers recover the same contents from every written archive within the limits |
| `ZipCode.WriteStoredZip` | compiler/src/bubblewrap-sandbox.mjs:293-331 | the writing loop computes the specified archive |
| `ZipCode.ReadInstallerZip` | compiler/src/bubblewrap-sandbox.mjs:255-291 | the reading loop computes the specified entries or failure on every byte string |
| `ZipCode.ReadInstallerEntry` | compiler/src/bubblewrap-sandbox.mjs:265-285 | reading the header fields at their offsets gives the specified entry or failure |
| `ZipCode.ReadBundleZip` | compiler/src/bundle.mjs:272-343 | the reading loop computes the specified map or failure on every byte string |
| `ZipCode.ReadBundleEntry` | compiler/src/bundle.mjs:295-337 | reading the header fields at their offsets, with every limit spelled out, gives the specified entry or failure |
| `ZipCode.FindCatalogEntry` | compiler/src/toolchain-catalog.mjs:740-773 | the scanning loops compute the specified entry or failure on every byte string |
| `ZipCode.KeptDropsOne` | compiler/src/bubblewrap-sandbox.mjs:245-250 | filtering that shortens the list by one removed exactly one processor and kept the order of the rest |
| `ZipCode.RewriteChangesOnlyTheProfile` | compiler/src/bubblewrap-sandbox.mjs:235-253 | a rewritten installer reads back with the same entries except that the profile lost exactly one processor, if and only if names have no BOM |
| `ZipCode.RewriteInstaller` | compiler/src/bubblewrap-sandbox.mjs:235-253 | the search for the profile, the filter and the writer compute the specified rewrite on every byte string |
| `Bundle.ValidateBundle` | compiler/src/bundle.mjs:22-49 | the loops decide exactly the acceptance of an archive against its listing, with the resolved metadata present |
| `Bundle.BundleBijection` | compiler/src/bundle.mjs:22-49 | manifest files and archive entries are in bijection, with equal sizes and hashes |
| `Bundle.AcceptedBundleHas` | compiler/src/bundle.mjs:22-49 | an accepted bundle has at most 4096 entries, lists safe and allowed paths in order, and holds its four resolved documents |
| `Bundle.VerifyResolvedMods` | compiler/src/bundle.mjs:147-216 | the two loops decide exactly the resolution of the mods |
| `Bundle.CheckDeclaration` | compiler/src/bundle.mjs:170-210 | decides exactly whether one declaration names a mod there is, as its kind |
| `Bundle.ModsPartition` | compiler/src/bundle.mjs:147-216 | local and remote mods are disjoint and each mod is declared exactly once, as its kind, under its own path and with its own size and hash; a remote one by a safe file name and from the frozen source |
| `Bundle.CopyBundleContent` | compiler/src/reviewed-builder.mjs:798-811 | the loop computes the specified file map or failure |
| `Bundle.CopiedExactly` | compiler/src/reviewed-builder.mjs:798-811 | every instance file is at its stripped path with its archive bytes, and nothing was overwritten |
| `Bundle.StrippedExactly` | compiler/src/reviewed-builder.mjs:798-811 | what is copied goes where its path below instance/ says |
| `Bundle.CopySucceedsExactly` | compiler/src/reviewed-builder.mjs:798-811 | copying succeeds if and only if every instance file is intact, may be placed, and has a path of its own |
| `Bundle.AddRemoteMods` | compiler/src/reviewed-builder.mjs:813-838 | the loop computes the specified file map or failure |
| `Bundle.ModsAddedExactly` | compiler/src/reviewed-builder.mjs:813-838 | every remote mod is added with bytes of its declared size and hash, what was there stays, and only targets of mods are added |
| `Bundle.RemoteTargetIsLocal` | compiler/src/reviewed-builder.mjs:813-838 | a remote mod goes where a local mod of its file name would go |
| `Bundle.ModsSucceedExactly` | compiler/src/reviewed-builder.mjs:813-838 | adding the mods succeeds if and only if there are at most 16384, each is valid with the declared bytes and an allowed path, and no two paths fold together |
| `Bundle.ModsNeverCollide` | compiler/src/reviewed-builder.mjs:813-838 | no two added files share a path even after case folding |
| `Assembly.OutputReachesArchive` | compiler/src/reviewed-builder.mjs:303-313 | every file of the installer is in the final file list unchanged |
| `Assembly.BundleReachesArchive` | compiler/src/reviewed-builder.mjs:798-811 | every instance file of an accepted bundle is in the final file list, at its stripped path, with bytes of its listed size and hash |
| `Assembly.ModReachesArchive` | compiler/src/reviewed-builder.mjs:813-838 | every remote mod is in the final file list with the bytes that were verified |
| `Assembly.ArchiveHasNothingElse` | compiler/src/reviewed-builder.mjs:303-313 | every file of the final list is one of the installer, the bundle, the mods or the two generated ones |
| `Assembly.Build` | compiler/src/reviewed-builder.mjs:303-337 | from an accepted bundle to the shipped archive: exactly the shippable assemblies are shipped, and the archive unpacks to the output of the installer, the instance files, the mods and the generated files, each with its own bytes, and to nothing else |
| `Assembly.ReadNamesAreText` | compiler/src/bundle.mjs:272-343 | whatever bytes are read, every name in the bundle is text |
| `Assembly.BuildFromArchive` | compiler/src/bundle.mjs:22-49 | from the bytes of a bundle: exactly a bundle that is small enough, reads, lists itself and is accepted is built, and what is shipped unpacks to what it delivers |
| `Assembly.WrittenOpens` | compiler/src/bundle.mjs:22-49 | a bundle that was written opens to what was written, under its names as decoded |
| `JobQueue.RunAgrees` | compiler/src/job-queue.mjs:23-161 | the invariant between the records and the whole history holds after every prefix of every run, for every job |
| `JobQueue.AcceptedNeverLost` | compiler/src/job-queue.mjs:23-161 | along every run with crashes anywhere, an accepted job is queued or archived under its identity, and its attempts count its claims |
| `JobQueue.WaitsDouble` | compiler/src/job-queue.mjs:363-365 | the wait after a failed attempt is the base delay, then doubles up to the ninth attempt, and is never above five minutes |
| `JobQueue.ClaimedOnlyWhenDue` | compiler/src/job-queue.mjs:100-161 | along every run a job whose attempt failed is not claimed before its wait is over, unless it is delivered again |
| `JobQueue.DueAfterWait` | compiler/src/job-queue.mjs:100-161 | such a job can be claimed at exactly the moments from the end of its wait on |
| `JobQueue.DueWhenDelivered` | compiler/src/job-queue.mjs:49-98 | a delivered job is due at once exactly if it is not running |
| `JobQueue.ArchivedNeverClaimed` | compiler/src/job-queue.mjs:100-161 | an archived job is never claimed again |
| `JobQueue.OneClaimAtATime` | compiler/src/job-queue.mjs:100-123 | no job is claimed while an earlier claim of it is outstanding |
| `JobQueue.ClaimsDeliverOwnBodies` | compiler/src/job-queue.mjs:49-123 | every claim hands out a body that was delivered for that very job |
| `JobQueue.ArchivedWasRunning` | compiler/src/job-queue.mjs:125-161 | a job is archived only after it was claimed |
| `JobQueue.CrashFreeClaimsAreCurrent` | compiler/src/job-queue.mjs:49-161 | without crashes every claim returns the most recently delivered body |
| `JobQueue.ClaimIsCurrentExactly` | compiler/src/job-queue.mjs:23-161 | in every run with crashes anywhere, a claim returns the most recently delivered body if and only if: for a job running at that delivery, an attempt has failed since or it ran with the same body; for any other, no attempt has failed since or no other body was parked |
| `JobQueue.StaleBodyComesBack` | compiler/src/job-queue.mjs:23-161 | counterexample, at every retry delay: a parked body outlives recovery and replaces a newer one |
| `FileQueue.FileQueue.constructor` | compiler/src/job-queue.mjs:8-22 | an empty queue that is not up yet, at the start of a run of the protocol |
| `FileQueue.FileQueue.Open` | compiler/src/job-queue.mjs:8-22 | a queue is made exactly for a retry delay from 100 to 300000 |
| `FileQueue.FileQueue.Crash` | compiler/src/job-queue.mjs:23-47 | only the directories remain, and that is a step of the protocol |
| `FileQueue.FileQueue.Initialize` | compiler/src/job-queue.mjs:23-47 | finishes interrupted archivals and returns running jobs to the queue, even if cut short and repeated |
| `FileQueue.FileQueue.InitializeFile` | compiler/src/job-queue.mjs:28-46 | one file: removed if it is archived, otherwise rewritten as pending if it was running |
| `FileQueue.FileQueue.Enqueue` | compiler/src/job-queue.mjs:49-98 | refuses exactly a conflicting identity; otherwise one step of the protocol, new or repeated delivery |
| `FileQueue.FileQueue.Claim` | compiler/src/job-queue.mjs:100-123 | claims the first due job in file-name order, and nothing exactly if none is due |
| `FileQueue.FileQueue.FinishRetry` | compiler/src/job-queue.mjs:125-161 | reschedules exactly a running job, by the doubling wait, and refuses any other |
| `FileQueue.FileQueue.FinishTerminal` | compiler/src/job-queue.mjs:125-161 | archives first and then removes, with a possible stop in between; refuses any job that is not running |
| `MemoryQueue.MemoryQueue.Initialize` | compiler/src/job-queue.mjs:184-188 | every running job returns to pending and nothing else changes |
| `MemoryQueue.MemoryQueue.Enqueue` | compiler/src/job-queue.mjs:190-219 | the same protocol step, and the same refusals, as the file queue |
| `MemoryQueue.MemoryQueue.Claim` | compiler/src/job-queue.mjs:221-234 | claims the first due job in insertion order, and nothing exactly if none is due, with the clock read anew for every record |
| `MemoryQueue.MemoryQueue.FinishRetry` | compiler/src/job-queue.mjs:236-250 | reschedules exactly a running job, by the doubling wait |
| `MemoryQueue.MemoryQueue.FinishTerminal` | compiler/src/job-queue.mjs:236-250 | moves exactly a running job to the archive |
| `Upload.NextKeeps` | compiler/src/compiler.mjs:227-270 | objects and bindings, once there, never change, and a step changes no other attempt |
| `Upload.PublishSafe` | compiler/src/compiler.mjs:33-88 | with reproducible builds, in every run with retries, lost answers and crashes, every publish names an object that is there with the published length and digest |
| `Upload.UnsafeRun` | compiler/src/compiler.mjs:227-270 | counterexample family: for every builder that is not reproducible there is a run that publishes what is not stored |
| `Upload.PublishSafeExactly` | compiler/src/compiler.mjs:33-88 | publishing is safe in all runs if and only if builds are reproducible |
| `Upload.RunGate` | compiler/src/http-worker.mjs:292-373 | whenever an attempt believes its terminal callback was delivered, it was, after a refresh of its grants |
| `UploadCode.Network.PrepareUpload` | compiler/src/compiler.mjs:304-319 | continues only with a binding that names this job; any other answer ends the attempt |
| `UploadCode.Network.UploadExact` | compiler/src/compiler.mjs:227-239 | reports success only for an object this attempt created; an error leads to reconciliation |
| `UploadCode.Network.Reconcile` | compiler/src/compiler.mjs:248-270 | confirms only an object of the bound length and digest |
| `UploadCode.Network.FailureCallback` | compiler/src/http-worker.mjs:353-373 | a failure is delivered only by an acknowledged callback |
| `UploadCode.Network.EnsureStored` | compiler/src/compiler.mjs:58-84 | ends with the object known to be right, or with the attempt given up |
| `UploadCode.Network.Attempt` | compiler/src/compiler.mjs:33-143 | a run of the worker: delivered only if acknowledged, and after publishing the bound object stands in the store |
| `UploadCode.PublishedStands` | compiler/src/compiler.mjs:33-88 | past a publish call the bound object stands in the store, for every attempt of every run |
| `Worker.AcceptedIsExecutable` | compiler/src/http-worker.mjs:609-649 | an accepted envelope can be executed later if and only if it expires after it is issued |
| `Worker.AcceptanceWindow` | compiler/src/http-worker.mjs:609-664 | a body is let through exactly if it decodes to a valid job of its own request, issued at most a minute ahead, not expired and made for at most five minutes; and then it is let through at exactly the moments of one window |
| `Worker.AcceptedButNeverExecutable` | compiler/src/http-worker.mjs:659-664 | counterexample: within the allowed skew there are accepted envelopes, expiring before or when they are issued, that no attempt can parse |
| `Worker.ClaimedEnvelope` | compiler/src/http-worker.mjs:139-150 | the envelope behind a claim is for that very job and has the identity it was accepted under |
| `Worker.SameJobEveryTime` | compiler/src/http-worker.mjs:69-99 | all attempts for one request carry jobs of one fingerprint and deployment, so the same job where the fingerprint tells jobs apart |
| `Worker.HistoryCoherent` | compiler/src/http-worker.mjs:139-183 | queue, worker and network agree about who holds which claim after every prefix of every joint run |
| `Worker.ArchivedOnlyAfterCallback` | compiler/src/http-worker.mjs:139-183 | a job reaches the archive only when an attempt holding its claim had a terminal callback for that request acknowledged after refreshing its grants |
| `Worker.ArchivedWasExecutable` | compiler/src/http-worker.mjs:139-183 | along every joint run a job is archived only if a delivery for it expires after it is issued; one without such a delivery is retried for ever |
| `Worker.Consume` | compiler/src/http-worker.mjs:69-99 | answers 400 exactly on a body that does not parse at the moment it is judged, and otherwise delivers it in one queue step |
| `Worker.ProcessQueued` | compiler/src/http-worker.mjs:139-183 | archives only after a delivered terminal callback for this job, and otherwise retries |
| `Agent.SyncAfterReport` | internal/agent/executor.go:242-268 | every step of a call of the sync, successful or not, comes after an accepted stopped report, which came after a stop, with no step of a start between stop and sync |
| `Agent.ReportAfterStop` | internal/agent/daemon.go:63-93 | every accepted stopped report comes after a stop of its assignment, with no step of a start in between |
| `Agent.SameContents` | internal/workspace/workspace.go:405-435 | a service has the same contents at two moments of a run exactly if no step in between wrote or removed them, or it has none at both |
| `Agent.DraftsWhatWasStopped` | internal/workspace/workspace.go:440-475 | a draft is made from what the stop before it left exactly if in between no restore was given up after it had changed the directory and no release took place, or there is nothing at both |
| `Agent.SyncsWhatWasStopped` | internal/workspace/workspace.go:440-479 | whenever a sync uploads, it uploads what the stop before it left if and only if: for a draft made since that stop, nothing disturbed the contents before the draft; for an earlier draft, nothing changed them from the draft to the stop; or there is nothing at both |
| `Agent.SyncAfterCutShortRestore` | internal/agent/executor.go:216-230 | counterexample: a restore cut short before it was recorded is synced by a redelivered stop |
| `Agent.SyncAfterRelease` | internal/agent/daemon.go:95-131 | counterexample: an earlier stop, delivered again, releases what a later stop left, and the later stop syncs an empty workspace |
| `Agent.DraftOutlivesRestore` | internal/workspace/workspace.go:440-479 | a run: a restore that would spoil the sync does no harm once the draft is staged |
| `Agent.OldDraftIsSynced` | internal/workspace/workspace.go:440-479 | counterexample: a draft that was never uploaded outlives its session, and the stop of the next session uploads it |
| `Agent.ReleaseAfterReport` | internal/agent/daemon.go:95-131 | the workspace is released only after a committed sync whose report was accepted |
| `Agent.AckAfterRelease` | internal/agent/daemon.go:95-137 | a synced stop is acknowledged only after its workspace was released |
| `Agent.ReleaseHitsAssignment` | internal/agent/state.go:95-105 | a release meets a recorded assignment if and only if another command recorded one for the service after the sync was committed, and no sync and no final failure of a start was committed after that |
| `Agent.ReleaseUnderRunningService` | internal/agent/daemon.go:51-137 | counterexample: a redelivered stop releases the workspace of a later, running assignment |
| `Agent.FinalStays` | internal/agent/state.go:95-105 | a result that is not a failure, or is a failure with a code, never changes, across restarts |
| `Agent.FinalIsOnlyReplayed` | internal/agent/executor.go:98-117 | once a command has such a result it is only begun, answered with that result, reported, released and acknowledged, or given up: no restore, start, stop or sync ever again |
| `Agent.OnlyFinalIsReplayed` | internal/agent/executor.go:98-117 | only a result that is not a failure, or is one with a code, is ever answered from the store |
| `Agent.UncodedFailureIsExecuted` | internal/agent/executor.go:98-117 | a stored failure without a code changes no decision: the command is executed as if nothing were stored |
| `Agent.ContentsChangeOnlyBy` | internal/workspace/workspace.go:831-886 | the contents of a service change only by a restore, a start or a stop of it, which put new ones there, or by a release or a lost restore, which leave none |
| `Agent.AtMostTwoExecutes` | internal/agent/daemon.go:63-93 | the stop and report loop calls Execute at most twice |
| `AgentCode.Daemon.constructor` | internal/agent/state.go:43-72 | an agent without results or assignments, at the start of a run |
| `AgentCode.Daemon.Commit` | internal/agent/state.go:95-105 | result and assignment change in one durable write, or not at all |
| `AgentCode.Daemon.SetStopped` | internal/agent/executor.go:118-127 | the stopped record is written before the stopped answer |
| `AgentCode.Daemon.MarkStoppedReported` | internal/agent/executor.go:134-145 | marks exactly the recorded stopped assignment |
| `AgentCode.Daemon.Reconcile` | internal/agent/executor.go:160-192 | a running container of no recorded assignment is removed, one whose start was never confirmed is recorded as running, and nothing else changes; a failed removal ends it |
| `AgentCode.Daemon.ExecuteStart` | internal/agent/executor.go:206-241 | every outcome of a start is an answer of the protocol or leaves the command to be delivered again |
| `AgentCode.Daemon.Restore` | internal/agent/executor.go:216-230 | restores, then records the assignment, then starts; a restore that fails may have kept, replaced or lost the directory |
| `AgentCode.Daemon.ExecuteStop` | internal/agent/executor.go:242-268 | a stopped answer never skips the report: only a reported stop goes on to sync |
| `AgentCode.Daemon.Sync` | internal/agent/executor.go:264-268 | a staged draft is taken up and only without one a draft is made; any call may fail |
| `AgentCode.Daemon.Halt` | internal/agent/executor.go:243-263 | stops what is to be stopped and records it |
| `AgentCode.Daemon.Execute` | internal/agent/executor.go:98-132 | a stored result that is not a failure, or is one with a code, is returned with nothing else done; any other command is executed |
| `AgentCode.Daemon.ExecuteUntilAnswered` | internal/agent/daemon.go:63-93 | the loop ends with an answer or an error |
| `AgentCode.Daemon.Process` | internal/agent/daemon.go:51-137 | true only if the last thing done was to acknowledge this command |
| `AgentCode.Daemon.Conclude` | internal/agent/daemon.go:95-137 | a synced stop is reported, released and acknowledged in exactly this order |
| `AgentCode.Daemon.Release` | internal/agent/daemon.go:118-131 | goes on only if the directory was removed; it may fail before or after that |
| `Layers.LayersAgree` | internal/workspace/workspace.go:1665-1682 | the layer of a path by its first part is the layer of the prefix predicates |
| `Layers.LayersSpelled` | internal/workspace/workspace.go:1665-1682 | which paths are of the world and which of the config layer, name by name |
| `Layers.StringLessMeans` | internal/workspace/workspace.go:1775-1777 | the order of paths and groups is decided by the first byte that differs, and a prefix comes first |
| `Layers.ShardsExact` | internal/workspace/workspace.go:1096-1110 | sharding keeps every file in order; shards are not empty, fit unless a single file, and the next file would not have fitted |
| `Layers.ClassifiedPartitions` | internal/workspace/workspace.go:1073-1116 | every file lands in exactly one layer and shard |
| `Layers.ClassifiedByPath` | internal/workspace/workspace.go:1073-1116 | a file is in a layer exactly if it is given and its path is of that layer |
| `Layers.ClassifiedPaced` | internal/workspace/workspace.go:1095-1111 | across the whole world, consecutive shards are of different groups or the first is as full as the next file allows; GroupsByParts says what a group is |
| `Layers.ClassifiedSorted` | internal/workspace/workspace.go:1095-1115 | content, config and every shard list their files in path order |
| `Layers.ShardsAscend` | internal/workspace/workspace.go:1090-1111 | shards of different groups come in the order of their groups |
| `Layers.GroupsByParts` | internal/workspace/workspace.go:1076-1083 | two world files are of one group exactly if their paths agree in the first two parts |
| `Layers.ShardsAgree` | internal/workspace/workspace.go:1076-1112 | all files of a shard agree in the first two parts of their paths |
| `Layers.ShardsFilled` | internal/workspace/workspace.go:1096-1111 | of two consecutive shards that agree in them, the first had no room, within 192 MiB, for the first file of the second |
| `Layers.FittingGroupIsOneShard` | internal/workspace/workspace.go:1076-1112 | world files that agree in them and together fit 192 MiB are all in one shard |
| `Layers.ClassifiedCanonical` | internal/workspace/workspace.go:1073-1116 | the same files in any order give the same layers and shards |
| `Layers.Classify` | internal/workspace/workspace.go:1073-1116 | the loops, with the groups met in any map order, compute that classification |
| `Layers.SortedGroupKeys` | internal/workspace/workspace.go:1090-1094 | whatever order the map yields its keys in, sorting gives one list |
| `Layers.ShardGroup` | internal/workspace/workspace.go:1096-1110 | the loop with an open shard and a running size computes the greedy shards |
| `Keys.DecimalReads` | internal/workspace/workspace.go:587-599 | a printed number is digits only and reads back |
| `Keys.KeysSpelled` | internal/workspace/workspace.go:573-599 | how the keys of content, config and shards are written |
| `Keys.WorldLayerKeyExactly` | internal/workspace/workspace.go:1699-1717 | the keys accepted for shards are exactly those with a number, world, and a plain name of at most 128 characters in these places |
| `Keys.PrintedKeysPass` | internal/workspace/workspace.go:1693-1717 | the keys that are printed are of the form that is demanded, and give their revision back |
| `Keys.WorldKeysDiffer` | internal/workspace/workspace.go:594-599 | shards of one revision have different keys |
| `Keys.ContainsByParts` | internal/workspace/workspace.go:616-621 | a string contains a name between slashes if and only if one of its inner parts is that name |
| `Keys.MarkInPrefix` | internal/workspace/workspace.go:616-621 | a key contains a mark that is not in its own parts if and only if its prefix does |
| `Manifests.CheckPaths` | internal/workspace/workspace.go:1432-1452 | the inner loop accepts exactly valid, distinct paths that meet earlier ones only as an overlay |
| `Manifests.CheckDescriptors` | internal/workspace/workspace.go:1422-1458 | the nested loops accept exactly the lists with valid descriptors, distinct keys and disjoint paths, and add up their sizes |
| `Manifests.ValidPathExactly` | internal/workspace/workspace.go:1653-1663 | a path is valid exactly if it is at most 1024 bytes, not absolute, without a backslash, and resolves to itself |
| `Manifests.DigestExactly` | internal/workspace/workspace.go:1642-1651 | a digest is valid exactly if it is 64 lower-case hexadecimal digits |
| `Manifests.CheckAllPaths` | internal/workspace/workspace.go:1684-1691 | the loop decides whether every path is of a layer |
| `Manifests.CheckRuntimeContent` | internal/workspace/workspace.go:1271-1287 | accepts exactly the content layers the compiler may own |
| `Manifests.CheckLayers` | internal/workspace/workspace.go:1459-1478 | accepts exactly the manifests whose archives each have a key and paths of their own layer |
| `Manifests.ValidateManifest` | internal/workspace/workspace.go:1406-1478 | with every limit and name spelled out, decides exactly the declarative acceptance of a manifest |
| `Drafts.JoinedInjective` | internal/workspace/workspace.go:1635-1640 | comparing NUL-joined paths compares the paths, for paths a file system can hold |
| `Drafts.NulIsAmbiguous` | internal/workspace/workspace.go:1635-1640 | counterexample: with a NUL in a path two different lists join to the same text |
| `Drafts.SameArchiveIsSame` | internal/workspace/workspace.go:1635-1640 | two descriptors of the same archive differ at most in their key |
| `Acceptance.ShardKeysDiffer` | internal/workspace/workspace.go:594-607 | two shards share a key if and only if one is new and the key it gets is the one the other was published under |
| `Acceptance.NewRevisionNeverCollides` | internal/workspace/workspace.go:594-607 | at a revision no earlier shard was published at, no two shards share a key |
| `Acceptance.SoundKeysDiffer` | internal/workspace/workspace.go:559-625 | the archives of a sound manifest have keys of their own |
| `Acceptance.SoundPathsApart` | internal/workspace/workspace.go:1432-1452 | archives of a sound manifest share a path only where config lies over content |
| `Acceptance.MarkedContentRefused` | internal/workspace/workspace.go:616-621 | a content whose key has the world mark is listed twice and makes the manifest unacceptable |
| `Acceptance.CollisionRefused` | internal/workspace/workspace.go:1422-1458 | a draft with two shards of one key is refused |
| `Acceptance.ContentMarkedByInputs` | internal/workspace/workspace.go:564-621 | whether the content of a draft has the world mark can be told from the command, the prefix and the previous manifest |
| `Acceptance.DraftSound` | internal/workspace/workspace.go:559-625 | a draft keeps the invariant of the manifest it was built on, unless it has the world mark or a shared key |
| `Acceptance.DraftAcceptedExactly` | internal/workspace/workspace.go:559-625 | a draft as it is built, at any revision and on any sound manifest, passes the checks of a restore if and only if it is within the limits, its inputs have no world mark, and no new shard gets the key of a reused one |
| `Json.ScrubIsText` | internal/workspace/workspace.go:464-467 | whatever string is encoded, what is decoded is UTF-8 |
| `Json.ScrubFixed` | internal/workspace/workspace.go:464-467 | a string is decoded as it was encoded exactly if it is UTF-8 |
| `Json.StrayByteIsReplaced` | internal/workspace/workspace.go:464-467 | a byte that belongs to no character is decoded as U+FFFD, and the text around it as it was |
| `Json.PlainReadsBack` | internal/workspace/workspace.go:464-467 | the manifests taken to read back but for their paths are exactly those in which JSON changes no other string |
| `Json.ScrubbedFixed` | internal/workspace/workspace.go:464-467 | a manifest is read back as it was written exactly if every path it lists is UTF-8 |
| `Json.ReadBackAccepted` | internal/workspace/workspace.go:1547-1563 | the digest over descriptors is taken before encoding, so what is read back is accepted exactly if it was acceptable and lists only UTF-8 |
| `Rereading.DraftListsText` | internal/workspace/workspace.go:559-625 | a draft lists only UTF-8 exactly if the files it archives and the content it takes over are so named |
| `Rereading.PublishedAcceptedExactly` | internal/workspace/workspace.go:309-320 | a later restore accepts what it reads if and only if the draft is within the limits, has no world mark, no new shard gets the key of a reused one, and every name it lists is UTF-8 |
| `Rereading.DraftIsPlain` | internal/workspace/workspace.go:559-625 | keys and digests of a draft are UTF-8 if the command and the previous manifest are, so a reader finds them as written |
| `History.RunHealthy` | internal/workspace/workspace.go:559-625 | the invariant holds of every held and every published manifest after every prefix of every life of a service on any number of nodes: fresh start, restore of any published revision, reload, swap of runtime, sync that may be cut off, release |
| `History.EverySyncAccepted` | internal/workspace/workspace.go:1406-1478 | along every such run each sync at a new revision publishes a manifest that a restore accepts if and only if it is within the limits and every name it lists is UTF-8 |
| `History.SyncAgainAccepted` | internal/workspace/workspace.go:1406-1478 | a sync run again at a published revision goes through only with the published manifest, and its draft is one a restore accepts if and only if it is within the limits, no new shard gets the key of a reused one, and every name it lists is UTF-8 |
| `History.ReloadedExactly` | internal/workspace/workspace.go:899-945 | after a restart the manifest on file is taken up if and only if it is valid and lists only UTF-8; otherwise later syncs fail |
| `Swapping.FirstStartReloads` | internal/workspace/workspace.go:928-945 | what a first start from the content of the compiler leaves on file is taken up by the next process |
| `Swapping.SwapHead` | internal/workspace/workspace.go:310-323 | with the selected runtime put in place, the manifest describes itself, keeps its name and world, and keeps its config only over content of the same digest, sizes and paths |
| `Swapping.SwapAcceptedExactly` | internal/workspace/workspace.go:1406-1478 | such a manifest is accepted if and only if the three limits still hold: no key and no path of a valid runtime can spoil it |
| `History.MarkedPrefixRefused` | internal/workspace/workspace.go:616-621 | counterexample family: where the prefix has the world mark no sync publishes an acceptable manifest |
| `History.NamedWorldIsMarked` | internal/workspace/workspace.go:616-621 | that is so for every account and every service named world |
| `History.RebuildIsFixed` | internal/workspace/workspace.go:559-625 | rebuilding unchanged files on their own manifest, at whatever revision, lists the same archives under the same keys, and at the same revision is the same manifest |
| `Collision.SameRevisionCollides` | internal/workspace/workspace.go:594-607 | counterexample: a world synced again at its own revision after a file was added gives two shards one key, and the manifest is refused |
| `WorkspaceCode.PackArchive` | internal/workspace/workspace.go:1118-1191 | the loop computes the specified descriptor, or fails |
| `WorkspaceCode.FindPublished` | internal/workspace/workspace.go:600-605 | the loop finds the first published descriptor of the same archive |
| `WorkspaceCode.WriteManifest` | internal/workspace/workspace.go:559-625 | the loops compute the specified draft, or fail |
| `Restores.ExtractAllExact` | internal/workspace/workspace.go:1193-1269 | extraction of an expected archive succeeds if and only if no path is both file and directory, and lays its files over the disk |
| `Restores.RestoreExact` | internal/workspace/workspace.go:325-386 | an accepted manifest with intact objects is restored if and only if no path is both file and directory; every file is there and later archives win |
| `WorkspaceCode.ExtractMember` | internal/workspace/workspace.go:1225-1263 | one archive member: the same new state or failure as specified |
| `WorkspaceCode.ExtractMembers` | internal/workspace/workspace.go:1193-1269 | the member loop computes the specified disk or failure |
| `WorkspaceCode.RestoreWorkspace` | internal/workspace/workspace.go:325-386 | the batched loops compute the specified disk or failure, whatever the batching |
| `WorkspaceRoundTrip.WorkspaceComesBack` | internal/workspace/workspace.go:439-557 | sync then restore returns exactly the synced path-to-bytes map when the content is the workspace's own |
| `WorkspaceRoundTrip.WorkspaceOverContent` | internal/workspace/workspace.go:325-386 | over compiler content, restore yields that content, the config over it, and the world, if and only if no path is both file and directory |
| `WorkspaceRoundTrip.OwnContentIsRepublished` | internal/workspace/workspace.go:564-580 | own content is archived again if and only if no directory of the prefix is named like the compiler's; otherwise the old content stays |
| `FailingInputs.ConfigFileBlocksDirectory` | internal/workspace/workspace.go:1225-1263 | counterexample: a compiler content with a file config under a workspace with a file in config is synced and accepted, and cannot be restored |
| `FailingInputs.OldContentStays` | internal/workspace/workspace.go:564-580 | counterexample: a service or account named compiler-content syncs changed content, and the manifest still lists the old archive |
| `FailingInputs.StrayNameIsLost` | internal/workspace/workspace.go:1480-1524 | counterexample: a workspace with a file whose name is one byte that is not UTF-8 is synced, and neither a restore nor a restarted sync takes its manifest |
| `Publishing.NextSound` | internal/workspace/workspace.go:439-557 | every step of every node and of the store keeps the invariant of publication |
| `Publishing.VisibleIsComplete` | internal/workspace/workspace.go:439-557 | in every reachable state a readable manifest lists only archives that are there with their size and digest |
| `Publishing.FinishedStays` | internal/workspace/workspace.go:530-557 | when a sync reports success its manifest is there with the size and digest of what was written, as are its archives, and all stay |
| `Publishing.SyncedWorkspaceComesBack` | internal/workspace/workspace.go:439-557 | end to end: after a successful sync, a restore at any later time puts exactly the synced files on disk if and only if every name among them is UTF-8, and is refused otherwise |
| `Publishing.SyncedWorkspaceOverContent` | internal/workspace/workspace.go:439-557 | the same over compiler content that is intact: content, config over it, and world are on disk, if and only if no path is both file and directory and every name that is listed is UTF-8 |
| `Publishing.DraftIsShaped` | internal/workspace/workspace.go:559-625 | a built draft lists only its own archives, under archive keys, and all of it but the paths is UTF-8 |
| `Resuming.LoadSyncDescriptor` | internal/workspace/workspace.go:947-1002 | the loops accept exactly a descriptor of this command with an acceptable manifest, its digest, and as many archives as are listed, each intact and of a listed one |
| `Resuming.StagedMatches` | internal/workspace/workspace.go:1118-1191 | a staged archive has the size and digest of its descriptor, also where the descriptor is an older one |
| `Resuming.StagedDraftResumesExactly` | internal/workspace/workspace.go:947-1002 | after a restart the staged draft is taken up if and only if its manifest is acceptable and lists only UTF-8 |
| `FailingInputs.WorldDraftNotTakenUp` | internal/workspace/workspace.go:947-1002 | counterexample: the staged draft of a service or account named world is refused after a restart |
| `Grants.GrantsByKeySubset` | internal/workspace/workspace.go:1576-1595 | accepts exactly grants of the demanded method for expected keys, none twice, and indexes them |
| `Grants.GrantsByKey` | internal/workspace/workspace.go:1565-1574 | accepts exactly those that are also as many as the keys |
| `Grants.GrantsCoverKeys` | internal/workspace/workspace.go:1565-1574 | comparing the counts is enough: accepted grants cover every key, and the keys were distinct |
| `SyncCode.Site.Upload` | internal/workspace/transfer.go:77-131 | success only for an object created from bytes of the stated size and digest, or found to have them |
| `SyncCode.Site.UploadArchive` | internal/workspace/workspace.go:633-704 | at most three attempts; success only when the archive is known to be stored, and it is sent at most three times |
| `SyncCode.Site.UploadAll` | internal/workspace/workspace.go:487-519 | success only when every archive is known to be stored, whatever the batching and the omitted grants |
| `SyncCode.Site.Publish` | internal/workspace/workspace.go:520-557 | the manifest is sent only after all archives, and success means its own manifest was seen |
| `SyncCode.Site.Sync` | internal/workspace/workspace.go:405-557 | resumes the staged draft if there is one; success ends with its publication, failure keeps the staged draft |

## Left out

- HTTP, TLS, URLs, grants' headers and expiry, timeouts and backoff: a request succeeds, fails or has an unknown outcome.
- JSON texts, regular expressions, zstd compression and inflate: given functions. Of the JSON of a manifest it is taken as given that decoding returns what was encoded, with the replacement character for each byte of a path that is not UTF-8.
- Signatures and the replay store of incoming requests: a delivered body is one that was authenticated.
- Docker, quota, Bubblewrap and process handling: success or failure of a call, as an event.
- Runtime and toolchain catalogs beyond the ZIP reader: comparisons of single fields, without state or loops that carry anything over.
- The bootstrap runner: a smaller marker-file machine of the same kind as the queue.
- Lease renewal, heartbeats, telemetry and metrics: timing without an invariant.
- Initial world seeds and their extraction: another ZIP extraction of the kind already modelled.
- I/O errors in the queues and in the agent's state file are process stops; a failed `persist` that leaves memory ahead of the disk is not modelled.
- Removing a directory is one step.
- `createdAt` of a manifest and 64-bit overflow of byte sums are not part of the manifest model.
- The order in which hashing readers see chunks: an upload sends one byte string.
- Package.ValidateImmutableContent: the shape of the generated descriptor and the agreement of the two generated files are one function given to the model.
- Bundle.ValidateBundle: the comparison with the frozen compatibility and with what the resolved loader, version and artifact metadata say is not part of it.
- ZipReaders.ReadersAgree: for names without a leading BOM; the other two theorems on readers say what happens to the rest.
- Package.RecordAcceptedExactly: is about paths as their UTF-8 bytes, as is everything built on it; what becomes of half of a surrogate pair is said of the tar only.
- Agent.SyncsWhatWasStopped: contents are told apart by the step that put them there and not by their bytes, and the staging directories of different commands are taken to be different.
- Agent.DraftsWhatWasStopped: takes it as given that a container without a recorded assignment does not write to the workspace once a stop has found nothing to stop.
- WorkspaceRoundTrip.WorkspaceComesBack: takes it as given that reading an archive returns the files it was written from, for valid paths without NUL.
- Publishing.VisibleIsComplete: takes it as given that content of the compiler is stored when a sync begins and that an omitted grant means a stored object.
- Concurrency of two commands for one service inside an agent: the service lock makes them one after the other.
