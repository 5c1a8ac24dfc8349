# Paintress sync engine, modelled in Dafny

This project models the reconciliation engine of the Paintress/Caramel
Obsidian plug-in, which keeps an Obsidian vault (the *host* replica) and a
server-side file table (the *remote* replica) in step, together with the
replica-side bookkeeping the engine relies on.

- `SyncClassify` (sync_classify.dfy): `createSyncAction`. Four rule loops fill an
  insertion-ordered `Map` from path to action (prune, remove, conflict, push,
  pull). The loops are methods proved equal to a function `Classify`. The
  per-path result is proved equal to a decision table, `Decide`.
- `SyncEngine` (sync_controller.dfy): `applySyncAction`, `handleConflict` and
  `sync`. The `SyncController` class calls the two replica objects in order.
  Its methods are proved equal to the functions `Apply` and `Run` over a
  `World` value, which holds every piece of state the actions change.
- `ConflictResolver`: the text-extension test and the choice of older and
  newer content.
- `LocalFs` and `LocalHistory`: the vault replica. It covers the guarded
  `update`/`remove`, folder creation, `walk` with exclusion globs, `getFiles`
  and `prune`, plus the tombstone dictionary.
- `RemoteFs` and `FilesServer`: the remote replica. It covers the cached
  summary, the forwarding calls, and the server's `POST /`, `GET summary` and
  download handlers over the `files` table.
- `Crypto`: the empty-key pass-through, the salt | IV | ciphertext frame, and
  the byte/binary-string loops around base64.
- `Settings`: the defaults and the `Object.assign` merges.
- `Plugin`: the `runSync` gate, the `syncing` flag and the interval tick.
- `Wrappers`, `Fs`, `OrderedMap` and `Text` are shared vocabulary.
  `OrderedMap` is a JavaScript `Map`, which keeps insertion order. A plain
  object is kept the same way and enumerated by `ObjectEntries`: keys that
  are array indices first, ascending, then the others in insertion order
  (section 10.1.11.1 of ECMA-262). `Text` holds
  the string builtins the source uses.

The model follows the code as written. Classification is not symmetric:
- when both sides are tombstones, only the remote-tombstone rule yields
  `prune`;
- the remote replica is never pruned;
- the modified-since-checkpoint rules ignore the other side's `deleted` flag.

A request sent without `updatedAt` stores null in the row's stamp. Every
delete the client sends is one, and so is a write stamped 0. No number
equals null under `!==`, so the server's guard rejects every later request
on that path. The client reads the null back from the summary. It compares
as 0 in `<` and `>`, but `toString()` on it throws before `update` or
`remove` can send anything.

Clocks (`Date.now()`), randomness and foreign code are parameters.

## Model

| member | source | states |
|---|---|---|
| `Fs.GetFile` | packages/caramel-sync-plugin/src/sync-controller.ts:203-205 | the first listed entry with the path, and `None` exactly when no entry has it |
| `SyncClassify.Filter` | packages/caramel-sync-plugin/src/sync-controller.ts:111 | `filter` keeps exactly the entries that satisfy the predicate, and no more entries than it was given |
| `SyncClassify.FilterAppend` | packages/caramel-sync-plugin/src/sync-controller.ts:111 | filtering distributes over concatenation and keeps a single entry exactly when it passes, so order and multiplicity are kept |
| `SyncClassify.ApplyRemoteDeletions` | packages/caramel-sync-plugin/src/sync-controller.ts:111-128 | the remote-tombstone loop performs exactly that rule's `set`s, in listing order |
| `SyncClassify.ApplyHostDeletions` | packages/caramel-sync-plugin/src/sync-controller.ts:131-151 | the host-tombstone loop performs exactly that rule's `set`s, in listing order |
| `SyncClassify.ApplyHostModifications` | packages/caramel-sync-plugin/src/sync-controller.ts:153-166 | the host-modified loop performs exactly that rule's `set`s, in listing order |
| `SyncClassify.ApplyRemoteModifications` | packages/caramel-sync-plugin/src/sync-controller.ts:168-182 | the remote-modified loop performs exactly that rule's `set`s, in listing order |
| `SyncClassify.CreateSyncAction` | packages/caramel-sync-plugin/src/sync-controller.ts:107-185 | the returned actions are the values of the map built by the four loops in turn; this is a function of the two listings and the checkpoint, so classification is deterministic |
| `SyncClassify.PlanLookup` | packages/caramel-sync-plugin/src/sync-controller.ts:118-180 | each path's action is the value of the last `set` for that path, so a later rule replaces an earlier one |
| `SyncClassify.PlanOrder` | packages/caramel-sync-plugin/src/sync-controller.ts:184 | keys are unique and ordered by first insertion; overwriting keeps a key's position |
| `SyncClassify.ClassifyOnePerPath` | packages/caramel-sync-plugin/src/sync-controller.ts:107-184 | one action per path, never two (so never both push and pull); every action carries the sides its kind needs; paths covered are exactly those some rule set |
| `SyncClassify.RemoteDeletionsAt` | packages/caramel-sync-plugin/src/sync-controller.ts:111-128 | remote-tombstone rule: host tombstone gives prune, live host created before the deletion gives remove, otherwise push, no host entry gives nothing |
| `SyncClassify.HostDeletionsAt` | packages/caramel-sync-plugin/src/sync-controller.ts:131-151 | host-tombstone rule: no remote entry gives prune, live remote created before the deletion gives remove, otherwise pull, remote tombstone gives nothing |
| `SyncClassify.HostModificationsAt` | packages/caramel-sync-plugin/src/sync-controller.ts:153-166 | a live host file newer than the checkpoint is pushed when the remote is absent or older, and conflicts when the remote is newer; a remote stamp equal to the checkpoint sets nothing |
| `SyncClassify.RemoteModificationsAt` | packages/caramel-sync-plugin/src/sync-controller.ts:168-182 | the same for a live remote file, with pull for push |
| `SyncClassify.PlanDecides` | packages/caramel-sync-plugin/src/sync-controller.ts:110-182 | for a path listed at most once per side, the planned action is the decision table `Decide` for the two entries: the last rule that sets something wins |
| `SyncClassify.PlanByRules` | packages/caramel-sync-plugin/src/sync-controller.ts:110-182 | a path's planned action is that of the last of the four rules that sets it |
| `SyncClassify.TombstoneDeletionsAt` | packages/caramel-sync-plugin/src/sync-controller.ts:131-151 | over live files followed by tombstones, the host-tombstone rule sees only the tombstone for the path |
| `SyncClassify.LiveModificationsAt` | packages/caramel-sync-plugin/src/sync-controller.ts:153-166 | over live files followed by tombstones, the host-modified rule sees only the live entry for the path |
| `SyncClassify.LiveAndTombstoneDecide` | packages/caramel-sync-plugin/src/sync-controller.ts:110-182 | for a path the host lists live and as a tombstone, the plan is `DecideTwice`: rules 1, 3 and 4 use the live entry, which `find` returns first, and rule 2 uses the tombstone |
| `SyncClassify.RememberedDeletionOfLiveFile` | packages/caramel-sync-plugin/src/sync-controller.ts:131-151 | a live, unchanged host file also remembered as deleted, over an older unchanged remote copy, is planned as a remove carrying the tombstone, where the live entry alone plans nothing |
| `SyncClassify.BothTombstonesPrune` | packages/caramel-sync-plugin/src/sync-controller.ts:113-140 | two tombstones are pruned by the remote-tombstone rule, and the host-tombstone rule sets nothing for them |
| `SyncClassify.LoneRemoteTombstoneIgnored` | packages/caramel-sync-plugin/src/sync-controller.ts:124-127 | a remote tombstone the host does not list gets no action |
| `SyncClassify.LoneHostTombstonePruned` | packages/caramel-sync-plugin/src/sync-controller.ts:148-149 | a host tombstone the server does not list is pruned |
| `SyncClassify.NewHostFilePushed` | packages/caramel-sync-plugin/src/sync-controller.ts:158-161 | a host file changed since the checkpoint and unknown to the server is pushed |
| `SyncClassify.StaleHostCopyPulled` | packages/caramel-sync-plugin/src/sync-controller.ts:173-176 | a remote change over an older host copy is pulled |
| `SyncClassify.BothChangedConflict` | packages/caramel-sync-plugin/src/sync-controller.ts:155-182 | both sides changed since the checkpoint gives a conflict |
| `SyncClassify.EqualStampKeepsEarlier` | packages/caramel-sync-plugin/src/sync-controller.ts:153-166 | a remote stamp equal to the checkpoint leaves the remote-tombstone rule's remove or push in place |
| `SyncClassify.HostTombstoneInConflict` | packages/caramel-sync-plugin/src/sync-controller.ts:168-181 | the remote-modified rule ignores the host's `deleted` flag and plans a conflict with a recent host tombstone |
| `SyncClassify.RemoteTombstoneInConflict` | packages/caramel-sync-plugin/src/sync-controller.ts:153-165 | the host-modified rule ignores the remote's `deleted` flag and plans a conflict with a recent remote tombstone |
| `SyncEngine.RunAppend` | packages/caramel-sync-plugin/src/sync-controller.ts:35-37 | running two action lists in sequence is running the first, then the second only if nothing threw |
| `SyncEngine.StopsAtFirstThrow` | packages/caramel-sync-plugin/src/sync-controller.ts:35-39 | when action k is the first to throw, the pass ends in the state that action left and later actions are not applied |
| `SyncEngine.PruneForgetsOnlyTombstone` | packages/caramel-sync-plugin/src/sync-controller.ts:52-57 | prune removes only the host tombstone record; vault and server are untouched and it cannot throw |
| `SyncEngine.RemoveAsksServerFirst` | packages/caramel-sync-plugin/src/sync-controller.ts:58-69 | remove calls the remote first, with the remote snapshot's stamp (possibly null); a remote throw comes before the vault is touched; otherwise the host removal throws exactly when its guard fires, and then the vault is unchanged |
| `SyncEngine.StamplessRemoteRemoveThrows` | packages/caramel-sync-plugin/src/sync-controller.ts:58-62 | a remove whose remote entry has a null stamp throws before any request, changes nothing and stops the pass |
| `SyncEngine.UnresolvableConflictWritesNothing` | packages/caramel-sync-plugin/src/sync-controller.ts:70-81 | a conflict on a file that is not text-like writes nothing |
| `SyncEngine.ConflictOnMissingHostFileThrows` | packages/caramel-sync-plugin/src/sync-controller.ts:187-188 | a conflict whose host file cannot be read throws before any write |
| `SyncEngine.ConflictDataDecrypts` | packages/caramel-sync-plugin/src/sync-controller.ts:187-201 | given a cipher that opens what it seals, the bytes a resolved conflict writes decrypt to the encoded merge |
| `SyncEngine.ResolvedConflictWritesBoth` | packages/caramel-sync-plugin/src/sync-controller.ts:70-81 | a resolved conflict calls the server first and then writes the host; a remote throw (a null remote stamp or a server failure) comes before the host write; each write is guarded by its own snapshot stamp and stamped with the checkpoint; the host write throws exactly when its guard fires or the vault refuses the write |
| `SyncEngine.PushPostsHostBytes` | packages/caramel-sync-plugin/src/sync-controller.ts:82-92 | push calls the remote update with the host bytes, guarded by the remote stamp, possibly null (or the host's own when there is no remote entry), and stamped with the host's; the vault is untouched |
| `SyncEngine.PullWritesRemoteBytes` | packages/caramel-sync-plugin/src/sync-controller.ts:93-103 | pull writes the fetched bytes stamped with the remote stamp, guarded by the host stamp (or the remote's); it throws exactly when the guard fires or the vault refuses the write, and never touches the server |
| `SyncEngine.QuietListingsPlanNothing` | packages/caramel-sync-plugin/src/sync-controller.ts:107-184 | with no tombstones and nothing newer than the checkpoint, nothing is planned and the pass changes nothing |
| `SyncEngine.SyncController.constructor` | packages/caramel-sync-plugin/src/sync-controller.ts:13-21 | the checkpoint field starts at 0 and the collaborators are stored |
| `SyncEngine.SyncController.ReadConflict` | packages/caramel-sync-plugin/src/sync-controller.ts:188-192 | reads and decrypts host then remote, stopping at the first throw, then decodes both |
| `SyncEngine.SyncController.HandleConflict` | packages/caramel-sync-plugin/src/sync-controller.ts:187-201 | gives `None` when `canResolve` is false, otherwise the encrypted encoded merge |
| `SyncEngine.SyncController.ApplySyncAction` | packages/caramel-sync-plugin/src/sync-controller.ts:50-105 | the calls on both replicas leave exactly the state `Apply` gives, and report its outcome |
| `SyncEngine.SyncController.ApplyAll` | packages/caramel-sync-plugin/src/sync-controller.ts:35-37 | the actions are applied strictly in order, stopping at the first throw |
| `SyncEngine.SyncController.Sync` | packages/caramel-sync-plugin/src/sync-controller.ts:23-40 | the checkpoint is read first and the remote cache is refreshed; the classified actions are run, and `last_synced_at` becomes `now` exactly when none threw, with other settings unchanged |
| `ConflictResolver.ExtensionAfterLastDot` | packages/paintress-sync-plugin/src/conflict-resolver.ts:17-19 | the extension is the text after the last `.`, or the whole path when there is none |
| `ConflictResolver.IsTextBasedFile` | packages/paintress-sync-plugin/src/conflict-resolver.ts:21-41 | text-like exactly when the extension is one of the twelve listed names, compared case-sensitively |
| `ConflictResolver.CanResolveIgnoresRemote` | packages/paintress-sync-plugin/src/conflict-resolver.ts:5-8 | the remote file never affects `canResolve` |
| `ConflictResolver.ExtensionOfDottedName` | packages/paintress-sync-plugin/src/conflict-resolver.ts:17-41 | `stem.ext` has extension `ext`, and is resolvable exactly when `ext` is listed |
| `ConflictResolver.Examples` | packages/paintress-sync-plugin/src/conflict-resolver.ts:21-41 | `image.png` and `notes.MD` are not resolvable; `notes.md` is |
| `ConflictResolver.Resolve` | packages/paintress-sync-plugin/src/conflict-resolver.ts:10-15 | the merge is `reconcile(older, older, newer)`: base and left are the same text |
| `ConflictResolver.OlderNewerPermutation` | packages/paintress-sync-plugin/src/conflict-resolver.ts:11-12 | (older, newer) is a permutation of the two contents; the host is older only when strictly older, so on a tie the remote is older |
| `LocalFs.ParentDir` | packages/paintress-sync-plugin/src/fs.local.ts:45-46 | a path without `/` has no parent directory, so no folder is created |
| `LocalFs.ParentDirSplits` | packages/paintress-sync-plugin/src/fs.local.ts:45 | the parent directory is the text before the last `/` |
| `LocalFs.NonEmpty` | packages/paintress-sync-plugin/src/fs.local.ts:78 | keeps exactly the non-empty segments |
| `LocalFs.NonEmptyAppend` | packages/paintress-sync-plugin/src/fs.local.ts:78 | filtering distributes over concatenation, so the kept segments keep their order and multiplicity |
| `LocalFs.NonEmptySingle` | packages/paintress-sync-plugin/src/fs.local.ts:78 | a single segment is kept exactly when it is non-empty |
| `LocalFs.NonEmptyKeepsAll` | packages/paintress-sync-plugin/src/fs.local.ts:78 | segments that are all non-empty are kept unchanged |
| `LocalFs.PrefixStep` | packages/paintress-sync-plugin/src/fs.local.ts:81-82 | each prefix extends the previous one by `/` and the next segment |
| `LocalFs.CreateMissingSpec` | packages/paintress-sync-plugin/src/fs.local.ts:77-89 | afterwards every prefix exists; existing entries are unchanged; only missing prefixes are created, as folders |
| `LocalFs.ReadFile` | packages/paintress-sync-plugin/src/fs.local.ts:149-151 | the bytes of a file; reading a folder or a missing path throws |
| `LocalFs.UpdateGuard` | packages/paintress-sync-plugin/src/fs.local.ts:44-59 | update throws exactly when the file exists with another stamp or the write is refused: a folder at the path, or a file in place of a parent folder (one already in the vault always refuses it). A throw leaves the path as it was. Otherwise the bytes are recorded with mtime = the new stamp, keeping a non-zero ctime. Every parent prefix names an entry either way, and no other entry changes except that missing parents become folders |
| `LocalFs.WithParentsSpec` | packages/paintress-sync-plugin/src/fs.local.ts:77-89 | after `mkdirpInVault` every parent prefix exists, the path itself and every existing entry are unchanged, and new entries are folders |
| `LocalFs.BlockedBeforeParents` | packages/paintress-sync-plugin/src/fs.local.ts:142-147 | a folder at the path or a file in place of a parent, present before the call, makes `writeBinary` refuse the write |
| `LocalFs.ParentFoldersShorter` | packages/paintress-sync-plugin/src/fs.local.ts:77-89 | every folder `mkdirpInVault` visits is shorter than the path, so the path is never one of them |
| `LocalFs.ParentExistsAfterUpdate` | packages/paintress-sync-plugin/src/fs.local.ts:44-48 | when the parent directory has no empty segment, it is the last prefix visited and exists after the update, whether the update passed or threw |
| `LocalFs.RemoveGuard` | packages/paintress-sync-plugin/src/fs.local.ts:61-75 | same guard as update, a missing file always passes, a rejected remove changes nothing; system trash is used only when asked for and it succeeds, otherwise local trash |
| `LocalFs.IsFileExcluded` | packages/paintress-sync-plugin/src/fs.local.ts:163-185 | excluded exactly when some non-blank pattern matches without throwing |
| `LocalFs.ExcludePatternsPieces` | packages/paintress-sync-plugin/src/fs.local.ts:110-115 | the patterns are the trimmed comma-separated pieces of the setting; the second split and trim change nothing |
| `LocalFs.WalkEntry` | packages/paintress-sync-plugin/src/fs.local.ts:96-136 | lists files only, skips `''` and `'/'`, strips one leading `/`, skips excluded files; `updatedAt` is the raw mtime |
| `LocalFs.WalkedMembers` | packages/paintress-sync-plugin/src/fs.local.ts:91-140 | a record is walked exactly when some vault entry yields it, and all walked records are live |
| `LocalFs.Tombstones` | packages/paintress-sync-plugin/src/fs.local.ts:32-36 | one deleted, size-0 entry per history record, with its stamps copied |
| `LocalFs.ListedTwice` | packages/paintress-sync-plugin/src/fs.local.ts:26-38 | a path both in the vault and in the history is listed twice, live first |
| `LocalFs.LocalFileSystem.constructor` | packages/paintress-sync-plugin/src/fs.local.ts:15-24 | stores the collaborators and the trash choice |
| `LocalFs.LocalFileSystem.CreateFolder` | packages/paintress-sync-plugin/src/fs.local.ts:84-87 | creates a folder only when nothing is at the path |
| `LocalFs.LocalFileSystem.MkdirpInVault` | packages/paintress-sync-plugin/src/fs.local.ts:77-89 | visits the cumulative prefixes shortest first, creating the missing ones |
| `LocalFs.LocalFileSystem.Update` | packages/paintress-sync-plugin/src/fs.local.ts:44-59 | creates the parent folders, then applies the guard and the write as `UpdateSpec` says, throwing where `writeBinary` refuses a folder at the path or a file above it |
| `LocalFs.LocalFileSystem.Remove` | packages/paintress-sync-plugin/src/fs.local.ts:61-75 | the guard, then trashing as `RemoveSpec` says |
| `LocalFs.LocalFileSystem.WalkOne` | packages/paintress-sync-plugin/src/fs.local.ts:96-136 | one iteration of the walk loop yields `WalkEntry` |
| `LocalFs.LocalFileSystem.Walk` | packages/paintress-sync-plugin/src/fs.local.ts:91-140 | the loop builds the walked listing in vault order |
| `LocalFs.LocalFileSystem.GetFiles` | packages/paintress-sync-plugin/src/fs.local.ts:26-38 | the walked files followed by the tombstones |
| `LocalFs.LocalFileSystem.Prune` | packages/paintress-sync-plugin/src/fs.local.ts:187-189 | forgets the history record only |
| `LocalHistory.Parsed` | packages/paintress-sync-plugin/src/fs.local.file-history.ts:22-29 | a failed read or parse gives an empty store; otherwise each key holds its last stored value |
| `LocalHistory.LocalFileHistory.constructor` | packages/paintress-sync-plugin/src/fs.local.file-history.ts:13-20 | the store starts empty, since `loadData()` is started but not awaited |
| `LocalHistory.LocalFileHistory.LoadData` | packages/paintress-sync-plugin/src/fs.local.file-history.ts:22-30 | when the load completes the store becomes the parsed file, or empty when reading or parsing failed, replacing whatever was marked meanwhile |
| `LocalHistory.LocalFileHistory.MarkFileAsDeleted` | packages/paintress-sync-plugin/src/fs.local.file-history.ts:41-47 | sets or overwrites the entry with `{deletedAt: now, updatedAt: mtime, createdAt: ctime}` |
| `LocalHistory.LocalFileHistory.GetAllDeletedFiles` | packages/paintress-sync-plugin/src/fs.local.file-history.ts:50-57 | exactly one record per stored path, with its three stamps, in `Object.entries` order: array-index paths first and ascending |
| `LocalHistory.ListingOfPermutation` | packages/paintress-sync-plugin/src/fs.local.file-history.ts:50-57 | listing any rearrangement of the store gives every remembered path once, with its stamps |
| `OrderedMap.ObjectEntriesOrder` | packages/paintress-sync-plugin/src/fs.local.file-history.ts:51 | `Object.entries` lists the same entries, array-index keys first and ascending, the other keys in insertion order |
| `OrderedMap.NoIndexKeysInsertionOrder` | packages/paintress-sync-plugin/src/fs.local.file-history.ts:51 | an object without array-index keys is enumerated in insertion order |
| `LocalHistory.LocalFileHistory.RemoveEntry` | packages/paintress-sync-plugin/src/fs.local.file-history.ts:59-62 | deletes the entry for the path |
| `LocalHistory.MarkRecords` | packages/paintress-sync-plugin/src/fs.local.file-history.ts:41-47 | after marking, the path has the new record and other entries are unchanged |
| `LocalHistory.RemoveForgets` | packages/paintress-sync-plugin/src/fs.local.file-history.ts:59-62 | after removal the path is gone and other entries are unchanged |
| `LocalHistory.RemoveIdempotent` | packages/paintress-sync-plugin/src/fs.local.file-history.ts:59-62 | removing twice is the same as removing once |
| `LocalHistory.MarkThenRemove` | packages/paintress-sync-plugin/src/fs.local.file-history.ts:41-62 | marking a new path and then removing it restores the store |
| `FilesServer.FirstRow` | apps/paintress-server/src/modules/files.ts:30-35 | the first row of the workspace with the path, or none exactly when no row matches |
| `FilesServer.PostGuardRejects` | apps/paintress-server/src/modules/files.ts:37-39 | with an existing row, the request is rejected with no change exactly when its stamp is null or differs from `previousUpdatedAt` |
| `FilesServer.NoRowIgnoresPrevious` | apps/paintress-server/src/modules/files.ts:37 | with no row, `previousUpdatedAt` makes no difference |
| `FilesServer.DeleteMissingRejected` | apps/paintress-server/src/modules/files.ts:41-44 | deleting a path with no row is rejected and nothing changes |
| `FilesServer.DeleteTombstones` | apps/paintress-server/src/modules/files.ts:48-53 | delete sets `deleted`, clears the s3 fields and sets both stamps to the one sent, or null when none was; other columns and other rows are unchanged |
| `FilesServer.WriteUpdatesRow` | apps/paintress-server/src/modules/files.ts:62-74 | updating a row changes only the blob, sizes and `updated_at`; `deleted`, `created_at` and `deleted_at` are kept |
| `FilesServer.WriteInsertsRow` | apps/paintress-server/src/modules/files.ts:89-104 | inserting appends a live row with `deleted_at = 0` and `created_at = updated_at =` the sent stamp (null when none was), under a fresh id |
| `FilesServer.PostKeepsPathsUnique` | apps/paintress-server/src/modules/files.ts:22-108 | no request creates a second row for a path of a workspace |
| `FilesServer.Summary` | apps/paintress-server/src/modules/files.ts:10-19 | every row of the workspace, tombstones included, and nothing else |
| `FilesServer.FileById` | apps/paintress-server/src/modules/files.ts:114-119 | the row with that id in the workspace, or none exactly when there is none |
| `FilesServer.Download` | apps/paintress-server/src/modules/files.ts:110-140 | 404 exactly for an unknown id; otherwise the stored bytes, named by the last `/` segment of the path, with the stored size |
| `FilesServer.ServerErrorOnlyFromStorage` | apps/paintress-server/src/modules/files.ts:41-60 | a request past the guard fails with a server error exactly when its `deleteFile` or `uploadFile` rejects (or a write has no file), and then the table is unchanged |
| `FilesServer.StamplessRowRejects` | apps/paintress-server/src/modules/files.ts:37-39 | a row whose `updated_at` is null rejects every request on its path and nothing changes, whatever stamp is sent |
| `FilesServer.StamplessRequestLocksPath` | apps/paintress-server/src/modules/files.ts:48-53 | an accepted request without `updatedAt` (a delete, or a write stamped 0) leaves the row's `updated_at` null, so every later request on the path is rejected |
| `FilesServer.FilesTable.Post` | apps/paintress-server/src/modules/files.ts:22-108 | the handler's in-place table changes and response are those of `PostSpec`: a null stored stamp fails the guard, and a missing `updatedAt` is stored as null |
| `RemoteFs.Cache` | packages/caramel-sync-plugin/src/fs.remote.ts:15-23 | one cache entry per summary row, mapped field by field |
| `RemoteFs.FromSummary` | packages/caramel-sync-plugin/src/fs.remote.ts:15-23 | each field is copied; a null stamp compares as 0, and a null `updated_at` is kept as the null handed to `update` and `remove` |
| `RemoteFs.Compared` | packages/caramel-sync-plugin/src/sync-controller.ts:159 | in `<` and `>` a null stamp counts as 0 and a number as itself |
| `RemoteFs.FindCached` | packages/caramel-sync-plugin/src/fs.remote.ts:29 | the first cached entry with the path, or none exactly when there is none |
| `RemoteFs.SentStamp` | packages/caramel-sync-plugin/src/repo.ts:92-94 | the new stamp is sent only when it is non-zero |
| `RemoteFs.Surfaced` | packages/caramel-sync-plugin/src/repo.ts:96-98 | the response body is not inspected: only a server failure surfaces |
| `RemoteFs.GuardRefusalNotSurfaced` | packages/caramel-sync-plugin/src/fs.remote.ts:38-45 | a server-side guard rejection reaches the engine as success |
| `RemoteFs.UpdateFailsOnlyOnUpload` | packages/caramel-sync-plugin/src/repo.ts:87-96 | an update throws a TypeError with nothing sent when its previous stamp is null (repo.ts:90); otherwise it carries content, so it throws exactly when the guard lets it through and the upload rejects; a row with a null stamp never lets it through |
| `RemoteFs.RemoveFailsOnlyOnUnlink` | packages/caramel-sync-plugin/src/repo.ts:87-96 | a remove throws a TypeError with nothing sent when its previous stamp is null; otherwise it throws exactly when the row exists, the guard lets it through and unlinking its blob rejects; a missing row, a stale stamp or a null stored stamp is refused quietly |
| `RemoteFs.Fetch` | packages/caramel-sync-plugin/src/fs.remote.ts:28-36 | throws 'File not found' exactly when no cached entry has the path; otherwise the download of the first match's id, tombstones included, where a failed download's error body is returned as the content |
| `RemoteFs.RemoteFileSystem.GetFiles` | packages/caramel-sync-plugin/src/fs.remote.ts:12-26 | replaces the cache wholesale with the mapped summary and returns it |
| `RemoteFs.RemoteFileSystem.Update` | packages/caramel-sync-plugin/src/fs.remote.ts:38-41 | throws with the table unchanged when the previous stamp is null; otherwise posts `isDeleted = false` with both stamps and the content, the table changes as the handler says, and a server failure is thrown (`UpdateCall`) |
| `RemoteFs.RemoteFileSystem.Remove` | packages/caramel-sync-plugin/src/fs.remote.ts:43-45 | throws with the table unchanged when the previous stamp is null; otherwise posts `isDeleted = true` with no new stamp, the table changes as the handler says, and a server failure is thrown (`RemoveCall`) |
| `RemoteFs.RemoteFileSystem.Prune` | packages/caramel-sync-plugin/src/fs.remote.ts:47-49 | always throws |
| `Crypto.Slice` | packages/caramel-sync-plugin/src/crypto.ts:79-81 | `slice` clamps both bounds to the buffer |
| `Crypto.SplitFrameOfFrame` | packages/caramel-sync-plugin/src/crypto.ts:79-81 | slicing a frame recovers salt, IV and ciphertext when they are 16 and 12 bytes long |
| `Crypto.FrameOfSplitFrame` | packages/caramel-sync-plugin/src/crypto.ts:79-81 | the three slices glue back to any buffer |
| `Crypto.WrongSaltLength` | packages/caramel-sync-plugin/src/crypto.ts:79-81 | a salt of another length is not recovered |
| `Crypto.EncryptBuffer` | packages/caramel-sync-plugin/src/crypto.ts:49-72 | the result has 16 + 12 + |ciphertext| bytes: salt at 0, IV at 16, ciphertext from 28 |
| `Crypto.CopyInto` | packages/caramel-sync-plugin/src/crypto.ts:67-69 | `set` writes the source at the offset and leaves the rest |
| `Crypto.DecryptBufferOfEncrypted` | packages/caramel-sync-plugin/src/crypto.ts:49-97 | given a cipher that opens what it seals, `decryptBuffer` undoes `encryptBuffer` |
| `Crypto.Decrypted` | packages/caramel-sync-plugin/src/crypto.ts:154-163 | with an empty key, decrypt is the identity |
| `Crypto.DecryptedOfEncrypted` | packages/caramel-sync-plugin/src/crypto.ts:143-163 | `decrypt(encrypt(x)) = x` with or without a key, given the cipher's inverse hypothesis |
| `Crypto.EncryptedFrameLength` | packages/caramel-sync-plugin/src/crypto.ts:65-69 | with a key, the output is salt, IV and ciphertext, and starts with the salt |
| `Crypto.RandomBytes` | packages/caramel-sync-plugin/src/crypto.ts:13-20 | draws exactly the requested number of random bytes |
| `Crypto.CryptoBox.Encrypt` | packages/caramel-sync-plugin/src/crypto.ts:143-152 | the identity (and nothing drawn) when the key is empty; otherwise the sealed frame under fresh salt and IV |
| `Crypto.CryptoBox.Decrypt` | packages/caramel-sync-plugin/src/crypto.ts:154-163 | the identity when the key is empty, otherwise `decryptBuffer` |
| `Crypto.Binary` | packages/caramel-sync-plugin/src/crypto.ts:115 | one character per byte, with char code equal to the byte |
| `Crypto.Unbinary` | packages/caramel-sync-plugin/src/crypto.ts:123-125 | one byte per character |
| `Crypto.UnbinaryOfBinary` | packages/caramel-sync-plugin/src/crypto.ts:112-127 | the byte-to-character step is undone by the character-to-byte step |
| `Crypto.BinaryOfUnbinary` | packages/caramel-sync-plugin/src/crypto.ts:120-127 | the other direction is the identity exactly on binary strings |
| `Crypto.BufferToBase64` | packages/caramel-sync-plugin/src/crypto.ts:112-117 | the loop builds the binary string, then `btoa` encodes it |
| `Crypto.Base64ToBuffer` | packages/caramel-sync-plugin/src/crypto.ts:120-127 | `atob`, then the loop fills one byte per character |
| `Crypto.Base64RoundTrip` | packages/caramel-sync-plugin/src/crypto.ts:112-127 | `base64ToBuffer(bufferToBase64(b)) = b`, given that `atob` undoes `btoa` |
| `Settings.SettingsController.constructor` | packages/caramel-sync-plugin/src/settings-controller.ts:54-57 | a fresh controller holds the defaults (`last_synced_at = 0`, enabled, terms not accepted, empty key) |
| `Settings.SettingsController.LoadSettings` | packages/caramel-sync-plugin/src/settings-controller.ts:63-65 | stored keys override the defaults and missing keys take the default |
| `Settings.SettingsController.UpdateSettings` | packages/caramel-sync-plugin/src/settings-controller.ts:72-75 | the given keys overwrite the current ones |
| `Settings.AssignNoChange` | packages/caramel-sync-plugin/src/settings-controller.ts:72-75 | `updateSettings({})` changes nothing |
| `Settings.AssignFull` | packages/caramel-sync-plugin/src/settings-controller.ts:63-65 | a complete stored record replaces every default |
| `Settings.AssignIdempotent` | packages/caramel-sync-plugin/src/settings-controller.ts:73 | the same update applied twice equals applying it once |
| `Settings.AssignThen` | packages/caramel-sync-plugin/src/settings-controller.ts:72-74 | two updates in a row are one update in which the later keys win |
| `Settings.SetLastSyncedAtOnly` | packages/caramel-sync-plugin/src/sync-controller.ts:39 | storing the checkpoint changes `last_synced_at` and no other setting |
| `Plugin.Gate` | packages/paintress-sync-plugin/main.ts:110-129 | a pass is allowed exactly when enabled, not syncing and terms accepted; otherwise the refusal is the first failed check |
| `Plugin.PaintressSyncPlugin.constructor` | packages/paintress-sync-plugin/main.ts:15-20 | no controller yet and not syncing |
| `Plugin.PaintressSyncPlugin.InitializeSyncController` | packages/paintress-sync-plugin/main.ts:87-105 | a controller is installed only when both API host and key are non-empty |
| `Plugin.PaintressSyncPlugin.RunSync` | packages/paintress-sync-plugin/main.ts:107-142 | `RunEffect`: a refused call, or an allowed one without a controller, changes nothing; otherwise the pass leaves the state and outcome `Run` gives for the classified listings, its errors are caught, `syncing` ends false, and the checkpoint moves to `now` only on success |
| `Plugin.PaintressSyncPlugin.IntervalTick` | packages/paintress-sync-plugin/main.ts:31-35 | a tick runs `runSync`, with its whole effect, exactly when `sync_type` is auto; otherwise it changes nothing |

## Left out

- The abstract `FileSystem` class (packages/paintress-sync-plugin/src/fs.ts:10-17) is not a Dafny trait. The controller is wired to the two concrete replicas that main.ts builds, so the model covers exactly that wiring.
- AES-GCM, PBKDF2, the random salt and IV, and the UTF-8 `TextEncoder`/`TextDecoder` are function parameters. `decrypt(encrypt(x)) = x` is proved only under the stated hypothesis that opening undoes sealing.
- `btoa`/`atob` (base64, section 4 of RFC 4648) are parameters. The base64 round trip assumes `atob` undoes `btoa` on binary strings.
- `reconcile` from reconcile-text is an uninterpreted parameter. Nothing is claimed about how its output relates to the newer text.
- `minimatch` is an abstract matcher. It returns a verdict, or `None` where the library throws.
- `ConflictResolver.IsTextBasedFile`: the source's list repeats six names; the contract states membership in the set of twelve distinct names, which is the same test.
- The Obsidian vault API, trash and file stats are an insertion-ordered map from path to a file (mtime, ctime, bytes) or a folder. `trashSystem` is a parameter that reports success or failure.
- JSON and disk persistence of the tombstone store and the settings are not modelled. A load is a parameter: the parsed data, or nothing when the read or parse failed. Saving is left out.
- The HTTP client and transport (packages/caramel-sync-plugin/src/repo.ts) are not modelled. Remote calls go straight to the modelled server handlers. An error body from a failed download is a parameter (`errorBody`).
- Blob storage (S3 or local disk) is left out. The stored path, hash and size are parameters, and each row keeps its stored bytes. Whether `uploadFile` and `deleteFile` resolve is a parameter (`uploads`, `unlinks`), not derived from the storage back end, so which uploads the local-disk store rejects is not modelled.
- `LocalFs.RemoveSpec`: a path missing from the vault passes the guard and is recorded in the trash it was sent to; what Obsidian's `trashLocal` does with such a path is not modelled.
- When the unawaited `loadData()` of the tombstone store completes, relative to the first pass, is not modelled; `LoadData` is the completion, called whenever it happens. The `mkdir` of the store's folder is left out.
- The interval's 3000 ms period is not modelled; `IntervalTick` is one firing of it.
- The database setup, the schema migration, the server wiring and the auth middleware are left out. The workspace is a parameter.
- Connection polling, the settings UI, the status bar and notices are left out. The per-glob resolution strategies exist in the settings record but are never consulted, as in the source.
- The paintress server's schema migration is not part of this model. A stamp column that receives NaN is modelled as holding null, which is what SQLite stores for NaN; if the column is NOT NULL, such a request would instead fail after its storage call.
- `LocalFs.UpdateSpec`: when a file sits in place of a parent folder, Obsidian's `createFolder` for the deeper prefixes would reject first. The model still records those folders and then refuses the write, so the update throws in both, but the folders left behind differ. Other `createFolder` failures are not modelled.
- `SyncEngine.Apply`: a pull of a remote entry whose stamp is null passes 0 to the host where the source passes `null`. The host's guard treats both alike; what Obsidian records as the mtime of a write given `null` is not modelled.
- `FilesServer.PostSpec`: the id drawn at line 58 and never used is counted (`issued`) but has no other effect.
- The `lastModified` fallback in `walk` (fs.local.ts:120-126) is computed and never used, so it is omitted; `updatedAt` is the raw mtime.
- Concurrency between an awaited replica call and outside edits to the vault or server is not modelled: a pass runs against a state that changes only through its own calls.
- `Date.now()` is a parameter (`now`) of `Sync`, `RunSync`, `IntervalTick` and `MarkFileAsDeleted`.
