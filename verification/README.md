# Verified model of the file service

A Dafny model of a self-hosted file and photo storage server, with proofs about its file tree, its blob store, its
S3 client, its refresh tokens, its albums and its paged loops. `dafny verify dfyconfig.toml` checks all of it.

## What is modelled

**The file tree.** Files and folders are rows of one table, found by path ignoring case. A folder row caches the total
size of the files below it. `Rows` says what a well-formed tree is and when its cached sizes are right, `Trees` shows
that adding, removing and relocating rows keep both, `FileTable` has the repository's queries as methods, and
`Folders`, `Steps` and `Uploads` show that the services' sequences of queries amount to such changes. `FileCore` is the
file service: a class whose methods run the queries in the order the service does and queue the blob jobs. `Paths` and
`Text` hold paths as components together with their strings, so that prefix queries, replacements and casing are
exact.

**The lagging blob store.** File contents live under keys derived from paths. Deletes and moves reach the blob table
and the storage only later, through jobs that a worker runs in order. `BlobStore` and `Effects` give the effect of a
job, in one step and key by key, `Retry` covers stopping and rerunning jobs, `Blobs` is the blob service with its four
handlers. `Runs` lets clients and worker take turns, `Lag` proves that storage is always an earlier state of the tree,
and `Backend` is a class over the actual services that keeps this through every allowed call. `Attempts` says what an
upload leaves behind whether it succeeds or not.

**Around it.** `Names` (numbered names for uploads), `Listing` (folder listings), `Quota` (the quota check),
`UseCases` (namespace creation, checked uploads, the trash, the home listing), `S3` (batched deletes, directory moves,
multipart uploads), `Tokens` (refresh-token families), `Albums` (album covers), `Paging` (loops over pages).

`Shortfalls` has concrete calls at which a promise fails.

Random ids, the clock, decoded tokens, what a name's pattern counts when the name has pattern characters, and the order
in which concurrent uploads finish are parameters. Letters outside ASCII have no case, so folding keeps lengths.
Operations are atomic and run one after the other; jobs are delivered after the transaction that queued them, in order.

## Where the code differs from what it promises

Each of these is a theorem: an exact condition, and a concrete call that fails it.

- The pattern that counts numbered names is built from the name as it is. For "a+b.txt" it counts nothing, and after a
  numbered name has been deleted it counts too few; the upload then picks a stored path, overwrites its bytes and fails
  (`Attempts.UploadKeepsLaggedIff`; `Shortfalls.PatternInName`, `Shortfalls.DeletedNumber`).
- Emptying the trash passes "trash", while the row is "Trash". Rows, blobs and storage come out right
  (`Steps.EmptyKeepsTree`, `Lag.CarriesEmptying`), but the trash's own size is not updated, so cached sizes go wrong
  (`Steps.EmptyKeepsSizedIff`), and after doing so twice the quota check reads a negative total
  (`Quota.EmptyTrashBreaksQuota`). With a cached size of zero nothing is deleted, so empty files stay in the trash.
- `create_folder` restores the casing of the last path only, and takes the last row by lower-cased path for the deepest
  ancestor, which fails for names that start with a character below "." (`Folders.CreateFolderFillsGap`,
  `Folders.ExistingPathRefused`; `Shortfalls.FolderCasing`, `Shortfalls.FolderOrder`).
- `create_file` does not restore casing, so a parent in another spelling keeps stale sizes
  (`FileCore.CreatedKeepsTreeIff`; `Shortfalls.FileCasing`).
- A move to another namespace onto the same path skips the check that the destination is free
  (`Steps.MoveKeepsTreeIff`; `Shortfalls.CrossNamespaceCollision`).
- Moving a folder onto its own stored path, as happens when "a" is addressed as "A" and moved to "a", copies the
  directory onto itself and then deletes it (`Lag.FolderMoveTracksIff`; `Shortfalls.MovedOntoItsOwnPath`). This is
  stated of the `IStorage` contract over a flat store of keys; an endpoint may refuse the copy onto itself.
- The blob table's prefix rename replaces every occurrence of the prefix (`BlobStore.RekeyFollows`;
  `Shortfalls.PrefixRepeated`).
- Keys name the owner and not the namespace, so an owner's namespaces share them (`Attempts.MirroredIff`;
  `Shortfalls.SharedKeys`).
- A single-blob move that stops after its storage step can never be rerun (`Retry.SingleMoveRetry`).
- The chunk size keeps below S3's 10,000 parts only for contents below 10,000 x 5 MiB (`S3.PartLimit`;
  `Shortfalls.OnePartTooMany`).
- Soft-deleting an item does not reassign the covers of other owners' albums (`Albums.CoversKeptIff`;
  `Shortfalls.ForeignCover`), and `items_count` counts requested ids (`Albums.CountTracksIff`;
  `Shortfalls.CountedTwice`).
- `purge` pages through a list that shrinks, so it leaves every second batch (`Paging.SurvivorsAreOddBlocks`;
  `Shortfalls.PurgeLeavesOne`).

## What callers respect in a run

For the tree `Runs.TreeAllowed` lists the conditions, and they are exact (`Runs.StepKeepsTreeIff`): paths are spelled as
stored where the code does not restore casing; a taken name's next number is free; a move to another namespace has a
free destination; the root is not deleted. Cached sizes, and with them the quota, need one more, `Runs.SizesAllowed`,
and it is exact too (`Runs.StepKeepsSizedIff`): what is emptied has no size, or is spelled as stored and not the root.
The application empties only the trash, and its call fails this whenever the trash has a size. For the blob store
`Runs.Allowed` adds to the tree's conditions: each owner has one namespace; no path component contains the owner's id; a
folder moves onto its own stored path only without files below it; the root is not emptied; uploads and moves and
deletes of single files happen with no job pending. Folders may be moved, deleted and, in any spelling, emptied at any
time.

## Model

| member | source | states |
|---|---|---|
| `Backend.Backend.constructor` | app/app/files/services/namespace.py:45-50 | an empty system is a valid start: no rows, no blobs, no jobs, and a history holding the empty tree |
| `Backend.Backend.CreateNamespace` | app/app/files/services/namespace.py:45-50 | fails exactly for a taken name and changes nothing then; otherwise one step of the runs that keeps tree and sizes, and the lagged refinement exactly when the owner had no namespace yet |
| `Backend.Backend.CreateFolder` | app/app/files/services/file/filecore.py:111-151 | a refusal changes nothing; a success is one step of the runs and keeps the lagged refinement exactly when the deepest stored row on the path is well cased |
| `Backend.Backend.Upload` | app/app/files/services/file/filecore.py:58-109 | with no job pending: refused without effect for an unknown namespace or a file on the parent's path; otherwise it succeeds when the path or the number after the count is free, and keeps the lagged refinement exactly when the parent is then also spelled as stored, or the taken number is a file with the very same bytes |
| `Backend.Backend.MoveItem` | app/app/files/services/file/filecore.py:287-371 | a refusal changes nothing; success is one step of the runs that keeps tree and sizes exactly when it is within the namespace, changes the path or finds the destination free, and keeps the lagged refinement in every allowed run |
| `Backend.Backend.DeleteItem` | app/app/files/services/file/filecore.py:153-175 | a refusal changes nothing; a permanent delete is one step of the runs, always keeps tree and sizes, and keeps the lagged refinement in every allowed run |
| `Backend.Backend.EmptyFolder` | app/app/files/services/file/filecore.py:206-223 | NotFound changes nothing; otherwise one step of the runs that keeps tree and lagged refinement in any spelling, "trash" for "Trash" included, and correct cached sizes exactly when the size was zero or the path is spelled as stored |
| `Backend.Backend.Work` | app/app/blobs/services/blob.py:139-147 | the worker's next message never fails, neither in storage nor at the table's key constraint: it is one step of the runs, storage catches up by exactly one queued operation, and the stored jobs are again exactly the queued ones |
| `Lag.StepKeepsLagged` | app/app/files/services/file/filecore.py:153-223 | every allowed step, of a client or of the worker, leaves blob table and storage equal to the tree as it stood after the operations whose jobs have run |
| `Lag.LaggedRefinement` | app/app/files/services/file/filecore.py:332-371 | over whole runs, in which the trash may be emptied as it is: after k jobs the blob table and the storage are exactly the path-derived keys, with the uploaded contents, of the tree after the k-th queued operation |
| `Lag.DrainedRun` | app/app/files/services/file/filecore.py:35-36 | with a drained queue every file's blob is recorded under owner/files/path and its content is stored there |
| `Lag.NextJobRuns` | app/app/blobs/services/blob.py:174-202 | in a lagged state the next job can run: a single-blob move finds its source and no two blobs get the same key |
| `Lag.CarriesFolderMove` | app/app/files/services/file/filecore.py:361-364 | a folder move's job takes the keys of the tree before the move to those of the tree after it, whatever else is pending, unless it is onto the folder's own path with files below |
| `Lag.FolderMoveTracksIff` | app/app/files/services/file/filecore.py:361-364 | after an accepted folder move the worker leaves table and storage as the relocated tree exactly when the folder moves away from its stored path or no file lies below it |
| `Lag.CarriesRemoval` | app/app/files/services/file/filecore.py:164-169 | the prefix job of a folder's delete, or of emptying a row, takes the keys of the tree before it to those after it, whatever the cached sizes |
| `Lag.CarriesEmptying` | app/app/files/services/file/filecore.py:213-223 | in any spelling the job of an emptied folder takes the keys of the tree before the emptying queries to those after them |
| `Lag.CarriesFileMove` | app/app/blobs/services/blob.py:92-110 | a file move's job, recorded on an empty queue, takes the keys of one tree to those of the other |
| `Lag.CarriesFileDelete` | app/app/blobs/services/blob.py:72-90 | a file delete's job, recorded on an empty queue, does the same |
| `Attempts.UploadKeepsLaggedIff` | app/app/files/services/file/filecore.py:85-107 | an upload with no job pending, failed or not, keeps the refinement exactly when the path or the number after the count is free and the parent spelled as stored, or when the number is a stored file with the very bytes uploaded |
| `Attempts.AttemptIsStep` | app/app/files/services/file/filecore.py:85-109 | an upload that succeeds is a step of the runs |
| `Attempts.MirroredIff` | app/infrastructure/database/tortoise/models.py:68-70 | a tree's files can have path-derived keys in a table with unique keys exactly when no two files of one owner have the same path |
| `Runs.StepKeepsTreeIff` | app/app/files/services/file/filecore.py:58-371 | a successful step keeps the tree (paths unique ignoring case, parents stored exactly, names and owners right) exactly when it is allowed to: spelling where it is not restored, a free number for a taken name, a free destination in another namespace, the root not deleted; emptying always does |
| `Runs.StepKeepsSizedIff` | app/app/files/services/file/filecore.py:58-371 | where a step keeps the tree, correct cached sizes stay correct exactly unless something with a size is emptied in another spelling, or the root is |
| `Runs.StepKeepsGoodIff` | app/app/files/services/file/filecore.py:58-371 | both together: from a tree with correct sizes a step leads to one exactly when the conditions of the tree and the one of the sizes hold |
| `Runs.FolderKeepsTreeIff` | app/app/files/services/file/filecore.py:119-151 | a folder made keeps the tree exactly when the deepest stored row on its path is well cased; then precisely the gap is filled and sizes stay right |
| `Runs.RunStaysTree` | app/app/files/services/namespace.py:45-50 | in every state reachable by tree-keeping steps from an empty system the table is a tree, whatever is pending, however many namespaces an owner has and however the trash is emptied |
| `Runs.RunStaysGood` | app/app/files/services/namespace.py:45-50 | as long as nothing with a size is emptied in another spelling, every folder then also caches the size of the files below it |
| `Runs.NamespaceAdded` | app/app/files/services/namespace.py:45-50 | the root and the trash saved for a new namespace keep a well-formed tree and correct sizes |
| `FileCore.FileCoreService.constructor` | app/app/files/services/file/filecore.py:48-56 | an empty service is valid |
| `FileCore.FileCoreService.MissingFolders` | app/app/files/services/file/filecore.py:119-149 | each refusal has its exact cause, in order: some existing prefix is a file, the last existing prefix is the path itself, the namespace is unknown; otherwise the rows to save are those after the last existing row on the path |
| `FileCore.FileCoreService.CreateFolder` | app/app/files/services/file/filecore.py:111-151 | the same refusals, without effect; in a tree a path is refused as stored exactly when it is and "." sorts before its first name; otherwise exactly those rows are saved and the requested path is found again |
| `FileCore.FileCoreService.GetAvailablePath` | app/app/files/services/file/filecore.py:233-247 | returns the path itself when free, otherwise the same path with the number after the count put where the name is cut: before its extension, or before the two last ones if the last is a compression suffix; for a plain name the count is the number of numbered names, for any other name anything |
| `FileCore.FileCoreService.EnsureParent` | app/app/files/services/file/filecore.py:76-83 | the parent is there or made; refused exactly when a file lies on its path |
| `FileCore.FileCoreService.CreateFile` | app/app/files/services/file/filecore.py:58-109 | each refusal has its exact cause, in order: a file on the parent's path, an unknown namespace, the chosen path's key in the blob table, the chosen path stored; the first two have no effect, and otherwise the bytes are stored under that key whatever follows. A saved file has the chosen path, the next blob and the content's size, and keeps the tree, and then the sizes, exactly when the parent is spelled as stored and the path or its next number was free |
| `FileCore.FileCoreService.Delete` | app/app/files/services/file/filecore.py:153-175 | removes exactly the subtree, shrinks exactly its ancestors and queues the one matching job; NotFound exactly for a free path |
| `FileCore.FileCoreService.EmptyFolder` | app/app/files/services/file/filecore.py:206-223 | removes what lies below, queues the prefix job, does nothing when the cached size is zero; keeps the tree in any spelling, and correct sizes exactly when there was none or the row is not the root and spelled as stored |
| `FileCore.FileCoreService.CheckMove` | app/app/files/services/file/filecore.py:301-329 | each refusal has its exact cause, in order: into itself, source not stored, destination's parent not stored, a file there, destination taken; otherwise the source row and the destination with its parent in stored casing |
| `FileCore.FileCoreService.MoveRow` | app/app/files/services/file/filecore.py:332-371 | relocates exactly the subtree or rolls everything back; refused exactly when another row has the destination's exact path, the file's blob is unknown, or its new key is another blob's, each with its own error |
| `FileCore.FileCoreService.Move` | app/app/files/services/file/filecore.py:287-330 | each refusal has its exact cause, in order, and no effect: into itself unless only casing changes, source not stored, destination's parent not stored, a file there, destination taken by another path; an accepted move is an exact relocation to the restored destination with the matching job; tree and sizes are kept unless it crosses namespaces onto its own path, where the destination check is skipped |
| `FileCore.CreatedKeepsTreeIff` | app/app/files/services/file/filecore.py:76-107 | creating a file keeps the tree, and then its sizes, exactly when every existing row on the parent's path is spelled as the path spells it, and the path or the number after the count is free |
| `FileCore.NextIsFree` | app/app/files/services/file/filecore.py:76-85 | the chosen path is free exactly when the path or the number after the count was, also after missing parents have been made |
| `FileCore.OutcomeCreated` | app/app/files/services/file/filecore.py:87-109 | an upload that succeeds saved one file, its blob and its bytes under a key that was no blob's |
| `FileCore.EndsAtTaken` | app/app/files/services/file/filecore.py:125-129 | in a tree the last row on a path is at the path itself exactly when the path is stored and "." sorts before its first name |
| `FileCore.AcceptedIsChecked` | app/app/files/services/file/filecore.py:301-330 | the checks establish what a relocation needs: a stored parent folder, no nesting, and nothing else at the destination |
| `Folders.CreateFolderFillsGap` | app/app/files/services/file/filecore.py:121-150 | saving the tail after the last existing row keeps the tree, and then its sizes, exactly when the existing part is given as stored, or only the last name is missing and "." sorts first; then it adds precisely the missing ancestors and the folder |
| `Folders.ExistingPathRefused` | app/app/files/services/file/filecore.py:125-129 | an existing path is refused exactly when "." sorts before its first name |
| `Folders.LastIsDeepest` | app/infrastructure/database/tortoise/repositories/file.py:197-210 | the last row by lower-cased path is the deepest existing ancestor when "." sorts first |
| `Folders.GapFilled` | app/app/files/services/file/filecore.py:136-150 | saving the prefixes of a gap adds exactly those rows and keeps all others |
| `Steps.DeleteIsRemoval` | app/app/files/services/file/filecore.py:161-173 | the three queries of a delete remove exactly the subtree and take its size off its proper ancestors |
| `Steps.EmptyIsRemoval` | app/app/files/services/file/filecore.py:213-223 | spelled as stored, emptying removes exactly what lies below and takes its size off the folder and its ancestors |
| `Steps.EmptyRemovesBelow` | app/app/files/services/file/filecore.py:213-223 | in any spelling emptying removes exactly the rows below and changes nothing else but sizes; with a size of zero, or at the root, it removes nothing |
| `Steps.EmptyKeepsTree` | app/app/files/services/file/filecore.py:213-223 | emptying keeps the tree in any spelling |
| `Steps.EmptyKeepsSizedIff` | app/app/files/services/file/filecore.py:213-223 | emptying keeps correct cached sizes exactly when the size was zero or the row is not the root and spelled as stored |
| `Steps.MiscasedNotEmptied` | app/app/files/services/file/filecore.py:217-222 | a miscased call leaves the folder's cached size although nothing is left below it |
| `Steps.MoveIsRelocation` | app/app/files/services/file/filecore.py:334-371 | update, prefix rename and the two set-difference size updates add up to an exact relocation: prefix swapped at and below the source, id, blob and size kept, every other row only resized |
| `Steps.MoveKeepsTreeIff` | app/app/files/services/file/filecore.py:334-371 | a checked move keeps the tree, and then its sizes, exactly when no other row is at the destination ignoring case, hence always within one namespace |
| `Steps.RelocatedDbUnique` | app/infrastructure/database/tortoise/models.py:124-125 | once the moved row does not violate the exact-path constraint, no row below it does |
| `Steps.MoveBackRestores` | app/app/files/services/file/filecore.py:332-371 | moving back restores every row |
| `Steps.MoveConservesBytes` | app/app/files/services/file/filecore.py:332-371 | a move keeps every file's size and so the total |
| `Trees.RelocatedKeepsTree` | app/app/files/services/file/filecore.py:332-371 | a relocation keeps parents stored exactly and paths unique ignoring case; nothing can lie below a free destination |
| `Trees.RelocatedKeepsSized` | app/app/files/services/file/filecore.py:337-341 | cached recursive sizes stay right on both sides and inside the moved subtree |
| `Trees.RemovedKeepsSized` | app/app/files/services/file/filecore.py:172-173 | cached recursive sizes stay right when a subtree is removed and its size taken off its ancestors |
| `Trees.AddedKeepsSized` | app/app/files/services/file/filecore.py:107 | cached recursive sizes stay right when a row is added and its ancestors grow |
| `Rows.ExactAncestor` | app/infrastructure/database/tortoise/repositories/file.py:212-226 | among the rows of a tree, ancestry ignoring case is exact ancestry, which is why exact-path size updates suffice |
| `Rows.NothingBelowFree` | app/app/files/services/file/filecore.py:311-326 | nothing is stored below a free path |
| `Uploads.CreateFileKeepsTreeIff` | app/app/files/services/file/filecore.py:76-107 | making the parents, saving the file and growing its ancestors keeps the tree, and then its sizes, exactly when the stored part of the parent is spelled as given |
| `FileTable.FileRepository.GetByPath` | app/infrastructure/database/tortoise/repositories/file.py:181-195 | finds a row by path ignoring case, or reports that there is none |
| `FileTable.FileRepository.GetByPathBatch` | app/infrastructure/database/tortoise/repositories/file.py:197-210 | exactly the rows at one of the paths ignoring case, ordered by lower-cased path |
| `FileTable.FileRepository.Delete` | app/infrastructure/database/tortoise/repositories/file.py:67-82 | removes the one row at the path ignoring case |
| `FileTable.FileRepository.DeleteAllWithPrefix` | app/infrastructure/database/tortoise/repositories/file.py:84-95 | removes exactly the namespace's rows whose path starts with the prefix ignoring case |
| `FileTable.FileRepository.IncrSizeBatch` | app/infrastructure/database/tortoise/repositories/file.py:212-226 | adds the value to exactly the rows with an exactly listed path |
| `FileTable.FileRepository.Update` | app/infrastructure/database/tortoise/repositories/file.py:342-361 | relabels one row, refused exactly when the exact-path constraint would break |
| `FileTable.FileRepository.ReplacePathPrefix` | app/infrastructure/database/tortoise/repositories/file.py:271-299 | renames every row below the prefix by replacing its first occurrence, all or nothing |
| `FileTable.FileRepository.Save` | app/infrastructure/database/tortoise/repositories/file.py:301-315 | saves under a fresh id, refused exactly when the exact path is stored |
| `FileTable.FileRepository.SaveBatch` | app/infrastructure/database/tortoise/repositories/file.py:317-340 | saves the rows in order, skipping those whose exact path is stored |
| `Paths.FromStrInverse` | app/app/files/domain/path.py:109-133 | a path's string determines its components |
| `Paths.SameIsStringEquality` | app/app/files/domain/path.py:68-75 | equal ignoring case means equal lower-cased strings |
| `Paths.PrefixIsAncestry` | app/infrastructure/database/tortoise/repositories/file.py:84-95 | "starts with p + /" holds exactly for proper descendants, and never for the root's "./" |
| `Paths.IPrefixIsAncestry` | app/infrastructure/database/tortoise/repositories/file.py:84-95 | the same for the case-insensitive query and ancestry ignoring case |
| `Paths.RelativeIsAncestry` | app/app/files/domain/path.py:145-152 | is_relative_to is exactly: is the path, or has it among its parents, ignoring case |
| `Paths.RelativeIsPartialOrder` | app/app/files/domain/path.py:145-152 | is_relative_to is reflexive, transitive and antisymmetric ignoring case |
| `Paths.RestoredCasingSame` | app/app/files/domain/path.py:154-160 | restoring casing keeps the path ignoring case and makes the given path an exact prefix |
| `Paths.RestoredCasingString` | app/app/files/domain/path.py:154-160 | the string computation yields that path |
| `Paths.ReplaceFirstIsPrefixSwap` | app/infrastructure/database/tortoise/repositories/file.py:281-293 | on a row below the prefix, replacing the first occurrence swaps exactly that prefix |
| `Text.ReplaceAllIsPrefixSwap` | app/infrastructure/database/tortoise/repositories/blob.py:21-26 | REPLACE on a string that starts with the pattern swaps that prefix exactly when the pattern does not occur again |
| `Names.SplitNameCuts` | app/app/files/domain/path.py:167-174 | the suffix of a name is its extension, from the last dot that follows something else than dots, together with the extension before it when it is a compression suffix; stem and suffix put together are the name |
| `Names.NumberGoesAtCut` | app/app/files/services/file/filecore.py:245-247 | the number goes where the name is cut, and the rest stays in place |
| `Names.NumberedTarball` | app/app/files/services/file/filecore.py:233-247 | the second "f.tar.gz" is "f (1).tar.gz" |
| `Names.DecimalReads` | app/app/files/services/file/filecore.py:247 | numbers are written in decimal without leading zeros |
| `Names.AvailableIsFree` | app/app/files/services/file/filecore.py:241-247 | for a plain name whose numbers in use are at most the count, the chosen path is free and choosing again changes nothing |
| `Names.SavingKeepsBounded` | app/app/files/services/file/filecore.py:241-247 | saving the path chosen for a plain name keeps that condition |
| `Names.UploadsGetDistinctPaths` | app/app/files/services/file/filecore.py:241-247 | any number of uploads of one plain name get paths that were free and are pairwise different ignoring case |
| `Listing.ListMatchIsChild` | app/infrastructure/database/tortoise/repositories/file.py:228-238 | the regular expression matches a path exactly when its parent is the folder ignoring case |
| `Listing.RootListing` | app/infrastructure/database/tortoise/repositories/file.py:228-238 | for the home folder it matches the top-level rows and the root's own row |
| `Listing.ListingIsChildren` | app/app/files/services/file/filecore.py:280-285 | a listing is the child relation, plus the root's own row for the home folder |
| `Listing.FolderListing.ListFolder` | app/app/files/services/file/filecore.py:271-285 | exactly the folder's children, each once, folders before files and each kind by lower-cased name; NotFound and NotADirectory exactly when due |
| `Listing.WalkVisitsOnce` | app/app/files/services/file/filecore.py:271-285 | walking a namespace by listings visits every row but the root's own exactly once |
| `Listing.ListFolderWalksOnce` | app/app/files/services/file/filecore.py:271-285 | so does descending, from the home, into every folder that list_folder answers |
| `Blobs.BlobService.Create` | app/app/blobs/services/blob.py:48-61 | content is stored under the key; the row is refused exactly when the key is in the table |
| `Blobs.BlobService.DeleteBatch` | app/app/blobs/services/blob.py:72-90 | the jobs added are exactly one delete for each known blob listed, with its current key, in one message |
| `Blobs.BlobService.MoveBlob` | app/app/blobs/services/blob.py:92-110 | nothing for an unchanged key, refused for a taken one, otherwise one job with the blob's current key |
| `Blobs.BlobService.DeleteAllWithPrefix` | app/app/blobs/services/blob.py:63-70 | one prefix job in one message |
| `Blobs.BlobService.MoveWithPrefix` | app/app/blobs/services/blob.py:112-122 | one prefix job in one message |
| `Blobs.BlobService.ProcessBlobJobs` | app/app/blobs/services/blob.py:139-147 | a message's jobs take effect in the worker's order up to the first that cannot run; when all run, exactly the message's ids are gone from the job table; when one cannot, exactly those before it are gone, it has changed the storage and the table is as they left it |
| `Blobs.BlobService.ProcessDeleteJobs` | app/app/blobs/services/blob.py:149-163 | the batched deletes have the effect of deleting one by one |
| `Blobs.BlobService.ProcessDeletePrefixJobs` | app/app/blobs/services/blob.py:165-172 | every prefix delete takes effect, in order, and exactly their jobs are gone |
| `Blobs.BlobService.ProcessMoveJobs` | app/app/blobs/services/blob.py:174-187 | the moves take effect in order up to the first whose source is missing or whose new key is another blob's; exactly the jobs before it are gone |
| `Blobs.BlobService.ProcessMovePrefixJobs` | app/app/blobs/services/blob.py:189-202 | the prefix moves take effect in order, in storage and table, up to the first that would give two blobs the same key; exactly the jobs before it are gone |
| `Blobs.BatchedDeletes` | app/app/blobs/services/blob.py:149-163 | deleting all keys, then all rows, then all jobs is deleting job by job |
| `Blobs.DeletesForEach` | app/app/blobs/services/blob.py:72-90 | the batch holds each known listed blob once and nothing else |
| `Blobs.SingleJobMessage` | app/app/blobs/services/blob.py:139-147 | a message holding one job applies it and drops it, or, when it cannot run, leaves table and job table alone |
| `Blobs.MessageRan` | app/app/blobs/services/blob.py:139-202 | a message is its jobs in the worker's order, one after the other, up to the first that cannot run: effects, table and job table are those of the jobs before it |
| `Blobs.KindRan` | app/app/blobs/services/blob.py:149-202 | the same for the jobs of one kind |
| `Blobs.KindRunsIff` | app/app/blobs/services/blob.py:149-202 | the jobs of one kind all run exactly when each can run once those before it have |
| `Blobs.MessageRunsIff` | app/app/blobs/services/blob.py:139-147 | a message succeeds exactly when each of its jobs can run in the state it meets; a message of deletes always does |
| `Blobs.DeleteMessageRetry` | app/app/blobs/services/blob.py:149-163 | stopping a message of deletes after any of its storage effects and running it again ends in the same table, storage and job table |
| `BlobStore.CanRunMeans` | app/infrastructure/database/tortoise/models.py:68-70 | deletes always can run; a single-blob move exactly when its source is stored and no other blob has the new key |
| `BlobStore.RekeyFollows` | app/infrastructure/database/tortoise/repositories/blob.py:64-67 | the table's update follows the storage rename on a key exactly when the prefix does not occur again in it |
| `BlobStore.JobKeepsAgreement` | app/app/blobs/services/blob.py:139-202 | from a state where every row's key is stored and keys are distinct, every job with a free destination ends in such a state and moves keep every blob's content |
| `BlobStore.JobFrame` | app/app/blobs/services/blob.py:139-202 | only the targeted keys change |
| `Effects.MoveDirIsRename` | app/infrastructure/storage/s3/storage.py:185-197 | copy all, then delete all, is a one-step prefix rename exactly when no copy lands on a listed key |
| `Retry.RetryReachesSameEnd` | app/app/blobs/services/blob.py:149-202 | stopping a delete, delete-prefix or move-prefix job after any storage effect and running it again ends in the same table, storage and job table, also for a prefix moved onto itself |
| `Retry.SingleMoveRetry` | app/app/blobs/services/blob.py:174-187 | a single-blob move survives a stop exactly when its source is not yet deleted; afterwards every retry fails and the table keeps a missing key |
| `Retry.MoveOntoItself` | app/infrastructure/storage/s3/storage.py:185-197 | moving a directory onto itself, by the contract of a flat key store, deletes it |
| `Retry.EffectsAreApply` | app/app/infrastructure/storage.py:84-173 | the single-key effects of a job, run to the end, are its intended effect |
| `Keys.KeyInjective` | app/app/files/services/file/filecore.py:35-36 | distinct owners or paths have distinct keys |
| `Keys.KeyShape` | app/app/files/services/file/filecore.py:35-36 | a key is the owner, "files" and the path's names, joined by slashes |
| `Keys.UnderPrefix` | app/app/files/services/file/filecore.py:167-169 | a key starts with a folder's key prefix exactly when it is a file strictly below that folder of the same owner |
| `Keys.SwapKey` | app/app/files/services/file/filecore.py:361-364 | swapping key prefixes is swapping path prefixes |
| `Keys.PrefixNotRepeated` | app/infrastructure/database/tortoise/repositories/blob.py:64-67 | when no component contains the owner id, a folder's key prefix does not occur again below it |
| `Keys.PrefixesApart` | app/app/files/services/file/filecore.py:361-364 | the key prefixes of folders that do not contain each other do not contain each other |
| `S3.BatchesCover` | app/infrastructure/storage/s3/clients/async_client.py:112-144 | every listed key is in exactly one request, in order; all requests but the last hold 1000 keys and none is empty |
| `S3.S3Client.Delete` | app/infrastructure/storage/s3/clients/async_client.py:112-125 | deletes exactly the given keys, in the batches above |
| `S3.S3Client.DeleteRecursive` | app/infrastructure/storage/s3/clients/async_client.py:127-144 | deletes exactly the keys under the prefix, flushing every 1000 and the rest at the end |
| `S3.S3Client.MoveDir` | app/infrastructure/storage/s3/storage.py:185-197 | the effects are the copies of all listed keys followed by their deletes |
| `S3.S3Client.Move` | app/infrastructure/storage/s3/storage.py:176-183 | moves one key, or fails and changes nothing when it is missing |
| `S3.ReadChunks` | app/infrastructure/storage/s3/clients/async_client.py:48-55 | the loop yields the full chunks and then a short, possibly empty one |
| `S3.ChunksPartition` | app/infrastructure/storage/s3/clients/async_client.py:48-55 | the chunks concatenate to the content, all but the last are full, and there are size / chunk size + 1 of them |
| `S3.PartLimit` | app/infrastructure/storage/s3/clients/async_client.py:262 | parts are at least 5 MiB and at most 10,000 in number exactly when the size is below 10,000 x 5 MiB |
| `S3.UploadReassembles` | app/infrastructure/storage/s3/clients/async_client.py:256-273 | whatever order the parts finish in, completion sees parts 1..n whose concatenation is the content and whose sizes add up to its size |
| `S3.MultipartUpload.UploadPart` | app/infrastructure/storage/s3/clients/async_client.py:349-365 | records the part under its number |
| `S3.MultipartUpload.Complete` | app/infrastructure/storage/s3/clients/async_client.py:312-336 | the recorded parts in ascending order, each once, and the sum of their sizes |
| `S3.UploadObj` | app/infrastructure/storage/s3/clients/async_client.py:256-273 | the stored object is the content and the reported size its size, for every finishing order |
| `Quota.SpaceUsedIsTrue` | app/infrastructure/database/tortoise/repositories/namespace.py:43-51 | while cached sizes are right, the root sizes the check adds up equal the owner's true total of file sizes, in however many namespaces |
| `Quota.StepRespectsQuota` | app/app/files/usecases/namespace.py:99-106 | no step that keeps the tree takes an owner over the quota; only an upload needs correct cached sizes for that |
| `Quota.QuotaNeverExceeded` | app/app/files/usecases/namespace.py:99-106 | over any run of checked uploads, moves within an owner, deletes and empties that keep the tree and its sizes, an owner's bytes never exceed a quota they started within, whatever is pending |
| `Quota.CreatedBytes` | app/app/files/services/file/filecore.py:92-107 | a file created adds exactly its size to its owner's bytes |
| `Quota.OneCycle` | app/app/files/usecases/namespace.py:169-171 | filling and emptying the trash once leaves its cached size stale |
| `Quota.EmptyTrashBreaksQuota` | app/app/files/usecases/namespace.py:169-171 | after doing so twice the space the check reads is negative, so it admits an upload over the quota |
| `UseCases.NamespaceService.Create` | app/app/files/services/namespace.py:31-50 | a new namespace gets exactly its root and its folder "Trash", and tree and sizes are kept; refused exactly when the name is taken |
| `UseCases.NamespaceService.GetSpaceUsed` | app/infrastructure/database/tortoise/repositories/namespace.py:43-51 | the sum of the owner's root sizes |
| `UseCases.FileService.CreateFile` | app/app/files/services/file/file.py:30-44 | the name is numbered once before the core service numbers it again if need be; the outcome is the core service's for that path |
| `UseCases.NamespaceUseCase.AddFile` | app/app/files/usecases/namespace.py:68-111 | each refusal before the upload has its exact cause, in order, and no effect: the trash, the size, an unknown namespace or account, more than the quota by the space the check reads (exactly filling it passes), a file on the parent's path; otherwise the outcome is create_file's after numbering at most twice. A success adds exactly the content to the owner's bytes, stays within the quota while cached sizes are right, and keeps the tree, and then its sizes, exactly when the parent is spelled as stored and the path left after numbering, or its own next number, was free |
| `UseCases.NamespaceUseCase.MoveItemToTrash` | app/app/files/usecases/namespace.py:266-284 | an item moves directly below the trash under its own name or, when that is taken, with the stamp where the name is cut; MalformedPath exactly for home, trash and a path in the trash that is not stored, NotFound exactly for other paths that are not stored |
| `UseCases.NamespaceUseCase.EmptyTrash` | app/app/files/usecases/namespace.py:169-172 | as called, NotFound exactly without a trash; otherwise the folder is emptied in the miscased spelling: the tree is kept and the job goes to the stored spelling's prefix, and correct cached sizes stay so exactly when the trash's size was zero, and then nothing is deleted |
| `UseCases.NamespaceUseCase.ListFolder` | app/app/files/usecases/namespace.py:226-242 | exactly the folder's children in listing order, folders first; the home listing leaves out the root's own row and the trash |
| `UseCases.TrashMoveAccepted` | app/app/files/usecases/namespace.py:276-282 | a move to the trash is accepted exactly for stored items other than home and trash, unless both names are taken there; each error has its exact cause |
| `UseCases.StampGoesAtCut` | app/app/files/usecases/namespace.py:276-280 | the stamp goes where the name is cut, so the suffix stays last |
| `Tokens.TokenService.Create` | app/app/auth/services/token.py:25-46 | starts a family whose entry is the new token's id |
| `Tokens.TokenService.Rotate` | app/app/auth/services/token.py:48-89 | grants the next token, reports reuse and drops the family's entry, or refuses, as one atomic step of the runs |
| `Tokens.FamilyConstant` | app/app/auth/domain/tokens.py:67-84 | subject, expiry and family of every token are those of the creation that started its family |
| `Tokens.AccessForCreator` | app/app/auth/services/token.py:70 | every access token granted is for the user whose creation started the family, and expires the access lifetime after the call that granted it |
| `Tokens.EntryIsLatest` | app/app/auth/services/token.py:74-85 | a family has an entry exactly while it is issued and not revoked, and it is its latest token's id |
| `Tokens.RotateOutcome` | app/app/auth/services/token.py:69-89 | an unexpired genuine token is accepted exactly when it is the latest of a family never reused; an older one revokes; after a reuse everything is invalid |
| `Tokens.AcceptancesFormChain` | app/app/auth/services/token.py:69-89 | each accepted token is the one the family's previous grant issued, and its successor differs only in its id |
| `Tokens.AcceptedOnce` | app/app/auth/services/token.py:69-89 | no token is accepted twice |
| `Tokens.NothingAfterReuse` | app/app/auth/services/token.py:78-80 | after one reuse nothing in the family is ever accepted again (section 4.14.2 of RFC 9700) |
| `Tokens.ReplayRevokes` | app/app/auth/services/token.py:78-80 | presenting an accepted token again before its expiry leaves the family revoked |
| `Albums.CandidateIsFirst` | app/infrastructure/database/tortoise/repositories/album.py:125-153 | there is a cover candidate exactly when some member is live, and it is one that precedes every live member |
| `Albums.CandidateIsBest` | app/infrastructure/database/tortoise/repositories/album.py:125-153 | the candidate is the live member modified last, of several modified then the one with the lowest id |
| `Albums.RemoveMeans` | app/app/photos/usecases/album.py:101-115 | a removal takes exactly the listed members out of one album and changes no other; a listed cover gives way to the best of those left, never to a listed item, and any other cover stays |
| `Albums.SoftDeleteMeans` | app/app/photos/usecases/media_item.py:66-75 | exactly the owner's listed items are marked and nothing else about any item changes; exactly the owner's albums that showed one get a new cover, the best left |
| `Albums.EraseMeans` | app/app/photos/usecases/media_item.py:77-84 | exactly the given items are gone from the table, the albums and the covers |
| `Albums.AddMeans` | app/app/photos/usecases/album.py:30-43 | exactly the existing ones of the listed items become members of one album, and the first listed one a missing cover |
| `Albums.CoversKeptIff` | app/app/photos/usecases/album.py:39-43 | covers stay none or live members exactly when a first cover is live, a chosen one is a live member, and no other owner's album shows a soft-deleted item |
| `Albums.CoversStayLive` | app/app/photos/usecases/media_item.py:66-75 | over any run of allowed actions on albums of own items every cover is none or a live member |
| `Albums.CountTracksIff` | app/infrastructure/database/tortoise/repositories/album.py:48-51 | items_count keeps matching membership exactly when the added ids are distinct, exist and are not members yet |
| `Albums.CountTracksRemovalIff` | app/infrastructure/database/tortoise/repositories/album.py:200-203 | after a removal items_count keeps matching membership exactly when the removed ids are distinct members |
| `Albums.AlbumRepository.AddItems` | app/infrastructure/database/tortoise/repositories/album.py:40-52 | adds the existing ones of the listed items and counts the listed ids |
| `Albums.AlbumRepository.RemoveItems` | app/infrastructure/database/tortoise/repositories/album.py:192-204 | takes exactly the existing ones of the listed items out of the album, subtracts the number of listed ids and changes nothing else |
| `Albums.AlbumRepository.SetCover` | app/infrastructure/database/tortoise/repositories/album.py:216-226 | sets or clears the cover; refused for an unknown album or an item that does not exist |
| `Albums.AlbumRepository.SetCoverBatch` | app/infrastructure/database/tortoise/repositories/album.py:228-242 | each listed album gets its cover, the last listed one, and nothing else changes |
| `Albums.AlbumRepository.ListCoverCandidates` | app/infrastructure/database/tortoise/repositories/album.py:96-153 | pairs every listed album that has a live member with its candidate, and no other |
| `Albums.AlbumRepository.ListIdsByCoverIds` | app/infrastructure/database/tortoise/repositories/album.py:155-167 | exactly the owner's albums whose cover is listed |
| `Albums.AlbumService.ReassignCovers` | app/app/photos/services/album.py:109-124 | every listed album gets its best live member as cover, or none when no member is live; nothing else changes |
| `Albums.AlbumUseCase.AddAlbumItems` | app/app/photos/usecases/album.py:30-43 | the album gains exactly the existing ones of the listed items, and the first listed one as a missing cover; an item that does not exist undoes the call |
| `Albums.AlbumUseCase.RemoveAlbumItems` | app/app/photos/usecases/album.py:101-115 | exactly the listed members are gone, no other album changes, and a listed cover is replaced by the best of the live members left, or none |
| `Albums.MediaItemUseCase.DeleteBatch` | app/app/photos/usecases/media_item.py:66-75 | soft-deletes exactly the owner's listed items and gives exactly the owner's albums that showed one the best cover left |
| `Albums.MediaItemUseCase.SetDeletedAtBatch` | app/infrastructure/database/tortoise/repositories/media_item.py:141-158 | marks or restores exactly the owner's listed items, changes nothing else about any item and returns them; a restored item is live |
| `Albums.MediaItemUseCase.DeleteImmediatelyBatch` | app/app/photos/usecases/media_item.py:77-84 | erases exactly the owner's listed items with their memberships and covers, and queues one message with a delete job for each of their blobs |
| `Paging.MediaItemService.IterDeleted` | app/app/photos/services/media_item.py:199-215 | over an unchanged table the pages concatenate to the listing, none is empty and all but the last are full |
| `Paging.MediaItemService.Purge` | app/app/photos/usecases/media_item.py:135-139 | deleting each page before asking for the next leaves exactly every second block |
| `Paging.SurvivorsAreOddBlocks` | app/app/photos/usecases/media_item.py:135-139 | the items left are those whose block, counted from zero, is odd |
| `Paging.SurvivorCount` | app/app/photos/usecases/media_item.py:135-139 | of n items in batches of b exactly b * (n / 2b) + max(0, n % 2b - b) are left |
| `Paging.PurgeCompleteIff` | app/app/photos/usecases/media_item.py:135-139 | everything is removed exactly when the items fit in one batch; at least half always are |
| `Paging.FileModel.BackfillFileOwner` | app/infrastructure/database/tortoise/migrations/0013_file_owner_backfill.py:5-20 | terminates with no ownerless file; each file without an owner gets its namespace's owner, the others keep theirs, and no file changes its namespace |
| `Shortfalls.FolderCasing` | app/app/files/services/file/filecore.py:121-149 | making "a/b/c" where "A" is stored saves a row whose parent is not stored |
| `Shortfalls.FolderOrder` | app/infrastructure/database/tortoise/repositories/file.py:205-208 | making "-X" where "-x" is stored is not refused and saves a second row |
| `Shortfalls.FileCasing` | app/app/files/services/file/filecore.py:76-107 | uploading "a/f" where "A" is stored leaves the size of "A" at zero |
| `Shortfalls.CrossNamespaceCollision` | app/app/files/services/file/filecore.py:324-330 | moving "a" to another namespace as "A" is accepted although "a" is stored there |
| `Shortfalls.MovedOntoItsOwnPath` | app/app/files/services/file/filecore.py:304-307 | the folder "a", addressed as "A" and moved to "a", is accepted and loses its files in storage |
| `Shortfalls.PrefixRepeated` | app/infrastructure/database/tortoise/repositories/blob.py:64-67 | below a folder named like the owner's id the table's REPLACE renames twice |
| `Shortfalls.ForeignCover` | app/app/photos/usecases/media_item.py:70-75 | soft-deleting an item leaves it the cover of another owner's album |
| `Shortfalls.CountedTwice` | app/infrastructure/database/tortoise/repositories/album.py:48-51 | adding one item twice in a call counts it twice |
| `Shortfalls.ThreeUploads` | app/app/files/services/file/filecore.py:241-247 | three uploads of "f" leave "f", "f (1)" and "f (2)" |
| `Shortfalls.DeletedNumber` | app/app/files/services/file/filecore.py:245-247 | after "f (1)" is deleted the next upload of "f" overwrites the bytes of "f (2)" and fails |
| `Shortfalls.PatternInName` | app/app/files/services/file/filecore.py:245-247 | for "a+b.txt" no numbered copy is counted, so the upload after the first copy overwrites that copy's bytes and fails |
| `Shortfalls.OnePartTooMany` | app/infrastructure/storage/s3/clients/async_client.py:262 | a content of exactly 10,000 x 5 MiB is cut into one part too many |
| `Shortfalls.PurgeLeavesOne` | app/app/photos/usecases/media_item.py:135-139 | purging three items in batches of one leaves the second |
| `Shortfalls.SharedKeys` | app/app/files/services/file/filecore.py:35-36 | uploading "a" to an owner's second namespace overwrites the bytes of "a" in the first and fails |

## Left out

- FileCore.FileCoreService.GetAvailablePath: says nothing about the count for a name with pattern characters, because the regular expression engine is not modelled; what follows from any count is proved.
- Backend.Backend.MoveItem: says that the refinement is kept by allowed moves, and not that every other move breaks it; a file moved while a job for its blob is pending records a key that goes stale.
- Backend.Backend.DeleteItem: likewise for a file deleted while a job for its blob is pending.
- Backend.Backend.EmptyFolder: takes a path other than the root, whose key prefix ends in "/./": no key starts with it, while an endpoint's path normalisation would make it match all of the owner's keys.
- FileCore.FileCoreService.Delete: takes a path other than the root, as the use case in front of it asserts.
- FileCore.FileCoreService.Move: takes neither the root of one namespace to another nor one owner's namespace to another of theirs, since the only use case moves within a namespace and not the root; `FileCore.FileCoreService.CheckMove` likewise for the root.
- S3.UploadObj: models neither request signing nor retries and aborts, and objects below 5 MiB are stored in one request.
- Effects.MoveDirIsRename: takes all keys to be listed before the first is copied, while `movedir` copies as it lists; the two differ only for prefixes inside each other, which accepted moves exclude.
- Paging.MediaItemService.Purge: takes the listing order of items deleted at the same time as fixed, as the database does not promise.
- Concurrent calls: every operation is one atomic step.
- Photo blobs: media items use date-derived keys in the same blob table; the lagged refinement is about files.
- Directory quirks of the file-system storage: storage is a flat map of keys to bytes.
- `os.path.normpath`: paths are normalised already, so "..", empty components and absolute paths do not occur.
- Case folding beyond ASCII, where lower-casing in Python and in the database may differ.
- Media types, hashes, thumbnails, metadata, dates and the audit trail: they do not influence the tree, the store or the quota.
- JWT signing: a presented token either carries the service's signature, and was then issued by it, or is unreadable.
- Available slugs and renaming of albums: the same numbering argument as for file names.
- Downloads, search, bookmarks, favourites, shared links, users, mail and the HTTP layer: they would add only easy members.
- Blob keys from before the migration to path-derived keys: runs start from an empty system.
