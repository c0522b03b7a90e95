/** The file service: file operations as sequences of queries, with blob jobs queued along the way. */
module FileCore {
  import opened Text
  import opened Paths
  import opened Rows
  import opened Trees
  import opened FileTable
  import opened Folders
  import opened Steps
  import opened Names
  import opened Uploads
  import opened BlobStore
  import opened Retry
  import opened Blobs
  import opened Keys

  predicate OwnersNamed(owners: Owners) {
    forall ns :: ns in owners ==> IsOwner(owners[ns])
  }

  // The same namespace, or namespaces of different owners.
  predicate OwnersApart(owners: Owners, m: string, n: string) {
    m in owners && n in owners && owners[m] == owners[n] ==> m == n
  }

  // Owner ids are well formed and each owner has one namespace.
  ghost predicate OwnersOk(owners: Owners) {
    OwnersNamed(owners) && forall m, n {:trigger OwnersApart(owners, m, n)} :: OwnersApart(owners, m, n)
  }

  // No file lies on the path: its stored prefixes are folders.
  ghost predicate Unblocked(t: Table, ns: string, path: Path) {
    forall i :: OnPath(t, ns, path, i) ==> t[i].IsFolder()
  }

  // The last row on the path, by lower-cased path, is at the path itself.
  ghost predicate EndsAt(t: Table, ns: string, path: Path) {
    exists i :: IsLast(t, ns, path, i) && Same(t[i].path, path)
  }

  class FileCoreService {
    const files: FileRepository
    const blobs: BlobService
    var owners: Owners  // the namespaces and their owners

    ghost predicate Valid()
      reads this, files, blobs
    {
      files.Valid() && blobs.Valid() && Tree(files.rows, owners) && OwnersNamed(owners)
    }

    constructor ()
      ensures Valid() && fresh(files) && fresh(blobs) && fresh(blobs.storage)
      ensures files.rows == map[] && files.nextId == 0 && owners == map[]
      ensures blobs.Sys() == System(Store(map[], map[]), map[]) && blobs.queue == [] && blobs.nextBlob == 0
    {
      files := new FileRepository();
      blobs := new BlobService();
      owners := map[];
    }

    // Queued means: one new message holding this one new job.
    twostate predicate Queued(new p: Payload)
      reads blobs
    {
      && blobs.jobs == old(blobs.jobs)[old(blobs.nextJob) := p]
      && blobs.queue == old(blobs.queue) + [[old(blobs.nextJob)]]
    }

    twostate predicate NothingQueued()
      reads blobs
    {
      blobs.jobs == old(blobs.jobs) && blobs.queue == old(blobs.queue)
    }

    twostate predicate QueuedIf(new p: Option<Payload>)
      reads blobs
    {
      if p.Some? then Queued(p.value) else NothingQueued()
    }

    // The first half of create_folder: which rows to save, or why the path is refused.
    method MissingFolders(ns: string, path: Path) returns (r: Result<seq<Row>>)
      ensures r.Err? ==> r.error in {NotADirectory, AlreadyExists, NotFound}
      ensures r == Err(NotADirectory) <==> !Unblocked(files.rows, ns, path)
      ensures r == Err(AlreadyExists) <==> Unblocked(files.rows, ns, path) && EndsAt(files.rows, ns, path)
      ensures r == Err(NotFound)
              <==> Unblocked(files.rows, ns, path) && !EndsAt(files.rows, ns, path) && ns !in owners
      ensures r.Ok? ==> ns in owners && ToSave(files.rows, ns, owners[ns], path, r.value)
    {
      hide IsLast, OnPath, Same, SortedByPath, AllPrefixes, NewPaths, AtOrBelow, FolderRows, LexLe, ToSave, EndsAt;
      var paths := AllPrefixes(path);
      var index := 0;
      var parents := files.GetByPathBatch(ns, paths);
      BatchIsOnPath(files.rows, ns, path, parents);
      if parents != [] {
        if k :| 0 <= k < |parents| && !parents[k].row.IsFolder() {
          assert OnPath(files.rows, ns, path, parents[k].id);
          return Err(NotADirectory);
        }
        forall i | OnPath(files.rows, ns, path, i) ensures i in files.rows && files.rows[i].IsFolder() {
          OnPathStored(files.rows, ns, path, i);
          assert Stored(i, files.rows[i]) in parents;
        }
        var last := parents[|parents| - 1];
        LastOfBatch(files.rows, ns, path, parents);
        EndsAtLast(files.rows, ns, path, last.id);
        if Same(last.row.path, path) { return Err(AlreadyExists); }
        index := |last.row.path| + 1;
        ShorterOnPath(files.rows, ns, path, last.id);
        paths := paths[|path| := WithRestoredCasing(path, last.row.path)];
        PathsToSave(path, last.row.path);
        ToSaveAfter(files.rows, ns, path, last.id);
      } else {
        assert paths[0..] == paths;
        NothingOnPath(files.rows, ns, path, parents);
        EndsNowhere(files.rows, ns, path);
        ToSaveAll(files.rows, ns, path);
      }
      if ns !in owners { return Err(NotFound); }
      r := Ok(FolderRows(ns, owners[ns], paths[index..]));
    }

    method CreateFolder(ns: string, path: Path) returns (r: Result<Stored>)
      requires files.Valid()
      modifies files
      ensures files.Valid()
      ensures r.Err? ==>
              r.error in {NotADirectory, AlreadyExists, NotFound} && files.rows == old(files.rows)
                && files.nextId == old(files.nextId)
      ensures r == Err(NotADirectory) <==> !Unblocked(old(files.rows), ns, path)
      ensures r == Err(AlreadyExists) <==> Unblocked(old(files.rows), ns, path) && EndsAt(old(files.rows), ns, path)
      ensures r == Err(NotFound)
              <==> Unblocked(old(files.rows), ns, path) && !EndsAt(old(files.rows), ns, path) && ns !in owners
      ensures Tree(old(files.rows), owners) && ns in owners ==>
                (r == Err(AlreadyExists)
                 <==> Unblocked(old(files.rows), ns, path) && Taken(old(files.rows), ns, path) && RootFirst(path))
      ensures r.Ok? ==>
                && ns in owners
                && (exists rows :: ToSave(old(files.rows), ns, owners[ns], path, rows)
                      && files.rows == SavedBatch(old(files.rows), old(files.nextId), rows))
      ensures r.Ok? ==> r.value.id in files.rows && files.rows[r.value.id] == r.value.row && At(r.value.row, ns, path)
    {
      hide IsLast, OnPath, At, SavedBatch, ToSave, EndsAt, Tree, RootFirst, Unblocked;
      if Tree(files.rows, owners) && ns in owners { EndsAtTaken(files.rows, owners, ns, path); }
      var missing := MissingFolders(ns, path);
      if missing.Err? { return Err(missing.error); }
      files.SaveBatch(missing.value);
      SavedPathIsTaken(old(files.rows), old(files.nextId), ns, owners[ns], path, missing.value);
      r := files.GetByPath(ns, path);
    }

    // The regular expression's count; what it makes of a name with pattern characters is left open.
    method CountNumbered(ns: string, path: Path) returns (count: nat)
      ensures Counted(files.rows, ns, path, count)
    {
      if PlainName(path) { count := |Numbered(files.rows, ns, path)|; } else { count := *; }
    }

    method GetAvailablePath(ns: string, path: Path) returns (next: Path, ghost counted: nat)
      ensures Counted(files.rows, ns, path, counted) && next == Available(files.rows, ns, path, counted)
      ensures !Taken(files.rows, ns, path) ==> next == path
      ensures Taken(files.rows, ns, path) && path != [] ==> NumberedAtCut(path, counted + 1, next)
    {
      hide NumberedAtCut, NumberedName, Numbered, Taken, At, PlainName, NameOf;
      var taken := files.ExistsAtPath(ns, path);
      if !taken { return path, 0; }
      var count := CountNumbered(ns, path);
      next, counted := Parent(path) + [NumberedName(path, count + 1)], count;
      if path != [] { NumberGoesAtCut(path, count + 1); }
    }

    // The first step of create_file: look the parent up, creating it when it is missing.
    method EnsureParent(ns: string, parent: Path) returns (r: Result<()>)
      requires files.Valid() && Tree(files.rows, owners)
      modifies files
      ensures files.Valid()
      ensures r == Err(NotADirectory) <==> !Unblocked(old(files.rows), ns, parent)
      ensures r.Err? ==>
              r.error in {NotADirectory, NotFound} && files.rows == old(files.rows)
                && files.nextId == old(files.nextId)
      ensures r == Err(NotFound) <==> Unblocked(old(files.rows), ns, parent) && ns !in owners
      ensures r.Ok? && ns in owners ==> ParentsMade(old(files.rows), old(files.nextId), owners, ns, parent, files.rows)
    {
      hide Tree, OnPath, ToSave, SavedBatch, IsLast, Same;
      var found := files.GetByPath(ns, parent);
      ParentIsFolder(files.rows, owners, ns, parent);
      NotRefused(files.rows, ns, parent);
      if found.Ok? { OnlyRow(files.rows, owners, ns, parent, found.value.id); }
      if found.Ok? { return if found.value.row.IsFolder() then Ok(()) else Err(NotADirectory); }
      var made := CreateFolder(ns, parent);
      r := if made.Ok? then Ok(()) else Err(made.error);
    }

    method CreateFile(ns: string, path: Path, content: Bytes) returns (r: Result<Stored>, ghost counted: nat)
      requires Valid()
      modifies files, blobs, blobs.storage
      ensures files.Valid() && blobs.Valid() && NothingQueued()
      ensures r == Err(NotADirectory) <==> !Unblocked(old(files.rows), ns, Parent(path))
      ensures r == Err(NotFound) <==> Unblocked(old(files.rows), ns, Parent(path)) && ns !in owners
      ensures r.Err? && r.error in {NotADirectory, NotFound} ==>
                files.rows == old(files.rows) && files.nextId == old(files.nextId)
                && blobs.Sys() == old(blobs.Sys()) && blobs.nextBlob == old(blobs.nextBlob)
      ensures Unblocked(old(files.rows), ns, Parent(path)) && ns in owners ==>
                && CreateOutcome(old(files.rows), old(files.nextId), owners, ns, path, counted, content,
                                 old(blobs.Sys()).store, old(blobs.nextBlob), r, files.rows, blobs.Sys().store)
                && blobs.nextBlob == old(blobs.nextBlob) + if r == Err(IntegrityError) then 0 else 1
      ensures Unblocked(old(files.rows), ns, Parent(path)) && ns in owners ==>
                var next := Available(old(files.rows), ns, path, counted);
                var key := StorageKey(owners[ns], next);
                && blobs.storage.objects == old(blobs.storage.objects)[key := content]
                && (r == Err(IntegrityError) <==> key in old(blobs.table).Values)
                && (r == Err(AlreadyExists)
                    <==> key !in old(blobs.table).Values && StoredExactly(old(files.rows), ns, next))
                && (r.Err? ==> r.error in {IntegrityError, AlreadyExists})
                && (r.Ok? ==>
                      r.value.row == Row(ns, owners[ns], next, NameOf(next), Some(old(blobs.nextBlob)), |content|))
                && blobs.table == if r == Err(IntegrityError) then old(blobs.table)
                                  else old(blobs.table)[old(blobs.nextBlob) := key]
      ensures r.Ok? ==>
                (Tree(files.rows, owners)
                 <==> SpelledAsStored(old(files.rows), ns, Parent(path))
                      && FreeNumber(old(files.rows), ns, path, counted))
      ensures r.Ok? && Sized(old(files.rows)) && Tree(files.rows, owners) ==> Sized(files.rows)
    {
      hide Tree, OnPath, Unblocked, ParentsMade, Available, Counted, FreeNumber, SpelledAsStored, OwnersNamed, Parent;
      hide StorageKey;
      hide AddSteps, CreatedFile, CreateOutcome, CreateFrom, NumberedName, Taken, Sized;
      ghost var t, id, store, blob0 := files.rows, files.nextId, blobs.Sys().store, blobs.nextBlob;
      counted := 0;
      var made := EnsureParent(ns, Parent(path));
      if made.Err? { return Err(made.error), 0; }
      ghost var t1 := files.rows;
      var next, count := GetAvailablePath(ns, path);
      counted := count;
      var ok, blob := blobs.Create(StorageKey(owners[ns], next), content);
      if !ok {
        r := Err(IntegrityError);
      } else {
        r := files.Save(Row(ns, owners[ns], next, NameOf(next), Some(blob), |content|));
        if r.Ok? { files.IncrSizeBatch(ns, Parents(next), |content|); }
      }
      CreatedFrom(t1, owners[ns], ns, next, content, store, blob0, r, files.rows, blobs.Sys().store);
      OutcomeVia(t, id, owners, ns, path, counted, content, store, blob0, r, files.rows, blobs.Sys().store, t1);
      OutcomeMeans(t, id, owners, ns, path, counted, content, store, blob0, r, files.rows, blobs.Sys().store);
      if r.Ok? {
        OutcomeCreated(t, id, owners, ns, path, counted, content, store, blob0, r, files.rows, blobs.Sys().store);
        CreatedKeepsTreeIff(t, id, owners, ns, path, counted, blob, |content|, r.value, files.rows);
      }
    }

    method Delete(ns: string, path: Path) returns (r: Result<Stored>)
      requires Valid() && path != []
      modifies files`rows, blobs`jobs, blobs`queue, blobs`nextJob
      ensures Valid() && (Sized(old(files.rows)) ==> Sized(files.rows))
      ensures r.Err? <==> !Taken(old(files.rows), ns, path)
      ensures r.Err? ==> r.error == NotFound && files.rows == old(files.rows) && NothingQueued()
      ensures r.Ok? ==> Found(old(files.rows), ns, path, r.value)
      ensures r.Ok? ==> files.rows == Removed(old(files.rows), ns, r.value.row.path, true, r.value.row.size)
      ensures r.Ok? ==> QueuedIf(DeleteJob(r.value.row, blobs.table))
      ensures blobs.table == old(blobs.table)
    {
      hide Same, Unique, Closed, Labelled, Sized, Rooted, Removed, DeletesFor, Saved, KeyPrefix, StorageKey, Str;
      hide Parents, OwnersNamed;
      hide IncrementedAll, Dropped, Movable, Taken, Ids;
      ghost var t := files.rows;
      r := files.Delete(ns, path);
      if r.Err? { return; }
      var file := r.value.row;
      OnlyRow(t, owners, ns, path, r.value.id);
      OwnerKnown(t, owners, r.value.id);
      DeleteKeepsTree(t, owners, r.value.id, path);
      if file.IsFolder() {
        files.DeleteAllWithPrefix(ns, Str(path) + "/");
        blobs.DeleteAllWithPrefix(KeyPrefix(owners[ns], file.path));
      } else {
        SingleDelete(file.blob.value, blobs.table, blobs.jobs, blobs.nextJob);
        blobs.DeleteBatch([file.blob.value]);
      }
      files.IncrSizeBatch(ns, Parents(file.path), -file.size);
      assert files.rows == DeleteSteps(t, r.value.id, path);
    }

    method EmptyFolder(ns: string, path: Path) returns (r: Result<()>)
      requires Valid()
      modifies files`rows, blobs`jobs, blobs`queue, blobs`nextJob
      ensures Valid() && blobs.table == old(blobs.table)
      ensures r.Err? <==> !Taken(old(files.rows), ns, path)
      ensures r.Err? ==> r.error == NotFound && files.rows == old(files.rows) && NothingQueued()
      ensures forall i :: r.Ok? && i in old(files.rows) && At(old(files.rows)[i], ns, path) ==>
                var f := old(files.rows)[i];
                && files.rows == EmptySteps(old(files.rows), i, path)
                && (if f.size == 0 then NothingQueued() else Queued(DeletePrefix(KeyPrefix(owners[ns], f.path))))
                && (Sized(old(files.rows)) ==> (Sized(files.rows) <==> f.size == 0 || (path == f.path && path != [])))
    {
      hide Same, Unique, Closed, Labelled, Sized, Rooted, KeyPrefix, StorageKey, Str, Parents, OwnersNamed;
      hide IncrementedAll, Dropped, Movable, Taken;
      ghost var t := files.rows;
      var found := files.GetByPath(ns, path);
      if found.Err? { return Err(found.error); }
      var file := found.value.row;
      OnlyRow(t, owners, ns, path, found.value.id);
      EmptyKeepsTree(t, owners, found.value.id, path);
      if Sized(t) { EmptyKeepsSizedIff(t, owners, found.value.id, path); }
      if file.size == 0 { return Ok(()); }
      files.DeleteAllWithPrefix(ns, Str(path) + "/");
      files.IncrSizeBatch(ns, Parents(file.path) + {path}, -file.size);
      blobs.DeleteAllWithPrefix(KeyPrefix(owners[ns], file.path));
      assert files.rows == EmptySteps(t, found.value.id, path);
      return Ok(());
    }

    // The checks of move, in order; the destination's parent gets its stored casing.
    method CheckMove(atNs: string, at: Path, toNs: string, to: Path) returns (r: Result<(Stored, Path)>)
      requires Tree(files.rows, owners) && (atNs == toNs || at != [])
      ensures r == Err(MalformedPath) <==> IntoItself(atNs, at, toNs, to)
      ensures r == Err(NotFound) <==> !IntoItself(atNs, at, toNs, to) && !Taken(files.rows, atNs, at)
      ensures r == Err(MissingParent) <==>
              && !IntoItself(atNs, at, toNs, to) && Taken(files.rows, atNs, at)
              && !Taken(files.rows, toNs, Parent(to))
      ensures r == Err(NotADirectory) <==>
              && !IntoItself(atNs, at, toNs, to) && Taken(files.rows, atNs, at)
              && FileAt(files.rows, toNs, Parent(to))
      ensures r == Err(AlreadyExists) <==>
              && !IntoItself(atNs, at, toNs, to) && Taken(files.rows, atNs, at)
              && Taken(files.rows, toNs, Parent(to)) && !FileAt(files.rows, toNs, Parent(to))
              && !Same(at, to) && Taken(files.rows, toNs, to)
      ensures MoveError(files.rows, atNs, at, toNs, to).Some? ==>
              r == Err(MoveError(files.rows, atNs, at, toNs, to).value)
      ensures MoveError(files.rows, atNs, at, toNs, to).None? ==>
                r.Ok? && Accepted(files.rows, atNs, at, toNs, to, r.value.0, r.value.1)
    {
      hide Unique, Closed, Labelled, Rooted, Sized, Same, SortedByPath, HasFolder, Restored, IsRelativeTo, AtOrBelow;
      hide Str;
      MalformedMeaning(at, to);
      MoveErrorMeans(files.rows, atNs, at, toNs, to);
      if atNs == toNs {
        var caseChanged := Same(at, to) && Str(at) != Str(to);
        if !caseChanged && IsRelativeTo(to, at) { return Err(MalformedPath); }
      }
      var file := files.GetByPath(atNs, at);
      if file.Err? { return Err(NotFound); }
      var found := files.GetByPathBatch(toNs, [to, Parent(to)]);
      FoundAre(files.rows, toNs, to, found);
      if k :| 0 <= k < |found| && Same(found[k].row.path, Parent(to)) {
        var nextParent := found[k];
        OneParent(files.rows, owners, toNs, Parent(to), nextParent.id);
        if !nextParent.row.IsFolder() { return Err(NotADirectory); }
        if !Same(at, to) && exists l :: 0 <= l < |found| && Same(found[l].row.path, to) { return Err(AlreadyExists); }
        DestinationNamed(files.rows, owners, atNs, at, toNs, to, file.value.id);
        var next := nextParent.row.path + [to[|to| - 1]];
        RestoredDestination(files.rows, toNs, to, nextParent.id);
        return Ok((file.value, next));
      }
      return Err(MissingParent);
    }

    // _move: relabel the row, queue the blob job, rename what is below it and adjust the ancestors' sizes.
    method MoveRow(file: Stored, toNs: string, to: Path) returns (r: Result<Stored>)
      requires Valid() && toNs in owners && OwnersApart(owners, file.row.ns, toNs)
      requires Found(files.rows, file.row.ns, file.row.path, file) && Checked(files.rows, file.id, toNs, to)
      modifies files`rows, blobs`jobs, blobs`queue, blobs`nextJob
      ensures files.Valid() && blobs.Valid() && blobs.table == old(blobs.table)
      ensures r.Err? ==> files.rows == old(files.rows) && NothingQueued()
      ensures r.Ok? ==> r.value.id == file.id && r.value.row.path == to
      ensures r.Ok? ==>
              files.rows
                == Relocated(old(files.rows), file.row.ns, file.row.path, toNs, owners[toNs], to, file.row.size)
      ensures r.Ok? ==> (Tree(files.rows, owners) <==> NothingElseAt(old(files.rows), toNs, to, file.id))
      ensures r.Ok? && Sized(old(files.rows)) && Tree(files.rows, owners) ==> Sized(files.rows)
      ensures r.Ok? ==> QueuedIf(MoveJob(file.row, owners[toNs], to, blobs.table))
      ensures r == Err(IntegrityError) <==> ExactlyTaken(old(files.rows), toNs, to, file.id)
      ensures r == Err(BlobNotFound) <==>
              !ExactlyTaken(old(files.rows), toNs, to, file.id) && BlobUnknown(file.row, blobs.table)
      ensures r == Err(BlobAlreadyExists) <==>
              && !ExactlyTaken(old(files.rows), toNs, to, file.id)
              && KeyOfOther(file.row, StorageKey(owners[toNs], to), blobs.table)
      ensures r.Err? ==> r.error in {IntegrityError, BlobNotFound, BlobAlreadyExists}
    {
      hide Unique, Closed, Labelled, Rooted, Sized, Same, Relocated, KeyPrefix, StorageKey, Str, DbUnique, Checked;
      hide HasFolder, Movable;
      hide OwnersNamed, PrefixReplaced, IncrementedAll, ToDecrease, ToIncrease, NothingElseAt, ExactlyTaken;
      ghost var t := files.rows;
      var savepoint := files.rows;
      var i, atNs, at, size := file.id, file.row.ns, file.row.path, file.row.size;
      var toDecrease, toIncrease := ToDecrease(atNs == toNs, at, to), ToIncrease(atNs == toNs, at, to);
      PlanMove(t, owners, i, toNs, to);
      var ok := files.Update(i, toNs, if toNs == atNs then file.row.owner else owners[toNs], NameOf(to), to);
      if !ok { return Err(IntegrityError); }
      r := Ok(Stored(i, files.rows[i]));
      if file.row.IsFolder() {
        blobs.MoveWithPrefix(KeyPrefix(owners[atNs], at), KeyPrefix(owners[toNs], to));
        ok := files.ReplacePathPrefix(atNs, at, toNs, owners[toNs], to);
        assert ok;
      } else {
        var moved := blobs.MoveBlob(file.row.blob.value, StorageKey(owners[toNs], to));
        if moved.Err? {
          files.Rollback(savepoint);
          return Err(moved.error);
        }
      }
      files.IncrSizeBatch(atNs, toDecrease, -size);
      files.IncrSizeBatch(toNs, toIncrease, size);
      assert files.rows == MoveSteps(t, i, toNs, owners[toNs], to);
    }

    method Move(atNs: string, at: Path, toNs: string, to: Path) returns (r: Result<Stored>)
      requires Valid() && (atNs == toNs || at != []) && OwnersApart(owners, atNs, toNs)
      modifies files`rows, blobs`jobs, blobs`queue, blobs`nextJob
      ensures files.Valid() && blobs.Valid() && blobs.table == old(blobs.table)
      ensures r.Err? ==> files.rows == old(files.rows) && NothingQueued()
      ensures r == Err(MalformedPath) <==> IntoItself(atNs, at, toNs, to)
      ensures r == Err(NotFound) <==> !IntoItself(atNs, at, toNs, to) && !Taken(old(files.rows), atNs, at)
      ensures r == Err(MissingParent) <==>
              && !IntoItself(atNs, at, toNs, to) && Taken(old(files.rows), atNs, at)
              && !Taken(old(files.rows), toNs, Parent(to))
      ensures r == Err(NotADirectory) <==>
              && !IntoItself(atNs, at, toNs, to) && Taken(old(files.rows), atNs, at)
              && FileAt(old(files.rows), toNs, Parent(to))
      ensures r == Err(AlreadyExists) <==>
              && !IntoItself(atNs, at, toNs, to) && Taken(old(files.rows), atNs, at)
              && Taken(old(files.rows), toNs, Parent(to)) && !FileAt(old(files.rows), toNs, Parent(to))
              && !Same(at, to) && Taken(old(files.rows), toNs, to)
      ensures r == Err(IntegrityError) ==> atNs != toNs && Same(at, to) && Taken(old(files.rows), toNs, to)
      ensures r.Err? ==>
              r.error in {MalformedPath, NotFound, MissingParent, NotADirectory, AlreadyExists, IntegrityError,
                          BlobNotFound, BlobAlreadyExists}
      ensures MoveError(old(files.rows), atNs, at, toNs, to).Some? ==>
              r == Err(MoveError(old(files.rows), atNs, at, toNs, to).value)
      ensures r.Ok? ==> MovedTo(old(files.rows), owners, atNs, at, toNs, to, r.value.id, r.value.row.path, files.rows)
      ensures r.Ok? && (atNs == toNs || !Same(at, to) || !Taken(old(files.rows), toNs, to)) ==> Valid()
      ensures r.Ok? && Valid() && Sized(old(files.rows)) ==> Sized(files.rows)
      ensures r.Ok? ==> QueuedIf(MoveJobAt(old(files.rows), r.value.id, owners, toNs, r.value.row.path, blobs.table))
    {
      hide Unique, Closed, Labelled, Rooted, Sized, Same, Relocated, MoveError, Accepted, Checked, KeyPrefix;
      hide StorageKey, Restored, NothingElseAt, ExactlyTaken, Taken, FileAt, IntoItself;
      ghost var t := files.rows;
      MoveErrorMeans(t, atNs, at, toNs, to);
      var checked := CheckMove(atNs, at, toNs, to);
      if checked.Err? { return Err(checked.error); }
      var (file, next) := checked.value;
      AcceptedIsChecked(t, owners, atNs, at, toNs, to, file, next);
      assert Restored(t, toNs, to, next);
      OthersTaken(t, toNs, next, file.id);
      r := MoveRow(file, toNs, next);
    }
  }

  // To itself or below itself; a path that differs in casing only is let through.
  predicate IntoItself(atNs: string, at: Path, toNs: string, to: Path) {
    atNs == toNs && AtOrBelow(at, to) && (Same(at, to) ==> at == to)
  }

  ghost predicate FileAt(t: Table, ns: string, p: Path) {
    exists i :: i in t && At(t[i], ns, p) && !t[i].IsFolder()
  }

  // When each check of move is the first to fail.
  lemma MoveErrorMeans(t: Table, atNs: string, at: Path, toNs: string, to: Path)
    ensures var e := MoveError(t, atNs, at, toNs, to);
            && (e == Some(MalformedPath) <==> IntoItself(atNs, at, toNs, to))
            && (e == Some(NotFound) <==> !IntoItself(atNs, at, toNs, to) && !Taken(t, atNs, at))
            && (e == Some(MissingParent) <==>
                !IntoItself(atNs, at, toNs, to) && Taken(t, atNs, at) && !Taken(t, toNs, Parent(to)))
            && (e == Some(NotADirectory) <==>
                !IntoItself(atNs, at, toNs, to) && Taken(t, atNs, at) && FileAt(t, toNs, Parent(to)))
            && (e == Some(AlreadyExists) <==>
                && !IntoItself(atNs, at, toNs, to) && Taken(t, atNs, at)
                && Taken(t, toNs, Parent(to)) && !FileAt(t, toNs, Parent(to)) && !Same(at, to) && Taken(t, toNs, to))
            && (e.Some? ==> e.value in {MalformedPath, NotFound, MissingParent, NotADirectory, AlreadyExists})
  {
  }

  lemma OthersTaken(t: Table, ns: string, p: Path, i: nat)
    ensures NothingElseAt(t, ns, p, i) ==> !ExactlyTaken(t, ns, p, i)
  {
    SameReflexive(p);
    if j :| j in t && j != i && t[j].ns == ns && t[j].path == p { assert At(t[j], ns, p); }
  }

  // The first check of move that fails, if any.
  ghost function MoveError(t: Table, atNs: string, at: Path, toNs: string, to: Path): Option<FileError> {
    if atNs == toNs && AtOrBelow(at, to) && !(Same(at, to) && at != to) then Some(MalformedPath)
    else if !Taken(t, atNs, at) then Some(NotFound)
    else if !Taken(t, toNs, Parent(to)) then Some(MissingParent)
    else if exists j :: j in t && At(t[j], toNs, Parent(to)) && !t[j].IsFolder() then Some(NotADirectory)
    else if !Same(at, to) && Taken(t, toNs, to) then Some(AlreadyExists)
    else None
  }

  // What move hands to _move: the source row, and the destination with its parent spelled as stored.
  ghost predicate Accepted(t: Table, atNs: string, at: Path, toNs: string, to: Path, file: Stored, next: Path) {
    && Found(t, atNs, at, file)
    && Restored(t, toNs, to, next)
    && MoveError(t, atNs, at, toNs, to).None?
  }

  // The destination as it is stored: the parent exactly as its row spells it, the name as given.
  ghost predicate Restored(t: Table, ns: string, to: Path, next: Path) {
    to != [] && next != [] && HasFolder(t, ns, Parent(next)) && Same(next, to) && NameOf(next) == NameOf(to)
  }

  ghost predicate MovedTo(t: Table, owners: Owners, atNs: string, at: Path, toNs: string, to: Path, i: nat,
                          next: Path, t': Table) {
    && i in t && At(t[i], atNs, at) && toNs in owners && Restored(t, toNs, to, next)
    && t' == Relocated(t, atNs, t[i].path, toNs, owners[toNs], next, t[i].size)
  }

  // Nothing but row i is at the path, ignoring case.
  ghost predicate NothingElseAt(t: Table, ns: string, p: Path, i: nat) {
    forall j :: j in t && At(t[j], ns, p) ==> j == i
  }

  // Another row has exactly this path.
  ghost predicate ExactlyTaken(t: Table, ns: string, p: Path, i: nat) {
    exists j :: j in t && j != i && t[j].ns == ns && t[j].path == p
  }

  predicate BlobUnknown(r: Row, table: map<nat, string>) {
    !r.IsFolder() && r.blob.value !in table
  }

  // The file's blob has another key, and this one is taken.
  predicate KeyOfOther(r: Row, key: string, table: map<nat, string>) {
    !r.IsFolder() && r.blob.value in table && table[r.blob.value] != key && key in table.Values
  }

  ghost predicate Found(t: Table, ns: string, path: Path, f: Stored) {
    f.id in t && t[f.id] == f.row && At(f.row, ns, path)
  }

  lemma MalformedMeaning(at: Path, to: Path)
    ensures IsRelativeTo(to, at) <==> AtOrBelow(at, to)
    ensures Str(at) == Str(to) <==> at == to
  {
    RelativeIsAncestry(to, at);
    if Str(at) == Str(to) { StrInjective(at, to); }
  }

  lemma FoundAre(t: Table, ns: string, to: Path, found: seq<Stored>)
    requires forall s :: s in found ==>
             s.id in t && t[s.id] == s.row && exists p :: p in [to, Parent(to)] && At(s.row, ns, p)
    requires forall i, p :: i in t && p in [to, Parent(to)] && At(t[i], ns, p) ==> Stored(i, t[i]) in found
    ensures forall k :: 0 <= k < |found| ==> found[k].id in t && t[found[k].id] == found[k].row && found[k].row.ns == ns
    ensures Taken(t, ns, Parent(to)) <==> exists k :: 0 <= k < |found| && Same(found[k].row.path, Parent(to))
    ensures Taken(t, ns, to) <==> exists k :: 0 <= k < |found| && Same(found[k].row.path, to)
  {
    forall k | 0 <= k < |found| ensures found[k].id in t && t[found[k].id] == found[k].row && found[k].row.ns == ns {
      assert found[k] in found;
    }
    forall p | p in [to, Parent(to)]
      ensures Taken(t, ns, p) <==> exists k :: 0 <= k < |found| && Same(found[k].row.path, p)
    {
      if i :| i in t && At(t[i], ns, p) {
        var k :| 0 <= k < |found| && found[k] == Stored(i, t[i]);
        assert Same(found[k].row.path, p);
      }
      if k :| 0 <= k < |found| && Same(found[k].row.path, p) {
        assert At(t[found[k].id], ns, p);
      }
    }
    assert Parent(to) in [to, Parent(to)] && to in [to, Parent(to)];
  }

  lemma OneParent(t: Table, owners: Owners, ns: string, p: Path, k: nat)
    requires Tree(t, owners) && k in t && t[k].ns == ns && Same(t[k].path, p)
    ensures forall j :: j in t && At(t[j], ns, p) ==> j == k
    ensures At(t[k], ns, p)
  {
    OnlyRow(t, owners, ns, p, k);
  }

  // A destination that passes the checks is not the root.
  lemma DestinationNamed(t: Table, owners: Owners, atNs: string, at: Path, toNs: string, to: Path, i: nat)
    requires Tree(t, owners) && (atNs == toNs || at != []) && i in t && At(t[i], atNs, at)
    requires Taken(t, toNs, Parent(to)) && (!Same(at, to) ==> !Taken(t, toNs, to))
    requires !(atNs == toNs && AtOrBelow(at, to) && !(Same(at, to) && at != to))
    ensures to != []
  {
    if to == [] {
      assert Taken(t, toNs, to);
      SameLengths(at, to);
    }
  }

  lemma RestoredDestination(t: Table, ns: string, to: Path, k: nat)
    requires k in t && t[k].ns == ns && Same(t[k].path, Parent(to)) && t[k].IsFolder() && to != []
    ensures Restored(t, ns, to, t[k].path + [to[|to| - 1]])
  {
    var next := t[k].path + [to[|to| - 1]];
    assert Parent(next) == t[k].path;
    FoldConcat(t[k].path, [to[|to| - 1]]);
    FoldConcat(Parent(to), [to[|to| - 1]]);
    assert to == Parent(to) + [to[|to| - 1]];
    assert HasFolder(t, ns, Parent(next));
  }

  lemma AcceptedIsChecked(t: Table, owners: Owners, atNs: string, at: Path, toNs: string, to: Path, file: Stored,
                          next: Path)
    requires Tree(t, owners) && (atNs == toNs || at != []) && Accepted(t, atNs, at, toNs, to, file, next)
    ensures Checked(t, file.id, toNs, next) && toNs in owners && file.row.ns == atNs && Restored(t, toNs, to, next)
    ensures Found(t, atNs, at, file) && Found(t, file.row.ns, file.row.path, file)
    ensures atNs == toNs || !Same(at, to) || !Taken(t, toNs, to) ==> NothingElseAt(t, toNs, next, file.id)
  {
    hide Unique, Closed, Labelled, Rooted, Sized, Same, HasFolder;
    NotMovedRoot(t, owners, atNs, at, toNs, to, file.id);
    ParentKnown(t, owners, toNs, next);
    FoldEqual(t[file.id].path, at);
    FoldEqual(next, to);
    FoldEqual(at, to);
    FoldEqual(t[file.id].path, next);
    if atNs == toNs || !Same(at, to) || !Taken(t, toNs, to) {
      forall j | j in t && At(t[j], toNs, next) ensures j == file.id {
        MoveTarget(t, owners, atNs, at, toNs, to, file.id, next, j);
      }
    }
  }

  // What stands at the destination can only be the moved row.
  lemma MoveTarget(t: Table, owners: Owners, atNs: string, at: Path, toNs: string, to: Path, i: nat, next: Path, j: nat)
    requires Tree(t, owners) && i in t && At(t[i], atNs, at) && Same(next, to)
    requires !Same(at, to) ==> !Taken(t, toNs, to)
    requires atNs == toNs || !Same(at, to) || !Taken(t, toNs, to)
    requires j in t && At(t[j], toNs, next)
    ensures j == i
  {
    hide Tree;
    assert At(t[j], toNs, to);
    OnlyRow(t, owners, atNs, at, i);
  }

  lemma FoldEqual(p: Path, q: Path)
    ensures Same(p, q) <==> Fold(p) == Fold(q)
    ensures Same(p, p)
  {
  }

  lemma ParentKnown(t: Table, owners: Owners, ns: string, p: Path)
    requires Labelled(t, owners) && HasFolder(t, ns, Parent(p))
    ensures ns in owners
  {
  }

  lemma NotMovedRoot(t: Table, owners: Owners, atNs: string, at: Path, toNs: string, to: Path, i: nat)
    requires i in t && At(t[i], atNs, at) && (atNs == toNs || at != []) && to != []
    requires !(atNs == toNs && AtOrBelow(at, to) && !(Same(at, to) && at != to))
    ensures t[i].path != []
  {
    SameLengths(t[i].path, at);
    SameLengths(at, to);
    if at == [] { PrefixFolds([], to); }
  }

  // The prefixes of a checked folder move: the same, or neither inside the other.
  lemma PrefixesMovable(t: Table, owners: Owners, i: nat, ns: string, to: Path)
    requires Tree(t, owners) && OwnersNamed(owners) && ns in owners && i in t && Checked(t, i, ns, to)
    requires OwnersApart(owners, t[i].ns, ns)
    ensures Movable(KeyPrefix(owners[t[i].ns], t[i].path), KeyPrefix(owners[ns], to))
  {
    var at := t[i].path;
    if ns != t[i].ns || at != to {
      if ns == t[i].ns {
        assert at <= to && |at| == |to| ==> at == to;
        SameLengths(at, to);
        if at <= to { PrefixFolds(at, to); }
        if to <= at && to != at {
          var k := AncestorStored(t, i, |to|);
          assert t[k].path == to;
          SameReflexive(to);
          assert At(t[k], ns, to);
        }
      }
      PrefixesApart(owners[t[i].ns], at, owners[ns], to);
    }
  }

  /** The plan of a checked move: where the database refuses, where it does not, and what the queries add up to. */
  lemma PlanMove(t: Table, owners: Owners, i: nat, ns: string, to: Path)
    requires Tree(t, owners) && OwnersNamed(owners) && ns in owners && i in t && Checked(t, i, ns, to)
    requires OwnersApart(owners, t[i].ns, ns)
    ensures Movable(KeyPrefix(owners[t[i].ns], t[i].path), KeyPrefix(owners[ns], to))
    ensures DbUnique(Relabelled(t, i, ns, owners[ns], to)) <==> !ExactlyTaken(t, ns, to, i)
    ensures DbUnique(Relabelled(t, i, ns, owners[ns], to)) ==>
              DbUnique(PrefixReplaced(Relabelled(t, i, ns, owners[ns], to), t[i].ns, t[i].path, ns, owners[ns], to))
              || !t[i].IsFolder()
    ensures MoveSteps(t, i, ns, owners[ns], to) == Relocated(t, t[i].ns, t[i].path, ns, owners[ns], to, t[i].size)
    ensures Tree(MoveSteps(t, i, ns, owners[ns], to), owners) <==> NothingElseAt(t, ns, to, i)
    ensures Sized(t) && NothingElseAt(t, ns, to, i) ==> Sized(MoveSteps(t, i, ns, owners[ns], to))
    ensures MoveSteps(t, i, ns, owners[ns], to).Keys == t.Keys
    ensures t[i].ns in owners && t[i].owner == owners[t[i].ns]
  {
    hide Unique, Closed, Labelled, Rooted, Sized, Checked, Movable, DbUnique, OwnersNamed, KeyPrefix, Relabelled;
    hide Relocated, PrefixReplaced;
    hide MoveSteps;
    PrefixesMovable(t, owners, i, ns, to);
    RelabelledUnique(t, i, ns, owners[ns], to);
    MoveIsRelocation(t, owners, i, ns, to);
    MoveKeepsTreeIff(t, owners, i, ns, to);
    OwnerKnown(t, owners, i);
    RelocatedKeys(t, i, ns, owners[ns], to);
    if DbUnique(Relabelled(t, i, ns, owners[ns], to)) && t[i].IsFolder() {
      ReplaceAccepted(t, owners, i, ns, to);
    }
  }

  lemma RelocatedKeys(t: Table, i: nat, ns: string, owner: string, to: Path)
    requires i in t
    ensures Relocated(t, t[i].ns, t[i].path, ns, owner, to, t[i].size).Keys == t.Keys
  {
  }

  // Renaming what lies below the moved folder cannot violate the database's constraint.
  lemma ReplaceAccepted(t: Table, owners: Owners, i: nat, ns: string, to: Path)
    requires Tree(t, owners) && ns in owners && i in t && Checked(t, i, ns, to) && t[i].IsFolder()
             && !ExactlyTaken(t, ns, to, i)
    ensures DbUnique(PrefixReplaced(Relabelled(t, i, ns, owners[ns], to), t[i].ns, t[i].path, ns, owners[ns], to))
  {
    hide Unique, Closed, Labelled, Rooted, Sized, Checked, DbUnique, Relabelled, Relocated, PrefixReplaced, ToDecrease;
    hide ToIncrease, IncrementedAll;
    MoveIsRelocation(t, owners, i, ns, to);
    RelocatedDbUnique(t, i, ns, owners[ns], to, t[i].size);
    var t2 := PrefixReplaced(Relabelled(t, i, ns, owners[ns], to), t[i].ns, t[i].path, ns, owners[ns], to);
    ReplacedPlaces(t2, t[i].ns, ToDecrease(t[i].ns == ns, t[i].path, to), ns,
                   ToIncrease(t[i].ns == ns, t[i].path, to), t[i].size);
    SamePlacesUnique(t2, MoveSteps(t, i, ns, owners[ns], to));
  }

  lemma OwnerKnown(t: Table, owners: Owners, i: nat)
    requires Labelled(t, owners) && i in t
    ensures t[i].ns in owners && t[i].owner == owners[t[i].ns]
  {
  }

  lemma ReplacedPlaces(t: Table, m: string, dec: set<Path>, n: string, inc: set<Path>, size: int)
    ensures SamePlaces(t, IncrementedAll(IncrementedAll(t, m, dec, -size), n, inc, size))
  {
  }

  lemma DeleteKeepsTree(t: Table, owners: Owners, i: nat, path: Path)
    requires Tree(t, owners) && i in t && Same(t[i].path, path) && path != []
    ensures DeleteSteps(t, i, path) == Removed(t, t[i].ns, t[i].path, true, t[i].size)
    ensures Tree(DeleteSteps(t, i, path), owners) && (Sized(t) ==> Sized(DeleteSteps(t, i, path)))
    ensures forall j :: j in DeleteSteps(t, i, path) ==> j in t
  {
    hide Unique, Closed, Labelled, Rooted, Sized, DeleteSteps;
    DeleteIsRemoval(t, i, path);
    SameLengths(t[i].path, path);
    RemovedKeepsTree(t, owners, t[i].ns, t[i].path, true, t[i].size);
    if Sized(t) { RemovedKeepsSized(t, i, true); }
  }

  lemma SingleDelete(b: nat, table: map<nat, string>, jobs: map<nat, Payload>, first: nat)
    ensures DeletesFor([b], table) == if b in table then [Delete(b, table[b])] else []
    ensures Saved(jobs, first, []) == jobs && Ids(first, 1) == [first]
    ensures forall p :: Saved(jobs, first, [p]) == jobs[first := p]
  {
    assert [b][..0] == [];
    forall p ensures Saved(jobs, first, [p]) == jobs[first := p] {
      assert [p][..0] == [];
    }
  }

  lemma OnlyRow(t: Table, owners: Owners, ns: string, path: Path, i: nat)
    requires Tree(t, owners) && i in t && At(t[i], ns, path)
    ensures Taken(t, ns, path) && ns in owners && forall j :: j in t && At(t[j], ns, path) ==> j == i
    ensures forall j :: j in EmptySteps(t, i, path) ==> j in t
  {
    forall j | j in t && At(t[j], ns, path) ensures j == i { assert Clash(t, i, j); }
  }

  // t1 is the table once the parent is there.
  ghost predicate ParentsMade(t: Table, id: nat, owners: Owners, ns: string, parent: Path, t1: Table)
    requires ns in owners
  {
    if Taken(t, ns, parent) then t1 == t
    else exists rows :: ToSave(t, ns, owners[ns], parent, rows) && t1 == SavedBatch(t, id, rows)
  }

  ghost predicate CreatedVia(t: Table, id: nat, owners: Owners, ns: string, path: Path, count: nat,
                             blob: nat, size: nat, f: Stored, t': Table, t1: Table) {
    && ns in owners && Unblocked(t, ns, Parent(path)) && ParentsMade(t, id, owners, ns, Parent(path), t1)
    && Counted(t1, ns, path, count)
    && var next := Available(t1, ns, path, count);
    && f.id !in t1 && f.row == Row(ns, owners[ns], next, NameOf(next), Some(blob), size)
    && t' == AddSteps(t1, f.id, f.row)
  }

  // The parents are made, then the file is saved under the chosen name and its ancestors grow by its size.
  ghost predicate CreatedFile(t: Table, id: nat, owners: Owners, ns: string, path: Path, count: nat,
                              blob: nat, size: nat, f: Stored, t': Table) {
    exists t1 :: CreatedVia(t, id, owners, ns, path, count, blob, size, f, t', t1)
  }

  ghost predicate StoredExactly(t: Table, ns: string, p: Path) {
    exists i :: i in t && t[i].ns == ns && t[i].path == p
  }

  // What create_file does from the chosen path on: the bytes are stored under its key whatever follows; then the blob
  // is refused for a key that is taken, or the row for a path that is stored, or the file is saved.
  ghost predicate CreateFrom(t1: Table, owner: string, ns: string, next: Path, content: Bytes, store: Store,
                             nextBlob: nat,
                             r: Result<Stored>, t': Table, store': Store) {
    var key := StorageKey(owner, next);
    && store'.storage == store.storage[key := content]
    && store'.blobs == (if key in store.blobs.Values then store.blobs else store.blobs[nextBlob := key])
    && (if key in store.blobs.Values then r == Err(IntegrityError) && t' == t1
        else if StoredExactly(t1, ns, next) then r == Err(AlreadyExists) && t' == t1
        else
          && r.Ok? && r.value.id !in t1
          && r.value.row == Row(ns, owner, next, NameOf(next), Some(nextBlob), |content|)
          && t' == AddSteps(t1, r.value.id, r.value.row))
  }

  // The whole of create_file, for a known namespace and a parent that is not refused.
  ghost predicate CreateOutcome(t: Table, id: nat, owners: Owners, ns: string, path: Path, count: nat, content: Bytes,
                                store: Store, nextBlob: nat, r: Result<Stored>, t': Table, store': Store)
    requires ns in owners
  {
    && Unblocked(t, ns, Parent(path))
    && exists t1: Table ::
         && ParentsMade(t, id, owners, ns, Parent(path), t1) && Counted(t1, ns, path, count)
         && CreateFrom(t1, owners[ns], ns, Available(t1, ns, path, count), content, store, nextBlob, r, t', store')
  }

  lemma CreatedFrom(t1: Table, owner: string, ns: string, next: Path, content: Bytes, store: Store, nextBlob: nat,
                    r: Result<Stored>, t': Table, store': Store)
    requires var key := StorageKey(owner, next);
             && store'.storage == store.storage[key := content]
             && store'.blobs == (if key in store.blobs.Values then store.blobs else store.blobs[nextBlob := key])
             && (key in store.blobs.Values ==> r == Err(IntegrityError) && t' == t1)
             && (key !in store.blobs.Values ==>
                   (r.Ok? <==> !exists i :: i in t1 && t1[i].ns == ns && t1[i].path == next)
                   && (r.Err? ==> r == Err(AlreadyExists) && t' == t1))
    requires r.Ok? ==>
               && r.value.id !in t1
               && r.value.row == Row(ns, owner, next, NameOf(next), Some(nextBlob), |content|)
               && t' == IncrementedAll(t1[r.value.id := r.value.row], ns, Parents(next), |content|)
    ensures CreateFrom(t1, owner, ns, next, content, store, nextBlob, r, t', store')
  {
  }

  lemma OutcomeVia(t: Table, id: nat, owners: Owners, ns: string, path: Path, count: nat, content: Bytes,
                   store: Store, nextBlob: nat, r: Result<Stored>, t': Table, store': Store, t1: Table)
    requires ns in owners && Unblocked(t, ns, Parent(path)) && ParentsMade(t, id, owners, ns, Parent(path), t1)
    requires Counted(t1, ns, path, count)
    requires CreateFrom(t1, owners[ns], ns, Available(t1, ns, path, count), content, store, nextBlob, r, t', store')
    ensures CreateOutcome(t, id, owners, ns, path, count, content, store, nextBlob, r, t', store')
  {
  }

  /** A create_file that succeeds saved one file, its blob and its bytes under a key that was no blob's. */
  lemma OutcomeCreated(t: Table, id: nat, owners: Owners, ns: string, path: Path, count: nat, content: Bytes,
                       store: Store, nextBlob: nat, r: Result<Stored>, t': Table, store': Store)
    requires ns in owners && r.Ok?
    requires CreateOutcome(t, id, owners, ns, path, count, content, store, nextBlob, r, t', store')
    ensures CreatedFile(t, id, owners, ns, path, count, nextBlob, |content|, r.value, t')
    ensures var key := StorageKey(owners[ns], r.value.row.path);
            key !in store.blobs.Values && store' == Store(store.blobs[nextBlob := key], store.storage[key := content])
    ensures r.value.row.size == |content| && r.value.row.owner == owners[ns]
  {
    hide ParentsMade, Unblocked, Counted, Available, AddSteps;
    var t1: Table :|
      && ParentsMade(t, id, owners, ns, Parent(path), t1) && Counted(t1, ns, path, count)
      && CreateFrom(t1, owners[ns], ns, Available(t1, ns, path, count), content, store, nextBlob, r, t', store');
    assert CreatedVia(t, id, owners, ns, path, count, nextBlob, |content|, r.value, t', t1);
  }

  // What becomes of a create_file, seen from the table before it.
  lemma OutcomeMeans(t: Table, id: nat, owners: Owners, ns: string, path: Path, count: nat, content: Bytes,
                     store: Store, nextBlob: nat, r: Result<Stored>, t': Table, store': Store)
    requires Tree(t, owners) && (forall i :: i in t ==> i < id) && ns in owners
    requires CreateOutcome(t, id, owners, ns, path, count, content, store, nextBlob, r, t', store')
    ensures var next := Available(t, ns, path, count);
            var key := StorageKey(owners[ns], next);
            && store'.storage == store.storage[key := content]
            && (r == Err(IntegrityError) <==> key in store.blobs.Values)
            && (r == Err(AlreadyExists) <==> key !in store.blobs.Values && StoredExactly(t, ns, next))
            && (r.Err? ==> r.error in {IntegrityError, AlreadyExists})
            && (r.Ok? ==> r.value.row == Row(ns, owners[ns], next, NameOf(next), Some(nextBlob), |content|))
            && store'.blobs == if r == Err(IntegrityError) then store.blobs else store.blobs[nextBlob := key]
  {
    hide Tree, ParentsMade, Unblocked, Counted, AddSteps, StorageKey, NumberedPath, Taken;
    var t1: Table :|
      && ParentsMade(t, id, owners, ns, Parent(path), t1) && Counted(t1, ns, path, count)
      && CreateFrom(t1, owners[ns], ns, Available(t1, ns, path, count), content, store, nextBlob, r, t', store');
    NextIsFree(t, id, owners, ns, path, t1, count);
    if !Taken(t, ns, path) {
      NotStoredExactly(t, ns, path);
      NotStoredExactly(t1, ns, path);
    }
  }

  lemma NotStoredExactly(t: Table, ns: string, p: Path)
    requires !Taken(t, ns, p)
    ensures !StoredExactly(t, ns, p)
  {
    FreeIsNotStored(t, ns, p);
  }

  // A taken parent is what stands on its own path; a missing one is refused only for a file among its ancestors.
  lemma ParentIsFolder(t: Table, owners: Owners, ns: string, parent: Path)
    requires Tree(t, owners)
    ensures forall k :: k in t && At(t[k], ns, parent) ==>
              (t[k].IsFolder() <==> forall i :: OnPath(t, ns, parent, i) ==> t[i].IsFolder())
  {
    forall k | k in t && At(t[k], ns, parent)
      ensures t[k].IsFolder() <==> forall i :: OnPath(t, ns, parent, i) ==> t[i].IsFolder()
    {
      assert OnPath(t, ns, parent, k);
      forall i | OnPath(t, ns, parent, i) ensures i == k || t[i].IsFolder() {
        ExactAncestor(t, i, k);
      }
    }
  }

  lemma LastsAlike(t: Table, ns: string, path: Path, i: nat, j: nat)
    requires IsLast(t, ns, path, i) && IsLast(t, ns, path, j)
    ensures Same(t[i].path, t[j].path)
  {
    LexTotal(SortKey(t[i]), SortKey(t[j]));
    SameIsStringEquality(t[i].path, t[j].path);
  }

  lemma EndsAtLast(t: Table, ns: string, path: Path, last: nat)
    requires IsLast(t, ns, path, last)
    ensures EndsAt(t, ns, path) <==> Same(t[last].path, path)
  {
    if EndsAt(t, ns, path) {
      var i :| IsLast(t, ns, path, i) && Same(t[i].path, path);
      LastsAlike(t, ns, path, i, last);
    }
  }

  lemma EndsNowhere(t: Table, ns: string, path: Path)
    requires forall i :: !OnPath(t, ns, path, i)
    ensures !EndsAt(t, ns, path)
  {
  }

  /** In a tree create_folder refuses a path as stored exactly when it is, and "." sorts before its first name. */
  lemma EndsAtTaken(t: Table, owners: Owners, ns: string, path: Path)
    requires Tree(t, owners) && ns in owners
    ensures EndsAt(t, ns, path) <==> Taken(t, ns, path) && RootFirst(path)
  {
    hide Unique, Closed, Labelled, IsLast, OnPath;
    var i0 := RootOnPath(t, owners, ns, path);
    var last := LastOnPath(t, ns, path, i0);
    EndsAtLast(t, ns, path, last);
    LastIsOnPath(t, ns, path, last);
    if path == [] {
      OnPathFold(t, ns, path, last);
      SameReflexive(path);
    } else if Taken(t, ns, path) {
      ExistingPathRefused(t, ns, path, last);
    }
  }

  lemma LastIsOnPath(t: Table, ns: string, path: Path, i: nat)
    requires IsLast(t, ns, path, i)
    ensures OnPath(t, ns, path, i) && i in t && t[i].ns == ns
    ensures Same(t[i].path, path) ==> Taken(t, ns, path)
  {
    if Same(t[i].path, path) { assert At(t[i], ns, path); }
  }

  lemma NotRefused(t: Table, ns: string, path: Path)
    ensures !Taken(t, ns, path) ==> !EndsAt(t, ns, path)
  {
    if i :| IsLast(t, ns, path, i) && Same(t[i].path, path) {
      assert At(t[i], ns, path);
    }
  }

  lemma RootOnPath(t: Table, owners: Owners, ns: string, path: Path) returns (i: nat)
    requires Rooted(t, owners) && ns in owners
    ensures OnPath(t, ns, path, i)
  {
    assert HasFolder(t, ns, []);
    i :| i in t && t[i].ns == ns && t[i].path == [];
    PrefixFolds([], path);
  }

  // Some row on the path sorts last.
  lemma LastOnPath(t: Table, ns: string, path: Path, i: nat) returns (last: nat)
    requires OnPath(t, ns, path, i)
    ensures IsLast(t, ns, path, last)
  {
    last := LastAmong(t, ns, path, i, set j | j in t && OnPath(t, ns, path, j));
  }

  lemma {:induction false} LastAmong(t: Table, ns: string, path: Path, i: nat, s: set<nat>) returns (last: nat)
    requires i in s && s <= t.Keys && forall j :: j in s ==> OnPath(t, ns, path, j)
    ensures last in s && forall j :: j in s ==> LexLe(SortKey(t[j]), SortKey(t[last]))
    decreases |s|
  {
    LexTotal(SortKey(t[i]), SortKey(t[i]));
    if s - {i} != {} {
      var j :| j in s - {i};
      last := LastAmong(t, ns, path, j, s - {i});
      LexTotal(SortKey(t[i]), SortKey(t[last]));
      if !LexLe(SortKey(t[i]), SortKey(t[last])) {
        forall k | k in s ensures LexLe(SortKey(t[k]), SortKey(t[i])) {
          if k != i { LexTransitive(SortKey(t[k]), SortKey(t[last]), SortKey(t[i])); }
        }
        last := i;
      }
    } else {
      assert s == {i};
      last := i;
    }
  }

  lemma LastUnique(t: Table, ns: string, path: Path, i: nat, j: nat)
    requires Unique(t) && IsLast(t, ns, path, i) && IsLast(t, ns, path, j)
    ensures i == j
  {
    LexTotal(SortKey(t[i]), SortKey(t[j]));
    SameIsStringEquality(t[i].path, t[j].path);
    assert Clash(t, i, j);
  }

  lemma MadeIsWithParents(t: Table, id: nat, owners: Owners, ns: string, parent: Path, t1: Table, last: nat)
    requires Tree(t, owners) && ns in owners && IsLast(t, ns, parent, last)
    requires ParentsMade(t, id, owners, ns, parent, t1)
    ensures t1 == WithParents(t, owners, id, ns, parent, last)
  {
    hide SavedBatch;
    if !Taken(t, ns, parent) {
      var rows :| ToSave(t, ns, owners[ns], parent, rows) && t1 == SavedBatch(t, id, rows);
      var l :| IsLast(t, ns, parent, l) && rows == NewRows(t, ns, owners[ns], parent, l);
      LastUnique(t, ns, parent, last, l);
    }
  }

  lemma AvailableParent(t: Table, ns: string, path: Path, count: nat)
    ensures Available(t, ns, path, count) != [] || !Taken(t, ns, path)
    ensures Parent(Available(t, ns, path, count)) == Parent(path)
  {
  }

  /** Making the parents changes nothing about a taken path, and a free path stays free: the chosen path is free
      exactly when the path or the number after the count was. */
  lemma NextIsFree(t: Table, id: nat, owners: Owners, ns: string, path: Path, t1: Table, count: nat)
    requires Tree(t, owners) && (forall i :: i in t ==> i < id) && ns in owners
    requires ParentsMade(t, id, owners, ns, Parent(path), t1)
    ensures !Taken(t1, ns, Available(t1, ns, path, count)) <==> FreeNumber(t, ns, path, count)
    ensures Available(t1, ns, path, count) == Available(t, ns, path, count) != []
    ensures Taken(t, ns, path) ==> t1 == t
  {
    hide SavedBatch, Tree;
    RootTaken(t, owners, ns);
    if Taken(t, ns, Parent(path)) {
      AvailableParent(t, ns, path, count);
    } else {
      StillFree(t, id, owners, ns, path, t1);
      if k :| k in t && At(t[k], ns, path) { PathWasFree(t, owners, ns, path, k); }
    }
  }

  lemma RootTaken(t: Table, owners: Owners, ns: string)
    requires Tree(t, owners) && ns in owners
    ensures Taken(t, ns, [])
  {
    var r := RootOnPath(t, owners, ns, []);
    OnPathFold(t, ns, [], r);
    assert At(t[r], ns, []);
  }

  // Making the parents does not take the path itself.
  lemma StillFree(t: Table, id: nat, owners: Owners, ns: string, path: Path, t1: Table)
    requires Tree(t, owners) && (forall i :: i in t ==> i < id) && ns in owners && path != []
    requires !Taken(t, ns, Parent(path)) && ParentsMade(t, id, owners, ns, Parent(path), t1)
    ensures !Taken(t1, ns, path)
  {
    var i0 := RootOnPath(t, owners, ns, Parent(path));
    var last := LastOnPath(t, ns, Parent(path), i0);
    MadeIsWithParents(t, id, owners, ns, Parent(path), t1, last);
    var rows := NewRows(t, ns, owners[ns], Parent(path), last);
    hide SavedBatch, Tree, NewRows, Same;
    BatchRows(t, id, rows);
    if k :| k in t1 && At(t1[k], ns, path) {
      var p := t1[k].path;
      SameLengths(p, path);
      if k in t {
        PathWasFree(t, owners, ns, path, k);
      } else {
        NewRowsShorter(t, ns, owners[ns], path, last, t1[k]);
      }
    }
  }

  lemma PathWasFree(t: Table, owners: Owners, ns: string, path: Path, k: nat)
    requires Tree(t, owners) && path != [] && !Taken(t, ns, Parent(path)) && k in t
    ensures !At(t[k], ns, path)
  {
    if At(t[k], ns, path) {
      PrefixFolds(Parent(path), path);
      var m := NothingBelowFree(t, ns, Parent(path), k);
    }
  }

  lemma NewRowsShorter(t: Table, ns: string, owner: string, path: Path, last: nat, r: Row)
    requires OnPath(t, ns, Parent(path), last) && path != [] && r in NewRows(t, ns, owner, Parent(path), last)
    ensures |r.path| < |path|
  {
    OnPathFold(t, ns, Parent(path), last);
  }

  /** Creating a file keeps the tree exactly when every existing row on the parent's path is spelled as the path spells
      it, and the path or the number after the count is free; then it keeps cached sizes right too. */
  lemma CreatedKeepsTreeIff(t: Table, id: nat, owners: Owners, ns: string, path: Path, count: nat,
                           blob: nat, size: nat, f: Stored, t': Table)
    requires Tree(t, owners) && (forall i :: i in t ==> i < id)
    requires CreatedFile(t, id, owners, ns, path, count, blob, size, f, t')
    ensures Tree(t', owners) <==> SpelledAsStored(t, ns, Parent(path)) && FreeNumber(t, ns, path, count)
    ensures Sized(t) && Tree(t', owners) ==> Sized(t')
  {
    hide SpelledAsStored, FreeNumber, Available, Counted, AddSteps, SavedBatch, Unique, Closed, Labelled, Sized, Rooted;
    var t1: Table :| CreatedVia(t, id, owners, ns, path, count, blob, size, f, t', t1);
    NextIsFree(t, id, owners, ns, path, t1, count);
    AvailableParent(t1, ns, path, count);
    if Taken(t1, ns, Available(t1, ns, path, count)) {
      TwiceAtPath(t1, f);
    } else {
      var i0 := RootOnPath(t, owners, ns, Parent(path));
      var last := LastOnPath(t, ns, Parent(path), i0);
      MadeIsWithParents(t, id, owners, ns, Parent(path), t1, last);
      CreateFileKeepsTreeIff(t, owners, id, f.id, f.row, last);
    }
  }

  lemma TwiceAtPath(t: Table, f: Stored)
    requires Taken(t, f.row.ns, f.row.path) && f.id !in t
    ensures !Unique(AddSteps(t, f.id, f.row))
  {
    var j :| j in t && At(t[j], f.row.ns, f.row.path);
    assert Clash(AddSteps(t, f.id, f.row), j, f.id);
  }

  // The blob job of a delete and of a move, if there is one; a file's job records its blob's current key.
  function DeleteJob(r: Row, table: map<nat, string>): Option<Payload> {
    if r.IsFolder() then Some(DeletePrefix(KeyPrefix(r.owner, r.path)))
    else if r.blob.value in table then Some(Payload.Delete(r.blob.value, table[r.blob.value]))
    else None
  }

  function MoveJob(r: Row, toOwner: string, to: Path, table: map<nat, string>): Option<Payload> {
    if r.IsFolder() then Some(MovePrefix(KeyPrefix(r.owner, r.path), KeyPrefix(toOwner, to)))
    else if r.blob.value in table && table[r.blob.value] != StorageKey(toOwner, to)
    then Some(Payload.Move(r.blob.value, table[r.blob.value], StorageKey(toOwner, to)))
    else None
  }

  function MoveJobAt(t: Table, i: nat, owners: Owners, toNs: string, to: Path,
                     table: map<nat, string>): Option<Payload> {
    if i in t && toNs in owners then MoveJob(t[i], owners[toNs], to, table) else None
  }

  // The rows create_folder saves: those after the last row on the path, or all prefixes when there is none.
  ghost predicate ToSave(t: Table, ns: string, owner: string, path: Path, rows: seq<Row>) {
    if exists i :: OnPath(t, ns, path, i) then
      exists last :: IsLast(t, ns, path, last) && !Same(t[last].path, path) && rows == NewRows(t, ns, owner, path, last)
    else rows == FolderRows(ns, owner, AllPrefixes(path))
  }

  lemma PathsToSave(path: Path, base: Path)
    requires AtOrBelow(base, path) && |base| < |path|
    ensures AllPrefixes(path)[|path| := WithRestoredCasing(path, base)][|base| + 1..] == NewPaths(path, base)
  {
  }

  lemma ToSaveAfter(t: Table, ns: string, path: Path, last: nat)
    requires IsLast(t, ns, path, last) && !Same(t[last].path, path) && |t[last].path| < |path|
    ensures forall owner :: ToSave(t, ns, owner, path, FolderRows(ns, owner, NewPaths(path, t[last].path)))
  {
    forall owner ensures ToSave(t, ns, owner, path, FolderRows(ns, owner, NewPaths(path, t[last].path))) {
      assert NewRows(t, ns, owner, path, last) == FolderRows(ns, owner, NewPaths(path, t[last].path));
    }
  }

  lemma ToSaveAll(t: Table, ns: string, path: Path)
    ensures (forall i :: !OnPath(t, ns, path, i)) ==>
              forall owner :: ToSave(t, ns, owner, path, FolderRows(ns, owner, AllPrefixes(path)))
  {
  }

  lemma NothingOnPath(t: Table, ns: string, path: Path, objs: seq<Stored>)
    requires objs == [] && forall i :: OnPath(t, ns, path, i) ==> Stored(i, t[i]) in objs
    ensures forall i :: !OnPath(t, ns, path, i)
  {
  }

  lemma OnPathStored(t: Table, ns: string, path: Path, i: nat)
    requires OnPath(t, ns, path, i)
    ensures i in t && t[i].ns == ns
  {
  }

  lemma ShorterOnPath(t: Table, ns: string, path: Path, i: nat)
    requires OnPath(t, ns, path, i) && !Same(t[i].path, path)
    ensures |t[i].path| < |path| && AtOrBelow(t[i].path, path)
  {
    OnPathFold(t, ns, path, i);
    assert Fold(path)[..|Fold(path)|] == Fold(path);
  }

  // The last saved path is the requested one, up to case.
  lemma SavedPathIsTaken(t: Table, id: nat, ns: string, owner: string, path: Path, rows: seq<Row>)
    requires ToSave(t, ns, owner, path, rows) && forall i :: i in t ==> i < id
    ensures Taken(SavedBatch(t, id, rows), ns, path)
  {
    hide SavedBatch, Same;
    assert rows != [] && rows[|rows| - 1].ns == ns && Same(rows[|rows| - 1].path, path) by {
      if exists i :: OnPath(t, ns, path, i) {
        var last :| IsLast(t, ns, path, last) && !Same(t[last].path, path) && rows == NewRows(t, ns, owner, path, last);
        ShorterOnPath(t, ns, path, last);
        RestoredCasingSame(path, t[last].path);
      } else {
        assert path[..|path|] == path;
        assert Same(path, path) by { SameReflexive(path); }
      }
    }
    var i := BatchStores(t, id, rows, |rows| - 1);
    assert At(SavedBatch(t, id, rows)[i], ns, path);
  }

  // What get_by_path_batch returns for the prefixes of a path: the rows on the path.
  lemma BatchIsOnPath(t: Table, ns: string, path: Path, objs: seq<Stored>)
    requires forall s :: s in objs ==>
             s.id in t && t[s.id] == s.row && exists p :: p in AllPrefixes(path) && At(s.row, ns, p)
    requires forall i, p :: i in t && p in AllPrefixes(path) && At(t[i], ns, p) ==> Stored(i, t[i]) in objs
    ensures forall s :: s in objs ==> OnPath(t, ns, path, s.id) && t[s.id] == s.row
    ensures forall i :: OnPath(t, ns, path, i) ==> Stored(i, t[i]) in objs
  {
    forall s | s in objs ensures OnPath(t, ns, path, s.id) {
      var p :| p in AllPrefixes(path) && At(s.row, ns, p);
      var k :| 0 <= k <= |path| && p == path[..k];
      FoldTake(path, k);
    }
    forall i | OnPath(t, ns, path, i) ensures Stored(i, t[i]) in objs {
      var k := |t[i].path|;
      OnPathFold(t, ns, path, i);
      FoldTake(path, k);
      assert AllPrefixes(path)[k] in AllPrefixes(path);
      assert AllPrefixes(path)[k] == path[..k];
      assert At(t[i], ns, path[..k]);
    }
  }

  lemma LastOfBatch(t: Table, ns: string, path: Path, objs: seq<Stored>)
    requires objs != [] && SortedByPath(objs)
    requires forall s :: s in objs ==> OnPath(t, ns, path, s.id) && t[s.id] == s.row
    requires forall i :: OnPath(t, ns, path, i) ==> Stored(i, t[i]) in objs
    ensures IsLast(t, ns, path, objs[|objs| - 1].id)
  {
    hide LexLe, AtOrBelow, Lower, Str;
    var l := objs[|objs| - 1];
    assert l in objs;
    forall j | OnPath(t, ns, path, j) ensures LexLe(SortKey(t[j]), SortKey(t[l.id])) {
      var k :| 0 <= k < |objs| && objs[k] == Stored(j, t[j]);
      if k == |objs| - 1 { LexTotal(SortKey(t[j]), SortKey(t[j])); }
    }
  }
}
