/** Namespaces and what users do in them: creating one, uploading within the quota, the trash, the home listing. */
module UseCases {
  import opened Text
  import opened Paths
  import opened Sums
  import opened Rows
  import opened Seqs
  import opened FileTable
  import opened Folders
  import opened Steps
  import opened Names
  import opened Uploads
  import opened BlobStore
  import opened Keys
  import opened FileCore
  import opened Listing
  import opened Runs
  import opened Quota

  class NamespaceService {
    const filecore: FileCoreService

    constructor (filecore: FileCoreService)
      ensures this.filecore == filecore
    {
      this.filecore := filecore;
    }

    method Create(ns: string, owner: string) returns (r: Result<()>)
      requires filecore.Valid() && IsOwner(owner)
      modifies filecore`owners, filecore.files
      ensures filecore.Valid()
      ensures r.Err? <==> ns in old(filecore.owners)
      ensures r.Err? ==> r.error == IntegrityError && filecore.owners == old(filecore.owners)
      ensures r.Err? ==>
              filecore.files.rows == old(filecore.files.rows) && filecore.files.nextId == old(filecore.files.nextId)
      ensures r.Ok? ==>
                && filecore.owners == old(filecore.owners)[ns := owner]
                && exists id: nat, id2: nat ::
                  NamespaceRows(old(filecore.files.rows), ns, owner, id, id2, filecore.files.rows)
      ensures r.Ok? ==>
                && HasFolder(filecore.files.rows, ns, []) && HasFolder(filecore.files.rows, ns, ["Trash"])
                && |filecore.files.rows| == |old(filecore.files.rows)| + 2
                && forall i :: i in old(filecore.files.rows) ==>
                     i in filecore.files.rows && filecore.files.rows[i] == old(filecore.files.rows)[i]
      ensures Sized(old(filecore.files.rows)) ==> Sized(filecore.files.rows)
    {
      hide Unique, Closed, Labelled, Rooted, OnPath, IsLast, ToSave, SavedBatch, Same, AtOrBelow, RootRow;
      hide TrashRow, IsOwner;
      ghost var t, owners, id := filecore.files.rows, filecore.owners, filecore.files.nextId;
      if ns in filecore.owners { return Err(IntegrityError); }
      NoPathYet(t, owners, ns);
      filecore.owners := filecore.owners[ns := owner];
      var root := filecore.CreateFolder(ns, []);
      RootSaved(t, id, ns, owner);
      ghost var id2 := filecore.files.nextId;
      OnlyRootOnPath(t, id, ns, owner);
      var trash := filecore.CreateFolder(ns, TRASH);
      TrashSaved(t, id, id2, ns, owner);
      NamespaceAdded(t, owners, id, id2, ns, owner);
      TwoRowsMore(t, id, id2, ns, owner);
      assert NamespaceRows(t, ns, owner, id, id2, filecore.files.rows);
      r := Ok(());
    }

    // The sizes of the owner's root rows, added up.
    method GetSpaceUsed(owner: string) returns (used: int)
      ensures used == SpaceUsed(filecore.files.rows, owner)
    {
      var todo := filecore.files.rows.Keys;
      ghost var all := RootSizes(filecore.files.rows, owner);
      used := 0;
      assert all - (all.Keys - todo) == all;
      while todo != {}
        invariant todo <= all.Keys && todo <= filecore.files.rows.Keys
        invariant used + Sum(all - (all.Keys - todo)) == Sum(all)
        decreases |todo|
      {
        var i :| i in todo;
        ghost var rest := all - (all.Keys - todo);
        SumPick(rest, i);
        assert rest - {i} == all - (all.Keys - (todo - {i}));
        used := used + RootBytes(filecore.files.rows[i], owner);
        todo := todo - {i};
      }
    }
  }

  lemma TwoRowsMore(t: Table, id: nat, id2: nat, ns: string, owner: string)
    requires id !in t && id2 !in t && id != id2
    ensures var t' := t[id := RootRow(ns, owner)][id2 := TrashRow(ns, owner)];
            && HasFolder(t', ns, []) && HasFolder(t', ns, ["Trash"]) && |t'| == |t| + 2
            && forall i :: i in t ==> i in t' && t'[i] == t[i]
  {
    var t' := t[id := RootRow(ns, owner)][id2 := TrashRow(ns, owner)];
    assert t'[id].path == [] && t'[id].ns == ns && t'[id].IsFolder();
    assert t'[id2].path == ["Trash"] && t'[id2].ns == ns && t'[id2].IsFolder();
  }

  lemma NoPathYet(t: Table, owners: Owners, ns: string)
    requires Tree(t, owners) && ns !in owners
    ensures forall p, i :: !OnPath(t, ns, p, i)
  {
  }

  lemma RootSaved(t: Table, id: nat, ns: string, owner: string)
    requires (forall p, i :: !OnPath(t, ns, p, i)) && id !in t
    ensures forall rows :: ToSave(t, ns, owner, [], rows) ==> SavedBatch(t, id, rows) == t[id := RootRow(ns, owner)]
    ensures forall i :: !IsLast(t, ns, [], i)
  {
    forall rows | ToSave(t, ns, owner, [], rows) ensures SavedBatch(t, id, rows) == t[id := RootRow(ns, owner)] {
      assert rows == [RootRow(ns, owner)];
      NotStored(t, ns, []);
      assert SavedBatch(t[id := rows[0]], id + 1, rows[1..]) == t[id := rows[0]];
    }
  }

  lemma NotStored(t: Table, ns: string, p: Path)
    requires forall i :: !OnPath(t, ns, p, i)
    ensures !exists i :: i in t && t[i].ns == ns && t[i].path == p
  {
    if i :| i in t && t[i].ns == ns && t[i].path == p {
      assert OnPath(t, ns, p, i);
    }
  }

  lemma OnlyRootOnPath(t: Table, id: nat, ns: string, owner: string)
    requires (forall p, i :: !OnPath(t, ns, p, i)) && id !in t
    ensures var t1 := t[id := RootRow(ns, owner)];
            && (forall i :: OnPath(t1, ns, TRASH, i) <==> i == id) && t1[id].IsFolder() && t1[id].path == []
            && forall i :: IsLast(t1, ns, TRASH, i) ==> i == id && !Same(t1[i].path, TRASH)
  {
    var t1 := t[id := RootRow(ns, owner)];
    assert Fold([]) == [];
    forall i ensures OnPath(t1, ns, TRASH, i) <==> i == id {
      if i != id && OnPath(t1, ns, TRASH, i) { assert OnPath(t, ns, TRASH, i); }
      if i == id { assert OnPath(t1, ns, TRASH, i); }
    }
    SameLengths([], TRASH);
  }

  lemma TrashSaved(t: Table, id: nat, id2: nat, ns: string, owner: string)
    requires (forall p, i :: !OnPath(t, ns, p, i)) && id !in t && id2 !in t && id != id2
    ensures var t1 := t[id := RootRow(ns, owner)];
            forall rows :: ToSave(t1, ns, owner, TRASH, rows) ==>
              SavedBatch(t1, id2, rows) == t1[id2 := TrashRow(ns, owner)]
  {
    var t1 := t[id := RootRow(ns, owner)];
    hide Same, AtOrBelow;
    OnlyRootOnPath(t, id, ns, owner);
    forall rows | ToSave(t1, ns, owner, TRASH, rows)
      ensures SavedBatch(t1, id2, rows) == t1[id2 := TrashRow(ns, owner)]
    {
      assert OnPath(t1, ns, TRASH, id);
      assert rows == NewRows(t1, ns, owner, TRASH, id);
      assert [] + TRASH[0..] == TRASH;
      assert rows == [TrashRow(ns, owner)];
      NotStored(t, ns, TRASH);
      assert !exists i :: i in t1 && t1[i].ns == ns && t1[i].path == TRASH;
      assert SavedBatch(t1[id2 := rows[0]], id2 + 1, rows[1..]) == t1[id2 := rows[0]];
    }
  }

  // ----- The trash

  lemma TrashFold(p: Path)
    ensures AtOrBelow(MISCASED, p) <==> AtOrBelow(TRASH, p)
    ensures Same(MISCASED, TRASH)
  {
    assert Lower("Trash") == Lower("trash") == "trash";
    assert Fold(MISCASED) == ["trash"] && Fold(TRASH) == ["trash"];
  }

  // A time of day as digits.
  type Stamp = s: string | Digits(s) witness "0"

  function StampedName(name: string, stamp: Stamp): string {
    SplitName(name).0 + (" " + stamp) + SplitName(name).1
  }

  /** The stamp goes where the name is cut, so the suffix stays last. */
  lemma StampGoesAtCut(name: Name, stamp: Stamp, c: nat)
    requires CutsAt(name, c)
    ensures c <= |name| && StampedName(name, stamp) == name[..c] + " " + stamp + name[c..]
  {
    hide SplitName, CutsAt;
    SplitNameCuts(name);
    var (stem, suffix) := SplitName(name);
    assert name[..c] == stem && name[c..] == suffix;
    assert stem + (" " + stamp) + suffix == stem + " " + stamp + suffix;
  }

  lemma StampedIsName(name: Name, stamp: Stamp)
    ensures IsName(StampedName(name, stamp)) && |StampedName(name, stamp)| > |name| + 1
  {
    var (stem, suffix) := SplitName(name);
    var r := StampedName(name, stamp);
    assert '/' !in name;
    assert '/' !in stem by { assert forall i :: 0 <= i < |stem| ==> stem[i] == name[i]; }
    assert '/' !in suffix by { assert forall i :: 0 <= i < |suffix| ==> suffix[i] == name[|stem| + i]; }
    assert |r| > 2;
  }

  function TrashTarget(at: Path): Path {
    if at == [] then TRASH else TRASH + [at[|at| - 1]]
  }

  function StampedTarget(at: Path, stamp: Stamp): Path {
    var p := TrashTarget(at);
    StampedIsName(p[|p| - 1], stamp);
    Parent(p) + [StampedName(p[|p| - 1], stamp)]
  }

  // Where an item goes in the trash: under its own name, or a stamped one when that is taken.
  ghost function TrashPath(t: Table, ns: string, at: Path, stamp: Stamp): Path {
    if Taken(t, ns, TrashTarget(at)) then StampedTarget(at, stamp) else TrashTarget(at)
  }

  // Items that can be thrown away: stored, and neither the home nor the trash itself.
  ghost predicate Disposable(t: Table, ns: string, at: Path) {
    Taken(t, ns, at) && at != [] && !Same(at, TRASH)
  }

  // Directly in the trash: under its own name if that is free there, otherwise with the stamp where the name is cut.
  ghost predicate TrashedAs(t: Table, ns: string, at: Path, stamp: Stamp, p: Path) {
    && at != [] && |p| == 2 && p[0] == "Trash"
    && var name := at[|at| - 1];
    if !Taken(t, ns, ["Trash", name]) then p[1] == name
    else exists c: nat :: CutsAt(name, c) && c <= |name| && p[1] == name[..c] + " " + stamp + name[c..]
  }

  /** Moving to the trash is accepted exactly for stored items other than home and trash, unless both the item's own
      name and its stamped name are taken there; nothing else about the destination can be refused. */
  lemma TrashMoveAccepted(t: Table, owners: Owners, ns: string, at: Path, stamp: Stamp)
    requires Tree(t, owners) && HasFolder(t, ns, TRASH)
    ensures var e := MoveError(t, ns, at, ns, TrashPath(t, ns, at, stamp));
            var full := Taken(t, ns, TrashTarget(at)) && Taken(t, ns, StampedTarget(at, stamp));
            && (e.None? <==> Disposable(t, ns, at) && !full)
            && (e == Some(AlreadyExists) <==> Disposable(t, ns, at) && full)
            && (e == Some(MalformedPath)
                <==> at == [] || Same(at, TRASH) || (at == TRASH + [at[|at| - 1]] && !Taken(t, ns, at)))
            && (e == Some(NotFound)
                <==> at != [] && !Same(at, TRASH) && at != TRASH + [at[|at| - 1]] && !Taken(t, ns, at))
            && (e.Some? ==> e.value in {AlreadyExists, NotFound, MalformedPath})
  {
    hide Unique, Closed, Labelled, Rooted, Same, AtOrBelow, Taken, StampedName;
    if at != [] {
      TrashParent(t, owners, ns);
      NotTrashTarget(at, stamp);
      SameReflexive(at);
      MoveErrorMeans(t, ns, at, ns, TrashPath(t, ns, at, stamp));
      if !Taken(t, ns, TrashPath(t, ns, at, stamp)) { StoredElsewhere(t, ns, at, TrashPath(t, ns, at, stamp)); }
    } else {
      RootAbove(TrashPath(t, ns, at, stamp));
    }
  }

  lemma TrashedWhere(t: Table, owners: Owners, ns: string, at: Path, stamp: Stamp, next: Path)
    requires Tree(t, owners) && HasFolder(t, ns, TRASH) && at != []
    requires Restored(t, ns, TrashPath(t, ns, at, stamp), next)
    ensures TrashedAs(t, ns, at, stamp, next)
  {
    hide Closed, Labelled, Rooted, Same, StampedName, Taken, CutsAt;
    var to, name := TrashPath(t, ns, at, stamp), at[|at| - 1];
    NotTrashTarget(at, stamp);
    SameLengths(next, to);
    SameParents(next, to);
    StoredOnce(t, ns, Parent(next), TRASH);
    assert next[..1] == TRASH;
    assert TrashTarget(at) == ["Trash", name];
    if Taken(t, ns, TrashTarget(at)) {
      var c := |SplitName(name).0|;
      SplitNameCuts(name);
      StampGoesAtCut(name, stamp, c);
    }
  }

  lemma HowMoved(t: Table, owners: Owners, ns: string, at: Path, to: Path, i: nat, next: Path, t': Table)
    requires MovedTo(t, owners, ns, at, ns, to, i, next, t')
    ensures Restored(t, ns, to, next)
  {
  }

  lemma StoredOnce(t: Table, ns: string, p: Path, q: Path)
    requires Unique(t) && HasFolder(t, ns, p) && HasFolder(t, ns, q) && Same(p, q)
    ensures p == q
  {
    var i :| i in t && t[i].ns == ns && t[i].path == p;
    var j :| j in t && t[j].ns == ns && t[j].path == q;
    assert Clash(t, i, j);
  }

  lemma RootAbove(p: Path)
    requires p != []
    ensures AtOrBelow([], p) && !Same([], p)
  {
    PrefixFolds([], p);
    SameLengths([], p);
  }

  lemma TrashParent(t: Table, owners: Owners, ns: string)
    requires Tree(t, owners) && HasFolder(t, ns, TRASH)
    ensures Taken(t, ns, TRASH) && !exists j :: j in t && At(t[j], ns, TRASH) && !t[j].IsFolder()
  {
    var i :| i in t && t[i].ns == ns && t[i].path == TRASH && t[i].IsFolder();
    SameReflexive(TRASH);
    OnlyRow(t, owners, ns, TRASH, i);
  }

  lemma StoredElsewhere(t: Table, ns: string, at: Path, to: Path)
    requires !Taken(t, ns, to)
    ensures Taken(t, ns, at) ==> !Same(at, to)
  {
    if i :| i in t && At(t[i], ns, at) && Same(at, to) {
      assert At(t[i], ns, to);
    }
  }

  // Only the trash itself and the item's own place in it are above or at the destination; the stamped name never is.
  lemma NotTrashTarget(at: Path, stamp: Stamp)
    requires at != []
    ensures AtOrBelow(at, TrashTarget(at)) <==> Same(at, TRASH) || Same(at, TrashTarget(at))
    ensures AtOrBelow(at, StampedTarget(at, stamp)) <==> Same(at, TRASH)
    ensures !Same(at, StampedTarget(at, stamp))
    ensures Parent(TrashTarget(at)) == TRASH && Parent(StampedTarget(at, stamp)) == TRASH
    ensures Same(at, TRASH) ==> !Same(at, TrashTarget(at))
  {
    var p, q := TrashTarget(at), StampedTarget(at, stamp);
    assert p[..1] == TRASH && q[..1] == TRASH;
    FoldTake(p, 1);
    FoldTake(q, 1);
    StampedIsName(at[|at| - 1], stamp);
    SameLengths(at, p);
    SameLengths(at, q);
    SameLengths(at, TRASH);
    AboveShort(at, p);
    AboveShort(at, q);
    if Same(at, q) { SameLastLength(at, q); }
  }

  lemma AboveShort(at: Path, p: Path)
    requires |p| == 2 && p[..1] == TRASH && at != []
    ensures AtOrBelow(at, p) <==> Same(at, TRASH) || Same(at, p)
  {
    FoldTake(p, 1);
    assert |Fold(at)| == |at| && |Fold(p)| == 2;
    assert Fold(p)[..2] == Fold(p);
  }

  lemma SameLastLength(p: Path, q: Path)
    requires Same(p, q) && p != [] && q != []
    ensures |p[|p| - 1]| == |q[|q| - 1]|
  {
    SameLastNames(p, q);
  }

  // ----- Use cases

  class FileService {
    const filecore: FileCoreService

    constructor (filecore: FileCoreService)
      ensures this.filecore == filecore
    {
      this.filecore := filecore;
    }

    // The name is numbered once here and, if it is still taken, once more by the core service.
    method CreateFile(ns: string, path: Path, content: Bytes) returns (r: Result<Stored>, ghost first: nat,
                      ghost second: nat)
      requires filecore.Valid()
      modifies filecore.files, filecore.blobs, filecore.blobs.storage
      ensures filecore.files.Valid() && filecore.blobs.Valid() && filecore.NothingQueued()
      ensures r == Err(NotADirectory) <==> !Unblocked(old(filecore.files.rows), ns, Parent(path))
      ensures r == Err(NotFound) <==> Unblocked(old(filecore.files.rows), ns, Parent(path)) && ns !in filecore.owners
      ensures r.Err? && r.error in {NotADirectory, NotFound} ==>
                filecore.files.rows == old(filecore.files.rows) && filecore.blobs.Sys() == old(filecore.blobs.Sys())
      ensures Counted(old(filecore.files.rows), ns, path, first)
      ensures Unblocked(old(filecore.files.rows), ns, Parent(path)) && ns in filecore.owners ==>
                CreateOutcome(old(filecore.files.rows), old(filecore.files.nextId), filecore.owners, ns,
                              Available(old(filecore.files.rows), ns, path, first), second, content,
                              old(filecore.blobs.Sys()).store, old(filecore.blobs.nextBlob),
                              r, filecore.files.rows, filecore.blobs.Sys().store)
      ensures r.Ok? ==>
                (Tree(filecore.files.rows, filecore.owners)
                 <==> SpelledAsStored(old(filecore.files.rows), ns, Parent(path))
                      && SomeNumberFree(old(filecore.files.rows), ns, path, first, second))
      ensures r.Ok? && Sized(old(filecore.files.rows)) && Tree(filecore.files.rows, filecore.owners) ==>
              Sized(filecore.files.rows)
    {
      hide Tree, OwnersNamed, Unblocked, Counted, CreateOutcome, SpelledAsStored, FreeNumber, NumberedPath;
      hide NumberedName, Taken, Sized;
      var next, count := filecore.GetAvailablePath(ns, path);
      first := count;
      AvailableParent(filecore.files.rows, ns, path, first);
      r, second := filecore.CreateFile(ns, next, content);
    }
  }

  // The path that is left after numbering once is free, or its own next number is.
  ghost predicate SomeNumberFree(t: Table, ns: string, path: Path, first: nat, second: nat) {
    FreeNumber(t, ns, Available(t, ns, path, first), second)
  }

  class NamespaceUseCase {
    const core: FileCoreService
    const file: FileService
    const namespace: NamespaceService
    const listing: FolderListing
    const maxSize: nat  // config.features.upload_file_max_size
    var quotas: map<string, Option<int>>  // the owners' accounts

    ghost predicate Valid()
      reads this, core, core.files, core.blobs
    {
      core.Valid() && file.filecore == core && namespace.filecore == core && listing.files == core.files
    }

    constructor (core: FileCoreService, maxSize: nat, quotas: map<string, Option<int>>)
      requires core.Valid()
      ensures Valid() && this.core == core && this.maxSize == maxSize && this.quotas == quotas
    {
      this.core := core;
      this.file := new FileService(core);
      this.namespace := new NamespaceService(core);
      this.listing := new FolderListing(core.files);
      this.maxSize := maxSize;
      this.quotas := quotas;
    }

    method AddFile(ns: string, path: Path, content: Bytes) returns (r: Result<Stored>, ghost first: nat,
                   ghost second: nat)
      requires Valid()
      modifies core.files, core.blobs, core.blobs.storage
      ensures r == Err(MalformedPath) <==> AtOrBelow(TRASH, path)
      ensures r == Err(TooLarge) <==> !AtOrBelow(TRASH, path) && |content| > maxSize
      ensures r == Err(NotFound) <==>
              && !AtOrBelow(TRASH, path) && |content| <= maxSize
              && (ns !in core.owners || core.owners[ns] !in quotas)
      ensures r == Err(StorageQuotaExceeded) <==>
              && !AtOrBelow(TRASH, path) && |content| <= maxSize && ns in core.owners && core.owners[ns] in quotas
              && quotas[core.owners[ns]].Some?
              && SpaceUsed(old(core.files.rows), core.owners[ns]) + |content| > quotas[core.owners[ns]].value
      ensures r == Err(NotADirectory) <==>
              && !AtOrBelow(TRASH, path) && |content| <= maxSize && ns in core.owners && core.owners[ns] in quotas
              && (quotas[core.owners[ns]].Some? ==>
                    SpaceUsed(old(core.files.rows), core.owners[ns]) + |content| <= quotas[core.owners[ns]].value)
              && !Unblocked(old(core.files.rows), ns, Parent(path))
      ensures r.Err? && r.error !in {IntegrityError, AlreadyExists} ==>
                core.files.rows == old(core.files.rows) && core.blobs.Sys() == old(core.blobs.Sys())
      ensures r.Ok? || r.error in {IntegrityError, AlreadyExists} ==>
                && ns in core.owners && Counted(old(core.files.rows), ns, path, first)
                && CreateOutcome(old(core.files.rows), old(core.files.nextId), core.owners, ns,
                                 Available(old(core.files.rows), ns, path, first), second, content,
                                 old(core.blobs.Sys()).store, old(core.blobs.nextBlob),
                                 r, core.files.rows, core.blobs.Sys().store)
      ensures r.Ok? ==>
                && r.value.row.size == |content| && r.value.row.owner == core.owners[ns]
                && OwnerBytes(core.files.rows, core.owners[ns])
                  == OwnerBytes(old(core.files.rows), core.owners[ns]) + |content|
      ensures r.Ok? && Sized(old(core.files.rows)) ==>
                && core.owners[ns] in quotas
                && (quotas[core.owners[ns]].Some? ==>
                      OwnerBytes(core.files.rows, core.owners[ns]) <= quotas[core.owners[ns]].value)
      ensures r.Ok? ==>
                (Valid() <==> SpelledAsStored(old(core.files.rows), ns, Parent(path))
                              && SomeNumberFree(old(core.files.rows), ns, path, first, second))
      ensures r.Ok? && Valid() && Sized(old(core.files.rows)) ==> Sized(core.files.rows)
    {
      hide Tree, OwnersNamed, Same, AtOrBelow, Unblocked, Counted, SpelledAsStored, CreatedFile, CreateOutcome;
      hide OwnerBytes, SpaceUsed, Sized, Available, SomeNumberFree;
      ghost var t, id, blob := core.files.rows, core.files.nextId, core.blobs.nextBlob;
      ghost var store := core.blobs.Sys().store;
      first, second := 0, 0;
      TrashFold(path);
      RelativeIsAncestry(path, MISCASED);
      if IsRelativeTo(path, MISCASED) { return Err(MalformedPath), 0, 0; }
      if |content| > maxSize { return Err(TooLarge), 0, 0; }
      if ns !in core.owners { return Err(NotFound), 0, 0; }
      var owner := core.owners[ns];
      if owner !in quotas { return Err(NotFound), 0, 0; }
      if quotas[owner].Some? {
        var used := namespace.GetSpaceUsed(owner);
        if Sized(t) { SpaceUsedIsTrue(t, core.owners, owner); }
        if used + |content| > quotas[owner].value { return Err(StorageQuotaExceeded), 0, 0; }
      }
      r, first, second := file.CreateFile(ns, path, content);
      OutcomeErrors(t, id, core.owners, ns, Available(t, ns, path, first), second, content, store, blob, r,
                    core.files.rows, core.blobs.Sys().store);
      if r.Ok? {
        ghost var next := Available(t, ns, path, first);
        OutcomeCreated(t, id, core.owners, ns, next, second, content, store, blob, r, core.files.rows,
                       core.blobs.Sys().store);
        CreatedBytes(t, id, core.owners, ns, next, second, blob, |content|, r.value, core.files.rows, owner);
      }
    }

    method MoveItemToTrash(ns: string, path: Path, stamp: Stamp) returns (r: Result<Stored>)
      requires Valid()
      modifies core.files`rows, core.blobs`jobs, core.blobs`queue, core.blobs`nextJob
      ensures Valid() && core.blobs.table == old(core.blobs.table)
      ensures Sized(old(core.files.rows)) ==> Sized(core.files.rows)
      ensures r.Err? ==> core.files.rows == old(core.files.rows) && core.NothingQueued()
      ensures r.Ok? && HasFolder(old(core.files.rows), ns, TRASH) ==> Disposable(old(core.files.rows), ns, path)
      ensures r.Ok? ==>
                MovedTo(old(core.files.rows), core.owners, ns, path, ns,
                        TrashPath(old(core.files.rows), ns, path, stamp),
                        r.value.id, r.value.row.path, core.files.rows)
      ensures r.Ok? ==>
              core.QueuedIf(MoveJobAt(old(core.files.rows), r.value.id, core.owners, ns, r.value.row.path,
                                          core.blobs.table))
      ensures HasFolder(old(core.files.rows), ns, TRASH) ==>
                && (r == Err(MalformedPath)
                    <==> || path == [] || Same(path, TRASH)
                         || (path == TRASH + [path[|path| - 1]] && !Taken(old(core.files.rows), ns, path)))
                && (r == Err(NotFound)
                    <==> && path != [] && !Same(path, TRASH) && path != TRASH + [path[|path| - 1]]
                         && !Taken(old(core.files.rows), ns, path))
                && (r.Ok? ==> TrashedAs(old(core.files.rows), ns, path, stamp, r.value.row.path))
    {
      hide Tree, Sized, Same, MoveError, MovedTo, AtOrBelow, OwnersNamed, TrashedAs, IntoItself, FileAt, Restored;
      ghost var t := core.files.rows;
      var next := TrashTarget(path);
      var taken := core.files.ExistsAtPath(ns, next);
      if taken { next := StampedTarget(path, stamp); }
      if HasFolder(t, ns, TRASH) {
        TrashMoveAccepted(t, core.owners, ns, path, stamp);
        MoveErrorMeans(t, ns, path, ns, next);
      }
      r := core.Move(ns, path, ns, next);
      if r.Ok? && HasFolder(t, ns, TRASH) {
        HowMoved(t, core.owners, ns, path, next, r.value.id, r.value.row.path, core.files.rows);
        TrashedWhere(t, core.owners, ns, path, stamp, r.value.row.path);
      }
    }

    method EmptyTrash(ns: string) returns (r: Result<()>)
      requires Valid()
      modifies core.files`rows, core.blobs`jobs, core.blobs`queue, core.blobs`nextJob
      ensures Valid()
      ensures r.Err? <==> !Taken(old(core.files.rows), ns, TRASH)
      ensures r.Err? ==> r.error == NotFound && core.files.rows == old(core.files.rows) && core.NothingQueued()
      ensures forall i :: i in old(core.files.rows) && At(old(core.files.rows)[i], ns, TRASH) ==>
                var t := old(core.files.rows);
                && core.files.rows == EmptySteps(t, i, MISCASED)
                && (if t[i].size == 0 then core.NothingQueued()
                    else core.Queued(Payload.DeletePrefix(KeyPrefix(core.owners[ns], t[i].path))))
                && (Sized(t) && t[i].path == TRASH ==> (Sized(core.files.rows) <==> t[i].size == 0))
    {
      hide Unique, Closed, Labelled, Rooted, Same, EmptySteps, KeyPrefix, OwnersNamed;
      ghost var t := core.files.rows;
      TrashRows(t, ns);
      r := core.EmptyFolder(ns, MISCASED);
    }

    method ListFolder(ns: string, path: Path) returns (r: Result<seq<Stored>>)
      requires Valid()
      ensures r == Err(NotFound) <==> !Taken(core.files.rows, ns, path)
      ensures r == Err(NotADirectory)
              <==> exists i :: i in core.files.rows && At(core.files.rows[i], ns, path)
                               && !core.files.rows[i].IsFolder()
      ensures r.Err? ==> r.error in {NotFound, NotADirectory}
      ensures r.Ok? ==> FoldersFirst(r.value) && Distinct(r.value)
      ensures forall i :: r.Ok? && i in core.files.rows && At(core.files.rows[i], ns, path) ==>
                forall s :: s in r.value <==> IsShown(core.files.rows, ns, core.files.rows[i].path, s)
      ensures forall s :: r.Ok? && s in r.value ==>
                && s.id in core.files.rows && core.files.rows[s.id] == s.row && s.row.ns == ns && s.row.path != []
                && Same(Parent(s.row.path), path) && (path == [] ==> !Same(s.row.path, TRASH))
    {
      hide Unique, Closed, Labelled, Rooted, Same, OwnersNamed, Listed, Children, Distinct, InListing, FoldersFirst;
      var files := listing.ListFolder(ns, path, core.owners);
      if files.Err? { return files; }
      ShownBelow(core.files.rows, core.owners, ns, path);
      ShownAre(core.files.rows, core.owners, ns, path, files.value);
      if path != [] { return files; }
      var shown := [];
      for n := 0 to |files.value|
        invariant shown == Shown(files.value[..n])
      {
        assert files.value[..n + 1][..n] == files.value[..n];
        if !Special(files.value[n].row) { shown := shown + [files.value[n]]; }
      }
      assert files.value[..|files.value|] == files.value;
      ListedIsOrdered(shown);
      r := Ok(shown);
    }
  }

  predicate Special(r: Row) {
    Same(r.path, []) || Same(r.path, MISCASED)
  }

  // The home listing without the home's own row and the trash.
  function Shown(s: seq<Stored>): seq<Stored> {
    if s == [] then [] else Shown(s[..|s| - 1]) + if Special(s[|s| - 1].row) then [] else [s[|s| - 1]]
  }

  lemma {:induction false} ShownKeeps(s: seq<Stored>)
    requires Listed(s) && Distinct(s)
    ensures Listed(Shown(s)) && Distinct(Shown(s))
    ensures forall x :: x in Shown(s) <==> x in s && !Special(x.row)
  {
    hide Special, Before, Listed, Distinct;
    if s == [] {
      EmptyListed();
    } else {
      var n := |s| - 1;
      DropLast(s);
      ShownKeeps(s[..n]);
      assert s == s[..n] + [s[n]];
      AddLast(Shown(s[..n]), s[n]);
      assert Shown(s) == if Special(s[n].row) then Shown(s[..n]) else Shown(s[..n]) + [s[n]];
    }
  }

  lemma DropLast(s: seq<Stored>)
    requires Listed(s) && Distinct(s) && s != []
    ensures var n := |s| - 1; Listed(s[..n]) && Distinct(s[..n]) && forall x :: x in s[..n] ==>
            Before(x, s[n]) && x != s[n]
  {
    hide Before;
  }

  lemma AddLast(s: seq<Stored>, x: Stored)
    requires Listed(s) && Distinct(s) && forall y :: y in s ==> Before(y, x) && y != x
    ensures Listed(s + [x]) && Distinct(s + [x])
  {
    hide Before;
  }

  // A child of the folder; in the home, the trash is left out.
  ghost predicate IsShown(t: Table, ns: string, p: Path, s: Stored) {
    s.id in t && t[s.id] == s.row && s.id in Children(t, ns, p) && (p == [] ==> !Same(s.row.path, TRASH))
  }

  lemma ShownAre(t: Table, owners: Owners, ns: string, path: Path, files: seq<Stored>)
    requires Tree(t, owners) && Listed(files) && Distinct(files)
    requires forall i :: i in t && At(t[i], ns, path) ==> forall s :: s in files <==> InListing(t, ns, t[i].path, s)
    ensures Listed(Shown(files)) && Distinct(Shown(files))
    ensures forall i :: i in t && At(t[i], ns, path) ==>
              forall s :: s in (if path == [] then Shown(files) else files) <==> IsShown(t, ns, t[i].path, s)
  {
    hide Tree, Listed, Distinct, Same, Shown;
    ShownKeeps(files);
    forall i, s | i in t && At(t[i], ns, path)
      ensures s in (if path == [] then Shown(files) else files) <==> IsShown(t, ns, t[i].path, s)
    {
      SameLengths(t[i].path, path);
      assert s in files <==> InListing(t, ns, t[i].path, s);
      SpecialMeans(s.row);
    }
  }

  lemma ShownBelow(t: Table, owners: Owners, ns: string, path: Path)
    ensures forall i, s :: i in t && At(t[i], ns, path) && IsShown(t, ns, t[i].path, s) ==>
              && s.id in t && t[s.id] == s.row && s.row.ns == ns && s.row.path != []
              && Same(Parent(s.row.path), path) && (path == [] ==> !Same(s.row.path, TRASH))
  {
    hide Parent;
    SameLengths([], path);
    forall i | i in t && At(t[i], ns, path) ensures t[i].path == [] <==> path == [] { SameLengths(t[i].path, path); }
  }

  lemma SpecialMeans(r: Row)
    ensures Special(r) <==> r.path == [] || Same(r.path, TRASH)
  {
    TrashFold(r.path);
    assert Fold([]) == [];
    SameLengths(r.path, []);
  }

  // The trash is found in the spelling that is passed.
  lemma TrashRows(t: Table, ns: string)
    ensures forall p :: Same(p, MISCASED) <==> Same(p, TRASH)
    ensures Taken(t, ns, MISCASED) <==> Taken(t, ns, TRASH)
    ensures MISCASED != TRASH && MISCASED != []
  {
    hide Same;
    SameTrash();
    assert "trash"[0] != "Trash"[0];
    assert MISCASED[0] != TRASH[0];
    if i :| i in t && At(t[i], ns, TRASH) { assert At(t[i], ns, MISCASED); }
    if i :| i in t && At(t[i], ns, MISCASED) { assert At(t[i], ns, TRASH); }
  }

  lemma SameTrash()
    ensures forall p :: Same(p, MISCASED) <==> Same(p, TRASH)
  {
    TrashFold([]);
  }

  lemma OutcomeErrors(t: Table, id: nat, owners: Owners, ns: string, path: Path, count: nat, content: Bytes,
                      store: Store, nextBlob: nat, r: Result<Stored>, t': Table, store': Store)
    requires ns in owners
    ensures CreateOutcome(t, id, owners, ns, path, count, content, store, nextBlob, r, t', store') && r.Err? ==>
              r.error in {IntegrityError, AlreadyExists}
  {
  }
}
