/** Whole runs: what a sequence of file operations and worker steps can do, from an empty system. */
module Runs {
  import opened Text
  import opened Paths
  import opened Rows
  import opened Trees
  import opened FileTable
  import opened Folders
  import opened Steps
  import opened Names
  import opened Uploads
  import opened BlobStore
  import opened Keys
  import opened FileCore

  // Tables, storage and the worker's queue; `contents` remembers what each blob was uploaded with.
  datatype World = World(owners: Owners, rows: Table, nextRow: nat, store: Store, nextBlob: nat,
                         contents: map<nat, Bytes>, jobs: seq<Payload>)

  datatype Event =
    | CreateNamespace(ns: string, owner: string)
    | CreateFolder(ns: string, path: Path)
    | Upload(ns: string, path: Path, content: Bytes, count: nat)  // what the name's pattern counts then is given
    | MoveItem(atNs: string, at: Path, toNs: string, to: Path)
    | DeleteItem(ns: string, path: Path)
    | EmptyFolder(ns: string, path: Path)
    | Work

  const EMPTY := World(map[], map[], 0, Store(map[], map[]), 0, map[], [])

  function Enqueued(jobs: seq<Payload>, j: Option<Payload>): seq<Payload> {
    if j.Some? then jobs + [j.value] else jobs
  }

  // ----- The state after a successful operation, as the service's contracts give it

  ghost predicate FolderCreated(w: World, ns: string, path: Path, rows: Table) {
    && ns in w.owners && Unblocked(w.rows, ns, path)
    && exists batch :: ToSave(w.rows, ns, w.owners[ns], path, batch) && rows == SavedBatch(w.rows, w.nextRow, batch)
  }

  ghost predicate Uploaded(w: World, ns: string, path: Path, content: Bytes, count: nat, f: Stored, w': World) {
    && CreatedFile(w.rows, w.nextRow, w.owners, ns, path, count, w.nextBlob, |content|, f, w'.rows)
    && ns in w.owners
    && var key := StorageKey(w.owners[ns], f.row.path);
    && key !in w.store.blobs.Values
    && w' == w.(rows := w'.rows, nextRow := w'.nextRow, nextBlob := w.nextBlob + 1,
                store := Store(w.store.blobs[w.nextBlob := key], w.store.storage[key := content]),
                contents := w.contents[w.nextBlob := content])
  }

  ghost predicate Moved(w: World, atNs: string, at: Path, toNs: string, to: Path, i: nat, next: Path, w': World) {
    && MoveError(w.rows, atNs, at, toNs, to).None?
    && MovedTo(w.rows, w.owners, atNs, at, toNs, to, i, next, w'.rows)
    && w' == w.(rows := w'.rows, jobs := Enqueued(w.jobs, MoveJobAt(w.rows, i, w.owners, toNs, next, w.store.blobs)))
  }

  ghost predicate Deleted(w: World, ns: string, path: Path, f: Stored, w': World) {
    && Found(w.rows, ns, path, f)
    && w' == w.(rows := DeleteSteps(w.rows, f.id, path), jobs := Enqueued(w.jobs, DeleteJob(f.row, w.store.blobs)))
  }

  ghost predicate Emptied(w: World, ns: string, path: Path, f: Stored, w': World) {
    && Found(w.rows, ns, path, f)
    && w' == w.(rows := EmptySteps(w.rows, f.id, path),
                jobs := if f.row.size == 0 then w.jobs else w.jobs + [DeletePrefix(KeyPrefix(f.row.owner, f.row.path))])
  }

  function RootRow(ns: string, owner: string): Row {
    FolderRow(ns, owner, [])
  }

  function TrashRow(ns: string, owner: string): Row {
    FolderRow(ns, owner, ["Trash"])
  }

  // The two rows of a new namespace, saved under new ids.
  predicate NamespaceRows(t: Table, ns: string, owner: string, id: nat, id2: nat, t': Table) {
    && id !in t && id2 !in t && id != id2
    && t' == t[id := RootRow(ns, owner)][id2 := TrashRow(ns, owner)]
  }

  ghost predicate Step(w: World, ev: Event, w': World) {
    match ev
    case CreateNamespace(ns, owner) =>
      && ns !in w.owners
      && (exists id: nat, id2: nat :: NamespaceRows(w.rows, ns, owner, id, id2, w'.rows))
      && w' == w.(owners := w.owners[ns := owner], rows := w'.rows, nextRow := w'.nextRow)
        && RowsBefore(w'.rows, w'.nextRow)
    case CreateFolder(ns, path) =>
      && FolderCreated(w, ns, path, w'.rows)
      && w' == w.(rows := w'.rows, nextRow := w'.nextRow) && RowsBefore(w'.rows, w'.nextRow)
    case Upload(ns, path, content, count) =>
      && (exists f :: Uploaded(w, ns, path, content, count, f, w')) && RowsBefore(w'.rows, w'.nextRow)
    case MoveItem(atNs, at, toNs, to) =>
      (atNs == toNs || at != []) && exists i, next :: Moved(w, atNs, at, toNs, to, i, next, w')
    case DeleteItem(ns, path) => exists f :: Deleted(w, ns, path, f, w')
    case EmptyFolder(ns, path) => exists f :: Emptied(w, ns, path, f, w')
    case Work => w.jobs != [] && w' == w.(store := Apply(w.jobs[0], w.store), jobs := w.jobs[1..])
  }

  ghost predicate RowsBefore(t: Table, n: nat) {
    forall i :: i in t ==> i < n
  }

  // When a successful step keeps the tree: paths spelled as stored where the service does not restore casing, a free
  // number for a taken name, a free destination in another namespace, and the root not deleted. Emptying always does.
  ghost predicate TreeAllowed(w: World, ev: Event) {
    match ev
    case CreateFolder(ns, path) => forall i :: IsDeepest(w.rows, ns, path, i) ==> GoodCasing(path, w.rows[i].path)
    case Upload(ns, path, _, count) => SpelledAsStored(w.rows, ns, Parent(path)) && FreeNumber(w.rows, ns, path, count)
    case MoveItem(atNs, at, toNs, to) => atNs == toNs || !Same(at, to) || !Taken(w.rows, toNs, to)
    case DeleteItem(_, path) => path != []
    case _ => true
  }

  // When such a step also keeps the cached sizes: what is emptied has none, or is spelled as stored and not the root.
  ghost predicate SizesAllowed(w: World, ev: Event) {
    match ev
    case EmptyFolder(ns, path) =>
      forall i :: i in w.rows && At(w.rows[i], ns, path) ==>
        w.rows[i].size == 0 || (path == w.rows[i].path && path != [])
    case _ => true
  }

  // What the blob store needs besides: one namespace for each owner, no owner's id inside path components, and uploads
  // and operations on single files only when no job is pending. Folders may be moved, deleted and, in any spelling,
  // emptied at any time, but for the root.
  ghost predicate Allowed(w: World, ev: Event) {
    && TreeAllowed(w, ev)
    && match ev
       case CreateNamespace(_, owner) => IsOwner(owner) && owner !in w.owners.Values
       case Upload(ns, path, _, _) => w.jobs == [] && (ns in w.owners ==> Clean(w.owners[ns], path))
       case MoveItem(atNs, at, toNs, to) =>
         && (toNs in w.owners ==> Clean(w.owners[toNs], to))
         && (forall i :: i in w.rows && At(w.rows[i], atNs, at) ==> MoveAllowed(w, i, toNs, to))
         && (forall k :: k in w.rows && At(w.rows[k], toNs, Parent(to)) && toNs in w.owners ==>
               Clean(w.owners[toNs], w.rows[k].path))
       case DeleteItem(ns, path) =>
         forall i :: i in w.rows && At(w.rows[i], ns, path) && !w.rows[i].IsFolder() ==> w.jobs == []
       case EmptyFolder(_, path) => path != []
       case _ => true
  }

  ghost predicate NoFileBelow(t: Table, ns: string, p: Path) {
    forall j :: j in t && t[j].ns == ns && p < t[j].path ==> t[j].IsFolder()
  }

  // Row i may move: a file only when no job is pending; a folder onto its own stored path only when no file lies below
  // it; and into another namespace only when no name below it contains the new owner's id.
  ghost predicate MoveAllowed(w: World, i: nat, toNs: string, to: Path)
    requires i in w.rows
  {
    var r := w.rows[i];
    && (if !r.IsFolder() then w.jobs == []
        else if r.ns == toNs && NameOf(to) == NameOf(r.path) && Same(r.path, to) then NoFileBelow(w.rows, r.ns, r.path)
        else true)
    && (toNs in w.owners ==>
          forall j :: j in w.rows && InSubtree(w.rows[j], r.ns, r.path) ==>
            Clean(w.owners[toNs], w.rows[j].path[|r.path|..]))
  }

  // ----- The tree invariant over runs

  ghost predicate GoodWorld(w: World) {
    Tree(w.rows, w.owners) && RowsBefore(w.rows, w.nextRow)
  }

  /** A new namespace's root and trash, saved under two new ids. */
  lemma NamespaceAdded(t: Table, owners: Owners, id: nat, id2: nat, ns: string, owner: string)
    requires Tree(t, owners) && ns !in owners && id !in t && id2 !in t && id != id2
    ensures Tree(t[id := RootRow(ns, owner)][id2 := TrashRow(ns, owner)], owners[ns := owner])
    ensures Sized(t) ==> Sized(t[id := RootRow(ns, owner)][id2 := TrashRow(ns, owner)])
  {
    hide Unique, Closed, Labelled, Sized, Rooted, Taken, HasFolder, Added;
    var owners' := owners[ns := owner];
    var t1 := t[id := RootRow(ns, owner)];
    NoRowsYet(t, owners, ns);
    MoreOwners(t, owners, ns, owner);
    FolderAdded(t, id, RootRow(ns, owner));
    AddedKeepsTree(t, owners', id, RootRow(ns, owner));
    if Sized(t) { AddedKeepsSized(t, owners', id, RootRow(ns, owner)); }
    RootAdded(t, owners, id, ns, owner);
    FolderAdded(t1, id2, TrashRow(ns, owner));
    TrashFree(t, owners, id, ns, owner);
    AddedKeepsTree(t1, owners', id2, TrashRow(ns, owner));
    if Sized(t1) { AddedKeepsSized(t1, owners', id2, TrashRow(ns, owner)); }
  }

  lemma WithNamespace(owners: Owners, ns: string, owner: string)
    requires OwnersOk(owners) && ns !in owners && IsOwner(owner) && owner !in owners.Values
    ensures OwnersOk(owners[ns := owner])
  {
    var o := owners[ns := owner];
    forall m, n ensures OwnersApart(o, m, n) { assert OwnersApart(owners, m, n); }
  }

  lemma NoRowsYet(t: Table, owners: Owners, ns: string)
    requires Labelled(t, owners) && ns !in owners
    ensures forall p :: !Taken(t, ns, p)
  {
  }

  lemma MoreOwners(t: Table, owners: Owners, ns: string, owner: string)
    requires Labelled(t, owners) && ns !in owners
    ensures Labelled(t, owners[ns := owner])
  {
  }

  lemma RootAdded(t: Table, owners: Owners, id: nat, ns: string, owner: string)
    requires Rooted(t, owners) && id !in t
    ensures Rooted(t[id := RootRow(ns, owner)], owners[ns := owner])
    ensures HasFolder(t[id := RootRow(ns, owner)], ns, [])
  {
    var t1 := t[id := RootRow(ns, owner)];
    assert id in t1 && t1[id].ns == ns && t1[id].path == [] && t1[id].IsFolder();
    forall n | n in owners[ns := owner] ensures HasFolder(t1, n, []) {
      if n != ns { FolderKept(t, t1, n, []); }
    }
  }

  lemma TrashFree(t: Table, owners: Owners, id: nat, ns: string, owner: string)
    requires id !in t && forall p :: !Taken(t, ns, p)
    ensures !Taken(t[id := RootRow(ns, owner)], ns, ["Trash"])
    ensures Parent(TrashRow(ns, owner).path) == []
  {
    var t1 := t[id := RootRow(ns, owner)];
    forall i | i in t1 ensures !At(t1[i], ns, ["Trash"]) {
      if i != id { assert !Taken(t, ns, ["Trash"]); } else { SameLengths([], ["Trash"]); }
    }
  }

  /** A folder made keeps the tree exactly when the deepest stored row on its path is well cased. */
  lemma FolderKeepsTreeIff(w: World, ns: string, path: Path, rows: Table)
    requires GoodWorld(w) && FolderCreated(w, ns, path, rows)
    ensures Tree(rows, w.owners) <==> TreeAllowed(w, CreateFolder(ns, path))
    ensures Sized(w.rows) && Tree(rows, w.owners) ==> Sized(rows)
    ensures Tree(rows, w.owners) ==>
            exists q: Path, d: nat :: d <= |q| && Filled(w.rows, rows, w.nextRow, ns, w.owners[ns], q, d)
  {
    hide SavedBatch, Unique, Closed, Labelled, Sized, Filled, NewRows, GoodCasing, HasFolder, Same, LexLe, AtOrBelow;
    var batch :| ToSave(w.rows, ns, w.owners[ns], path, batch) && rows == SavedBatch(w.rows, w.nextRow, batch);
    var r := RootOnPath(w.rows, w.owners, ns, path);
    assert exists i :: OnPath(w.rows, ns, path, i);
    var last :| IsLast(w.rows, ns, path, last) && !Same(w.rows[last].path, path)
                && batch == NewRows(w.rows, ns, w.owners[ns], path, last);
    var deep := DeepestOnPath(w.rows, ns, path, last);
    forall i | IsDeepest(w.rows, ns, path, i) ensures Tree(rows, w.owners) <==> GoodCasing(path, w.rows[i].path) {
      CreateFolderFillsGap(w.rows, w.owners, w.nextRow, ns, path, last, i);
    }
    if Tree(rows, w.owners) {
      CreateFolderFillsGap(w.rows, w.owners, w.nextRow, ns, path, last, deep);
      RestoredCasingSame(path, w.rows[deep].path);
      SameLengths(WithCasing(path, w.rows[deep].path), path);
    }
  }

  /** A successful step keeps the tree and the id discipline exactly when it is allowed to. */
  lemma StepKeepsTreeIff(w: World, ev: Event, w': World)
    requires GoodWorld(w) && Step(w, ev, w')
    ensures GoodWorld(w') <==> TreeAllowed(w, ev)
  {
    hide Tree, SavedBatch, CreatedFile, MoveError, FolderCreated, DeleteSteps, EmptySteps, MovedTo, NamespaceRows;
    match ev
    case CreateNamespace(ns, owner) =>
      var id: nat, id2: nat :| NamespaceRows(w.rows, ns, owner, id, id2, w'.rows);
      NamespaceStored(w.rows, w.owners, ns, owner, id, id2, w'.rows);
    case CreateFolder(ns, path) => FolderKeepsTreeIff(w, ns, path, w'.rows);
    case Upload(ns, path, content, count) =>
      var f :| Uploaded(w, ns, path, content, count, f, w');
      CreatedKeepsTreeIff(w.rows, w.nextRow, w.owners, ns, path, count, w.nextBlob, |content|, f, w'.rows);
    case MoveItem(atNs, at, toNs, to) =>
      var i, next :| Moved(w, atNs, at, toNs, to, i, next, w');
      MovedKeepsTreeIff(w, atNs, at, toNs, to, i, next, w');
    case DeleteItem(ns, path) =>
      var f :| Deleted(w, ns, path, f, w');
      DeletedKeepsTreeIff(w.rows, w.owners, f.id, path);
    case EmptyFolder(ns, path) =>
      var f :| Emptied(w, ns, path, f, w');
      EmptyKeepsTree(w.rows, w.owners, f.id, path);
    case Work =>
  }

  /** Where a step keeps the tree, correct cached sizes stay correct unless a folder with a size is emptied in another
      spelling, or the root is. */
  lemma StepKeepsSizedIff(w: World, ev: Event, w': World)
    requires GoodWorld(w) && Step(w, ev, w') && TreeAllowed(w, ev) && Sized(w.rows)
    ensures Sized(w'.rows) <==> SizesAllowed(w, ev)
  {
    hide Tree, Sized, SavedBatch, CreatedFile, MoveError, FolderCreated, DeleteSteps, EmptySteps, MovedTo;
    hide NamespaceRows;
    StepKeepsTreeIff(w, ev, w');
    match ev
    case CreateNamespace(ns, owner) =>
      var id: nat, id2: nat :| NamespaceRows(w.rows, ns, owner, id, id2, w'.rows);
      NamespaceStored(w.rows, w.owners, ns, owner, id, id2, w'.rows);
    case CreateFolder(ns, path) => FolderKeepsTreeIff(w, ns, path, w'.rows);
    case Upload(ns, path, content, count) =>
      var f :| Uploaded(w, ns, path, content, count, f, w');
      CreatedKeepsTreeIff(w.rows, w.nextRow, w.owners, ns, path, count, w.nextBlob, |content|, f, w'.rows);
    case MoveItem(atNs, at, toNs, to) =>
      var i, next :| Moved(w, atNs, at, toNs, to, i, next, w');
      MovedKeepsTreeIff(w, atNs, at, toNs, to, i, next, w');
    case DeleteItem(ns, path) =>
      var f :| Deleted(w, ns, path, f, w');
      DeletedKeepsTreeIff(w.rows, w.owners, f.id, path);
    case EmptyFolder(ns, path) =>
      var f :| Emptied(w, ns, path, f, w');
      EmptiedKeepsSizedIff(w.rows, w.owners, ns, f.id, path);
    case Work =>
  }

  /** The two together: from a tree with correct sizes a step leads to one exactly when it is allowed to, the clauses of
      TreeAllowed protecting the rows and that of SizesAllowed nothing but cached sizes. */
  lemma StepKeepsGoodIff(w: World, ev: Event, w': World)
    requires GoodWorld(w) && Sized(w.rows) && Step(w, ev, w')
    ensures GoodWorld(w') && Sized(w'.rows) <==> TreeAllowed(w, ev) && SizesAllowed(w, ev)
  {
    hide GoodWorld, Sized, Step, TreeAllowed, SizesAllowed;
    StepKeepsTreeIff(w, ev, w');
    if TreeAllowed(w, ev) { StepKeepsSizedIff(w, ev, w'); }
  }

  lemma NamespaceStored(t: Table, owners: Owners, ns: string, owner: string, id: nat, id2: nat, t': Table)
    requires Tree(t, owners) && ns !in owners && NamespaceRows(t, ns, owner, id, id2, t')
    ensures Tree(t', owners[ns := owner]) && (Sized(t) ==> Sized(t'))
  {
    hide Tree, Sized;
    NamespaceAdded(t, owners, id, id2, ns, owner);
  }

  lemma MovedCanMove(w: World, atNs: string, at: Path, toNs: string, to: Path, i: nat, next: Path, w': World)
    requires GoodWorld(w) && TreeAllowed(w, MoveItem(atNs, at, toNs, to)) && (atNs == toNs || at != [])
    requires Moved(w, atNs, at, toNs, to, i, next, w')
    ensures i in w.rows && w.rows[i].ns == atNs && CanMove(w.rows, i, toNs, next) && toNs in w.owners
  {
    hide Unique, Closed, Labelled, Sized, Rooted, Relocated, MoveError, Restored;
    AcceptedIsChecked(w.rows, w.owners, atNs, at, toNs, to, Stored(i, w.rows[i]), next);
  }

  lemma MovedKeepsTreeIff(w: World, atNs: string, at: Path, toNs: string, to: Path, i: nat, next: Path, w': World)
    requires GoodWorld(w) && (atNs == toNs || at != []) && Moved(w, atNs, at, toNs, to, i, next, w')
    ensures GoodWorld(w') <==> TreeAllowed(w, MoveItem(atNs, at, toNs, to))
    ensures Sized(w.rows) && GoodWorld(w') ==> Sized(w'.rows)
  {
    hide Tree, Sized, MoveError, Restored, Relocated, Same, Checked, HasFolder;
    var t := w.rows;
    AcceptedIsChecked(t, w.owners, atNs, at, toNs, to, Stored(i, t[i]), next);
    RelocatedIds(t, atNs, t[i].path, toNs, w.owners[toNs], next, t[i].size);
    RelocatedKeepsTreeIff(t, w.owners, i, toNs, next);
    RestoredSame(t, toNs, to, next);
    FoldEqual(at, to);
    if Taken(t, toNs, to) { var j := TakenAs(t, toNs, to, next); }
  }

  lemma TakenAs(t: Table, ns: string, to: Path, next: Path) returns (j: nat)
    requires Taken(t, ns, to) && Same(next, to)
    ensures j in t && At(t[j], ns, next)
  {
    j :| j in t && At(t[j], ns, to);
    assert At(t[j], ns, next);
  }

  lemma RelocatedKeepsTreeIff(t: Table, owners: Owners, i: nat, ns: string, to: Path)
    requires Tree(t, owners) && ns in owners && i in t && Checked(t, i, ns, to)
    ensures var t' := Relocated(t, t[i].ns, t[i].path, ns, owners[ns], to, t[i].size);
            && (Tree(t', owners) <==> forall j :: j in t && At(t[j], ns, to) ==> j == i)
            && (ns == t[i].ns ==> Tree(t', owners))
            && (Sized(t) && Tree(t', owners) ==> Sized(t'))
  {
    hide Sized, Rooted, Relocated, MoveSteps, Checked;
    MoveIsRelocation(t, owners, i, ns, to);
    MoveKeepsTreeIff(t, owners, i, ns, to);
  }

  lemma RestoredSame(t: Table, ns: string, to: Path, next: Path)
    requires Restored(t, ns, to, next)
    ensures Same(next, to)
  {
  }

  lemma RelocatedIds(t: Table, atNs: string, at: Path, toNs: string, toOwner: string, to: Path, size: int)
    ensures Relocated(t, atNs, at, toNs, toOwner, to, size).Keys == t.Keys
  {
  }

  lemma DeletedKeepsTreeIff(t: Table, owners: Owners, i: nat, path: Path)
    requires Tree(t, owners) && i in t && Same(t[i].path, path)
    ensures Tree(DeleteSteps(t, i, path), owners) <==> path != []
    ensures Sized(t) && path != [] ==> Sized(DeleteSteps(t, i, path))
    ensures forall j :: j in DeleteSteps(t, i, path) ==> j in t
  {
    hide Unique, Closed, Labelled, Sized, Matches, Same;
    if path != [] {
      DeleteKeepsTree(t, owners, i, path);
    } else {
      SameLengths(t[i].path, path);
      NamespaceOf(t, owners, i);
      RootDeleted(t, owners, i);
    }
  }

  lemma NamespaceOf(t: Table, owners: Owners, i: nat)
    requires Tree(t, owners) && i in t
    ensures t[i].ns in owners
  {
  }

  lemma RootDeleted(t: Table, owners: Owners, i: nat)
    requires Tree(t, owners) && i in t && t[i].path == []
    ensures !HasFolder(DeleteSteps(t, i, []), t[i].ns, [])
  {
    hide Closed, Labelled, Sized, Rooted, Matches;
    forall j | j in t && t[j].ns == t[i].ns && t[j].path == [] ensures j == i { assert Clash(t, i, j); }
  }

  lemma EmptiedKeepsSizedIff(t: Table, owners: Owners, ns: string, i: nat, path: Path)
    requires Tree(t, owners) && Sized(t) && i in t && At(t[i], ns, path)
    ensures Sized(EmptySteps(t, i, path))
            <==> forall j :: j in t && At(t[j], ns, path) ==> t[j].size == 0 || (path == t[j].path && path != [])
  {
    hide Unique, Closed, Labelled, Sized, Rooted, EmptySteps, Same;
    OnlyRow(t, owners, ns, path, i);
    EmptyKeepsSizedIff(t, owners, i, path);
  }

  // ----- Runs

  // The worlds a run goes through, and the event between each and the next; in a tree run only the tree's conditions
  // are met, in a sized run also those of the cached sizes.
  ghost predicate TreeRun(ws: seq<World>, evs: seq<Event>) {
    && |ws| == |evs| + 1 && ws[0] == EMPTY
    && forall n :: 0 <= n < |evs| ==> TreeAllowed(ws[n], evs[n]) && Step(ws[n], evs[n], ws[n + 1])
  }

  ghost predicate SizedRun(ws: seq<World>, evs: seq<Event>) {
    TreeRun(ws, evs) && forall n :: 0 <= n < |evs| ==> SizesAllowed(ws[n], evs[n])
  }

  ghost predicate Run(ws: seq<World>, evs: seq<Event>) {
    && |ws| == |evs| + 1 && ws[0] == EMPTY
    && forall n :: 0 <= n < |evs| ==> Allowed(ws[n], evs[n]) && Step(ws[n], evs[n], ws[n + 1])
  }

  lemma EmptyIsGood()
    ensures GoodWorld(EMPTY) && Sized(EMPTY.rows)
  {
  }

  /** In every state reachable from an empty system the table is a tree, whatever is pending, however many namespaces an
      owner has and however the trash is emptied. */
  lemma {:induction false} RunStaysTree(ws: seq<World>, evs: seq<Event>, n: nat)
    requires TreeRun(ws, evs) && n < |ws|
    ensures GoodWorld(ws[n])
  {
    hide GoodWorld, Step, TreeAllowed;
    if n == 0 {
      EmptyIsGood();
    } else {
      RunStaysTree(ws, evs, n - 1);
      assert Step(ws[n - 1], evs[n - 1], ws[n - 1 + 1]);
      StepKeepsTreeIff(ws[n - 1], evs[n - 1], ws[n]);
    }
  }

  /** As long as nothing with a size is emptied in another spelling, every folder also caches the size of the files
      below it. */
  lemma {:induction false} RunStaysGood(ws: seq<World>, evs: seq<Event>, n: nat)
    requires SizedRun(ws, evs) && n < |ws|
    ensures GoodWorld(ws[n]) && Sized(ws[n].rows)
  {
    hide GoodWorld, Sized, Step, TreeAllowed, SizesAllowed;
    if n == 0 {
      EmptyIsGood();
    } else {
      RunStaysGood(ws, evs, n - 1);
      assert Step(ws[n - 1], evs[n - 1], ws[n - 1 + 1]);
      StepKeepsGoodIff(ws[n - 1], evs[n - 1], ws[n]);
    }
  }
}
