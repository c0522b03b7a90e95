/** The storage quota: what the check reads, and what it guarantees over runs. */
module Quota {
  import opened Text
  import opened Paths
  import opened Sums
  import opened Rows
  import opened Trees
  import opened FileTable
  import opened Folders
  import opened Steps
  import opened Names
  import opened Uploads
  import opened BlobStore
  import opened FileCore
  import opened Runs

  // What get_space_used_by_owner_id adds up: the sizes of the owner's root rows.
  function RootBytes(r: Row, owner: string): int {
    if r.owner == owner && r.path == [] then r.size else 0
  }

  ghost function RootSizes(t: Table, owner: string): map<nat, int> {
    map i | i in t :: RootBytes(t[i], owner)
  }

  ghost function SpaceUsed(t: Table, owner: string): int {
    Sum(RootSizes(t, owner))
  }

  // The bytes the owner's files really take.
  function OwnBytes(r: Row, owner: string): int {
    if r.owner == owner then FileBytes(r) else 0
  }

  ghost function OwnFiles(t: Table, owner: string): map<nat, int> {
    map i | i in t :: OwnBytes(t[i], owner)
  }

  ghost function OwnerBytes(t: Table, owner: string): int {
    Sum(OwnFiles(t, owner))
  }

  lemma RootIsFolder(t: Table, owners: Owners, i: nat, j: nat)
    requires Tree(t, owners) && i in t && j in t && t[i].path == [] && t[i].ns == t[j].ns && t[j].path == []
    ensures i == j && t[i].IsFolder()
  {
    var k := t[i].ns;
    assert HasFolder(t, k, []);
    var r :| r in t && t[r].ns == k && t[r].path == [] && t[r].IsFolder();
    assert Clash(t, i, r);
    assert Clash(t, j, r);
  }

  // The sizes of some roots, and the files of their namespaces.
  ghost function SomeRoots(t: Table, roots: set<nat>): map<nat, int> {
    map i | i in t :: if i in roots then t[i].size else 0
  }

  ghost predicate InOneOf(t: Table, roots: set<nat>, ns: string) {
    exists i :: i in roots && i in t && t[i].ns == ns
  }

  ghost function FilesOf(t: Table, roots: set<nat>): map<nat, int> {
    map j | j in t :: if InOneOf(t, roots, t[j].ns) then FileBytes(t[j]) else 0
  }

  lemma {:induction false} RootsAddUp(t: Table, owners: Owners, roots: set<nat>)
    requires Tree(t, owners) && Sized(t) && forall i :: i in roots ==> i in t && t[i].path == []
    ensures Sum(SomeRoots(t, roots)) == Sum(FilesOf(t, roots))
    decreases |roots|
  {
    hide Tree, Sized;
    if i :| i in roots {
      var rest := roots - {i};
      RootsAddUp(t, owners, rest);
      RootIsFolder(t, owners, i, i);
      RootSize(t, i);
      var one := SomeRoots(t, {i});
      SumSingle(one, i);
      SumAdd(SomeRoots(t, rest), one, SomeRoots(t, roots));
      forall j | j in t ensures FilesOf(t, roots)[j] == FilesOf(t, rest)[j] + FilesBelow(t, t[i].ns, [])[j] {
        OneNamespace(t, owners, roots, i, j);
      }
      SumAdd(FilesOf(t, rest), FilesBelow(t, t[i].ns, []), FilesOf(t, roots));
    } else {
      SumZero(SomeRoots(t, roots));
      SumZero(FilesOf(t, roots));
    }
  }

  lemma OneNamespace(t: Table, owners: Owners, roots: set<nat>, i: nat, j: nat)
    requires Tree(t, owners) && i in roots && j in t && forall k :: k in roots ==> k in t && t[k].path == []
    ensures FilesOf(t, roots)[j] == FilesOf(t, roots - {i})[j] + BytesBelow(t[j], t[i].ns, [])
  {
    hide Tree;
    if t[j].ns == t[i].ns {
      forall k | k in roots && t[k].ns == t[i].ns ensures k == i { RootIsFolder(t, owners, k, i); }
      if t[j].path == [] { RootIsFolder(t, owners, j, i); }
    } else {
      assert InOneOf(t, roots, t[j].ns) <==> InOneOf(t, roots - {i}, t[j].ns);
    }
  }

  lemma RootSize(t: Table, i: nat)
    requires Sized(t) && i in t && t[i].IsFolder()
    ensures t[i].size == Sum(FilesBelow(t, t[i].ns, t[i].path))
  {
  }

  /** Where cached sizes are right, the root sizes the check adds up equal the true total of the owner's files, in
      however many namespaces. */
  lemma SpaceUsedIsTrue(t: Table, owners: Owners, owner: string)
    requires Tree(t, owners) && Sized(t)
    ensures SpaceUsed(t, owner) == OwnerBytes(t, owner)
  {
    hide Tree, Sized;
    var roots := set i | i in t && t[i].owner == owner && t[i].path == [];
    RootsAddUp(t, owners, roots);
    assert SomeRoots(t, roots) == RootSizes(t, owner);
    forall j | j in t ensures InOneOf(t, roots, t[j].ns) <==> t[j].owner == owner {
      var r := RootOf(t, owners, j);
      forall i | i in roots && t[i].ns == t[j].ns ensures t[i].owner == t[j].owner { OneOwner(t, owners, i, j); }
    }
    assert FilesOf(t, roots) == OwnFiles(t, owner);
  }

  lemma OneOwner(t: Table, owners: Owners, i: nat, j: nat)
    requires Tree(t, owners) && i in t && j in t && t[i].ns == t[j].ns
    ensures t[i].owner == t[j].owner
  {
  }

  lemma RootOf(t: Table, owners: Owners, j: nat) returns (r: nat)
    requires Tree(t, owners) && j in t
    ensures r in t && t[r].ns == t[j].ns && t[r].path == [] && t[r].owner == t[j].owner
  {
    assert HasFolder(t, t[j].ns, []);
    r :| r in t && t[r].ns == t[j].ns && t[r].path == [] && t[r].IsFolder();
  }

  // ----- How each step changes an owner's bytes

  ghost predicate NoNegative(t: Table) {
    forall i :: i in t ==> FileBytes(t[i]) >= 0
  }

  lemma SumSubset(a: map<nat, int>, m: map<nat, int>)
    requires a.Keys <= m.Keys && (forall i :: i in a ==> a[i] <= m[i]) && forall i :: i in m ==> m[i] >= 0
    ensures Sum(a) <= Sum(m)
  {
    var b := map i | i in m :: if i in a then a[i] else 0;
    var c := map i | i in m :: m[i] - b[i];
    SumSupport(a, b);
    SumNonNegative(c);
    SumAdd(b, c, m);
  }

  lemma RemovedBytes(t: Table, i: nat, whole: bool, owner: string)
    requires Unique(t) && Closed(t) && i in t && NoNegative(t)
    ensures OwnerBytes(Removed(t, t[i].ns, t[i].path, whole, t[i].size), owner) <= OwnerBytes(t, owner)
    ensures NoNegative(Removed(t, t[i].ns, t[i].path, whole, t[i].size))
  {
    hide Closed;
    var t' := Removed(t, t[i].ns, t[i].path, whole, t[i].size);
    forall j | j in t' ensures 0 <= FileBytes(t'[j]) <= FileBytes(t[j]) && t'[j].owner == t[j].owner {
      FileNotShrunk(t, i, j);
    }
    SumSubset(OwnFiles(t', owner), OwnFiles(t, owner));
  }

  lemma FileNotShrunk(t: Table, i: nat, j: nat)
    requires Unique(t) && Closed(t) && i in t && j in t
    ensures t[j].ns == t[i].ns && t[j].path <= t[i].path ==> t[j].IsFolder() || j == i
  {
    if t[j].ns == t[i].ns && t[j].path <= t[i].path {
      PrefixFolds(t[j].path, t[i].path);
      ExactAncestor(t, j, i);
    }
  }

  lemma FoldersAddNoBytes(t: Table, t': Table, owner: string)
    requires (forall i :: i in t ==> i in t' && t'[i] == t[i]) && forall i :: i in t' && i !in t ==> t'[i].IsFolder()
    ensures OwnerBytes(t', owner) == OwnerBytes(t, owner) && (NoNegative(t) ==> NoNegative(t'))
  {
    SumSupport(OwnFiles(t, owner), OwnFiles(t', owner));
  }

  lemma MovedBytes(t: Table, owners: Owners, i: nat, ns: string, to: Path, owner: string)
    requires Tree(t, owners) && i in t && ns in owners && owners[ns] == t[i].owner && CanMove(t, i, ns, to)
    ensures var t' := Relocated(t, t[i].ns, t[i].path, ns, owners[ns], to, t[i].size);
            OwnerBytes(t', owner) == OwnerBytes(t, owner) && (NoNegative(t) ==> NoNegative(t'))
  {
    hide Unique, Closed, Rooted, CanMove;
    var t' := Relocated(t, t[i].ns, t[i].path, ns, owners[ns], to, t[i].size);
    forall j | j in t ensures FileBytes(t'[j]) == FileBytes(t[j]) && t'[j].owner == t[j].owner {
      if !t[j].IsFolder() { FileNotAbove(t, i, ns, to, j); }
    }
    assert OwnFiles(t', owner) == OwnFiles(t, owner);
  }

  /** A file created adds its size to its owner's bytes, and nothing else does. */
  lemma CreatedBytes(t: Table, id: nat, owners: Owners, ns: string, path: Path, count: nat, blob: nat, size: nat,
                     f: Stored, t': Table, owner: string)
    requires RowsBefore(t, id) && ns in owners && CreatedFile(t, id, owners, ns, path, count, blob, size, f, t')
    ensures OwnerBytes(t', owner) == OwnerBytes(t, owner) + if owners[ns] == owner then size else 0
    ensures NoNegative(t) ==> NoNegative(t')
  {
    hide OnPath, Counted, ParentsMade, AddSteps, OwnerBytes, NoNegative, Available, Parent;
    var t1: Table :| CreatedVia(t, id, owners, ns, path, count, blob, size, f, t', t1);
    MadeAddsFolders(t, id, owners, ns, Parent(path), t1);
    StillUnblocked(t, t1, ns, Parent(path));
    FoldersAddNoBytes(t, t1, owner);
    AvailableParent(t1, ns, path, count);
    SavedBytes(t1, f.id, f.row, owner);
  }

  lemma StillUnblocked(t: Table, t1: Table, ns: string, path: Path)
    requires Unblocked(t, ns, path)
    requires (forall i :: i in t ==> i in t1 && t1[i] == t[i]) && forall i :: i in t1 && i !in t ==> t1[i].IsFolder()
    ensures Unblocked(t1, ns, path)
  {
    forall i | OnPath(t1, ns, path, i) ensures t1[i].IsFolder() {
      if i in t { assert OnPath(t, ns, path, i); }
    }
  }

  lemma SavedBytes(t: Table, id: nat, r: Row, owner: string)
    requires id !in t && !r.IsFolder() && Unblocked(t, r.ns, Parent(r.path))
    ensures OwnerBytes(AddSteps(t, id, r), owner) == OwnerBytes(t, owner) + OwnBytes(r, owner)
    ensures NoNegative(t) && r.size >= 0 ==> NoNegative(AddSteps(t, id, r))
  {
    hide AddSteps, Unblocked;
    var t' := AddSteps(t, id, r);
    AncestorsOnly(r, id, t);
    forall j | j in t ensures FileBytes(t'[j]) == FileBytes(t[j]) && t'[j].owner == t[j].owner {
      FileAsBefore(t, id, r, j);
    }
    var a, b := OwnFiles(t, owner), OwnFiles(t', owner);
    SumPick(b, id);
    assert b - {id} == a;
  }

  lemma FileAsBefore(t: Table, id: nat, r: Row, j: nat)
    requires id !in t && j in t && Unblocked(t, r.ns, Parent(r.path))
    ensures var t' := AddSteps(t, id, r); j in t' && FileBytes(t'[j]) == FileBytes(t[j]) && t'[j].owner == t[j].owner
  {
    AncestorsOnly(r, id, t);
    if t[j].ns == r.ns && t[j].path < r.path {
      assert t[j].path <= Parent(r.path);
      PrefixFolds(t[j].path, Parent(r.path));
      assert OnPath(t, r.ns, Parent(r.path), j);
    }
  }

  lemma AncestorsOnly(r: Row, id: nat, t: Table)
    ensures forall p :: p in Parents(r.path) ==> p < r.path
    ensures var t' := AddSteps(t, id, r); t'.Keys == t.Keys + {id} && t'[id] == r
  {
  }

  lemma MadeAddsFolders(t: Table, id: nat, owners: Owners, ns: string, parent: Path, t1: Table)
    requires RowsBefore(t, id) && ns in owners && ParentsMade(t, id, owners, ns, parent, t1)
    ensures (forall i :: i in t ==> i in t1 && t1[i] == t[i]) && forall i :: i in t1 && i !in t ==> t1[i].IsFolder()
  {
    hide SavedBatch;
    if !Taken(t, ns, parent) {
      var rows :| ToSave(t, ns, owners[ns], parent, rows) && t1 == SavedBatch(t, id, rows);
      BatchRows(t, id, rows);
    }
  }

  // ----- Quota over runs

  // add_file's check, and moves that stay with their owner.
  ghost predicate WithinQuota(w: World, ev: Event, owner: string, quota: int) {
    match ev
    case Upload(ns, _, content, _) =>
      ns in w.owners && w.owners[ns] == owner ==> SpaceUsed(w.rows, owner) + |content| <= quota
    case MoveItem(atNs, _, toNs, _) => atNs in w.owners && toNs in w.owners ==> w.owners[atNs] == w.owners[toNs]
    case _ => true
  }

  lemma StepRespectsQuota(w: World, ev: Event, w': World, owner: string, quota: int)
    requires GoodWorld(w) && TreeAllowed(w, ev) && Step(w, ev, w') && WithinQuota(w, ev, owner, quota)
    requires ev.Upload? ==> Sized(w.rows)
    requires NoNegative(w.rows) && OwnerBytes(w.rows, owner) <= quota
    ensures NoNegative(w'.rows) && OwnerBytes(w'.rows, owner) <= quota
  {
    hide Tree, Uploaded, Moved, Deleted, Emptied, FolderCreated, OwnerBytes, NoNegative, SpaceUsed, SpelledAsStored;
    hide FreeNumber, Sized;
    match ev
    case CreateNamespace(ns, o) => NamespaceBytes(w, ns, o, w', owner);
    case CreateFolder(ns, path) => FolderBytes(w, ns, path, w'.rows, owner);
    case Upload(ns, path, content, count) =>
      var f :| Uploaded(w, ns, path, content, count, f, w');
      UploadOwner(w, ns, path, content, count, f, w');
      SpaceUsedIsTrue(w.rows, w.owners, owner);
      CreatedBytes(w.rows, w.nextRow, w.owners, ns, path, count, w.nextBlob, |content|, f, w'.rows, owner);
    case MoveItem(atNs, at, toNs, to) =>
      var i, next :| Moved(w, atNs, at, toNs, to, i, next, w');
      MovedItemBytes(w, atNs, at, toNs, to, i, next, w', owner);
    case DeleteItem(ns, path) =>
      var f :| Deleted(w, ns, path, f, w');
      DeletedBytes(w, ns, path, f, w', owner);
    case EmptyFolder(ns, path) =>
      var f :| Emptied(w, ns, path, f, w');
      EmptiedBytes(w, ns, path, f, w', owner);
    case Work =>
  }

  lemma NamespaceBytes(w: World, ns: string, o: string, w': World, owner: string)
    requires GoodWorld(w) && Step(w, CreateNamespace(ns, o), w')
    ensures OwnerBytes(w'.rows, owner) == OwnerBytes(w.rows, owner) && (NoNegative(w.rows) ==> NoNegative(w'.rows))
  {
    hide Tree, OwnerBytes, NoNegative;
    var id: nat, id2: nat :| NamespaceRows(w.rows, ns, o, id, id2, w'.rows);
    FoldersAddNoBytes(w.rows, w'.rows, owner);
  }

  lemma FolderBytes(w: World, ns: string, path: Path, rows: Table, owner: string)
    requires GoodWorld(w) && FolderCreated(w, ns, path, rows)
    ensures OwnerBytes(rows, owner) == OwnerBytes(w.rows, owner) && (NoNegative(w.rows) ==> NoNegative(rows))
  {
    hide Tree, SavedBatch, OwnerBytes, NoNegative;
    var batch :| ToSave(w.rows, ns, w.owners[ns], path, batch) && rows == SavedBatch(w.rows, w.nextRow, batch);
    BatchRows(w.rows, w.nextRow, batch);
    FoldersAddNoBytes(w.rows, rows, owner);
  }

  lemma MovedItemBytes(w: World, atNs: string, at: Path, toNs: string, to: Path, i: nat, next: Path, w': World,
                       owner: string)
    requires GoodWorld(w) && TreeAllowed(w, MoveItem(atNs, at, toNs, to)) && (atNs == toNs || at != [])
    requires Moved(w, atNs, at, toNs, to, i, next, w') && NoNegative(w.rows)
    requires atNs in w.owners && toNs in w.owners ==> w.owners[atNs] == w.owners[toNs]
    ensures OwnerBytes(w'.rows, owner) == OwnerBytes(w.rows, owner) && NoNegative(w'.rows)
  {
    hide Unique, Closed, Labelled, Rooted, OwnerBytes, NoNegative, TreeAllowed, CanMove, Relocated, MoveError;
    MovedCanMove(w, atNs, at, toNs, to, i, next, w');
    OwnerKnown(w.rows, w.owners, i);
    MovedBytes(w.rows, w.owners, i, toNs, next, owner);
  }

  lemma DeletedBytes(w: World, ns: string, path: Path, f: Stored, w': World, owner: string)
    requires GoodWorld(w) && path != [] && Deleted(w, ns, path, f, w') && NoNegative(w.rows)
    ensures OwnerBytes(w'.rows, owner) <= OwnerBytes(w.rows, owner) && NoNegative(w'.rows)
  {
    hide Unique, Closed, Labelled, Rooted, OwnerBytes, NoNegative, Removed, DeleteSteps;
    DeleteIsRemoval(w.rows, f.id, path);
    RemovedBytes(w.rows, f.id, true, owner);
  }

  lemma UploadOwner(w: World, ns: string, path: Path, content: Bytes, count: nat, f: Stored, w': World)
    requires Uploaded(w, ns, path, content, count, f, w')
    ensures ns in w.owners && w'.owners == w.owners
    ensures CreatedFile(w.rows, w.nextRow, w.owners, ns, path, count, w.nextBlob, |content|, f, w'.rows)
  {
  }

  lemma EmptiedBytes(w: World, ns: string, path: Path, f: Stored, w': World, owner: string)
    requires GoodWorld(w) && Emptied(w, ns, path, f, w') && NoNegative(w.rows)
    ensures NoNegative(w'.rows) && OwnerBytes(w'.rows, owner) <= OwnerBytes(w.rows, owner)
  {
    hide Unique, Closed, Labelled, Rooted, OwnerBytes, NoNegative, Removed, Same, EmptySteps;
    if path == f.row.path && path != [] && f.row.size != 0 {
      EmptyIsRemoval(w.rows, f.id);
      RemovedBytes(w.rows, f.id, false, owner);
    } else {
      MiscasedBytes(w.rows, w.owners, f.id, path, owner);
    }
  }

  // Emptying in another spelling leaves the size of every file that stays.
  lemma MiscasedBytes(t: Table, owners: Owners, i: nat, path: Path, owner: string)
    requires Tree(t, owners) && i in t && Same(t[i].path, path) && NoNegative(t)
    requires t[i].size == 0 || path == [] || path != t[i].path
    ensures NoNegative(EmptySteps(t, i, path)) && OwnerBytes(EmptySteps(t, i, path), owner) <= OwnerBytes(t, owner)
  {
    hide Tree, Same, Matches, Parents;
    var t' := EmptySteps(t, i, path);
    forall j | j in t' ensures j in t && t'[j].owner == t[j].owner && FileBytes(t'[j]) == FileBytes(t[j]) {
      if t[i].size != 0 && !t[j].IsFolder() { FileNotAdjusted(t, owners, i, path, j); }
    }
    SumSubset(OwnFiles(t', owner), OwnFiles(t, owner));
  }

  lemma FileNotAdjusted(t: Table, owners: Owners, i: nat, path: Path, j: nat)
    requires Tree(t, owners) && i in t && Same(t[i].path, path) && (path == [] || path != t[i].path)
    requires j in t && !t[j].IsFolder()
    ensures !(t[j].ns == t[i].ns && t[j].path in Parents(t[i].path) + {path})
  {
    hide Labelled, Rooted;
    FileNotRoot(t, owners, j);
    if t[j].ns == t[i].ns {
      if t[j].path < t[i].path { PrefixFolds(t[j].path, t[i].path); ExactAncestor(t, j, i); }
      assert t[j].path == path ==> Clash(t, i, j);
    }
  }

  /** Quota safety: over any run whose uploads pass the check and whose steps keep the tree and its sizes, an owner's
      bytes never exceed a quota they start within, whatever is pending and however many namespaces the owner has. */
  lemma {:induction false} QuotaNeverExceeded(ws: seq<World>, evs: seq<Event>, owner: string, quota: int, n: nat)
    requires |ws| == |evs| + 1 && n < |ws|
    requires forall m :: 0 <= m < |evs| ==>
               && TreeAllowed(ws[m], evs[m]) && SizesAllowed(ws[m], evs[m]) && Step(ws[m], evs[m], ws[m + 1])
               && WithinQuota(ws[m], evs[m], owner, quota)
    requires GoodWorld(ws[0]) && Sized(ws[0].rows) && NoNegative(ws[0].rows) && OwnerBytes(ws[0].rows, owner) <= quota
    ensures GoodWorld(ws[n]) && Sized(ws[n].rows) && NoNegative(ws[n].rows) && OwnerBytes(ws[n].rows, owner) <= quota
  {
    hide TreeAllowed, SizesAllowed, Step, GoodWorld, Sized, NoNegative, OwnerBytes, WithinQuota;
    if n > 0 {
      QuotaNeverExceeded(ws, evs, owner, quota, n - 1);
      assert Step(ws[n - 1], evs[n - 1], ws[n - 1 + 1]);
      StepKeepsGoodIff(ws[n - 1], evs[n - 1], ws[n]);
      StepRespectsQuota(ws[n - 1], evs[n - 1], ws[n], owner, quota);
    }
  }

  // ----- Emptying the trash as it is called

  const TRASH: Path := ["Trash"]
  const MISCASED: Path := ["trash"]  // the spelling empty_trash passes

  // A namespace with nothing but its root and its trash.
  function Bare(ns: string, owner: string, root: int, trash: int): Table {
    map[0 := Row(ns, owner, [], ".", None, root), 1 := Row(ns, owner, TRASH, "Trash", None, trash)]
  }

  function AFile(ns: string, owner: string, path: Path, size: int): Row {
    Row(ns, owner, path, NameOf(path), Some(0), size)
  }

  function WithFile(t: Table, ns: string, owner: string, size: int): Table {
    AddSteps(t, 2, AFile(ns, owner, ["b"], size))
  }

  // Upload a file of s bytes, move it to the trash, empty the trash: the queries the services run.
  function TrashCycle(t: Table, ns: string, owner: string, s: int): Table {
    var t1 := AddSteps(t, 2, AFile(ns, owner, ["a"], s));
    var t2 := MoveSteps(t1, 2, ns, owner, ["Trash", "a"]);
    if 1 in t2 then EmptySteps(t2, 1, MISCASED) else t2
  }

  lemma OneCycle(ns: string, owner: string, root: int, trash: int, s: int)
    requires trash + s != 0
    ensures TrashCycle(Bare(ns, owner, root, trash), ns, owner, s) == Bare(ns, owner, root - trash, trash + s)
  {
    hide Bare, AFile, Added, AddSteps, MoveSteps, Relocated, EmptySteps;
    BareKeys(ns, owner, root, trash, s);
    AddStepsIsAdded(Bare(ns, owner, root, trash), 2, AFile(ns, owner, ["a"], s));
    FileAdded(ns, owner, root, trash, s);
    BareMoves(ns, owner, root + s, trash, s);
    FileTrashed(ns, owner, root, trash, s);
    TrashEmptied(ns, owner, root + s, trash + s, s);
  }

  lemma BareKeys(ns: string, owner: string, root: int, trash: int, s: int)
    ensures 2 !in Bare(ns, owner, root, trash) && !AFile(ns, owner, ["a"], s).IsFolder()
  {
  }

  // Cached sizes aside, the table is a tree, so the queries of the move relocate the file.
  lemma BareMoves(ns: string, owner: string, root: int, trash: int, s: int)
    ensures var t := Bare(ns, owner, root, trash)[2 := AFile(ns, owner, ["a"], s)];
            MoveSteps(t, 2, ns, owner, ["Trash", "a"]) == Relocated(t, ns, ["a"], ns, owner, ["Trash", "a"], s)
  {
    hide MoveSteps, Relocated;
    var t := Bare(ns, owner, root, trash)[2 := AFile(ns, owner, ["a"], s)];
    BareTree(ns, owner, root, trash, s);
    MoveIsRelocation(t, map[ns := owner], 2, ns, ["Trash", "a"]);
  }

  lemma BareTree(ns: string, owner: string, root: int, trash: int, s: int)
    ensures var t := Bare(ns, owner, root, trash)[2 := AFile(ns, owner, ["a"], s)];
            Unique(t) && Closed(t) && Labelled(t, map[ns := owner]) && Checked(t, 2, ns, ["Trash", "a"])
  {
    hide Same, AtOrBelow, NameOf, Parent;
    var t := Bare(ns, owner, root, trash)[2 := AFile(ns, owner, ["a"], s)];
    BarePaths();
    assert t[0].path == [] && t[1].path == TRASH && t[2].path == ["a"];
    assert HasFolder(t, ns, []) by { assert t[0].ns == ns && t[0].IsFolder(); }
    assert HasFolder(t, ns, TRASH) by { assert t[1].ns == ns && t[1].IsFolder(); }
  }

  lemma BarePaths()
    ensures var a: Path := ["a"];
            var b: Path := ["Trash", "a"];
            && !Same([], TRASH) && !Same([], a) && !Same(TRASH, a)
            && !Same(TRASH, []) && !Same(a, []) && !Same(a, TRASH)
            && !Same([], b) && !Same(TRASH, b) && !Same(a, b) && !AtOrBelow(a, b)
            && Parent(TRASH) == [] && Parent(a) == [] && Parent(b) == TRASH
            && NameOf([]) == "." && NameOf(TRASH) == "Trash" && NameOf(a) == "a"
  {
    var a: Path := ["a"];
    var b: Path := ["Trash", "a"];
    assert Lower("Trash") == "trash" && Lower("a") == "a";
    assert Fold([]) == [] && Fold(TRASH) == ["trash"] && Fold(a) == ["a"] && Fold(b) == ["trash", "a"];
    assert |"trash"| == 5 && |"a"| == 1;
  }

  lemma FileAdded(ns: string, owner: string, root: int, trash: int, s: int)
    ensures Added(Bare(ns, owner, root, trash), 2, AFile(ns, owner, ["a"], s))
            == Bare(ns, owner, root + s, trash)[2 := AFile(ns, owner, ["a"], s)]
  {
    var p: Path := ["a"];
    assert !(TRASH < p) && [] < p;
  }

  lemma FileTrashed(ns: string, owner: string, root: int, trash: int, s: int)
    ensures Relocated(Bare(ns, owner, root + s, trash)[2 := AFile(ns, owner, ["a"], s)], ns, ["a"], ns, owner,
            ["Trash", "a"], s)
            == Bare(ns, owner, root + s, trash + s)[2 := AFile(ns, owner, ["Trash", "a"], s)]
  {
    var p: Path := ["a"];
    var q: Path := ["Trash", "a"];
    assert p[0] != TRASH[0] && q[0] == TRASH[0] by { assert |p[0]| == 1 && |TRASH[0]| == 5; }
    FileMoved(ns, owner, root + s, trash, s, p, q);
  }

  // Moving a top-level file into the trash.
  lemma FileMoved(ns: string, owner: string, root: int, trash: int, s: int, p: Path, q: Path)
    requires p != [] && !(p <= TRASH) && !(TRASH < p) && TRASH < q
    ensures Relocated(Bare(ns, owner, root, trash)[2 := AFile(ns, owner, p, s)], ns, p, ns, owner, q, s)
            == Bare(ns, owner, root, trash + s)[2 := AFile(ns, owner, q, s)]
  {
    var t := Bare(ns, owner, root, trash)[2 := AFile(ns, owner, p, s)];
    assert q + p[|p|..] == q;
    assert Carried(t[2], p, ns, owner, q) == AFile(ns, owner, q, s);
    assert Resized(t[0], ns, p, ns, q, s) == t[0];
    assert Resized(t[1], ns, p, ns, q, s) == t[1].(size := trash + s);
  }

  lemma TrashEmptied(ns: string, owner: string, root: int, trash: int, s: int)
    requires trash != 0
    ensures var t := Bare(ns, owner, root, trash)[2 := AFile(ns, owner, ["Trash", "a"], s)];
            1 in t && EmptySteps(t, 1, MISCASED) == Bare(ns, owner, root - trash, trash)
  {
    hide Matches;
    var t := Bare(ns, owner, root, trash)[2 := AFile(ns, owner, ["Trash", "a"], s)];
    var p: Path := ["Trash"];
    MiscasedMatches(t, ns);
    assert Dropped(t, ns, Str(MISCASED) + "/") == Bare(ns, owner, root, trash);
    assert [] == p[..0];
    assert TRASH !in Parents(TRASH) + {MISCASED} && [] in Parents(TRASH);
  }

  lemma MiscasedMatches(t: Table, ns: string)
    ensures forall i :: i in t && t[i].path == [] ==> !Matches(t[i], ns, Str(MISCASED) + "/")
    ensures forall i :: i in t && t[i].path == TRASH ==> !Matches(t[i], ns, Str(MISCASED) + "/")
    ensures forall i :: i in t && t[i].path == ["Trash", "a"] ==>
            (Matches(t[i], ns, Str(MISCASED) + "/") <==> t[i].ns == ns)
  {
    assert Lower("Trash") == Lower("trash") == "trash";
    assert Fold(MISCASED) == ["trash"] && Fold(TRASH) == ["trash"];
    var p: Path := ["Trash", "a"];
    assert Lower("a") == "a";
    assert Fold(p) == ["trash", "a"];
    IPrefixIsAncestry(MISCASED, []);
    IPrefixIsAncestry(MISCASED, TRASH);
    IPrefixIsAncestry(MISCASED, p);
    assert Fold([]) == [];
  }

  // The first cycle leaves the size of "Trash" stale; the second takes it off the root again.
  function TwoCycles(ns: string, owner: string, s: int): Table {
    TrashCycle(TrashCycle(Bare(ns, owner, 0, 0), ns, owner, s), ns, owner, s)
  }

  lemma TwoCyclesLeave(ns: string, owner: string, s: int)
    requires s > 0
    ensures TwoCycles(ns, owner, s) == Bare(ns, owner, 0 - s, s + s)
  {
    hide TrashCycle, Bare;
    OneCycle(ns, owner, 0, 0, s);
    OneCycle(ns, owner, 0, s, s);
  }

  lemma BareUsage(ns: string, owner: string, root: int, trash: int, size: int)
    ensures var t := Bare(ns, owner, root, trash);
            && SpaceUsed(t, owner) == root && OwnerBytes(t, owner) == 0
            && OwnerBytes(WithFile(t, ns, owner, size), owner) == size
  {
    hide Bare, WithFile;
    var t := Bare(ns, owner, root, trash);
    var t' := WithFile(t, ns, owner, size);
    BareRows(ns, owner, root, trash, size);
    SumSingle(RootSizes(t, owner), 0);
    SumZero(OwnFiles(t, owner));
    SumSingle(OwnFiles(t', owner), 2);
  }

  lemma BareRows(ns: string, owner: string, root: int, trash: int, size: int)
    ensures var t := Bare(ns, owner, root, trash);
            && t.Keys == {0, 1} && RootBytes(t[0], owner) == root && RootBytes(t[1], owner) == 0
            && t[0].IsFolder() && t[1].IsFolder()
            && var t' := WithFile(t, ns, owner, size);
            t'.Keys == {0, 1, 2} && t'[0].IsFolder() && t'[1].IsFolder() && OwnBytes(t'[2], owner) == size
  {
  }

  /** After the trash has been filled and emptied twice, no file is left but the space the check reads is negative,
      so it admits an upload that takes the owner over the quota. */
  lemma EmptyTrashBreaksQuota(ns: string, owner: string, s: int, quota: int)
    requires s > 0 && quota >= 0
    ensures var t := TwoCycles(ns, owner, s);
            && OwnerBytes(t, owner) == 0 && SpaceUsed(t, owner) + s == 0
            && SpaceUsed(t, owner) + (quota + s) <= quota
            && OwnerBytes(WithFile(t, ns, owner, quota + s), owner) > quota
  {
    hide TwoCycles, Bare, SpaceUsed, OwnerBytes, WithFile;
    TwoCyclesLeave(ns, owner, s);
    BareUsage(ns, owner, 0 - s, s + s, quota + s);
  }
}
