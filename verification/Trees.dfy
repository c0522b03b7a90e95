/** What each file operation does to the table as a whole, and that it keeps a tree and its sizes. */
module Trees {
  import opened Paths
  import opened Sums
  import opened Rows

  lemma CachedSize(t: Table, f: nat)
    requires Sized(t) && f in t && t[f].IsFolder()
    ensures t[f].size == SizeBelow(t, t[f].ns, t[f].path)
  {
  }

  // ----- A new row

  function Grow(r: Row, ns: string, p: Path, size: int): Row {
    if r.ns == ns && r.path < p then r.(size := r.size + size) else r
  }

  function Added(t: Table, id: nat, r: Row): Table {
    (map i | i in t :: Grow(t[i], r.ns, r.path, FileBytes(r)))[id := r]
  }

  ghost predicate CanAdd(t: Table, owners: Owners, id: nat, r: Row) {
    && id !in t && !Taken(t, r.ns, r.path)
    && r.ns in owners && r.owner == owners[r.ns] && r.name == NameOf(r.path)
    && (if r.path == [] then r.IsFolder() else HasFolder(t, r.ns, Parent(r.path)))
    && (r.IsFolder() ==> r.size == 0)
  }

  lemma FolderKept(t: Table, t': Table, ns: string, p: Path)
    requires HasFolder(t, ns, p)
    requires forall i :: i in t && t[i].ns == ns && t[i].path == p && t[i].IsFolder() ==>
               i in t' && t'[i].ns == ns && t'[i].path == p && t'[i].IsFolder()
    ensures HasFolder(t', ns, p)
  {
    var i :| i in t && t[i].ns == ns && t[i].path == p && t[i].IsFolder();
    assert i in t';
  }

  lemma AddedUnique(t: Table, owners: Owners, id: nat, r: Row)
    requires Unique(t) && CanAdd(t, owners, id, r)
    ensures Unique(Added(t, id, r))
  {
    var t' := Added(t, id, r);
    forall i: nat, j: nat | Clash(t', i, j) ensures i == j {
      if i != id && j != id { assert Clash(t, i, j); }
      if i != id { assert !At(t[i], r.ns, r.path); }
      if j != id { assert !At(t[j], r.ns, r.path); }
    }
  }

  lemma AddedClosed(t: Table, owners: Owners, id: nat, r: Row)
    requires Closed(t) && CanAdd(t, owners, id, r)
    ensures Closed(Added(t, id, r))
  {
    var t' := Added(t, id, r);
    forall i | i in t' && t'[i].path != [] ensures HasFolder(t', t'[i].ns, Parent(t'[i].path)) {
      var ns, p := t'[i].ns, Parent(t'[i].path);
      assert HasFolder(t, ns, p) by {
        if i != id { assert HasFolder(t, t[i].ns, Parent(t[i].path)); }
      }
      FolderKept(t, t', ns, p);
    }
  }

  lemma AddedKeepsTree(t: Table, owners: Owners, id: nat, r: Row)
    requires Unique(t) && Closed(t) && Labelled(t, owners) && CanAdd(t, owners, id, r)
    ensures Unique(Added(t, id, r)) && Closed(Added(t, id, r)) && Labelled(Added(t, id, r), owners)
    ensures Rooted(t, owners) ==> Rooted(Added(t, id, r), owners)
  {
    hide Unique, Closed, Rooted;
    AddedUnique(t, owners, id, r);
    AddedClosed(t, owners, id, r);
    if Rooted(t, owners) { AddedRooted(t, owners, id, r); }
  }

  lemma AddedRooted(t: Table, owners: Owners, id: nat, r: Row)
    requires Rooted(t, owners) && id !in t
    ensures Rooted(Added(t, id, r), owners)
  {
    forall ns | ns in owners ensures HasFolder(Added(t, id, r), ns, []) {
      FolderKept(t, Added(t, id, r), ns, []);
    }
  }

  lemma FilesHaveNoChildren(t: Table, owners: Owners, id: nat, r: Row, j: nat)
    requires Unique(t) && Closed(t) && CanAdd(t, owners, id, r) && j in t && !t[j].IsFolder()
    ensures !(t[j].ns == r.ns && t[j].path < r.path)
  {
    if t[j].ns == r.ns && t[j].path < r.path {
      assert HasFolder(t, r.ns, Parent(r.path));
      var k :| k in t && t[k].ns == r.ns && t[k].path == Parent(r.path) && t[k].IsFolder();
      PrefixFolds(t[j].path, t[k].path);
      ExactAncestor(t, j, k);
    }
  }

  lemma NoFilesBelowNew(t: Table, owners: Owners, id: nat, r: Row, j: nat)
    requires Closed(t) && CanAdd(t, owners, id, r) && j in t
    ensures !(t[j].ns == r.ns && r.path < t[j].path)
  {
    if t[j].ns == r.ns && r.path < t[j].path {
      PrefixFolds(r.path, t[j].path);
      var k := NothingBelowFree(t, r.ns, r.path, j);
    }
  }

  /** Adding a row below exactly stored ancestors, and growing them, keeps cached sizes right. */
  lemma AddedKeepsSized(t: Table, owners: Owners, id: nat, r: Row)
    requires Unique(t) && Closed(t) && Sized(t) && CanAdd(t, owners, id, r)
    ensures Sized(Added(t, id, r))
  {
    hide Unique, Closed;
    var t' := Added(t, id, r);
    forall i | i in t' && t'[i].IsFolder() ensures t'[i].size == SizeBelow(t', t'[i].ns, t'[i].path) {
      var ns, p := t'[i].ns, t'[i].path;
      var b := FilesBelow(t', ns, p);
      AddedWeights(t, owners, id, r, ns, p);
      SumPick(b, id);
      if i == id {
        forall j | j in t ensures (b - {id})[j] == 0 {
          NoFilesBelowNew(t, owners, id, r, j);
        }
        SumZero(b - {id});
      }
    }
  }

  lemma AddedWeights(t: Table, owners: Owners, id: nat, r: Row, ns: string, p: Path)
    requires Unique(t) && Closed(t) && CanAdd(t, owners, id, r) && id !in t
    ensures FilesBelow(Added(t, id, r), ns, p) - {id} == FilesBelow(t, ns, p)
  {
    hide Unique, Closed, CanAdd;
    var t' := Added(t, id, r);
    forall j | j in t ensures BytesBelow(t'[j], ns, p) == BytesBelow(t[j], ns, p) {
      if !t[j].IsFolder() { FilesHaveNoChildren(t, owners, id, r, j); }
    }
    SameWeights(t, t', id, ns, p);
  }

  lemma SameWeights(t: Table, t': Table, id: nat, ns: string, p: Path)
    requires id !in t && t'.Keys == t.Keys + {id} && forall j :: j in t ==>
             BytesBelow(t'[j], ns, p) == BytesBelow(t[j], ns, p)
    ensures FilesBelow(t', ns, p) - {id} == FilesBelow(t, ns, p)
  {
    hide BytesBelow;
  }

  // ----- Removing rows

  predicate Cut(r: Row, ns: string, p: Path, whole: bool) {
    r.ns == ns && if whole then p <= r.path else p < r.path
  }

  function Shrink(r: Row, ns: string, p: Path, size: int): Row {
    if r.ns == ns && r.path <= p then r.(size := r.size - size) else r
  }

  // Removes the rows strictly below p (and p itself when `whole`), taking `size` off p and its ancestors.
  function Removed(t: Table, ns: string, p: Path, whole: bool, size: int): Table {
    map i | i in t && !Cut(t[i], ns, p, whole) :: Shrink(t[i], ns, p, size)
  }

  lemma RemovedUnique(t: Table, ns: string, p: Path, whole: bool, size: int)
    requires Unique(t)
    ensures Unique(Removed(t, ns, p, whole, size))
  {
    forall i: nat, j: nat | Clash(Removed(t, ns, p, whole, size), i, j) ensures i == j {
      assert Clash(t, i, j);
    }
  }

  lemma RemovedClosed(t: Table, ns: string, p: Path, whole: bool, size: int)
    requires Closed(t)
    ensures Closed(Removed(t, ns, p, whole, size))
  {
    var t' := Removed(t, ns, p, whole, size);
    forall i | i in t' && t'[i].path != [] ensures HasFolder(t', t'[i].ns, Parent(t'[i].path)) {
      assert HasFolder(t, t[i].ns, Parent(t[i].path));
      FolderKept(t, t', t[i].ns, Parent(t[i].path));
    }
  }

  lemma RemovedKeepsTree(t: Table, owners: Owners, ns: string, p: Path, whole: bool, size: int)
    requires Tree(t, owners) && p != []
    ensures Tree(Removed(t, ns, p, whole, size), owners)
  {
    hide Unique, Closed, Labelled, Rooted, Removed;
    RemovedUnique(t, ns, p, whole, size);
    RemovedClosed(t, ns, p, whole, size);
    RemovedRooted(t, owners, ns, p, whole, size);
    RemovedLabelled(t, owners, ns, p, whole, size);
  }

  lemma RemovedLabelled(t: Table, owners: Owners, ns: string, p: Path, whole: bool, size: int)
    requires Labelled(t, owners)
    ensures Labelled(Removed(t, ns, p, whole, size), owners)
  {
    var t' := Removed(t, ns, p, whole, size);
    forall i | i in t'
      ensures t'[i].name == NameOf(t'[i].path) && t'[i].ns in owners && t'[i].owner == owners[t'[i].ns]
    {
      assert i in t;
    }
  }

  lemma RemovedRooted(t: Table, owners: Owners, ns: string, p: Path, whole: bool, size: int)
    requires Rooted(t, owners) && p != []
    ensures Rooted(Removed(t, ns, p, whole, size), owners)
  {
    forall n | n in owners ensures HasFolder(Removed(t, ns, p, whole, size), n, []) {
      FolderKept(t, Removed(t, ns, p, whole, size), n, []);
    }
  }

  /** Removing a subtree, or what lies below a row, with its size taken off the row and its ancestors keeps cached sizes
      right. */
  lemma RemovedKeepsSized(t: Table, i: nat, whole: bool)
    requires Unique(t) && Closed(t) && Sized(t) && i in t
    ensures Sized(Removed(t, t[i].ns, t[i].path, whole, t[i].size))
  {
    var t' := Removed(t, t[i].ns, t[i].path, whole, t[i].size);
    forall f | f in t' && t'[f].IsFolder() ensures t'[f].size == SizeBelow(t', t'[f].ns, t'[f].path) {
      RemovedFolderSize(t, i, whole, f);
    }
  }

  lemma RemovedFolderSize(t: Table, i: nat, whole: bool, f: nat)
    requires Unique(t) && Closed(t) && Sized(t) && i in t
    requires f in t && t[f].IsFolder() && !Cut(t[f], t[i].ns, t[i].path, whole)
    ensures SizeBelow(Removed(t, t[i].ns, t[i].path, whole, t[i].size), t[f].ns, t[f].path)
         == Shrink(t[f], t[i].ns, t[i].path, t[i].size).size
  {
    hide Unique, Closed, Sized, BytesBelow, FileBytes, Cut, InSubtree;
    var n, q := t[f].ns, t[f].path;
    CachedSize(t, f);
    SubtreeSize(t, i);
    var s := SubtreeFiles(t, t[i].ns, t[i].path);
    var a, b := FilesBelow(t, n, q), FilesBelow(Removed(t, t[i].ns, t[i].path, whole, t[i].size), n, q);
    var loses := n == t[i].ns && q <= t[i].path;
    forall j | j in t ensures a[j] == (if j in b then b[j] else 0) + (if loses then s[j] else 0) {
      RemovedWeight(t, i, whole, f, j);
    }
    SumBalance(a, b, s, false, loses);
  }

  // How one row's contribution to a remaining folder changes.
  lemma RemovedWeight(t: Table, i: nat, whole: bool, f: nat, j: nat)
    requires Unique(t) && Closed(t) && i in t && j in t && f in t && t[f].IsFolder()
    requires !Cut(t[f], t[i].ns, t[i].path, whole)
    ensures var n, q := t[f].ns, t[f].path;
            var kept := if Cut(t[j], t[i].ns, t[i].path, whole) then 0
                        else BytesBelow(Shrink(t[j], t[i].ns, t[i].path, t[i].size), n, q);
            var cut := if n == t[i].ns && q <= t[i].path && InSubtree(t[j], t[i].ns, t[i].path)
                       then FileBytes(t[j]) else 0;
            BytesBelow(t[j], n, q) == kept + cut
  {
    var ns, p := t[i].ns, t[i].path;
    if !t[j].IsFolder() && t[j].ns == ns && t[j].path <= p {
      PrefixFolds(t[j].path, p);
      ExactAncestor(t, j, i);
    }
    if t[f].ns == ns && t[f].path == p {
      PrefixFolds(p, p);
      ExactAncestor(t, f, i);
    }
  }

  // ----- Moving a subtree

  function Carried(r: Row, at: Path, toNs: string, toOwner: string, to: Path): Row
    requires at <= r.path
  {
    var p := to + r.path[|at|..];
    r.(ns := toNs, owner := toOwner, path := p, name := NameOf(p))
  }

  function Resized(r: Row, atNs: string, at: Path, toNs: string, to: Path, size: int): Row {
    r.(size := r.size - (if r.ns == atNs && r.path < at then size else 0)
                      + (if r.ns == toNs && r.path < to then size else 0))
  }

  // Every row at or below the source gets its prefix swapped; ancestors on either side are resized.
  function Relocated(t: Table, atNs: string, at: Path, toNs: string, toOwner: string, to: Path, size: int): Table {
    map i | i in t ::
      if InSubtree(t[i], atNs, at) then Carried(t[i], at, toNs, toOwner, to)
      else Resized(t[i], atNs, at, toNs, to, size)
  }

  // i may move to (ns, to): the parent is a stored folder outside the subtree and nothing else is at the destination.
  ghost predicate CanMove(t: Table, i: nat, ns: string, to: Path) {
    && i in t && t[i].path != [] && to != []
    && HasFolder(t, ns, Parent(to))
    && (ns == t[i].ns ==> AtOrBelow(t[i].path, to) ==> Same(t[i].path, to))
    && (forall j :: j in t && At(t[j], ns, to) ==> j == i)
  }

  // Only the moved rows lie at or below the destination.
  lemma OnlyMovedBelow(t: Table, i: nat, ns: string, to: Path, j: nat)
    requires Closed(t) && i in t && CanMove(t, i, ns, to) && j in t && t[j].ns == ns
    ensures AtOrBelow(to, t[j].path) ==> InSubtree(t[j], t[i].ns, t[i].path)
  {
    hide Closed, HasFolder;
    if AtOrBelow(to, t[j].path) {
      var k := NothingBelowFree(t, ns, to, j);
      assert k == i;
    }
  }

  // The destination's parent does not move.
  lemma ParentStays(t: Table, i: nat, ns: string, to: Path)
    requires CanMove(t, i, ns, to) && ns == t[i].ns
    ensures !(t[i].path <= Parent(to))
  {
    var at, q := t[i].path, Parent(to);
    if at <= q {
      PrefixFolds(at, q);
      PrefixFolds(q, to);
    }
  }

  lemma CarriedSame(at: Path, to: Path, p: Path, q: Path)
    requires at <= p && at <= q && Same(to + p[|at|..], to + q[|at|..])
    ensures Same(p, q)
  {
    var r, s := p[|at|..], q[|at|..];
    FoldConcat(to, r);
    FoldConcat(to, s);
    FoldConcat(at, r);
    FoldConcat(at, s);
    assert Fold(to + r)[|to|..] == Fold(r) && Fold(to + s)[|to|..] == Fold(s);
    assert p == at + r && q == at + s;
  }

  lemma CarriedBelow(to: Path, rest: Path)
    ensures AtOrBelow(to, to + rest)
  {
    PrefixFolds(to, to + rest);
  }

  lemma RelocatedUnique(t: Table, i: nat, ns: string, owner: string, to: Path, size: int)
    requires Unique(t) && Closed(t) && i in t && CanMove(t, i, ns, to)
    ensures Unique(Relocated(t, t[i].ns, t[i].path, ns, owner, to, size))
  {
    hide Closed, CanMove, AtOrBelow;
    var atNs, at := t[i].ns, t[i].path;
    var t' := Relocated(t, atNs, at, ns, owner, to, size);
    forall j: nat, k: nat | Clash(t', j, k) ensures j == k {
      assert Same(t'[j].path, t'[k].path);
      if InSubtree(t[j], atNs, at) && InSubtree(t[k], atNs, at) {
        CarriedSame(at, to, t[j].path, t[k].path);
      } else if InSubtree(t[j], atNs, at) {
        CarriedOutside(t, i, ns, to, j, k);
      } else if InSubtree(t[k], atNs, at) {
        CarriedOutside(t, i, ns, to, k, j);
      }
      assert Clash(t, j, k);
    }
  }

  lemma CarriedOutside(t: Table, i: nat, ns: string, to: Path, j: nat, k: nat)
    requires Closed(t) && i in t && CanMove(t, i, ns, to) && j in t && k in t
    requires InSubtree(t[j], t[i].ns, t[i].path) && t[k].ns == ns
    ensures Same(to + t[j].path[|t[i].path|..], t[k].path) ==> InSubtree(t[k], t[i].ns, t[i].path)
  {
    hide Closed, CanMove;
    OnlyMovedBelow(t, i, ns, to, k);
    CarriedBelow(to, t[j].path[|t[i].path|..]);
  }

  lemma RelocatedClosed(t: Table, i: nat, ns: string, owner: string, to: Path, size: int)
    requires Closed(t) && Unique(t) && i in t && CanMove(t, i, ns, to)
    ensures Closed(Relocated(t, t[i].ns, t[i].path, ns, owner, to, size))
  {
    hide Unique;
    var atNs, at := t[i].ns, t[i].path;
    var t' := Relocated(t, atNs, at, ns, owner, to, size);
    forall j | j in t' && t'[j].path != [] ensures HasFolder(t', t'[j].ns, Parent(t'[j].path)) {
      if InSubtree(t[j], atNs, at) && t[j].path != at {
        MovedParent(t, i, ns, owner, to, size, j);
      } else {
        if t[j].path == at && t[j].ns == atNs {
          assert t'[j].path == to;
          if ns == atNs { ParentStays(t, i, ns, to); }
          StaysFolder(t, i, ns, owner, to, size, ns, Parent(to));
        } else {
          assert HasFolder(t, t[j].ns, Parent(t[j].path));
          StaysFolder(t, i, ns, owner, to, size, t[j].ns, Parent(t[j].path));
        }
      }
    }
  }

  lemma StaysFolder(t: Table, i: nat, ns: string, owner: string, to: Path, size: int, n: string, p: Path)
    requires i in t && HasFolder(t, n, p) && !(n == t[i].ns && t[i].path <= p)
    ensures HasFolder(Relocated(t, t[i].ns, t[i].path, ns, owner, to, size), n, p)
  {
    FolderKept(t, Relocated(t, t[i].ns, t[i].path, ns, owner, to, size), n, p);
  }

  lemma MovedParent(t: Table, i: nat, ns: string, owner: string, to: Path, size: int, j: nat)
    requires Closed(t) && i in t && j in t && InSubtree(t[j], t[i].ns, t[i].path) && t[j].path != t[i].path
    ensures HasFolder(Relocated(t, t[i].ns, t[i].path, ns, owner, to, size), ns, Parent(to + t[j].path[|t[i].path|..]))
  {
    var at, p := t[i].path, t[j].path;
    assert HasFolder(t, t[j].ns, Parent(p));
    var k :| k in t && t[k].ns == t[j].ns && t[k].path == Parent(p) && t[k].IsFolder();
    hide Closed, HasFolder;
    assert InSubtree(t[k], t[i].ns, at);
    assert to + Parent(p)[|at|..] == Parent(to + p[|at|..]);
    MovedFolder(t, i, ns, owner, to, size, k);
  }

  lemma MovedFolder(t: Table, i: nat, ns: string, owner: string, to: Path, size: int, k: nat)
    requires i in t && k in t && InSubtree(t[k], t[i].ns, t[i].path) && t[k].IsFolder()
    ensures HasFolder(Relocated(t, t[i].ns, t[i].path, ns, owner, to, size), ns, to + t[k].path[|t[i].path|..])
  {
    var t' := Relocated(t, t[i].ns, t[i].path, ns, owner, to, size);
    assert k in t' && t'[k].ns == ns && t'[k].path == to + t[k].path[|t[i].path|..] && t'[k].IsFolder();
  }

  /** A move keeps the table a tree. */
  lemma RelocatedKeepsTree(t: Table, owners: Owners, i: nat, ns: string, to: Path, size: int)
    requires Tree(t, owners) && CanMove(t, i, ns, to) && ns in owners
    ensures Tree(Relocated(t, t[i].ns, t[i].path, ns, owners[ns], to, size), owners)
  {
    hide Unique, Closed, Labelled, Rooted, Relocated;
    RelocatedUnique(t, i, ns, owners[ns], to, size);
    RelocatedClosed(t, i, ns, owners[ns], to, size);
    RelocatedLabelled(t, owners, i, ns, to, size);
    RelocatedRooted(t, owners, i, ns, to, size);
  }

  lemma RelocatedLabelled(t: Table, owners: Owners, i: nat, ns: string, to: Path, size: int)
    requires Labelled(t, owners) && i in t && ns in owners
    ensures Labelled(Relocated(t, t[i].ns, t[i].path, ns, owners[ns], to, size), owners)
  {
  }

  lemma RelocatedRooted(t: Table, owners: Owners, i: nat, ns: string, to: Path, size: int)
    requires Rooted(t, owners) && i in t && t[i].path != [] && ns in owners
    ensures Rooted(Relocated(t, t[i].ns, t[i].path, ns, owners[ns], to, size), owners)
  {
    forall n | n in owners ensures HasFolder(Relocated(t, t[i].ns, t[i].path, ns, owners[ns], to, size), n, []) {
      StaysFolder(t, i, ns, owners[ns], to, size, n, []);
    }
  }

  /** A move keeps every cached size right, on both sides and inside the moved subtree. */
  lemma RelocatedKeepsSized(t: Table, i: nat, ns: string, owner: string, to: Path)
    requires Unique(t) && Closed(t) && Sized(t) && i in t && CanMove(t, i, ns, to)
    ensures Sized(Relocated(t, t[i].ns, t[i].path, ns, owner, to, t[i].size))
  {
    hide Unique, Closed, CanMove, InSubtree;
    var t' := Relocated(t, t[i].ns, t[i].path, ns, owner, to, t[i].size);
    forall f | f in t' && t'[f].IsFolder() ensures t'[f].size == SizeBelow(t', t'[f].ns, t'[f].path) {
      if InSubtree(t[f], t[i].ns, t[i].path) {
        MovedFolderSize(t, i, ns, owner, to, f);
      } else {
        OtherFolderSize(t, i, ns, owner, to, f);
      }
    }
  }

  lemma MovedFolderSize(t: Table, i: nat, ns: string, owner: string, to: Path, f: nat)
    requires Closed(t) && i in t && CanMove(t, i, ns, to) && f in t && InSubtree(t[f], t[i].ns, t[i].path)
    ensures SizeBelow(Relocated(t, t[i].ns, t[i].path, ns, owner, to, t[i].size), ns, to + t[f].path[|t[i].path|..])
         == SizeBelow(t, t[f].ns, t[f].path)
  {
    hide Closed, CanMove;
    var at := t[i].path;
    var t' := Relocated(t, t[i].ns, at, ns, owner, to, t[i].size);
    var q := to + t[f].path[|at|..];
    var a, b := FilesBelow(t, t[f].ns, t[f].path), FilesBelow(t', ns, q);
    forall j | j in t ensures a[j] == b[j] {
      if InSubtree(t[j], t[i].ns, at) {
        CarriedOrder(at, to, t[f].path, t[j].path);
      } else if t[j].ns == ns && q < t[j].path {
        PrefixFolds(to, t[j].path);
        OnlyMovedBelow(t, i, ns, to, j);
      }
    }
    assert a == b;
  }

  lemma CarriedOrder(at: Path, to: Path, p: Path, q: Path)
    requires at <= p && at <= q
    ensures p < q <==> to + p[|at|..] < to + q[|at|..]
  {
    var p', q' := to + p[|at|..], to + q[|at|..];
    assert p == at + p'[|to|..] && q == at + q'[|to|..];
    if p < q {
      assert q[..|p|] == p;
      assert q'[..|p'|] == to + q[..|p|][|at|..];
    }
    if p' < q' {
      assert q'[..|p'|] == p';
      assert q[..|p|] == at + q'[..|p'|][|to|..];
    }
  }

  lemma OtherFolderSize(t: Table, i: nat, ns: string, owner: string, to: Path, f: nat)
    requires Unique(t) && Closed(t) && Sized(t) && i in t && CanMove(t, i, ns, to)
    requires f in t && t[f].IsFolder() && !InSubtree(t[f], t[i].ns, t[i].path)
    ensures SizeBelow(Relocated(t, t[i].ns, t[i].path, ns, owner, to, t[i].size), t[f].ns, t[f].path)
         == Resized(t[f], t[i].ns, t[i].path, ns, to, t[i].size).size
  {
    hide Unique, Closed, Sized, CanMove, BytesBelow, FileBytes, Carried, InSubtree;
    var n, q := t[f].ns, t[f].path;
    var atNs, at, size := t[i].ns, t[i].path, t[i].size;
    CachedSize(t, f);
    SubtreeSize(t, i);
    var s := SubtreeFiles(t, atNs, at);
    var a, b := FilesBelow(t, n, q), FilesBelow(Relocated(t, atNs, at, ns, owner, to, size), n, q);
    var loses, gains := n == atNs && q < at, n == ns && q < to;
    forall j | j in t ensures a[j] + (if gains then s[j] else 0) == b[j] + (if loses then s[j] else 0) {
      OtherWeight(t, i, ns, owner, to, f, j);
    }
    SumBalance(a, b, s, gains, loses);
  }

  // How one row's contribution to a folder outside the moved subtree changes.
  lemma OtherWeight(t: Table, i: nat, ns: string, owner: string, to: Path, f: nat, j: nat)
    requires Unique(t) && Closed(t) && i in t && CanMove(t, i, ns, to) && j in t
    requires f in t && t[f].IsFolder() && !InSubtree(t[f], t[i].ns, t[i].path)
    ensures var n, q := t[f].ns, t[f].path;
            var atNs, at := t[i].ns, t[i].path;
            var inside := InSubtree(t[j], atNs, at);
            var r := if inside then Carried(t[j], at, ns, owner, to) else Resized(t[j], atNs, at, ns, to, t[i].size);
            BytesBelow(t[j], n, q) + (if inside && n == ns && q < to then FileBytes(t[j]) else 0)
            == BytesBelow(r, n, q) + (if inside && n == atNs && q < at then FileBytes(t[j]) else 0)
  {
    var n, q := t[f].ns, t[f].path;
    hide Unique, Closed, CanMove;
    if InSubtree(t[j], t[i].ns, t[i].path) {
      var at, rest := t[i].path, t[j].path[|t[i].path|..];
      BelowExtension(q, at, rest);
      BelowExtension(q, to, rest);
      assert t[j].path == at + rest;
      if n == ns && to <= q {
        PrefixFolds(to, q);
        OnlyMovedBelow(t, i, ns, to, f);
      }
    } else if !t[j].IsFolder() {
      FileNotAbove(t, i, ns, to, j);
    }
  }

  lemma BelowExtension(q: Path, p: Path, rest: Path)
    ensures q < p + rest <==> q < p || (p <= q && q < p + rest)
  {
    if q < p + rest && |q| < |p| {
      assert q == (p + rest)[..|q|] == p[..|q|];
    }
    if q < p { assert q == (p + rest)[..|q|]; }
    if q < p + rest && |q| >= |p| {
      assert p == (p + rest)[..|p|] == q[..|p|];
    }
  }

  lemma FileNotAbove(t: Table, i: nat, ns: string, to: Path, j: nat)
    requires Unique(t) && Closed(t) && i in t && CanMove(t, i, ns, to) && j in t && !t[j].IsFolder()
    ensures !(t[j].ns == t[i].ns && t[j].path < t[i].path)
    ensures !(t[j].ns == ns && t[j].path < to)
  {
    var p := t[j].path;
    if t[j].ns == t[i].ns && p < t[i].path {
      PrefixFolds(p, t[i].path);
      ExactAncestor(t, j, i);
    }
    var k :| k in t && t[k].ns == ns && t[k].path == Parent(to) && t[k].IsFolder();
    if t[j].ns == ns && p < to {
      PrefixFolds(p, t[k].path);
      ExactAncestor(t, j, k);
    }
  }
}
