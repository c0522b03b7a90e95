/** Creating a file: missing ancestors, a free name, then the row and the sizes above it. */
module Uploads {
  import opened Paths
  import opened Rows
  import opened Trees
  import opened FileTable
  import opened Folders

  function AddSteps(t: Table, id: nat, r: Row): Table {
    IncrementedAll(t[id := r], r.ns, Parents(r.path), r.size)
  }

  lemma AddStepsIsAdded(t: Table, id: nat, r: Row)
    requires !r.IsFolder() && id !in t
    ensures AddSteps(t, id, r) == Added(t, id, r)
  {
  }

  // Every stored row on the path is spelled the way the path spells it.
  ghost predicate SpelledAsStored(t: Table, ns: string, path: Path) {
    forall i :: OnPath(t, ns, path, i) ==> t[i].path <= path
  }

  lemma DeepestSpelling(t: Table, ns: string, path: Path, deep: nat)
    requires Unique(t) && Closed(t) && IsDeepest(t, ns, path, deep)
    ensures SpelledAsStored(t, ns, path) <==> t[deep].path <= path
  {
    if t[deep].path <= path {
      forall i | OnPath(t, ns, path, i) ensures t[i].path <= path {
        OnPathFold(t, ns, path, i);
        OnPathFold(t, ns, path, deep);
        ExactAncestor(t, i, deep);
      }
    }
  }

  // The new file row, once its parent folder chain is in place.
  ghost predicate FreshFile(t: Table, owners: Owners, id: nat, r: Row) {
    && id !in t && !r.IsFolder() && r.path != [] && !Taken(t, r.ns, r.path)
    && r.ns in owners && r.owner == owners[r.ns] && r.name == NameOf(r.path)
  }

  lemma FileAddedKeepsTree(t: Table, owners: Owners, id: nat, r: Row)
    requires Tree(t, owners) && FreshFile(t, owners, id, r) && HasFolder(t, r.ns, Parent(r.path))
    ensures Tree(AddSteps(t, id, r), owners) && (Sized(t) ==> Sized(AddSteps(t, id, r)))
  {
    hide Sized, AddSteps, Added;
    AddStepsIsAdded(t, id, r);
    AddedKeepsTree(t, owners, id, r);
    if Sized(t) { AddedKeepsSized(t, owners, id, r); }
  }

  lemma FolderOfAdded(t: Table, owners: Owners, id: nat, r: Row, ns: string, p: Path)
    requires FreshFile(t, owners, id, r) && HasFolder(AddSteps(t, id, r), ns, p)
    ensures HasFolder(t, ns, p)
  {
    var k :| k in AddSteps(t, id, r) && AddSteps(t, id, r)[k].ns == ns && AddSteps(t, id, r)[k].path == p
      && AddSteps(t, id, r)[k].IsFolder();
    assert k in t && t[k].ns == ns && t[k].path == p && t[k].IsFolder();
  }

  lemma AddedTreeNeedsTree(t: Table, owners: Owners, id: nat, r: Row)
    requires FreshFile(t, owners, id, r) && Unique(AddSteps(t, id, r)) && Closed(AddSteps(t, id, r))
    ensures Unique(t) && Closed(t) && HasFolder(t, r.ns, Parent(r.path))
  {
    var t' := AddSteps(t, id, r);
    forall i: nat, j: nat | Clash(t, i, j) ensures i == j { assert Clash(t', i, j); }
    forall i | i in t && t[i].path != [] ensures HasFolder(t, t[i].ns, Parent(t[i].path)) {
      assert HasFolder(t', t'[i].ns, Parent(t'[i].path));
      FolderOfAdded(t, owners, id, r, t[i].ns, Parent(t[i].path));
    }
    assert HasFolder(t', t'[id].ns, Parent(t'[id].path));
    FolderOfAdded(t, owners, id, r, r.ns, Parent(r.path));
  }

  // The folder chain of the parent, before the file itself.
  ghost function WithParents(t: Table, owners: Owners, id: nat, ns: string, parent: Path, last: nat): Table
    requires OnPath(t, ns, parent, last) && ns in owners
  {
    if Taken(t, ns, parent) then t else SavedBatch(t, id, NewRows(t, ns, owners[ns], parent, last))
  }

  lemma ParentChain(t: Table, owners: Owners, id: nat, ns: string, parent: Path, last: nat, deep: nat)
    requires Tree(t, owners) && (forall i :: i in t ==> i < id) && ns in owners
    requires IsLast(t, ns, parent, last) && IsDeepest(t, ns, parent, deep) && t[deep].IsFolder()
    ensures var t1 := WithParents(t, owners, id, ns, parent, last);
            Unique(t1) && Closed(t1) && HasFolder(t1, ns, parent) <==> t[deep].path <= parent
    ensures t[deep].path <= parent ==> Tree(WithParents(t, owners, id, ns, parent, last), owners)
    ensures t[deep].path <= parent && Sized(t) ==> Sized(WithParents(t, owners, id, ns, parent, last))
  {
    hide Sized, Labelled, Rooted, SavedBatch;
    OnPathFold(t, ns, parent, last);
    OnPathFold(t, ns, parent, deep);
    if Taken(t, ns, parent) {
      TakenIsDeepest(t, ns, parent, deep);
      if HasFolder(t, ns, parent) {
        var k :| k in t && t[k].ns == ns && t[k].path == parent;
        assert Clash(t, k, deep);
      }
    } else {
      assert !At(t[last], ns, parent);
      CreateFolderFillsGap(t, owners, id, ns, parent, last, deep);
      if GoodCasing(parent, t[deep].path) {
        FilledParent(t, WithParents(t, owners, id, ns, parent, last), owners, id, ns, parent, deep);
      } else {
        BadCasingBreaks(t, owners, id, ns, parent, last, deep);
      }
    }
  }

  lemma TakenIsDeepest(t: Table, ns: string, path: Path, deep: nat)
    requires Taken(t, ns, path) && IsDeepest(t, ns, path, deep)
    ensures At(t[deep], ns, path) && |t[deep].path| == |path|
    ensures t[deep].path <= path ==> t[deep].path == path
  {
    var j :| j in t && At(t[j], ns, path);
    assert OnPath(t, ns, path, j);
    assert |t[j].path| == |Fold(t[j].path)| == |path|;
    OnPathFold(t, ns, path, deep);
    assert Fold(path)[..|path|] == Fold(path);
  }

  lemma FilledParent(t: Table, t1: Table, owners: Owners, id: nat, ns: string, parent: Path, deep: nat)
    requires Tree(t1, owners) && ns in owners && IsDeepest(t, ns, parent, deep) && |t[deep].path| <= |parent|
    requires !Taken(t, ns, parent)
    requires Filled(t, t1, id, ns, owners[ns], WithCasing(parent, t[deep].path), |t[deep].path|)
    ensures HasFolder(t1, ns, parent) <==> t[deep].path <= parent
  {
    hide Tree, IsDeepest, Same, AtOrBelow;
    TreeParts(t1, owners);
    DeepestIsOnPath(t, ns, parent, deep);
    FreeIsLonger(t, ns, parent, deep);
    RestoredCasingSame(parent, t[deep].path);
    FilledLast(t, t1, id, ns, owners[ns], WithCasing(parent, t[deep].path), |t[deep].path|);
    SpelledLast(t1, id + |parent| - |t[deep].path| - 1, ns, parent, t[deep].path);
  }

  lemma FreeIsLonger(t: Table, ns: string, path: Path, i: nat)
    requires OnPath(t, ns, path, i) && !Taken(t, ns, path)
    ensures |t[i].path| < |path| && AtOrBelow(t[i].path, path)
  {
    OnPathFold(t, ns, path, i);
    assert Fold(path)[..|Fold(path)|] == Fold(path);
    assert At(t[i], ns, path) ==> Taken(t, ns, path);
  }

  lemma FilledLast(t: Table, t1: Table, id: nat, ns: string, owner: string, q: Path, d: nat)
    requires d < |q| && Filled(t, t1, id, ns, owner, q, d)
    ensures var k := id + |q| - d - 1; k in t1 && t1[k] == FolderRow(ns, owner, q)
  {
    var k := id + |q| - d - 1;
    assert q[..d + 1 + (k - id)] == q;
  }

  lemma SpelledLast(t1: Table, k: nat, ns: string, parent: Path, base: Path)
    requires Unique(t1) && k in t1 && |base| < |parent| && t1[k].ns == ns && t1[k].IsFolder()
    requires t1[k].path == WithCasing(parent, base) && Same(WithCasing(parent, base), parent)
    ensures HasFolder(t1, ns, parent) <==> base <= parent
  {
    if base <= parent {
      assert t1[k].path == parent;
    } else if HasFolder(t1, ns, parent) {
      var m :| m in t1 && t1[m].ns == ns && t1[m].path == parent;
      assert Clash(t1, m, k);
    }
  }

  /** Creating a file keeps the tree exactly when the existing part of its parent is spelled as stored; then it also
      keeps cached sizes right. */
  lemma CreateFileKeepsTreeIff(t: Table, owners: Owners, id: nat, fid: nat, r: Row, last: nat)
    requires Tree(t, owners) && (forall i :: i in t ==> i < id) && r.ns in owners
    requires OnPath(t, r.ns, Parent(r.path), last) && IsLast(t, r.ns, Parent(r.path), last)
    requires forall i :: OnPath(t, r.ns, Parent(r.path), i) ==> t[i].IsFolder()
    requires FreshFile(WithParents(t, owners, id, r.ns, Parent(r.path), last), owners, fid, r)
    ensures Tree(AddSteps(WithParents(t, owners, id, r.ns, Parent(r.path), last), fid, r), owners)
            <==> SpelledAsStored(t, r.ns, Parent(r.path))
    ensures Sized(t) && SpelledAsStored(t, r.ns, Parent(r.path)) ==>
              Sized(AddSteps(WithParents(t, owners, id, r.ns, Parent(r.path), last), fid, r))
  {
    hide Sized, Tree, IsLast, IsDeepest, OnPath, FreshFile, SpelledAsStored, SavedBatch;
    var parent := Parent(r.path);
    var t1 := WithParents(t, owners, id, r.ns, parent, last);
    var deep := DeepestOnPath(t, r.ns, parent, last);
    DeepestIsOnPath(t, r.ns, parent, deep);
    TreeParts(t, owners);
    DeepestSpelling(t, r.ns, parent, deep);
    ParentChain(t, owners, id, r.ns, parent, last, deep);
    if t[deep].path <= parent {
      FileAddedKeepsTree(t1, owners, fid, r);
    } else if Tree(AddSteps(t1, fid, r), owners) {
      TreeParts(AddSteps(t1, fid, r), owners);
      AddedTreeNeedsTree(t1, owners, fid, r);
    }
  }

  lemma TreeParts(t: Table, owners: Owners)
    requires Tree(t, owners)
    ensures Unique(t) && Closed(t)
  {
  }

  lemma DeepestIsOnPath(t: Table, ns: string, path: Path, i: nat)
    requires IsDeepest(t, ns, path, i)
    ensures OnPath(t, ns, path, i)
  {
  }

  // Some row on the path is at least as deep as the others.
  lemma DeepestOnPath(t: Table, ns: string, path: Path, i: nat) returns (deep: nat)
    requires OnPath(t, ns, path, i)
    ensures IsDeepest(t, ns, path, deep)
    decreases |path| - |t[i].path|
  {
    if j :| OnPath(t, ns, path, j) && |t[j].path| > |t[i].path| {
      OnPathFold(t, ns, path, j);
      deep := DeepestOnPath(t, ns, path, j);
    } else {
      deep := i;
    }
  }
}
