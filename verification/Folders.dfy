/** Creating a folder with its missing ancestors. */
module Folders {
  import opened Text
  import opened Paths
  import opened Rows
  import opened Trees
  import opened FileTable

  function FolderRow(ns: string, owner: string, p: Path): Row {
    Row(ns, owner, p, NameOf(p), None, 0)
  }

  function FolderRows(ns: string, owner: string, paths: seq<Path>): seq<Row> {
    seq(|paths|, k requires 0 <= k < |paths| => FolderRow(ns, owner, paths[k]))
  }

  // The root, then each longer prefix, then the path itself.
  function AllPrefixes(path: Path): (r: seq<Path>)
    ensures |r| == |path| + 1
  {
    seq(|path| + 1, k requires 0 <= k <= |path| => path[..k])
  }

  // The prefixes of q longer than d.
  function PrefixesFrom(q: Path, d: nat): seq<Path>
    requires d <= |q|
  {
    seq(|q| - d, k requires 0 <= k < |q| - d => q[..d + 1 + k])
  }

  // What create_folder saves after the existing prefix `base`: only the last path gets the stored casing.
  function NewPaths(path: Path, base: Path): seq<Path>
    requires |base| <= |path|
  {
    seq(|path| - |base|, k requires 0 <= k < |path| - |base| =>
      if k + 1 == |path| - |base| then base + path[|base|..] else path[..|base| + 1 + k])
  }

  // Row i is stored at the path or at one of its ancestors, ignoring case.
  predicate OnPath(t: Table, ns: string, path: Path, i: nat) {
    i in t && t[i].ns == ns && AtOrBelow(t[i].path, path)
  }

  function SortKey(r: Row): string {
    Lower(Str(r.path))
  }

  // The row create_folder takes for the deepest existing ancestor: the last by folded path.
  ghost predicate IsLast(t: Table, ns: string, path: Path, i: nat) {
    OnPath(t, ns, path, i) && forall j :: OnPath(t, ns, path, j) ==> LexLe(SortKey(t[j]), SortKey(t[i]))
  }

  ghost predicate IsDeepest(t: Table, ns: string, path: Path, i: nat) {
    OnPath(t, ns, path, i) && forall j :: OnPath(t, ns, path, j) ==> |t[j].path| <= |t[i].path|
  }

  // "." sorts before the path's first name.
  predicate RootFirst(path: Path) {
    path == [] || path[0][0] >= '.'
  }

  // ----- Which row sorts last

  lemma OnPathFold(t: Table, ns: string, path: Path, i: nat)
    requires OnPath(t, ns, path, i)
    ensures |t[i].path| <= |path| && Fold(t[i].path) == Fold(path)[..|t[i].path|]
    ensures t[i].path != [] ==> SortKey(t[i]) != "" && SortKey(t[i])[0] == LowerChar(path[0][0])
    ensures t[i].path == [] ==> SortKey(t[i]) == "."
  {
    LowerStr(t[i].path);
    if t[i].path != [] {
      assert LowerName(path[0]) == Fold(path)[0] == Fold(t[i].path)[0];
      assert Join(Fold(t[i].path))[..|Fold(t[i].path)[0]|] == Fold(t[i].path)[0];
    } else {
      assert Fold(t[i].path) == [];
    }
  }

  lemma DeeperSortsLater(t: Table, ns: string, path: Path, i: nat, j: nat)
    requires OnPath(t, ns, path, i) && OnPath(t, ns, path, j) && |t[i].path| < |t[j].path| && t[i].path != []
    ensures !LexLe(SortKey(t[j]), SortKey(t[i]))
  {
    hide LexLe;
    OnPathFold(t, ns, path, i);
    OnPathFold(t, ns, path, j);
    LowerStr(t[i].path);
    LowerStr(t[j].path);
    var a, b := Fold(t[i].path), Fold(t[j].path);
    assert a < b;
    PrefixIsAncestry(a, b);
    LexPrefix(Str(a), Str(b));
    LexTotal(Str(a), Str(b));
  }

  lemma RootSorts(t: Table, ns: string, path: Path, i: nat, j: nat)
    requires OnPath(t, ns, path, i) && OnPath(t, ns, path, j) && t[i].path == [] && t[j].path != []
    ensures RootFirst(path) ==> !LexLe(SortKey(t[j]), SortKey(t[i]))
    ensures !RootFirst(path) ==> !LexLe(SortKey(t[i]), SortKey(t[j]))
  {
    OnPathFold(t, ns, path, i);
    OnPathFold(t, ns, path, j);
    if SortKey(t[j])[0] == '.' {
      assert |SortKey(t[j])| > 1 by {
        LowerStr(t[j].path);
        if |SortKey(t[j])| == 1 { StrInjective(Fold(t[j].path), []); }
      }
      assert !LexLe(SortKey(t[j])[1..], "");
    }
  }

  /** The last row by folded path is the deepest existing ancestor when "." sorts first. */
  lemma LastIsDeepest(t: Table, ns: string, path: Path, i: nat)
    requires IsLast(t, ns, path, i) && RootFirst(path)
    ensures IsDeepest(t, ns, path, i)
  {
    forall j | OnPath(t, ns, path, j) ensures |t[j].path| <= |t[i].path| {
      if |t[j].path| > |t[i].path| {
        if t[i].path == [] { RootSorts(t, ns, path, i, j); } else { DeeperSortsLater(t, ns, path, i, j); }
      }
    }
  }

  /** An existing path is refused exactly when "." sorts before its first name. */
  lemma ExistingPathRefused(t: Table, ns: string, path: Path, i: nat)
    requires HasFolder(t, ns, []) && Taken(t, ns, path) && path != [] && IsLast(t, ns, path, i)
    ensures Same(t[i].path, path) <==> RootFirst(path)
  {
    var j :| j in t && At(t[j], ns, path);
    var r :| r in t && t[r].ns == ns && t[r].path == [];
    assert OnPath(t, ns, path, j);
    assert OnPath(t, ns, path, r) by { PrefixFolds([], path); }
    assert |t[j].path| == |Fold(t[j].path)| == |path|;
    OnPathFold(t, ns, path, i);
    if RootFirst(path) {
      LastIsDeepest(t, ns, path, i);
      assert Fold(path)[..|path|] == Fold(path);
    } else if t[i].path != [] {
      RootSorts(t, ns, path, r, i);
    }
  }

  // ----- What a batch leaves

  lemma {:induction false} BatchRows(t: Table, id: nat, rows: seq<Row>)
    requires forall i :: i in t ==> i < id
    ensures forall i :: i in t ==> i in SavedBatch(t, id, rows) && SavedBatch(t, id, rows)[i] == t[i]
    ensures forall i :: i in SavedBatch(t, id, rows) && i !in t ==> SavedBatch(t, id, rows)[i] in rows
    decreases |rows|
  {
    if rows != [] {
      assert forall r :: r in rows[1..] ==> r in rows;
      if exists i :: i in t && t[i].ns == rows[0].ns && t[i].path == rows[0].path {
        BatchRows(t, id, rows[1..]);
      } else {
        BatchRows(t[id := rows[0]], id + 1, rows[1..]);
        assert rows[0] in rows;
      }
    }
  }

  lemma {:induction false} BatchStores(t: Table, id: nat, rows: seq<Row>, k: nat) returns (i: nat)
    requires (forall i :: i in t ==> i < id) && k < |rows|
    ensures i in SavedBatch(t, id, rows) && SavedBatch(t, id, rows)[i].ns == rows[k].ns
            && SavedBatch(t, id, rows)[i].path == rows[k].path
    decreases |rows|
  {
    var stored := exists i :: i in t && t[i].ns == rows[0].ns && t[i].path == rows[0].path;
    if k == 0 {
      BatchRows(t, id, rows);
      if stored {
        i :| i in t && t[i].ns == rows[0].ns && t[i].path == rows[0].path;
      } else {
        i := id;
        BatchRows(t[id := rows[0]], id + 1, rows[1..]);
      }
    } else if stored {
      i := BatchStores(t, id, rows[1..], k - 1);
    } else {
      i := BatchStores(t[id := rows[0]], id + 1, rows[1..], k - 1);
    }
  }

  // The new rows of t' are one empty folder for each prefix of q longer than d; all other rows are kept.
  ghost predicate Filled(t: Table, t': Table, id: nat, ns: string, owner: string, q: Path, d: nat)
    requires d <= |q|
  {
    && (forall i :: i in t' <==> i in t || id <= i < id + |q| - d)
    && (forall i :: i in t ==> t'[i] == t[i])
    && (forall i :: id <= i < id + |q| - d ==> i in t' && t'[i] == FolderRow(ns, owner, q[..d + 1 + (i - id)]))
  }

  ghost predicate Gap(t: Table, ns: string, q: Path, d: nat) {
    d <= |q| && HasFolder(t, ns, q[..d]) && forall m :: d < m <= |q| ==> !Taken(t, ns, q[..m])
  }

  lemma FolderAdded(t: Table, id: nat, r: Row)
    requires r.IsFolder()
    ensures Added(t, id, r) == t[id := r]
  {
  }

  lemma GapStep(t: Table, owners: Owners, id: nat, ns: string, q: Path, d: nat)
    requires Tree(t, owners) && id !in t && ns in owners && Gap(t, ns, q, d) && d < |q|
    ensures var t1 := t[id := FolderRow(ns, owners[ns], q[..d + 1])];
            Tree(t1, owners) && (Sized(t) ==> Sized(t1)) && Gap(t1, ns, q, d + 1)
  {
    hide Unique, Closed, Labelled, Rooted, Sized;
    var r := FolderRow(ns, owners[ns], q[..d + 1]);
    assert q[..d + 1][..d] == q[..d];
    FolderAdded(t, id, r);
    AddedKeepsTree(t, owners, id, r);
    if Sized(t) { AddedKeepsSized(t, owners, id, r); }
    GapNarrows(t, id, ns, owners[ns], q, d);
  }

  lemma GapNarrows(t: Table, id: nat, ns: string, owner: string, q: Path, d: nat)
    requires id !in t && Gap(t, ns, q, d) && d < |q|
    ensures Gap(t[id := FolderRow(ns, owner, q[..d + 1])], ns, q, d + 1)
  {
    hide Same;
    var t1 := t[id := FolderRow(ns, owner, q[..d + 1])];
    assert t1[id].path == q[..d + 1] && t1[id].ns == ns;
    forall m | d + 1 < m <= |q| ensures !Taken(t1, ns, q[..m]) {
      assert !Taken(t, ns, q[..m]);
      SameLengths(q[..d + 1], q[..m]);
      forall i | i in t1 ensures !At(t1[i], ns, q[..m]) {
        if i != id { assert t1[i] == t[i]; }
      }
    }
  }

  /** Saving the prefixes of a gap fills exactly the gap and keeps the tree and its sizes. */
  lemma {:induction false} GapFilled(t: Table, owners: Owners, id: nat, ns: string, q: Path, d: nat)
    requires Tree(t, owners) && (forall i :: i in t ==> i < id) && ns in owners && Gap(t, ns, q, d)
    ensures var t' := SavedBatch(t, id, FolderRows(ns, owners[ns], PrefixesFrom(q, d)));
            Tree(t', owners) && (Sized(t) ==> Sized(t')) && Filled(t, t', id, ns, owners[ns], q, d)
    decreases |q| - d
  {
    hide Tree, Sized, HasFolder, Taken, Filled;
    if d < |q| {
      var rows := FolderRows(ns, owners[ns], PrefixesFrom(q, d));
      var r := FolderRow(ns, owners[ns], q[..d + 1]);
      assert rows[0] == r;
      assert rows[1..] == FolderRows(ns, owners[ns], PrefixesFrom(q, d + 1));
      FreeFolder(t, id, rows);
      GapStep(t, owners, id, ns, q, d);
      GapFilled(t[id := r], owners, id + 1, ns, q, d + 1);
      FilledStep(t, SavedBatch(t[id := r], id + 1, rows[1..]), id, ns, owners[ns], q, d);
    } else {
      FilledNone(t, id, ns, owners[ns], q);
    }
  }

  lemma FilledStep(t: Table, t': Table, id: nat, ns: string, owner: string, q: Path, d: nat)
    requires id !in t && d < |q| && Filled(t[id := FolderRow(ns, owner, q[..d + 1])], t', id + 1, ns, owner, q, d + 1)
    ensures Filled(t, t', id, ns, owner, q, d)
  {
    hide FolderRow;
    forall i | i in t ensures t'[i] == t[i] {
      assert i in t[id := FolderRow(ns, owner, q[..d + 1])];
    }
  }

  lemma FilledNone(t: Table, id: nat, ns: string, owner: string, q: Path)
    ensures Filled(t, t, id, ns, owner, q, |q|)
  {
  }

  lemma FreeFolder(t: Table, id: nat, rows: seq<Row>)
    requires rows != [] && !Taken(t, rows[0].ns, rows[0].path)
    ensures SavedBatch(t, id, rows) == SavedBatch(t[id := rows[0]], id + 1, rows[1..])
  {
    FreeIsNotStored(t, rows[0].ns, rows[0].path);
  }

  lemma FreeIsNotStored(t: Table, ns: string, p: Path)
    requires !Taken(t, ns, p)
    ensures !exists i :: i in t && t[i].ns == ns && t[i].path == p
  {
    if i :| i in t && t[i].ns == ns && t[i].path == p { assert At(t[i], ns, p); }
  }

  // ----- When the result is a tree

  // The rows create_folder saves when `last` is the last row on the path.
  function NewRows(t: Table, ns: string, owner: string, path: Path, last: nat): seq<Row>
    requires OnPath(t, ns, path, last)
  {
    assert |t[last].path| == |Fold(t[last].path)| <= |Fold(path)| == |path|;
    FolderRows(ns, owner, NewPaths(path, t[last].path))
  }

  // The existing part is given as stored, or only the last name is missing and "." sorts first.
  predicate GoodCasing(path: Path, base: Path) {
    base <= path || (RootFirst(path) && |base| + 1 == |path|)
  }

  lemma NothingDeeper(t: Table, ns: string, path: Path, deep: nat, m: nat)
    requires IsDeepest(t, ns, path, deep) && |t[deep].path| < m <= |path|
    ensures !Taken(t, ns, path[..m])
  {
    FoldTake(path, m);
    var p := path[..m];
    if j :| j in t && At(t[j], ns, p) {
      SameLengths(t[j].path, p);
      assert OnPath(t, ns, path, j);
    }
  }

  lemma GapBelowDeepest(t: Table, ns: string, path: Path, deep: nat, q: Path)
    requires IsDeepest(t, ns, path, deep) && t[deep].IsFolder() && t[deep].path <= q && Same(q, path)
    ensures Gap(t, ns, q, |t[deep].path|)
  {
    var d := |t[deep].path|;
    SameLengths(q, path);
    assert q[..d] == t[deep].path;
    assert HasFolder(t, ns, q[..d]);
    forall m | d < m <= |q| ensures !Taken(t, ns, q[..m]) {
      FoldTake(q, m);
      FoldTake(path, m);
      NothingDeeper(t, ns, path, deep, m);
      assert forall j :: j in t ==> (At(t[j], ns, q[..m]) <==> At(t[j], ns, path[..m]));
    }
  }

  lemma {:induction false} SkipStored(t: Table, id: nat, ns: string, owner: string, path: Path, e: nat, d: nat)
    requires e <= d <= |path|
    requires forall m :: e < m <= d ==> exists i :: i in t && t[i].ns == ns && t[i].path == path[..m]
    ensures SavedBatch(t, id, FolderRows(ns, owner, PrefixesFrom(path, e)))
            == SavedBatch(t, id, FolderRows(ns, owner, PrefixesFrom(path, d)))
    decreases d - e
  {
    if e < d {
      var rows := FolderRows(ns, owner, PrefixesFrom(path, e));
      assert rows[0] == FolderRow(ns, owner, path[..e + 1]);
      assert rows[1..] == FolderRows(ns, owner, PrefixesFrom(path, e + 1));
      SkipStored(t, id, ns, owner, path, e + 1, d);
    }
  }

  lemma GoodCasingFills(t: Table, owners: Owners, id: nat, ns: string, path: Path, last: nat, deep: nat)
    requires Tree(t, owners) && (forall i :: i in t ==> i < id) && ns in owners
    requires OnPath(t, ns, path, deep) && OnPath(t, ns, path, last) && IsLast(t, ns, path, last)
             && IsDeepest(t, ns, path, deep) && t[deep].IsFolder()
    requires GoodCasing(path, t[deep].path)
    ensures var t' := SavedBatch(t, id, NewRows(t, ns, owners[ns], path, last));
            var d := |t[deep].path|;
            d <= |path| && Tree(t', owners) && (Sized(t) ==> Sized(t'))
            && Filled(t, t', id, ns, owners[ns], WithCasing(path, t[deep].path), d)
  {
    var base, d := t[deep].path, |t[deep].path|;
    OnPathFold(t, ns, path, deep);
    OnPathFold(t, ns, path, last);
    var q := WithCasing(path, base);
    RestoredCasingSame(path, base);
    GapBelowDeepest(t, ns, path, deep, q);
    GapFilled(t, owners, id, ns, q, d);
    LastPaths(t, owners, id, ns, path, last, deep);
  }

  function WithCasing(path: Path, base: Path): Path
    requires |base| <= |path|
  {
    base + path[|base|..]
  }

  lemma LastPaths(t: Table, owners: Owners, id: nat, ns: string, path: Path, last: nat, deep: nat)
    requires Tree(t, owners) && ns in owners
    requires OnPath(t, ns, path, deep) && OnPath(t, ns, path, last) && IsLast(t, ns, path, last)
             && IsDeepest(t, ns, path, deep)
    requires |t[deep].path| <= |path| && |t[last].path| <= |path|
    requires GoodCasing(path, t[deep].path) && (!RootFirst(path) ==> t[deep].path <= path)
    ensures SavedBatch(t, id, NewRows(t, ns, owners[ns], path, last))
         == SavedBatch(t, id, FolderRows(ns, owners[ns], PrefixesFrom(WithCasing(path, t[deep].path), |t[deep].path|)))
  {
    hide Unique, Closed, Labelled, Rooted, Sized, IsLast, IsDeepest, RootFirst, SavedBatch;
    if RootFirst(path) {
      LastIsDeepest(t, ns, path, last);
      SameDepthSameRow(t, ns, path, last, deep);
      DeepestPaths(path, t[deep].path);
    } else {
      LastIsRoot(t, owners, ns, path, last);
      RootPaths(path);
      StoredPrefixes(t, owners, ns, path, deep);
      SkipStored(t, id, ns, owners[ns], path, 0, |t[deep].path|);
      GoodCasingExact(path, t[deep].path);
    }
  }

  lemma DeepestPaths(path: Path, base: Path)
    requires |base| <= |path| && GoodCasing(path, base)
    ensures NewPaths(path, base) == PrefixesFrom(WithCasing(path, base), |base|)
  {
    var q := WithCasing(path, base);
    if base <= path { assert q == path; }
    assert q[..|q|] == q;
  }

  lemma RootPaths(path: Path)
    ensures NewPaths(path, []) == PrefixesFrom(path, 0)
  {
    assert [] + path[0..] == path && path[..|path|] == path;
  }

  lemma GoodCasingExact(path: Path, base: Path)
    requires |base| <= |path| && GoodCasing(path, base) && !RootFirst(path)
    ensures WithCasing(path, base) == path
  {
  }

  lemma StoredPrefixes(t: Table, owners: Owners, ns: string, path: Path, deep: nat)
    requires Tree(t, owners) && deep in t && t[deep].ns == ns && t[deep].path <= path
    ensures forall m :: 0 < m <= |t[deep].path| ==> exists i :: i in t && t[i].ns == ns && t[i].path == path[..m]
  {
    forall m | 0 < m <= |t[deep].path| ensures exists i :: i in t && t[i].ns == ns && t[i].path == path[..m] {
      assert t[deep].path[..m] == path[..m];
      if m == |t[deep].path| {
        assert t[deep].path == path[..m];
      } else {
        var a := AncestorStored(t, deep, m);
      }
    }
  }

  lemma SameDepthSameRow(t: Table, ns: string, path: Path, i: nat, j: nat)
    requires Unique(t) && IsDeepest(t, ns, path, i) && IsDeepest(t, ns, path, j)
    ensures i == j
  {
    OnPathFold(t, ns, path, i);
    OnPathFold(t, ns, path, j);
    assert |t[i].path| == |t[j].path|;
    assert Clash(t, i, j);
  }

  lemma LastIsRoot(t: Table, owners: Owners, ns: string, path: Path, last: nat)
    requires Rooted(t, owners) && ns in owners && IsLast(t, ns, path, last) && !RootFirst(path)
    ensures t[last].path == []
  {
    assert HasFolder(t, ns, []);
    var r :| r in t && t[r].ns == ns && t[r].path == [];
    PrefixFolds([], path);
    assert OnPath(t, ns, path, r);
    if t[last].path != [] { RootSorts(t, ns, path, r, last); }
  }

  lemma BadCasingBreaks(t: Table, owners: Owners, id: nat, ns: string, path: Path, last: nat, deep: nat)
    requires Tree(t, owners) && (forall i :: i in t ==> i < id) && ns in owners
    requires OnPath(t, ns, path, deep) && OnPath(t, ns, path, last) && IsLast(t, ns, path, last)
             && IsDeepest(t, ns, path, deep) && |t[deep].path| <= |path|
    requires !Same(t[last].path, path) && !GoodCasing(path, t[deep].path)
    ensures var t' := SavedBatch(t, id, NewRows(t, ns, owners[ns], path, last)); !(Unique(t') && Closed(t'))
  {
    hide Unique, Closed, Labelled, Rooted, Sized, IsLast, IsDeepest, RootFirst, SavedBatch, NewRows;
    OnPathFold(t, ns, path, deep);
    if RootFirst(path) {
      LastIsDeepest(t, ns, path, last);
      SameDepthSameRow(t, ns, path, last, deep);
      MissingParent(t, owners, id, ns, path, deep);
    } else {
      LastIsRoot(t, owners, ns, path, last);
      MiscasedTwin(t, owners, id, ns, path, last, deep);
    }
  }

  lemma MissingParent(t: Table, owners: Owners, id: nat, ns: string, path: Path, deep: nat)
    requires Unique(t) && (forall i :: i in t ==> i < id) && ns in owners
    requires OnPath(t, ns, path, deep) && |t[deep].path| <= |path| && !Same(t[deep].path, path)
    requires !(t[deep].path <= path) && |t[deep].path| + 1 != |path|
    ensures !Closed(SavedBatch(t, id, NewRows(t, ns, owners[ns], path, deep)))
  {
    hide SavedBatch, Unique;
    var d := |t[deep].path|;
    var rows := NewRows(t, ns, owners[ns], path, deep);
    FoldTake(path, d);
    assert Fold(path)[..|Fold(path)|] == Fold(path);
    assert d < |path|;
    assert rows[0] == FolderRow(ns, owners[ns], path[..d + 1]);
    var i := BatchStores(t, id, rows, 0);
    assert path[..d + 1][..d] == path[..d];
    BasePathMissing(t, id, ns, owners[ns], path, deep);
    assert !HasFolder(SavedBatch(t, id, rows), ns, Parent(SavedBatch(t, id, rows)[i].path));
  }

  lemma MiscasedTwin(t: Table, owners: Owners, id: nat, ns: string, path: Path, root: nat, deep: nat)
    requires (forall i :: i in t ==> i < id) && ns in owners
    requires OnPath(t, ns, path, root) && OnPath(t, ns, path, deep) && t[root].path == []
    requires |t[deep].path| <= |path| && !(t[deep].path <= path)
    ensures !Unique(SavedBatch(t, id, NewRows(t, ns, owners[ns], path, root)))
  {
    hide SavedBatch, NewRows, AtOrBelow, Same;
    var d := |t[deep].path|;
    var rows := NewRows(t, ns, owners[ns], path, root);
    TwinSpelling(t, ns, path, deep);
    RowOfPrefix(t, ns, owners[ns], path, root, d);
    BatchRows(t, id, rows);
    var i := BatchStores(t, id, rows, d - 1);
    assert Clash(SavedBatch(t, id, rows), i, deep);
  }

  lemma TwinSpelling(t: Table, ns: string, path: Path, deep: nat)
    requires OnPath(t, ns, path, deep) && |t[deep].path| <= |path|
    ensures Same(path[..|t[deep].path|], t[deep].path)
    ensures !(t[deep].path <= path) ==> t[deep].path != [] && path[..|t[deep].path|] != t[deep].path
  {
    FoldTake(path, |t[deep].path|);
  }

  lemma RowOfPrefix(t: Table, ns: string, owner: string, path: Path, root: nat, d: nat)
    requires OnPath(t, ns, path, root) && t[root].path == [] && 0 < d <= |path|
    ensures var rows := NewRows(t, ns, owner, path, root);
            d <= |rows| && rows[d - 1] == FolderRow(ns, owner, path[..d])
  {
    RootPaths(path);
  }

  // After a batch of deeper folders, the miscased spelling of the existing part is still not stored.
  lemma BasePathMissing(t: Table, id: nat, ns: string, owner: string, path: Path, deep: nat)
    requires Unique(t) && (forall i :: i in t ==> i < id) && deep in t && t[deep].ns == ns
    requires |t[deep].path| < |path| && Same(t[deep].path, path[..|t[deep].path|])
             && t[deep].path != path[..|t[deep].path|]
    ensures !HasFolder(SavedBatch(t, id, FolderRows(ns, owner, NewPaths(path, t[deep].path))), ns,
            path[..|t[deep].path|])
  {
    hide SavedBatch, Same, LexLe;
    var d := |t[deep].path|;
    var rows := FolderRows(ns, owner, NewPaths(path, t[deep].path));
    var t' := SavedBatch(t, id, rows);
    BatchRows(t, id, rows);
    forall k | k in t' && t'[k].ns == ns ensures t'[k].path != path[..d] {
      if k in t {
        assert t[k].path == path[..d] ==> Clash(t, deep, k);
      } else {
        var n :| 0 <= n < |rows| && t'[k] == rows[n];
        assert |rows[n].path| == d + 1 + n;
      }
    }
  }

  /** A folder that is not refused leaves a tree exactly when its existing part is spelled as stored, or only its last
      name is missing and "." sorts first; then it adds precisely the missing ancestors and the folder itself, keeps
      all other rows, and keeps cached sizes right. */
  lemma CreateFolderFillsGap(t: Table, owners: Owners, id: nat, ns: string, path: Path, last: nat, deep: nat)
    requires Tree(t, owners) && (forall i :: i in t ==> i < id) && ns in owners
    requires OnPath(t, ns, path, deep) && OnPath(t, ns, path, last) && IsLast(t, ns, path, last)
             && IsDeepest(t, ns, path, deep) && t[deep].IsFolder() && !Same(t[last].path, path)
    ensures var t' := SavedBatch(t, id, NewRows(t, ns, owners[ns], path, last));
            && (Tree(t', owners) <==> GoodCasing(path, t[deep].path))
            && |t[deep].path| <= |path|
            && (GoodCasing(path, t[deep].path) && Sized(t) ==> Sized(t'))
            && (GoodCasing(path, t[deep].path) ==>
                  Filled(t, t', id, ns, owners[ns], WithCasing(path, t[deep].path), |t[deep].path|))
  {
    hide Sized, Filled;
    OnPathFold(t, ns, path, deep);
    if GoodCasing(path, t[deep].path) {
      GoodCasingFills(t, owners, id, ns, path, last, deep);
    } else {
      BadCasingBreaks(t, owners, id, ns, path, last, deep);
    }
  }
}
