/** The queries each file operation runs, in order, and the whole-table change they add up to. */
module Steps {
  import opened Paths
  import opened Sums
  import opened Rows
  import opened Trees
  import opened FileTable

  /** A prefix query for a stored row, in any casing, finds exactly the rows strictly below it. */
  lemma MatchesBelow(t: Table, i: nat, path: Path, j: nat)
    requires Unique(t) && Closed(t) && i in t && j in t && Same(t[i].path, path) && path != []
    ensures Matches(t[j], t[i].ns, Str(path) + "/") <==> t[j].ns == t[i].ns && t[i].path < t[j].path
  {
    IPrefixIsAncestry(path, t[j].path);
    assert |t[i].path| == |Fold(t[i].path)|;
    if t[j].ns == t[i].ns && t[i].path < t[j].path { PrefixFolds(t[i].path, t[j].path); }
    if t[j].ns == t[i].ns && Below(path, t[j].path) { ExactAncestor(t, i, j); }
  }

  // ----- delete

  function DeleteSteps(t: Table, i: nat, path: Path): Table
    requires i in t
  {
    var t1 := t - {i};
    var t2 := if t[i].IsFolder() then Dropped(t1, t[i].ns, Str(path) + "/") else t1;
    IncrementedAll(t2, t[i].ns, Parents(t[i].path), -t[i].size)
  }

  /** Delete removes exactly the subtree and takes its size off the ancestors. */
  lemma DeleteIsRemoval(t: Table, i: nat, path: Path)
    requires Unique(t) && Closed(t) && i in t && Same(t[i].path, path) && path != []
    ensures DeleteSteps(t, i, path) == Removed(t, t[i].ns, t[i].path, true, t[i].size)
  {
    hide Matches, Same, Unique, Closed;
    var ns, p := t[i].ns, t[i].path;
    forall j | j in t
      ensures j == i || (t[i].IsFolder() && Matches(t[j], ns, Str(path) + "/")) <==> t[j].ns == ns && p <= t[j].path
    {
      MatchesBelow(t, i, path, j);
      if t[j].ns == ns && p <= t[j].path {
        PrefixFolds(p, t[j].path);
        ExactAncestor(t, i, j);
      }
    }
    forall j | j in t && !(t[j].ns == ns && p <= t[j].path)
      ensures Incremented(t[j], ns, Parents(p), -t[i].size) == Shrink(t[j], ns, p, t[i].size)
    {
    }
  }

  // ----- empty_folder

  function EmptySteps(t: Table, i: nat, path: Path): Table
    requires i in t
  {
    if t[i].size == 0 then t
    else IncrementedAll(Dropped(t, t[i].ns, Str(path) + "/"), t[i].ns, Parents(t[i].path) + {path}, -t[i].size)
  }

  /** Spelled as stored, emptying a folder removes exactly what is below it and takes its size off it and its
      ancestors. */
  lemma EmptyIsRemoval(t: Table, i: nat)
    requires Unique(t) && Closed(t) && i in t && t[i].path != [] && t[i].size != 0
    ensures EmptySteps(t, i, t[i].path) == Removed(t, t[i].ns, t[i].path, false, t[i].size)
  {
    hide Matches, Unique, Closed;
    var ns, p := t[i].ns, t[i].path;
    forall j | j in t ensures Matches(t[j], ns, Str(p) + "/") <==> t[j].ns == ns && p < t[j].path {
      MatchesBelow(t, i, p, j);
    }
    forall j | j in t && !(t[j].ns == ns && p < t[j].path)
      ensures Incremented(t[j], ns, Parents(p) + {p}, -t[i].size) == Shrink(t[j], ns, p, t[i].size)
    {
      assert t[j].path <= p <==> t[j].path < p || t[j].path == p;
    }
  }

  // The same rows but for their sizes.
  ghost predicate SameButSizes(t: Table, t': Table) {
    t.Keys == t'.Keys && forall j :: j in t ==> t'[j] == t[j].(size := t'[j].size)
  }

  lemma SizesDoNotShape(t: Table, t': Table, owners: Owners)
    requires Tree(t, owners) && SameButSizes(t, t')
    ensures Tree(t', owners)
  {
    forall i: nat, j: nat | Clash(t', i, j) ensures i == j { assert Clash(t, i, j); }
    forall i | i in t' && t'[i].path != [] ensures HasFolder(t', t'[i].ns, Parent(t'[i].path)) {
      assert HasFolder(t, t[i].ns, Parent(t[i].path));
      FolderKept(t, t', t[i].ns, Parent(t[i].path));
    }
    forall ns | ns in owners ensures HasFolder(t', ns, []) { FolderKept(t, t', ns, []); }
  }

  /** In any spelling emptying removes exactly what lies below, unless the cached size is zero or the path is the
      root's; then it removes nothing. */
  lemma EmptyRemovesBelow(t: Table, i: nat, path: Path)
    requires Unique(t) && Closed(t) && i in t && Same(t[i].path, path)
    ensures var rest := if t[i].size == 0 || path == [] then t else Removed(t, t[i].ns, t[i].path, false, t[i].size);
            SameButSizes(rest, EmptySteps(t, i, path))
  {
    hide Matches, Same, Unique, Closed;
    var t' := EmptySteps(t, i, path);
    if t[i].size != 0 && path == [] {
      forall j | j in t ensures !Matches(t[j], t[i].ns, Str(path) + "/") { NothingMatchesRoot(t[j], t[i].ns); }
    } else if t[i].size != 0 {
      forall j | j in t
        ensures Matches(t[j], t[i].ns, Str(path) + "/") <==> t[j].ns == t[i].ns && t[i].path < t[j].path
      {
        MatchesBelow(t, i, path, j);
      }
    }
  }

  lemma NothingMatchesRoot(r: Row, ns: string)
    ensures !Matches(r, ns, Str([]) + "/")
  {
    IPrefixIsAncestry([], r.path);
  }

  /** Emptying keeps the tree, in any spelling: only cached sizes can go wrong. */
  lemma EmptyKeepsTree(t: Table, owners: Owners, i: nat, path: Path)
    requires Tree(t, owners) && i in t && Same(t[i].path, path)
    ensures Tree(EmptySteps(t, i, path), owners)
    ensures forall j :: j in EmptySteps(t, i, path) ==> j in t
  {
    hide Unique, Closed, Labelled, Rooted, EmptySteps, Same;
    EmptyRemovesBelow(t, i, path);
    if t[i].size == 0 || path == [] {
      SizesDoNotShape(t, EmptySteps(t, i, path), owners);
    } else {
      SameLengths(t[i].path, path);
      RemovedKeepsTree(t, owners, t[i].ns, t[i].path, false, t[i].size);
      SizesDoNotShape(Removed(t, t[i].ns, t[i].path, false, t[i].size), EmptySteps(t, i, path), owners);
    }
  }

  /** Emptying keeps cached sizes right exactly when what is emptied is not the root and is spelled as stored, or its
      size is already zero. Emptying the trash passes "trash" where the row is "Trash". */
  lemma EmptyKeepsSizedIff(t: Table, owners: Owners, i: nat, path: Path)
    requires Tree(t, owners) && Sized(t) && i in t && Same(t[i].path, path)
    ensures Sized(EmptySteps(t, i, path)) <==> t[i].size == 0 || (path == t[i].path && path != [])
  {
    if t[i].size != 0 {
      if path == t[i].path && path != [] {
        EmptyIsRemoval(t, i);
        RemovedKeepsSized(t, i, false);
      } else if t[i].IsFolder() {
        EmptyLeavesStale(t, owners, i, path);
      } else {
        FileNotEmptied(t, owners, i, path);
      }
    }
  }

  // A miscased call on a file shrinks the root, although the file keeps its size.
  lemma FileNotEmptied(t: Table, owners: Owners, i: nat, path: Path)
    requires Tree(t, owners) && Sized(t) && i in t && !t[i].IsFolder() && Same(t[i].path, path)
    requires t[i].size != 0 && !(path == t[i].path && path != [])
    ensures !Sized(EmptySteps(t, i, path))
  {
    hide Labelled, Rooted, Matches, Unique, Closed, Sized;
    var ns, p := t[i].ns, t[i].path;
    FileNotRoot(t, owners, i);
    SameLengths(p, path);
    var r := AncestorStored(t, i, 0);
    var t' := EmptySteps(t, i, path);
    forall j | j in t
      ensures j in t' && FileBytes(t'[j]) == FileBytes(t[j]) && t'[j].path == t[j].path && t'[j].ns == t[j].ns
    {
      FileSpared(t, i, path, j);
    }
    assert FilesBelow(t', ns, []) == FilesBelow(t, ns, []);
    assert [] == p[..0] && [] != path;
    assert t'[r].size == t[r].size - t[i].size;
    CachedSize(t, r);
    if Sized(t') { CachedSize(t', r); }
  }

  lemma FileNotRoot(t: Table, owners: Owners, i: nat)
    requires Tree(t, owners) && i in t && !t[i].IsFolder()
    ensures t[i].path != []
  {
    assert HasFolder(t, t[i].ns, []);
    var r :| r in t && t[r].ns == t[i].ns && t[r].path == [] && t[r].IsFolder();
    assert t[i].path == [] ==> Clash(t, i, r);
  }

  lemma FileSpared(t: Table, i: nat, path: Path, j: nat)
    requires Unique(t) && Closed(t) && i in t && !t[i].IsFolder() && Same(t[i].path, path) && path != t[i].path
             && path != []
    requires j in t
    ensures !Matches(t[j], t[i].ns, Str(path) + "/")
    ensures t[j].ns == t[i].ns && t[j].path in Parents(t[i].path) + {path} ==> t[j].IsFolder()
  {
    hide Matches;
    MatchesBelow(t, i, path, j);
    if t[j].ns == t[i].ns {
      if t[j].path < t[i].path { PrefixFolds(t[j].path, t[i].path); ExactAncestor(t, j, i); }
      if t[i].path < t[j].path { PrefixFolds(t[i].path, t[j].path); ExactAncestor(t, i, j); }
      if t[j].path == path { assert Clash(t, i, j); }
    }
  }

  lemma EmptyLeavesStale(t: Table, owners: Owners, i: nat, path: Path)
    requires Tree(t, owners) && Sized(t) && i in t && t[i].IsFolder() && Same(t[i].path, path)
    requires t[i].size != 0 && !(path == t[i].path && path != [])
    ensures !Sized(EmptySteps(t, i, path))
  {
    hide Tree, Same;
    var t' := EmptySteps(t, i, path);
    assert |t[i].path| == |path| by { SameLengths(t[i].path, path); }
    if path == [] { RootNotEmptied(t, owners, i); } else { MiscasedNotEmptied(t, owners, i, path); }
    assert t'[i].size != SizeBelow(t', t'[i].ns, t'[i].path);
  }

  /** A miscased empty_folder leaves the folder's cached size, although nothing is left below it. */
  lemma MiscasedNotEmptied(t: Table, owners: Owners, i: nat, path: Path)
    requires Tree(t, owners) && i in t && t[i].IsFolder() && Same(t[i].path, path)
    requires t[i].size != 0 && path != t[i].path && path != []
    ensures var t' := EmptySteps(t, i, path);
            i in t' && t'[i] == t[i] && SizeBelow(t', t[i].ns, t[i].path) == 0
  {
    hide Sized, Labelled, Rooted, Matches;
    var t' := EmptySteps(t, i, path);
    var b := FilesBelow(t', t[i].ns, t[i].path);
    MatchesBelow(t, i, path, i);
    forall j | j in t' ensures b[j] == 0 { MatchesBelow(t, i, path, j); }
    SumZero(b);
  }

  lemma RootNotEmptied(t: Table, owners: Owners, i: nat)
    requires Tree(t, owners) && Sized(t) && i in t && t[i].IsFolder() && t[i].path == [] && t[i].size != 0
    ensures var t' := EmptySteps(t, i, []);
            i in t' && t'[i] == t[i].(size := 0) && SizeBelow(t', t[i].ns, []) == t[i].size
  {
    hide Labelled, Rooted, Unique, Closed;
    var t' := EmptySteps(t, i, []);
    forall j | j in t ensures !Matches(t[j], t[i].ns, Str([]) + "/") { IPrefixIsAncestry([], t[j].path); }
    var a, b := FilesBelow(t, t[i].ns, []), FilesBelow(t', t[i].ns, []);
    assert forall j :: j in t ==> j in t' && b[j] == a[j];
    assert a == b;
  }

  // ----- move

  // Ancestors to shrink: those of the source that are not, up to case, ancestors of the destination.
  function ToDecrease(sameNs: bool, at: Path, to: Path): set<Path> {
    set p | p in Parents(at) && !(sameNs && exists q :: q in Parents(to) && Same(p, q))
  }

  function ToIncrease(sameNs: bool, at: Path, to: Path): set<Path> {
    set p | p in Parents(to) && !(sameNs && exists q :: q in Parents(at) && Same(p, q))
  }

  function Relabelled(t: Table, i: nat, ns: string, owner: string, to: Path): Table
    requires i in t
  {
    t[i := t[i].(ns := ns, owner := if ns == t[i].ns then t[i].owner else owner, name := NameOf(to), path := to)]
  }

  function MoveSteps(t: Table, i: nat, ns: string, owner: string, to: Path): Table
    requires i in t
  {
    var r := t[i];
    var t1 := Relabelled(t, i, ns, owner, to);
    var t2 := if r.IsFolder() then PrefixReplaced(t1, r.ns, r.path, ns, owner, to) else t1;
    var t3 := IncrementedAll(t2, r.ns, ToDecrease(r.ns == ns, r.path, to), -r.size);
    IncrementedAll(t3, ns, ToIncrease(r.ns == ns, r.path, to), r.size)
  }

  // What the service has checked before it moves row i: a stored parent that does not move, and in the same
  // namespace a destination that is free or is the row itself.
  ghost predicate Checked(t: Table, i: nat, ns: string, to: Path) {
    && i in t && t[i].path != [] && to != []
    && HasFolder(t, ns, Parent(to))
    && (ns == t[i].ns ==> AtOrBelow(t[i].path, to) ==> Same(t[i].path, to))
    && (ns == t[i].ns ==> forall j :: j in t && At(t[j], ns, to) ==> j == i)
  }

  lemma ParentRowStored(t: Table, ns: string, to: Path, q: Path) returns (k: nat)
    requires Closed(t) && HasFolder(t, ns, Parent(to)) && q < to
    ensures k in t && t[k].ns == ns && t[k].path == q
  {
    var m :| m in t && t[m].ns == ns && t[m].path == Parent(to) && t[m].IsFolder();
    if |q| == |Parent(to)| {
      k := m;
    } else {
      k := AncestorStored(t, m, |q|);
    }
  }

  // A stored path that is, up to case, an ancestor of a path with stored ancestors, is that ancestor.
  lemma StoredSpelling(t: Table, j: nat, ns: string, to: Path, q: Path)
    requires Unique(t) && Closed(t) && j in t && t[j].ns == ns && HasFolder(t, ns, Parent(to)) && q < to
             && Same(t[j].path, q)
    ensures t[j].path == q
  {
    var k := ParentRowStored(t, ns, to, q);
    assert Clash(t, j, k);
  }

  lemma OtherRowResized(t: Table, i: nat, ns: string, to: Path, j: nat, r: Row)
    requires Unique(t) && Closed(t) && i in t && t[i].path != [] && HasFolder(t, ns, Parent(to)) && j in t && j != i
    requires r.ns == t[j].ns && r.path == t[j].path
    ensures Incremented(Incremented(r, t[i].ns, ToDecrease(t[i].ns == ns, t[i].path, to), -t[i].size),
                        ns, ToIncrease(t[i].ns == ns, t[i].path, to), t[i].size)
         == Resized(r, t[i].ns, t[i].path, ns, to, t[i].size)
  {
    var at, p := t[i].path, t[j].path;
    var same := t[i].ns == ns;
    assert HasFolder(t, t[i].ns, Parent(at));
    if t[j].ns == t[i].ns && p < at {
      if same && exists q :: q in Parents(to) && Same(p, q) {
        var q :| q in Parents(to) && Same(p, q);
        StoredSpelling(t, j, ns, to, q);
      } else if same {
        assert Same(p, p);
        assert p !in Parents(to);
      }
    }
    if t[j].ns == ns && p < to {
      if same && exists q :: q in Parents(at) && Same(p, q) {
        var q :| q in Parents(at) && Same(p, q);
        StoredSpelling(t, j, ns, at, q);
      } else if same {
        assert Same(p, p);
        assert p !in Parents(at);
      }
    }
  }

  lemma MovedRow(t: Table, owners: Owners, i: nat, ns: string, to: Path)
    requires Checked(t, i, ns, to) && Labelled(t, owners) && ns in owners
    ensures var r := Relabelled(t, i, ns, owners[ns], to)[i];
            r == Carried(t[i], t[i].path, ns, owners[ns], to)
            && !Matches(r, t[i].ns, Str(t[i].path) + "/")
  {
    IPrefixIsAncestry(t[i].path, to);
    assert to + t[i].path[|t[i].path|..] == to;
    assert |t[i].path| == |Fold(t[i].path)| && |to| == |Fold(to)|;
  }

  lemma RowBelowRenamed(t: Table, owners: Owners, i: nat, ns: string, to: Path, j: nat)
    requires Labelled(t, owners) && i in t && j in t && t[i].path != [] && to != [] && ns in owners
    requires t[j].ns == t[i].ns && t[i].path < t[j].path
    ensures Renamed(t[j], t[i].path, ns, owners[ns], to) == Carried(t[j], t[i].path, ns, owners[ns], to)
  {
    ReplaceFirstIsPrefixSwap(t[j].path, t[i].path, to);
  }

  // In the same namespace a carried row is neither above the old nor above the new place.
  lemma CarriedNotResized(t: Table, i: nat, ns: string, owner: string, to: Path, j: nat)
    requires Unique(t) && Closed(t) && Checked(t, i, ns, to) && j in t && InSubtree(t[j], t[i].ns, t[i].path)
    ensures var r := Carried(t[j], t[i].path, ns, owner, to);
            Incremented(Incremented(r, t[i].ns, ToDecrease(t[i].ns == ns, t[i].path, to), -t[i].size),
                        ns, ToIncrease(t[i].ns == ns, t[i].path, to), t[i].size) == r
  {
    var at := t[i].path;
    var p := to + t[j].path[|at|..];
    assert !(p < to);
    if ns == t[i].ns && p < at {
      assert to <= p && to < at;
      assert to == at[..|to|];
      var k := AncestorStored(t, i, |to|);
      assert At(t[k], ns, to);
      assert false;
    }
  }

  /** The queries of a move add up to an exact relocation of the subtree. */
  lemma MoveIsRelocation(t: Table, owners: Owners, i: nat, ns: string, to: Path)
    requires Unique(t) && Closed(t) && Labelled(t, owners) && ns in owners && i in t && Checked(t, i, ns, to)
    ensures MoveSteps(t, i, ns, owners[ns], to) == Relocated(t, t[i].ns, t[i].path, ns, owners[ns], to, t[i].size)
  {
    hide Unique, Closed, Labelled, Checked, HasFolder, Matches, Renamed, Carried, Resized, Incremented;
    var atNs, at, owner := t[i].ns, t[i].path, owners[ns];
    MovedRow(t, owners, i, ns, to);
    forall j | j in t
      ensures MoveSteps(t, i, ns, owner, to)[j] == Relocated(t, atNs, at, ns, owner, to, t[i].size)[j]
    {
      MoveOneRow(t, owners, i, ns, to, j);
    }
  }

  lemma MoveOneRow(t: Table, owners: Owners, i: nat, ns: string, to: Path, j: nat)
    requires Unique(t) && Closed(t) && Labelled(t, owners) && ns in owners && i in t && Checked(t, i, ns, to) && j in t
    ensures MoveSteps(t, i, ns, owners[ns], to)[j] == Relocated(t, t[i].ns, t[i].path, ns, owners[ns], to, t[i].size)[j]
  {
    hide Unique, Closed, Labelled, Checked, Matches, Renamed, Carried, Resized, Incremented, ToDecrease, ToIncrease;
    var at, owner := t[i].path, owners[ns];
    CheckedParts(t, i, ns, to);
    if j == i {
      MovedRow(t, owners, i, ns, to);
      CarriedNotResized(t, i, ns, owner, to, i);
    } else {
      MatchesSelf(t, i, j);
      if InSubtree(t[j], t[i].ns, at) {
        StrictlyBelow(t, i, j);
        RowBelowRenamed(t, owners, i, ns, to, j);
        CarriedNotResized(t, i, ns, owner, to, j);
      } else {
        OtherRowResized(t, i, ns, to, j, t[j]);
      }
    }
  }

  lemma CheckedParts(t: Table, i: nat, ns: string, to: Path)
    requires Checked(t, i, ns, to)
    ensures t[i].path != [] && to != [] && HasFolder(t, ns, Parent(to))
  {
  }

  lemma MatchesSelf(t: Table, i: nat, j: nat)
    requires Unique(t) && Closed(t) && i in t && j in t && t[i].path != []
    ensures Matches(t[j], t[i].ns, Str(t[i].path) + "/") <==> t[j].ns == t[i].ns && t[i].path < t[j].path
  {
    MatchesBelow(t, i, t[i].path, j);
  }

  lemma StrictlyBelow(t: Table, i: nat, j: nat)
    requires Unique(t) && Closed(t) && i in t && j in t && j != i && InSubtree(t[j], t[i].ns, t[i].path)
    ensures t[i].path < t[j].path && t[i].IsFolder()
  {
    PrefixFolds(t[i].path, t[j].path);
    ExactAncestor(t, i, j);
  }

  // ----- The destination

  predicate SamePlaces(t: Table, t': Table) {
    t.Keys == t'.Keys && forall j :: j in t ==> t'[j].ns == t[j].ns && t'[j].path == t[j].path
  }

  lemma SamePlacesUnique(t: Table, t': Table)
    requires SamePlaces(t, t')
    ensures DbUnique(t) <==> DbUnique(t')
  {
  }

  lemma UniqueIsDbUnique(t: Table)
    requires Unique(t)
    ensures DbUnique(t)
  {
    forall i, j | i in t && j in t && t[i].ns == t[j].ns && t[i].path == t[j].path ensures i == j {
      assert Clash(t, i, j);
    }
  }

  lemma RelabelledUnique(t: Table, i: nat, ns: string, owner: string, to: Path)
    requires Unique(t) && i in t
    ensures DbUnique(Relabelled(t, i, ns, owner, to))
            <==> !exists j :: j in t && j != i && t[j].ns == ns && t[j].path == to
  {
    UniqueIsDbUnique(t);
    var t1 := Relabelled(t, i, ns, owner, to);
    if j :| j in t && j != i && t[j].ns == ns && t[j].path == to {
      assert t1[j].path == t1[i].path && t1[j].ns == t1[i].ns;
    }
  }

  /** Once the moved row itself does not violate the database's constraint, no row below it does. */
  lemma RelocatedDbUnique(t: Table, i: nat, ns: string, owner: string, to: Path, size: int)
    requires Unique(t) && Closed(t) && i in t
    requires !exists j :: j in t && j != i && t[j].ns == ns && t[j].path == to
    ensures DbUnique(Relocated(t, t[i].ns, t[i].path, ns, owner, to, size))
  {
    hide Closed, Unique, Same;
    var t' := Relocated(t, t[i].ns, t[i].path, ns, owner, to, size);
    forall j, k | j in t' && k in t' && t'[j].ns == t'[k].ns && t'[j].path == t'[k].path ensures j == k {
      var a, b := InSubtree(t[j], t[i].ns, t[i].path), InSubtree(t[k], t[i].ns, t[i].path);
      if a && b {
        assert t[j].path[|t[i].path|..] == t'[j].path[|to|..] && t[k].path[|t[i].path|..] == t'[k].path[|to|..];
        assert t[j].path == t[i].path + t[j].path[|t[i].path|..] && t[k].path == t[i].path + t[k].path[|t[i].path|..];
      }
      if a && !b { NotBelowExactly(t, i, ns, to, k); }
      if b && !a { NotBelowExactly(t, i, ns, to, j); }
      EqualPlaces(t, j, k);
    }
  }

  lemma EqualPlaces(t: Table, j: nat, k: nat)
    requires Unique(t) && j in t && k in t
    ensures t[j].ns == t[k].ns && t[j].path == t[k].path ==> j == k
  {
    if t[j].ns == t[k].ns && t[j].path == t[k].path { assert Clash(t, j, k); }
  }

  lemma NotBelowExactly(t: Table, i: nat, ns: string, to: Path, k: nat)
    requires Closed(t) && i in t && k in t && !InSubtree(t[k], t[i].ns, t[i].path) && t[k].ns == ns
    requires !exists j :: j in t && j != i && t[j].ns == ns && t[j].path == to
    ensures !(to <= t[k].path)
  {
    var p := t[k].path;
    assert to <= p && |to| >= |p| ==> p == to;
    if to <= p && |to| < |p| {
      var a := AncestorStored(t, k, |to|);
    }
  }

  /** A checked move keeps the tree exactly when nothing else is at the destination, and then its sizes too; within one
      namespace that is always so. Across namespaces the check is skipped when source and destination have the
      same path, and a row there collides. */
  lemma MoveKeepsTreeIff(t: Table, owners: Owners, i: nat, ns: string, to: Path)
    requires Tree(t, owners) && ns in owners && i in t && Checked(t, i, ns, to)
    ensures Tree(MoveSteps(t, i, ns, owners[ns], to), owners) <==> forall j :: j in t && At(t[j], ns, to) ==> j == i
    ensures ns == t[i].ns ==> Tree(MoveSteps(t, i, ns, owners[ns], to), owners)
    ensures Sized(t) && Tree(MoveSteps(t, i, ns, owners[ns], to), owners) ==> Sized(MoveSteps(t, i, ns, owners[ns], to))
  {
    hide Labelled, Rooted, Sized, HasFolder;
    MoveIsRelocation(t, owners, i, ns, to);
    if forall j :: j in t && At(t[j], ns, to) ==> j == i {
      RelocatedKeepsTree(t, owners, i, ns, to, t[i].size);
      if Sized(t) { RelocatedKeepsSized(t, i, ns, owners[ns], to); }
    } else {
      var j :| j in t && At(t[j], ns, to) && j != i;
      assert to + t[i].path[|t[i].path|..] == to;
      assert Clash(Relocated(t, t[i].ns, t[i].path, ns, owners[ns], to, t[i].size), i, j);
    }
  }

  /** Moving back undoes a move: every row, path, size and name is as before. */
  lemma MoveBackRestores(t: Table, owners: Owners, i: nat, ns: string, to: Path, size: int)
    requires Tree(t, owners) && i in t && CanMove(t, i, ns, to) && ns in owners
    ensures Relocated(Relocated(t, t[i].ns, t[i].path, ns, owners[ns], to, size), ns, to, t[i].ns, owners[t[i].ns],
            t[i].path, size) == t
  {
    hide CanMove, Unique, Closed, Rooted, Carried, Resized, InSubtree;
    var at := t[i].path;
    var t' := Relocated(t, t[i].ns, at, ns, owners[ns], to, size);
    var back := Relocated(t', ns, to, t[i].ns, owners[t[i].ns], at, size);
    forall j | j in t ensures back[j] == t[j] {
      RowMovesBack(t, owners, i, ns, to, size, j);
    }
  }

  lemma RowMovesBack(t: Table, owners: Owners, i: nat, ns: string, to: Path, size: int, j: nat)
    requires Tree(t, owners) && i in t && CanMove(t, i, ns, to) && ns in owners && j in t
    ensures var at := t[i].path;
            var r := if InSubtree(t[j], t[i].ns, at) then Carried(t[j], at, ns, owners[ns], to)
                     else Resized(t[j], t[i].ns, at, ns, to, size);
            t[j] == if InSubtree(r, ns, to) then Carried(r, to, t[i].ns, owners[t[i].ns], at)
                    else Resized(r, ns, to, t[i].ns, at, size)
  {
    hide CanMove, Unique, Closed, Rooted;
    var at := t[i].path;
    if InSubtree(t[j], t[i].ns, at) {
      var rest := t[j].path[|at|..];
      assert (to + rest)[|to|..] == rest;
      assert at + rest == t[j].path;
    } else if t[j].ns == ns && to <= t[j].path {
      PrefixFolds(to, t[j].path);
      OnlyMovedBelow(t, i, ns, to, j);
    }
  }

  /** A move conserves every file's size, hence the total. */
  lemma MoveConservesBytes(t: Table, owners: Owners, i: nat, ns: string, to: Path)
    requires Tree(t, owners) && i in t && CanMove(t, i, ns, to) && ns in owners
    ensures AllFiles(Relocated(t, t[i].ns, t[i].path, ns, owners[ns], to, t[i].size)) == AllFiles(t)
    ensures TotalBytes(Relocated(t, t[i].ns, t[i].path, ns, owners[ns], to, t[i].size)) == TotalBytes(t)
  {
    hide CanMove, Unique, Closed, Rooted;
    var t' := Relocated(t, t[i].ns, t[i].path, ns, owners[ns], to, t[i].size);
    forall j | j in t ensures FileBytes(t'[j]) == FileBytes(t[j]) {
      if !t[j].IsFolder() { FileNotAbove(t, i, ns, to, j); }
    }
    assert AllFiles(t') == AllFiles(t);
  }
}
