/** Rows of the file table, what makes a table a tree, and when its cached sizes are right. */
module Rows {
  import opened Paths
  import opened Sums

  datatype Option<+T> = None | Some(value: T)

  datatype Result<+T> = Ok(value: T) | Err(error: FileError)

  datatype FileError =
    | NotFound | AlreadyExists | NotADirectory | MissingParent | MalformedPath | BlobAlreadyExists | IntegrityError
    | TooLarge | StorageQuotaExceeded | BlobNotFound

  // A row without a blob is a folder.
  datatype Row = Row(ns: string, owner: string, path: Path, name: string, blob: Option<nat>, size: int)
  {
    predicate IsFolder() {
      blob.None?
    }
  }

  type Table = map<nat, Row>

  // Owners of the known namespaces.
  type Owners = map<string, string>

  ghost predicate HasFolder(t: Table, ns: string, p: Path) {
    exists i :: i in t && t[i].ns == ns && t[i].path == p && t[i].IsFolder()
  }

  // A row at this path, ignoring case.
  predicate At(r: Row, ns: string, p: Path) {
    r.ns == ns && Same(r.path, p)
  }

  ghost predicate Taken(t: Table, ns: string, p: Path) {
    exists i :: i in t && At(t[i], ns, p)
  }

  // ----- Well-formed trees

  ghost predicate Clash(t: Table, i: nat, j: nat) {
    i in t && j in t && t[i].ns == t[j].ns && Same(t[i].path, t[j].path)
  }

  // No two rows of a namespace have paths that are equal up to case.
  ghost predicate Unique(t: Table) {
    forall i, j :: Clash(t, i, j) ==> i == j
  }

  // Every row's parent string is the path of a stored folder, exactly.
  ghost predicate Closed(t: Table) {
    forall i {:trigger HasFolder(t, t[i].ns, Parent(t[i].path))} ::
      i in t && t[i].path != [] ==> HasFolder(t, t[i].ns, Parent(t[i].path))
  }

  ghost predicate Labelled(t: Table, owners: Owners) {
    forall i :: i in t ==> t[i].name == NameOf(t[i].path) && t[i].ns in owners && t[i].owner == owners[t[i].ns]
  }

  ghost predicate Rooted(t: Table, owners: Owners) {
    forall ns :: ns in owners ==> HasFolder(t, ns, [])
  }

  ghost predicate Tree(t: Table, owners: Owners) {
    Unique(t) && Closed(t) && Labelled(t, owners) && Rooted(t, owners)
  }

  lemma {:induction false} AncestorStored(t: Table, i: nat, k: nat) returns (a: nat)
    requires Closed(t) && i in t && k < |t[i].path|
    ensures a in t && t[a].ns == t[i].ns && t[a].path == t[i].path[..k] && t[a].IsFolder()
    decreases |t[i].path|
  {
    var p := t[i].path;
    assert HasFolder(t, t[i].ns, Parent(p));
    a :| a in t && t[a].ns == t[i].ns && t[a].path == Parent(p) && t[a].IsFolder();
    if k < |p| - 1 {
      a := AncestorStored(t, a, k);
    }
  }

  /** Among stored rows, ancestry up to case is ancestry exactly. */
  lemma ExactAncestor(t: Table, i: nat, j: nat)
    requires Unique(t) && Closed(t) && i in t && j in t && t[i].ns == t[j].ns
    requires AtOrBelow(t[i].path, t[j].path)
    ensures t[i].path <= t[j].path
    ensures t[i].path < t[j].path ==> t[i].IsFolder()
    ensures t[i].path == t[j].path ==> i == j
  {
    var p, q := t[i].path, t[j].path;
    FoldTake(q, |p|);
    assert Same(p, q[..|p|]);
    if |p| < |q| {
      var k := AncestorStored(t, j, |p|);
      assert Clash(t, i, k);
    } else {
      assert q[..|p|] == q;
      assert Clash(t, i, j);
    }
  }

  lemma PrefixFolds(p: Path, q: Path)
    requires p <= q
    ensures AtOrBelow(p, q)
  {
    assert p == q[..|p|];
    FoldTake(q, |p|);
  }

  // ----- Cached sizes

  function FileBytes(r: Row): int {
    if r.IsFolder() then 0 else r.size
  }

  function BytesBelow(r: Row, ns: string, p: Path): int {
    if r.ns == ns && p < r.path then FileBytes(r) else 0
  }

  ghost function FilesBelow(t: Table, ns: string, p: Path): map<nat, int> {
    map i | i in t :: BytesBelow(t[i], ns, p)
  }

  // The total size of the files strictly below p.
  ghost function SizeBelow(t: Table, ns: string, p: Path): int {
    Sum(FilesBelow(t, ns, p))
  }

  // Every folder row caches the size of the files below it.
  ghost predicate Sized(t: Table) {
    forall i :: i in t && t[i].IsFolder() ==> t[i].size == SizeBelow(t, t[i].ns, t[i].path)
  }

  ghost function AllFiles(t: Table): map<nat, int> {
    map i | i in t :: FileBytes(t[i])
  }

  ghost function TotalBytes(t: Table): int {
    Sum(AllFiles(t))
  }

  // ----- Subtrees

  predicate InSubtree(r: Row, ns: string, p: Path) {
    r.ns == ns && p <= r.path
  }

  ghost function SubtreeFiles(t: Table, ns: string, p: Path): map<nat, int> {
    map i | i in t :: if InSubtree(t[i], ns, p) then FileBytes(t[i]) else 0
  }

  /** A row's size is the total of the files at or below it. */
  lemma SubtreeSize(t: Table, i: nat)
    requires Unique(t) && Closed(t) && Sized(t) && i in t
    ensures Sum(SubtreeFiles(t, t[i].ns, t[i].path)) == t[i].size
  {
    var ns, p := t[i].ns, t[i].path;
    var m := SubtreeFiles(t, ns, p);
    if t[i].IsFolder() {
      forall j | j in t ensures m[j] == BytesBelow(t[j], ns, p) {
        if t[j].ns == ns && t[j].path == p { assert Clash(t, i, j); }
      }
      assert m == FilesBelow(t, ns, p);
    } else {
      forall j | j in t && j != i ensures m[j] == 0 {
        if InSubtree(t[j], ns, p) {
          PrefixFolds(p, t[j].path);
          ExactAncestor(t, i, j);
        }
      }
      SumSingle(m, i);
    }
  }

  /** Whatever lies at or below a path hangs from a row at that path, so nothing is stored below a free path. */
  lemma NothingBelowFree(t: Table, ns: string, p: Path, j: nat) returns (k: nat)
    requires Closed(t) && j in t && t[j].ns == ns && AtOrBelow(p, t[j].path)
    ensures k in t && At(t[k], ns, p) && t[k].path <= t[j].path
  {
    var q := t[j].path;
    FoldTake(q, |p|);
    if |p| < |q| {
      k := AncestorStored(t, j, |p|);
    } else {
      assert q[..|p|] == q;
      k := j;
    }
  }
}
