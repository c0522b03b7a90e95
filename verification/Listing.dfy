/** Listing a folder, and walking the whole tree by listings. */
module Listing {
  import opened Text
  import opened Paths
  import opened Rows
  import opened Seqs
  import opened FileTable
  import opened FileCore

  // The pattern "^{prefix}[^/]+$", ignoring case.
  predicate ListMatch(r: Row, ns: string, prefix: string) {
    var s := Str(r.path);
    r.ns == ns && |prefix| < |s| && Lower(s[..|prefix|]) == Lower(prefix) && '/' !in s[|prefix|..]
  }

  function ListPrefix(path: Path): string {
    if path == [] then "" else Str(path) + "/"
  }

  lemma {:induction false} NoSlash(p: Path)
    ensures '/' !in Join(p) <==> |p| <= 1
  {
    if |p| > 1 {
      assert Join(p)[|p[0]|] == '/';
    }
  }

  lemma LowerTake(s: string, k: nat)
    requires k <= |s|
    ensures Lower(s[..k]) == Lower(s)[..k]
  {
  }

  /** Below the root, listing matches exactly the paths one name longer whose parent is the folder, up to case. */
  lemma ListMatchIsChild(q: Path, p: Path, r: Row)
    requires r.path == q && p != []
    ensures ListMatch(r, r.ns, ListPrefix(p)) <==> q != [] && Same(Parent(q), p)
  {
    var s, f := Str(q), Str(p) + "/";
    IPrefixIsAncestry(p, q);
    if |f| <= |s| { LowerTake(s, |f|); }
    assert IStartsWith(s, f) <==> |f| <= |s| && Lower(s[..|f|]) == Lower(f) by {
      if IStartsWith(s, f) { assert Lower(s)[..|f|] == Lower(f); }
    }
    if Below(p, q) {
      FoldTake(q, |p|);
      var a, rest := q[..|p|], q[|p|..];
      assert q == a + rest && Same(a, p);
      SameLength(a, p);
      JoinConcat(a, rest);
      assert s == Str(a) + "/" + Join(rest);
      assert s[|f|..] == Join(rest);
      NoSlash(rest);
      if |rest| == 1 { assert Parent(q) == a; }
      if Same(Parent(q), p) { assert |Fold(Parent(q))| == |p|; }
    }
    if q != [] && Same(Parent(q), p) {
      assert Fold(Parent(q)) == Fold(q)[..|p|] by { FoldTake(q, |q| - 1); }
      assert |Fold(Parent(q))| == |Fold(p)|;
    }
  }

  /** At the root, listing matches the top-level paths and the root's own row. */
  lemma RootListing(r: Row)
    ensures ListMatch(r, r.ns, ListPrefix([])) <==> |r.path| <= 1
  {
    NoSlash(r.path);
    assert Str(r.path)[0..] == Str(r.path) && Str(r.path)[..0] == "";
  }

  // ----- Sorting: folders first, then by folded name

  predicate Before(a: Stored, b: Stored) {
    if a.row.IsFolder() != b.row.IsFolder() then a.row.IsFolder()
    else LexLe(Lower(a.row.name), Lower(b.row.name))
  }

  lemma BeforeOrder(a: Stored, b: Stored, c: Stored)
    ensures Before(a, b) || Before(b, a)
    ensures Before(a, b) && Before(b, c) ==> Before(a, c)
  {
    LexTotal(Lower(a.row.name), Lower(b.row.name));
    if Before(a, b) && Before(b, c) && a.row.IsFolder() == b.row.IsFolder() == c.row.IsFolder() {
      LexTransitive(Lower(a.row.name), Lower(b.row.name), Lower(c.row.name));
    }
  }

  ghost predicate Listed(s: seq<Stored>) {
    forall i, j :: 0 <= i < j < |s| ==> Before(s[i], s[j])
  }

  // Folders come before files, and each kind is ordered by lower-cased name.
  ghost predicate FoldersFirst(s: seq<Stored>) {
    forall i, j :: 0 <= i < j < |s| ==>
      && (s[j].row.IsFolder() ==> s[i].row.IsFolder())
      && (s[i].row.IsFolder() == s[j].row.IsFolder() ==> LexLe(Lower(s[i].row.name), Lower(s[j].row.name)))
  }

  lemma ListedIsOrdered(s: seq<Stored>)
    requires Listed(s)
    ensures FoldersFirst(s)
  {
    hide LexLe, Lower;
  }

  // Insertion into a sorted list, after the entries that come before it.
  function Place(s: seq<Stored>, x: Stored): (r: seq<Stored>)
    ensures forall y :: y in r <==> y in s || y == x
    ensures |r| == |s| + 1
  {
    if s == [] then [x]
    else if Before(x, s[0]) then [x] + s
    else [s[0]] + Place(s[1..], x)
  }

  lemma {:induction false} PlaceKeeps(s: seq<Stored>, x: Stored)
    requires Listed(s) && Distinct(s) && x !in s
    ensures Listed(Place(s, x)) && Distinct(Place(s, x))
  {
    if s != [] {
      if Before(x, s[0]) {
        forall j | 0 <= j < |s| ensures Before(x, s[j]) { BeforeOrder(x, s[0], s[j]); }
      } else {
        PlaceKeeps(s[1..], x);
        var rest := Place(s[1..], x);
        BeforeOrder(x, s[0], x);
        forall j | 0 <= j < |rest| ensures Before(s[0], rest[j]) && s[0] != rest[j] {
          assert rest[j] in rest;
        }
      }
    }
  }

  // The rows directly in a folder.
  ghost function Children(t: Table, ns: string, p: Path): set<nat> {
    set j | j in t && t[j].ns == ns && t[j].path != [] && Parent(t[j].path) == p
  }

  class FolderListing {
    const files: FileRepository

    constructor (files: FileRepository)
      ensures this.files == files
    {
      this.files := files;
    }

    method ListWithPrefix(ns: string, prefix: string) returns (r: seq<Stored>)
      ensures Listed(r) && Distinct(r)
      ensures forall s :: s in r <==> s.id in files.rows && files.rows[s.id] == s.row && ListMatch(s.row, ns, prefix)
    {
      hide Before, ListMatch, Listed, Distinct;
      r := [];
      EmptyListed();
      var todo := set i | i in files.rows && ListMatch(files.rows[i], ns, prefix);
      ghost var all := todo;
      while todo != {}
        invariant todo <= all && Listed(r) && Distinct(r)
        invariant forall s :: s in r <==> s.id in all - todo && files.rows[s.id] == s.row
        decreases |todo|
      {
        var i :| i in todo;
        PlaceKeeps(r, Stored(i, files.rows[i]));
        r := Place(r, Stored(i, files.rows[i]));
        todo := todo - {i};
      }
    }

    method ListFolder(ns: string, path: Path, ghost owners: Owners) returns (r: Result<seq<Stored>>)
      requires Tree(files.rows, owners)
      ensures AnswersList(files.rows, ns, path, r)
    {
      hide Before, ListMatch, Listed, Distinct, Tree, Same, FoldersFirst;
      var folder := files.GetByPath(ns, path);
      if folder.Err? { return Err(NotFound); }
      OnlyRow(files.rows, owners, ns, path, folder.value.id);
      if !folder.value.row.IsFolder() { return Err(NotADirectory); }
      var found := ListWithPrefix(ns, ListPrefix(path));
      ListingIsChildren(files.rows, owners, ns, path, folder.value.id);
      ListedIsOrdered(found);
      r := Ok(found);
    }
  }

  lemma EmptyListed()
    ensures Listed([]) && Distinct<Stored>([])
  {
  }

  // A child of the folder; listing the root also returns the root's own row.
  ghost predicate InListing(t: Table, ns: string, p: Path, s: Stored) {
    s.id in t && t[s.id] == s.row && (s.id in Children(t, ns, p) || (p == [] && s.row.ns == ns && s.row.path == []))
  }

  // What listing a path answers: the folder's children once each, folders first and then by name, or why it cannot.
  ghost predicate AnswersList(t: Table, ns: string, p: Path, r: Result<seq<Stored>>) {
    && (r == Err(NotFound) <==> !Taken(t, ns, p))
    && (r == Err(NotADirectory) <==> exists i :: i in t && At(t[i], ns, p) && !t[i].IsFolder())
    && (r.Err? ==> r.error in {NotFound, NotADirectory})
    && (r.Ok? ==> Listed(r.value) && FoldersFirst(r.value) && Distinct(r.value))
    && forall i :: r.Ok? && i in t && At(t[i], ns, p) ==>
         forall s :: s in r.value <==> InListing(t, ns, t[i].path, s)
  }

  /** Listing a folder is the child relation. */
  lemma ListingIsChildren(t: Table, owners: Owners, ns: string, path: Path, i: nat)
    requires Tree(t, owners) && i in t && At(t[i], ns, path)
    ensures forall j :: j in t ==>
              (ListMatch(t[j], ns, ListPrefix(path)) <==> InListing(t, ns, t[i].path, Stored(j, t[j])))
  {
    hide ListMatch;
    assert |Fold(t[i].path)| == |Fold(path)|;
    forall j | j in t ensures ListMatch(t[j], ns, ListPrefix(path)) <==> InListing(t, ns, t[i].path, Stored(j, t[j])) {
      if t[j].ns != ns {
        MatchNs(t[j], ns, ListPrefix(path));
      } else if path == [] {
        RootListing(t[j]);
      } else {
        ListMatchIsChild(t[j].path, path, t[j]);
        if t[j].path != [] && Same(Parent(t[j].path), path) {
          PrefixFolds(Parent(t[j].path), t[j].path);
          ExactAncestor(t, i, j);
          assert t[i].path == t[j].path[..|t[i].path|];
        }
      }
    }
  }

  lemma MatchNs(r: Row, ns: string, prefix: string)
    requires r.ns != ns
    ensures !ListMatch(r, ns, prefix)
  {
  }

  // ----- Walking

  // Some listing of every folder of the namespace: its children, each once, in any order.
  ghost predicate Lists(t: Table, ns: string, list: Path -> seq<nat>) {
    forall p :: HasFolder(t, ns, p) ==> Distinct(list(p)) && forall j :: j in list(p) <==> j in Children(t, ns, p)
  }

  // Visit the given rows, descending into folders.
  ghost function Walk(t: Table, list: Path -> seq<nat>, ids: seq<nat>, depth: nat): seq<nat>
    decreases depth, |ids|
  {
    if ids == [] then []
    else
      var i := ids[0];
      [i]
      + (if i in t && t[i].IsFolder() && depth > 0 then Walk(t, list, list(t[i].path), depth - 1) else [])
      + Walk(t, list, ids[1..], depth)
  }

  ghost predicate Deep(t: Table, ns: string, p: Path, depth: nat) {
    forall j :: j in t && t[j].ns == ns && p < t[j].path ==> |t[j].path| <= |p| + 1 + depth
  }

  // How often j is visited from the given children of p: once if it lies at or below one of them.
  ghost predicate Covers(t: Table, ns: string, ids: seq<nat>, visited: seq<nat>) {
    forall j :: multiset(visited)[j] ==
      if j in t && t[j].ns == ns && exists c :: c in ids && c in t && t[c].path <= t[j].path then 1 else 0
  }

  lemma {:induction false} WalkCovers(t: Table, owners: Owners, ns: string, list: Path -> seq<nat>, p: Path,
                                      ids: seq<nat>, depth: nat)
    requires Tree(t, owners) && Lists(t, ns, list) && Deep(t, ns, p, depth)
    requires Distinct(ids) && forall i :: i in ids ==> i in Children(t, ns, p)
    ensures Covers(t, ns, ids, Walk(t, list, ids, depth))
    decreases depth, |ids|
  {
    hide Tree, Lists, Deep, Covers;
    if ids == [] {
      NothingCovered(t, ns);
    } else {
      var i, rest := ids[0], ids[1..];
      assert ids == [i] + rest;
      assert i in ids;
      WalkCovers(t, owners, ns, list, p, rest, depth);
      var below := if i in t && t[i].IsFolder() && depth > 0 then Walk(t, list, list(t[i].path), depth - 1) else [];
      if t[i].IsFolder() && depth > 0 {
        ChildFolder(t, owners, ns, list, p, i, depth);
        WalkCovers(t, owners, ns, list, t[i].path, list(t[i].path), depth - 1);
      } else {
        NothingCovered(t, ns);
      }
      CoverStep(t, owners, ns, list, p, ids, depth, below, Walk(t, list, rest, depth));
    }
  }

  lemma NothingCovered(t: Table, ns: string)
    ensures Covers(t, ns, [], [])
  {
  }

  lemma ChildFolder(t: Table, owners: Owners, ns: string, list: Path -> seq<nat>, p: Path, i: nat, depth: nat)
    requires Lists(t, ns, list) && Deep(t, ns, p, depth) && i in Children(t, ns, p) && t[i].IsFolder() && depth > 0
    ensures Deep(t, ns, t[i].path, depth - 1) && Distinct(list(t[i].path))
    ensures forall j :: j in list(t[i].path) <==> j in Children(t, ns, t[i].path)
  {
    assert HasFolder(t, ns, t[i].path);
    var q := t[i].path;
    forall j | j in t && t[j].ns == ns && q < t[j].path ensures |t[j].path| <= |q| + 1 + (depth - 1) {
      assert p == q[..|p|];
      assert q == t[j].path[..|q|];
      assert p < t[j].path;
    }
  }

  lemma DeepEnough(t: Table, ns: string, p: Path, i: nat, j: nat, depth: nat)
    requires Deep(t, ns, p, depth) && i in Children(t, ns, p) && j in t && t[j].ns == ns
    ensures t[i].path < t[j].path ==> depth > 0
  {
    var q := t[i].path;
    if q < t[j].path {
      assert p == q[..|p|] && q == t[j].path[..|q|];
      assert p < t[j].path;
    }
  }

  // What lies strictly below child i is what its own walk visits.
  lemma BelowChild(t: Table, owners: Owners, ns: string, list: Path -> seq<nat>, p: Path, i: nat, depth: nat, j: nat)
    requires Tree(t, owners) && Lists(t, ns, list) && Deep(t, ns, p, depth) && i in Children(t, ns, p) && j in t
             && t[j].ns == ns
    ensures t[i].path < t[j].path ==> t[i].IsFolder() && depth > 0
    ensures t[i].IsFolder() && depth > 0 ==>
              (t[i].path < t[j].path <==> exists c :: c in list(t[i].path) && c in t && t[c].path <= t[j].path)
  {
    hide Labelled, Rooted, Lists, Deep;
    DeepEnough(t, ns, p, i, j, depth);
    var q := t[i].path;
    if q < t[j].path {
      PrefixFolds(q, t[j].path);
      ExactAncestor(t, i, j);
    }
    if t[i].IsFolder() && depth > 0 {
      ChildFolder(t, owners, ns, list, p, i, depth);
      if q < t[j].path {
        var c := ChildTowards(t, owners, j, |q| + 1);
        assert t[c].path[..|q|] == q;
        assert c in Children(t, ns, q);
      }
      if c :| c in list(q) && c in t && t[c].path <= t[j].path {
        assert q == t[c].path[..|q|];
        assert t[c].path == t[j].path[..|t[c].path|];
      }
    }
  }

  lemma ChildTowards(t: Table, owners: Owners, j: nat, k: nat) returns (c: nat)
    requires Tree(t, owners) && j in t && 0 < k <= |t[j].path|
    ensures c in t && t[c].ns == t[j].ns && t[c].path == t[j].path[..k]
  {
    if k == |t[j].path| {
      c := j;
      assert t[j].path[..k] == t[j].path;
    } else {
      c := AncestorStored(t, j, k);
    }
  }

  lemma SiblingsApart(t: Table, owners: Owners, ns: string, p: Path, i: nat, c: nat, j: nat)
    requires Tree(t, owners) && i in Children(t, ns, p) && c in Children(t, ns, p) && j in t
    requires t[i].path <= t[j].path && t[c].path <= t[j].path
    ensures i == c
  {
    assert t[i].path == t[j].path[..|p| + 1] && t[c].path == t[j].path[..|p| + 1];
    assert Clash(t, i, c);
  }

  lemma CoverStep(t: Table, owners: Owners, ns: string, list: Path -> seq<nat>, p: Path, ids: seq<nat>, depth: nat,
                  below: seq<nat>, after: seq<nat>)
    requires Tree(t, owners) && Lists(t, ns, list) && Deep(t, ns, p, depth)
    requires ids != [] && ids[0] in t && Distinct(ids) && forall i :: i in ids ==> i in Children(t, ns, p)
    requires Covers(t, ns, ids[1..], after)
    requires if t[ids[0]].IsFolder() && depth > 0 then Covers(t, ns, list(t[ids[0]].path), below) else below == []
    ensures Covers(t, ns, ids, [ids[0]] + below + after)
  {
    hide Tree, Lists, Deep, Children, Distinct;
    var all := [ids[0]] + below + after;
    forall j ensures multiset(all)[j] ==
      if j in t && t[j].ns == ns && exists c :: c in ids && c in t && t[c].path <= t[j].path then 1 else 0
    {
      CoverOne(t, owners, ns, list, p, ids, depth, below, after, j);
    }
  }

  lemma CoverOne(t: Table, owners: Owners, ns: string, list: Path -> seq<nat>, p: Path, ids: seq<nat>, depth: nat,
                 below: seq<nat>, after: seq<nat>, j: nat)
    requires Tree(t, owners) && Lists(t, ns, list) && Deep(t, ns, p, depth)
    requires ids != [] && ids[0] in t && Distinct(ids) && forall i :: i in ids ==> i in Children(t, ns, p)
    requires Covers(t, ns, ids[1..], after)
    requires if t[ids[0]].IsFolder() && depth > 0 then Covers(t, ns, list(t[ids[0]].path), below) else below == []
    ensures multiset([ids[0]] + below + after)[j]
         == if j in t && t[j].ns == ns && exists c :: c in ids && c in t && t[c].path <= t[j].path then 1 else 0
  {
    hide Tree, Lists, Deep, Covers, Children, Distinct;
    var i, rest := ids[0], ids[1..];
    FirstAndRest(ids);
    assert i in ids && forall c :: c in ids <==> c == i || c in rest;
    ChildRow(t, ns, p, i);
    CoversAt(t, ns, rest, after, j);
    if t[i].IsFolder() && depth > 0 { CoversAt(t, ns, list(t[i].path), below, j); }
    assert multiset([i] + below + after)[j] == multiset{i}[j] + multiset(below)[j] + multiset(after)[j];
    if j in t && t[j].ns == ns {
      BelowChild(t, owners, ns, list, p, i, depth, j);
      SamePathSameRow(t, owners, i, j);
      if t[i].path <= t[j].path { OnlyFirst(t, owners, ns, p, ids, j); }
    }
  }

  lemma ChildRow(t: Table, ns: string, p: Path, i: nat)
    requires i in Children(t, ns, p)
    ensures i in t && t[i].ns == ns
  {
  }

  lemma FirstAndRest(ids: seq<nat>)
    requires ids != [] && Distinct(ids)
    ensures ids == [ids[0]] + ids[1..] && ids[0] !in ids[1..]
  {
  }

  lemma CoversAt(t: Table, ns: string, ids: seq<nat>, visited: seq<nat>, j: nat)
    requires Covers(t, ns, ids, visited)
    ensures multiset(visited)[j]
            == (if j in t && t[j].ns == ns && exists c :: c in ids && c in t && t[c].path <= t[j].path then 1 else 0)
  {
  }

  lemma OnlyFirst(t: Table, owners: Owners, ns: string, p: Path, ids: seq<nat>, j: nat)
    requires Tree(t, owners) && ids != [] && Distinct(ids) && ids[0] in t && j in t && t[ids[0]].path <= t[j].path
    requires forall i :: i in ids ==> i in Children(t, ns, p)
    ensures forall c :: c in ids[1..] && c in t ==> !(t[c].path <= t[j].path)
  {
    hide Tree, Children, Distinct;
    FirstAndRest(ids);
    forall c | c in ids[1..] && c in t ensures !(t[c].path <= t[j].path) {
      assert c in ids && ids[0] in ids;
      if t[c].path <= t[j].path { SiblingsApart(t, owners, ns, p, ids[0], c, j); }
    }
  }

  lemma SamePathSameRow(t: Table, owners: Owners, i: nat, j: nat)
    requires Tree(t, owners) && i in t && j in t && t[i].ns == t[j].ns
    ensures t[i].path == t[j].path ==> i == j
  {
    if t[i].path == t[j].path { assert Clash(t, i, j); }
  }

  /** Walking a namespace from its root by listings visits every row but the root's own exactly once. */
  lemma WalkVisitsOnce(t: Table, owners: Owners, ns: string, list: Path -> seq<nat>, depth: nat)
    requires Tree(t, owners) && ns in owners && Lists(t, ns, list)
    requires forall j :: j in t && t[j].ns == ns ==> |t[j].path| <= depth + 1
    ensures forall j :: (multiset(Walk(t, list, list([]), depth))[j]
                         == if j in t && t[j].ns == ns && t[j].path != [] then 1 else 0)
  {
    hide Unique, Closed, Labelled, Lists, Children, Covers;
    assert HasFolder(t, ns, []);
    RootDepth(t, ns, depth);
    RootListed(t, ns, list);
    WalkCovers(t, owners, ns, list, [], list([]), depth);
    forall j | j in t && t[j].ns == ns
      ensures t[j].path != [] <==> exists c :: c in list([]) && c in t && t[c].path <= t[j].path
    {
      RootTowards(t, owners, ns, list, j);
    }
    CoversAre(t, ns, list([]), Walk(t, list, list([]), depth));
  }

  lemma RootDepth(t: Table, ns: string, depth: nat)
    requires forall j :: j in t && t[j].ns == ns ==> |t[j].path| <= depth + 1
    ensures Deep(t, ns, [], depth)
  {
  }

  lemma RootListed(t: Table, ns: string, list: Path -> seq<nat>)
    requires Lists(t, ns, list) && HasFolder(t, ns, [])
    ensures Distinct(list([])) && forall j :: j in list([]) <==> j in Children(t, ns, [])
  {
  }

  lemma RootTowards(t: Table, owners: Owners, ns: string, list: Path -> seq<nat>, j: nat)
    requires Tree(t, owners) && j in t && t[j].ns == ns && forall c :: c in list([]) <==> c in Children(t, ns, [])
    ensures t[j].path != [] <==> exists c :: c in list([]) && c in t && t[c].path <= t[j].path
  {
    hide Tree;
    if t[j].path != [] {
      var c := ChildTowards(t, owners, j, 1);
      assert c in Children(t, ns, []);
    }
  }

  lemma CoversAre(t: Table, ns: string, ids: seq<nat>, visited: seq<nat>)
    requires Covers(t, ns, ids, visited)
    ensures forall j :: (multiset(visited)[j] ==
              if j in t && t[j].ns == ns && exists c :: c in ids && c in t && t[c].path <= t[j].path then 1 else 0)
  {
  }

  // ----- Walking by what list_folder answers

  // The ids listed, without the root's own row.
  function BelowRoot(files: seq<Stored>): seq<nat> {
    if files == [] then []
    else BelowRoot(files[..|files| - 1])
         + if files[|files| - 1].row.path == [] then [] else [files[|files| - 1].id]
  }

  function IdsOf(r: Result<seq<Stored>>): seq<nat> {
    if r.Ok? then BelowRoot(r.value) else []
  }

  lemma {:induction false} BelowRootAre(files: seq<Stored>, t: Table)
    requires Distinct(files) && forall s :: s in files ==> s.id in t && t[s.id] == s.row
    ensures Distinct(BelowRoot(files))
    ensures forall j :: j in BelowRoot(files) <==> j in t && t[j].path != [] && Stored(j, t[j]) in files
  {
    if files != [] {
      var rest, last := files[..|files| - 1], files[|files| - 1];
      assert files == rest + [last] && last !in rest;
      BelowRootAre(rest, t);
    }
  }

  lemma AnswersAreLists(t: Table, owners: Owners, ns: string, answer: Path -> Result<seq<Stored>>)
    requires Tree(t, owners) && forall p :: AnswersList(t, ns, p, answer(p))
    ensures Lists(t, ns, p => IdsOf(answer(p)))
  {
    hide Tree;
    forall p | HasFolder(t, ns, p)
      ensures Distinct(IdsOf(answer(p))) && forall j :: j in IdsOf(answer(p)) <==> j in Children(t, ns, p)
    {
      AnswerIsChildren(t, owners, ns, p, answer(p));
    }
  }

  lemma AnswerIsChildren(t: Table, owners: Owners, ns: string, p: Path, r: Result<seq<Stored>>)
    requires Tree(t, owners) && AnswersList(t, ns, p, r) && HasFolder(t, ns, p)
    ensures Distinct(IdsOf(r)) && forall j :: j in IdsOf(r) <==> j in Children(t, ns, p)
  {
    hide Tree, Same, Listed, Distinct;
    var i :| i in t && t[i].ns == ns && t[i].path == p && t[i].IsFolder();
    SameReflexive(p);
    OnlyRow(t, owners, ns, p, i);
    assert At(t[i], ns, p);
    assert r.Ok?;
    assert forall s :: s in r.value <==> InListing(t, ns, p, s);
    BelowRootAre(r.value, t);
  }

  // The length of the longest stored path.
  ghost function Longest(t: Table): (n: nat)
    ensures forall j :: j in t ==> |t[j].path| <= n
    decreases |t|
  {
    if t == map[] then 0
    else
      var i :| i in t;
      var rest := Longest(t - {i});
      assert forall j :: j in t && j != i ==> j in t - {i};
      if rest < |t[i].path| then |t[i].path| else rest
  }

  /** Whatever list_folder answers for each path, descending from the home into every folder listed visits every row but
      the root's own exactly once. */
  lemma ListFolderWalksOnce(t: Table, owners: Owners, ns: string, answer: Path -> Result<seq<Stored>>)
    requires Tree(t, owners) && ns in owners && forall p :: AnswersList(t, ns, p, answer(p))
    ensures forall j :: (multiset(Walk(t, p => IdsOf(answer(p)), IdsOf(answer([])), Longest(t)))[j]
                         == if j in t && t[j].ns == ns && t[j].path != [] then 1 else 0)
  {
    hide Tree, AnswersList, Walk, Lists;
    AnswersAreLists(t, owners, ns, answer);
    WalkVisitsOnce(t, owners, ns, p => IdsOf(answer(p)), Longest(t));
  }
}
