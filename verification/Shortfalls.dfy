/** Concrete calls at which the services do not do what they promise; the exact conditions are in the other modules. */
module Shortfalls {
  import opened Text
  import opened Paths
  import opened Rows
  import opened Trees
  import opened FileTable
  import opened Folders
  import opened Names
  import opened Uploads
  import opened BlobStore
  import opened Keys
  import opened FileCore
  import Albums
  import S3
  import Paging

  function FileRow(ns: string, owner: string, p: Path, blob: nat, size: int): Row {
    Row(ns, owner, p, NameOf(p), Some(blob), size)
  }

  // ----- Folders

  // A home with one folder.
  function OneFolder(ns: string, owner: string, name: Name): Table {
    map[0 := FolderRow(ns, owner, []), 1 := FolderRow(ns, owner, [name])]
  }

  // Which of the two rows is on a path, and which of them sorts last.
  lemma OnlyFolder(ns: string, owner: string, name: Name, path: Path)
    requires path != [] && LowerName(name) == LowerName(path[0])
    ensures var t := OneFolder(ns, owner, name);
            && OnPath(t, ns, path, 0) && OnPath(t, ns, path, 1) && Unblocked(t, ns, path)
            && (LexLe(".", Lower(name)) ==> IsLast(t, ns, path, 1))
            && (LexLe(Lower(name), ".") ==> IsLast(t, ns, path, 0))
  {
    hide LexLe, Lower;
    var t := OneFolder(ns, owner, name);
    assert Fold([]) == [] && Fold([name]) == [LowerName(name)];
    assert Fold(path)[..1] == [LowerName(path[0])];
    DotSorts(name);
    LexTotal(SortKey(t[0]), SortKey(t[0]));
    LexTotal(SortKey(t[1]), SortKey(t[1]));
  }

  lemma DotSorts(name: Name)
    ensures Lower(Str([])) == "." && Str([name]) == name
  {
  }

  /** Making "a/b/c" where "A" is stored saves "a/b" and "A/b/c", whose parent "A/b" is not stored. */
  lemma FolderCasing(ns: string, owner: string)
    ensures var t := OneFolder(ns, owner, "A");
            var path: Path := ["a", "b", "c"];
            && IsLast(t, ns, path, 1) && Unblocked(t, ns, path)
            && NewRows(t, ns, owner, path, 1)
              == [FolderRow(ns, owner, ["a", "b"]), FolderRow(ns, owner, ["A", "b", "c"])]
            && !Closed(SavedBatch(t, 2, NewRows(t, ns, owner, path, 1)))
  {
    hide SavedBatch, IsLast, OnPath;
    var t := OneFolder(ns, owner, "A");
    var path: Path := ["a", "b", "c"];
    assert Lower("A") == "a" && Lower("a") == "a";
    OnlyFolder(ns, owner, "A", path);
    assert path[..2] == ["a", "b"] && ["A"] + path[1..] == ["A", "b", "c"];
    NotClosed(t, ns, owner, NewRows(t, ns, owner, path, 1));
  }

  lemma NotClosed(t: Table, ns: string, owner: string, rows: seq<Row>)
    requires t == OneFolder(ns, owner, "A")
    requires rows == [FolderRow(ns, owner, ["a", "b"]), FolderRow(ns, owner, ["A", "b", "c"])]
    ensures !Closed(SavedBatch(t, 2, rows))
  {
    hide SavedBatch;
    BatchRows(t, 2, rows);
    var i := BatchStores(t, 2, rows, 1);
    var p: Path := ["A", "b", "c"];
    assert Parent(p) == ["A", "b"];
    var t' := SavedBatch(t, 2, rows);
    assert t'[i].path == p;
    assert !HasFolder(t', ns, Parent(t'[i].path));
  }

  /** "-x" sorts before ".", so making "-X" where "-x" is stored is not refused and saves a second row. */
  lemma FolderOrder(ns: string, owner: string)
    ensures var t := OneFolder(ns, owner, "-x");
            var path: Path := ["-X"];
            && Taken(t, ns, path) && IsLast(t, ns, path, 0) && !Same(t[0].path, path)
            && !Unique(SavedBatch(t, 2, NewRows(t, ns, owner, path, 0)))
  {
    hide SavedBatch, IsLast, OnPath;
    var t := OneFolder(ns, owner, "-x");
    var path: Path := ["-X"];
    assert Lower("-x") == "-x" && Lower("-X") == "-x";
    OnlyFolder(ns, owner, "-x", path);
    assert At(t[1], ns, path);
    SameLengths(t[0].path, path);
    assert [] + path[0..] == path;
    TwinSaved(t, ns, owner, path, NewRows(t, ns, owner, path, 0));
  }

  lemma TwinSaved(t: Table, ns: string, owner: string, path: Path, rows: seq<Row>)
    requires 1 in t && At(t[1], ns, path) && t[1].path != path && (forall i :: i in t ==> i < 2)
    requires rows == [FolderRow(ns, owner, path)]
    ensures !Unique(SavedBatch(t, 2, rows))
  {
    hide SavedBatch;
    BatchRows(t, 2, rows);
    var i := BatchStores(t, 2, rows, 0);
    assert Clash(SavedBatch(t, 2, rows), i, 1);
  }

  /** Uploading "a/f" where "A" is stored leaves the size of "A" at zero, and the file without a stored parent. */
  lemma FileCasing(ns: string, owner: string, size: nat)
    ensures var t := OneFolder(ns, owner, "A");
            var t' := AddSteps(t, 2, FileRow(ns, owner, ["a", "f"], 0, size));
            && ParentsMade(t, 2, map[ns := owner], ns, ["a"], t) && !Taken(t, ns, ["a", "f"])
            && t'[0].size == size && t'[1].size == 0 && !HasFolder(t', ns, ["a"])
  {
    var t := OneFolder(ns, owner, "A");
    var p: Path := ["a", "f"];
    assert Lower("A") == "a" && Lower("a") == "a";
    assert At(t[1], ns, ["a"]);
    SameLengths(t[0].path, p);
    SameLengths(t[1].path, p);
    assert [] < p && !(["A"] < p);
  }

  // ----- Moves

  // Two homes, each with a folder of the same name.
  function TwoHomes(m: string, n: string, o: string, q: string): Table {
    map[0 := FolderRow(m, o, []), 1 := FolderRow(n, q, []), 2 := FolderRow(m, o, ["a"]), 3 := FolderRow(n, q, ["a"])]
  }

  /** Moving "a" to another namespace as "A" skips the check that the destination is free, because the two paths are
      equal ignoring case: "a" and "A" end up next to each other. */
  lemma CrossNamespaceCollision(m: string, n: string, o: string, q: string)
    requires m != n
    ensures var t := TwoHomes(m, n, o, q);
            var a: Path := ["a"];
            var b: Path := ["A"];
            && MoveError(t, m, a, n, b).None? && Taken(t, n, b)
            && !Unique(Relocated(t, m, a, n, q, b, 0))
  {
    hide Lower;
    var t := TwoHomes(m, n, o, q);
    var a: Path := ["a"];
    var b: Path := ["A"];
    assert Same(a, b) && Same(a, a) by { assert Lower("A") == "a" && Lower("a") == "a"; }
    assert Parent(b) == [] && Same([], []);
    SameLengths([], a);
    assert At(t[2], m, a) && At(t[3], n, b) && At(t[1], n, []);
    forall j | j in t && At(t[j], n, []) ensures t[j].IsFolder() { }
    var t' := Relocated(t, m, a, n, q, b, 0);
    assert b + a[|a|..] == b;
    assert t'[2].path == b && t'[3].path == a;
    assert Clash(t', 2, 3);
  }

  // A home with a folder "a" and a file "x" in it.
  function FolderWithFile(ns: string, owner: string): Table {
    map[0 := FolderRow(ns, owner, []), 1 := FolderRow(ns, owner, ["a"]), 2 := FileRow(ns, owner, ["a", "x"], 0, 1)]
  }

  /** The folder "a", addressed as "A" and moved to "a", is accepted, and its destination is its own stored path; under
      the contract of IStorage, keys without directories, the worker then deletes its files from storage and leaves
      them in the table. */
  lemma MovedOntoItsOwnPath(ns: string, owner: string, content: Bytes)
    requires IsOwner(owner)
    ensures var t := FolderWithFile(ns, owner);
            && MoveError(t, ns, ["A"], ns, ["a"]).None? && Restored(t, ns, ["a"], ["a"])
            && var key := StorageKey(owner, ["a", "x"]);
            var p := KeyPrefix(owner, ["a"]);
            var st := Apply(MovePrefix(p, p), Store(map[0 := key], map[key := content]));
            key in st.blobs.Values && st.storage == map[]
  {
    hide Lower;
    var t := FolderWithFile(ns, owner);
    var a: Path := ["a"];
    var b: Path := ["A"];
    assert Same(a, b) && Same(b, a) && Same(a, a) by { assert Lower("A") == "a" && Lower("a") == "a"; }
    assert Parent(a) == [] && Same([], []);
    SameLengths([], a);
    SameLengths([], ["a", "x"]);
    assert At(t[1], ns, b) && At(t[0], ns, []);
    assert HasFolder(t, ns, []) by { assert t[0].IsFolder(); }
    EmptiedInStorage(owner, content);
  }

  lemma EmptiedInStorage(owner: string, content: Bytes)
    requires IsOwner(owner)
    ensures var key := StorageKey(owner, ["a", "x"]);
            var p := KeyPrefix(owner, ["a"]);
            var st := Apply(MovePrefix(p, p), Store(map[0 := key], map[key := content]));
            key in st.blobs.Values && st.storage == map[]
  {
    hide StorageKey, KeyPrefix, IsOwner, ReplaceAll;
    var key, p := StorageKey(owner, ["a", "x"]), KeyPrefix(owner, ["a"]);
    var q: Path := ["a", "x"];
    assert q[..1] == ["a"];
    UnderPrefix(owner, ["a"], owner, q);
    if p != "" { ReplaceAllBySame(key, p); }
    var st := Apply(MovePrefix(p, p), Store(map[0 := key], map[key := content]));
    assert st.blobs[0] == key;
  }

  /** A folder that contains a folder named like its owner's id, with its own path repeated below, is renamed twice by
      the table's REPLACE. */
  lemma PrefixRepeated(owner: string)
    requires IsOwner(owner)
    ensures var below: Path := [owner, "files", "a", "x"];
            var at: Path := ["a"];
            var to: Path := ["b"];
            Rekey(KeyPrefix(owner, at), KeyPrefix(owner, to), StorageKey(owner, at + below)) != StorageKey(owner,
              to + below)
  {
    hide ReplaceAll, Contains;
    var below: Path := [owner, "files", "a", "x"];
    var at: Path := ["a"];
    var to: Path := ["b"];
    var p := KeyPrefix(owner, at);
    var rest: Path := ["x"];
    KeyBelow(owner, at, below);
    SwapKey(owner, at, owner, to, below);
    assert StorageKey(owner, at + below)[|p|..] == Join(below);
    OwnPathBelow(owner, below);
    PrefixesApart(owner, at, owner, to);
    RekeyFollows(p, KeyPrefix(owner, to), StorageKey(owner, at + below));
  }

  lemma OwnPathBelow(owner: string, below: Path)
    requires IsOwner(owner) && below == [owner, "files", "a", "x"]
    ensures Contains(Join(below), KeyPrefix(owner, ["a"]))
  {
    var tail: Path := ["files", "a", "x"];
    assert below[1..] == tail && tail[1..] == ["a", "x"];
    assert Join(below) == owner + "/" + ("files" + "/" + ("a" + "/" + "x"));
    assert KeyPrefix(owner, ["a"]) <= Join(below)[0..];
  }

  // ----- Albums

  /** Soft-deleting an item leaves it the cover of another owner's album. */
  lemma ForeignCover(at: int)
    ensures var s := Albums.Photos(map[0 := Albums.Album("p", "trip", {7}, Some(7), 1)],
                                   map[7 := Albums.MediaItem("q", 0, None, 0)]);
            Albums.CoversOk(s) && !Albums.CoversOk(Albums.After(s, Albums.SoftDelete("q", [7], at)))
  {
    var s := Albums.Photos(map[0 := Albums.Album("p", "trip", {7}, Some(7), 1)],
                           map[7 := Albums.MediaItem("q", 0, None, 0)]);
    var t := Albums.Marked(s, "q", [7], Some(at));
    assert Albums.CoveredBy(t, "q", [7]) == {};
    var u := Albums.After(s, Albums.SoftDelete("q", [7], at));
    assert u == Albums.Reassigned(t, {});
    assert u.albums[0] == s.albums[0] && !Albums.CoverOk(u, u.albums[0]);
  }

  /** Adding one item twice in a call counts it twice. */
  lemma CountedTwice()
    ensures var s := Albums.Photos(map[0 := Albums.Album("p", "trip", {}, None, 0)],
            map[7 := Albums.MediaItem("p", 0, None, 0)]);
            var a := Albums.Added(s, 0, [7, 7]).albums[0];
            a.count == 2 && a.items == {7}
  {
  }

  // ----- Uploads

  // An upload whose chosen path has a blob already overwrites its bytes before it is refused.
  lemma Overwrites(t: Table, id: nat, owners: Owners, ns: string, path: Path, count: nat, content: Bytes,
                   store: Store, nextBlob: nat, r: Result<Stored>, t': Table, store': Store)
    requires ns in owners && Taken(t, ns, Parent(path))
    requires CreateOutcome(t, id, owners, ns, path, count, content, store, nextBlob, r, t', store')
    requires StorageKey(owners[ns], Available(t, ns, path, count)) in store.blobs.Values
    ensures var key := StorageKey(owners[ns], Available(t, ns, path, count));
            r == Err(IntegrityError) && t' == t && store' == Store(store.blobs, store.storage[key := content])
  {
    hide Available, StorageKey, Counted, Unblocked;
  }

  lemma TooShort(s: string, stem: string, suffix: string)
    requires |s| < |stem| + |suffix| + 4
    ensures !MatchesNumbered(s, stem, suffix)
  {
  }

  // The home after k uploads of "f".
  function Copies(ns: string, owner: string, size: nat, k: nat): Table
    requires k <= 3
  {
    var root := map[0 := FolderRow(ns, owner, []).(size := k * size)];
    var t1 := if k < 1 then root else root[1 := FileRow(ns, owner, ["f"], 0, size)];
    var t2 := if k < 2 then t1 else t1[2 := FileRow(ns, owner, ["f (1)"], 1, size)];
    if k < 3 then t2 else t2[3 := FileRow(ns, owner, ["f (2)"], 2, size)]
  }

  // The names that count for "f" are the numbered ones.
  lemma CopiesCounted(t: Table, ns: string, owner: string)
    requires forall i :: i in t ==> t[i].ns == ns && t[i].path in [[], ["f"], ["f (1)"], ["f (2)"]]
    ensures forall i :: i in t ==> (i in Numbered(t, ns, ["f"]) <==> t[i].path in [["f (1)"], ["f (2)"]])
    ensures PlainName(["f"])
  {
    hide MatchesNumbered, Stem, Suffix, Str;
    var f: Path := ["f"];
    NumberedF();
    NumberedMatches(f, 1);
    NumberedMatches(f, 2);
    ShortStrings();
    TooShort(Str([]), "f", "");
    TooShort(Str(f), "f", "");
    NamesDiffer();
  }

  lemma ShortStrings()
    ensures |Str([])| == 1 && |Str(["f"])| == 1
  {
  }

  lemma NamesDiffer()
    ensures var one: Path := ["f (1)"];
            var two: Path := ["f (2)"];
            var f: Path := ["f"];
            one != two && one != f && two != f && one != [] && two != []
  {
    var one: Path := ["f (1)"];
    var two: Path := ["f (2)"];
    var f: Path := ["f"];
    assert one[0][3] != two[0][3] && |f[0]| == 1 && |one[0]| == 5 && |two[0]| == 5;
  }

  /** Three uploads of "f" leave "f", "f (1)" and "f (2)". */
  lemma ThreeUploads(ns: string, owner: string, size: nat)
    ensures forall k :: 0 <= k < 3 ==>
              var t := Copies(ns, owner, size, k);
              var next := Available(t, ns, ["f"], |Numbered(t, ns, ["f"])|);
              AddSteps(t, k + 1, FileRow(ns, owner, next, k, size)) == Copies(ns, owner, size, k + 1)
  {
    FirstCopy(ns, owner, size);
    NextCopy(ns, owner, size, 1, {}, ["f (1)"]);
    NextCopy(ns, owner, size, 2, {2}, ["f (2)"]);
  }

  lemma FirstCopy(ns: string, owner: string, size: nat)
    ensures var t := Copies(ns, owner, size, 0);
            && !Taken(t, ns, ["f"])
            && AddSteps(t, 1, FileRow(ns, owner, ["f"], 0, size)) == Copies(ns, owner, size, 1)
  {
    SameLengths([], ["f"]);
    InTheHome(ns, owner, size, 0, ["f"]);
  }

  lemma InTheHome(ns: string, owner: string, size: nat, k: nat, p: Path)
    requires k < 3 && |p| == 1
    ensures forall q :: q in Parents(p) <==> q == []
    ensures forall i :: i in Copies(ns, owner, size, k) && i != 0 ==> |Copies(ns, owner, size, k)[i].path| == 1
  {
    forall q ensures q in Parents(p) <==> q == [] {
      if q < p { assert |q| == 0; }
      if q == [] { assert q < p; }
    }
  }

  lemma NextCopy(ns: string, owner: string, size: nat, k: nat, numbered: set<nat>, next: Path)
    requires (k == 1 && numbered == {} && next == ["f (1)"]) || (k == 2 && numbered == {2} && next == ["f (2)"])
    ensures var t := Copies(ns, owner, size, k);
            && Taken(t, ns, ["f"]) && Numbered(t, ns, ["f"]) == numbered
            && Available(t, ns, ["f"], |Numbered(t, ns, ["f"])|) == next
            && AddSteps(t, k + 1, FileRow(ns, owner, next, k, size)) == Copies(ns, owner, size, k + 1)
  {
    hide MatchesNumbered, Numbered, Stem, Suffix, NumberedPath, Same, Str, AddSteps, PlainName;
    var t := Copies(ns, owner, size, k);
    CopiesCounted(t, ns, owner);
    NamesDiffer();
    NumberedF();
    SameReflexive(["f"]);
    assert At(t[1], ns, ["f"]);
    InNumbered(t, ns, ["f"], numbered);
    CopyAdded(ns, owner, size, k, next);
  }

  lemma CopyAdded(ns: string, owner: string, size: nat, k: nat, next: Path)
    requires (k == 1 && next == ["f (1)"]) || (k == 2 && next == ["f (2)"])
    ensures AddSteps(Copies(ns, owner, size, k), k + 1, FileRow(ns, owner, next, k, size))
            == Copies(ns, owner, size, k + 1)
  {
    InTheHome(ns, owner, size, k, next);
  }

  lemma InNumbered(t: Table, ns: string, p: Path, ids: set<nat>)
    requires ids <= t.Keys && forall i :: i in t ==> (i in Numbered(t, ns, p) <==> i in ids)
    ensures Numbered(t, ns, p) == ids
  {
    hide MatchesNumbered;
  }

  lemma NumberedF()
    ensures Stem(["f"]) == "f" && Suffix(["f"]) == ""
    ensures NumberedPath(["f"], 1) == ["f (1)"] && NumberedPath(["f"], 2) == ["f (2)"]
  {
    var p: Path := ["f"];
    assert SplitExt("f") == ("f", "");
    assert Decimal(1) == "1" && Decimal(2) == "2";
    assert NumberedName(p, 1) == "f (1)" && NumberedName(p, 2) == "f (2)";
    assert Parent(p) == [];
  }

  /** After "f (1)" is deleted the next upload of "f" counts one numbered name and picks "f (2)", which is stored: its
      bytes are overwritten and the upload fails. */
  lemma DeletedNumber(ns: string, owner: string, size: nat, count: nat, content: Bytes, store: Store, nextBlob: nat,
                      r: Result<Stored>, t': Table, store': Store)
    requires StorageKey(owner, ["f (2)"]) in store.blobs.Values
    requires var t := Removed(Copies(ns, owner, size, 3), ns, ["f (1)"], true, size);
             CreateOutcome(t, 4, map[ns := owner], ns, ["f"], count, content, store, nextBlob, r, t', store')
    ensures r == Err(IntegrityError)
    ensures store' == Store(store.blobs, store.storage[StorageKey(owner, ["f (2)"]) := content])
  {
    hide StorageKey, CreateOutcome, Numbered, Removed;
    var t := Removed(Copies(ns, owner, size, 3), ns, ["f (1)"], true, size);
    TwoLeft(ns, owner, size);
    OutcomeCounts(t, 4, map[ns := owner], ns, ["f"], count, content, store, nextBlob, r, t', store');
    NumberedF();
    Overwrites(t, 4, map[ns := owner], ns, ["f"], count, content, store, nextBlob, r, t', store');
  }

  lemma TwoLeft(ns: string, owner: string, size: nat)
    ensures var t := Removed(Copies(ns, owner, size, 3), ns, ["f (1)"], true, size);
            && Taken(t, ns, []) && Taken(t, ns, ["f"]) && PlainName(["f"]) && Numbered(t, ns, ["f"]) == {3}
            && Parent(["f"]) == []
  {
    hide MatchesNumbered, Numbered, Stem, Suffix, Str, Same;
    var t := Removed(Copies(ns, owner, size, 3), ns, ["f (1)"], true, size);
    SecondRemoved(ns, owner, size);
    SameReflexive([]);
    SameReflexive(["f"]);
    assert At(t[0], ns, []) && At(t[1], ns, ["f"]);
    CopiesCounted(t, ns, owner);
    NamesDiffer();
    InNumbered(t, ns, ["f"], {3});
  }

  lemma SecondRemoved(ns: string, owner: string, size: nat)
    ensures var t := Removed(Copies(ns, owner, size, 3), ns, ["f (1)"], true, size);
            && t.Keys == {0, 1, 3} && t[0].path == [] && t[1].path == ["f"] && t[3].path == ["f (2)"]
            && forall i :: i in t ==> t[i].ns == ns
    ensures Parent(["f"]) == []
  {
    NamesDiffer();
    var one: Path := ["f (1)"];
    var two: Path := ["f (2)"];
    var f: Path := ["f"];
    assert |one| == |two| == |f| == 1;
    assert !(one <= two) && !(one <= f);
  }

  lemma OutcomeCounts(t: Table, id: nat, owners: Owners, ns: string, path: Path, count: nat, content: Bytes,
                      store: Store, nextBlob: nat, r: Result<Stored>, t': Table, store': Store)
    requires ns in owners && Taken(t, ns, Parent(path))
    requires CreateOutcome(t, id, owners, ns, path, count, content, store, nextBlob, r, t', store')
    ensures Counted(t, ns, path, count)
  {
    hide Available, CreateFrom, Counted, Unblocked;
  }

  // "a+b.txt" and its first copy.
  function PlusCopies(ns: string, owner: string, size: nat): Table {
    map[0 := FolderRow(ns, owner, []).(size := 2 * size), 1 := FileRow(ns, owner, ["a+b.txt"], 0, size),
        2 := FileRow(ns, owner, ["a+b (1).txt"], 1, size)]
  }

  // What every match of "a+b \\(" contains: an "a" right before a "b".
  const PLUS_MATCH := "ab ("

  /** The name "a+b.txt" puts a "+" into the pattern, so no numbered copy is counted: the upload after the first copy
      picks that copy's path again, overwrites its bytes and fails. */
  lemma PatternInName(ns: string, owner: string, size: nat, counted: set<nat>, content: Bytes, store: Store,
                      nextBlob: nat,
                      r: Result<Stored>, t': Table, store': Store)
    requires var t := PlusCopies(ns, owner, size);
             && (forall i :: i in counted ==> i in t && Contains(Lower(Str(t[i].path)), PLUS_MATCH))
             && CreateOutcome(t, 3, map[ns := owner], ns, ["a+b.txt"], |counted|, content, store, nextBlob, r, t',
                              store')
    requires StorageKey(owner, ["a+b (1).txt"]) in store.blobs.Values
    ensures !PlainName(["a+b.txt"])
    ensures r == Err(IntegrityError)
    ensures store' == Store(store.blobs, store.storage[StorageKey(owner, ["a+b (1).txt"]) := content])
  {
    hide StorageKey, CreateOutcome, Contains, Stem, Suffix, Decimal, NumberedPath, Lower, Str;
    var t := PlusCopies(ns, owner, size);
    NoMatches();
    assert counted == {};
    NumberedPlus();
    PlusTaken(ns, owner, size);
    Overwrites(t, 3, map[ns := owner], ns, ["a+b.txt"], |counted|, content, store, nextBlob, r, t', store');
  }

  lemma PlusTaken(ns: string, owner: string, size: nat)
    ensures var t := PlusCopies(ns, owner, size); Taken(t, ns, Parent(["a+b.txt"])) && Taken(t, ns, ["a+b.txt"])
    ensures !PlainName(["a+b.txt"])
  {
    var t := PlusCopies(ns, owner, size);
    var p: Path := ["a+b.txt"];
    SameReflexive([]);
    SameReflexive(p);
    assert At(t[0], ns, []) && At(t[1], ns, p) && Parent(p) == [];
    assert '+' in NameOf(p) by { assert NameOf(p)[1] == '+'; }
  }

  lemma NoMatches()
    ensures !Contains(Lower(Str([])), PLUS_MATCH)
    ensures !Contains(Lower(Str(["a+b.txt"])), PLUS_MATCH) && !Contains(Lower(Str(["a+b (1).txt"])), PLUS_MATCH)
  {
    NoSuchPair(".");
    NoSuchPair("a+b.txt");
    NoSuchPair("a+b (1).txt");
    assert Lower(".") == "." && Lower("a+b.txt") == "a+b.txt" && Lower("a+b (1).txt") == "a+b (1).txt";
  }

  lemma NoSuchPair(s: string)
    requires forall i :: 0 <= i < |s| - 1 && s[i] == 'a' ==> s[i + 1] != 'b'
    ensures !Contains(s, PLUS_MATCH)
  {
    if i :| 0 <= i <= |s| && PLUS_MATCH <= s[i..] { PairAt(s, i); }
  }

  lemma PairAt(s: string, i: int)
    requires 0 <= i <= |s| && PLUS_MATCH <= s[i..]
    ensures i + 1 < |s| && s[i] == 'a' && s[i + 1] == 'b'
  {
    assert s[i..][0] == 'a' && s[i..][1] == 'b';
  }

  lemma NumberedPlus()
    ensures NumberedPath(["a+b.txt"], 1) == ["a+b (1).txt"]
  {
    var p: Path := ["a+b.txt"];
    var name := "a+b.txt";
    assert LastDot("a+b.") == 3;
    assert LastDot("a+b.t") == 3 by { assert "a+b.t"[..4] == "a+b."; }
    assert LastDot("a+b.tx") == 3 by { assert "a+b.tx"[..5] == "a+b.t"; }
    assert LastDot(name) == 3 by { assert name[..6] == "a+b.tx"; }
    assert name[0] != '.' && name[..3] == "a+b" && name[3..] == ".txt";
    assert SplitExt(name) == ("a+b", ".txt");
    assert Decimal(1) == "1";
    assert NumberedName(p, 1) == "a+b (1).txt";
    assert Parent(p) == [];
  }

  // Two namespaces of one owner, with a file "a" in the first.
  function SharedOwner(m: string, n: string, o: string, size: nat): Table {
    map[0 := FolderRow(m, o, []).(size := size), 1 := FolderRow(n, o, []), 2 := FileRow(m, o, ["a"], 0, size)]
  }

  /** An owner's second namespace shares the first one's keys: uploading "a" there overwrites the file "a" of the first
      namespace, and fails although the path is free. */
  lemma SharedKeys(m: string, n: string, o: string, size: nat, count: nat, content: Bytes, store: Store, nextBlob: nat,
                   r: Result<Stored>, t': Table, store': Store)
    requires m != n && StorageKey(o, ["a"]) in store.blobs.Values
    requires CreateOutcome(SharedOwner(m, n, o, size), 3, map[m := o, n := o], n, ["a"], count, content, store,
             nextBlob, r, t', store')
    ensures !Taken(SharedOwner(m, n, o, size), n, ["a"])
    ensures r == Err(IntegrityError)
    ensures store' == Store(store.blobs, store.storage[StorageKey(o, ["a"]) := content])
  {
    hide StorageKey, CreateOutcome;
    var t := SharedOwner(m, n, o, size);
    var p: Path := ["a"];
    SameLengths([], p);
    SameReflexive([]);
    assert At(t[1], n, []) && Parent(p) == [];
    Overwrites(t, 3, map[m := o, n := o], n, p, count, content, store, nextBlob, r, t', store');
  }

  // ----- Loops

  /** At 10,000 x 5 MiB the chunks are still 5 MiB, so there is one part too many. */
  lemma OnePartTooMany()
    ensures var size := S3.MAX_PARTS * S3.FIVE_MB; size / S3.ChunkSize(size) + 1 == S3.MAX_PARTS + 1
  {
  }

  /** Purging three items in batches of one leaves the second. */
  lemma PurgeLeavesOne()
    ensures Paging.Survivors([7, 8, 9], 1) == [8]
  {
    var s: seq<nat> := [7, 8, 9];
    assert s[1..2] == [8] && s[2..] == [9];
    assert Paging.Survivors([9], 1) == [];
  }
}
