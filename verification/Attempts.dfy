/** Uploads whatever becomes of them: when table and storage are still those of the tree afterwards. */
module Attempts {
  import opened Paths
  import opened Rows
  import opened FileTable
  import opened Folders
  import opened Names
  import opened Uploads
  import opened BlobStore
  import opened Keys
  import opened FileCore
  import opened Runs
  import opened Lag

  // The state after a call of create_file that gets past its parent, whether it succeeds or not.
  ghost predicate Attempted(w: World, ns: string, path: Path, content: Bytes, count: nat, r: Result<Stored>,
                            w': World) {
    && ns in w.owners && RowsBefore(w'.rows, w'.nextRow)
    && CreateOutcome(w.rows, w.nextRow, w.owners, ns, path, count, content, w.store, w.nextBlob, r, w'.rows, w'.store)
    && var made := r != Err(IntegrityError);
    && w' == w.(rows := w'.rows, nextRow := w'.nextRow, store := w'.store,
                nextBlob := if made then w.nextBlob + 1 else w.nextBlob,
                contents := if made then w.contents[w.nextBlob := content] else w.contents)
  }

  // The path is a stored file with exactly these bytes.
  ghost predicate SameBytes(w: World, ns: string, p: Path, content: Bytes) {
    exists i :: IsFile(w.rows, i) && w.rows[i].ns == ns && w.rows[i].path == p
                && w.rows[i].blob.value in w.contents && w.contents[w.rows[i].blob.value] == content
  }

  /** An upload that succeeds is a step of the runs. */
  lemma AttemptIsStep(w: World, ns: string, path: Path, content: Bytes, count: nat, r: Result<Stored>, w': World)
    requires Attempted(w, ns, path, content, count, r, w') && r.Ok?
    ensures Step(w, Upload(ns, path, content, count), w')
  {
    hide CreatedFile, CreateOutcome, StorageKey;
    OutcomeCreated(w.rows, w.nextRow, w.owners, ns, path, count, content, w.store, w.nextBlob, r, w'.rows, w'.store);
    assert Uploaded(w, ns, path, content, count, r.value, w');
  }

  /** An upload with no job pending keeps the refinement exactly when the path or the number after the count is free
      and the parent is spelled as stored, or when the number is a stored file with the very bytes uploaded. When it is
      free the upload succeeds. */
  lemma UploadKeepsLaggedIff(w: World, hist: seq<Table>, k: nat, ns: string, path: Path, content: Bytes, count: nat,
                             r: Result<Stored>, w': World)
    requires Lagged(w, hist, k) && w.jobs == [] && Attempted(w, ns, path, content, count, r, w')
    requires Clean(w.owners[ns], path)
    ensures FreeNumber(w.rows, ns, path, count) ==> r.Ok?
    ensures Lagged(w', hist[|hist| - 1 := w'.rows], k)
            <==> if FreeNumber(w.rows, ns, path, count) then SpelledAsStored(w.rows, ns, Parent(path))
                 else SameBytes(w, ns, NumberedPath(path, count + 1), content)
  {
    hide Lagged, GoodWorld, CreateFrom, Attempted, FreeNumber, SpelledAsStored, SameBytes, Counted, Available;
    hide ParentsMade;
    var t1 := ChosenFrom(w, ns, path, content, count, r, w');
    var next := Available(t1, ns, path, count);
    ChosenIsFree(w, hist, k, ns, path, count, t1);
    if FreeNumber(w.rows, ns, path, count) {
      FreeIsMade(w, hist, k, ns, next, content, r, w', t1);
    }
    if r.Ok? {
      SuccessfulAttempt(w, hist, k, ns, path, content, count, r, w');
      if !FreeNumber(w.rows, ns, path, count) { NoBytesThere(w, hist, k, ns, next, content, r, w'); }
    } else {
      FailedAttempt(w, hist, k, ns, next, content, r, w');
    }
  }

  lemma ChosenFrom(w: World, ns: string, path: Path, content: Bytes, count: nat, r: Result<Stored>, w': World)
    returns (t1: Table)
    requires Attempted(w, ns, path, content, count, r, w')
    ensures ns in w.owners && ParentsMade(w.rows, w.nextRow, w.owners, ns, Parent(path), t1)
    ensures CreateFrom(t1, w.owners[ns], ns, Available(t1, ns, path, count), content, w.store, w.nextBlob, r, w'.rows,
            w'.store)
    ensures w'.owners == w.owners && w'.jobs == w.jobs && RowsBefore(w'.rows, w'.nextRow)
    ensures r == Err(IntegrityError) ==> w'.nextBlob == w.nextBlob && w'.contents == w.contents
  {
    hide CreateFrom, ParentsMade, Counted, Available;
    t1 :| ParentsMade(w.rows, w.nextRow, w.owners, ns, Parent(path), t1) && Counted(t1, ns, path, count)
          && CreateFrom(t1, w.owners[ns], ns, Available(t1, ns, path, count), content, w.store, w.nextBlob, r,
                        w'.rows, w'.store);
  }

  // The chosen path, seen from the tree before the upload.
  lemma ChosenIsFree(w: World, hist: seq<Table>, k: nat, ns: string, path: Path, count: nat, t1: Table)
    requires Lagged(w, hist, k) && ns in w.owners && ParentsMade(w.rows, w.nextRow, w.owners, ns, Parent(path), t1)
    ensures var next := Available(t1, ns, path, count);
            && (!Taken(t1, ns, next) <==> FreeNumber(w.rows, ns, path, count))
            && (!FreeNumber(w.rows, ns, path, count) ==> t1 == w.rows && next == NumberedPath(path, count + 1))
    ensures forall i :: i in w.rows ==> i in t1 && t1[i] == w.rows[i]
  {
    hide Tree, BlobsOk, Chain, Tracks, SameFiles, ParentsMade;
    NextIsFree(w.rows, w.nextRow, w.owners, ns, path, t1, count);
    ParentRows(w.rows, w.nextRow, w.owners, ns, Parent(path), t1);
  }

  // The file a key in the table belongs to, when no job is pending.
  lemma KeyAtPath(w: World, hist: seq<Table>, k: nat, ns: string, p: Path) returns (i: nat)
    requires Lagged(w, hist, k) && w.jobs == [] && ns in w.owners && StorageKey(w.owners[ns], p) in w.store.blobs.Values
    ensures IsFile(w.rows, i) && w.rows[i].ns == ns && w.rows[i].path == p
  {
    hide Tree, OwnersOk, StorageKey, Agree, FilesOk, SameFiles;
    DrainedTracks(w, hist, k);
    var b :| b in w.store.blobs && w.store.blobs[b] == StorageKey(w.owners[ns], p);
    i :| IsFile(w.rows, i) && w.rows[i].blob.value == b;
    OwnerIs(w.rows, w.owners, i);
    OwnersAre(w.owners, ns);
    KeyInjective(w.rows[i].owner, w.rows[i].path, w.owners[ns], p);
    SameOwner(w.rows, w.owners, i, ns);
  }

  lemma FreeIsMade(w: World, hist: seq<Table>, k: nat, ns: string, next: Path, content: Bytes, r: Result<Stored>,
                   w': World,
                   t1: Table)
    requires Lagged(w, hist, k) && w.jobs == [] && ns in w.owners && !Taken(t1, ns, next)
    requires forall i :: i in w.rows ==> i in t1 && t1[i] == w.rows[i]
    requires CreateFrom(t1, w.owners[ns], ns, next, content, w.store, w.nextBlob, r, w'.rows, w'.store)
    ensures r.Ok?
  {
    hide Lagged, StorageKey;
    FreeIsNotStored(t1, ns, next);
    if StorageKey(w.owners[ns], next) in w.store.blobs.Values {
      var i := KeyAtPath(w, hist, k, ns, next);
      StoredThere(t1, ns, next, i);
    }
  }

  lemma StoredThere(t: Table, ns: string, p: Path, i: nat)
    requires i in t && t[i].ns == ns && t[i].path == p
    ensures StoredExactly(t, ns, p)
  {
  }

  lemma SuccessfulAttempt(w: World, hist: seq<Table>, k: nat, ns: string, path: Path, content: Bytes, count: nat,
                          r: Result<Stored>, w': World)
    requires Lagged(w, hist, k) && w.jobs == [] && Attempted(w, ns, path, content, count, r, w') && r.Ok?
    requires Clean(w.owners[ns], path)
    ensures Lagged(w', hist[|hist| - 1 := w'.rows], k)
            <==> SpelledAsStored(w.rows, ns, Parent(path)) && FreeNumber(w.rows, ns, path, count)
  {
    hide GoodWorld, BlobsOk, Tracks, SameFiles, Chain, SpelledAsStored, FreeNumber, CreateOutcome, Step, Clean;
    var ev := Upload(ns, path, content, count);
    AttemptIsStep(w, ns, path, content, count, r, w');
    StepKeepsTreeIff(w, ev, w');
    LaggedLength(w, hist, k);
    if TreeAllowed(w, ev) { UploadStep(w, hist, k, ns, path, content, count, w'); }
  }

  lemma LaggedLength(w: World, hist: seq<Table>, k: nat)
    requires Lagged(w, hist, k)
    ensures |hist| == k + 1 + |w.jobs|
  {
  }

  // A file made next to a stored twin in other casing is not one with the same bytes.
  lemma NoBytesThere(w: World, hist: seq<Table>, k: nat, ns: string, next: Path, content: Bytes, r: Result<Stored>,
                     w': World)
    requires Lagged(w, hist, k) && ns in w.owners && r.Ok?
    requires CreateFrom(w.rows, w.owners[ns], ns, next, content, w.store, w.nextBlob, r, w'.rows, w'.store)
    ensures !SameBytes(w, ns, next, content)
  {
    hide Lagged, StorageKey, AddSteps;
    if i :| IsFile(w.rows, i) && w.rows[i].ns == ns && w.rows[i].path == next {
      StoredThere(w.rows, ns, next, i);
    }
  }

  // A failed upload onto a stored path: a file's bytes have been overwritten, or a blob without a file is left behind.
  lemma FailedAttempt(w: World, hist: seq<Table>, k: nat, ns: string, next: Path, content: Bytes, r: Result<Stored>,
                      w': World)
    requires Lagged(w, hist, k) && w.jobs == [] && ns in w.owners && r.Err?
    requires CreateFrom(w.rows, w.owners[ns], ns, next, content, w.store, w.nextBlob, r, w'.rows, w'.store)
    requires w'.owners == w.owners && w'.jobs == [] && RowsBefore(w'.rows, w'.nextRow)
    requires r == Err(IntegrityError) ==> w'.nextBlob == w.nextBlob && w'.contents == w.contents
    ensures Lagged(w', hist[|hist| - 1 := w'.rows], k) <==> SameBytes(w, ns, next, content)
  {
    hide GoodWorld, BlobsOk, Tracks, SameFiles, StorageKey, SameBytes;
    LaggedLength(w, hist, k);
    DrainedTracks(w, hist, k);
    SameFilesReflexive(w.rows);
    var key := StorageKey(w.owners[ns], next);
    if key in w.store.blobs.Values {
      var i := KeyAtPath(w, hist, k, ns, next);
      Overwritten(w, ns, next, i, content, w'.store);
      SameWorld(w, w');
    } else {
      BlobWithoutFile(w, ns, next, content, w'.store);
    }
  }

  lemma Overwritten(w: World, ns: string, next: Path, i: nat, content: Bytes, store': Store)
    requires GoodWorld(w) && Tracks(w.store, w.rows, w.contents) && ns in w.owners
    requires IsFile(w.rows, i) && w.rows[i].ns == ns && w.rows[i].path == next
    requires store' == Store(w.store.blobs, w.store.storage[StorageKey(w.owners[ns], next) := content])
    ensures Tracks(store', w.rows, w.contents) <==> SameBytes(w, ns, next, content)
  {
    hide Closed, Rooted, StorageKey;
    var b := w.rows[i].blob.value;
    TrackedFile(w.store, w.rows, w.contents, i);
    forall j | IsFile(w.rows, j) && w.rows[j].ns == ns && w.rows[j].path == next ensures j == i {
      assert Clash(w.rows, i, j);
    }
    if w.contents[b] == content {
      assert store'.storage == w.store.storage;
    } else {
      assert store'.storage[store'.blobs[b]] != w.contents[b];
    }
  }

  lemma BlobWithoutFile(w: World, ns: string, next: Path, content: Bytes, store': Store)
    requires GoodWorld(w) && BlobsOk(w) && Tracks(w.store, w.rows, w.contents) && ns in w.owners
    requires StorageKey(w.owners[ns], next) !in w.store.blobs.Values && w.nextBlob in store'.blobs
    ensures forall contents :: !Tracks(store', w.rows, contents)
    ensures !SameBytes(w, ns, next, content)
  {
    hide Unique, Closed, Rooted, StorageKey, Agree, OwnersOk, FilesOk;
    FileIsRecorded(w, ns, next);
  }

  lemma FileIsRecorded(w: World, ns: string, p: Path)
    requires GoodWorld(w) && Tracks(w.store, w.rows, w.contents) && ns in w.owners
    ensures (exists i :: IsFile(w.rows, i) && w.rows[i].ns == ns && w.rows[i].path == p) ==>
              StorageKey(w.owners[ns], p) in w.store.blobs.Values
  {
    hide Unique, Closed, Rooted, StorageKey, Agree;
    if i :| IsFile(w.rows, i) && w.rows[i].ns == ns && w.rows[i].path == p {
      TrackedFile(w.store, w.rows, w.contents, i);
      assert w.store.blobs[w.rows[i].blob.value] in w.store.blobs.Values;
    }
  }

  lemma SameWorld(w: World, w': World)
    requires GoodWorld(w) && BlobsOk(w) && w'.rows == w.rows && w'.owners == w.owners && RowsBefore(w'.rows, w'.nextRow)
    requires w'.nextBlob == w.nextBlob && w'.store.blobs == w.store.blobs
    ensures GoodWorld(w') && BlobsOk(w')
  {
  }

  // ----- Several namespaces of one owner

  // No two files of one owner have the same path.
  ghost predicate PlacesApart(t: Table) {
    forall i, j :: IsFile(t, i) && IsFile(t, j) && t[i].owner == t[j].owner && t[i].path == t[j].path ==> i == j
  }

  /** A tree's files can have path-derived keys in a table with distinct keys exactly when no two files of one owner
      have the same path, as may happen in two namespaces. */
  lemma MirroredIff(t: Table)
    requires forall i, j :: IsFile(t, i) && IsFile(t, j) && t[i].blob == t[j].blob ==> i == j
    requires forall i :: IsFile(t, i) ==> IsOwner(t[i].owner)
    ensures (exists blobs :: Mirrors(t, blobs) && DistinctKeys(blobs)) <==> PlacesApart(t)
  {
    hide KeyOf, IsOwner, Mirrors, DistinctKeys, PlacesApart;
    if PlacesApart(t) { var table := MirrorOf(t); }
    if blobs :| Mirrors(t, blobs) && DistinctKeys(blobs) { ApartIfMirrored(t, blobs); }
  }

  lemma ApartIfMirrored(t: Table, blobs: map<nat, string>)
    requires Mirrors(t, blobs) && DistinctKeys(blobs)
    requires forall i, j :: IsFile(t, i) && IsFile(t, j) && t[i].blob == t[j].blob ==> i == j
    ensures PlacesApart(t)
  {
    hide StorageKey;
    forall i, j | IsFile(t, i) && IsFile(t, j) && t[i].owner == t[j].owner && t[i].path == t[j].path ensures i == j {
      assert blobs[t[i].blob.value] == blobs[t[j].blob.value];
    }
  }

  lemma MirrorOf(t: Table) returns (table: map<nat, string>)
    requires forall i, j :: IsFile(t, i) && IsFile(t, j) && t[i].blob == t[j].blob ==> i == j
    requires PlacesApart(t) && forall i :: IsFile(t, i) ==> IsOwner(t[i].owner)
    ensures Mirrors(t, table) && DistinctKeys(table)
  {
    hide KeyOf, IsOwner, PlacesApart;
    var blobs := map i | i in t && IsFile(t, i) :: t[i].blob.value;
    table := map b | b in blobs.Values :: KeyOf(t[FileOf(t, b)]);
    forall i: nat | IsFile(t, i) ensures t[i].blob.value in table && table[t[i].blob.value] == KeyOf(t[i]) {
      assert blobs[i] in blobs.Values;
    }
    forall b, c | b in table && c in table && table[b] == table[c] ensures b == c {
      SameKeySameFile(t, FileOf(t, b), FileOf(t, c));
    }
  }

  lemma SameKeySameFile(t: Table, i: nat, j: nat)
    requires IsFile(t, i) && IsFile(t, j) && PlacesApart(t) && IsOwner(t[i].owner) && IsOwner(t[j].owner)
    ensures KeyOf(t[i]) == KeyOf(t[j]) ==> i == j
  {
    hide StorageKey, IsOwner;
    if KeyOf(t[i]) == KeyOf(t[j]) { KeyInjective(t[i].owner, t[i].path, t[j].owner, t[j].path); }
  }

  ghost function FileOf(t: Table, b: nat): (i: nat)
    requires exists i :: IsFile(t, i) && t[i].blob.value == b
    ensures IsFile(t, i) && t[i].blob.value == b
  {
    var i :| IsFile(t, i) && t[i].blob.value == b;
    i
  }
}
