/** The blob table and the storage are always the file tree as it stood some queued operations ago. */
module Lag {
  import opened Text
  import opened Paths
  import opened Rows
  import opened Trees
  import opened FileTable
  import opened Folders
  import opened Steps
  import opened Names
  import opened Uploads
  import opened BlobStore
  import opened Keys
  import opened FileCore
  import opened Runs

  predicate IsFile(t: Table, i: nat) {
    i in t && !t[i].IsFolder()
  }

  function KeyOf(r: Row): string {
    StorageKey(r.owner, r.path)
  }

  // The blob table holds exactly the blobs of the tree's files, each under the key derived from its path.
  ghost predicate Mirrors(t: Table, blobs: map<nat, string>) {
    && (forall i :: IsFile(t, i) ==> t[i].blob.value in blobs && blobs[t[i].blob.value] == KeyOf(t[i]))
    && (forall b :: b in blobs ==> exists i :: IsFile(t, i) && t[i].blob.value == b)
  }

  // Table and storage are the path-derived keys of the tree, with the uploaded contents and nothing else.
  ghost predicate Tracks(st: Store, t: Table, contents: map<nat, Bytes>) {
    Mirrors(t, st.blobs) && Agree(st, contents)
  }

  // Running the job succeeds and takes the keys of one tree to the keys of the other, whatever the contents.
  ghost predicate Carries(j: Payload, t: Table, t': Table) {
    forall st, contents :: Tracks(st, t, contents) ==> CanRun(j, st) && Tracks(Apply(j, st), t', contents)
  }

  // The same files at the same places; folders and sizes may differ.
  ghost predicate SameFiles(t: Table, t': Table) {
    && (forall i :: IsFile(t, i) <==> IsFile(t', i))
    && (forall i :: IsFile(t, i) ==> t[i].blob == t'[i].blob && t[i].owner == t'[i].owner && t[i].path == t'[i].path)
  }

  lemma SameFilesTrack(st: Store, t: Table, t': Table, contents: map<nat, Bytes>)
    requires SameFiles(t, t') && Tracks(st, t, contents)
    ensures Tracks(st, t', contents)
  {
    forall b | b in st.blobs ensures exists i :: IsFile(t', i) && t'[i].blob.value == b {
      var i :| IsFile(t, i) && t[i].blob.value == b;
      assert IsFile(t', i);
    }
  }

  lemma SameFilesTransitive(t: Table, t': Table, t'': Table)
    requires SameFiles(t, t') && SameFiles(t', t'')
    ensures SameFiles(t, t'')
  {
  }

  lemma SameFilesCarry(j: Payload, h: Table, t: Table, t': Table)
    requires SameFiles(h, t) && Carries(j, t, t')
    ensures Carries(j, h, t')
  {
    hide SameFiles, Tracks;
    forall st, contents | Tracks(st, h, contents) ensures CanRun(j, st) && Tracks(Apply(j, st), t', contents) {
      SameFilesTrack(st, h, t, contents);
    }
  }

  lemma AgreeRuns(j: Payload, st: Store, t': Table, contents: map<nat, Bytes>)
    requires Tracks(Apply(j, st), t', contents) && (j.Move? ==> j.at in st.storage)
    ensures CanRun(j, st)
  {
  }

  // ----- Facts about the files of a tree

  ghost predicate FilesOk(t: Table, owners: Owners) {
    && (forall i, j :: IsFile(t, i) && IsFile(t, j) && t[i].blob == t[j].blob ==> i == j)
    && (forall i :: IsFile(t, i) ==> Clean(t[i].owner, t[i].path))
  }

  lemma OwnerIs(t: Table, owners: Owners, i: nat)
    requires Tree(t, owners) && OwnersOk(owners) && i in t
    ensures t[i].ns in owners && t[i].owner == owners[t[i].ns] && IsOwner(t[i].owner)
  {
  }

  lemma SameOwner(t: Table, owners: Owners, i: nat, ns: string)
    requires Tree(t, owners) && OwnersOk(owners) && i in t && ns in owners
    ensures t[i].owner == owners[ns] <==> t[i].ns == ns
  {
    assert OwnersApart(owners, t[i].ns, ns);
  }

  lemma UnderFolder(t: Table, owners: Owners, ns: string, p: Path, j: nat)
    requires Tree(t, owners) && OwnersOk(owners) && ns in owners && j in t && p != []
    ensures KeyPrefix(owners[ns], p) <= KeyOf(t[j]) <==> t[j].ns == ns && p < t[j].path
  {
    OwnerIs(t, owners, j);
    SameOwner(t, owners, j, ns);
    UnderPrefix(owners[ns], p, t[j].owner, t[j].path);
  }

  lemma FolderHasNoFile(t: Table, owners: Owners, i: nat, j: nat)
    requires Tree(t, owners) && i in t && t[i].IsFolder() && IsFile(t, j)
    ensures !(t[j].ns == t[i].ns && t[j].path == t[i].path)
  {
    assert t[j].ns == t[i].ns && t[j].path == t[i].path ==> Clash(t, i, j);
  }

  lemma CarriesRemoval(t: Table, owners: Owners, i: nat, whole: bool, size: int)
    requires Tree(t, owners) && OwnersOk(owners) && i in t && (whole ==> t[i].IsFolder()) && t[i].path != []
    ensures Carries(DeletePrefix(KeyPrefix(t[i].owner, t[i].path)), t, Removed(t, t[i].ns, t[i].path, whole, size))
  {
    hide Tree, OwnersOk, KeyPrefix, KeyOf, Agree;
    OwnerIs(t, owners, i);
    var j := DeletePrefix(KeyPrefix(t[i].owner, t[i].path));
    var t' := Removed(t, t[i].ns, t[i].path, whole, size);
    forall st, contents | Tracks(st, t, contents) ensures CanRun(j, st) && Tracks(Apply(j, st), t', contents) {
      DeletePrefixAgrees(j.prefix, st, contents);
      RemovalMirrors(t, owners, i, whole, size, st.blobs);
      AgreeRuns(j, st, t', contents);
    }
  }

  // The files that stay keep their blobs, under their keys in the new tree.
  lemma MirrorsOf(t: Table, blobs: map<nat, string>, t': Table, blobs': map<nat, string>)
    requires Mirrors(t, blobs) && blobs'.Keys <= blobs.Keys
    requires forall k :: IsFile(t', k) ==> IsFile(t, k) && t'[k].blob == t[k].blob
    requires forall k :: IsFile(t', k) ==> t'[k].blob.value in blobs' && blobs'[t'[k].blob.value] == KeyOf(t'[k])
    requires forall k :: IsFile(t, k) && t[k].blob.value in blobs' ==> IsFile(t', k)
    ensures Mirrors(t', blobs')
  {
    hide KeyOf;
    forall b | b in blobs' ensures exists k :: IsFile(t', k) && t'[k].blob.value == b {
      var k :| IsFile(t, k) && t[k].blob.value == b;
      assert IsFile(t', k);
    }
  }

  lemma RemovalMirrors(t: Table, owners: Owners, i: nat, whole: bool, size: int, blobs: map<nat, string>)
    requires Tree(t, owners) && OwnersOk(owners) && i in t && (whole ==> t[i].IsFolder()) && t[i].path != []
             && Mirrors(t, blobs)
    ensures var prefix := KeyPrefix(t[i].owner, t[i].path);
            Mirrors(Removed(t, t[i].ns, t[i].path, whole, size),
                    map b | b in blobs && !(prefix <= blobs[b]) :: blobs[b])
  {
    hide Tree, OwnersOk, KeyPrefix, KeyOf, Removed;
    var prefix := KeyPrefix(t[i].owner, t[i].path);
    var t' := Removed(t, t[i].ns, t[i].path, whole, size);
    var blobs' := map b | b in blobs && !(prefix <= blobs[b]) :: blobs[b];
    forall j | IsFile(t, j) ensures prefix <= KeyOf(t[j]) <==> j !in t' {
      FileCut(t, owners, i, whole, size, j);
    }
    FilesLeft(t, t[i].ns, t[i].path, whole, size);
    MirrorsOf(t, blobs, t', blobs');
  }

  lemma FileCut(t: Table, owners: Owners, i: nat, whole: bool, size: int, j: nat)
    requires Tree(t, owners) && OwnersOk(owners) && i in t && (whole ==> t[i].IsFolder()) && t[i].path != []
             && IsFile(t, j)
    ensures KeyPrefix(t[i].owner, t[i].path) <= KeyOf(t[j]) <==> j !in Removed(t, t[i].ns, t[i].path, whole, size)
  {
    hide Tree, OwnersOk, KeyPrefix, KeyOf;
    OwnerIs(t, owners, i);
    UnderFolder(t, owners, t[i].ns, t[i].path, j);
    if whole { FolderHasNoFile(t, owners, i, j); }
  }

  lemma FilesLeft(t: Table, ns: string, p: Path, whole: bool, size: int)
    ensures var t' := Removed(t, ns, p, whole, size);
            forall k :: IsFile(t', k) ==> IsFile(t, k) && SamePlace(t[k], t'[k]) && KeyOf(t[k]) == KeyOf(t'[k])
    ensures var t' := Removed(t, ns, p, whole, size);
            forall k :: IsFile(t, k) && k in t' ==> IsFile(t', k)
  {
  }

  lemma CarriesFileDelete(t: Table, owners: Owners, i: nat, size: int)
    requires Tree(t, owners) && OwnersOk(owners) && IsFile(t, i) && FilesOk(t, owners)
    ensures Carries(Delete(t[i].blob.value, KeyOf(t[i])), t, Removed(t, t[i].ns, t[i].path, true, size))
  {
    hide Tree, OwnersOk, FilesOk, KeyOf, Agree, Removed;
    var j := Delete(t[i].blob.value, KeyOf(t[i]));
    var t' := Removed(t, t[i].ns, t[i].path, true, size);
    forall st, contents | Tracks(st, t, contents) ensures CanRun(j, st) && Tracks(Apply(j, st), t', contents) {
      DeleteAgrees(j.blob, j.key, st, contents);
      DeleteMirrors(t, owners, i, size, st.blobs);
      AgreeRuns(j, st, t', contents);
    }
  }

  lemma DeleteMirrors(t: Table, owners: Owners, i: nat, size: int, blobs: map<nat, string>)
    requires Tree(t, owners) && IsFile(t, i) && FilesOk(t, owners) && Mirrors(t, blobs)
    ensures Mirrors(Removed(t, t[i].ns, t[i].path, true, size), blobs - {t[i].blob.value})
  {
    hide Tree, KeyOf;
    var b0 := t[i].blob.value;
    var t' := Removed(t, t[i].ns, t[i].path, true, size);
    forall k | IsFile(t, k) ensures k in t' <==> k != i {
      FileSubtree(t, owners, i, k);
    }
    forall b | b in blobs && b != b0 ensures exists k :: IsFile(t', k) && t'[k].blob.value == b {
      var k :| IsFile(t, k) && t[k].blob.value == b;
      assert IsFile(t', k);
    }
    forall k | IsFile(t', k) ensures t'[k].blob.value in blobs - {b0} && blobs[t'[k].blob.value] == KeyOf(t'[k]) {
      assert IsFile(t, k) && k != i;
      assert t[k].blob != t[i].blob;
      KeyKept(t, t', k);
    }
  }

  lemma KeyKept(t: Table, t': Table, k: nat)
    requires k in t && k in t' && t[k].owner == t'[k].owner && t[k].path == t'[k].path
    ensures KeyOf(t[k]) == KeyOf(t'[k])
  {
  }

  lemma FileSubtree(t: Table, owners: Owners, i: nat, k: nat)
    requires Tree(t, owners) && IsFile(t, i) && k in t
    ensures t[k].ns == t[i].ns && t[i].path <= t[k].path <==> k == i
  {
    if t[k].ns == t[i].ns && t[i].path <= t[k].path {
      PrefixFolds(t[i].path, t[k].path);
      ExactAncestor(t, i, k);
    }
  }

  lemma CarriesFileMove(t: Table, owners: Owners, i: nat, ns: string, to: Path, size: int)
    requires Tree(t, owners) && OwnersOk(owners) && IsFile(t, i) && FilesOk(t, owners) && ns in owners
             && CanMove(t, i, ns, to)
    requires KeyOf(t[i]) != StorageKey(owners[ns], to)
    ensures Carries(Move(t[i].blob.value, KeyOf(t[i]), StorageKey(owners[ns], to)), t,
                    Relocated(t, t[i].ns, t[i].path, ns, owners[ns], to, size))
  {
    hide Tree, OwnersOk, StorageKey, Agree, CanMove, Ready, Mirrors, FilesOk, Relocated;
    var j := Move(t[i].blob.value, KeyOf(t[i]), StorageKey(owners[ns], to));
    var t' := Relocated(t, t[i].ns, t[i].path, ns, owners[ns], to, size);
    forall st, contents | Tracks(st, t, contents) ensures CanRun(j, st) && Tracks(Apply(j, st), t', contents) {
      TrackedFile(st, t, contents, i);
      FileMoveReady(t, owners, i, ns, to, st, contents);
      MoveAgrees(j.blob, j.at, j.to, st, contents);
      FileMoveMirrors(t, owners, i, ns, to, size, st.blobs);
      AgreeRuns(j, st, t', contents);
    }
  }

  lemma FileMoveMirrors(t: Table, owners: Owners, i: nat, ns: string, to: Path, size: int, blobs: map<nat, string>)
    requires Tree(t, owners) && IsFile(t, i) && FilesOk(t, owners) && ns in owners && Mirrors(t, blobs)
    ensures Mirrors(Relocated(t, t[i].ns, t[i].path, ns, owners[ns], to, size),
            blobs[t[i].blob.value := StorageKey(owners[ns], to)])
  {
    hide Tree, KeyOf, StorageKey, Relocated;
    var t' := Relocated(t, t[i].ns, t[i].path, ns, owners[ns], to, size);
    FileRelocated(t, owners, i, ns, to, size);
    forall k | IsFile(t', k) && k != i ensures t[k].blob != t[i].blob && KeyOf(t[k]) == KeyOf(t'[k]) {
      assert IsFile(t, k);
      KeyKept(t, t', k);
    }
    MirrorsOf(t, blobs, t', blobs[t[i].blob.value := StorageKey(owners[ns], to)]);
  }

  lemma FileRelocated(t: Table, owners: Owners, i: nat, ns: string, to: Path, size: int)
    requires Tree(t, owners) && IsFile(t, i) && ns in owners
    ensures var t' := Relocated(t, t[i].ns, t[i].path, ns, owners[ns], to, size);
            && (forall k :: IsFile(t, k) <==> IsFile(t', k))
            && (forall k :: IsFile(t, k) ==> t'[k].blob == t[k].blob)
            && KeyOf(t'[i]) == StorageKey(owners[ns], to)
            && (forall k :: IsFile(t, k) && k != i ==> t'[k].owner == t[k].owner && t'[k].path == t[k].path)
  {
    hide Tree;
    forall k | k in t && k != i ensures !InSubtree(t[k], t[i].ns, t[i].path) {
      FileSubtree(t, owners, i, k);
    }
    assert to + t[i].path[|t[i].path|..] == to;
  }

  lemma FileMoveReady(t: Table, owners: Owners, i: nat, ns: string, to: Path, st: Store, contents: map<nat, Bytes>)
    requires Tree(t, owners) && OwnersOk(owners) && IsFile(t, i) && ns in owners && CanMove(t, i, ns, to)
    requires KeyOf(t[i]) != StorageKey(owners[ns], to) && Tracks(st, t, contents)
    ensures Ready(Move(t[i].blob.value, KeyOf(t[i]), StorageKey(owners[ns], to)), st)
  {
    var key := StorageKey(owners[ns], to);
    if key in st.storage {
      var b :| b in st.blobs && st.blobs[b] == key;
      var k :| IsFile(t, k) && t[k].blob.value == b;
      OwnerIs(t, owners, k);
      KeyInjective(t[k].owner, t[k].path, owners[ns], to);
      SameOwner(t, owners, k, ns);
      assert At(t[k], ns, to);
    }
  }

  // ----- Folder moves

  /** After an accepted folder move the worker leaves table and storage as the relocated tree exactly when the folder
      moves away from its stored path, or no file lies below it. */
  lemma FolderMoveTracksIff(t: Table, owners: Owners, i: nat, ns: string, to: Path, size: int, st: Store,
                            contents: map<nat, Bytes>)
    requires Tree(t, owners) && OwnersOk(owners) && i in t && t[i].IsFolder() && FilesOk(t, owners)
    requires ns in owners && CanMove(t, i, ns, to) && Tracks(st, t, contents)
    ensures var j := MovePrefix(KeyPrefix(t[i].owner, t[i].path), KeyPrefix(owners[ns], to));
            var t' := Relocated(t, t[i].ns, t[i].path, ns, owners[ns], to, size);
            Tracks(Apply(j, st), t', contents)
            <==> !(ns == t[i].ns && to == t[i].path) || NoFileBelow(t, t[i].ns, t[i].path)
  {
    hide Tree, OwnersOk, FilesOk, KeyPrefix, StorageKey, Agree, CanMove, Ready, Mirrors, NoFileBelow, Relocated;
    var j := MovePrefix(KeyPrefix(t[i].owner, t[i].path), KeyPrefix(owners[ns], to));
    OwnerIs(t, owners, i);
    MovesNamed(t, i, ns, to);
    if ns == t[i].ns && to == t[i].path {
      MovedOntoItself(t, owners, i, size, st, contents);
    } else {
      FolderMoveReady(t, owners, i, ns, to, st, contents);
      MovePrefixAgrees(j.at, j.to, st, contents);
      SwapMirrors(t, owners, i, ns, to, size, st.blobs, Apply(j, st).blobs);
    }
  }

  lemma MovesNamed(t: Table, i: nat, ns: string, to: Path)
    requires CanMove(t, i, ns, to)
    ensures t[i].path != []
  {
  }

  // Renaming a prefix to itself leaves the table alone and empties the prefix in storage.
  lemma MovedOntoItself(t: Table, owners: Owners, i: nat, size: int, st: Store, contents: map<nat, Bytes>)
    requires Tree(t, owners) && OwnersOk(owners) && i in t && t[i].IsFolder() && t[i].path != []
             && Tracks(st, t, contents)
    ensures var p := KeyPrefix(t[i].owner, t[i].path);
            var t' := Relocated(t, t[i].ns, t[i].path, t[i].ns, t[i].owner, t[i].path, size);
            Tracks(Apply(MovePrefix(p, p), st), t', contents) <==> NoFileBelow(t, t[i].ns, t[i].path)
  {
    hide Tree, OwnersOk, KeyPrefix, StorageKey, ReplaceAll;
    var ns, at, p := t[i].ns, t[i].path, KeyPrefix(t[i].owner, t[i].path);
    var t' := Relocated(t, ns, at, ns, t[i].owner, at, size);
    var st' := Apply(MovePrefix(p, p), st);
    OwnerIs(t, owners, i);
    RekeyToSame(p, st);
    StaysInPlace(t, owners, i, size);
    if NoFileBelow(t, ns, at) {
      forall k | k in st.storage ensures !(p <= k) {
        var b :| b in st.blobs && st.blobs[b] == k;
        var f :| IsFile(t, f) && t[f].blob.value == b;
        UnderFolder(t, owners, ns, at, f);
      }
      assert st'.storage == st.storage;
      SameFilesTrack(st, t, t', contents);
    } else {
      var f :| f in t && t[f].ns == ns && at < t[f].path && !t[f].IsFolder();
      assert IsFile(t, f);
      UnderFolder(t, owners, ns, at, f);
      assert t[f].blob.value in st'.blobs && st'.blobs[t[f].blob.value] !in st'.storage;
    }
  }

  lemma RekeyToSame(p: string, st: Store)
    ensures Apply(MovePrefix(p, p), st) == Store(st.blobs, DropPrefix(st.storage, p))
  {
    forall b | b in st.blobs ensures Rekey(p, p, st.blobs[b]) == st.blobs[b] {
      if p != "" { ReplaceAllBySame(st.blobs[b], p); }
    }
    assert Apply(MovePrefix(p, p), st).blobs == st.blobs;
  }

  lemma StaysInPlace(t: Table, owners: Owners, i: nat, size: int)
    requires Tree(t, owners) && OwnersOk(owners) && i in t
    ensures SameFiles(t, Relocated(t, t[i].ns, t[i].path, t[i].ns, t[i].owner, t[i].path, size))
  {
    hide Tree, OwnersOk;
    forall k | k in t && InSubtree(t[k], t[i].ns, t[i].path) ensures t[k].owner == t[i].owner {
      OwnerIs(t, owners, k);
      OwnerIs(t, owners, i);
    }
    forall k | k in t && t[i].path <= t[k].path ensures t[i].path + t[k].path[|t[i].path|..] == t[k].path { }
  }

  lemma CarriesFolderMove(t: Table, owners: Owners, i: nat, ns: string, to: Path, size: int)
    requires Tree(t, owners) && OwnersOk(owners) && i in t && t[i].IsFolder() && FilesOk(t, owners)
    requires ns in owners && CanMove(t, i, ns, to)
    requires !(ns == t[i].ns && to == t[i].path) || NoFileBelow(t, t[i].ns, t[i].path)
    ensures Carries(MovePrefix(KeyPrefix(t[i].owner, t[i].path), KeyPrefix(owners[ns], to)), t,
                    Relocated(t, t[i].ns, t[i].path, ns, owners[ns], to, size))
  {
    hide Tree, OwnersOk, FilesOk, KeyPrefix, StorageKey, CanMove, Mirrors, NoFileBelow, Relocated, Rekey;
    var j := MovePrefix(KeyPrefix(t[i].owner, t[i].path), KeyPrefix(owners[ns], to));
    var t' := Relocated(t, t[i].ns, t[i].path, ns, owners[ns], to, size);
    forall st, contents | Tracks(st, t, contents) ensures CanRun(j, st) && Tracks(Apply(j, st), t', contents) {
      FolderMoveTracksIff(t, owners, i, ns, to, size, st, contents);
      AgreeRuns(j, st, t', contents);
    }
  }

  lemma SwapMirrors(t: Table, owners: Owners, i: nat, ns: string, to: Path, size: int, blobs: map<nat, string>,
                    blobs': map<nat, string>)
    requires Tree(t, owners) && OwnersOk(owners) && i in t && t[i].IsFolder() && ns in owners && CanMove(t, i, ns, to)
    requires Mirrors(t, blobs) && blobs'.Keys == blobs.Keys
    requires forall b :: b in blobs ==>
             blobs'[b] == Swap(KeyPrefix(t[i].owner, t[i].path), KeyPrefix(owners[ns], to), blobs[b])
    ensures Mirrors(Relocated(t, t[i].ns, t[i].path, ns, owners[ns], to, size), blobs')
  {
    hide Tree, OwnersOk, KeyPrefix, StorageKey, Swap, CanMove;
    var t' := Relocated(t, t[i].ns, t[i].path, ns, owners[ns], to, size);
    forall k | IsFile(t', k) ensures t'[k].blob.value in blobs' && blobs'[t'[k].blob.value] == KeyOf(t'[k]) {
      assert IsFile(t, k);
      SwappedKey(t, owners, i, ns, to, size, k);
    }
    forall b | b in blobs' ensures exists k :: IsFile(t', k) && t'[k].blob.value == b {
      var k :| IsFile(t, k) && t[k].blob.value == b;
      assert IsFile(t', k);
    }
  }

  lemma SwappedKey(t: Table, owners: Owners, i: nat, ns: string, to: Path, size: int, k: nat)
    requires Tree(t, owners) && OwnersOk(owners) && i in t && t[i].IsFolder() && ns in owners && CanMove(t, i, ns, to)
             && IsFile(t, k)
    ensures Swap(KeyPrefix(t[i].owner, t[i].path), KeyPrefix(owners[ns], to), KeyOf(t[k]))
         == KeyOf(Relocated(t, t[i].ns, t[i].path, ns, owners[ns], to, size)[k])
  {
    hide Tree, OwnersOk, StorageKey, KeyPrefix;
    var at := t[i].path;
    OwnerIs(t, owners, i);
    OwnerIs(t, owners, k);
    UnderFolder(t, owners, t[i].ns, at, k);
    FolderHasNoFile(t, owners, i, k);
    if InSubtree(t[k], t[i].ns, at) {
      var rest := t[k].path[|at|..];
      assert t[k].path == at + rest;
      assert at + [] == at;
      assert rest != [];
      SwapKey(t[i].owner, at, owners[ns], to, rest);
    }
  }

  lemma FolderMoveReady(t: Table, owners: Owners, i: nat, ns: string, to: Path, st: Store, contents: map<nat, Bytes>)
    requires Tree(t, owners) && OwnersOk(owners) && i in t && t[i].IsFolder() && FilesOk(t, owners)
    requires ns in owners && CanMove(t, i, ns, to) && !(ns == t[i].ns && to == t[i].path) && Tracks(st, t, contents)
    ensures Ready(MovePrefix(KeyPrefix(t[i].owner, t[i].path), KeyPrefix(owners[ns], to)), st)
  {
    hide Tree, OwnersOk, FilesOk, StorageKey, Contains, KeyPrefix;
    var at, to' := KeyPrefix(t[i].owner, t[i].path), KeyPrefix(owners[ns], to);
    PrefixesDiffer(t, owners, i, ns, to);
    forall key | key in st.storage
      ensures to' <= key ==> at <= key
      ensures at <= key ==> !Contains(key[|at|..], at)
    {
      var b :| b in st.blobs && st.blobs[b] == key;
      var k :| IsFile(t, k) && t[k].blob.value == b;
      FileKeyReady(t, owners, i, ns, to, k);
    }
  }

  lemma PrefixesDiffer(t: Table, owners: Owners, i: nat, ns: string, to: Path)
    requires Tree(t, owners) && OwnersOk(owners) && i in t && ns in owners && !(ns == t[i].ns && to == t[i].path)
    ensures KeyPrefix(t[i].owner, t[i].path) != "" && KeyPrefix(t[i].owner, t[i].path) != KeyPrefix(owners[ns], to)
  {
    hide Tree, OwnersOk, StorageKey;
    var at, to' := KeyPrefix(t[i].owner, t[i].path), KeyPrefix(owners[ns], to);
    if at == to' {
      assert at[..|at| - 1] == StorageKey(t[i].owner, t[i].path) && to'[..|to'| - 1] == StorageKey(owners[ns], to);
      OwnerIs(t, owners, i);
      SameOwner(t, owners, i, ns);
      assert IsOwner(owners[ns]) by { OwnersAre(owners, ns); }
      KeyInjective(t[i].owner, t[i].path, owners[ns], to);
    }
  }

  lemma OwnersAre(owners: Owners, ns: string)
    requires OwnersOk(owners) && ns in owners
    ensures IsOwner(owners[ns])
  {
  }

  lemma FileKeyReady(t: Table, owners: Owners, i: nat, ns: string, to: Path, k: nat)
    requires Tree(t, owners) && OwnersOk(owners) && i in t && t[i].IsFolder() && FilesOk(t, owners)
    requires ns in owners && CanMove(t, i, ns, to) && IsFile(t, k)
    ensures var at, to', key := KeyPrefix(t[i].owner, t[i].path), KeyPrefix(owners[ns], to), KeyOf(t[k]);
            (to' <= key ==> at <= key) && (at <= key ==> !Contains(key[|at|..], at))
  {
    hide StorageKey, Contains, Labelled, Rooted, OwnersOk, HasFolder;
    var at, p := t[i].path, t[k].path;
    OwnerIs(t, owners, i);
    OwnerIs(t, owners, k);
    UnderFolder(t, owners, ns, to, k);
    UnderFolder(t, owners, t[i].ns, at, k);
    if t[k].ns == ns && to < p {
      PrefixFolds(to, p);
      OnlyMovedBelow(t, i, ns, to, k);
      FolderHasNoFile(t, owners, i, k);
    }
    if t[k].ns == t[i].ns && at < p {
      var rest := p[|at|..];
      assert p == at + rest;
      KeyBelow(t[k].owner, at, rest);
      CleanPart(t[k].owner, p, |at|);
      PrefixNotRepeated(t[k].owner, at, rest);
    }
  }

  lemma CleanPart(owner: string, p: Path, k: nat)
    requires Clean(owner, p) && k <= |p|
    ensures Clean(owner, p[k..]) && Clean(owner, p[..k])
  {
    hide Contains;
  }

  // ----- The refinement

  ghost predicate BlobsOk(w: World) {
    && OwnersOk(w.owners) && FilesOk(w.rows, w.owners)
    && (forall i :: IsFile(w.rows, i) ==> w.rows[i].blob.value < w.nextBlob)
    && (forall b :: b in w.store.blobs ==> b < w.nextBlob)
  }

  ghost predicate Chain(jobs: seq<Payload>, hist: seq<Table>, k: nat) {
    |hist| == k + 1 + |jobs| && forall m :: 0 <= m < |jobs| ==> Carries(jobs[m], hist[k + m], hist[k + m + 1])
  }

  // hist[m] is the tree as it stood after the m-th queued operation; k jobs have run.
  ghost predicate Lagged(w: World, hist: seq<Table>, k: nat) {
    && GoodWorld(w) && BlobsOk(w) && Chain(w.jobs, hist, k)
    && Tracks(w.store, hist[k], w.contents)
    && SameFiles(hist[|hist| - 1], w.rows)
  }

  // How an event changes the history: a queued operation extends it, an upload replaces its last tree.
  function HistoryAfter(hist: seq<Table>, w: World, ev: Event, w': World): seq<Table>
    requires hist != []
  {
    if ev.Upload? then hist[|hist| - 1 := w'.rows]
    else if |w'.jobs| > |w.jobs| then hist + [w'.rows]
    else hist
  }

  function DoneAfter(k: nat, ev: Event): nat {
    if ev.Work? then k + 1 else k
  }

  lemma ChainExtended(jobs: seq<Payload>, hist: seq<Table>, k: nat, j: Payload, t: Table, t': Table)
    requires Chain(jobs, hist, k) && SameFiles(hist[|hist| - 1], t) && Carries(j, t, t')
    ensures Chain(jobs + [j], hist + [t'], k)
  {
    hide Carries, SameFiles;
    SameFilesCarry(j, hist[|hist| - 1], t, t');
    var jobs', hist' := jobs + [j], hist + [t'];
    forall m | 0 <= m < |jobs'| ensures Carries(jobs'[m], hist'[k + m], hist'[k + m + 1]) {
      if m < |jobs| { assert Carries(jobs[m], hist[k + m], hist[k + m + 1]); }
    }
  }

  lemma QueuedStep(w: World, hist: seq<Table>, k: nat, j: Payload, w': World)
    requires Lagged(w, hist, k) && GoodWorld(w') && BlobsOk(w')
    requires Carries(j, w.rows, w'.rows) && w'.jobs == w.jobs + [j] && w'.store == w.store && w'.contents == w.contents
    ensures Lagged(w', hist + [w'.rows], k)
  {
    hide GoodWorld, BlobsOk, Carries, Tracks;
    ChainExtended(w.jobs, hist, k, j, w.rows, w'.rows);
    assert (hist + [w'.rows])[k] == hist[k];
  }

  lemma QuietStep(w: World, hist: seq<Table>, k: nat, w': World)
    requires Lagged(w, hist, k) && GoodWorld(w') && BlobsOk(w')
    requires SameFiles(w.rows, w'.rows) && w'.jobs == w.jobs && w'.store == w.store && w'.contents == w.contents
    ensures Lagged(w', hist, k)
  {
    hide GoodWorld, BlobsOk, Carries, Tracks, Chain, SameFiles;
    ChainLength(w.jobs, hist, k);
    SameFilesTransitive(hist[|hist| - 1], w.rows, w'.rows);
  }

  lemma ChainLength(jobs: seq<Payload>, hist: seq<Table>, k: nat)
    requires Chain(jobs, hist, k)
    ensures |hist| == k + 1 + |jobs|
  {
  }

  lemma WorkStep(w: World, hist: seq<Table>, k: nat, w': World)
    requires Lagged(w, hist, k) && Step(w, Work, w')
    ensures Lagged(w', hist, k + 1)
  {
    hide GoodWorld, Tracks, Agree;
    assert Carries(w.jobs[0], hist[k + 0], hist[k + 0 + 1]);
    forall m | 0 <= m < |w'.jobs| ensures Carries(w'.jobs[m], hist[k + 1 + m], hist[k + 1 + m + 1]) {
      assert Carries(w.jobs[m + 1], hist[k + (m + 1)], hist[k + (m + 1) + 1]);
    }
    AppliedBlobs(w.jobs[0], w.store);
    assert GoodWorld(w') by { WorkGood(w, w'); }
  }

  /** The worker never gets stuck: the next job can always run. */
  lemma NextJobRuns(w: World, hist: seq<Table>, k: nat)
    requires Lagged(w, hist, k) && w.jobs != []
    ensures CanRun(w.jobs[0], w.store)
  {
    hide GoodWorld, BlobsOk, Tracks;
    assert Carries(w.jobs[0], hist[k + 0], hist[k + 0 + 1]);
  }

  lemma WorkGood(w: World, w': World)
    requires GoodWorld(w) && w'.rows == w.rows && w'.owners == w.owners && w'.nextRow == w.nextRow
    ensures GoodWorld(w')
  {
  }

  lemma AppliedBlobs(j: Payload, st: Store)
    ensures forall b :: b in Apply(j, st).blobs ==> b in st.blobs
  {
  }

  /** When no job is pending, table and storage are those of the current tree. */
  lemma DrainedTracks(w: World, hist: seq<Table>, k: nat)
    requires Lagged(w, hist, k) && w.jobs == []
    ensures Tracks(w.store, w.rows, w.contents)
  {
    hide GoodWorld, BlobsOk, Tracks, SameFiles;
    SameFilesTrack(w.store, hist[k], w.rows, w.contents);
  }

  // ----- Uploads

  lemma UploadedRows(w: World, ns: string, path: Path, content: Bytes, count: nat, f: Stored, w': World)
    requires GoodWorld(w) && Uploaded(w, ns, path, content, count, f, w')
    ensures f.id !in w.rows && IsFile(w'.rows, f.id) && w'.rows[f.id] == f.row
    ensures forall i :: IsFile(w'.rows, i) && i != f.id ==> IsFile(w.rows, i)
    ensures forall i :: IsFile(w.rows, i) ==> IsFile(w'.rows, i) && SamePlace(w.rows[i], w'.rows[i])
    ensures f.row.owner == w.owners[ns] && f.row.blob == Some(w.nextBlob)
    ensures f.row.path == path || exists n :: f.row.path == NumberedPath(path, n)
  {
    hide Tree, OwnersOk, ParentsMade, AddSteps, Taken, Counted, Unblocked, NumberedPath;
    var t1: Table :| CreatedVia(w.rows, w.nextRow, w.owners, ns, path, count, w.nextBlob, |content|, f, w'.rows, t1);
    ParentRows(w.rows, w.nextRow, w.owners, ns, Parent(path), t1);
    FileAdded(t1, f.id, f.row);
  }

  lemma FileAdded(t: Table, id: nat, r: Row)
    requires id !in t && !r.IsFolder()
    ensures var t' := AddSteps(t, id, r);
            && IsFile(t', id) && t'[id] == r
            && (forall i :: IsFile(t', i) && i != id ==> IsFile(t, i))
            && (forall i :: IsFile(t, i) ==> IsFile(t', i) && SamePlace(t[i], t'[i]))
  {
  }

  predicate SamePlace(r: Row, r': Row) {
    r.blob == r'.blob && r.owner == r'.owner && r.path == r'.path
  }

  lemma ParentRows(t: Table, id: nat, owners: Owners, ns: string, parent: Path, t1: Table)
    requires RowsBefore(t, id) && ns in owners && ParentsMade(t, id, owners, ns, parent, t1)
    ensures forall i :: i in t ==> i in t1 && t1[i] == t[i]
    ensures forall i :: IsFile(t1, i) ==> i in t
  {
    hide SavedBatch, Taken;
    if !Taken(t, ns, parent) {
      var rows :| ToSave(t, ns, owners[ns], parent, rows) && t1 == SavedBatch(t, id, rows);
      BatchRows(t, id, rows);
      SavedAreFolders(t, ns, owners[ns], parent, rows);
    }
  }

  lemma SavedAreFolders(t: Table, ns: string, owner: string, path: Path, rows: seq<Row>)
    requires ToSave(t, ns, owner, path, rows)
    ensures forall r :: r in rows ==> r.IsFolder()
  {
  }

  lemma UploadTracks(w: World, ns: string, path: Path, content: Bytes, count: nat, f: Stored, w': World)
    requires GoodWorld(w) && BlobsOk(w) && Uploaded(w, ns, path, content, count, f, w')
             && Tracks(w.store, w.rows, w.contents)
    ensures Tracks(w'.store, w'.rows, w'.contents)
  {
    hide GoodWorld, CreatedFile, StorageKey, FilesOk;
    UploadedRows(w, ns, path, content, count, f, w');
    UploadAgrees(w, f, content, w');
    var key := StorageKey(w.owners[ns], f.row.path);
    forall i | IsFile(w'.rows, i)
      ensures w'.rows[i].blob.value in w'.store.blobs && w'.store.blobs[w'.rows[i].blob.value] == KeyOf(w'.rows[i])
    {
      if i != f.id { assert IsFile(w.rows, i) && SamePlace(w.rows[i], w'.rows[i]); }
    }
    forall b | b in w'.store.blobs ensures exists i :: IsFile(w'.rows, i) && w'.rows[i].blob.value == b {
      if b == w.nextBlob {
        assert IsFile(w'.rows, f.id);
      } else {
        var i :| IsFile(w.rows, i) && w.rows[i].blob.value == b;
        assert IsFile(w'.rows, i) && SamePlace(w.rows[i], w'.rows[i]);
      }
    }
  }

  lemma UploadAgrees(w: World, f: Stored, content: Bytes, w': World)
    requires Agree(w.store, w.contents) && forall b :: b in w.store.blobs ==> b < w.nextBlob
    requires exists key :: key !in w.store.blobs.Values && w'.contents == w.contents[w.nextBlob := content]
               && w'.store == Store(w.store.blobs[w.nextBlob := key], w.store.storage[key := content])
    ensures Agree(w'.store, w'.contents)
  {
    var key :| key !in w.store.blobs.Values && w'.contents == w.contents[w.nextBlob := content]
      && w'.store == Store(w.store.blobs[w.nextBlob := key], w.store.storage[key := content]);
    forall k | k in w'.store.storage ensures exists b :: b in w'.store.blobs && w'.store.blobs[b] == k {
      if k == key {
        assert w'.store.blobs[w.nextBlob] == k;
      } else {
        var b :| b in w.store.blobs && w.store.blobs[b] == k;
        assert w'.store.blobs[b] == k;
      }
    }
  }

  lemma UploadBlobsOk(w: World, ns: string, path: Path, content: Bytes, count: nat, f: Stored, w': World)
    requires GoodWorld(w) && BlobsOk(w) && Uploaded(w, ns, path, content, count, f, w') && Clean(w.owners[ns], path)
    ensures BlobsOk(w')
  {
    hide GoodWorld, CreatedFile, StorageKey, Contains, OwnersOk, Clean;
    UploadedRows(w, ns, path, content, count, f, w');
    OwnersAre(w.owners, ns);
    CleanUpload(w.owners[ns], path, f.row.path);
    forall i | IsFile(w'.rows, i) && i != f.id ensures IsFile(w.rows, i) && SamePlace(w.rows[i], w'.rows[i]) {
    }
  }

  lemma CleanUpload(owner: string, path: Path, next: Path)
    requires next == path || exists n :: next == NumberedPath(path, n)
    requires IsOwner(owner) && Clean(owner, path)
    ensures Clean(owner, next)
  {
    hide Contains, NumberedName, IsOwner;
    if next != path {
      var n :| next == NumberedPath(path, n);
      CleanNumbered(owner, path, n);
      if path != [] { CleanPart(owner, path, |path| - 1); }
      CleanConcat(owner, Parent(path), [NumberedName(path, n)]);
    }
  }

  // The digits and the brackets put into a name contain no owner's id, nor does one reach across them.
  lemma CleanNumbered(owner: string, path: Path, n: nat)
    requires IsOwner(owner) && Clean(owner, path)
    ensures !Contains(NumberedName(path, n), owner)
  {
    hide Contains, Stem, Suffix, Decimal;
    var stem, d, suffix := Stem(path), Decimal(n), Suffix(path);
    var tail := d + [')'] + suffix;
    assert NumberedName(path, n) == stem + [' '] + ("" + ['('] + tail);
    PartsOfName(path);
    NameClean(owner, path);
    ContainsInside(stem, suffix, owner);
    NotInDigits(owner, d);
    NothingInEmpty(owner);
    if Contains(NumberedName(path, n), owner) {
      OccursOnOneSide(stem, ' ', "" + ['('] + tail, owner);
      if Contains("" + ['('] + tail, owner) { OccursOnOneSide("", '(', tail, owner); }
      if Contains(tail, owner) { OccursOnOneSide(d, ')', suffix, owner); }
    }
  }

  lemma NameClean(owner: string, path: Path)
    requires IsOwner(owner) && Clean(owner, path)
    ensures !Contains(NameOf(path), owner)
  {
    CharsInside(".", owner);
  }

  lemma ContainsInside(a: string, b: string, w: string)
    ensures Contains(a, w) || Contains(b, w) ==> Contains(a + b, w)
  {
    if i :| 0 <= i <= |a| && w <= a[i..] { assert (a + b)[i..][..|w|] == a[i..][..|w|]; }
    if i :| 0 <= i <= |b| && w <= b[i..] { assert (a + b)[|a| + i..] == b[i..]; }
  }

  lemma NotInDigits(owner: string, d: string)
    requires IsOwner(owner) && Digits(d)
    ensures !Contains(d, owner)
  {
    CharsInside(d, owner);
  }

  lemma CharsInside(s: string, w: string)
    ensures Contains(s, w) ==> forall c :: c in w ==> c in s
  {
    if i :| 0 <= i <= |s| && w <= s[i..] {
      assert forall c :: c in w ==> c in s[i..];
    }
  }

  lemma CleanConcat(owner: string, p: Path, q: Path)
    requires Clean(owner, p) && Clean(owner, q)
    ensures Clean(owner, p + q)
  {
    hide Contains;
  }

  lemma UploadStep(w: World, hist: seq<Table>, k: nat, ns: string, path: Path, content: Bytes, count: nat, w': World)
    requires var ev := Upload(ns, path, content, count); Lagged(w, hist, k) && Allowed(w, ev) && Step(w, ev, w')
    ensures Lagged(w', hist[|hist| - 1 := w'.rows], k)
  {
    hide GoodWorld, BlobsOk, Tracks, TreeAllowed, SameFiles, CreatedFile;
    StepKeepsTreeIff(w, Upload(ns, path, content, count), w');
    var f :| Uploaded(w, ns, path, content, count, f, w');
    DrainedTracks(w, hist, k);
    UploadTracks(w, ns, path, content, count, f, w');
    UploadBlobsOk(w, ns, path, content, count, f, w');
    SameFilesReflexive(w'.rows);
  }

  lemma SameFilesReflexive(t: Table)
    ensures SameFiles(t, t)
  {
  }

  // ----- Folders and namespaces: no file changes

  lemma NamespaceStep(w: World, hist: seq<Table>, k: nat, ns: string, owner: string, w': World)
    requires Lagged(w, hist, k) && Allowed(w, CreateNamespace(ns, owner)) && Step(w, CreateNamespace(ns, owner), w')
    ensures Lagged(w', hist, k)
  {
    hide Tree, OwnersOk, Tracks, Chain, FilesOk;
    StepKeepsTreeIff(w, CreateNamespace(ns, owner), w');
    WithNamespace(w.owners, ns, owner);
    FoldersOnly(w.rows, w'.rows, w.owners, w'.owners);
    QuietStep(w, hist, k, w');
  }

  // Adding folder rows leaves the files as they are.
  lemma FoldersOnly(t: Table, t': Table, owners: Owners, owners': Owners)
    requires FilesOk(t, owners)
    requires (forall i :: i in t ==> i in t' && t'[i] == t[i]) && forall i :: IsFile(t', i) ==> i in t
    ensures SameFiles(t, t') && FilesOk(t', owners')
  {
    hide Clean;
    forall i | IsFile(t', i) ensures IsFile(t, i) && t'[i] == t[i] {
    }
  }

  lemma FolderStep(w: World, hist: seq<Table>, k: nat, ns: string, path: Path, w': World)
    requires Lagged(w, hist, k) && Allowed(w, CreateFolder(ns, path)) && Step(w, CreateFolder(ns, path), w')
    ensures Lagged(w', hist, k)
  {
    hide Tree, OwnersOk, Tracks, Chain, FilesOk, SavedBatch, TreeAllowed, SameFiles, ToSave, Unblocked;
    StepKeepsTreeIff(w, CreateFolder(ns, path), w');
    FolderRowsOnly(w, ns, path, w'.rows);
    FoldersOnly(w.rows, w'.rows, w.owners, w'.owners);
    FilesOfSame(w.rows, w'.rows);
    QuietStep(w, hist, k, w');
  }

  lemma FolderRowsOnly(w: World, ns: string, path: Path, rows: Table)
    requires RowsBefore(w.rows, w.nextRow) && FolderCreated(w, ns, path, rows)
    ensures (forall i :: i in w.rows ==> i in rows && rows[i] == w.rows[i]) && forall i :: IsFile(rows, i) ==>
            i in w.rows
  {
    hide SavedBatch;
    var batch :| ToSave(w.rows, ns, w.owners[ns], path, batch) && rows == SavedBatch(w.rows, w.nextRow, batch);
    BatchRows(w.rows, w.nextRow, batch);
    SavedAreFolders(w.rows, ns, w.owners[ns], path, batch);
  }

  lemma FilesOfSame(t: Table, t': Table)
    requires SameFiles(t, t')
    ensures forall i :: IsFile(t', i) ==> IsFile(t, i) && t'[i].blob == t[i].blob
  {
  }

  // ----- Deleting and emptying

  lemma RemovedFilesOk(t: Table, owners: Owners, ns: string, p: Path, whole: bool, size: int)
    requires FilesOk(t, owners)
    ensures FilesOk(Removed(t, ns, p, whole, size), owners)
    ensures forall i :: IsFile(Removed(t, ns, p, whole, size), i) ==>
            IsFile(t, i) && Removed(t, ns, p, whole, size)[i].blob == t[i].blob
  {
    hide Clean;
    var t' := Removed(t, ns, p, whole, size);
    forall i | IsFile(t', i) ensures IsFile(t, i) && SamePlace(t[i], t'[i]) {
    }
  }

  lemma DeleteStep(w: World, hist: seq<Table>, k: nat, ns: string, path: Path, f: Stored, w': World)
    requires Lagged(w, hist, k) && Allowed(w, DeleteItem(ns, path)) && Deleted(w, ns, path, f, w')
    ensures |w'.jobs| > |w.jobs| && Lagged(w', hist + [w'.rows], k)
  {
    hide Unique, Closed, Labelled, Rooted, OwnersOk, Tracks, Chain, FilesOk, SameFiles, Removed, Clean, Carries;
    hide KeyPrefix, KeyOf, StorageKey, Same;
    assert Step(w, DeleteItem(ns, path), w');
    StepKeepsTreeIff(w, DeleteItem(ns, path), w');
    RemovedFilesOk(w.rows, w.owners, ns, f.row.path, true, f.row.size);
    SameLengths(f.row.path, path);
    TreeParts(w.rows, w.owners);
    DeleteIsRemoval(w.rows, f.id, path);
    if f.row.IsFolder() {
      CarriesRemoval(w.rows, w.owners, f.id, true, f.row.size);
      QueuedStep(w, hist, k, DeletePrefix(KeyPrefix(f.row.owner, f.row.path)), w');
    } else {
      assert At(w.rows[f.id], ns, path);
      DrainedTracks(w, hist, k);
      TrackedFile(w.store, w.rows, w.contents, f.id);
      CarriesFileDelete(w.rows, w.owners, f.id, f.row.size);
      QueuedStep(w, hist, k, Delete(f.row.blob.value, KeyOf(f.row)), w');
    }
  }

  lemma TrackedFile(st: Store, t: Table, contents: map<nat, Bytes>, i: nat)
    requires Tracks(st, t, contents) && IsFile(t, i)
    ensures t[i].blob.value in st.blobs && st.blobs[t[i].blob.value] == KeyOf(t[i])
    ensures t[i].blob.value in contents && KeyOf(t[i]) in st.storage
            && st.storage[KeyOf(t[i])] == contents[t[i].blob.value]
  {
  }

  lemma SizesKeepFiles(t: Table, t': Table)
    requires SameButSizes(t, t')
    ensures SameFiles(t, t')
  {
  }

  lemma SameFilesOk(t: Table, t': Table, owners: Owners)
    requires SameFiles(t, t') && FilesOk(t, owners)
    ensures FilesOk(t', owners)
  {
    hide Clean;
    forall i, j | IsFile(t', i) && IsFile(t', j) && t'[i].blob == t'[j].blob ensures i == j {
      assert IsFile(t, i) && IsFile(t, j);
    }
  }

  lemma CarriesToSameFiles(j: Payload, t: Table, t': Table, t'': Table)
    requires Carries(j, t, t') && SameFiles(t', t'')
    ensures Carries(j, t, t'')
  {
    hide SameFiles, Tracks;
    forall st, contents | Tracks(st, t, contents) ensures CanRun(j, st) && Tracks(Apply(j, st), t'', contents) {
      SameFilesTrack(Apply(j, st), t', t'', contents);
    }
  }

  /** Emptying a folder in any spelling: the job goes to the stored spelling's prefix and follows the tree. */
  lemma CarriesEmptying(t: Table, owners: Owners, i: nat, path: Path)
    requires Tree(t, owners) && OwnersOk(owners) && FilesOk(t, owners) && i in t && Same(t[i].path, path)
    requires path != [] && t[i].size != 0
    ensures Carries(DeletePrefix(KeyPrefix(t[i].owner, t[i].path)), t, EmptySteps(t, i, path))
    ensures FilesOk(EmptySteps(t, i, path), owners)
    ensures forall k :: IsFile(EmptySteps(t, i, path), k) ==>
              IsFile(t, k) && EmptySteps(t, i, path)[k].blob == t[k].blob
  {
    hide Unique, Closed, Labelled, Rooted, OwnersOk, FilesOk, Carries, KeyPrefix, Same, Removed, EmptySteps, SameFiles;
    var j := DeletePrefix(KeyPrefix(t[i].owner, t[i].path));
    var rest, t' := Removed(t, t[i].ns, t[i].path, false, t[i].size), EmptySteps(t, i, path);
    SameLengths(t[i].path, path);
    EmptyRemovesBelow(t, i, path);
    SizesKeepFiles(rest, t');
    RemovedFilesOk(t, owners, t[i].ns, t[i].path, false, t[i].size);
    SameFilesOk(rest, t', owners);
    FilesOfSame(rest, t');
    CarriesRemoval(t, owners, i, false, t[i].size);
    CarriesToSameFiles(j, t, rest, t');
  }

  lemma EmptyStep(w: World, hist: seq<Table>, k: nat, ns: string, path: Path, f: Stored, w': World)
    requires Lagged(w, hist, k) && Allowed(w, EmptyFolder(ns, path)) && Emptied(w, ns, path, f, w')
    ensures Lagged(w', if f.row.size == 0 then hist else hist + [w'.rows], k)
  {
    hide Tree, OwnersOk, Tracks, Chain, FilesOk, SameFiles, Carries, KeyPrefix, Same, EmptySteps;
    assert Step(w, EmptyFolder(ns, path), w');
    StepKeepsTreeIff(w, EmptyFolder(ns, path), w');
    if f.row.size == 0 {
      NothingEmptied(w.rows, f.id, path);
      SameFilesReflexive(w.rows);
      QuietStep(w, hist, k, w');
    } else {
      CarriesEmptying(w.rows, w.owners, f.id, path);
      QueuedStep(w, hist, k, DeletePrefix(KeyPrefix(f.row.owner, f.row.path)), w');
    }
  }

  lemma NothingEmptied(t: Table, i: nat, path: Path)
    requires i in t && t[i].size == 0
    ensures EmptySteps(t, i, path) == t
  {
  }

  // ----- Moving

  lemma RelocatedFiles(t: Table, i: nat, ns: string, owner: string, to: Path, size: int)
    requires i in t
    ensures var t' := Relocated(t, t[i].ns, t[i].path, ns, owner, to, size);
            && (forall k :: IsFile(t', k) <==> IsFile(t, k))
            && (forall k :: IsFile(t, k) ==> t'[k].blob == t[k].blob)
            && (forall k :: IsFile(t, k) && !InSubtree(t[k], t[i].ns, t[i].path) ==>
                t'[k].owner == t[k].owner && t'[k].path == t[k].path)
            && (forall k :: IsFile(t, k) && InSubtree(t[k], t[i].ns, t[i].path) ==>
                  t'[k].owner == owner && t'[k].path == to + t[k].path[|t[i].path|..])
  {
  }

  lemma RelocatedFilesOk(t: Table, owners: Owners, i: nat, ns: string, to: Path, size: int)
    requires FilesOk(t, owners) && i in t && ns in owners && Clean(owners[ns], to)
    requires forall j :: j in t && InSubtree(t[j], t[i].ns, t[i].path) ==> Clean(owners[ns], t[j].path[|t[i].path|..])
    ensures FilesOk(Relocated(t, t[i].ns, t[i].path, ns, owners[ns], to, size), owners)
  {
    hide Clean, Relocated;
    RelocatedFiles(t, i, ns, owners[ns], to, size);
    var t' := Relocated(t, t[i].ns, t[i].path, ns, owners[ns], to, size);
    forall k | IsFile(t', k) ensures Clean(t'[k].owner, t'[k].path) {
      if InSubtree(t[k], t[i].ns, t[i].path) {
        CleanConcat(owners[ns], to, t[k].path[|t[i].path|..]);
      }
    }
    forall j, k | IsFile(t', j) && IsFile(t', k) && t'[j].blob == t'[k].blob ensures j == k {
      assert t[j].blob == t[k].blob;
    }
  }

  // The destination as stored contains the owner's id in no component.
  lemma CleanDestination(w: World, atNs: string, at: Path, toNs: string, to: Path, i: nat, next: Path)
    requires GoodWorld(w) && Allowed(w, MoveItem(atNs, at, toNs, to)) && toNs in w.owners
             && Restored(w.rows, toNs, to, next)
    ensures Clean(w.owners[toNs], next)
  {
    hide Tree, Contains, OwnersOk, MoveAllowed;
    var k :| k in w.rows && w.rows[k].ns == toNs && w.rows[k].path == Parent(next) && w.rows[k].IsFolder();
    assert At(w.rows[k], toNs, Parent(to)) by { SameParents(next, to); }
    SameLengths(next, to);
    assert next == Parent(next) + [next[|next| - 1]];
    CleanPart(w.owners[toNs], to, |to| - 1);
    assert to[|to| - 1..] == [next[|next| - 1]];
    CleanConcat(w.owners[toNs], Parent(next), [next[|next| - 1]]);
  }

  lemma MoveStep(w: World, hist: seq<Table>, k: nat, atNs: string, at: Path, toNs: string, to: Path, i: nat,
                 next: Path, w': World)
    requires Lagged(w, hist, k) && Allowed(w, MoveItem(atNs, at, toNs, to)) && (atNs == toNs || at != [])
    requires Moved(w, atNs, at, toNs, to, i, next, w')
    ensures Lagged(w', if |w'.jobs| > |w.jobs| then hist + [w'.rows] else hist, k)
  {
    hide Unique, Closed, Labelled, Rooted, OwnersOk, Tracks, Chain, FilesOk, SameFiles, Relocated, Clean;
    hide Carries, KeyPrefix, StorageKey, Same, CanMove, MoveError, Taken;
    assert Step(w, MoveItem(atNs, at, toNs, to), w');
    StepKeepsTreeIff(w, MoveItem(atNs, at, toNs, to), w');
    MovedCanMove(w, atNs, at, toNs, to, i, next, w');
    CleanDestination(w, atNs, at, toNs, to, i, next);
    assert MoveAllowed(w, i, toNs, to);
    RelocatedFilesOk(w.rows, w.owners, i, toNs, next, w.rows[i].size);
    RelocatedFiles(w.rows, i, toNs, w.owners[toNs], next, w.rows[i].size);
    if w.rows[i].IsFolder() {
      OntoItselfIfEmpty(w, i, toNs, to, next);
      CarriesFolderMove(w.rows, w.owners, i, toNs, next, w.rows[i].size);
      QueuedStep(w, hist, k, MovePrefix(KeyPrefix(w.rows[i].owner, w.rows[i].path), KeyPrefix(w.owners[toNs], next)),
                 w');
    } else {
      DrainedTracks(w, hist, k);
      TrackedFile(w.store, w.rows, w.contents, i);
      if KeyOf(w.rows[i]) == StorageKey(w.owners[toNs], next) {
        SamePlaceMove(w.rows, w.owners, i, toNs, next, w.rows[i].size);
        QuietStep(w, hist, k, w');
      } else {
        CarriesFileMove(w.rows, w.owners, i, toNs, next, w.rows[i].size);
        QueuedStep(w, hist, k, Move(w.rows[i].blob.value, KeyOf(w.rows[i]), StorageKey(w.owners[toNs], next)), w');
      }
    }
  }

  lemma OntoItselfIfEmpty(w: World, i: nat, toNs: string, to: Path, next: Path)
    requires i in w.rows && MoveAllowed(w, i, toNs, to) && w.rows[i].IsFolder() && Restored(w.rows, toNs, to, next)
    ensures toNs == w.rows[i].ns && next == w.rows[i].path ==> NoFileBelow(w.rows, w.rows[i].ns, w.rows[i].path)
  {
  }

  lemma SamePlaceMove(t: Table, owners: Owners, i: nat, ns: string, to: Path, size: int)
    requires Tree(t, owners) && OwnersOk(owners) && IsFile(t, i) && ns in owners
             && KeyOf(t[i]) == StorageKey(owners[ns], to)
    ensures SameFiles(t, Relocated(t, t[i].ns, t[i].path, ns, owners[ns], to, size))
  {
    hide Tree, OwnersOk, StorageKey;
    OwnerIs(t, owners, i);
    OwnersAre(owners, ns);
    KeyInjective(t[i].owner, t[i].path, owners[ns], to);
    FileRelocated(t, owners, i, ns, to, size);
    assert to + t[i].path[|t[i].path|..] == t[i].path;
  }

  /** One step: after it, table and storage are again the tree as it stood after the operations whose jobs have run. */
  lemma StepKeepsLagged(w: World, hist: seq<Table>, k: nat, ev: Event, w': World)
    requires Lagged(w, hist, k) && Allowed(w, ev) && Step(w, ev, w')
    ensures Lagged(w', HistoryAfter(hist, w, ev, w'), DoneAfter(k, ev))
  {
    hide Lagged, Allowed, Uploaded, Moved, Deleted, Emptied, FolderCreated;
    match ev
    case CreateNamespace(ns, owner) => NamespaceStep(w, hist, k, ns, owner, w');
    case CreateFolder(ns, path) => FolderStep(w, hist, k, ns, path, w');
    case Upload(ns, path, content, count) => UploadStep(w, hist, k, ns, path, content, count, w');
    case MoveItem(atNs, at, toNs, to) =>
      var i, next :| Moved(w, atNs, at, toNs, to, i, next, w');
      MoveStep(w, hist, k, atNs, at, toNs, to, i, next, w');
    case DeleteItem(ns, path) =>
      var f :| Deleted(w, ns, path, f, w');
      DeleteStep(w, hist, k, ns, path, f, w');
    case EmptyFolder(ns, path) =>
      var f :| Emptied(w, ns, path, f, w');
      EmptyStep(w, hist, k, ns, path, f, w');
      EmptiedJobs(w, ns, path, f, w');
    case Work => WorkStep(w, hist, k, w');
  }

  lemma EmptiedJobs(w: World, ns: string, path: Path, f: Stored, w': World)
    requires Emptied(w, ns, path, f, w')
    ensures |w'.jobs| > |w.jobs| <==> f.row.size != 0
  {
  }

  // The trees after each queued operation of a run, and how many jobs have run, at its n-th world.
  function Histories(ws: seq<World>, evs: seq<Event>, n: nat): (seq<Table>, nat)
    requires |ws| == |evs| + 1 && n < |ws|
    ensures Histories(ws, evs, n).0 != []
  {
    if n == 0 then ([map[]], 0)
    else
      var (hist, k) := Histories(ws, evs, n - 1);
      (HistoryAfter(hist, ws[n - 1], evs[n - 1], ws[n]), DoneAfter(k, evs[n - 1]))
  }

  /** Lagged refinement over whole runs: after k jobs the blob table and the storage are exactly the path-derived
      keys, with the uploaded contents, of the tree as it stood after the k-th queued operation. */
  lemma {:induction false} LaggedRefinement(ws: seq<World>, evs: seq<Event>, n: nat)
    requires Run(ws, evs) && n < |ws|
    ensures var (hist, k) := Histories(ws, evs, n);
            Lagged(ws[n], hist, k) && k < |hist| && Tracks(ws[n].store, hist[k], ws[n].contents)
  {
    hide Step, Allowed, GoodWorld, Tracks;
    if n == 0 {
      EmptyIsLagged();
    } else {
      LaggedRefinement(ws, evs, n - 1);
      assert Step(ws[n - 1], evs[n - 1], ws[n - 1 + 1]);
      var (hist, k) := Histories(ws, evs, n - 1);
      StepKeepsLagged(ws[n - 1], hist, k, evs[n - 1], ws[n]);
    }
  }

  lemma EmptyIsLagged()
    ensures Lagged(EMPTY, [map[]], 0)
  {
  }

  /** A drained queue: every file's blob is recorded under owner/files/path and its content is stored there. */
  lemma DrainedRun(ws: seq<World>, evs: seq<Event>, n: nat, i: nat)
    requires Run(ws, evs) && n < |ws| && ws[n].jobs == [] && IsFile(ws[n].rows, i)
    ensures var w := ws[n];
            var r := w.rows[i];
            var key := StorageKey(r.owner, r.path);
            && r.ns in w.owners && r.owner == w.owners[r.ns] && r.blob.value in w.store.blobs
              && w.store.blobs[r.blob.value] == key
            && key in w.store.storage && r.blob.value in w.contents && w.store.storage[key] == w.contents[r.blob.value]
  {
    hide Tracks, StorageKey;
    LaggedRefinement(ws, evs, n);
    var (hist, k) := Histories(ws, evs, n);
    DrainedTracks(ws[n], hist, k);
    TrackedFile(ws[n].store, ws[n].rows, ws[n].contents, i);
  }
}
