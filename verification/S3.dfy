/** The S3 client's bulk operations: deletes in batches, directory moves and multipart uploads. */
module S3 {
  import opened BlobStore
  import opened Effects

  const BATCH: nat := 1000
  const FIVE_MB: nat := 5 * 1024 * 1024
  const MAX_PARTS: nat := 10_000

  // ----- Batches

  function Batches(files: seq<string>): seq<seq<string>> {
    if files == [] then []
    else if |files| <= BATCH then [files]
    else [files[..BATCH]] + Batches(files[BATCH..])
  }

  function Flatten<T>(parts: seq<seq<T>>): seq<T> {
    if parts == [] then [] else parts[0] + Flatten(parts[1..])
  }

  /** Every listed key is in exactly one request, in order, and no request is empty or over the limit. */
  lemma {:induction false} BatchesCover(files: seq<string>)
    ensures Flatten(Batches(files)) == files
    ensures forall b :: b in Batches(files) ==> 0 < |b| <= 1000
    ensures forall i :: 0 <= i < |Batches(files)| - 1 ==> |Batches(files)[i]| == 1000
  {
    if |files| > BATCH {
      BatchesCover(files[BATCH..]);
      assert Batches(files)[1..] == Batches(files[BATCH..]);
    } else if files != [] {
      assert Flatten([files]) == files + Flatten([files][1..]);
    }
  }

  lemma {:induction false} BatchesSnoc(files: seq<string>, last: seq<string>)
    requires |files| % BATCH == 0 && 0 < |last| <= BATCH
    ensures Batches(files + last) == Batches(files) + [last]
  {
    if files == [] {
      assert files + last == last;
    } else if |files| == BATCH {
      assert (files + last)[..BATCH] == files && (files + last)[BATCH..] == last;
    } else {
      assert (files + last)[..BATCH] == files[..BATCH] && (files + last)[BATCH..] == files[BATCH..] + last;
      BatchesSnoc(files[BATCH..], last);
    }
  }

  function Without(s: Storage, files: seq<string>): Storage {
    map k | k in s && k !in files :: s[k]
  }

  class S3Client {
    var objects: Storage
    ghost var requests: seq<seq<string>>  // the bulk delete requests sent so far

    constructor ()
      ensures objects == map[] && requests == []
    {
      objects, requests := map[], [];
    }

    method Delete1000Files(files: seq<string>)
      requires |files| <= BATCH
      modifies this
      ensures objects == Without(old(objects), files) && requests == old(requests) + [files]
    {
      objects, requests := Without(objects, files), requests + [files];
    }

    // delete: slices of 1000.
    method Delete(files: seq<string>)
      modifies this
      ensures objects == Without(old(objects), files)
      ensures requests == old(requests) + Batches(files)
    {
      var i := 0;
      while i < |files|
        invariant 0 <= i && (i <= |files| ==> i % BATCH == 0)
        invariant objects == Without(old(objects), files[..if i <= |files| then i else |files|])
        invariant requests == old(requests) + Batches(files[..if i <= |files| then i else |files|])
      {
        var end := if i + BATCH <= |files| then i + BATCH else |files|;
        BatchesSnoc(files[..i], files[i..end]);
        assert files[..i] + files[i..end] == files[..end];
        Delete1000Files(files[i..end]);
        i := i + BATCH;
      }
      assert files[..|files|] == files;
    }

    // The listing of a prefix, in some order, each key once.
    method ListObjects(prefix: string) returns (keys: seq<string>)
      ensures Listing(keys, objects, prefix)
    {
      var todo := set k | k in objects && prefix <= k;
      ghost var all := todo;
      keys := [];
      while todo != {}
        invariant todo <= all
        invariant forall k :: k in keys <==> k in all - todo
        invariant forall i :: 0 <= i < |keys| ==> keys[i] !in todo
        invariant forall i, j :: 0 <= i < j < |keys| ==> keys[i] != keys[j]
        decreases |todo|
      {
        var k :| k in todo;
        keys := keys + [k];
        todo := todo - {k};
      }
    }

    // delete_recursive: keys are collected from the listing and flushed at 1000.
    method DeleteRecursive(prefix: string)
      modifies this
      ensures objects == DropPrefix(old(objects), prefix)
      ensures exists order :: Listing(order, old(objects), prefix) && requests == old(requests) + Batches(order)
    {
      hide Batches, Listing;
      var listed := ListObjects(prefix);
      var files := [];
      ghost var sent := [];
      EmptyBatch();
      for n := 0 to |listed|
        invariant sent + files == listed[..n] && |files| < BATCH && |sent| % BATCH == 0
        invariant objects == Without(old(objects), sent) && requests == old(requests) + Batches(sent)
      {
        files := files + [listed[n]];
        if |files| == BATCH {
          BatchesSnoc(sent, files);
          Delete1000Files(files);
          sent, files := sent + files, [];
        }
      }
      assert listed[..|listed|] == listed;
      if files != [] {
        BatchesSnoc(sent, files);
        Delete1000Files(files);
      }
      DropListed(old(objects), listed, prefix);
    }

    method CopyObject(from: string, to: string)
      modifies this`objects
      ensures objects == Do(Copy(from, to), old(objects))
    {
      if from in objects { objects := objects[to := objects[from]]; }
    }

    // S3Storage.movedir: copy every listed key, then delete every listed key.
    method MoveDir(at: string, to: string)
      modifies this
      ensures exists order ::
                Listing(order, old(objects), at) && objects == Play(EffectsOf(MovePrefix(at, to), order), old(objects))
      ensures Disjoint(old(objects), at, to) ==> objects == Rename(old(objects), at, to)
    {
      hide Play, Rename, Swap, Listing, Disjoint;
      var listed := ListObjects(at);
      var keysToDelete := [];
      PlayNothing(Copies(listed, at, to), objects);
      for n := 0 to |listed|
        invariant keysToDelete == listed[..n] && objects == Play(Copies(listed, at, to)[..n], old(objects))
      {
        PlaySnoc(Copies(listed, at, to), n, old(objects));
        keysToDelete := keysToDelete + [listed[n]];
        CopyObject(listed[n], Swap(at, to, listed[n]));
      }
      assert Copies(listed, at, to)[..|listed|] == Copies(listed, at, to);
      Delete(keysToDelete);
      PlayAll(listed, old(objects), at, to);
      MoveDirIsRename(old(objects), listed, at, to);
    }

    // S3Storage.move: copy, then delete the source; a missing source is reported.
    method Move(at: string, to: string) returns (found: bool)
      modifies this
      ensures found == (at in old(objects))
      ensures objects == if found then old(objects)[to := old(objects)[at]] - {at} else old(objects)
    {
      found := at in objects;
      if found {
        CopyObject(at, to);
        Delete([at]);
      }
    }

    method Save(key: string, content: Bytes)
      modifies this`objects
      ensures objects == old(objects)[key := content]
    {
      objects := objects[key := content];
    }
  }

  lemma EmptyBatch()
    ensures Batches([]) == []
  {
  }

  lemma DropListed(s: Storage, listed: seq<string>, prefix: string)
    requires Listing(listed, s, prefix)
    ensures Without(s, listed) == DropPrefix(s, prefix)
  {
  }

  lemma PlayNothing(es: seq<Effect>, s: Storage)
    ensures Play(es[..0], s) == s
  {
  }

  // ----- Multipart upload

  function ChunkSize(size: nat): nat {
    var c := size / (FIVE_MB * MAX_PARTS);
    if FIVE_MB >= c then FIVE_MB else c
  }

  // What reading `c` bytes at a time yields, up to and including the first short read.
  function Chunks(content: Bytes, c: nat): seq<Bytes>
    requires c > 0
    decreases |content|
  {
    if |content| < c then [content] else [content[..c]] + Chunks(content[c..], c)
  }

  // `rest` is what the stream has left to read.
  method ReadChunks(content: Bytes, c: nat) returns (chunks: seq<Bytes>)
    requires c > 0
    ensures chunks == Chunks(content, c)
  {
    chunks := [];
    var rest := content;
    var hasContent := true;
    while hasContent
      invariant Chunks(content, c) == if hasContent then chunks + Chunks(rest, c) else chunks
      decreases hasContent, |rest|
    {
      var n := if |rest| < c then |rest| else c;
      var chunk := rest[..n];
      hasContent := |chunk| == c;
      FirstChunk(chunks, rest, c);
      chunks := chunks + [chunk];
      rest := rest[n..];
    }
  }

  lemma FirstChunk(chunks: seq<Bytes>, rest: Bytes, c: nat)
    requires c > 0
    ensures |rest| >= c ==> chunks + Chunks(rest, c) == (chunks + [rest[..c]]) + Chunks(rest[c..], c)
    ensures |rest| < c ==> chunks + Chunks(rest, c) == chunks + [rest[..|rest|]]
  {
    assert |rest| < c ==> rest[..|rest|] == rest;
  }

  lemma MultiplyMonotone(a: nat, b: nat, c: nat)
    requires a <= b
    ensures c * a <= c * b
  {
    assert c * b == c * a + c * (b - a);
  }

  lemma QuotientStep(x: nat, c: nat)
    requires 0 < c <= x
    ensures (x - c) / c + 1 == x / c
  {
    var q: nat, p: nat := x / c, (x - c) / c;
    var r: nat := p + 2;
    assert c * q <= x < c * q + c;
    assert c * p <= x - c < c * p + c;
    assert c * r == c * p + 2 * c;
    if p + 1 < q { MultiplyMonotone(r, q, c); }
    if p + 1 > q { MultiplyMonotone(q, p, c); }
  }

  lemma {:induction false} ChunkCount(content: Bytes, c: nat)
    requires c > 0
    ensures |Chunks(content, c)| == |content| / c + 1
    decreases |content|
  {
    if |content| >= c {
      ChunkCount(content[c..], c);
      QuotientStep(|content|, c);
    }
  }

  lemma {:induction false} ChunkSizes(content: Bytes, c: nat, i: nat)
    requires c > 0 && i < |Chunks(content, c)|
    ensures if i < |Chunks(content, c)| - 1 then |Chunks(content, c)[i]| == c else |Chunks(content, c)[i]| < c
    decreases |content|
  {
    if |content| >= c && i > 0 { ChunkSizes(content[c..], c, i - 1); }
  }

  lemma {:induction false} ChunksFlatten(content: Bytes, c: nat)
    requires c > 0
    ensures Flatten(Chunks(content, c)) == content
    decreases |content|
  {
    if |content| < c {
      assert Flatten([content]) == content + Flatten([content][1..]);
    } else {
      ChunksFlatten(content[c..], c);
      assert Chunks(content, c)[1..] == Chunks(content[c..], c);
    }
  }

  /** The chunks concatenate to the content; all but the last are full, the last is short, and there are
      size / c + 1 of them. */
  lemma ChunksPartition(content: Bytes, c: nat)
    requires c > 0
    ensures Flatten(Chunks(content, c)) == content
    ensures |Chunks(content, c)| == |content| / c + 1
    ensures forall i :: 0 <= i < |Chunks(content, c)| - 1 ==> |Chunks(content, c)[i]| == c
    ensures |Chunks(content, c)[|Chunks(content, c)| - 1]| < c
  {
    hide Chunks;
    ChunksFlatten(content, c);
    ChunkCount(content, c);
    forall i | 0 <= i < |Chunks(content, c)| - 1 ensures |Chunks(content, c)[i]| == c {
      ChunkSizes(content, c, i);
    }
    ChunkSizes(content, c, |Chunks(content, c)| - 1);
  }

  /** The service's limit of 10,000 parts is respected exactly for contents below 10,000 x 5 MiB. */
  lemma PartLimit(size: nat)
    ensures ChunkSize(size) >= 5 * 1024 * 1024
    ensures size / ChunkSize(size) + 1 <= 10_000 <==> size < 10_000 * (5 * 1024 * 1024)
  {
    var c := ChunkSize(size);
    if c > FIVE_MB {
      QuotientBound(size, c, FIVE_MB * MAX_PARTS);
    }
  }

  lemma QuotientBound(x: nat, c: nat, d: nat)
    requires d > 0 && c > 0 && c == x / d
    ensures x / c >= d
  {
    var q := x / c;
    assert d * c <= x < c * q + c;
    assert c * (q + 1) == c * q + c;
    if q < d { MultiplyMonotone(q + 1, d, c); }
  }

  // The parts recorded as uploads finish: part number to content.
  type Parts = map<nat, Bytes>

  predicate InRange(order: seq<nat>, n: nat) {
    forall i :: 0 <= i < |order| ==> order[i] < n
  }

  // Part n + 1 is chunk n; `order` lists the chunks in the order their uploads finish.
  function Finish(parts: Parts, chunks: seq<Bytes>, order: seq<nat>): Parts
    requires InRange(order, |chunks|)
    decreases |order|
  {
    if order == [] then parts else Finish(parts[order[0] + 1 := chunks[order[0]]], chunks, order[1..])
  }

  lemma {:induction false} FinishedPart(parts: Parts, chunks: seq<Bytes>, order: seq<nat>, k: nat)
    requires InRange(order, |chunks|)
    ensures k in Finish(parts, chunks, order) <==> k in parts || (k > 0 && k - 1 in order)
    ensures k > 0 && k - 1 in order ==> Finish(parts, chunks, order)[k] == chunks[k - 1]
    ensures k in parts && !(k > 0 && k - 1 in order) ==> Finish(parts, chunks, order)[k] == parts[k]
    decreases |order|
  {
    if order != [] {
      var n := order[0];
      assert order == [n] + order[1..];
      FinishedPart(parts[n + 1 := chunks[n]], chunks, order[1..], k);
    }
  }

  // sorted(parts.items()), as the contents in ascending part number, starting above k.
  ghost predicate AscendingParts(parts: Parts, s: seq<(nat, Bytes)>) {
    && (forall i, j :: 0 <= i < j < |s| ==> s[i].0 < s[j].0)
    && (forall i :: 0 <= i < |s| ==> s[i].0 in parts && parts[s[i].0] == s[i].1)
    && (forall k :: k in parts ==> (k, parts[k]) in s)
  }

  ghost predicate NumberedFromOne(parts: Parts, chunks: seq<Bytes>) {
    && (forall k :: k in parts ==> 0 < k <= |chunks|)
    && (forall k :: 0 < k <= |chunks| ==> k in parts && parts[k] == chunks[k - 1])
  }

  lemma {:induction false} AscendingFrom(parts: Parts, chunks: seq<Bytes>, s: seq<(nat, Bytes)>, n: nat)
    requires AscendingParts(parts, s) && NumberedFromOne(parts, chunks) && n < |chunks|
    ensures n < |s| && s[n] == (n + 1, chunks[n])
  {
    assert n + 1 in parts;
    var i :| 0 <= i < |s| && s[i] == (n + 1, parts[n + 1]);
    if n > 0 { AscendingFrom(parts, chunks, s, n - 1); }
    assert i >= n;
    assert s[n].0 in parts;
    assert n > 0 ==> s[n - 1].0 < s[n].0;
    assert i == n;
  }

  lemma PartNumber(parts: Parts, s: seq<(nat, Bytes)>, n: nat)
    requires AscendingParts(parts, s) && n < |s|
    ensures s[n].0 in parts && (n > 0 ==> s[n - 1].0 < s[n].0)
  {
  }

  lemma AscendingAll(parts: Parts, chunks: seq<Bytes>, s: seq<(nat, Bytes)>)
    requires AscendingParts(parts, s) && NumberedFromOne(parts, chunks)
    ensures |s| == |chunks| && forall i :: 0 <= i < |s| ==> s[i] == (i + 1, chunks[i])
  {
    forall i | 0 <= i < |chunks| ensures i < |s| && s[i] == (i + 1, chunks[i]) {
      AscendingFrom(parts, chunks, s, i);
    }
    if |chunks| > 0 { AscendingFrom(parts, chunks, s, |chunks| - 1); }
    if |s| > |chunks| { PartNumber(parts, s, |chunks|); }
  }

  function Contents(s: seq<(nat, Bytes)>): seq<Bytes> {
    seq(|s|, i requires 0 <= i < |s| => s[i].1)
  }

  function TotalSize(s: seq<(nat, Bytes)>): nat {
    if s == [] then 0 else |s[0].1| + TotalSize(s[1..])
  }

  lemma {:induction false} SizeOfContents(s: seq<(nat, Bytes)>)
    ensures TotalSize(s) == |Flatten(Contents(s))|
  {
    if s != [] {
      SizeOfContents(s[1..]);
      assert Contents(s)[1..] == Contents(s[1..]);
    }
  }

  /** Whatever order the parts finish in, completing the upload sees the parts 1..n in order, their
      concatenation is the content and their sizes add up to its size. */
  lemma UploadReassembles(content: Bytes, order: seq<nat>, s: seq<(nat, Bytes)>)
    requires |content| >= FIVE_MB
    requires InRange(order, |Chunks(content, ChunkSize(|content|))|)
    requires forall n :: 0 <= n < |Chunks(content, ChunkSize(|content|))| ==> n in order
    requires AscendingParts(Finish(map[], Chunks(content, ChunkSize(|content|)), order), s)
    ensures |s| == |content| / ChunkSize(|content|) + 1
    ensures forall i :: 0 <= i < |s| ==> s[i].0 == i + 1
    ensures Flatten(Contents(s)) == content && TotalSize(s) == |content|
  {
    hide AscendingParts, ChunkSize, Chunks;
    var c := ChunkSize(|content|);
    PartLimit(|content|);
    var chunks := Chunks(content, c);
    AllPartsFinished(chunks, order);
    AscendingAll(Finish(map[], chunks, order), chunks, s);
    ChunksPartition(content, c);
    SizeOfContents(s);
    assert Contents(s) == chunks;
  }

  lemma AllPartsFinished(chunks: seq<Bytes>, order: seq<nat>)
    requires InRange(order, |chunks|) && forall n :: 0 <= n < |chunks| ==> n in order
    ensures NumberedFromOne(Finish(map[], chunks, order), chunks)
  {
    var parts := Finish(map[], chunks, order);
    forall k | k in parts ensures 0 < k <= |chunks| {
      FinishedPart(map[], chunks, order, k);
    }
    forall k | 0 < k <= |chunks| ensures k in parts && parts[k] == chunks[k - 1] {
      FinishedPart(map[], chunks, order, k);
    }
  }

  lemma {:induction false} MinExists(s: set<nat>) returns (k: nat)
    requires s != {}
    ensures k in s && forall j :: j in s ==> k <= j
    decreases |s|
  {
    k :| k in s;
    if s != {k} {
      assert s == {k} + (s - {k});
      var m := MinExists(s - {k});
      k := if m <= k then m else k;
    }
  }

  class MultipartUpload {
    var parts: Parts

    constructor ()
      ensures parts == map[]
    {
      parts := map[];
    }

    // upload_part, at the moment its request finishes.
    method UploadPart(partNumber: nat, content: Bytes)
      modifies this
      ensures parts == old(parts)[partNumber := content]
    {
      parts := parts[partNumber := content];
    }

    // complete: the recorded parts in ascending order and the sum of their sizes.
    method Complete() returns (s: seq<(nat, Bytes)>, size: nat)
      ensures AscendingParts(parts, s) && size == TotalSize(s)
    {
      hide AscendingParts;
      s, size := [], 0;
      var todo := parts.Keys;
      NoneTaken(parts);
      while todo != {}
        invariant todo <= parts.Keys && (forall k :: k in parts && k !in todo <==> k in Recorded(parts, todo))
        invariant AscendingParts(Recorded(parts, todo), s) && AllBefore(Recorded(parts, todo).Keys, todo)
        invariant size == TotalSize(s)
        decreases |todo|
      {
        ghost var least := MinExists(todo);
        var k :| k in todo && forall j :: j in todo ==> k <= j;
        TotalSizeSnoc(s, (k, parts[k]));
        TakeNext(parts, todo, s, k);
        s, size := s + [(k, parts[k])], size + |parts[k]|;
        todo := todo - {k};
      }
      assert Recorded(parts, {}) == parts;
    }
  }

  // The parts that are no longer to do.
  ghost function Recorded(parts: Parts, todo: set<nat>): Parts {
    map k | k in parts && k !in todo :: parts[k]
  }

  ghost predicate AllBefore(a: set<nat>, b: set<nat>) {
    forall i, k :: i in a && k in b ==> i < k
  }

  lemma NoneTaken(parts: Parts)
    ensures AscendingParts(Recorded(parts, parts.Keys), []) && AllBefore(Recorded(parts, parts.Keys).Keys, parts.Keys)
  {
  }

  lemma TakeNext(parts: Parts, todo: set<nat>, s: seq<(nat, Bytes)>, k: nat)
    requires todo <= parts.Keys && AscendingParts(Recorded(parts, todo), s)
             && AllBefore(Recorded(parts, todo).Keys, todo)
    requires k in todo && forall j :: j in todo ==> k <= j
    ensures var t := todo - {k};
            AscendingParts(Recorded(parts, t), s + [(k, parts[k])]) && AllBefore(Recorded(parts, t).Keys, t)
  {
    var a, b := Recorded(parts, todo), Recorded(parts, todo - {k});
    assert b == a[k := parts[k]];
    forall j | j in b ensures (j, b[j]) in s + [(k, parts[k])] {
      if j == k { assert (s + [(k, parts[k])])[|s|] == (k, b[k]); } else { assert (j, a[j]) in s; }
    }
  }

  lemma {:induction false} TotalSizeSnoc(s: seq<(nat, Bytes)>, x: (nat, Bytes))
    ensures TotalSize(s + [x]) == TotalSize(s) + |x.1|
  {
    if s == [] {
      assert s + [x] == [x];
      assert TotalSize([x]) == |x.1| + TotalSize([x][1..]);
    } else {
      assert (s + [x])[1..] == s[1..] + [x];
      TotalSizeSnoc(s[1..], x);
    }
  }

  // upload_obj: one request below 5 MiB, else parts that finish in the given order.
  method UploadObj(content: Bytes, order: seq<nat>) returns (stored: Bytes, size: nat)
    requires |content| >= FIVE_MB ==> InRange(order, |content| / ChunkSize(|content|) + 1)
    requires |content| >= FIVE_MB ==> forall n :: 0 <= n < |content| / ChunkSize(|content|) + 1 ==> n in order
    ensures stored == content && size == |content|
  {
    if |content| < FIVE_MB { return content, |content|; }
    hide ChunkSize, Chunks, AscendingParts;
    PartLimit(|content|);
    var chunks := ReadChunks(content, ChunkSize(|content|));
    ChunkCount(content, ChunkSize(|content|));
    var mpu := new MultipartUpload();
    ghost var goal := Finish(map[], chunks, order);
    for i := 0 to |order|
      invariant goal == Finish(mpu.parts, chunks, order[i..])
    {
      assert order[i..][1..] == order[i + 1..];
      mpu.UploadPart(order[i] + 1, chunks[order[i]]);
    }
    var s;
    s, size := mpu.Complete();
    UploadReassembles(content, order, s);
    stored := Flatten(Contents(s));
  }
}
