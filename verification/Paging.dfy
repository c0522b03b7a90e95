/** Loops over pages of a table, some of which shrink it as they go. */
module Paging {
  import opened Rows
  import opened Seqs

  function Min(a: nat, b: nat): nat {
    if a <= b then a else b
  }

  // A page of a listing.
  function Page(s: seq<nat>, offset: nat, limit: nat): seq<nat> {
    s[Min(offset, |s|)..Min(offset + limit, |s|)]
  }

  function Kept(x: nat, ids: seq<nat>): seq<nat> {
    if x in ids then [] else [x]
  }

  function Without(s: seq<nat>, ids: seq<nat>): seq<nat> {
    if s == [] then [] else Kept(s[0], ids) + Without(s[1..], ids)
  }

  function Concat(pages: seq<seq<nat>>): seq<nat> {
    if pages == [] then [] else Concat(pages[..|pages| - 1]) + pages[|pages| - 1]
  }

  class MediaItemService {
    var deleted: seq<nat>  // an owner's deleted items, in listing order

    method ListDeleted(offset: nat, limit: nat) returns (items: seq<nat>)
      ensures items == Page(deleted, offset, limit)
    {
      items := deleted[Min(offset, |deleted|)..Min(offset + limit, |deleted|)];
    }

    method DeletePermanently(ids: seq<nat>)
      modifies this
      ensures deleted == Without(old(deleted), ids)
    {
      deleted := Without(deleted, ids);
    }

    // Every page iter_deleted yields, over a table that does not change meanwhile.
    method IterDeleted(batchSize: nat) returns (pages: seq<seq<nat>>)
      requires batchSize > 0
      ensures Concat(pages) == deleted
      ensures forall k :: 0 <= k < |pages| ==> pages[k] != [] && |pages[k]| <= batchSize
      ensures forall k :: 0 <= k < |pages| - 1 ==> |pages[k]| == batchSize
    {
      var limit: int := batchSize;
      var offset := -limit;
      pages := [];
      while true
        invariant offset == (|pages| - 1) * limit && |pages| * limit < |deleted| + limit
        invariant Concat(pages) == deleted[..Min(|pages| * limit, |deleted|)]
        invariant forall k :: 0 <= k < |pages| ==> pages[k] == Page(deleted, k * limit, limit) && pages[k] != []
        decreases |deleted| - offset
      {
        offset := offset + limit;
        var items := ListDeleted(offset, limit);
        if items == [] {
          FullPages(deleted, limit, pages);
          return;
        }
        ghost var n := |pages|;
        pages := pages + [items];
        NextOffset(n, limit);
        assert pages[..n] + [pages[n]] == pages && pages[..|pages| - 1] == pages[..n];
        assert deleted[..offset] + items == deleted[..Min(offset + limit, |deleted|)];
      }
    }

    // purge: every page iter_deleted yields is deleted before the next one is asked for.
    method Purge(batchSize: nat)
      requires batchSize > 0 && Distinct(deleted)
      modifies this
      ensures deleted == Survivors(old(deleted), batchSize)
    {
      var limit: int := batchSize;
      var offset := -limit;
      ghost var goal := Purged(deleted, 0, limit);
      while true
        invariant -limit <= offset && Distinct(deleted) && Purged(deleted, offset + limit, limit) == goal
        decreases |deleted| - offset
      {
        offset := offset + limit;
        var items := ListDeleted(offset, limit);
        if items == [] {
          PurgeLeaves(old(deleted), 0, limit);
          assert old(deleted)[0..] == old(deleted);
          return;
        }
        WithoutPage(deleted, offset, Min(offset + limit, |deleted|));
        DeletePermanently(items);
      }
    }
  }

  lemma NextOffset(n: nat, limit: nat)
    ensures (n + 1) * limit == n * limit + limit
  {
  }

  // Only the last page can be short: a page that is followed by another one ends before the listing does.
  lemma FullPages(s: seq<nat>, limit: nat, pages: seq<seq<nat>>)
    requires limit > 0 && forall k :: 0 <= k < |pages| ==> pages[k] == Page(s, k * limit, limit) && pages[k] != []
    ensures forall k :: 0 <= k < |pages| ==> |pages[k]| <= limit
    ensures forall k :: 0 <= k < |pages| - 1 ==> |pages[k]| == limit
  {
    forall k | 0 <= k < |pages| - 1 ensures |pages[k]| == limit {
      NextOffset(k, limit);
      assert pages[k + 1] == Page(s, (k + 1) * limit, limit);
    }
  }

  lemma {:induction false} WithoutNone(s: seq<nat>, ids: seq<nat>)
    requires forall x :: x in s ==> x !in ids
    ensures Without(s, ids) == s
  {
    if s != [] { WithoutNone(s[1..], ids); }
  }

  // Deleting a page of distinct items cuts it out of the listing.
  lemma WithoutPage(s: seq<nat>, i: nat, j: nat)
    requires Distinct(s) && i <= j <= |s|
    ensures Without(s, s[i..j]) == s[..i] + s[j..]
    ensures Distinct(s[..i] + s[j..])
  {
    hide Distinct, Without;
    PageApart(s, i, j);
    WithoutAll(s[..i], s[i..j], s[j..]);
    assert s == s[..i] + (s[i..j] + s[j..]);
  }

  lemma PageApart(s: seq<nat>, i: nat, j: nat)
    requires Distinct(s) && i <= j <= |s|
    ensures forall x :: x in s[i..j] ==> x !in s[..i] && x !in s[j..]
    ensures Distinct(s[..i] + s[j..])
  {
    forall x | x in s[i..j] ensures x !in s[..i] && x !in s[j..] {
      var k :| i <= k < j && s[k] == x;
    }
    var t := s[..i] + s[j..];
    forall m, n | 0 <= m < n < |t| ensures t[m] != t[n] {
      assert t[m] == s[if m < i then m else m + (j - i)];
      assert t[n] == s[if n < i then n else n + (j - i)];
    }
  }

  lemma WithoutAll(a: seq<nat>, b: seq<nat>, c: seq<nat>)
    requires forall x :: x in b ==> x !in a && x !in c
    ensures Without(a + (b + c), b) == a + c
  {
    hide Without;
    WithoutConcat(a, b + c, b);
    WithoutConcat(b, c, b);
    WithoutNone(a, b);
    WithoutNone(c, b);
    WithoutSelf(b, b);
  }

  lemma {:induction false} WithoutSelf(s: seq<nat>, ids: seq<nat>)
    requires forall x :: x in s ==> x in ids
    ensures Without(s, ids) == []
  {
    if s != [] { WithoutSelf(s[1..], ids); }
  }

  lemma WithoutFirst(s: seq<nat>, ids: seq<nat>)
    requires s != []
    ensures Without(s, ids) == Kept(s[0], ids) + Without(s[1..], ids)
  {
  }

  lemma {:induction false} WithoutConcat(a: seq<nat>, b: seq<nat>, ids: seq<nat>)
    ensures Without(a + b, ids) == Without(a, ids) + Without(b, ids)
  {
    hide Kept, Without;
    if a == [] {
      WithoutNone(a, ids);
      assert a + b == b;
    } else {
      WithoutConcat(a[1..], b, ids);
      WithoutFirst(a, ids);
      WithoutFirst(a + b, ids);
      assert (a + b)[0] == a[0] && (a + b)[1..] == a[1..] + b;
    }
  }

  // ----- What a purge leaves

  // The loop of purge on the listing alone: the offset grows while the listing shrinks under it.
  function Purged(s: seq<nat>, offset: nat, b: nat): seq<nat>
    requires b > 0
    decreases |s| - offset
  {
    if offset >= |s| then s
    else Purged(s[..offset] + s[Min(offset + b, |s|)..], offset + b, b)
  }

  // Every second block of b items.
  function Survivors(s: seq<nat>, b: nat): seq<nat>
    requires b > 0
    decreases |s|
  {
    if |s| <= b then [] else s[b..Min(2 * b, |s|)] + Survivors(s[Min(2 * b, |s|)..], b)
  }

  lemma {:induction false} PurgeLeaves(s: seq<nat>, offset: nat, b: nat)
    requires b > 0 && offset <= |s|
    ensures Purged(s, offset, b) == s[..offset] + Survivors(s[offset..], b)
    decreases |s| - offset
  {
    if offset < |s| {
      var t := s[..offset] + s[Min(offset + b, |s|)..];
      if offset + 2 * b <= |s| {
        TwoBlocks(s, offset, b);
        PurgeLeaves(t, offset + b, b);
      } else {
        LastBlocks(s, offset, b);
      }
    }
  }

  // One page is cut out and the next one stays.
  lemma TwoBlocks(s: seq<nat>, offset: nat, b: nat)
    requires b > 0 && offset + 2 * b <= |s|
    ensures var t := s[..offset] + s[offset + b..];
            t[..offset + b] + Survivors(t[offset + b..], b) == s[..offset] + Survivors(s[offset..], b)
  {
    var t := s[..offset] + s[offset + b..];
    var u := s[offset..];
    assert t[..offset + b] == s[..offset] + u[b..2 * b];
    assert t[offset + b..] == u[2 * b..];
  }

  lemma LastBlocks(s: seq<nat>, offset: nat, b: nat)
    requires b > 0 && offset < |s| < offset + 2 * b
    ensures Purged(s, offset, b) == s[..offset] + Survivors(s[offset..], b)
  {
    var t := s[..offset] + s[Min(offset + b, |s|)..];
    var u := s[offset..];
    assert Purged(t, offset + b, b) == t;
    if |u| > b {
      assert u[|u|..] == [];
      assert t == s[..offset] + u[b..];
    }
  }

  lemma DivStep(n: nat, d: nat)
    requires 0 < d <= n
    ensures n / d == (n - d) / d + 1 && n % d == (n - d) % d
  {
    var q, r := (n - d) / d, (n - d) % d;
    assert n == d * (q + 1) + r;
    DivUnique(n, d, q + 1, r);
  }

  lemma DivUnique(n: nat, d: nat, q: int, r: int)
    requires 0 < d && n == d * q + r && 0 <= r < d
    ensures n / d == q && n % d == r
  {
    var e := n / d - q;
    assert d * e == r - n % d by {
      assert n == d * (n / d) + n % d;
      assert d * e == d * (n / d) - d * q;
    }
    if e >= 1 { MulAtLeast(d, e); }
    assert d * -e == -(d * e);
    if e <= -1 { MulAtLeast(d, -e); }
  }

  lemma MulAtLeast(d: nat, e: nat)
    requires e >= 1
    ensures d * e >= d
  {
    assert d * e == d * (e - 1) + d;
  }

  function Left(n: nat, b: nat): int
    requires b > 0
  {
    b * (n / (2 * b)) + if n % (2 * b) > b then n % (2 * b) - b else 0
  }

  lemma LeftStep(n: nat, b: nat)
    requires b > 0
    ensures n < 2 * b ==> Left(n, b) == if n > b then n - b else 0
    ensures n >= 2 * b ==> Left(n, b) == b + Left(n - 2 * b, b)
  {
    if n < 2 * b {
      DivUnique(n, 2 * b, 0, n);
    } else {
      DivStep(n, 2 * b);
      NextOffset((n - 2 * b) / (2 * b), b);
    }
  }

  /** A purge of n items in batches of b leaves exactly b * (n / 2b) + max(0, n % 2b - b) of them. */
  lemma {:induction false} SurvivorCount(s: seq<nat>, b: nat)
    requires b > 0
    ensures |Survivors(s, b)| == b * (|s| / (2 * b)) + if |s| % (2 * b) > b then |s| % (2 * b) - b else 0
    decreases |s|
  {
    CountIsLeft(s, b);
  }

  lemma {:induction false} CountIsLeft(s: seq<nat>, b: nat)
    requires b > 0
    ensures |Survivors(s, b)| == Left(|s|, b)
    decreases |s|
  {
    hide Left;
    LeftStep(|s|, b);
    if |s| >= 2 * b {
      CountIsLeft(s[2 * b..], b);
    } else if |s| > b {
      assert s[|s|..] == [];
    }
  }

  /** What is left are the items whose block, counted from zero, is odd. */
  lemma {:induction false} SurvivorsAreOddBlocks(s: seq<nat>, b: nat, x: nat)
    requires b > 0
    ensures x in Survivors(s, b) <==> InOddBlock(s, b, x)
    decreases |s|
  {
    hide OddBlock, InOddBlock;
    var d := Min(2 * b, |s|);
    if |s| <= b {
      OneBlock(s, b, x);
    } else {
      SurvivorsAreOddBlocks(s[d..], b, x);
      assert x in Survivors(s, b) <==> x in s[b..d] || x in Survivors(s[d..], b);
      SkipBlocks(s, b, d, x);
    }
  }

  ghost predicate InOddBlock(s: seq<nat>, b: nat, x: nat)
    requires b > 0
  {
    exists i :: 0 <= i < |s| && s[i] == x && OddBlock(i, b)
  }

  lemma OneBlock(s: seq<nat>, b: nat, x: nat)
    requires b > 0 && |s| <= b
    ensures !InOddBlock(s, b, x)
  {
    hide OddBlock;
    FirstBlocks(s, b);
  }

  lemma SkipBlocks(s: seq<nat>, b: nat, d: nat, x: nat)
    requires 0 < b < |s| && d == Min(2 * b, |s|)
    ensures InOddBlock(s, b, x) <==> x in s[b..d] || InOddBlock(s[d..], b, x)
  {
    hide OddBlock;
    FirstBlocks(s, b);
    if i :| 0 <= i < |s| && s[i] == x && OddBlock(i, b) {
      if i >= d {
        BlockShift(i - d, b);
        assert s[d..][i - d] == x;
      } else {
        assert s[b..d][i - b] == x;
      }
    }
    if i :| 0 <= i < |s[d..]| && s[d..][i] == x && OddBlock(i, b) {
      BlockShift(i, b);
      assert s[i + d] == x;
    }
    if x in s[b..d] {
      var i :| 0 <= i < d - b && s[b..d][i] == x;
      assert s[i + b] == x;
    }
  }

  predicate OddBlock(i: nat, b: nat)
    requires b > 0
  {
    (i / b) % 2 == 1
  }

  lemma FirstBlocks(s: seq<nat>, b: nat)
    requires b > 0
    ensures forall i :: 0 <= i < b ==> !OddBlock(i, b)
    ensures forall i :: b <= i < 2 * b ==> OddBlock(i, b)
  {
    forall i | 0 <= i < b ensures !OddBlock(i, b) { DivUnique(i, b, 0, i); }
    forall i | b <= i < 2 * b ensures OddBlock(i, b) { DivUnique(i, b, 1, i - b); }
  }

  lemma BlockShift(i: nat, b: nat)
    requires b > 0
    ensures OddBlock(i + 2 * b, b) <==> OddBlock(i, b)
  {
    DivStep(i + b, b);
    DivStep(i + 2 * b, b);
  }

  /** purge removes everything exactly when all deleted items fit in one batch. */
  lemma {:induction false} PurgeCompleteIff(s: seq<nat>, b: nat)
    requires b > 0
    ensures Survivors(s, b) == [] <==> |s| <= b
    ensures 2 * |Survivors(s, b)| <= |s|
    decreases |s|
  {
    if |s| > b { PurgeCompleteIff(s[Min(2 * b, |s|)..], b); }
  }

  // ----- The owner backfill

  datatype OwnedFile = OwnedFile(ns: string, owner: Option<string>)

  class FileModel {
    var files: map<nat, OwnedFile>
    var namespaces: map<string, string>  // each namespace's owner

    // Up to `limit` files without an owner, in no particular order.
    method ListOwnerless(limit: nat) returns (ids: set<nat>)
      ensures ids <= Ownerless(files) && |ids| == Min(limit, |Ownerless(files)|)
    {
      var todo := Ownerless(files);
      ids := {};
      while |ids| < limit && todo != {}
        invariant ids !! todo && ids + todo == Ownerless(files) && |ids| <= limit
        decreases |todo|
      {
        var i :| i in todo;
        ids, todo := ids + {i}, todo - {i};
      }
      SplitSize(ids, todo);
    }

    method BackfillFileOwner()
      requires forall i :: i in files ==> files[i].ns in namespaces
      modifies this`files
      ensures Ownerless(files) == {} && files.Keys == old(files).Keys
      ensures forall i :: i in files ==>
                && files[i].ns == old(files)[i].ns
                && files[i].owner == if old(files)[i].owner.Some? then old(files)[i].owner
                                     else Some(namespaces[files[i].ns])
    {
      hide Backfilled;
      BackfilledMeans(files, namespaces);
      while true
        invariant forall i :: i in files ==> files[i].ns in namespaces
        invariant Backfilled(files, namespaces) == Backfilled(old(files), namespaces)
        decreases |Ownerless(files)|
      {
        var batch := ListOwnerless(1000);
        if batch == {} {
          BackfillDone(files, namespaces);
          return;
        }
        BackfillStep(files, namespaces, batch);
        var updated := map i | i in batch :: files[i].(owner := Some(namespaces[files[i].ns]));
        files := files + updated;
      }
    }
  }

  lemma BackfilledMeans(files: map<nat, OwnedFile>, namespaces: map<string, string>)
    requires forall i :: i in files ==> files[i].ns in namespaces
    ensures var t := Backfilled(files, namespaces);
            && t.Keys == files.Keys
            && forall i :: i in files ==>
                 && t[i].ns == files[i].ns
                 && t[i].owner == if files[i].owner.Some? then files[i].owner else Some(namespaces[files[i].ns])
  {
  }

  lemma BackfillDone(files: map<nat, OwnedFile>, namespaces: map<string, string>)
    requires Ownerless(files) == {} && forall i :: i in files ==> files[i].ns in namespaces
    ensures Backfilled(files, namespaces) == files
  {
    forall i | i in files ensures files[i].owner.Some? { assert i !in Ownerless(files); }
  }

  lemma BackfillStep(files: map<nat, OwnedFile>, namespaces: map<string, string>, batch: set<nat>)
    requires (forall i :: i in files ==> files[i].ns in namespaces) && batch <= Ownerless(files) && batch != {}
    ensures var t := files + map i | i in batch :: files[i].(owner := Some(namespaces[files[i].ns]));
            && (forall i :: i in t ==> t[i].ns in namespaces)
            && Backfilled(t, namespaces) == Backfilled(files, namespaces)
            && |Ownerless(t)| < |Ownerless(files)|
  {
    var t := files + map i | i in batch :: files[i].(owner := Some(namespaces[files[i].ns]));
    assert Ownerless(files) == batch + Ownerless(t);
    SplitSize(batch, Ownerless(t));
  }

  function Ownerless(files: map<nat, OwnedFile>): set<nat> {
    set i | i in files && files[i].owner.None?
  }

  // Ownerless files get their namespace's owner; the others stay.
  function Backfilled(files: map<nat, OwnedFile>, namespaces: map<string, string>): map<nat, OwnedFile>
    requires forall i :: i in files ==> files[i].ns in namespaces
  {
    map i | i in files ::
      if files[i].owner.None? then files[i].(owner := Some(namespaces[files[i].ns])) else files[i]
  }

  lemma SplitSize(a: set<nat>, b: set<nat>)
    requires a !! b
    ensures |a + b| == |a| + |b|
  {
  }
}
