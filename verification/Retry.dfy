/** A job that stops after any storage effect, before its database transaction, and is run again. */
module Retry {
  import opened BlobStore
  import opened Effects

  // The blob side of the system: table and storage, and the stored jobs.
  datatype System = System(store: Store, jobs: map<nat, Payload>)

  function PrefixOf(j: Payload): string {
    match j
    case DeletePrefix(p) => p
    case MovePrefix(at, _) => at
    case _ => ""
  }

  predicate ListsKeys(j: Payload) {
    j.DeletePrefix? || j.MovePrefix?
  }

  // Stopping after n storage effects leaves the table and the job row as they were.
  function Stopped(sys: System, j: Payload, order: seq<string>, n: nat): System
    requires n <= |EffectsOf(j, order)|
  {
    sys.(store := sys.store.(storage := Play(EffectsOf(j, order)[..n], sys.store.storage)))
  }

  // Running to the end: all storage effects, then the transaction on the table and the job row.
  function Finished(sys: System, id: nat, j: Payload, order: seq<string>): System {
    System(Store(Apply(j, sys.store).blobs, Play(EffectsOf(j, order), sys.store.storage)), sys.jobs - {id})
  }

  // Neither prefix lies inside the other.
  predicate Apart(at: string, to: string) {
    !(at <= to) && !(to <= at)
  }

  predicate Movable(at: string, to: string) {
    at == to || Apart(at, to)
  }

  lemma ApartPrefixes(at: string, to: string, k: string)
    requires Apart(at, to)
    ensures !(at <= k && to <= k)
  {
    if at <= k && to <= k { PrefixesCompare(at, to, k); }
  }

  lemma PrefixesCompare(at: string, to: string, k: string)
    requires at <= k && to <= k
    ensures at <= to || to <= at
  {
    assert at == k[..|at|] && to == k[..|to|];
    if |at| <= |to| { assert at == to[..|at|]; } else { assert to == at[..|to|]; }
  }

  lemma ApartDisjoint(s: Storage, at: string, to: string)
    requires Apart(at, to)
    ensures Disjoint(s, at, to)
  {
    forall k | k in s && at <= k ensures !(at <= Swap(at, to, k)) {
      SwapBack(at, to, k);
      ApartPrefixes(at, to, Swap(at, to, k));
    }
  }

  // s1 is s with some sources copied and some copied sources gone.
  ghost predicate Partway(s1: Storage, s: Storage, at: string, to: string) {
    && (forall k :: k in s1 && at <= k ==> k in s && s1[k] == s[k])
    && (forall k :: k in s && at <= k && k !in s1 ==> Swap(at, to, k) in s1 && s1[Swap(at, to, k)] == s[k])
    && (forall k :: !(at <= k) && !(to <= k && at + k[|to|..] in s) ==>
        (k in s1 <==> k in s) && (k in s ==> s1[k] == s[k]))
  }

  lemma RenamedKey(s: Storage, at: string, to: string, k: string)
    requires Apart(at, to)
    ensures k in Rename(s, at, to) <==> !(at <= k) && (k in s || (to <= k && at + k[|to|..] in s))
    ensures k in Rename(s, at, to) ==>
              Rename(s, at, to)[k] == if to <= k && at + k[|to|..] in s then s[at + k[|to|..]] else s[k]
  {
    if to <= k {
      var x := at + k[|to|..];
      assert Swap(at, to, x) == to + k[|to|..] == k;
      ApartPrefixes(at, to, k);
    }
    if x :| x in s && at <= x && Swap(at, to, x) == k {
      SwapBack(at, to, x);
      ApartPrefixes(at, to, k);
    }
  }

  lemma PartwayRename(s1: Storage, s: Storage, at: string, to: string)
    requires Apart(at, to) && Partway(s1, s, at, to)
    ensures Rename(s1, at, to) == Rename(s, at, to)
  {
    hide Rename, Swap, Apart;
    forall k
      ensures k in Rename(s1, at, to) <==> k in Rename(s, at, to)
      ensures k in Rename(s, at, to) ==> Rename(s1, at, to)[k] == Rename(s, at, to)[k]
    {
      RenamedKey(s1, at, to, k);
      RenamedKey(s, at, to, k);
      if to <= k { SwapUnder(at, to, k); }
    }
  }

  lemma SwapUnder(at: string, to: string, k: string)
    requires to <= k
    ensures at <= at + k[|to|..] && Swap(at, to, at + k[|to|..]) == k
  {
    assert to + k[|to|..] == k;
  }

  lemma CopyingIsPartway(c: Storage, s: Storage, order: seq<string>, n: nat, at: string, to: string)
    requires Apart(at, to) && Listing(order, s, at) && n <= |order| && AfterCopies(c, s, order, n, at, to)
    ensures Partway(c, s, at, to)
  {
    forall k | at <= k ensures !Image(order, n, at, to, k) {
      if i :| 0 <= i < n && Swap(at, to, order[i]) == k { NotUnderSource(s, order, at, to, i); }
    }
    forall k | !(to <= k && at + k[|to|..] in s) ensures !Image(order, n, at, to, k) {
      if i :| 0 <= i < n && Swap(at, to, order[i]) == k {
        assert order[i] in order;
        SwapBack(at, to, order[i]);
      }
    }
    hide Image, Swap;
    forall k | k in s ensures !Image(order, n, at, to, k) ==> k in c && c[k] == s[k] {
    }
    forall k ensures k in c <==> k in s || Image(order, n, at, to, k) {
    }
  }

  lemma NotUnderSource(s: Storage, order: seq<string>, at: string, to: string, i: nat)
    requires Apart(at, to) && Listing(order, s, at) && i < |order|
    ensures !(at <= Swap(at, to, order[i]))
  {
    assert order[i] in order;
    SwapBack(at, to, order[i]);
    ApartPrefixes(at, to, Swap(at, to, order[i]));
  }

  lemma DeletingIsPartway(c: Storage, s: Storage, order: seq<string>, m: nat, at: string, to: string)
    requires Apart(at, to) && Listing(order, s, at) && m <= |order| && AfterCopies(c, s, order, |order|, at, to)
    ensures Partway(map k | k in c && k !in order[..m] :: c[k], s, at, to)
  {
    var s1 := map k | k in c && k !in order[..m] :: c[k];
    CopyingIsPartway(c, s, order, |order|, at, to);
    forall k | k in order[..m] ensures k in order {
    }
    forall k | k in s && at <= k && k !in s1 ensures Swap(at, to, k) in s1 && s1[Swap(at, to, k)] == s[k] {
      assert k in order;
      var i :| 0 <= i < |order| && order[i] == k;
      NotUnderSource(s, order, at, to, i);
    }
  }

  /** Stopping a directory move anywhere leaves a storage whose rename is still the intended one. */
  lemma MoveStopsPartway(s: Storage, order: seq<string>, n: nat, at: string, to: string)
    requires Apart(at, to) && Listing(order, s, at) && n <= 2 * |order|
    ensures |EffectsOf(MovePrefix(at, to), order)| == 2 * |order|
    ensures Partway(Play(EffectsOf(MovePrefix(at, to), order)[..n], s), s, at, to)
  {
    hide Apart, Listing, AfterCopies, Partway, Rename, Swap;
    var es := EffectsOf(MovePrefix(at, to), order);
    ApartDisjoint(s, at, to);
    if n <= |order| {
      assert es[..n] == Copies(order, at, to)[..n];
      PlayCopies(order, n, s, at, to);
      CopyingIsPartway(Play(es[..n], s), s, order, n, at, to);
    } else {
      var m := n - |order|;
      assert es[..n] == Copies(order, at, to) + Dels(order)[..m];
      assert Copies(order, at, to)[..|order|] == Copies(order, at, to);
      PlayCopies(order, |order|, s, at, to);
      PlayConcat(Copies(order, at, to), Dels(order)[..m], s);
      PlayDels(order, m, Play(Copies(order, at, to), s));
      DeletingIsPartway(Play(Copies(order, at, to), s), s, order, m, at, to);
    }
  }

  lemma DeletePrefixEffects(s: Storage, order: seq<string>, p: string)
    requires Listing(order, s, p)
    ensures Play(Dels(order), s) == DropPrefix(s, p)
  {
    PlayDels(order, |order|, s);
    assert Dels(order)[..|order|] == Dels(order) && order[..|order|] == order;
  }

  lemma DeleteStops(s: Storage, order: seq<string>, n: nat, p: string)
    requires Listing(order, s, p) && n <= |order|
    ensures DropPrefix(Play(Dels(order)[..n], s), p) == DropPrefix(s, p)
  {
    PlayDels(order, n, s);
    forall k | k in order[..n] ensures p <= k {
      assert k in order;
    }
  }

  /** Moving a directory onto itself deletes it. */
  lemma MoveOntoItself(s: Storage, order: seq<string>, at: string)
    requires Listing(order, s, at)
    ensures Play(EffectsOf(MovePrefix(at, at), order), s) == DropPrefix(s, at)
  {
    SelfCopies(s, order, |order|, at);
    assert Copies(order, at, at)[..|order|] == Copies(order, at, at);
    PlayAll(order, s, at, at);
  }

  lemma {:induction false} SelfCopies(s: Storage, order: seq<string>, n: nat, at: string)
    requires Listing(order, s, at) && n <= |order|
    ensures Play(Copies(order, at, at)[..n], s) == s
  {
    if n > 0 {
      SelfCopies(s, order, n - 1, at);
      PlaySnoc(Copies(order, at, at), n - 1, s);
      assert order[n - 1] in order;
      assert Swap(at, at, order[n - 1]) == order[n - 1];
      assert s[order[n - 1] := s[order[n - 1]]] == s;
    }
  }

  // Stopped anywhere, such a move still has exactly the keys outside the prefix and some below it.
  lemma SelfMoveStops(s: Storage, order: seq<string>, n: nat, at: string)
    requires Listing(order, s, at) && n <= |EffectsOf(MovePrefix(at, at), order)|
    ensures DropPrefix(Play(EffectsOf(MovePrefix(at, at), order)[..n], s), at) == DropPrefix(s, at)
  {
    hide Listing, DropPrefix;
    var es, m := EffectsOf(MovePrefix(at, at), order), n - |order|;
    if m <= 0 {
      assert es[..n] == Copies(order, at, at)[..n];
      SelfCopies(s, order, n, at);
    } else {
      assert es[..n] == Copies(order, at, at) + Dels(order)[..m];
      assert Copies(order, at, at)[..|order|] == Copies(order, at, at);
      SelfCopies(s, order, |order|, at);
      PlayConcat(Copies(order, at, at), Dels(order)[..m], s);
      DeleteStops(s, order, m, at);
    }
  }

  /** The storage effects of a job, run to the end, are what Apply says. */
  lemma EffectsAreApply(j: Payload, st: Store, order: seq<string>)
    requires !j.Move?
    requires ListsKeys(j) ==> Listing(order, st.storage, PrefixOf(j))
    requires j.MovePrefix? ==> Movable(j.at, j.to)
    ensures Play(EffectsOf(j, order), st.storage) == Apply(j, st).storage
  {
    match j
    case Delete(_, key) =>
      assert Play([Del(key)], st.storage) == Play([Del(key)][1..], Do(Del(key), st.storage)) == st.storage - {key};
    case DeletePrefix(p) => DeletePrefixEffects(st.storage, order, p);
    case MovePrefix(at, to) =>
      if at == to {
        MoveOntoItself(st.storage, order, at);
      } else {
        ApartDisjoint(st.storage, at, to);
        MoveDirIsRename(st.storage, order, at, to);
      }
  }

  /** Crash and retry: stopping a delete, delete-prefix or move-prefix job after any storage effect and
      running it again, whatever order the keys are listed in, ends in the same table, storage and jobs. */
  lemma RetryReachesSameEnd(sys: System, id: nat, j: Payload, order: seq<string>, n: nat, again: seq<string>)
    requires !j.Move? && n <= |EffectsOf(j, order)|
    requires ListsKeys(j) ==>
               Listing(order, sys.store.storage, PrefixOf(j))
                 && Listing(again, Stopped(sys, j, order, n).store.storage, PrefixOf(j))
    requires j.MovePrefix? ==> Movable(j.at, j.to)
    ensures Finished(Stopped(sys, j, order, n), id, j, again) == Finished(sys, id, j, order)
  {
    hide Listing, Partway, Rename, DropPrefix, Swap;
    var s := sys.store.storage;
    var s1 := Stopped(sys, j, order, n).store.storage;
    EffectsAreApply(j, sys.store, order);
    EffectsAreApply(j, Stopped(sys, j, order, n).store, again);
    match j
    case Delete(_, key) =>
      if n == 1 {
        assert EffectsOf(j, order)[..1] == EffectsOf(j, order);
      } else {
        assert EffectsOf(j, order)[..n] == [];
      }
    case DeletePrefix(p) => DeleteStops(s, order, n, p);
    case MovePrefix(at, to) =>
      if at == to {
        SelfMoveStops(s, order, n, at);
      } else {
        MoveStopsPartway(s, order, n, at, to);
        PartwayRename(s1, s, at, to);
      }
  }

  /** A single-blob move survives a stop only before its source is deleted: after that the storage step
      raises on every retry, and the table keeps a key that is no longer stored. */
  lemma SingleMoveRetry(sys: System, b: nat, at: string, to: string, n: nat)
    requires at in sys.store.storage && at != to && n <= 2
    ensures var s1 := Stopped(sys, Move(b, at, to), [], n).store;
            (Apply(Move(b, at, to), s1) == Apply(Move(b, at, to), sys.store) && at in s1.storage) <==> n < 2
    ensures n == 2 ==> var s1 := Stopped(sys, Move(b, at, to), [], n).store;
            Apply(Move(b, at, to), s1) == s1 && at !in s1.storage && s1.blobs == sys.store.blobs
  {
    var s, es := sys.store.storage, EffectsOf(Move(b, at, to), []);
    assert Play(es[..0], s) == s;
    PlaySnoc(es, 0, s);
    PlaySnoc(es, 1, s);
    assert Play(es[..1], s) == s[to := s[at]];
    assert Play(es[..2], s) == s[to := s[at]] - {at};
    if n == 1 {
      assert s[to := s[at]][to := s[at]] == s[to := s[at]];
    }
  }
}
