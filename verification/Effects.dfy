/** Jobs as the storage executes them, one key at a time: directory moves copy everything and then delete
    everything. A job that stops part-way is picked up again from the job table. */
module Effects {
  import opened BlobStore

  datatype Effect = Copy(from: string, to: string) | Del(key: string)

  function Do(e: Effect, s: Storage): Storage {
    match e
    case Copy(from, to) => if from in s then s[to := s[from]] else s
    case Del(key) => s - {key}
  }

  function Play(es: seq<Effect>, s: Storage): Storage
    decreases |es|
  {
    if es == [] then s else Play(es[1..], Do(es[0], s))
  }

  // Some order in which the storage lists the keys under a prefix, each once.
  ghost predicate Listing(order: seq<string>, s: Storage, prefix: string) {
    && (forall k :: k in order <==> k in s && prefix <= k)
    && (forall i, j :: 0 <= i < j < |order| ==> order[i] != order[j])
  }

  function Copies(order: seq<string>, at: string, to: string): seq<Effect> {
    seq(|order|, i requires 0 <= i < |order| => Copy(order[i], Swap(at, to, order[i])))
  }

  function Dels(order: seq<string>): seq<Effect> {
    seq(|order|, i requires 0 <= i < |order| => Del(order[i]))
  }

  // The storage effects of a job, in order; movedir copies all listed keys and then deletes them.
  function EffectsOf(j: Payload, order: seq<string>): seq<Effect> {
    match j
    case Delete(_, key) => [Del(key)]
    case DeletePrefix(_) => Dels(order)
    case Move(_, at, to) => [Copy(at, to), Del(at)]
    case MovePrefix(at, to) => Copies(order, at, to) + Dels(order)
  }

  lemma {:induction false} PlayConcat(es: seq<Effect>, fs: seq<Effect>, s: Storage)
    ensures Play(es + fs, s) == Play(fs, Play(es, s))
    decreases |es|
  {
    if es == [] {
      assert es + fs == fs;
    } else {
      assert (es + fs)[1..] == es[1..] + fs;
      PlayConcat(es[1..], fs, Do(es[0], s));
    }
  }

  lemma PlaySnoc(es: seq<Effect>, n: nat, s: Storage)
    requires n < |es|
    ensures Play(es[..n + 1], s) == Do(es[n], Play(es[..n], s))
  {
    assert es[..n + 1] == es[..n] + [es[n]];
    PlayConcat(es[..n], [es[n]], s);
    var t := Play(es[..n], s);
    assert Play([es[n]], t) == Play([es[n]][1..], Do(es[n], t)) == Do(es[n], t);
  }

  lemma {:induction false} PlayDels(order: seq<string>, n: nat, s: Storage)
    requires n <= |order|
    ensures Play(Dels(order)[..n], s) == map k | k in s && k !in order[..n] :: s[k]
  {
    if n == 0 {
      assert Play([], s) == s;
    } else {
      PlayDels(order, n - 1, s);
      PlaySnoc(Dels(order), n - 1, s);
      assert order[..n] == order[..n - 1] + [order[n - 1]];
    }
  }

  // No copy lands on a key that is still to be read or deleted.
  ghost predicate Disjoint(s: Storage, at: string, to: string) {
    forall k :: k in s && at <= k ==> !(at <= Swap(at, to, k) && Swap(at, to, k) in s)
  }

  ghost predicate Image(order: seq<string>, n: nat, at: string, to: string, k: string)
    requires n <= |order|
  {
    exists i :: 0 <= i < n && Swap(at, to, order[i]) == k
  }

  // c is the storage after the first n copies: its keys, the copied values and the untouched values.
  ghost predicate AfterCopies(c: Storage, s: Storage, order: seq<string>, n: nat, at: string, to: string)
    requires n <= |order|
  {
    CopyKeys(c, s, order, n, at, to) && CopyValues(c, s, order, n, at, to) && CopyRest(c, s, order, n, at, to)
  }

  ghost predicate CopyKeys(c: Storage, s: Storage, order: seq<string>, n: nat, at: string, to: string)
    requires n <= |order|
  {
    forall k {:trigger Image(order, n, at, to, k)} :: k in c <==> k in s || Image(order, n, at, to, k)
  }

  ghost predicate CopyValues(c: Storage, s: Storage, order: seq<string>, n: nat, at: string, to: string)
    requires n <= |order|
  {
    forall i :: 0 <= i < n ==> order[i] in s && Swap(at, to, order[i]) in c && c[Swap(at, to, order[i])] == s[order[i]]
  }

  ghost predicate CopyRest(c: Storage, s: Storage, order: seq<string>, n: nat, at: string, to: string)
    requires n <= |order|
  {
    forall k {:trigger Image(order, n, at, to, k)} :: k in s && !Image(order, n, at, to, k) ==> k in c && c[k] == s[k]
  }

  lemma ImageStep(order: seq<string>, n: nat, at: string, to: string, k: string)
    requires n < |order|
    ensures Image(order, n + 1, at, to, k) <==> Image(order, n, at, to, k) || k == Swap(at, to, order[n])
  {
  }

  lemma SourceSwapInjective(s: Storage, order: seq<string>, at: string, to: string, i: nat, j: nat)
    requires Listing(order, s, at) && i < |order| && j < |order| && Swap(at, to, order[i]) == Swap(at, to, order[j])
    ensures i == j
  {
    var x, y := order[i], order[j];
    assert x in order && y in order;
    assert Swap(at, to, x)[|to|..] == x[|at|..] && Swap(at, to, y)[|to|..] == y[|at|..];
    assert x == at + x[|at|..] && y == at + y[|at|..];
  }

  lemma SourceKept(s: Storage, order: seq<string>, n: nat, at: string, to: string, x: string)
    requires Listing(order, s, at) && Disjoint(s, at, to) && n <= |order| && x in order
    ensures !Image(order, n, at, to, x)
  {
    assert forall i :: 0 <= i < n ==> order[i] in order;
  }

  lemma CopyStep(c: Storage, order: seq<string>, n: nat, s: Storage, at: string, to: string)
    requires Listing(order, s, at) && Disjoint(s, at, to) && n < |order|
    requires AfterCopies(c, s, order, n, at, to)
    ensures AfterCopies(Do(Copy(order[n], Swap(at, to, order[n])), c), s, order, n + 1, at, to)
  {
    hide Listing, Disjoint, Image, Swap, CopyKeys, CopyValues, CopyRest;
    CopyReads(c, order, n, s, at, to);
    CopyStepKeys(c, order, n, s, at, to);
    CopyStepValues(c, order, n, s, at, to);
    CopyStepRest(c, order, n, s, at, to);
  }

  lemma CopyReads(c: Storage, order: seq<string>, n: nat, s: Storage, at: string, to: string)
    requires Listing(order, s, at) && Disjoint(s, at, to) && n < |order|
    requires CopyRest(c, s, order, n, at, to)
    ensures order[n] in c && order[n] in s && c[order[n]] == s[order[n]]
  {
    assert order[n] in order;
    SourceKept(s, order, n, at, to, order[n]);
  }

  lemma CopyStepKeys(c: Storage, order: seq<string>, n: nat, s: Storage, at: string, to: string)
    requires n < |order| && order[n] in s && CopyKeys(c, s, order, n, at, to)
    ensures CopyKeys(c[Swap(at, to, order[n]) := s[order[n]]], s, order, n + 1, at, to)
  {
    hide Image, Swap;
    var c' := c[Swap(at, to, order[n]) := s[order[n]]];
    forall k ensures k in c' <==> k in s || Image(order, n + 1, at, to, k) {
      ImageStep(order, n, at, to, k);
    }
  }

  lemma CopyStepValues(c: Storage, order: seq<string>, n: nat, s: Storage, at: string, to: string)
    requires Listing(order, s, at) && n < |order| && order[n] in s && CopyValues(c, s, order, n, at, to)
    ensures CopyValues(c[Swap(at, to, order[n]) := s[order[n]]], s, order, n + 1, at, to)
  {
    hide Listing, Swap;
    forall i | 0 <= i < n ensures Swap(at, to, order[i]) != Swap(at, to, order[n]) {
      if Swap(at, to, order[i]) == Swap(at, to, order[n]) { SourceSwapInjective(s, order, at, to, i, n); }
    }
  }

  lemma CopyStepRest(c: Storage, order: seq<string>, n: nat, s: Storage, at: string, to: string)
    requires n < |order| && order[n] in s && CopyRest(c, s, order, n, at, to)
    ensures CopyRest(c[Swap(at, to, order[n]) := s[order[n]]], s, order, n + 1, at, to)
  {
    hide Image, Swap;
    var c' := c[Swap(at, to, order[n]) := s[order[n]]];
    forall k | k in s && !Image(order, n + 1, at, to, k) ensures k in c' && c'[k] == s[k] {
      ImageStep(order, n, at, to, k);
    }
  }

  lemma {:induction false} PlayCopies(order: seq<string>, n: nat, s: Storage, at: string, to: string)
    requires Listing(order, s, at) && Disjoint(s, at, to) && n <= |order|
    ensures AfterCopies(Play(Copies(order, at, to)[..n], s), s, order, n, at, to)
  {
    hide Listing, Disjoint, Swap;
    if n == 0 {
      assert Copies(order, at, to)[..0] == [];
    } else {
      PlayCopies(order, n - 1, s, at, to);
      PlaySnoc(Copies(order, at, to), n - 1, s);
      CopyStep(Play(Copies(order, at, to)[..n - 1], s), order, n - 1, s, at, to);
    }
  }

  lemma RenameKeys(s: Storage, order: seq<string>, at: string, to: string, k: string)
    requires Listing(order, s, at)
    ensures k in Rename(s, at, to) <==> (k in s && !(at <= k)) || Image(order, |order|, at, to, k)
  {
    if i :| 0 <= i < |order| && Swap(at, to, order[i]) == k {
      assert order[i] in order;
      SwapBack(at, to, order[i]);
    }
    if k in Rename(s, at, to) && !(k in s && !(at <= k)) {
      var x :| x in s && at <= x && Swap(at, to, x) == k;
      assert x in order;
    }
  }

  lemma SwapBack(at: string, to: string, x: string)
    requires at <= x
    ensures to <= Swap(at, to, x) && at + Swap(at, to, x)[|to|..] == x
  {
    assert Swap(at, to, x)[|to|..] == x[|at|..];
  }

  lemma RenameValue(s: Storage, at: string, to: string, k: string)
    requires k in Rename(s, at, to)
    ensures if to <= k && at + k[|to|..] in s then Rename(s, at, to)[k] == s[at + k[|to|..]]
            else k in s && Rename(s, at, to)[k] == s[k]
  {
    if to <= k && at + k[|to|..] in s {
      var x := at + k[|to|..];
      assert at <= x && Swap(at, to, x) == to + k[|to|..] == k;
    }
  }

  lemma MovedAndDeleted(c: Storage, s: Storage, order: seq<string>, at: string, to: string)
    requires Listing(order, s, at) && Disjoint(s, at, to) && AfterCopies(c, s, order, |order|, at, to)
    ensures (map k | k in c && k !in order :: c[k]) == Rename(s, at, to)
  {
    hide Rename, Image, Swap;
    var r := Rename(s, at, to);
    forall k ensures k in r <==> k in c && k !in order {
      RenameKeys(s, order, at, to, k);
      CopiedKey(c, s, order, at, to, k);
      if k in order { SourceKept(s, order, |order|, at, to, k); }
    }
    forall k | k in r ensures r[k] == c[k] {
      RenameValue(s, at, to, k);
      CopiedValue(c, s, order, at, to, k);
    }
  }

  lemma CopiedKey(c: Storage, s: Storage, order: seq<string>, at: string, to: string, k: string)
    requires CopyKeys(c, s, order, |order|, at, to)
    ensures k in c <==> k in s || Image(order, |order|, at, to, k)
  {
    hide Image;
    if Image(order, |order|, at, to, k) { assert k in c; }
    if !Image(order, |order|, at, to, k) { assert k in c <==> k in s; }
  }

  lemma CopiedValue(c: Storage, s: Storage, order: seq<string>, at: string, to: string, k: string)
    requires Listing(order, s, at) && AfterCopies(c, s, order, |order|, at, to) && k in c
    ensures if to <= k && at + k[|to|..] in s then c[k] == s[at + k[|to|..]] else k in s && c[k] == s[k]
  {
    if to <= k && at + k[|to|..] in s {
      var x := at + k[|to|..];
      assert x in order;
      var i :| 0 <= i < |order| && order[i] == x;
      assert Swap(at, to, x) == to + k[|to|..] == k;
    } else {
      assert !Image(order, |order|, at, to, k) by {
        if i :| 0 <= i < |order| && Swap(at, to, order[i]) == k {
          assert order[i] in order;
          SwapBack(at, to, order[i]);
        }
      }
    }
  }

  /** Copy-all-then-delete-all is a one-step prefix rename exactly when no copy lands on a listed key. */
  lemma MoveDirIsRename(s: Storage, order: seq<string>, at: string, to: string)
    requires Listing(order, s, at)
    ensures Disjoint(s, at, to) <==> Play(EffectsOf(MovePrefix(at, to), order), s) == Rename(s, at, to)
  {
    var mid := Play(Copies(order, at, to), s);
    PlayAll(order, s, at, to);
    if Disjoint(s, at, to) {
      PlayCopies(order, |order|, s, at, to);
      assert Copies(order, at, to)[..|order|] == Copies(order, at, to);
      MovedAndDeleted(mid, s, order, at, to);
    } else {
      LandsOnListed(s, order, at, to);
    }
  }

  lemma PlayAll(order: seq<string>, s: Storage, at: string, to: string)
    ensures var mid := Play(Copies(order, at, to), s);
            Play(EffectsOf(MovePrefix(at, to), order), s) == map k | k in mid && k !in order :: mid[k]
  {
    var mid := Play(Copies(order, at, to), s);
    PlayConcat(Copies(order, at, to), Dels(order), s);
    PlayDels(order, |order|, mid);
    assert Dels(order)[..|order|] == Dels(order) && order[..|order|] == order;
  }

  lemma LandsOnListed(s: Storage, order: seq<string>, at: string, to: string)
    requires Listing(order, s, at) && !Disjoint(s, at, to)
    ensures exists k :: k in order && k in Rename(s, at, to)
  {
    var x :| x in s && at <= x && at <= Swap(at, to, x) && Swap(at, to, x) in s;
    SwapBack(at, to, x);
    assert Swap(at, to, x) in order && Swap(at, to, x) in Rename(s, at, to);
  }
}
