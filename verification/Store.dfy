/** The blob table and the key-value storage, and what each queued job does to them. */
module BlobStore {
  import opened Text

  type Bytes = seq<bv8>

  datatype Payload =
    | Delete(blob: nat, key: string)
    | DeletePrefix(prefix: string)
    | Move(blob: nat, at: string, to: string)
    | MovePrefix(at: string, to: string)

  // Blob rows by id with their storage key, and the stored bytes by key.
  datatype Store = Store(blobs: map<nat, string>, storage: map<string, Bytes>)

  type Storage = map<string, Bytes>

  function DropPrefix(s: Storage, prefix: string): Storage {
    map k | k in s && !(prefix <= k) :: s[k]
  }

  // A key under `at` with that prefix swapped.
  function Swap(at: string, to: string, k: string): string {
    if at <= k then to + k[|at|..] else k
  }

  // Renaming a prefix in one step: nothing is left under `at`, its keys appear under `to`.
  function Rename(s: Storage, at: string, to: string): Storage {
    DropPrefix(s, at) +
    map k | k in (set x | x in s && at <= x :: Swap(at, to, x)) && to <= k && at + k[|to|..] in s :: s[at + k[|to|..]]
  }

  // Copying a directory onto itself and deleting the source leaves nothing of it.
  function Apply(j: Payload, st: Store): Store {
    match j
    case Delete(b, key) => Store(st.blobs - {b}, st.storage - {key})
    case DeletePrefix(p) =>
      Store(map b | b in st.blobs && !(p <= st.blobs[b]) :: st.blobs[b], DropPrefix(st.storage, p))
    case Move(b, at, to) =>
      if at !in st.storage then st
      else Store(if b in st.blobs then st.blobs[b := to] else st.blobs, st.storage[to := st.storage[at]] - {at})
    case MovePrefix(at, to) =>
      Store(map b | b in st.blobs :: Rekey(at, to, st.blobs[b]),
            if at == to then DropPrefix(st.storage, at) else Rename(st.storage, at, to))
  }

  // The table's update: SQL REPLACE on keys that start with the prefix.
  function Rekey(at: string, to: string, key: string): string {
    if at != "" && at <= key then ReplaceAll(key, at, to) else key
  }

  // ----- When a job can run

  // The table's own constraint: no two blobs have the same key.
  predicate DistinctKeys(table: map<nat, string>) {
    forall b, c :: b in table && c in table && table[b] == table[c] ==> b == c
  }

  // Storage raises when a single-blob move finds no source; the table when a move would give two blobs the same key.
  predicate CanRun(j: Payload, st: Store) {
    && (j.Move? ==> j.at in st.storage)
    && DistinctKeys(Apply(j, st).blobs)
  }

  /** On a table with distinct keys deletes always run; a single-blob move runs exactly when its source is stored and
      no other blob has the new key. */
  lemma CanRunMeans(j: Payload, st: Store)
    requires DistinctKeys(st.blobs)
    ensures j.Delete? || j.DeletePrefix? ==> CanRun(j, st)
    ensures j.Move? ==>
              (CanRun(j, st) <==>
               j.at in st.storage
               && forall c :: j.blob in st.blobs && c in st.blobs && st.blobs[c] == j.to ==> c == j.blob)
  {
    if j.Move? && j.blob in st.blobs && j.at in st.storage {
      var t := Apply(j, st).blobs;
      assert t == st.blobs[j.blob := j.to];
      if CanRun(j, st) {
        forall c | c in st.blobs && st.blobs[c] == j.to ensures c == j.blob { assert t[c] == j.to == t[j.blob]; }
      }
    }
  }

  // ----- Agreement of table and storage

  // Each blob's key is stored with that blob's content, keys are distinct, and nothing else is stored.
  ghost predicate Agree(st: Store, contents: map<nat, Bytes>) {
    && (forall b :: b in st.blobs ==>
        b in contents && st.blobs[b] in st.storage && st.storage[st.blobs[b]] == contents[b])
    && DistinctKeys(st.blobs)
    && (forall k :: k in st.storage ==> exists b :: b in st.blobs && st.blobs[b] == k)
  }

  // The conditions under which a job is issued: for moves a free destination; for prefix moves
  // also that the prefix does not occur again inside a key below it.
  ghost predicate Ready(j: Payload, st: Store) {
    match j
    case Delete(b, key) => if b in st.blobs then st.blobs[b] == key else key !in st.storage
    case DeletePrefix(p) => true
    case Move(b, at, to) => b in st.blobs && st.blobs[b] == at && to !in st.storage
    case MovePrefix(at, to) =>
      && at != "" && at != to
      && (forall k :: k in st.storage && to <= k ==> at <= k)
      && (forall k :: k in st.storage && at <= k ==> !Contains(k[|at|..], at))
  }

  /** Which keys a job may touch; every other key keeps its bytes. */
  predicate Targets(j: Payload, k: string) {
    match j
    case Delete(_, key) => k == key
    case DeletePrefix(p) => p <= k
    case Move(_, at, to) => k == at || k == to
    case MovePrefix(at, to) => at <= k || to <= k
  }

  lemma DeleteAgrees(b: nat, key: string, st: Store, contents: map<nat, Bytes>)
    requires Agree(st, contents) && Ready(Delete(b, key), st)
    ensures Agree(Apply(Delete(b, key), st), contents)
  {
    var st' := Apply(Delete(b, key), st);
    forall k | k in st'.storage ensures exists c :: c in st'.blobs && st'.blobs[c] == k {
      var c :| c in st.blobs && st.blobs[c] == k;
      assert c in st'.blobs;
    }
  }

  lemma DeletePrefixAgrees(p: string, st: Store, contents: map<nat, Bytes>)
    requires Agree(st, contents)
    ensures Agree(Apply(DeletePrefix(p), st), contents)
  {
    var st' := Apply(DeletePrefix(p), st);
    forall k | k in st'.storage ensures exists c :: c in st'.blobs && st'.blobs[c] == k {
      var c :| c in st.blobs && st.blobs[c] == k;
      assert c in st'.blobs;
    }
  }

  // Each blob's key moves from one storage to the other with its content, by a map that is injective on keys.
  lemma AgreeMoves(st: Store, st': Store, contents: map<nat, Bytes>)
    requires Agree(st, contents) && st'.blobs.Keys == st.blobs.Keys
    requires forall b :: b in st.blobs ==>
             st'.blobs[b] in st'.storage && st'.storage[st'.blobs[b]] == st.storage[st.blobs[b]]
    requires forall b, c :: b in st.blobs && c in st.blobs && st'.blobs[b] == st'.blobs[c] ==>
             st.blobs[b] == st.blobs[c]
    requires forall k :: k in st'.storage ==> exists b :: b in st'.blobs && st'.blobs[b] == k
    ensures Agree(st', contents)
  {
  }

  lemma MoveAgrees(b: nat, at: string, to: string, st: Store, contents: map<nat, Bytes>)
    requires Agree(st, contents) && Ready(Move(b, at, to), st)
    ensures Agree(Apply(Move(b, at, to), st), contents)
  {
    hide Agree;
    AgreeParts(st, contents);
    var st' := Apply(Move(b, at, to), st);
    assert at != to;
    assert st'.storage.Keys == st.storage.Keys - {at} + {to};
    forall k | k in st'.storage ensures exists c :: c in st'.blobs && st'.blobs[c] == k {
      if k == to {
        assert st'.blobs[b] == k;
      } else {
        var c :| c in st.blobs && st.blobs[c] == k;
        assert st'.blobs[c] == k;
      }
    }
    forall c | c in st.blobs
      ensures st'.blobs[c] in st'.storage && st'.storage[st'.blobs[c]] == st.storage[st.blobs[c]]
    {
      assert c != b ==> st.blobs[c] != at;
    }
    AgreeMoves(st, st', contents);
  }

  lemma AgreeParts(st: Store, contents: map<nat, Bytes>)
    requires Agree(st, contents)
    ensures forall b :: b in st.blobs ==> st.blobs[b] in st.storage
    ensures forall b, c :: b in st.blobs && c in st.blobs && st.blobs[b] == st.blobs[c] ==> b == c
    ensures forall k :: k in st.storage ==> exists b :: b in st.blobs && st.blobs[b] == k
  {
  }

  lemma SwapInjective(at: string, to: string, j: string, k: string)
    requires Swap(at, to, j) == Swap(at, to, k)
    requires (to <= j ==> at <= j) && (to <= k ==> at <= k)
    ensures j == k
  {
    if at <= j { assert j == at + j[|at|..]; assert Swap(at, to, j)[|to|..] == j[|at|..]; }
    if at <= k { assert k == at + k[|at|..]; assert Swap(at, to, k)[|to|..] == k[|at|..]; }
  }

  /** The table's REPLACE follows the storage rename on a key exactly when the prefix does not occur again in it. */
  lemma RekeyFollows(at: string, to: string, key: string)
    requires at != "" && at != to && at <= key
    ensures Rekey(at, to, key) == Swap(at, to, key) <==> !Contains(key[|at|..], at)
  {
    assert key == at + key[|at|..];
    ReplaceAllIsPrefixSwap(at, to, key[|at|..]);
  }

  // The value found under a swapped key is the source's.
  lemma RenamedValue(s: Storage, at: string, to: string, k: string)
    requires k in s && forall x :: x in s && to <= x ==> at <= x
    ensures Swap(at, to, k) in Rename(s, at, to) && Rename(s, at, to)[Swap(at, to, k)] == s[k]
  {
    var k' := Swap(at, to, k);
    if at <= k {
      assert k'[|to|..] == k[|at|..];
      assert at + k[|at|..] == k;
    }
  }

  lemma MovePrefixAgrees(at: string, to: string, st: Store, contents: map<nat, Bytes>)
    requires Agree(st, contents) && Ready(MovePrefix(at, to), st)
    ensures Agree(Apply(MovePrefix(at, to), st), contents)
    ensures forall b :: b in st.blobs ==> Apply(MovePrefix(at, to), st).blobs[b] == Swap(at, to, st.blobs[b])
  {
    hide Agree, Rename, Rekey, ReplaceAll, Contains, Swap;
    AgreeParts(st, contents);
    var st' := Apply(MovePrefix(at, to), st);
    forall b | b in st.blobs ensures st'.blobs[b] == Swap(at, to, st.blobs[b]) {
      RekeyedSwap(at, to, st.blobs[b]);
    }
    forall b | b in st.blobs
      ensures st'.blobs[b] in st'.storage && st'.storage[st'.blobs[b]] == st.storage[st.blobs[b]]
    {
      RenamedValue(st.storage, at, to, st.blobs[b]);
    }
    forall b, c | b in st.blobs && c in st.blobs && st'.blobs[b] == st'.blobs[c] ensures st.blobs[b] == st.blobs[c] {
      SwapInjective(at, to, st.blobs[b], st.blobs[c]);
    }
    forall k | k in st'.storage ensures exists c :: c in st'.blobs && st'.blobs[c] == k {
      var x := RenamedFrom(st.storage, at, to, k);
      var c :| c in st.blobs && st.blobs[c] == x;
      assert st'.blobs[c] == k;
    }
    AgreeMoves(st, st', contents);
  }

  lemma RekeyedSwap(at: string, to: string, key: string)
    requires at != "" && at != to && (at <= key ==> !Contains(key[|at|..], at))
    ensures Rekey(at, to, key) == Swap(at, to, key)
  {
    if at <= key { RekeyFollows(at, to, key); }
  }

  lemma RenamedFrom(s: Storage, at: string, to: string, k: string) returns (x: string)
    requires k in Rename(s, at, to)
    ensures x in s && Swap(at, to, x) == k
  {
    x :| x in s && Swap(at, to, x) == k;
  }

  /** Every job handler keeps table and storage in agreement and moves keep every blob's content. */
  lemma JobKeepsAgreement(j: Payload, st: Store, contents: map<nat, Bytes>)
    requires Agree(st, contents) && Ready(j, st)
    ensures Agree(Apply(j, st), contents)
    ensures j.Move? || j.MovePrefix? ==> Apply(j, st).blobs.Keys == st.blobs.Keys
  {
    match j
    case Delete(b, key) => DeleteAgrees(b, key, st, contents);
    case DeletePrefix(p) => DeletePrefixAgrees(p, st, contents);
    case Move(b, at, to) => MoveAgrees(b, at, to, st, contents);
    case MovePrefix(at, to) => MovePrefixAgrees(at, to, st, contents);
  }

  /** Only the targeted keys change. */
  lemma JobFrame(j: Payload, st: Store, k: string)
    requires !Targets(j, k)
    ensures k in Apply(j, st).storage <==> k in st.storage
    ensures k in st.storage ==> Apply(j, st).storage[k] == st.storage[k]
  {
    if j.MovePrefix? && k in st.storage { assert Swap(j.at, j.to, k) == k; }
  }
}
