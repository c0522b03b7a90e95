/** The blob service: jobs are stored and queued, and a worker later runs each queued message. */
module Blobs {
  import opened Rows
  import opened Seqs
  import opened BlobStore
  import opened Effects
  import opened Retry
  import opened S3

  datatype Job = Job(id: nat, payload: Payload)

  datatype Kind = Deletes | DeletePrefixes | Moves | MovePrefixes

  function KindOf(p: Payload): Kind {
    match p
    case Delete(_, _) => Deletes
    case DeletePrefix(_) => DeletePrefixes
    case Move(_, _, _) => Moves
    case MovePrefix(_, _) => MovePrefixes
  }

  // A run either completes or stops at a job that cannot run.
  datatype Outcome = Outcome(sys: System, ok: bool)

  // A job that cannot run has changed the storage before the table refuses; table and job table are rolled back.
  function HandleOne(sys: System, j: Job): Outcome {
    var after := Apply(j.payload, sys.store);
    if CanRun(j.payload, sys.store) then Outcome(System(after, sys.jobs - {j.id}), true)
    else Outcome(System(Store(sys.store.blobs, after.storage), sys.jobs), false)
  }

  // The jobs of one kind, one after the other.
  function HandleKind(sys: System, jobs: seq<Job>, kind: Kind): Outcome
    decreases |jobs|
  {
    if jobs == [] then Outcome(sys, true)
    else if KindOf(jobs[0].payload) != kind then HandleKind(sys, jobs[1..], kind)
    else
      var r := HandleOne(sys, jobs[0]);
      if r.ok then HandleKind(r.sys, jobs[1..], kind) else r
  }

  // One message: its jobs kind by kind.
  function HandleMessage(sys: System, jobs: seq<Job>): Outcome {
    var r1 := HandleKind(sys, jobs, Deletes);
    var r2 := HandleKind(r1.sys, jobs, DeletePrefixes);
    var r3 := HandleKind(r2.sys, jobs, Moves);
    if r3.ok then HandleKind(r3.sys, jobs, MovePrefixes) else r3
  }

  lemma {:induction false} HandleSnoc(sys: System, jobs: seq<Job>, j: Job, kind: Kind)
    ensures HandleKind(sys, jobs + [j], kind)
         == var r := HandleKind(sys, jobs, kind);
            if r.ok && KindOf(j.payload) == kind then HandleOne(r.sys, j) else r
    decreases |jobs|
  {
    if jobs == [] {
      assert ([] + [j])[1..] == [];
      assert HandleKind(HandleOne(sys, j).sys, [], kind).ok;
    } else {
      var all := jobs + [j];
      assert all[0] == jobs[0] && all[1..] == jobs[1..] + [j];
      HandleSnoc(if KindOf(jobs[0].payload) != kind then sys else HandleOne(sys, jobs[0]).sys, jobs[1..], j, kind);
    }
  }

  /** The jobs of one kind all run exactly when each can run once those before it have. */
  lemma {:induction false} KindRunsIff(sys: System, jobs: seq<Job>, kind: Kind)
    ensures HandleKind(sys, jobs, kind).ok
            <==> forall n :: 0 <= n < |jobs| && KindOf(jobs[n].payload) == kind ==>
                   CanRun(jobs[n].payload, HandleKind(sys, jobs[..n], kind).sys.store)
    decreases |jobs|
  {
    hide CanRun, HandleKind;
    if jobs == [] {
      NoJobs(sys, kind);
    } else {
      var m := |jobs| - 1;
      var front := jobs[..m];
      assert jobs == front + [jobs[m]];
      HandleSnoc(sys, front, jobs[m], kind);
      KindRunsIff(sys, front, kind);
      forall n | 0 <= n < m ensures front[n] == jobs[n] && front[..n] == jobs[..n] { }
    }
  }

  lemma NoJobs(sys: System, kind: Kind)
    ensures HandleKind(sys, [], kind) == Outcome(sys, true)
  {
  }

  // The state a job of a message meets when those before it have run.
  function Met(sys: System, jobs: seq<Job>, n: nat): System
    requires n < |jobs|
  {
    var k := KindOf(jobs[n].payload);
    var s1 := if k == Deletes then sys else HandleKind(sys, jobs, Deletes).sys;
    var s2 := if k == Deletes || k == DeletePrefixes then s1 else HandleKind(s1, jobs, DeletePrefixes).sys;
    var s3 := if k != MovePrefixes then s2 else HandleKind(s2, jobs, Moves).sys;
    HandleKind(s3, jobs[..n], k).sys
  }

  /** A message succeeds exactly when each of its jobs can run in the state it meets; deletes always can, on a table
      with distinct keys. */
  lemma MessageRunsIff(sys: System, jobs: seq<Job>)
    requires DistinctKeys(sys.store.blobs)
    ensures HandleMessage(sys, jobs).ok
            <==> forall n :: 0 <= n < |jobs| ==> CanRun(jobs[n].payload, Met(sys, jobs, n).store)
    ensures (forall n :: 0 <= n < |jobs| ==> jobs[n].payload.Delete? || jobs[n].payload.DeletePrefix?) ==>
              HandleMessage(sys, jobs).ok
  {
    hide CanRun, HandleKind;
    var s1 := HandleKind(sys, jobs, Deletes).sys;
    var s2 := HandleKind(s1, jobs, DeletePrefixes).sys;
    var s3 := HandleKind(s2, jobs, Moves).sys;
    DeletesRun(sys, jobs, Deletes);
    DeletesRun(s1, jobs, DeletePrefixes);
    KindRunsIff(sys, jobs, Deletes);
    KindRunsIff(s1, jobs, DeletePrefixes);
    KindRunsIff(s2, jobs, Moves);
    KindRunsIff(s3, jobs, MovePrefixes);
  }

  lemma {:induction false} DeletesRun(sys: System, jobs: seq<Job>, kind: Kind)
    requires DistinctKeys(sys.store.blobs) && (kind == Deletes || kind == DeletePrefixes)
    ensures HandleKind(sys, jobs, kind).ok && DistinctKeys(HandleKind(sys, jobs, kind).sys.store.blobs)
    decreases |jobs|
  {
    if jobs != [] {
      CanRunMeans(jobs[0].payload, sys.store);
      DeletesRun(if KindOf(jobs[0].payload) != kind then sys else HandleOne(sys, jobs[0]).sys, jobs[1..], kind);
    }
  }

  // ----- A message, job by job

  function OfKind(jobs: seq<Job>, kind: Kind): seq<Job> {
    if jobs == [] then []
    else (if KindOf(jobs[0].payload) == kind then [jobs[0]] else []) + OfKind(jobs[1..], kind)
  }

  // The worker's order: first single deletes, then prefix deletes, single moves and prefix moves.
  function InOrder(jobs: seq<Job>): seq<Job> {
    OfKind(jobs, Deletes) + OfKind(jobs, DeletePrefixes) + (OfKind(jobs, Moves) + OfKind(jobs, MovePrefixes))
  }

  // The effects of jobs, one after the other.
  function ApplyAll(jobs: seq<Job>, st: Store): Store {
    if jobs == [] then st else ApplyAll(jobs[1..], Apply(jobs[0].payload, st))
  }

  function JobIds(jobs: seq<Job>): set<nat> {
    set j | j in jobs :: j.id
  }

  // The first k jobs could run, have taken effect and are gone; the next one, if there is one, cannot run: it has
  // changed the storage, and neither the table nor the job table.
  predicate RanTo(sys: System, jobs: seq<Job>, k: nat, r: Outcome) {
    && k <= |jobs| && (r.ok <==> k == |jobs|)
    && (forall m :: 0 <= m < k ==> CanRun(jobs[m].payload, ApplyAll(jobs[..m], sys.store)))
    && r.sys.jobs == sys.jobs - JobIds(jobs[..k])
    && var st := ApplyAll(jobs[..k], sys.store);
    && if k == |jobs| then r.sys.store == st
       else !CanRun(jobs[k].payload, st)
            && r.sys.store == Store(st.blobs, Apply(jobs[k].payload, st).storage)
  }

  lemma RanNone(sys: System)
    ensures RanTo(sys, [], 0, Outcome(sys, true))
  {
    assert sys.jobs - {} == sys.jobs;
  }

  // A job that runs, and then the rest.
  lemma RanFirst(sys: System, j: Job, rest: seq<Job>, k: nat, r: Outcome)
    requires CanRun(j.payload, sys.store)
    requires RanTo(System(Apply(j.payload, sys.store), sys.jobs - {j.id}), rest, k, r)
    ensures RanTo(sys, [j] + rest, k + 1, r)
  {
    hide CanRun, Apply;
    var all := [j] + rest;
    forall m | 0 <= m <= |rest|
      ensures ApplyAll(all[..m + 1], sys.store) == ApplyAll(rest[..m], Apply(j.payload, sys.store))
    {
      assert all[..m + 1][1..] == rest[..m];
    }
    forall m | 0 <= m < k + 1 ensures CanRun(all[m].payload, ApplyAll(all[..m], sys.store)) {
      if m == 0 {
        assert all[..0] == [];
      } else {
        assert CanRun(rest[m - 1].payload, ApplyAll(rest[..m - 1], Apply(j.payload, sys.store)));
      }
    }
    assert all[..k + 1] == [j] + rest[..k];
    assert JobIds(all[..k + 1]) == {j.id} + JobIds(rest[..k]);
    assert sys.jobs - JobIds(all[..k + 1]) == (sys.jobs - {j.id}) - JobIds(rest[..k]);
  }

  lemma RanStopped(sys: System, j: Job, rest: seq<Job>)
    requires !CanRun(j.payload, sys.store)
    ensures RanTo(sys, [j] + rest, 0,
                  Outcome(System(Store(sys.store.blobs, Apply(j.payload, sys.store).storage), sys.jobs), false))
  {
    hide CanRun, Apply;
    assert ([j] + rest)[..0] == [] && sys.jobs - {} == sys.jobs;
  }

  lemma {:induction false} RanThen(sys: System, a: seq<Job>, b: seq<Job>, k: nat, r: Outcome, m: nat, s: Outcome)
    requires RanTo(sys, a, k, r) && RanTo(r.sys, b, m, s)
    ensures if r.ok then RanTo(sys, a + b, |a| + m, s) else RanTo(sys, a + b, k, r)
    decreases |a|
  {
    hide CanRun, Apply;
    if a == [] {
      assert a + b == b && a[..0] == [] && sys.jobs - {} == sys.jobs;
    } else {
      var j, rest := a[0], a[1..];
      assert a == [j] + rest && a + b == [j] + (rest + b);
      if k == 0 {
        assert a[..0] == [] && sys.jobs - {} == sys.jobs;
        RanStopped(sys, j, rest + b);
      } else {
        RanRest(sys, j, rest, k, r);
        var next := System(Apply(j.payload, sys.store), sys.jobs - {j.id});
        RanThen(next, rest, b, k - 1, r, m, s);
        if r.ok { RanFirst(sys, j, rest + b, |rest| + m, s); } else { RanFirst(sys, j, rest + b, k - 1, r); }
      }
    }
  }

  lemma RanRest(sys: System, j: Job, rest: seq<Job>, k: nat, r: Outcome)
    requires k > 0 && RanTo(sys, [j] + rest, k, r)
    ensures CanRun(j.payload, sys.store)
    ensures RanTo(System(Apply(j.payload, sys.store), sys.jobs - {j.id}), rest, k - 1, r)
  {
    hide CanRun, Apply;
    var all, st := [j] + rest, Apply(j.payload, sys.store);
    assert all[0] == j && all[..0] == [];
    forall m | 0 <= m <= |rest| ensures ApplyAll(all[..m + 1], sys.store) == ApplyAll(rest[..m], st) {
      assert all[..m + 1][1..] == rest[..m];
    }
    forall m | 0 <= m < k - 1 ensures CanRun(rest[m].payload, ApplyAll(rest[..m], st)) {
      assert CanRun(all[m + 1].payload, ApplyAll(all[..m + 1], sys.store));
    }
    assert all[..k] == [j] + rest[..k - 1];
    assert JobIds(all[..k]) == {j.id} + JobIds(rest[..k - 1]);
    assert sys.jobs - JobIds(all[..k]) == (sys.jobs - {j.id}) - JobIds(rest[..k - 1]);
  }

  /** The jobs of one kind run in the message's order, up to the first that cannot. */
  lemma {:induction false} KindRan(sys: System, jobs: seq<Job>, kind: Kind) returns (k: nat)
    ensures RanTo(sys, OfKind(jobs, kind), k, HandleKind(sys, jobs, kind))
    decreases |jobs|
  {
    hide CanRun, Apply, RanTo;
    if jobs == [] {
      k := 0;
      RanNone(sys);
    } else if KindOf(jobs[0].payload) != kind {
      k := KindRan(sys, jobs[1..], kind);
      assert OfKind(jobs, kind) == OfKind(jobs[1..], kind);
    } else if HandleOne(sys, jobs[0]).ok {
      k := KindRan(HandleOne(sys, jobs[0]).sys, jobs[1..], kind);
      RanFirst(sys, jobs[0], OfKind(jobs[1..], kind), k, HandleKind(sys, jobs, kind));
      k := k + 1;
    } else {
      k := 0;
      RanStopped(sys, jobs[0], OfKind(jobs[1..], kind));
    }
  }

  /** A message runs its jobs in the worker's order, up to the first that cannot run: those before it have taken effect
      and are gone from the job table, it and those after it are still there. */
  lemma MessageRan(sys: System, jobs: seq<Job>) returns (k: nat)
    requires DistinctKeys(sys.store.blobs)
    ensures RanTo(sys, InOrder(jobs), k, HandleMessage(sys, jobs))
  {
    hide HandleKind, RanTo, OfKind;
    var d, p, m, q := OfKind(jobs, Deletes), OfKind(jobs, DeletePrefixes), OfKind(jobs, Moves),
                      OfKind(jobs, MovePrefixes);
    var r1 := HandleKind(sys, jobs, Deletes);
    var r2 := HandleKind(r1.sys, jobs, DeletePrefixes);
    var r3 := HandleKind(r2.sys, jobs, Moves);
    var r4 := HandleKind(r3.sys, jobs, MovePrefixes);
    DeletesRun(sys, jobs, Deletes);
    DeletesRun(r1.sys, jobs, DeletePrefixes);
    var k1 := KindRan(sys, jobs, Deletes);
    var k2 := KindRan(r1.sys, jobs, DeletePrefixes);
    var k3 := KindRan(r2.sys, jobs, Moves);
    var k4 := KindRan(r3.sys, jobs, MovePrefixes);
    RanThen(sys, d, p, k1, r1, k2, r2);
    var k5 := |d| + k2;
    RanThen(r2.sys, m, q, k3, r3, k4, r4);
    if r3.ok {
      RanThen(sys, d + p, m + q, k5, r2, |m| + k4, r4);
      k := |d + p| + (|m| + k4);
    } else {
      RanThen(sys, d + p, m + q, k5, r2, k3, r3);
      k := |d + p| + k3;
    }
  }

  /** A message holding one job has the effect of that job. */
  lemma SingleJobMessage(sys: System, j: Job)
    requires DistinctKeys(sys.store.blobs)
    ensures CanRun(j.payload, sys.store) ==>
              HandleMessage(sys, [j]) == Outcome(System(Apply(j.payload, sys.store), sys.jobs - {j.id}), true)
    ensures !CanRun(j.payload, sys.store) ==>
              HandleMessage(sys, [j])
                == Outcome(System(Store(sys.store.blobs, Apply(j.payload, sys.store).storage), sys.jobs), false)
  {
    CanRunMeans(j.payload, sys.store);
    forall s: System, k: Kind
      ensures HandleKind(s, [j], k) == if KindOf(j.payload) == k then HandleOne(s, j) else Outcome(s, true)
    {
      assert [j][1..] == [];
      assert forall t: System :: HandleKind(t, [], k) == Outcome(t, true);
    }
  }

  // The batched form of the delete jobs: all storage keys, then all rows, then all jobs.
  function DeleteIds(jobs: seq<Job>): set<nat> {
    set j | j in jobs && j.payload.Delete? :: j.id
  }

  function DeleteBlobs(jobs: seq<Job>): set<nat> {
    set j | j in jobs && j.payload.Delete? :: j.payload.blob
  }

  function DeleteKeys(jobs: seq<Job>): set<string> {
    set j | j in jobs && j.payload.Delete? :: j.payload.key
  }

  /** Deleting in one batch is deleting one by one. */
  lemma {:induction false} BatchedDeletes(sys: System, jobs: seq<Job>)
    requires DistinctKeys(sys.store.blobs)
    ensures HandleKind(sys, jobs, Deletes)
         == Outcome(System(Store(sys.store.blobs - DeleteBlobs(jobs), sys.store.storage - DeleteKeys(jobs)),
                           sys.jobs - DeleteIds(jobs)), true)
    decreases |jobs|
  {
    if jobs == [] {
      assert sys.store.blobs - {} == sys.store.blobs && sys.store.storage - {} == sys.store.storage
        && sys.jobs - {} == sys.jobs;
    } else {
      var j, rest := jobs[0], jobs[1..];
      assert jobs == [j] + rest;
      if j.payload.Delete? {
        CanRunMeans(j.payload, sys.store);
        var next := HandleOne(sys, j).sys;
        BatchedDeletes(next, rest);
        assert DeleteIds(jobs) == {j.id} + DeleteIds(rest);
        assert DeleteBlobs(jobs) == {j.payload.blob} + DeleteBlobs(rest);
        assert DeleteKeys(jobs) == {j.payload.key} + DeleteKeys(rest);
        assert sys.jobs - DeleteIds(jobs) == next.jobs - DeleteIds(rest);
        assert sys.store.blobs - DeleteBlobs(jobs) == next.store.blobs - DeleteBlobs(rest);
        assert sys.store.storage - DeleteKeys(jobs) == next.store.storage - DeleteKeys(rest);
      } else {
        BatchedDeletes(sys, rest);
        assert DeleteIds(jobs) == DeleteIds(rest) && DeleteBlobs(jobs) == DeleteBlobs(rest)
          && DeleteKeys(jobs) == DeleteKeys(rest);
      }
    }
  }

  /** Stopping a message of deletes after any number of its storage effects, in whatever order the keys are sent, and
      running it again ends in the same table, storage and job table. */
  lemma DeleteMessageRetry(sys: System, jobs: seq<Job>, keys: seq<string>, n: nat)
    requires DistinctKeys(sys.store.blobs) && forall j :: j in jobs ==> j.payload.Delete?
    requires n <= |keys| && forall k :: k in keys <==> k in DeleteKeys(jobs)
    ensures var stopped := System(Store(sys.store.blobs, Play(Dels(keys)[..n], sys.store.storage)), sys.jobs);
            HandleMessage(stopped, jobs) == HandleMessage(sys, jobs)
  {
    var stopped := System(Store(sys.store.blobs, Play(Dels(keys)[..n], sys.store.storage)), sys.jobs);
    PlayDels(keys, n, sys.store.storage);
    assert stopped.store.storage - DeleteKeys(jobs) == sys.store.storage - DeleteKeys(jobs);
    BatchedDeletes(sys, jobs);
    BatchedDeletes(stopped, jobs);
  }

  // Each known blob once, with its current key.
  function DeletesFor(ids: seq<nat>, table: map<nat, string>): seq<Payload> {
    if ids == [] then []
    else
      var n := |ids| - 1;
      DeletesFor(ids[..n], table) +
      if ids[n] in table && ids[n] !in ids[..n] then [Delete(ids[n], table[ids[n]])] else []
  }

  /** A batch of deletes is one delete for each known blob listed, with its current key, and nothing else. */
  lemma {:induction false} DeletesForEach(ids: seq<nat>, table: map<nat, string>)
    ensures Distinct(DeletesFor(ids, table))
    ensures forall p :: p in DeletesFor(ids, table)
              <==> p.Delete? && p.blob in ids && p.blob in table && p.key == table[p.blob]
    decreases |ids|
  {
    if ids != [] {
      var n := |ids| - 1;
      DeletesForEach(ids[..n], table);
      assert ids == ids[..n] + [ids[n]];
    }
  }

  // The jobs added are one delete for each known blob listed, with its current key.
  ghost predicate DeletesQueued(before: map<nat, Payload>, after: map<nat, Payload>, ids: seq<nat>,
                                table: map<nat, string>) {
    && (forall j :: j in before ==> j in after && after[j] == before[j])
    && (forall j :: j in after && j !in before ==>
          after[j].Delete? && after[j].blob in ids && after[j].blob in table && after[j].key == table[after[j].blob])
    && (forall b :: b in ids && b in table ==>
          exists j :: j in after && j !in before && after[j] == Delete(b, table[b]))
    && (forall i, j :: i in after && i !in before && j in after && j !in before && after[i] == after[j] ==> i == j)
  }

  lemma {:induction false} SavedAre(jobs: map<nat, Payload>, first: nat, ps: seq<Payload>)
    requires forall j :: j in jobs ==> j < first
    ensures forall j :: j in Saved(jobs, first, ps) <==> j in jobs || first <= j < first + |ps|
    ensures forall j :: j in jobs ==> Saved(jobs, first, ps)[j] == jobs[j]
    ensures forall n :: 0 <= n < |ps| ==> Saved(jobs, first, ps)[first + n] == ps[n]
    decreases |ps|
  {
    if ps != [] { SavedAre(jobs, first, ps[..|ps| - 1]); }
  }

  lemma BatchQueued(ids: seq<nat>, table: map<nat, string>, jobs: map<nat, Payload>, first: nat)
    requires forall j :: j in jobs ==> j < first
    ensures DeletesQueued(jobs, Saved(jobs, first, DeletesFor(ids, table)), ids, table)
  {
    hide DeletesFor, Saved;
    var ps := DeletesFor(ids, table);
    var after := Saved(jobs, first, ps);
    DeletesForEach(ids, table);
    SavedAre(jobs, first, ps);
    forall j | j in after && j !in jobs ensures first <= j < first + |ps| && after[j] == ps[j - first] {
      assert after[first + (j - first)] == ps[j - first];
    }
    forall b | b in ids && b in table
      ensures exists j :: j in after && j !in jobs && after[j] == Delete(b, table[b])
    {
      var n :| 0 <= n < |ps| && ps[n] == Delete(b, table[b]);
      assert after[first + n] == ps[n];
    }
  }

  function Ids(first: nat, n: nat): seq<nat> {
    seq(n, i => first + i)
  }

  // The job table after saving the payloads under consecutive ids.
  function Saved(jobs: map<nat, Payload>, first: nat, ps: seq<Payload>): map<nat, Payload> {
    if ps == [] then jobs else Saved(jobs, first, ps[..|ps| - 1])[first + |ps| - 1 := ps[|ps| - 1]]
  }

  lemma SavedNone(ids: seq<nat>, table: map<nat, string>, jobs: map<nat, Payload>, first: nat)
    ensures DeletesFor(ids[..0], table) == [] && Saved(jobs, first, []) == jobs
  {
  }

  lemma SavedSnoc(jobs: map<nat, Payload>, first: nat, ps: seq<Payload>, p: Payload)
    ensures Saved(jobs, first, ps + [p]) == Saved(jobs, first, ps)[first + |ps| := p]
  {
    assert (ps + [p])[..|ps|] == ps;
  }

  // The stored jobs among the given ids.
  function JobsFor(ids: seq<nat>, jobs: map<nat, Payload>): (r: seq<Job>)
    ensures forall j :: j in r <==> j.id in ids && j.id in jobs && jobs[j.id] == j.payload
  {
    if ids == [] then []
    else
      assert ids == [ids[0]] + ids[1..];
      (if ids[0] in jobs then [Job(ids[0], jobs[ids[0]])] else []) + JobsFor(ids[1..], jobs)
  }

  lemma {:induction false} OfKindAre(jobs: seq<Job>, kind: Kind)
    ensures forall j :: j in OfKind(jobs, kind) <==> j in jobs && KindOf(j.payload) == kind
  {
    if jobs != [] {
      assert jobs == [jobs[0]] + jobs[1..];
      OfKindAre(jobs[1..], kind);
    }
  }

  // When all of a message's jobs have run, exactly their ids are gone.
  lemma AllGone(ids: seq<nat>, jobs: map<nat, Payload>)
    ensures var order := InOrder(JobsFor(ids, jobs));
            jobs - JobIds(order[..|order|]) == map j | j in jobs && j !in ids :: jobs[j]
  {
    hide OfKind, JobsFor;
    var found := JobsFor(ids, jobs);
    var order := InOrder(found);
    OfKindAre(found, Deletes);
    OfKindAre(found, DeletePrefixes);
    OfKindAre(found, Moves);
    OfKindAre(found, MovePrefixes);
    assert order[..|order|] == order;
    forall i | i in jobs ensures i in JobIds(order) <==> i in ids {
      if i in ids { assert Job(i, jobs[i]) in order; }
    }
  }

  lemma MessageJobs(sys: System, ids: seq<nat>, k: nat, r: Outcome)
    requires RanTo(sys, InOrder(JobsFor(ids, sys.jobs)), k, r) && r.ok
    ensures r.sys.jobs == map j | j in sys.jobs && j !in ids :: sys.jobs[j]
  {
    hide CanRun, InOrder, JobIds;
    AllGone(ids, sys.jobs);
  }

  lemma DeletesSnoc(ids: seq<nat>, n: nat, table: map<nat, string>)
    requires n < |ids|
    ensures DeletesFor(ids[..n + 1], table)
         == DeletesFor(ids[..n], table)
            + if ids[n] in table && ids[n] !in ids[..n] then [Delete(ids[n], table[ids[n]])] else []
  {
    assert ids[..n + 1][..n] == ids[..n];
  }

  class BlobService {
    const storage: S3Client
    var table: map<nat, string>      // blob id to storage key
    var jobs: map<nat, Payload>      // the job table
    var queue: seq<seq<nat>>         // messages for the worker, each a list of job ids
    var nextBlob: nat
    var nextJob: nat

    // Ids are fresh, keys are distinct and no stored directory move goes into itself.
    ghost predicate Valid()
      reads this
    {
      && (forall b :: b in table ==> b < nextBlob)
      && (forall j :: j in jobs ==> j < nextJob)
      && (forall j :: j in jobs && jobs[j].MovePrefix? ==> Movable(jobs[j].at, jobs[j].to))
      && DistinctKeys(table)
    }

    function Sys(): System
      reads this, storage
    {
      System(Store(table, storage.objects), jobs)
    }

    constructor ()
      ensures Valid() && Sys() == System(Store(map[], map[]), map[]) && queue == [] && nextBlob == 0 && fresh(storage)
    {
      storage := new S3Client();
      table, jobs, queue, nextBlob, nextJob := map[], map[], [], 0, 0;
    }

    // The content is stored first; the row is refused when the key is already in the table.
    method Create(key: string, content: Bytes) returns (ok: bool, id: nat)
      requires Valid()
      modifies this`table, this`nextBlob, storage`objects
      ensures Valid() && storage.objects == old(storage.objects)[key := content]
      ensures ok <==> key !in old(table).Values
      ensures ok ==> id == old(nextBlob) && table == old(table)[id := key] && nextBlob == id + 1
      ensures !ok ==> table == old(table) && nextBlob == old(nextBlob)
    {
      storage.Save(key, content);
      ok, id := key !in table.Values, nextBlob;
      if ok { table, nextBlob := table[id := key], nextBlob + 1; }
    }

    method Enqueue(p: Payload)
      requires Valid() && (p.MovePrefix? ==> Movable(p.at, p.to))
      modifies this`jobs, this`queue, this`nextJob
      ensures Valid()
      ensures jobs == old(jobs)[old(nextJob) := p] && queue == old(queue) + [[old(nextJob)]]
              && nextJob == old(nextJob) + 1
    {
      jobs, queue, nextJob := jobs[nextJob := p], queue + [[nextJob]], nextJob + 1;
    }

    method DeleteAllWithPrefix(prefix: string)
      requires Valid()
      modifies this`jobs, this`queue, this`nextJob
      ensures Valid()
      ensures jobs == old(jobs)[old(nextJob) := DeletePrefix(prefix)] && queue == old(queue) + [[old(nextJob)]]
              && nextJob == old(nextJob) + 1
    {
      Enqueue(DeletePrefix(prefix));
    }

    // One job per known blob, recording its current key, all in one message.
    method DeleteBatch(ids: seq<nat>)
      requires Valid()
      modifies this`jobs, this`queue, this`nextJob
      ensures Valid()
      ensures var ps := DeletesFor(ids, table);
              && jobs == Saved(old(jobs), old(nextJob), ps) && nextJob == old(nextJob) + |ps|
              && queue == old(queue) + if ps == [] then [] else [Ids(old(nextJob), |ps|)]
      ensures DeletesQueued(old(jobs), jobs, ids, table)
    {
      hide DeletesFor, Saved, DeletesQueued;
      BatchQueued(ids, table, jobs, nextJob);
      var message: seq<nat> := [];
      ghost var ps: seq<Payload> := [];
      SavedNone(ids, table, jobs, nextJob);
      for n := 0 to |ids|
        invariant Valid() && queue == old(queue) && ps == DeletesFor(ids[..n], table)
        invariant jobs == Saved(old(jobs), old(nextJob), ps) && nextJob == old(nextJob) + |ps|
        invariant message == Ids(old(nextJob), |ps|)
      {
        var b := ids[n];
        DeletesSnoc(ids, n, table);
        if b in table && b !in ids[..n] {
          SavedSnoc(old(jobs), old(nextJob), ps, Delete(b, table[b]));
          ps := ps + [Delete(b, table[b])];
          jobs, message, nextJob := jobs[nextJob := Delete(b, table[b])], message + [nextJob], nextJob + 1;
        }
      }
      assert ids[..|ids|] == ids;
      if message != [] { queue := queue + [message]; }
    }

    // A single-blob move records the blob's current key and refuses a key that is taken.
    method MoveBlob(b: nat, key: string) returns (r: Result<()>)
      requires Valid()
      modifies this`jobs, this`queue, this`nextJob
      ensures Valid()
      ensures b !in table ==> r == Err(BlobNotFound)
      ensures b in table && table[b] != key && key in table.Values ==> r == Err(BlobAlreadyExists)
      ensures b in table && (table[b] == key || key !in table.Values) ==> r.Ok?
      ensures if b in table && table[b] != key && key !in table.Values
              then jobs == old(jobs)[old(nextJob) := Move(b, table[b], key)] && queue == old(queue) + [[old(nextJob)]]
                && nextJob == old(nextJob) + 1
              else jobs == old(jobs) && queue == old(queue) && nextJob == old(nextJob)
    {
      if b !in table { return Err(BlobNotFound); }
      if table[b] == key { return Ok(()); }
      if key in table.Values { return Err(BlobAlreadyExists); }
      Enqueue(Move(b, table[b], key));
      return Ok(());
    }

    method MoveWithPrefix(prefix: string, toPrefix: string)
      requires Valid() && Movable(prefix, toPrefix)
      modifies this`jobs, this`queue, this`nextJob
      ensures Valid()
      ensures jobs == old(jobs)[old(nextJob) := MovePrefix(prefix, toPrefix)]
              && queue == old(queue) + [[old(nextJob)]] && nextJob == old(nextJob) + 1
    {
      Enqueue(MovePrefix(prefix, toPrefix));
    }


    method ProcessBlobJobs(ids: seq<nat>) returns (ok: bool)
      requires Valid()
      modifies this`table, this`jobs, storage
      ensures Valid()
      ensures Outcome(Sys(), ok) == HandleMessage(old(Sys()), JobsFor(ids, old(jobs)))
      ensures exists k :: RanTo(old(Sys()), InOrder(JobsFor(ids, old(jobs))), k, Outcome(Sys(), ok))
      ensures ok ==> jobs == map j | j in old(jobs) && j !in ids :: old(jobs)[j]
    {
      hide RanTo, InOrder, JobIds;
      var found := JobsFor(ids, jobs);
      ghost var k := MessageRan(Sys(), found);
      ProcessDeleteJobs(found);
      ProcessDeletePrefixJobs(found);
      ok := ProcessMoveJobs(found);
      if ok { ok := ProcessMovePrefixJobs(found); }
      assert RanTo(old(Sys()), InOrder(found), k, Outcome(Sys(), ok));
      if ok { MessageJobs(old(Sys()), ids, k, Outcome(Sys(), ok)); }
    }

    method ProcessDeleteJobs(found: seq<Job>)
      requires Valid()
      modifies this`table, this`jobs, storage
      ensures Valid() && Sys() == HandleKind(old(Sys()), found, Deletes).sys
    {
      var jobIds: set<nat>, blobIds: set<nat>, storageKeys: seq<string> := {}, {}, [];
      for n := 0 to |found|
        invariant jobIds == DeleteIds(found[..n]) && blobIds == DeleteBlobs(found[..n])
        invariant forall k :: k in storageKeys <==> k in DeleteKeys(found[..n])
      {
        assert found[..n + 1] == found[..n] + [found[n]];
        var p := found[n].payload;
        if p.Delete? {
          jobIds, blobIds, storageKeys := jobIds + {found[n].id}, blobIds + {p.blob}, storageKeys + [p.key];
        }
      }
      assert found[..|found|] == found;
      BatchedDeletes(Sys(), found);
      storage.Delete(storageKeys);
      assert storage.objects == old(storage.objects) - DeleteKeys(found);
      table := table - blobIds;
      jobs := jobs - jobIds;
    }

    method ProcessDeletePrefixJobs(found: seq<Job>)
      requires Valid()
      modifies this`table, this`jobs, storage
      ensures Valid() && Sys() == HandleKind(old(Sys()), found, DeletePrefixes).sys
      ensures exists k :: RanTo(old(Sys()), OfKind(found, DeletePrefixes), k, Outcome(Sys(), true))
    {
      hide RanTo;
      ghost var goal := HandleKind(Sys(), found, DeletePrefixes);
      ghost var k := KindRan(Sys(), found, DeletePrefixes);
      DeletesRun(Sys(), found, DeletePrefixes);
      for n := 0 to |found|
        invariant Valid() && goal == HandleKind(Sys(), found[n..], DeletePrefixes)
      {
        assert found[n..][1..] == found[n + 1..];
        if found[n].payload.DeletePrefix? {
          CanRunMeans(found[n].payload, Sys().store);
          var prefix := found[n].payload.prefix;
          storage.DeleteRecursive(prefix);
          table := map b | b in table && !(prefix <= table[b]) :: table[b];
          jobs := jobs - {found[n].id};
        }
      }
    }

    method ProcessMoveJobs(found: seq<Job>) returns (ok: bool)
      requires Valid()
      modifies this`table, this`jobs, storage
      ensures Valid() && Outcome(Sys(), ok) == HandleKind(old(Sys()), found, Moves)
      ensures exists k :: RanTo(old(Sys()), OfKind(found, Moves), k, Outcome(Sys(), ok))
    {
      hide RanTo;
      ghost var goal := HandleKind(Sys(), found, Moves);
      ghost var k := KindRan(Sys(), found, Moves);
      for n := 0 to |found|
        invariant Valid() && goal == HandleKind(Sys(), found[n..], Moves)
      {
        assert found[n..][1..] == found[n + 1..];
        if found[n].payload.Move? {
          var p := found[n].payload;
          CanRunMeans(p, Sys().store);
          ok := storage.Move(p.at, p.to);
          if !ok { return; }
          ok := !(p.blob in table && exists c :: c in table && c != p.blob && table[c] == p.to);
          if !ok { return; }
          if p.blob in table { table := table[p.blob := p.to]; }
          jobs := jobs - {found[n].id};
        }
      }
      ok := true;
    }

    method MoveDir(at: string, to: string)
      requires Movable(at, to)
      modifies storage
      ensures storage.objects == if at == to then DropPrefix(old(storage.objects), at)
              else Rename(old(storage.objects), at, to)
    {
      ghost var s := storage.objects;
      storage.MoveDir(at, to);
      ghost var order :| Listing(order, s, at) && storage.objects == Play(EffectsOf(MovePrefix(at, to), order), s);
      EffectsAreApply(MovePrefix(at, to), Store(map[], s), order);
    }

    method ProcessMovePrefixJobs(found: seq<Job>) returns (ok: bool)
      requires Valid() && forall j :: j in found && j.payload.MovePrefix? ==> Movable(j.payload.at, j.payload.to)
      modifies this`table, this`jobs, storage
      ensures Valid() && Outcome(Sys(), ok) == HandleKind(old(Sys()), found, MovePrefixes)
      ensures exists k :: RanTo(old(Sys()), OfKind(found, MovePrefixes), k, Outcome(Sys(), ok))
    {
      hide RanTo;
      ghost var goal := HandleKind(Sys(), found, MovePrefixes);
      ghost var k := KindRan(Sys(), found, MovePrefixes);
      for n := 0 to |found|
        invariant Valid() && goal == HandleKind(Sys(), found[n..], MovePrefixes)
      {
        assert found[n..][1..] == found[n + 1..];
        if found[n].payload.MovePrefix? {
          var p := found[n].payload;
          MoveDir(p.at, p.to);
          var renamed := map b | b in table :: Rekey(p.at, p.to, table[b]);
          ok := DistinctKeys(renamed);
          if !ok { return; }
          table := renamed;
          jobs := jobs - {found[n].id};
        }
      }
      ok := true;
    }
  }
}
