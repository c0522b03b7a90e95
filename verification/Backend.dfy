/** The services put together: every call that succeeds is a step of the runs and, when allowed, keeps what holds over
    them. */
module Backend {
  import opened Paths
  import opened Rows
  import opened Trees
  import opened FileTable
  import opened Folders
  import opened Steps
  import opened Names
  import opened Uploads
  import opened BlobStore
  import opened Blobs
  import opened Keys
  import opened FileCore
  import opened Runs
  import opened Lag
  import opened Attempts
  import opened UseCases

  // Every message holds one stored job, no job is queued twice, and every stored job is queued.
  ghost predicate QueueOk(queue: seq<seq<nat>>, jobs: map<nat, Payload>) {
    && (forall n :: 0 <= n < |queue| ==> |queue[n]| == 1 && queue[n][0] in jobs)
    && (forall m, n :: 0 <= m < n < |queue| ==> queue[m][0] != queue[n][0])
    && (forall j :: j in jobs ==> [j] in queue)
  }

  // The jobs the worker still has to run, in order.
  ghost function Pending(queue: seq<seq<nat>>, jobs: map<nat, Payload>): seq<Payload>
    requires QueueOk(queue, jobs)
  {
    seq(|queue|, n requires 0 <= n < |queue| => jobs[queue[n][0]])
  }

  lemma PendingQueued(queue: seq<seq<nat>>, jobs: map<nat, Payload>, id: nat, p: Payload)
    requires QueueOk(queue, jobs) && forall j :: j in jobs ==> j < id
    ensures QueueOk(queue + [[id]], jobs[id := p])
    ensures Pending(queue + [[id]], jobs[id := p]) == Pending(queue, jobs) + [p]
  {
    assert (queue + [[id]])[|queue|] == [id];
    forall j | j in jobs ensures [j] in queue + [[id]] { assert [j] in queue; }
  }

  lemma PendingDone(queue: seq<seq<nat>>, jobs: map<nat, Payload>)
    requires QueueOk(queue, jobs) && queue != []
    ensures var jobs' := jobs - {queue[0][0]};
            QueueOk(queue[1..], jobs') && Pending(queue[1..], jobs') == Pending(queue, jobs)[1..]
  {
    forall n | 0 <= n < |queue| - 1 ensures queue[1..][n] == queue[n + 1] { }
    forall j | j in jobs && j != queue[0][0] ensures [j] in queue[1..] {
      var n :| 0 <= n < |queue| && queue[n] == [j];
      assert queue[1..][n - 1] == [j];
    }
  }

  class Backend {
    const namespaces: NamespaceService
    const core: FileCoreService
    ghost var contents: map<nat, Bytes>  // what each blob was uploaded with
    ghost var history: seq<Table>        // the tree after each queued operation
    ghost var done: nat                  // how many jobs the worker has run

    ghost predicate Wired()
      reads this, core, core.files, core.blobs
    {
      && core.files.Valid() && core.blobs.Valid() && namespaces.filecore == core
      && QueueOk(core.blobs.queue, core.blobs.jobs)
    }

    ghost function State(): World
      requires Wired()
      reads this, core, core.files, core.blobs, core.blobs.storage
    {
      World(core.owners, core.files.rows, core.files.nextId, core.blobs.Sys().store, core.blobs.nextBlob, contents,
            Pending(core.blobs.queue, core.blobs.jobs))
    }

    // Blob table and storage are the tree as it stood after the operations whose jobs have run.
    ghost predicate Valid()
      reads this, core, core.files, core.blobs, core.blobs.storage
    {
      Wired() && Lagged(State(), history, done)
    }

    constructor ()
      ensures Valid() && State() == EMPTY
    {
      var service := new FileCoreService();
      core := service;
      namespaces := new NamespaceService(service);
      contents, history, done := map[], [map[]], 0;
      new;
      EmptyIsLagged();
    }

    // The ghost history follows an allowed step; after any other the state is not one of the lagged ones.
    ghost method Follow(w: World, ev: Event)
      requires Wired() && history != [] && Lagged(w, history, done) && Step(w, ev, State())
      modifies this`history, this`done
      ensures Wired() && State() == old(State())
      ensures Allowed(w, ev) ==> Valid() && done == DoneAfter(old(done), ev)
      ensures !TreeAllowed(w, ev) ==> !Valid()
      ensures GoodWorld(State()) <==> TreeAllowed(w, ev)
      ensures Sized(w.rows) && TreeAllowed(w, ev) ==> (Sized(core.files.rows) <==> SizesAllowed(w, ev))
    {
      hide Tree, Sized, Lagged, Allowed, TreeAllowed, SizesAllowed, Step, QueueOk, Pending;
      LaggedIsGood(w, history, done);
      StepKeepsTreeIff(w, ev, State());
      if Sized(w.rows) && TreeAllowed(w, ev) { StepKeepsSizedIff(w, ev, State()); }
      NotLagged(State());
      if Allowed(w, ev) {
        StepKeepsLagged(w, history, done, ev, State());
        history, done := HistoryAfter(history, w, ev, State()), DoneAfter(done, ev);
      }
    }

    lemma Now(w: World)
      requires Wired() && w == State() && Lagged(w, history, done)
      ensures core.Valid() && OwnersOk(core.owners) && history != [] && w.nextRow == core.files.nextId
    {
    }

    // A second namespace of one owner keeps the tree but not the refinement.
    method CreateNamespace(ns: string, owner: string) returns (r: Result<()>)
      requires Valid() && IsOwner(owner)
      modifies this`history, this`done, core`owners, core.files
      ensures Wired() && GoodWorld(State()) && (r.Ok? <==> ns !in old(core.owners))
      ensures r.Err? ==> Valid() && State() == old(State())
      ensures r.Ok? ==>
                && Step(old(State()), Event.CreateNamespace(ns, owner), State())
                && (Valid() <==> owner !in old(core.owners).Values)
      ensures Sized(old(core.files.rows)) ==> Sized(core.files.rows)
    {
      hide Lagged, Tree, Sized, OwnersOk, QueueOk, Pending, NamespaceRows, IsOwner;
      ghost var w := State();
      Now(w);
      LaggedIsGood(w, history, done);
      r := namespaces.Create(ns, owner);
      if r.Ok? {
        Follow(w, Event.CreateNamespace(ns, owner));
        if owner in w.owners.Values { TwoNamespaces(w, ns, owner, State()); }
      }
    }

    // A folder that is made keeps the refinement exactly when it keeps the tree.
    method CreateFolder(ns: string, path: Path) returns (r: Result<Stored>)
      requires Valid()
      modifies this`history, this`done, core.files
      ensures Wired()
      ensures r.Err? ==> Valid() && State() == old(State())
      ensures r.Ok? ==>
                && Step(old(State()), Event.CreateFolder(ns, path), State())
                && (Valid() <==> old(TreeAllowed(State(), Event.CreateFolder(ns, path))))
      ensures Valid() && Sized(old(core.files.rows)) ==> Sized(core.files.rows)
    {
      hide Lagged, Tree, Sized, OwnersOk, QueueOk, Pending, ToSave, SavedBatch, OnPath, IsLast, TreeAllowed, Unblocked;
      ghost var w := State();
      Now(w);
      r := core.CreateFolder(ns, path);
      if r.Ok? {
        assert FolderCreated(w, ns, path, core.files.rows);
        Follow(w, Event.CreateFolder(ns, path));
      }
    }

    // With no job pending an upload into a known namespace succeeds when the path or its next number is free; it keeps
    // the refinement exactly when the parent is also spelled as stored, or the number is a file with the same bytes.
    method Upload(ns: string, path: Path, content: Bytes) returns (r: Result<Stored>, ghost count: nat)
      requires Valid() && core.blobs.queue == [] && (ns in core.owners ==> Clean(core.owners[ns], path))
      modifies this, core.files, core.blobs, core.blobs.storage
      ensures Wired()
      ensures ns !in core.owners || !Unblocked(old(core.files.rows), ns, Parent(path)) ==>
                r.Err? && Valid() && State() == old(State())
      ensures ns in core.owners && Unblocked(old(core.files.rows), ns, Parent(path)) ==>
                && (FreeNumber(old(core.files.rows), ns, path, count) ==> r.Ok?)
                && (Valid() <==>
                    if FreeNumber(old(core.files.rows), ns, path, count)
                    then SpelledAsStored(old(core.files.rows), ns, Parent(path))
                    else SameBytes(old(State()), ns, NumberedPath(path, count + 1), content))
      ensures r.Ok? ==> Step(old(State()), Event.Upload(ns, path, content, count), State())
      ensures r.Ok? && Valid() && Sized(old(core.files.rows)) ==> Sized(core.files.rows)
    {
      hide Lagged, Tree, OwnersOk, QueueOk, Pending, SpelledAsStored, FreeNumber, SameBytes, Unblocked, CreateOutcome;
      hide Clean, Step, Sized;
      ghost var w := State();
      Now(w);
      NonePending(core.blobs.queue, core.blobs.jobs);
      r, count := core.CreateFile(ns, path, content);
      if ns in core.owners && r != Err(NotADirectory) { Settle(w, ns, path, content, count, r); }
      if Valid() { LaggedIsGood(State(), history, done); }
    }

    // What an attempted upload leaves behind.
    ghost method Settle(w: World, ns: string, path: Path, content: Bytes, count: nat, r: Result<Stored>)
      requires Wired() && Lagged(w, history, done) && w.jobs == [] && ns in w.owners && Clean(w.owners[ns], path)
      requires State().owners == w.owners && State().jobs == w.jobs && contents == w.contents
      requires CreateOutcome(w.rows, w.nextRow, w.owners, ns, path, count, content, w.store, w.nextBlob, r,
               State().rows, State().store)
      requires State().nextBlob == w.nextBlob + if r == Err(IntegrityError) then 0 else 1
      modifies this`contents, this`history
      ensures Wired()
      ensures FreeNumber(w.rows, ns, path, count) ==> r.Ok?
      ensures Valid() <==> if FreeNumber(w.rows, ns, path, count) then SpelledAsStored(w.rows, ns, Parent(path))
                           else SameBytes(w, ns, NumberedPath(path, count + 1), content)
      ensures r.Ok? ==> Step(w, Event.Upload(ns, path, content, count), State())
    {
      hide GoodWorld, Lagged, Tree, OwnersOk, QueueOk, Pending, SpelledAsStored, FreeNumber, SameBytes, CreateOutcome;
      hide Clean, Step, Attempted;
      if r != Err(IntegrityError) { contents := contents[w.nextBlob := content]; }
      LaggedLast(w, history, done);
      ghost var before := history;
      history := history[|history| - 1 := core.files.rows];
      AttemptedNow(w, ns, path, content, count, r, State());
      UploadKeepsLaggedIff(w, before, done, ns, path, content, count, r, State());
      if r.Ok? { AttemptIsStep(w, ns, path, content, count, r, State()); }
    }

    // A move keeps the tree exactly when it is free to, and the refinement when it is also allowed to.
    method MoveItem(atNs: string, at: Path, toNs: string, to: Path) returns (r: Result<Stored>)
      requires Valid() && (atNs == toNs || at != [])
      modifies this`history, this`done, core.files`rows, core.blobs`jobs, core.blobs`queue, core.blobs`nextJob
      ensures Wired()
      ensures r.Err? ==> Valid() && State() == old(State())
      ensures r.Ok? ==>
                && Step(old(State()), Event.MoveItem(atNs, at, toNs, to), State())
                && (GoodWorld(State()) <==> old(TreeAllowed(State(), Event.MoveItem(atNs, at, toNs, to))))
                && (old(Allowed(State(), Event.MoveItem(atNs, at, toNs, to))) ==> Valid())
      ensures Sized(old(core.files.rows)) && GoodWorld(State()) ==> Sized(core.files.rows)
    {
      hide GoodWorld, TreeAllowed, Lagged, Tree, Sized, OwnersOk, QueueOk, Pending, MovedTo, MoveError, Allowed;
      hide Relocated, IntoItself, FileAt, Taken, Same, At;
      ghost var w := State();
      ghost var queue, jobs, id := core.blobs.queue, core.blobs.jobs, core.blobs.nextJob;
      Now(w);
      OneNamespaceEach(core.owners, atNs, toNs);
      r := core.Move(atNs, at, toNs, to);
      if r.Ok? {
        ghost var j := MoveJobAt(w.rows, r.value.id, core.owners, toNs, r.value.row.path, core.blobs.table);
        if j.Some? { PendingQueued(queue, jobs, id, j.value); }
        MoveKnown(w, atNs, at, toNs, to, r.value.id, r.value.row.path, core.files.rows);
        assert Moved(w, atNs, at, toNs, to, r.value.id, r.value.row.path, State());
        Follow(w, Event.MoveItem(atNs, at, toNs, to));
      }
    }

    // Deleting anything but the root keeps the tree, and the refinement when it is also allowed to.
    method DeleteItem(ns: string, path: Path) returns (r: Result<Stored>)
      requires Valid() && path != []
      modifies this`history, this`done, core.files`rows, core.blobs`jobs, core.blobs`queue, core.blobs`nextJob
      ensures Wired() && GoodWorld(State())
      ensures r.Err? ==> Valid() && State() == old(State())
      ensures r.Ok? ==>
                && Step(old(State()), Event.DeleteItem(ns, path), State())
                && (old(Allowed(State(), Event.DeleteItem(ns, path))) ==> Valid())
      ensures Sized(old(core.files.rows)) ==> Sized(core.files.rows)
    {
      hide Lagged, Tree, Sized, OwnersOk, QueueOk, Pending, Removed, DeleteSteps, Same;
      ghost var w := State();
      ghost var queue, jobs, id := core.blobs.queue, core.blobs.jobs, core.blobs.nextJob;
      Now(w);
      LaggedIsGood(w, history, done);
      r := core.Delete(ns, path);
      if r.Ok? {
        ghost var j := DeleteJob(r.value.row, core.blobs.table);
        if j.Some? { PendingQueued(queue, jobs, id, j.value); }
        DeletedRows(w.rows, core.owners, r.value, path);
        assert Deleted(w, ns, path, r.value, State());
        Follow(w, Event.DeleteItem(ns, path));
      }
    }

    // A folder emptied in any spelling keeps the refinement; its sizes stay right exactly when there were none or the
    // spelling is the stored one.
    method EmptyFolder(ns: string, path: Path) returns (r: Result<()>)
      requires Valid() && path != []
      modifies this`history, this`done, core.files`rows, core.blobs`jobs, core.blobs`queue, core.blobs`nextJob
      ensures Valid()
      ensures if r.Ok? then Step(old(State()), Event.EmptyFolder(ns, path), State()) else State() == old(State())
      ensures r.Ok? && Sized(old(core.files.rows)) ==>
                (Sized(core.files.rows) <==> SizesAllowed(old(State()), Event.EmptyFolder(ns, path)))
    {
      hide GoodWorld, Lagged, Tree, Sized, Allowed, TreeAllowed, SizesAllowed, OwnersOk, QueueOk, Pending, EmptySteps;
      hide Same, KeyPrefix;
      ghost var w := State();
      ghost var queue, jobs, id := core.blobs.queue, core.blobs.jobs, core.blobs.nextJob;
      Now(w);
      r := core.EmptyFolder(ns, path);
      if r.Ok? {
        ghost var i :| i in w.rows && At(w.rows[i], ns, path);
        OwnerOf(w.rows, w.owners, i);
        if w.rows[i].size != 0 {
          PendingQueued(queue, jobs, id, DeletePrefix(KeyPrefix(core.owners[ns], w.rows[i].path)));
        }
        assert Emptied(w, ns, path, Stored(i, w.rows[i]), State());
        EmptyAllowed(w, ns, path);
        Follow(w, Event.EmptyFolder(ns, path));
      }
    }

    // The worker takes the first message; its job never fails.
    method Work() returns (ok: bool)
      requires Valid() && core.blobs.queue != []
      modifies this`history, this`done, core.blobs`table, core.blobs`jobs, core.blobs`queue, core.blobs.storage
      ensures ok && Valid() && Step(old(State()), Event.Work, State()) && done == old(done) + 1
    {
      hide Lagged, Tree, OwnersOk, Apply, CanRun, DistinctKeys, RanTo, InOrder;
      ghost var w := State();
      var message := core.blobs.queue[0];
      ghost var queue, jobs := core.blobs.queue, core.blobs.jobs;
      ghost var sys := core.blobs.Sys();
      Now(w);
      PendingDone(queue, jobs);
      NextJobRuns(w, history, done);
      assert JobsFor(message, jobs) == [Job(message[0], jobs[message[0]])] by {
        assert message[1..] == [];
      }
      SingleJobMessage(sys, Job(message[0], jobs[message[0]]));
      ok := core.blobs.ProcessBlobJobs(message);
      core.blobs.queue := core.blobs.queue[1..];
      Follow(w, Event.Work);
    }
  }

  lemma AttemptedNow(w: World, ns: string, path: Path, content: Bytes, count: nat, r: Result<Stored>, w': World)
    requires ns in w.owners && RowsBefore(w'.rows, w'.nextRow) && w'.owners == w.owners && w'.jobs == w.jobs
    requires CreateOutcome(w.rows, w.nextRow, w.owners, ns, path, count, content, w.store, w.nextBlob, r, w'.rows,
             w'.store)
    requires w'.nextBlob == w.nextBlob + if r == Err(IntegrityError) then 0 else 1
    requires w'.contents == if r == Err(IntegrityError) then w.contents else w.contents[w.nextBlob := content]
    ensures Attempted(w, ns, path, content, count, r, w')
  {
    hide CreateOutcome;
  }

  lemma LaggedIsGood(w: World, hist: seq<Table>, k: nat)
    requires Lagged(w, hist, k)
    ensures GoodWorld(w)
  {
  }

  lemma NotLagged(w: World)
    ensures !GoodWorld(w) ==> forall hist, k :: !Lagged(w, hist, k)
  {
  }

  lemma LaggedLast(w: World, hist: seq<Table>, k: nat)
    requires Lagged(w, hist, k)
    ensures hist != []
  {
  }

  lemma NonePending(queue: seq<seq<nat>>, jobs: map<nat, Payload>)
    requires QueueOk(queue, jobs)
    ensures queue == [] <==> Pending(queue, jobs) == []
  {
  }

  lemma TwoNamespaces(w: World, ns: string, owner: string, w': World)
    requires ns !in w.owners && owner in w.owners.Values && w'.owners == w.owners[ns := owner]
    ensures forall hist, k :: !Lagged(w', hist, k)
  {
    var m :| m in w.owners && w.owners[m] == owner;
    assert !OwnersApart(w'.owners, m, ns);
  }

  lemma EmptyAllowed(w: World, ns: string, path: Path)
    requires path != []
    ensures var ev := Event.EmptyFolder(ns, path); TreeAllowed(w, ev) && Allowed(w, ev)
  {
  }

  lemma OneNamespaceEach(owners: Owners, m: string, n: string)
    requires OwnersOk(owners)
    ensures OwnersApart(owners, m, n)
  {
  }

  lemma OwnerOf(t: Table, owners: Owners, i: nat)
    requires Tree(t, owners) && i in t
    ensures t[i].ns in owners && t[i].owner == owners[t[i].ns]
  {
  }

  // What the delete's contract and its queries say is the same.
  lemma DeletedRows(t: Table, owners: Owners, f: Stored, path: Path)
    requires Tree(t, owners) && f.id in t && t[f.id] == f.row && Same(f.row.path, path) && path != []
    ensures DeleteSteps(t, f.id, path) == Removed(t, f.row.ns, f.row.path, true, f.row.size)
  {
    hide DeleteSteps, Removed;
    DeleteIsRemoval(t, f.id, path);
  }

  lemma MoveKnown(w: World, atNs: string, at: Path, toNs: string, to: Path, i: nat, next: Path, rows: Table)
    requires MovedTo(w.rows, w.owners, atNs, at, toNs, to, i, next, rows)
    ensures i in w.rows && toNs in w.owners
  {
  }
}
