/** Photo albums and their covers. */
module Albums {
  import opened Rows
  import Blobs
  import BlobStore

  datatype MediaItem = MediaItem(owner: string, blob: nat, deletedAt: Option<int>, modifiedAt: int)

  datatype Album = Album(owner: string, slug: string, items: set<nat>, cover: Option<nat>, count: int)

  datatype Photos = Photos(albums: map<nat, Album>, media: map<nat, MediaItem>)

  datatype Answer<+T> = Done(value: T) | AlbumNotFound | UnknownItem

  predicate Live(s: Photos, i: nat) {
    i in s.media && s.media[i].deletedAt.None?
  }

  // ----- Covers

  // Later modified first, then by id.
  predicate Precedes(s: Photos, i: nat, j: nat)
    requires i in s.media && j in s.media
  {
    s.media[i].modifiedAt > s.media[j].modifiedAt || (s.media[i].modifiedAt == s.media[j].modifiedAt && i <= j)
  }

  predicate LiveMember(s: Photos, a: Album, i: nat) {
    i in a.items && Live(s, i)
  }

  ghost predicate IsCandidate(s: Photos, a: Album, i: nat) {
    LiveMember(s, a, i) && forall j :: LiveMember(s, a, j) ==> Precedes(s, i, j)
  }

  // The cover an album should have when it needs a new one: the live member modified last, of several modified then the
  // one with the lowest id, and none only when no member is live.
  ghost predicate BestCover(s: Photos, a: Album) {
    if a.cover.None? then forall j :: !LiveMember(s, a, j)
    else
      && LiveMember(s, a, a.cover.value)
      && forall j :: LiveMember(s, a, j) ==>
           var i := a.cover.value;
           || s.media[j].modifiedAt < s.media[i].modifiedAt
           || (s.media[j].modifiedAt == s.media[i].modifiedAt && i <= j)
  }

  // The cover list_cover_candidates offers for an album.
  ghost function Candidate(s: Photos, a: Album): Option<nat> {
    if i :| IsCandidate(s, a, i) then Some(i) else None
  }

  predicate IsFirst(s: Photos, ids: set<nat>, i: nat)
    requires forall j :: j in ids ==> j in s.media
  {
    i in ids && forall j :: j in ids ==> Precedes(s, i, j)
  }

  lemma FirstStep(s: Photos, ids: set<nat>, i: nat, k: nat)
    requires k in s.media && (forall j :: j in ids ==> j in s.media) && IsFirst(s, ids, i)
    ensures IsFirst(s, ids + {k}, if Precedes(s, i, k) then i else k)
  {
  }

  lemma {:induction false} FirstOf(s: Photos, live: set<nat>) returns (i: nat)
    requires live != {} && forall j :: j in live ==> j in s.media
    ensures IsFirst(s, live, i)
    decreases |live|
  {
    i :| i in live;
    var rest := live - {i};
    assert live == rest + {i};
    if rest != {} {
      var k := FirstOf(s, rest);
      FirstStep(s, rest, k, i);
      i := if Precedes(s, k, i) then k else i;
    }
  }

  /** The candidate is the live member modified last, ties going to the lowest id; there is none exactly when no
      member is live. */
  lemma CandidateIsFirst(s: Photos, a: Album)
    ensures Candidate(s, a).Some? <==> exists j :: LiveMember(s, a, j)
    ensures forall i: nat :: Candidate(s, a) == Some(i) <==> IsCandidate(s, a, i)
  {
    if j :| LiveMember(s, a, j) {
      var live := set k | k in a.items && LiveMember(s, a, k);
      assert j in live;
      var i := FirstOf(s, live);
      assert IsCandidate(s, a, i);
    }
  }

  /** In plain words: the latest modification wins, then the lowest id. */
  lemma CandidateIsBest(s: Photos, a: Album)
    ensures BestCover(s, a.(cover := Candidate(s, a)))
  {
    hide Candidate;
    CandidateIsFirst(s, a);
    var b := a.(cover := Candidate(s, a));
    assert forall j :: LiveMember(s, b, j) <==> LiveMember(s, a, j);
    if b.cover.Some? {
      assert IsCandidate(s, a, b.cover.value);
      forall j | LiveMember(s, b, j) ensures Precedes(s, b.cover.value, j) { assert LiveMember(s, a, j); }
    }
  }

  lemma OnlyOne(s: Photos, i: nat)
    requires i in s.media
    ensures IsFirst(s, {} + {i}, i)
  {
  }

  lemma FirstIsCandidate(s: Photos, a: Album, live: set<nat>, r: Option<nat>)
    requires (forall i :: i in live <==> LiveMember(s, a, i)) && forall i :: i in live ==> i in s.media
    requires if r.None? then live == {} else IsFirst(s, live, r.value)
    ensures r.Some? ==> IsCandidate(s, a, r.value)
    ensures r.None? ==> forall i :: !LiveMember(s, a, i)
  {
  }

  // ----- The cover invariant

  // No cover, or a live member.
  predicate CoverOk(s: Photos, a: Album) {
    a.cover.Some? ==> LiveMember(s, a, a.cover.value)
  }

  ghost predicate CoversOk(s: Photos) {
    forall k :: k in s.albums ==> CoverOk(s, s.albums[k])
  }

  // What the foreign keys and the (owner, slug) constraint ensure.
  ghost predicate Linked(s: Photos) {
    && (forall k, i :: k in s.albums && i in s.albums[k].items ==> i in s.media)
    && (forall k :: k in s.albums && s.albums[k].cover.Some? ==> s.albums[k].cover.value in s.media)
    && (forall j, k ::
          j in s.albums && k in s.albums && s.albums[j].owner == s.albums[k].owner
          && s.albums[j].slug == s.albums[k].slug
          ==> j == k)
  }

  // Albums hold only their owner's items.
  ghost predicate OwnItems(s: Photos) {
    forall k, i :: k in s.albums && i in s.albums[k].items && i in s.media ==> s.media[i].owner == s.albums[k].owner
  }

  // ----- Operations on the state

  function Present(s: Photos, ids: seq<nat>): set<nat> {
    set i | i in ids && i in s.media
  }

  function Added(s: Photos, k: nat, ids: seq<nat>): Photos
    requires k in s.albums
  {
    var a := s.albums[k];
    s.(albums := s.albums[k := a.(items := a.items + Present(s, ids), count := a.count + |ids|)])
  }

  function Dropped(s: Photos, k: nat, ids: seq<nat>): Photos
    requires k in s.albums
  {
    var a := s.albums[k];
    s.(albums := s.albums[k := a.(items := a.items - Present(s, ids), count := a.count - |ids|)])
  }

  function Covered(s: Photos, k: nat, cover: Option<nat>): Photos
    requires k in s.albums
  {
    s.(albums := s.albums[k := s.albums[k].(cover := cover)])
  }

  ghost function Reassigned(s: Photos, ks: set<nat>): Photos {
    s.(albums := map k | k in s.albums :: if k in ks then s.albums[k].(cover := Candidate(s, s.albums[k]))
       else s.albums[k])
  }

  function Marked(s: Photos, owner: string, ids: seq<nat>, at: Option<int>): Photos {
    s.(media := map i | i in s.media ::
         if i in ids && s.media[i].owner == owner then s.media[i].(deletedAt := at) else s.media[i])
  }

  // Deleting items drops them from their albums and clears covers that point to them.
  function Erased(s: Photos, gone: set<nat>): Photos {
    Photos(map k | k in s.albums ::
             var a := s.albums[k];
             a.(items := a.items - gone, cover := if a.cover.Some? && a.cover.value in gone then None else a.cover),
           s.media - gone)
  }

  // ----- What each use case does

  datatype Action =
    | Add(k: nat, ids: seq<nat>)
    | Remove(k: nat, ids: seq<nat>)
    | SetCover(k: nat, cover: Option<nat>)
    | SoftDelete(owner: string, ids: seq<nat>, at: int)
    | Restore(owner: string, ids: seq<nat>)
    | Erase(gone: set<nat>)

  // The albums of the owner whose cover is one of the owner's listed items.
  function CoveredBy(s: Photos, owner: string, ids: seq<nat>): set<nat> {
    set k | k in s.albums && s.albums[k].owner == owner && s.albums[k].cover.Some?
            && s.albums[k].cover.value in ids && s.albums[k].cover.value in s.media
              && s.media[s.albums[k].cover.value].owner == owner
  }

  ghost function After(s: Photos, act: Action): Photos {
    match act
    case Add(k, ids) =>
      if k !in s.albums then s
      else if s.albums[k].cover.None? && ids != [] then
        if ids[0] in s.media then Covered(Added(s, k, ids), k, Some(ids[0])) else s
      else Added(s, k, ids)
    case Remove(k, ids) =>
      if k !in s.albums then s
      else if s.albums[k].cover.Some? && s.albums[k].cover.value in ids then Reassigned(Dropped(s, k, ids), {k})
      else Dropped(s, k, ids)
    case SetCover(k, cover) =>
      if k !in s.albums || (cover.Some? && cover.value !in s.media) then s else Covered(s, k, cover)
    case SoftDelete(owner, ids, at) =>
      var t := Marked(s, owner, ids, Some(at));
      Reassigned(t, CoveredBy(t, owner, ids))
    case Restore(owner, ids) => Marked(s, owner, ids, None)
    case Erase(gone) => Erased(s, gone)
  }

  // ----- What the use cases leave, said of the tables before and after

  predicate SameBut(a: Album, b: Album) {
    b.owner == a.owner && b.slug == a.slug
  }

  ghost predicate OthersKept(s: Photos, t: Photos, k: nat) {
    && t.media == s.media && t.albums.Keys == s.albums.Keys
    && forall j :: j in s.albums && j != k ==> t.albums[j] == s.albums[j]
  }

  // Exactly the existing ones of the listed items are new members; the first listed one becomes a missing cover.
  ghost predicate AddedTo(s: Photos, t: Photos, k: nat, ids: seq<nat>)
    requires k in s.albums
  {
    && OthersKept(s, t, k)
    && var a, b := s.albums[k], t.albums[k];
    && SameBut(a, b) && b.count == a.count + |ids|
    && (forall i :: i in b.items <==> i in a.items || (i in ids && i in s.media))
    && b.cover == if a.cover.None? && ids != [] then Some(ids[0]) else a.cover
  }

  // Exactly the listed members are gone; a listed cover gives way to the best of those that are left.
  ghost predicate RemovedFrom(s: Photos, t: Photos, k: nat, ids: seq<nat>)
    requires k in s.albums
  {
    && OthersKept(s, t, k)
    && var a, b := s.albums[k], t.albums[k];
    && SameBut(a, b) && b.count == a.count - |ids|
    && (forall i :: i in b.items <==> i in a.items && i !in ids)
    && if a.cover.Some? && a.cover.value in ids then BestCover(t, b) else b.cover == a.cover
  }

  // Exactly the owner's listed items are deleted at that time, or restored; of the other items and of everything else
  // about them nothing changes.
  ghost predicate MarkedAt(s: Photos, t: Photos, owner: string, ids: seq<nat>, at: Option<int>) {
    && t.media.Keys == s.media.Keys
    && forall i :: i in s.media ==>
         var x, y := s.media[i], t.media[i];
         && y.owner == x.owner && y.blob == x.blob && y.modifiedAt == x.modifiedAt
         && y.deletedAt == if i in ids && x.owner == owner then at else x.deletedAt
  }

  // The albums of the owner that showed one of the owner's listed items get the best cover left; the others keep
  // theirs.
  ghost predicate CoversRenewed(s: Photos, t: Photos, owner: string, ids: seq<nat>) {
    && t.albums.Keys == s.albums.Keys
    && forall k :: k in s.albums ==>
         var a, b := s.albums[k], t.albums[k];
         && SameBut(a, b) && b.items == a.items && b.count == a.count
         && if Shows(s, a, owner, ids) then BestCover(t, b) else b.cover == a.cover
  }

  predicate Shows(s: Photos, a: Album, owner: string, ids: seq<nat>) {
    && a.owner == owner && a.cover.Some? && a.cover.value in ids
    && a.cover.value in s.media && s.media[a.cover.value].owner == owner
  }

  // Exactly these items are gone, from the table, from every album and from every cover.
  ghost predicate ErasedFrom(s: Photos, t: Photos, gone: set<nat>) {
    && (forall i :: i in t.media <==> i in s.media && i !in gone)
    && (forall i :: i in t.media ==> t.media[i] == s.media[i])
    && t.albums.Keys == s.albums.Keys
    && forall k :: k in s.albums ==>
         var a, b := s.albums[k], t.albums[k];
         && SameBut(a, b) && b.count == a.count
         && (forall i :: i in b.items <==> i in a.items && i !in gone)
         && b.cover == if a.cover.Some? && a.cover.value in gone then None else a.cover
  }

  lemma ReassignedMeans(s: Photos, ks: set<nat>)
    ensures var t := Reassigned(s, ks);
            && t.media == s.media && t.albums.Keys == s.albums.Keys
            && (forall k :: k in s.albums && k !in ks ==> t.albums[k] == s.albums[k])
            && forall k :: k in s.albums && k in ks ==>
                 t.albums[k] == s.albums[k].(cover := t.albums[k].cover) && BestCover(t, t.albums[k])
  {
    hide Candidate, BestCover;
    var t := Reassigned(s, ks);
    forall k | k in s.albums && k in ks ensures BestCover(t, t.albums[k]) {
      CandidateIsBest(s, s.albums[k]);
      CoverOfSame(s, t, t.albums[k]);
    }
  }

  lemma CoverOfSame(s: Photos, t: Photos, a: Album)
    requires s.media == t.media
    ensures BestCover(s, a) <==> BestCover(t, a)
  {
    assert forall j :: LiveMember(s, a, j) <==> LiveMember(t, a, j);
  }

  /** A removal takes exactly the listed members out, and a listed cover is never kept. */
  lemma RemoveMeans(s: Photos, k: nat, ids: seq<nat>)
    requires Linked(s) && k in s.albums
    ensures RemovedFrom(s, After(s, Remove(k, ids)), k, ids)
    ensures var a, b := s.albums[k], After(s, Remove(k, ids)).albums[k];
            && (b.cover.Some? && b.cover != a.cover ==> b.cover.value !in ids)
            && (a.cover.Some? && a.cover.value in ids ==> b.cover != a.cover)
  {
    hide Candidate, BestCover, Reassigned;
    DroppedMembers(s, k, ids);
    ReassignedMeans(Dropped(s, k, ids), {k});
    var t := After(s, Remove(k, ids));
    BestIsMember(t, t.albums[k]);
  }

  lemma DroppedMembers(s: Photos, k: nat, ids: seq<nat>)
    requires Linked(s) && k in s.albums
    ensures forall i :: i in Dropped(s, k, ids).albums[k].items <==> i in s.albums[k].items && i !in ids
  {
  }

  lemma BestIsMember(s: Photos, a: Album)
    ensures BestCover(s, a) && a.cover.Some? ==> a.cover.value in a.items
  {
  }

  lemma AddMeans(s: Photos, k: nat, ids: seq<nat>)
    requires k in s.albums && (s.albums[k].cover.None? && ids != [] ==> ids[0] in s.media)
    ensures AddedTo(s, After(s, Add(k, ids)), k, ids)
  {
  }

  lemma SoftDeleteMeans(s: Photos, owner: string, ids: seq<nat>, at: int)
    ensures var t := After(s, SoftDelete(owner, ids, at));
            MarkedAt(s, t, owner, ids, Some(at)) && CoversRenewed(s, t, owner, ids)
  {
    hide Candidate, BestCover, Reassigned;
    var m := Marked(s, owner, ids, Some(at));
    ReassignedMeans(m, CoveredBy(m, owner, ids));
    forall k | k in s.albums ensures k in CoveredBy(m, owner, ids) <==> Shows(s, s.albums[k], owner, ids) { }
  }

  lemma MarkMeans(s: Photos, owner: string, ids: seq<nat>, at: Option<int>)
    ensures MarkedAt(s, Marked(s, owner, ids, at), owner, ids, at)
    ensures forall i :: Live(Marked(s, owner, ids, at), i)
              <==> i in s.media && if i in ids && s.media[i].owner == owner then at.None? else Live(s, i)
  {
  }

  lemma EraseMeans(s: Photos, gone: set<nat>)
    ensures ErasedFrom(s, After(s, Erase(gone)), gone)
  {
  }

  // Another owner's album uses one of the owner's listed items as its cover.
  predicate ForeignCover(s: Photos, owner: string, ids: seq<nat>, k: nat)
    requires k in s.albums
  {
    && s.albums[k].owner != owner && s.albums[k].cover.Some? && s.albums[k].cover.value in ids
    && s.albums[k].cover.value in s.media && s.media[s.albums[k].cover.value].owner == owner
  }

  // Whether the action leaves every cover empty or live, given that they are before.
  ghost predicate Keeps(s: Photos, act: Action) {
    match act
    case Add(k, ids) => k in s.albums && s.albums[k].cover.None? && ids != [] && ids[0] in s.media ==> Live(s, ids[0])
    case SetCover(k, cover) => k in s.albums && cover.Some? && cover.value in s.media ==>
      LiveMember(s, s.albums[k], cover.value)
    case SoftDelete(owner, ids, at) =>
      forall k :: k in s.albums ==> !ForeignCover(s, owner, ids, k)
    case _ => true
  }

  lemma ReassignedOk(s: Photos, ks: set<nat>)
    ensures forall k :: k in s.albums && k in ks ==> CoverOk(Reassigned(s, ks), Reassigned(s, ks).albums[k])
    ensures forall k :: k in s.albums && k !in ks ==>
            (CoverOk(Reassigned(s, ks), Reassigned(s, ks).albums[k]) <==> CoverOk(s, s.albums[k]))
  {
    hide Candidate;
    forall k | k in s.albums && k in ks ensures CoverOk(Reassigned(s, ks), Reassigned(s, ks).albums[k]) {
      CandidateIsFirst(s, s.albums[k]);
    }
  }

  lemma RemoveKeeps(s: Photos, k: nat, ids: seq<nat>)
    requires CoversOk(s) && k in s.albums
    ensures CoversOk(After(s, Remove(k, ids)))
  {
    hide Reassigned;
    var t := Dropped(s, k, ids);
    ReassignedOk(t, {k});
    ReassignedSame(t, {k});
  }

  lemma ReassignedSame(s: Photos, ks: set<nat>)
    ensures Reassigned(s, ks).albums.Keys == s.albums.Keys && Reassigned(s, ks).media == s.media
    ensures forall k :: k in s.albums ==> Reassigned(s, ks).albums[k].items == s.albums[k].items
    ensures forall k :: k in s.albums ==>
            Reassigned(s, ks).albums[k].owner == s.albums[k].owner
              && Reassigned(s, ks).albums[k].slug == s.albums[k].slug
  {
  }

  lemma SoftDeleteKeeps(s: Photos, owner: string, ids: seq<nat>, at: int)
    requires CoversOk(s) && Linked(s)
    ensures CoversOk(After(s, SoftDelete(owner, ids, at))) <==> Keeps(s, SoftDelete(owner, ids, at))
  {
    hide Reassigned, Linked;
    var t := Marked(s, owner, ids, Some(at));
    var ks := CoveredBy(t, owner, ids);
    var u := Reassigned(t, ks);
    ReassignedOk(t, ks);
    ReassignedSame(t, ks);
    forall k | k in s.albums
      ensures CoverOk(u, u.albums[k]) <==> !ForeignCover(s, owner, ids, k)
    {
      assert CoverOk(s, s.albums[k]);
    }
  }

  /** Covers stay empty or live exactly when the action meets its condition: a first cover must be live, a chosen one a
      live member, and no other owner's album may use a soft-deleted item as its cover. */
  lemma CoversKeptIff(s: Photos, act: Action)
    requires CoversOk(s) && Linked(s)
    ensures CoversOk(After(s, act)) <==> Keeps(s, act)
  {
    hide Linked;
    match act
    case Add(k, ids) => AddKeeps(s, k, ids);
    case Remove(k, ids) => if k in s.albums { RemoveKeeps(s, k, ids); }
    case SetCover(k, cover) => SetCoverKeeps(s, k, cover);
    case SoftDelete(owner, ids, at) =>
      assert Linked(s);
      SoftDeleteKeeps(s, owner, ids, at);
    case Restore(owner, ids) =>
    case Erase(gone) =>
  }

  lemma AddKeeps(s: Photos, k: nat, ids: seq<nat>)
    requires CoversOk(s)
    ensures CoversOk(After(s, Add(k, ids))) <==> Keeps(s, Add(k, ids))
  {
    var t := After(s, Add(k, ids));
    if k in s.albums {
      assert CoverOk(s, s.albums[k]);
      assert CoverOk(t, t.albums[k]) <==> Keeps(s, Add(k, ids));
      forall j | j in s.albums && j != k ensures CoverOk(t, t.albums[j]) { assert CoverOk(s, s.albums[j]); }
    }
  }

  lemma SetCoverKeeps(s: Photos, k: nat, cover: Option<nat>)
    requires CoversOk(s)
    ensures CoversOk(After(s, SetCover(k, cover))) <==> Keeps(s, SetCover(k, cover))
  {
    var t := After(s, SetCover(k, cover));
    if k in s.albums {
      assert CoverOk(t, t.albums[k]) <==> Keeps(s, SetCover(k, cover));
      forall j | j in s.albums && j != k ensures CoverOk(t, t.albums[j]) { assert CoverOk(s, s.albums[j]); }
    }
  }

  // What callers respect: only own items are added, and covers are set to live ones.
  ghost predicate Allowed(s: Photos, act: Action) {
    match act
    case Add(k, ids) => Keeps(s, act) && forall i :: k in s.albums && i in ids && i in s.media ==>
      s.media[i].owner == s.albums[k].owner
    case SetCover(k, cover) => Keeps(s, act)
    case _ => true
  }

  ghost predicate Good(s: Photos) {
    CoversOk(s) && Linked(s) && OwnItems(s)
  }

  lemma LinksKept(s: Photos, act: Action)
    requires Good(s) && Allowed(s, act)
    ensures Linked(After(s, act)) && OwnItems(After(s, act))
  {
    hide Candidate, CoversOk, Linked, OwnItems;
    match act
    case Add(k, ids) => if k in s.albums { AddedLinks(s, k, ids); }
    case Remove(k, ids) => if k in s.albums { DroppedLinks(s, k, ids); ReassignedLinks(Dropped(s, k, ids), {k}); }
    case SetCover(k, cover) =>
      if k in s.albums && (cover.Some? ==> cover.value in s.media) { CoveredLinks(s, k, cover); }
    case SoftDelete(owner, ids, at) =>
      var t := Marked(s, owner, ids, Some(at));
      MarkedLinks(s, owner, ids, Some(at));
      ReassignedLinks(t, CoveredBy(t, owner, ids));
    case Restore(owner, ids) => MarkedLinks(s, owner, ids, None);
    case Erase(gone) => ErasedLinks(s, gone);
  }

  lemma AddedLinks(s: Photos, k: nat, ids: seq<nat>)
    requires Linked(s) && OwnItems(s) && k in s.albums && forall i :: i in ids && i in s.media ==>
             s.media[i].owner == s.albums[k].owner
    ensures Linked(Added(s, k, ids)) && OwnItems(Added(s, k, ids))
    ensures ids != [] && ids[0] in s.media ==>
            var t := Covered(Added(s, k, ids), k, Some(ids[0])); Linked(t) && OwnItems(t)
  {
  }

  lemma DroppedLinks(s: Photos, k: nat, ids: seq<nat>)
    requires Linked(s) && OwnItems(s) && k in s.albums
    ensures Linked(Dropped(s, k, ids)) && OwnItems(Dropped(s, k, ids))
  {
  }

  lemma CoveredLinks(s: Photos, k: nat, cover: Option<nat>)
    requires Linked(s) && OwnItems(s) && k in s.albums && (cover.Some? ==> cover.value in s.media)
    ensures Linked(Covered(s, k, cover)) && OwnItems(Covered(s, k, cover))
  {
  }

  lemma MarkedLinks(s: Photos, owner: string, ids: seq<nat>, at: Option<int>)
    requires Linked(s) && OwnItems(s)
    ensures Linked(Marked(s, owner, ids, at)) && OwnItems(Marked(s, owner, ids, at))
  {
  }

  lemma ErasedLinks(s: Photos, gone: set<nat>)
    requires Linked(s) && OwnItems(s)
    ensures Linked(Erased(s, gone)) && OwnItems(Erased(s, gone))
  {
  }

  lemma ReassignedLinks(s: Photos, ks: set<nat>)
    requires Linked(s) && OwnItems(s)
    ensures Linked(Reassigned(s, ks)) && OwnItems(Reassigned(s, ks))
  {
    hide Candidate;
    forall k | k in s.albums { CandidateIsFirst(s, s.albums[k]); }
  }

  /** In an album of own items the cover is, after any run of allowed actions, none or a live member. */
  lemma {:induction false} CoversStayLive(ss: seq<Photos>, acts: seq<Action>, n: nat)
    requires |ss| == |acts| + 1 && n < |ss| && Good(ss[0])
    requires forall m :: 0 <= m < |acts| ==> Allowed(ss[m], acts[m]) && ss[m + 1] == After(ss[m], acts[m])
    ensures Good(ss[n])
  {
    hide Good, Allowed, After;
    if n > 0 {
      CoversStayLive(ss, acts, n - 1);
      assert ss[n - 1 + 1] == After(ss[n - 1], acts[n - 1]);
      StepStaysGood(ss[n - 1], acts[n - 1]);
    }
  }

  lemma StepStaysGood(s: Photos, act: Action)
    requires Good(s) && Allowed(s, act)
    ensures Good(After(s, act))
  {
    hide After, Linked, CoversOk;
    LinksKept(s, act);
    CoversKeptIff(s, act);
    if act.SoftDelete? { CoversOwn(s, act.owner, act.ids, act.at); }
  }

  lemma CoversOwn(s: Photos, owner: string, ids: seq<nat>, at: int)
    requires Good(s)
    ensures Keeps(s, SoftDelete(owner, ids, at))
  {
    forall k | k in s.albums && s.albums[k].cover.Some? ensures LiveMember(s, s.albums[k], s.albums[k].cover.value) {
      assert CoverOk(s, s.albums[k]);
    }
  }

  // ----- items_count

  function IdSet(ids: seq<nat>): set<nat> {
    set i | i in ids
  }

  lemma {:induction false} DistinctCount(ids: seq<nat>)
    ensures |IdSet(ids)| <= |ids|
    ensures |IdSet(ids)| == |ids| <==> forall i, j :: 0 <= i < j < |ids| ==> ids[i] != ids[j]
  {
    if ids != [] {
      var n := |ids| - 1;
      DistinctCount(ids[..n]);
      assert ids == ids[..n] + [ids[n]];
      assert IdSet(ids) == IdSet(ids[..n]) + {ids[n]};
      if ids[n] in ids[..n] {
        var i :| 0 <= i < n && ids[i] == ids[n];
        assert IdSet(ids) == IdSet(ids[..n]);
      }
    }
  }

  /** Adding counts requested ids, so the count keeps matching the membership exactly when the ids are distinct, exist
      and are not members yet. */
  lemma CountTracksIff(s: Photos, k: nat, ids: seq<nat>)
    requires k in s.albums && s.albums[k].count == |s.albums[k].items|
    ensures var a := Added(s, k, ids).albums[k];
            a.count == |a.items| <==>
            && (forall i, j :: 0 <= i < j < |ids| ==> ids[i] != ids[j])
            && (forall i :: i in ids ==> i in s.media && i !in s.albums[k].items)
  {
    var members, added := s.albums[k].items, Present(s, ids);
    var extra := added - members;
    assert members + added == members + extra;
    assert |members + extra| == |members| + |extra|;
    DistinctCount(ids);
    assert extra <= IdSet(ids);
    SubsetSize(extra, IdSet(ids));
    assert extra == IdSet(ids) <==> forall i :: i in ids ==> i in s.media && i !in members by {
      if extra == IdSet(ids) { forall i | i in ids ensures i in s.media && i !in members { assert i in IdSet(ids); } }
      if forall i :: i in ids ==> i in s.media && i !in members { assert forall i :: i in IdSet(ids) ==> i in extra; }
    }
  }

  /** Removing subtracts requested ids, so the count keeps matching the membership exactly when the ids are distinct
      members. */
  lemma CountTracksRemovalIff(s: Photos, t: Photos, k: nat, ids: seq<nat>)
    requires k in s.albums && s.albums[k].count == |s.albums[k].items| && RemovedFrom(s, t, k, ids)
    ensures t.albums[k].count == |t.albums[k].items| <==>
            && (forall i, j :: 0 <= i < j < |ids| ==> ids[i] != ids[j])
            && (forall i :: i in ids ==> i in s.albums[k].items)
  {
    hide BestCover;
    var members, left := s.albums[k].items, t.albums[k].items;
    var lost := members * IdSet(ids);
    assert members == left + lost;
    assert |left + lost| == |left| + |lost|;
    DistinctCount(ids);
    SubsetSize(lost, IdSet(ids));
    assert lost == IdSet(ids) <==> forall i :: i in ids ==> i in members by {
      if lost == IdSet(ids) { forall i | i in ids ensures i in members { assert i in IdSet(ids); } }
    }
  }

  lemma SubsetSize(a: set<nat>, b: set<nat>)
    requires a <= b
    ensures |a| <= |b| && (|a| == |b| <==> a == b)
  {
    assert b == a + (b - a);
    assert |b| == |a| + |b - a|;
  }

  // ----- The tables and the services over them

  class PhotoTables {
    var albums: map<nat, Album>
    var media: map<nat, MediaItem>

    function State(): Photos
      reads this
    {
      Photos(albums, media)
    }
  }

  // A list of pairs as a dictionary: the last pair of a key wins.
  function Dict<V>(pairs: seq<(nat, V)>): map<nat, V> {
    if pairs == [] then map[] else Dict(pairs[..|pairs| - 1])[pairs[|pairs| - 1].0 := pairs[|pairs| - 1].1]
  }

  lemma {:induction false} DictOf<V>(pairs: seq<(nat, V)>)
    ensures forall k :: k in Dict(pairs) ==> (k, Dict(pairs)[k]) in pairs
    ensures forall x :: x in pairs ==> x.0 in Dict(pairs)
  {
    if pairs != [] {
      DictOf(pairs[..|pairs| - 1]);
      assert pairs == pairs[..|pairs| - 1] + [pairs[|pairs| - 1]];
    }
  }

  // No later pair has the same key.
  predicate IsLastPair<V>(pairs: seq<(nat, V)>, n: nat)
    requires n < |pairs|
  {
    forall m :: n < m < |pairs| ==> pairs[m].0 != pairs[n].0
  }

  lemma {:induction false} LastPairs<V>(pairs: seq<(nat, V)>)
    ensures forall n: nat :: n < |pairs| && IsLastPair(pairs, n) ==>
              pairs[n].0 in Dict(pairs) && Dict(pairs)[pairs[n].0] == pairs[n].1
  {
    if pairs != [] {
      var last := |pairs| - 1;
      LastPairs(pairs[..last]);
      forall n: nat | n < |pairs| && IsLastPair(pairs, n)
        ensures pairs[n].0 in Dict(pairs) && Dict(pairs)[pairs[n].0] == pairs[n].1
      {
        if n < last {
          assert pairs[last].0 != pairs[n].0 && pairs[..last][n] == pairs[n];
          assert IsLastPair(pairs[..last], n);
        }
      }
    }
  }

  class AlbumRepository {
    const db: PhotoTables

    constructor (db: PhotoTables)
      ensures this.db == db
    {
      this.db := db;
    }

    method Find(owner: string, slug: string) returns (r: Option<nat>)
      ensures r.Some? ==> Named(db.albums, r.value, owner, slug)
      ensures r.None? <==> Missing(db.albums, owner, slug)
    {
      if k :| k in db.albums && db.albums[k].owner == owner && db.albums[k].slug == slug {
        assert Named(db.albums, k, owner, slug);
        return Some(k);
      }
      r := None;
    }

    method AddItems(owner: string, slug: string, ids: seq<nat>) returns (r: Answer<nat>)
      modifies db
      ensures !r.UnknownItem?
      ensures r.AlbumNotFound? <==> Missing(old(db.albums), owner, slug)
      ensures r.AlbumNotFound? ==> db.State() == old(db.State())
      ensures r.Done? ==>
              Named(old(db.albums), r.value, owner, slug) && db.State() == Added(old(db.State()), r.value, ids)
    {
      var k := Find(owner, slug);
      if k.None? { return AlbumNotFound; }
      var obj := db.albums[k.value];
      var items := set i | i in ids && i in db.media;
      db.albums := db.albums[k.value := obj.(items := obj.items + items, count := obj.count + |ids|)];
      r := Done(k.value);
    }

    method RemoveItems(owner: string, slug: string, ids: seq<nat>) returns (r: Answer<nat>)
      modifies db
      ensures !r.UnknownItem?
      ensures r.AlbumNotFound? <==> Missing(old(db.albums), owner, slug)
      ensures r.AlbumNotFound? ==> db.State() == old(db.State())
      ensures r.Done? ==>
              Named(old(db.albums), r.value, owner, slug) && db.State() == Dropped(old(db.State()), r.value, ids)
      ensures r.Done? ==>
                && OthersKept(old(db.State()), db.State(), r.value)
                && var a, b := old(db.albums)[r.value], db.albums[r.value];
                && SameBut(a, b) && b.cover == a.cover && b.count == a.count - |ids|
                && forall i :: i in b.items <==> i in a.items && !(i in ids && i in old(db.media))
    {
      var k := Find(owner, slug);
      if k.None? { return AlbumNotFound; }
      var obj := db.albums[k.value];
      var items := set i | i in ids && i in db.media;
      db.albums := db.albums[k.value := obj.(items := obj.items - items, count := obj.count - |ids|)];
      r := Done(k.value);
    }

    // A cover that is not stored breaks the foreign key.
    method SetCover(owner: string, slug: string, cover: Option<nat>) returns (r: Answer<nat>)
      modifies db
      ensures r.AlbumNotFound? <==> Missing(old(db.albums), owner, slug)
      ensures r.UnknownItem? ==> cover.Some? && cover.value !in old(db.media)
      ensures r.Done? ==> (cover.Some? ==> cover.value in old(db.media)) && Named(old(db.albums), r.value, owner, slug)
      ensures db.State() == if r.Done? then Covered(old(db.State()), r.value, cover) else old(db.State())
    {
      var k := Find(owner, slug);
      if k.None? { return AlbumNotFound; }
      if cover.Some? && cover.value !in db.media { return UnknownItem; }
      db.albums := db.albums[k.value := db.albums[k.value].(cover := cover)];
      r := Done(k.value);
    }

    method SetCoverBatch(covers: seq<(nat, Option<nat>)>)
      modifies db
      ensures db.media == old(db.media)
      ensures db.albums == map k | k in old(db.albums) ::
                if k in Dict(covers) then old(db.albums)[k].(cover := Dict(covers)[k]) else old(db.albums)[k]
      ensures forall n :: 0 <= n < |covers| && IsLastPair(covers, n) && covers[n].0 in old(db.albums) ==>
                db.albums[covers[n].0] == old(db.albums)[covers[n].0].(cover := covers[n].1)
      ensures forall k :: k in old(db.albums) && (forall x :: x in covers ==> x.0 != k) ==>
                db.albums[k] == old(db.albums)[k]
    {
      LastPairs(covers);
      DictOf(covers);
      var coverByAlbumId := Dict(covers);
      var todo := set k | k in coverByAlbumId && k in db.albums;
      var albums := db.albums;
      while todo != {}
        invariant todo <= coverByAlbumId.Keys * albums.Keys && albums.Keys == db.albums.Keys
        invariant forall k :: k in albums ==>
                    albums[k] == if k in coverByAlbumId && k !in todo then db.albums[k].(cover := coverByAlbumId[k])
                      else db.albums[k]
        decreases |todo|
      {
        var k :| k in todo;
        albums := albums[k := albums[k].(cover := coverByAlbumId[k])];
        todo := todo - {k};
      }
      db.albums := albums;
    }

    // The first live item of an album: latest modified, then lowest id.
    method FirstLive(album: Album) returns (r: Option<nat>)
      ensures r == Candidate(db.State(), album)
    {
      hide Candidate, IsCandidate, IsFirst, Precedes;
      var todo := set i | i in album.items && i in db.media && db.media[i].deletedAt.None?;
      ghost var seen := {};
      r := None;
      while todo != {}
        invariant forall i :: i in todo || i in seen <==> LiveMember(db.State(), album, i)
        invariant (forall i :: i in seen ==> i in db.media) && (r.Some? ==> r.value in seen)
        invariant if r.None? then seen == {} else IsFirst(db.State(), seen, r.value)
        decreases |todo|
      {
        var i :| i in todo;
        if r.None? {
          OnlyOne(db.State(), i);
          r := Some(i);
        } else {
          FirstStep(db.State(), seen, r.value, i);
          if !Precedes(db.State(), r.value, i) { r := Some(i); }
        }
        seen, todo := seen + {i}, todo - {i};
      }
      CandidateIsFirst(db.State(), album);
      FirstIsCandidate(db.State(), album, seen, r);
    }

    method ListCoverCandidates(albumIds: seq<nat>) returns (rows: seq<(nat, nat)>)
      ensures forall k, i ::
                (k, i) in rows <==> k in albumIds && k in db.albums && Candidate(db.State(), db.albums[k]) == Some(i)
    {
      hide Candidate;
      rows := [];
      var todo := set k | k in albumIds && k in db.albums;
      ghost var all := todo;
      while todo != {}
        invariant todo <= all
        invariant forall k, i :: (k, i) in rows <==> k in all - todo && Candidate(db.State(), db.albums[k]) == Some(i)
        decreases |todo|
      {
        var k :| k in todo;
        var first := FirstLive(db.albums[k]);
        if first.Some? { rows := rows + [(k, first.value)]; }
        todo := todo - {k};
      }
    }

    method ListIdsByCoverIds(owner: string, coverIds: seq<nat>) returns (ids: seq<nat>)
      ensures forall k ::
                k in ids <==> (k in db.albums && db.albums[k].owner == owner && db.albums[k].cover.Some?
                               && db.albums[k].cover.value in coverIds)
    {
      ids := [];
      var todo := set k | k in db.albums && db.albums[k].owner == owner && db.albums[k].cover.Some?
        && db.albums[k].cover.value in coverIds;
      ghost var all := todo;
      while todo != {}
        invariant todo <= all && forall k :: k in ids <==> k in all - todo
        decreases |todo|
      {
        var k :| k in todo;
        ids := ids + [k];
        todo := todo - {k};
      }
    }
  }

  predicate Named(albums: map<nat, Album>, k: nat, owner: string, slug: string) {
    k in albums && albums[k].owner == owner && albums[k].slug == slug
  }

  ghost predicate Missing(albums: map<nat, Album>, owner: string, slug: string) {
    forall k :: !Named(albums, k, owner, slug)
  }

  class AlbumService {
    const repo: AlbumRepository

    constructor (repo: AlbumRepository)
      ensures this.repo == repo
    {
      this.repo := repo;
    }

    method ReassignCovers(albumIds: seq<nat>)
      modifies repo.db
      ensures repo.db.State() == Reassigned(old(repo.db.State()), IdSet(albumIds))
      ensures repo.db.media == old(repo.db.media) && repo.db.albums.Keys == old(repo.db.albums).Keys
      ensures forall k :: k in repo.db.albums ==>
                if k in albumIds
                then repo.db.albums[k] == old(repo.db.albums)[k].(cover := repo.db.albums[k].cover)
                     && BestCover(repo.db.State(), repo.db.albums[k])
                else repo.db.albums[k] == old(repo.db.albums)[k]
    {
      hide Candidate, BestCover;
      ghost var s := repo.db.State();
      ReassignedMeans(s, IdSet(albumIds));
      if albumIds == [] {
        assert s == Reassigned(s, {});
        return;
      }
      var candidateRows := repo.ListCoverCandidates(albumIds);
      var coverByAlbumId := Dict(candidateRows);
      DictOf(candidateRows);
      var covers := [];
      for n := 0 to |albumIds|
        invariant |covers| == n
        invariant forall m :: 0 <= m < n ==>
                    covers[m]
                      == (albumIds[m], if albumIds[m] in coverByAlbumId then Some(coverByAlbumId[albumIds[m]])
                          else None)
      {
        var k := albumIds[n];
        covers := covers + [(k, if k in coverByAlbumId then Some(coverByAlbumId[k]) else None)];
      }
      CandidatesFound(s, albumIds, candidateRows, covers);
      repo.SetCoverBatch(covers);
    }
  }

  lemma CandidatesFound(s: Photos, albumIds: seq<nat>, rows: seq<(nat, nat)>, covers: seq<(nat, Option<nat>)>)
    requires forall k, i :: (k, i) in rows <==> k in albumIds && k in s.albums && Candidate(s, s.albums[k]) == Some(i)
    requires |covers| == |albumIds|
    requires forall m :: 0 <= m < |covers| ==>
               covers[m] == (albumIds[m], if albumIds[m] in Dict(rows) then Some(Dict(rows)[albumIds[m]]) else None)
    ensures Dict(covers).Keys == IdSet(albumIds)
    ensures forall k :: k in Dict(covers) && k in s.albums ==> Dict(covers)[k] == Candidate(s, s.albums[k])
  {
    hide Candidate;
    DictOf(rows);
    DictOf(covers);
    forall k | k in IdSet(albumIds) ensures k in Dict(covers) {
      var m :| 0 <= m < |albumIds| && albumIds[m] == k;
      assert covers[m] in covers;
    }
    forall k | k in Dict(covers)
      ensures k in albumIds && (k in s.albums ==> Dict(covers)[k] == Candidate(s, s.albums[k]))
    {
      var m :| 0 <= m < |covers| && covers[m] == (k, Dict(covers)[k]);
      if k in s.albums && Candidate(s, s.albums[k]).Some? {
        assert (k, Candidate(s, s.albums[k]).value) in rows;
      }
    }
  }

  function OwnedIds(s: Photos, owner: string, ids: seq<nat>): set<nat> {
    set i | i in ids && i in s.media && s.media[i].owner == owner
  }

  // The list holds the blobs of these items and no other.
  ghost predicate BlobsOf(s: Photos, ids: set<nat>, blobIds: seq<nat>) {
    forall b :: b in blobIds <==> exists i :: i in ids && i in s.media && s.media[i].blob == b
  }

  lemma ErasedItems(s: Photos, media: map<nat, MediaItem>, owner: string, ids: seq<nat>)
    requires media == s.media
    ensures forall t: Photos :: ErasedFrom(s, t, OwnedIds(s, owner, ids)) ==>
              forall i :: i in t.media <==> i in media && !(i in ids && media[i].owner == owner)
  {
  }

  lemma NothingErased(s: Photos)
    ensures Erased(s, {}) == s
  {
    assert s.media - {} == s.media;
    forall k | k in s.albums ensures Erased(s, {}).albums[k] == s.albums[k] {
      assert s.albums[k].items - {} == s.albums[k].items;
    }
    assert Erased(s, {}).albums == s.albums;
  }

  lemma NothingShown(s: Photos, owner: string, ids: seq<nat>)
    requires OwnedIds(s, owner, ids) == {}
    ensures CoveredBy(s, owner, ids) == {}
  {
    assert forall k :: k in CoveredBy(s, owner, ids) ==> s.albums[k].cover.value in OwnedIds(s, owner, ids);
  }

  // ----- Use cases

  class AlbumUseCase {
    const album: AlbumService
    const db: PhotoTables

    constructor (album: AlbumService)
      ensures this.album == album && db == album.repo.db
    {
      this.album := album;
      this.db := album.repo.db;
    }

    method AddAlbumItems(owner: string, slug: string, ids: seq<nat>) returns (r: Answer<nat>)
      requires db == album.repo.db && Linked(db.State())
      modifies db
      ensures r.AlbumNotFound? <==> Missing(old(db.albums), owner, slug)
      ensures !r.Done? ==> db.State() == old(db.State())
      ensures forall k :: Named(old(db.albums), k, owner, slug) ==>
                && db.State() == After(old(db.State()), Add(k, ids))
                && (r.UnknownItem? <==> old(db.albums)[k].cover.None? && ids != [] && ids[0] !in old(db.media))
                && (r.Done? ==> AddedTo(old(db.State()), db.State(), k, ids))
    {
      hide AddedTo;
      forall k | k in db.albums && (db.albums[k].cover.None? && ids != [] ==> ids[0] in db.media) {
        AddMeans(db.State(), k, ids);
      }
      var savepoint := db.albums;
      r := album.repo.AddItems(owner, slug, ids);
      if !r.Done? { return; }
      assert Named(db.albums, r.value, owner, slug);
      if db.albums[r.value].cover.None? && ids != [] {
        r := album.repo.SetCover(owner, slug, Some(ids[0]));
        if !r.Done? { db.albums := savepoint; }
      }
    }

    method RemoveAlbumItems(owner: string, slug: string, ids: seq<nat>) returns (r: Answer<nat>)
      requires db == album.repo.db && Linked(db.State())
      modifies db
      ensures r.AlbumNotFound? <==> Missing(old(db.albums), owner, slug)
      ensures !r.UnknownItem? && (!r.Done? ==> db.State() == old(db.State()))
      ensures forall k :: Named(old(db.albums), k, owner, slug) ==>
                && db.State() == After(old(db.State()), Remove(k, ids))
                && RemovedFrom(old(db.State()), db.State(), k, ids)
                && (db.albums[k].cover.Some? && db.albums[k].cover != old(db.albums)[k].cover ==>
                      db.albums[k].cover.value !in ids)
                && (old(db.albums)[k].cover.Some? && old(db.albums)[k].cover.value in ids ==>
                      db.albums[k].cover != old(db.albums)[k].cover)
    {
      hide Candidate, BestCover, RemovedFrom;
      forall k | k in db.albums { RemoveMeans(db.State(), k, ids); }
      r := album.repo.RemoveItems(owner, slug, ids);
      if !r.Done? { return; }
      var cover := db.albums[r.value].cover;
      if cover.Some? && cover.value in ids {
        album.ReassignCovers([r.value]);
        assert IdSet([r.value]) == {r.value};
      }
    }
  }

  class MediaItemUseCase {
    const album: AlbumService
    const db: PhotoTables
    const blobs: Blobs.BlobService

    constructor (album: AlbumService, blobs: Blobs.BlobService)
      ensures this.album == album && db == album.repo.db && this.blobs == blobs
    {
      this.album := album;
      this.db := album.repo.db;
      this.blobs := blobs;
    }

    method SetDeletedAtBatch(owner: string, ids: seq<nat>, deletedAt: Option<int>) returns (items: seq<nat>)
      modifies db
      ensures db.State() == Marked(old(db.State()), owner, ids, deletedAt) && db.albums == old(db.albums)
      ensures MarkedAt(old(db.State()), db.State(), owner, ids, deletedAt)
      ensures forall i :: i in ids && i in db.media && db.media[i].owner == owner ==>
                (Live(db.State(), i) <==> deletedAt.None?)
      ensures forall i :: i in items <==> i in ids && i in db.media && db.media[i].owner == owner
    {
      hide MarkedAt, Live;
      MarkMeans(db.State(), owner, ids, deletedAt);
      db.media := map i | i in db.media ::
        if i in ids && db.media[i].owner == owner then db.media[i].(deletedAt := deletedAt) else db.media[i];
      items := [];
      var todo := set i | i in ids && i in db.media && db.media[i].owner == owner;
      ghost var all := todo;
      while todo != {}
        invariant todo <= all && forall i :: i in items <==> i in all - todo
        decreases |todo|
      {
        var i :| i in todo;
        items := items + [i];
        todo := todo - {i};
      }
    }

    // The owner's items among the listed ones go for good, with one delete job for each of their blobs; the database
    // clears memberships and covers.
    method DeleteImmediatelyBatch(owner: string, ids: seq<nat>) returns (ghost blobIds: seq<nat>)
      requires blobs.Valid()
      modifies db, blobs`jobs, blobs`queue, blobs`nextJob
      ensures blobs.Valid()
      ensures db.State() == After(old(db.State()), Erase(OwnedIds(old(db.State()), owner, ids)))
      ensures ErasedFrom(old(db.State()), db.State(), OwnedIds(old(db.State()), owner, ids))
      ensures forall i :: i in db.media <==> i in old(db.media) && !(i in ids && old(db.media)[i].owner == owner)
      ensures Blobs.DeletesQueued(old(blobs.jobs), blobs.jobs, blobIds, blobs.table)
      ensures BlobsOf(old(db.State()), OwnedIds(old(db.State()), owner, ids), blobIds)
      ensures var ps := Blobs.DeletesFor(blobIds, blobs.table);
              && blobs.jobs == Blobs.Saved(old(blobs.jobs), old(blobs.nextJob), ps)
              && blobs.queue == old(blobs.queue) + if ps == [] then [] else [Blobs.Ids(old(blobs.nextJob), |ps|)]
    {
      hide Blobs.DeletesQueued, ErasedFrom;
      ghost var s := db.State();
      var gone := OwnedIds(db.State(), owner, ids);
      EraseMeans(s, gone);
      ErasedItems(s, db.media, owner, ids);
      blobIds := [];
      if gone == {} {
        NothingErased(db.State());
        Blobs.BatchQueued([], blobs.table, blobs.jobs, blobs.nextJob);
        return;
      }
      var todo, found: seq<nat> := gone, [];
      while todo != {}
        invariant todo <= gone && db.State() == s && BlobsOf(s, gone - todo, found)
        decreases |todo|
      {
        var i :| i in todo;
        assert gone - (todo - {i}) == (gone - todo) + {i};
        found := found + [db.media[i].blob];
        todo := todo - {i};
      }
      assert gone - {} == gone;
      blobIds := found;
      db.albums, db.media := Erased(db.State(), gone).albums, db.media - gone;
      blobs.DeleteBatch(found);
    }

    // Soft-delete, then new covers for the owner's albums that showed one of the items.
    method DeleteBatch(owner: string, ids: seq<nat>, now: int) returns (items: seq<nat>)
      requires db == album.repo.db
      modifies db
      ensures db.State() == After(old(db.State()), SoftDelete(owner, ids, now))
      ensures MarkedAt(old(db.State()), db.State(), owner, ids, Some(now))
      ensures CoversRenewed(old(db.State()), db.State(), owner, ids)
      ensures forall i :: i in items <==> i in ids && i in old(db.media) && old(db.media)[i].owner == owner
    {
      hide Candidate, BestCover, CoversRenewed, MarkedAt;
      SoftDeleteMeans(db.State(), owner, ids, now);
      items := SetDeletedAtBatch(owner, ids, Some(now));
      ghost var t := db.State();
      if items != [] {
        var albumIds := album.repo.ListIdsByCoverIds(owner, items);
        album.ReassignCovers(albumIds);
        assert IdSet(albumIds) == CoveredBy(t, owner, ids);
      } else {
        NothingShown(t, owner, ids);
        assert Reassigned(t, {}) == t;
      }
    }
  }
}
