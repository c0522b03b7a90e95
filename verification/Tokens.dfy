/** Refresh tokens: families of tokens rotated one after the other, revoked as a whole on reuse. */
module Tokens {
  import opened Rows

  datatype AccessToken = AccessToken(sub: string, exp: int)

  datatype RefreshToken = RefreshToken(sub: string, exp: int, family: string, id: string)

  // What a client presents: a token carrying our signature, or anything else.
  datatype Presented = Signed(token: RefreshToken) | Unreadable

  datatype Outcome = Granted(access: AccessToken, refresh: RefreshToken) | InvalidToken | ReusedToken

  // Times are in seconds.
  const ACCESS_TTL := 15 * 60
  const REFRESH_TTL := 3 * 24 * 60 * 60

  // A token is good up to and including its expiry.
  function Decode(p: Presented, now: int): Option<RefreshToken> {
    if p.Signed? && now <= p.token.exp then Some(p.token) else None
  }

  class TokenRepository {
    var entries: map<string, string>  // the current token id of each family

    constructor ()
      ensures entries == map[]
    {
      entries := map[];
    }

    method Get(key: string) returns (r: Option<string>)
      ensures r == if key in entries then Some(entries[key]) else None
    {
      r := if key in entries then Some(entries[key]) else None;
    }

    method Set(key: string, value: string)
      modifies this
      ensures entries == old(entries)[key := value]
    {
      entries := entries[key := value];
    }

    method Delete(key: string)
      modifies this
      ensures entries == old(entries) - {key}
    {
      entries := entries - {key};
    }
  }

  // Random ids and the clock are given.
  class TokenService {
    const repo: TokenRepository

    constructor (repo: TokenRepository)
      ensures this.repo == repo
    {
      this.repo := repo;
    }

    method Create(userId: string, now: int, familyId: string, tokenId: string) returns (r: Outcome)
      modifies repo
      ensures (repo.entries, r) == After(old(repo.entries), Event.Create(userId, now, familyId, tokenId))
    {
      var access := AccessToken(userId, now + ACCESS_TTL);
      var refresh := RefreshToken(userId, now + REFRESH_TTL, familyId, tokenId);
      repo.Set(refresh.family, refresh.id);
      r := Granted(access, refresh);
    }

    method Rotate(presented: Presented, now: int, tokenId: string) returns (r: Outcome)
      modifies repo
      ensures (repo.entries, r) == After(old(repo.entries), Event.Rotate(presented, now, tokenId))
    {
      var decoded := Decode(presented, now);
      if decoded.None? { return InvalidToken; }
      var refresh := decoded.value;
      var access := AccessToken(refresh.sub, now + ACCESS_TTL);
      var current := repo.Get(refresh.family);
      if current.None? { return InvalidToken; }
      if current.value != refresh.id {
        repo.Delete(refresh.family);
        return ReusedToken;
      }
      refresh := refresh.(id := tokenId);
      repo.Set(refresh.family, refresh.id);
      r := Granted(access, refresh);
    }
  }

  // ----- Runs

  datatype Event =
    | Create(user: string, now: int, family: string, id: string)
    | Rotate(presented: Presented, now: int, id: string)

  // The stored entries and the outcome after one call.
  function After(entries: map<string, string>, ev: Event): (map<string, string>, Outcome) {
    match ev
    case Create(user, now, family, id) =>
      (entries[family := id],
       Granted(AccessToken(user, now + ACCESS_TTL), RefreshToken(user, now + REFRESH_TTL, family, id)))
    case Rotate(presented, now, id) =>
      var t := Decode(presented, now);
      if t.None? || t.value.family !in entries then (entries, InvalidToken)
      else if entries[t.value.family] != t.value.id then (entries - {t.value.family}, ReusedToken)
      else (entries[t.value.family := id], Granted(AccessToken(t.value.sub, now + ACCESS_TTL), t.value.(id := id)))
  }

  function EntriesAt(evs: seq<Event>, n: nat): map<string, string>
    requires n <= |evs|
  {
    if n == 0 then map[] else After(EntriesAt(evs, n - 1), evs[n - 1]).0
  }

  function OutcomeAt(evs: seq<Event>, n: nat): Outcome
    requires n < |evs|
  {
    After(EntriesAt(evs, n), evs[n]).1
  }

  predicate Issues(evs: seq<Event>, n: nat, t: RefreshToken)
    requires n < |evs|
  {
    OutcomeAt(evs, n).Granted? && OutcomeAt(evs, n).refresh == t
  }

  // Call n rotates the token t: the service takes it and grants the next one.
  predicate Accepts(evs: seq<Event>, n: nat, t: RefreshToken)
    requires n < |evs|
  {
    evs[n].Rotate? && evs[n].presented == Signed(t) && OutcomeAt(evs, n).Granted?
  }

  predicate Reuses(evs: seq<Event>, n: nat, family: string)
    requires n < |evs|
  {
    evs[n].Rotate? && evs[n].presented.Signed? && evs[n].presented.token.family == family
      && OutcomeAt(evs, n) == ReusedToken
  }

  ghost predicate Revoked(evs: seq<Event>, n: nat, family: string)
    requires n <= |evs|
  {
    exists m :: 0 <= m < n && Reuses(evs, m, family)
  }

  // The last call before n that issued a token of the family.
  function Latest(evs: seq<Event>, n: nat, family: string): (r: Option<nat>)
    requires n <= |evs|
    ensures r.Some? ==>
            r.value < n && OutcomeAt(evs, r.value).Granted? && OutcomeAt(evs, r.value).refresh.family == family
    ensures forall j :: 0 <= j < n && OutcomeAt(evs, j).Granted? && OutcomeAt(evs, j).refresh.family == family ==>
            r.Some? && j <= r.value
  {
    if n == 0 then None
    else if OutcomeAt(evs, n - 1).Granted? && OutcomeAt(evs, n - 1).refresh.family == family then Some(n - 1)
    else Latest(evs, n - 1, family)
  }

  // Every call draws a new token id, and every creation a new family id.
  ghost predicate FreshIds(evs: seq<Event>) {
    && (forall i, j :: 0 <= i < j < |evs| ==> evs[i].id != evs[j].id)
    && (forall i, j :: 0 <= i < j < |evs| && evs[i].Create? && evs[j].Create? ==> evs[i].family != evs[j].family)
  }

  // Only the service signs: a signed token presented at some call was issued by an earlier one.
  ghost predicate Genuine(evs: seq<Event>) {
    forall n :: 0 <= n < |evs| && evs[n].Rotate? && evs[n].presented.Signed? ==>
      exists j :: 0 <= j < n && Issues(evs, j, evs[n].presented.token)
  }

  // The creation the family of a token goes back to.
  ghost predicate StartsFamily(evs: seq<Event>, c: nat, t: RefreshToken) {
    c < |evs| && evs[c].Create? && t.family == evs[c].family && t.sub == evs[c].user
      && t.exp == evs[c].now + REFRESH_TTL
  }

  /** Subject, expiry and family never change along a family: every token has those of the creation that started it. */
  lemma {:induction false} FamilyConstant(evs: seq<Event>, n: nat, t: RefreshToken) returns (c: nat)
    requires Genuine(evs) && n < |evs| && Issues(evs, n, t)
    ensures c <= n && StartsFamily(evs, c, t)
    ensures t.id == evs[n].id
    decreases n
  {
    if evs[n].Create? {
      c := n;
    } else {
      var used := evs[n].presented.token;
      var j :| 0 <= j < n && Issues(evs, j, used);
      c := FamilyConstant(evs, j, used);
    }
  }

  /** Every access token granted is for the user of the creation that started its family, and lives for the access
      lifetime from the call that granted it. */
  lemma AccessForCreator(evs: seq<Event>, n: nat) returns (c: nat)
    requires Genuine(evs) && n < |evs| && OutcomeAt(evs, n).Granted?
    ensures c <= n && StartsFamily(evs, c, OutcomeAt(evs, n).refresh)
    ensures OutcomeAt(evs, n).access.sub == evs[c].user && OutcomeAt(evs, n).access.exp == evs[n].now + ACCESS_TTL
  {
    c := FamilyConstant(evs, n, OutcomeAt(evs, n).refresh);
  }

  // A family is not revoked before it is created.
  lemma NotRevokedYet(evs: seq<Event>, n: nat)
    requires FreshIds(evs) && Genuine(evs) && n < |evs| && evs[n].Create?
    ensures !Revoked(evs, n, evs[n].family)
  {
    if m :| 0 <= m < n && Reuses(evs, m, evs[n].family) {
      var j :| 0 <= j < m && Issues(evs, j, evs[m].presented.token);
      var c := FamilyConstant(evs, j, evs[m].presented.token);
    }
  }

  /** A family has an entry exactly while it has been issued and not revoked, and the entry is its latest token's id. */
  lemma {:induction false} EntryIsLatest(evs: seq<Event>, n: nat, family: string)
    requires FreshIds(evs) && Genuine(evs) && n <= |evs|
    ensures family in EntriesAt(evs, n) <==> Latest(evs, n, family).Some? && !Revoked(evs, n, family)
    ensures family in EntriesAt(evs, n) ==>
            EntriesAt(evs, n)[family] == OutcomeAt(evs, Latest(evs, n, family).value).refresh.id
  {
    hide FreshIds, Genuine, Reuses;
    if n > 0 {
      EntryIsLatest(evs, n - 1, family);
      ReuseDrops(evs, n - 1);
      RevokedStep(evs, n - 1, family);
      if evs[n - 1].Create? { NotRevokedYet(evs, n - 1); }
    }
  }

  // A reuse is the only call that drops an entry, that of its own family.
  lemma ReuseDrops(evs: seq<Event>, n: nat)
    requires n < |evs|
    ensures forall f :: Reuses(evs, n, f) ==> EntriesAt(evs, n + 1) == EntriesAt(evs, n) - {f} && f in EntriesAt(evs, n)
    ensures (forall f :: !Reuses(evs, n, f)) ==> EntriesAt(evs, n) == EntriesAt(evs, n + 1) || Granting(evs, n)
    ensures Granting(evs, n) ==> forall f :: !Reuses(evs, n, f)
  {
    if OutcomeAt(evs, n) == ReusedToken { assert Reuses(evs, n, evs[n].presented.token.family); }
  }

  // The call grants a token and makes it its family's entry, which existed before unless the call creates the family.
  predicate Granting(evs: seq<Event>, n: nat)
    requires n < |evs|
  {
    && OutcomeAt(evs, n).Granted?
    && var t := OutcomeAt(evs, n).refresh;
    && EntriesAt(evs, n + 1) == EntriesAt(evs, n)[t.family := t.id]
    && if evs[n].Create? then t.family == evs[n].family else t.family in EntriesAt(evs, n)
  }

  lemma RevokedStep(evs: seq<Event>, n: nat, family: string)
    requires n < |evs|
    ensures Revoked(evs, n + 1, family) <==> Revoked(evs, n, family) || Reuses(evs, n, family)
  {
  }

  // A genuine token that carries the id of its family's latest token is that token.
  lemma LatestById(evs: seq<Event>, n: nat, t: RefreshToken, k: nat)
    requires FreshIds(evs) && Genuine(evs) && n < |evs| && evs[n].Rotate? && evs[n].presented == Signed(t)
    requires k < n && OutcomeAt(evs, k).Granted?
    ensures OutcomeAt(evs, k).refresh.id == t.id <==> Issues(evs, k, t)
  {
    hide EntriesAt, OutcomeAt, FreshIds;
    var j := IssuedBefore(evs, n, t);
    var r := GrantedAt(evs, k);
    var c := FamilyConstant(evs, j, t);
    var d := FamilyConstant(evs, k, r);
    DrawnOnce(evs, j, k);
  }

  lemma IssuedBefore(evs: seq<Event>, n: nat, t: RefreshToken) returns (j: nat)
    requires Genuine(evs) && n < |evs| && evs[n].Rotate? && evs[n].presented == Signed(t)
    ensures j < n && Issues(evs, j, t)
  {
    j :| 0 <= j < n && Issues(evs, j, t);
  }

  lemma GrantedAt(evs: seq<Event>, k: nat) returns (r: RefreshToken)
    requires k < |evs| && OutcomeAt(evs, k).Granted?
    ensures r == OutcomeAt(evs, k).refresh && Issues(evs, k, r)
  {
    r := OutcomeAt(evs, k).refresh;
  }

  lemma DrawnOnce(evs: seq<Event>, j: nat, k: nat)
    requires FreshIds(evs) && j < |evs| && k < |evs|
    ensures evs[j].id == evs[k].id <==> j == k
  {
  }

  lemma OutcomeByEntry(evs: seq<Event>, n: nat, t: RefreshToken)
    requires n < |evs| && evs[n].Rotate? && evs[n].presented == Signed(t) && evs[n].now <= t.exp
    ensures var e := EntriesAt(evs, n);
            && (Accepts(evs, n, t) <==> t.family in e && e[t.family] == t.id)
            && (Reuses(evs, n, t.family) <==> t.family in e && e[t.family] != t.id)
            && (OutcomeAt(evs, n) == InvalidToken <==> t.family !in e)
  {
    hide EntriesAt;
  }

  /** What becomes of a presented, unexpired token: it is accepted exactly when it is the latest of a family never
      reused before; an older token of such a family is reported as reused; after one reuse everything is invalid. */
  lemma RotateOutcome(evs: seq<Event>, n: nat, t: RefreshToken)
    requires FreshIds(evs) && Genuine(evs) && n < |evs| && evs[n].Rotate? && evs[n].presented == Signed(t)
             && evs[n].now <= t.exp
    ensures var last := Latest(evs, n, t.family);
            && last.Some?
            && (Accepts(evs, n, t) <==> !Revoked(evs, n, t.family) && Issues(evs, last.value, t))
            && (Reuses(evs, n, t.family) <==> !Revoked(evs, n, t.family) && !Issues(evs, last.value, t))
            && (OutcomeAt(evs, n) == InvalidToken <==> Revoked(evs, n, t.family))
  {
    hide FreshIds, Genuine, Revoked, EntriesAt, Accepts, Reuses, After;
    var j := IssuedBefore(evs, n, t);
    OutcomeByEntry(evs, n, t);
    EntryIsLatest(evs, n, t.family);
    LatestById(evs, n, t, Latest(evs, n, t.family).value);
  }

  /** An accepted token is the one the previous acceptance in its family issued, or the one its creation issued, and the
      token granted for it differs only in its id. */
  lemma AcceptancesFormChain(evs: seq<Event>, n: nat, t: RefreshToken)
    requires FreshIds(evs) && Genuine(evs) && n < |evs| && Accepts(evs, n, t)
    ensures var last := Latest(evs, n, t.family); last.Some? && Issues(evs, last.value, t)
    ensures forall j :: Latest(evs, n, t.family).value < j < n ==>
            !OutcomeAt(evs, j).Granted? || OutcomeAt(evs, j).refresh.family != t.family
    ensures Issues(evs, n, t.(id := evs[n].id)) && evs[n].id != t.id
  {
    RotateOutcome(evs, n, t);
    var k := Latest(evs, n, t.family).value;
    var c := FamilyConstant(evs, k, t);
  }

  /** No token is accepted twice. */
  lemma AcceptedOnce(evs: seq<Event>, m: nat, n: nat, t: RefreshToken)
    requires FreshIds(evs) && Genuine(evs) && m < n < |evs| && Accepts(evs, m, t)
    ensures !Accepts(evs, n, t)
  {
    if Accepts(evs, n, t) {
      AcceptancesFormChain(evs, m, t);
      AcceptancesFormChain(evs, n, t);
      var j, k := Latest(evs, m, t.family).value, Latest(evs, n, t.family).value;
      assert OutcomeAt(evs, m).refresh.family == t.family;
      var c := FamilyConstant(evs, j, t);
      c := FamilyConstant(evs, k, t);
    }
  }

  /** After one reuse nothing in the family is ever accepted again. */
  lemma NothingAfterReuse(evs: seq<Event>, m: nat, n: nat, t: RefreshToken)
    requires FreshIds(evs) && Genuine(evs) && m < n < |evs| && Reuses(evs, m, t.family)
    requires evs[n].Rotate? && evs[n].presented == Signed(t)
    ensures OutcomeAt(evs, n) == InvalidToken
  {
    hide FreshIds, Genuine, OutcomeAt, Reuses;
    assert Revoked(evs, n, t.family);
    if evs[n].now <= t.exp { RotateOutcome(evs, n, t); } else { ExpiredIsInvalid(evs, n, t); }
  }

  lemma ExpiredIsInvalid(evs: seq<Event>, n: nat, t: RefreshToken)
    requires n < |evs| && evs[n].Rotate? && evs[n].presented == Signed(t) && evs[n].now > t.exp
    ensures OutcomeAt(evs, n) == InvalidToken
  {
  }

  /** Presenting an accepted token again, while it has not expired, revokes the family: from then on even its newest
      token is refused. */
  lemma ReplayRevokes(evs: seq<Event>, m: nat, n: nat, t: RefreshToken)
    requires FreshIds(evs) && Genuine(evs) && m < n < |evs| && Accepts(evs, m, t)
    requires evs[n].Rotate? && evs[n].presented == Signed(t) && evs[n].now <= t.exp
    ensures Revoked(evs, n + 1, t.family)
  {
    AcceptedOnce(evs, m, n, t);
    RotateOutcome(evs, n, t);
    RevokedStep(evs, n, t.family);
  }
}
