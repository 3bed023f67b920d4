/**
 The migration that binds refresh tokens to sessions: one statement creates a
 session for every live, unambiguous, unbound token family and links its
 tokens; a second one revokes whatever is still unbound and raises the access
 token version of everyone concerned. All parts of one statement see the tables
 as they were when it began; CURRENT_TIMESTAMP is the same in both.
 */
module SessionMigration {
  import opened Wrappers

  type Id = string
  type Time = int

  datatype Token = Token(
    tenant: Id, user: Id, family: Id, session: Option<Id>,
    createdAt: Time, expiresAt: Time, revokedAt: Option<Time>, reason: Option<string>)

  datatype Session = Session(
    tenant: Id, user: Id, family: Id, device: string, deviceLabel: string,
    createdAt: Time, lastSeenAt: Time, revokedAt: Option<Time>, reason: Option<string>)

  datatype User = User(tenant: Id, version: int)

  datatype Tables = Tables(tokens: map<Id, Token>, sessions: map<Id, Session>, users: map<Id, User>)

  /** A token family inside a tenant: the grouping key. */
  datatype Family = Family(tenant: Id, id: Id)

  /** A user inside a tenant. */
  datatype Owner = Owner(tenant: Id, user: Id)

  const REASON := "legacy_session_unlinked"
  const LABEL := "Previously signed-in device"

  // ---------- the first statement ----------

  /** Unbound, not revoked, not expired. */
  predicate Open(t: Token, now: Time) { t.session.None? && t.revokedAt.None? && t.expiresAt > now }

  predicate OpenIn(db: Tables, now: Time, k: Id) { k in db.tokens && Open(db.tokens[k], now) }

  function FamilyOf(t: Token): Family { Family(t.tenant, t.family) }

  function SessionFamily(s: Session): Family { Family(s.tenant, s.family) }

  function GroupOf(db: Tables, now: Time, f: Family): set<Id> {
    set k | k in db.tokens && Open(db.tokens[k], now) && FamilyOf(db.tokens[k]) == f
  }

  function UsersOf(db: Tables, now: Time, f: Family): set<Id> {
    set k | k in GroupOf(db, now, f) :: db.tokens[k].user
  }

  predicate HasSession(db: Tables, f: Family) { exists s | s in db.sessions :: SessionFamily(db.sessions[s]) == f }

  predicate Candidate(db: Tables, now: Time, f: Family) { |UsersOf(db, now, f)| == 1 && !HasSession(db, f) }

  function Candidates(db: Tables, now: Time): set<Family> {
    set k | k in db.tokens && Candidate(db, now, FamilyOf(db.tokens[k])) :: FamilyOf(db.tokens[k])
  }

  predicate IsTheUser(db: Tables, now: Time, f: Family, user: Id) { UsersOf(db, now, f) == {user} }

  /** The one user of the group, its first creation and its last one: MIN(user_id), MIN and MAX(created_at). */
  ghost predicate Summary(db: Tables, now: Time, f: Family, user: Id, first: Time, last: Time) {
    && IsTheUser(db, now, f, user)
    && (exists k :: k in GroupOf(db, now, f) && db.tokens[k].createdAt == first)
    && (exists k :: k in GroupOf(db, now, f) && db.tokens[k].createdAt == last)
    && forall k | k in GroupOf(db, now, f) :: first <= db.tokens[k].createdAt <= last
  }

  function WithoutDashes(s: string): string {
    if s == "" then "" else (if s[0] == '-' then "" else [s[0]]) + WithoutDashes(s[1..])
  }

  /** The inserted rows: for each candidate family one row under an identifier that was not in use. */
  ghost predicate Created(db: Tables, now: Time, ids: map<Family, Id>, created: map<Id, Session>) {
    && ids.Keys == Candidates(db, now)
    && created.Keys == ids.Values
    && created.Keys !! db.sessions.Keys
    && (forall f, g | f in ids && g in ids && f != g :: ids[f] != ids[g])
    && (forall f | f in ids ::
          var s := created[ids[f]];
          && SessionFamily(s) == f && s.device == "legacy-" + WithoutDashes(f.id) && s.deviceLabel == LABEL
          && s.revokedAt.None? && s.reason.None? && Summary(db, now, f, s.user, s.createdAt, s.lastSeenAt))
  }

  /** The least and the greatest element of a set of times. */
  ghost function Bounds(times: set<Time>): (r: (Time, Time))
    requires |times| > 0
    ensures r.0 in times && r.1 in times && forall t | t in times :: r.0 <= t <= r.1
    decreases times
  {
    var t :| t in times;
    var others := times - {t};
    assert times == others + {t};
    if |others| == 0 then (t, t) else
    var r := Bounds(others);
    (if t < r.0 then t else r.0, if t > r.1 then t else r.1)
  }

  ghost function Row(db: Tables, now: Time, f: Family): (s: Session)
    requires Candidate(db, now, f)
    ensures SessionFamily(s) == f && s.device == "legacy-" + WithoutDashes(f.id) && s.deviceLabel == LABEL
    ensures s.revokedAt.None? && s.reason.None? && Summary(db, now, f, s.user, s.createdAt, s.lastSeenAt)
  {
    var user :| user in UsersOf(db, now, f);
    assert UsersOf(db, now, f) == {user} by { Singleton(UsersOf(db, now, f), user); }
    assert IsTheUser(db, now, f, user);
    var times := set k | k in GroupOf(db, now, f) :: db.tokens[k].createdAt;
    assert forall k | k in GroupOf(db, now, f) :: db.tokens[k].createdAt in times;
    assert |times| > 0 by {
      var k :| k in GroupOf(db, now, f);
      assert db.tokens[k].createdAt in times;
    }
    var r := Bounds(times);
    Session(f.tenant, user, f.id, "legacy-" + WithoutDashes(f.id), LABEL, r.0, r.1, None, None)
  }

  lemma Singleton(s: set<Id>, x: Id)
    requires |s| == 1 && x in s
    ensures s == {x}
  {
    assert |s - {x}| == 0;
    assert s == (s - {x}) + {x};
  }

  ghost function FamilyFor(ids: map<Family, Id>, i: Id): (f: Family)
    requires i in ids.Values
    ensures f in ids && ids[f] == i
  {
    var f :| f in ids && ids[f] == i;
    f
  }

  /** Whatever new identifiers the database generates, there are rows to insert. */
  lemma RowsExist(db: Tables, now: Time, ids: map<Family, Id>) returns (created: map<Id, Session>)
    requires ids.Keys == Candidates(db, now) && ids.Values !! db.sessions.Keys
    requires forall f, g | f in ids && g in ids && f != g :: ids[f] != ids[g]
    ensures Created(db, now, ids, created)
  {
    forall f | f in ids ensures Candidate(db, now, f) { assert f in Candidates(db, now); }
    created := map i | i in ids.Values :: Row(db, now, FamilyFor(ids, i));
    forall f | f in ids ensures ids[f] in created && created[ids[f]] == Row(db, now, f) {
      assert FamilyFor(ids, ids[f]) == f;
    }
  }

  /** The created session that a token is joined with, if any. */
  predicate Joins(t: Token, now: Time, s: Session) {
    Open(t, now) && t.tenant == s.tenant && t.user == s.user && t.family == s.family
  }

  function Linked(db: Tables, now: Time, ids: map<Family, Id>, created: map<Id, Session>): map<Id, Token>
    requires ids.Values <= created.Keys
  {
    map k | k in db.tokens ::
      var t := db.tokens[k];
      if FamilyOf(t) in ids && Joins(t, now, created[ids[FamilyOf(t)]]) then t.(session := Some(ids[FamilyOf(t)]))
      else t
  }

  function Backfill(db: Tables, now: Time, ids: map<Family, Id>, created: map<Id, Session>): Tables
    requires ids.Values <= created.Keys
  {
    db.(tokens := Linked(db, now, ids, created), sessions := db.sessions + created)
  }

  // ---------- the second statement ----------

  /** (tenant, user, family) of an open token. */
  predicate Orphaned(db: Tables, now: Time, tenant: Id, user: Id, family: Id) {
    exists k | k in db.tokens :: Open(db.tokens[k], now)
      && db.tokens[k].tenant == tenant && db.tokens[k].user == user && db.tokens[k].family == family
  }

  predicate SessionHit(db: Tables, now: Time, s: Session) {
    Orphaned(db, now, s.tenant, s.user, s.family) && s.revokedAt.None?
  }

  predicate TokenHit(db: Tables, now: Time, t: Token) {
    Orphaned(db, now, t.tenant, t.user, t.family) && Open(t, now)
  }

  /** `device_id LIKE 'legacy-%' AND label = ...` */
  predicate IsLegacy(s: Session) { "legacy-" <= s.device && s.deviceLabel == LABEL }

  function Affected(db: Tables, now: Time): set<Owner> {
    (set k | k in db.tokens && TokenHit(db, now, db.tokens[k]) :: Owner(db.tokens[k].tenant, db.tokens[k].user))
    + (set k | k in db.sessions && SessionHit(db, now, db.sessions[k]) ::
        Owner(db.sessions[k].tenant, db.sessions[k].user))
    + (set k | k in db.sessions && IsLegacy(db.sessions[k]) :: Owner(db.sessions[k].tenant, db.sessions[k].user))
  }

  function RevokeUnlinked(db: Tables, now: Time): Tables {
    Tables(
      map k | k in db.tokens ::
        if TokenHit(db, now, db.tokens[k]) then db.tokens[k].(revokedAt := Some(now), reason := Some(REASON))
            else db.tokens[k],
      map k | k in db.sessions ::
        if SessionHit(db, now, db.sessions[k]) then db.sessions[k].(revokedAt := Some(now), reason := Some(REASON))
            else db.sessions[k],
      map k | k in db.users ::
        if Owner(db.users[k].tenant, k) in Affected(db, now) then db.users[k].(version := db.users[k].version + 1)
            else db.users[k])
  }

  function Upgrade(db: Tables, now: Time, ids: map<Family, Id>, created: map<Id, Session>): Tables
    requires ids.Values <= created.Keys
  {
    RevokeUnlinked(Backfill(db, now, ids, created), now)
  }

  // ---------- what the migration achieves ----------

  /** The constraint on sessions: one per tenant and family. */
  ghost predicate UniqueFamilies(db: Tables) {
    forall a, b | a in db.sessions && b in db.sessions && a != b ::
            SessionFamily(db.sessions[a]) != SessionFamily(db.sessions[b])
  }

  lemma CandidateUser(db: Tables, now: Time, ids: map<Family, Id>, created: map<Id, Session>, k: Id)
    requires Created(db, now, ids, created) && OpenIn(db, now, k) && FamilyOf(db.tokens[k]) in ids
    ensures Joins(db.tokens[k], now, created[ids[FamilyOf(db.tokens[k])]])
  {
    var f := FamilyOf(db.tokens[k]);
    assert k in GroupOf(db, now, f);
    assert db.tokens[k].user in UsersOf(db, now, f);
    assert IsTheUser(db, now, f, created[ids[f]].user);
  }

  /** The token is unbound, unrevoked and unexpired, in so many words. */
  predicate Unsettled(t: Token, now: Time) { t.session == None && t.revokedAt == None && now < t.expiresAt }

  /** Of unbound, unrevoked and unexpired tokens, all in this token's tenant and family are of its user. */
  ghost predicate OneOwner(db: Tables, now: Time, t: Token) {
    forall j | j in db.tokens && Unsettled(db.tokens[j], now)
               && db.tokens[j].tenant == t.tenant && db.tokens[j].family == t.family :: db.tokens[j].user == t.user
  }

  ghost predicate FamilyHasSession(db: Tables, t: Token) {
    exists s :: s in db.sessions && db.sessions[s].tenant == t.tenant && db.sessions[s].family == t.family
  }

  /** Which families get a session: those with open tokens of one user only, and no session yet. */
  lemma CandidateExactly(db: Tables, now: Time, ids: map<Family, Id>, created: map<Id, Session>, k: Id)
    requires Created(db, now, ids, created) && k in db.tokens && Unsettled(db.tokens[k], now)
    ensures Family(db.tokens[k].tenant, db.tokens[k].family) in ids
            <==> OneOwner(db, now, db.tokens[k]) && !FamilyHasSession(db, db.tokens[k])
  {
    var t := db.tokens[k];
    var f := FamilyOf(t);
    assert k in GroupOf(db, now, f) && t.user in UsersOf(db, now, f);
    assert FamilyHasSession(db, t) <==> HasSession(db, f);
    if |UsersOf(db, now, f)| == 1 {
      Singleton(UsersOf(db, now, f), t.user);
      forall j | j in db.tokens && Unsettled(db.tokens[j], now)
                 && db.tokens[j].tenant == t.tenant && db.tokens[j].family == t.family
        ensures db.tokens[j].user == t.user
      {
        assert j in GroupOf(db, now, f) && db.tokens[j].user in UsersOf(db, now, f);
      }
    }
    if OneOwner(db, now, t) { assert UsersOf(db, now, f) == {t.user}; }
    assert f in ids <==> Candidate(db, now, f);
  }

  /** Every family that gets a session has an open token. */
  lemma CandidateHasToken(db: Tables, now: Time, ids: map<Family, Id>, created: map<Id, Session>, f: Family)
    returns (k: Id)
    requires Created(db, now, ids, created) && f in ids
    ensures k in db.tokens && Unsettled(db.tokens[k], now)
            && db.tokens[k].tenant == f.tenant && db.tokens[k].family == f.id
  {
    assert Candidate(db, now, f);
    var user :| user in UsersOf(db, now, f);
    k :| k in GroupOf(db, now, f) && db.tokens[k].user == user;
  }

  /**
   The row of a created session: its family's one user, the first and the last creation of its tokens, and the label.
   */
  lemma CreatedRowIs(db: Tables, now: Time, ids: map<Family, Id>, created: map<Id, Session>, k: Id)
    requires Created(db, now, ids, created) && k in db.tokens && Unsettled(db.tokens[k], now)
    requires Family(db.tokens[k].tenant, db.tokens[k].family) in ids
    ensures var t := db.tokens[k];
      var s := created[ids[Family(t.tenant, t.family)]];
      && s.tenant == t.tenant && s.user == t.user && s.family == t.family
      && s.device == "legacy-" + WithoutDashes(t.family) && s.deviceLabel == "Previously signed-in device"
      && s.revokedAt == None && s.reason == None
      && s.createdAt <= t.createdAt <= s.lastSeenAt
      && (exists i :: SameFamily(db, now, t, i) && db.tokens[i].createdAt == s.createdAt)
      && (exists j :: SameFamily(db, now, t, j) && db.tokens[j].createdAt == s.lastSeenAt)
  {
    var t := db.tokens[k];
    var f := FamilyOf(t);
    var s := created[ids[f]];
    assert k in GroupOf(db, now, f) && t.user in UsersOf(db, now, f);
    var i :| i in GroupOf(db, now, f) && db.tokens[i].createdAt == s.createdAt;
    var j :| j in GroupOf(db, now, f) && db.tokens[j].createdAt == s.lastSeenAt;
    assert SameFamily(db, now, t, i) && SameFamily(db, now, t, j);
  }

  predicate SameFamily(db: Tables, now: Time, t: Token, i: Id) {
    i in db.tokens && Unsettled(db.tokens[i], now) && db.tokens[i].tenant == t.tenant && db.tokens[i].family == t.family
  }

  /** A session from before changes exactly if it is not revoked and an open token has its tenant, user and family. */
  lemma OldSessionsRevokedExactly(db: Tables, now: Time, ids: map<Family, Id>, created: map<Id, Session>, a: Id)
    requires Created(db, now, ids, created) && a in db.sessions
    ensures var s, after := db.sessions[a], Upgrade(db, now, ids, created).sessions;
      a in after && after[a] ==
        if s.revokedAt == None && exists k :: TokenOf(db, now, s, k)
        then s.(revokedAt := Some(now), reason := Some("legacy_session_unlinked")) else s
  {
    var s, mid := db.sessions[a], Backfill(db, now, ids, created);
    CreatedRow(db, now, ids, created, a);
    assert mid.sessions[a] == s;
    if k :| TokenOf(db, now, s, k) {
      assert FamilyHasSession(db, db.tokens[k]);
      CandidateExactly(db, now, ids, created, k);
      LinkedExactly(db, now, ids, created, k);
      assert mid.tokens[k] == db.tokens[k];
      assert Orphaned(mid, now, s.tenant, s.user, s.family);
    }
    if Orphaned(mid, now, s.tenant, s.user, s.family) {
      var k :| k in mid.tokens && Open(mid.tokens[k], now) && mid.tokens[k].tenant == s.tenant
               && mid.tokens[k].user == s.user && mid.tokens[k].family == s.family;
      LinkedExactly(db, now, ids, created, k);
      assert TokenOf(db, now, s, k);
    }
  }

  predicate TokenOf(db: Tables, now: Time, s: Session, k: Id) {
    k in db.tokens && Unsettled(db.tokens[k], now)
    && db.tokens[k].tenant == s.tenant && db.tokens[k].user == s.user && db.tokens[k].family == s.family
  }

  /** Dashes are taken out and nothing else. */
  lemma {:induction false} WithoutDashesSpec(s: string)
    ensures '-' !in WithoutDashes(s)
    ensures forall c | c != '-' :: multiset(WithoutDashes(s))[c] == multiset(s)[c]
  {
    if s != "" {
      WithoutDashesSpec(s[1..]);
      assert s == [s[0]] + s[1..];
    }
  }

  /** A token is linked exactly when it is open and its family is a candidate, and then to the session of its family. */
  lemma LinkedExactly(db: Tables, now: Time, ids: map<Family, Id>, created: map<Id, Session>, k: Id)
    requires Created(db, now, ids, created) && k in db.tokens
    ensures var t, t' := db.tokens[k], Backfill(db, now, ids, created).tokens[k];
      && (Open(t, now) && FamilyOf(t) in ids ==> t' == t.(session := Some(ids[FamilyOf(t)])))
      && (!(Open(t, now) && FamilyOf(t) in ids) ==> t' == t)
  {
    if OpenIn(db, now, k) && FamilyOf(db.tokens[k]) in ids { CandidateUser(db, now, ids, created, k); }
  }

  /** Every linked token agrees with its session on tenant, user and family, and the session is a new one. */
  lemma LinksAgree(db: Tables, now: Time, ids: map<Family, Id>, created: map<Id, Session>, k: Id)
    requires Created(db, now, ids, created) && k in db.tokens
    ensures var after := Upgrade(db, now, ids, created);
      && k in after.tokens
      && (after.tokens[k].session != db.tokens[k].session ==>
            after.tokens[k].session.Some? && after.tokens[k].session.value in after.sessions &&
            var t, s := after.tokens[k], after.sessions[after.tokens[k].session.value];
            after.tokens[k].session.value !in db.sessions && t.tenant == s.tenant && t.user == s.user
                && t.family == s.family)
  {
    LinkedExactly(db, now, ids, created, k);
  }

  /** After the migration no live token is unbound. */
  lemma NoOpenTokenLeft(db: Tables, now: Time, ids: map<Family, Id>, created: map<Id, Session>)
    requires ids.Values <= created.Keys
    ensures forall k :: !OpenIn(Upgrade(db, now, ids, created), now, k)
  {
    var mid := Backfill(db, now, ids, created);
    forall k | k in mid.tokens && Open(mid.tokens[k], now)
      ensures TokenHit(mid, now, mid.tokens[k])
    {
      var t := mid.tokens[k];
      assert Orphaned(mid, now, t.tenant, t.user, t.family);
    }
  }

  /** A token that was bound, revoked or expired before is exactly as it was. */
  lemma ClosedTokensUntouched(db: Tables, now: Time, ids: map<Family, Id>, created: map<Id, Session>, k: Id)
    requires Created(db, now, ids, created) && k in db.tokens && !Open(db.tokens[k], now)
    ensures k in Upgrade(db, now, ids, created).tokens && Upgrade(db, now, ids, created).tokens[k] == db.tokens[k]
  {
    LinkedExactly(db, now, ids, created, k);
  }

  /**
   An open token ends up linked if its family is a candidate, and revoked otherwise; nothing else about it changes.
   */
  lemma OpenTokensResolved(db: Tables, now: Time, ids: map<Family, Id>, created: map<Id, Session>, k: Id)
    requires Created(db, now, ids, created) && OpenIn(db, now, k)
    ensures var t := db.tokens[k];
      k in Upgrade(db, now, ids, created).tokens &&
      Upgrade(db, now, ids, created).tokens[k] ==
        if FamilyOf(t) in ids then t.(session := Some(ids[FamilyOf(t)]))
        else t.(revokedAt := Some(now), reason := Some(REASON))
  {
    LinkedExactly(db, now, ids, created, k);
    var mid := Backfill(db, now, ids, created);
    var t := mid.tokens[k];
    if FamilyOf(t) !in ids { assert Orphaned(mid, now, t.tenant, t.user, t.family); }
  }

  lemma BackfillKeepsFamiliesUnique(db: Tables, now: Time, ids: map<Family, Id>, created: map<Id, Session>)
    requires Created(db, now, ids, created) && UniqueFamilies(db)
    ensures UniqueFamilies(Backfill(db, now, ids, created))
  {
    var mid := Backfill(db, now, ids, created);
    forall a, b | a in mid.sessions && b in mid.sessions && a != b
      ensures SessionFamily(mid.sessions[a]) != SessionFamily(mid.sessions[b])
    {
      CreatedRow(db, now, ids, created, a);
      CreatedRow(db, now, ids, created, b);
    }
  }

  lemma RevokeKeepsFamiliesUnique(db: Tables, now: Time)
    requires UniqueFamilies(db)
    ensures UniqueFamilies(RevokeUnlinked(db, now))
  {
    var after := RevokeUnlinked(db, now);
    forall a | a in after.sessions
      ensures a in db.sessions && SessionFamily(after.sessions[a]) == SessionFamily(db.sessions[a])
    {
    }
  }

  /** One session per tenant and family is kept. */
  lemma FamiliesStayUnique(db: Tables, now: Time, ids: map<Family, Id>, created: map<Id, Session>)
    requires Created(db, now, ids, created) && UniqueFamilies(db)
    ensures UniqueFamilies(Upgrade(db, now, ids, created))
  {
    BackfillKeepsFamiliesUnique(db, now, ids, created);
    RevokeKeepsFamiliesUnique(Backfill(db, now, ids, created), now);
  }

  /** A row of the sessions table after the first statement: an old one, or the one of a candidate family. */
  lemma CreatedRow(db: Tables, now: Time, ids: map<Family, Id>, created: map<Id, Session>, a: Id)
    requires Created(db, now, ids, created) && a in db.sessions + created
    ensures a in created ==> SessionFamily(created[a]) in ids && ids[SessionFamily(created[a])] == a
                             && !HasSession(db, SessionFamily(created[a])) && (db.sessions + created)[a] == created[a]
    ensures a !in created ==> a in db.sessions && (db.sessions + created)[a] == db.sessions[a]
  {
    if a in created {
      var f :| f in ids && ids[f] == a;
      assert f in Candidates(db, now);
    }
  }

  /** No session created by the first statement is revoked by the second. */
  lemma NewSessionsSurvive(db: Tables, now: Time, ids: map<Family, Id>, created: map<Id, Session>, a: Id)
    requires Created(db, now, ids, created) && a in created
    ensures a in Upgrade(db, now, ids, created).sessions && Upgrade(db, now, ids, created).sessions[a] == created[a]
  {
    var mid := Backfill(db, now, ids, created);
    CreatedRow(db, now, ids, created, a);
    var s := created[a];
    if SessionHit(mid, now, s) {
      var k :| k in mid.tokens && Open(mid.tokens[k], now)
               && mid.tokens[k].tenant == s.tenant && mid.tokens[k].user == s.user && mid.tokens[k].family == s.family;
      LinkedExactly(db, now, ids, created, k);
      assert false;
    }
  }

  predicate LegacyOf(s: Session, o: Owner) {
    "legacy-" <= s.device && s.deviceLabel == "Previously signed-in device" && s.tenant == o.tenant && s.user == o.user
  }

  /**
   The users that the migration logs out: those with an open token, and the owners of legacy sessions of earlier runs.
   */
  predicate LoggedOut(db: Tables, now: Time, o: Owner) {
    || (exists k | k in db.tokens && Unsettled(db.tokens[k], now) ::
          db.tokens[k].tenant == o.tenant && db.tokens[k].user == o.user)
    || (exists s | s in db.sessions :: LegacyOf(db.sessions[s], o))
  }

  lemma OpenOwnerIsAffected(db: Tables, now: Time, ids: map<Family, Id>, created: map<Id, Session>, k: Id)
    requires Created(db, now, ids, created) && k in db.tokens && Unsettled(db.tokens[k], now)
    ensures Owner(db.tokens[k].tenant, db.tokens[k].user) in Affected(Backfill(db, now, ids, created), now)
  {
    var mid, f := Backfill(db, now, ids, created), FamilyOf(db.tokens[k]);
    LinkedExactly(db, now, ids, created, k);
    if f in ids {
      CandidateUser(db, now, ids, created, k);
      var s := ids[f];
      assert s in mid.sessions && mid.sessions[s] == created[s] && IsLegacy(created[s]);
    } else {
      assert mid.tokens[k] == db.tokens[k] && TokenHit(mid, now, mid.tokens[k]);
    }
  }

  lemma LoggedOutAreAffected(db: Tables, now: Time, ids: map<Family, Id>, created: map<Id, Session>, o: Owner)
    requires Created(db, now, ids, created) && LoggedOut(db, now, o)
    ensures o in Affected(Backfill(db, now, ids, created), now)
  {
    var mid := Backfill(db, now, ids, created);
    if k :| k in db.tokens && Unsettled(db.tokens[k], now) && Owner(db.tokens[k].tenant, db.tokens[k].user) == o {
      OpenOwnerIsAffected(db, now, ids, created, k);
    } else {
      var s :| s in db.sessions && LegacyOf(db.sessions[s], o);
      assert s in mid.sessions && mid.sessions[s] == db.sessions[s];
    }
  }

  lemma AffectedAreLoggedOut(db: Tables, now: Time, ids: map<Family, Id>, created: map<Id, Session>, o: Owner)
    requires Created(db, now, ids, created) && o in Affected(Backfill(db, now, ids, created), now)
    ensures LoggedOut(db, now, o)
  {
    var mid := Backfill(db, now, ids, created);
    if s :| s in mid.sessions && SessionHit(mid, now, mid.sessions[s])
            && Owner(mid.sessions[s].tenant, mid.sessions[s].user) == o {
      var k :| k in mid.tokens && Open(mid.tokens[k], now) && Owner(mid.tokens[k].tenant, mid.tokens[k].user) == o;
      LinkedExactly(db, now, ids, created, k);
    } else if k :| k in mid.tokens && TokenHit(mid, now, mid.tokens[k])
                   && Owner(mid.tokens[k].tenant, mid.tokens[k].user) == o {
      LinkedExactly(db, now, ids, created, k);
    } else {
      var s :| s in mid.sessions && IsLegacy(mid.sessions[s])
          && Owner(mid.sessions[s].tenant, mid.sessions[s].user) == o;
      CreatedRow(db, now, ids, created, s);
      if s in created {
        var k := CreatedHasOpenToken(db, now, ids, created, s);
      } else {
        assert LegacyOf(db.sessions[s], o);
      }
    }
  }

  lemma CreatedHasOpenToken(db: Tables, now: Time, ids: map<Family, Id>, created: map<Id, Session>, s: Id)
      returns (k: Id)
    requires Created(db, now, ids, created) && s in created
    ensures k in db.tokens && Unsettled(db.tokens[k], now)
    ensures db.tokens[k].tenant == created[s].tenant && db.tokens[k].user == created[s].user
  {
    var f := SessionFamily(created[s]);
    CreatedRow(db, now, ids, created, s);
    assert IsTheUser(db, now, f, created[s].user);
    assert created[s].user in UsersOf(db, now, f);
    k :| k in GroupOf(db, now, f) && db.tokens[k].user == created[s].user;
  }

  /** The version rises by exactly one for the users that are logged out, and for nobody else. */
  lemma VersionsRiseByOne(db: Tables, now: Time, ids: map<Family, Id>, created: map<Id, Session>, u: Id)
    requires Created(db, now, ids, created) && u in db.users
    ensures var after := Upgrade(db, now, ids, created);
      && u in after.users && after.users[u].tenant == db.users[u].tenant
      && after.users[u].version ==
         if LoggedOut(db, now, Owner(db.users[u].tenant, u)) then db.users[u].version + 1 else db.users[u].version
  {
    var o := Owner(db.users[u].tenant, u);
    if LoggedOut(db, now, o) { LoggedOutAreAffected(db, now, ids, created, o); }
    if o in Affected(Backfill(db, now, ids, created), now) { AffectedAreLoggedOut(db, now, ids, created, o); }
  }

  // ---------- the statements run in order ----------

  /** The three tables, rewritten by one statement after the other. */
  class AuthTables {
    var tokens: map<Id, Token>
    var sessions: map<Id, Session>
    var users: map<Id, User>

    function View(): Tables
      reads this
    {
      Tables(tokens, sessions, users)
    }

    method BackfillSessions(now: Time, ids: map<Family, Id>, created: map<Id, Session>)
      requires Created(View(), now, ids, created)
      modifies this
      ensures View() == Backfill(old(View()), now, ids, created)
    {
      tokens := Linked(View(), now, ids, created);
      sessions := sessions + created;
    }

    method RevokeRest(now: Time)
      modifies this
      ensures View() == RevokeUnlinked(old(View()), now)
    {
      var snapshot := View();
      sessions := map k | k in sessions ::
        if SessionHit(snapshot, now, sessions[k]) then sessions[k].(revokedAt := Some(now), reason := Some(REASON))
            else sessions[k];
      tokens := map k | k in tokens ::
        if TokenHit(snapshot, now, tokens[k]) then tokens[k].(revokedAt := Some(now), reason := Some(REASON))
            else tokens[k];
      var affected := Affected(snapshot, now);
      users := map k | k in users ::
        if Owner(users[k].tenant, k) in affected then users[k].(version := users[k].version + 1) else users[k];
    }

    method Migrate(now: Time, ids: map<Family, Id>, created: map<Id, Session>)
      requires Created(View(), now, ids, created)
      modifies this
      ensures View() == Upgrade(old(View()), now, ids, created)
      ensures forall k :: !OpenIn(View(), now, k)
      ensures old(UniqueFamilies(View())) ==> UniqueFamilies(View())
    {
      ghost var before := View();
      BackfillSessions(now, ids, created);
      RevokeRest(now);
      NoOpenTokenLeft(before, now, ids, created);
      if UniqueFamilies(before) { FamiliesStayUnique(before, now, ids, created); }
    }
  }
}
