/** The account-login tables: passkeys, ceremony challenges, enrollment grants and sessions, and the statements and
  * transactions the repositories run on them. */
module AccountTables {
  import opened Wrappers

  type Id = nat

  datatype Scope = Full | Registration | Recovery | Login | RecoveryKyc
  datatype Purpose = Register | SignIn | EnrollAuth

  datatype Credential = Credential(userId: Id, externalId: Id)
  datatype Challenge = Challenge(text: Id, purpose: Purpose, userId: Option<Id>, sessionId: Option<Id>,
        expiresAt: int, consumed: bool)
  datatype Grant = Grant(userId: Id, tokenHash: Id, challengeId: Option<Id>, expiresAt: int, consumed: bool)
  datatype Session = Session(userId: Id, scope: Scope, credentialId: Option<Id>, expiresAt: int, revoked: bool)

  /** Every table by row id. */
  datatype Tables = Tables(
    users: set<Id>,
    credentials: map<Id, Credential>,
    challenges: map<Id, Challenge>,
    grants: map<Id, Grant>,
    sessions: map<Id, Session>,
    now: int)

  datatype Outcome = Done | NoSession | NoChallenge | NoGrant | Conflict

  // ---- rows and updates ---------------------------------------------------------------------------------------

  predicate OpenChallenge(t: Tables, id: Id) {
    id in t.challenges && !t.challenges[id].consumed && t.challenges[id].expiresAt > t.now
  }

  predicate OpenGrant(t: Tables, id: Id) { id in t.grants && !t.grants[id].consumed && t.grants[id].expiresAt > t.now }

  predicate ActiveSession(t: Tables, id: Id) {
    id in t.sessions && !t.sessions[id].revoked && t.sessions[id].expiresAt > t.now
  }

  function CredentialsOf(t: Tables, user: Id): set<Id> {
    set id | id in t.credentials && t.credentials[id].userId == user
  }

  function ConsumeChallenges(t: Tables, ids: set<Id>): map<Id, Challenge> {
    map id | id in t.challenges :: if id in ids then t.challenges[id].(consumed := true) else t.challenges[id]
  }

  function ConsumeGrants(t: Tables, ids: set<Id>): map<Id, Grant> {
    map id | id in t.grants :: if id in ids then t.grants[id].(consumed := true) else t.grants[id]
  }

  function RevokeSessions(t: Tables, ids: set<Id>): map<Id, Session> {
    map id | id in t.sessions :: if id in ids then t.sessions[id].(revoked := true) else t.sessions[id]
  }

  /** Deleting passkeys clears the sessions' references to them. */
  function DeleteCredentials(t: Tables, ids: set<Id>): Tables {
    t.(credentials := map id | id in t.credentials && id !in ids :: t.credentials[id],
       sessions := map id | id in t.sessions ::
         if t.sessions[id].credentialId.Some? && t.sessions[id].credentialId.value in ids
         then t.sessions[id].(credentialId := None) else t.sessions[id])
  }

  /** An insert keeps the primary key, the unique external id and the owner reference. */
  predicate CanInsert(t: Tables, id: Id, c: Credential) {
    && id !in t.credentials && c.userId in t.users
    && forall other :: other in t.credentials ==> t.credentials[other].externalId != c.externalId
  }

  function MatchingChallenges(t: Tables, text: Id, purpose: Purpose): set<Id> {
    set id | id in t.challenges && OpenChallenge(t, id) && t.challenges[id].text == text
        && t.challenges[id].purpose == purpose
  }

  /** The one registration ceremony a verify call names. */
  predicate IsCeremony(t: Tables, id: Id, text: Id, user: Id) {
    && OpenChallenge(t, id)
    && t.challenges[id].text == text && t.challenges[id].purpose.Register? && t.challenges[id].userId == Some(user)
  }

  function BoundGrants(t: Tables, tokenHash: Id, user: Id, challengeId: Id): set<Id> {
    set id | id in t.grants && OpenGrant(t, id) && t.grants[id].tokenHash == tokenHash && t.grants[id].userId == user
      && t.grants[id].challengeId == Some(challengeId)
  }

  predicate IsRecoverySession(t: Tables, id: Id, user: Id) {
    ActiveSession(t, id) && t.sessions[id].userId == user && t.sessions[id].scope.Recovery?
  }

  // ---- the transactions, as functions of the tables --------------------------------------------------------------

  datatype Ceremony = Ceremony(text: Id, user: Id, challengeId: Id)

  function AuthorizedEnrollment(t: Tables, c: Ceremony, tokenHash: Id, id: Id, credential: Credential): (Tables,
        Outcome) {
    if !IsCeremony(t, c.challengeId, c.text, c.user) then (t, NoChallenge)
    else
      var grants := BoundGrants(t, tokenHash, c.user, c.challengeId);
      if grants == {} then (t, NoGrant)
      else if !CanInsert(t, id, credential) then (t, Conflict)
      else (t.(challenges := ConsumeChallenges(t, {c.challengeId}), grants := ConsumeGrants(t, grants),
               credentials := t.credentials[id := credential]), Done)
  }

  function SessionsOf(t: Tables, user: Id): set<Id> { set id | id in t.sessions && t.sessions[id].userId == user }

  function GrantsOf(t: Tables, user: Id): set<Id> { set id | id in t.grants && t.grants[id].userId == user }

  function Wiped(t: Tables, c: Ceremony): Tables {
    var d := DeleteCredentials(t.(challenges := ConsumeChallenges(t, {c.challengeId})), CredentialsOf(t, c.user));
    d.(sessions := RevokeSessions(d, SessionsOf(d, c.user)), grants := ConsumeGrants(d, GrantsOf(d, c.user)))
  }

  function RecoveryEnrollment(t: Tables, c: Ceremony, sessionId: Id, id: Id, credential: Credential): (Tables,
        Outcome) {
    if c.user !in t.users || !IsRecoverySession(t, sessionId, c.user) then (t, NoSession)
    else if !IsCeremony(t, c.challengeId, c.text, c.user) || t.challenges[c.challengeId].sessionId != Some(sessionId)
        then (t, NoChallenge)
    else if !CanInsert(Wiped(t, c), id, credential) then (t, Conflict)
    else (Wiped(t, c).(credentials := Wiped(t, c).credentials[id := credential]), Done)
  }

  // ---- what the statements and transactions are for, on the rows --------------------------------------------------

  /** An open challenge for this purpose, with this text. */
  predicate Answers(ch: Challenge, text: Id, purpose: Purpose, now: int) {
    !ch.consumed && now < ch.expiresAt && ch.text == text && ch.purpose == purpose
  }

  /** An open grant of the user, not bound yet, with this token's hash. */
  predicate Redeemable(g: Grant, tokenHash: Id, user: Id, now: int) {
    !g.consumed && now < g.expiresAt && g.tokenHash == tokenHash && g.userId == user && g.challengeId == None
  }

  /** The ceremony is the user's own open registration with the text. */
  predicate OwnCeremony(t: Tables, c: Ceremony) {
    && c.challengeId in t.challenges && t.challenges[c.challengeId].userId == Some(c.user)
    && Answers(t.challenges[c.challengeId], c.text, Register, t.now)
  }

  /** The grant is the user's, open, bound to the ceremony, and has the presented token's hash. */
  predicate Pays(g: Grant, c: Ceremony, tokenHash: Id, now: int) {
    && !g.consumed && now < g.expiresAt && g.tokenHash == tokenHash && g.userId == c.user
    && g.challengeId == Some(c.challengeId)
  }

  /** An authorized enrollment goes through: its ceremony is open, some grant pays for it, and the row is free. */
  predicate MayEnroll(t: Tables, c: Ceremony, tokenHash: Id, id: Id, credential: Credential) {
    && OwnCeremony(t, c) && (exists g | g in t.grants :: Pays(t.grants[g], c, tokenHash, t.now))
    && id !in t.credentials && credential.userId in t.users
    && (forall o | o in t.credentials :: t.credentials[o].externalId != credential.externalId)
  }

  /** Row by row: the ceremony and the grants that pay are spent, the passkey is there, all else is as it was. */
  predicate Enrolled(t: Tables, after: Tables, c: Ceremony, tokenHash: Id, id: Id, credential: Credential) {
    && after.users == t.users && after.sessions == t.sessions && after.now == t.now
    && after.credentials == t.credentials[id := credential]
    && SpendsOnly(t, after, c) && after.grants.Keys == t.grants.Keys
    && forall g | g in t.grants ::
      after.grants[g] == if Pays(t.grants[g], c, tokenHash, t.now) then t.grants[g].(consumed := true) else t.grants[g]
  }

  /** Of the challenges exactly the ceremony's is spent. */
  predicate SpendsOnly(t: Tables, after: Tables, c: Ceremony) {
    && after.challenges.Keys == t.challenges.Keys
    && forall x | x in t.challenges ::
      after.challenges[x] == if x == c.challengeId then t.challenges[x].(consumed := true) else t.challenges[x]
  }

  /** A recovery goes through: the session is the user's own open recovery session, the ceremony was opened under it,
    * and no other account stands in the way of the row. */
  predicate MayRecover(t: Tables, c: Ceremony, sessionId: Id, id: Id, credential: Credential) {
    && c.user in t.users && sessionId in t.sessions
    && var s := t.sessions[sessionId];
    && !s.revoked && t.now < s.expiresAt && s.userId == c.user && s.scope == Recovery
    && OwnCeremony(t, c) && t.challenges[c.challengeId].sessionId == Some(sessionId) && credential.userId in t.users
    && forall o | o in t.credentials && t.credentials[o].userId != c.user ::
      o != id && t.credentials[o].externalId != credential.externalId
  }

  /** Row by row: the account's passkeys go and the new one is there; its sessions are revoked and its grants spent; the
    * ceremony is spent; and a session forgets a passkey that went. */
  ghost predicate ResetTo(t: Tables, after: Tables, c: Ceremony, id: Id, credential: Credential) {
    && after.users == t.users && after.now == t.now && SpendsOnly(t, after, c)
    && (forall o :: o in after.credentials <==> o == id || (o in t.credentials && t.credentials[o].userId != c.user))
    && (forall o | o in after.credentials :: after.credentials[o] == if o == id then credential else t.credentials[o])
    && after.grants.Keys == t.grants.Keys && after.sessions.Keys == t.sessions.Keys
    && (forall g | g in t.grants ::
         after.grants[g] == t.grants[g].(consumed := t.grants[g].consumed || t.grants[g].userId == c.user))
    && forall s | s in t.sessions ::
      var was := t.sessions[s];
      var gone := was.credentialId.Some? && was.credentialId.value in t.credentials
        && t.credentials[was.credentialId.value].userId == c.user;
      after.sessions[s] ==
        was.(revoked := was.revoked || was.userId == c.user, credentialId := if gone then None else was.credentialId)
  }

  lemma AuthorizedAddsPasskey(t: Tables, c: Ceremony, tokenHash: Id, id: Id, credential: Credential)
    ensures var (after, outcome) := AuthorizedEnrollment(t, c, tokenHash, id, credential);
      && (outcome.Done? <==> MayEnroll(t, c, tokenHash, id, credential))
      && if outcome.Done? then Enrolled(t, after, c, tokenHash, id, credential) else after == t
  {
    var bound := BoundGrants(t, tokenHash, c.user, c.challengeId);
    if g :| g in t.grants && Pays(t.grants[g], c, tokenHash, t.now) { assert g in bound; }
    if bound != {} {
      var g :| g in bound;
      assert Pays(t.grants[g], c, tokenHash, t.now);
    }
  }

  lemma RecoveryResetsAccount(t: Tables, c: Ceremony, sessionId: Id, id: Id, credential: Credential)
    ensures var (after, outcome) := RecoveryEnrollment(t, c, sessionId, id, credential);
      && (outcome.Done? <==> MayRecover(t, c, sessionId, id, credential))
      && if outcome.Done? then ResetTo(t, after, c, id, credential) else after == t
  {
    RecoversExactly(t, c, sessionId, id, credential);
    if MayRecover(t, c, sessionId, id, credential) { ResetRows(t, c, id, credential); }
  }

  lemma RecoversExactly(t: Tables, c: Ceremony, sessionId: Id, id: Id, credential: Credential)
    ensures RecoveryEnrollment(t, c, sessionId, id, credential).1.Done? <==>
      MayRecover(t, c, sessionId, id, credential)
  {
    var w := Wiped(t, c);
    assert forall o :: o in w.credentials <==> o in t.credentials && t.credentials[o].userId != c.user;
  }

  lemma ResetRows(t: Tables, c: Ceremony, id: Id, credential: Credential)
    ensures ResetTo(t, Wiped(t, c).(credentials := Wiped(t, c).credentials[id := credential]), c, id, credential)
  {
  }

  // ---- the repositories ---------------------------------------------------------------------------------------

  class AccountDb {
    var users: set<Id>
    var credentials: map<Id, Credential>
    var challenges: map<Id, Challenge>
    var grants: map<Id, Grant>
    var sessions: map<Id, Session>
    var now: int

    constructor (users: set<Id>, now: int)
      ensures Rows() == Tables(users, map[], map[], map[], map[], now)
    {
      this.users, this.now := users, now;
      credentials, challenges, grants, sessions := map[], map[], map[], map[];
    }

    function Rows(): Tables
      reads this
    {
      Tables(users, credentials, challenges, grants, sessions, now)
    }

    method Restore(t: Tables)
      modifies this
      ensures Rows() == t
    {
      users, credentials, challenges, grants, sessions, now := t.users, t.credentials, t.challenges, t.grants,
          t.sessions, t.now;
    }

    /** Consume the open challenges with this text and purpose, and return one of them. */
    method ConsumeChallenge(text: Id, purpose: Purpose) returns (r: Option<Id>)
      modifies this
      ensures Rows() == old(Rows()).(challenges := challenges) && challenges.Keys == old(challenges).Keys
      ensures forall id | id in challenges ::
        var was := old(challenges)[id];
        challenges[id] == if Answers(was, text, purpose, now) then was.(consumed := true) else was
      ensures r.Some? ==> r.value in challenges && Answers(old(challenges)[r.value], text, purpose, now)
      ensures r.None? ==> forall id | id in challenges :: !Answers(old(challenges)[id], text, purpose, now)
    {
      var t := Rows();
      var ids := MatchingChallenges(t, text, purpose);
      challenges := ConsumeChallenges(t, ids);
      if ids == {} { return None; }
      var id :| id in ids;
      r := Some(id);
    }

    /** Bind an open, unbound grant to one registration ceremony; a ceremony has at most one grant. */
    method BindGrant(tokenHash: Id, user: Id, challengeId: Id) returns (r: Option<Id>)
      modifies this
      ensures r.Some? <==>
        && challengeId in challenges && (forall g | g in old(grants) :: old(grants)[g].challengeId != Some(challengeId))
        && exists g | g in old(grants) :: Redeemable(old(grants)[g], tokenHash, user, now)
      ensures r.Some? ==> r.value in old(grants) && Redeemable(old(grants)[r.value], tokenHash, user, now)
      ensures Rows() == old(Rows()).(grants := grants) && grants.Keys == old(grants).Keys
      ensures forall g | g in grants ::
        grants[g] == if r == Some(g) then old(grants)[g].(challengeId := Some(challengeId)) else old(grants)[g]
    {
      var t := Rows();
      var ids := set id | id in grants && CanBind(t, id, tokenHash, user, challengeId);
      if ids == {} {
        if exists g | g in grants :: Redeemable(grants[g], tokenHash, user, now) {
          var g :| g in grants && Redeemable(grants[g], tokenHash, user, now);
          assert g !in ids;
        }
        return None;
      }
      var id :| id in ids;
      grants := grants[id := grants[id].(challengeId := Some(challengeId))];
      r := Some(id);
    }

    method InsertSession(id: Id, s: Session) returns (ok: bool)
      modifies this
      ensures ok <==>
        && id !in old(sessions) && s.userId in users && !s.revoked
        && (s.credentialId == None || s.credentialId.value in credentials)
      ensures Rows() == if ok then old(Rows()).(sessions := old(sessions)[id := s]) else old(Rows())
    {
      ok := CanOpen(Rows(), id, s);
      if ok { sessions := sessions[id := s]; }
    }

    method FinalizeAuthorizedEnrollment(c: Ceremony, tokenHash: Id, id: Id,
          credential: Credential) returns (outcome: Outcome)
      modifies this
      ensures (Rows(), outcome) == AuthorizedEnrollment(old(Rows()), c, tokenHash, id, credential)
      ensures outcome.Done? <==> MayEnroll(old(Rows()), c, tokenHash, id, credential)
      ensures if outcome.Done? then Enrolled(old(Rows()), Rows(), c, tokenHash, id, credential)
        else Rows() == old(Rows())
    {
      AuthorizedAddsPasskey(Rows(), c, tokenHash, id, credential);
      var begin := Rows();
      if !IsCeremony(Rows(), c.challengeId, c.text, c.user) { return NoChallenge; }
      challenges := ConsumeChallenges(Rows(), {c.challengeId});
      var bound := BoundGrants(Rows(), tokenHash, c.user, c.challengeId);
      assert bound == BoundGrants(begin, tokenHash, c.user, c.challengeId);
      if bound == {} {
        Restore(begin);
        return NoGrant;
      }
      grants := ConsumeGrants(Rows(), bound);
      assert grants == ConsumeGrants(begin, bound);
      if !CanInsert(Rows(), id, credential) {
        Restore(begin);
        return Conflict;
      }
      credentials := credentials[id := credential];
      outcome := Done;
    }

    method FinalizeRecoveryEnrollment(c: Ceremony, sessionId: Id, id: Id,
          credential: Credential) returns (outcome: Outcome)
      modifies this
      ensures (Rows(), outcome) == RecoveryEnrollment(old(Rows()), c, sessionId, id, credential)
    {
      var begin := Rows();
      if c.user !in users || !IsRecoverySession(Rows(), sessionId, c.user) { return NoSession; }
      if !IsCeremony(Rows(), c.challengeId, c.text, c.user) || challenges[c.challengeId].sessionId != Some(sessionId) {
        return NoChallenge;
      }
      challenges := ConsumeChallenges(Rows(), {c.challengeId});
      Restore(DeleteCredentials(Rows(), CredentialsOf(Rows(), c.user)));
      sessions := RevokeSessions(Rows(), SessionsOf(Rows(), c.user));
      grants := ConsumeGrants(Rows(), GrantsOf(Rows(), c.user));
      if !CanInsert(Rows(), id, credential) {
        Restore(begin);
        return Conflict;
      }
      credentials := credentials[id := credential];
      outcome := Done;
    }
  }

  predicate CanBind(t: Tables, id: Id, tokenHash: Id, user: Id, challengeId: Id) {
    && OpenGrant(t, id) && t.grants[id].tokenHash == tokenHash && t.grants[id].userId == user
        && t.grants[id].challengeId.None?
    && challengeId in t.challenges
    && forall other :: other in t.grants ==> t.grants[other].challengeId != Some(challengeId)
  }

  function Bound(t: Tables, id: Id, challengeId: Id): Tables
    requires id in t.grants
  {
    t.(grants := t.grants[id := t.grants[id].(challengeId := Some(challengeId))])
  }

  predicate CanOpen(t: Tables, id: Id, s: Session) {
    && id !in t.sessions && s.userId in t.users && !s.revoked
    && (s.credentialId.Some? ==> s.credentialId.value in t.credentials)
  }
}
