/** Enrollment, recovery and sign-in as interleaved steps of many clients. Each statement or transaction is one step;
  * what a client does in several steps is carried between them as pending work. */
module AccountRuns {
  import opened Wrappers
  import opened AccountTables

  /** A bootstrap enrollment that has consumed its challenge, or a sign-in that has read its passkey. */
  datatype Pending = Enrolling(challengeId: Id, userId: Id) | SigningIn(userId: Id, credentialId: Id)

  /** What one inserted passkey was paid with. */
  datatype Enrollment = Enrollment(challengeId: Id, grants: set<Id>, credentialId: Id)

  datatype Reset = Reset(sessionId: Id, userId: Id, wiped: set<Id>)

  /** The tables, the clients' pending work, and the past: enrollments, resets, every passkey id ever used and the
    * passkey each session was opened with. */
  datatype World = World(
    t: Tables,
    pending: map<Id, Pending>,
    enrollments: seq<Enrollment>,
    resets: seq<Reset>,
    used: set<Id>,
    openedBy: map<Id, Id>)

  datatype Event =
    | Tick(seconds: nat)
    | AddUser(user: Id)
    | AddChallenge(id: Id, challenge: Challenge)
    | Invalidate(id: Id)
    | Consume(client: Id, user: Id, text: Id, purpose: Purpose, pick: Id)
    | InsertPending(client: Id, id: Id, credential: Credential)
    | AddGrant(id: Id, grant: Grant)
    | Bind(grantId: Id, tokenHash: Id, user: Id, challengeId: Id)
    | Authorized(ceremony: Ceremony, tokenHash: Id, id: Id, credential: Credential)
    | Recover(ceremony: Ceremony, sessionId: Id, id: Id, credential: Credential)
    | ReadPasskey(client: Id, credentialId: Id)
    | OpenPending(client: Id, id: Id, expiresAt: int)
    | OpenLimited(id: Id, session: Session)
    | RevokeSome(ids: set<Id>)
    | DeletePasskey(user: Id, id: Id)

  /** One step. Row ids are random, so a passkey id is never used twice; a step that fails changes nothing. */
  function Step(w: World, e: Event): World {
    var t := w.t;
    match e
    case Tick(seconds) => w.(t := t.(now := t.now + seconds))
    case AddUser(user) => w.(t := t.(users := t.users + {user}))
    case AddChallenge(id, challenge) =>
      if id in t.challenges || challenge.consumed then w else w.(t := t.(challenges := t.challenges[id := challenge]))
    case Invalidate(id) => w.(t := t.(challenges := ConsumeChallenges(t, {id})))
    case Consume(client, user, text, purpose, pick) =>
      var ids := MatchingChallenges(t, text, purpose);
      var consumed := w.(t := t.(challenges := ConsumeChallenges(t, ids)));
      if pick in ids && purpose.Register? && t.challenges[pick].userId == Some(user) && client !in w.pending
      then consumed.(pending := w.pending[client := Enrolling(pick, user)])
      else consumed
    case InsertPending(client, id, credential) =>
      if client in w.pending && w.pending[client].Enrolling? && id !in w.used
        && credential.userId == w.pending[client].userId && CanInsert(t, id, credential)
      then w.(t := t.(credentials := t.credentials[id := credential]),
              pending := w.pending - {client},
              enrollments := w.enrollments + [Enrollment(w.pending[client].challengeId, {}, id)],
              used := w.used + {id})
      else w
    case AddGrant(id, grant) =>
      if id in t.grants || grant.consumed || grant.challengeId.Some? then w
          else w.(t := t.(grants := t.grants[id := grant]))
    case Bind(grantId, tokenHash, user, challengeId) =>
      if CanBind(t, grantId, tokenHash, user, challengeId) then w.(t := Bound(t, grantId, challengeId)) else w
    case Authorized(ceremony, tokenHash, id, credential) => AuthorizedStep(w, ceremony, tokenHash, id, credential)
    case Recover(ceremony, sessionId, id, credential) => RecoverStep(w, ceremony, sessionId, id, credential)
    case ReadPasskey(client, credentialId) =>
      if client in w.pending || credentialId !in t.credentials then w
      else w.(pending := w.pending[client := SigningIn(t.credentials[credentialId].userId, credentialId)])
    case OpenPending(client, id, expiresAt) =>
      if client !in w.pending || !w.pending[client].SigningIn? then w
      else
        var p := w.pending[client];
        var session := Session(p.userId, Full, Some(p.credentialId), expiresAt, false);
        if !CanOpen(t, id, session) then w
        else w.(t := t.(sessions := t.sessions[id := session]), pending := w.pending - {client},
                openedBy := w.openedBy[id := p.credentialId])
    case OpenLimited(id, session) =>
      if session.credentialId.Some? || !CanOpen(t, id, session) then w
      else w.(t := t.(sessions := t.sessions[id := session]))
    case RevokeSome(ids) => w.(t := t.(sessions := RevokeSessions(t, ids)))
    case DeletePasskey(user, id) => w.(t := DeleteCredentials(t, CredentialsOf(t, user) * {id}))
  }

  function AuthorizedStep(w: World, ceremony: Ceremony, tokenHash: Id, id: Id, credential: Credential): World {
    var (after, outcome) := AuthorizedEnrollment(w.t, ceremony, tokenHash, id, credential);
    if id in w.used || credential.userId != ceremony.user || !outcome.Done? then w
    else
      var grants := BoundGrants(w.t, tokenHash, ceremony.user, ceremony.challengeId);
      w.(t := after, used := w.used + {id},
          enrollments := w.enrollments + [Enrollment(ceremony.challengeId, grants, id)])
  }

  function RecoverStep(w: World, ceremony: Ceremony, sessionId: Id, id: Id, credential: Credential): World {
    var (after, outcome) := RecoveryEnrollment(w.t, ceremony, sessionId, id, credential);
    if id in w.used || credential.userId != ceremony.user || !outcome.Done? then w
    else
      w.(t := after, used := w.used + {id},
         enrollments := w.enrollments + [Enrollment(ceremony.challengeId, {}, id)],
         resets := w.resets + [Reset(sessionId, ceremony.user, CredentialsOf(w.t, ceremony.user))])
  }

  function Run(w: World, events: seq<Event>): World {
    if events == [] then w else Step(Run(w, events[..|events| - 1]), events[|events| - 1])
  }

  function Start(now: int): World {
    World(Tables({}, map[], map[], map[], map[], now), map[], [], [], {}, map[])
  }

  // ---- invariants ------------------------------------------------------------------------------------------

  ghost predicate Spent(t: Tables, challengeId: Id) {
    challengeId in t.challenges && t.challenges[challengeId].consumed
  }

  ghost predicate SpentGrant(t: Tables, grantId: Id) { grantId in t.grants && t.grants[grantId].consumed }

  /** Every challenge and grant behind an enrollment is spent, and no other enrollment has it. */
  ghost predicate PaidOnce(w: World) {
    && (forall i :: 0 <= i < |w.enrollments| ==> Spent(w.t, w.enrollments[i].challengeId))
    && (forall i, g :: 0 <= i < |w.enrollments| && g in w.enrollments[i].grants ==> SpentGrant(w.t, g))
    && (forall i, j :: 0 <= i < j < |w.enrollments| ==>
         && w.enrollments[i].challengeId != w.enrollments[j].challengeId
         && w.enrollments[i].grants !! w.enrollments[j].grants)
  }

  ghost predicate PendingSpent(w: World) {
    && (forall c :: c in w.pending && w.pending[c].Enrolling? ==>
         && Spent(w.t, w.pending[c].challengeId)
         && forall i :: 0 <= i < |w.enrollments| ==> w.enrollments[i].challengeId != w.pending[c].challengeId)
    && (forall c, d ::
         c in w.pending && d in w.pending && c != d && w.pending[c].Enrolling? && w.pending[d].Enrolling? ==>
         w.pending[c].challengeId != w.pending[d].challengeId)
  }

  /** A session is revoked once it has completed a reset. */
  ghost predicate ResetsOnce(w: World) {
    && (forall i :: 0 <= i < |w.resets| ==>
        w.resets[i].sessionId in w.t.sessions && w.t.sessions[w.resets[i].sessionId].revoked)
    && (forall i, j :: 0 <= i < j < |w.resets| ==> w.resets[i].sessionId != w.resets[j].sessionId)
  }

  ghost predicate OwnersAgree(w: World) {
    && (forall id :: id in w.t.credentials ==> id in w.used)
    && (forall c :: c in w.pending && w.pending[c].SigningIn? ==>
         && w.pending[c].credentialId in w.used
         && (w.pending[c].credentialId in w.t.credentials ==>
              w.t.credentials[w.pending[c].credentialId].userId == w.pending[c].userId))
    && (forall s :: s in w.openedBy ==> s in w.t.sessions && w.openedBy[s] in w.used)
    && (forall s :: s in w.openedBy && w.openedBy[s] in w.t.credentials ==>
         w.t.credentials[w.openedBy[s]].userId == w.t.sessions[s].userId)
  }

  /** Every session a wiped passkey ever opened is revoked, and the passkey is gone. */
  ghost predicate WipedStayOut(w: World) {
    forall i :: 0 <= i < |w.resets| ==> WipedOut(w, w.resets[i])
  }

  ghost predicate WipedOut(w: World, r: Reset) {
    && (forall id :: id in r.wiped ==> id in w.used && id !in w.t.credentials)
    && (forall s :: s in w.openedBy && w.openedBy[s] in r.wiped ==> s in w.t.sessions && w.t.sessions[s].revoked)
  }

  /** As long as a passkey stands, the sessions it opened are paired to it. */
  ghost predicate Paired(w: World) {
    forall s :: s in w.openedBy && w.openedBy[s] in w.t.credentials ==> PairedTo(w.t, s, w.openedBy[s])
  }

  ghost predicate Inv(w: World) {
    PaidOnce(w) && PendingSpent(w) && ResetsOnce(w) && OwnersAgree(w) && WipedStayOut(w) && Paired(w)
  }

  // ---- what a step can change ----------------------------------------------------------------------------------

  /** Spent rows stay spent, revoked sessions stay revoked, and no row of these tables disappears. */
  ghost predicate OnlySpends(t: Tables, after: Tables) {
    && (forall id :: Spent(t, id) ==> Spent(after, id))
    && (forall id :: SpentGrant(t, id) ==> SpentGrant(after, id))
    && (forall s :: s in t.sessions ==> SessionKept(t, after, s))
  }

  ghost predicate SessionKept(t: Tables, after: Tables, s: Id)
    requires s in t.sessions
  {
    && s in after.sessions && after.sessions[s].userId == t.sessions[s].userId
    && (t.sessions[s].revoked ==> after.sessions[s].revoked)
  }

  /** Passkeys in `after` were there before or have a new id. */
  ghost predicate OnlyNewIds(w: World, after: World) {
    && w.used <= after.used
    && forall id :: id in after.t.credentials ==>
         (id in w.t.credentials && after.t.credentials[id] == w.t.credentials[id])
             || (id !in w.used && id in after.used)
  }

  /** Sign-ins only name passkeys that stood when the step began, by their owner. */
  ghost predicate OnlyOwnPasskeys(w: World, after: World) {
    && (forall s :: s in after.openedBy ==>
         || (s in w.openedBy && after.openedBy[s] == w.openedBy[s])
         || (s !in w.openedBy && s in after.t.sessions && Owned(w, after.openedBy[s], after.t.sessions[s].userId)))
    && (forall c :: c in after.pending && after.pending[c].SigningIn? ==>
         || (c in w.pending && after.pending[c] == w.pending[c])
         || Owned(w, after.pending[c].credentialId, after.pending[c].userId))
  }

  ghost predicate Owned(w: World, credentialId: Id, user: Id) {
    credentialId in w.t.credentials && w.t.credentials[credentialId].userId == user
  }

  lemma AuthorizedFacts(t: Tables, c: Ceremony, tokenHash: Id, id: Id, credential: Credential)
    requires AuthorizedEnrollment(t, c, tokenHash, id, credential).1.Done?
    ensures var after := AuthorizedEnrollment(t, c, tokenHash, id, credential).0;
      && OnlySpends(t, after) && after.credentials == t.credentials[id := credential] && id !in t.credentials
      && !Spent(t, c.challengeId) && Spent(after, c.challengeId)
      && forall g :: g in BoundGrants(t, tokenHash, c.user, c.challengeId) ==> !SpentGrant(t, g) && SpentGrant(after, g)
  {
  }

  lemma RecoverFacts(t: Tables, c: Ceremony, sessionId: Id, id: Id, credential: Credential)
    requires credential.userId == c.user && RecoveryEnrollment(t, c, sessionId, id, credential).1.Done?
    ensures var after := RecoveryEnrollment(t, c, sessionId, id, credential).0;
      && OnlySpends(t, after)
      && !Spent(t, c.challengeId) && Spent(after, c.challengeId)
      && sessionId in t.sessions && !t.sessions[sessionId].revoked
      && (forall s :: s in t.sessions && t.sessions[s].userId == c.user ==>
          s in after.sessions && after.sessions[s].revoked)
      && (forall o :: o in after.credentials ==>
            (o in t.credentials && after.credentials[o] == t.credentials[o] && t.credentials[o].userId != c.user)
                || o == id)
  {
    var w := Wiped(t, c);
    assert forall o :: o in w.credentials <==> o in t.credentials && t.credentials[o].userId != c.user;
  }

  lemma DeleteFacts(t: Tables, ids: set<Id>)
    ensures OnlySpends(t, DeleteCredentials(t, ids))
  {
  }

  lemma StepOnlySpends(w: World, e: Event)
    ensures OnlySpends(w.t, Step(w, e).t)
  {
    match e
    case Authorized(c, tokenHash, id, credential) =>
      if Step(w, e) != w { AuthorizedFacts(w.t, c, tokenHash, id, credential); }
    case Recover(c, sessionId, id, credential) =>
      if Step(w, e) != w { RecoverFacts(w.t, c, sessionId, id, credential); }
    case DeletePasskey(user, id) => DeleteFacts(w.t, CredentialsOf(w.t, user) * {id});
    case _ =>
  }

  lemma StepOnlyNewIds(w: World, e: Event)
    ensures OnlyNewIds(w, Step(w, e))
  {
    match e
    case Authorized(c, tokenHash, id, credential) =>
      if Step(w, e) != w { AuthorizedFacts(w.t, c, tokenHash, id, credential); }
    case Recover(c, sessionId, id, credential) =>
      if Step(w, e) != w { RecoverFacts(w.t, c, sessionId, id, credential); }
    case _ =>
  }

  // ---- who gets in ------------------------------------------------------------------------------------------------

  /** The step gives the credential's owner a passkey: the client's own ceremony is behind it and the row is free, or a
    * grant or a recovery session pays for it. */
  ghost predicate Enrolls(w: World, e: Event, x: Id) {
    match e
    case InsertPending(client, id, credential) =>
      && x == id && client in w.pending && w.pending[client].Enrolling? && w.pending[client].userId == credential.userId
      && id !in w.used && credential.userId in w.t.users
      && forall o :: o in w.t.credentials ==> w.t.credentials[o].externalId != credential.externalId
    case Authorized(c, tokenHash, id, credential) =>
      x == id && id !in w.used && credential.userId == c.user && MayEnroll(w.t, c, tokenHash, id, credential)
    case Recover(c, sessionId, id, credential) =>
      x == id && id !in w.used && credential.userId == c.user && MayRecover(w.t, c, sessionId, id, credential)
    case _ => false
  }

  /** A passkey appears in no other step, and goes only by a reset of its account or by its owner's deletion. */
  lemma PasskeysExactly(w: World, e: Event, x: Id)
    requires OwnersAgree(w)
    ensures x !in w.t.credentials ==> (x in Step(w, e).t.credentials <==> Enrolls(w, e, x))
    ensures x in w.t.credentials ==>
      (x !in Step(w, e).t.credentials <==>
        match e
        case DeletePasskey(user, id) => x == id && w.t.credentials[x].userId == user
        case Recover(c, _, id, _) => w.t.credentials[x].userId == c.user && Enrolls(w, e, id)
        case _ => false)
  {
    match e
    case Authorized(c, tokenHash, id, credential) => AuthorizedAddsPasskey(w.t, c, tokenHash, id, credential);
    case Recover(c, sessionId, id, credential) => RecoveryPasskeys(w, c, sessionId, id, credential, x);
    case _ =>
  }

  lemma RecoveryPasskeys(w: World, c: Ceremony, sessionId: Id, id: Id, credential: Credential, x: Id)
    requires OwnersAgree(w)
    ensures x in RecoverStep(w, c, sessionId, id, credential).t.credentials <==>
      if id !in w.used && credential.userId == c.user && MayRecover(w.t, c, sessionId, id, credential) then
        x == id || (x in w.t.credentials && w.t.credentials[x].userId != c.user)
      else x in w.t.credentials
  {
    RecoveryResetsAccount(w.t, c, sessionId, id, credential);
  }

  /** A session is opened by a client that read a passkey that still stands, in its owner's name and in full, or as a
    * limited one that names no passkey. */
  lemma SessionsExactly(w: World, e: Event, x: Id)
    requires x !in w.t.sessions
    ensures x in Step(w, e).t.sessions <==>
      match e
      case OpenPending(client, id, _) =>
        && x == id && client in w.pending && w.pending[client].SigningIn?
        && w.pending[client].userId in w.t.users && w.pending[client].credentialId in w.t.credentials
      case OpenLimited(id, session) =>
        x == id && session.credentialId == None && session.userId in w.t.users && !session.revoked
      case _ => false
    ensures x in Step(w, e).t.sessions ==>
      Step(w, e).t.sessions[x] ==
        match e
        case OpenPending(client, _, expiresAt) =>
          var p := w.pending[client]; Session(p.userId, Full, Some(p.credentialId), expiresAt, false)
        case OpenLimited(_, session) => session
        case _ => Step(w, e).t.sessions[x]
  {
  }

  /** A client starts an enrollment only by spending the user's own open registration challenge, and a sign-in only by
    * naming a passkey that stands. */
  lemma ClientsStartExactly(w: World, e: Event, client: Id)
    requires client !in w.pending
    ensures client in Step(w, e).pending <==>
      match e
      case Consume(c, user, text, purpose, pick) =>
        && c == client && purpose == Register && pick in w.t.challenges && w.t.challenges[pick].userId == Some(user)
        && Answers(w.t.challenges[pick], text, Register, w.t.now)
      case ReadPasskey(c, credentialId) => c == client && credentialId in w.t.credentials
      case _ => false
    ensures client in Step(w, e).pending ==>
      match Step(w, e).pending[client]
      case Enrolling(challengeId, user) => e.Consume? && e.pick == challengeId && e.user == user
      case SigningIn(user, credentialId) =>
        e.ReadPasskey? && e.credentialId == credentialId && w.t.credentials[credentialId].userId == user
  {
  }

  // ---- every step keeps the invariant ------------------------------------------------------------------------------

  /** The enrollments of a step: none, one paid with rows that were unspent, or one of a pending client. */
  ghost predicate PaysOnce(w: World, after: World) {
    || (after.enrollments == w.enrollments && PendingFrom(w, after))
    || (exists e: Enrollment :: after.enrollments == w.enrollments + [e] && after.pending == w.pending
         && !Spent(w.t, e.challengeId) && Spent(after.t, e.challengeId)
         && forall g :: g in e.grants ==> !SpentGrant(w.t, g) && SpentGrant(after.t, g))
    || (exists c, e: Enrollment :: c in w.pending && w.pending[c].Enrolling?
         && e.challengeId == w.pending[c].challengeId && e.grants == {}
         && after.enrollments == w.enrollments + [e] && after.pending == w.pending - {c})
  }

  /** At most one client starts to enroll, with a challenge its step spent. */
  ghost predicate PendingFrom(w: World, after: World) {
    || (forall c :: c in after.pending ==> SamePending(w, after, c))
    || (exists n :: n in after.pending && after.pending[n].Enrolling?
         && !Spent(w.t, after.pending[n].challengeId) && Spent(after.t, after.pending[n].challengeId)
         && forall c :: c in after.pending && c != n ==> SamePending(w, after, c))
  }

  ghost predicate SamePending(w: World, after: World, c: Id)
    requires c in after.pending
  {
    after.pending[c].Enrolling? ==> c in w.pending && w.pending[c] == after.pending[c]
  }

  lemma StepPaysOnce(w: World, e: Event)
    ensures PaysOnce(w, Step(w, e))
  {
    var after := Step(w, e);
    match e
    case Consume(client, user, text, purpose, pick) =>
      if after.pending != w.pending { assert client in after.pending && !Spent(w.t, pick) && Spent(after.t, pick); }
    case InsertPending(client, id, credential) =>
      if after != w { assert after.enrollments == w.enrollments + [Enrollment(w.pending[client].challengeId, {}, id)]; }
    case Authorized(c, tokenHash, id, credential) =>
      if after != w { AuthorizedPaysOnce(w, c, tokenHash, id, credential); }
    case Recover(c, sessionId, id, credential) => if after != w { RecoverPaysOnce(w, c, sessionId, id, credential); }
    case _ =>
  }

  lemma AuthorizedPaysOnce(w: World, c: Ceremony, tokenHash: Id, id: Id, credential: Credential)
    requires AuthorizedStep(w, c, tokenHash, id, credential) != w
    ensures PaysOnce(w, AuthorizedStep(w, c, tokenHash, id, credential))
  {
    AuthorizedFacts(w.t, c, tokenHash, id, credential);
    var paid := Enrollment(c.challengeId, BoundGrants(w.t, tokenHash, c.user, c.challengeId), id);
    assert AuthorizedStep(w, c, tokenHash, id, credential).enrollments == w.enrollments + [paid];
  }

  lemma RecoverPaysOnce(w: World, c: Ceremony, sessionId: Id, id: Id, credential: Credential)
    requires RecoverStep(w, c, sessionId, id, credential) != w
    ensures PaysOnce(w, RecoverStep(w, c, sessionId, id, credential))
  {
    RecoverFacts(w.t, c, sessionId, id, credential);
    assert RecoverStep(w, c, sessionId, id, credential).enrollments ==
        w.enrollments + [Enrollment(c.challengeId, {}, id)];
  }

  lemma PaidOnceKept(w: World, after: World)
    requires PaidOnce(w) && PendingSpent(w) && OnlySpends(w.t, after.t) && PaysOnce(w, after)
    ensures PaidOnce(after) && PendingSpent(after)
  {
  }

  lemma ResetsOnceKept(w: World, e: Event)
    requires ResetsOnce(w)
    ensures ResetsOnce(Step(w, e))
  {
    StepOnlySpends(w, e);
    StepAddsReset(w, e);
    NewResetIsNew(w, Step(w, e));
  }

  lemma NewResetIsNew(w: World, after: World)
    requires ResetsOnce(w) && OnlySpends(w.t, after.t)
    requires
      || after.resets == w.resets
      || exists r :: after.resets == w.resets + [r] && r.sessionId in w.t.sessions && !w.t.sessions[r.sessionId].revoked
           && r.sessionId in after.t.sessions && after.t.sessions[r.sessionId].revoked
    ensures ResetsOnce(after)
  {
  }

  /** A step adds at most one reset, completed by a session that was not revoked and now is. */
  lemma StepAddsReset(w: World, e: Event)
    ensures var after := Step(w, e);
      || after.resets == w.resets
      || exists r :: after.resets == w.resets + [r] && r.sessionId in w.t.sessions && !w.t.sessions[r.sessionId].revoked
           && r.sessionId in after.t.sessions && after.t.sessions[r.sessionId].revoked
  {
    match e
    case Recover(c, sessionId, id, credential) =>
      if Step(w, e) != w {
        RecoverFacts(w.t, c, sessionId, id, credential);
        assert Step(w, e).resets == w.resets + [Reset(sessionId, c.user, CredentialsOf(w.t, c.user))];
      }
    case _ =>
  }

  lemma StepOnlyOwn(w: World, e: Event)
    requires OwnersAgree(w)
    ensures OnlyOwnPasskeys(w, Step(w, e))
  {
    match e
    case OpenPending(client, id, expiresAt) =>
    case _ =>
  }

  lemma OwnersKept(w: World, after: World)
    requires OwnersAgree(w) && OnlySpends(w.t, after.t) && OnlyNewIds(w, after) && OnlyOwnPasskeys(w, after)
    ensures OwnersAgree(after)
  {
  }

  lemma WipedKept(w: World, after: World)
    requires OwnersAgree(w) && WipedStayOut(w) && OnlySpends(w.t, after.t) && OnlyNewIds(w, after)
    requires OnlyOwnPasskeys(w, after)
    ensures forall i :: 0 <= i < |w.resets| ==> WipedOut(after, w.resets[i])
  {
    forall i | 0 <= i < |w.resets| ensures WipedOut(after, w.resets[i]) {
      assert WipedOut(w, w.resets[i]);
    }
  }

  /** A reset wipes the passkeys that stand, and every session they opened is the account's own. */
  lemma ResetWipes(w: World, c: Ceremony, sessionId: Id, id: Id, credential: Credential)
    requires OwnersAgree(w) && RecoverStep(w, c, sessionId, id, credential) != w
    ensures var after := RecoverStep(w, c, sessionId, id, credential);
      WipedOut(after, Reset(sessionId, c.user, CredentialsOf(w.t, c.user)))
  {
    RecoverFacts(w.t, c, sessionId, id, credential);
  }

  predicate PairedTo(t: Tables, s: Id, id: Id) { s in t.sessions && t.sessions[s].credentialId == Some(id) }

  /** A pairing is cleared only when its passkey goes. */
  ghost predicate PairingsKept(w: World, after: World) {
    && (forall s :: s in w.openedBy ==> s in after.openedBy && after.openedBy[s] == w.openedBy[s])
    && (forall s :: s in w.openedBy && s in w.t.sessions ==> s in after.t.sessions)
    && (forall s :: s in w.openedBy && w.openedBy[s] in after.t.credentials && PairedTo(w.t, s, w.openedBy[s]) ==>
          PairedTo(after.t, s, w.openedBy[s]))
    && (forall s :: s in after.openedBy && s !in w.openedBy ==> PairedTo(after.t, s, after.openedBy[s]))
  }

  lemma StepKeepsPairings(w: World, e: Event)
    requires OwnersAgree(w)
    ensures PairingsKept(w, Step(w, e))
  {
    match e
    case Recover(c, sessionId, id, credential) =>
      if Step(w, e) != w { RecoverKeepsPairings(w, c, sessionId, id, credential); }
    case DeletePasskey(user, id) => DeleteKeepsPairings(w, CredentialsOf(w.t, user) * {id});
    case OpenPending(_, _, _) => OpeningKeepsPairings(w, e);
    case OpenLimited(_, _) => LimitedKeepsPairings(w, e);
    case RevokeSome(_) => RevokingKeepsPairings(w, e);
    case _ => OtherStepsKeepSessions(w, e);
  }

  lemma OpeningKeepsPairings(w: World, e: Event)
    requires OwnersAgree(w) && e.OpenPending?
    ensures PairingsKept(w, Step(w, e))
  {
  }

  lemma LimitedKeepsPairings(w: World, e: Event)
    requires OwnersAgree(w) && e.OpenLimited?
    ensures PairingsKept(w, Step(w, e))
  {
  }

  lemma RevokingKeepsPairings(w: World, e: Event)
    requires e.RevokeSome?
    ensures PairingsKept(w, Step(w, e))
  {
  }

  lemma OtherStepsKeepSessions(w: World, e: Event)
    requires !e.OpenPending? && !e.OpenLimited? && !e.RevokeSome? && !e.Recover? && !e.DeletePasskey?
    ensures Step(w, e).t.sessions == w.t.sessions && Step(w, e).openedBy == w.openedBy
  {
  }

  lemma DeleteKeepsPairings(w: World, ids: set<Id>)
    ensures PairingsKept(w, w.(t := DeleteCredentials(w.t, ids)))
  {
  }

  lemma RecoverKeepsPairings(w: World, c: Ceremony, sessionId: Id, id: Id, credential: Credential)
    requires OwnersAgree(w) && RecoverStep(w, c, sessionId, id, credential) != w
    ensures PairingsKept(w, RecoverStep(w, c, sessionId, id, credential))
  {
    RecoverFacts(w.t, c, sessionId, id, credential);
  }

  lemma PairedKept(w: World, after: World)
    requires OwnersAgree(w) && Paired(w) && OnlyNewIds(w, after) && PairingsKept(w, after)
    ensures Paired(after)
  {
  }

  lemma StepKeeps(w: World, e: Event)
    requires Inv(w)
    ensures Inv(Step(w, e))
  {
    var after := Step(w, e);
    StepKeepsPairings(w, e);
    StepOnlySpends(w, e);
    StepOnlyNewIds(w, e);
    StepOnlyOwn(w, e);
    StepPaysOnce(w, e);
    PaidOnceKept(w, after);
    ResetsOnceKept(w, e);
    OwnersKept(w, after);
    WipedKept(w, after);
    StepResets(w, e);
    PairedKept(w, after);
  }

  lemma StepResets(w: World, e: Event)
    requires OwnersAgree(w)
    ensures var after := Step(w, e);
      || after.resets == w.resets
      || exists r :: after.resets == w.resets + [r] && WipedOut(after, r)
  {
    match e
    case Recover(c, sessionId, id, credential) =>
      if Step(w, e) != w {
        ResetWipes(w, c, sessionId, id, credential);
        assert Step(w, e).resets == w.resets + [Reset(sessionId, c.user, CredentialsOf(w.t, c.user))];
      }
    case _ =>
  }

  lemma {:induction false} RunKeeps(w: World, events: seq<Event>)
    requires Inv(w)
    ensures Inv(Run(w, events))
  {
    if events != [] {
      RunKeeps(w, events[..|events| - 1]);
      StepKeeps(Run(w, events[..|events| - 1]), events[|events| - 1]);
    }
  }

  lemma {:induction false} RunOnlySpends(w: World, events: seq<Event>)
    ensures OnlySpends(w.t, Run(w, events).t)
  {
    if events != [] {
      RunOnlySpends(w, events[..|events| - 1]);
      StepOnlySpends(Run(w, events[..|events| - 1]), events[|events| - 1]);
    }
  }

  // ---- over all runs -----------------------------------------------------------------------------------------------

  /** In every run each challenge and each grant pays for at most one passkey, each session completes at most one
    * reset, and no session that a wiped passkey opened is active. */
  lemma EveryRunIsSafe(now: int, events: seq<Event>)
    ensures var w := Run(Start(now), events);
      && (forall i, j :: 0 <= i < |w.enrollments| && 0 <= j < |w.enrollments| && i != j ==>
            && w.enrollments[i].challengeId != w.enrollments[j].challengeId
            && w.enrollments[i].grants !! w.enrollments[j].grants)
      && (forall i, j :: 0 <= i < |w.resets| && 0 <= j < |w.resets| && i != j ==>
          w.resets[i].sessionId != w.resets[j].sessionId)
      && (forall i, s :: 0 <= i < |w.resets| && s in w.openedBy && w.openedBy[s] in w.resets[i].wiped ==>
          !ActiveSession(w.t, s))
  {
    RunKeeps(Start(now), events);
    var w := Run(Start(now), events);
    forall i, s | 0 <= i < |w.resets| && s in w.openedBy && w.openedBy[s] in w.resets[i].wiped
      ensures !ActiveSession(w.t, s)
    {
      assert WipedOut(w, w.resets[i]);
    }
  }

  /** What a reset ends stays ended: no session it revoked and no grant it consumed is usable in any continuation. */
  lemma ResetIsLasting(w: World, c: Ceremony, sessionId: Id, id: Id, credential: Credential, events: seq<Event>)
    requires RecoverStep(w, c, sessionId, id, credential) != w
    ensures var after := Run(RecoverStep(w, c, sessionId, id, credential), events);
      && (forall s :: s in w.t.sessions && w.t.sessions[s].userId == c.user ==> !ActiveSession(after.t, s))
      && (forall g :: g in w.t.grants && w.t.grants[g].userId == c.user ==> !OpenGrant(after.t, g))
  {
    RecoverFacts(w.t, c, sessionId, id, credential);
    RecoveryResetsAccount(w.t, c, sessionId, id, credential);
    var reset := RecoverStep(w, c, sessionId, id, credential);
    RunOnlySpends(reset, events);
    forall g | g in w.t.grants && w.t.grants[g].userId == c.user ensures SpentGrant(reset.t, g) {
      assert g in reset.t.grants;
    }
  }

  /** An enrollment that consumed its challenge before a reset still inserts its passkey after it: the account then
    * has two, so "exactly one passkey" holds only until the next enrollment. */
  lemma PendingEnrollmentOutlivesReset(w: World, c: Ceremony, sessionId: Id, id: Id, credential: Credential,
        client: Id, late: Id, lateCredential: Credential)
    requires RecoverStep(w, c, sessionId, id, credential) != w
    requires client in w.pending && w.pending[client].Enrolling? && w.pending[client].userId == c.user
    requires late !in w.used && late != id && lateCredential.userId == c.user
    requires CanInsert(RecoverStep(w, c, sessionId, id, credential).t, late, lateCredential)
    ensures CredentialsOf(RecoverStep(w, c, sessionId, id, credential).t, c.user) == {id}
    ensures CredentialsOf(Step(RecoverStep(w, c, sessionId, id, credential),
      InsertPending(client, late, lateCredential)).t, c.user) == {id, late}
  {
    OnePasskeyLeft(w, c, sessionId, id, credential);
    InsertAddsOne(RecoverStep(w, c, sessionId, id, credential), client, late, lateCredential);
  }

  lemma OnePasskeyLeft(w: World, c: Ceremony, sessionId: Id, id: Id, credential: Credential)
    requires RecoverStep(w, c, sessionId, id, credential) != w
    ensures var reset := RecoverStep(w, c, sessionId, id, credential);
      && CredentialsOf(reset.t, c.user) == {id}
      && reset.pending == w.pending && reset.used == w.used + {id}
  {
    RecoveryResetsAccount(w.t, c, sessionId, id, credential);
  }

  lemma InsertAddsOne(w: World, client: Id, late: Id, credential: Credential)
    requires client in w.pending && w.pending[client].Enrolling? && w.pending[client].userId == credential.userId
    requires late !in w.used && CanInsert(w.t, late, credential)
    ensures CredentialsOf(Step(w, InsertPending(client, late, credential)).t, credential.userId) ==
      CredentialsOf(w.t, credential.userId) + {late}
  {
    var after := Step(w, InsertPending(client, late, credential));
    assert after.t.credentials == w.t.credentials[late := credential];
  }

  /** What a reset ends and what it does not, in every continuation: no recovery bound to a session that stood then
    * and no enrollment bound to a grant that stood then ever succeeds, */
  lemma ResetEndsOldCeremonies(w: World, c: Ceremony, sessionId: Id, id: Id, credential: Credential, events: seq<Event>,
                               late: Ceremony, oldSession: Id, tokenHash: Id, newId: Id, newCredential: Credential)
    requires RecoverStep(w, c, sessionId, id, credential) != w && late.user == c.user
    ensures var later := Run(RecoverStep(w, c, sessionId, id, credential), events);
      && (oldSession in w.t.sessions && w.t.sessions[oldSession].userId == c.user ==>
            RecoverStep(later, late, oldSession, newId, newCredential) == later)
      && (AuthorizedStep(later, late, tokenHash, newId, newCredential) != later ==>
            exists g :: g in BoundGrants(later.t, tokenHash, c.user, late.challengeId) && g !in w.t.grants)
  {
    var reset := RecoverStep(w, c, sessionId, id, credential);
    var later := Run(reset, events);
    ResetIsLasting(w, c, sessionId, id, credential, events);
    GrantsKeepOwners(w, c, sessionId, id, credential, events);
    if AuthorizedStep(later, late, tokenHash, newId, newCredential) != later {
      var bound := BoundGrants(later.t, tokenHash, c.user, late.challengeId);
      var g :| g in bound;
      assert OpenGrant(later.t, g) && later.t.grants[g].userId == c.user;
    }
  }

  lemma GrantsKeepOwners(w: World, c: Ceremony, sessionId: Id, id: Id, credential: Credential, events: seq<Event>)
    requires RecoverStep(w, c, sessionId, id, credential) != w
    ensures var later := Run(RecoverStep(w, c, sessionId, id, credential), events);
      forall g :: g in w.t.grants ==> g in later.t.grants && later.t.grants[g].userId == w.t.grants[g].userId
  {
    var reset := RecoverStep(w, c, sessionId, id, credential);
    assert forall g :: g in w.t.grants ==> g in reset.t.grants && reset.t.grants[g].userId == w.t.grants[g].userId;
    GrantOwnersStay(reset, events);
  }

  lemma {:induction false} GrantOwnersStay(w: World, events: seq<Event>)
    ensures forall g :: g in w.t.grants ==>
      g in Run(w, events).t.grants && Run(w, events).t.grants[g].userId == w.t.grants[g].userId
  {
    if events != [] {
      GrantOwnersStay(w, events[..|events| - 1]);
      StepKeepsGrantOwners(Run(w, events[..|events| - 1]), events[|events| - 1]);
    }
  }

  lemma StepKeepsGrantOwners(w: World, e: Event)
    ensures forall g :: g in w.t.grants ==>
      g in Step(w, e).t.grants && Step(w, e).t.grants[g].userId == w.t.grants[g].userId
  {
  }

  /** but an enrollment that had consumed its challenge succeeds right after it, exactly when its row is good: a pending
    * enrollment survives the reset as it is. */
  lemma PendingSurvivesExactly(w: World, c: Ceremony, sessionId: Id, id: Id, credential: Credential,
                               client: Id, late: Id, lateCredential: Credential)
    requires RecoverStep(w, c, sessionId, id, credential) != w
    ensures var reset := RecoverStep(w, c, sessionId, id, credential);
      Step(reset, InsertPending(client, late, lateCredential)) != reset <==>
        && client in w.pending && w.pending[client].Enrolling? && w.pending[client].userId == lateCredential.userId
        && late !in w.used && late != id && CanInsert(reset.t, late, lateCredential)
  {
    var reset := RecoverStep(w, c, sessionId, id, credential);
    var after := Step(reset, InsertPending(client, late, lateCredential));
    assert after != reset ==> |after.enrollments| == |reset.enrollments| + 1;
    assert after == reset || late in after.used;
  }

  // ---- removing one passkey -----------------------------------------------------------------------------------------

  function PairedSessions(t: Tables, id: Id): set<Id> {
    set s | s in t.sessions && t.sessions[s].credentialId == Some(id)
  }

  lemma {:induction false} OpenersStay(w: World, events: seq<Event>)
    requires Inv(w)
    ensures forall s :: s in w.openedBy ==> s in Run(w, events).openedBy && Run(w, events).openedBy[s] == w.openedBy[s]
  {
    if events != [] {
      var prior := Run(w, events[..|events| - 1]);
      OpenersStay(w, events[..|events| - 1]);
      RunKeeps(w, events[..|events| - 1]);
      StepKeepsPairings(prior, events[|events| - 1]);
    }
  }

  /** Removing a passkey is two steps, revoke its sessions and delete it, with anything in between. Afterwards a
    * session the passkey opened is active exactly when it was opened in between and is still active: without a
    * sign-in in between, none is. */
  lemma RemovalEndsExactly(w: World, user: Id, id: Id, between: seq<Event>, s: Id)
    requires Inv(w) && id in w.t.credentials
    ensures var middle := Run(Step(w, RevokeSome(PairedSessions(w.t, id))), between);
      var after := Step(middle, DeletePasskey(user, id));
      (s in after.openedBy && after.openedBy[s] == id && ActiveSession(after.t, s)) <==>
        (s in middle.openedBy && middle.openedBy[s] == id && s !in w.openedBy && ActiveSession(middle.t, s))
  {
    var revoked := Step(w, RevokeSome(PairedSessions(w.t, id)));
    StepKeeps(w, RevokeSome(PairedSessions(w.t, id)));
    OpenersStay(revoked, between);
    RunOnlySpends(revoked, between);
    RevokedSessions(w, id, s);
    DeletingActivates(Run(revoked, between), user, id, s);
  }

  lemma RevokedSessions(w: World, id: Id, s: Id)
    requires Paired(w) && id in w.t.credentials
    ensures var revoked := Step(w, RevokeSome(PairedSessions(w.t, id)));
      && revoked.openedBy == w.openedBy
      && (s in w.openedBy && w.openedBy[s] == id ==> s in revoked.t.sessions && revoked.t.sessions[s].revoked)
  {
    assert s in w.openedBy && w.openedBy[s] == id ==> s in PairedSessions(w.t, id);
  }

  lemma DeletingActivates(w: World, user: Id, id: Id, s: Id)
    ensures var after := Step(w, DeletePasskey(user, id));
      after.openedBy == w.openedBy && (ActiveSession(after.t, s) <==> ActiveSession(w.t, s))
  {
  }

  /** With nothing in between a removal ends exactly the sessions that name the passkey, and touches nothing else. */
  lemma RemovalAlone(w: World, user: Id, id: Id)
    requires id in w.t.credentials && w.t.credentials[id].userId == user
    ensures var after := Step(Step(w, RevokeSome(PairedSessions(w.t, id))), DeletePasskey(user, id));
      && after.t.credentials == w.t.credentials - {id} && after.t.sessions.Keys == w.t.sessions.Keys
      && after.t.grants == w.t.grants && after.t.challenges == w.t.challenges
      && forall s :: s in w.t.sessions ==>
        after.t.sessions[s] ==
          if w.t.sessions[s].credentialId == Some(id) then w.t.sessions[s].(revoked := true, credentialId := None)
          else w.t.sessions[s]
  {
    assert CredentialsOf(w.t, user) * {id} == {id};
  }

  /** A sign-in that lands between the two steps stays active after the passkey is gone. */
  lemma RemovalIsTwoSteps(w: World, user: Id, id: Id, client: Id, sid: Id, expiresAt: int)
    requires id in w.t.credentials && w.t.credentials[id].userId == user && user in w.t.users
    requires client in w.pending && w.pending[client] == SigningIn(user, id) && sid !in w.t.sessions
    requires expiresAt > w.t.now
    ensures var revoked := Step(w, RevokeSome(PairedSessions(w.t, id)));
      var after := Step(Step(revoked, OpenPending(client, sid, expiresAt)), DeletePasskey(user, id));
      id !in after.t.credentials && ActiveSession(after.t, sid) && sid in after.openedBy && after.openedBy[sid] == id
  {
  }

  // ---- a whole life ------------------------------------------------------------------------------------------------

  lemma RunMore(w: World, events: seq<Event>, e: Event)
    ensures Run(w, events + [e]) == Step(Run(w, events), e)
  {
    assert (events + [e])[..|events|] == events;
  }

  /** From empty tables: user 1 is added and enrolls passkey 3 by bootstrap, signs in with it, and a recovery then swaps
    * it for passkey 4, which ends the sign-in. */
  lemma EnrollSignInRecover(now: int)
    ensures var ceremony := Ceremony(8, 1, 6);
      var enroll := [AddUser(1)] + [AddChallenge(5, Challenge(7, Register, Some(1), None, now + 60, false))]
        + [Consume(9, 1, 7, Register, 5)] + [InsertPending(9, 3, Credential(1, 30))];
      var signIn := [ReadPasskey(9, 3)] + [OpenPending(9, 2, now + 60)];
      var recover := [OpenLimited(1, Session(1, Recovery, None, now + 60, false))]
        + [AddChallenge(6, Challenge(8, Register, Some(1), Some(1), now + 60, false))]
        + [Recover(ceremony, 1, 4, Credential(1, 40))];
      var enrolled := Run(Start(now), enroll);
      var signedIn := Run(enrolled, signIn);
      var recovered := Run(signedIn, recover);
      && enrolled.t.credentials == map[3 := Credential(1, 30)] && Spent(enrolled.t, 5)
      && ActiveSession(signedIn.t, 2) && signedIn.t.sessions[2] == Session(1, Full, Some(3), now + 60, false)
      && recovered.t.credentials == map[4 := Credential(1, 40)]
      && !ActiveSession(recovered.t, 2) && !ActiveSession(recovered.t, 1)
  {
    var w := Start(now);
    var c5 := Challenge(7, Register, Some(1), None, now + 60, false);
    var c6 := Challenge(8, Register, Some(1), Some(1), now + 60, false);
    RunMore(w, [], AddUser(1));
    RunMore(w, [AddUser(1)], AddChallenge(5, c5));
    RunMore(w, [AddUser(1)] + [AddChallenge(5, c5)], Consume(9, 1, 7, Register, 5));
    RunMore(w, [AddUser(1)] + [AddChallenge(5, c5)] + [Consume(9, 1, 7, Register, 5)],
            InsertPending(9, 3, Credential(1, 30)));
    var enrolled := World(Tables({1}, map[3 := Credential(1, 30)], map[5 := c5.(consumed := true)], map[], map[], now),
                          map[], [Enrollment(5, {}, 3)], [], {3}, map[]);
    assert Run(w, []) == w;
    assert Run(w, [AddUser(1)] + [AddChallenge(5, c5)] + [Consume(9, 1, 7, Register, 5)]
      + [InsertPending(9, 3, Credential(1, 30))]) == enrolled;
    SignInAndRecover(now, enrolled);
  }

  /** Passkey 3 of user 1 stands, and session 2 or none. */
  predicate HasPasskey(w: World, now: int, sessions: map<Id, Session>) {
    && w.t.now == now && w.t.users == {1} && w.t.credentials == map[3 := Credential(1, 30)]
    && w.t.sessions == sessions && w.pending == map[] && 6 !in w.t.challenges && w.used == {3}
  }

  lemma SignInAndRecover(now: int, enrolled: World)
    requires HasPasskey(enrolled, now, map[])
    ensures var signIn := [ReadPasskey(9, 3)] + [OpenPending(9, 2, now + 60)];
      var recover := [OpenLimited(1, Session(1, Recovery, None, now + 60, false))]
        + [AddChallenge(6, Challenge(8, Register, Some(1), Some(1), now + 60, false))]
        + [Recover(Ceremony(8, 1, 6), 1, 4, Credential(1, 40))];
      var signedIn := Run(enrolled, signIn);
      var recovered := Run(signedIn, recover);
      && ActiveSession(signedIn.t, 2) && signedIn.t.sessions[2] == Session(1, Full, Some(3), now + 60, false)
      && recovered.t.credentials == map[4 := Credential(1, 40)]
      && !ActiveSession(recovered.t, 2) && !ActiveSession(recovered.t, 1)
  {
    var session := Session(1, Full, Some(3), now + 60, false);
    RunMore(enrolled, [], ReadPasskey(9, 3));
    RunMore(enrolled, [ReadPasskey(9, 3)], OpenPending(9, 2, now + 60));
    var signedIn := Run(enrolled, [ReadPasskey(9, 3)] + [OpenPending(9, 2, now + 60)]);
    assert Run(enrolled, []) == enrolled;
    assert HasPasskey(signedIn, now, map[2 := session]);
    Recovers(now, signedIn, session);
  }

  lemma Recovers(now: int, w: World, session: Session)
    requires session == Session(1, Full, Some(3), now + 60, false) && HasPasskey(w, now, map[2 := session])
    ensures var recovered := Run(w, [OpenLimited(1, Session(1, Recovery, None, now + 60, false))]
        + [AddChallenge(6, Challenge(8, Register, Some(1), Some(1), now + 60, false))]
        + [Recover(Ceremony(8, 1, 6), 1, 4, Credential(1, 40))]);
      && recovered.t.credentials == map[4 := Credential(1, 40)]
      && !ActiveSession(recovered.t, 2) && !ActiveSession(recovered.t, 1)
  {
    var limited := OpenLimited(1, Session(1, Recovery, None, now + 60, false));
    var open := AddChallenge(6, Challenge(8, Register, Some(1), Some(1), now + 60, false));
    ReadyToRecover(now, w);
    ThenRecovers(w, [limited] + [open]);
  }

  lemma ThenRecovers(w: World, events: seq<Event>)
    requires var ready := Run(w, events);
      && ready.t.credentials == map[3 := Credential(1, 30)] && ready.used == {3}
      && ready.t.sessions.Keys == {1, 2} && ready.t.sessions[1].userId == ready.t.sessions[2].userId == 1
      && MayRecover(ready.t, Ceremony(8, 1, 6), 1, 4, Credential(1, 40))
    ensures var recovered := Run(w, events + [Recover(Ceremony(8, 1, 6), 1, 4, Credential(1, 40))]);
      && recovered.t.credentials == map[4 := Credential(1, 40)]
      && !ActiveSession(recovered.t, 2) && !ActiveSession(recovered.t, 1)
  {
    var c, ready := Ceremony(8, 1, 6), Run(w, events);
    RunMore(w, events, Recover(c, 1, 4, Credential(1, 40)));
    RecoverResets(ready, c, 1, 4, Credential(1, 40));
    ResetOf(ready.t, RecoverStep(ready, c, 1, 4, Credential(1, 40)).t, c);
  }

  lemma ReadyToRecover(now: int, w: World)
    requires w.t.sessions.Keys == {2} && HasPasskey(w, now, w.t.sessions)
    ensures var ready := Run(w, [OpenLimited(1, Session(1, Recovery, None, now + 60, false))]
        + [AddChallenge(6, Challenge(8, Register, Some(1), Some(1), now + 60, false))]);
      && ready.t.credentials == w.t.credentials && ready.used == w.used
      && ready.t.sessions == w.t.sessions[1 := Session(1, Recovery, None, now + 60, false)]
      && MayRecover(ready.t, Ceremony(8, 1, 6), 1, 4, Credential(1, 40))
  {
    var limited := OpenLimited(1, Session(1, Recovery, None, now + 60, false));
    RunMore(w, [], limited);
    RunMore(w, [limited], AddChallenge(6, Challenge(8, Register, Some(1), Some(1), now + 60, false)));
    assert Run(w, []) == w;
  }

  /** A recovery that its row and session allow resets the account. */
  lemma RecoverResets(w: World, c: Ceremony, sessionId: Id, id: Id, credential: Credential)
    requires id !in w.used && credential.userId == c.user && MayRecover(w.t, c, sessionId, id, credential)
    ensures ResetTo(w.t, RecoverStep(w, c, sessionId, id, credential).t, c, id, credential)
  {
    RecoveryResetsAccount(w.t, c, sessionId, id, credential);
  }

  lemma ResetOf(t: Tables, after: Tables, c: Ceremony)
    requires c.user == 1
    requires t.credentials == map[3 := Credential(1, 30)] && t.sessions.Keys == {1, 2}
    requires t.sessions[1].userId == t.sessions[2].userId == 1
    requires ResetTo(t, after, c, 4, Credential(1, 40))
    ensures after.credentials == map[4 := Credential(1, 40)]
    ensures !ActiveSession(after, 2) && !ActiveSession(after, 1)
  {
    assert after.credentials.Keys == {4};
  }
}
