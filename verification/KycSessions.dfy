/** Hosted KYC sessions: polls and webhooks race to attest the same session, and every await is a place where
  * other handlers run. Reads of the current tier for the poll's answer change nothing and are not steps. */
module KycSessions {
  import opened Wrappers
  import opened Iteration

  type Id = nat

  datatype Kind = Identity | Poa | RecoveryKind
  datatype Status = Waiting | Approved | Declined | Abandoned | Expired | InReview
  datatype Tier = IdentityVerified | ResidencyVerified

  datatype Row = Row(userId: Id, provider: Id, kind: Kind, status: Status, attested: bool, lastPolled: Option<int>)

  /** The vendor's answer about a session. */
  datatype Decision = Decision(status: Status, workflowId: Id, region: Option<Id>)

  /** One appended attestation, with the session, the decision and the kind of handler it came from. */
  datatype Award = Award(session: Id, userId: Id, tier: Tier, region: Option<Id>, provider: Id, decision: Decision,
        byWebhook: bool)

  /** The vendor's workflow-to-tier mapping, when the vendor is configured. */
  type Mapping = Option<Id -> Option<Tier>>

  const POLL_MIN_INTERVAL := 5000

  function TierForWorkflow(mapping: Mapping, workflowId: Id, kind: Kind): Option<Tier> {
    if kind.RecoveryKind? then None
    else if mapping.Some? && mapping.value(workflowId).Some? then mapping.value(workflowId)
    else Some(if kind.Poa? then ResidencyVerified else IdentityVerified)
  }

  /** Where a handler stands: the next await it will run. */
  datatype Phase =
    | PollRead(userId: Id, session: Id)
    | PollFetch(session: Id)
    | PollStatus(session: Id, decision: Decision)
    | PollMark(session: Id, decision: Decision)
    | HookRead(session: Id, status: Status)
    | HookStatus(session: Id, status: Status)
    | HookFetch(session: Id)
    | ApplyRead(session: Id, decision: Decision, byWebhook: bool)
    | Claim(session: Id, decision: Decision, byWebhook: bool)
    | Awarding(session: Id, row: Row, tier: Tier, decision: Decision, byWebhook: bool)

  /** `lost` lists the sessions whose handler died between its claim and its award. */
  datatype World = World(rows: map<Id, Row>, awards: seq<Award>, handlers: map<Id, Phase>, lost: set<Id>, now: int)

  datatype Event =
    | StartSession(session: Id, userId: Id, provider: Id, kind: Kind)
    | StartPoll(handler: Id, userId: Id, session: Id)
    | StartHook(handler: Id, session: Id, status: Status)
    | Advance(handler: Id, answer: Decision)
    | Crash(handler: Id)
    | Tick(ms: nat)

  predicate ShouldPoll(row: Row, now: int) {
    && !row.attested && !row.status.Declined? && !row.status.Abandoned? && !row.status.Expired?
    && (row.lastPolled.Some? ==> now - row.lastPolled.value >= POLL_MIN_INTERVAL)
  }

  function Done(w: World, h: Id): World { w.(handlers := w.handlers - {h}) }

  function Goto(w: World, h: Id, p: Phase): World { w.(handlers := w.handlers[h := p]) }

  /** One await of one handler; `answer` is what the vendor says if that await asks it. */
  function Advanced(mapping: Mapping, w: World, h: Id, answer: Decision): World
    requires h in w.handlers
  {
    match w.handlers[h]
    case PollRead(user, s) =>
      if s !in w.rows || w.rows[s].userId != user || !ShouldPoll(w.rows[s], w.now) then Done(w, h)
          else Goto(w, h, PollFetch(s))
    case PollFetch(s) => Goto(w, h, PollStatus(s, answer))
    case PollStatus(s, d) => Goto(WithStatus(w, s, d.status), h, PollMark(s, d))
    case PollMark(s, d) =>
      var marked := if s in w.rows then w.(rows := w.rows[s := w.rows[s].(lastPolled := Some(w.now))]) else w;
      if d.status.Approved? then Goto(marked, h, ApplyRead(s, d, false)) else Done(marked, h)
    case HookRead(s, status) => if s !in w.rows then Done(w, h) else Goto(w, h, HookStatus(s, status))
    case HookStatus(s, status) =>
      if status.Approved? then Goto(WithStatus(w, s, status), h, HookFetch(s)) else Done(WithStatus(w, s, status), h)
    case HookFetch(s) => Goto(w, h, ApplyRead(s, answer, true))
    case ApplyRead(s, d, hook) => if s !in w.rows then Done(w, h) else Goto(w, h, Claim(s, d, hook))
    case Claim(s, d, hook) =>
      if s !in w.rows || w.rows[s].attested then Done(w, h)
      else
        var row := w.rows[s].(attested := true);
        var tier := TierForWorkflow(mapping, d.workflowId, row.kind);
        var claimed := w.(rows := w.rows[s := row]);
        if tier.None? then Done(claimed, h) else Goto(claimed, h, Awarding(s, row, tier.value, d, hook))
    case Awarding(s, row, tier, d, hook) =>
      Done(w.(awards := w.awards + [Award(s, row.userId, tier, d.region, row.provider, d, hook)]), h)
  }

  function WithStatus(w: World, s: Id, status: Status): World {
    if s in w.rows then w.(rows := w.rows[s := w.rows[s].(status := status)]) else w
  }

  function Step(mapping: Mapping, w: World, e: Event): World {
    match e
    case StartSession(s, user, provider, kind) =>
      if s in w.rows then w else w.(rows := w.rows[s := Row(user, provider, kind, Waiting, false, None)])
    case StartPoll(h, user, s) => if h in w.handlers then w else Goto(w, h, PollRead(user, s))
    case StartHook(h, s, status) => if h in w.handlers then w else Goto(w, h, HookRead(s, status))
    case Advance(h, answer) => if h in w.handlers then Advanced(mapping, w, h, answer) else w
    case Crash(h) =>
      if h !in w.handlers then w
      else if w.handlers[h].Awarding? then Done(w, h).(lost := w.lost + {w.handlers[h].session})
      else Done(w, h)
    case Tick(ms) => w.(now := w.now + ms)
  }

  function Run(mapping: Mapping, w: World, events: seq<Event>): World {
    if events == [] then w else Step(mapping, Run(mapping, w, events[..|events| - 1]), events[|events| - 1])
  }

  function Start(now: int): World { World(map[], [], map[], {}, now) }

  // ---- the service, one call at a time -------------------------------------------------------------------------

  /** What an approved decision does to a session: the first claim attests it, and awards unless it is a recovery. */
  function AppliedAlone(mapping: Mapping, w: World, s: Id, d: Decision, hook: bool): World {
    if s !in w.rows || w.rows[s].attested then w
    else
      var row := w.rows[s].(attested := true);
      var tier := TierForWorkflow(mapping, d.workflowId, row.kind);
      var claimed := w.(rows := w.rows[s := row]);
      if tier.None? then claimed
      else claimed.(awards := w.awards + [Award(s, row.userId, tier.value, d.region, row.provider, d, hook)])
  }

  function HookAlone(mapping: Mapping, w: World, s: Id, status: Status, answer: Decision): World {
    if s !in w.rows then w
    else if status.Approved? then AppliedAlone(mapping, WithStatus(w, s, status), s, answer, true)
    else WithStatus(w, s, status)
  }

  function PollAlone(mapping: Mapping, w: World, user: Id, s: Id, answer: Decision): World {
    if s !in w.rows || w.rows[s].userId != user || !ShouldPoll(w.rows[s], w.now) then w
    else
      var row := w.rows[s].(status := answer.status, lastPolled := Some(w.now));
      var marked := w.(rows := w.rows[s := row]);
      if answer.status.Approved? then AppliedAlone(mapping, marked, s, answer, false) else marked
  }

  /** The session is there, nobody has claimed it, and it is no recovery. */
  predicate Awardable(w: World, s: Id) { s in w.rows && !w.rows[s].attested && !w.rows[s].kind.RecoveryKind? }

  /** At most one award more, of the session to its user, with the tier of the decision's workflow and the stored
    * kind. */
  ghost predicate AwardsOnly(mapping: Mapping, w: World, after: World, s: Id, d: Decision, hook: bool, awards: bool) {
    if !awards then after.awards == w.awards
    else
      && |after.awards| == |w.awards| + 1 && after.awards[..|w.awards|] == w.awards && s in w.rows
      && var a := after.awards[|w.awards|];
      && a.session == s && a.userId == w.rows[s].userId && a.provider == w.rows[s].provider
      && Some(a.tier) == TierForWorkflow(mapping, d.workflowId, w.rows[s].kind)
      && a.region == d.region && a.decision == d && a.byWebhook == hook
  }

  /** Only the session's row changed, and of it only what `change` says. */
  ghost predicate OnlyRow(w: World, after: World, s: Id, change: Row -> Row) {
    && after.rows.Keys == w.rows.Keys
    && forall x :: x in w.rows ==> after.rows[x] == if x == s then change(w.rows[x]) else w.rows[x]
  }

  /** A poll asks the vendor: the session is the caller's, not attested, not over, and was not asked about within five
    * seconds. */
  predicate Asks(w: World, user: Id, s: Id) {
    && s in w.rows && w.rows[s].userId == user && !w.rows[s].attested
    && w.rows[s].status in {Waiting, Approved, InReview}
    && (w.rows[s].lastPolled.Some? ==> w.now >= w.rows[s].lastPolled.value + 5000)
  }

  /** A poll that asks gives the session the vendor's status and the time, and an approved answer attests it and awards
    * unless it is a recovery; one that does not ask changes nothing. */
  ghost predicate PolledRight(mapping: Mapping, w: World, after: World, user: Id, s: Id, answer: Decision) {
    if !Asks(w, user, s) then after == w
    else
      && OnlyRow(w, after, s,
           (r: Row) => r.(status := answer.status, lastPolled := Some(w.now), attested := answer.status.Approved?))
      && AwardsOnly(mapping, w, after, s, answer, false, answer.status.Approved? && !w.rows[s].kind.RecoveryKind?)
      && after.now == w.now
  }

  lemma PollIsRight(mapping: Mapping, w: World, user: Id, s: Id, answer: Decision)
    ensures PolledRight(mapping, w, PollAlone(mapping, w, user, s, answer), user, s, answer)
  {
  }

  class KycSessionService {
    const mapping: Mapping
    var rows: map<Id, Row>
    var awards: seq<Award>
    var now: int

    constructor (mapping: Mapping, now: int)
      ensures this.mapping == mapping && rows == map[] && awards == [] && this.now == now
    {
      this.mapping, rows, awards, this.now := mapping, map[], [], now;
    }

    ghost function Now(): World
      reads this
    {
      World(rows, awards, map[], {}, now)
    }

    method UpdateStatus(s: Id, status: Status)
      modifies this
      ensures Now() == WithStatus(old(Now()), s, status)
    {
      if s in rows { rows := rows[s := rows[s].(status := status)]; }
    }

    /** The first caller gets the row, every later one nothing. */
    method ClaimAttestation(s: Id) returns (claimed: Option<Row>)
      modifies this
      ensures claimed == if s in old(rows) && !old(rows)[s].attested then Some(old(rows)[s].(attested := true))
        else None
      ensures rows == (if claimed.Some? then old(rows)[s := claimed.value] else old(rows)) && awards == old(awards)
      ensures now == old(now)
    {
      if s !in rows || rows[s].attested { return None; }
      rows := rows[s := rows[s].(attested := true)];
      claimed := Some(rows[s]);
    }

    /** The session is attested afterwards, and awarded if nobody had claimed it and it is no recovery. */
    method ApplyApprovedSession(s: Id, d: Decision, hook: bool)
      modifies this
      ensures OnlyRow(old(Now()), Now(), s, (r: Row) => r.(attested := true))
      ensures AwardsOnly(mapping, old(Now()), Now(), s, d, hook, Awardable(old(Now()), s))
      ensures Now() == AppliedAlone(mapping, old(Now()), s, d, hook)
    {
      if s !in rows { return; }
      var claimed := ClaimAttestation(s);
      if claimed.Some? && !claimed.value.kind.RecoveryKind? {
        var tier := TierForWorkflow(mapping, d.workflowId, claimed.value.kind);
        if tier.Some? {
          awards := awards + [Award(s, claimed.value.userId, tier.value, d.region, claimed.value.provider, d, hook)];
        }
      }
    }

    /** A verified, parsed webhook; `answer` is the decision the vendor gives when asked for it. */
    method HandleWebhook(s: Id, status: Status, answer: Decision)
      modifies this
      ensures OnlyRow(old(Now()), Now(), s,
        (r: Row) => r.(status := status, attested := r.attested || status.Approved?))
      ensures AwardsOnly(mapping, old(Now()), Now(), s, answer, true, status.Approved? && Awardable(old(Now()), s))
      ensures Now() == HookAlone(mapping, old(Now()), s, status, answer)
    {
      if s !in rows { return; }
      UpdateStatus(s, status);
      if status.Approved? { ApplyApprovedSession(s, answer, true); }
    }

    method PollSession(user: Id, s: Id, answer: Decision) returns (status: Option<Status>)
      modifies this
      ensures Now() == PollAlone(mapping, old(Now()), user, s, answer)
      ensures status.None? <==> s !in old(rows) || old(rows)[s].userId != user
      ensures status.Some? ==> status.value == if Asks(old(Now()), user, s) then answer.status else old(rows)[s].status
      ensures PolledRight(mapping, old(Now()), Now(), user, s, answer)
    {
      PollIsRight(mapping, Now(), user, s, answer);
      if s !in rows || rows[s].userId != user { return None; }
      status := Some(rows[s].status);
      var row := rows[s];
      var shouldPoll := !row.attested && row.status != Declined && row.status != Abandoned && row.status != Expired
        && (row.lastPolled.None? || now - row.lastPolled.value >= 5000);
      if shouldPoll {
        UpdateStatus(s, answer.status);
        rows := rows[s := rows[s].(lastPolled := Some(now))];
        if answer.status.Approved? { ApplyApprovedSession(s, answer, false); }
        status := Some(answer.status);
      }
    }
  }

  // ---- every interleaving --------------------------------------------------------------------------------------

  ghost predicate AwardOk(mapping: Mapping, w: World, a: Award) {
    && a.session in w.rows && w.rows[a.session].attested
    && !w.rows[a.session].kind.RecoveryKind?
    && a.userId == w.rows[a.session].userId && a.provider == w.rows[a.session].provider
    && Some(a.tier) == TierForWorkflow(mapping, a.decision.workflowId, w.rows[a.session].kind)
    && a.region == a.decision.region
    && (!a.byWebhook ==> a.decision.status.Approved?)
  }

  /** A handler that is about to award holds the claim of an attested session that nothing has awarded yet. */
  ghost predicate HandlerOk(mapping: Mapping, w: World, h: Id)
    requires h in w.handlers
  {
    match w.handlers[h]
    case ApplyRead(_, d, hook) => !hook ==> d.status.Approved?
    case Claim(_, d, hook) => !hook ==> d.status.Approved?
    case Awarding(s, row, tier, d, hook) =>
      && (!hook ==> d.status.Approved?)
      && s in w.rows && w.rows[s].attested && !row.kind.RecoveryKind?
      && row.userId == w.rows[s].userId && row.provider == w.rows[s].provider && row.kind == w.rows[s].kind
      && Some(tier) == TierForWorkflow(mapping, d.workflowId, row.kind)
      && s !in w.lost && !Awarded(w, s)
    case _ => true
  }

  ghost predicate Awarded(w: World, s: Id) { exists i :: 0 <= i < |w.awards| && w.awards[i].session == s }

  ghost predicate AboutToAward(w: World, s: Id) {
    exists h :: h in w.handlers && w.handlers[h].Awarding? && w.handlers[h].session == s
  }

  ghost predicate Inv(mapping: Mapping, w: World) {
    && (forall i :: 0 <= i < |w.awards| ==> AwardOk(mapping, w, w.awards[i]))
    && (forall i, j :: 0 <= i < j < |w.awards| ==> w.awards[i].session != w.awards[j].session)
    && (forall h :: h in w.handlers ==> HandlerOk(mapping, w, h))
    && (forall g, h ::
          g in w.handlers && h in w.handlers && g != h && w.handlers[g].Awarding? && w.handlers[h].Awarding? ==>
          w.handlers[g].session != w.handlers[h].session)
    && (forall s :: s in w.lost ==> s in w.rows && w.rows[s].attested && !Awarded(w, s))
  }

  /** No attestation gets lost: an attested session that should award has done so, is about to, or its handler died. */
  ghost predicate Accounted(w: World) {
    forall s :: s in w.rows && w.rows[s].attested && !w.rows[s].kind.RecoveryKind? ==>
      Awarded(w, s) || AboutToAward(w, s) || s in w.lost
  }

  /** The columns that decide awards are unchanged; rows may be added, unattested. */
  ghost predicate SameClaims(w: World, after: World) {
    && (forall s :: s in w.rows ==>
        s in after.rows && after.rows[s].(status := w.rows[s].status, lastPolled := w.rows[s].lastPolled) == w.rows[s])
    && (forall s :: s in after.rows && s !in w.rows ==> !after.rows[s].attested)
  }

  /** A step that neither claims, awards nor kills an awarding handler. */
  ghost predicate Quiet(mapping: Mapping, w: World, after: World) {
    && SameClaims(w, after) && after.awards == w.awards && after.lost == w.lost
    && (forall h :: h in w.handlers && w.handlers[h].Awarding? ==>
        h in after.handlers && after.handlers[h] == w.handlers[h])
    && (forall h :: h in after.handlers ==>
          (h in w.handlers && after.handlers[h] == w.handlers[h])
              || (!after.handlers[h].Awarding? && HandlerOk(mapping, after, h)))
  }

  lemma QuietKeeps(mapping: Mapping, w: World, after: World)
    requires Inv(mapping, w) && Accounted(w) && Quiet(mapping, w, after)
    ensures Inv(mapping, after) && Accounted(after)
  {
    assert forall s :: Awarded(after, s) <==> Awarded(w, s);
    forall s | AboutToAward(w, s) ensures AboutToAward(after, s) {
      var h :| h in w.handlers && w.handlers[h].Awarding? && w.handlers[h].session == s;
      assert h in after.handlers && after.handlers[h] == w.handlers[h];
    }
    forall h | h in after.handlers ensures HandlerOk(mapping, after, h) {
      assert h in w.handlers ==> HandlerOk(mapping, w, h);
    }
    forall i | 0 <= i < |after.awards| ensures AwardOk(mapping, after, after.awards[i]) {
      assert AwardOk(mapping, w, w.awards[i]);
    }
  }

  lemma UnattestedUnawarded(mapping: Mapping, w: World, s: Id)
    requires Inv(mapping, w) && s in w.rows && !w.rows[s].attested
    ensures !Awarded(w, s) && s !in w.lost && !AboutToAward(w, s)
  {
    forall i | 0 <= i < |w.awards| ensures w.awards[i].session != s { assert AwardOk(mapping, w, w.awards[i]); }
    forall h | h in w.handlers && w.handlers[h].Awarding?
      ensures w.handlers[h].session != s
    {
      assert HandlerOk(mapping, w, h);
    }
  }

  lemma ClaimAccounted(mapping: Mapping, w: World, h: Id, answer: Decision)
    requires Accounted(w) && h in w.handlers && w.handlers[h].Claim?
    requires var s := w.handlers[h].session; s in w.rows && !w.rows[s].attested
    ensures Accounted(Advanced(mapping, w, h, answer))
  {
    var after := Advanced(mapping, w, h, answer);
    var s := w.handlers[h].session;
    assert forall t :: Awarded(after, t) <==> Awarded(w, t);
    forall t | t != s && AboutToAward(w, t) ensures AboutToAward(after, t) { StillAwarding(w, after, h, t); }
    assert h in after.handlers ==> AboutToAward(after, s);
    assert forall t :: t in w.rows && t != s ==> after.rows[t] == w.rows[t];
  }

  /** Winning the claim hands the one award of a session to one handler. */
  lemma ClaimWon(mapping: Mapping, w: World, h: Id, answer: Decision)
    requires Inv(mapping, w) && Accounted(w) && h in w.handlers && w.handlers[h].Claim?
    requires var s := w.handlers[h].session; s in w.rows && !w.rows[s].attested
    ensures Inv(mapping, Advanced(mapping, w, h, answer)) && Accounted(Advanced(mapping, w, h, answer))
  {
    var after := Advanced(mapping, w, h, answer);
    var s := w.handlers[h].session;
    assert HandlerOk(mapping, w, h);
    UnattestedUnawarded(mapping, w, s);
    ClaimAccounted(mapping, w, h, answer);
    assert after.awards == w.awards && after.lost == w.lost;
    forall g | g in after.handlers ensures HandlerOk(mapping, after, g) { ClaimHandlerOk(mapping, w, h, answer, g); }
    forall g | g in w.handlers && w.handlers[g].Awarding? ensures w.handlers[g].session != s {}
    ClaimAwardsOk(mapping, w, h, answer);
  }

  lemma ClaimAwardsOk(mapping: Mapping, w: World, h: Id, answer: Decision)
    requires Inv(mapping, w) && h in w.handlers && w.handlers[h].Claim?
    requires var s := w.handlers[h].session; s in w.rows && !w.rows[s].attested
    ensures var after := Advanced(mapping, w, h, answer);
      && (forall i :: 0 <= i < |after.awards| ==> AwardOk(mapping, after, after.awards[i]))
      && (forall t :: t in after.lost ==> t in after.rows && after.rows[t].attested && !Awarded(after, t))
  {
    var after := Advanced(mapping, w, h, answer);
    assert after.awards == w.awards && after.lost == w.lost;
    forall i | 0 <= i < |after.awards|
      ensures AwardOk(mapping, after, after.awards[i])
    {
      assert AwardOk(mapping, w, w.awards[i]);
    }
    forall t | t in after.lost
      ensures t in after.rows && after.rows[t].attested && !Awarded(after, t)
    {
      assert !Awarded(w, t);
    }
  }

  lemma ClaimHandlerOk(mapping: Mapping, w: World, h: Id, answer: Decision, g: Id)
    requires Inv(mapping, w) && h in w.handlers && w.handlers[h].Claim? && g in Advanced(mapping, w, h, answer).handlers
    requires var s := w.handlers[h].session; s in w.rows && !w.rows[s].attested
    ensures HandlerOk(mapping, Advanced(mapping, w, h, answer), g)
  {
    var after := Advanced(mapping, w, h, answer);
    UnattestedUnawarded(mapping, w, w.handlers[h].session);
    assert HandlerOk(mapping, w, h) && HandlerOk(mapping, w, g);
    assert forall t :: Awarded(after, t) <==> Awarded(w, t);
  }

  lemma StillAwarding(w: World, after: World, h: Id, t: Id)
    requires AboutToAward(w, t) && h in w.handlers && !(w.handlers[h].Awarding? && w.handlers[h].session == t)
    requires forall g :: g in w.handlers && g != h ==> g in after.handlers && after.handlers[g] == w.handlers[g]
    ensures AboutToAward(after, t)
  {
    var g :| g in w.handlers && w.handlers[g].Awarding? && w.handlers[g].session == t;
    assert g in after.handlers && after.handlers[g] == w.handlers[g];
  }

  lemma AwardKeeps(mapping: Mapping, w: World, h: Id, answer: Decision)
    requires Inv(mapping, w) && Accounted(w) && h in w.handlers && w.handlers[h].Awarding?
    ensures Inv(mapping, Advanced(mapping, w, h, answer)) && Accounted(Advanced(mapping, w, h, answer))
  {
    var after := Advanced(mapping, w, h, answer);
    var s := w.handlers[h].session;
    assert HandlerOk(mapping, w, h);
    assert after.awards[|w.awards|].session == s;
    forall t ensures Awarded(after, t) <==> Awarded(w, t) || t == s {
      if i :| 0 <= i < |w.awards| && w.awards[i].session == t { assert after.awards[i].session == t; }
    }
    forall t | t != s && AboutToAward(w, t) ensures AboutToAward(after, t) { StillAwarding(w, after, h, t); }
    forall g | g in after.handlers ensures HandlerOk(mapping, after, g) { assert HandlerOk(mapping, w, g); }
    forall i | 0 <= i < |after.awards| ensures AwardOk(mapping, after, after.awards[i]) {
      assert i < |w.awards| ==> AwardOk(mapping, w, w.awards[i]);
    }
  }

  lemma CrashKeeps(mapping: Mapping, w: World, h: Id)
    requires Inv(mapping, w) && Accounted(w) && h in w.handlers && w.handlers[h].Awarding?
    ensures var after := Step(mapping, w, Crash(h)); Inv(mapping, after) && Accounted(after)
  {
    var after := Step(mapping, w, Crash(h));
    var s := w.handlers[h].session;
    assert HandlerOk(mapping, w, h);
    assert forall t :: Awarded(after, t) <==> Awarded(w, t);
    forall t | t != s && AboutToAward(w, t) ensures AboutToAward(after, t) { StillAwarding(w, after, h, t); }
    forall g | g in after.handlers ensures HandlerOk(mapping, after, g) { assert HandlerOk(mapping, w, g); }
    forall i | 0 <= i < |after.awards|
      ensures AwardOk(mapping, after, after.awards[i])
    {
      assert AwardOk(mapping, w, w.awards[i]);
    }
  }

  lemma MovedQuiet(mapping: Mapping, w: World, base: World, h: Id, p: Phase)
    requires SameClaims(w, base) && base.awards == w.awards && base.lost == w.lost && base.handlers == w.handlers
    requires h in w.handlers && !w.handlers[h].Awarding?
    ensures Quiet(mapping, w, Done(base, h))
    ensures !p.Awarding? && HandlerOk(mapping, Goto(base, h, p), h) ==> Quiet(mapping, w, Goto(base, h, p))
  {
  }

  lemma PollQuiet(mapping: Mapping, w: World, h: Id, answer: Decision)
    requires h in w.handlers
    requires w.handlers[h].PollRead? || w.handlers[h].PollFetch? || w.handlers[h].PollStatus? || w.handlers[h].PollMark?
    ensures Quiet(mapping, w, Advanced(mapping, w, h, answer))
  {
    match w.handlers[h]
    case PollRead(_, s) => MovedQuiet(mapping, w, w, h, PollFetch(s));
    case PollFetch(s) => MovedQuiet(mapping, w, w, h, PollStatus(s, answer));
    case PollStatus(s, d) => MovedQuiet(mapping, w, WithStatus(w, s, d.status), h, PollMark(s, d));
    case PollMark(s, d) =>
      var marked := if s in w.rows then w.(rows := w.rows[s := w.rows[s].(lastPolled := Some(w.now))]) else w;
      MovedQuiet(mapping, w, marked, h, ApplyRead(s, d, false));
  }

  lemma HookReadQuiet(mapping: Mapping, w: World, h: Id, answer: Decision)
    requires h in w.handlers && (w.handlers[h].HookRead? || w.handlers[h].HookFetch?)
    ensures Quiet(mapping, w, Advanced(mapping, w, h, answer))
  {
    var s := w.handlers[h].session;
    if w.handlers[h].HookRead? {
      MovedQuiet(mapping, w, w, h, HookStatus(s, w.handlers[h].status));
    } else {
      MovedQuiet(mapping, w, w, h, ApplyRead(s, answer, true));
    }
  }

  lemma HookStatusQuiet(mapping: Mapping, w: World, h: Id, answer: Decision)
    requires h in w.handlers && w.handlers[h].HookStatus?
    ensures Quiet(mapping, w, Advanced(mapping, w, h, answer))
  {
    var s := w.handlers[h].session;
    MovedQuiet(mapping, w, WithStatus(w, s, w.handlers[h].status), h, HookFetch(s));
  }

  /** Every other await is quiet. */
  lemma AdvanceQuiet(mapping: Mapping, w: World, h: Id, answer: Decision)
    requires Inv(mapping, w) && h in w.handlers && !w.handlers[h].Awarding?
    requires w.handlers[h].Claim? ==> var s := w.handlers[h].session; s in w.rows ==> w.rows[s].attested
    ensures Quiet(mapping, w, Advanced(mapping, w, h, answer))
  {
    assert HandlerOk(mapping, w, h);
    match w.handlers[h]
    case ApplyRead(s, d, hook) => MovedQuiet(mapping, w, w, h, Claim(s, d, hook));
    case Claim(s, d, hook) => MovedQuiet(mapping, w, w, h, HookFetch(s));
    case HookRead(_, _) => HookReadQuiet(mapping, w, h, answer);
    case HookStatus(_, _) => HookStatusQuiet(mapping, w, h, answer);
    case HookFetch(_) => HookReadQuiet(mapping, w, h, answer);
    case _ => PollQuiet(mapping, w, h, answer);
  }

  lemma AdvanceKeeps(mapping: Mapping, w: World, h: Id, answer: Decision)
    requires Inv(mapping, w) && Accounted(w) && h in w.handlers
    ensures Inv(mapping, Advanced(mapping, w, h, answer)) && Accounted(Advanced(mapping, w, h, answer))
  {
    if w.handlers[h].Awarding? {
      AwardKeeps(mapping, w, h, answer);
    } else if w.handlers[h].Claim? && w.handlers[h].session in w.rows && !w.rows[w.handlers[h].session].attested {
      ClaimWon(mapping, w, h, answer);
    } else {
      AdvanceQuiet(mapping, w, h, answer);
      QuietKeeps(mapping, w, Advanced(mapping, w, h, answer));
    }
  }

  lemma StepKeeps(mapping: Mapping, w: World, e: Event)
    requires Inv(mapping, w) && Accounted(w)
    ensures Inv(mapping, Step(mapping, w, e)) && Accounted(Step(mapping, w, e))
  {
    if e.Advance? && e.handler in w.handlers {
      AdvanceKeeps(mapping, w, e.handler, e.answer);
    } else if e.Crash? && e.handler in w.handlers && w.handlers[e.handler].Awarding? {
      CrashKeeps(mapping, w, e.handler);
    } else {
      QuietKeeps(mapping, w, Step(mapping, w, e));
    }
  }

  lemma {:induction false} RunKeeps(mapping: Mapping, now: int, events: seq<Event>)
    ensures var w := Run(mapping, Start(now), events); Inv(mapping, w) && Accounted(w)
  {
    if events != [] {
      RunKeeps(mapping, now, events[..|events| - 1]);
      StepKeeps(mapping, Run(mapping, Start(now), events[..|events| - 1]), events[|events| - 1]);
    }
  }

  /** However polls and webhooks interleave: at most one award per session, none for a recovery, each with the tier of
    * the decision's workflow and the stored kind; and once no handler is left, every attested session that is no
    * recovery has its award unless its handler died. */
  lemma AwardsAreRight(mapping: Mapping, now: int, events: seq<Event>)
    ensures var w := Run(mapping, Start(now), events);
      && (forall i, j :: 0 <= i < |w.awards| && 0 <= j < |w.awards| && i != j ==>
          w.awards[i].session != w.awards[j].session)
      && (forall i :: 0 <= i < |w.awards| ==> AwardOk(mapping, w, w.awards[i]))
      && (w.handlers == map[] ==> forall s :: s in w.rows ==>
            (Awarded(w, s) <==> w.rows[s].attested && !w.rows[s].kind.RecoveryKind? && s !in w.lost))
  {
    RunKeeps(mapping, now, events);
    var w := Run(mapping, Start(now), events);
    forall s | Awarded(w, s) ensures s in w.rows && w.rows[s].attested && !w.rows[s].kind.RecoveryKind? {
      var i :| 0 <= i < |w.awards| && w.awards[i].session == s;
      assert AwardOk(mapping, w, w.awards[i]);
    }
  }

  // ---- tiers and polls ------------------------------------------------------------------------------------------

  /** The hosted vendor's workflow ids, one per kind of session. */
  datatype Workflows = Workflows(identity: Id, poa: Option<Id>, recover: Option<Id>)

  function VendorTier(cfg: Workflows): Id -> Option<Tier> {
    workflowId =>
      if cfg.poa == Some(workflowId) then Some(ResidencyVerified)
      else if workflowId == cfg.identity then Some(IdentityVerified)
      else None
  }

  /** A recovery earns nothing. Any other session earns residency exactly if it comes back with the proof-of-address
    * workflow, or is of that kind and comes back with one the vendor does not map, and identity otherwise. So one that
    * comes back with the workflow of its kind earns the tier of its kind, exactly when the two workflows are configured
    * apart. */
  lemma TierOfStartedSession(cfg: Workflows, kind: Kind, workflowId: Id)
    ensures var tier := TierForWorkflow(Some(VendorTier(cfg)), workflowId, kind);
      && (tier == None <==> kind == RecoveryKind)
      && (tier == Some(ResidencyVerified) <==>
           kind != RecoveryKind && (cfg.poa == Some(workflowId) || (kind == Poa && workflowId != cfg.identity)))
    ensures (kind == Poa && cfg.poa == Some(workflowId)) || (kind == Identity && cfg.identity == workflowId) ==>
      (TierForWorkflow(Some(VendorTier(cfg)), workflowId, kind) == TierForWorkflow(None, workflowId, kind) <==>
        kind == Poa || cfg.poa != Some(cfg.identity))
    ensures kind.Poa? ==> TierForWorkflow(None, workflowId, kind) == Some(ResidencyVerified)
    ensures kind.Identity? ==> TierForWorkflow(None, workflowId, kind) == Some(IdentityVerified)
  {
  }

  /** Polls of one session that run alone ask the vendor at most once per interval: one that asked leaves the next,
    * whatever the vendor would say, without effect until the interval is over. */
  lemma PollsAreSpaced(mapping: Mapping, w: World, user: Id, s: Id, first: Decision, second: Decision, ms: nat)
    requires s in w.rows && w.rows[s].userId == user && ShouldPoll(w.rows[s], w.now) && ms < POLL_MIN_INTERVAL
    ensures var after := PollAlone(mapping, w, user, s, first); var later := after.(now := after.now + ms);
      PollAlone(mapping, later, user, s, second) == later
  {
  }

  // ---- the webhook's decision ------------------------------------------------------------------------------------

  /** The webhook handler acts on the event's status and never looks at the status of the decision it then fetches:
    * an approved event awards an unclaimed session whatever that status is. */
  lemma HookIgnoresDecisionStatus(mapping: Mapping, w: World, s: Id, answer: Decision)
    requires s in w.rows && !w.rows[s].attested && !w.rows[s].kind.RecoveryKind?
    ensures var after := HookAlone(mapping, w, s, Approved, answer);
      |after.awards| == |w.awards| + 1 && after.awards[|w.awards|].decision == answer
          && after.awards[|w.awards|].byWebhook
  {
  }

  /** A webhook that runs alone makes an award on a decision that is not approved exactly when its event is approved,
    * the session is awardable, and the decision fetched is not approved. A poll never does. */
  lemma UnapprovedAwardExactly(mapping: Mapping, w: World, user: Id, s: Id, status: Status, answer: Decision)
    ensures var made := HookAlone(mapping, w, s, status, answer).awards[|w.awards|..];
      (exists a :: a in made && !a.decision.status.Approved?)
      <==> status.Approved? && Awardable(w, s) && !answer.status.Approved?
    ensures forall a :: a in PollAlone(mapping, w, user, s, answer).awards[|w.awards|..] ==> a.decision.status.Approved?
  {
    var after := HookAlone(mapping, w, s, status, answer);
    if status.Approved? && Awardable(w, s) {
      assert after.awards[|w.awards|..] == [after.awards[|w.awards|]];
      assert after.awards[|w.awards|].decision == answer;
    } else {
      assert after.awards[|w.awards|..] == [];
    }
  }

  /** Every award of a run rests on an approved decision if the vendor never answers a webhook's fetch otherwise. */
  ghost predicate FetchesApproved(mapping: Mapping, w: World, events: seq<Event>) {
    forall i :: 0 <= i < |events| ==> FetchApproved(Run(mapping, w, events[..i]), events[i])
  }

  ghost predicate FetchApproved(w: World, e: Event) {
    e.Advance? && e.handler in w.handlers && w.handlers[e.handler].HookFetch? ==> e.answer.status.Approved?
  }

  ghost predicate AllApproved(w: World) {
    && (forall i :: 0 <= i < |w.awards| ==> w.awards[i].decision.status.Approved?)
    && (forall h :: h in w.handlers ==>
          match w.handlers[h]
          case ApplyRead(_, d, _) => d.status.Approved?
          case Claim(_, d, _) => d.status.Approved?
          case Awarding(_, _, _, d, _) => d.status.Approved?
          case _ => true)
  }

  lemma ApprovedKept(mapping: Mapping, w: World, e: Event)
    requires AllApproved(w) && FetchApproved(w, e)
    requires forall h :: h in w.handlers ==> HandlerOk(mapping, w, h)
    ensures AllApproved(Step(mapping, w, e))
  {
    if e.Advance? && e.handler in w.handlers { assert HandlerOk(mapping, w, e.handler); }
  }

  lemma {:induction false} ApprovedWhenFetched(mapping: Mapping, now: int, events: seq<Event>)
    requires FetchesApproved(mapping, Start(now), events)
    ensures AllApproved(Run(mapping, Start(now), events))
  {
    if events != [] {
      var init, last := events[..|events| - 1], events[|events| - 1];
      forall i | 0 <= i < |init| ensures FetchApproved(Run(mapping, Start(now), init[..i]), init[i]) {
        assert init[..i] == events[..i];
      }
      ApprovedWhenFetched(mapping, now, init);
      assert FetchApproved(Run(mapping, Start(now), events[..|init|]), events[|init|]);
      RunKeeps(mapping, now, init);
      ApprovedKept(mapping, Run(mapping, Start(now), init), last);
    }
  }

  /** The step is the award of a handler that claimed its session with a decision that is not approved. */
  predicate AwardsUnapproved(w: World, e: Event) {
    e.Advance? && e.handler in w.handlers && w.handlers[e.handler].Awarding?
    && !w.handlers[e.handler].decision.status.Approved?
  }

  ghost predicate AwardsApproved(w: World) {
    forall i :: 0 <= i < |w.awards| ==> w.awards[i].decision.status.Approved?
  }

  /** In any run a step makes an award on a decision that is not approved exactly then, and only a webhook does: the
    * awards stay approved as long as no step is such an award. */
  lemma AwardStepExactly(mapping: Mapping, now: int, events: seq<Event>, e: Event)
    ensures var w := Run(mapping, Start(now), events);
      && (AwardsApproved(Step(mapping, w, e)) <==> AwardsApproved(w) && !AwardsUnapproved(w, e))
      && (AwardsUnapproved(w, e) ==> w.handlers[e.handler].byWebhook)
  {
    var w := Run(mapping, Start(now), events);
    var after := Step(mapping, w, e);
    RunKeeps(mapping, now, events);
    if e.Advance? && e.handler in w.handlers && w.handlers[e.handler].Awarding? {
      assert HandlerOk(mapping, w, e.handler);
      assert forall i :: 0 <= i < |w.awards| ==> after.awards[i] == w.awards[i];
      assert after.awards[|w.awards|].decision == w.handlers[e.handler].decision;
    } else {
      assert after.awards == w.awards;
    }
  }

  /** No step of the run was such an award. */
  predicate NoneUnapproved(mapping: Mapping, now: int, events: seq<Event>) {
    events == [] || (var init := events[..|events| - 1];
      NoneUnapproved(mapping, now, init) && !AwardsUnapproved(Run(mapping, Start(now), init), events[|events| - 1]))
  }

  /** So all awards of a run are approved if and only if none of its steps was such an award. */
  lemma {:induction false} ApprovedExactly(mapping: Mapping, now: int, events: seq<Event>)
    ensures AwardsApproved(Run(mapping, Start(now), events)) <==> NoneUnapproved(mapping, now, events)
  {
    if events != [] {
      ApprovedExactly(mapping, now, events[..|events| - 1]);
      AwardStepExactly(mapping, now, events[..|events| - 1], events[|events| - 1]);
    }
  }

  // ---- calls that run alone -----------------------------------------------------------------------------------------

  function Next(mapping: Mapping, h: Id, answer: Decision): World -> World {
    w => Step(mapping, w, Advance(h, answer))
  }

  /** `n` awaits of one handler with nothing between them. */
  function Steps(mapping: Mapping, w: World, h: Id, answer: Decision, n: nat): World {
    Iterate(Next(mapping, h, answer), w, n)
  }

  /** A handler's tail does what `AppliedAlone` does. */
  lemma ApplyStepsAreTheCall(mapping: Mapping, base: World, w: World, h: Id, answer: Decision, s: Id, d: Decision,
        hook: bool)
    requires h !in base.handlers && w == Goto(base, h, ApplyRead(s, d, hook))
    ensures Steps(mapping, w, h, answer, 3) == AppliedAlone(mapping, base, s, d, hook)
  {
    var w1 := Steps(mapping, w, h, answer, 1);
    var w2 := Steps(mapping, w, h, answer, 2);
    StepsJoin(mapping, w, h, answer, 1, 1);
    StepsJoin(mapping, w, h, answer, 2, 1);
    if s !in base.rows {
      assert w1 == base;
      StepsOver(mapping, base, h, answer, 1);
    } else {
      assert w1 == Goto(base, h, Claim(s, d, hook));
      ClaimStepsAreTheCall(mapping, base, w1, h, answer, s, d, hook);
      StepsJoin(mapping, w, h, answer, 1, 2);
    }
  }

  lemma ClaimStepsAreTheCall(mapping: Mapping, base: World, w: World, h: Id, answer: Decision, s: Id, d: Decision,
        hook: bool)
    requires h !in base.handlers && w == Goto(base, h, Claim(s, d, hook)) && s in base.rows
    ensures Steps(mapping, w, h, answer, 2) == AppliedAlone(mapping, base, s, d, hook)
  {
    var w1, w2 := Steps(mapping, w, h, answer, 1), Steps(mapping, w, h, answer, 2);
    if h !in w1.handlers { StepsOver(mapping, w1, h, answer, 1); StepsJoin(mapping, w, h, answer, 1, 1); }
    assert w2.handlers == base.handlers;
  }

  lemma StepsJoin(mapping: Mapping, w: World, h: Id, answer: Decision, m: nat, n: nat)
    ensures Steps(mapping, w, h, answer, m + n) == Steps(mapping, Steps(mapping, w, h, answer, m), h, answer, n)
  {
    IterateJoin(Next(mapping, h, answer), w, m, n);
  }

  lemma StepsOver(mapping: Mapping, w: World, h: Id, answer: Decision, n: nat)
    requires h !in w.handlers
    ensures Steps(mapping, w, h, answer, n) == w
  {
    IterateFixed(Next(mapping, h, answer), w, n);
  }

  /** The steps of one webhook with nothing between them do what the call does. */
  lemma HookStepsAreTheCall(mapping: Mapping, w: World, h: Id, s: Id, status: Status, answer: Decision)
    requires h !in w.handlers
    ensures Steps(mapping, Step(mapping, w, StartHook(h, s, status)), h, answer, 6) ==
      HookAlone(mapping, w, s, status, answer)
  {
    var w0 := Step(mapping, w, StartHook(h, s, status));
    var w1, w2, w3 := Steps(mapping, w0, h, answer, 1), Steps(mapping, w0, h, answer, 2),
        Steps(mapping, w0, h, answer, 3);
    if s !in w.rows {
      assert w1 == w;
      StepsOver(mapping, w, h, answer, 5);
      StepsJoin(mapping, w0, h, answer, 1, 5);
    } else if !status.Approved? {
      assert w2 == WithStatus(w, s, status);
      StepsOver(mapping, w2, h, answer, 4);
      StepsJoin(mapping, w0, h, answer, 2, 4);
    } else {
      assert w3 == Goto(WithStatus(w, s, status), h, ApplyRead(s, answer, true));
      ApplyStepsAreTheCall(mapping, WithStatus(w, s, status), w3, h, answer, s, answer, true);
      StepsJoin(mapping, w0, h, answer, 3, 3);
    }
  }

  lemma PollOpening(mapping: Mapping, w: World, h: Id, user: Id, s: Id, answer: Decision)
    requires h !in w.handlers && s in w.rows && w.rows[s].userId == user && ShouldPoll(w.rows[s], w.now)
    ensures var marked := w.(rows := w.rows[s := w.rows[s].(status := answer.status, lastPolled := Some(w.now))]);
      Steps(mapping, Step(mapping, w, StartPoll(h, user, s)), h, answer, 4) ==
        if answer.status.Approved? then Goto(marked, h, ApplyRead(s, answer, false)) else marked
  {
    var w0 := Step(mapping, w, StartPoll(h, user, s));
    var w1, w2 := Steps(mapping, w0, h, answer, 1), Steps(mapping, w0, h, answer, 2);
    assert w2 == Goto(w, h, PollStatus(s, answer));
    StepsJoin(mapping, w0, h, answer, 2, 2);
    var w3 := Steps(mapping, w2, h, answer, 1);
    assert w3 == Goto(WithStatus(w, s, answer.status), h, PollMark(s, answer));
  }

  /** The steps of one poll with nothing between them do what the call does. */
  lemma PollStepsAreTheCall(mapping: Mapping, w: World, h: Id, user: Id, s: Id, answer: Decision)
    requires h !in w.handlers
    ensures Steps(mapping, Step(mapping, w, StartPoll(h, user, s)), h, answer, 7) ==
      PollAlone(mapping, w, user, s, answer)
  {
    var w0 := Step(mapping, w, StartPoll(h, user, s));
    var w4 := Steps(mapping, w0, h, answer, 4);
    if s !in w.rows || w.rows[s].userId != user || !ShouldPoll(w.rows[s], w.now) {
      assert Steps(mapping, w0, h, answer, 1) == w;
      StepsOver(mapping, w, h, answer, 6);
      StepsJoin(mapping, w0, h, answer, 1, 6);
    } else {
      PollOpening(mapping, w, h, user, s, answer);
      var marked := w.(rows := w.rows[s := w.rows[s].(status := answer.status, lastPolled := Some(w.now))]);
      if answer.status.Approved? {
        ApplyStepsAreTheCall(mapping, marked, w4, h, answer, s, answer, false);
      } else {
        StepsOver(mapping, marked, h, answer, 3);
      }
      StepsJoin(mapping, w0, h, answer, 4, 3);
    }
  }

  lemma {:induction false} RunJoin(mapping: Mapping, w: World, a: seq<Event>, b: seq<Event>)
    ensures Run(mapping, w, a + b) == Run(mapping, Run(mapping, w, a), b)
  {
    if b == [] {
      assert a + b == a;
    } else {
      assert (a + b)[..|a + b| - 1] == a + b[..|b| - 1];
      RunJoin(mapping, w, a, b[..|b| - 1]);
    }
  }

  function Repeat(e: Event, n: nat): seq<Event> { seq(n, i => e) }

  lemma {:induction false} RunRepeats(mapping: Mapping, w: World, h: Id, answer: Decision, n: nat)
    ensures Run(mapping, w, Repeat(Advance(h, answer), n)) == Steps(mapping, w, h, answer, n)
  {
    if n > 0 {
      RunRepeats(mapping, w, h, answer, n - 1);
      assert Repeat(Advance(h, answer), n)[..n - 1] == Repeat(Advance(h, answer), n - 1);
    }
  }

  /** A run from empty tables in which a session is attested and awarded on a declined decision. */
  lemma AwardedThoughDeclined(user: Id, provider: Id, d: Decision)
    requires d.status == Declined
    ensures var started := Run(None, Start(0), [StartSession(1, user, provider, Poa)]);
      var w := Run(None, started, [StartHook(2, 1, Approved)] + Repeat(Advance(2, d), 6));
      && w.awards == [Award(1, user, ResidencyVerified, d.region, provider, d, true)]
      && w.rows == map[1 := Row(user, provider, Poa, Approved, true, None)] && w.handlers == map[]
  {
    var start, hook := StartSession(1, user, provider, Poa), StartHook(2, 1, Approved);
    assert [start][..0] == [] && [hook][..0] == [] && Run(None, Start(0), []) == Start(0);
    var started := Run(None, Start(0), [start]);
    assert Run(None, started, []) == started;
    RunJoin(None, started, [hook], Repeat(Advance(2, d), 6));
    RunRepeats(None, Step(None, started, hook), 2, d, 6);
    HookStepsAreTheCall(None, started, 2, 1, Approved, d);
  }
}
