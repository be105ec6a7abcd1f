/** What a poll or petition itself says about changing votes and revoking signatures, read off its stored content, and
  * what that means for calls. */
module Permissions {
  import opened Wrappers
  import opened RecordTypes
  import opened RecordLog
  import opened RecordShape
  import opened Governance
  import opened RecordSpec
  import opened RecordRuns
  import opened Acceptance
  import opened Singletons
  import opened Tallies

  /** The rules in the entity's readable content; None if its content is erased, no JSON, or has no rules. */
  function OwnRules(st: Store, id: EntityId): Option<EntityRules> {
    match Head(st.log, id)
    case Some(h) =>
      if h.env.txId in st.plain && st.plain[h.env.txId].content.Json? then st.plain[h.env.txId].content.rules else None
    case None => None
  }

  /** The deadline that counts: the entity's own, else the jurisdiction's. */
  function DeadlineOf(own: Option<EntityRules>, base: EntityRules): Deadline {
    if own.Some? && own.value.deadline != Absent then own.value.deadline else base.deadline
  }

  predicate PermitsChange(o: Oracle, st: Store, poll: EntityId, now: int, j: Option<Jurisdiction>) {
    var own, base := OwnRules(st, poll), o.rules(j);
    && IsLive(st.log, poll) && !Passed(DeadlineOf(own, base), now)
    && !Refuses(if own.Some? then own.value.allowChange else None, base.allowChange)
  }

  predicate PermitsRevoke(o: Oracle, st: Store, petition: EntityId, now: int, j: Option<Jurisdiction>) {
    var own, base := OwnRules(st, petition), o.rules(j);
    && IsLive(st.log, petition) && !Passed(DeadlineOf(own, base), now)
    && !Refuses(if own.Some? then own.value.allowRevoke else None, base.allowRevoke)
  }

  /** The service's gates read exactly the content and the jurisdiction's table. */
  lemma GatesReadContent(o: Oracle, st: Store, id: EntityId, now: int, j: Option<Jurisdiction>)
    ensures CanChangeVote(o, st, id, now, j) <==> PermitsChange(o, st, id, now, j)
    ensures CanRevokeSignature(o, st, id, now, j) <==> PermitsRevoke(o, st, id, now, j)
  {
    var own := OwnRules(st, id);
    GatesExactly(o.rules(j), if own.Some? then own.value else EntityRules(Absent, None, None), now);
  }

  /** The vote's poll permits the change; the rest of the update rules do not look at rules or time. */
  lemma VoteUpdateExactly(o: Oracle, st: Store, id: EntityId, actor: Key, content: Option<Content>, now: int,
                          j: Option<Jurisdiction>)
    requires IsLive(st.log, id) && Head(st.log, id).value.env.typ == Vote
    ensures var h := Head(st.log, id).value;
      ValidateUpdate(o, st, id, actor, content, now, j).Ok? <==>
        && (actor == h.env.author || actor == Platform)
        && (content.Some? ==> o.contentOk(Vote, Update, content.value, j))
        && h.env.parentId.Some? && PermitsChange(o, st, h.env.parentId.value, now, j)
        && HeadRoot(st.log, h).Some?
  {
    var h := Head(st.log, id).value;
    if h.env.parentId.Some? { GatesReadContent(o, st, h.env.parentId.value, now, j); }
  }

  lemma SignatureDeleteExactly(o: Oracle, st: Store, id: EntityId, actor: Key, now: int, j: Option<Jurisdiction>)
    requires IsLive(st.log, id) && Head(st.log, id).value.env.typ == PetitionSignature
    ensures var h := Head(st.log, id).value;
      ValidateDelete(o, st, id, actor, now, j).Ok? <==>
        && (actor == h.env.author || actor == Platform)
        && h.env.parentId.Some? && PermitsRevoke(o, st, h.env.parentId.value, now, j)
        && HeadRoot(st.log, h).Some?
  {
    var h := Head(st.log, id).value;
    if h.env.parentId.Some? { GatesReadContent(o, st, h.env.parentId.value, now, j); }
  }

  predicate HasType(log: Log, id: EntityId, typ: RecordType) {
    Exists(log, id) && Head(log, id).value.env.typ == typ
  }

  /** An accepted call on a vote is an update that the poll's content and the jurisdiction's table permit at that
    * moment: on the signed path, in the thread's jurisdiction, */
  lemma SignedVoteUpdate(o: Oracle, st: Store, s: Submission, now: int)
    requires HasType(st.log, s.env.entityId, Vote) && Submit(o, st, s, now).1.Ok?
    ensures var h := Head(st.log, s.env.entityId).value.env;
      && s.env.op == Update && h.op != Delete && s.env.author in st.keys && h.parentId.Some?
      && PermitsChange(o, st, h.parentId.value, now, Some(st.keys[s.env.author].jurisdiction))
  {
    AcceptedVoteEdit(o, st, s, now);
    EditChecks(o, st, s, now);
    var h := Head(st.log, s.env.entityId).value.env;
    GatesReadContent(o, st, h.parentId.value, now, Some(st.keys[s.env.author].jurisdiction));
  }

  /** and on the unsigned path, in that of the last resort. */
  lemma UnsignedVoteUpdate(o: Oracle, st: Store, i: Intent, now: int)
    requires HasType(st.log, i.id, Vote) && WriteUnsigned(o, st, i, now).1.Ok?
    ensures var h := Head(st.log, i.id).value.env;
      i.op == Update && h.op != Delete && h.parentId.Some? && PermitsChange(o, st, h.parentId.value, now, None)
  {
    var h := Head(st.log, i.id).value.env;
    if h.parentId.Some? { GatesReadContent(o, st, h.parentId.value, now, None); }
  }

  /** An accepted call on a signature is a deletion that the petition's content and the jurisdiction's table permit. */
  lemma SignedRevocation(o: Oracle, st: Store, s: Submission, now: int)
    requires HasType(st.log, s.env.entityId, PetitionSignature) && Submit(o, st, s, now).1.Ok?
    ensures var h := Head(st.log, s.env.entityId).value.env;
      && s.env.op == Delete && h.op != Delete && s.env.author in st.keys && h.parentId.Some?
      && PermitsRevoke(o, st, h.parentId.value, now, Some(st.keys[s.env.author].jurisdiction))
  {
    AcceptedSignatureEdit(o, st, s, now);
    EditChecks(o, st, s, now);
    var h := Head(st.log, s.env.entityId).value.env;
    GatesReadContent(o, st, h.parentId.value, now, Some(st.keys[s.env.author].jurisdiction));
  }

  lemma UnsignedRevocation(o: Oracle, st: Store, i: Intent, now: int)
    requires HasType(st.log, i.id, PetitionSignature) && WriteUnsigned(o, st, i, now).1.Ok?
    ensures var h := Head(st.log, i.id).value.env;
      i.op == Delete && h.op != Delete && h.parentId.Some? && PermitsRevoke(o, st, h.parentId.value, now, None)
  {
    var h := Head(st.log, i.id).value.env;
    if h.parentId.Some? { GatesReadContent(o, st, h.parentId.value, now, None); }
  }

  predicate IsOn(log: Log, id: EntityId, typ: RecordType, parent: EntityId) {
    HasType(log, id, typ) && Head(log, id).value.env.parentId == Some(parent)
  }

  /** A poll whose readable content makes votes final, or whose date is not ahead, lets no vote change on either path,
    * whatever the jurisdiction says; */
  lemma FinalPollRefuses(o: Oracle, st: Store, s: Submission, i: Intent, now: int, poll: EntityId)
    requires OwnRules(st, poll).Some?
    requires var own := OwnRules(st, poll).value;
      own.allowChange == Some(false) || (own.deadline.At? && own.deadline.ms <= now)
    ensures IsOn(st.log, s.env.entityId, Vote, poll) ==> Submit(o, st, s, now).1.Err?
    ensures IsOn(st.log, i.id, Vote, poll) ==> WriteUnsigned(o, st, i, now).1.Err?
  {
    if IsOn(st.log, s.env.entityId, Vote, poll) && Submit(o, st, s, now).1.Ok? { SignedVoteUpdate(o, st, s, now); }
    if IsOn(st.log, i.id, Vote, poll) && WriteUnsigned(o, st, i, now).1.Ok? { UnsignedVoteUpdate(o, st, i, now); }
  }

  /** and such a petition lets no signature be revoked. */
  lemma FinalPetitionRefuses(o: Oracle, st: Store, s: Submission, i: Intent, now: int, petition: EntityId)
    requires OwnRules(st, petition).Some?
    requires var own := OwnRules(st, petition).value;
      own.allowRevoke == Some(false) || (own.deadline.At? && own.deadline.ms <= now)
    ensures IsOn(st.log, s.env.entityId, PetitionSignature, petition) ==> Submit(o, st, s, now).1.Err?
    ensures IsOn(st.log, i.id, PetitionSignature, petition) ==> WriteUnsigned(o, st, i, now).1.Err?
  {
    if IsOn(st.log, s.env.entityId, PetitionSignature, petition) && Submit(o, st, s, now).1.Ok? {
      SignedRevocation(o, st, s, now);
    }
    if IsOn(st.log, i.id, PetitionSignature, petition) && WriteUnsigned(o, st, i, now).1.Ok? {
      UnsignedRevocation(o, st, i, now);
    }
  }
}
