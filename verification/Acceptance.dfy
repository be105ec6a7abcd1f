/** Acceptance without order: what a signed call must satisfy, stated as one conjunction of guards and proved to be
  * exactly what the checks in their order accept, on every log. Roots and depths are those the walks over current heads
  * find; on a well-formed log they are those fixed at creation. */
module Acceptance {
  import opened Wrappers
  import opened RecordTypes
  import opened RecordLog
  import opened RecordShape
  import opened RecordSpec
  import opened RecordRuns

  // ---- the shared rules ------------------------------------------------------------------------------------------

  /** What may be created: a root without a parent, or an attachment to a live parent of an allowed and recorded type,
    * within the nesting bound, of a known reaction kind. */
  predicate CreateRules(o: Oracle, st: Store, typ: RecordType, content: Content, parent: Option<ParentRef>,
        j: Option<Jurisdiction>) {
    && Create in AllowedOps(typ) && o.contentOk(typ, Create, content, j)
    && if IsRootType(typ) then parent.None?
       else
         && parent.Some? && ParentAllowed(typ, parent.value.typ)
         && IsLive(st.log, parent.value.id) && Head(st.log, parent.value.id).value.env.typ == parent.value.typ
         && (typ == Comment ==> HasRoom(st.log, parent.value)) && WalkRoot(st.log, parent.value.id).Some?
         && (typ == Reaction ==> content.Json? && content.kind in {Some("check"), Some("cross")})
  }

  /** A comment under the parent stays within the nesting bound. */
  predicate HasRoom(log: Log, parent: ParentRef) {
    NewDepth(log, parent).Ok? && NewDepth(log, parent).value <= COMMENT_MAX_DEPTH
  }

  /** On a well-formed log the walks in the guards find the depth and the root fixed at creation. */
  lemma ShapedGuards(log: Log, parent: ParentRef)
    requires WellFormed(log) && Exists(log, parent.id) && Head(log, parent.id).value.env.typ == parent.typ
    ensures HasRoom(log, parent) <==> DepthAt(log, parent.id) < COMMENT_MAX_DEPTH
    ensures WalkRoot(log, parent.id) == HeadRoot(log, Head(log, parent.id).value) == Some(RootOf(log, parent.id))
  {
    DepthAgrees(log, parent);
    WalkAgrees(log, parent.id);
  }

  /** The revision a new attachment is pinned to: the parent's head, which is live. */
  function Pinned(log: Log, typ: RecordType, parent: Option<ParentRef>): Option<Tx> {
    if IsRootType(typ) || parent.None? then None else Head(log, parent.value.id)
  }

  function ThreadOf(log: Log, typ: RecordType, parent: Option<ParentRef>, id: EntityId): Option<EntityId> {
    if IsRootType(typ) || parent.None? then Some(id) else WalkRoot(log, parent.value.id)
  }

  lemma CreateRulesExactly(o: Oracle, st: Store, typ: RecordType, content: Content, parent: Option<ParentRef>,
                           id: EntityId, j: Option<Jurisdiction>)
    ensures var r := ValidateCreate(o, st, typ, content, parent, id, j); var p := Pinned(st.log, typ, parent);
      && (r.Ok? <==> CreateRules(o, st, typ, content, parent, j))
      && (r.Ok? ==> Some(r.value.root) == ThreadOf(st.log, typ, parent, id) && r.value.singleton == IsSingleton(typ))
      && (r.Ok? ==> r.value.revisionHash == (if p.Some? then Some(p.value.hash) else None))
      && (r.Ok? ==> r.value.revisionTxId == (if p.Some? then Some(p.value.env.txId) else None))
  {
    if parent.Some? && IsLive(st.log, parent.value.id) { CurrentOfLive(st.log, parent.value.id); }
  }

  /** Who may edit what: the creator or the platform, a live entity, an op of its type; a vote only while its poll lets
    * votes change, a signature only while its petition lets it be revoked. */
  predicate EditRules(o: Oracle, st: Store, op: Op, id: EntityId, actor: Key, content: Option<Content>, now: int,
        j: Option<Jurisdiction>) {
    && IsLive(st.log, id)
    && var h := Head(st.log, id).value.env;
    && op in AllowedOps(h.typ) && (h.author == actor || actor == Platform)
    && (op == Update && content.Some? ==> o.contentOk(h.typ, Update, content.value, j))
    && (op == Update && h.typ == Vote ==> h.parentId.Some? && CanChangeVote(o, st, h.parentId.value, now, j))
    && (op == Delete && h.typ == PetitionSignature ==>
        h.parentId.Some? && CanRevokeSignature(o, st, h.parentId.value, now, j))
    && HeadRoot(st.log, Head(st.log, id).value).Some?
  }

  lemma EditRulesExactly(o: Oracle, st: Store, op: Op, id: EntityId, actor: Key, content: Option<Content>, now: int,
        j: Option<Jurisdiction>)
    requires op != Create
    ensures var r := if op == Update then ValidateUpdate(o, st, id, actor, content, now, j)
      else ValidateDelete(o, st, id, actor, now, j);
      && (r.Ok? <==> EditRules(o, st, op, id, actor, content, now, j))
      && (r.Ok? ==> r.value.head == Head(st.log, id).value && Some(r.value.root) == HeadRoot(st.log, r.value.head))
  {
  }

  /** What a client may prepare: a create of a known type under a free id that the rules of the last resort let pass, or
    * an edit that they do. */
  predicate MayPrepare(o: Oracle, st: Store, op: Op, typ: Option<RecordType>, author: Key, parent: Option<ParentRef>,
                       id: EntityId, content: Option<Content>, now: int) {
    if op == Create then
      && typ.Some? && !Exists(st.log, id)
      && var body := if content.Some? then content.value else Json(None, None, None, "");
      && CreateRules(o, st, typ.value, body, parent, None)
    else EditRules(o, st, op, id, author, content, now, None)
  }

  /** A prepared edit carries the head's link, parent, pin and nullifier; a prepared create is pinned to the parent's
    * head and links to nothing. */
  predicate PreparedRight(st: Store, op: Op, typ: Option<RecordType>, parent: Option<ParentRef>, id: EntityId,
        p: Prepared) {
    if op == Create then
      && p.prevHash.None? && p.nullifier.None? && p.parentType.None? && p.parentId.None?
      && typ.Some? && Some(p.root) == ThreadOf(st.log, typ.value, parent, id)
      && var pin := Pinned(st.log, typ.value, parent);
      && p.parentRevisionHash == (if pin.Some? then Some(pin.value.hash) else None)
      && p.parentRevisionTxId == (if pin.Some? then Some(pin.value.env.txId) else None)
      && p.nullifierParent ==
           (if typ.value in {Reaction, Vote, PetitionSignature} && parent.Some? then Some(parent.value.id) else None)
    else
      && Exists(st.log, id)
      && var h := Head(st.log, id).value;
      && Some(p.root) == HeadRoot(st.log, h)
      && p.prevHash == Some(h.hash) && p.parentType == h.env.parentType && p.parentId == h.env.parentId
      && p.parentRevisionHash == h.env.parentRevisionHash && p.parentRevisionTxId == h.env.parentRevisionTxId
      && p.nullifier == h.env.nullifier && p.nullifierParent.None?
  }

  lemma PreparesExactly(o: Oracle, st: Store, op: Op, typ: Option<RecordType>, author: Key, parent: Option<ParentRef>,
                        id: EntityId, content: Option<Content>, now: int)
    ensures var r := PrepareAppend(o, st, op, typ, author, parent, id, content, now);
      && (r.Ok? <==> MayPrepare(o, st, op, typ, author, parent, id, content, now))
      && (r.Ok? ==> PreparedRight(st, op, typ, parent, id, r.value))
  {
    if op != Create {
      EditRulesExactly(o, st, op, id, author, content, now, None);
    } else if typ.Some? {
      var body := if content.Some? then content.value else Json(None, None, None, "");
      CreateRulesExactly(o, st, typ.value, body, parent, id, None);
    }
  }

  // ---- the unsigned guards -----------------------------------------------------------------------------------------

  /** The row is the head of a live entity on the parent. */
  predicate StandsOn(log: Log, t: Tx, parent: EntityId) {
    t in log && Head(log, t.env.entityId) == Some(t) && t.env.op != Delete && t.env.parentId == Some(parent)
  }

  /** What an unsigned call must satisfy: a fresh row of a free entity, and for a singleton none of its author's
    * standing on the parent; or an edit that the rules let pass. */
  ghost predicate MayWrite(o: Oracle, st: Store, i: Intent, now: int) {
    && i.txId !in st.ledger && (forall t :: t in st.log ==> t.env.txId != i.txId)
    && if i.op != Create then EditRules(o, st, i.op, i.id, i.author, Some(i.content), now, None)
       else
         && !Exists(st.log, i.id) && CreateRules(o, st, i.typ, i.content, i.parent, None)
         && (i.typ in {Reaction, Vote, PetitionSignature} && i.parent.Some? ==>
              forall t :: StandsOn(st.log, t, i.parent.value.id) ==> t.env.typ != i.typ || t.env.author != i.author)
  }

  /** The row an unsigned call writes: what was asked, on the parent given and pinned to its head, or on the entity's
    * head and with its type, parent and pin. */
  ghost predicate WrittenRight(o: Oracle, st: Store, i: Intent, e: Envelope) {
    && e.txId == i.txId && e.entityId == i.id && e.op == i.op && e.author == i.author
    && e.createdAt == Some(i.createdAt)
    && e.contentHash == o.commitment(i.txId, i.salt, if i.op == Delete then DeleteMarker else i.content)
    && e.signer == None && e.signScheme == None && e.webauthn == None && e.nullifier == None && e.proof == None
    && if i.op == Create then
         && e.typ == i.typ && e.prevHash == None && ParentOf(e) == i.parent && (i.parent == None ==> e.parentId == None)
         && var pin := Pinned(st.log, i.typ, i.parent);
         && e.parentRevisionHash == (if pin.Some? then Some(pin.value.hash) else None)
         && e.parentRevisionTxId == (if pin.Some? then Some(pin.value.env.txId) else None)
       else
         && Exists(st.log, i.id)
         && var h := Head(st.log, i.id).value;
         && e.typ == h.env.typ && e.prevHash == Some(h.hash) && ParentOf(e) == ParentOf(h.env)
         && e.parentRevisionHash == h.env.parentRevisionHash && e.parentRevisionTxId == h.env.parentRevisionTxId
  }

  /** An unsigned call is accepted exactly when every guard holds, in whatever order. It then adds its row and its
    * content, and otherwise it changes nothing. */
  lemma WriteExactly(o: Oracle, st: Store, i: Intent, now: int)
    ensures var (after, r) := WriteUnsigned(o, st, i, now);
      && (r.Ok? <==> MayWrite(o, st, i, now))
      && (r.Err? ==> after == st)
      && (r.Ok? ==>
           && WrittenRight(o, st, i, r.value)
           && after == st.(
             log := st.log + [Tx(r.value, o.leafHash(r.value))],
             plain := st.plain[i.txId := Plain(i.salt, if i.op == Delete then DeleteMarker else i.content)]))
  {
    if i.op == Create {
      CreateRulesExactly(o, st, i.typ, i.content, i.parent, i.id, None);
      if i.parent.Some? {
        StandingSingleton(st.log, i.typ, i.author, i.parent.value.id);
      }
    } else {
      EditRulesExactly(o, st, i.op, i.id, i.author, Some(i.content), now, None);
    }
    var e := UnsignedCheck(o, st, i, now);
    if e.Ok? { AppendExactly(st, e.value); }
  }

  lemma StandingSingleton(log: Log, typ: RecordType, author: Key, parent: EntityId)
    ensures HasActiveSingleton(log, typ, author, parent) <==>
      exists t :: StandsOn(log, t, parent) && t.env.typ == typ && t.env.author == author
  {
    if t :| StandsOn(log, t, parent) && t.env.typ == typ && t.env.author == author {
      assert t in Heads(log) && ActiveSingleton(log, t, typ, author, parent);
    }
  }

  // ---- the signed guards -------------------------------------------------------------------------------------------

  predicate WellShaped(s: Submission) {
    if s.env.signScheme == Some(WebauthnEs256) then
      s.env.webauthn.Some? && s.env.signer.Some? && s.env.signature.None?
    else s.env.webauthn.None? && (s.gate.requireDeviceSigner ==> s.env.signer.Some?)
  }

  predicate Fresh(s: Submission, now: int) {
    s.gate.maxAgeSec > 0 ==>
      && s.env.createdAt.Some?
      && now - 1000 * s.gate.maxAgeSec <= s.env.createdAt.value <= now + 1000 * s.gate.futureSkewSec
  }

  /** The envelope is signed by a registered key over this very content, and lately. */
  predicate Authentic(o: Oracle, s: Submission, now: int) {
    && s.gate.platformKey && s.env.proof.None? && WellShaped(s) && s.gate.signatureOk
    && o.commitment(s.env.txId, s.salt, s.content) == s.env.contentHash
    && s.gate.bindingOk && Fresh(s, now)
  }

  /** The author is a known persona, with the scheme its jurisdiction demands and an authorized device, if any. */
  predicate InItsThread(o: Oracle, st: Store, s: Submission) {
    && s.env.author in st.keys
    && (s.gate.enforcePolicy ==>
          var need := o.requiredScheme(s.env.typ, st.keys[s.env.author].jurisdiction);
          need.Some? ==> s.env.signScheme == need || (need == Some(P256) && s.env.signScheme == None))
    && (s.env.signer.Some? ==> s.gate.signerOk)
  }

  ghost predicate NullifierOpen(st: Store, e: Envelope, user: UserId, canAttest: bool) {
    if !IsSingleton(e.typ) then e.nullifier.None?
    else
      && e.parentId.Some? && e.nullifier.Some?
      && var k, n := (user, e.parentId.value), e.nullifier.value;
      && (k in st.attested ==> st.attested[k] == n)
      && (k !in st.attested ==>
           canAttest && forall other | other in st.attested && other.1 == k.1 ::
             other.0 != user ==> st.attested[other] != n)
      && forall t :: StandsOn(st.log, t, k.1) ==> t.env.nullifier != Some(n)
  }

  ghost predicate CreateAccepted(o: Oracle, st: Store, s: Submission, tk: ThreadKey) {
    var e, p := s.env, ParentOf(s.env);
    && e.prevHash.None? && !Exists(st.log, e.entityId)
    && CreateRules(o, st, e.typ, s.content, p, Some(tk.jurisdiction))
    && Some(tk.threadId) == ThreadOf(st.log, e.typ, p, e.entityId)
    && e.parentRevisionHash == (if Pinned(st.log, e.typ, p).Some? then Some(Pinned(st.log, e.typ, p).value.hash)
        else None)
    && NullifierOpen(st, e, tk.userId, s.gate.canAttest)
  }

  predicate EditAccepted(o: Oracle, st: Store, s: Submission, tk: ThreadKey, now: int) {
    var e := s.env;
    && var op := if e.op == Update then Update else Delete;
    && EditRules(o, st, op, e.entityId, e.author, Some(s.content), now, Some(tk.jurisdiction))
    && var h := Head(st.log, e.entityId).value;
    && e.prevHash == Some(h.hash) && Some(tk.threadId) == HeadRoot(st.log, h)
    && e.parentType == h.env.parentType && e.parentId == h.env.parentId
        && e.parentRevisionHash == h.env.parentRevisionHash
    && (e.op == Delete ==> s.content == DeleteMarker)
    && (if IsSingleton(h.env.typ) then h.env.nullifier.Some? && e.nullifier == h.env.nullifier else e.nullifier.None?)
  }

  lemma AuthenticExactly(o: Oracle, s: Submission, now: int)
    ensures AuthFailure(o, s, now).None? <==> Authentic(o, s, now)
  {
  }

  lemma NullifierExactly(st: Store, e: Envelope, user: UserId, canAttest: bool)
    requires IsSingleton(e.typ) && ParentOf(e).Some?
    ensures CheckNullifier(st, e, user, canAttest).verdict.Ok? <==> NullifierOpen(st, e, user, canAttest)
  {
    if e.nullifier.Some? {
      var parent, n := e.parentId.value, e.nullifier.value;
      if t :| StandsOn(st.log, t, parent) && t.env.nullifier == Some(n) { assert t in Heads(st.log); }
    }
  }

  lemma CreateExactly(o: Oracle, st: Store, s: Submission, tk: ThreadKey)
    ensures CheckCreate(o, st, s, tk).verdict.Ok? <==> CreateAccepted(o, st, s, tk)
  {
    CreateRulesExactly(o, st, s.env.typ, s.content, ParentOf(s.env), s.env.entityId, Some(tk.jurisdiction));
    if IsSingleton(s.env.typ) && ParentOf(s.env).Some? { NullifierExactly(st, s.env, tk.userId, s.gate.canAttest); }
  }

  lemma EditExactly(o: Oracle, st: Store, s: Submission, tk: ThreadKey, now: int)
    requires s.env.op != Create
    ensures CheckEdit(o, st, s, tk, now).Ok? <==> EditAccepted(o, st, s, tk, now)
  {
    EditRulesExactly(o, st, s.env.op, s.env.entityId, s.env.author, Some(s.content), now, Some(tk.jurisdiction));
  }

  /** Every guard of a signed call, without order. */
  ghost predicate CallAccepted(o: Oracle, st: Store, s: Submission, now: int) {
    && s.env.typ != PlatformOps && Authentic(o, s, now) && InItsThread(o, st, s)
    && var tk := st.keys[s.env.author];
    if s.env.op == Create then CreateAccepted(o, st, s, tk) else EditAccepted(o, st, s, tk, now)
  }

  /** The checks of a signed call, in their order, pass exactly when every guard holds. */
  lemma ChecksPassExactly(o: Oracle, st: Store, s: Submission, now: int)
    ensures SignedCheck(o, st, s, now).verdict.Ok? <==> CallAccepted(o, st, s, now)
  {
    AuthenticExactly(o, s, now);
    if s.env.author in st.keys {
      var tk := st.keys[s.env.author];
      if s.env.op == Create { CreateExactly(o, st, s, tk); } else { EditExactly(o, st, s, tk, now); }
      CheckedExactly(o, st, s, now);
    }
  }

  /** A signed call is accepted exactly when every guard holds, in whatever order they are checked, and its transaction
    * id is new to the log and the ledger. */
  lemma AcceptedExactly(o: Oracle, st: Store, s: Submission, now: int)
    ensures Submit(o, st, s, now).1.Ok? <==>
      CallAccepted(o, st, s, now) && s.env.txId !in st.ledger && forall t | t in st.log :: t.env.txId != s.env.txId
  {
    ChecksPassExactly(o, st, s, now);
    AppendExactly(st.(attested := SignedCheck(o, st, s, now).attested), s.env);
  }

  lemma CheckedExactly(o: Oracle, st: Store, s: Submission, now: int)
    requires s.env.author in st.keys
    ensures var tk := st.keys[s.env.author];
      SignedCheck(o, st, s, now).verdict.Ok? <==>
        && s.env.typ != PlatformOps && AuthFailure(o, s, now).None? && InItsThread(o, st, s)
        && if s.env.op == Create then CheckCreate(o, st, s, tk).verdict.Ok? else CheckEdit(o, st, s, tk, now).Ok?
  {
  }

  lemma AppendExactly(st: Store, e: Envelope)
    ensures AppendError(st, e).None? <==>
      && e.txId !in st.ledger && (forall t | t in st.log :: t.env.txId != e.txId)
      && if e.op == Create then !Exists(st.log, e.entityId)
         else e.prevHash == if Exists(st.log, e.entityId) then Some(Head(st.log, e.entityId).value.hash) else None
    ensures AppendError(st, e) == Some(StalePrevHash) <==>
      && e.txId !in st.ledger && e.op != Create && Exists(st.log, e.entityId)
      && e.prevHash != Some(Head(st.log, e.entityId).value.hash)
    ensures AppendError(st, e) == Some(NotFound) <==>
      e.txId !in st.ledger && e.op != Create && !Exists(st.log, e.entityId) && e.prevHash.Some?
  {
  }
}
