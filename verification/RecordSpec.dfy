/** The store and the write rules of the record engine as functions of the store: the shared validators,
  * the unsigned path, and the signed path split where it hands its envelope to the store. */
module RecordSpec {
  import opened Wrappers
  import opened RecordTypes
  import opened RecordLog
  import opened Governance
  import opened Iteration

  /** `plain` holds the contents not yet erased, `attested` the platform-attested nullifiers, `keys` the
    * registered thread personas, and `ledger` the settled envelopes. */
  datatype Store = Store(
    log: Log,
    plain: map<TxId, Plain>,
    attested: map<(UserId, EntityId), Nullifier>,
    keys: map<Key, ThreadKey>,
    ledger: map<TxId, Envelope>)

  /** Why a call is refused. A call whose walk over parents goes in a circle never answers; it writes nothing
    * either, so it stands among the refusals as `NeverReturns`. */
  datatype Error =
    | OpNotAllowed | InvalidContent | RootTakesNoParent | ParentRequired | ParentNotAllowed | ParentNotFound
    | ParentTypeMismatch | ParentDeleted | TooDeep | BadReactionKind | NotFound | Deleted | NotAuthor
    | NoParentPoll | ChangeNotPermitted | RevokeNotPermitted | AlreadyExists | DuplicateSingleton
    | UsePlatformOps | NotAuthentic(why: AuthError) | UnknownThreadKey | WrongScheme | WrongThread
    | CreateWithPrevHash | StalePrevHash | StaleParentRevision | MovedParent | NoDeleteMarker
    | SingletonNeedsNullifier | NullifierMismatch | NullifierTaken | CannotAttest | NullifierActive
    | UnexpectedNullifier | NothingToCarry | NullifierNotCarried | DuplicateTxId | TxIdOnLedger | TypeRequired
    | NeverReturns

  datatype AuthError =
    | NoPlatformKey | ProofUnsupported | AssertionRequired | SignerRequired | SignatureForbidden
    | AssertionForbidden | BadSignature | BadContentHash | NotRegistered | BadTimestamp | Expired | FutureDated
    | SignerRejected

  // ---- reads ---------------------------------------------------------------------------------------

  /** The folded content of an entity; None once its head row is erased. */
  function ContentOf(st: Store, id: EntityId): Option<Content> {
    match Head(st.log, id)
    case Some(t) => if t.env.txId in st.plain then Some(st.plain[t.env.txId].content) else None
    case None => None
  }

  predicate CanChangeVote(o: Oracle, st: Store, poll: EntityId, now: int, j: Option<Jurisdiction>) {
    IsLive(st.log, poll) && ChangeAllowed(o.rules(j), RulesOf(ContentOf(st, poll)), now)
  }

  predicate CanRevokeSignature(o: Oracle, st: Store, petition: EntityId, now: int, j: Option<Jurisdiction>) {
    IsLive(st.log, petition) && RevokeAllowed(o.rules(j), RulesOf(ContentOf(st, petition)), now)
  }

  predicate ActiveNullifier(log: Log, parent: EntityId, n: Nullifier) {
    exists t | t in Heads(log) :: t.env.parentId == Some(parent) && t.env.nullifier == Some(n) && t.env.op != Delete
  }

  predicate ActiveSingleton(log: Log, t: Tx, typ: RecordType, author: Key, parent: EntityId) {
    t in Heads(log) && t.env.typ == typ && t.env.author == author && t.env.parentId == Some(parent)
    && t.env.op != Delete
  }

  /** Some other user already owns this nullifier on this parent (the table's unique constraint). */
  predicate TakenByAnother(st: Store, user: UserId, parent: EntityId, n: Nullifier) {
    exists k | k in st.attested :: k.1 == parent && k.0 != user && st.attested[k] == n
  }

  // ---- shared validators ---------------------------------------------------------------------------

  datatype Created = Created(revisionHash: Option<Hash>, revisionTxId: Option<TxId>, root: EntityId, singleton: bool)

  datatype Edited = Edited(head: Tx, root: EntityId)

  /** The depth a new comment would take under `parent`: one, plus one for every comment up to the first parent
    * that is none. */
  function NewDepth(log: Log, parent: ParentRef): Result<nat, Error> {
    if parent.typ != Comment then Ok(1)
    else
      var top := Climb(CommentParents(log), parent.id, |log|);
      if CommentUp(log, top).Some? then Err(NeverReturns)
      else if Head(log, top).None? then Err(ParentNotFound)
      else Ok(2 + Rises(CommentParents(log), parent.id, |log|))
  }

  function ValidateCreate(o: Oracle, st: Store, typ: RecordType, content: Content, parent: Option<ParentRef>,
                          id: EntityId, j: Option<Jurisdiction>): Result<Created, Error> {
    if !OpAllowed(typ, Create) then Err(OpNotAllowed)
    else if !o.contentOk(typ, Create, content, j) then Err(InvalidContent)
    else if IsRootType(typ) then
      if parent.Some? then Err(RootTakesNoParent) else Ok(Created(None, None, id, IsSingleton(typ)))
    else if parent.None? then Err(ParentRequired)
    else
      var p := parent.value;
      if !ParentAllowed(typ, p.typ) then Err(ParentNotAllowed)
      else match Head(st.log, p.id)
        case None => Err(ParentNotFound)
        case Some(ps) =>
          if ps.env.typ != p.typ then Err(ParentTypeMismatch)
          else if ps.env.op == Delete then Err(ParentDeleted)
          else if typ == Comment && NewDepth(st.log, p).Err? then Err(NewDepth(st.log, p).error)
          else if typ == Comment && NewDepth(st.log, p).value > COMMENT_MAX_DEPTH then Err(TooDeep)
          else if typ == Reaction && !GoodKind(content) then Err(BadReactionKind)
          else
            var rev := CurrentRevision(st.log, p.id);
            match WalkRoot(st.log, p.id)
            case None => Err(NeverReturns)
            case Some(root) =>
              Ok(Created(if rev.Some? then Some(rev.value.hash) else None,
                         if rev.Some? then Some(rev.value.env.txId) else None, root, IsSingleton(typ)))
  }

  predicate GoodKind(content: Content) {
    content.Json? && content.kind.Some? && content.kind.value in REACTION_KINDS
  }

  predicate AuthorMatches(owner: Key, actor: Key) { owner == actor || actor == Platform }

  function ValidateUpdate(o: Oracle, st: Store, id: EntityId, actor: Key, content: Option<Content>, now: int,
                          j: Option<Jurisdiction>): Result<Edited, Error> {
    match Head(st.log, id)
    case None => Err(NotFound)
    case Some(h) =>
      if h.env.op == Delete then Err(Deleted)
      else if !OpAllowed(h.env.typ, Update) then Err(OpNotAllowed)
      else if !AuthorMatches(h.env.author, actor) then Err(NotAuthor)
      else if content.Some? && !o.contentOk(h.env.typ, Update, content.value, j) then Err(InvalidContent)
      else if h.env.typ == Vote && h.env.parentId.None? then Err(NoParentPoll)
      else if h.env.typ == Vote && !CanChangeVote(o, st, h.env.parentId.value, now, j) then Err(ChangeNotPermitted)
      else if HeadRoot(st.log, h).None? then Err(NeverReturns)
      else Ok(Edited(h, HeadRoot(st.log, h).value))
  }

  function ValidateDelete(o: Oracle, st: Store, id: EntityId, actor: Key, now: int,
                          j: Option<Jurisdiction>): Result<Edited, Error> {
    match Head(st.log, id)
    case None => Err(NotFound)
    case Some(h) =>
      if h.env.op == Delete then Err(Deleted)
      else if !OpAllowed(h.env.typ, Delete) then Err(OpNotAllowed)
      else if !AuthorMatches(h.env.author, actor) then Err(NotAuthor)
      else if h.env.typ == PetitionSignature && h.env.parentId.None? then Err(NoParentPoll)
      else if h.env.typ == PetitionSignature && !CanRevokeSignature(o, st, h.env.parentId.value, now, j) then
        Err(RevokeNotPermitted)
      else if HeadRoot(st.log, h).None? then Err(NeverReturns)
      else Ok(Edited(h, HeadRoot(st.log, h).value))
  }

  // ---- the store's append ---------------------------------------------------------------------------

  /** The checks made at the append itself, under the entity's lock: the id is new to the ledger and to
    * the log, a create finds no head, and an update or delete still links to the current head. */
  function AppendError(st: Store, e: Envelope): Option<Error> {
    var head := Head(st.log, e.entityId);
    if e.txId in st.ledger then Some(TxIdOnLedger)
    else if e.op == Create && head.Some? then Some(AlreadyExists)
    else if e.op != Create && (if head.Some? then Some(head.value.hash) else None) != e.prevHash then
      Some(if head.None? then NotFound else StalePrevHash)
    else if exists t | t in st.log :: t.env.txId == e.txId then Some(DuplicateTxId)
    else None
  }

  function Appended(o: Oracle, st: Store, e: Envelope, p: Plain): Store {
    st.(log := st.log + [Tx(e, o.leafHash(e))], plain := st.plain[e.txId := p])
  }

  function Append(o: Oracle, st: Store, e: Envelope, p: Plain): Result<Store, Error> {
    match AppendError(st, e)
    case Some(err) => Err(err)
    case None => Ok(Appended(o, st, e, p))
  }

  // ---- the unsigned path ----------------------------------------------------------------------------

  /** An unsigned intent. `txId` and `salt` are the fresh random values the service draws. */
  datatype Intent = Intent(op: Op, typ: RecordType, id: EntityId, author: Key, content: Content,
                           parent: Option<ParentRef>, createdAt: int, txId: TxId, salt: int)

  function UnsignedEnvelope(o: Oracle, i: Intent, typ: RecordType, content: Content, parent: Option<ParentRef>,
                            rev: Option<Hash>, revTx: Option<TxId>, prev: Option<Hash>): Envelope {
    Envelope(i.txId, typ, i.id, i.op,
             if parent.Some? then Some(parent.value.typ) else None,
             if parent.Some? then Some(parent.value.id) else None,
             revTx, rev, i.author, None, None, Some(0), None, Some(i.createdAt), prev,
             o.commitment(i.txId, i.salt, content), None, None)
  }

  predicate HasActiveSingleton(log: Log, typ: RecordType, author: Key, parent: EntityId) {
    exists t | t in Heads(log) :: ActiveSingleton(log, t, typ, author, parent)
  }

  function UnsignedCheck(o: Oracle, st: Store, i: Intent, now: int): Result<Envelope, Error> {
    match i.op
    case Create =>
      if Exists(st.log, i.id) then Err(AlreadyExists)
      else (match ValidateCreate(o, st, i.typ, i.content, i.parent, i.id, None)
        case Err(e) => Err(e)
        case Ok(r) =>
          if r.singleton && i.parent.Some? && HasActiveSingleton(st.log, i.typ, i.author, i.parent.value.id) then
            Err(DuplicateSingleton)
          else Ok(UnsignedEnvelope(o, i, i.typ, i.content, i.parent, r.revisionHash, r.revisionTxId, None)))
    case Update =>
      (match ValidateUpdate(o, st, i.id, i.author, Some(i.content), now, None)
       case Err(e) => Err(e)
       case Ok(v) => Ok(Carried(o, i, v.head, i.content)))
    case Delete =>
      (match ValidateDelete(o, st, i.id, i.author, now, None)
       case Err(e) => Err(e)
       case Ok(v) => Ok(Carried(o, i, v.head, DeleteMarker)))
  }

  function Carried(o: Oracle, i: Intent, h: Tx, content: Content): Envelope {
    UnsignedEnvelope(o, i, h.env.typ, content, ParentOf(h.env), h.env.parentRevisionHash,
                     h.env.parentRevisionTxId, Some(h.hash))
  }

  function IntentContent(i: Intent): Content { if i.op == Delete then DeleteMarker else i.content }

  /** One whole unsigned call: the checks, then the append. */
  function WriteUnsigned(o: Oracle, st: Store, i: Intent, now: int): (Store, Result<Envelope, Error>) {
    match UnsignedCheck(o, st, i, now)
    case Err(e) => (st, Err(e))
    case Ok(env) =>
      match Append(o, st, env, Plain(i.salt, IntentContent(i)))
      case Err(e) => (st, Err(e))
      case Ok(after) => (after, Ok(env))
  }

  // ---- the signed path --------------------------------------------------------------------------------

  /** What the service reads from its configuration and from verification code outside this model. */
  datatype Gate = Gate(platformKey: bool, canAttest: bool, requireDeviceSigner: bool, enforcePolicy: bool,
                       maxAgeSec: nat, futureSkewSec: nat, signatureOk: bool, bindingOk: bool, signerOk: bool)

  datatype Submission = Submission(env: Envelope, salt: int, content: Content, gate: Gate)

  function Scheme(e: Envelope): SignScheme {
    if e.signScheme.Some? then e.signScheme.value else P256
  }

  function AuthFailure(o: Oracle, s: Submission, now: int): Option<AuthError> {
    var e, g := s.env, s.gate;
    if !g.platformKey then Some(NoPlatformKey)
    else if e.proof.Some? then Some(ProofUnsupported)
    else if Scheme(e) == WebauthnEs256 && e.webauthn.None? then Some(AssertionRequired)
    else if Scheme(e) == WebauthnEs256 && e.signer.None? then Some(SignerRequired)
    else if Scheme(e) == WebauthnEs256 && e.signature.Some? then Some(SignatureForbidden)
    else if Scheme(e) == P256 && e.webauthn.Some? then Some(AssertionForbidden)
    else if Scheme(e) == P256 && g.requireDeviceSigner && e.signer.None? then Some(SignerRequired)
    else if !g.signatureOk then Some(BadSignature)
    else if o.commitment(e.txId, s.salt, s.content) != e.contentHash then Some(BadContentHash)
    else if !g.bindingOk then Some(NotRegistered)
    else if g.maxAgeSec > 0 && e.createdAt.None? then Some(BadTimestamp)
    else if g.maxAgeSec > 0 && now - e.createdAt.value > 1000 * g.maxAgeSec then Some(Expired)
    else if g.maxAgeSec > 0 && e.createdAt.value - now > 1000 * g.futureSkewSec then Some(FutureDated)
    else None
  }

  /** The outcome of a submission's checks: nullifiers attested so far, which outlive a rejection, and the verdict. */
  datatype Checked = Checked(attested: map<(UserId, EntityId), Nullifier>, verdict: Result<(), Error>)

  function SignedCheck(o: Oracle, st: Store, s: Submission, now: int): Checked {
    var e := s.env;
    var no := (err: Error) => Checked(st.attested, Err(err));
    if e.typ == PlatformOps then no(UsePlatformOps)
    else match AuthFailure(o, s, now)
      case Some(why) => no(NotAuthentic(why))
      case None =>
        if e.author !in st.keys then no(UnknownThreadKey)
        else
          var tk := st.keys[e.author];
          var need := o.requiredScheme(e.typ, tk.jurisdiction);
          if s.gate.enforcePolicy && need.Some? && need.value != Scheme(e) then no(WrongScheme)
          else if e.signer.Some? && !s.gate.signerOk then no(NotAuthentic(SignerRejected))
          else if e.op == Create then CheckCreate(o, st, s, tk)
          else Checked(st.attested, CheckEdit(o, st, s, tk, now))
  }

  function CheckCreate(o: Oracle, st: Store, s: Submission, tk: ThreadKey): Checked {
    var e := s.env;
    var no := (err: Error) => Checked(st.attested, Err(err));
    if e.prevHash.Some? then no(CreateWithPrevHash)
    else if Exists(st.log, e.entityId) then no(AlreadyExists)
    else match ValidateCreate(o, st, e.typ, s.content, ParentOf(e), e.entityId, Some(tk.jurisdiction))
      case Err(err) => no(err)
      case Ok(r) =>
        if tk.threadId != r.root then no(WrongThread)
        else if e.parentRevisionHash != r.revisionHash then no(StaleParentRevision)
        else if r.singleton then CheckNullifier(st, e, tk.userId, s.gate.canAttest)
        else if e.nullifier.Some? then no(UnexpectedNullifier)
        else Checked(st.attested, Ok(()))
  }

  /** The one-per-(user, parent) gate: the nullifier is the attested one, attested here on first use, and
    * no active entity on the parent bears it. */
  function CheckNullifier(st: Store, e: Envelope, user: UserId, canAttest: bool): Checked {
    var no := (err: Error) => Checked(st.attested, Err(err));
    var parent := ParentOf(e);
    if parent.None? then no(ParentRequired)
    else if e.nullifier.None? then no(SingletonNeedsNullifier)
    else
      var k, n := (user, parent.value.id), e.nullifier.value;
      if k in st.attested && st.attested[k] != n then no(NullifierMismatch)
      else if k !in st.attested && !canAttest then no(CannotAttest)
      else if k !in st.attested && TakenByAnother(st, user, parent.value.id, n) then no(NullifierTaken)
      else
        Checked(st.attested[k := n],
                if ActiveNullifier(st.log, parent.value.id, n) then Err(NullifierActive) else Ok(()))
  }

  function CheckEdit(o: Oracle, st: Store, s: Submission, tk: ThreadKey, now: int): Result<(), Error> {
    var e := s.env;
    match Head(st.log, e.entityId)
    case None => Err(NotFound)
    case Some(h) =>
      if e.prevHash != Some(h.hash) then Err(StalePrevHash)
      else
        var v := if e.op == Update
          then ValidateUpdate(o, st, e.entityId, e.author, Some(s.content), now, Some(tk.jurisdiction))
          else ValidateDelete(o, st, e.entityId, e.author, now, Some(tk.jurisdiction));
        match v
        case Err(err) => Err(err)
        case Ok(w) =>
          if tk.threadId != w.root then Err(WrongThread)
          else if e.parentType != h.env.parentType || e.parentId != h.env.parentId
               || e.parentRevisionHash != h.env.parentRevisionHash then Err(MovedParent)
          else if e.op == Delete && s.content != DeleteMarker then Err(NoDeleteMarker)
          else if IsSingleton(h.env.typ) && h.env.nullifier.None? then Err(NothingToCarry)
          else if IsSingleton(h.env.typ) && e.nullifier != h.env.nullifier then Err(NullifierNotCarried)
          else if !IsSingleton(h.env.typ) && e.nullifier.Some? then Err(UnexpectedNullifier)
          else Ok(())
  }

  /** One whole `appendSigned` call: the checks, then the append. */
  function Submit(o: Oracle, st: Store, s: Submission, now: int): (Store, Result<(), Error>) {
    var c := SignedCheck(o, st, s, now);
    var st' := st.(attested := c.attested);
    match c.verdict
    case Err(e) => (st', Err(e))
    case Ok(_) =>
      match Append(o, st', s.env, Plain(s.salt, s.content))
      case Err(e) => (st', Err(e))
      case Ok(st'') => (st'', Ok(()))
  }

  // ---- preparing ---------------------------------------------------------------------------------------

  datatype Prepared = Prepared(prevHash: Option<Hash>, parentType: Option<RecordType>, parentId: Option<EntityId>,
                               parentRevisionHash: Option<Hash>, parentRevisionTxId: Option<TxId>,
                               root: EntityId, nullifierParent: Option<EntityId>, nullifier: Option<Nullifier>)

  /** The server-derived fields a client signs over. */
  function PrepareAppend(o: Oracle, st: Store, op: Op, typ: Option<RecordType>, author: Key,
                         parent: Option<ParentRef>, id: EntityId, content: Option<Content>, now: int)
    : Result<Prepared, Error>
  {
    match op
    case Create =>
      if typ.None? then Err(TypeRequired)
      else if Exists(st.log, id) then Err(AlreadyExists)
      else
        var body := if content.Some? then content.value else Json(None, None, None, "");
        (match ValidateCreate(o, st, typ.value, body, parent, id, None)
         case Err(e) => Err(e)
         case Ok(r) =>
           Ok(Prepared(None, None, None, r.revisionHash, r.revisionTxId, r.root,
                       if r.singleton && parent.Some? then Some(parent.value.id) else None, None)))
    case _ =>
      var v := if op == Update then ValidateUpdate(o, st, id, author, content, now, None)
               else ValidateDelete(o, st, id, author, now, None);
      (match v
       case Err(e) => Err(e)
       case Ok(w) =>
         Ok(Prepared(Some(w.head.hash), w.head.env.parentType, w.head.env.parentId, w.head.env.parentRevisionHash,
                     w.head.env.parentRevisionTxId, w.root, None, w.head.env.nullifier)))
  }
}
