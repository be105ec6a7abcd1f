/** The record service over the tables of its stores. Its methods walk and write the tables in place; their
  * contracts give the new tables by the specification functions. */
module Record {
  import opened Wrappers
  import opened Iteration
  import opened RecordTypes
  import opened RecordLog
  import opened RecordShape
  import opened RecordSpec
  import opened RecordRuns
  import opened ParentWalks
  import opened Acceptance

  class RecordService {
    const o: Oracle
    var log: Log
    var plain: map<TxId, Plain>
    var attested: map<(UserId, EntityId), Nullifier>
    var keys: map<Key, ThreadKey>
    var ledger: map<TxId, Envelope>

    function State(): Store
      reads this
    {
      Store(log, plain, attested, keys, ledger)
    }

    /** The walks over parents end from everywhere; otherwise a call may never return. */
    ghost predicate Valid()
      reads this
    {
      WalksEnd(log)
    }

    /** What every run keeps of the log, and what makes its walks end. */
    ghost predicate Steady()
      reads this
    {
      Chained(log) && Hashed(o, log) && Grounded(log)
    }

    constructor (o: Oracle)
      ensures Valid() && Steady() && this.o == o && State() == EMPTY.st
    {
      this.o, log, plain, attested, keys, ledger := o, [], map[], map[], map[], map[];
    }

    /** Walk the current parent pointers to the end; an unknown parent is its own answer. The walk has an end exactly
      * when the requirement holds. */
    method ResolveRoot(parent: ParentRef) returns (root: EntityId)
      requires WalkRoot(log, parent.id).Some?
      ensures Some(root) == WalkRoot(log, parent.id)
      ensures WellFormed(log) ==> root == RootOf(log, parent.id)
    {
      root := parent.id;
      var cur := Head(log, root);
      ghost var n: nat := |log|;
      while cur.Some? && !IsRootType(cur.value.env.typ) && cur.value.env.parentId.Some?
        invariant cur == Head(log, root)
        invariant Climb(Parents(log), root, n) == Climb(Parents(log), parent.id, |log|)
        decreases n
      {
        root := cur.value.env.parentId.value;
        cur := Head(log, root);
        n := n - 1;
      }
      if WellFormed(log) { WalkAgrees(log, parent.id); }
    }

    /** The depth a new comment would take under `parent`. */
    method NewCommentDepth(parent: ParentRef) returns (r: Result<nat, Error>)
      requires CommentUp(log, Climb(CommentParents(log), parent.id, |log|)).None?
      ensures r == NewDepth(log, parent)
      ensures WellFormed(log) && Exists(log, parent.id) && Head(log, parent.id).value.env.typ == parent.typ ==>
        r == Ok(1 + DepthAt(log, parent.id))
    {
      if WellFormed(log) && Exists(log, parent.id) && Head(log, parent.id).value.env.typ == parent.typ {
        DepthAgrees(log, parent);
      }
      var depth := 1;
      var typ, id := Some(parent.typ), Some(parent.id);
      ghost var n: nat := |log|;
      while typ == Some(Comment) && id.Some?
        invariant typ == Some(Comment) && id.Some? ==>
          && parent.typ == Comment
          && Climb(CommentParents(log), id.value, n) == Climb(CommentParents(log), parent.id, |log|)
          && depth + 1 + Rises(CommentParents(log), id.value, n) == 2 + Rises(CommentParents(log), parent.id, |log|)
        invariant !(typ == Some(Comment) && id.Some?) ==> NewDepth(log, parent) == Ok(depth)
        decreases if typ == Some(Comment) && id.Some? then n + 1 else 0
      {
        depth := depth + 1;
        var ps := Head(log, id.value);
        if ps.None? { return Err(ParentNotFound); }
        typ, id := ps.value.env.parentType, ps.value.env.parentId;
        n := if n > 0 then n - 1 else 0;
      }
      r := Ok(depth);
    }

    method RootOfHead(head: Tx) returns (root: EntityId)
      requires HeadRoot(log, head).Some?
      ensures Some(root) == HeadRoot(log, head)
    {
      if IsRootType(head.env.typ) || head.env.parentType.None? || head.env.parentId.None? {
        root := head.env.entityId;
      } else {
        root := ResolveRoot(ParentRef(head.env.parentType.value, head.env.parentId.value));
      }
    }

    method CheckCreation(typ: RecordType, content: Content, parent: Option<ParentRef>, id: EntityId,
                         j: Option<Jurisdiction>) returns (r: Result<Created, Error>)
      requires Valid()
      ensures r == ValidateCreate(o, State(), typ, content, parent, id, j)
    {
      if !OpAllowed(typ, Create) { return Err(OpNotAllowed); }
      if !o.contentOk(typ, Create, content, j) { return Err(InvalidContent); }
      var hash, txId, root := None, None, id;
      if IsRootType(typ) {
        if parent.Some? { return Err(RootTakesNoParent); }
      } else {
        if parent.None? { return Err(ParentRequired); }
        var p := parent.value;
        if !ParentAllowed(typ, p.typ) { return Err(ParentNotAllowed); }
        var ps := Head(log, p.id);
        if ps.None? { return Err(ParentNotFound); }
        if ps.value.env.typ != p.typ { return Err(ParentTypeMismatch); }
        if ps.value.env.op == Delete { return Err(ParentDeleted); }
        if typ == Comment {
          var depth := NewCommentDepth(p);
          if depth.Err? { return Err(depth.error); }
          if depth.value > COMMENT_MAX_DEPTH { return Err(TooDeep); }
        }
        if typ == Reaction && !GoodKind(content) { return Err(BadReactionKind); }
        var rev := CurrentRevision(log, p.id);
        if rev.Some? { hash, txId := Some(rev.value.hash), Some(rev.value.env.txId); }
        root := ResolveRoot(p);
      }
      r := Ok(Created(hash, txId, root, IsSingleton(typ)));
    }

    method CheckUpdate(id: EntityId, actor: Key, content: Option<Content>, now: int, j: Option<Jurisdiction>)
      returns (r: Result<Edited, Error>)
      requires Valid()
      ensures r == ValidateUpdate(o, State(), id, actor, content, now, j)
    {
      var head := Head(log, id);
      if head.None? { return Err(NotFound); }
      var h := head.value;
      HeadFacts(log, id);
      if h.env.op == Delete { return Err(Deleted); }
      if !OpAllowed(h.env.typ, Update) { return Err(OpNotAllowed); }
      if !AuthorMatches(h.env.author, actor) { return Err(NotAuthor); }
      if content.Some? && !o.contentOk(h.env.typ, Update, content.value, j) { return Err(InvalidContent); }
      if h.env.typ == Vote {
        if h.env.parentId.None? { return Err(NoParentPoll); }
        if !CanChangeVote(o, State(), h.env.parentId.value, now, j) { return Err(ChangeNotPermitted); }
      }
      var root := RootOfHead(h);
      r := Ok(Edited(h, root));
    }

    method CheckDelete(id: EntityId, actor: Key, now: int, j: Option<Jurisdiction>)
      returns (r: Result<Edited, Error>)
      requires Valid()
      ensures r == ValidateDelete(o, State(), id, actor, now, j)
    {
      var head := Head(log, id);
      if head.None? { return Err(NotFound); }
      var h := head.value;
      HeadFacts(log, id);
      if h.env.op == Delete { return Err(Deleted); }
      if !OpAllowed(h.env.typ, Delete) { return Err(OpNotAllowed); }
      if !AuthorMatches(h.env.author, actor) { return Err(NotAuthor); }
      if h.env.typ == PetitionSignature {
        if h.env.parentId.None? { return Err(NoParentPoll); }
        if !CanRevokeSignature(o, State(), h.env.parentId.value, now, j) { return Err(RevokeNotPermitted); }
      }
      var root := RootOfHead(h);
      r := Ok(Edited(h, root));
    }

    /** The pooled append: rejected, or one more row and its content. */
    method AppendRow(e: Envelope, p: Plain) returns (r: Result<Ref, Error>)
      modifies this`log, this`plain
      ensures match Append(o, old(State()), e, p)
        case Ok(st) => State() == st && r == Ok(Ref(e.txId, e.entityId, o.leafHash(e)))
        case Err(err) => State() == old(State()) && r == Err(err)
    {
      var err := AppendError(State(), e);
      if err.Some? { return Err(err.value); }
      log := log + [Tx(e, o.leafHash(e))];
      plain := plain[e.txId := p];
      r := Ok(Ref(e.txId, e.entityId, o.leafHash(e)));
    }

    /** The checks of an unsigned intent, and the envelope they derive. */
    method DeriveEnvelope(i: Intent, now: int) returns (r: Result<Envelope, Error>)
      requires Valid()
      ensures r == UnsignedCheck(o, State(), i, now)
    {
      match i.op {
        case Create =>
          if Exists(log, i.id) { return Err(AlreadyExists); }
          var c := CheckCreation(i.typ, i.content, i.parent, i.id, None);
          if c.Err? { return Err(c.error); }
          if c.value.singleton && i.parent.Some?
             && HasActiveSingleton(log, i.typ, i.author, i.parent.value.id) { return Err(DuplicateSingleton); }
          r := Ok(UnsignedEnvelope(o, i, i.typ, i.content, i.parent, c.value.revisionHash, c.value.revisionTxId, None));
        case Update =>
          var v := CheckUpdate(i.id, i.author, Some(i.content), now, None);
          if v.Err? { return Err(v.error); }
          r := Ok(Carried(o, i, v.value.head, i.content));
        case Delete =>
          var v := CheckDelete(i.id, i.author, now, None);
          if v.Err? { return Err(v.error); }
          r := Ok(Carried(o, i, v.value.head, DeleteMarker));
      }
    }

    /** The unsigned path. Rejected intents change nothing; accepted ones add exactly the row the checks
      * derive. It keeps the log chained, grounded and, if it was, well formed, whatever its caller sends. */
    method Write(i: Intent, now: int) returns (r: Result<Ref, Error>)
      requires Valid() && Steady() && CollisionFree(o)
      modifies this`log, this`plain
      ensures Valid() && Steady()
      ensures WellFormed(old(log)) ==> WellFormed(log)
      ensures State() == WriteUnsigned(o, old(State()), i, now).0
      ensures match WriteUnsigned(o, old(State()), i, now).1
        case Ok(env) => r == Ok(Ref(env.txId, i.id, o.leafHash(env)))
        case Err(e) => r == Err(e)
      ensures r.Ok? <==> MayWrite(o, old(State()), i, now)
    {
      ghost var before := State();
      WriteExactly(o, before, i, now);
      var env := DeriveEnvelope(i, now);
      if env.Err? { return Err(env.error); }
      UnsignedFacts(o, before, i, now);
      if AppendError(before, env.value).None? {
        UnsignedWriteKeeps(o, before, i, now);
        GroundedExactly(log, Tx(env.value, o.leafHash(env.value)));
      }
      r := AppendRow(env.value, Plain(i.salt, IntentContent(i)));
      GroundedWalksEnd(log);
    }

    /** The fields a client signs over. Nothing is written. */
    method Prepare(op: Op, typ: Option<RecordType>, author: Key, parent: Option<ParentRef>, id: EntityId,
                   content: Option<Content>, now: int) returns (r: Result<Prepared, Error>)
      requires Valid()
      ensures r == PrepareAppend(o, State(), op, typ, author, parent, id, content, now)
      ensures r.Ok? <==> MayPrepare(o, State(), op, typ, author, parent, id, content, now)
      ensures r.Ok? ==> PreparedRight(State(), op, typ, parent, id, r.value)
    {
      PreparesExactly(o, State(), op, typ, author, parent, id, content, now);
      if op == Create {
        if typ.None? { return Err(TypeRequired); }
        if Exists(log, id) { return Err(AlreadyExists); }
        var body := if content.Some? then content.value else Json(None, None, None, "");
        var c := CheckCreation(typ.value, body, parent, id, None);
        if c.Err? { return Err(c.error); }
        var scope := if c.value.singleton && parent.Some? then Some(parent.value.id) else None;
        return Ok(Prepared(None, None, None, c.value.revisionHash, c.value.revisionTxId, c.value.root, scope, None));
      }
      var v;
      if op == Update {
        v := CheckUpdate(id, author, content, now, None);
      } else {
        v := CheckDelete(id, author, now, None);
      }
      if v.Err? { return Err(v.error); }
      var h := v.value.head.env;
      r := Ok(Prepared(Some(v.value.head.hash), h.parentType, h.parentId, h.parentRevisionHash, h.parentRevisionTxId,
                       v.value.root, None, h.nullifier));
    }

    /** The signed create checks. A first-use nullifier is attested here, and stays attested if a later
      * check rejects the call. */
    method AuthorizeCreate(s: Submission, tk: ThreadKey) returns (r: Result<(), Error>)
      requires Valid()
      modifies this`attested
      ensures CheckCreate(o, old(State()), s, tk) == Checked(attested, r)
      ensures r.Ok? <==> CreateAccepted(o, old(State()), s, tk)
    {
      CreateExactly(o, State(), s, tk);
      var e := s.env;
      if e.prevHash.Some? { return Err(CreateWithPrevHash); }
      if Exists(log, e.entityId) { return Err(AlreadyExists); }
      var parent := ParentOf(e);
      var c := CheckCreation(e.typ, s.content, parent, e.entityId, Some(tk.jurisdiction));
      if c.Err? { return Err(c.error); }
      if tk.threadId != c.value.root { return Err(WrongThread); }
      if e.parentRevisionHash != c.value.revisionHash { return Err(StaleParentRevision); }
      if c.value.singleton {
        if parent.None? { return Err(ParentRequired); }
        if e.nullifier.None? { return Err(SingletonNeedsNullifier); }
        var k, n := (tk.userId, parent.value.id), e.nullifier.value;
        if k in attested && attested[k] != n { return Err(NullifierMismatch); }
        if k !in attested {
          if !s.gate.canAttest { return Err(CannotAttest); }
          if TakenByAnother(State(), tk.userId, parent.value.id, n) { return Err(NullifierTaken); }
          attested := attested[k := n];
        }
        if ActiveNullifier(log, parent.value.id, n) { return Err(NullifierActive); }
      } else if e.nullifier.Some? {
        return Err(UnexpectedNullifier);
      }
      r := Ok(());
    }

    method AuthorizeEdit(s: Submission, tk: ThreadKey, now: int) returns (r: Result<(), Error>)
      requires Valid()
      ensures r == CheckEdit(o, State(), s, tk, now)
      ensures s.env.op != Create ==> (r.Ok? <==> EditAccepted(o, State(), s, tk, now))
    {
      if s.env.op != Create { EditExactly(o, State(), s, tk, now); }
      var e := s.env;
      var head := Head(log, e.entityId);
      if head.None? { return Err(NotFound); }
      var h := head.value;
      if e.prevHash != Some(h.hash) { return Err(StalePrevHash); }
      var v;
      if e.op == Update {
        v := CheckUpdate(e.entityId, e.author, Some(s.content), now, Some(tk.jurisdiction));
      } else {
        v := CheckDelete(e.entityId, e.author, now, Some(tk.jurisdiction));
      }
      if v.Err? { return Err(v.error); }
      if tk.threadId != v.value.root { return Err(WrongThread); }
      if e.parentType != h.env.parentType || e.parentId != h.env.parentId
         || e.parentRevisionHash != h.env.parentRevisionHash { return Err(MovedParent); }
      if e.op == Delete && s.content != DeleteMarker { return Err(NoDeleteMarker); }
      if IsSingleton(h.env.typ) {
        if h.env.nullifier.None? { return Err(NothingToCarry); }
        if e.nullifier != h.env.nullifier { return Err(NullifierNotCarried); }
      } else if e.nullifier.Some? {
        return Err(UnexpectedNullifier);
      }
      r := Ok(());
    }

    /** Every check of a signed call, in order. */
    method Authorize(s: Submission, now: int) returns (r: Result<(), Error>)
      requires Valid()
      modifies this`attested
      ensures SignedCheck(o, old(State()), s, now) == Checked(attested, r)
      ensures r.Ok? <==> CallAccepted(o, old(State()), s, now)
    {
      ChecksPassExactly(o, State(), s, now);
      var e := s.env;
      if e.typ == PlatformOps { return Err(UsePlatformOps); }
      var why := AuthFailure(o, s, now);
      if why.Some? { return Err(NotAuthentic(why.value)); }
      if e.author !in keys { return Err(UnknownThreadKey); }
      var tk := keys[e.author];
      var need := o.requiredScheme(e.typ, tk.jurisdiction);
      if s.gate.enforcePolicy && need.Some? && need.value != Scheme(e) { return Err(WrongScheme); }
      if e.signer.Some? && !s.gate.signerOk { return Err(NotAuthentic(SignerRejected)); }
      if e.op == Create {
        r := AuthorizeCreate(s, tk);
      } else {
        r := AuthorizeEdit(s, tk, now);
      }
    }

    /** Accept a client-signed envelope. The tables end as `Submit` says, attestations included. An accepted envelope
      * keeps the log well formed exactly when it is faithful, and keeps every walk ending exactly when it closes no
      * circle. */
    method AppendSigned(s: Submission, now: int) returns (r: Result<Ref, Error>)
      requires Valid()
      modifies this`log, this`plain, this`attested
      ensures State() == Submit(o, old(State()), s, now).0
      ensures match Submit(o, old(State()), s, now).1
        case Ok(_) => r == Ok(Ref(s.env.txId, s.env.entityId, o.leafHash(s.env)))
        case Err(e) => r == Err(e)
      ensures r.Ok? && WellFormed(old(log)) ==> (WellFormed(log) <==> Faithful(old(log), s.env))
      ensures r.Ok? && old(Steady()) && CollisionFree(o) ==> (Steady() <==> !Adrift(s.env))
      ensures r.Ok? && Chained(old(log)) && Hashed(o, old(log)) && CollisionFree(o) ==>
        (Valid() <==> !ClosesCircle(old(log), s.env))
      ensures r.Err? ==> Valid() && log == old(log)
    {
      ghost var before := State();
      var ok := Authorize(s, now);
      if ok.Err? { return Err(ok.error); }
      r := AppendRow(s.env, Plain(s.salt, s.content));
      if r.Ok? {
        if WellFormed(before.log) { SubmitKeepsIffFaithful(o, before, s, now); }
        if Chained(before.log) && Hashed(o, before.log) && CollisionFree(o) {
          SignedWriteKeeps(o, before, s, now);
          RowKeepsWalksEnd(before.log, Tx(s.env, o.leafHash(s.env)));
          if Grounded(before.log) { GroundedExactly(before.log, Tx(s.env, o.leafHash(s.env))); }
        }
      }
    }
  }

  /** A reference to an appended transaction. */
  datatype Ref = Ref(txId: TxId, entityId: EntityId, txHash: Hash)

  /** An unsigned write is about its own entity and never leaves it adrift, for it names a parent in full or not at
    * all. */
  lemma UnsignedFacts(o: Oracle, st: Store, i: Intent, now: int)
    requires UnsignedCheck(o, st, i, now).Ok?
    ensures var e := UnsignedCheck(o, st, i, now).value; e.entityId == i.id && !Adrift(e)
  {
  }
}
