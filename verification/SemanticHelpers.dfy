/** The unsigned helpers (react, vote, change a vote, sign, revoke) and the per-author singleton they rely on. */
module SemanticHelpers {
  import opened Wrappers
  import opened RecordTypes
  import opened RecordLog
  import opened RecordShape
  import opened RecordSpec
  import opened RecordRuns
  import opened Singletons
  import opened Acceptance

  /** At most one active singleton per (type, author, parent). */
  ghost predicate OneActive(log: Log) {
    forall x, y | x in Heads(log) && y in Heads(log) :: SameSlot(x, y) ==> x == y
  }

  predicate SameSlot(x: Tx, y: Tx) {
    && x.env.op != Delete && y.env.op != Delete && IsSingleton(x.env.typ)
    && x.env.typ == y.env.typ && x.env.author == y.env.author && x.env.parentId == y.env.parentId
  }

  /** The values a helper draws or receives for the row it writes. */
  datatype Fresh = Fresh(id: EntityId, txId: TxId, salt: int, createdAt: int)

  datatype Helper = React | CastVote | ChangeVote | Sign | Revoke

  function TypeOf(h: Helper): RecordType {
    match h case React => Reaction case CastVote => Vote case ChangeVote => Vote case _ => PetitionSignature
  }

  /** The author's active singleton on the parent, as the lookup may answer. */
  predicate Found(log: Log, h: Helper, author: Key, parent: ParentRef, found: Option<Tx>) {
    match found
    case Some(t) => ActiveSingleton(log, t, TypeOf(h), author, parent.id)
    case None => !HasActiveSingleton(log, TypeOf(h), author, parent.id)
  }

  /** The write a helper makes: a reaction is changed if there is one, a vote change or revocation needs one. */
  function Ask(h: Helper, author: Key, parent: ParentRef, content: Content, f: Fresh,
        found: Option<Tx>): Option<Intent> {
    var make := Intent(Create, TypeOf(h), f.id, author, content, Some(parent), f.createdAt, f.txId, f.salt);
    match h
    case CastVote => Some(make)
    case Sign => Some(make)
    case React =>
      Some(if found.Some? then make.(op := Update, id := found.value.env.entityId, parent := None) else make)
    case ChangeVote =>
      if found.Some? then Some(make.(op := Update, id := found.value.env.entityId, parent := None)) else None
    case Revoke =>
      if found.Some? then Some(make.(op := Delete, id := found.value.env.entityId, parent := None)) else None
  }

  function Call(o: Oracle, st: Store, h: Helper, author: Key, parent: ParentRef, content: Content, f: Fresh,
                found: Option<Tx>, now: int): (Store, Result<Envelope, Error>) {
    match Ask(h, author, parent, content, f, found)
    case None => (st, Err(NotFound))
    case Some(i) => WriteUnsigned(o, st, i, now)
  }

  lemma Written(o: Oracle, st: Store, i: Intent, now: int)
    requires WellFormed(st.log) && WriteUnsigned(o, st, i, now).1.Ok?
    ensures var (after, r) := WriteUnsigned(o, st, i, now); var t := Tx(r.value, o.leafHash(r.value));
      && after.log == st.log + [t] && after.plain == st.plain[i.txId := Plain(i.salt, IntentContent(i))]
      && t.env.entityId == i.id && t.env.op == i.op && t.env.author == i.author && t.env.txId == i.txId
      && (i.op == Create ==> Head(st.log, i.id).None? && t.env.typ == i.typ)
      && (i.op == Create && i.parent.Some? ==> t.env.parentId == Some(i.parent.value.id))
      && (i.op != Create ==> Head(st.log, i.id).Some? && Head(st.log, i.id).value.env.op != Delete)
      && (i.op != Create ==> t.env.typ == Head(st.log, i.id).value.env.typ)
      && (i.op != Create ==> t.env.parentId == Head(st.log, i.id).value.env.parentId)
    ensures i.op == Create && IsSingleton(i.typ) ==>
      i.parent.Some? && !HasActiveSingleton(st.log, i.typ, i.author, i.parent.value.id)
    ensures i.op != Create && i.author != Platform ==> Head(st.log, i.id).value.env.author == i.author
  {
    if i.op != Create { HeadFacts(st.log, i.id); Forest(st.log, i.id); }
  }

  /** The write is a platform edit that takes over a singleton beside one the platform holds already. */
  predicate TakesASecond(log: Log, i: Intent) {
    && i.op == Update && i.author == Platform && Head(log, i.id).Some? && IsSingleton(Head(log, i.id).value.env.typ)
    && exists x | x in Heads(log) :: x.env.entityId != i.id && BesideHead(log, i.id, x)
  }

  /** An active row of the platform's in the slot of the entity's head. */
  predicate BesideHead(log: Log, id: EntityId, x: Tx)
    requires Head(log, id).Some?
  {
    var h := Head(log, id).value.env;
    && x.env.op != Delete && x.env.typ == h.typ && x.env.author == Platform && x.env.parentId == h.parentId
  }

  /** An accepted unsigned write, by anyone, keeps one active singleton per author and parent exactly when it is not a
    * platform edit that takes over a second one. */
  lemma WriteKeepsOneActive(o: Oracle, st: Store, i: Intent, now: int)
    requires WellFormed(st.log) && OneActive(st.log) && WriteUnsigned(o, st, i, now).1.Ok?
    ensures OneActive(WriteUnsigned(o, st, i, now).0.log) <==> !TakesASecond(st.log, i)
  {
    Written(o, st, i, now);
    var (after, r) := WriteUnsigned(o, st, i, now);
    var t := Tx(r.value, o.leafHash(r.value));
    forall x { HeadsSnoc(st.log, t, x); }
    if i.op != Create { HeadFacts(st.log, i.id); }
    if TakesASecond(st.log, i) {
      var x :| x in Heads(st.log) && x.env.entityId != i.id && BesideHead(st.log, i.id, x);
      assert SameSlot(x, t) && x in Heads(after.log) && t in Heads(after.log) && x != t;
    } else {
      forall x, y | x in Heads(after.log) && y in Heads(after.log) && SameSlot(x, y) ensures x == y {
        if x == t && y != t { NewRowIsAlone(o, st, i, now, y); }
        if y == t && x != t { NewRowIsAlone(o, st, i, now, x); }
      }
    }
  }

  lemma NewRowIsAlone(o: Oracle, st: Store, i: Intent, now: int, x: Tx)
    requires WellFormed(st.log) && OneActive(st.log) && WriteUnsigned(o, st, i, now).1.Ok? && !TakesASecond(st.log, i)
    requires x in Heads(st.log) && x.env.entityId != i.id
    ensures var e := WriteUnsigned(o, st, i, now).1.value; !SameSlot(x, Tx(e, o.leafHash(e)))
  {
    Written(o, st, i, now);
    if i.op != Create {
      HeadFacts(st.log, i.id);
      var h := Head(st.log, i.id).value;
      assert h in Heads(st.log) && h != x;
      assert !SameSlot(x, h);
    } else if IsSingleton(i.typ) {
      assert !ActiveSingleton(st.log, x, i.typ, i.author, i.parent.value.id);
    }
  }

  lemma WriteKeepsAll(o: Oracle, st: Store, i: Intent, now: int)
    requires CollisionFree(o) && WellFormed(st.log) && Hashed(o, st.log) && OneActive(st.log)
    requires !TakesASecond(st.log, i) && WriteUnsigned(o, st, i, now).1.Ok?
    ensures var after := WriteUnsigned(o, st, i, now).0;
      WellFormed(after.log) && Hashed(o, after.log) && OneActive(after.log)
  {
    WriteKeepsOneActive(o, st, i, now);
    WellFormedIsChained(st.log);
    UnsignedWriteKeeps(o, st, i, now);
  }

  datatype Asked = Asked(helper: Helper, author: Key, parent: ParentRef, content: Content, values: Fresh,
        found: Option<Tx>, now: int)

  /** The helper is asked by a persona, or its lookup answered for the platform as it should. */
  predicate LooksUp(log: Log, a: Asked) { a.author != Platform || Found(log, a.helper, a.author, a.parent, a.found) }

  /** A lookup that answers right leads to no second singleton. */
  lemma LookupTakesNone(log: Log, a: Asked)
    requires OneActive(log) && LooksUp(log, a) && Ask(a.helper, a.author, a.parent, a.content, a.values, a.found).Some?
    ensures !TakesASecond(log, Ask(a.helper, a.author, a.parent, a.content, a.values, a.found).value)
  {
    var i := Ask(a.helper, a.author, a.parent, a.content, a.values, a.found).value;
    if TakesASecond(log, i) {
      var x :| x in Heads(log) && x.env.entityId != i.id && BesideHead(log, i.id, x);
      assert SameSlot(x, a.found.value);
    }
  }

  lemma CallKeepsAll(o: Oracle, st: Store, a: Asked)
    requires CollisionFree(o) && WellFormed(st.log) && Hashed(o, st.log) && OneActive(st.log) && LooksUp(st.log, a)
    ensures var after := Call(o, st, a.helper, a.author, a.parent, a.content, a.values, a.found, a.now).0;
      WellFormed(after.log) && Hashed(o, after.log) && OneActive(after.log)
  {
    var ask := Ask(a.helper, a.author, a.parent, a.content, a.values, a.found);
    if ask.Some? && WriteUnsigned(o, st, ask.value, a.now).1.Ok? {
      LookupTakesNone(st.log, a);
      WriteKeepsAll(o, st, ask.value, a.now);
    }
  }

  function CallRun(o: Oracle, st: Store, calls: seq<Asked>): Store
    decreases |calls|
  {
    if |calls| == 0 then st
    else
      var a := calls[|calls| - 1];
      Call(o, CallRun(o, st, calls[..|calls| - 1]), a.helper, a.author, a.parent, a.content, a.values, a.found, a.now).0
  }

  /** Every lookup for the platform answered as it should when its call was made. */
  predicate LookedUp(o: Oracle, st: Store, calls: seq<Asked>)
    decreases |calls|
  {
    |calls| == 0 || (var prior := calls[..|calls| - 1];
      LookedUp(o, st, prior) && LooksUp(CallRun(o, st, prior).log, calls[|calls| - 1]))
  }

  /** Every run of helper calls, by personas and by the platform, keeps reactions mutually exclusive, and votes and
    * signatures single, per author and parent. */
  lemma {:induction false} HelperRunsKeepOneActive(o: Oracle, st: Store, calls: seq<Asked>)
    requires CollisionFree(o) && WellFormed(st.log) && Hashed(o, st.log) && OneActive(st.log)
    requires LookedUp(o, st, calls)
    ensures var after := CallRun(o, st, calls); WellFormed(after.log) && Hashed(o, after.log) && OneActive(after.log)
    decreases |calls|
  {
    if |calls| > 0 {
      HelperRunsKeepOneActive(o, st, calls[..|calls| - 1]);
      CallKeepsAll(o, CallRun(o, st, calls[..|calls| - 1]), calls[|calls| - 1]);
    }
  }

  /** After an accepted write into a slot, the slot holds exactly the written row if it is active, and nothing if it is
    * a tombstone of the row that was there. */
  lemma SlotAfter(o: Oracle, st: Store, i: Intent, now: int, typ: RecordType, author: Key, parent: EntityId)
    requires WellFormed(st.log) && OneActive(st.log) && IsSingleton(typ)
    requires i.author == author && WriteUnsigned(o, st, i, now).1.Ok?
    requires i.op == Create ==> i.typ == typ && i.parent.Some? && i.parent.value.id == parent
    requires i.op != Create ==>
      Exists(st.log, i.id) && ActiveSingleton(st.log, Head(st.log, i.id).value, typ, author, parent)
    ensures var (after, r) := WriteUnsigned(o, st, i, now); var t := Tx(r.value, o.leafHash(r.value));
      forall x :: ActiveSingleton(after.log, x, typ, author, parent) <==> x == t && i.op != Delete
  {
    Written(o, st, i, now);
    var (after, r) := WriteUnsigned(o, st, i, now);
    var t := Tx(r.value, o.leafHash(r.value));
    forall x ensures ActiveSingleton(after.log, x, typ, author, parent) <==> x == t && i.op != Delete {
      HeadsSnoc(st.log, t, x);
      if x != t && ActiveSingleton(st.log, x, typ, author, parent) && i.op != Create {
        HeadFacts(st.log, i.id);
        assert SameSlot(x, Head(st.log, i.id).value);
      }
    }
  }

  lemma AskedOf(o: Oracle, st: Store, h: Helper, author: Key, parent: ParentRef, content: Content, f: Fresh,
                found: Option<Tx>, now: int)
    requires WellFormed(st.log) && Found(st.log, h, author, parent, found)
    requires Call(o, st, h, author, parent, content, f, found, now).1.Ok?
    ensures Ask(h, author, parent, content, f, found).Some?
    ensures var i := Ask(h, author, parent, content, f, found).value;
      && Call(o, st, h, author, parent, content, f, found, now) == WriteUnsigned(o, st, i, now)
      && i.author == author && i.content == content && (i.op == Delete <==> h == Revoke)
      && (i.op == Create ==> i.typ == TypeOf(h) && i.parent == Some(parent) && i.id == f.id && found.None?)
      && (i.op != Create ==> found.Some? && i.id == found.value.env.entityId && Head(st.log, i.id) == found)
  {
    var i := Ask(h, author, parent, content, f, found).value;
    Written(o, st, i, now);
  }

  lemma WrittenReads(o: Oracle, st: Store, i: Intent, now: int)
    requires WellFormed(st.log) && WriteUnsigned(o, st, i, now).1.Ok?
    ensures var (after, r) := WriteUnsigned(o, st, i, now);
      r.value.entityId == i.id && ContentOf(after, i.id) == Some(IntentContent(i))
  {
    Written(o, st, i, now);
    var e := WriteUnsigned(o, st, i, now).1.value;
    Snoc(st.log, Tx(e, o.leafHash(e)));
  }

  /** The create that a helper makes of a fresh entity passes. */
  ghost predicate MayMake(o: Oracle, st: Store, typ: RecordType, parent: ParentRef, content: Content, f: Fresh) {
    !Exists(st.log, f.id) && CreateRules(o, st, typ, content, Some(parent), None)
  }

  /** The edit that a helper makes of the entity found passes. */
  predicate MayEdit(o: Oracle, st: Store, op: Op, author: Key, content: Content, found: Option<Tx>, now: int) {
    found.Some? && EditRules(o, st, op, found.value.env.entityId, author, Some(content), now, None)
  }

  /** With a lookup that answers right, a helper is accepted exactly when its transaction id is fresh and: casting or
    * signing, the author has none yet and the create rules pass; changing a vote or revoking, there is one and its edit
    * rules pass; reacting, the one or the other. */
  lemma HelperAcceptedExactly(o: Oracle, st: Store, h: Helper, author: Key, parent: ParentRef, content: Content,
                              f: Fresh, found: Option<Tx>, now: int)
    requires Found(st.log, h, author, parent, found)
    ensures Call(o, st, h, author, parent, content, f, found, now).1.Ok? <==>
      && f.txId !in st.ledger && (forall t :: t in st.log ==> t.env.txId != f.txId)
      && match h
         case CastVote => found == None && MayMake(o, st, Vote, parent, content, f)
         case Sign => found == None && MayMake(o, st, PetitionSignature, parent, content, f)
         case React =>
           (found == None && MayMake(o, st, Reaction, parent, content, f))
           || MayEdit(o, st, Update, author, content, found, now)
         case ChangeVote => MayEdit(o, st, Update, author, content, found, now)
         case Revoke => MayEdit(o, st, Delete, author, content, found, now)
  {
    var i := Ask(h, author, parent, content, f, found);
    if i.Some? { WriteExactly(o, st, i.value, now); }
    StandingSingleton(st.log, TypeOf(h), author, parent.id);
  }

  /** What an accepted helper writes: a reaction for a reaction, a vote for a vote, a signature otherwise; created when
    * voting and signing, and then only if the author had none; changed or revoked on the one found; and a reaction
    * either way. */
  lemma HelperWrites(o: Oracle, st: Store, h: Helper, author: Key, parent: ParentRef, content: Content, f: Fresh,
                     found: Option<Tx>, now: int)
    requires WellFormed(st.log) && Found(st.log, h, author, parent, found)
    requires Call(o, st, h, author, parent, content, f, found, now).1.Ok?
    ensures var (after, r) := Call(o, st, h, author, parent, content, f, found, now); var e := r.value;
      && after.log == st.log + [Tx(e, o.leafHash(e))] && e.author == author && e.parentId == Some(parent.id)
      && (e.typ == Reaction <==> h == React) && (e.typ == Vote <==> h == CastVote || h == ChangeVote)
      && (e.typ == PetitionSignature <==> h == Sign || h == Revoke)
      && (e.op == Delete <==> h == Revoke)
      && (e.op == Create <==> h == CastVote || h == Sign || (h == React && found == None))
      && (e.op == Create <==> found == None)
      && e.entityId == (if found.Some? then found.value.env.entityId else f.id)
      && e.txId in after.plain && (h != Revoke ==> after.plain[e.txId].content == content)
  {
    AskedOf(o, st, h, author, parent, content, f, found, now);
    Written(o, st, Ask(h, author, parent, content, f, found).value, now);
  }

  /** What an accepted helper leaves the author with on the parent: after a revocation nothing, otherwise exactly the
    * one row it wrote, reading as asked: the entity found before, or the fresh one if none was. */
  lemma HelperEffect(o: Oracle, st: Store, h: Helper, author: Key, parent: ParentRef, content: Content, f: Fresh,
                     found: Option<Tx>, now: int)
    requires WellFormed(st.log) && OneActive(st.log) && Found(st.log, h, author, parent, found)
    requires Call(o, st, h, author, parent, content, f, found, now).1.Ok?
    ensures var (after, r) := Call(o, st, h, author, parent, content, f, found, now);
      var t := Tx(r.value, o.leafHash(r.value));
      && (forall x :: ActiveSingleton(after.log, x, t.env.typ, author, parent.id) <==> x == t && h != Revoke)
      && t.env.entityId == (if found.Some? then found.value.env.entityId else f.id)
      && (h != Revoke ==> ContentOf(after, t.env.entityId) == Some(content))
  {
    var i := Ask(h, author, parent, content, f, found).value;
    AskedOf(o, st, h, author, parent, content, f, found, now);
    HelperWrites(o, st, h, author, parent, content, f, found, now);
    SlotAfter(o, st, i, now, TypeOf(h), author, parent.id);
    WrittenReads(o, st, i, now);
  }

  /** A platform edit takes over the row's author, so the person it belonged to holds no singleton any more and the
    * per-author check lets them write a second one. */
  lemma PlatformEditFreesTheAuthor(o: Oracle, st: Store, i: Intent, now: int, author: Key, parent: EntityId)
    requires WellFormed(st.log) && OneActive(st.log) && i.op == Update && i.author == Platform && author != Platform
    requires Exists(st.log, i.id)
    requires ActiveSingleton(st.log, Head(st.log, i.id).value, Head(st.log, i.id).value.env.typ, author, parent)
    requires IsSingleton(Head(st.log, i.id).value.env.typ) && WriteUnsigned(o, st, i, now).1.Ok?
    ensures !HasActiveSingleton(WriteUnsigned(o, st, i, now).0.log, Head(st.log, i.id).value.env.typ, author, parent)
  {
    Written(o, st, i, now);
    HeadFacts(st.log, i.id);
    var (after, r) := WriteUnsigned(o, st, i, now);
    var t, h := Tx(r.value, o.leafHash(r.value)), Head(st.log, i.id).value;
    forall x | x in Heads(after.log) ensures !ActiveSingleton(after.log, x, h.env.typ, author, parent) {
      HeadsSnoc(st.log, t, x);
      if x != t && ActiveSingleton(st.log, x, h.env.typ, author, parent) { assert SameSlot(x, h); }
    }
  }

  /** And the second write is accepted: the rules and a fresh id are all it needs. Both rows then stand on the
    * parent. */
  lemma SecondWriteIsAccepted(o: Oracle, st: Store, i: Intent, now: int, c: Intent, at: int, parent: EntityId)
    requires WellFormed(st.log) && OneActive(st.log) && i.op == Update && i.author == Platform && c.author != Platform
    requires Exists(st.log, i.id) && IsSingleton(c.typ)
    requires ActiveSingleton(st.log, Head(st.log, i.id).value, c.typ, c.author, parent)
    requires WriteUnsigned(o, st, i, now).1.Ok?
    requires var after := WriteUnsigned(o, st, i, now).0;
      && c.op == Create && c.parent.Some? && c.parent.value.id == parent && !Exists(after.log, c.id)
      && ValidateCreate(o, after, c.typ, c.content, c.parent, c.id, None).Ok?
      && c.txId !in after.ledger && forall t | t in after.log :: t.env.txId != c.txId
    ensures var after := WriteUnsigned(o, st, i, now).0; var (end, r) := WriteUnsigned(o, after, c, at);
      && r.Ok? && IsLive(end.log, i.id) && IsLive(end.log, c.id) && i.id != c.id
      && Head(end.log, i.id).value.env.typ == Head(end.log, c.id).value.env.typ == c.typ
      && Head(end.log, i.id).value.env.parentId == Head(end.log, c.id).value.env.parentId == Some(parent)
  {
    var (after, first) := WriteUnsigned(o, st, i, now);
    Written(o, st, i, now);
    Snoc(st.log, Tx(first.value, o.leafHash(first.value)));
    PlatformEditFreesTheAuthor(o, st, i, now, c.author, parent);
    var e := UnsignedCheck(o, after, c, at).value;
    assert UnsignedCheck(o, after, c, at).Ok? && e.entityId == c.id && e.txId == c.txId && e.op == Create;
    assert AppendError(after, e).None?;
    Snoc(after.log, Tx(e, o.leafHash(e)));
  }
}
