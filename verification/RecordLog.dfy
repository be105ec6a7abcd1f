/** The append-only event log and the folds that read it. The views `entity_state` and
  * `entity_current_revision` are "latest row wins", so they are defined from the end of the log. */
module RecordLog {
  import opened Wrappers
  import opened RecordTypes
  import opened Iteration

  type Log = seq<Tx>

  function Front(log: Log): Log
    requires |log| > 0
  {
    log[..|log| - 1]
  }

  function Last(log: Log): Tx
    requires |log| > 0
  {
    log[|log| - 1]
  }

  /** The entity's head row, which is also its row of the `entity_state` view. */
  function Head(log: Log, id: EntityId): Option<Tx> {
    if |log| == 0 then None
    else if Last(log).env.entityId == id then Some(Last(log))
    else Head(Front(log), id)
  }

  /** The latest create or update of the entity; tombstones are skipped. */
  function CurrentRevision(log: Log, id: EntityId): Option<Tx> {
    if |log| == 0 then None
    else if Last(log).env.entityId == id && Last(log).env.op != Delete then Some(Last(log))
    else CurrentRevision(Front(log), id)
  }

  /** The row at `i` is a create or update of the entity, and what came later of it are tombstones. */
  predicate LatestRevisionAt(log: Log, id: EntityId, i: nat)
    requires i < |log|
  {
    && log[i].env.entityId == id && log[i].env.op != Delete
    && forall k | i < k < |log| && log[k].env.entityId == id :: log[k].env.op == Delete
  }

  lemma {:induction false} CurrentRevisionExactly(log: Log, id: EntityId)
    ensures match CurrentRevision(log, id)
      case Some(t) => exists i :: 0 <= i < |log| && log[i] == t && LatestRevisionAt(log, id, i)
      case None => forall t :: t in log && t.env.entityId == id ==> t.env.op == Delete
  {
    if |log| > 0 {
      CurrentRevisionExactly(Front(log), id);
      var last := |log| - 1;
      if log[last].env.entityId == id && log[last].env.op != Delete {
        assert LatestRevisionAt(log, id, last);
      } else if CurrentRevision(log, id).Some? {
        var init := Front(log);
        var i :| 0 <= i < last && init[i] == CurrentRevision(log, id).value && LatestRevisionAt(init, id, i);
        assert forall k :: 0 <= k < last ==> init[k] == log[k];
        assert LatestRevisionAt(log, id, i);
      } else {
        assert log == Front(log) + [Last(log)];
      }
    }
  }

  /** All rows of the entity, oldest first. */
  function History(log: Log, id: EntityId): Log {
    if |log| == 0 then []
    else if Last(log).env.entityId == id then History(Front(log), id) + [Last(log)]
    else History(Front(log), id)
  }

  /** The rows of the `entity_state` view: one head per entity. */
  function Heads(log: Log): set<Tx> {
    set t | t in log && Head(log, t.env.entityId) == Some(t)
  }

  predicate Exists(log: Log, id: EntityId) { Head(log, id).Some? }

  predicate IsLive(log: Log, id: EntityId) {
    Head(log, id).Some? && Head(log, id).value.env.op != Delete
  }

  // ---- the walks over current heads ----------------------------------------------------------------

  function ParentOf(e: Envelope): Option<ParentRef> {
    if e.parentType.Some? && e.parentId.Some? then Some(ParentRef(e.parentType.value, e.parentId.value)) else None
  }

  /** Where the walk to the root goes next: the parent pointer of a head that is not of a root type. */
  function Up(log: Log, id: EntityId): Option<EntityId> {
    match Head(log, id)
    case Some(t) => if IsRootType(t.env.typ) then None else t.env.parentId
    case None => None
  }

  function Parents(log: Log): EntityId -> Option<EntityId> { id => Up(log, id) }

  /** The end of the walk to the root; None when it has none. A walk that has not stopped after as many steps
    * as the log has rows goes in a circle. */
  function WalkRoot(log: Log, id: EntityId): Option<EntityId> {
    var top := Climb(Parents(log), id, |log|);
    if Up(log, top).None? then Some(top) else None
  }

  /** The root of an entity given its head. */
  function HeadRoot(log: Log, h: Tx): Option<EntityId> {
    if IsRootType(h.env.typ) || ParentOf(h.env).None? then Some(h.env.entityId) else WalkRoot(log, h.env.parentId.value)
  }

  /** The walk that counts nesting follows parents of type comment, whatever their heads' types. */
  function CommentUp(log: Log, id: EntityId): Option<EntityId> {
    match Head(log, id)
    case Some(t) => if t.env.parentType == Some(Comment) then t.env.parentId else None
    case None => None
  }

  function CommentParents(log: Log): EntityId -> Option<EntityId> { id => CommentUp(log, id) }

  // ---- what a row appended to a log must look like ------------------------------------------------

  /** `hash` names a create or update of entity `id`. */
  predicate IsRevisionOf(log: Log, id: EntityId, hash: Hash) {
    exists t | t in log :: t.env.entityId == id && t.env.op != Delete && t.hash == hash
  }

  /** A create attaches to an existing parent of an allowed type, pinned to one of its revisions; a root
    * takes no parent; a comment stays within the nesting bound. */
  predicate AttachesTo(log: Log, e: Envelope) {
    if IsRootType(e.typ) then
      e.parentType.None? && e.parentId.None? && e.parentRevisionHash.None?
    else
      && e.parentType.Some? && e.parentId.Some? && e.parentRevisionHash.Some?
      && ParentAllowed(e.typ, e.parentType.value)
      && Exists(log, e.parentId.value)
      && Head(log, e.parentId.value).value.env.typ == e.parentType.value
      && IsRevisionOf(log, e.parentId.value, e.parentRevisionHash.value)
      && (e.typ == Comment ==> DepthAt(log, e.parentId.value) < COMMENT_MAX_DEPTH)
  }

  /** An update or delete continues its entity's line: it links to a live head by hash and keeps the
    * type, the parent and the pinned parent revision; its author is the head's or the platform. */
  predicate Continues(h: Tx, e: Envelope) {
    && h.env.op != Delete
    && e.prevHash == Some(h.hash)
    && OpAllowed(h.env.typ, e.op)
    && e.typ == h.env.typ
    && e.parentType == h.env.parentType
    && e.parentId == h.env.parentId
    && e.parentRevisionHash == h.env.parentRevisionHash
    && (e.author == h.env.author || e.author == Platform)
  }

  predicate Extends(log: Log, e: Envelope) {
    match e.op
    case Create => Head(log, e.entityId).None? && e.prevHash.None? && AttachesTo(log, e)
    case _ => Head(log, e.entityId).Some? && Continues(Head(log, e.entityId).value, e)
  }

  /** Every row of the log was a proper extension of the rows before it. */
  predicate WellFormed(log: Log) {
    |log| == 0 || (WellFormed(Front(log)) && Extends(Front(log), Last(log).env))
  }

  /** A parent named in full is pinned to one of its revisions, and nothing else is pinned. */
  predicate PinsParent(log: Log, e: Envelope) {
    if ParentOf(e).Some? then
      e.parentRevisionHash.Some? && IsRevisionOf(log, ParentOf(e).value.id, e.parentRevisionHash.value)
    else e.parentRevisionHash.None?
  }

  /** The links that every accepted write keeps, whatever its caller sends: a create finds no head, names an existing
    * parent unless it is of a root type, and is pinned to it; an edit links to a live head, allows its op, and keeps
    * parent, pinned revision and author. Only the declared type may drift. */
  predicate Links(log: Log, e: Envelope) {
    match e.op
    case Create =>
      && Head(log, e.entityId).None? && e.prevHash.None?
      && (IsRootType(e.typ) <==> ParentOf(e).None?)
      && (ParentOf(e).Some? ==> Exists(log, ParentOf(e).value.id))
      && PinsParent(log, e)
    case _ => Head(log, e.entityId).Some? && Follows(Head(log, e.entityId).value, e)
  }

  predicate Follows(h: Tx, e: Envelope) {
    && h.env.op != Delete
    && e.prevHash == Some(h.hash)
    && OpAllowed(h.env.typ, e.op)
    && KeepsParent(h.env, e)
    && e.parentRevisionHash == h.env.parentRevisionHash
    && (e.author == h.env.author || e.author == Platform)
  }

  /** A parent named in full stays; half a name may be dropped. */
  predicate KeepsParent(h: Envelope, e: Envelope) {
    || (e.parentType == h.parentType && e.parentId == h.parentId)
    || (ParentOf(h).None? && e.parentType.None? && e.parentId.None?)
  }

  predicate Chained(log: Log) {
    |log| == 0 || (Chained(Front(log)) && Links(Front(log), Last(log).env))
  }

  /** Row hashes are leaf hashes, and transaction ids are a primary key. */
  predicate Hashed(o: Oracle, log: Log) {
    && (forall i :: 0 <= i < |log| ==> log[i].hash == o.leafHash(log[i].env))
    && (forall i, j :: 0 <= i < j < |log| ==> log[i].env.txId != log[j].env.txId)
  }

  // ---- reference definitions, fixed when an entity is created -------------------------------------

  /** The position in the log of the entity's create. */
  function Born(log: Log, id: EntityId): nat {
    if |log| == 0 then 0
    else if Last(log).env.entityId == id && Last(log).env.op == Create then |log| - 1
    else Born(Front(log), id)
  }

  /** The root an entity was created under. */
  function RootAt(log: Log, id: EntityId): Option<EntityId> {
    if |log| == 0 then None
    else
      var e := Last(log).env;
      if e.entityId == id && e.op == Create then
        if IsRootType(e.typ) || e.parentId.None? then Some(id) else RootAt(Front(log), e.parentId.value)
      else RootAt(Front(log), id)
  }

  /** The same, with an unknown entity its own answer. */
  function RootOf(log: Log, id: EntityId): EntityId {
    match RootAt(log, id) case Some(r) => r case None => id
  }

  /** How many comments deep the entity was created: 0 unless it is a comment. */
  function DepthAt(log: Log, id: EntityId): nat {
    if |log| == 0 then 0
    else
      var e := Last(log).env;
      if e.entityId == id && e.op == Create then
        if e.typ == Comment && e.parentId.Some? then 1 + DepthAt(Front(log), e.parentId.value) else 0
      else DepthAt(Front(log), id)
  }
}
