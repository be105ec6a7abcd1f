/** What a well-formed log says about every entity's history and about the parent relation. */
module RecordShape {
  import opened Wrappers
  import opened RecordTypes
  import opened RecordLog
  import opened Iteration

  lemma Snoc(log: Log, t: Tx)
    ensures Front(log + [t]) == log && Last(log + [t]) == t
  {
  }

  /** The shape of one entity's history: one create, links by hash, a delete only at the end, and the
    * type, parent, pinned revision and author discipline of the create kept throughout. */
  predicate LineOk(h: Log) {
    && (|h| > 0 ==> h[0].env.op == Create && h[0].env.prevHash == None)
    && (forall i :: 0 < i < |h| ==> Linked(h[i - 1], h[i]) && SameEntity(h[0], h[i]))
  }

  predicate Linked(a: Tx, b: Tx) {
    a.env.op != Delete && b.env.op != Create && b.env.prevHash == Some(a.hash)
  }

  predicate SameEntity(c: Tx, t: Tx) {
    && t.env.entityId == c.env.entityId
    && t.env.typ == c.env.typ
    && t.env.parentType == c.env.parentType
    && t.env.parentId == c.env.parentId
    && t.env.parentRevisionHash == c.env.parentRevisionHash
    && (t.env.author == c.env.author || t.env.author == Platform)
  }

  /** History and head agree, and the history holds exactly the entity's rows. */
  lemma {:induction false} HistoryFacts(log: Log, id: EntityId)
    ensures var h := History(log, id);
      && Head(log, id) == (if |h| == 0 then None else Some(Last(h)))
      && (forall t :: t in h <==> t in log && t.env.entityId == id)
      && |h| <= |log|
  {
    if |log| > 0 {
      HistoryFacts(Front(log), id);
      assert log == Front(log) + [Last(log)];
    }
  }

  /** Every history in a well-formed log has the shape of a single verified line. */
  lemma {:induction false} HistoryShape(log: Log, id: EntityId)
    requires WellFormed(log)
    ensures LineOk(History(log, id))
  {
    if |log| > 0 {
      HistoryShape(Front(log), id);
      HistoryFacts(Front(log), id);
    }
  }

  lemma {:induction false} HeadFacts(log: Log, id: EntityId)
    requires Head(log, id).Some?
    ensures Head(log, id).value in log && Head(log, id).value.env.entityId == id
  {
    if Last(log).env.entityId != id {
      HeadFacts(Front(log), id);
    }
  }

  /** The parent relation is a forest ordered by creation: a non-root entity's parent exists, has the
    * recorded type, was created strictly earlier, and shares its root; the pinned revision is a create or
    * update of that parent. Root types have no parent and are their own root. */
  lemma {:induction false} Forest(log: Log, id: EntityId)
    requires WellFormed(log) && Exists(log, id)
    ensures Born(log, id) < |log|
    ensures var e := Head(log, id).value.env;
      if IsRootType(e.typ) then
        && e.parentId.None? && e.parentType.None? && RootAt(log, id) == Some(id) && DepthAt(log, id) == 0
      else
        && e.parentId.Some? && e.parentType.Some? && e.parentRevisionHash.Some?
        && ParentAllowed(e.typ, e.parentType.value)
        && Exists(log, e.parentId.value)
        && Head(log, e.parentId.value).value.env.typ == e.parentType.value
        && Born(log, e.parentId.value) < Born(log, id)
        && RootAt(log, id) == RootAt(log, e.parentId.value)
        && DepthAt(log, id) == (if e.typ == Comment then 1 + DepthAt(log, e.parentId.value) else 0)
        && IsRevisionOf(log, e.parentId.value, e.parentRevisionHash.value)
  {
    var prior, t := Front(log), Last(log);
    assert forall x :: x in prior ==> x in log;
    if t.env.entityId == id {
      if t.env.op != Create {
        Forest(prior, id);
        var e := Head(prior, id).value.env;
        if !IsRootType(e.typ) { RevisionKept(prior, t, e.parentId.value, e.parentRevisionHash.value); }
      } else if !IsRootType(t.env.typ) {
        Forest(prior, t.env.parentId.value);
        RevisionKept(prior, t, t.env.parentId.value, t.env.parentRevisionHash.value);
      }
    } else {
      Forest(prior, id);
      var e := Head(prior, id).value.env;
      if !IsRootType(e.typ) { RevisionKept(prior, t, e.parentId.value, e.parentRevisionHash.value); }
    }
  }

  lemma RevisionKept(prior: Log, t: Tx, id: EntityId, hash: Hash)
    requires IsRevisionOf(prior, id, hash)
    ensures IsRevisionOf(prior + [t], id, hash)
    ensures forall log :: |log| > 0 && Front(log) == prior && Last(log) == t ==> log == prior + [t]
  {
    var x :| x in prior && x.env.entityId == id && x.env.op != Delete && x.hash == hash;
    assert x in prior + [t];
    forall log | |log| > 0 && Front(log) == prior && Last(log) == t ensures log == prior + [t] {
      assert log == Front(log) + [Last(log)];
    }
  }

  /** Trees are rooted at root types and comments nest at most COMMENT_MAX_DEPTH deep. */
  lemma {:induction false} RootedAndShallow(log: Log, id: EntityId)
    requires WellFormed(log) && Exists(log, id)
    ensures RootAt(log, id).Some? && Exists(log, RootAt(log, id).value)
    ensures IsRootType(Head(log, RootAt(log, id).value).value.env.typ)
    ensures DepthAt(log, id) <= COMMENT_MAX_DEPTH
    decreases Born(log, id)
  {
    Forest(log, id);
    DepthBound(log, id);
    var e := Head(log, id).value.env;
    if !IsRootType(e.typ) {
      RootedAndShallow(log, e.parentId.value);
    }
  }

  lemma {:induction false} DepthBound(log: Log, id: EntityId)
    requires WellFormed(log)
    ensures DepthAt(log, id) <= COMMENT_MAX_DEPTH
  {
    if |log| > 0 {
      DepthBound(Front(log), id);
      var e := Last(log).env;
      if e.entityId == id && e.op == Create && e.typ == Comment {
        DepthBound(Front(log), e.parentId.value);
      }
    }
  }

  /** The forest is immutable: no continuation of a chained log moves an existing entity, its parent, or the root and
    * the depth it was created with; a well-formed one does not change its type either. */
  lemma {:induction false} ForestIsImmutable(log: Log, later: Log, id: EntityId)
    requires Chained(later) && |log| <= |later| && log == later[..|log|]
    requires Exists(log, id)
    ensures Exists(later, id)
    ensures RootAt(later, id) == RootAt(log, id)
    ensures DepthAt(later, id) == DepthAt(log, id)
    ensures Born(later, id) == Born(log, id)
    ensures SameButType(Head(log, id).value, Head(later, id).value)
    ensures WellFormed(later) ==> SameEntity(Head(log, id).value, Head(later, id).value)
    decreases |later|
  {
    HeadFacts(log, id);
    if |log| < |later| {
      assert Front(later)[..|log|] == log;
      ForestIsImmutable(log, Front(later), id);
    } else {
      assert log == later;
    }
  }

  /** Distinct rows have distinct hashes. */
  lemma HashesDistinct(o: Oracle, log: Log, a: Tx, b: Tx)
    requires CollisionFree(o) && Hashed(o, log) && a in log && b in log
    ensures a.hash == b.hash <==> a == b
  {
  }

  lemma {:induction false} UnknownHasNoRoot(log: Log, id: EntityId)
    requires Head(log, id).None?
    ensures RootAt(log, id).None?
  {
    if |log| > 0 { UnknownHasNoRoot(Front(log), id); }
  }

  lemma {:induction false} PrefixIsWellFormed(log: Log, later: Log)
    requires WellFormed(later) && log <= later
    ensures WellFormed(log)
    decreases |later|
  {
    if |log| < |later| { PrefixIsWellFormed(log, Front(later)); } else { assert log == later; }
  }

  // ---- the walks on a well-formed log ------------------------------------------------------------------

  lemma {:induction false} ClimbToRoot(log: Log, id: EntityId, n: nat)
    requires WellFormed(log) && Exists(log, id) && n >= Born(log, id)
    ensures Climb(Parents(log), id, n) == RootOf(log, id) && Up(log, RootOf(log, id)).None?
    decreases Born(log, id)
  {
    Forest(log, id);
    RootedAndShallow(log, id);
    var e := Head(log, id).value.env;
    if !IsRootType(e.typ) { ClimbToRoot(log, e.parentId.value, n - 1); }
  }

  /** On a well-formed log the walk over current heads ends, at the root the entity was created under. */
  lemma WalkAgrees(log: Log, id: EntityId)
    requires WellFormed(log)
    ensures WalkRoot(log, id) == Some(RootOf(log, id))
    ensures Exists(log, id) ==> HeadRoot(log, Head(log, id).value) == Some(RootOf(log, id))
  {
    if Exists(log, id) {
      Forest(log, id);
      HeadFacts(log, id);
      ClimbToRoot(log, id, |log|);
      var e := Head(log, id).value.env;
      if !IsRootType(e.typ) {
        Forest(log, e.parentId.value);
        ClimbToRoot(log, e.parentId.value, |log|);
      }
    } else {
      UnknownHasNoRoot(log, id);
    }
  }

  /** On a well-formed log the nesting walk from a comment ends after as many steps as there are comments above it. */
  lemma {:induction false} CommentsAbove(log: Log, id: EntityId, n: nat)
    requires WellFormed(log) && Exists(log, id) && Head(log, id).value.env.typ == Comment && n >= Born(log, id)
    ensures var top := Climb(CommentParents(log), id, n);
      CommentUp(log, top).None? && Exists(log, top) && 1 + Rises(CommentParents(log), id, n) == DepthAt(log, id)
    decreases Born(log, id)
  {
    Forest(log, id);
    var e := Head(log, id).value.env;
    Forest(log, e.parentId.value);
    if e.parentType == Some(Comment) { CommentsAbove(log, e.parentId.value, n - 1); }
  }

  // ---- what every log keeps ---------------------------------------------------------------------------------

  lemma {:induction false} WellFormedIsChained(log: Log)
    requires WellFormed(log)
    ensures Chained(log)
  {
    if |log| > 0 {
      WellFormedIsChained(Front(log));
      var e := Last(log).env;
      assert e.op == Create ==> PinsParent(Front(log), e);
      if e.op != Create { HeadFacts(Front(log), e.entityId); }
    }
  }

  lemma PinKept(log: Log, t: Tx, e: Envelope)
    requires PinsParent(log, e)
    ensures PinsParent(log + [t], e)
  {
    if ParentOf(e).Some? { RevisionKept(log, t, ParentOf(e).value.id, e.parentRevisionHash.value); }
  }

  /** In every chained log each row that names its parent in full is pinned to one of that parent's revisions, and no
    * other row is pinned. */
  lemma {:induction false} EveryRowIsPinned(log: Log, t: Tx)
    requires Chained(log) && t in log
    ensures PinsParent(log, t.env)
  {
    var prior, last := Front(log), Last(log);
    assert log == prior + [last];
    if t in prior {
      EveryRowIsPinned(prior, t);
    } else if t.env.op != Create {
      HeadFacts(prior, t.env.entityId);
      EveryRowIsPinned(prior, Head(prior, t.env.entityId).value);
    }
    PinKept(prior, last, t.env);
  }

  /** The shape of one entity's history whatever types its edits declare. */
  predicate ChainOk(h: Log) {
    && (|h| > 0 ==> h[0].env.op == Create && h[0].env.prevHash == None)
    && (forall i :: 0 < i < |h| ==> Linked(h[i - 1], h[i]) && SameButType(h[0], h[i]))
  }

  predicate SameButType(c: Tx, t: Tx) {
    && t.env.entityId == c.env.entityId
    && ParentOf(t.env) == ParentOf(c.env)
    && t.env.parentRevisionHash == c.env.parentRevisionHash
    && (t.env.author == c.env.author || t.env.author == Platform)
  }

  /** In every chained log each history is one hash-linked line whose parent, pinned revision and authors are those
    * of its create. */
  lemma {:induction false} ChainShape(log: Log, id: EntityId)
    requires Chained(log)
    ensures ChainOk(History(log, id))
  {
    if |log| > 0 {
      ChainShape(Front(log), id);
      HistoryFacts(Front(log), id);
    }
  }
}
