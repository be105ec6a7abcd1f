/** When an entity's root, as the walk over current heads finds it, moves. */
module RootMoves {
  import opened Wrappers
  import opened Iteration
  import opened RecordTypes
  import opened RecordLog
  import opened RecordShape
  import opened ParentWalks

  /** The row gives its entity a link upwards that it had not, or takes away the one it had. */
  predicate ChangesLink(log: Log, t: Tx) {
    Up(log, t.env.entityId).Some? <==> IsRootType(t.env.typ) || t.env.parentId.None?
  }

  /** What can be checked before a call: the walk from the entity comes to the row's entity, whose link the row
    * changes. */
  predicate MovesRoot(log: Log, t: Tx, id: EntityId) { ChangesLink(log, t) && OnTheWalk(log, id, t.env.entityId) }

  /** A link that stays leads to the same parent, and all other links stay. */
  lemma LinkTarget(log: Log, t: Tx)
    requires Chained(log + [t])
    ensures var x := t.env.entityId;
      && Up(log + [t], x) == (if IsRootType(t.env.typ) then None else t.env.parentId)
      && (Up(log, x).Some? && Up(log + [t], x).Some? ==> Up(log, x) == Up(log + [t], x))
      && AgreeOutside(Parents(log), Parents(log + [t]), x)
  {
    Snoc(log, t);
    forall y | y != t.env.entityId ensures Up(log + [t], y) == Up(log, y) {
      assert Head(log + [t], y) == Head(log, y);
    }
  }

  /** The root is the place without a link to which the walk comes. */
  lemma RootIsMet(log: Log, id: EntityId, r: EntityId)
    ensures WalkRoot(log, id) == Some(r) <==> Up(log, r).None? && Meets(Parents(log), id, r)
  {
    if Up(log, r).None? && Meets(Parents(log), id, r) {
      var n: nat :| Climb(Parents(log), id, n) == r;
      RootOrNever(log, id, n);
    }
  }

  /** Logs whose walks from an entity come to the same places, with the same ends, have the same root for it. */
  lemma SameRoot(log: Log, later: Log, id: EntityId)
    requires forall n: nat :: var y := Climb(Parents(log), id, n);
      Climb(Parents(later), id, n) == y && (Up(log, y).None? <==> Up(later, y).None?)
    ensures WalkRoot(later, id) == WalkRoot(log, id)
  {
    forall r ensures WalkRoot(log, id) == Some(r) <==> WalkRoot(later, id) == Some(r) {
      RootIsMet(log, id, r);
      RootIsMet(later, id, r);
      if Meets(Parents(log), id, r) {
        var n: nat :| Climb(Parents(log), id, n) == r;
        assert Climb(Parents(later), id, n) == r;
      }
      if Meets(Parents(later), id, r) {
        var n: nat :| Climb(Parents(later), id, n) == r;
        assert Climb(Parents(log), id, n) == r;
      }
    }
  }

  /** A row moves an entity's root exactly when the walk from the entity comes to the row's entity and the row changes
    * whether that has a link upwards. This holds on every chained log, circles included. */
  lemma RootMovesExactly(log: Log, t: Tx, id: EntityId)
    requires Chained(log + [t])
    ensures WalkRoot(log + [t], id) != WalkRoot(log, id) <==> MovesRoot(log, t, id)
  {
    var next, other, x := Parents(log), Parents(log + [t]), t.env.entityId;
    LinkTarget(log, t);
    MetSoonOrNever(log, id, x);
    if Meets(next, id, x) && ChangesLink(log, t) {
      var n: nat :| Climb(next, id, n) == x;
      var first := FirstMeeting(next, id, x, n);
      SameUpTo(next, other, x, id, first);
      assert Meets(other, id, x);
      RootIsMet(log, id, x);
      RootIsMet(log + [t], id, x);
    } else {
      forall n: nat ensures Climb(other, id, n) == Climb(next, id, n) {
        if ChangesLink(log, t) { SameUpTo(next, other, x, id, n); } else { SameClimb(next, other, id, n); }
      }
      forall n: nat ensures Up(log + [t], Climb(next, id, n)).None? <==> Up(log, Climb(next, id, n)).None? {
        var y := Climb(next, id, n);
        assert y != x ==> other(y) == next(y);
      }
      SameRoot(log, log + [t], id);
    }
  }

  lemma {:induction false} SameClimb<T(!new)>(next: T -> Option<T>, other: T -> Option<T>, x: T, n: nat)
    requires forall y :: next(y) == other(y)
    ensures Climb(other, x, n) == Climb(next, x, n)
  {
    if n > 0 && next(x).Some? { SameClimb(next, other, next(x).value, n - 1); }
  }

  // ---- over a continuation ---------------------------------------------------------------------------------

  lemma {:induction false} PrefixIsChained(log: Log, later: Log)
    requires Chained(later) && log <= later
    ensures Chained(log)
    decreases |later|
  {
    if |log| < |later| { PrefixIsChained(log, Front(later)); } else { assert log == later; }
  }

  /** No row of the continuation moves the entity's root. */
  predicate RootUnmoved(log: Log, later: Log, id: EntityId)
    requires log <= later
  {
    forall k :: |log| <= k < |later| ==> !MovesRoot(later[..k], later[k], id)
  }

  /** The root that an entity's edits are checked against is the end of the walk if it names a parent in full, and
    * the entity itself otherwise. */
  lemma HeadRootIs(log: Log, id: EntityId)
    requires Exists(log, id)
    ensures var h := Head(log, id).value;
      HeadRoot(log, h) == if ParentOf(h.env).Some? then WalkRoot(log, id) else Some(id)
  {
    var h := Head(log, id).value;
    HeadFacts(log, id);
    if IsRootType(h.env.typ) {
      assert Climb(Parents(log), id, |log|) == id;
    } else if ParentOf(h.env).Some? {
      LinkRoot(log, id);
    }
  }

  /** A linked entity has its parent's root. */
  lemma LinkRoot(log: Log, id: EntityId)
    requires Up(log, id).Some?
    ensures WalkRoot(log, id) == WalkRoot(log, Up(log, id).value)
  {
    var p := Up(log, id).value;
    forall r ensures WalkRoot(log, id) == Some(r) <==> WalkRoot(log, p) == Some(r) {
      RootIsMet(log, id, r);
      RootIsMet(log, p, r);
      if Up(log, r).None? && Meets(Parents(log), id, r) {
        var n: nat :| Climb(Parents(log), id, n) == r;
        assert n > 0 && Climb(Parents(log), p, n - 1) == r;
      }
      if Up(log, r).None? && Meets(Parents(log), p, r) {
        var n: nat :| Climb(Parents(log), p, n) == r;
        assert Climb(Parents(log), id, n + 1) == r;
      }
    }
  }

  /** An entity's root is the same in every continuation, as long as no row in between moves it; and so is the root
    * that its edits are checked against. */
  lemma {:induction false} RootStays(log: Log, later: Log, id: EntityId)
    requires Chained(later) && log <= later && Exists(log, id) && RootUnmoved(log, later, id)
    ensures Exists(later, id) && WalkRoot(later, id) == WalkRoot(log, id)
    ensures HeadRoot(later, Head(later, id).value) == HeadRoot(log, Head(log, id).value)
    decreases |later|
  {
    if |log| < |later| {
      var prior := Front(later);
      assert later == prior + [Last(later)] && later[..|prior|] == prior;
      forall k | |log| <= k < |prior| ensures !MovesRoot(prior[..k], prior[k], id) { assert later[..k] == prior[..k]; }
      RootStays(log, prior, id);
      RootMovesExactly(prior, Last(later), id);
    } else {
      assert log == later;
    }
    assert log == later[..|log|];
    ForestIsImmutable(log, later, id);
    HeadRootIs(log, id);
    HeadRootIs(later, id);
  }

  /** In a well-formed log no row ever moved the root of an entity that was there before. */
  lemma FaithfulRowMovesNoRoot(log: Log, t: Tx, id: EntityId)
    requires WellFormed(log + [t]) && Exists(log, id)
    ensures !MovesRoot(log, t, id)
  {
    Snoc(log, t);
    WellFormedIsChained(log + [t]);
    WalkAgrees(log, id);
    WalkAgrees(log + [t], id);
    assert (log + [t])[..|log|] == log;
    ForestIsImmutable(log, log + [t], id);
    RootMovesExactly(log, t, id);
  }

  lemma FaithfulLogsMoveNoRoot(log: Log, later: Log, id: EntityId)
    requires WellFormed(later) && log <= later && Exists(log, id)
    ensures RootUnmoved(log, later, id)
  {
    forall k | |log| <= k < |later| ensures !MovesRoot(later[..k], later[k], id) {
      assert later[..k] + [later[k]] == later[..k + 1];
      PrefixIsWellFormed(later[..k + 1], later);
      StillExists(log, later[..k], id);
      FaithfulRowMovesNoRoot(later[..k], later[k], id);
    }
  }

  lemma {:induction false} StillExists(log: Log, later: Log, id: EntityId)
    requires log <= later && Exists(log, id)
    ensures Exists(later, id)
    decreases |later|
  {
    if |log| < |later| { StillExists(log, Front(later), id); } else { assert log == later; }
  }
}
