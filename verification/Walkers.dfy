/** The readers that walk the parent relation with a bound, and the unbounded walks they must agree with. They read
  * current heads, so all of this is about every log, whatever types edits declared. */
module Walkers {
  import opened Wrappers
  import opened Iteration
  import opened Counting
  import opened RecordTypes
  import opened RecordLog
  import opened RecordShape
  import opened ParentWalks

  // ---- how long the walk to the root is ------------------------------------------------------------------

  /** How many parent links the walk to the root takes, if it ends. */
  function Hops(log: Log, id: EntityId): nat { Rises(Parents(log), id, |log|) }

  /** The entity and all its ancestors are undeleted. */
  ghost predicate ChainLive(log: Log, id: EntityId) {
    forall n: nat :: IsLive(log, Climb(Parents(log), id, n))
  }

  /** The walk ends, at an entity of a root type. */
  predicate Rooted(log: Log, id: EntityId) {
    && WalkRoot(log, id).Some? && Exists(log, WalkRoot(log, id).value)
    && IsRootType(Head(log, WalkRoot(log, id).value).value.env.typ)
  }

  lemma ShapedIsRooted(log: Log, id: EntityId)
    requires WellFormed(log) && Exists(log, id)
    ensures Rooted(log, id) && WalkRoot(log, id) == Some(RootOf(log, id))
  {
    WalkAgrees(log, id);
    RootedAndShallow(log, id);
  }

  lemma LinkHops(log: Log, id: EntityId)
    requires WalkRoot(log, id).Some? && Up(log, id).Some?
    ensures Hops(log, id) == 1 + Hops(log, Up(log, id).value)
  {
    RisesStable(Parents(log), Up(log, id).value, |log| - 1, |log|);
  }

  /** Where links were taken the walk goes on: after fewer steps than links it has not come to the root. */
  lemma HopsLead(log: Log, id: EntityId, n: nat)
    requires WalkRoot(log, id).Some?
    ensures Climb(Parents(log), id, Hops(log, id)) == WalkRoot(log, id).value
    ensures n < Hops(log, id) <==> Up(log, Climb(Parents(log), id, n)).Some?
  {
    RisesLead(Parents(log), id, |log|);
    if n >= Hops(log, id) { StopsLater(Parents(log), id, Hops(log, id), n); }
  }

  /** Roots and comments sit at most COMMENT_MAX_DEPTH links from their root, other attachments one more. */
  lemma {:induction false} HopsBounded(log: Log, id: EntityId)
    requires WellFormed(log) && Exists(log, id)
    ensures var t := Head(log, id).value.env.typ;
      && (IsRootType(t) || t == Comment ==> Hops(log, id) == DepthAt(log, id))
      && Hops(log, id) <= (if IsRootType(t) || t == Comment then COMMENT_MAX_DEPTH else 1 + COMMENT_MAX_DEPTH)
    decreases Born(log, id)
  {
    Forest(log, id);
    DepthBound(log, id);
    WalkAgrees(log, id);
    if !IsRootType(Head(log, id).value.env.typ) {
      HopsBounded(log, Up(log, id).value);
      LinkHops(log, id);
    }
  }

  // ---- the bounded walks --------------------------------------------------------------------------------

  /** The record-state walk reads four rows at most. It answers the root exactly when the whole chain is live, ends at a
    * root type and is short enough, and the entity itself otherwise. */
  method ResolveThreadId(log: Log, entityId: EntityId) returns (thread: EntityId)
    ensures thread == if Rooted(log, entityId) && ChainLive(log, entityId) && Hops(log, entityId) <= 3
      then WalkRoot(log, entityId).value else entityId
    ensures WellFormed(log) ==>
      thread == if ChainLive(log, entityId) && Hops(log, entityId) <= 3 then RootOf(log, entityId) else entityId
  {
    if WellFormed(log) && Exists(log, entityId) { ShapedIsRooted(log, entityId); }
    assert Climb(Parents(log), entityId, 0) == entityId;
    var cur := entityId;
    for depth := 0 to 4
      invariant cur == Climb(Parents(log), entityId, depth)
      invariant forall i: nat :: i < depth ==>
        var y := Climb(Parents(log), entityId, i); IsLive(log, y) && Up(log, y).Some?
    {
      var state := Head(log, cur);
      if state.None? || state.value.env.op == Delete { return entityId; }
      HeadFacts(log, cur);
      if IsRootType(state.value.env.typ) {
        ChainEnds(log, entityId, depth);
        return state.value.env.entityId;
      }
      if state.value.env.parentId.None? {
        ChainEnds(log, entityId, depth);
        return entityId;
      }
      ClimbJoin(Parents(log), entityId, depth, 1);
      cur := state.value.env.parentId.value;
    }
    if WalkRoot(log, entityId).Some? { HopsLead(log, entityId, 3); }
    thread := entityId;
  }

  /** A walk of live entities that stops for the first time after `n` links. */
  lemma ChainEnds(log: Log, id: EntityId, n: nat)
    requires Up(log, Climb(Parents(log), id, n)).None? && IsLive(log, Climb(Parents(log), id, n))
    requires forall i: nat :: i < n ==> var y := Climb(Parents(log), id, i); IsLive(log, y) && Up(log, y).Some?
    ensures ChainLive(log, id) && Hops(log, id) == n && WalkRoot(log, id) == Some(Climb(Parents(log), id, n))
  {
    RootOrNever(log, id, n);
    HopsLead(log, id, n);
    if n > 0 { HopsLead(log, id, n - 1); }
    forall k: nat ensures IsLive(log, Climb(Parents(log), id, k)) {
      if k >= n { StopsLater(Parents(log), id, n, k); }
    }
  }

  /** For every root and every comment whose chain is live, the four-step walk finds the real root. A reaction
    * on a comment at the deepest level is the one kind of live entity it cannot place. */
  lemma FourStepsSuffice(log: Log, id: EntityId)
    requires WellFormed(log) && ChainLive(log, id)
    ensures Exists(log, id) && (!IsRootType(Head(log, id).value.env.typ) ==> Up(log, id).Some?)
    ensures var t := Head(log, id).value.env.typ;
      && (IsRootType(t) || t == Comment ==> Hops(log, id) <= 3)
      && (Hops(log, id) > 3 <==> t == Reaction && DepthAt(log, Up(log, id).value) == COMMENT_MAX_DEPTH)
  {
    assert IsLive(log, Climb(Parents(log), id, 0));
    HopsBounded(log, id);
    Forest(log, id);
    WalkAgrees(log, id);
    if !IsRootType(Head(log, id).value.env.typ) {
      HopsBounded(log, Up(log, id).value);
      LinkHops(log, id);
    }
  }

  /** The parent a head names, whatever its type. */
  function Pointer(log: Log, id: EntityId): Option<EntityId> {
    match Head(log, id)
    case Some(t) => t.env.parentId
    case None => None
  }

  function Pointers(log: Log): EntityId -> Option<EntityId> { id => Pointer(log, id) }

  /** The projection's walk stops after eight pointers or at the first row without one, deleted or not. */
  method ProjectionRoot(log: Log, entityId: EntityId) returns (root: Option<Tx>)
    ensures root == if Exists(log, entityId) then Head(log, Climb(Pointers(log), entityId, 8)) else None
    ensures WellFormed(log) && Exists(log, entityId) ==>
      Exists(log, RootOf(log, entityId)) && root == Head(log, RootOf(log, entityId))
  {
    if WellFormed(log) && Exists(log, entityId) { ProjectionFindsRoot(log, entityId); }
    root := Head(log, entityId);
    if root.None? { return; }
    ghost var cur := entityId;
    var hops := 0;
    while root.Some? && root.value.env.parentId.Some? && hops < 8
      invariant hops <= 8 && root == Head(log, cur)
      invariant Climb(Pointers(log), cur, 8 - hops) == Climb(Pointers(log), entityId, 8)
      decreases 8 - hops
    {
      cur := root.value.env.parentId.value;
      root := Head(log, root.value.env.parentId.value);
      hops := hops + 1;
    }
  }

  /** Links are pointers, so the two walks go together until the walk to the root ends. */
  lemma {:induction false} PointersFollowLinks(log: Log, id: EntityId, n: nat)
    requires forall i: nat :: i < n ==> Up(log, Climb(Parents(log), id, i)).Some?
    ensures Climb(Pointers(log), id, n) == Climb(Parents(log), id, n)
    decreases n
  {
    if n > 0 {
      assert Climb(Parents(log), id, 0) == id;
      var p := Up(log, id).value;
      forall i: nat | i < n - 1 ensures Up(log, Climb(Parents(log), p, i)).Some? {
        assert Climb(Parents(log), id, i + 1) == Climb(Parents(log), p, i);
      }
      PointersFollowLinks(log, p, n - 1);
    }
  }

  /** Where the walk to the root ends, the projection comes to that root exactly when there are at most eight links and
    * the pointers that are left lead nowhere else; none are, unless a row of a root type names a parent. */
  lemma ProjectionExactly(log: Log, id: EntityId)
    requires WalkRoot(log, id).Some?
    ensures var r, n := WalkRoot(log, id).value, Hops(log, id);
      && (Climb(Pointers(log), id, 8) == r <==> n <= 8 && Climb(Pointers(log), r, 8 - n) == r)
      && (Pointer(log, r).None? ==> (Climb(Pointers(log), id, 8) == r <==> n <= 8))
  {
    var n := Hops(log, id);
    var m: nat := if n <= 8 then n else 8;
    forall i: nat | i < m ensures Up(log, Climb(Parents(log), id, i)).Some? { HopsLead(log, id, i); }
    PointersFollowLinks(log, id, m);
    HopsLead(log, id, m);
    if n <= 8 { ClimbJoin(Pointers(log), id, n, 8 - n); }
  }

  lemma ProjectionFindsRoot(log: Log, id: EntityId)
    requires WellFormed(log) && Exists(log, id)
    ensures Exists(log, RootOf(log, id)) && Climb(Pointers(log), id, 8) == RootOf(log, id)
  {
    ShapedIsRooted(log, id);
    HopsBounded(log, id);
    Forest(log, RootOf(log, id));
    ProjectionExactly(log, id);
  }

  // ---- the comment relation -------------------------------------------------------------------------------

  datatype ThreadComment = ThreadComment(id: EntityId, replies: seq<ThreadComment>)

  predicate IsCommentOn(log: Log, c: EntityId, parent: EntityId) {
    Exists(log, c) && Head(log, c).value.env.typ == Comment && Head(log, c).value.env.parentId == Some(parent)
  }

  /** The child query: every comment on the parent once, in an order the model leaves open. */
  ghost predicate Lists(log: Log, kids: EntityId -> seq<EntityId>) {
    && (forall p, c :: c in kids(p) <==> IsCommentOn(log, c, p))
    && (forall p, i, j :: 0 <= i < j < |kids(p)| ==> kids(p)[i] != kids(p)[j])
  }

  /** Going up from live comment to parent leads from `x` to `p` in exactly `n` steps. */
  predicate Reaches(log: Log, x: EntityId, p: EntityId, n: nat)
    decreases n
  {
    if n == 0 then x == p
    else
      && IsLive(log, x) && Head(log, x).value.env.typ == Comment && Head(log, x).value.env.parentId.Some?
      && Reaches(log, Head(log, x).value.env.parentId.value, p, n - 1)
  }

  /** A live comment below `p` whose comment ancestors up to `p` are all live. */
  ghost predicate Under(log: Log, p: EntityId, x: EntityId) {
    exists n: nat :: n > 0 && Reaches(log, x, p, n)
  }

  lemma {:induction false} ReachesJoin(log: Log, x: EntityId, y: EntityId, z: EntityId, m: nat, n: nat)
    requires Reaches(log, x, y, m) && Reaches(log, y, z, n)
    ensures Reaches(log, x, z, m + n)
    decreases m
  {
    if m > 0 { ReachesJoin(log, Head(log, x).value.env.parentId.value, y, z, m - 1, n); }
  }

  lemma {:induction false} ReachesSplit(log: Log, x: EntityId, z: EntityId, m: nat, n: nat) returns (y: EntityId)
    requires Reaches(log, x, z, m + n)
    ensures Reaches(log, x, y, m) && Reaches(log, y, z, n)
    decreases m
  {
    if m == 0 { y := x; } else { y := ReachesSplit(log, Head(log, x).value.env.parentId.value, z, m - 1, n); }
  }

  lemma UnderTransitive(log: Log, p: EntityId, c: EntityId, x: EntityId)
    requires Under(log, p, c) && Under(log, c, x)
    ensures Under(log, p, x)
  {
    var m: nat :| m > 0 && Reaches(log, x, c, m);
    var n: nat :| n > 0 && Reaches(log, c, p, n);
    ReachesJoin(log, x, c, p, m, n);
  }

  lemma ChildIsUnder(log: Log, p: EntityId, c: EntityId)
    requires IsCommentOn(log, c, p) && IsLive(log, c)
    ensures Under(log, p, c)
  {
    assert Reaches(log, p, p, 0) && Reaches(log, c, p, 1);
  }

  ghost function Below(log: Log, p: EntityId): set<EntityId> { set x | x in Ids(log) && Under(log, p, x) }

  lemma UnderIsBelow(log: Log, p: EntityId, x: EntityId)
    requires Under(log, p, x)
    ensures x in Below(log, p)
  {
    HeadFacts(log, x);
  }

  /** A parent that is not under itself has children that are not either, with fewer comments below. */
  lemma ChildShrinks(log: Log, p: EntityId, c: EntityId)
    requires !Under(log, p, p) && IsCommentOn(log, c, p) && IsLive(log, c)
    ensures !Under(log, c, c) && |Below(log, c)| < |Below(log, p)|
  {
    ChildIsUnder(log, p, c);
    if Under(log, c, c) {
      var n: nat :| n > 0 && Reaches(log, c, c, n);
      assert Reaches(log, p, c, n - 1);
      if n > 1 { UnderTransitive(log, p, c, p); }
    }
    forall x | x in Below(log, c) ensures x in Below(log, p) {
      UnderTransitive(log, p, c, x);
      UnderIsBelow(log, p, x);
    }
    UnderIsBelow(log, p, c);
    SubsetSize(Below(log, c), Below(log, p) - {c});
  }

  /** An entity whose walk to the root ends is not under itself. */
  lemma RootedIsNotUnderItself(log: Log, p: EntityId)
    requires WalkRoot(log, p).Some?
    ensures !Under(log, p, p)
  {
    if Under(log, p, p) {
      var n: nat :| n > 0 && Reaches(log, p, p, n);
      ReachesClimbs(log, p, p, n);
      CircleNeverEnds(Parents(log), p, n, |log|);
    }
  }

  lemma {:induction false} ReachesClimbs(log: Log, x: EntityId, p: EntityId, n: nat)
    requires Reaches(log, x, p, n)
    ensures Climb(Parents(log), x, n) == p
    decreases n
  {
    if n > 0 { ReachesClimbs(log, Head(log, x).value.env.parentId.value, p, n - 1); }
  }

  // ---- when the tree ends ------------------------------------------------------------------------------------

  /** Collecting below `p` makes `n` calls inside each other. */
  predicate Descends(log: Log, kids: EntityId -> seq<EntityId>, p: EntityId, n: nat)
    decreases n
  {
    n == 0 || exists k | 0 <= k < |kids(p)| :: IsLive(log, kids(p)[k]) && Descends(log, kids, kids(p)[k], n - 1)
  }

  /** Some chain of live comments is `n` long. */
  ghost predicate ChainBelow(log: Log, p: EntityId, n: nat) { exists x :: Reaches(log, x, p, n) }

  lemma {:induction false} DescendsExactly(log: Log, kids: EntityId -> seq<EntityId>, p: EntityId, n: nat)
    requires Lists(log, kids)
    ensures Descends(log, kids, p, n) <==> ChainBelow(log, p, n)
    decreases n
  {
    if n == 0 {
      assert Reaches(log, p, p, 0);
    } else {
      if k :| 0 <= k < |kids(p)| && IsLive(log, kids(p)[k]) && Descends(log, kids, kids(p)[k], n - 1) {
        var c := kids(p)[k];
        assert c in kids(p);
        DescendsExactly(log, kids, c, n - 1);
        var x :| Reaches(log, x, c, n - 1);
        assert Reaches(log, p, p, 0) && Reaches(log, c, p, 1);
        ReachesJoin(log, x, c, p, n - 1, 1);
      }
      if x :| Reaches(log, x, p, n) {
        var c := ReachesSplit(log, x, p, n - 1, 1);
        assert Reaches(log, Head(log, c).value.env.parentId.value, p, 0) && c in kids(p);
        var k :| 0 <= k < |kids(p)| && kids(p)[k] == c;
        assert ChainBelow(log, c, n - 1);
        DescendsExactly(log, kids, c, n - 1);
        assert IsLive(log, kids(p)[k]) && Descends(log, kids, kids(p)[k], n - 1);
      }
    }
  }

  lemma {:induction false} DescendsBounded(log: Log, kids: EntityId -> seq<EntityId>, p: EntityId, n: nat)
    requires Lists(log, kids) && !Under(log, p, p) && Descends(log, kids, p, n)
    ensures n <= |Below(log, p)|
    decreases n
  {
    if n > 0 {
      var k :| 0 <= k < |kids(p)| && IsLive(log, kids(p)[k]) && Descends(log, kids, kids(p)[k], n - 1);
      assert kids(p)[k] in kids(p);
      ChildShrinks(log, p, kids(p)[k]);
      DescendsBounded(log, kids, kids(p)[k], n - 1);
    }
  }

  /** Round and round: from an entity under itself there are chains of every length. */
  lemma {:induction false} RoundAndRound(log: Log, p: EntityId, lap: nat, n: nat)
    requires lap > 0 && Reaches(log, p, p, lap)
    ensures ChainBelow(log, p, n)
    decreases n
  {
    if n < lap {
      var y := ReachesSplit(log, p, p, lap - n, n);
    } else {
      RoundAndRound(log, p, lap, n - lap);
      var x :| Reaches(log, x, p, n - lap);
      ReachesJoin(log, x, p, p, n - lap, lap);
    }
  }

  /** Collecting the tree below an entity goes on for ever if and only if the entity is a live comment under itself. */
  lemma TreeEndsExactly(log: Log, kids: EntityId -> seq<EntityId>, p: EntityId)
    requires Lists(log, kids)
    ensures (forall n: nat :: Descends(log, kids, p, n)) <==> Under(log, p, p)
  {
    if Under(log, p, p) {
      var lap: nat :| lap > 0 && Reaches(log, p, p, lap);
      forall n: nat ensures Descends(log, kids, p, n) {
        RoundAndRound(log, p, lap, n);
        DescendsExactly(log, kids, p, n);
      }
    } else {
      var n := 1 + |Below(log, p)|;
      if Descends(log, kids, p, n) { DescendsBounded(log, kids, p, n); }
      assert !Descends(log, kids, p, n);
    }
  }

  // ---- the comment tree ----------------------------------------------------------------------------------

  /** The tree under the parent's children from position `k` on; deleted comments take their replies along. */
  ghost function TreeFrom(log: Log, kids: EntityId -> seq<EntityId>, p: EntityId, k: nat): seq<ThreadComment>
    requires Lists(log, kids) && !Under(log, p, p) && k <= |kids(p)|
    decreases |Below(log, p)|, |kids(p)| - k
  {
    if k == |kids(p)| then []
    else
      var c, rest := kids(p)[k], TreeFrom(log, kids, p, k + 1);
      assert c in kids(p);
      if IsLive(log, c) then
        ChildShrinks(log, p, c);
        [ThreadComment(c, TreeFrom(log, kids, c, 0))] + rest
      else rest
  }

  /** The recursive loop ends wherever the tree does, and builds it. */
  method CommentTree(log: Log, kids: EntityId -> seq<EntityId>, parentId: EntityId) returns (out: seq<ThreadComment>)
    requires Lists(log, kids) && !Under(log, parentId, parentId)
    ensures out == TreeFrom(log, kids, parentId, 0)
    decreases |Below(log, parentId)|
  {
    var children := kids(parentId);
    out := [];
    for k := 0 to |children|
      invariant out + TreeFrom(log, kids, parentId, k) == TreeFrom(log, kids, parentId, 0)
    {
      ghost var before := out;
      assert children[k] in kids(parentId);
      if IsLive(log, children[k]) {
        ChildShrinks(log, parentId, children[k]);
        var replies := CommentTree(log, kids, children[k]);
        out := out + [ThreadComment(children[k], replies)];
      }
      assert out + TreeFrom(log, kids, parentId, k + 1) == before + TreeFrom(log, kids, parentId, k);
    }
  }

  /** The same, cut below `n` levels; defined on every log. */
  function CappedFrom(log: Log, kids: EntityId -> seq<EntityId>, p: EntityId, k: nat, n: nat): seq<ThreadComment>
    requires k <= |kids(p)|
    decreases n, |kids(p)| - k
  {
    if n == 0 || k == |kids(p)| then []
    else
      var c, rest := kids(p)[k], CappedFrom(log, kids, p, k + 1, n);
      if IsLive(log, c) then [ThreadComment(c, CappedFrom(log, kids, c, 0, n - 1))] + rest else rest
  }

  /** The persona page's collector ends on every log, circles included, because of its depth cap. */
  method CollectTree(log: Log, kids: EntityId -> seq<EntityId>, parentId: EntityId, depth: nat)
    returns (out: seq<ThreadComment>)
    ensures out == CappedFrom(log, kids, parentId, 0, if depth > COMMENT_MAX_DEPTH then 0
      else COMMENT_MAX_DEPTH + 1 - depth)
    decreases COMMENT_MAX_DEPTH + 1 - depth
  {
    if depth > COMMENT_MAX_DEPTH { return []; }
    var children := kids(parentId);
    ghost var n := COMMENT_MAX_DEPTH + 1 - depth;
    out := [];
    for k := 0 to |children|
      invariant out + CappedFrom(log, kids, parentId, k, n) == CappedFrom(log, kids, parentId, 0, n)
    {
      ghost var before := out;
      if IsLive(log, children[k]) {
        var replies := CollectTree(log, kids, children[k], depth + 1);
        out := out + [ThreadComment(children[k], replies)];
      }
      assert out + CappedFrom(log, kids, parentId, k + 1, n) == before + CappedFrom(log, kids, parentId, k, n);
    }
  }

  /** Cut a tree below `n` levels. */
  function Truncate(ts: seq<ThreadComment>, n: nat): seq<ThreadComment> {
    if n == 0 || ts == [] then []
    else [ThreadComment(ts[0].id, Truncate(ts[0].replies, n - 1))] + Truncate(ts[1..], n)
  }

  /** Where the whole tree exists, the capped tree is that tree cut below `n` levels. */
  lemma {:induction false} CappedIsCut(log: Log, kids: EntityId -> seq<EntityId>, p: EntityId, k: nat, n: nat)
    requires Lists(log, kids) && !Under(log, p, p) && k <= |kids(p)|
    ensures CappedFrom(log, kids, p, k, n) == Truncate(TreeFrom(log, kids, p, k), n)
    decreases n, |kids(p)| - k
  {
    if n > 0 && k < |kids(p)| {
      var c, ts, rest := kids(p)[k], TreeFrom(log, kids, p, k), TreeFrom(log, kids, p, k + 1);
      assert c in kids(p);
      CappedIsCut(log, kids, p, k + 1, n);
      if IsLive(log, c) {
        ChildShrinks(log, p, c);
        CappedIsCut(log, kids, c, 0, n - 1);
        assert ts[0] == ThreadComment(c, TreeFrom(log, kids, c, 0)) && ts[1..] == rest;
      }
    }
  }

  // ---- what the trees list --------------------------------------------------------------------------------

  predicate Mentions(ts: seq<ThreadComment>, c: EntityId) {
    ts != [] && (ts[0].id == c || Mentions(ts[0].replies, c) || Mentions(ts[1..], c))
  }

  /** The capped tree lists `x` at the parent's child `i`. */
  predicate CappedMentionAt(log: Log, kids: EntityId -> seq<EntityId>, p: EntityId, i: nat, n: nat, x: EntityId)
    requires i < |kids(p)| && n > 0
  {
    IsLive(log, kids(p)[i]) && (kids(p)[i] == x || Mentions(CappedFrom(log, kids, kids(p)[i], 0, n - 1), x))
  }

  lemma {:induction false} CappedMentions(log: Log, kids: EntityId -> seq<EntityId>, p: EntityId, k: nat, n: nat,
        x: EntityId)
    requires Lists(log, kids) && k <= |kids(p)| && n > 0
    ensures Mentions(CappedFrom(log, kids, p, k, n), x) <==>
      exists i :: k <= i < |kids(p)| && CappedMentionAt(log, kids, p, i, n, x)
    decreases |kids(p)| - k
  {
    if k < |kids(p)| {
      var c, ts, rest := kids(p)[k], CappedFrom(log, kids, p, k, n), CappedFrom(log, kids, p, k + 1, n);
      CappedMentions(log, kids, p, k + 1, n, x);
      if IsLive(log, c) { assert ts[0] == ThreadComment(c, CappedFrom(log, kids, c, 0, n - 1)) && ts[1..] == rest; }
      assert Mentions(ts, x) <==> CappedMentionAt(log, kids, p, k, n, x) || Mentions(rest, x);
    }
  }

  lemma {:induction false} TreeMentions(log: Log, kids: EntityId -> seq<EntityId>, p: EntityId, k: nat, x: EntityId)
    requires Lists(log, kids) && !Under(log, p, p) && k <= |kids(p)|
    ensures Mentions(TreeFrom(log, kids, p, k), x) <==>
      exists i :: k <= i < |kids(p)| && MentionedAt(log, kids, p, i, x)
    decreases |kids(p)| - k
  {
    if k < |kids(p)| {
      var c, ts, rest := kids(p)[k], TreeFrom(log, kids, p, k), TreeFrom(log, kids, p, k + 1);
      assert c in kids(p);
      TreeMentions(log, kids, p, k + 1, x);
      if IsLive(log, c) {
        ChildShrinks(log, p, c);
        assert ts[0] == ThreadComment(c, TreeFrom(log, kids, c, 0)) && ts[1..] == rest;
      }
      assert Mentions(ts, x) <==> MentionedAt(log, kids, p, k, x) || Mentions(rest, x);
    }
  }

  /** The tree lists `x` at the parent's child `i`. */
  ghost predicate MentionedAt(log: Log, kids: EntityId -> seq<EntityId>, p: EntityId, i: nat, x: EntityId)
    requires Lists(log, kids) && !Under(log, p, p) && i < |kids(p)|
  {
    var c := kids(p)[i];
    assert c in kids(p);
    IsLive(log, c) && (ChildShrinks(log, p, c); c == x || Mentions(TreeFrom(log, kids, c, 0), x))
  }

  /** The tree lists exactly the live comments reached through live comments. */
  lemma {:induction false} TreeListsExactly(log: Log, kids: EntityId -> seq<EntityId>, p: EntityId, x: EntityId)
    requires Lists(log, kids) && !Under(log, p, p)
    ensures Mentions(TreeFrom(log, kids, p, 0), x) <==> Under(log, p, x)
    decreases |Below(log, p)|
  {
    TreeMentions(log, kids, p, 0, x);
    if i :| 0 <= i < |kids(p)| && MentionedAt(log, kids, p, i, x) {
      var c := kids(p)[i];
      assert c in kids(p);
      ChildShrinks(log, p, c);
      ChildIsUnder(log, p, c);
      TreeListsExactly(log, kids, c, x);
      if c != x { UnderTransitive(log, p, c, x); }
    }
    if Under(log, p, x) {
      var n: nat :| n > 0 && Reaches(log, x, p, n);
      var c := ReachesSplit(log, x, p, n - 1, 1);
      assert Reaches(log, Head(log, c).value.env.parentId.value, p, 0) && c in kids(p);
      var i: nat :| i < |kids(p)| && kids(p)[i] == c;
      ChildShrinks(log, p, c);
      TreeListsExactly(log, kids, c, x);
      assert MentionedAt(log, kids, p, i, x);
    }
  }

  ghost predicate ReachesWithin(log: Log, x: EntityId, p: EntityId, n: nat) {
    exists m: nat :: 0 < m <= n && Reaches(log, x, p, m)
  }

  /** On every log the capped tree lists exactly the live comments at most `n` steps below. */
  lemma {:induction false} CappedListsExactly(log: Log, kids: EntityId -> seq<EntityId>, p: EntityId, n: nat,
        x: EntityId)
    requires Lists(log, kids)
    ensures Mentions(CappedFrom(log, kids, p, 0, n), x) <==> ReachesWithin(log, x, p, n)
    decreases n
  {
    if n > 0 {
      CappedMentions(log, kids, p, 0, n, x);
      if i :| 0 <= i < |kids(p)| && CappedMentionAt(log, kids, p, i, n, x) {
        var c := kids(p)[i];
        assert c in kids(p) && Reaches(log, p, p, 0) && Reaches(log, c, p, 1);
        CappedListsExactly(log, kids, c, n - 1, x);
        if c != x {
          var m: nat :| 0 < m <= n - 1 && Reaches(log, x, c, m);
          ReachesJoin(log, x, c, p, m, 1);
        }
      }
      if m: nat :| 0 < m <= n && Reaches(log, x, p, m) {
        var c := ReachesSplit(log, x, p, m - 1, 1);
        assert Reaches(log, Head(log, c).value.env.parentId.value, p, 0) && c in kids(p);
        var i: nat :| i < |kids(p)| && kids(p)[i] == c;
        CappedListsExactly(log, kids, c, n - 1, x);
        if m > 1 { assert ReachesWithin(log, x, c, n - 1); }
        assert CappedMentionAt(log, kids, p, i, n, x);
      }
    }
  }

  // ---- what the cap cuts -----------------------------------------------------------------------------------

  /** No child from position `k` on has a chain of `n` calls below it. */
  predicate Shallow(log: Log, kids: EntityId -> seq<EntityId>, p: EntityId, k: nat, n: nat) {
    forall i | k <= i < |kids(p)| :: IsLive(log, kids(p)[i]) ==> !Descends(log, kids, kids(p)[i], n)
  }

  /** Where the whole tree exists, the cap cuts nothing if and only if no chain of live comments is longer than it. */
  lemma {:induction false} CapCutsNothing(log: Log, kids: EntityId -> seq<EntityId>, p: EntityId, k: nat, n: nat)
    requires Lists(log, kids) && !Under(log, p, p) && k <= |kids(p)|
    ensures CappedFrom(log, kids, p, k, n) == TreeFrom(log, kids, p, k) <==> Shallow(log, kids, p, k, n)
    ensures k == 0 ==> (Shallow(log, kids, p, k, n) <==> !Descends(log, kids, p, n + 1))
    decreases n, |kids(p)| - k
  {
    if k < |kids(p)| {
      var c, capped, ts := kids(p)[k], CappedFrom(log, kids, p, k, n), TreeFrom(log, kids, p, k);
      assert c in kids(p);
      CapCutsNothing(log, kids, p, k + 1, n);
      if IsLive(log, c) {
        ChildShrinks(log, p, c);
        assert ts[0] == ThreadComment(c, TreeFrom(log, kids, c, 0)) && ts[1..] == TreeFrom(log, kids, p, k + 1);
        if n > 0 {
          CapCutsNothing(log, kids, c, 0, n - 1);
          assert capped[0] == ThreadComment(c, CappedFrom(log, kids, c, 0, n - 1));
          assert capped[1..] == CappedFrom(log, kids, p, k + 1, n);
        } else {
          assert Descends(log, kids, c, 0);
        }
      }
    }
  }

  /** On a well-formed log comments nest at most COMMENT_MAX_DEPTH deep, so no chain is longer than the collector's
    * cap. */
  lemma {:induction false} ShapedIsShallow(log: Log, kids: EntityId -> seq<EntityId>, p: EntityId, n: nat)
    requires WellFormed(log) && Lists(log, kids) && Descends(log, kids, p, n)
    ensures n > 0 ==> n + DepthAt(log, p) <= COMMENT_MAX_DEPTH
    decreases n
  {
    if n > 0 {
      var k :| 0 <= k < |kids(p)| && IsLive(log, kids(p)[k]) && Descends(log, kids, kids(p)[k], n - 1);
      var c := kids(p)[k];
      assert c in kids(p);
      Forest(log, c);
      DepthBound(log, c);
      ShapedIsShallow(log, kids, c, n - 1);
    }
  }

  /** So on a well-formed log both collectors build the same tree, below any entity. */
  lemma CollectorsAgree(log: Log, kids: EntityId -> seq<EntityId>, p: EntityId)
    requires WellFormed(log) && Lists(log, kids)
    ensures !Under(log, p, p)
    ensures CappedFrom(log, kids, p, 0, COMMENT_MAX_DEPTH + 1) == TreeFrom(log, kids, p, 0)
  {
    WalkAgrees(log, p);
    RootedIsNotUnderItself(log, p);
    if Descends(log, kids, p, COMMENT_MAX_DEPTH + 2) { ShapedIsShallow(log, kids, p, COMMENT_MAX_DEPTH + 2); }
    CapCutsNothing(log, kids, p, 0, COMMENT_MAX_DEPTH + 1);
  }
}
