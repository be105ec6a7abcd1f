/** When the walks over parents end. They read current heads, so they end because of what calls left there. */
module ParentWalks {
  import opened Wrappers
  import opened Iteration
  import opened RecordTypes
  import opened RecordLog
  import opened RecordShape
  import opened RecordSpec
  import opened RecordRuns

  function Ids(log: Log): set<EntityId> { set t | t in log :: t.env.entityId }

  lemma {:induction false} FewIds(log: Log)
    ensures |Ids(log)| <= |log|
  {
    if |log| > 0 {
      FewIds(Front(log));
      assert log == Front(log) + [Last(log)];
      assert Ids(log) == Ids(Front(log)) + {Last(log).env.entityId};
    }
  }

  /** A walk that has not stopped after as many steps as there are rows goes on for ever: the search for the root
    * either answers within that many steps or never. */
  lemma RootOrNever(log: Log, id: EntityId, n: nat)
    requires Stops(Parents(log), id, n)
    ensures WalkRoot(log, id) == Some(Climb(Parents(log), id, n))
  {
    forall y | Parents(log)(y).Some? ensures y in Ids(log) { HeadFacts(log, y); }
    StopsSoonOrNever(Parents(log), id, n, Ids(log));
    FewIds(log);
    StopsLater(Parents(log), id, |Ids(log)|, |log|);
    if n <= |log| { StopsLater(Parents(log), id, n, |log|); } else { StopsLater(Parents(log), id, |log|, n); }
  }

  // ---- parents are older --------------------------------------------------------------------------------------

  /** In every chained log an entity that names its parent in full is younger than that parent. */
  lemma {:induction false} ParentsAreOlder(log: Log, id: EntityId)
    requires Chained(log) && Exists(log, id)
    ensures Born(log, id) < |log|
    ensures var p := ParentOf(Head(log, id).value.env);
      p.Some? ==> Exists(log, p.value.id) && Born(log, p.value.id) < Born(log, id)
  {
    var prior, t := Front(log), Last(log);
    if t.env.entityId != id || t.env.op != Create { ParentsAreOlder(prior, id); }
    if t.env.op == Create && ParentOf(t.env).Some? { ParentsAreOlder(prior, ParentOf(t.env).value.id); }
  }

  /** A row that a walk can leave for an entity it never properly attached to: a bare parent id under a declared type
    * that is no root type. */
  predicate Adrift(e: Envelope) { !IsRootType(e.typ) && e.parentId.Some? && e.parentType.None? }

  ghost predicate Grounded(log: Log) { forall id :: Exists(log, id) ==> !Adrift(Head(log, id).value.env) }

  lemma {:induction false} ClimbEnds(log: Log, id: EntityId, n: nat)
    requires Chained(log) && Grounded(log) && Exists(log, id) && n >= Born(log, id)
    ensures Stops(Parents(log), id, n)
    decreases Born(log, id)
  {
    ParentsAreOlder(log, id);
    var e := Head(log, id).value.env;
    if !IsRootType(e.typ) && e.parentId.Some? { ClimbEnds(log, e.parentId.value, n - 1); }
  }

  lemma {:induction false} DepthEnds(log: Log, id: EntityId, n: nat)
    requires Chained(log) && Exists(log, id) && n >= Born(log, id)
    ensures var top := Climb(CommentParents(log), id, n); CommentUp(log, top).None? && Exists(log, top)
    decreases Born(log, id)
  {
    ParentsAreOlder(log, id);
    var e := Head(log, id).value.env;
    if e.parentType == Some(Comment) && e.parentId.Some? { DepthEnds(log, e.parentId.value, n - 1); }
  }

  /** The walks of the service end from everywhere. */
  ghost predicate WalksEnd(log: Log) {
    && (forall id :: WalkRoot(log, id).Some?)
    && forall id :: CommentUp(log, Climb(CommentParents(log), id, |log|)).None?
  }

  /** On a chained log the nesting walk ends from everywhere, and the walk to the root does so if no head is adrift. */
  lemma GroundedWalksEnd(log: Log)
    requires Chained(log) && Grounded(log)
    ensures WalksEnd(log)
  {
    forall id ensures WalkRoot(log, id).Some? {
      if Exists(log, id) { ParentsAreOlder(log, id); ClimbEnds(log, id, |log|); }
    }
    DepthsEnd(log);
  }

  /** The nesting walk ends from everywhere in every chained log. */
  lemma DepthsEnd(log: Log)
    requires Chained(log)
    ensures forall id :: CommentUp(log, Climb(CommentParents(log), id, |log|)).None?
  {
    forall id ensures CommentUp(log, Climb(CommentParents(log), id, |log|)).None? {
      if Exists(log, id) { ParentsAreOlder(log, id); DepthEnds(log, id, |log|); }
    }
  }

  /** A row keeps a log grounded exactly when it is not adrift itself. */
  lemma GroundedExactly(log: Log, t: Tx)
    requires Grounded(log)
    ensures Grounded(log + [t]) <==> !Adrift(t.env)
  {
    Snoc(log, t);
    assert Head(log + [t], t.env.entityId) == Some(t);
    forall id | id != t.env.entityId ensures Head(log + [t], id) == Head(log, id) {}
  }

  // ---- which calls set a log adrift ---------------------------------------------------------------------------

  predicate NamesBareParent(e: Envelope) { e.parentId.Some? && e.parentType.None? }

  /** If every create names its parent in full, no row is adrift whatever types edits declare. */
  lemma {:induction false} FullNamesStayGrounded(log: Log, t: Tx)
    requires Chained(log) && t in log && forall x | x in log && x.env.op == Create :: !NamesBareParent(x.env)
    ensures !NamesBareParent(t.env)
  {
    assert log == Front(log) + [Last(log)];
    if t in Front(log) {
      FullNamesStayGrounded(Front(log), t);
    } else if t.env.op != Create {
      HeadFacts(Front(log), t.env.entityId);
      FullNamesStayGrounded(Front(log), Head(Front(log), t.env.entityId).value);
    }
  }

  /** No edit declares a non-root type for an entity whose head is of a root type. */
  predicate RootsStay(log: Log) {
    |log| == 0 || (RootsStay(Front(log)) && KeepsRoot(Front(log), Last(log).env))
  }

  predicate KeepsRoot(log: Log, e: Envelope) {
    var h := Head(log, e.entityId);
    e.op != Create && h.Some? && IsRootType(h.value.env.typ) ==> IsRootType(e.typ)
  }

  /** If no edit makes a root type a non-root type, no row is adrift whatever creates name. */
  lemma {:induction false} StayingRootsStayGrounded(log: Log, t: Tx)
    requires Chained(log) && RootsStay(log) && t in log
    ensures !IsRootType(t.env.typ) ==> ParentOf(t.env).Some?
  {
    assert log == Front(log) + [Last(log)];
    if t in Front(log) {
      StayingRootsStayGrounded(Front(log), t);
    } else if t.env.op != Create {
      HeadFacts(Front(log), t.env.entityId);
      StayingRootsStayGrounded(Front(log), Head(Front(log), t.env.entityId).value);
    }
  }

  /** The walks end from everywhere in every run that avoids either of the two forms: creates that name a bare parent
    * id, and edits that make a root type a non-root type. */
  lemma WalksEndWithoutEither(o: Oracle, evs: seq<Timed>)
    requires CollisionFree(o)
    requires var log := Run(o, EMPTY, evs).st.log;
      RootsStay(log) || forall x | x in log && x.env.op == Create :: !NamesBareParent(x.env)
    ensures WalksEnd(Run(o, EMPTY, evs).st.log)
  {
    RunKeeps(o, evs);
    var log := Run(o, EMPTY, evs).st.log;
    forall id | Exists(log, id) ensures !Adrift(Head(log, id).value.env) {
      HeadFacts(log, id);
      if RootsStay(log) {
        StayingRootsStayGrounded(log, Head(log, id).value);
      } else {
        FullNamesStayGrounded(log, Head(log, id).value);
      }
    }
    GroundedWalksEnd(log);
  }

  /** More exactly: in every run the walks end from everywhere as long as no appended row is adrift. */
  lemma WalksEndWhileGrounded(o: Oracle, evs: seq<Timed>)
    requires CollisionFree(o) && Grounded(Run(o, EMPTY, evs).st.log)
    ensures WalksEnd(Run(o, EMPTY, evs).st.log)
  {
    RunKeeps(o, evs);
    GroundedWalksEnd(Run(o, EMPTY, evs).st.log);
  }

  // ---- exactly when a row ends the ending -----------------------------------------------------------------------

  /** The row names, under a type that is no root type, a parent from which the walk to the root comes to the entity
    * itself. Once a walk has made as many steps as there are rows, it comes to no new place. */
  predicate ClosesCircle(log: Log, e: Envelope) {
    && !IsRootType(e.typ) && e.parentId.Some?
    && OnTheWalk(log, e.parentId.value, e.entityId)
  }

  predicate OnTheWalk(log: Log, from: EntityId, id: EntityId) {
    exists n: nat | n <= |log| :: Climb(Parents(log), from, n) == id
  }

  lemma RootsFoundExactly(log: Log)
    ensures EndsEverywhere(Parents(log)) <==> forall id :: WalkRoot(log, id).Some?
  {
    forall id ensures EndsFrom(Parents(log), id) <==> WalkRoot(log, id).Some? { RootFoundExactly(log, id); }
    if forall id :: WalkRoot(log, id).Some? {
      forall id ensures EndsFrom(Parents(log), id) { assert WalkRoot(log, id).Some?; }
    }
  }

  lemma RootFoundExactly(log: Log, id: EntityId)
    ensures EndsFrom(Parents(log), id) <==> WalkRoot(log, id).Some?
  {
    if EndsFrom(Parents(log), id) {
      var n: nat :| Stops(Parents(log), id, n);
      RootOrNever(log, id, n);
    } else {
      assert !Stops(Parents(log), id, |log|);
    }
  }

  lemma MetSoonOrNever(log: Log, from: EntityId, id: EntityId)
    ensures Meets(Parents(log), from, id) <==> OnTheWalk(log, from, id)
  {
    if Meets(Parents(log), from, id) {
      var n: nat :| Climb(Parents(log), from, n) == id;
      forall y | Parents(log)(y).Some? ensures y in Ids(log) { HeadFacts(log, y); }
      var first := MeetsSoonOrNever(Parents(log), from, id, n, Ids(log));
      FewIds(log);
      assert Climb(Parents(log), from, first) == id;
    }
  }

  /** Appending a row keeps every walk to the root ending exactly when the row does not close a circle. */
  lemma RowKeepsRootsFound(log: Log, t: Tx)
    requires forall id :: WalkRoot(log, id).Some?
    ensures (forall id :: WalkRoot(log + [t], id).Some?) <==> !ClosesCircle(log, t.env)
  {
    var next, other, x := Parents(log), Parents(log + [t]), t.env.entityId;
    Snoc(log, t);
    assert Up(log + [t], x) == if IsRootType(t.env.typ) then None else t.env.parentId;
    forall y | y != x ensures other(y) == next(y) { assert Head(log + [t], y) == Head(log, y); }
    RootsFoundExactly(log);
    RootsFoundExactly(log + [t]);
    RedirectedExactly(next, other, x);
    if other(x).Some? { MetSoonOrNever(log, other(x).value, x); }
  }

  /** The exact condition, one step of any run at a time: as long as all walks end, a step keeps them ending if and only
    * if what it appends does not close a circle. */
  lemma WalksEndExactly(o: Oracle, m: Machine, ev: Timed)
    requires CollisionFree(o) && Inv(o, m) && WalksEnd(m.st.log)
    ensures WalksEnd(Step(o, m, ev).st.log) <==>
      (Appending(m, ev.event).Some? ==> !ClosesCircle(m.st.log, Appending(m, ev.event).value))
  {
    StepKeeps(o, m, ev);
    StepLog(o, m, ev);
    if Appending(m, ev.event).Some? {
      var e := Appending(m, ev.event).value;
      RowKeepsWalksEnd(m.st.log, Tx(e, o.leafHash(e)));
    }
  }

  lemma RowKeepsWalksEnd(log: Log, t: Tx)
    requires WalksEnd(log) && Chained(log + [t])
    ensures WalksEnd(log + [t]) <==> !ClosesCircle(log, t.env)
  {
    DepthsEnd(log + [t]);
    RowKeepsRootsFound(log, t);
  }

  lemma StepLog(o: Oracle, m: Machine, ev: Timed)
    ensures Step(o, m, ev).st.log == match Appending(m, ev.event)
      case Some(e) => m.st.log + [Tx(e, o.leafHash(e))]
      case None => m.st.log
  {
  }

  // ---- a run whose walk never ends ----------------------------------------------------------------------------

  /** A post that names itself as its bare parent, then an edit that declares it a comment: both are accepted, and every
    * number of steps from it stays at it, so no create under it ever returns. */
  lemma TwoCallsMakeACircle(n: nat)
    ensures var o := DemoOracle();
      var make := Submission(DemoEnvelope(1, Post, Create, Some(10), None), 0, DEMO_BODY, DEMO_GATE);
      var edit := Submission(DemoEnvelope(2, Comment, Update, Some(10), Some(1)), 0, DEMO_BODY, DEMO_GATE);
      var (first, a) := Submit(o, DemoStore([]), make, 0);
      var (second, b) := Submit(o, first, edit, 0);
      && DemoStore([]) == JoinThread(EMPTY.st, Pubkey(1), ThreadKey(1, 10, 1))
      && a.Ok? && b.Ok? && Head(second.log, 10) == Some(Tx(edit.env, 2))
      && Climb(Parents(second.log), 10, n) == 10 && !Stops(Parents(second.log), 10, n)
      && WalkRoot(second.log, 10).None?
      && ValidateCreate(o, second, Comment, DEMO_BODY, Some(ParentRef(Comment, 10)), 11, None) == Err(NeverReturns)
  {
    var o := DemoOracle();
    var make := Submission(DemoEnvelope(1, Post, Create, Some(10), None), 0, DEMO_BODY, DEMO_GATE);
    var edit := Submission(DemoEnvelope(2, Comment, Update, Some(10), Some(1)), 0, DEMO_BODY, DEMO_GATE);
    var post, comment := Tx(make.env, 1), Tx(edit.env, 2);
    var (first, a) := Submit(o, DemoStore([]), make, 0);
    assert a.Ok? && first.log == [post];
    assert Head([post], 10) == Some(post);
    var (second, b) := Submit(o, first, edit, 0);
    assert b.Ok? && second.log == [post, comment];
    assert Head(second.log, 10) == Some(comment);
    assert Up(second.log, 10) == Some(10);
    Circle(second.log, n);
    Circle(second.log, |second.log|);
  }

  lemma {:induction false} Circle(log: Log, n: nat)
    requires Up(log, 10) == Some(10)
    ensures Climb(Parents(log), 10, n) == 10
  {
    if n > 0 { Circle(log, n - 1); }
  }
}
