/** Optimistic concurrency: clients prepare in one step and submit in a later one, with anything in between. */
module Concurrency {
  import opened Wrappers
  import opened RecordTypes
  import opened RecordLog
  import opened RecordShape
  import opened RecordSpec
  import opened RecordRuns
  import opened RootMoves

  predicate IsEdit(t: Tx) { t.env.op != Create }

  lemma {:induction false} PreviousRowExists(log: Log, t: Tx)
    requires Chained(log) && t in log && IsEdit(t)
    ensures exists x | x in log :: x.env.entityId == t.env.entityId && t.env.prevHash == Some(x.hash)
  {
    assert log == Front(log) + [Last(log)];
    if t in Front(log) {
      PreviousRowExists(Front(log), t);
    } else {
      HeadFacts(Front(log), t.env.entityId);
      assert Head(Front(log), t.env.entityId).value in log;
    }
  }

  /** Nothing in the log links to an entity's head. */
  lemma {:induction false} HeadHasNoSuccessor(o: Oracle, log: Log, t: Tx)
    requires CollisionFree(o) && Chained(log) && Hashed(o, log) && t in log && IsEdit(t)
    ensures Exists(log, t.env.entityId)
    ensures t.env.prevHash != Some(Head(log, t.env.entityId).value.hash)
  {
    var prior, last := Front(log), Last(log);
    assert log == prior + [last];
    if t in prior {
      HeadHasNoSuccessor(o, prior, t);
      PreviousRowExists(prior, t);
    } else {
      HeadFacts(prior, t.env.entityId);
    }
    if last.env.entityId == t.env.entityId && t.env.prevHash == Some(last.hash) {
      PreviousRowExists(log, t);
      var x :| x in prior && t.env.prevHash == Some(x.hash);
      HashesDistinct(o, log, x, last);
    }
  }

  /** A row has at most one successor: of all edits prepared on one head, at most one is ever accepted. */
  lemma {:induction false} OneSuccessor(o: Oracle, log: Log, t: Tx, u: Tx)
    requires CollisionFree(o) && Chained(log) && Hashed(o, log)
    requires t in log && u in log && IsEdit(t) && IsEdit(u)
    requires t.env.entityId == u.env.entityId && t.env.prevHash == u.env.prevHash
    ensures t == u
  {
    var prior, last := Front(log), Last(log);
    assert log == prior + [last];
    if t in prior && u in prior {
      OneSuccessor(o, prior, t, u);
    } else if t in prior {
      HeadHasNoSuccessor(o, prior, t);
    } else if u in prior {
      HeadHasNoSuccessor(o, prior, u);
    }
  }

  lemma StepOnlyAppends(o: Oracle, m: Machine, ev: Timed)
    ensures m.st.log <= Step(o, m, ev).st.log
  {
  }

  /** An accepted row is never lost: in every run, the log of every continuation starts with the log before it. */
  lemma {:induction false} NothingIsLost(o: Oracle, evs: seq<Timed>, k: nat)
    requires k <= |evs|
    ensures Run(o, EMPTY, evs[..k]).st.log <= Run(o, EMPTY, evs).st.log
    decreases |evs|
  {
    if k < |evs| {
      var prior := evs[..|evs| - 1];
      assert prior[..k] == evs[..k];
      NothingIsLost(o, prior, k);
      StepOnlyAppends(o, Run(o, EMPTY, prior), evs[|evs| - 1]);
    } else {
      assert evs[..k] == evs;
    }
  }

  /** In every run, with checks and appends interleaved in any way and whatever callers send, at most one of the edits
    * prepared on one head is in the log, and once there it stays. */
  lemma FirstEditWins(o: Oracle, evs: seq<Timed>, k: nat, t: Tx, u: Tx)
    requires CollisionFree(o) && k <= |evs|
    requires t in Run(o, EMPTY, evs[..k]).st.log && u in Run(o, EMPTY, evs).st.log && IsEdit(t) && IsEdit(u)
    requires t.env.entityId == u.env.entityId && t.env.prevHash == u.env.prevHash
    ensures t == u && t in Run(o, EMPTY, evs).st.log
  {
    RunKeeps(o, evs);
    NothingIsLost(o, evs, k);
    OneSuccessor(o, Run(o, EMPTY, evs).st.log, t, u);
  }

  // ---- prepared fields ----------------------------------------------------------------------------------

  /** The envelope copies the prepared concurrency fields. */
  predicate Carries(e: Envelope, p: Prepared) {
    && e.prevHash == p.prevHash
    && e.parentRevisionHash == p.parentRevisionHash
    && (e.op != Create ==> e.parentType == p.parentType && e.parentId == p.parentId && e.nullifier == p.nullifier)
  }

  /** A prepared edit meets a stale head exactly when the head moved in between. */
  lemma StaleExactlyWhenMoved(o: Oracle, st: Store, later: Store, s: Submission, tk: ThreadKey, now: int, at: int,
                              content: Option<Content>)
    requires CollisionFree(o) && Hashed(o, later.log) && st.log <= later.log
    requires s.env.op != Create
    requires var e := s.env;
      && PrepareAppend(o, st, e.op, None, e.author, None, e.entityId, content, now).Ok?
      && Carries(e, PrepareAppend(o, st, e.op, None, e.author, None, e.entityId, content, now).value)
    ensures CheckEdit(o, later, s, tk, at) == Err(StalePrevHash)
        <==> Head(later.log, s.env.entityId) != Head(st.log, s.env.entityId)
  {
    var id := s.env.entityId;
    var a := Head(st.log, id).value;
    HeadFacts(st.log, id);
    StillExists(st.log, later.log, id);
    HeadFacts(later.log, id);
    HashesDistinct(o, later.log, a, Head(later.log, id).value);
  }

  /** With the head unmoved, an edit built from its prepared fields passes every preservation and carry-forward check:
    * it is accepted if and only if the op rules, which depend on the time and on the thread's own jurisdiction, still
    * allow it, the root did not move either, and the head bears a nullifier exactly if it is a singleton. */
  lemma PreparedEditPasses(o: Oracle, st: Store, later: Store, s: Submission, tk: ThreadKey, now: int, at: int,
                           content: Option<Content>)
    requires s.env.op != Create
    requires var e := s.env;
      && PrepareAppend(o, st, e.op, None, e.author, None, e.entityId, content, now).Ok?
      && Carries(e, PrepareAppend(o, st, e.op, None, e.author, None, e.entityId, content, now).value)
      && tk.threadId == PrepareAppend(o, st, e.op, None, e.author, None, e.entityId, content, now).value.root
      && Head(later.log, e.entityId) == Head(st.log, e.entityId)
      && (e.op == Delete ==> s.content == DeleteMarker)
    ensures var v := if s.env.op == Update
        then ValidateUpdate(o, later, s.env.entityId, s.env.author, Some(s.content), at, Some(tk.jurisdiction))
        else ValidateDelete(o, later, s.env.entityId, s.env.author, at, Some(tk.jurisdiction));
      var h := Head(st.log, s.env.entityId).value;
      var verdict := CheckEdit(o, later, s, tk, at);
      && (v.Err? ==> verdict == Err(v.error))
      && (v.Ok? && HeadRoot(later.log, h) != HeadRoot(st.log, h) ==> verdict == Err(WrongThread))
      && (verdict.Ok? <==> v.Ok? && HeadRoot(later.log, h) == HeadRoot(st.log, h)
                           && (IsSingleton(h.env.typ) <==> h.env.nullifier.Some?))
  {
  }

  /** What is left of the create checks once the rules, the thread and the pinned revision agree. */
  lemma CreateDecided(o: Oracle, st: Store, s: Submission, tk: ThreadKey)
    ensures var e := s.env;
      var v := ValidateCreate(o, st, e.typ, s.content, ParentOf(e), e.entityId, Some(tk.jurisdiction));
      var verdict := CheckCreate(o, st, s, tk).verdict;
      e.prevHash.None? && !Exists(st.log, e.entityId) ==>
        if v.Err? then verdict == Err(v.error)
        else if tk.threadId != v.value.root then verdict == Err(WrongThread)
        else if e.parentRevisionHash != v.value.revisionHash then verdict == Err(StaleParentRevision)
        else if v.value.singleton then verdict == CheckNullifier(st, e, tk.userId, s.gate.canAttest).verdict
        else verdict == if e.nullifier.Some? then Err(UnexpectedNullifier) else Ok(())
  {
  }

  /** With the parent unmoved and the id still free, a create built from its prepared fields passes every
    * concurrency check exactly when the parent's root did not move; only the op rules of the thread's jurisdiction and
    * the nullifier gate remain. */
  lemma PreparedCreatePasses(o: Oracle, st: Store, later: Store, s: Submission, tk: ThreadKey, now: int,
                             content: Option<Content>)
    requires var e := s.env;
      && e.op == Create
      && var r := PrepareAppend(o, st, Create, Some(e.typ), e.author, ParentOf(e), e.entityId, content, now);
      && r.Ok? && Carries(e, r.value) && tk.threadId == r.value.root
      && Head(later.log, e.entityId).None?
      && (ParentOf(e).Some? ==> Head(later.log, ParentOf(e).value.id) == Head(st.log, ParentOf(e).value.id))
    ensures var e := s.env;
      var v := ValidateCreate(o, later, e.typ, s.content, ParentOf(e), e.entityId, Some(tk.jurisdiction));
      var verdict := CheckCreate(o, later, s, tk).verdict;
      var p := ParentOf(e);
      if v.Err? then verdict == Err(v.error)
      else if p.Some? && WalkRoot(later.log, p.value.id) != WalkRoot(st.log, p.value.id)
          then verdict == Err(WrongThread)
      else if IsSingleton(e.typ) then verdict == CheckNullifier(later, e, tk.userId, s.gate.canAttest).verdict
      else verdict.Ok? <==> e.nullifier.None?
  {
    var e := s.env;
    if ParentOf(e).Some? && IsLive(st.log, ParentOf(e).value.id) {
      CurrentOfLive(st.log, ParentOf(e).value.id);
      CurrentOfLive(later.log, ParentOf(e).value.id);
    }
    CreateDecided(o, later, s, tk);
  }
}
