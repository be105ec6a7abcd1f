/** Concrete runs, accepted call by call, of what the missing type check of signed edits and the gap between check and
  * append let through. */
module Counterexamples {
  import opened Wrappers
  import opened RecordTypes
  import opened RecordLog
  import opened RecordShape
  import opened RecordSpec
  import opened RecordRuns
  import opened Singletons
  import opened Tallies
  import opened Counting
  import opened Iteration
  import opened ParentWalks
  import opened Walkers

  const POLL := ParentRef(Poll, 10)
  const KEYS: map<Key, ThreadKey> := map[Pubkey(1) := ThreadKey(1, 10, 1)]

  /** A row of the only persona. Its hash is its transaction id. */
  function Env(txId: TxId, id: EntityId, typ: RecordType, op: Op, parent: Option<ParentRef>, prev: Option<Hash>,
               nullifier: Option<Nullifier>): Envelope {
    Envelope(txId, typ, id, op, if parent.Some? then Some(parent.value.typ) else None,
             if parent.Some? then Some(parent.value.id) else None, None, if parent.Some? then Some(1) else None,
             Pubkey(1), None, None, Some(0), None, Some(0), prev, 0, nullifier, None)
  }

  function BodyOf(e: Envelope): Content { if e.op == Delete then DeleteMarker else DEMO_BODY }

  function CallOf(e: Envelope): At {
    At.At(SignedEvent.Call(Submission(e, 0, BodyOf(e), DEMO_GATE)), 0)
  }

  /** An edit that carries what an edit of the row must carry. */
  function EditOf(h: Tx, e: Envelope): Envelope {
    Env(e.txId, e.entityId, e.typ, e.op, Some(POLL), Some(h.hash), e.nullifier)
      .(parentRevisionHash := h.env.parentRevisionHash)
  }

  function RowOf(e: Envelope): Tx { Tx(e, e.txId) }

  /** The stores of the runs: one thread, nothing erased, contents without rules. */
  ghost predicate DemoState(st: Store) {
    && st.keys == KEYS && st.ledger == map[]
    && forall t | t in st.log :: t.env.txId in st.plain && st.plain[t.env.txId] == Plain(0, BodyOf(t.env))
  }

  /** `after` is `st` with one more row. */
  ghost predicate Gains(st: Store, after: Store, e: Envelope) { after.log == st.log + [RowOf(e)] && DemoState(after) }

  lemma RootTypeIsRoot(log: Log, id: EntityId)
    requires Up(log, id).None?
    ensures WalkRoot(log, id) == Some(id)
  {
  }

  lemma PollCreated(st: Store, e: Envelope)
    requires DemoState(st) && e == Env(1, 10, Poll, Create, None, None, None) && st.log == []
    ensures var after := SignedStep(DemoOracle(), st, CallOf(e)); Gains(st, after, e) && after.attested == st.attested
    ensures Accepts(DemoOracle(), st, CallOf(e))
  {
  }

  lemma VoteCreated(st: Store, e: Envelope, id: EntityId)
    requires DemoState(st) && e == Env(e.txId, id, Vote, Create, Some(POLL), None, Some(7)) && !Exists(st.log, id)
    requires IsLive(st.log, 10) && Head(st.log, 10) == Some(RowOf(Env(1, 10, Poll, Create, None, None, None)))
    requires st.attested == map[] || st.attested == map[(1, 10) := 7]
    requires !ActiveNullifier(st.log, 10, 7) && forall t | t in st.log :: t.env.txId != e.txId
    ensures var after := SignedStep(DemoOracle(), st, CallOf(e));
      Gains(st, after, e) && after.attested == map[(1, 10) := 7]
    ensures Accepts(DemoOracle(), st, CallOf(e))
  {
    CurrentOfLive(st.log, 10);
    RootTypeIsRoot(st.log, 10);
    assert ParentOf(e) == Some(POLL);
    assert map[][(1, 10) := 7] == map[(1, 10) := 7] && map[(1, 10) := 7][(1, 10) := 7] == map[(1, 10) := 7];
    assert !TakenByAnother(st, 1, 10, 7);
    var s := CallOf(e).event.s;
    assert ValidateCreate(DemoOracle(), st, Vote, DEMO_BODY, Some(POLL), id, Some(1)) ==
        Ok(Created(Some(1), Some(1), 10, true));
    assert CheckCreate(DemoOracle(), st, s, ThreadKey(1, 10, 1)) == Checked(st.attested[(1, 10) := 7], Ok(()));
  }

  /** An edit of an attachment to the poll, whatever type it declares. */
  lemma Edited(st: Store, e: Envelope, h: Tx)
    requires DemoState(st) && Head(st.log, e.entityId) == Some(h) && h.env.op != Delete && h.env.author == Pubkey(1)
    requires h.env.typ in {Vote, Comment} && ParentOf(h.env) == Some(POLL)
    requires Head(st.log, 10).Some? && Head(st.log, 10).value.env.typ == Poll
    requires h.env.typ == Vote ==> IsLive(st.log, 10) && e.op == Update
    requires e.op != Create && e == EditOf(h, e) && e.typ != PlatformOps
    requires if h.env.typ == Vote then h.env.nullifier.Some? && e.nullifier == h.env.nullifier else e.nullifier.None?
    requires forall t | t in st.log :: t.env.txId != e.txId
    ensures var after := SignedStep(DemoOracle(), st, CallOf(e)); Gains(st, after, e) && after.attested == st.attested
    ensures Accepts(DemoOracle(), st, CallOf(e))
  {
    var s := CallOf(e).event.s;
    RootTypeIsRoot(st.log, 10);
    assert HeadRoot(st.log, h) == Some(10);
    HeadFacts(st.log, 10);
    if h.env.typ == Vote { assert CanChangeVote(DemoOracle(), st, 10, 0, Some(1)); }
    assert CheckEdit(DemoOracle(), st, s, ThreadKey(1, 10, 1), 0) == Ok(());
  }

  lemma RunSnoc(evs: seq<At>, ev: At)
    ensures SignedRun(DemoOracle(), evs + [ev]) == SignedStep(DemoOracle(), SignedRun(DemoOracle(), evs), ev)
  {
    assert (evs + [ev])[..|evs|] == evs;
  }

  lemma HeadSnoc(log: Log, t: Tx, id: EntityId)
    ensures Head(log + [t], id) == if t.env.entityId == id then Some(t) else Head(log, id)
  {
    Snoc(log, t);
  }

  /** The run is accepted so far and leaves this log and these attestations. */
  ghost predicate Reaches(evs: seq<At>, log: Log, attested: map<(UserId, EntityId), Nullifier>) {
    var st := SignedRun(DemoOracle(), evs);
    DemoState(st) && st.log == log && st.attested == attested
  }

  lemma AddVote(evs: seq<At>, log: Log, attested: map<(UserId, EntityId), Nullifier>, e: Envelope, id: EntityId)
    requires Reaches(evs, log, attested) && (attested == map[] || attested == map[(1, 10) := 7])
    requires e == Env(e.txId, id, Vote, Create, Some(POLL), None, Some(7)) && !Exists(log, id)
    requires Head(log, 10) == Some(RowOf(Env(1, 10, Poll, Create, None, None, None)))
    requires !ActiveNullifier(log, 10, 7) && forall t | t in log :: t.env.txId != e.txId
    ensures Reaches(evs + [CallOf(e)], log + [RowOf(e)], map[(1, 10) := 7])
  {
    RunSnoc(evs, CallOf(e));
    VoteCreated(SignedRun(DemoOracle(), evs), e, id);
  }

  /** An edit of an attachment to the poll that the checks let through. */
  predicate Passes(log: Log, e: Envelope, h: Tx) {
    && Head(log, e.entityId) == Some(h) && h.env.op != Delete && h.env.author == Pubkey(1)
    && h.env.typ in {Vote, Comment} && ParentOf(h.env) == Some(POLL)
    && Head(log, 10).Some? && Head(log, 10).value.env.typ == Poll
    && (h.env.typ == Vote ==> IsLive(log, 10) && e.op == Update)
    && e.op != Create && e == EditOf(h, e) && e.typ != PlatformOps
    && (if h.env.typ == Vote then h.env.nullifier.Some? && e.nullifier == h.env.nullifier else e.nullifier.None?)
    && forall t | t in log :: t.env.txId != e.txId
  }

  lemma AddEdit(evs: seq<At>, log: Log, attested: map<(UserId, EntityId), Nullifier>, e: Envelope, h: Tx)
    requires Reaches(evs, log, attested) && Passes(log, e, h)
    ensures Reaches(evs + [CallOf(e)], log + [RowOf(e)], attested)
    ensures Accepts(DemoOracle(), SignedRun(DemoOracle(), evs), CallOf(e))
  {
    RunSnoc(evs, CallOf(e));
    Edited(SignedRun(DemoOracle(), evs), e, h);
  }

  const ENTER: At := At.At(Enter(Pubkey(1), ThreadKey(1, 10, 1)), 0)
  const MAKE_POLL: Envelope := Env(1, 10, Poll, Create, None, None, None)
  const VOTE: Envelope := Env(2, 20, Vote, Create, Some(POLL), None, Some(7))
  const AS_COMMENT: Envelope := Env(3, 20, Comment, Update, Some(POLL), Some(2), Some(7))
  const UNMARKED: Envelope := Env(4, 20, Comment, Update, Some(POLL), Some(3), None)

  lemma Entered()
    ensures Reaches([ENTER], [], map[])
  {
    RunSnoc([], ENTER);
    assert [] + [ENTER] == [ENTER];
    assert SignedRun(DemoOracle(), [ENTER]).keys == KEYS;
  }

  lemma Opened(evs: seq<At>)
    requires evs == [ENTER] + [CallOf(MAKE_POLL)]
    ensures Reaches(evs, [RowOf(MAKE_POLL)], map[])
  {
    RunSnoc([ENTER], CallOf(MAKE_POLL));
    Entered();
    PollCreated(SignedRun(DemoOracle(), [ENTER]), MAKE_POLL);
  }

  /** A vote whose edits declare it a comment, first with its nullifier and then without. */
  function Prelude(): seq<At> {
    [ENTER] + [CallOf(MAKE_POLL)] + [CallOf(VOTE)] + [CallOf(AS_COMMENT)] + [CallOf(UNMARKED)]
  }

  function PreludeLog(): Log { [RowOf(MAKE_POLL)] + [RowOf(VOTE)] + [RowOf(AS_COMMENT)] + [RowOf(UNMARKED)] }

  lemma PollHeads(log: Log)
    requires log == [RowOf(MAKE_POLL)]
    ensures Head(log, 10) == Some(RowOf(MAKE_POLL)) && !Exists(log, 20) && !Exists(log, 21)
    ensures !ActiveNullifier(log, 10, 7)
  {
    assert [] + log == log;
    HeadSnoc([], RowOf(MAKE_POLL), 10);
    HeadSnoc([], RowOf(MAKE_POLL), 20);
    HeadSnoc([], RowOf(MAKE_POLL), 21);
  }

  lemma CommentPasses(log: Log)
    requires log == [RowOf(MAKE_POLL)] + [RowOf(VOTE)]
    ensures Passes(log, AS_COMMENT, RowOf(VOTE))
  {
    PollHeads([RowOf(MAKE_POLL)]);
    HeadSnoc([RowOf(MAKE_POLL)], RowOf(VOTE), 10);
    HeadSnoc([RowOf(MAKE_POLL)], RowOf(VOTE), 20);
  }

  lemma UnmarkingPasses(log: Log, prior: Log)
    requires prior == [RowOf(MAKE_POLL)] + [RowOf(VOTE)] && log == prior + [RowOf(AS_COMMENT)]
    ensures Passes(log, UNMARKED, RowOf(AS_COMMENT))
  {
    CommentPasses(prior);
    HeadSnoc(prior, RowOf(AS_COMMENT), 10);
    HeadSnoc(prior, RowOf(AS_COMMENT), 20);
  }

  lemma PreludeRuns(start: seq<At>, cast: seq<At>, retyped: seq<At>, evs: seq<At>)
    requires start == [ENTER] + [CallOf(MAKE_POLL)] && cast == start + [CallOf(VOTE)]
    requires retyped == cast + [CallOf(AS_COMMENT)] && evs == retyped + [CallOf(UNMARKED)]
    ensures evs == Prelude() && Reaches(evs, PreludeLog(), map[(1, 10) := 7])
  {
    var l1 := [RowOf(MAKE_POLL)];
    var l2 := l1 + [RowOf(VOTE)];
    var l3 := l2 + [RowOf(AS_COMMENT)];
    Opened(start);
    PollHeads(l1);
    AddVote(start, l1, map[], VOTE, 20);
    CommentPasses(l2);
    AddEdit(cast, l2, map[(1, 10) := 7], AS_COMMENT, RowOf(VOTE));
    UnmarkingPasses(l3, l2);
    AddEdit(retyped, l3, map[(1, 10) := 7], UNMARKED, RowOf(AS_COMMENT));
  }

  lemma PreludeReaches(evs: seq<At>)
    requires evs == Prelude()
    ensures Reaches(evs, PreludeLog(), map[(1, 10) := 7])
  {
    var start := [ENTER] + [CallOf(MAKE_POLL)];
    var cast := start + [CallOf(VOTE)];
    var retyped := cast + [CallOf(AS_COMMENT)];
    PreludeRuns(start, cast, retyped, retyped + [CallOf(UNMARKED)]);
  }

  lemma PreludeHeads(id: EntityId)
    ensures Head(PreludeLog(), id) == if id == 10 then Some(RowOf(MAKE_POLL))
      else if id == 20 then Some(RowOf(UNMARKED)) else None
  {
    assert [] + [RowOf(MAKE_POLL)] == [RowOf(MAKE_POLL)];
    HeadSnoc([], RowOf(MAKE_POLL), id);
    HeadSnoc([RowOf(MAKE_POLL)], RowOf(VOTE), id);
    HeadSnoc([RowOf(MAKE_POLL)] + [RowOf(VOTE)], RowOf(AS_COMMENT), id);
    HeadSnoc([RowOf(MAKE_POLL)] + [RowOf(VOTE)] + [RowOf(AS_COMMENT)], RowOf(UNMARKED), id);
  }

  const AGAIN: Envelope := Env(5, 21, Vote, Create, Some(POLL), None, Some(7))
  const BACK: Envelope := Env(6, 20, Vote, Update, Some(POLL), Some(4), None)

  lemma UnmarkedHeads(log: Log)
    requires log == PreludeLog()
    ensures !ActiveNullifier(log, 10, 7) && !Exists(log, 21)
    ensures forall t | t in log :: t.env.txId <= 4 && t.env.entityId in {10, 20}
  {
    forall t | t in Heads(log) ensures t.env.nullifier.None? { PreludeHeads(t.env.entityId); }
    PreludeHeads(21);
  }

  lemma BackPasses(l4: Log, l5: Log)
    requires l4 == PreludeLog() && l5 == l4 + [RowOf(AGAIN)]
    ensures Passes(l5, BACK, RowOf(UNMARKED))
  {
    PreludeHeads(10);
    PreludeHeads(20);
    UnmarkedHeads(l4);
    HeadSnoc(l4, RowOf(AGAIN), 10);
    HeadSnoc(l4, RowOf(AGAIN), 20);
  }

  /** One user ends with two active votes on one poll, and both count: the second vote passes the nullifier gate because
    * the first no longer bears its nullifier, and then the first is declared a vote again. */
  lemma OneUserVotesTwice(prelude: seq<At>, evs: seq<At>)
    requires prelude == Prelude() && evs == prelude + [CallOf(AGAIN)] + [CallOf(BACK)]
    ensures var end := SignedRun(DemoOracle(), evs);
      && !OneSingletonPerUser(end)
      && ActivesOn(end.log, Vote, 10) == {RowOf(AGAIN), RowOf(BACK)} && PollCount(end, 10, Some("yes")) == 2
      && RowOf(AGAIN).env.author == RowOf(BACK).env.author == Pubkey(1)
  {
    var l4 := PreludeLog();
    var l5 := l4 + [RowOf(AGAIN)];
    PreludeReaches(prelude);
    PreludeHeads(10);
    UnmarkedHeads(l4);
    AddVote(prelude, l4, map[(1, 10) := 7], AGAIN, 21);
    BackPasses(l4, l5);
    AddEdit(prelude + [CallOf(AGAIN)], l5, map[(1, 10) := 7], BACK, RowOf(UNMARKED));
    TwoVotes(SignedRun(DemoOracle(), evs), l4, l5);
  }

  lemma NoVotesYet(log: Log)
    requires log == PreludeLog()
    ensures ActivesOn(log, Vote, 10) == {}
  {
    forall t | t in Heads(log) ensures t.env.typ != Vote { PreludeHeads(t.env.entityId); }
  }

  lemma TwoVotes(end: Store, l4: Log, l5: Log)
    requires l4 == PreludeLog() && l5 == l4 + [RowOf(AGAIN)]
    requires DemoState(end) && end.log == l5 + [RowOf(BACK)]
    ensures !OneSingletonPerUser(end)
    ensures ActivesOn(end.log, Vote, 10) == {RowOf(AGAIN), RowOf(BACK)} && PollCount(end, 10, Some("yes")) == 2
  {
    var a, b := RowOf(AGAIN), RowOf(BACK);
    UnmarkedHeads(l4);
    NoVotesYet(l4);
    ActivesAfter(l4, a, Vote, 10);
    ActivesAfter(l5, b, Vote, 10);
    assert ActivesOn(l5, Vote, 10) == {a};
    assert ActivesOn(end.log, Vote, 10) == {a, b};
    BothCount(end, a, b);
  }

  /** Two active votes of one user under different marks break the rule and count twice. */
  lemma BothCount(st: Store, a: Tx, b: Tx)
    requires DemoState(st) && ActivesOn(st.log, Vote, 10) == {a, b} && a.env.author == b.env.author == Pubkey(1)
    requires a.env.nullifier == Some(7) && b.env.nullifier == None
    ensures !OneSingletonPerUser(st) && PollCount(st, 10, Some("yes")) == 2
  {
    assert a in ActivesOn(st.log, Vote, 10) && b in ActivesOn(st.log, Vote, 10);
    assert a in st.log && b in st.log && UserOf(st, a) == UserOf(st, b);
    assert OptionOf(st.plain, a) == OptionOf(st.plain, b) == Some("yes");
    var voters := Voters(st, 10, Some("yes"));
    assert voters == {a, b};
    assert ParticipantOf(a) == ByNullifier(7) && ParticipantOf(b) == ByAuthor(Pubkey(1));
    assert Image(voters, ParticipantOf) == {ByNullifier(7), ByAuthor(Pubkey(1))};
  }

  const REMOVE: Envelope := Env(7, 20, Comment, Delete, Some(POLL), Some(4), None)

  /** A vote, which the op table never lets anyone delete, is deleted as a comment: it is gone from the poll for
    * good. */
  lemma VoteDeletedAsComment(prelude: seq<At>, evs: seq<At>)
    requires prelude == Prelude() && evs == prelude + [CallOf(REMOVE)]
    ensures var end := SignedRun(DemoOracle(), evs);
      Cast(end.log, 10) == {20} && Exists(end.log, 20) && !IsLive(end.log, 20) && ActivesOn(end.log, Vote, 10) == {}
  {
    PreludeReaches(prelude);
    PreludeHeads(10);
    PreludeHeads(20);
    UnmarkedHeads(PreludeLog());
    AddEdit(prelude, PreludeLog(), map[(1, 10) := 7], REMOVE, RowOf(UNMARKED));
    RemovedLog(PreludeLog(), PreludeLog() + [RowOf(REMOVE)]);
  }

  lemma RemovedLog(l4: Log, log: Log)
    requires l4 == PreludeLog() && log == l4 + [RowOf(REMOVE)]
    ensures Cast(log, 10) == {20} && Exists(log, 20) && !IsLive(log, 20) && ActivesOn(log, Vote, 10) == {}
  {
    HeadSnoc(l4, RowOf(REMOVE), 20);
    NoVotesYet(l4);
    ActivesAfter(l4, RowOf(REMOVE), Vote, 10);
    assert log[1] == RowOf(VOTE);
    forall t | t in log && t.env.op == Create && t.env.typ == Vote ensures t == RowOf(VOTE) {}
    assert Cast(log, 10) == {20};
  }

  const CLOSE: Envelope := Env(8, 10, Poll, Delete, None, Some(1), None)
  const LATE: Envelope := Env(9, 20, Vote, Update, Some(POLL), Some(4), None)

  lemma PollDeleted(st: Store)
    requires DemoState(st) && Head(st.log, 10) == Some(RowOf(MAKE_POLL)) && forall t | t in st.log :: t.env.txId != 8
    ensures var after := SignedStep(DemoOracle(), st, CallOf(CLOSE));
      Gains(st, after, CLOSE) && after.attested == st.attested
  {
    assert HeadRoot(st.log, RowOf(MAKE_POLL)) == Some(10);
    assert CheckEdit(DemoOracle(), st, CallOf(CLOSE).event.s, ThreadKey(1, 10, 1), 0) == Ok(());
  }

  lemma PollClosed(prelude: seq<At>, evs: seq<At>)
    requires prelude == Prelude() && evs == prelude + [CallOf(CLOSE)]
    ensures Reaches(evs, PreludeLog() + [RowOf(CLOSE)], map[(1, 10) := 7])
  {
    PreludeReaches(prelude);
    PreludeHeads(10);
    UnmarkedHeads(PreludeLog());
    RunSnoc(prelude, CallOf(CLOSE));
    PollDeleted(SignedRun(DemoOracle(), prelude));
  }

  /** A comment on a deleted poll becomes its vote: the tally of the deleted poll moves. */
  lemma DeletedPollGainsAVote(prelude: seq<At>, evs: seq<At>)
    requires prelude == Prelude() && evs == prelude + [CallOf(CLOSE)]
    ensures var o, closed := DemoOracle(), SignedRun(DemoOracle(), evs);
      && Exists(closed.log, 10) && !IsLive(closed.log, 10) && Becomes(o, closed, CallOf(LATE), Vote, 10)
      && ActivesOn(closed.log, Vote, 10) == {}
          && ActivesOn(SignedRun(o, evs + [CallOf(LATE)]).log, Vote, 10) == {RowOf(LATE)}
  {
    var l5 := PreludeLog() + [RowOf(CLOSE)];
    PollClosed(prelude, evs);
    ClosedLog(PreludeLog(), l5);
    AddEdit(evs, l5, map[(1, 10) := 7], LATE, RowOf(UNMARKED));
  }

  lemma ClosedLog(l4: Log, l5: Log)
    requires l4 == PreludeLog() && l5 == l4 + [RowOf(CLOSE)]
    ensures Exists(l5, 10) && !IsLive(l5, 10) && Passes(l5, LATE, RowOf(UNMARKED))
    ensures ActivesOn(l5, Vote, 10) == {} && ActivesOn(l5 + [RowOf(LATE)], Vote, 10) == {RowOf(LATE)}
  {
    PreludeHeads(20);
    UnmarkedHeads(l4);
    HeadSnoc(l4, RowOf(CLOSE), 10);
    HeadSnoc(l4, RowOf(CLOSE), 20);
    NoVotesYet(l4);
    ActivesAfter(l4, RowOf(CLOSE), Vote, 10);
    ActivesAfter(l5, RowOf(LATE), Vote, 10);
  }

  /** The condition on promotions is weaker than keeping every kind: the prelude declares a vote a comment, and the rule
    * still holds after it. */
  lemma DemotionKeepsTheRule(prelude: seq<At>)
    requires prelude == Prelude()
    ensures OneSingletonPerUser(SignedRun(DemoOracle(), prelude)) && !KindKeptCalls(DemoOracle(), prelude)
  {
    PreludeReaches(prelude);
    PreludeMarks(PreludeLog());
    SlotsKeptExactly(DemoOracle(), prelude);
    OneSingletonPerUserExactly(DemoOracle(), prelude);
    MarkedExactly(DemoOracle(), prelude);
  }

  lemma PreludeMarks(log: Log)
    requires log == PreludeLog()
    ensures (forall t | t in log :: Bears(t)) && !forall t | t in log :: Marked(t)
  {
    assert log[2] == RowOf(AS_COMMENT) && !Marked(log[2]);
  }

  // ---- roots move -----------------------------------------------------------------------------------------------

  const AS_POST: Envelope := Env(3, 20, Post, Update, Some(POLL), Some(2), Some(7))

  lemma PostPasses(log: Log)
    requires log == [RowOf(MAKE_POLL)] + [RowOf(VOTE)]
    ensures Passes(log, AS_POST, RowOf(VOTE)) && WalkRoot(log, 20) == Some(10)
    ensures WalkRoot(log + [RowOf(AS_POST)], 20) == Some(20)
  {
    PollHeads([RowOf(MAKE_POLL)]);
    HeadSnoc([RowOf(MAKE_POLL)], RowOf(VOTE), 10);
    HeadSnoc([RowOf(MAKE_POLL)], RowOf(VOTE), 20);
    HeadSnoc(log, RowOf(AS_POST), 20);
    assert Up(log, 20) == Some(10) && Up(log, 10).None? && Up(log + [RowOf(AS_POST)], 20).None?;
    assert Climb(Parents(log), 10, 1) == 10 && Climb(Parents(log), 20, 2) == 10;
    RootOrNever(log, 20, 2);
    assert Climb(Parents(log + [RowOf(AS_POST)]), 20, 0) == 20;
    RootOrNever(log + [RowOf(AS_POST)], 20, 0);
  }

  /** A vote declared a post becomes its own root: one persona then has rows under two roots. */
  lemma VoteBecomesItsOwnRoot(start: seq<At>, cast: seq<At>, evs: seq<At>)
    requires start == [ENTER] + [CallOf(MAKE_POLL)] && cast == start + [CallOf(VOTE)] && evs == cast + [CallOf(AS_POST)]
    ensures var o := DemoOracle(); var before, after := SignedRun(o, cast), SignedRun(o, evs);
      && Accepts(o, before, CallOf(AS_POST))
      && WalkRoot(before.log, 20) == Some(10) && WalkRoot(after.log, 20) == Some(20)
      && InThread(before) && !InThread(after)
  {
    var l1 := [RowOf(MAKE_POLL)];
    var l2 := l1 + [RowOf(VOTE)];
    Opened(start);
    PollHeads(l1);
    AddVote(start, l1, map[], VOTE, 20);
    PostPasses(l2);
    AddEdit(cast, l2, map[(1, 10) := 7], AS_POST, RowOf(VOTE));
    PollIsRoot(l2);
    ThreadSplit(SignedRun(DemoOracle(), cast), SignedRun(DemoOracle(), evs), l2);
  }

  lemma PollIsRoot(log: Log)
    requires log == [RowOf(MAKE_POLL)] + [RowOf(VOTE)]
    ensures WalkRoot(log, 10) == Some(10)
  {
    PollHeads([RowOf(MAKE_POLL)]);
    HeadSnoc([RowOf(MAKE_POLL)], RowOf(VOTE), 10);
    RootTypeIsRoot(log, 10);
  }

  lemma ThreadSplit(before: Store, after: Store, log: Log)
    requires log == [RowOf(MAKE_POLL)] + [RowOf(VOTE)] && DemoState(before) && DemoState(after)
    requires before.log == log && after.log == log + [RowOf(AS_POST)]
    requires WalkRoot(log, 10) == Some(10) && WalkRoot(log, 20) == Some(10) && WalkRoot(after.log, 20) == Some(20)
    ensures InThread(before) && !InThread(after)
  {
    assert RowOf(AS_POST) in after.log && !UnderItsThread(after, RowOf(AS_POST));
  }

  // ---- a parent named by half ------------------------------------------------------------------------------------

  function Half(txId: TxId, typ: RecordType, op: Op, parent: EntityId, prev: Option<Hash>): Submission {
    Submission(DemoEnvelope(txId, typ, op, Some(parent), prev), 0, DEMO_BODY, DEMO_GATE)
  }

  /** A post by the persona, with a bare parent id, is accepted and is its own root. */
  lemma HalfNamedPost(parent: EntityId)
    ensures var (after, r) := Submit(DemoOracle(), DemoStore([]), Half(1, Post, Create, parent, None), 0);
      && r.Ok? && after.log == [Tx(DemoEnvelope(1, Post, Create, Some(parent), None), 1)]
      && after == DemoStore(after.log).(plain := map[1 := Plain(0, DEMO_BODY)])
      && Head(after.log, 10) == Some(after.log[0]) && WalkRoot(after.log, 10) == Some(10)
  {
    var o, st, make := DemoOracle(), DemoStore([]), Half(1, Post, Create, parent, None);
    assert Head(st.log, 10).None? && ParentOf(make.env).None? && IsRootType(Post);
    assert ValidateCreate(o, st, Post, DEMO_BODY, None, 10, Some(1)) == Ok(Created(None, None, 10, false));
    assert CheckCreate(o, st, make, ThreadKey(1, 10, 1)) == Checked(map[], Ok(()));
    assert SignedCheck(o, st, make, 0) == Checked(map[], Ok(()));
    assert AppendError(st, make.env).None?;
    var log := [Tx(make.env, 1)];
    assert [] + log == log;
    HeadSnoc([], Tx(make.env, 1), 10);
    RootTypeIsRoot(log, 10);
  }

  /** One accepted call after which the projection's walk leaves the root: the root is the post itself, and the walk
    * goes on to the bare parent id, where there is no row. */
  lemma ProjectionLeavesTheRoot()
    ensures var (after, r) := Submit(DemoOracle(), DemoStore([]), Half(1, Post, Create, 50, None), 0);
      && r.Ok? && WalkRoot(after.log, 10) == Some(10)
      && Climb(Pointers(after.log), 10, 8) == 50 && !Exists(after.log, 50)
  {
    HalfNamedPost(50);
    var (after, r) := Submit(DemoOracle(), DemoStore([]), Half(1, Post, Create, 50, None), 0);
    assert [] + after.log == after.log;
    HeadSnoc([], after.log[0], 50);
    assert Pointer(after.log, 10) == Some(50) && Pointer(after.log, 50).None?;
    assert Climb(Pointers(after.log), 50, 7) == 50;
  }

  lemma CircleIsUnderItself(log: Log, p: EntityId, kids: EntityId -> seq<EntityId>, n: nat)
    requires IsLive(log, p) && IsCommentOn(log, p, p) && Lists(log, kids)
    ensures Under(log, p, p) && Descends(log, kids, p, n)
  {
    ChildIsUnder(log, p, p);
    TreeEndsExactly(log, kids, p);
  }

  /** The two calls that make a circle also make the comment tree endless: the entity is a live comment on itself. */
  lemma CommentTreeNeverEnds(first: (Store, Result<(), Error>), second: (Store, Result<(), Error>),
                             kids: EntityId -> seq<EntityId>, n: nat)
    requires first == Submit(DemoOracle(), DemoStore([]), Half(1, Post, Create, 10, None), 0)
    requires second == Submit(DemoOracle(), first.0, Half(2, Comment, Update, 10, Some(1)), 0)
    requires Lists(second.0.log, kids)
    ensures first.1.Ok? && second.1.Ok? && Under(second.0.log, 10, 10) && Descends(second.0.log, kids, 10, n)
  {
    TwoCallsMakeACircle(0);
    CircleIsUnderItself(second.0.log, 10, kids, n);
  }

  /** Two accepted calls after which a reaction stands on a parent and counts for no revision of it. */
  lemma ReactionWithoutRevision()
    ensures var (first, a) := Submit(DemoOracle(), DemoStore([]), Half(1, Post, Create, 10, None), 0);
      var (second, b) := Submit(DemoOracle(), first, Half(2, Reaction, Update, 10, Some(1)), 0);
      && a.Ok? && b.Ok? && RevisionsOf(second.log, 10, [1, 2])
      && CountByEntity(second, 10, None) == 1 && SumByRevision(second, [1, 2], None) == 0
  {
    HalfNamedPost(10);
    var o, edit := DemoOracle(), Half(2, Reaction, Update, 10, Some(1));
    var (first, a) := Submit(o, DemoStore([]), Half(1, Post, Create, 10, None), 0);
    assert HeadRoot(first.log, first.log[0]) == Some(10);
    assert CheckEdit(o, first, edit, ThreadKey(1, 10, 1), 0) == Ok(());
    var (second, b) := Submit(o, first, edit, 0);
    assert second.log == first.log + [Tx(edit.env, 2)];
    OneUnpinned(second, first.log[0], Tx(edit.env, 2));
  }

  lemma OneUnpinned(st: Store, post: Tx, t: Tx)
    requires st.log == [post] + [t] && post == Tx(DemoEnvelope(1, Post, Create, Some(10), None), 1)
    requires t == Tx(DemoEnvelope(2, Reaction, Update, Some(10), Some(1)), 2)
    requires st.plain == map[1 := Plain(0, DEMO_BODY)][2 := Plain(0, DEMO_BODY)]
    ensures RevisionsOf(st.log, 10, [1, 2]) && CountByEntity(st, 10, None) == 1 && SumByRevision(st, [1, 2], None) == 0
  {
    HeadSnoc([post], t, 10);
    assert st.log[0] == post && st.log[1] == t;
    assert Heads(st.log) == {t};
    assert ReactionsOn(st, 10, None) == {t} && ReactionsOf(st, None) == {t};
    assert Image({t}, ParticipantOf) == {ByAuthor(Pubkey(1))};
    forall h ensures CountByRevision(st, h, None) == 0 {
      assert (set x | x in ReactionsOf(st, None) && x.env.parentRevisionHash == Some(h)) == {};
    }
    assert [1, 2][1..] == [2] && [2][1..] == [];
    assert SumByRevision(st, [], None) == 0 && SumByRevision(st, [2], None) == 0;
  }

  // ---- one author, two entities of a singleton's type -------------------------------------------------------------

  const EARLY: Envelope := Env(2, 20, Comment, Create, Some(POLL), None, None)
  const EDIT_POLL: Envelope := Env(3, 10, Poll, Update, None, Some(1), None)
  const LATER: Envelope := Env(4, 21, Comment, Create, Some(POLL), None, None).(parentRevisionHash := Some(3))

  function EarlyAs(typ: RecordType): Envelope { Env(5, 20, typ, Update, Some(POLL), Some(2), None) }

  function LaterAs(typ: RecordType): Envelope {
    Env(6, 21, typ, Update, Some(POLL), Some(4), None).(parentRevisionHash := Some(3))
  }

  /** A comment on the poll, an edit of the poll, a second comment; then both comments are declared something else. */
  function Drift(typ: RecordType): seq<At> {
    [ENTER] + [CallOf(MAKE_POLL)] + [CallOf(EARLY)] + [CallOf(EDIT_POLL)] + [CallOf(LATER)]
    + [CallOf(EarlyAs(typ))] + [CallOf(LaterAs(typ))]
  }

  function Comments(): Log { [RowOf(MAKE_POLL)] + [RowOf(EARLY)] + [RowOf(EDIT_POLL)] + [RowOf(LATER)] }

  function DriftLog(typ: RecordType): Log { Comments() + [RowOf(EarlyAs(typ))] + [RowOf(LaterAs(typ))] }

  lemma CommentCreated(st: Store, e: Envelope, id: EntityId, p: Tx)
    requires DemoState(st) && Head(st.log, 10) == Some(p) && p.env.typ == Poll && p.env.op != Delete
    requires e == Env(e.txId, id, Comment, Create, Some(POLL), None, None).(parentRevisionHash := Some(p.hash))
    requires !Exists(st.log, id) && forall t | t in st.log :: t.env.txId != e.txId
    ensures var after := SignedStep(DemoOracle(), st, CallOf(e)); Gains(st, after, e) && after.attested == st.attested
  {
    CurrentOfLive(st.log, 10);
    RootTypeIsRoot(st.log, 10);
    assert ParentOf(e) == Some(POLL) && NewDepth(st.log, POLL) == Ok(1);
    assert ValidateCreate(DemoOracle(), st, Comment, DEMO_BODY, Some(POLL), id, Some(1)) ==
        Ok(Created(Some(p.hash), Some(p.env.txId), 10, false));
    assert CheckCreate(DemoOracle(), st, CallOf(e).event.s, ThreadKey(1, 10, 1)) == Checked(st.attested, Ok(()));
  }

  lemma AddComment(evs: seq<At>, log: Log, e: Envelope, id: EntityId, p: Tx)
    requires Reaches(evs, log, map[]) && Head(log, 10) == Some(p) && p.env.typ == Poll && p.env.op != Delete
    requires e == Env(e.txId, id, Comment, Create, Some(POLL), None, None).(parentRevisionHash := Some(p.hash))
    requires !Exists(log, id) && forall t | t in log :: t.env.txId != e.txId
    ensures Reaches(evs + [CallOf(e)], log + [RowOf(e)], map[])
  {
    RunSnoc(evs, CallOf(e));
    CommentCreated(SignedRun(DemoOracle(), evs), e, id, p);
  }

  lemma PollEdited(st: Store)
    requires DemoState(st) && Head(st.log, 10) == Some(RowOf(MAKE_POLL)) && forall t | t in st.log :: t.env.txId != 3
    ensures var after := SignedStep(DemoOracle(), st, CallOf(EDIT_POLL));
      Gains(st, after, EDIT_POLL) && after.attested == st.attested
  {
    assert HeadRoot(st.log, RowOf(MAKE_POLL)) == Some(10);
    assert CheckEdit(DemoOracle(), st, CallOf(EDIT_POLL).event.s, ThreadKey(1, 10, 1), 0) == Ok(());
  }

  lemma FirstHeads(l2: Log, l3: Log)
    requires l2 == [RowOf(MAKE_POLL)] + [RowOf(EARLY)] && l3 == l2 + [RowOf(EDIT_POLL)]
    ensures Head(l2, 10) == Some(RowOf(MAKE_POLL)) && Head(l3, 10) == Some(RowOf(EDIT_POLL)) && !Exists(l3, 21)
  {
    PollHeads([RowOf(MAKE_POLL)]);
    forall id { HeadSnoc([RowOf(MAKE_POLL)], RowOf(EARLY), id); }
    forall id { HeadSnoc(l2, RowOf(EDIT_POLL), id); }
  }

  lemma CommentHeads(id: EntityId)
    ensures Head(Comments(), id) == if id == 10 then Some(RowOf(EDIT_POLL)) else if id == 20 then Some(RowOf(EARLY))
      else if id == 21 then Some(RowOf(LATER)) else None
  {
    var l1 := [RowOf(MAKE_POLL)];
    assert [] + l1 == l1;
    HeadSnoc([], RowOf(MAKE_POLL), id);
    HeadSnoc(l1, RowOf(EARLY), id);
    HeadSnoc(l1 + [RowOf(EARLY)], RowOf(EDIT_POLL), id);
    HeadSnoc(l1 + [RowOf(EARLY)] + [RowOf(EDIT_POLL)], RowOf(LATER), id);
  }

  lemma PollIsEdited(first: seq<At>, l2: Log)
    requires Reaches(first, l2, map[]) && l2 == [RowOf(MAKE_POLL)] + [RowOf(EARLY)]
    ensures Reaches(first + [CallOf(EDIT_POLL)], l2 + [RowOf(EDIT_POLL)], map[])
  {
    FirstHeads(l2, l2 + [RowOf(EDIT_POLL)]);
    RunSnoc(first, CallOf(EDIT_POLL));
    PollEdited(SignedRun(DemoOracle(), first));
  }

  lemma FirstCommentStands(start: seq<At>, first: seq<At>)
    requires start == [ENTER] + [CallOf(MAKE_POLL)] && first == start + [CallOf(EARLY)]
    ensures Reaches(first, [RowOf(MAKE_POLL)] + [RowOf(EARLY)], map[])
  {
    Opened(start);
    PollHeads([RowOf(MAKE_POLL)]);
    AddComment(start, [RowOf(MAKE_POLL)], EARLY, 20, RowOf(MAKE_POLL));
  }

  lemma CommentsStand(start: seq<At>, first: seq<At>, edited: seq<At>, second: seq<At>)
    requires start == [ENTER] + [CallOf(MAKE_POLL)] && first == start + [CallOf(EARLY)]
    requires edited == first + [CallOf(EDIT_POLL)] && second == edited + [CallOf(LATER)]
    ensures Reaches(second, Comments(), map[])
  {
    var l2 := [RowOf(MAKE_POLL)] + [RowOf(EARLY)];
    FirstCommentStands(start, first);
    PollIsEdited(first, l2);
    FirstHeads(l2, l2 + [RowOf(EDIT_POLL)]);
    AddComment(edited, l2 + [RowOf(EDIT_POLL)], LATER, 21, RowOf(EDIT_POLL));
  }

  lemma DriftHeads(typ: RecordType, id: EntityId)
    ensures Head(DriftLog(typ), id) == if id == 10 then Some(RowOf(EDIT_POLL))
      else if id == 20 then Some(RowOf(EarlyAs(typ))) else if id == 21 then Some(RowOf(LaterAs(typ))) else None
  {
    CommentHeads(id);
    HeadSnoc(Comments(), RowOf(EarlyAs(typ)), id);
    HeadSnoc(Comments() + [RowOf(EarlyAs(typ))], RowOf(LaterAs(typ)), id);
  }

  lemma BothPass(typ: RecordType, log: Log)
    requires typ != PlatformOps && log == Comments() + [RowOf(EarlyAs(typ))]
    ensures Passes(Comments(), EarlyAs(typ), RowOf(EARLY)) && Passes(log, LaterAs(typ), RowOf(LATER))
  {
    forall id { CommentHeads(id); }
    forall id { HeadSnoc(Comments(), RowOf(EarlyAs(typ)), id); }
    assert forall t | t in Comments() :: t.env.txId <= 4;
  }

  /** The run is accepted call by call. */
  lemma DriftReaches(typ: RecordType, start: seq<At>, first: seq<At>, edited: seq<At>, second: seq<At>)
    requires typ != PlatformOps && start == [ENTER] + [CallOf(MAKE_POLL)] && first == start + [CallOf(EARLY)]
    requires edited == first + [CallOf(EDIT_POLL)] && second == edited + [CallOf(LATER)]
    ensures Reaches(second + [CallOf(EarlyAs(typ))] + [CallOf(LaterAs(typ))], DriftLog(typ), map[])
    ensures second + [CallOf(EarlyAs(typ))] + [CallOf(LaterAs(typ))] == Drift(typ)
  {
    var log := Comments() + [RowOf(EarlyAs(typ))];
    CommentsStand(start, first, edited, second);
    BothPass(typ, log);
    AddEdit(second, Comments(), map[], EarlyAs(typ), RowOf(EARLY));
    AddEdit(second + [CallOf(EarlyAs(typ))], log, map[], LaterAs(typ), RowOf(LATER));
  }

  lemma Drifted(typ: RecordType)
    requires typ != PlatformOps
    ensures Reaches(Drift(typ), DriftLog(typ), map[])
  {
    var start := [ENTER] + [CallOf(MAKE_POLL)];
    var first := start + [CallOf(EARLY)];
    var edited := first + [CallOf(EDIT_POLL)];
    DriftReaches(typ, start, first, edited, edited + [CallOf(LATER)]);
  }

  lemma DriftActives(typ: RecordType, log: Log)
    requires log == DriftLog(typ) && typ != Poll
    ensures (set t | t in Heads(log) && t.env.typ == typ) == {RowOf(EarlyAs(typ)), RowOf(LaterAs(typ))}
  {
    forall t | t in Heads(log) && t.env.typ == typ ensures t == RowOf(EarlyAs(typ)) || t == RowOf(LaterAs(typ)) {
      DriftHeads(typ, t.env.entityId);
    }
    DriftHeads(typ, 20);
    DriftHeads(typ, 21);
    HeadFacts(log, 20);
    HeadFacts(log, 21);
  }

  /** Both comments are declared reactions: every reaction is pinned, yet their one author counts once for the parent
    * and twice over its revisions. */
  lemma OneAuthorTwoRevisions(evs: seq<At>)
    requires evs == Drift(Reaction)
    ensures var end := SignedRun(DemoOracle(), evs);
      && RevisionsOf(end.log, 10, [1, 3]) && Unpinned(end, 10, None) == {}
      && CountByEntity(end, 10, None) == 1 && SumByRevision(end, [1, 3], None) == 2
  {
    Drifted(Reaction);
    DriftActives(Reaction, DriftLog(Reaction));
    DriftRevisions(DriftLog(Reaction));
    CountedTwice(SignedRun(DemoOracle(), evs));
  }

  lemma DriftRevisions(log: Log)
    requires log == DriftLog(Reaction)
    ensures RevisionsOf(log, 10, [1, 3])
  {
    assert log[0] == RowOf(MAKE_POLL) && log[2] == RowOf(EDIT_POLL);
    assert forall t | t in log && t.env.entityId == 10 :: t == RowOf(MAKE_POLL) || t == RowOf(EDIT_POLL);
  }

  lemma CountedTwice(st: Store)
    requires DemoState(st) && st.log == DriftLog(Reaction)
    requires var a, b := RowOf(EarlyAs(Reaction)), RowOf(LaterAs(Reaction));
      (set t | t in Heads(st.log) && t.env.typ == Reaction) == {a, b}
    ensures Unpinned(st, 10, None) == {} && CountByEntity(st, 10, None) == 1 && SumByRevision(st, [1, 3], None) == 2
  {
    var a, b, me := RowOf(EarlyAs(Reaction)), RowOf(LaterAs(Reaction)), ByAuthor(Pubkey(1));
    var both := set t | t in Heads(st.log) && t.env.typ == Reaction;
    assert a in both && b in both;
    assert KindOf(st.plain, a) == KindOf(st.plain, b) == None;
    forall t ensures t in ReactionsOf(st, None) <==> t in {a, b} { assert t in both <==> t in {a, b}; }
    SameAuthor(st, a, b, me);
    assert [1, 3][1..] == [3] && [3][1..] == [];
    assert SumByRevision(st, [], None) == 0 && SumByRevision(st, [3], None) == 1;
  }

  lemma SameAuthor(st: Store, a: Tx, b: Tx, me: Participant)
    requires (forall t :: t in ReactionsOf(st, None) <==> t in {a, b}) && ParticipantOf(a) == ParticipantOf(b) == me
    requires a.env.parentId == b.env.parentId == Some(10) && a.env.parentType.Some? && b.env.parentType.Some?
    requires a.env.parentRevisionHash == Some(1) && b.env.parentRevisionHash == Some(3)
    ensures CountByRevision(st, 1, None) == CountByRevision(st, 3, None) == CountByEntity(st, 10, None) == 1
    ensures Unpinned(st, 10, None) == {}
  {
    assert ReactionsOn(st, 10, None) == {a, b} && Image({a, b}, ParticipantOf) == {me};
    assert SupportOf(st, 1, None) == {a} && Image({a}, ParticipantOf) == {me};
    assert SupportOf(st, 3, None) == {b} && Image({b}, ParticipantOf) == {me};
  }

  /** Both comments are declared votes for the same option: erasing one leaves the option's count as it was. */
  lemma ErasureBesideAnother(evs: seq<At>)
    requires evs == Drift(Vote)
    ensures var o := DemoOracle(); var end, after := SignedRun(o, evs), SignedRun(o, evs + [At.At(Forget(5), 0)]);
      && ErasesOption(end, 5, 10, Some("yes"))
      && PollCount(after, 10, Some("yes")) == PollCount(end, 10, Some("yes"))
  {
    Drifted(Vote);
    DriftActives(Vote, DriftLog(Vote));
    RunSnoc(evs, At.At(Forget(5), 0));
    BothRecorded(SignedRun(DemoOracle(), evs));
    DriftHashed(DriftLog(Vote));
    ErasureMovesExactly(DemoOracle(), SignedRun(DemoOracle(), evs), 5, 0, 10, Some("yes"));
  }

  lemma DriftHashed(log: Log)
    requires log == DriftLog(Vote)
    ensures Hashed(DemoOracle(), log)
  {
  }

  lemma BothRecorded(st: Store)
    requires DemoState(st) && st.log == DriftLog(Vote)
    requires var a, b := RowOf(EarlyAs(Vote)), RowOf(LaterAs(Vote));
      (set t | t in Heads(st.log) && t.env.typ == Vote) == {a, b}
    ensures ErasesOption(st, 5, 10, Some("yes")) && !ErasesAlone(st, 5, 10, Some("yes"))
  {
    var a, b := RowOf(EarlyAs(Vote)), RowOf(LaterAs(Vote));
    var both := set t | t in Heads(st.log) && t.env.typ == Vote;
    assert a in both && b in both;
    assert OptionOf(st.plain, a) == OptionOf(st.plain, b) == Some("yes");
    assert a in ActivesOn(st.log, Vote, 10) && RecordedBy(st, a, 5, Some("yes"));
    assert b in Voters(st, 10, Some("yes")) && ParticipantOf(a) == ParticipantOf(b) && a != b;
    forall t | t in ActivesOn(st.log, Vote, 10) && t.env.txId == 5 ensures t == a { assert t in both; }
  }

  // ---- two creates race ------------------------------------------------------------------------------------------

  function SubmissionOf(e: Envelope): Submission { CallOf(e).event.s }

  lemma MachineSnoc(evs: seq<Timed>, ev: Event)
    ensures Run(DemoOracle(), EMPTY, evs + [Timed(ev, 0)]) ==
      Step(DemoOracle(), Run(DemoOracle(), EMPTY, evs), Timed(ev, 0))
  {
    assert (evs + [Timed(ev, 0)])[..|evs|] == evs;
  }

  function Waiting(e: Envelope): Pending { Pending(e, Plain(0, DEMO_BODY)) }

  /** The checks of a vote pass, and the vote waits for its append. */
  lemma VoteChecked(m: Machine, e: Envelope, id: EntityId)
    requires DemoState(m.st) && e == Env(e.txId, id, Vote, Create, Some(POLL), None, Some(7)) && !Exists(m.st.log, id)
    requires Head(m.st.log, 10) == Some(RowOf(MAKE_POLL))
    requires m.st.attested == map[] || m.st.attested == map[(1, 10) := 7]
    requires !ActiveNullifier(m.st.log, 10, 7) && forall t | t in m.st.log :: t.env.txId != e.txId
    ensures Step(DemoOracle(), m, Timed(CheckSigned(SubmissionOf(e)), 0)) ==
      Machine(m.st.(attested := map[(1, 10) := 7]), m.flight + [Waiting(e)])
  {
    CurrentOfLive(m.st.log, 10);
    RootTypeIsRoot(m.st.log, 10);
    assert ParentOf(e) == Some(POLL) && !TakenByAnother(m.st, 1, 10, 7);
    assert m.st.attested[(1, 10) := 7] == map[(1, 10) := 7];
    assert ValidateCreate(DemoOracle(), m.st, Vote, DEMO_BODY, Some(POLL), id, Some(1)) ==
        Ok(Created(Some(1), Some(1), 10, true));
    assert CheckCreate(DemoOracle(), m.st, SubmissionOf(e), ThreadKey(1, 10, 1)) ==
        Checked(m.st.attested[(1, 10) := 7], Ok(()));
  }

  lemma VoteCommitted(m: Machine, e: Envelope, rest: seq<Pending>)
    requires m.flight == [Waiting(e)] + rest && e.op == Create && DemoState(m.st)
    requires !Exists(m.st.log, e.entityId) && forall t | t in m.st.log :: t.env.txId != e.txId
    ensures var after := Step(DemoOracle(), m, Timed(Commit(0), 0));
      after.flight == rest && after.st.log == m.st.log + [RowOf(e)] && after.st.attested == m.st.attested
          && DemoState(after.st)
  {
    assert m.flight[0] == Waiting(e) && m.flight[..0] + m.flight[1..] == rest;
  }

  lemma TwoChecks(m: Machine, m1: Machine, m2: Machine)
    requires m.flight == [] && DemoState(m.st) && m.st.log == [RowOf(MAKE_POLL)] && m.st.attested == map[]
    requires m1 == Step(DemoOracle(), m, Timed(CheckSigned(SubmissionOf(VOTE)), 0))
    requires m2 == Step(DemoOracle(), m1, Timed(CheckSigned(SubmissionOf(AGAIN)), 0))
    ensures m2.flight == [Waiting(VOTE)] + [Waiting(AGAIN)] && DemoState(m2.st) && m2.st.log == m.st.log
  {
    PollHeads(m.st.log);
    VoteChecked(m, VOTE, 20);
    VoteChecked(m1, AGAIN, 21);
  }

  lemma TwoAppends(m2: Machine, m3: Machine, m4: Machine)
    requires m2.flight == [Waiting(VOTE)] + [Waiting(AGAIN)] && DemoState(m2.st) && m2.st.log == [RowOf(MAKE_POLL)]
    requires m3 == Step(DemoOracle(), m2, Timed(Commit(0), 0)) && m4 == Step(DemoOracle(), m3, Timed(Commit(0), 0))
    ensures m4.st.log == [RowOf(MAKE_POLL)] + [RowOf(VOTE)] + [RowOf(AGAIN)]
  {
    PollHeads(m2.st.log);
    VoteCommitted(m2, VOTE, [Waiting(AGAIN)]);
    HeadSnoc(m2.st.log, RowOf(VOTE), 21);
    VoteCommitted(m3, AGAIN, []);
  }

  /** Two votes of one user are checked before either is appended: both land, under one nullifier. */
  lemma TwoChecksThenTwoAppends(m: Machine, m1: Machine, m2: Machine, m3: Machine, m4: Machine)
    requires m.flight == [] && DemoState(m.st) && m.st.log == [RowOf(MAKE_POLL)] && m.st.attested == map[]
    requires m1 == Step(DemoOracle(), m, Timed(CheckSigned(SubmissionOf(VOTE)), 0))
    requires m2 == Step(DemoOracle(), m1, Timed(CheckSigned(SubmissionOf(AGAIN)), 0))
    requires m3 == Step(DemoOracle(), m2, Timed(Commit(0), 0)) && m4 == Step(DemoOracle(), m3, Timed(Commit(0), 0))
    ensures m4.st.log == [RowOf(MAKE_POLL)] + [RowOf(VOTE)] + [RowOf(AGAIN)] && !NoClash(m4.st)
  {
    TwoChecks(m, m1, m2);
    TwoAppends(m2, m3, m4);
    TwoUnderOne(m4.st, m.st.log);
  }

  lemma TwoUnderOne(st: Store, l1: Log)
    requires l1 == [RowOf(MAKE_POLL)] && st.log == l1 + [RowOf(VOTE)] + [RowOf(AGAIN)]
    ensures !NoClash(st)
  {
    HeadsSnoc(l1, RowOf(VOTE), RowOf(VOTE));
    HeadsSnoc(l1 + [RowOf(VOTE)], RowOf(AGAIN), RowOf(VOTE));
    HeadsSnoc(l1 + [RowOf(VOTE)], RowOf(AGAIN), RowOf(AGAIN));
    assert IsActive(st, RowOf(VOTE)) && IsActive(st, RowOf(AGAIN)) && Clash(RowOf(VOTE), RowOf(AGAIN));
  }

  /** The run that opens the poll. */
  function Opening(): seq<Timed> {
    [Timed(Join(Pubkey(1), ThreadKey(1, 10, 1)), 0)]
    + [Timed(CheckSigned(SubmissionOf(MAKE_POLL)), 0)] + [Timed(Commit(0), 0)]
  }

  lemma OpeningRuns(join: seq<Timed>, checked: seq<Timed>, evs: seq<Timed>)
    requires join == [Timed(Join(Pubkey(1), ThreadKey(1, 10, 1)), 0)]
    requires checked == join + [Timed(CheckSigned(SubmissionOf(MAKE_POLL)), 0)]
    requires evs == checked + [Timed(Commit(0), 0)]
    ensures var m := Run(DemoOracle(), EMPTY, evs);
      m.flight == [] && DemoState(m.st) && m.st.log == [RowOf(MAKE_POLL)] && m.st.attested == map[]
  {
    MachineSnoc([], Join(Pubkey(1), ThreadKey(1, 10, 1)));
    assert [] + join == join;
    MachineSnoc(join, CheckSigned(SubmissionOf(MAKE_POLL)));
    MachineSnoc(checked, Commit(0));
    var m1 := Run(DemoOracle(), EMPTY, join);
    assert m1.st.keys == KEYS && m1.st.log == [] && m1.flight == [] && DemoState(m1.st);
    var m2 := Run(DemoOracle(), EMPTY, checked);
    assert m2 == m1.(flight := [Waiting(MAKE_POLL)]);
    VoteCommitted(m2, MAKE_POLL, []);
  }

  /** The race as a run from the empty store. */
  lemma RacingVotes(evs: seq<Timed>, e1: seq<Timed>, e2: seq<Timed>, e3: seq<Timed>, e4: seq<Timed>)
    requires evs == Opening() && e1 == evs + [Timed(CheckSigned(SubmissionOf(VOTE)), 0)]
    requires e2 == e1 + [Timed(CheckSigned(SubmissionOf(AGAIN)), 0)] && e3 == e2 + [Timed(Commit(0), 0)]
    requires e4 == e3 + [Timed(Commit(0), 0)]
    ensures !NoClash(Run(DemoOracle(), EMPTY, e4).st)
  {
    var join := [Timed(Join(Pubkey(1), ThreadKey(1, 10, 1)), 0)];
    OpeningRuns(join, join + [Timed(CheckSigned(SubmissionOf(MAKE_POLL)), 0)], evs);
    MachineSnoc(evs, CheckSigned(SubmissionOf(VOTE)));
    MachineSnoc(e1, CheckSigned(SubmissionOf(AGAIN)));
    MachineSnoc(e2, Commit(0));
    MachineSnoc(e3, Commit(0));
    var o := DemoOracle();
    TwoChecksThenTwoAppends(Run(o, EMPTY, evs), Run(o, EMPTY, e1), Run(o, EMPTY, e2), Run(o, EMPTY, e3),
        Run(o, EMPTY, e4));
  }
}
