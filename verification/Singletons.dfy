/** Signed-only runs of whole `appendSigned` calls: one active singleton per (user, parent), one nullifier for
  * every row of a singleton, and one thread per persona. */
module Singletons {
  import opened Wrappers
  import opened RecordTypes
  import opened RecordLog
  import opened RecordShape
  import opened RecordSpec
  import opened RecordRuns
  import opened RootMoves
  import opened ParentWalks
  import opened Iteration

  datatype SignedEvent =
    | Call(s: Submission)
    | Enter(key: Key, tk: ThreadKey)
    | Forget(txId: TxId)
    | Anchor(txId: TxId)

  datatype At = At(event: SignedEvent, now: int)

  function SignedStep(o: Oracle, st: Store, ev: At): Store {
    match ev.event
    case Call(s) => Submit(o, st, s, ev.now).0
    case Enter(key, tk) => JoinThread(st, key, tk)
    case Forget(x) => st.(plain := st.plain - {x})
    case Anchor(x) => SettleTx(st, x)
  }

  function SignedRun(o: Oracle, evs: seq<At>): Store
    decreases |evs|
  {
    if |evs| == 0 then EMPTY.st else SignedStep(o, SignedRun(o, evs[..|evs| - 1]), evs[|evs| - 1])
  }

  /** A call is rejected or faithful. */
  predicate FaithfulIfAccepted(o: Oracle, st: Store, ev: At) {
    ev.event.Call? && Submit(o, st, ev.event.s, ev.now).1.Ok? ==> Faithful(st.log, ev.event.s.env)
  }

  /** Every call the run accepted was faithful when it was made. */
  predicate FaithfulCalls(o: Oracle, evs: seq<At>)
    decreases |evs|
  {
    |evs| == 0 || (var prior := evs[..|evs| - 1];
      FaithfulCalls(o, prior) && FaithfulIfAccepted(o, SignedRun(o, prior), evs[|evs| - 1]))
  }

  /** A signed-only run ends in a well-formed log exactly when each call it accepted was faithful; one that was not
    * spoils every continuation. */
  lemma {:induction false} RunIsWellFormedExactly(o: Oracle, evs: seq<At>)
    ensures WellFormed(SignedRun(o, evs).log) <==> FaithfulCalls(o, evs)
    decreases |evs|
  {
    if |evs| > 0 {
      var prior := evs[..|evs| - 1];
      var st, ev := SignedRun(o, prior), evs[|evs| - 1];
      RunIsWellFormedExactly(o, prior);
      if ev.event.Call? { CallExtends(o, st, ev.event.s, ev.now); }
    }
  }

  lemma CallExtends(o: Oracle, st: Store, s: Submission, now: int)
    ensures var (after, r) := Submit(o, st, s, now);
      if r.Ok? then WellFormed(after.log) <==> WellFormed(st.log) && Faithful(st.log, s.env) else after.log == st.log
  {
    var (after, r) := Submit(o, st, s, now);
    if r.Ok? {
      Snoc(st.log, Tx(s.env, o.leafHash(s.env)));
      if WellFormed(st.log) { SubmitKeepsIffFaithful(o, st, s, now); }
    }
  }

  /** A whole call is its checks followed at once by its append. */
  lemma CallIsCheckThenCommit(o: Oracle, st: Store, s: Submission, now: int)
    ensures Step(o, Step(o, Machine(st, []), Timed(CheckSigned(s), now)), Timed(Commit(0), now))
         == Machine(Submit(o, st, s, now).0, [])
  {
  }

  lemma {:induction false} SignedRunIsChained(o: Oracle, evs: seq<At>)
    requires CollisionFree(o)
    ensures Chained(SignedRun(o, evs).log) && Hashed(o, SignedRun(o, evs).log)
    decreases |evs|
  {
    if |evs| > 0 {
      var st, ev := SignedRun(o, evs[..|evs| - 1]), evs[|evs| - 1];
      SignedRunIsChained(o, evs[..|evs| - 1]);
      if ev.event.Call? && Submit(o, st, ev.event.s, ev.now).1.Ok? { CallKeepsChain(o, st, ev.event.s, ev.now); }
    }
  }

  // ---- the invariant -----------------------------------------------------------------------------------

  function UserOf(st: Store, t: Tx): UserId
    requires t.env.author in st.keys
  {
    st.keys[t.env.author].userId
  }

  predicate IsActive(st: Store, t: Tx) { t in Heads(st.log) && t.env.op != Delete }

  /** A row carries a nullifier exactly when its type is a singleton's. */
  predicate Marked(t: Tx) { IsSingleton(t.env.typ) <==> t.env.nullifier.Some? }

  /** A singleton's row carries a nullifier; others may. */
  predicate Bears(t: Tx) { IsSingleton(t.env.typ) ==> t.env.nullifier.Some? }

  /** A row's author is a known persona, and the nullifier of a row is the one attested for its author's user and its
    * parent. */
  predicate RowOk(st: Store, t: Tx) {
    && t.env.author in st.keys && Bears(t)
    && (t.env.nullifier.Some? ==>
      && ParentOf(t.env).Some?
      && (UserOf(st, t), t.env.parentId.value) in st.attested
      && t.env.nullifier == Some(st.attested[(UserOf(st, t), t.env.parentId.value)]))
  }

  /** What keeps singletons one per user. It does not need a well-formed log. */
  ghost predicate SlotInv(st: Store) {
    && Platform !in st.keys
    && (forall t | t in st.log :: RowOk(st, t))
    && (forall a, b | a in st.attested && b in st.attested && a.1 == b.1 && st.attested[a] == st.attested[b] :: a == b)
    && NoClash(st)
  }

  ghost predicate SignedInv(o: Oracle, st: Store) {
    WellFormed(st.log) && Hashed(o, st.log) && SlotInv(st)
  }

  ghost predicate NoClash(st: Store) {
    forall t, u | IsActive(st, t) && IsActive(st, u) :: Clash(t, u) ==> t == u
  }

  predicate Clash(t: Tx, u: Tx) {
    t.env.parentId == u.env.parentId && t.env.nullifier == u.env.nullifier && t.env.nullifier.Some?
  }

  lemma HeadsSnoc(log: Log, t: Tx, x: Tx)
    ensures x in Heads(log + [t]) <==> x == t || (x in Heads(log) && x.env.entityId != t.env.entityId)
  {
    Snoc(log, t);
    if x in Heads(log + [t]) && x != t { HeadFacts(log, x.env.entityId); }
  }

  // ---- what an accepted call did, on any log ---------------------------------------------------------------

  /** What the checks of an accepted create say about its author and its nullifier. */
  lemma CreateChecks(o: Oracle, st: Store, s: Submission, now: int)
    requires SignedCheck(o, st, s, now).verdict.Ok? && s.env.op == Create
    ensures var e, a := s.env, SignedCheck(o, st, s, now).attested;
      && e.author in st.keys && !Exists(st.log, e.entityId)
      && (IsSingleton(e.typ) <==> e.nullifier.Some?)
      && (IsSingleton(e.typ) ==> ParentOf(e).Some?)
      && (IsSingleton(e.typ) ==>
            var k := (st.keys[e.author].userId, e.parentId.value);
            k in a && Some(a[k]) == e.nullifier && !ActiveNullifier(st.log, e.parentId.value, e.nullifier.value))
  {
  }

  /** What the checks of an accepted edit say: a live head of the same author and parent, whose type decides the
    * nullifier. The declared type is not among them. */
  lemma EditChecks(o: Oracle, st: Store, s: Submission, now: int)
    requires SignedCheck(o, st, s, now).verdict.Ok? && s.env.op != Create
    ensures var e := s.env;
      && e.author in st.keys && IsLive(st.log, e.entityId) && SignedCheck(o, st, s, now).attested == st.attested
      && var h := Head(st.log, e.entityId).value.env;
      && (e.author == h.author || e.author == Platform)
      && e.parentType == h.parentType && e.parentId == h.parentId
      && (IsSingleton(h.typ) ==> h.nullifier.Some? && e.nullifier == h.nullifier)
      && (!IsSingleton(h.typ) ==> e.nullifier.None?)
  {
  }

  /** Attestations are permanent and stay injective per parent, whether or not the call is accepted. */
  lemma AttestationsKept(o: Oracle, st: Store, s: Submission, now: int)
    requires SlotInv(st)
    ensures var a := SignedCheck(o, st, s, now).attested;
      && (forall k | k in st.attested :: k in a && a[k] == st.attested[k])
      && (forall x, y | x in a && y in a && x.1 == y.1 && a[x] == a[y] :: x == y)
  {
  }

  /** The edit declares a singleton's type for an entity that has another: the one thing that breaks the singleton
    * rule, and a caller can see it before the call. */
  predicate Promotes(log: Log, e: Envelope) {
    && e.op != Create && IsSingleton(e.typ)
    && Head(log, e.entityId).Some? && !IsSingleton(Head(log, e.entityId).value.env.typ)
  }

  /** The edit declares a singleton's type exactly when its entity has one. */
  predicate KindKept(log: Log, e: Envelope) {
    e.op != Create && Head(log, e.entityId).Some? ==>
      (IsSingleton(e.typ) <==> IsSingleton(Head(log, e.entityId).value.env.typ))
  }

  /** An accepted call's row is in order exactly when it promotes nothing, and marked as its type asks exactly when it
    * keeps its entity's kind. */
  lemma RowIsOkExactly(o: Oracle, st: Store, s: Submission, now: int)
    requires SlotInv(st) && Submit(o, st, s, now).1.Ok?
    ensures var after := Submit(o, st, s, now).0; var t := Tx(s.env, o.leafHash(s.env));
      && after.log == st.log + [t] && after.keys == st.keys
      && (RowOk(after, t) <==> !Promotes(st.log, s.env)) && (Marked(t) <==> KindKept(st.log, s.env))
      && (Bears(t) <==> !Promotes(st.log, s.env))
  {
    AttestationsKept(o, st, s, now);
    if s.env.op == Create {
      CreateChecks(o, st, s, now);
    } else {
      EditChecks(o, st, s, now);
      HeadFacts(st.log, s.env.entityId);
      assert RowOk(st, Head(st.log, s.env.entityId).value);
    }
  }

  /** An accepted row clashes with no other active row: a create was checked for it, and an edit takes the place of a
    * head that clashed with none. */
  lemma NoClashKept(st: Store, t: Tx)
    requires NoClash(st)
    requires t.env.op == Create && t.env.nullifier.Some? ==>
      t.env.parentId.Some? && !ActiveNullifier(st.log, t.env.parentId.value, t.env.nullifier.value)
    requires t.env.op != Create ==> IsLive(st.log, t.env.entityId)
    requires t.env.op != Create && t.env.nullifier.Some? ==>
      var h := Head(st.log, t.env.entityId).value.env; h.nullifier == t.env.nullifier && h.parentId == t.env.parentId
    ensures NoClash(st.(log := st.log + [t]))
  {
    var after := st.(log := st.log + [t]);
    Snoc(st.log, t);
    forall x, y | IsActive(after, x) && IsActive(after, y) ensures Clash(x, y) ==> x == y {
      HeadsSnoc(st.log, t, x);
      HeadsSnoc(st.log, t, y);
      if Clash(x, y) && x != y {
        var other := if x == t then y else x;
        assert IsActive(st, other);
        if x == t || y == t {
          if t.env.op != Create {
            HeadFacts(st.log, t.env.entityId);
            assert IsActive(st, Head(st.log, t.env.entityId).value);
          }
        } else {
          assert IsActive(st, x) && IsActive(st, y);
        }
      }
    }
  }

  /** The invariant does not read the contents or the ledger. */
  lemma SameInv(st: Store, other: Store)
    requires SlotInv(st)
    requires other.log == st.log && other.attested == st.attested && other.keys == st.keys
    ensures SlotInv(other)
  {
    assert forall x :: RowOk(st, x) <==> RowOk(other, x);
    assert forall x :: IsActive(st, x) <==> IsActive(other, x);
  }

  lemma AttestingKeeps(st: Store, attested: map<(UserId, EntityId), Nullifier>)
    requires SlotInv(st) && forall k | k in st.attested :: k in attested && attested[k] == st.attested[k]
    requires forall x, y | x in attested && y in attested && x.1 == y.1 && attested[x] == attested[y] :: x == y
    ensures SlotInv(st.(attested := attested))
  {
    var mid := st.(attested := attested);
    assert forall x | x in st.log :: RowOk(st, x) ==> RowOk(mid, x);
    assert forall x :: IsActive(mid, x) <==> IsActive(st, x);
  }

  /** A call that promotes nothing, or is refused, keeps the invariant. */
  lemma CallKeeps(o: Oracle, st: Store, s: Submission, now: int)
    requires SlotInv(st) && (Submit(o, st, s, now).1.Ok? ==> !Promotes(st.log, s.env))
    ensures SlotInv(Submit(o, st, s, now).0)
  {
    AttestationsKept(o, st, s, now);
    var mid := st.(attested := SignedCheck(o, st, s, now).attested);
    AttestingKeeps(st, mid.attested);
    if Submit(o, st, s, now).1.Ok? {
      var t := Tx(s.env, o.leafHash(s.env));
      var grown := mid.(log := st.log + [t]);
      RowIsOkExactly(o, st, s, now);
      if s.env.op == Create {
        CreateChecks(o, st, s, now);
      } else {
        EditChecks(o, st, s, now);
        HeadFacts(st.log, s.env.entityId);
        assert RowOk(st, Head(st.log, s.env.entityId).value);
      }
      NoClashKept(mid, t);
      assert forall x | x in st.log :: RowOk(mid, x) ==> RowOk(grown, x);
      SameInv(grown, Submit(o, st, s, now).0);
    }
  }

  lemma {:induction false} RowExists(log: Log, t: Tx)
    requires t in log
    ensures Exists(log, t.env.entityId)
  {
    assert log == Front(log) + [Last(log)];
    if Last(log).env.entityId != t.env.entityId { RowExists(Front(log), t); }
  }

  // ---- over all signed runs --------------------------------------------------------------------------------

  /** The condition on one step: no accepted edit promotes its entity. */
  predicate PromotesNone(o: Oracle, st: Store, ev: At) {
    ev.event.Call? && Submit(o, st, ev.event.s, ev.now).1.Ok? ==> !Promotes(st.log, ev.event.s.env)
  }

  /** No edit the run accepted promoted its entity. */
  predicate NonePromoted(o: Oracle, evs: seq<At>)
    decreases |evs|
  {
    |evs| == 0 || (var prior := evs[..|evs| - 1];
      NonePromoted(o, prior) && PromotesNone(o, SignedRun(o, prior), evs[|evs| - 1]))
  }

  lemma StepKeepsSlots(o: Oracle, st: Store, ev: At)
    requires SlotInv(st) && PromotesNone(o, st, ev)
    ensures SlotInv(SignedStep(o, st, ev))
  {
    match ev.event
    case Call(s) => CallKeeps(o, st, s, ev.now);
    case _ =>
      var after := SignedStep(o, st, ev);
      assert forall t | t in st.log :: RowOk(st, t) ==> RowOk(after, t);
      assert Heads(after.log) == Heads(st.log);
      assert forall t :: IsActive(after, t) <==> IsActive(st, t);
  }

  /** An accepted call that promotes its entity leaves a singleton's row without a nullifier, which stays. */
  lemma PromotedIsUnmarked(o: Oracle, st: Store, ev: At)
    requires !PromotesNone(o, st, ev)
    ensures exists t :: t in SignedStep(o, st, ev).log && !Bears(t)
  {
    EditChecks(o, st, ev.event.s, ev.now);
    var t := Tx(ev.event.s.env, o.leafHash(ev.event.s.env));
    assert t in SignedStep(o, st, ev).log && !Bears(t);
  }

  lemma StepKeepsRows(o: Oracle, st: Store, ev: At, t: Tx)
    requires t in st.log
    ensures t in SignedStep(o, st, ev).log
  {
  }

  /** A signed-only run keeps the singleton invariant exactly when no edit it accepted promoted its entity: one that did
    * leaves its mark in every continuation. */
  lemma {:induction false} SlotsKeptExactly(o: Oracle, evs: seq<At>)
    ensures SlotInv(SignedRun(o, evs)) <==> NonePromoted(o, evs)
    ensures (forall t | t in SignedRun(o, evs).log :: Bears(t)) <==> NonePromoted(o, evs)
    decreases |evs|
  {
    if |evs| > 0 {
      var prior := evs[..|evs| - 1];
      var st, ev := SignedRun(o, prior), evs[|evs| - 1];
      SlotsKeptExactly(o, prior);
      if NonePromoted(o, evs) {
        StepKeepsSlots(o, st, ev);
        assert forall t | t in SignedRun(o, evs).log :: RowOk(SignedRun(o, evs), t);
      } else if NonePromoted(o, prior) {
        PromotedIsUnmarked(o, st, ev);
        var t :| t in SignedRun(o, evs).log && !Bears(t);
        assert !RowOk(SignedRun(o, evs), t);
      } else {
        var t :| t in st.log && !Bears(t);
        StepKeepsRows(o, st, ev, t);
        assert !RowOk(SignedRun(o, evs), t);
      }
    }
  }

  /** Every edit the run accepted kept its entity's kind. */
  predicate KindKeptCalls(o: Oracle, evs: seq<At>)
    decreases |evs|
  {
    |evs| == 0 || (var prior := evs[..|evs| - 1]; var st, ev := SignedRun(o, prior), evs[|evs| - 1];
      && KindKeptCalls(o, prior)
      && (ev.event.Call? && Submit(o, st, ev.event.s, ev.now).1.Ok? ==> KindKept(st.log, ev.event.s.env)))
  }

  /** Rows are marked exactly as their types ask as long as edits keep kinds in both directions. */
  lemma {:induction false} MarkedExactly(o: Oracle, evs: seq<At>)
    ensures (forall t | t in SignedRun(o, evs).log :: Marked(t)) <==> KindKeptCalls(o, evs)
    decreases |evs|
  {
    if |evs| > 0 {
      var prior := evs[..|evs| - 1];
      var st, ev := SignedRun(o, prior), evs[|evs| - 1];
      MarkedExactly(o, prior);
      forall t | t in st.log ensures t in SignedRun(o, evs).log { StepKeepsRows(o, st, ev, t); }
      if ev.event.Call? && Submit(o, st, ev.event.s, ev.now).1.Ok? {
        CallMarks(o, st, ev.event.s, ev.now);
        assert Tx(ev.event.s.env, o.leafHash(ev.event.s.env)) in SignedRun(o, evs).log;
      }
    }
  }

  lemma CallMarks(o: Oracle, st: Store, s: Submission, now: int)
    requires Submit(o, st, s, now).1.Ok?
    ensures var t := Tx(s.env, o.leafHash(s.env));
      Submit(o, st, s, now).0.log == st.log + [t] && (Marked(t) <==> KindKept(st.log, s.env))
  {
    if s.env.op == Create { CreateChecks(o, st, s, now); } else { EditChecks(o, st, s, now); }
  }

  lemma {:induction false} FaithfulCallsPromoteNone(o: Oracle, evs: seq<At>)
    requires FaithfulCalls(o, evs)
    ensures NonePromoted(o, evs)
    decreases |evs|
  {
    if |evs| > 0 { FaithfulCallsPromoteNone(o, evs[..|evs| - 1]); }
  }

  /** Every signed-only run whose accepted calls were faithful keeps the whole invariant. */
  lemma SignedRunKeeps(o: Oracle, evs: seq<At>)
    requires CollisionFree(o) && FaithfulCalls(o, evs)
    ensures SignedInv(o, SignedRun(o, evs))
  {
    RunIsWellFormedExactly(o, evs);
    SignedRunIsChained(o, evs);
    FaithfulCallsPromoteNone(o, evs);
    SlotsKeptExactly(o, evs);
  }

  // ---- the theorems --------------------------------------------------------------------------------------

  /** The singleton facts that hold of a store: for two singleton rows on one parent, the nullifiers are the
    * attested ones and agree exactly when the users do; and if both rows are active and the users agree, the
    * rows are the same. So active singletons on a parent map injectively to users. */
  ghost predicate OneSingletonPerUser(st: Store) {
    forall t, u | t in st.log && u in st.log && IsSingleton(t.env.typ) && IsSingleton(u.env.typ)
                  && t.env.parentId == u.env.parentId ::
      && t.env.author in st.keys && u.env.author in st.keys && t.env.parentId.Some?
      && (UserOf(st, t), t.env.parentId.value) in st.attested
      && t.env.nullifier == Some(st.attested[(UserOf(st, t), t.env.parentId.value)])
      && (t.env.nullifier == u.env.nullifier <==> UserOf(st, t) == UserOf(st, u))
      && (IsActive(st, t) && IsActive(st, u) && UserOf(st, t) == UserOf(st, u) ==> t == u)
  }

  lemma InvGivesOneSingleton(st: Store)
    requires SlotInv(st)
    ensures OneSingletonPerUser(st)
  {
    forall t, u | t in st.log && u in st.log && IsSingleton(t.env.typ) && IsSingleton(u.env.typ)
                  && t.env.parentId == u.env.parentId
      ensures RowOk(st, t) && RowOk(st, u)
      ensures Clash(t, u) <==> UserOf(st, t) == UserOf(st, u)
    {
    }
  }

  /** The rule holds in a state reached by signed calls, through casts, changes, revocations and re-creations, if and
    * only if no edit accepted on the way promoted its entity. */
  lemma OneSingletonPerUserExactly(o: Oracle, evs: seq<At>)
    ensures OneSingletonPerUser(SignedRun(o, evs)) <==> NonePromoted(o, evs)
  {
    SlotsKeptExactly(o, evs);
    var st := SignedRun(o, evs);
    if NonePromoted(o, evs) {
      InvGivesOneSingleton(st);
    } else {
      var t :| t in st.log && !Bears(t);
      UnmarkedBreaksTheRule(st, t);
    }
  }

  lemma UnmarkedBreaksTheRule(st: Store, t: Tx)
    requires t in st.log && !Bears(t)
    ensures !OneSingletonPerUser(st)
  {
  }

  // ---- threads ---------------------------------------------------------------------------------------------

  /** The root the service computed for row `i`, from the log before it. */
  function RootWhen(log: Log, i: nat): Option<EntityId>
    requires i < |log|
  {
    var e := log[i].env;
    if e.op == Create then
      if IsRootType(e.typ) || ParentOf(e).None? then Some(e.entityId) else WalkRoot(log[..i], e.parentId.value)
    else if Exists(log[..i], e.entityId) then HeadRoot(log[..i], Head(log[..i], e.entityId).value)
    else None
  }

  ghost predicate InItsThreadThen(st: Store, i: nat)
    requires i < |st.log|
  {
    var key := st.log[i].env.author;
    key in st.keys && RootWhen(st.log, i) == Some(st.keys[key].threadId)
  }

  lemma CallInThread(o: Oracle, st: Store, s: Submission, now: int)
    requires SignedCheck(o, st, s, now).verdict.Ok?
    ensures var log := st.log + [Tx(s.env, o.leafHash(s.env))];
      s.env.author in st.keys && RootWhen(log, |st.log|) == Some(st.keys[s.env.author].threadId)
  {
    var log := st.log + [Tx(s.env, o.leafHash(s.env))];
    assert log[..|st.log|] == st.log;
  }

  /** In every signed-only run each row was written under the root of its persona's thread: all rows by one persona,
    * under one root as the service computed it. */
  lemma {:induction false} PersonaStaysInItsThread(o: Oracle, evs: seq<At>, i: nat)
    requires i < |SignedRun(o, evs).log|
    ensures InItsThreadThen(SignedRun(o, evs), i)
    decreases |evs|
  {
    var prior := evs[..|evs| - 1];
    var st, ev, after := SignedRun(o, prior), evs[|evs| - 1], SignedRun(o, evs);
    StepKeepsKeys(o, st, ev);
    if i < |st.log| {
      PersonaStaysInItsThread(o, prior, i);
      assert after.log[..i] == st.log[..i] && after.log[i] == st.log[i];
    } else {
      CallInThread(o, st, ev.event.s, ev.now);
    }
  }

  /** A step appends at most one row, by an accepted call, and changes no thread key. */
  lemma StepKeepsKeys(o: Oracle, st: Store, ev: At)
    ensures var after := SignedStep(o, st, ev);
      && (forall k | k in st.keys :: k in after.keys && after.keys[k] == st.keys[k])
      && (after.log == st.log || (ev.event.Call? && SignedCheck(o, st, ev.event.s, ev.now).verdict.Ok?
          && after.keys == st.keys
            && after.log == st.log + [Tx(ev.event.s.env, o.leafHash(ev.event.s.env))]))
  {
  }

  lemma RowRootAgrees(before: Log, t: Tx)
    requires WellFormed(before + [t])
    ensures RootWhen(before + [t], |before|) == RootAt(before + [t], t.env.entityId)
  {
    var log, e := before + [t], t.env;
    assert log[..|before|] == before;
    Snoc(before, t);
    RootedAndShallow(log, e.entityId);
    Forest(log, e.entityId);
    if e.op != Create {
      WalkAgrees(before, e.entityId);
      RootedAndShallow(before, e.entityId);
    } else if !IsRootType(e.typ) {
      WalkAgrees(before, e.parentId.value);
      RootedAndShallow(before, e.parentId.value);
    }
  }

  /** On a well-formed log the root then is the root the entity was created under. */
  lemma RootWhenAgrees(log: Log, i: nat)
    requires WellFormed(log) && i < |log|
    ensures RootWhen(log, i) == RootAt(log, log[i].env.entityId)
  {
    var upTo := log[..i] + [log[i]];
    assert upTo == log[..i + 1] && upTo[..i] == log[..i];
    PrefixIsWellFormed(upTo, log);
    Snoc(log[..i], log[i]);
    RowRootAgrees(log[..i], log[i]);
    WellFormedIsChained(log);
    ForestIsImmutable(upTo, log, log[i].env.entityId);
  }

  // ---- one persona, one root --------------------------------------------------------------------------------

  /** Every row's entity lies, by current heads, under the root of its author's thread. */
  ghost predicate InThread(st: Store) {
    && Platform !in st.keys
    && forall t | t in st.log :: UnderItsThread(st, t)
  }

  predicate UnderItsThread(st: Store, t: Tx) {
    t.env.author in st.keys && WalkRoot(st.log, t.env.entityId) == Some(st.keys[t.env.author].threadId)
  }

  /** The row moves the root of an entity that is there already. */
  predicate MovesARoot(log: Log, t: Tx) { exists x | x in log :: MovesRoot(log, t, x.env.entityId) }

  /** What an accepted call appends stands under its author's thread, if it moves no root. */
  lemma NewRowInThread(o: Oracle, st: Store, s: Submission, now: int)
    requires CollisionFree(o) && Chained(st.log) && Hashed(o, st.log) && InThread(st) && Submit(o, st, s, now).1.Ok?
    requires !MovesARoot(st.log, Tx(s.env, o.leafHash(s.env)))
    ensures UnderItsThread(Submit(o, st, s, now).0, Tx(s.env, o.leafHash(s.env)))
  {
    var e, t := s.env, Tx(s.env, o.leafHash(s.env));
    var log := st.log + [t];
    CallKeepsChain(o, st, s, now);
    Snoc(st.log, t);
    if e.op != Create {
      EditChecks(o, st, s, now);
      HeadFacts(st.log, e.entityId);
      assert UnderItsThread(st, Head(st.log, e.entityId).value);
      RootMovesExactly(st.log, t, e.entityId);
    } else {
      CallInThread(o, st, s, now);
      assert log[..|st.log|] == st.log;
      if ParentOf(e).Some? {
        HeadFacts(st.log, e.parentId.value);
        RootMovesExactly(st.log, t, e.parentId.value);
        LinkRoot(log, e.entityId);
      } else {
        assert Up(log, e.entityId).None? && Climb(Parents(log), e.entityId, |log|) == e.entityId;
      }
    }
  }

  /** The condition on one step: an accepted call moves no root. */
  predicate MovesNone(o: Oracle, st: Store, ev: At) {
    ev.event.Call? && Submit(o, st, ev.event.s, ev.now).1.Ok? ==>
      !MovesARoot(st.log, Tx(ev.event.s.env, o.leafHash(ev.event.s.env)))
  }

  /** As long as all rows stand under their authors' threads, an accepted call keeps it so exactly when it moves no
    * root. */
  lemma ThreadsKeptExactly(o: Oracle, st: Store, ev: At)
    requires CollisionFree(o) && Chained(st.log) && Hashed(o, st.log) && InThread(st)
    ensures InThread(SignedStep(o, st, ev)) <==> MovesNone(o, st, ev)
  {
    if ev.event.Call? && Submit(o, st, ev.event.s, ev.now).1.Ok? {
      CallKeepsThreads(o, st, ev.event.s, ev.now);
    } else {
      OtherStepsKeepThreads(o, st, ev);
    }
  }

  lemma CallKeepsThreads(o: Oracle, st: Store, s: Submission, now: int)
    requires CollisionFree(o) && Chained(st.log) && Hashed(o, st.log) && InThread(st) && Submit(o, st, s, now).1.Ok?
    ensures InThread(Submit(o, st, s, now).0) <==> !MovesARoot(st.log, Tx(s.env, o.leafHash(s.env)))
  {
    var t := Tx(s.env, o.leafHash(s.env));
    CallKeepsChain(o, st, s, now);
    if !MovesARoot(st.log, t) { NewRowInThread(o, st, s, now); }
    RowKeepsThreads(st, Submit(o, st, s, now).0, t);
  }

  lemma OtherStepsKeepThreads(o: Oracle, st: Store, ev: At)
    requires InThread(st) && !(ev.event.Call? && Submit(o, st, ev.event.s, ev.now).1.Ok?)
    ensures InThread(SignedStep(o, st, ev))
  {
    var after := SignedStep(o, st, ev);
    assert after.log == st.log && Platform !in after.keys;
    forall x | x in after.log ensures UnderItsThread(after, x) {
      assert UnderItsThread(st, x);
      StepKeepsKeys(o, st, ev);
    }
  }

  lemma CallKeepsChain(o: Oracle, st: Store, s: Submission, now: int)
    requires CollisionFree(o) && Chained(st.log) && Hashed(o, st.log) && Submit(o, st, s, now).1.Ok?
    ensures var after := Submit(o, st, s, now).0;
      && Chained(after.log) && Hashed(o, after.log) && after.keys == st.keys
      && after.log == st.log + [Tx(s.env, o.leafHash(s.env))]
  {
    SignedWriteKeeps(o, st, s, now);
  }

  lemma RowKeepsThreads(st: Store, after: Store, t: Tx)
    requires InThread(st) && Chained(after.log) && after.log == st.log + [t] && after.keys == st.keys
    requires !MovesARoot(st.log, t) ==> UnderItsThread(after, t)
    ensures InThread(after) <==> !MovesARoot(st.log, t)
  {
    forall x | x in st.log ensures UnderItsThread(after, x) <==> !MovesRoot(st.log, t, x.env.entityId) {
      assert UnderItsThread(st, x);
      RootMovesExactly(st.log, t, x.env.entityId);
    }
    if MovesARoot(st.log, t) {
      var x :| x in st.log && MovesRoot(st.log, t, x.env.entityId);
      assert x in after.log && !UnderItsThread(after, x);
    }
  }

  /** No call the run accepted moved a root. */
  predicate NoneMoved(o: Oracle, evs: seq<At>)
    decreases |evs|
  {
    |evs| == 0 || (var prior := evs[..|evs| - 1];
      NoneMoved(o, prior) && MovesNone(o, SignedRun(o, prior), evs[|evs| - 1]))
  }

  /** So in a run whose accepted calls moved no root all rows by one persona lie under one root, that of its thread. */
  lemma {:induction false} PersonaUnderOneRoot(o: Oracle, evs: seq<At>)
    requires CollisionFree(o) && NoneMoved(o, evs)
    ensures InThread(SignedRun(o, evs))
    decreases |evs|
  {
    if |evs| > 0 {
      var prior := evs[..|evs| - 1];
      PersonaUnderOneRoot(o, prior);
      SignedRunIsChained(o, prior);
      ThreadsKeptExactly(o, SignedRun(o, prior), evs[|evs| - 1]);
    }
  }

  /** Faithful calls move no root. */
  lemma {:induction false} FaithfulCallsMoveNone(o: Oracle, evs: seq<At>)
    requires FaithfulCalls(o, evs)
    ensures NoneMoved(o, evs)
    decreases |evs|
  {
    if |evs| > 0 {
      var prior := evs[..|evs| - 1];
      var st, ev := SignedRun(o, prior), evs[|evs| - 1];
      FaithfulCallsMoveNone(o, prior);
      RunIsWellFormedExactly(o, evs);
      if ev.event.Call? && Submit(o, st, ev.event.s, ev.now).1.Ok? {
        var t := Tx(ev.event.s.env, o.leafHash(ev.event.s.env));
        forall x | x in st.log ensures !MovesRoot(st.log, t, x.env.entityId) {
          RowExists(st.log, x);
          FaithfulRowMovesNoRoot(st.log, t, x.env.entityId);
        }
      }
    }
  }

  /** The dedupe check and the append are separate steps, so two checked creates of one user can race. The
    * append of a checked singleton create keeps active singletons unique exactly when no active entity on
    * the parent bears its nullifier at the append itself. */
  lemma RacingCreate(o: Oracle, st: Store, e: Envelope, p: Plain)
    requires NoClash(st) && e.op == Create && e.parentId.Some? && e.nullifier.Some?
    requires AppendError(st, e).None?
    ensures var after := Append(o, st, e, p).value;
      NoClash(after) <==> !ActiveNullifier(st.log, e.parentId.value, e.nullifier.value)
  {
    var t := Tx(e, o.leafHash(e));
    var after := Append(o, st, e, p).value;
    forall x ensures IsActive(after, x) <==> x == t || (IsActive(st, x) && x.env.entityId != e.entityId) {
      HeadsSnoc(st.log, t, x);
    }
    if ActiveNullifier(st.log, e.parentId.value, e.nullifier.value) {
      var x :| x in Heads(st.log) && x.env.parentId == e.parentId && x.env.nullifier == e.nullifier
          && x.env.op != Delete;
      assert x.env.entityId != e.entityId;
      assert IsActive(after, x) && IsActive(after, t) && Clash(x, t);
    } else {
      NoClashKept(st, t);
      assert forall x :: IsActive(after, x) <==> IsActive(st.(log := st.log + [t]), x);
    }
  }

  // ---- the interleaved machine ----------------------------------------------------------------------------------

  /** What any check that passed leaves of nullifiers: a create that bears one names a parent, and an edit that bears
    * one carries it from the row it was checked against. */
  predicate MarkSound(log: Log, e: Envelope) {
    e.nullifier.Some? ==>
      if e.op == Create then e.parentId.Some? else exists t | t in log :: CarriedFrom(t, e)
  }

  predicate CarriedFrom(t: Tx, e: Envelope) {
    && t.env.entityId == e.entityId && e.prevHash == Some(t.hash)
    && t.env.nullifier == e.nullifier && t.env.parentId == e.parentId
  }

  lemma CheckedIsMarkSound(o: Oracle, st: Store, s: Submission, now: int)
    requires SignedCheck(o, st, s, now).verdict.Ok?
    ensures MarkSound(st.log, s.env)
  {
    if s.env.op == Create {
      CreateChecks(o, st, s, now);
    } else {
      EditChecks(o, st, s, now);
      HeadFacts(st.log, s.env.entityId);
      EditLinks(o, st, s, now);
      assert s.env.nullifier.Some? ==> CarriedFrom(Head(st.log, s.env.entityId).value, s.env);
    }
  }

  lemma EditLinks(o: Oracle, st: Store, s: Submission, now: int)
    requires SignedCheck(o, st, s, now).verdict.Ok? && s.env.op != Create
    ensures Exists(st.log, s.env.entityId) && s.env.prevHash == Some(Head(st.log, s.env.entityId).value.hash)
  {
  }

  /** The append of a create whose nullifier an active entity on the parent bears. */
  predicate AppendsTaken(m: Machine, ev: Event) {
    Appending(m, ev).Some? &&
    var e := Appending(m, ev).value;
    && e.op == Create && e.nullifier.Some? && e.parentId.Some?
    && ActiveNullifier(m.st.log, e.parentId.value, e.nullifier.value)
  }

  ghost predicate PendingMarked(m: Machine) { forall p | p in m.flight :: MarkSound(m.st.log, p.env) }

  /** Checks may interleave with appends in any way: a step keeps active nullifiers unique on their parents if and only
    * if it is not the append of a create whose nullifier is active there by then. */
  lemma StepClashesExactly(o: Oracle, m: Machine, ev: Timed)
    requires CollisionFree(o) && Inv(o, m) && PendingMarked(m) && NoClash(m.st)
    ensures NoClash(Step(o, m, ev).st) <==> !AppendsTaken(m, ev.event)
  {
    StepLog(o, m, ev);
    if Appending(m, ev.event).Some? {
      var e := Appending(m, ev.event).value;
      assert m.flight[ev.event.k] in m.flight;
      AppendClashesExactly(o, m.st, e);
      SameActive(Step(o, m, ev).st, m.st.(log := m.st.log + [Tx(e, o.leafHash(e))]));
    } else {
      SameActive(Step(o, m, ev).st, m.st);
    }
  }

  lemma SameActive(st: Store, other: Store)
    requires st.log == other.log
    ensures NoClash(st) <==> NoClash(other)
  {
    assert forall x :: IsActive(st, x) <==> IsActive(other, x);
  }

  lemma AppendClashesExactly(o: Oracle, st: Store, e: Envelope)
    requires CollisionFree(o) && Hashed(o, st.log) && NoClash(st)
    requires LinkSound(st.log, e) && MarkSound(st.log, e) && AppendError(st, e).None?
    ensures NoClash(st.(log := st.log + [Tx(e, o.leafHash(e))])) <==>
      !(e.op == Create && e.nullifier.Some? && ActiveNullifier(st.log, e.parentId.value, e.nullifier.value))
  {
    var t := Tx(e, o.leafHash(e));
    if e.op == Create && e.nullifier.Some? {
      RacingCreate(o, st, e, Plain(0, DeleteMarker));
      SameActive(Append(o, st, e, Plain(0, DeleteMarker)).value, st.(log := st.log + [t]));
    } else {
      if e.op != Create { EditedHead(o, st, e); }
      NoClashKept(st, t);
    }
  }

  /** The append of an edit finds the row it was checked against as its entity's head. */
  lemma EditedHead(o: Oracle, st: Store, e: Envelope)
    requires CollisionFree(o) && Hashed(o, st.log) && e.op != Create
    requires LinkSound(st.log, e) && MarkSound(st.log, e) && AppendError(st, e).None?
    ensures IsLive(st.log, e.entityId)
    ensures e.nullifier.Some? ==> CarriedFrom(Head(st.log, e.entityId).value, e)
  {
    var x :| x in st.log && x.env.entityId == e.entityId && Follows(x, e);
    HeadFacts(st.log, e.entityId);
    var h := Head(st.log, e.entityId).value;
    HashesDistinct(o, st.log, h, x);
    if e.nullifier.Some? {
      var y :| y in st.log && CarriedFrom(y, e);
      HashesDistinct(o, st.log, h, y);
    }
  }

  /** In every run what is pending is marked so, whatever callers send. */
  lemma {:induction false} PendingStaysMarked(o: Oracle, evs: seq<Timed>)
    ensures PendingMarked(Run(o, EMPTY, evs))
    decreases |evs|
  {
    if |evs| > 0 {
      var m, ev := Run(o, EMPTY, evs[..|evs| - 1]), evs[|evs| - 1];
      var after := Step(o, m, ev);
      PendingStaysMarked(o, evs[..|evs| - 1]);
      StepLog(o, m, ev);
      forall p | p in after.flight ensures MarkSound(after.st.log, p.env) { PendingOf(o, m, ev, p); }
    }
  }

  lemma PendingOf(o: Oracle, m: Machine, ev: Timed, p: Pending)
    requires PendingMarked(m) && p in Step(o, m, ev).flight
    ensures MarkSound(Step(o, m, ev).st.log, p.env)
  {
    StepLog(o, m, ev);
    if p in m.flight {
      MarkStays(m.st.log, Step(o, m, ev).st.log, p.env);
    } else if ev.event.CheckSigned? {
      CheckedIsMarkSound(o, m.st, ev.event.s, ev.now);
    }
  }

  lemma MarkStays(log: Log, later: Log, e: Envelope)
    requires MarkSound(log, e) && log <= later
    ensures MarkSound(later, e)
  {
    if e.nullifier.Some? && e.op != Create {
      var t :| t in log && CarriedFrom(t, e);
      assert t in later;
    }
  }

  /** No step of the run was such an append. */
  predicate NoneTaken(o: Oracle, evs: seq<Timed>)
    decreases |evs|
  {
    |evs| == 0 || (var prior := evs[..|evs| - 1];
      NoneTaken(o, prior) && !AppendsTaken(Run(o, EMPTY, prior), evs[|evs| - 1].event))
  }

  /** So every interleaved run without such an append keeps active nullifiers unique on their parents. */
  lemma {:induction false} NullifiersStayUnique(o: Oracle, evs: seq<Timed>)
    requires CollisionFree(o) && NoneTaken(o, evs)
    ensures NoClash(Run(o, EMPTY, evs).st)
    decreases |evs|
  {
    if |evs| > 0 {
      var prior := evs[..|evs| - 1];
      NullifiersStayUnique(o, prior);
      RunKeeps(o, prior);
      PendingStaysMarked(o, prior);
      StepClashesExactly(o, Run(o, EMPTY, prior), evs[|evs| - 1]);
    }
  }
}
