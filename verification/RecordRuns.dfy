/** Runs of the record engine. A write is two steps, as in the code: its checks read the store, and later
  * its append writes the store; other writers may step in between. A whole call is the two steps in a row. */
module RecordRuns {
  import opened Wrappers
  import opened RecordTypes
  import opened RecordLog
  import opened RecordShape
  import opened RecordSpec

  /** A write that has passed its checks and not yet reached the append. */
  datatype Pending = Pending(env: Envelope, plain: Plain)

  datatype Machine = Machine(st: Store, flight: seq<Pending>)

  datatype Event =
    | CheckUnsigned(i: Intent)
    | CheckSigned(s: Submission)
    | Commit(k: nat)
    | Join(key: Key, tk: ThreadKey)
    | Erase(txId: TxId)
    | Settle(txId: TxId)

  /** An event and the server clock when it happens. */
  datatype Timed = Timed(event: Event, now: int)

  function Step(o: Oracle, m: Machine, ev: Timed): Machine {
    match ev.event
    case CheckUnsigned(i) =>
      (match UnsignedCheck(o, m.st, i, ev.now)
       case Ok(e) => m.(flight := m.flight + [Pending(e, Plain(i.salt, IntentContent(i)))])
       case Err(_) => m)
    case CheckSigned(s) =>
      var c := SignedCheck(o, m.st, s, ev.now);
      var st := m.st.(attested := c.attested);
      Machine(st, if c.verdict.Ok? then m.flight + [Pending(s.env, Plain(s.salt, s.content))] else m.flight)
    case Commit(k) =>
      if k >= |m.flight| then m
      else
        var p := m.flight[k];
        var rest := m.flight[..k] + m.flight[k + 1..];
        (match Append(o, m.st, p.env, p.plain)
         case Ok(st) => Machine(st, rest)
         case Err(_) => m.(flight := rest))
    case Join(key, tk) => m.(st := JoinThread(m.st, key, tk))
    case Erase(x) => m.(st := m.st.(plain := m.st.plain - {x}))
    case Settle(x) => m.(st := SettleTx(m.st, x))
  }

  /** A persona is a public key, never the reserved platform author; one per key and one per (user, thread). */
  function JoinThread(st: Store, key: Key, tk: ThreadKey): Store {
    if key.Platform? || key in st.keys
      || (exists k | k in st.keys :: st.keys[k].userId == tk.userId && st.keys[k].threadId == tk.threadId)
    then st
    else st.(keys := st.keys[key := tk])
  }

  function SettleTx(st: Store, x: TxId): Store {
    var rows := set t | t in st.log && t.env.txId == x && x !in st.ledger :: t.env;
    if rows == {} then st else st.(ledger := st.ledger[x := RowWith(st.log, x)])
  }

  function RowWith(log: Log, x: TxId): Envelope
    requires exists t | t in log :: t.env.txId == x
  {
    if Last(log).env.txId == x then Last(log).env
    else
      assert log == Front(log) + [Last(log)];
      RowWith(Front(log), x)
  }

  function Run(o: Oracle, m: Machine, evs: seq<Timed>): Machine
    decreases |evs|
  {
    if |evs| == 0 then m else Step(o, Run(o, m, evs[..|evs| - 1]), evs[|evs| - 1])
  }

  const EMPTY: Machine := Machine(Store([], map[], map[], map[], map[]), [])

  // ---- personas and settlement --------------------------------------------------------------------------------

  /** The platform is no persona, and a user has one persona in a thread. */
  ghost predicate OnePersonaEach(st: Store) {
    && Platform !in st.keys
    && forall a, b | a in st.keys && b in st.keys ::
      st.keys[a].userId == st.keys[b].userId && st.keys[a].threadId == st.keys[b].threadId ==> a == b
  }

  /** In every run a user has one persona in a thread, and a step registers a key if and only if it is a join, the key
    * is new and no platform key, and its user has no persona in the thread yet. A registered key stays as it is. */
  lemma {:induction false} PersonasExactly(o: Oracle, evs: seq<Timed>, ev: Timed, key: Key)
    ensures var st := Run(o, EMPTY, evs).st; var after := Step(o, Run(o, EMPTY, evs), ev).st;
      && OnePersonaEach(st)
      && (key in st.keys ==> key in after.keys && after.keys[key] == st.keys[key])
      && (key !in st.keys ==>
           (key in after.keys <==>
             && ev.event.Join? && ev.event.key == key && key != Platform
             && forall k :: k in st.keys && st.keys[k].userId == ev.event.tk.userId ==>
                st.keys[k].threadId != ev.event.tk.threadId))
      && (key !in st.keys && key in after.keys ==> after.keys[key] == ev.event.tk)
    decreases |evs|
  {
    if |evs| > 0 {
      var prior := evs[..|evs| - 1];
      PersonasExactly(o, prior, evs[|evs| - 1], key);
      StepKeepsPersonas(o, Run(o, EMPTY, prior), evs[|evs| - 1]);
    }
    KeysAfter(o, Run(o, EMPTY, evs), ev);
  }

  /** Only a join touches the personas. */
  lemma KeysAfter(o: Oracle, m: Machine, ev: Timed)
    ensures Step(o, m, ev).st.keys ==
      if ev.event.Join? then JoinThread(m.st, ev.event.key, ev.event.tk).keys else m.st.keys
  {
  }

  lemma StepKeepsPersonas(o: Oracle, m: Machine, ev: Timed)
    requires OnePersonaEach(m.st)
    ensures OnePersonaEach(Step(o, m, ev).st)
  {
    KeysAfter(o, m, ev);
  }

  /** Settling enters the envelope of the row with that id in the ledger, unless it is there already; without such a row
    * it changes nothing. */
  lemma SettlesExactly(st: Store, x: TxId)
    ensures if x !in st.ledger && exists t :: t in st.log && t.env.txId == x then
        exists t :: t in st.log && t.env.txId == x && SettleTx(st, x) == st.(ledger := st.ledger[x := t.env])
      else SettleTx(st, x) == st
  {
    var rows := set t | t in st.log && t.env.txId == x && x !in st.ledger :: t.env;
    if t :| t in st.log && t.env.txId == x && x !in st.ledger {
      assert t.env in rows;
      RowWithIsThere(st.log, x);
    }
  }

  lemma {:induction false} RowWithIsThere(log: Log, x: TxId)
    requires exists t | t in log :: t.env.txId == x
    ensures exists t :: t in log && t.env.txId == x && t.env == RowWith(log, x)
  {
    assert log == Front(log) + [Last(log)];
    if Last(log).env.txId != x {
      RowWithIsThere(Front(log), x);
    }
  }

  // ---- faithful envelopes ---------------------------------------------------------------------------

  /** What a signing client must add for the engine's shape rules to hold, because `appendSigned` does not
    * check it: an edit declares its entity's own type, and a create names a parent's type and id together. */
  predicate Faithful(log: Log, e: Envelope) {
    match e.op
    case Create => e.parentType.Some? <==> e.parentId.Some?
    case _ => Head(log, e.entityId).Some? ==> e.typ == Head(log, e.entityId).value.env.typ
  }

  /** What the step appends, if it appends anything. */
  function Appending(m: Machine, ev: Event): Option<Envelope> {
    if ev.Commit? && ev.k < |m.flight| && AppendError(m.st, m.flight[ev.k].env).None?
    then Some(m.flight[ev.k].env) else None
  }

  predicate FaithfulStep(m: Machine, ev: Event) {
    Appending(m, ev).Some? ==> Faithful(m.st.log, Appending(m, ev).value)
  }

  /** Every envelope the run appended was faithful when it was appended. Refused submissions do not matter. */
  predicate FaithfulRun(o: Oracle, evs: seq<Timed>)
    decreases |evs|
  {
    |evs| == 0 || (var prior := evs[..|evs| - 1];
      FaithfulRun(o, prior) && FaithfulStep(Run(o, EMPTY, prior), evs[|evs| - 1].event))
  }

  // ---- the invariants ---------------------------------------------------------------------------------

  /** What any check that passed leaves for the append, on any log. */
  predicate LinkSound(log: Log, e: Envelope) {
    match e.op
    case Create =>
      && e.prevHash.None? && (IsRootType(e.typ) <==> ParentOf(e).None?)
      && (ParentOf(e).Some? ==> Exists(log, ParentOf(e).value.id))
      && PinsParent(log, e)
    case _ => exists t | t in log :: t.env.entityId == e.entityId && Follows(t, e)
  }

  /** A create that names its parent in full or not at all attaches properly. */
  predicate Attachable(log: Log, e: Envelope) {
    e.op == Create && (e.parentType.Some? <==> e.parentId.Some?) ==> AttachesTo(log, e)
  }

  /** What every run keeps: a chained log, and pending writes that fit it; and while the log is well formed, pending
    * creates that attach to it. */
  ghost predicate Inv(o: Oracle, m: Machine) {
    && Chained(m.st.log) && Hashed(o, m.st.log)
    && (forall p | p in m.flight :: LinkSound(m.st.log, p.env))
    && (WellFormed(m.st.log) ==> forall p | p in m.flight :: Attachable(m.st.log, p.env))
  }

  lemma {:induction false} CurrentOfLive(log: Log, id: EntityId)
    requires IsLive(log, id)
    ensures CurrentRevision(log, id) == Head(log, id)
  {
    if Last(log).env.entityId != id { CurrentOfLive(Front(log), id); }
  }

  lemma LiveIsRevision(log: Log, id: EntityId)
    requires IsLive(log, id)
    ensures CurrentRevision(log, id) == Head(log, id)
    ensures IsRevisionOf(log, id, Head(log, id).value.hash)
  {
    CurrentOfLive(log, id);
    HeadFacts(log, id);
  }

  lemma DepthAgrees(log: Log, parent: ParentRef)
    requires WellFormed(log) && Exists(log, parent.id) && Head(log, parent.id).value.env.typ == parent.typ
    ensures NewDepth(log, parent) == Ok(1 + DepthAt(log, parent.id))
  {
    Forest(log, parent.id);
    if parent.typ == Comment { CommentsAbove(log, parent.id, |log|); }
  }

  /** Passing the create rules means the create attaches properly, once its parent fields are paired. */
  lemma CreateAttaches(o: Oracle, st: Store, e: Envelope, c: Content, j: Option<Jurisdiction>)
    requires WellFormed(st.log) && ValidateCreate(o, st, e.typ, c, ParentOf(e), e.entityId, j).Ok?
    requires e.parentRevisionHash == ValidateCreate(o, st, e.typ, c, ParentOf(e), e.entityId, j).value.revisionHash
    ensures AttachesTo(st.log, e) <==> (e.parentType.Some? <==> e.parentId.Some?)
  {
    if !IsRootType(e.typ) {
      var p := ParentOf(e).value;
      LiveIsRevision(st.log, p.id);
      Forest(st.log, p.id);
      DepthAgrees(st.log, p);
    }
  }

  /** On a well-formed log an unsigned write is faithful and attaches. */
  lemma UnsignedSound(o: Oracle, st: Store, i: Intent, now: int)
    requires WellFormed(st.log) && UnsignedCheck(o, st, i, now).Ok?
    ensures var e := UnsignedCheck(o, st, i, now).value; Faithful(st.log, e) && Attachable(st.log, e)
  {
    var e := UnsignedCheck(o, st, i, now).value;
    if i.op == Create {
      assert ParentOf(e) == i.parent;
      CreateAttaches(o, st, e, i.content, None);
    } else {
      HeadFacts(st.log, i.id);
    }
  }

  /** An accepted submission fits a well-formed log exactly when its envelope is faithful. */
  lemma SignedSound(o: Oracle, st: Store, s: Submission, now: int)
    requires WellFormed(st.log) && SignedCheck(o, st, s, now).verdict.Ok?
    ensures Extends(st.log, s.env) <==> Faithful(st.log, s.env)
    ensures Attachable(st.log, s.env)
  {
    var e := s.env;
    if e.op == Create {
      CreateAttaches(o, st, e, s.content, Some(st.keys[e.author].jurisdiction));
    } else {
      HeadFacts(st.log, e.entityId);
    }
  }

  /** Passing the create rules means the create is pinned to its parent's head. */
  lemma CreatePins(o: Oracle, st: Store, e: Envelope, c: Content, j: Option<Jurisdiction>)
    requires ValidateCreate(o, st, e.typ, c, ParentOf(e), e.entityId, j).Ok?
    requires e.parentRevisionHash == ValidateCreate(o, st, e.typ, c, ParentOf(e), e.entityId, j).value.revisionHash
    ensures PinsParent(st.log, e)
  {
    if !IsRootType(e.typ) { LiveIsRevision(st.log, ParentOf(e).value.id); }
  }

  lemma UnsignedLinks(o: Oracle, st: Store, i: Intent, now: int)
    requires UnsignedCheck(o, st, i, now).Ok?
    ensures LinkSound(st.log, UnsignedCheck(o, st, i, now).value)
  {
    var e := UnsignedCheck(o, st, i, now).value;
    if i.op == Create {
      assert ParentOf(e) == i.parent;
      CreatePins(o, st, e, i.content, None);
    } else {
      HeadFacts(st.log, i.id);
      assert Follows(Head(st.log, i.id).value, e);
    }
  }

  lemma SignedLinks(o: Oracle, st: Store, s: Submission, now: int)
    requires SignedCheck(o, st, s, now).verdict.Ok?
    ensures LinkSound(st.log, s.env)
  {
    var e := s.env;
    if e.op == Create {
      CreatePins(o, st, e, s.content, Some(st.keys[e.author].jurisdiction));
    } else {
      HeadFacts(st.log, e.entityId);
      assert Follows(Head(st.log, e.entityId).value, e);
    }
  }

  lemma LinkSoundKept(log: Log, t: Tx, e: Envelope)
    requires LinkSound(log, e)
    ensures LinkSound(log + [t], e)
  {
    Snoc(log, t);
    if e.op != Create {
      var x :| x in log && x.env.entityId == e.entityId && Follows(x, e);
      assert x in log + [t];
    } else {
      PinKept(log, t, e);
    }
  }

  lemma AttachableKept(log: Log, t: Tx, e: Envelope)
    requires WellFormed(log + [t]) && Attachable(log, e)
    ensures Attachable(log + [t], e)
  {
    Snoc(log, t);
    if e.op == Create && (e.parentType.Some? <==> e.parentId.Some?) && !IsRootType(e.typ) {
      RevisionKept(log, t, e.parentId.value, e.parentRevisionHash.value);
      assert (log + [t])[..|log|] == log;
      WellFormedIsChained(log + [t]);
      ForestIsImmutable(log, log + [t], e.parentId.value);
    }
  }

  /** The append of a checked write links to the head it was checked against, and extends a well-formed log properly
    * exactly when it is faithful. */
  lemma CommitLinks(o: Oracle, st: Store, e: Envelope)
    requires CollisionFree(o) && Chained(st.log) && Hashed(o, st.log)
    requires LinkSound(st.log, e) && AppendError(st, e).None?
    ensures var log := st.log + [Tx(e, o.leafHash(e))];
      && Chained(log) && Hashed(o, log)
      && (WellFormed(st.log) && Attachable(st.log, e) ==> (WellFormed(log) <==> Faithful(st.log, e)))
      && (WellFormed(log) ==> WellFormed(st.log))
  {
    Snoc(st.log, Tx(e, o.leafHash(e)));
    if e.op != Create {
      var x :| x in st.log && x.env.entityId == e.entityId && Follows(x, e);
      var h := Head(st.log, e.entityId).value;
      HeadFacts(st.log, e.entityId);
      HashesDistinct(o, st.log, h, x);
      assert h == x && e.prevHash == Some(h.hash);
      if WellFormed(st.log) { Forest(st.log, e.entityId); }
    }
  }

  /** A whole unsigned write keeps the chain, and a well-formed log well formed, whatever its caller sends. */
  lemma UnsignedWriteKeeps(o: Oracle, st: Store, i: Intent, now: int)
    requires CollisionFree(o) && Chained(st.log) && Hashed(o, st.log) && UnsignedCheck(o, st, i, now).Ok?
    requires AppendError(st, UnsignedCheck(o, st, i, now).value).None?
    ensures var e := UnsignedCheck(o, st, i, now).value; var log := st.log + [Tx(e, o.leafHash(e))];
      Chained(log) && Hashed(o, log) && (WellFormed(st.log) ==> WellFormed(log))
  {
    var e := UnsignedCheck(o, st, i, now).value;
    UnsignedLinks(o, st, i, now);
    if WellFormed(st.log) { UnsignedSound(o, st, i, now); }
    CommitLinks(o, st, e);
  }

  /** A whole signed call keeps the chain, and a well-formed log well formed exactly when it is faithful. */
  lemma SignedWriteKeeps(o: Oracle, st: Store, s: Submission, now: int)
    requires CollisionFree(o) && Chained(st.log) && Hashed(o, st.log) && SignedCheck(o, st, s, now).verdict.Ok?
    requires AppendError(st, s.env).None?
    ensures var log := st.log + [Tx(s.env, o.leafHash(s.env))];
      && Chained(log) && Hashed(o, log) && (WellFormed(log) ==> WellFormed(st.log))
      && (WellFormed(st.log) ==> (WellFormed(log) <==> Faithful(st.log, s.env)))
  {
    SignedLinks(o, st, s, now);
    if WellFormed(st.log) { SignedSound(o, st, s, now); }
    CommitLinks(o, st, s.env);
  }

  lemma CommitStepKeeps(o: Oracle, m: Machine, k: nat, now: int)
    requires CollisionFree(o) && Inv(o, m)
    ensures var after := Step(o, m, Timed(Commit(k), now));
      && Inv(o, after)
      && (WellFormed(after.st.log) <==> WellFormed(m.st.log) && FaithfulStep(m, Commit(k)))
  {
    if Appending(m, Commit(k)).Some? {
      var e := m.flight[k].env;
      var t := Tx(e, o.leafHash(e));
      assert m.flight[k] in m.flight;
      CommitLinks(o, m.st, e);
      forall p | p in m.flight
        ensures LinkSound(m.st.log + [t], p.env)
        ensures WellFormed(m.st.log + [t]) ==> Attachable(m.st.log + [t], p.env)
      {
        LinkSoundKept(m.st.log, t, p.env);
        if WellFormed(m.st.log + [t]) { AttachableKept(m.st.log, t, p.env); }
      }
    }
  }

  /** Every step, whatever its caller sends, keeps the chain; it keeps the log well formed exactly when what it appends
    * is faithful. */
  lemma StepKeeps(o: Oracle, m: Machine, ev: Timed)
    requires CollisionFree(o) && Inv(o, m)
    ensures var after := Step(o, m, ev);
      && Inv(o, after)
      && (WellFormed(after.st.log) <==> WellFormed(m.st.log) && FaithfulStep(m, ev.event))
  {
    match ev.event
    case CheckUnsigned(i) =>
      if UnsignedCheck(o, m.st, i, ev.now).Ok? {
        UnsignedLinks(o, m.st, i, ev.now);
        if WellFormed(m.st.log) { UnsignedSound(o, m.st, i, ev.now); }
      }
    case CheckSigned(s) =>
      if SignedCheck(o, m.st, s, ev.now).verdict.Ok? {
        SignedLinks(o, m.st, s, ev.now);
        if WellFormed(m.st.log) { SignedSound(o, m.st, s, ev.now); }
      }
    case Commit(k) => CommitStepKeeps(o, m, k, ev.now);
    case _ =>
  }

  /** Every run of either path, with checks, appends, joins, erasures and settlements interleaved in any way, keeps the
    * chain; and its log is well formed exactly when every envelope it appended was faithful. */
  lemma {:induction false} RunKeeps(o: Oracle, evs: seq<Timed>)
    requires CollisionFree(o)
    ensures Inv(o, Run(o, EMPTY, evs))
    ensures WellFormed(Run(o, EMPTY, evs).st.log) <==> FaithfulRun(o, evs)
    decreases |evs|
  {
    if |evs| > 0 {
      var prior := evs[..|evs| - 1];
      RunKeeps(o, prior);
      StepKeeps(o, Run(o, EMPTY, prior), evs[|evs| - 1]);
    }
  }

  /** In every run each entity's history is one hash-linked line that starts with its only create, ends with its
    * only delete if any, and never changes its parent, its pinned revision or its author, but for the platform. */
  lemma EveryRunIsChained(o: Oracle, evs: seq<Timed>, id: EntityId)
    requires CollisionFree(o)
    ensures ChainOk(History(Run(o, EMPTY, evs).st.log, id))
  {
    RunKeeps(o, evs);
    ChainShape(Run(o, EMPTY, evs).st.log, id);
  }

  /** A pending write that declares its entity's type and names its parent in full or not at all. */
  predicate TypeKept(log: Log, e: Envelope) {
    match e.op
    case Create => e.parentType.Some? <==> e.parentId.Some?
    case _ => exists t | t in log :: t.env.entityId == e.entityId && e.prevHash == Some(t.hash) && t.env.typ == e.typ
  }

  /** A run that only uses the unsigned path needs no assumption about its callers. */
  lemma {:induction false} UnsignedRunsAreFaithful(o: Oracle, evs: seq<Timed>)
    requires CollisionFree(o) && forall i | 0 <= i < |evs| :: !evs[i].event.CheckSigned?
    ensures FaithfulRun(o, evs)
    ensures forall p | p in Run(o, EMPTY, evs).flight :: TypeKept(Run(o, EMPTY, evs).st.log, p.env)
    decreases |evs|
  {
    if |evs| > 0 {
      var prior, ev := evs[..|evs| - 1], evs[|evs| - 1];
      UnsignedRunsAreFaithful(o, prior);
      RunKeeps(o, prior);
      UnsignedStep(o, Run(o, EMPTY, prior), ev);
    }
  }

  lemma UnsignedStep(o: Oracle, m: Machine, ev: Timed)
    requires CollisionFree(o) && Inv(o, m) && !ev.event.CheckSigned?
    requires forall p | p in m.flight :: TypeKept(m.st.log, p.env)
    ensures FaithfulStep(m, ev.event)
    ensures forall p | p in Step(o, m, ev).flight :: TypeKept(Step(o, m, ev).st.log, p.env)
  {
    match ev.event
    case CheckUnsigned(i) =>
      if UnsignedCheck(o, m.st, i, ev.now).Ok? && i.op != Create { HeadFacts(m.st.log, i.id); }
    case Commit(k) =>
      if Appending(m, ev.event).Some? { CommitKeepsTypes(o, m, k, ev.now); }
    case _ =>
  }

  lemma CommitKeepsTypes(o: Oracle, m: Machine, k: nat, now: int)
    requires CollisionFree(o) && Inv(o, m) && Appending(m, Commit(k)).Some?
    requires forall p | p in m.flight :: TypeKept(m.st.log, p.env)
    ensures Faithful(m.st.log, m.flight[k].env)
    ensures forall p | p in m.flight :: TypeKept(Step(o, m, Timed(Commit(k), now)).st.log, p.env)
  {
    var e := m.flight[k].env;
    assert m.flight[k] in m.flight && TypeKept(m.st.log, e);
    if e.op != Create && Head(m.st.log, e.entityId).Some? {
      var x :| x in m.st.log && x.env.entityId == e.entityId && e.prevHash == Some(x.hash) && x.env.typ == e.typ;
      HeadFacts(m.st.log, e.entityId);
      HashesDistinct(o, m.st.log, Head(m.st.log, e.entityId).value, x);
    }
    forall p | p in m.flight ensures TypeKept(m.st.log + [Tx(e, o.leafHash(e))], p.env) {
      TypeStaysKept(m.st.log, Tx(e, o.leafHash(e)), p.env);
    }
  }

  lemma TypeStaysKept(log: Log, t: Tx, e: Envelope)
    requires TypeKept(log, e)
    ensures TypeKept(log + [t], e)
  {
    if e.op != Create {
      var x :| x in log && x.env.entityId == e.entityId && e.prevHash == Some(x.hash) && x.env.typ == e.typ;
      assert x in log + [t];
    }
  }

  /** The whole story of an entity in every run of faithful appends: its history is one line, type included, and it
    * lies under a root of a root type within the nesting bound. */
  lemma EveryRunIsAForestOfLines(o: Oracle, evs: seq<Timed>, id: EntityId)
    requires CollisionFree(o) && FaithfulRun(o, evs)
    ensures var log := Run(o, EMPTY, evs).st.log;
      && LineOk(History(log, id))
      && (Exists(log, id) ==>
        && Exists(log, RootOf(log, id)) && IsRootType(Head(log, RootOf(log, id)).value.env.typ)
        && WalkRoot(log, id) == Some(RootOf(log, id))
        && DepthAt(log, id) <= COMMENT_MAX_DEPTH)
  {
    RunKeeps(o, evs);
    var log := Run(o, EMPTY, evs).st.log;
    HistoryShape(log, id);
    WalkAgrees(log, id);
    if Exists(log, id) { RootedAndShallow(log, id); }
  }

  // ---- what happens without faithfulness -------------------------------------------------------------

  /** One whole signed call keeps the log well formed exactly when its envelope is faithful. */
  lemma SubmitKeepsIffFaithful(o: Oracle, st: Store, s: Submission, now: int)
    requires WellFormed(st.log) && Submit(o, st, s, now).1.Ok?
    ensures WellFormed(Submit(o, st, s, now).0.log) <==> Faithful(st.log, s.env)
  {
    var t := Tx(s.env, o.leafHash(s.env));
    Snoc(st.log, t);
    SignedSound(o, st, s, now);
  }

  // A post by one persona, alone in its thread, and a gate that passes every check outside this model.
  const DEMO_GATE: Gate := Gate(true, true, false, false, 0, 0, true, true, true)

  const DEMO_BODY: Content := Json(None, Some("yes"), None, "text")

  function DemoOracle(): Oracle {
    Oracle((e: Envelope) => e.txId, (x: TxId, s: int, c: Content) => 0,
           (t: RecordType, op: Op, c: Content, j: Option<Jurisdiction>) => true,
           (j: Option<Jurisdiction>) => EntityRules(Absent, None, None),
           (t: RecordType, j: Jurisdiction) => None)
  }

  function DemoEnvelope(txId: TxId, typ: RecordType, op: Op, parentId: Option<EntityId>, prev: Option<Hash>): Envelope {
    Envelope(txId, typ, 10, op, None, parentId, None, None, Pubkey(1), None, None, Some(0), None, Some(0), prev, 0,
             None, None)
  }

  function DemoStore(log: Log): Store {
    Store(log, map[], map[], map[Pubkey(1) := ThreadKey(1, 10, 1)], map[])
  }

  /** An edit's declared type is not compared with its entity's: a post's author can turn it into a poll. */
  lemma EditCanChangeType()
    ensures var log := [Tx(DemoEnvelope(1, Post, Create, None, None), 1)];
      var edit := Submission(DemoEnvelope(2, Poll, Update, None, Some(1)), 0, DEMO_BODY, DEMO_GATE);
      var (after, verdict) := Submit(DemoOracle(), DemoStore(log), edit, 0);
      && WellFormed(log) && verdict.Ok? && !WellFormed(after.log)
      && Head(log, 10).value.env.typ == Post && Head(after.log, 10).value.env.typ == Poll
  {
    var post := Tx(DemoEnvelope(1, Post, Create, None, None), 1);
    var log := [post];
    assert Front(log) == [] && Last(log) == post;
    assert WellFormed(Front(log)) && IsRootType(Post) && Extends(Front(log), post.env);
    var edit := Submission(DemoEnvelope(2, Poll, Update, None, Some(1)), 0, DEMO_BODY, DEMO_GATE);
    assert Head(log, 10) == Some(post);
    assert RootAt(log, 10) == Some(10);
    SubmitKeepsIffFaithful(DemoOracle(), DemoStore(log), edit, 0);
  }

  /** A create that names a parent id without a parent type counts as parentless, yet is stored with it: a
    * root can even name itself as its parent. */
  lemma RootCanNameAParent()
    ensures var make := Submission(DemoEnvelope(1, Post, Create, Some(10), None), 0, DEMO_BODY, DEMO_GATE);
      var (after, verdict) := Submit(DemoOracle(), DemoStore([]), make, 0);
      && verdict.Ok? && !WellFormed(after.log)
      && Head(after.log, 10).Some? && Head(after.log, 10).value.env.parentId == Some(10)
  {
    var o, st := DemoOracle(), DemoStore([]);
    var make := Submission(DemoEnvelope(1, Post, Create, Some(10), None), 0, DEMO_BODY, DEMO_GATE);
    assert Head(st.log, 10).None? && ParentOf(make.env).None? && IsRootType(Post);
    assert ValidateCreate(o, st, Post, DEMO_BODY, None, 10, Some(1)) == Ok(Created(None, None, 10, false));
    assert CheckCreate(o, st, make, ThreadKey(1, 10, 1)) == Checked(map[], Ok(()));
    assert SignedCheck(o, st, make, 0) == Checked(map[], Ok(()));
    assert AppendError(st, make.env).None?;
    Snoc([], Tx(make.env, 1));
    SubmitKeepsIffFaithful(o, st, make, 0);
  }
}
