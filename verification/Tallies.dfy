/** The tally views: what they count, what they conserve, and exactly when they move. */
module Tallies {
  import opened Wrappers
  import opened RecordTypes
  import opened RecordLog
  import opened RecordShape
  import opened RecordSpec
  import opened RecordRuns
  import opened Singletons
  import opened SemanticHelpers
  import opened Counting
  import opened ParentWalks

  /** The active entities of a type on a parent, as head rows. */
  function ActivesOn(log: Log, typ: RecordType, parent: EntityId): set<Tx> {
    set t | t in Heads(log) && t.env.typ == typ && t.env.parentId == Some(parent) && t.env.op != Delete
  }

  /** The participant key the views deduplicate by: the nullifier, else the author. */
  datatype Participant = ByNullifier(n: Nullifier) | ByAuthor(key: Key)

  function ParticipantOf(t: Tx): Participant {
    if t.env.nullifier.Some? then ByNullifier(t.env.nullifier.value) else ByAuthor(t.env.author)
  }

  function CountDistinct(rows: set<Tx>): nat {
    |Image(rows, ParticipantOf)|
  }

  function OptionOf(plain: map<TxId, Plain>, t: Tx): Option<string> {
    if t.env.txId in plain && plain[t.env.txId].content.Json? then plain[t.env.txId].content.option else None
  }

  function KindOf(plain: map<TxId, Plain>, t: Tx): Option<string> {
    if t.env.txId in plain && plain[t.env.txId].content.Json? then plain[t.env.txId].content.kind else None
  }

  /** A row of `poll_results`. */
  function PollCount(st: Store, poll: EntityId, option: Option<string>): nat {
    CountDistinct(Group(ActivesOn(st.log, Vote, poll), t => OptionOf(st.plain, t), option))
  }

  function SignatureCount(st: Store, petition: EntityId): nat {
    CountDistinct(ActivesOn(st.log, PetitionSignature, petition))
  }

  function ReactionsOf(st: Store, kind: Option<string>): set<Tx> {
    set t | t in Heads(st.log) && t.env.typ == Reaction && t.env.op != Delete && KindOf(st.plain, t) == kind
  }

  /** A row of `reaction_counts_by_entity`. */
  function CountByEntity(st: Store, parent: EntityId, kind: Option<string>): nat {
    CountDistinct(ReactionsOn(st, parent, kind))
  }

  /** A row of `reaction_counts_by_revision`. */
  function CountByRevision(st: Store, revision: Hash, kind: Option<string>): nat {
    CountDistinct(SupportOf(st, revision, kind))
  }

  /** The vote entities ever cast on a poll. */
  function Cast(log: Log, poll: EntityId): set<EntityId> {
    set t | t in log && t.env.op == Create && t.env.typ == Vote && t.env.parentId == Some(poll) :: t.env.entityId
  }

  // ---- participants are entities ---------------------------------------------------------------------------

  /** Among active entities of a type on one parent, a participant key belongs to one entity. */
  ghost predicate OnePerParticipant(log: Log, typ: RecordType) {
    forall x, y | x in Heads(log) && y in Heads(log) :: SameParticipant(x, y, typ) ==> x == y
  }

  predicate SameParticipant(x: Tx, y: Tx, typ: RecordType) {
    && x.env.op != Delete && y.env.op != Delete && x.env.typ == y.env.typ == typ
    && x.env.parentId == y.env.parentId && ParticipantOf(x) == ParticipantOf(y)
  }

  /** On the signed path nullifiers tell participants apart. */
  lemma SignedParticipants(st: Store, typ: RecordType)
    requires SlotInv(st) && IsSingleton(typ)
    ensures OnePerParticipant(st.log, typ)
  {
    forall x, y | x in Heads(st.log) && y in Heads(st.log) && SameParticipant(x, y, typ) ensures x == y {
      assert x in st.log && y in st.log;
      assert RowOk(st, x) && RowOk(st, y);
      assert IsActive(st, x) && IsActive(st, y) && Clash(x, y);
    }
  }

  /** On the unsigned path authors do. */
  lemma UnsignedParticipants(log: Log, typ: RecordType)
    requires OneActive(log) && IsSingleton(typ) && forall t | t in log :: t.env.nullifier.None?
    ensures OnePerParticipant(log, typ)
  {
    forall x, y | x in Heads(log) && y in Heads(log) && SameParticipant(x, y, typ) ensures x == y {
      assert x in log && y in log;
      assert SameSlot(x, y);
    }
  }

  lemma ParticipantsAreRows(log: Log, typ: RecordType, rows: set<Tx>, parent: EntityId)
    requires OnePerParticipant(log, typ) && rows <= ActivesOn(log, typ, parent)
    ensures CountDistinct(rows) == |rows|
  {
    forall x, y | x in rows && y in rows && ParticipantOf(x) == ParticipantOf(y) ensures x == y {
      assert x in ActivesOn(log, typ, parent) && y in ActivesOn(log, typ, parent);
      assert SameParticipant(x, y, typ);
    }
    ImageSize(rows, ParticipantOf);
  }

  /** The live entities whose head declares the type on the parent. */
  function LiveOn(log: Log, typ: RecordType, parent: EntityId): set<EntityId> {
    set t | t in log && IsLive(log, t.env.entityId) && Head(log, t.env.entityId).value.env.typ == typ
            && Head(log, t.env.entityId).value.env.parentId == Some(parent) :: t.env.entityId
  }

  /** The signatures of a petition count its live signature entities, one per participant; they fall short of the
    * entities if and only if a participant holds two. */
  lemma SignatureCountExactly(st: Store, petition: EntityId)
    ensures var live := LiveOn(st.log, PetitionSignature, petition);
      && SignatureCount(st, petition) <= |live|
      && (SignatureCount(st, petition) == |live| <==>
           forall x, y | x in live && y in live ::
             ParticipantOf(Head(st.log, x).value) == ParticipantOf(Head(st.log, y).value) ==> x == y)
  {
    var rows, ids := ActivesOn(st.log, PetitionSignature, petition), LiveOn(st.log, PetitionSignature, petition);
    ActivesAreLive(st.log, PetitionSignature, petition);
    ImageSizeExactly(rows, ParticipantOf);
    ImageSize(rows, IdOf);
    if Injective(rows, ParticipantOf) {
      forall x, y | x in ids && y in ids && ParticipantOf(Head(st.log, x).value) == ParticipantOf(Head(st.log, y).value)
        ensures x == y
      {
        assert Head(st.log, x).value in rows && Head(st.log, y).value in rows;
        HeadFacts(st.log, x);
        HeadFacts(st.log, y);
      }
    } else {
      var x, y :| x in rows && y in rows && ParticipantOf(x) == ParticipantOf(y) && x != y;
      assert IdOf(x) in ids && IdOf(y) in ids;
    }
  }

  /** Active rows are the heads of live entities. */
  lemma ActivesAreLive(log: Log, typ: RecordType, parent: EntityId)
    ensures Injective(ActivesOn(log, typ, parent), IdOf)
    ensures Image(ActivesOn(log, typ, parent), IdOf) == LiveOn(log, typ, parent)
    ensures forall id :: id in LiveOn(log, typ, parent) ==> Head(log, id).value in ActivesOn(log, typ, parent)
    ensures forall t :: t in ActivesOn(log, typ, parent) ==> Head(log, IdOf(t)) == Some(t)
  {
    forall id | id in LiveOn(log, typ, parent)
      ensures Head(log, id).value in ActivesOn(log, typ, parent) && IdOf(Head(log, id).value) == id
    {
      HeadFacts(log, id);
    }
  }

  // ---- the views on the tables -------------------------------------------------------------------------------------

  /** The participant the row counts for: its nullifier if it bears one, else its author. */
  predicate IsBy(t: Tx, p: Participant) {
    match p
    case ByNullifier(n) => t.env.nullifier == Some(n)
    case ByAuthor(key) => t.env.nullifier == None && t.env.author == key
  }

  /** The row is the head of a live entity of the type on the parent. */
  predicate Stands(log: Log, t: Tx, typ: RecordType, parent: EntityId) {
    && t in log && Head(log, t.env.entityId) == Some(t)
    && t.env.op != Delete && t.env.typ == typ && t.env.parentId == Some(parent)
  }

  /** What the row's content says, if it is not erased. */
  predicate Says(st: Store, t: Tx, field: Content -> Option<string>, value: Option<string>) {
    if t.env.txId in st.plain then field(st.plain[t.env.txId].content) == value else value == None
  }

  function OptionIn(c: Content): Option<string> { if c.DeleteMarker? then None else c.option }

  function KindIn(c: Content): Option<string> { if c.DeleteMarker? then None else c.kind }

  /** A poll's count for an option is the number of participants behind its live votes that say that option; */
  lemma PollCountExactly(st: Store, poll: EntityId, option: Option<string>, who: set<Participant>)
    requires forall p :: p in who <==>
      exists t :: Stands(st.log, t, Vote, poll) && Says(st, t, OptionIn, option) && IsBy(t, p)
    ensures PollCount(st, poll, option) == |who|
  {
    var rows := Group(ActivesOn(st.log, Vote, poll), t => OptionOf(st.plain, t), option);
    forall t ensures t in rows <==> Stands(st.log, t, Vote, poll) && Says(st, t, OptionIn, option) {
      assert t in ActivesOn(st.log, Vote, poll) <==> Stands(st.log, t, Vote, poll);
    }
    ParticipantsBehind(rows, who);
  }

  /** a petition's is the number behind its live signatures; */
  lemma SignersExactly(st: Store, petition: EntityId, who: set<Participant>)
    requires forall p :: p in who <==> exists t :: Stands(st.log, t, PetitionSignature, petition) && IsBy(t, p)
    ensures SignatureCount(st, petition) == |who|
  {
    var rows := ActivesOn(st.log, PetitionSignature, petition);
    assert forall t :: t in rows <==> Stands(st.log, t, PetitionSignature, petition);
    ParticipantsBehind(rows, who);
  }

  /** a parent's for a kind is the number behind its live reactions of that kind, */
  lemma ReactorsExactly(st: Store, parent: EntityId, kind: Option<string>, who: set<Participant>)
    requires forall p :: p in who <==>
      exists t :: Stands(st.log, t, Reaction, parent) && Says(st, t, KindIn, kind) && IsBy(t, p)
    ensures CountByEntity(st, parent, kind) == |who|
  {
    var rows := ReactionsOn(st, parent, kind);
    assert forall t :: t in rows <==> Stands(st.log, t, Reaction, parent) && Says(st, t, KindIn, kind);
    ParticipantsBehind(rows, who);
  }

  /** and a revision's the number behind those pinned to it. */
  lemma SupportersExactly(st: Store, revision: Hash, kind: Option<string>, who: set<Participant>)
    requires forall p :: p in who <==>
      exists t ::
        && t in st.log && Head(st.log, t.env.entityId) == Some(t) && t.env.op != Delete && t.env.typ == Reaction
        && t.env.parentRevisionHash == Some(revision) && Says(st, t, KindIn, kind) && IsBy(t, p)
    ensures CountByRevision(st, revision, kind) == |who|
  {
    ParticipantsBehind(SupportOf(st, revision, kind), who);
  }

  lemma ParticipantsBehind(rows: set<Tx>, who: set<Participant>)
    requires forall p :: p in who <==> exists t :: t in rows && IsBy(t, p)
    ensures CountDistinct(rows) == |who|
  {
    forall t | t in rows ensures ParticipantOf(t) in who { assert IsBy(t, ParticipantOf(t)); }
    assert Image(rows, ParticipantOf) == who;
  }

  // ---- what an accepted call did to a set of active entities, on any log ----------------------------------------

  predicate Accepts(o: Oracle, st: Store, ev: At) { ev.event.Call? && Submit(o, st, ev.event.s, ev.now).1.Ok? }

  function RowOfCall(o: Oracle, ev: At): Tx
    requires ev.event.Call?
  {
    Tx(ev.event.s.env, o.leafHash(ev.event.s.env))
  }

  /** An accepted call added one row with a fresh id, and its content. */
  lemma AcceptedCall(o: Oracle, st: Store, ev: At)
    requires Accepts(o, st, ev)
    ensures var after, e := SignedStep(o, st, ev), ev.event.s.env;
      && after.log == st.log + [RowOfCall(o, ev)]
      && after.plain == st.plain[e.txId := Plain(ev.event.s.salt, ev.event.s.content)]
      && (forall t | t in st.log :: t.env.txId != e.txId)
      && (e.op == Create ==> !Exists(st.log, e.entityId))
      && (e.op != Create ==> IsLive(st.log, e.entityId) && e.parentId == Head(st.log, e.entityId).value.env.parentId)
  {
    if ev.event.s.env.op != Create { EditChecks(o, st, ev.event.s, ev.now); }
  }

  /** A step is an accepted call or leaves the log alone. */
  lemma CallOrNot(o: Oracle, st: Store, ev: At)
    ensures SignedStep(o, st, ev).log == st.log || Accepts(o, st, ev)
  {
  }

  /** The set of active entities after a row: the row's entity leaves with its old head and may come back with the
    * row. */
  lemma ActivesAfter(log: Log, t: Tx, typ: RecordType, parent: EntityId)
    ensures ActivesOn(log + [t], typ, parent) ==
      (set x | x in ActivesOn(log, typ, parent) && x.env.entityId != t.env.entityId)
      + (if t.env.typ == typ && t.env.parentId == Some(parent) && t.env.op != Delete then {t} else {})
  {
    forall x { HeadsSnoc(log, t, x); }
  }

  // ---- polls -------------------------------------------------------------------------------------------------

  /** No participant holds two votes on the poll that record the same option. */
  ghost predicate OnePerOption(st: Store, poll: EntityId) {
    forall option :: Injective(Voters(st, poll, option), ParticipantOf)
  }

  /** The option counts of a poll, summed over any list that covers its options, are the votes it holds, if and only if
    * no participant holds two for one option; otherwise they fall short. */
  lemma OptionCountsAddUp(st: Store, poll: EntityId, options: seq<Option<string>>)
    requires Distinct(options)
    requires forall t | t in ActivesOn(st.log, Vote, poll) :: OptionOf(st.plain, t) in options
    ensures SumCounts(st, poll, options) <= |ActivesOn(st.log, Vote, poll)|
    ensures SumCounts(st, poll, options) == |ActivesOn(st.log, Vote, poll)| <==> OnePerOption(st, poll)
  {
    var held := ActivesOn(st.log, Vote, poll);
    GroupsAddUp(held, t => OptionOf(st.plain, t), options);
    SumIsGroupSum(st, poll, options);
    forall option | option !in options ensures Voters(st, poll, option) == {} {}
  }

  lemma ParticipantsGiveOnePerOption(st: Store, poll: EntityId)
    requires OnePerParticipant(st.log, Vote)
    ensures OnePerOption(st, poll)
  {
    forall option, x, y | x in Voters(st, poll, option) && y in Voters(st, poll, option)
        && ParticipantOf(x) == ParticipantOf(y)
      ensures x == y
    {
      assert SameParticipant(x, y, Vote);
    }
  }

  /** So they add up after every signed run in which no accepted edit promoted its entity. */
  lemma SignedOptionCounts(o: Oracle, evs: seq<At>, poll: EntityId, options: seq<Option<string>>)
    requires NonePromoted(o, evs) && Distinct(options)
    requires var st := SignedRun(o, evs);
      forall t | t in ActivesOn(st.log, Vote, poll) :: OptionOf(st.plain, t) in options
    ensures var st := SignedRun(o, evs); SumCounts(st, poll, options) == |ActivesOn(st.log, Vote, poll)|
  {
    SlotsKeptExactly(o, evs);
    SignedParticipants(SignedRun(o, evs), Vote);
    ParticipantsGiveOnePerOption(SignedRun(o, evs), poll);
    OptionCountsAddUp(SignedRun(o, evs), poll, options);
  }

  function SumCounts(st: Store, poll: EntityId, options: seq<Option<string>>): nat {
    if options == [] then 0 else PollCount(st, poll, options[0]) + SumCounts(st, poll, options[1..])
  }

  lemma {:induction false} SumIsGroupSum(st: Store, poll: EntityId, options: seq<Option<string>>)
    ensures var sum := GroupSum(ActivesOn(st.log, Vote, poll), t => OptionOf(st.plain, t), options);
      && SumCounts(st, poll, options) <= sum
      && (SumCounts(st, poll, options) == sum <==>
          forall option | option in options :: Injective(Voters(st, poll, option), ParticipantOf))
  {
    if options != [] {
      ImageSizeExactly(Voters(st, poll, options[0]), ParticipantOf);
      SumIsGroupSum(st, poll, options[1..]);
      assert options == [options[0]] + options[1..];
    }
  }

  function IdOf(t: Tx): EntityId { t.env.entityId }

  /** No vote is ever deleted, so the votes a poll holds are the votes ever cast on it. */
  lemma EveryVoteStays(log: Log, poll: EntityId)
    requires WellFormed(log)
    ensures |ActivesOn(log, Vote, poll)| == |Cast(log, poll)|
  {
    var held := ActivesOn(log, Vote, poll);
    forall id ensures id in Cast(log, poll) <==> id in Image(held, IdOf) { VoteHeld(log, poll, id); }
    ImageSize(held, IdOf);
    assert Cast(log, poll) == Image(held, IdOf);
  }

  lemma {:induction false} CastIsHeadFact(log: Log, poll: EntityId, id: EntityId)
    requires WellFormed(log)
    ensures id in Cast(log, poll) <==> Exists(log, id) && Head(log, id).value.env.typ == Vote
                                       && Head(log, id).value.env.parentId == Some(poll)
  {
    if |log| > 0 {
      CastIsHeadFact(Front(log), poll, id);
      assert log == Front(log) + [Last(log)];
      assert id in Cast(log, poll) <==> id in Cast(Front(log), poll) || id in Cast([Last(log)], poll);
    }
  }

  lemma VoteHeld(log: Log, poll: EntityId, id: EntityId)
    requires WellFormed(log)
    ensures id in Cast(log, poll) <==> id in Image(ActivesOn(log, Vote, poll), IdOf)
  {
    CastIsHeadFact(log, poll, id);
    if id in Cast(log, poll) {
      HeadFacts(log, id);
      NoDeletedVote(log, id);
      assert IdOf(Head(log, id).value) == id && Head(log, id).value in ActivesOn(log, Vote, poll);
    }
  }

  lemma {:induction false} NoDeletedVote(log: Log, id: EntityId)
    requires WellFormed(log) && Exists(log, id) && Head(log, id).value.env.typ == Vote
    ensures Head(log, id).value.env.op != Delete
  {
    if Last(log).env.entityId != id { NoDeletedVote(Front(log), id); }
  }

  /** An accepted edit that declares an active vote of the poll to be something else. */
  predicate RetypesVote(o: Oracle, st: Store, ev: At, poll: EntityId) {
    Accepts(o, st, ev) &&
    var e := ev.event.s.env;
    e.op != Create && e.typ != Vote && Head(st.log, e.entityId).Some?
        && Head(st.log, e.entityId).value in ActivesOn(st.log, Vote, poll)
  }

  /** On any store, a step lowers a poll's total exactly when it retypes one of its votes. */
  lemma TotalFallsExactly(o: Oracle, st: Store, ev: At, poll: EntityId)
    ensures |ActivesOn(SignedStep(o, st, ev).log, Vote, poll)| < |ActivesOn(st.log, Vote, poll)| <==>
      RetypesVote(o, st, ev, poll)
  {
    CallOrNot(o, st, ev);
    if Accepts(o, st, ev) {
      var e, t := ev.event.s.env, RowOfCall(o, ev);
      AcceptedCall(o, st, ev);
      TotalAfter(st.log, t, poll);
      if e.op != Create && Head(st.log, e.entityId).value in ActivesOn(st.log, Vote, poll) {
        AcceptedVoteEdit(o, st, ev.event.s, ev.now);
      }
    }
  }

  /** One row takes away its entity's vote, if that was one, and adds itself, if it is one. */
  lemma TotalAfter(log: Log, t: Tx, poll: EntityId)
    requires t !in log
    ensures var held, h := ActivesOn(log, Vote, poll), Head(log, t.env.entityId);
      |ActivesOn(log + [t], Vote, poll)| == |held|
        - (if h.Some? && h.value in held then 1 else 0)
        + (if t.env.typ == Vote && t.env.parentId == Some(poll) && t.env.op != Delete then 1 else 0)
  {
    var held := ActivesOn(log, Vote, poll);
    var others := set x | x in held && x.env.entityId != t.env.entityId;
    ActivesAfter(log, t, Vote, poll);
    OthersHeld(log, t.env.entityId, poll);
    assert t !in others;
  }

  lemma OthersHeld(log: Log, id: EntityId, poll: EntityId)
    ensures var held, h := ActivesOn(log, Vote, poll), Head(log, id);
      |set x | x in held && x.env.entityId != id| == |held| - if h.Some? && h.value in held then 1 else 0
  {
    var held, h := ActivesOn(log, Vote, poll), Head(log, id);
    var others := set x | x in held && x.env.entityId != id;
    EntityHeld(log, id, Vote, poll);
    if h.Some? && h.value in held {
      HeadFacts(log, id);
      assert held == others + {h.value} && h.value !in others;
    } else {
      assert others == held;
    }
  }

  /** The only active row of an entity is its head. */
  lemma EntityHeld(log: Log, id: EntityId, typ: RecordType, parent: EntityId)
    ensures forall x | x in ActivesOn(log, typ, parent) && x.env.entityId == id :: Head(log, id) == Some(x)
  {
  }

  /** A poll's total never falls along a signed run, unless a step in between retypes one of its votes. */
  lemma {:induction false} VotesNeverLost(o: Oracle, evs: seq<At>, k: nat, poll: EntityId)
    requires k <= |evs| && forall i :: k <= i < |evs| ==> !RetypesVote(o, SignedRun(o, evs[..i]), evs[i], poll)
    ensures |ActivesOn(SignedRun(o, evs[..k]).log, Vote, poll)| <= |ActivesOn(SignedRun(o, evs).log, Vote, poll)|
    decreases |evs|
  {
    if k < |evs| {
      var prior := evs[..|evs| - 1];
      assert prior[..k] == evs[..k];
      forall i | k <= i < |prior| ensures !RetypesVote(o, SignedRun(o, prior[..i]), prior[i], poll) {
        assert prior[..i] == evs[..i];
      }
      VotesNeverLost(o, prior, k, poll);
      TotalFallsExactly(o, SignedRun(o, prior), evs[|evs| - 1], poll);
    } else {
      assert evs[..k] == evs;
    }
  }

  /** On any store, a recorded vote reads differently after a step only if that step was an accepted change allowed by
    * the poll's effective rules with the deadline still ahead, or an erasure of the recorded vote. */
  lemma VoteChangesNeedPermission(o: Oracle, st: Store, ev: At, id: EntityId)
    requires Exists(st.log, id) && Head(st.log, id).value.env.typ == Vote
    requires ContentOf(SignedStep(o, st, ev), id) != ContentOf(st, id)
    ensures ev.event == Forget(Head(st.log, id).value.env.txId) || (ev.event.Call? &&
      var e := ev.event.s.env;
      && e.entityId == id && e.op == Update && e.author in st.keys && Head(st.log, id).value.env.parentId.Some?
      && CanChangeVote(o, st, Head(st.log, id).value.env.parentId.value, ev.now, Some(st.keys[e.author].jurisdiction)))
  {
    HeadFacts(st.log, id);
    CallOrNot(o, st, ev);
    if Accepts(o, st, ev) {
      AcceptedCall(o, st, ev);
      Snoc(st.log, RowOfCall(o, ev));
      if ev.event.s.env.entityId == id { AcceptedVoteEdit(o, st, ev.event.s, ev.now); }
    }
  }

  /** An accepted call on an existing vote is an update that the poll's rules allow, whatever type it declares. */
  lemma AcceptedVoteEdit(o: Oracle, st: Store, s: Submission, now: int)
    requires SignedCheck(o, st, s, now).verdict.Ok?
    requires Exists(st.log, s.env.entityId) && Head(st.log, s.env.entityId).value.env.typ == Vote
    ensures var e, h := s.env, Head(st.log, s.env.entityId).value.env;
      && e.op == Update && e.author in st.keys && h.parentId.Some?
      && CanChangeVote(o, st, h.parentId.value, now, Some(st.keys[e.author].jurisdiction))
  {
  }

  lemma AcceptedSignatureEdit(o: Oracle, st: Store, s: Submission, now: int)
    requires SignedCheck(o, st, s, now).verdict.Ok?
    requires Exists(st.log, s.env.entityId) && Head(st.log, s.env.entityId).value.env.typ == PetitionSignature
    ensures var e, h := s.env, Head(st.log, s.env.entityId).value.env;
      && e.op == Delete && e.author in st.keys && h.parentId.Some?
      && CanRevokeSignature(o, st, h.parentId.value, now, Some(st.keys[e.author].jurisdiction))
  {
  }

  lemma AcceptedAttachment(o: Oracle, st: Store, s: Submission, now: int)
    requires SignedCheck(o, st, s, now).verdict.Ok? && s.env.op == Create && !IsRootType(s.env.typ)
    ensures s.env.parentId.Some? && IsLive(st.log, s.env.parentId.value)
  {
  }

  /** No jurisdiction's rules let a vote on the poll change at that time: it is past its deadline, say. */
  ghost predicate ClosedToChanges(o: Oracle, st: Store, poll: EntityId, now: int) {
    forall j :: !CanChangeVote(o, st, poll, now, j)
  }

  /** What the entity adds to the poll: nothing, or a vote with this content. */
  function VoteOf(st: Store, poll: EntityId, id: EntityId): Option<Option<Content>> {
    match Head(st.log, id)
    case Some(h) =>
      if h.env.typ == Vote && h.env.parentId == Some(poll) && h.env.op != Delete then Some(ContentOf(st, id)) else None
    case None => None
  }

  /** The step erases what the vote records. */
  predicate ErasesVote(st: Store, ev: At, poll: EntityId, id: EntityId) {
    && VoteOf(st, poll, id).Some? && VoteOf(st, poll, id).value.Some?
    && ev.event == Forget(Head(st.log, id).value.env.txId)
  }

  /** Once votes may not change, on any store, what an entity that exists adds to the poll changes exactly when an
    * accepted edit declares something else to be its vote, or its vote is erased. The rules and the deadline do not
    * enter the first: a vote declared a comment in time comes back as any vote, at any time. */
  lemma LateChangesExactly(o: Oracle, st: Store, ev: At, poll: EntityId, id: EntityId)
    requires Exists(st.log, id) && ClosedToChanges(o, st, poll, ev.now)
    ensures VoteOf(SignedStep(o, st, ev), poll, id) != VoteOf(st, poll, id) <==>
      (Becomes(o, st, ev, Vote, poll) && ev.event.s.env.entityId == id) || ErasesVote(st, ev, poll, id)
  {
    if Accepts(o, st, ev) { LateCall(o, st, ev, poll, id); } else { CallOrNot(o, st, ev); }
  }

  lemma LateCall(o: Oracle, st: Store, ev: At, poll: EntityId, id: EntityId)
    requires Exists(st.log, id) && ClosedToChanges(o, st, poll, ev.now) && Accepts(o, st, ev)
    ensures VoteOf(SignedStep(o, st, ev), poll, id) != VoteOf(st, poll, id) <==>
      Becomes(o, st, ev, Vote, poll) && ev.event.s.env.entityId == id
  {
    var e := ev.event.s.env;
    HeadFacts(st.log, id);
    AcceptedCall(o, st, ev);
    Snoc(st.log, RowOfCall(o, ev));
    if e.entityId == id && Head(st.log, id).value.env.typ == Vote { AcceptedVoteEdit(o, st, ev.event.s, ev.now); }
  }

  /** Whether an update of something that is no vote passes does not depend on the time or on any rules. */
  lemma OtherUpdatesIgnoreDeadlines(o: Oracle, other: Oracle, st: Store, s: Submission, tk: ThreadKey, now: int,
        later: int)
    requires s.env.op == Update && other == o.(rules := other.rules)
    requires Exists(st.log, s.env.entityId) && Head(st.log, s.env.entityId).value.env.typ != Vote
    ensures CheckEdit(other, st, s, tk, later) == CheckEdit(o, st, s, tk, now)
  {
  }

  /** An accepted edit that declares something else on the parent to be an active entity of the type. */
  predicate Becomes(o: Oracle, st: Store, ev: At, typ: RecordType, parent: EntityId) {
    Accepts(o, st, ev) &&
    var e := ev.event.s.env;
    && e.op == Update && e.typ == typ && e.parentId == Some(parent)
    && Head(st.log, e.entityId).Some? && Head(st.log, e.entityId).value.env.typ != typ
  }

  /** Once a poll or petition is deleted, on any store, a step moves the set of its active votes or signatures exactly
    * when it declares something else to be one; and nothing brings the poll or petition back. */
  lemma FrozenExactly(o: Oracle, st: Store, ev: At, typ: RecordType, parent: EntityId)
    requires typ == Vote || typ == PetitionSignature
    requires Exists(st.log, parent) && !IsLive(st.log, parent)
    ensures ActivesOn(SignedStep(o, st, ev).log, typ, parent) != ActivesOn(st.log, typ, parent) <==>
      Becomes(o, st, ev, typ, parent)
    ensures Head(SignedStep(o, st, ev).log, parent) == Head(st.log, parent)
  {
    CallOrNot(o, st, ev);
    if Accepts(o, st, ev) {
      var e, t, s := ev.event.s.env, RowOfCall(o, ev), ev.event.s;
      AcceptedCall(o, st, ev);
      Snoc(st.log, t);
      ActivesAfter(st.log, t, typ, parent);
      EntityHeld(st.log, e.entityId, typ, parent);
      if e.op == Create {
        if !IsRootType(e.typ) { AcceptedAttachment(o, st, s, ev.now); }
      } else {
        HeadFacts(st.log, e.entityId);
        var h := Head(st.log, e.entityId).value;
        if h.env.typ == Vote { AcceptedVoteEdit(o, st, s, ev.now); }
        if h.env.typ == PetitionSignature { AcceptedSignatureEdit(o, st, s, ev.now); }
        assert h in st.log && t !in st.log;
      }
      assert (set x | x in ActivesOn(st.log, typ, parent)
          && x.env.entityId != e.entityId) == ActivesOn(st.log, typ, parent);
      assert t !in ActivesOn(st.log, typ, parent);
    }
  }

  /** Once a poll or petition is deleted, its active votes or signatures are the same in every continuation, erasures
    * included, as long as no step declares something else to be one. */
  lemma {:induction false} DeletedParentIsFinal(o: Oracle, evs: seq<At>, k: nat, typ: RecordType, parent: EntityId)
    requires (typ == Vote || typ == PetitionSignature) && k <= |evs|
    requires Exists(SignedRun(o, evs[..k]).log, parent) && !IsLive(SignedRun(o, evs[..k]).log, parent)
    requires forall i :: k <= i < |evs| ==> !Becomes(o, SignedRun(o, evs[..i]), evs[i], typ, parent)
    ensures ActivesOn(SignedRun(o, evs).log, typ, parent) == ActivesOn(SignedRun(o, evs[..k]).log, typ, parent)
    ensures Head(SignedRun(o, evs).log, parent) == Head(SignedRun(o, evs[..k]).log, parent)
    decreases |evs|
  {
    if k < |evs| {
      var prior := evs[..|evs| - 1];
      assert prior[..k] == evs[..k];
      forall i | k <= i < |prior| ensures !Becomes(o, SignedRun(o, prior[..i]), prior[i], typ, parent) {
        assert prior[..i] == evs[..i];
      }
      DeletedParentIsFinal(o, prior, k, typ, parent);
      FrozenExactly(o, SignedRun(o, prior), evs[|evs| - 1], typ, parent);
    } else {
      assert evs[..k] == evs;
    }
  }

  /** So a deleted petition's signature count is constant. */
  lemma DeletedPetitionIsFinal(o: Oracle, evs: seq<At>, k: nat, petition: EntityId)
    requires k <= |evs|
    requires Exists(SignedRun(o, evs[..k]).log, petition) && !IsLive(SignedRun(o, evs[..k]).log, petition)
    requires forall i :: k <= i < |evs| ==> !Becomes(o, SignedRun(o, evs[..i]), evs[i], PetitionSignature, petition)
    ensures SignatureCount(SignedRun(o, evs), petition) == SignatureCount(SignedRun(o, evs[..k]), petition)
  {
    DeletedParentIsFinal(o, evs, k, PetitionSignature, petition);
  }

  // ---- what an erasure moves --------------------------------------------------------------------------------------

  /** The erased row is the head of an active vote of the poll, and the option is the one it records or none at all. */
  predicate ErasesOption(st: Store, x: TxId, poll: EntityId, option: Option<string>) {
    exists t | t in ActivesOn(st.log, Vote, poll) :: RecordedBy(st, t, x, option)
  }

  predicate RecordedBy(st: Store, t: Tx, x: TxId, option: Option<string>) {
    t.env.txId == x && OptionOf(st.plain, t).Some? && (option.None? || option == OptionOf(st.plain, t))
  }

  function Voters(st: Store, poll: EntityId, option: Option<string>): set<Tx> {
    Group(ActivesOn(st.log, Vote, poll), t => OptionOf(st.plain, t), option)
  }

  /** The erased row is such a vote, and no other vote that records the option is its participant's. */
  predicate ErasesAlone(st: Store, x: TxId, poll: EntityId, option: Option<string>) {
    exists t | t in ActivesOn(st.log, Vote, poll) ::
      RecordedBy(st, t, x, option) && StandsAlone(Voters(st, poll, option), t)
  }

  predicate StandsAlone(rows: set<Tx>, t: Tx) {
    forall u | u in rows :: ParticipantOf(u) == ParticipantOf(t) ==> u == t
  }

  /** An erasure moves a poll's count for an option if and only if it erases the head of an active vote, the option is
    * the recorded one, which loses it, or none, which gains it, and its participant has no other vote there. */
  lemma ErasureMovesExactly(o: Oracle, st: Store, x: TxId, now: int, poll: EntityId, option: Option<string>)
    requires Hashed(o, st.log)
    ensures var after := SignedStep(o, st, At.At(Forget(x), now));
      PollCount(after, poll, option) != PollCount(st, poll, option) <==> ErasesAlone(st, x, poll, option)
  {
    var after := SignedStep(o, st, At.At(Forget(x), now));
    if t :| t in ActivesOn(st.log, Vote, poll) && t.env.txId == x && OptionOf(st.plain, t).Some? {
      ErasedVote(o, st, after, t, poll, option);
      OnlyErased(o, st, t, poll, option);
      if option.None? {
        OneMoreKey(Voters(st, poll, option), t);
      } else if OptionOf(st.plain, t) == option {
        OneFewerKey(Voters(st, poll, option), t);
      } else {
        assert Voters(after, poll, option) == Voters(st, poll, option);
      }
    } else {
      ErasedOther(st, after, x, poll, option);
    }
  }

  /** One more row counts unless its participant is counted already. */
  lemma OneMoreKey(rows: set<Tx>, t: Tx)
    requires t !in rows
    ensures CountDistinct(rows + {t}) != CountDistinct(rows) <==> StandsAlone(rows, t)
  {
    var keys, k := Image(rows, ParticipantOf), ParticipantOf(t);
    assert Image(rows + {t}, ParticipantOf) == keys + {k};
    if u :| u in rows && ParticipantOf(u) == k { assert keys + {k} == keys; } else { assert k !in keys; }
  }

  lemma OneFewerKey(rows: set<Tx>, t: Tx)
    requires t in rows
    ensures CountDistinct(rows - {t}) != CountDistinct(rows) <==> StandsAlone(rows, t)
  {
    OneMoreKey(rows - {t}, t);
    assert rows == (rows - {t}) + {t};
    forall u ensures u in rows <==> u in rows - {t} || u == t {}
    assert StandsAlone(rows, t) <==> StandsAlone(rows - {t}, t);
  }

  lemma OnlyErased(o: Oracle, st: Store, t: Tx, poll: EntityId, option: Option<string>)
    requires Hashed(o, st.log) && t in ActivesOn(st.log, Vote, poll) && OptionOf(st.plain, t).Some?
    ensures ErasesAlone(st, t.env.txId, poll, option) <==>
      (option.None? || option == OptionOf(st.plain, t)) && StandsAlone(Voters(st, poll, option), t)
  {
    forall u | u in ActivesOn(st.log, Vote, poll) && u.env.txId == t.env.txId ensures u == t {
      SameTxId(o, st.log, t, u);
    }
  }

  /** With one entity per participant every such vote stands alone. */
  lemma ParticipantsStandAlone(st: Store, x: TxId, poll: EntityId, option: Option<string>)
    requires OnePerParticipant(st.log, Vote)
    ensures ErasesAlone(st, x, poll, option) <==> ErasesOption(st, x, poll, option)
  {
    if t :| t in ActivesOn(st.log, Vote, poll) && RecordedBy(st, t, x, option) {
      forall u | u in Voters(st, poll, option) && ParticipantOf(u) == ParticipantOf(t) ensures u == t {
        assert SameParticipant(u, t, Vote);
      }
      assert StandsAlone(Voters(st, poll, option), t);
    }
  }

  /** Erasing an active vote's row moves it from the voters of its option to those of none. */
  lemma ErasedVote(o: Oracle, st: Store, after: Store, t: Tx, poll: EntityId, option: Option<string>)
    requires Hashed(o, st.log) && after == st.(plain := st.plain - {t.env.txId})
    requires t in ActivesOn(st.log, Vote, poll) && OptionOf(st.plain, t).Some?
    ensures Voters(after, poll, option) ==
      if option.None? then Voters(st, poll, option) + {t} else Voters(st, poll, option) - {t}
    ensures t in Voters(st, poll, option) <==> OptionOf(st.plain, t) == option
    ensures ErasesOption(st, t.env.txId, poll, option) <==> option.None? || option == OptionOf(st.plain, t)
  {
    forall u | u in ActivesOn(st.log, Vote, poll) ensures u.env.txId == t.env.txId <==> u == t {
      if u.env.txId == t.env.txId { SameTxId(o, st.log, t, u); }
    }
    forall u | u in ActivesOn(st.log, Vote, poll)
      ensures OptionOf(after.plain, u) == if u == t then None else OptionOf(st.plain, u)
    {
    }
  }

  lemma ErasedOther(st: Store, after: Store, x: TxId, poll: EntityId, option: Option<string>)
    requires after == st.(plain := st.plain - {x})
    requires forall t | t in ActivesOn(st.log, Vote, poll) :: t.env.txId != x || OptionOf(st.plain, t).None?
    ensures Voters(after, poll, option) == Voters(st, poll, option) && !ErasesOption(st, x, poll, option)
  {
    forall u | u in ActivesOn(st.log, Vote, poll) ensures OptionOf(after.plain, u) == OptionOf(st.plain, u) {}
  }

  lemma SameTxId(o: Oracle, log: Log, t: Tx, u: Tx)
    requires Hashed(o, log) && t in log && u in log && t.env.txId == u.env.txId
    ensures t == u
  {
  }

  /** The step leaves the count of an option of a deleted poll alone: it declares no vote and erases none that
    * records it. */
  predicate LeavesCount(o: Oracle, st: Store, ev: At, poll: EntityId, option: Option<string>) {
    && !Becomes(o, st, ev, Vote, poll)
    && (ev.event.Forget? ==> !ErasesOption(st, ev.event.txId, poll, option))
  }

  lemma VoterKept(o: Oracle, st: Store, ev: At, poll: EntityId, option: Option<string>, t: Tx)
    requires LeavesCount(o, st, ev, poll, option) && t in ActivesOn(st.log, Vote, poll)
    ensures OptionOf(SignedStep(o, st, ev).plain, t) == option <==> OptionOf(st.plain, t) == option
  {
    CallOrNot(o, st, ev);
    if Accepts(o, st, ev) { AcceptedCall(o, st, ev); }
  }

  /** A step keeps what active votes record, an erasure apart. */
  lemma VotersKept(o: Oracle, st: Store, ev: At, poll: EntityId, option: Option<string>)
    requires Exists(st.log, poll) && !IsLive(st.log, poll) && LeavesCount(o, st, ev, poll, option)
    ensures Voters(SignedStep(o, st, ev), poll, option) == Voters(st, poll, option)
  {
    FrozenExactly(o, st, ev, Vote, poll);
    forall t | t in ActivesOn(st.log, Vote, poll)
      ensures OptionOf(SignedStep(o, st, ev).plain, t) == option <==> OptionOf(st.plain, t) == option
    {
      VoterKept(o, st, ev, poll, option, t);
    }
  }

  /** Once a poll is deleted its count for an option is the same in every continuation, as long as no step declares
    * something else to be its vote or erases a vote that records the option. */
  lemma {:induction false} DeletedPollIsFinal(o: Oracle, evs: seq<At>, k: nat, poll: EntityId, option: Option<string>)
    requires k <= |evs|
    requires Exists(SignedRun(o, evs[..k]).log, poll) && !IsLive(SignedRun(o, evs[..k]).log, poll)
    requires forall i :: k <= i < |evs| ==> LeavesCount(o, SignedRun(o, evs[..i]), evs[i], poll, option)
    ensures PollCount(SignedRun(o, evs), poll, option) == PollCount(SignedRun(o, evs[..k]), poll, option)
    ensures Voters(SignedRun(o, evs), poll, option) == Voters(SignedRun(o, evs[..k]), poll, option)
    decreases |evs|
  {
    if k < |evs| {
      var prior := evs[..|evs| - 1];
      assert prior[..k] == evs[..k];
      forall i | k <= i < |prior| ensures LeavesCount(o, SignedRun(o, prior[..i]), prior[i], poll, option) {
        assert prior[..i] == evs[..i];
      }
      DeletedPollIsFinal(o, prior, k, poll, option);
      DeletedParentIsFinal(o, prior, k, Vote, poll);
      VotersKept(o, SignedRun(o, prior), evs[|evs| - 1], poll, option);
    } else {
      assert evs[..k] == evs;
    }
  }

  // ---- revision pinning ------------------------------------------------------------------------------------------

  /** `revisions` lists exactly the create and update hashes of the entity, once each. */
  ghost predicate RevisionsOf(log: Log, id: EntityId, revisions: seq<Hash>) {
    Distinct(revisions) && forall h :: h in revisions <==> IsRevisionOf(log, id, h)
  }

  function SumByRevision(st: Store, revisions: seq<Hash>, kind: Option<string>): nat {
    if revisions == [] then 0
    else CountByRevision(st, revisions[0], kind) + SumByRevision(st, revisions[1..], kind)
  }

  function PinOf(t: Tx): Option<Hash> { t.env.parentRevisionHash }

  /** The active reactions of a kind on the parent. */
  function ReactionsOn(st: Store, parent: EntityId, kind: Option<string>): set<Tx> {
    set t | t in ReactionsOf(st, kind) && t.env.parentId == Some(parent)
  }

  /** Those among them that do not name the parent's type; the store never pins them. */
  function Unpinned(st: Store, parent: EntityId, kind: Option<string>): set<Tx> {
    set t | t in ReactionsOn(st, parent, kind) && t.env.parentType.None?
  }

  /** The others; each is pinned to a revision of the parent. */
  function PinnedOn(st: Store, parent: EntityId, kind: Option<string>): set<Tx> {
    ReactionsOn(st, parent, kind) - Unpinned(st, parent, kind)
  }

  /** No participant's reactions of the kind on the parent are pinned to two revisions. */
  ghost predicate OnePinEach(st: Store, parent: EntityId, kind: Option<string>) {
    OneGroupEach(PinnedOn(st, parent, kind), PinOf, ParticipantOf)
  }

  /** Who supports which revision. */
  function Supports(st: Store, parent: EntityId, kind: Option<string>): set<(Participant, Option<Hash>)> {
    Image(PinnedOn(st, parent, kind), Pairing(ParticipantOf, PinOf))
  }

  /** How often a participant is counted again, at a second or later revision. */
  function Repeats(st: Store, parent: EntityId, kind: Option<string>): int {
    |Supports(st, parent, kind)| - |Image(PinnedOn(st, parent, kind), ParticipantOf)|
  }

  /** The participants whose reactions of the kind on the parent are all unpinned. */
  function LeftOut(st: Store, parent: EntityId, kind: Option<string>): set<Participant> {
    Image(Unpinned(st, parent, kind), ParticipantOf) - Image(PinnedOn(st, parent, kind), ParticipantOf)
  }

  /** For each kind, the per-revision counts over all revisions of a parent count who supports which revision: beside
    * the per-entity count they leave out the participants without a pinned reaction, and count again those with
    * reactions pinned to several revisions. */
  lemma RevisionCountsAddUp(o: Oracle, st: Store, parent: EntityId, revisions: seq<Hash>, kind: Option<string>)
    requires CollisionFree(o) && Chained(st.log) && Hashed(o, st.log) && RevisionsOf(st.log, parent, revisions)
    ensures SumByRevision(st, revisions, kind) == |Supports(st, parent, kind)|
    ensures SumByRevision(st, revisions, kind) + |LeftOut(st, parent, kind)| ==
      CountByEntity(st, parent, kind) + Repeats(st, parent, kind)
    ensures Repeats(st, parent, kind) >= 0 && (Repeats(st, parent, kind) == 0 <==> OnePinEach(st, parent, kind))
  {
    PinnedAddUp(o, st, parent, revisions, kind);
    RepeatsExactly(st, parent, kind);
    EntityCountSplits(st, parent, kind);
  }

  lemma RepeatsExactly(st: Store, parent: EntityId, kind: Option<string>)
    ensures Repeats(st, parent, kind) >= 0 && (Repeats(st, parent, kind) == 0 <==> OnePinEach(st, parent, kind))
  {
    PairsExactly(PinnedOn(st, parent, kind), PinOf, ParticipantOf);
  }

  lemma EntityCountSplits(st: Store, parent: EntityId, kind: Option<string>)
    ensures CountByEntity(st, parent, kind) ==
      |Image(PinnedOn(st, parent, kind), ParticipantOf)| + |LeftOut(st, parent, kind)|
  {
    KeysSplit(PinnedOn(st, parent, kind), Unpinned(st, parent, kind));
    assert ReactionsOn(st, parent, kind) == PinnedOn(st, parent, kind) + Unpinned(st, parent, kind);
  }

  lemma KeysSplit(a: set<Tx>, b: set<Tx>)
    ensures CountDistinct(a + b) == CountDistinct(a) + |Image(b, ParticipantOf) - Image(a, ParticipantOf)|
  {
    var here, there := Image(a, ParticipantOf), Image(b, ParticipantOf);
    assert Image(a + b, ParticipantOf) == here + (there - here);
  }

  /** Where every reaction of the kind on the parent is pinned, the sum is at least the per-entity count, and equal to
    * it if and only if no participant's are pinned to two revisions. */
  lemma PinnedSumExactly(o: Oracle, st: Store, parent: EntityId, revisions: seq<Hash>, kind: Option<string>)
    requires CollisionFree(o) && Chained(st.log) && Hashed(o, st.log) && RevisionsOf(st.log, parent, revisions)
    requires Unpinned(st, parent, kind) == {}
    ensures SumByRevision(st, revisions, kind) >= CountByEntity(st, parent, kind)
    ensures SumByRevision(st, revisions, kind) == CountByEntity(st, parent, kind) <==> OnePinEach(st, parent, kind)
  {
    RevisionCountsAddUp(o, st, parent, revisions, kind);
    assert LeftOut(st, parent, kind) == {};
  }

  /** With one entity per participant no one is counted again, and the sum leaves out exactly the unpinned reactions. */
  lemma ParticipantsLeftOut(o: Oracle, st: Store, parent: EntityId, revisions: seq<Hash>, kind: Option<string>)
    requires CollisionFree(o) && Chained(st.log) && Hashed(o, st.log) && OnePerParticipant(st.log, Reaction)
    requires RevisionsOf(st.log, parent, revisions)
    ensures SumByRevision(st, revisions, kind) + |Unpinned(st, parent, kind)| == CountByEntity(st, parent, kind)
    ensures SumByRevision(st, revisions, kind) == CountByEntity(st, parent, kind) <==> Unpinned(st, parent, kind) == {}
  {
    var pinned, unpinned := PinnedOn(st, parent, kind), Unpinned(st, parent, kind);
    RevisionCountsAddUp(o, st, parent, revisions, kind);
    OneReactionEach(st, parent, kind);
    DisjointKeys(ReactionsOn(st, parent, kind), pinned, unpinned);
    ImageSize(unpinned, ParticipantOf);
  }

  lemma OneReactionEach(st: Store, parent: EntityId, kind: Option<string>)
    requires OnePerParticipant(st.log, Reaction)
    ensures Injective(ReactionsOn(st, parent, kind), ParticipantOf) && OnePinEach(st, parent, kind)
  {
    var rows := ReactionsOn(st, parent, kind);
    forall x, y | x in rows && y in rows && ParticipantOf(x) == ParticipantOf(y) ensures x == y {
      assert SameParticipant(x, y, Reaction);
    }
  }

  lemma DisjointKeys(rows: set<Tx>, a: set<Tx>, b: set<Tx>)
    requires Injective(rows, ParticipantOf) && a <= rows && b <= rows && a !! b
    ensures Image(b, ParticipantOf) - Image(a, ParticipantOf) == Image(b, ParticipantOf) && Injective(b, ParticipantOf)
  {
  }

  lemma PinnedAddUp(o: Oracle, st: Store, parent: EntityId, revisions: seq<Hash>, kind: Option<string>)
    requires CollisionFree(o) && Chained(st.log) && Hashed(o, st.log) && RevisionsOf(st.log, parent, revisions)
    ensures SumByRevision(st, revisions, kind) == |Supports(st, parent, kind)|
  {
    var pinned := PinnedOn(st, parent, kind);
    var pins := seq(|revisions|, i requires 0 <= i < |revisions| => Some(revisions[i]));
    forall t | t in pinned ensures PinOf(t) in pins { PinIsListed(st, parent, revisions, pins, t); }
    KeySumIsPairs(pinned, PinOf, ParticipantOf, pins);
    SumIsKeySum(o, st, parent, revisions, pins, kind);
  }

  lemma PinIsListed(st: Store, parent: EntityId, revisions: seq<Hash>, pins: seq<Option<Hash>>, t: Tx)
    requires Chained(st.log) && RevisionsOf(st.log, parent, revisions)
    requires |pins| == |revisions| && forall i :: 0 <= i < |pins| ==> pins[i] == Some(revisions[i])
    requires t in st.log && ParentOf(t.env).Some? && t.env.parentId == Some(parent)
    ensures PinOf(t) in pins
  {
    EveryRowIsPinned(st.log, t);
    var i :| 0 <= i < |revisions| && revisions[i] == PinOf(t).value;
    assert pins[i] == PinOf(t);
  }

  lemma {:induction false} SumIsKeySum(o: Oracle, st: Store, parent: EntityId, revisions: seq<Hash>,
                                       pins: seq<Option<Hash>>, kind: Option<string>)
    requires CollisionFree(o) && Chained(st.log) && Hashed(o, st.log)
    requires forall h | h in revisions :: IsRevisionOf(st.log, parent, h)
    requires |pins| == |revisions| && forall i :: 0 <= i < |pins| ==> pins[i] == Some(revisions[i])
    ensures SumByRevision(st, revisions, kind) == KeySum(PinnedOn(st, parent, kind), PinOf, ParticipantOf, pins)
  {
    if revisions != [] {
      var here := set t | t in ReactionsOf(st, kind) && t.env.parentRevisionHash == Some(revisions[0]);
      forall t | t in here ensures t in PinnedOn(st, parent, kind) {
        PinNamesParent(o, st.log, t, parent, revisions[0]);
      }
      assert here == Group(PinnedOn(st, parent, kind), PinOf, pins[0]);
      SumIsKeySum(o, st, parent, revisions[1..], pins[1..], kind);
    }
  }

  /** A revision hash names its entity: a row pinned to it names that entity as its parent in full. */
  lemma PinNamesParent(o: Oracle, log: Log, t: Tx, parent: EntityId, h: Hash)
    requires CollisionFree(o) && Chained(log) && Hashed(o, log) && t in log
    requires t.env.parentRevisionHash == Some(h) && IsRevisionOf(log, parent, h)
    ensures ParentOf(t.env).Some? && t.env.parentId == Some(parent)
  {
    EveryRowIsPinned(log, t);
    var x :| x in log && x.env.entityId == parent && x.env.op != Delete && x.hash == h;
    var y :| y in log && y.env.entityId == t.env.parentId.value && y.env.op != Delete && y.hash == h;
    HashesDistinct(o, log, x, y);
  }

  /** The sums hold on both paths: by nullifier after signed calls that promote nothing, */
  lemma SignedRevisionCounts(o: Oracle, evs: seq<At>, parent: EntityId, revisions: seq<Hash>, kind: Option<string>)
    requires CollisionFree(o) && NonePromoted(o, evs) && RevisionsOf(SignedRun(o, evs).log, parent, revisions)
    ensures SumByRevision(SignedRun(o, evs), revisions, kind) == CountByEntity(SignedRun(o, evs), parent, kind)
  {
    var st := SignedRun(o, evs);
    SignedRunIsChained(o, evs);
    SlotsKeptExactly(o, evs);
    SignedParticipants(st, Reaction);
    forall t | t in ReactionsOn(st, parent, kind) ensures t.env.parentType.Some? { assert RowOk(st, t); }
    assert Unpinned(st, parent, kind) == {};
    ParticipantsLeftOut(o, st, parent, revisions, kind);
  }

  /** and by author after unsigned calls. */
  lemma UnsignedRevisionCounts(o: Oracle, calls: seq<Asked>, parent: EntityId, revisions: seq<Hash>,
                               kind: Option<string>, st: Store)
    requires CollisionFree(o) && WellFormed(st.log) && Hashed(o, st.log) && OneActive(st.log)
    requires forall t | t in st.log :: t.env.nullifier.None?
    requires LookedUp(o, st, calls)
    requires RevisionsOf(CallRun(o, st, calls).log, parent, revisions)
    ensures SumByRevision(CallRun(o, st, calls), revisions, kind) == CountByEntity(CallRun(o, st, calls), parent, kind)
  {
    HelperRunsKeepOneActive(o, st, calls);
    NoNullifiers(o, st, calls);
    var after := CallRun(o, st, calls);
    UnsignedParticipants(after.log, Reaction);
    WellFormedIsChained(after.log);
    forall t | t in ReactionsOn(after, parent, kind)
      ensures t.env.parentType.Some?
    {
      Forest(after.log, t.env.entityId);
    }
    assert Unpinned(after, parent, kind) == {};
    ParticipantsLeftOut(o, after, parent, revisions, kind);
  }

  lemma {:induction false} NoNullifiers(o: Oracle, st: Store, calls: seq<Asked>)
    requires forall t | t in st.log :: t.env.nullifier.None?
    ensures forall t | t in CallRun(o, st, calls).log :: t.env.nullifier.None?
    decreases |calls|
  {
    if |calls| > 0 {
      NoNullifiers(o, st, calls[..|calls| - 1]);
      var a, before := calls[|calls| - 1], CallRun(o, st, calls[..|calls| - 1]);
      var ask := Ask(a.helper, a.author, a.parent, a.content, a.values, a.found);
      if ask.Some? { UnsignedBearsNone(o, before, ask.value, a.now); }
    }
  }

  lemma UnsignedBearsNone(o: Oracle, st: Store, i: Intent, now: int)
    ensures var (after, r) := WriteUnsigned(o, st, i, now);
      if r.Ok? then after.log == st.log + [Tx(r.value, o.leafHash(r.value))] && r.value.nullifier.None? else after == st
  {
  }

  // ---- editing the parent -------------------------------------------------------------------------------------

  /** The row is no reaction and its entity was none. */
  predicate NoReaction(log: Log, e: Envelope) {
    e.typ != Reaction && (Exists(log, e.entityId) ==> Head(log, e.entityId).value.env.typ != Reaction)
  }

  /** A new row that has nothing to do with reactions, such as an edit of the parent, moves no per-revision count,
    * and the revision it makes starts with no support at all. */
  lemma RowMovesNoSupport(o: Oracle, st: Store, after: Store, t: Tx, p: Plain, revision: Hash, kind: Option<string>)
    requires CollisionFree(o) && Chained(st.log) && Hashed(o, st.log) && NoReaction(st.log, t.env)
    requires t.hash == o.leafHash(t.env) && after.log == st.log + [t]
    requires forall x | x in st.log :: x.env.txId != t.env.txId
    requires after.plain == st.plain[t.env.txId := p]
    ensures CountByRevision(after, revision, kind) == CountByRevision(st, revision, kind)
    ensures CountByRevision(after, t.hash, kind) == 0
  {
    ReactionsKept(st, after, t, kind);
    forall x | x in ReactionsOf(st, kind) ensures x.env.parentRevisionHash != Some(t.hash) {
      NewHashIsUnpinned(o, st.log, t.env, x);
    }
    assert (set x | x in ReactionsOf(st, kind) && x.env.parentRevisionHash == Some(t.hash)) == {};
  }

  /** Editing moves no support, on the signed path, */
  lemma SignedEditMovesNoSupport(o: Oracle, st: Store, s: Submission, now: int, revision: Hash, kind: Option<string>)
    requires CollisionFree(o) && Chained(st.log) && Hashed(o, st.log)
    requires Submit(o, st, s, now).1.Ok? && NoReaction(st.log, s.env)
    ensures CountByRevision(Submit(o, st, s, now).0, revision, kind) == CountByRevision(st, revision, kind)
    ensures CountByRevision(Submit(o, st, s, now).0, o.leafHash(s.env), kind) == 0
  {
    AcceptedCall(o, st, At.At(Call(s), now));
    RowMovesNoSupport(o, st, Submit(o, st, s, now).0, Tx(s.env, o.leafHash(s.env)), Plain(s.salt, s.content),
        revision, kind);
  }

  /** and on the unsigned path. */
  lemma EditingMovesNoSupport(o: Oracle, st: Store, i: Intent, now: int, revision: Hash, kind: Option<string>)
    requires CollisionFree(o) && Chained(st.log) && Hashed(o, st.log)
    requires WriteUnsigned(o, st, i, now).1.Ok? && WriteUnsigned(o, st, i, now).1.value.typ != Reaction
    ensures var (after, r) := WriteUnsigned(o, st, i, now);
      && CountByRevision(after, revision, kind) == CountByRevision(st, revision, kind)
      && CountByRevision(after, o.leafHash(r.value), kind) == 0
  {
    var (after, r) := WriteUnsigned(o, st, i, now);
    UnsignedWriteKeeps(o, st, i, now);
    Snoc(st.log, Tx(r.value, o.leafHash(r.value)));
    assert r.value.txId == i.txId && after.plain == st.plain[i.txId := Plain(i.salt, IntentContent(i))];
    RowMovesNoSupport(o, st, after, Tx(r.value, o.leafHash(r.value)), Plain(i.salt, IntentContent(i)), revision, kind);
  }

  lemma ReactionsKept(st: Store, after: Store, t: Tx, kind: Option<string>)
    requires NoReaction(st.log, t.env) && after.log == st.log + [t]
    requires forall x | x in st.log :: x.env.txId != t.env.txId
    requires forall x | x != t.env.txId :: (x in after.plain <==> x in st.plain)
    requires forall x | x != t.env.txId && x in st.plain :: after.plain[x] == st.plain[x]
    ensures ReactionsOf(after, kind) == ReactionsOf(st, kind)
  {
    forall x ensures x in ReactionsOf(after, kind) <==> x in ReactionsOf(st, kind) {
      HeadsSnoc(st.log, t, x);
    }
  }

  lemma NewHashIsUnpinned(o: Oracle, log: Log, e: Envelope, x: Tx)
    requires CollisionFree(o) && Chained(log) && Hashed(o, log) && forall t | t in log :: t.env.txId != e.txId
    requires x in log
    ensures x.env.parentRevisionHash != Some(o.leafHash(e))
  {
    EveryRowIsPinned(log, x);
    if x.env.parentRevisionHash.Some? {
      var y :| y in log && y.env.entityId == x.env.parentId.value && y.env.op != Delete
               && y.hash == x.env.parentRevisionHash.value;
    }
  }

  // ---- an edit and its own revisions ------------------------------------------------------------------------------

  /** In any chained log no row is pinned to a revision of its own entity. */
  lemma NotPinnedToItself(o: Oracle, log: Log, x: Tx, h: Hash)
    requires CollisionFree(o) && Chained(log) && Hashed(o, log)
    requires x in Heads(log) && IsRevisionOf(log, x.env.entityId, h)
    ensures x.env.parentRevisionHash != Some(h)
  {
    if x.env.parentRevisionHash == Some(h) {
      PinNamesParent(o, log, x, x.env.entityId, h);
      ParentsAreOlder(log, x.env.entityId);
    }
  }

  /** Whatever types it declares, a row moves no count of an earlier revision of its entity, and the revision it makes
    * starts with none. */
  lemma RowLeavesOwnRevisions(o: Oracle, st: Store, after: Store, t: Tx, p: Plain, h: Hash, kind: Option<string>)
    requires CollisionFree(o) && Chained(st.log) && Chained(after.log) && Hashed(o, after.log)
    requires after.log == st.log + [t] && after.plain == st.plain[t.env.txId := p]
    requires IsRevisionOf(st.log, t.env.entityId, h)
    ensures CountByRevision(after, h, kind) == CountByRevision(st, h, kind)
    ensures CountByRevision(after, t.hash, kind) == 0
  {
    PrefixIsHashed(o, st.log, t);
    RevisionKept(st.log, t, t.env.entityId, h);
    forall x ensures x in SupportOf(after, h, kind) <==> x in SupportOf(st, h, kind) {
      OwnSupportKept(o, st, after, t, p, h, kind, x);
    }
    assert SupportOf(after, h, kind) == SupportOf(st, h, kind);
    forall x | x in ReactionsOf(after, kind) ensures x.env.parentRevisionHash != Some(t.hash) {
      NewHashHasNone(o, after.log, t, x);
    }
    assert SupportOf(after, t.hash, kind) == {};
  }

  /** Nothing is pinned to the last row: what is older cannot be, and no row is pinned to its own entity. */
  lemma NewHashHasNone(o: Oracle, log: Log, t: Tx, x: Tx)
    requires CollisionFree(o) && Chained(log) && Hashed(o, log) && |log| > 0 && Last(log) == t && x in Heads(log)
    ensures x.env.parentRevisionHash != Some(t.hash)
  {
    assert log == Front(log) + [t];
    PrefixIsHashed(o, Front(log), t);
    if x.env.parentRevisionHash == Some(t.hash) {
      if x == t {
        EveryRowIsPinned(log, x);
        NotPinnedToItself(o, log, x, t.hash);
      } else {
        NewHashIsUnpinned(o, Front(log), t.env, x);
      }
    }
  }

  /** The reactions that a per-revision count counts. */
  function SupportOf(st: Store, h: Hash, kind: Option<string>): set<Tx> {
    set t | t in ReactionsOf(st, kind) && t.env.parentRevisionHash == Some(h)
  }

  lemma OwnSupportKept(o: Oracle, st: Store, after: Store, t: Tx, p: Plain, h: Hash, kind: Option<string>, x: Tx)
    requires CollisionFree(o) && Chained(st.log) && Hashed(o, st.log) && Chained(after.log) && Hashed(o, after.log)
    requires after.log == st.log + [t] && after.plain == st.plain[t.env.txId := p]
    requires IsRevisionOf(st.log, t.env.entityId, h) && IsRevisionOf(after.log, t.env.entityId, h)
    ensures x in SupportOf(after, h, kind) <==> x in SupportOf(st, h, kind)
  {
    if x.env.entityId == t.env.entityId {
      if x in Heads(after.log) { NotPinnedToItself(o, after.log, x, h); }
      if x in Heads(st.log) { NotPinnedToItself(o, st.log, x, h); }
    } else {
      PrefixIsHashed(o, st.log, t);
      OtherSupportKept(st, after, t, p, h, kind, x);
    }
  }

  lemma OtherSupportKept(st: Store, after: Store, t: Tx, p: Plain, h: Hash, kind: Option<string>, x: Tx)
    requires after.log == st.log + [t] && after.plain == st.plain[t.env.txId := p]
    requires x.env.entityId != t.env.entityId && forall y | y in st.log :: y.env.txId != t.env.txId
    ensures x in SupportOf(after, h, kind) <==> x in SupportOf(st, h, kind)
  {
    HeadsSnoc(st.log, t, x);
  }

  lemma PrefixIsHashed(o: Oracle, log: Log, t: Tx)
    requires Hashed(o, log + [t])
    ensures Hashed(o, log) && t.hash == o.leafHash(t.env) && forall x | x in log :: x.env.txId != t.env.txId
  {
    var whole := log + [t];
    assert whole[|log|] == t;
    forall i | 0 <= i < |log| ensures whole[i] == log[i] {}
  }

  /** An accepted edit of the parent moves no count of an earlier revision of it, whatever the edit declares, on the
    * signed path */
  lemma SignedEditKeepsSupport(o: Oracle, st: Store, s: Submission, now: int, h: Hash, kind: Option<string>)
    requires CollisionFree(o) && Chained(st.log) && Hashed(o, st.log)
    requires Submit(o, st, s, now).1.Ok? && s.env.op != Create && IsRevisionOf(st.log, s.env.entityId, h)
    ensures CountByRevision(Submit(o, st, s, now).0, h, kind) == CountByRevision(st, h, kind)
    ensures CountByRevision(Submit(o, st, s, now).0, o.leafHash(s.env), kind) == 0
  {
    AcceptedCall(o, st, At.At(Call(s), now));
    CallKeepsChain(o, st, s, now);
    var t := Tx(s.env, o.leafHash(s.env));
    RowLeavesOwnRevisions(o, st, Submit(o, st, s, now).0, t, Plain(s.salt, s.content), h, kind);
  }

  /** and on the unsigned path. */
  lemma UnsignedEditKeepsSupport(o: Oracle, st: Store, i: Intent, now: int, h: Hash, kind: Option<string>)
    requires CollisionFree(o) && Chained(st.log) && Hashed(o, st.log)
    requires WriteUnsigned(o, st, i, now).1.Ok? && i.op != Create && IsRevisionOf(st.log, i.id, h)
    ensures var (after, r) := WriteUnsigned(o, st, i, now);
      && CountByRevision(after, h, kind) == CountByRevision(st, h, kind)
      && CountByRevision(after, o.leafHash(r.value), kind) == 0
  {
    var (after, r) := WriteUnsigned(o, st, i, now);
    UnsignedWriteKeeps(o, st, i, now);
    assert r.value.txId == i.txId && r.value.entityId == i.id;
    RowLeavesOwnRevisions(o, st, after, Tx(r.value, o.leafHash(r.value)), Plain(i.salt, IntentContent(i)), h, kind);
  }
}
