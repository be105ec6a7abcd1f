/** The per-entity verifier: what it reports, that every history a run produces passes it, and that its last
  * hash pins a whole accepted history. */
module VerifyChain {
  import opened Wrappers
  import opened RecordTypes
  import opened RecordLog
  import opened RecordShape
  import opened RecordSpec
  import opened RecordRuns

  /** A stored row as the verifier reads it, column by column; erasure empties salt and content. */
  datatype Row = Row(txId: TxId, op: Op, prevHash: Option<Hash>, contentHash: Hash, txHash: Hash,
                     envelope: Envelope, salt: Option<int>, content: Option<Content>)

  datatype ContentVerdict = Matches | Mismatch | Erased

  datatype TxVerdict = TxVerdict(txId: TxId, op: Op, envelopeIntact: bool, chainLinked: bool, ledgerAgrees: bool,
                                 contentMatches: ContentVerdict, ok: bool)

  datatype ChainReport = ChainReport(ok: bool, verdicts: seq<TxVerdict>)

  predicate Intact(o: Oracle, r: Row) { o.leafHash(r.envelope) == r.txHash }

  predicate OnLedger(r: Row, ledger: map<TxId, Envelope>, verified: set<TxId>) {
    r.txId in ledger && ledger[r.txId] == r.envelope && r.txId in verified
  }

  function Revealed(o: Oracle, r: Row): ContentVerdict {
    if r.salt.None? || r.content.None? then Erased
    else if o.commitment(r.txId, r.salt.value, r.content.value) == r.contentHash then Matches
    else Mismatch
  }

  /** What row `i` must link to. */
  function ExpectedPrev(h: seq<Row>, i: nat): Option<Hash>
    requires i < |h|
  {
    if i == 0 then None else Some(h[i - 1].txHash)
  }

  function VerdictOf(o: Oracle, r: Row, expectedPrev: Option<Hash>, ledger: map<TxId, Envelope>, verified: set<TxId>)
    : TxVerdict
  {
    TxVerdict(r.txId, r.op, Intact(o, r), r.prevHash == expectedPrev, OnLedger(r, ledger, verified), Revealed(o, r),
              Intact(o, r) && r.prevHash == expectedPrev && OnLedger(r, ledger, verified) && Revealed(o, r) != Mismatch)
  }

  /** The verdict on row `i`, by its link to the row before it. */
  function Judged(o: Oracle, h: seq<Row>, i: nat, ledger: map<TxId, Envelope>, verified: set<TxId>): TxVerdict
    requires i < |h|
  {
    VerdictOf(o, h[i], ExpectedPrev(h, i), ledger, verified)
  }

  predicate RowVerifies(o: Oracle, h: seq<Row>, i: nat, ledger: map<TxId, Envelope>, verified: set<TxId>)
    requires i < |h|
  {
    Judged(o, h, i, ledger, verified).ok
  }

  predicate Verifies(o: Oracle, h: seq<Row>, ledger: map<TxId, Envelope>, verified: set<TxId>) {
    |h| > 0 && forall i :: 0 <= i < |h| ==> RowVerifies(o, h, i, ledger, verified)
  }

  /** What a row must be for its verdict to be ok: its envelope hashes to the stored hash, it links to the row before
    * it, the ledger's verified entry is its envelope, and what is left of its content opens its commitment. */
  predicate GoodRow(o: Oracle, h: seq<Row>, i: nat, ledger: map<TxId, Envelope>, verified: set<TxId>)
    requires i < |h|
  {
    var r := h[i];
    && o.leafHash(r.envelope) == r.txHash
    && (if i == 0 then r.prevHash == None else r.prevHash == Some(h[i - 1].txHash))
    && r.txId in verified && r.txId in ledger && ledger[r.txId] == r.envelope
    && (r.salt.Some? && r.content.Some? ==> o.commitment(r.txId, r.salt.value, r.content.value) == r.contentHash)
  }

  /** The four findings on a row, each by itself. */
  predicate RightVerdict(o: Oracle, h: seq<Row>, i: nat, ledger: map<TxId, Envelope>, verified: set<TxId>, v: TxVerdict)
    requires i < |h|
  {
    var r := h[i];
    && v.txId == r.txId && v.op == r.op && (v.ok <==> GoodRow(o, h, i, ledger, verified))
    && (v.envelopeIntact <==> o.leafHash(r.envelope) == r.txHash)
    && (v.chainLinked <==> if i == 0 then r.prevHash == None else r.prevHash == Some(h[i - 1].txHash))
    && (v.ledgerAgrees <==> r.txId in verified && r.txId in ledger && ledger[r.txId] == r.envelope)
    && match v.contentMatches
       case Erased => r.salt.None? || r.content.None?
       case Matches =>
         && r.salt.Some? && r.content.Some?
         && o.commitment(r.txId, r.salt.value, r.content.value) == r.contentHash
       case Mismatch =>
         && r.salt.Some? && r.content.Some?
         && o.commitment(r.txId, r.salt.value, r.content.value) != r.contentHash
  }

  lemma VerifiesExactly(o: Oracle, h: seq<Row>, ledger: map<TxId, Envelope>, verified: set<TxId>)
    ensures Verifies(o, h, ledger, verified) <==>
      |h| > 0 && forall i :: 0 <= i < |h| ==> GoodRow(o, h, i, ledger, verified)
    ensures forall i :: 0 <= i < |h| ==> RightVerdict(o, h, i, ledger, verified, Judged(o, h, i, ledger, verified))
  {
    forall i | 0 <= i < |h|
      ensures RowVerifies(o, h, i, ledger, verified) <==> GoodRow(o, h, i, ledger, verified)
      ensures RightVerdict(o, h, i, ledger, verified, Judged(o, h, i, ledger, verified))
    {
    }
  }

  /** Walk the history once. Each verdict judges its own row and its link to the row before it, and the
    * report passes exactly when the history is non-empty and every row is good. */
  method VerifyEntityChain(o: Oracle, history: seq<Row>, ledger: map<TxId, Envelope>, verified: set<TxId>)
    returns (report: ChainReport)
    ensures |report.verdicts| == |history|
    ensures forall i :: 0 <= i < |history| ==> report.verdicts[i] == Judged(o, history, i, ledger, verified)
    ensures forall i :: 0 <= i < |history| ==> RightVerdict(o, history, i, ledger, verified, report.verdicts[i])
    ensures report.ok <==> Verifies(o, history, ledger, verified)
    ensures report.ok <==> |history| > 0 && forall i :: 0 <= i < |history| ==> GoodRow(o, history, i, ledger, verified)
  {
    VerifiesExactly(o, history, ledger, verified);
    var verdicts: seq<TxVerdict> := [];
    var expectedPrev: Option<Hash> := None;
    for k := 0 to |history|
      invariant |verdicts| == k
      invariant k < |history| ==> expectedPrev == ExpectedPrev(history, k)
      invariant forall i :: 0 <= i < k ==> verdicts[i] == Judged(o, history, i, ledger, verified)
    {
      var tx := history[k];
      var verdict := VerdictOf(o, tx, expectedPrev, ledger, verified);
      verdicts := verdicts + [verdict];
      expectedPrev := Some(tx.txHash);
    }
    assert forall i :: 0 <= i < |history| ==> (RowVerifies(o, history, i, ledger, verified) <==> verdicts[i].ok);
    report := ChainReport(|history| > 0 && forall i | 0 <= i < |verdicts| :: verdicts[i].ok, verdicts);
  }

  // ---- every run verifies --------------------------------------------------------------------------------

  function RowOf(st: Store, t: Tx): Row {
    var p := if t.env.txId in st.plain then Some(st.plain[t.env.txId]) else None;
    Row(t.env.txId, t.env.op, t.env.prevHash, t.env.contentHash, t.hash, t.env,
        if p.Some? then Some(p.value.salt) else None, if p.Some? then Some(p.value.content) else None)
  }

  function Rows(st: Store, id: EntityId): seq<Row> {
    seq(|History(st.log, id)|, i requires 0 <= i < |History(st.log, id)| => RowOf(st, History(st.log, id)[i]))
  }

  predicate Committed(o: Oracle, e: Envelope, p: Plain) {
    o.commitment(e.txId, p.salt, p.content) == e.contentHash
  }

  /** Unerased contents open their commitments, and the ledger repeats the log. */
  ghost predicate ContentInv(o: Oracle, m: Machine) {
    && (forall p | p in m.flight :: Committed(o, p.env, p.plain))
    && (forall t | t in m.st.log && t.env.txId in m.st.plain :: Committed(o, t.env, m.st.plain[t.env.txId]))
    && (forall t | t in m.st.log && t.env.txId in m.st.ledger :: m.st.ledger[t.env.txId] == t.env)
  }

  lemma {:induction false} RowWithIsRow(o: Oracle, log: Log, x: TxId)
    requires exists t | t in log :: t.env.txId == x
    requires Hashed(o, log)
    ensures forall t | t in log && t.env.txId == x :: RowWith(log, x) == t.env
  {
    assert log == Front(log) + [Last(log)];
    if Last(log).env.txId != x { RowWithIsRow(o, Front(log), x); }
  }

  lemma CommitKeepsContent(o: Oracle, m: Machine, k: nat, now: int)
    requires ContentInv(o, m)
    ensures ContentInv(o, Step(o, m, Timed(Commit(k), now)))
  {
    var after := Step(o, m, Timed(Commit(k), now));
    if k < |m.flight| && AppendError(m.st, m.flight[k].env).None? {
      var e := m.flight[k].env;
      assert forall t | t in m.st.log :: t.env.txId != e.txId;
      assert forall t | t in after.st.log :: t in m.st.log || t == Tx(e, o.leafHash(e));
    }
  }

  lemma StepKeepsContent(o: Oracle, m: Machine, ev: Timed)
    requires Hashed(o, m.st.log) && ContentInv(o, m)
    ensures ContentInv(o, Step(o, m, ev))
  {
    var after := Step(o, m, ev);
    match ev.event
    case Settle(x) =>
      if after != m { RowWithIsRow(o, m.st.log, x); }
    case Commit(k) => CommitKeepsContent(o, m, k, ev.now);
    case CheckUnsigned(_) => CheckKeepsContent(o, m, ev);
    case CheckSigned(_) => CheckKeepsContent(o, m, ev);
    case _ =>
  }

  lemma CheckKeepsContent(o: Oracle, m: Machine, ev: Timed)
    requires ContentInv(o, m) && (ev.event.CheckUnsigned? || ev.event.CheckSigned?)
    ensures ContentInv(o, Step(o, m, ev))
  {
  }

  lemma {:induction false} RunKeepsContent(o: Oracle, evs: seq<Timed>)
    requires CollisionFree(o)
    ensures ContentInv(o, Run(o, EMPTY, evs))
    decreases |evs|
  {
    if |evs| > 0 {
      var prior := evs[..|evs| - 1];
      RunKeepsContent(o, prior);
      RunKeeps(o, prior);
      StepKeepsContent(o, Run(o, EMPTY, prior), evs[|evs| - 1]);
    }
  }

  lemma RevealedUnlessErased(o: Oracle, st: Store, t: Tx)
    requires t.env.txId in st.plain ==> Committed(o, t.env, st.plain[t.env.txId])
    ensures Revealed(o, RowOf(st, t)) == if RowOf(st, t).txId in st.plain then Matches else Erased
  {
  }

  /** Every history a run produces verifies once its rows are on the ledger, whatever was erased on the way, and each
    * row that was not is reported to open its commitment. */
  lemma RunsVerify(o: Oracle, evs: seq<Timed>, id: EntityId, verified: set<TxId>)
    requires CollisionFree(o)
    requires var st := Run(o, EMPTY, evs).st;
      Exists(st.log, id) && forall t | t in History(st.log, id) :: t.env.txId in st.ledger && t.env.txId in verified
    ensures var st := Run(o, EMPTY, evs).st;
      && Verifies(o, Rows(st, id), st.ledger, verified)
      && forall r :: r in Rows(st, id) ==>
        FromEnvelope(r) && Revealed(o, r) == if r.txId in st.plain then Matches else Erased
  {
    RunKeeps(o, evs);
    RunKeepsContent(o, evs);
    var st := Run(o, EMPTY, evs).st;
    ChainShape(st.log, id);
    HistoryFacts(st.log, id);
    var h, rows := History(st.log, id), Rows(st, id);
    forall r | r in rows
      ensures FromEnvelope(r) && Revealed(o, r) == if r.txId in st.plain then Matches else Erased
    {
      var i :| 0 <= i < |rows| && rows[i] == r;
      assert h[i] in h && h[i] in st.log;
      RevealedUnlessErased(o, st, h[i]);
    }
    forall i | 0 <= i < |rows| ensures RowVerifies(o, rows, i, st.ledger, verified) {
      assert h[i] in h && h[i] in st.log;
      assert i > 0 ==> Linked(h[i - 1], h[i]);
    }
  }

  // ---- the last hash pins the history ---------------------------------------------------------------------

  /** The row's columns are those of its envelope. */
  predicate FromEnvelope(r: Row) {
    && r.txId == r.envelope.txId && r.op == r.envelope.op
    && r.prevHash == r.envelope.prevHash && r.contentHash == r.envelope.contentHash
  }

  lemma PrefixVerifies(o: Oracle, h: seq<Row>, ledger: map<TxId, Envelope>, verified: set<TxId>)
    requires Verifies(o, h, ledger, verified) && |h| > 1
    ensures Verifies(o, h[..|h| - 1], ledger, verified)
  {
    var front := h[..|h| - 1];
    forall i: nat | i < |front| ensures RowVerifies(o, front, i, ledger, verified) {
      assert RowVerifies(o, h, i, ledger, verified);
    }
  }

  /** Two accepted histories that end in the same hash are the same, transaction for transaction. Only what
    * has been erased may differ, even for different ledgers. */
  lemma {:induction false} LastHashPinsHistory(o: Oracle, a: seq<Row>, b: seq<Row>,
                                               la: map<TxId, Envelope>, lb: map<TxId, Envelope>,
                                               va: set<TxId>, vb: set<TxId>)
    requires CollisionFree(o)
    requires Verifies(o, a, la, va) && Verifies(o, b, lb, vb)
    requires (forall r | r in a :: FromEnvelope(r)) && (forall r | r in b :: FromEnvelope(r))
    requires a[|a| - 1].txHash == b[|b| - 1].txHash
    ensures |a| == |b|
    ensures forall i :: 0 <= i < |a| ==> a[i].envelope == b[i].envelope && a[i].txHash == b[i].txHash
    decreases |a|
  {
    var m, n := |a| - 1, |b| - 1;
    assert RowVerifies(o, a, m, la, va) && RowVerifies(o, b, n, lb, vb);
    assert a[m] in a && b[n] in b;
    assert a[m].envelope == b[n].envelope;
    if m > 0 {
      PrefixVerifies(o, a, la, va);
      PrefixVerifies(o, b, lb, vb);
      LastHashPinsHistory(o, a[..m], b[..n], la, lb, va, vb);
    }
  }

  /** The named assumption on the content commitment: it fixes salt and content. */
  ghost predicate Binding(o: Oracle) {
    forall x, s, c, y, t, d :: o.commitment(x, s, c) == o.commitment(y, t, d) ==> x == y && s == t && c == d
  }

  /** The contents agree too wherever both are still revealed. */
  lemma RevealedContentsAgree(o: Oracle, a: Row, b: Row)
    requires Binding(o)
    requires a.envelope == b.envelope && FromEnvelope(a) && FromEnvelope(b)
    requires Revealed(o, a) == Matches && Revealed(o, b) == Matches
    ensures a.salt == b.salt && a.content == b.content
  {
    var (s, c, t, d) := (a.salt.value, a.content.value, b.salt.value, b.content.value);
    assert o.commitment(a.txId, s, c) == o.commitment(b.txId, t, d);
    assert s == t && c == d;
    assert a.salt == Some(s) && b.salt == Some(t) && a.content == Some(c) && b.content == Some(d);
  }
}
