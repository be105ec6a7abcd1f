/** Email one-time codes: fixed-window rate limits, issuing, and verifying with a bounded number of attempts. Times
  * are in milliseconds. Every await is a step, so requests and verifications interleave. */
module Otp {
  import opened Wrappers
  import opened Counting
  import opened Iteration

  type Id = nat

  datatype Purpose = Registration | Recovery | Login

  type Positive = n: nat | n > 0 witness 1

  datatype Config = Config(ttl: nat, window: Positive, requestsPerWindow: nat, requestsPerIpPerWindow: nat,
        maxAttempts: nat)

  datatype Code = Code(email: Id, purpose: Purpose, salt: Id, hash: Id, attempts: nat, expiresAt: int, consumed: bool,
        createdAt: int)

  datatype Bucket = EmailBucket(email: Id) | IpBucket(ip: Id)

  /** A request for a code, with the row it will insert. `at` is the service's clock when it began. */
  datatype Request = Request(email: Id, purpose: Purpose, ip: Option<Id>, hasDraft: bool, id: Id, salt: Id, hash: Id,
        at: int)

  datatype Phase =
    | Hitting(request: Request)
    | HittingIp(request: Request)
    | Clearing(request: Request)
    | Inserting(request: Request)
    | Reading(email: Id, purpose: Purpose, code: Id)
    | Trying(id: Id, code: Id)
    | Expelling(id: Id)
    | Winning(id: Id)

  datatype Comparison = Comparison(id: Id, presented: Id, matched: bool)

  /** The tables, the running handlers, every comparison made and every verification that succeeded. */
  datatype World = World(
    codes: map<Id, Code>,
    buckets: map<(Bucket, int), nat>,
    handlers: map<Id, Phase>,
    compared: seq<Comparison>,
    wins: seq<Id>,
    now: int)

  /** Hashing a presented code with a row's salt for its email. */
  type Hasher = (Id, Id, Id) -> Id

  datatype Event =
    | StartRequest(handler: Id, request: Request)
    | StartVerify(handler: Id, email: Id, purpose: Purpose, code: Id)
    | Advance(handler: Id, pick: Option<Id>)
    | Crash(handler: Id)
    | Tick(ms: nat)

  function FloorToWindow(at: int, window: Positive): int {
    at / window
  }

  function Hits(w: World, b: Bucket, k: int): nat { if (b, k) in w.buckets then w.buckets[(b, k)] else 0 }

  predicate Active(w: World, id: Id, email: Id, purpose: Purpose) {
    && id in w.codes && w.codes[id].email == email && w.codes[id].purpose == purpose
    && !w.codes[id].consumed && w.codes[id].expiresAt > w.now
  }

  /** A latest active code; of several created at one instant any may be returned. */
  predicate LatestActive(w: World, pick: Option<Id>, email: Id, purpose: Purpose) {
    match pick
    case None => forall id :: id in w.codes ==> !Active(w, id, email, purpose)
    case Some(id) =>
      Active(w, id, email, purpose) && forall o :: o in w.codes && Active(w, o, email, purpose) ==>
          w.codes[o].createdAt <= w.codes[id].createdAt
  }

  function Done(w: World, h: Id): World { w.(handlers := w.handlers - {h}) }

  function Goto(w: World, h: Id, p: Phase): World { w.(handlers := w.handlers[h := p]) }

  function Hit(w: World, b: Bucket, k: int): World { w.(buckets := w.buckets[(b, k) := Hits(w, b, k) + 1]) }

  /** Past the limits a registration still needs its draft. */
  function Admitted(w: World, h: Id, r: Request): World {
    if r.purpose.Registration? && !r.hasDraft then Done(w, h) else Goto(w, h, Clearing(r))
  }

  function ConsumeOutstanding(w: World, email: Id, purpose: Purpose): World {
    w.(codes := map id | id in w.codes ::
      if w.codes[id].email == email && w.codes[id].purpose == purpose then w.codes[id].(consumed := true)
          else w.codes[id])
  }

  function Consume(w: World, id: Id): World {
    if id in w.codes then w.(codes := w.codes[id := w.codes[id].(consumed := true)]) else w
  }

  function Issued(cfg: Config, w: World, r: Request): World {
    w.(codes := w.codes[r.id := Code(r.email, r.purpose, r.salt, r.hash, 0, r.at + cfg.ttl, false, w.now)])
  }

  /** Count one attempt, and compare unless that is one too many. */
  function Tried(cfg: Config, hash: Hasher, w: World, h: Id, id: Id, presented: Id): World {
    if id !in w.codes then Done(w, h)
    else
      var code := w.codes[id].(attempts := w.codes[id].attempts + 1);
      var counted := w.(codes := w.codes[id := code]);
      if code.attempts > cfg.maxAttempts then Goto(counted, h, Expelling(id))
      else
        var matched := hash(code.email, presented, code.salt) == code.hash;
        var seen := counted.(compared := w.compared + [Comparison(id, presented, matched)]);
        if matched then Goto(seen, h, Winning(id)) else Done(seen, h)
  }

  function Advanced(cfg: Config, hash: Hasher, w: World, h: Id, pick: Option<Id>): World
    requires h in w.handlers
  {
    match w.handlers[h]
    case Hitting(r) =>
      var k := FloorToWindow(r.at, cfg.window);
      var hit := Hit(w, EmailBucket(r.email), k);
      if Hits(hit, EmailBucket(r.email), k) > cfg.requestsPerWindow then Done(hit, h)
      else if r.ip.Some? then Goto(hit, h, HittingIp(r))
      else Admitted(hit, h, r)
    case HittingIp(r) =>
      if r.ip.None? then Done(w, h)
      else
        var k := FloorToWindow(r.at, cfg.window);
        var hit := Hit(w, IpBucket(r.ip.value), k);
        if Hits(hit, IpBucket(r.ip.value), k) > cfg.requestsPerIpPerWindow then Done(hit, h) else Admitted(hit, h, r)
    case Clearing(r) => Goto(ConsumeOutstanding(w, r.email, r.purpose), h, Inserting(r))
    case Inserting(r) => if r.id in w.codes then Done(w, h) else Done(Issued(cfg, w, r), h)
    case Reading(email, purpose, code) =>
      if !LatestActive(w, pick, email, purpose) then w
      else if pick.None? then Done(w, h)
      else Goto(w, h, Trying(pick.value, code))
    case Trying(id, code) => Tried(cfg, hash, w, h, id, code)
    case Expelling(id) => Done(Consume(w, id), h)
    case Winning(id) => Done(Consume(w, id).(wins := w.wins + [id]), h)
  }

  function Step(cfg: Config, hash: Hasher, w: World, e: Event): World
  {
    match e
    case StartRequest(h, r) => if h in w.handlers || r.at != w.now then w else Goto(w, h, Hitting(r))
    case StartVerify(h, email, purpose, code) =>
      if h in w.handlers then w else Goto(w, h, Reading(email, purpose, code))
    case Advance(h, pick) => if h in w.handlers then Advanced(cfg, hash, w, h, pick) else w
    case Crash(h) => Done(w, h)
    case Tick(ms) => w.(now := w.now + ms)
  }

  function Run(cfg: Config, hash: Hasher, w: World, events: seq<Event>): World
  {
    if events == [] then w else Step(cfg, hash, Run(cfg, hash, w, events[..|events| - 1]), events[|events| - 1])
  }

  function Start(now: int): World { World(map[], map[], map[], [], [], now) }

  // ---- the issuing budget ------------------------------------------------------------------------------------------

  /** When the request behind a code began. */
  function IssuedAt(cfg: Config, c: Code): int { c.expiresAt - cfg.ttl }

  /** The codes of an email whose requests fell into one window. */
  ghost function IssuedIn(cfg: Config, w: World, email: Id, k: int): set<Id>
  {
    set id | id in w.codes && w.codes[id].email == email && FloorToWindow(IssuedAt(cfg, w.codes[id]), cfg.window) == k
  }

  /** The request a handler holds past the email limit. */
  function Ticket(p: Phase): Option<Request> {
    match p
    case HittingIp(r) => Some(r)
    case Clearing(r) => Some(r)
    case Inserting(r) => Some(r)
    case _ => None
  }

  predicate Holds(cfg: Config, p: Phase, email: Id, k: int)
  {
    Ticket(p).Some? && Ticket(p).value.email == email && FloorToWindow(Ticket(p).value.at, cfg.window) == k
  }

  ghost function Holding(cfg: Config, w: World, email: Id, k: int): set<Id>
  {
    set h | h in w.handlers && Holds(cfg, w.handlers[h], email, k)
  }

  ghost predicate WithinBudget(cfg: Config, w: World, email: Id, k: int)
  {
    var load := |IssuedIn(cfg, w, email, k)| + |Holding(cfg, w, email, k)|;
    load <= Hits(w, EmailBucket(email), k) && load <= cfg.requestsPerWindow
  }

  /** A step that admits nobody and issues nothing keeps the budget. */
  lemma BudgetQuiet(cfg: Config, w: World, after: World, email: Id, k: int)
    requires WithinBudget(cfg, w, email, k)
    requires IssuedIn(cfg, after, email, k) == IssuedIn(cfg, w, email, k)
    requires Holding(cfg, after, email, k) <= Holding(cfg, w, email, k)
    requires Hits(after, EmailBucket(email), k) >= Hits(w, EmailBucket(email), k)
    ensures WithinBudget(cfg, after, email, k)
  {
    SubsetSize(Holding(cfg, after, email, k), Holding(cfg, w, email, k));
  }

  lemma HitKeepsBudget(cfg: Config, hash: Hasher, w: World, h: Id, pick: Option<Id>, email: Id, k: int)
    requires WithinBudget(cfg, w, email, k) && h in w.handlers && w.handlers[h].Hitting?
    ensures WithinBudget(cfg, Advanced(cfg, hash, w, h, pick), email, k)
  {
    var after := Advanced(cfg, hash, w, h, pick);
    var r := w.handlers[h].request;
    var n := FloorToWindow(r.at, cfg.window);
    HitFacts(cfg, hash, w, h, pick);
    SameIssued(cfg, w, after, email, k);
    if h in after.handlers && r.email == email && n == k {
      HitAdmits(cfg, w, after, h, email, k);
    } else {
      assert h in after.handlers ==> !Holds(cfg, after.handlers[h], email, k);
      BudgetQuiet(cfg, w, after, email, k);
    }
  }

  lemma HitAdmits(cfg: Config, w: World, after: World, h: Id, email: Id, k: int)
    requires h in w.handlers && !Holds(cfg, w.handlers[h], email, k) && h in after.handlers
    requires Holds(cfg, after.handlers[h], email, k)
    requires forall g :: g != h ==> (g in after.handlers <==> g in w.handlers)
    requires forall g :: g != h && g in w.handlers ==> after.handlers[g] == w.handlers[g]
    ensures |Holding(cfg, after, email, k)| == |Holding(cfg, w, email, k)| + 1
  {
    assert Holding(cfg, after, email, k) == Holding(cfg, w, email, k) + {h};
  }

  /** A hit adds one to its own counter, and lets the request on only within the limit. */
  lemma HitFacts(cfg: Config, hash: Hasher, w: World, h: Id, pick: Option<Id>)
    requires h in w.handlers && w.handlers[h].Hitting?
    ensures var after, r := Advanced(cfg, hash, w, h, pick), w.handlers[h].request;
      var n := FloorToWindow(r.at, cfg.window);
      && after.codes == w.codes && after.compared == w.compared
      && (forall b, m :: Hits(after, b, m) == if b == EmailBucket(r.email) && m == n then Hits(w, b, m) + 1
          else Hits(w, b, m))
      && (forall g :: g != h ==> (g in after.handlers <==> g in w.handlers))
      && (forall g :: g != h && g in w.handlers ==> after.handlers[g] == w.handlers[g])
      && (h in after.handlers ==> Ticket(after.handlers[h]) == Some(r))
      && (h in after.handlers ==> Hits(after, EmailBucket(r.email), n) <= cfg.requestsPerWindow)
  {
  }

  lemma SameIssued(cfg: Config, w: World, after: World, email: Id, k: int)
    requires forall id :: id in after.codes <==> id in w.codes
    requires forall id :: id in w.codes ==>
      after.codes[id].email == w.codes[id].email && after.codes[id].expiresAt == w.codes[id].expiresAt
    ensures IssuedIn(cfg, after, email, k) == IssuedIn(cfg, w, email, k)
  {
  }

  lemma InsertKeepsBudget(cfg: Config, hash: Hasher, w: World, h: Id, pick: Option<Id>, email: Id, k: int)
    requires WithinBudget(cfg, w, email, k) && h in w.handlers && w.handlers[h].Inserting?
    ensures WithinBudget(cfg, Advanced(cfg, hash, w, h, pick), email, k)
  {
    var after := Advanced(cfg, hash, w, h, pick);
    var r := w.handlers[h].request;
    InsertFacts(cfg, hash, w, h, pick, email, k);
    if r.id in w.codes {
      SameIssued(cfg, w, after, email, k);
      BudgetQuiet(cfg, w, after, email, k);
    } else if r.email == email && FloorToWindow(r.at, cfg.window) == k {
      assert Holds(cfg, w.handlers[h], email, k);
      assert h in Holding(cfg, w, email, k);
      OneMoreIssued(cfg, w, after, r, email, k);
    } else {
      OneMoreIssued(cfg, w, after, r, email, k);
      BudgetQuiet(cfg, w, after, email, k);
    }
  }

  /** An insert ends its request and touches no counter. */
  lemma InsertFacts(cfg: Config, hash: Hasher, w: World, h: Id, pick: Option<Id>, email: Id, k: int)
    requires h in w.handlers && w.handlers[h].Inserting?
    ensures var after, r := Advanced(cfg, hash, w, h, pick), w.handlers[h].request;
      && after.codes == (if r.id in w.codes then w.codes else Issued(cfg, w, r).codes)
      && after.buckets == w.buckets && Holding(cfg, after, email, k) == Holding(cfg, w, email, k) - {h}
  {
    var after := Advanced(cfg, hash, w, h, pick);
    assert after.handlers == w.handlers - {h};
  }

  lemma OneMoreIssued(cfg: Config, w: World, after: World, r: Request, email: Id, k: int)
    requires r.id !in w.codes && after.codes == Issued(cfg, w, r).codes
    ensures IssuedIn(cfg, after, email, k) == IssuedIn(cfg, w, email, k) +
      if r.email == email && FloorToWindow(r.at, cfg.window) == k then {r.id} else {}
  {
    assert IssuedAt(cfg, after.codes[r.id]) == r.at;
  }

  lemma StepKeepsBudget(cfg: Config, hash: Hasher, w: World, e: Event, email: Id, k: int)
    requires WithinBudget(cfg, w, email, k)
    ensures WithinBudget(cfg, Step(cfg, hash, w, e), email, k)
  {
    var after := Step(cfg, hash, w, e);
    if e.Advance? && e.handler in w.handlers && w.handlers[e.handler].Hitting? {
      HitKeepsBudget(cfg, hash, w, e.handler, e.pick, email, k);
    } else if e.Advance? && e.handler in w.handlers && w.handlers[e.handler].Inserting? {
      InsertKeepsBudget(cfg, hash, w, e.handler, e.pick, email, k);
    } else {
      StepQuiet(cfg, hash, w, e, email, k);
      BudgetQuiet(cfg, w, after, email, k);
    }
  }

  /** Steps other than a hit and an insert change no code's owner or age and give nobody a ticket. */
  lemma StepQuiet(cfg: Config, hash: Hasher, w: World, e: Event, email: Id, k: int)
    requires e.Advance? && e.handler in w.handlers ==>
      !w.handlers[e.handler].Hitting? && !w.handlers[e.handler].Inserting?
    ensures var after := Step(cfg, hash, w, e);
      && IssuedIn(cfg, after, email, k) == IssuedIn(cfg, w, email, k)
      && Holding(cfg, after, email, k) <= Holding(cfg, w, email, k)
      && Hits(after, EmailBucket(email), k) >= Hits(w, EmailBucket(email), k)
  {
    var after := Step(cfg, hash, w, e);
    QuietCodes(cfg, hash, w, e);
    SameIssued(cfg, w, after, email, k);
    QuietTickets(cfg, hash, w, e);
    forall h | h in Holding(cfg, after, email, k) ensures h in Holding(cfg, w, email, k) {
      assert Ticket(after.handlers[h]).Some?;
    }
    QuietHits(cfg, hash, w, e, email, k);
  }

  lemma QuietCodes(cfg: Config, hash: Hasher, w: World, e: Event)
    requires e.Advance? && e.handler in w.handlers ==>
      !w.handlers[e.handler].Hitting? && !w.handlers[e.handler].Inserting?
    ensures SameCodes(w, Step(cfg, hash, w, e))
  {
    if e.Advance? && e.handler in w.handlers && w.handlers[e.handler].Trying? {
      TriedSameCodes(cfg, hash, w, e.handler, w.handlers[e.handler].id, w.handlers[e.handler].code);
    }
  }

  /** The same codes, for the same emails and times. */
  ghost predicate SameCodes(w: World, after: World) {
    && (forall id :: id in after.codes <==> id in w.codes)
    && forall id :: id in w.codes ==>
        after.codes[id].email == w.codes[id].email && after.codes[id].expiresAt == w.codes[id].expiresAt
  }

  lemma TriedSameCodes(cfg: Config, hash: Hasher, w: World, h: Id, id: Id, presented: Id)
    ensures SameCodes(w, Tried(cfg, hash, w, h, id, presented))
  {
  }

  lemma QuietTickets(cfg: Config, hash: Hasher, w: World, e: Event)
    requires e.Advance? && e.handler in w.handlers ==>
      !w.handlers[e.handler].Hitting? && !w.handlers[e.handler].Inserting?
    ensures var after := Step(cfg, hash, w, e);
      forall h :: h in after.handlers && Ticket(after.handlers[h]).Some? ==>
          h in w.handlers && Ticket(w.handlers[h]) == Ticket(after.handlers[h])
  {
  }

  lemma QuietHits(cfg: Config, hash: Hasher, w: World, e: Event, email: Id, k: int)
    requires e.Advance? && e.handler in w.handlers ==>
      !w.handlers[e.handler].Hitting? && !w.handlers[e.handler].Inserting?
    ensures Hits(Step(cfg, hash, w, e), EmailBucket(email), k) >= Hits(w, EmailBucket(email), k)
  {
  }

  lemma {:induction false} RunKeepsBudget(cfg: Config, hash: Hasher, now: int, events: seq<Event>, email: Id, k: int)
    ensures WithinBudget(cfg, Run(cfg, hash, Start(now), events), email, k)
  {
    if events == [] {
      assert IssuedIn(cfg, Start(now), email, k) == {} && Holding(cfg, Start(now), email, k) == {};
    } else {
      RunKeepsBudget(cfg, hash, now, events[..|events| - 1], email, k);
      StepKeepsBudget(cfg, hash, Run(cfg, hash, Start(now), events[..|events| - 1]), events[|events| - 1], email, k);
    }
  }

  /** The codes of an email requested in a half-open interval of one window's length. */
  ghost function IssuedDuring(cfg: Config, w: World, email: Id, from: int): set<Id> {
    set id | id in w.codes && w.codes[id].email == email && from <= IssuedAt(cfg, w.codes[id]) < from + cfg.window
  }

  lemma Spread(window: Positive, x: int)
    ensures x <= -1 ==> x * window <= 0 - window
    ensures x >= 2 ==> x * window >= window + window
  {
  }

  lemma TwoWindows(window: Positive, from: int, at: int)
    requires from <= at < from + window
    ensures FloorToWindow(at, window) == FloorToWindow(from, window)
      || FloorToWindow(at, window) == FloorToWindow(from, window) + 1
  {
    var q, p := from / window, at / window;
    assert from == q * window + from % window && at == p * window + at % window;
    Spread(window, p - q);
    assert (p - q) * window == p * window - q * window;
  }

  /** However requests interleave, an interval of one window's length sees at most twice the limit. */
  lemma IssuingBudget(cfg: Config, hash: Hasher, now: int, events: seq<Event>, email: Id, from: int)
    ensures |IssuedDuring(cfg, Run(cfg, hash, Start(now), events), email, from)| <= 2 * cfg.requestsPerWindow
  {
    var w := Run(cfg, hash, Start(now), events);
    var k := FloorToWindow(from, cfg.window);
    RunKeepsBudget(cfg, hash, now, events, email, k);
    RunKeepsBudget(cfg, hash, now, events, email, k + 1);
    var a, b := IssuedIn(cfg, w, email, k), IssuedIn(cfg, w, email, k + 1);
    forall id | id in IssuedDuring(cfg, w, email, from) ensures id in a + b {
      TwoWindows(cfg.window, from, IssuedAt(cfg, w.codes[id]));
    }
    SubsetSize(IssuedDuring(cfg, w, email, from), a + b);
  }

  // ---- the guessing budget ------------------------------------------------------------------------------------------

  /** How often a code was compared. */
  function Comparisons(log: seq<Comparison>, id: Id): nat {
    if log == [] then 0 else Comparisons(log[..|log| - 1], id) + if log[|log| - 1].id == id then 1 else 0
  }

  ghost predicate Metered(cfg: Config, w: World, id: Id) {
    if id in w.codes then Comparisons(w.compared, id) <= w.codes[id].attempts
        && Comparisons(w.compared, id) <= cfg.maxAttempts
    else Comparisons(w.compared, id) == 0
  }

  lemma StepKeepsMeter(cfg: Config, hash: Hasher, w: World, e: Event, id: Id)
    requires Metered(cfg, w, id)
    ensures Metered(cfg, Step(cfg, hash, w, e), id)
  {
    StepMeters(cfg, hash, w, e);
    var after := Step(cfg, hash, w, e);
    if after.compared != w.compared { assert after.compared[..|w.compared|] == w.compared; }
  }

  /** A step makes at most one comparison, of a code whose attempts it counts and which has one left. */
  lemma StepMeters(cfg: Config, hash: Hasher, w: World, e: Event)
    ensures var after := Step(cfg, hash, w, e);
      && (forall id :: id in w.codes ==> id in after.codes && after.codes[id].attempts >= w.codes[id].attempts)
      && (forall id :: id in after.codes && id !in w.codes ==> after.compared == w.compared)
      && (after.compared == w.compared
           || exists c: Comparison :: after.compared == w.compared + [c] && c.id in w.codes
                && after.codes[c.id].attempts == w.codes[c.id].attempts + 1 <= cfg.maxAttempts)
  {
  }

  lemma {:induction false} RunKeepsMeter(cfg: Config, hash: Hasher, now: int, events: seq<Event>, id: Id)
    ensures Metered(cfg, Run(cfg, hash, Start(now), events), id)
  {
    if events != [] {
      RunKeepsMeter(cfg, hash, now, events[..|events| - 1], id);
      StepKeepsMeter(cfg, hash, Run(cfg, hash, Start(now), events[..|events| - 1]), events[|events| - 1], id);
    }
  }

  /** How often some code of a set was compared. */
  function ComparisonsIn(log: seq<Comparison>, ids: set<Id>): nat {
    if log == [] then 0 else ComparisonsIn(log[..|log| - 1], ids) + if log[|log| - 1].id in ids then 1 else 0
  }

  lemma {:induction false} ComparisonsSplit(log: seq<Comparison>, ids: set<Id>, id: Id)
    requires id in ids
    ensures ComparisonsIn(log, ids) == Comparisons(log, id) + ComparisonsIn(log, ids - {id})
  {
    if log != [] { ComparisonsSplit(log[..|log| - 1], ids, id); }
  }

  lemma {:induction false} NoneCompared(log: seq<Comparison>)
    ensures ComparisonsIn(log, {}) == 0
  {
    if log != [] { NoneCompared(log[..|log| - 1]); }
  }

  lemma {:induction false} ComparisonsBounded(log: seq<Comparison>, ids: set<Id>, most: nat)
    requires forall id :: id in ids ==> Comparisons(log, id) <= most
    ensures ComparisonsIn(log, ids) <= |ids| * most
  {
    if ids == {} {
      NoneCompared(log);
    } else {
      var id :| id in ids;
      ComparisonsSplit(log, ids, id);
      ComparisonsBounded(log, ids - {id}, most);
      var rest := |ids - {id}|;
      assert |ids| == rest + 1;
      assert (rest + 1) * most == rest * most + most;
    }
  }

  lemma TimesAtMost(x: nat, y: nat, n: nat)
    requires x <= y
    ensures x * n <= y * n
  {
  }

  /** All comparisons ever made against the codes an email got in one interval. */
  lemma GuessBudget(cfg: Config, hash: Hasher, now: int, events: seq<Event>, email: Id, from: int)
    ensures var w := Run(cfg, hash, Start(now), events);
      ComparisonsIn(w.compared, IssuedDuring(cfg, w, email, from)) <= 2 * cfg.requestsPerWindow * cfg.maxAttempts
  {
    var w := Run(cfg, hash, Start(now), events);
    var ids := IssuedDuring(cfg, w, email, from);
    forall id | id in ids
      ensures Comparisons(w.compared, id) <= cfg.maxAttempts
    {
      RunKeepsMeter(cfg, hash, now, events, id);
    }
    ComparisonsBounded(w.compared, ids, cfg.maxAttempts);
    IssuingBudget(cfg, hash, now, events, email, from);
    TimesAtMost(|ids|, 2 * cfg.requestsPerWindow, cfg.maxAttempts);
  }

  // ---- success ------------------------------------------------------------------------------------------------------

  /** The code a verification has read and may still succeed with. */
  function Held(p: Phase): Option<Id> {
    match p
    case Trying(id, _) => Some(id)
    case Winning(id) => Some(id)
    case _ => None
  }

  /** The verification holds the code: past its comparison, or before it with the right code and an attempt left. */
  predicate StillWins(cfg: Config, hash: Hasher, w: World, h: Id, id: Id)
    requires id in w.codes && h in w.handlers
  {
    match w.handlers[h]
    case Winning(held) => held == id
    case Trying(held, presented) =>
      && held == id && w.codes[id].attempts < cfg.maxAttempts
      && hash(w.codes[id].email, presented, w.codes[id].salt) == w.codes[id].hash
    case _ => false
  }

  /** A consumed code succeeds again exactly when the verification had read it before it was consumed and is past its
    * comparison, or presents the right code with an attempt left: `consume` does not check that it is the first. */
  lemma SecondSuccess(cfg: Config, hash: Hasher, w: World, h: Id, id: Id, pick: Option<Id>)
    requires id in w.codes && w.codes[id].consumed && h in w.handlers
    ensures Advances(cfg, hash, w, h, pick, 3).wins == w.wins + [id] <==> StillWins(cfg, hash, w, h, id)
  {
    var w1, w2 := Advances(cfg, hash, w, h, pick, 1), Advances(cfg, hash, w, h, pick, 2);
    match w.handlers[h]
    case Reading(email, purpose, code) =>
      if LatestActive(w, pick, email, purpose) && pick.Some? {
        assert w1 == Goto(w, h, Trying(pick.value, code));
        TryingWins(cfg, hash, w1, h, pick);
        AdvancesJoin(cfg, hash, w, h, pick, 1, 2);
        LastDiffers(w.wins, pick.value, id);
      } else {
        ReadingStays(cfg, hash, w, h, pick);
      }
    case Trying(held, code) =>
      TryingWins(cfg, hash, w, h, pick);
      assert Advances(cfg, hash, w, h, pick, 3) == Step(cfg, hash, w2, Advance(h, pick));
      NoMoreWins(cfg, hash, w2, h, pick);
      LastDiffers(w.wins, held, id);
    case Winning(held) =>
      assert w1.wins == w.wins + [held] && h !in w1.handlers;
      NoMoreWins(cfg, hash, w1, h, pick);
      NoMoreWins(cfg, hash, w2, h, pick);
      LastDiffers(w.wins, held, id);
    case _ =>
      NoMoreWins(cfg, hash, w, h, pick);
      NoMoreWins(cfg, hash, w1, h, pick);
      NoMoreWins(cfg, hash, w2, h, pick);
  }

  lemma LastDiffers(wins: seq<Id>, x: Id, y: Id)
    ensures wins + [x] == wins + [y] <==> x == y
    ensures wins != wins + [y]
  {
    assert (wins + [x])[|wins|] == x && (wins + [y])[|wins|] == y;
  }

  /** A verification that holds a code and has compared nothing succeeds within two awaits, or never. */
  lemma TryingWins(cfg: Config, hash: Hasher, w: World, h: Id, pick: Option<Id>)
    requires h in w.handlers && w.handlers[h].Trying?
    ensures var held, after := w.handlers[h].id, Advances(cfg, hash, w, h, pick, 2);
      && NeverWins(after, h)
      && after.wins == if held in w.codes && StillWins(cfg, hash, w, h, held) then w.wins + [held] else w.wins
  {
    var w1 := Advances(cfg, hash, w, h, pick, 1);
    assert Advances(cfg, hash, w, h, pick, 2) == Step(cfg, hash, w1, Advance(h, pick));
  }

  /** Nothing of the handler is left, or it is no verification that may still succeed. */
  predicate NeverWins(w: World, h: Id) {
    h in w.handlers ==> !w.handlers[h].Reading? && Held(w.handlers[h]).None?
  }

  lemma NoMoreWins(cfg: Config, hash: Hasher, w: World, h: Id, pick: Option<Id>)
    requires NeverWins(w, h)
    ensures var after := Step(cfg, hash, w, Advance(h, pick)); after.wins == w.wins && NeverWins(after, h)
  {
  }

  /** A lookup that finds nothing ends the verification, and an answer that is no latest active code is none. */
  lemma ReadingStays(cfg: Config, hash: Hasher, w: World, h: Id, pick: Option<Id>)
    requires h in w.handlers && w.handlers[h].Reading?
    requires pick.None? || !LatestActive(w, pick, w.handlers[h].email, w.handlers[h].purpose)
    ensures Advances(cfg, hash, w, h, pick, 3).wins == w.wins
  {
    var w1, w2 := Advances(cfg, hash, w, h, pick, 1), Advances(cfg, hash, w, h, pick, 2);
    if LatestActive(w, pick, w.handlers[h].email, w.handlers[h].purpose) {
      NoMoreWins(cfg, hash, w1, h, pick);
      NoMoreWins(cfg, hash, w2, h, pick);
    } else {
      assert w1 == w && w2 == w;
    }
  }

  function Next(cfg: Config, hash: Hasher, h: Id, pick: Option<Id>): World -> World {
    w => Step(cfg, hash, w, Advance(h, pick))
  }

  /** `n` awaits of one handler with nothing between them. */
  function Advances(cfg: Config, hash: Hasher, w: World, h: Id, pick: Option<Id>, n: nat): World {
    Iterate(Next(cfg, hash, h, pick), w, n)
  }

  /** Two verifications that both read a code before either consumes it both succeed. */
  lemma RacingVerifications(cfg: Config, hash: Hasher, w: World, g: Id, h: Id, id: Id, code: Id)
    requires id in w.codes && w.codes[id].attempts + 2 <= cfg.maxAttempts
    requires hash(w.codes[id].email, code, w.codes[id].salt) == w.codes[id].hash
    requires g != h && g in w.handlers && h in w.handlers && w.handlers[g] == w.handlers[h] == Trying(id, code)
    ensures Advances(cfg, hash, Advances(cfg, hash, w, g, None, 2), h, None, 2).wins == w.wins + [id, id]
  {
    var a1 := Advances(cfg, hash, w, g, None, 1);
    var a2 := Advances(cfg, hash, w, g, None, 2);
    assert a2.wins == w.wins + [id] && a2.handlers[h] == Trying(id, code);
    var b1 := Advances(cfg, hash, a2, h, None, 1);
    var b2 := Advances(cfg, hash, a2, h, None, 2);
    assert b2.wins == a2.wins + [id];
  }

  /** This step does not read a code that another verification still holds. */
  ghost predicate Exclusive(w: World, e: Event) {
    e.Advance? && e.handler in w.handlers && w.handlers[e.handler].Reading? && e.pick.Some? ==>
      forall g :: g in w.handlers ==> Held(w.handlers[g]) != e.pick
  }

  ghost predicate ExclusiveRun(cfg: Config, hash: Hasher, w: World, events: seq<Event>)
  {
    forall i :: 0 <= i < |events| ==> Exclusive(Run(cfg, hash, w, events[..i]), events[i])
  }

  ghost predicate WonOnce(w: World) {
    && (forall i, j :: 0 <= i < j < |w.wins| ==> w.wins[i] != w.wins[j])
    && (forall i :: 0 <= i < |w.wins| ==> w.wins[i] in w.codes && w.codes[w.wins[i]].consumed)
    && (forall h :: h in w.handlers && Held(w.handlers[h]).Some? ==> Held(w.handlers[h]).value !in w.wins)
    && (forall h :: h in w.handlers && Held(w.handlers[h]).Some? ==> Held(w.handlers[h]).value in w.codes)
    && (forall g, h :: g in w.handlers && h in w.handlers && g != h && Held(w.handlers[g]).Some? ==>
        Held(w.handlers[g]) != Held(w.handlers[h]))
  }

  /** A handler holds what it held, or the unconsumed code it just read; a win ends the hold of the winner. */
  ghost predicate HoldsChange(w: World, after: World, h: Id, pick: Option<Id>)
    requires h in w.handlers
  {
    && (forall g :: g in after.handlers && g != h ==> g in w.handlers && after.handlers[g] == w.handlers[g])
    && (h in after.handlers && Held(after.handlers[h]).Some? ==>
         || Held(after.handlers[h]) == Held(w.handlers[h])
         || (w.handlers[h].Reading? && Held(after.handlers[h]) == pick && pick.value in w.codes
             && !w.codes[pick.value].consumed))
    && (after.wins == w.wins
         || (w.handlers[h].Winning? && h !in after.handlers && after.wins == w.wins + [w.handlers[h].id]))
  }

  lemma AdvanceHolds(cfg: Config, hash: Hasher, w: World, h: Id, pick: Option<Id>)
    requires h in w.handlers
    ensures HoldsChange(w, Advanced(cfg, hash, w, h, pick), h, pick)
  {
  }

  lemma AdvanceWonOnce(cfg: Config, hash: Hasher, w: World, h: Id, pick: Option<Id>)
    requires WonOnce(w) && h in w.handlers && Exclusive(w, Advance(h, pick))
    ensures WonOnce(Advanced(cfg, hash, w, h, pick))
  {
    CodesKept(cfg, hash, w, h, pick);
    AdvanceHolds(cfg, hash, w, h, pick);
    HoldsKeepWonOnce(w, Advanced(cfg, hash, w, h, pick), h, pick);
  }

  lemma HoldsKeepWonOnce(w: World, after: World, h: Id, pick: Option<Id>)
    requires WonOnce(w) && h in w.handlers && HoldsChange(w, after, h, pick) && Exclusive(w, Advance(h, pick))
    requires forall id :: id in w.codes ==> id in after.codes && (w.codes[id].consumed ==> after.codes[id].consumed)
    requires w.handlers[h].Winning? && w.handlers[h].id in w.codes ==> after.codes[w.handlers[h].id].consumed
    ensures WonOnce(after)
  {
  }

  lemma CodesKept(cfg: Config, hash: Hasher, w: World, h: Id, pick: Option<Id>)
    requires h in w.handlers
    ensures var after := Advanced(cfg, hash, w, h, pick);
      forall id :: id in w.codes ==> id in after.codes && (w.codes[id].consumed ==> after.codes[id].consumed)
    ensures w.handlers[h].Winning? && w.handlers[h].id in w.codes ==>
      Advanced(cfg, hash, w, h, pick).codes[w.handlers[h].id].consumed
  {
  }

  /** When no verification reads a code another still holds, each code succeeds at most once. */
  lemma {:induction false} ExclusiveRunsWinOnce(cfg: Config, hash: Hasher, now: int, events: seq<Event>)
    requires ExclusiveRun(cfg, hash, Start(now), events)
    ensures WonOnce(Run(cfg, hash, Start(now), events))
  {
    if events != [] {
      var init, last := events[..|events| - 1], events[|events| - 1];
      forall i | 0 <= i < |init| ensures Exclusive(Run(cfg, hash, Start(now), init[..i]), init[i]) {
        assert init[..i] == events[..i];
      }
      ExclusiveRunsWinOnce(cfg, hash, now, init);
      var w := Run(cfg, hash, Start(now), init);
      assert Exclusive(Run(cfg, hash, Start(now), events[..|init|]), events[|init|]);
      if last.Advance? && last.handler in w.handlers { AdvanceWonOnce(cfg, hash, w, last.handler, last.pick); }
    }
  }

  // ---- every win is earned ------------------------------------------------------------------------------------------

  /** How often a code succeeded, and how often a presented code was found right for it. */
  function WinsOf(wins: seq<Id>, id: Id): nat {
    if wins == [] then 0 else WinsOf(wins[..|wins| - 1], id) + if wins[|wins| - 1] == id then 1 else 0
  }

  function RightOf(log: seq<Comparison>, id: Id): nat {
    if log == [] then 0
    else RightOf(log[..|log| - 1], id) + if log[|log| - 1].id == id && log[|log| - 1].matched then 1 else 0
  }

  /** The verifications in line to win with the code. */
  ghost function Winners(w: World, id: Id): set<Id> { set h | h in w.handlers && w.handlers[h] == Winning(id) }

  /** Every comparison found what it says: the presented code hashes to the code's stored hash, or it does not. */
  ghost predicate ComparedRight(hash: Hasher, w: World) {
    forall c :: c in w.compared ==>
      && c.id in w.codes
      && var code := w.codes[c.id]; (c.matched <==> hash(code.email, c.presented, code.salt) == code.hash)
  }

  /** Each win, past or in line, has a comparison of its own in which the code was right. */
  ghost predicate Earned(w: World, id: Id) { WinsOf(w.wins, id) + |Winners(w, id)| <= RightOf(w.compared, id) }

  /** What a code is hashed with stays. */
  lemma HashesKept(cfg: Config, hash: Hasher, w: World, e: Event)
    ensures var after := Step(cfg, hash, w, e);
      forall id :: id in w.codes ==>
        && id in after.codes && after.codes[id].email == w.codes[id].email
        && after.codes[id].salt == w.codes[id].salt && after.codes[id].hash == w.codes[id].hash
  {
    if e.Advance? && e.handler in w.handlers && w.handlers[e.handler].Trying? {
      var p := w.handlers[e.handler];
      TryExactly(cfg, hash, w, e.handler, p.id, p.code);
    }
  }

  /** One try, on the fields of the code: it counts an attempt, compares within the limit, and puts its handler in line
    * to win exactly if the presented code hashes to the stored hash. */
  lemma TryExactly(cfg: Config, hash: Hasher, w: World, h: Id, id: Id, presented: Id)
    ensures var after := Tried(cfg, hash, w, h, id, presented); var rest := w.handlers - {h};
      if id !in w.codes then after == w.(handlers := rest)
      else
        var c := w.codes[id];
        var opens := hash(c.email, presented, c.salt) == c.hash;
        && after.codes == w.codes[id := c.(attempts := c.attempts + 1)]
        && after.wins == w.wins && after.buckets == w.buckets && after.now == w.now
        && (if c.attempts >= cfg.maxAttempts then
              after.compared == w.compared && after.handlers == w.handlers[h := Expelling(id)]
            else
              && after.compared == w.compared + [Comparison(id, presented, opens)]
              && after.handlers == if opens then w.handlers[h := Winning(id)] else rest)
  {
  }

  lemma ComparedStaysRight(cfg: Config, hash: Hasher, w: World, e: Event)
    requires ComparedRight(hash, w)
    ensures ComparedRight(hash, Step(cfg, hash, w, e))
  {
    HashesKept(cfg, hash, w, e);
    var after := Step(cfg, hash, w, e);
    if e.Advance? && e.handler in w.handlers && w.handlers[e.handler].Trying? {
      var p := w.handlers[e.handler];
      TryExactly(cfg, hash, w, e.handler, p.id, p.code);
      forall c | c in after.compared ensures c in w.compared || c == after.compared[|after.compared| - 1] {
        assert after.compared == w.compared || after.compared[..|w.compared|] == w.compared;
      }
    } else {
      assert after.compared == w.compared;
    }
  }

  lemma StepKeepsEarned(cfg: Config, hash: Hasher, w: World, e: Event, id: Id)
    requires Earned(w, id)
    ensures Earned(Step(cfg, hash, w, e), id)
  {
    if e.Advance? && e.handler in w.handlers && w.handlers[e.handler].Trying? {
      TryKeepsEarned(cfg, hash, w, e.handler, id);
    } else if e.Advance? && e.handler in w.handlers && w.handlers[e.handler].Winning? {
      WinKeepsEarned(cfg, hash, w, e.handler, e.pick, id);
    } else {
      QuietWins(cfg, hash, w, e);
      var after := Step(cfg, hash, w, e);
      assert Winners(after, id) <= Winners(w, id);
      SubsetSize(Winners(after, id), Winners(w, id));
    }
  }

  lemma WinKeepsEarned(cfg: Config, hash: Hasher, w: World, h: Id, pick: Option<Id>, id: Id)
    requires Earned(w, id) && h in w.handlers && w.handlers[h].Winning?
    ensures Earned(Advanced(cfg, hash, w, h, pick), id)
  {
    var after := Advanced(cfg, hash, w, h, pick);
    assert after.wins == w.wins + [w.handlers[h].id] && after.compared == w.compared;
    LessWinners(w, after, h, id);
    OneMore(w.wins, w.handlers[h].id, w.compared, Comparison(0, 0, false), id);
  }

  lemma OneMore(wins: seq<Id>, x: Id, log: seq<Comparison>, c: Comparison, id: Id)
    ensures WinsOf(wins + [x], id) == WinsOf(wins, id) + if x == id then 1 else 0
    ensures RightOf(log + [c], id) == RightOf(log, id) + if c.id == id && c.matched then 1 else 0
  {
    assert (wins + [x])[..|wins|] == wins && (log + [c])[..|log|] == log;
  }

  /** A handler that is gone is not in line. */
  lemma LessWinners(w: World, after: World, h: Id, id: Id)
    requires h in w.handlers && after.handlers == w.handlers - {h}
    ensures |Winners(after, id)| == |Winners(w, id)| - if w.handlers[h] == Winning(id) then 1 else 0
  {
    assert Winners(after, id) == Winners(w, id) - {h};
  }

  /** Only a try compares, only a winner wins, and nothing else puts a handler in line to win. */
  lemma QuietWins(cfg: Config, hash: Hasher, w: World, e: Event)
    requires e.Advance? && e.handler in w.handlers ==>
      !w.handlers[e.handler].Trying? && !w.handlers[e.handler].Winning?
    ensures var after := Step(cfg, hash, w, e);
      && after.wins == w.wins && after.compared == w.compared
      && forall h :: h in after.handlers && after.handlers[h].Winning? ==>
        h in w.handlers && after.handlers[h] == w.handlers[h]
  {
  }

  lemma TryKeepsEarned(cfg: Config, hash: Hasher, w: World, h: Id, id: Id)
    requires Earned(w, id) && h in w.handlers && w.handlers[h].Trying?
    ensures Earned(Tried(cfg, hash, w, h, w.handlers[h].id, w.handlers[h].code), id)
  {
    var x, presented := w.handlers[h].id, w.handlers[h].code;
    var after := Tried(cfg, hash, w, h, x, presented);
    TryExactly(cfg, hash, w, h, x, presented);
    if x !in w.codes || w.codes[x].attempts >= cfg.maxAttempts {
      NextPhase(w, after, h, id);
    } else {
      var code := w.codes[x];
      var c := Comparison(x, presented, hash(code.email, presented, code.salt) == code.hash);
      TryEarns(w, after, h, c, id);
    }
  }

  /** A try that compares earns its place in line, if it gets one, by its own comparison. */
  lemma TryEarns(w: World, after: World, h: Id, c: Comparison, id: Id)
    requires Earned(w, id) && h in w.handlers && !w.handlers[h].Winning?
    requires after.wins == w.wins && after.compared == w.compared + [c]
    requires after.handlers == if c.matched then w.handlers[h := Winning(c.id)] else w.handlers - {h}
    ensures Earned(after, id)
  {
    NextPhase(w, after, h, id);
    OneMore([], 0, w.compared, c, id);
  }

  /** A handler that was not in line is now, or is not. */
  lemma NextPhase(w: World, after: World, h: Id, id: Id)
    requires h in w.handlers && !w.handlers[h].Winning?
    requires forall g :: g != h ==> (g in after.handlers <==> g in w.handlers)
    requires forall g :: g != h && g in w.handlers ==> after.handlers[g] == w.handlers[g]
    ensures |Winners(after, id)| ==
      |Winners(w, id)| + if h in after.handlers && after.handlers[h] == Winning(id) then 1 else 0
  {
    if h in after.handlers && after.handlers[h] == Winning(id) {
      assert Winners(after, id) == Winners(w, id) + {h};
    } else {
      assert Winners(after, id) == Winners(w, id);
    }
  }

  /** However requests and verifications interleave, a code has at most as many successes as there were comparisons in
    * which the presented code hashed to its stored hash. */
  lemma {:induction false} EveryWinIsEarned(cfg: Config, hash: Hasher, now: int, events: seq<Event>, id: Id)
    ensures var w := Run(cfg, hash, Start(now), events);
      ComparedRight(hash, w) && Earned(w, id) && WinsOf(w.wins, id) <= RightOf(w.compared, id)
  {
    if events == [] {
      assert Winners(Start(now), id) == {};
    } else {
      var init := events[..|events| - 1];
      EveryWinIsEarned(cfg, hash, now, init, id);
      ComparedStaysRight(cfg, hash, Run(cfg, hash, Start(now), init), events[|init|]);
      StepKeepsEarned(cfg, hash, Run(cfg, hash, Start(now), init), events[|init|], id);
    }
  }

  // ---- the service, one call at a time ------------------------------------------------------------------------------

  datatype Verdict = Verified | Invalid | TooManyAttempts

  function VerifyAlone(cfg: Config, hash: Hasher, w: World, pick: Option<Id>, presented: Id): (World, Verdict) {
    if pick.None? || pick.value !in w.codes then (w, Invalid)
    else
      var id := pick.value;
      var code := w.codes[id].(attempts := w.codes[id].attempts + 1);
      var counted := w.(codes := w.codes[id := code]);
      if code.attempts > cfg.maxAttempts then (Consume(counted, id), TooManyAttempts)
      else
        var matched := hash(code.email, presented, code.salt) == code.hash;
        var seen := counted.(compared := w.compared + [Comparison(id, presented, matched)]);
        if matched then (Consume(seen, id).(wins := w.wins + [id]), Verified) else (seen, Invalid)
  }

  /** A verification succeeds exactly if there is a latest active code with an attempt left and the presented code
    * hashes to the stored hash. It counts one attempt, and success or one attempt too many consumes the code. */
  ghost predicate VerifiedRight(cfg: Config, hash: Hasher, w: World, after: World, verdict: Verdict, pick: Option<Id>,
                                email: Id, presented: Id) {
    match pick
    case None => verdict == Invalid && after == w
    case Some(id) =>
      && id in w.codes
      && var c := w.codes[id];
      var opens := hash(email, presented, c.salt) == c.hash;
      && (verdict == Verified <==> c.attempts < cfg.maxAttempts && opens)
      && (verdict == TooManyAttempts <==> c.attempts >= cfg.maxAttempts)
      && after == w.(
        codes := w.codes[id := c.(attempts := c.attempts + 1, consumed := c.consumed || verdict != Invalid)],
        compared := w.compared + if c.attempts < cfg.maxAttempts then [Comparison(id, presented, opens)] else [],
        wins := w.wins + if verdict == Verified then [id] else [])
  }

  lemma VerifyIsRight(cfg: Config, hash: Hasher, w: World, pick: Option<Id>, email: Id, purpose: Purpose, presented: Id)
    requires LatestActive(w, pick, email, purpose)
    ensures var (after, verdict) := VerifyAlone(cfg, hash, w, pick, presented);
      VerifiedRight(cfg, hash, w, after, verdict, pick, email, presented)
  {
    assert w.wins + [] == w.wins && w.compared + [] == w.compared;
  }

  datatype Answer = Sent | RateLimited | Refused

  function RequestAlone(cfg: Config, w: World, r: Request): (World, Answer)
  {
    var k := FloorToWindow(r.at, cfg.window);
    var hit := Hit(w, EmailBucket(r.email), k);
    if Hits(hit, EmailBucket(r.email), k) > cfg.requestsPerWindow then (hit, RateLimited)
    else
      var both := if r.ip.Some? then Hit(hit, IpBucket(r.ip.value), k) else hit;
      if r.ip.Some? && Hits(both, IpBucket(r.ip.value), k) > cfg.requestsPerIpPerWindow then (both, RateLimited)
      else if r.purpose.Registration? && !r.hasDraft then (both, Refused)
      else
        var cleared := ConsumeOutstanding(both, r.email, r.purpose);
        if r.id in cleared.codes then (cleared, Refused) else (Issued(cfg, cleared, r), Sent)
  }

  lemma AdvancesOver(cfg: Config, hash: Hasher, w: World, h: Id, pick: Option<Id>, n: nat)
    requires h !in w.handlers
    ensures Advances(cfg, hash, w, h, pick, n) == w
  {
    IterateFixed(Next(cfg, hash, h, pick), w, n);
  }

  lemma AdvancesJoin(cfg: Config, hash: Hasher, w: World, h: Id, pick: Option<Id>, m: nat, n: nat)
    ensures Advances(cfg, hash, w, h, pick, m + n) ==
      Advances(cfg, hash, Advances(cfg, hash, w, h, pick, m), h, pick, n)
  {
    IterateJoin(Next(cfg, hash, h, pick), w, m, n);
  }

  /** The steps of a verification with nothing between them do what the call does. */
  lemma VerifyStepsAreTheCall(cfg: Config, hash: Hasher, w: World, h: Id, pick: Option<Id>, email: Id,
        purpose: Purpose, code: Id)
    requires h !in w.handlers && LatestActive(w, pick, email, purpose)
    ensures Advances(cfg, hash, Step(cfg, hash, w, StartVerify(h, email, purpose, code)), h, pick, 3) ==
      VerifyAlone(cfg, hash, w, pick, code).0
  {
    var w0 := Step(cfg, hash, w, StartVerify(h, email, purpose, code));
    var w1 := Advances(cfg, hash, w0, h, pick, 1);
    if pick.None? {
      assert w1 == w;
      AdvancesOver(cfg, hash, w, h, pick, 2);
      AdvancesJoin(cfg, hash, w0, h, pick, 1, 2);
    } else {
      assert w1 == Goto(w, h, Trying(pick.value, code));
      AdvancesJoin(cfg, hash, w0, h, pick, 1, 2);
      TryingStepsAreTheCall(cfg, hash, w, h, pick, code);
    }
  }

  lemma TryingStepsAreTheCall(cfg: Config, hash: Hasher, w: World, h: Id, pick: Option<Id>, code: Id)
    requires h !in w.handlers && pick.Some? && pick.value in w.codes
    ensures Advances(cfg, hash, Goto(w, h, Trying(pick.value, code)), h, pick, 2) ==
      VerifyAlone(cfg, hash, w, pick, code).0
  {
    var w1 := Goto(w, h, Trying(pick.value, code));
    assert Advances(cfg, hash, w1, h, pick, 2).handlers == w.handlers;
  }

  /** A request that passed its limits does the rest of the call. */
  lemma AdmittedStepsAreTheCall(cfg: Config, hash: Hasher, base: World, h: Id, r: Request)
    requires h !in base.handlers
    ensures var rest := Advances(cfg, hash, Goto(base, h, Clearing(r)), h, None, 2);
      var cleared := ConsumeOutstanding(base, r.email, r.purpose);
      rest == if r.id in cleared.codes then cleared else Issued(cfg, cleared, r)
  {
    var w0 := Goto(base, h, Clearing(r));
    var w1, w2 := Advances(cfg, hash, w0, h, None, 1), Advances(cfg, hash, w0, h, None, 2);
    assert w1 == Goto(ConsumeOutstanding(base, r.email, r.purpose), h, Inserting(r));
    assert w2.handlers == base.handlers;
  }

  lemma EmailHit(cfg: Config, hash: Hasher, w: World, h: Id, r: Request)
    requires h !in w.handlers && r.at == w.now
    ensures var k := FloorToWindow(r.at, cfg.window); var hit := Hit(w, EmailBucket(r.email), k);
      Advances(cfg, hash, Step(cfg, hash, w, StartRequest(h, r)), h, None, 1) ==
        if Hits(hit, EmailBucket(r.email), k) > cfg.requestsPerWindow then hit
        else if r.ip.Some? then Goto(hit, h, HittingIp(r))
        else if r.purpose.Registration? && !r.hasDraft then hit
        else Goto(hit, h, Clearing(r))
  {
    var w0 := Step(cfg, hash, w, StartRequest(h, r));
    var w1 := Advances(cfg, hash, w0, h, None, 1);
    assert w1 == Advanced(cfg, hash, w0, h, None);
    assert w0.handlers - {h} == w.handlers;
  }

  lemma IpHit(cfg: Config, hash: Hasher, base: World, h: Id, r: Request)
    requires h !in base.handlers && r.ip.Some?
    ensures var k := FloorToWindow(r.at, cfg.window); var hit := Hit(base, IpBucket(r.ip.value), k);
      Advances(cfg, hash, Goto(base, h, HittingIp(r)), h, None, 1) ==
        if Hits(hit, IpBucket(r.ip.value), k) > cfg.requestsPerIpPerWindow then hit
        else if r.purpose.Registration? && !r.hasDraft then hit
        else Goto(hit, h, Clearing(r))
  {
    var w0 := Goto(base, h, HittingIp(r));
    assert Advances(cfg, hash, w0, h, None, 1) == Advanced(cfg, hash, w0, h, None);
    assert w0.handlers - {h} == base.handlers;
  }

  /** The steps of a request with nothing between them do what the call does. */
  lemma RequestStepsAreTheCall(cfg: Config, hash: Hasher, w: World, h: Id, r: Request)
    requires h !in w.handlers && r.at == w.now
    ensures Advances(cfg, hash, Step(cfg, hash, w, StartRequest(h, r)), h, None, if r.ip.Some? then 4 else 3) ==
      RequestAlone(cfg, w, r).0
  {
    var w0 := Step(cfg, hash, w, StartRequest(h, r));
    var w1 := Advances(cfg, hash, w0, h, None, 1);
    var hit := Hit(w, EmailBucket(r.email), FloorToWindow(r.at, cfg.window));
    EmailHit(cfg, hash, w, h, r);
    AdvancesJoin(cfg, hash, w0, h, None, 1, if r.ip.Some? then 3 else 2);
    if h !in w1.handlers {
      AdvancesOver(cfg, hash, w1, h, None, if r.ip.Some? then 3 else 2);
    } else if r.ip.None? {
      AdmittedStepsAreTheCall(cfg, hash, hit, h, r);
    } else {
      IpHit(cfg, hash, hit, h, r);
      var w2 := Advances(cfg, hash, w1, h, None, 1);
      AdvancesJoin(cfg, hash, w1, h, None, 1, 2);
      if h !in w2.handlers {
        AdvancesOver(cfg, hash, w2, h, None, 2);
      } else {
        AdmittedStepsAreTheCall(cfg, hash, Hit(hit, IpBucket(r.ip.value), FloorToWindow(r.at, cfg.window)), h, r);
      }
    }
  }

  /** A request that sends a code leaves it as the only unconsumed code of its email and purpose. */
  lemma OneOutstandingCode(cfg: Config, w: World, r: Request)
    requires RequestAlone(cfg, w, r).1.Sent?
    ensures var after := RequestAlone(cfg, w, r).0;
      forall id :: id in after.codes && after.codes[id].email == r.email && after.codes[id].purpose == r.purpose ==>
        (!after.codes[id].consumed <==> id == r.id)
  {
  }

  /** Calls that do not overlap succeed with a code at most once: what one verified, a later one cannot pick. */
  lemma VerifiedOnce(cfg: Config, hash: Hasher, w: World, pick: Option<Id>, presented: Id, later: World,
        again: Option<Id>, email: Id, purpose: Purpose)
    requires var (after, verdict) := VerifyAlone(cfg, hash, w, pick, presented);
      && verdict != Invalid && pick.Some? && forall id :: id in after.codes && after.codes[id].consumed ==>
          id in later.codes && later.codes[id].consumed
    requires LatestActive(later, again, email, purpose)
    ensures again != pick
  {
  }

  lemma {:induction false} RunJoin(cfg: Config, hash: Hasher, w: World, a: seq<Event>, b: seq<Event>)
    ensures Run(cfg, hash, w, a + b) == Run(cfg, hash, Run(cfg, hash, w, a), b)
  {
    if b == [] {
      assert a + b == a;
    } else {
      assert (a + b)[..|a + b| - 1] == a + b[..|b| - 1];
      RunJoin(cfg, hash, w, a, b[..|b| - 1]);
    }
  }

  function Repeat(ev: Event, n: nat): seq<Event> { seq(n, i => ev) }

  lemma {:induction false} RunRepeats(cfg: Config, hash: Hasher, w: World, h: Id, pick: Option<Id>, n: nat)
    ensures Run(cfg, hash, w, Repeat(Advance(h, pick), n)) == Advances(cfg, hash, w, h, pick, n)
  {
    if n > 0 {
      RunRepeats(cfg, hash, w, h, pick, n - 1);
      assert Repeat(Advance(h, pick), n)[..n - 1] == Repeat(Advance(h, pick), n - 1);
    }
  }

  /** One requested code, and two verifications with it that both read it before either consumes it. */
  function RacePrelude(r: Request, code: Id): seq<Event> {
    [StartVerify(1, r.email, r.purpose, code)] + [StartVerify(2, r.email, r.purpose, code)]
    + [Advance(1, Some(r.id))] + [Advance(2, Some(r.id))]
  }

  lemma BothRead(cfg: Config, hash: Hasher, w: World, r: Request, code: Id)
    requires w.handlers == map[] && w.codes.Keys == {r.id} && Active(w, r.id, r.email, r.purpose)
    ensures Run(cfg, hash, w, RacePrelude(r, code)) ==
      w.(handlers := map[1 := Trying(r.id, code), 2 := Trying(r.id, code)])
  {
    var a, b := StartVerify(1, r.email, r.purpose, code), StartVerify(2, r.email, r.purpose, code);
    var c, d := Advance(1, Some(r.id)), Advance(2, Some(r.id));
    RunMore(cfg, hash, w, [a] + [b] + [c], d);
    RunMore(cfg, hash, w, [a] + [b], c);
    RunMore(cfg, hash, w, [a], b);
    RunOne(cfg, hash, w, a);
    var w2 := Run(cfg, hash, w, [a] + [b]);
    var reading := Reading(r.email, r.purpose, code);
    assert w2 == w.(handlers := map[1 := reading, 2 := reading]);
    ReadsCode(cfg, hash, w2, 1, r, code);
    ReadsCode(cfg, hash, Step(cfg, hash, w2, c), 2, r, code);
  }

  lemma RunMore(cfg: Config, hash: Hasher, w: World, events: seq<Event>, ev: Event)
    ensures Run(cfg, hash, w, events + [ev]) == Step(cfg, hash, Run(cfg, hash, w, events), ev)
  {
    assert (events + [ev])[..|events|] == events;
  }

  /** The one active code is read. */
  lemma ReadsCode(cfg: Config, hash: Hasher, w: World, h: Id, r: Request, code: Id)
    requires h in w.handlers && w.handlers[h] == Reading(r.email, r.purpose, code)
    requires w.codes.Keys == {r.id} && Active(w, r.id, r.email, r.purpose)
    ensures Step(cfg, hash, w, Advance(h, Some(r.id))) == w.(handlers := w.handlers[h := Trying(r.id, code)])
  {
    assert LatestActive(w, Some(r.id), r.email, r.purpose);
  }

  lemma RunOne(cfg: Config, hash: Hasher, w: World, ev: Event)
    ensures Run(cfg, hash, w, [ev]) == Step(cfg, hash, w, ev)
  {
    assert [ev][..0] == [];
    assert Run(cfg, hash, w, []) == w;
  }

  /** The race as a run from the start: the one code that was issued succeeds twice. */
  lemma OneCodeSucceedsTwice(cfg: Config, hash: Hasher, r: Request, code: Id)
    requires cfg.requestsPerWindow >= 1 && cfg.ttl > 0 && cfg.maxAttempts >= 2
    requires r.at == 0 && r.ip.None? && r.purpose.Login? && hash(r.email, code, r.salt) == r.hash
    ensures var evs := [StartRequest(0, r)] + Repeat(Advance(0, None), 3) + RacePrelude(r, code)
        + Repeat(Advance(1, None), 2) + Repeat(Advance(2, None), 2);
      Run(cfg, hash, Start(0), evs).wins == [r.id, r.id]
  {
    var request := [StartRequest(0, r)] + Repeat(Advance(0, None), 3);
    var read := request + RacePrelude(r, code);
    var first := read + Repeat(Advance(1, None), 2);
    RunJoin(cfg, hash, Start(0), [StartRequest(0, r)], Repeat(Advance(0, None), 3));
    RunOne(cfg, hash, Start(0), StartRequest(0, r));
    RunRepeats(cfg, hash, Step(cfg, hash, Start(0), StartRequest(0, r)), 0, None, 3);
    RequestStepsAreTheCall(cfg, hash, Start(0), 0, r);
    var sent := RequestAlone(cfg, Start(0), r).0;
    assert Run(cfg, hash, Start(0), request) == sent;
    FirstRequest(cfg, r);
    RunJoin(cfg, hash, Start(0), request, RacePrelude(r, code));
    BothRead(cfg, hash, sent, r, code);
    var w := Run(cfg, hash, Start(0), read);
    RunJoin(cfg, hash, Start(0), read, Repeat(Advance(1, None), 2));
    RunRepeats(cfg, hash, w, 1, None, 2);
    RunJoin(cfg, hash, Start(0), first, Repeat(Advance(2, None), 2));
    RunRepeats(cfg, hash, Advances(cfg, hash, w, 1, None, 2), 2, None, 2);
    RacingVerifications(cfg, hash, w, 1, 2, r.id, code);
  }

  lemma FirstRequest(cfg: Config, r: Request)
    requires cfg.requestsPerWindow >= 1 && cfg.ttl > 0 && r.at == 0 && r.ip.None? && r.purpose.Login?
    ensures var sent := RequestAlone(cfg, Start(0), r).0;
      && sent.codes == map[r.id := Code(r.email, r.purpose, r.salt, r.hash, 0, cfg.ttl, false, 0)]
      && sent.handlers == map[] && sent.wins == [] && Active(sent, r.id, r.email, r.purpose)
  {
  }

  predicate EmailWithinLimit(cfg: Config, w: World, r: Request) {
    Hits(w, EmailBucket(r.email), FloorToWindow(r.at, cfg.window)) < cfg.requestsPerWindow
  }

  predicate WithinLimits(cfg: Config, w: World, r: Request) {
    && EmailWithinLimit(cfg, w, r)
    && (r.ip.Some? ==> Hits(w, IpBucket(r.ip.value), FloorToWindow(r.at, cfg.window)) < cfg.requestsPerIpPerWindow)
  }

  predicate MayIssue(r: Request) { r.purpose.Registration? ==> r.hasDraft }

  predicate CountsFor(cfg: Config, w: World, r: Request, b: Bucket) {
    b == EmailBucket(r.email) || (EmailWithinLimit(cfg, w, r) && r.ip.Some? && b == IpBucket(r.ip.value))
  }

  /** A fresh code for the request, with no attempt made. */
  predicate FreshFor(c: Code, r: Request, cfg: Config) {
    c.email == r.email && c.purpose == r.purpose && c.salt == r.salt && c.hash == r.hash && c.attempts == 0
        && !c.consumed
    && c.expiresAt == r.at + cfg.ttl
  }

  ghost predicate AnsweredRight(cfg: Config, w: World, answer: Answer, r: Request) {
    && (answer.RateLimited? <==> !WithinLimits(cfg, w, r))
    && (answer.Sent? <==> WithinLimits(cfg, w, r) && MayIssue(r) && r.id !in w.codes)
  }

  ghost predicate CountedRight(cfg: Config, w: World, after: World, r: Request) {
    forall b, m :: Hits(after, b, m) ==
      Hits(w, b, m) + if m == FloorToWindow(r.at, cfg.window) && CountsFor(cfg, w, r, b) then 1 else 0
  }

  /** The request got as far as replacing outstanding codes, and the code is one of those. */
  predicate Replaced(cfg: Config, w: World, c: Code, r: Request) {
    WithinLimits(cfg, w, r) && MayIssue(r) && c.email == r.email && c.purpose == r.purpose
  }

  ghost predicate IssuedRight(cfg: Config, w: World, after: World, answer: Answer, r: Request) {
    && (forall id :: id in w.codes ==> id in after.codes)
    && (forall id :: id in w.codes ==>
          after.codes[id] == w.codes[id].(consumed := w.codes[id].consumed || Replaced(cfg, w, w.codes[id], r)))
    && (forall id :: id in after.codes && id !in w.codes ==> answer.Sent? && id == r.id)
    && (answer.Sent? ==>
          r.id in after.codes && FreshFor(after.codes[r.id], r, cfg) && after.codes[r.id].createdAt == w.now)
  }

  lemma RequestIsRight(cfg: Config, w: World, r: Request)
    ensures var (after, answer) := RequestAlone(cfg, w, r);
      && AnsweredRight(cfg, w, answer, r) && CountedRight(cfg, w, after, r) && IssuedRight(cfg, w, after, answer, r)
  {
    RequestCounts(cfg, w, r);
    RequestIssues(cfg, w, r);
  }

  lemma RequestCounts(cfg: Config, w: World, r: Request)
    ensures CountedRight(cfg, w, RequestAlone(cfg, w, r).0, r) && AnsweredRight(cfg, w, RequestAlone(cfg, w, r).1, r)
  {
    var k := FloorToWindow(r.at, cfg.window);
    var hit := Hit(w, EmailBucket(r.email), k);
    assert forall b, m :: Hits(hit, b, m) == Hits(w, b, m) + if m == k && b == EmailBucket(r.email) then 1 else 0;
    if r.ip.Some? {
      var both := Hit(hit, IpBucket(r.ip.value), k);
      assert forall b, m :: Hits(both, b, m) == Hits(hit, b, m) + if m == k && b == IpBucket(r.ip.value) then 1 else 0;
    }
  }

  lemma RequestIssues(cfg: Config, w: World, r: Request)
    ensures IssuedRight(cfg, w, RequestAlone(cfg, w, r).0, RequestAlone(cfg, w, r).1, r)
  {
    var cleared := ConsumeOutstanding(w, r.email, r.purpose);
    RequestCodes(cfg, w, r);
    assert forall id :: id in cleared.codes <==> id in w.codes;
  }

  lemma RequestCodes(cfg: Config, w: World, r: Request)
    ensures var (after, answer) := RequestAlone(cfg, w, r); var cleared := ConsumeOutstanding(w, r.email, r.purpose);
      after.codes ==
        if !WithinLimits(cfg, w, r) || !MayIssue(r) then w.codes
        else if r.id in w.codes then cleared.codes
        else Issued(cfg, cleared, r).codes
    ensures RequestAlone(cfg, w, r).1.Sent? <==> WithinLimits(cfg, w, r) && MayIssue(r) && r.id !in w.codes
  {
    RequestCounts(cfg, w, r);
  }

  class OtpService {
    const cfg: Config
    const hash: Hasher
    var codes: map<Id, Code>
    var buckets: map<(Bucket, int), nat>
    var compared: seq<Comparison>
    var wins: seq<Id>
    var now: int

    constructor (cfg: Config, hash: Hasher, now: int)
      ensures this.cfg == cfg && this.hash == hash && Now() == Start(now)
    {
      this.cfg, this.hash, this.now := cfg, hash, now;
      codes, buckets, compared, wins := map[], map[], [], [];
    }

    function Now(): World
      reads this
    {
      World(codes, buckets, map[], compared, wins, now)
    }

    /** Count one hit in the window `at` falls into, and return the new count. */
    method HitBucket(b: Bucket, at: int) returns (count: nat)
      modifies this
      ensures Now() == Hit(old(Now()), b, FloorToWindow(at, cfg.window))
      ensures count == Hits(Now(), b, FloorToWindow(at, cfg.window))
    {
      var k := FloorToWindow(at, cfg.window);
      count := (if (b, k) in buckets then buckets[(b, k)] else 0) + 1;
      buckets := buckets[(b, k) := count];
    }

    method GetLatestActive(email: Id, purpose: Purpose) returns (pick: Option<Id>)
      ensures LatestActive(Now(), pick, email, purpose)
    {
      pick := None;
      var left := codes.Keys;
      while left != {}
        invariant left <= codes.Keys
        invariant pick.None? ==> forall id :: id in codes && id !in left ==> !Active(Now(), id, email, purpose)
        invariant pick.Some? ==> pick.value in codes && Active(Now(), pick.value, email, purpose)
        invariant pick.Some? ==> forall id :: id in codes && id !in left && Active(Now(), id, email, purpose) ==>
          codes[id].createdAt <= codes[pick.value].createdAt
        decreases |left|
      {
        var id :| id in left;
        left := left - {id};
        var c := codes[id];
        if c.email == email && c.purpose == purpose && !c.consumed && c.expiresAt > now
          && (pick.None? || codes[pick.value].createdAt <= c.createdAt) {
          pick := Some(id);
        }
      }
    }

    method IncrementAttempts(id: Id) returns (attempts: nat)
      requires id in codes
      modifies this
      ensures attempts == old(codes)[id].attempts + 1
      ensures Now() == old(Now()).(codes := old(codes)[id := old(codes)[id].(attempts := attempts)])
    {
      attempts := codes[id].attempts + 1;
      codes := codes[id := codes[id].(attempts := attempts)];
    }

    method ConsumeCode(id: Id)
      modifies this
      ensures Now() == Consume(old(Now()), id)
    {
      if id in codes { codes := codes[id := codes[id].(consumed := true)]; }
    }

    method Verify(email: Id, purpose: Purpose, presented: Id) returns (verdict: Verdict, ghost pick: Option<Id>)
      modifies this
      ensures LatestActive(old(Now()), pick, email, purpose)
      ensures (Now(), verdict) == VerifyAlone(cfg, hash, old(Now()), pick, presented)
      ensures VerifiedRight(cfg, hash, old(Now()), Now(), verdict, pick, email, presented)
    {
      var rec := GetLatestActive(email, purpose);
      pick := rec;
      VerifyIsRight(cfg, hash, Now(), pick, email, purpose, presented);
      if rec.None? { return Invalid, pick; }
      var code := codes[rec.value];
      var attempts := IncrementAttempts(rec.value);
      if attempts > cfg.maxAttempts {
        ConsumeCode(rec.value);
        return TooManyAttempts, pick;
      }
      var matched := hash(email, presented, code.salt) == code.hash;
      compared := compared + [Comparison(rec.value, presented, matched)];
      if !matched { return Invalid, pick; }
      ConsumeCode(rec.value);
      wins := wins + [rec.value];
      verdict := Verified;
    }

    /** A code is sent exactly when both counters stay within their limits, a registration has its draft and the row is
      * new. Every request counts for its email, and for its address once the email is within its limit; past the limits
      * the outstanding codes of the email and purpose are consumed; no other counter and no other code changes. */
    method RequestCode(r: Request) returns (answer: Answer)
      modifies this
      ensures AnsweredRight(cfg, old(Now()), answer, r) && CountedRight(cfg, old(Now()), Now(), r)
      ensures IssuedRight(cfg, old(Now()), Now(), answer, r)
      ensures (Now(), answer) == RequestAlone(cfg, old(Now()), r)
    {
      RequestIsRight(cfg, Now(), r);
      var count := HitBucket(EmailBucket(r.email), r.at);
      if count > cfg.requestsPerWindow { return RateLimited; }
      if r.ip.Some? {
        count := HitBucket(IpBucket(r.ip.value), r.at);
        if count > cfg.requestsPerIpPerWindow { return RateLimited; }
      }
      if r.purpose.Registration? && !r.hasDraft { return Refused; }
      codes := ConsumeOutstanding(Now(), r.email, r.purpose).codes;
      if r.id in codes { return Refused; }
      codes := codes[r.id := Code(r.email, r.purpose, r.salt, r.hash, 0, r.at + cfg.ttl, false, now)];
      answer := Sent;
    }
  }
}
