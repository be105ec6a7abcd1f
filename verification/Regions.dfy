/** The region algebra: references, the resolver that compiles them into regions, and the evaluator. */
module Regions {
  import opened Wrappers
  import opened EffectiveDating
  import opened FirstOccurrences

  // ---- references -------------------------------------------------------------------------------------------

  datatype Op = And | Or | Not

  datatype RegionRef = Base(text: string) | Union(op: Op, refs: seq<RegionRef>)

  datatype ParsedRef = Jurisdiction | Seat(slug: Id) | Revision(revisionId: Id) | PresetRef(presetId: Id)

  datatype Failure = InvalidRef(text: string) | RegionNotFound(id: Id)

  function IndexOf(s: string, c: char): (i: nat)
    ensures i <= |s| && c !in s[..i] && (i < |s| ==> s[i] == c)
  {
    if s == [] || s[0] == c then 0 else 1 + IndexOf(s[1..], c)
  }

  function ParseBaseRef(s: string): Result<ParsedRef, Failure> {
    if s == "jurisdiction" then Ok(Jurisdiction)
    else
      var sep := IndexOf(s, ':');
      if 0 < sep && sep + 1 < |s| then
        var prefix, payload := s[..sep], s[sep + 1..];
        if prefix == "district" then Ok(Seat(payload))
        else if prefix == "revision" then Ok(Revision(payload))
        else if prefix == "region" then Ok(PresetRef(payload))
        else Err(InvalidRef(s))
      else Err(InvalidRef(s))
  }

  function Payload(r: ParsedRef): string {
    match r
    case Jurisdiction => "-"
    case Seat(slug) => slug
    case Revision(id) => id
    case PresetRef(id) => id
  }

  /** The text that names a parsed reference. */
  function Printed(r: ParsedRef): string {
    match r
    case Jurisdiction => "jurisdiction"
    case Seat(slug) => "district" + ":" + slug
    case Revision(id) => "revision" + ":" + id
    case PresetRef(id) => "region" + ":" + id
  }

  function RefFromDistrictIds(ids: seq<Id>): RegionRef {
    Union(Or, seq(|ids|, i requires 0 <= i < |ids| => Base(Printed(Revision(ids[i])))))
  }

  // ---- regions ----------------------------------------------------------------------------------------------

  /** A region holds revisions, its own geometry, or a boolean node over other regions. */
  datatype Region =
    | Districts(jurisdiction: Id, ids: seq<Id>)
    | Custom(id: Id, jurisdiction: Id)
    | Composite(jurisdiction: Id, op: Op, children: seq<Region>, bound: Option<Region>)

  predicate CustomContains(geo: Geo, id: Id, p: Point) {
    id in geo.presets && geo.presets[id].geom.Some? && p in geo.presets[id].geom.value
  }

  predicate Contains(geo: Geo, r: Region, p: Point) {
    match r
    case Districts(_, ids) => DistrictsContain(geo.rows, ids, p)
    case Custom(id, _) => CustomContains(geo, id, p)
    case Composite(_, op, children, bound) =>
      match op
      case Or => exists i :: 0 <= i < |children| && Contains(geo, children[i], p)
      case And => |children| > 0 && forall i :: 0 <= i < |children| ==> Contains(geo, children[i], p)
      case Not =>
        && (bound.Some? ==> Contains(geo, bound.value, p))
        && |children| > 0 && !Contains(geo, children[0], p)
  }

  predicate IsEmpty(r: Region) {
    match r
    case Districts(_, ids) => ids == []
    case Custom(_, _) => false
    case Composite(_, op, children, bound) =>
      match op
      case Or => forall i :: 0 <= i < |children| ==> IsEmpty(children[i])
      case And => |children| == 0 || exists i :: 0 <= i < |children| && IsEmpty(children[i])
      case Not => bound.None? || IsEmpty(bound.value)
  }

  // ---- the resolver -----------------------------------------------------------------------------------------

  function ForJurisdiction(geo: Geo, j: Id, asOf: int): Region {
    Districts(j, DistrictIdsAsOf(geo.rows, j, asOf))
  }

  predicate DistrictExists(rows: seq<District>, id: Id) {
    exists i :: 0 <= i < |rows| && rows[i].id == id
  }

  /** A stored preset, else a single revision, else an error. */
  function ResolveId(geo: Geo, id: Id): Result<Region, Failure> {
    if id in geo.presets then
      var row := geo.presets[id];
      if row.geom.Some? then Ok(Custom(id, row.jurisdiction))
      else Ok(Districts(row.jurisdiction, if row.districtIds.Some? then row.districtIds.value else []))
    else if DistrictExists(geo.rows, id) then Ok(Districts("oursay-global", [id]))
    else Err(RegionNotFound(id))
  }

  function ResolveBase(geo: Geo, j: Id, asOf: int, r: ParsedRef): Result<Region, Failure> {
    match r
    case Jurisdiction => Ok(ForJurisdiction(geo, j, asOf))
    case Seat(slug) =>
      var id := BySlug(geo.rows, j, slug, asOf);
      Ok(Districts(j, if id.Some? && id.value != "" then [id.value] else []))
    case Revision(id) => Ok(Districts(j, [id]))
    case PresetRef(id) => ResolveId(geo, id)
  }

  function Resolve(geo: Geo, j: Id, asOf: int, ref: RegionRef): Result<Region, Failure>
    decreases ref, if ref.Union? then |ref.refs| + 1 else 0
  {
    match ref
    case Base(text) =>
      (match ParseBaseRef(text)
       case Ok(parsed) => ResolveBase(geo, j, asOf, parsed)
       case Err(e) => Err(e))
    case Union(op, refs) =>
      match ResolveFirst(geo, j, asOf, ref, |refs|)
      case Ok(children) => Ok(Combine(geo, j, asOf, op, children))
      case Err(e) => Err(e)
  }

  /** The first `n` children of a union, resolved; one failing child fails them all. */
  function ResolveFirst(geo: Geo, j: Id, asOf: int, ref: RegionRef, n: nat): (r: Result<seq<Region>, Failure>)
    requires ref.Union? && n <= |ref.refs|
    ensures r.Ok? ==> |r.value| == n
    decreases ref, n
  {
    if n == 0 then Ok([])
    else match ResolveFirst(geo, j, asOf, ref, n - 1)
      case Err(e) => Err(e)
      case Ok(init) =>
        match Resolve(geo, j, asOf, ref.refs[n - 1])
        case Err(e) => Err(e)
        case Ok(child) => Ok(init + [child])
  }

  /** An `or` over plain district regions collapses to one duplicate-free union; everything else keeps its tree. */
  function Combine(geo: Geo, j: Id, asOf: int, op: Op, children: seq<Region>): Region {
    match op
    case Or =>
      if forall i :: 0 <= i < |children| ==> children[i].Districts?
      then Districts(j, Dedupe(FlatIds(children)))
      else Composite(j, Or, children, None)
    case And => Composite(j, And, children, None)
    case Not => Composite(j, Not, children, Some(ForJurisdiction(geo, j, asOf)))
  }

  function FlatIds(children: seq<Region>): seq<Id>
    requires forall i :: 0 <= i < |children| ==> children[i].Districts?
  {
    if children == [] then [] else FlatIds(children[..|children| - 1]) + children[|children| - 1].ids
  }

  datatype Scope = WholeJurisdiction | ImpactedRegion | MyDistrict | AllPublic

  datatype ScopeInput = ScopeInput(
    scope: Scope,
    jurisdiction: Id,
    appliesToRegion: Option<RegionRef>,
    appliesToDistrictIds: Option<seq<Id>>,
    viewerDistrictId: Option<Id>,
    asOf: int)

  /** The stake an entity declares, with the older id list as its alias. The empty text counts as absent. */
  function Stake(input: ScopeInput): Option<RegionRef> {
    if input.appliesToRegion.Some? then
      if input.appliesToRegion == Some(Base("")) then None else input.appliesToRegion
    else if input.appliesToDistrictIds.Some? && input.appliesToDistrictIds.value != []
    then Some(RefFromDistrictIds(input.appliesToDistrictIds.value))
    else None
  }

  predicate NamesDistrict(input: ScopeInput) { input.viewerDistrictId.Some? && input.viewerDistrictId.value != "" }

  function CompileScope(geo: Geo, input: ScopeInput): Result<Option<Region>, Failure> {
    match input.scope
    case WholeJurisdiction => Ok(Some(ForJurisdiction(geo, input.jurisdiction, input.asOf)))
    case ImpactedRegion =>
      if Stake(input).None? then Ok(Some(ForJurisdiction(geo, input.jurisdiction, input.asOf)))
      else (match Resolve(geo, input.jurisdiction, input.asOf, Stake(input).value)
            case Ok(r) => Ok(Some(r))
            case Err(e) => Err(e))
    case MyDistrict =>
      if NamesDistrict(input)
      then Ok(Some(Districts(input.jurisdiction, [input.viewerDistrictId.value])))
      else Ok(None)
    case AllPublic => Ok(None)
  }

  // ---- what a reference means, as a set of points ------------------------------------------------------------

  ghost predicate InForce(geo: Geo, j: Id, asOf: int, p: Point) {
    exists i :: 0 <= i < |geo.rows| && Picked(geo.rows, j, asOf, i) && p in geo.rows[i].geom
  }

  ghost predicate InSeat(geo: Geo, j: Id, asOf: int, slug: Id, p: Point) {
    exists i :: 0 <= i < |geo.rows| && Picked(geo.rows, j, asOf, i) && geo.rows[i].slug == slug && p in geo.rows[i].geom
  }

  ghost predicate InRevision(geo: Geo, id: Id, p: Point) {
    exists i :: 0 <= i < |geo.rows| && geo.rows[i].id == id && p in geo.rows[i].geom
  }

  ghost predicate InPreset(geo: Geo, id: Id, p: Point) {
    if id !in geo.presets then InRevision(geo, id, p)
    else match geo.presets[id].geom
      case Some(points) => p in points
      case None =>
        && geo.presets[id].districtIds.Some?
        && exists id' :: id' in geo.presets[id].districtIds.value && InRevision(geo, id', p)
  }

  ghost predicate Denotes(geo: Geo, j: Id, asOf: int, ref: RegionRef, p: Point) {
    match ref
    case Base(text) =>
      (match ParseBaseRef(text)
       case Ok(Jurisdiction) => InForce(geo, j, asOf, p)
       case Ok(Seat(slug)) => InSeat(geo, j, asOf, slug, p)
       case Ok(Revision(id)) => InRevision(geo, id, p)
       case Ok(PresetRef(id)) => InPreset(geo, id, p)
       case Err(_) => false)
    case Union(Or, refs) => exists i :: 0 <= i < |refs| && Denotes(geo, j, asOf, refs[i], p)
    case Union(And, refs) => refs != [] && forall i :: 0 <= i < |refs| ==> Denotes(geo, j, asOf, refs[i], p)
    case Union(Not, refs) => InForce(geo, j, asOf, p) && refs != [] && !Denotes(geo, j, asOf, refs[0], p)
  }

  /** Every base reference in the tree parses, and every preset it names is stored or is a revision's id. */
  ghost predicate WellNamed(geo: Geo, ref: RegionRef) {
    match ref
    case Base(text) =>
      (match ParseBaseRef(text)
       case Ok(PresetRef(id)) => id in geo.presets || DistrictExists(geo.rows, id)
       case Ok(_) => true
       case Err(_) => false)
    case Union(_, refs) => forall i :: 0 <= i < |refs| ==> WellNamed(geo, refs[i])
  }

  ghost predicate NoTies(geo: Geo, j: Id, asOf: int) {
    forall slug :: NoTieAtTop(geo.rows, j, slug, asOf)
  }

  ghost predicate Consistent(geo: Geo, j: Id, asOf: int) { Keyed(geo.rows) && NoTies(geo, j, asOf) }

  // ---- parsing --------------------------------------------------------------------------------------------

  lemma {:induction false} FirstColon(prefix: string, rest: string)
    requires ':' !in prefix
    ensures IndexOf(prefix + ":" + rest, ':') == |prefix|
  {
    if prefix != [] {
      assert (prefix + ":" + rest)[1..] == prefix[1..] + ":" + rest;
      FirstColon(prefix[1..], rest);
    }
  }

  lemma Splits(prefix: string, rest: string)
    requires ':' !in prefix
    ensures var s := prefix + ":" + rest;
      && IndexOf(s, ':') == |prefix| && s[..|prefix|] == prefix && s[|prefix| + 1..] == rest && s != "jurisdiction"
  {
    FirstColon(prefix, rest);
    assert (prefix + ":" + rest)[|prefix|] == ':';
    assert forall i :: 0 <= i < |"jurisdiction"| ==> "jurisdiction"[i] != ':';
  }

  lemma PrintedParses(r: ParsedRef)
    requires Payload(r) != ""
    ensures ParseBaseRef(Printed(r)) == Ok(r)
  {
    match r
    case Jurisdiction =>
    case Seat(slug) => Splits("district", slug);
    case Revision(id) => Splits("revision", id);
    case PresetRef(id) => Splits("region", id);
  }

  lemma ParsedPrints(s: string)
    requires ParseBaseRef(s).Ok?
    ensures s == Printed(ParseBaseRef(s).value) && Payload(ParseBaseRef(s).value) != ""
  {
    var sep := IndexOf(s, ':');
    if s != "jurisdiction" { assert s == s[..sep] + ":" + s[sep + 1..]; }
  }

  /** Parsing accepts a text exactly when it is the printed form of what it returns, with a non-empty payload. */
  lemma ParsesExactly(s: string, r: ParsedRef)
    ensures ParseBaseRef(s) == Ok(r) <==> s == Printed(r) && Payload(r) != ""
  {
    if ParseBaseRef(s) == Ok(r) { ParsedPrints(s); }
    if Payload(r) != "" { PrintedParses(r); }
  }

  // ---- meaning is preserved -----------------------------------------------------------------------------------

  lemma SeatMeaning(geo: Geo, j: Id, asOf: int, slug: Id, p: Point)
    requires Consistent(geo, j, asOf)
    ensures Contains(geo, ResolveBase(geo, j, asOf, Seat(slug)).value, p) <==> InSeat(geo, j, asOf, slug, p)
  {
    SeatLookupAgrees(geo.rows, j, slug, asOf);
    SeatLookupExactly(geo.rows, j, slug, asOf);
    var id := BySlug(geo.rows, j, slug, asOf);
    if id.Some? {
      ForwardIds(geo.rows, j, asOf, 0, id.value);
      BestFacts(geo.rows, j, slug, asOf, |geo.rows|);
    }
  }

  lemma JurisdictionMeaning(geo: Geo, j: Id, asOf: int, p: Point)
    requires Keyed(geo.rows)
    ensures Contains(geo, ForJurisdiction(geo, j, asOf), p) <==> InForce(geo, j, asOf, p)
  {
    forall id { ForwardIds(geo.rows, j, asOf, 0, id); }
  }

  lemma BaseMeaning(geo: Geo, j: Id, asOf: int, text: string, p: Point)
    requires Consistent(geo, j, asOf) && Resolve(geo, j, asOf, Base(text)).Ok?
    ensures Contains(geo, Resolve(geo, j, asOf, Base(text)).value, p) <==> Denotes(geo, j, asOf, Base(text), p)
  {
    match ParseBaseRef(text).value
    case Jurisdiction => JurisdictionMeaning(geo, j, asOf, p);
    case Seat(slug) => SeatMeaning(geo, j, asOf, slug, p);
    case Revision(id) =>
    case PresetRef(id) =>
  }

  lemma {:induction false} FlatKeeps(children: seq<Region>, id: Id)
    requires forall i :: 0 <= i < |children| ==> children[i].Districts?
    ensures id in FlatIds(children) <==> exists i :: 0 <= i < |children| && id in children[i].ids
  {
    if children != [] {
      FlatKeeps(children[..|children| - 1], id);
      if i :| 0 <= i < |children| && id in children[i].ids {
        assert i < |children| - 1 ==> children[..|children| - 1][i] == children[i];
      }
    }
  }

  /** The collapse keeps meaning: the flat union contains what some child contains. */
  lemma CollapseMeaning(geo: Geo, j: Id, asOf: int, children: seq<Region>, p: Point)
    ensures Contains(geo, Combine(geo, j, asOf, Or, children), p) <==>
      exists i :: 0 <= i < |children| && Contains(geo, children[i], p)
  {
    if forall i :: 0 <= i < |children| ==> children[i].Districts? {
      DedupeKeeps(FlatIds(children));
      forall id { FlatKeeps(children, id); }
      var ids := Dedupe(FlatIds(children));
      if DistrictsContain(geo.rows, ids, p) {
        var k :| 0 <= k < |geo.rows| && geo.rows[k].id in ids && p in geo.rows[k].geom;
        var i :| 0 <= i < |children| && geo.rows[k].id in children[i].ids;
        assert Contains(geo, children[i], p);
      }
      if i :| 0 <= i < |children| && Contains(geo, children[i], p) {
        var k :| 0 <= k < |geo.rows| && geo.rows[k].id in children[i].ids && p in geo.rows[k].geom;
        assert geo.rows[k].id in ids;
      }
    }
  }

  /** Resolution succeeds exactly on well-named trees, and child by child. */
  lemma {:induction false} FirstOk(geo: Geo, j: Id, asOf: int, ref: RegionRef, n: nat)
    requires ref.Union? && n <= |ref.refs|
    ensures var r := ResolveFirst(geo, j, asOf, ref, n);
      && (r.Ok? <==> forall i :: 0 <= i < n ==> Resolve(geo, j, asOf, ref.refs[i]).Ok?)
      && (r.Ok? ==> forall i :: 0 <= i < n ==> r.value[i] == Resolve(geo, j, asOf, ref.refs[i]).value)
  {
    if n > 0 {
      FirstOk(geo, j, asOf, ref, n - 1);
      var first, last := ResolveFirst(geo, j, asOf, ref, n - 1), Resolve(geo, j, asOf, ref.refs[n - 1]);
      assert first.Ok? && last.Ok? ==> ResolveFirst(geo, j, asOf, ref, n).value == first.value + [last.value];
    }
  }

  lemma {:induction false} ResolvesExactly(geo: Geo, j: Id, asOf: int, ref: RegionRef)
    ensures Resolve(geo, j, asOf, ref).Ok? <==> WellNamed(geo, ref)
  {
    if ref.Union? {
      FirstOk(geo, j, asOf, ref, |ref.refs|);
      forall i | 0 <= i < |ref.refs| ensures Resolve(geo, j, asOf, ref.refs[i]).Ok? <==> WellNamed(geo, ref.refs[i]) {
        ResolvesExactly(geo, j, asOf, ref.refs[i]);
      }
    }
  }

  /** The resolved region contains a point exactly when the reference denotes it. */
  lemma {:induction false} MeaningPreserved(geo: Geo, j: Id, asOf: int, ref: RegionRef, p: Point)
    requires Consistent(geo, j, asOf) && Resolve(geo, j, asOf, ref).Ok?
    ensures Contains(geo, Resolve(geo, j, asOf, ref).value, p) <==> Denotes(geo, j, asOf, ref, p)
  {
    match ref
    case Base(text) => BaseMeaning(geo, j, asOf, text, p);
    case Union(op, refs) =>
      FirstOk(geo, j, asOf, ref, |refs|);
      var children := ResolveFirst(geo, j, asOf, ref, |refs|).value;
      forall i | 0 <= i < |refs| ensures Contains(geo, children[i], p) <==> Denotes(geo, j, asOf, refs[i], p) {
        MeaningPreserved(geo, j, asOf, refs[i], p);
      }
      CombineMeaning(geo, j, asOf, op, refs, children, p);
  }

  /** Combining children that mean what their references denote means what the union denotes. */
  lemma CombineMeaning(geo: Geo, j: Id, asOf: int, op: Op, refs: seq<RegionRef>, children: seq<Region>, p: Point)
    requires Keyed(geo.rows) && |children| == |refs|
    requires forall i :: 0 <= i < |refs| ==> (Contains(geo, children[i], p) <==> Denotes(geo, j, asOf, refs[i], p))
    ensures Contains(geo, Combine(geo, j, asOf, op, children), p) <==> Denotes(geo, j, asOf, Union(op, refs), p)
  {
    match op
    case Or => CollapseMeaning(geo, j, asOf, children, p);
    case And =>
    case Not => JurisdictionMeaning(geo, j, asOf, p);
  }

  // ---- emptiness ------------------------------------------------------------------------------------------------

  /** Every negation in the tree has its bound. */
  ghost predicate Bounded(r: Region) {
    r.Composite? ==>
      && (r.op.Not? ==> r.bound.Some? && Bounded(r.bound.value))
      && forall i :: 0 <= i < |r.children| ==> Bounded(r.children[i])
  }

  lemma {:induction false} EmptyContainsNothing(geo: Geo, r: Region, p: Point)
    requires Bounded(r) && IsEmpty(r)
    ensures !Contains(geo, r, p)
  {
    if r.Composite? {
      forall i | 0 <= i < |r.children| && IsEmpty(r.children[i]) ensures !Contains(geo, r.children[i], p) {
        EmptyContainsNothing(geo, r.children[i], p);
      }
      if r.op.Not? { EmptyContainsNothing(geo, r.bound.value, p); }
    }
  }

  lemma {:induction false} ResolvedIsBounded(geo: Geo, j: Id, asOf: int, ref: RegionRef)
    requires Resolve(geo, j, asOf, ref).Ok?
    ensures Bounded(Resolve(geo, j, asOf, ref).value)
  {
    if ref.Union? {
      FirstOk(geo, j, asOf, ref, |ref.refs|);
      forall i | 0 <= i < |ref.refs| { ResolvedIsBounded(geo, j, asOf, ref.refs[i]); }
    }
  }

  /** A region the resolver built and calls empty denotes no point. */
  lemma EmptyDenotesNothing(geo: Geo, j: Id, asOf: int, ref: RegionRef, p: Point)
    requires Consistent(geo, j, asOf) && Resolve(geo, j, asOf, ref).Ok? && IsEmpty(Resolve(geo, j, asOf, ref).value)
    ensures !Denotes(geo, j, asOf, ref, p)
  {
    ResolvedIsBounded(geo, j, asOf, ref);
    EmptyContainsNothing(geo, Resolve(geo, j, asOf, ref).value, p);
    MeaningPreserved(geo, j, asOf, ref, p);
  }

  /** The jurisdiction a resolved region belongs to: that of the request, but for a preset its own, and the global one
    * for a revision named like a preset. */
  lemma RegionBelongsTo(geo: Geo, j: Id, asOf: int, ref: RegionRef)
    requires Resolve(geo, j, asOf, ref).Ok?
    ensures Resolve(geo, j, asOf, ref).value.jurisdiction ==
      match ref
      case Union(_, _) => j
      case Base(text) =>
        match ParseBaseRef(text)
        case Ok(PresetRef(id)) => if id in geo.presets then geo.presets[id].jurisdiction else "oursay-global"
        case _ => j
  {
  }

  // ---- the older id list ---------------------------------------------------------------------------------------

  lemma PinnedResolves(geo: Geo, j: Id, asOf: int, id: Id)
    ensures Resolve(geo, j, asOf, Base(Printed(Revision(id)))) ==
      if id != "" then Ok(Districts(j, [id])) else Err(InvalidRef(Printed(Revision(id))))
  {
    if id != "" { PrintedParses(Revision(id)); } else { Splits("revision", ""); }
  }

  lemma PinnedChildren(geo: Geo, j: Id, asOf: int, ids: seq<Id>)
    ensures var ref := RefFromDistrictIds(ids); var r := ResolveFirst(geo, j, asOf, ref, |ids|);
      && (r.Ok? <==> "" !in ids)
      && (r.Ok? ==> forall i :: 0 <= i < |ids| ==> r.value[i] == Districts(j, [ids[i]]))
  {
    var ref := RefFromDistrictIds(ids);
    FirstOk(geo, j, asOf, ref, |ids|);
    forall i | 0 <= i < |ids|
      ensures Resolve(geo, j, asOf, ref.refs[i]).Ok? <==> ids[i] != ""
      ensures ids[i] != "" ==> Resolve(geo, j, asOf, ref.refs[i]).value == Districts(j, [ids[i]])
    {
      PinnedResolves(geo, j, asOf, ids[i]);
    }
  }

  /** An id list resolves exactly when no id is empty, to the duplicate-free union of the same revisions. */
  lemma LegacyListResolves(geo: Geo, j: Id, asOf: int, ids: seq<Id>)
    ensures Resolve(geo, j, asOf, RefFromDistrictIds(ids)).Ok? <==> "" !in ids
    ensures "" !in ids ==> Resolve(geo, j, asOf, RefFromDistrictIds(ids)) == Ok(Districts(j, Dedupe(ids)))
  {
    PinnedChildren(geo, j, asOf, ids);
    var r := ResolveFirst(geo, j, asOf, RefFromDistrictIds(ids), |ids|);
    if r.Ok? { FlatSingles(r.value, j, ids); }
  }

  lemma {:induction false} FlatSingles(children: seq<Region>, j: Id, ids: seq<Id>)
    requires |children| == |ids| && forall i :: 0 <= i < |ids| ==> children[i] == Districts(j, [ids[i]])
    ensures FlatIds(children) == ids
  {
    if ids != [] {
      FlatSingles(children[..|ids| - 1], j, ids[..|ids| - 1]);
      assert ids == ids[..|ids| - 1] + [ids[|ids| - 1]];
    }
  }

  // ---- later revisions -----------------------------------------------------------------------------------------

  ghost predicate Mentions(geo: Geo, ref: RegionRef, id: Id) {
    match ref
    case Base(text) =>
      (match ParseBaseRef(text)
       case Ok(Revision(named)) => named == id
       case Ok(PresetRef(named)) =>
         named == id || (named in geo.presets && geo.presets[named].districtIds.Some?
             && id in geo.presets[named].districtIds.value)
       case _ => false)
    case Union(_, refs) => exists i :: 0 <= i < |refs| && Mentions(geo, refs[i], id)
  }

  function Added(geo: Geo, d: District): Geo { geo.(rows := geo.rows + [d]) }

  lemma {:induction false} LaterMeaning(geo: Geo, d: District, j: Id, asOf: int, ref: RegionRef, p: Point)
    requires d.effective > asOf && !Mentions(geo, ref, d.id)
    ensures Denotes(Added(geo, d), j, asOf, ref, p) <==> Denotes(geo, j, asOf, ref, p)
    ensures WellNamed(Added(geo, d), ref) <==> WellNamed(geo, ref)
  {
    var more := Added(geo, d);
    forall i | 0 <= i < |geo.rows| ensures Picked(more.rows, j, asOf, i) <==> Picked(geo.rows, j, asOf, i) {
      PickedKept(geo.rows, d, j, asOf, i);
    }
    assert !Picked(more.rows, j, asOf, |geo.rows|);
    assert InForce(more, j, asOf, p) <==> InForce(geo, j, asOf, p);
    if ref.Union? {
      forall i | 0 <= i < |ref.refs|
        ensures Denotes(more, j, asOf, ref.refs[i], p) <==> Denotes(geo, j, asOf, ref.refs[i], p)
        ensures WellNamed(more, ref.refs[i]) <==> WellNamed(geo, ref.refs[i])
      {
        LaterMeaning(geo, d, j, asOf, ref.refs[i], p);
      }
    } else {
      LaterBase(geo, d, j, asOf, ref.text, p);
    }
  }

  lemma LaterBase(geo: Geo, d: District, j: Id, asOf: int, text: string, p: Point)
    requires d.effective > asOf && !Mentions(geo, Base(text), d.id)
    ensures Denotes(Added(geo, d), j, asOf, Base(text), p) <==> Denotes(geo, j, asOf, Base(text), p)
    ensures WellNamed(Added(geo, d), Base(text)) <==> WellNamed(geo, Base(text))
  {
    var more := Added(geo, d);
    forall i | 0 <= i < |geo.rows| ensures Picked(more.rows, j, asOf, i) <==> Picked(geo.rows, j, asOf, i) {
      PickedKept(geo.rows, d, j, asOf, i);
    }
    forall id | id != d.id
      ensures InRevision(more, id, p) <==> InRevision(geo, id, p)
      ensures DistrictExists(more.rows, id) <==> DistrictExists(geo.rows, id)
    {
      assert forall i :: 0 <= i < |geo.rows| ==> more.rows[i] == geo.rows[i];
    }
  }

  lemma TiesKept(geo: Geo, d: District, j: Id, asOf: int)
    requires Consistent(geo, j, asOf) && d.effective > asOf && !DistrictExists(geo.rows, d.id) && d.id != ""
    ensures Consistent(Added(geo, d), j, asOf)
  {
    var more := Added(geo, d);
    forall slug ensures NoTieAtTop(more.rows, j, slug, asOf) {
      forall i, k | Tied(more.rows, j, slug, asOf, i, k)
        ensures exists m ::
          0 <= m < |more.rows| && Eligible(more.rows[m], j, asOf) && more.rows[m].slug == slug
          && more.rows[m].effective > more.rows[i].effective
      {
        assert Tied(geo.rows, j, slug, asOf, i, k);
        assert NoTieAtTop(geo.rows, j, slug, asOf);
        var m :| 0 <= m < |geo.rows| && Eligible(geo.rows[m], j, asOf) && geo.rows[m].slug == slug
            && geo.rows[m].effective > geo.rows[i].effective;
        assert more.rows[m] == geo.rows[m];
      }
    }
  }

  /** A fresh revision dated after `asOf` changes neither whether a reference resolves nor which points it has. */
  lemma LaterRevisionChangesNoRegion(geo: Geo, d: District, j: Id, asOf: int, ref: RegionRef, p: Point)
    requires Consistent(geo, j, asOf) && d.effective > asOf && !DistrictExists(geo.rows, d.id) && d.id != ""
    requires !Mentions(geo, ref, d.id)
    ensures var before, after := Resolve(geo, j, asOf, ref), Resolve(Added(geo, d), j, asOf, ref);
      && (after.Ok? <==> before.Ok?)
      && (after.Ok? ==> (Contains(Added(geo, d), after.value, p) <==> Contains(geo, before.value, p)))
  {
    TiesKept(geo, d, j, asOf);
    LaterMeaning(geo, d, j, asOf, ref, p);
    ResolvesExactly(geo, j, asOf, ref);
    ResolvesExactly(Added(geo, d), j, asOf, ref);
    if WellNamed(geo, ref) {
      MeaningPreserved(geo, j, asOf, ref, p);
      MeaningPreserved(Added(geo, d), j, asOf, ref, p);
    }
  }

  // ---- scopes --------------------------------------------------------------------------------------------------

  /** An id list stands for the points of its revisions. */
  lemma PinnedDenotes(geo: Geo, j: Id, asOf: int, ids: seq<Id>, p: Point)
    requires "" !in ids
    ensures Denotes(geo, j, asOf, RefFromDistrictIds(ids), p) <==> exists id :: id in ids && InRevision(geo, id, p)
  {
    var ref := RefFromDistrictIds(ids);
    forall i | 0 <= i < |ids| ensures Denotes(geo, j, asOf, ref.refs[i], p) <==> InRevision(geo, ids[i], p) {
      PrintedParses(Revision(ids[i]));
    }
    if id :| id in ids && InRevision(geo, id, p) {
      var i :| 0 <= i < |ids| && ids[i] == id;
      assert Denotes(geo, j, asOf, ref.refs[i], p);
    }
  }

  /** The points a scope stands for. A declared stake goes before the older id list; the empty text declares the whole
    * jurisdiction, as does an empty list. */
  ghost predicate ScopeDenotes(geo: Geo, input: ScopeInput, p: Point) {
    match input.scope
    case WholeJurisdiction => InForce(geo, input.jurisdiction, input.asOf, p)
    case ImpactedRegion =>
      if input.appliesToRegion.Some? && input.appliesToRegion.value != Base("") then
        Denotes(geo, input.jurisdiction, input.asOf, input.appliesToRegion.value, p)
      else if input.appliesToRegion == None && input.appliesToDistrictIds.Some?
        && input.appliesToDistrictIds.value != []
      then exists id :: id in input.appliesToDistrictIds.value && InRevision(geo, id, p)
      else InForce(geo, input.jurisdiction, input.asOf, p)
    case MyDistrict => input.viewerDistrictId.Some? && InRevision(geo, input.viewerDistrictId.value, p)
    case AllPublic => true
  }

  /** What a scope names can be looked up. */
  ghost predicate ScopeWellNamed(geo: Geo, input: ScopeInput) {
    input.scope == ImpactedRegion ==>
      match input.appliesToRegion
      case Some(ref) => ref == Base("") || WellNamed(geo, ref)
      case None => input.appliesToDistrictIds.Some? ==> "" !in input.appliesToDistrictIds.value
  }

  /** A scope compiles exactly if what it names can be looked up. It then filters by exactly the points it stands for,
    * and filters nothing exactly if it is public, or the viewer's district and they have none. */
  lemma ScopeMeaning(geo: Geo, input: ScopeInput, p: Point)
    requires Consistent(geo, input.jurisdiction, input.asOf)
    ensures CompileScope(geo, input).Ok? <==> ScopeWellNamed(geo, input)
    ensures CompileScope(geo, input).Ok? ==>
      var r := CompileScope(geo, input).value;
      && (r.Some? ==> (Contains(geo, r.value, p) <==> ScopeDenotes(geo, input, p)))
      && (r.None? <==>
           || input.scope == AllPublic
           || (input.scope == MyDistrict && (input.viewerDistrictId == None || input.viewerDistrictId == Some(""))))
  {
    JurisdictionMeaning(geo, input.jurisdiction, input.asOf, p);
    if input.scope.ImpactedRegion? && Stake(input).Some? { StakeMeaning(geo, input, p); }
  }

  lemma StakeMeaning(geo: Geo, input: ScopeInput, p: Point)
    requires Consistent(geo, input.jurisdiction, input.asOf) && input.scope.ImpactedRegion? && Stake(input).Some?
    ensures CompileScope(geo, input).Ok? <==> ScopeWellNamed(geo, input)
    ensures CompileScope(geo, input).Ok? ==>
      && CompileScope(geo, input).value.Some?
      && (Contains(geo, CompileScope(geo, input).value.value, p) <==> ScopeDenotes(geo, input, p))
  {
    var (j, asOf, ref) := (input.jurisdiction, input.asOf, Stake(input).value);
    ResolvesExactly(geo, j, asOf, ref);
    if Resolve(geo, j, asOf, ref).Ok? { MeaningPreserved(geo, j, asOf, ref, p); }
    if input.appliesToRegion.None? {
      var ids := input.appliesToDistrictIds.value;
      LegacyListResolves(geo, j, asOf, ids);
      if "" !in ids { PinnedDenotes(geo, j, asOf, ids, p); }
    }
  }
}
