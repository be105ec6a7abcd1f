/** The district table and its effective-dated queries. A district's geometry is an abstract set of points, and
  * a point is inside a union when it is inside some member. */
module EffectiveDating {
  import opened Wrappers

  type Point = int
  type Id = string

  /** One boundary revision. `effective` counts days. */
  datatype District = District(id: Id, jurisdiction: Id, slug: Id, effective: int, geom: set<Point>)

  /** A stored region preset: its own geometry, or a list of revisions. */
  datatype Preset = Preset(jurisdiction: Id, districtIds: Option<seq<Id>>, geom: Option<set<Point>>)

  datatype Geo = Geo(rows: seq<District>, presets: map<Id, Preset>)

  /** Ids are a primary key, and no id is the empty string. */
  ghost predicate Keyed(rows: seq<District>) {
    && (forall i, j :: 0 <= i < j < |rows| ==> rows[i].id != rows[j].id)
    && forall d :: d in rows ==> d.id != ""
  }

  predicate Eligible(d: District, j: Id, asOf: int) { d.jurisdiction == j && d.effective <= asOf }

  /** Row `i` is the one that DISTINCT ON (district_slug) ORDER BY effective_date DESC keeps for its seat. Which
    * of several rows with one date it keeps is up to the database; here, the first. */
  predicate Picked(rows: seq<District>, j: Id, asOf: int, i: nat)
    requires i < |rows|
  {
    && Eligible(rows[i], j, asOf)
    && forall k :: 0 <= k < |rows| && k != i && Eligible(rows[k], j, asOf) && rows[k].slug == rows[i].slug ==>
         rows[k].effective < rows[i].effective || (rows[k].effective == rows[i].effective && i < k)
  }

  /** The boundary set in force: one revision per seat. */
  function DistrictIdsAsOf(rows: seq<District>, j: Id, asOf: int): seq<Id> {
    IdsFrom(rows, j, asOf, 0)
  }

  function IdsFrom(rows: seq<District>, j: Id, asOf: int, i: nat): seq<Id>
    requires i <= |rows|
    decreases |rows| - i
  {
    if i == |rows| then []
    else if Picked(rows, j, asOf, i) then [rows[i].id] + IdsFrom(rows, j, asOf, i + 1)
    else IdsFrom(rows, j, asOf, i + 1)
  }

  /** One seat's revision in force: ORDER BY effective_date DESC LIMIT 1, keeping the last of equal dates. */
  method DistrictIdBySlugAsOf(rows: seq<District>, j: Id, slug: Id, asOf: int) returns (id: Option<Id>)
    ensures id == BySlug(rows, j, slug, asOf)
  {
    id := None;
    var best: Option<District> := None;
    for i := 0 to |rows|
      invariant best == BestBefore(rows, j, slug, asOf, i)
    {
      var d := rows[i];
      if d.jurisdiction == j && d.slug == slug && d.effective <= asOf
        && (best.None? || best.value.effective <= d.effective)
      {
        best := Some(d);
      }
    }
    if best.Some? { id := Some(best.value.id); }
  }

  function BestBefore(rows: seq<District>, j: Id, slug: Id, asOf: int, n: nat): Option<District>
    requires n <= |rows|
  {
    if n == 0 then None
    else
      var best, d := BestBefore(rows, j, slug, asOf, n - 1), rows[n - 1];
      if Eligible(d, j, asOf) && d.slug == slug && (best.None? || best.value.effective <= d.effective) then Some(d)
      else best
  }

  function BySlug(rows: seq<District>, j: Id, slug: Id, asOf: int): Option<Id> {
    var best := BestBefore(rows, j, slug, asOf, |rows|);
    if best.Some? then Some(best.value.id) else None
  }

  /** Reverse lookup: the revision of the in-force set that contains the point. */
  function DistrictContaining(rows: seq<District>, j: Id, p: Point, asOf: int): Option<Id> {
    ContainingFrom(rows, j, p, asOf, 0)
  }

  function ContainingFrom(rows: seq<District>, j: Id, p: Point, asOf: int, i: nat): Option<Id>
    requires i <= |rows|
    decreases |rows| - i
  {
    if i == |rows| then None
    else if Picked(rows, j, asOf, i) && p in rows[i].geom then Some(rows[i].id)
    else ContainingFrom(rows, j, p, asOf, i + 1)
  }

  /** Containment in the union of some revisions; no revisions contain nothing. */
  predicate DistrictsContain(rows: seq<District>, ids: seq<Id>, p: Point) {
    exists i :: 0 <= i < |rows| && rows[i].id in ids && p in rows[i].geom
  }

  // ---- the queries agree --------------------------------------------------------------------------------

  lemma {:induction false} ForwardIds(rows: seq<District>, j: Id, asOf: int, i: nat, id: Id)
    requires i <= |rows|
    ensures id in IdsFrom(rows, j, asOf, i) <==>
      exists k :: i <= k < |rows| && Picked(rows, j, asOf, k) && rows[k].id == id
    decreases |rows| - i
  {
    if i < |rows| { ForwardIds(rows, j, asOf, i + 1, id); }
  }

  lemma {:induction false} ContainingFacts(rows: seq<District>, j: Id, p: Point, asOf: int, i: nat)
    requires i <= |rows|
    ensures var r := ContainingFrom(rows, j, p, asOf, i);
      && (r.Some? <==> exists k :: i <= k < |rows| && Picked(rows, j, asOf, k) && p in rows[k].geom)
      && (r.Some? ==>
          exists k :: i <= k < |rows| && Picked(rows, j, asOf, k) && p in rows[k].geom && rows[k].id == r.value)
    decreases |rows| - i
  {
    if i < |rows| { ContainingFacts(rows, j, p, asOf, i + 1); }
  }

  /** Row `i` is in force: of the jurisdiction's revisions of its seat dated by then none is later, and none of its own
    * date comes before it in the table. */
  predicate InForceAt(rows: seq<District>, j: Id, asOf: int, i: nat)
    requires i < |rows|
  {
    && rows[i].jurisdiction == j && rows[i].effective <= asOf
    && forall k | 0 <= k < |rows| && rows[k].jurisdiction == j && rows[k].slug == rows[i].slug ::
      rows[k].effective < rows[i].effective || asOf < rows[k].effective
      || (rows[k].effective == rows[i].effective && i <= k)
  }

  /** The boundary set lists exactly the revisions in force, and the reverse lookup finds exactly one that is in force
    * and has the point. */
  lemma SetExactly(rows: seq<District>, j: Id, asOf: int, p: Point)
    ensures forall id ::
      id in DistrictIdsAsOf(rows, j, asOf) <==>
        exists i :: 0 <= i < |rows| && InForceAt(rows, j, asOf, i) && rows[i].id == id
    ensures match DistrictContaining(rows, j, p, asOf)
      case None => forall i :: 0 <= i < |rows| && InForceAt(rows, j, asOf, i) ==> p !in rows[i].geom
      case Some(id) =>
        exists i :: 0 <= i < |rows| && InForceAt(rows, j, asOf, i) && rows[i].id == id && p in rows[i].geom
  {
    ContainingFacts(rows, j, p, asOf, 0);
    forall id { ForwardIds(rows, j, asOf, 0, id); }
    forall i: nat | i < |rows| ensures InForceAt(rows, j, asOf, i) <==> Picked(rows, j, asOf, i) {
      assert forall k :: 0 <= k < |rows| ==>
        (Eligible(rows[k], j, asOf) <==> rows[k].jurisdiction == j && rows[k].effective <= asOf);
    }
  }

  /** Reverse lookup finds a district exactly when the in-force set contains the point, and what it finds is in
    * that set and contains the point. Both queries use one tie rule here; where a seat's latest date is not unique,
    * SQL leaves open whether they do. */
  lemma ReverseAgreesWithForward(rows: seq<District>, j: Id, p: Point, asOf: int)
    requires Keyed(rows)
    ensures var r := DistrictContaining(rows, j, p, asOf);
      && (r.Some? <==> DistrictsContain(rows, DistrictIdsAsOf(rows, j, asOf), p))
      && (r.Some? ==> r.value in DistrictIdsAsOf(rows, j, asOf) && DistrictsContain(rows, [r.value], p))
  {
    ContainingFacts(rows, j, p, asOf, 0);
    var r := DistrictContaining(rows, j, p, asOf);
    forall id { ForwardIds(rows, j, asOf, 0, id); }
    if r.Some? {
      var k :| 0 <= k < |rows| && Picked(rows, j, asOf, k) && p in rows[k].geom && rows[k].id == r.value;
      assert rows[k].id in DistrictIdsAsOf(rows, j, asOf);
    }
  }

  lemma {:induction false} BestFacts(rows: seq<District>, j: Id, slug: Id, asOf: int, n: nat)
    requires n <= |rows|
    ensures var b := BestBefore(rows, j, slug, asOf, n);
      && (b.None? <==> forall k :: 0 <= k < n ==> !(Eligible(rows[k], j, asOf) && rows[k].slug == slug))
      && (b.Some? ==> exists i :: 0 <= i < n && rows[i] == b.value && LastLatest(rows, j, slug, asOf, n, i))
  {
    if n > 0 {
      BestFacts(rows, j, slug, asOf, n - 1);
      var b := BestBefore(rows, j, slug, asOf, n);
      if b.Some? && b != Some(rows[n - 1]) {
        var i :| 0 <= i < n - 1 && rows[i] == b.value && LastLatest(rows, j, slug, asOf, n - 1, i);
        assert LastLatest(rows, j, slug, asOf, n, i);
      } else if b.Some? {
        assert LastLatest(rows, j, slug, asOf, n, n - 1);
      }
    }
  }

  predicate LastLatest(rows: seq<District>, j: Id, slug: Id, asOf: int, n: nat, i: nat)
    requires i < n <= |rows|
  {
    && Eligible(rows[i], j, asOf) && rows[i].slug == slug
    && forall k :: 0 <= k < n && k != i && Eligible(rows[k], j, asOf) && rows[k].slug == slug ==>
         rows[k].effective < rows[i].effective || (rows[k].effective == rows[i].effective && k < i)
  }

  predicate Tied(rows: seq<District>, j: Id, slug: Id, asOf: int, i: int, k: int) {
    && 0 <= i < k < |rows| && Eligible(rows[i], j, asOf) && Eligible(rows[k], j, asOf)
    && rows[i].slug == slug && rows[k].slug == slug && rows[i].effective == rows[k].effective
  }

  /** No two eligible revisions of the seat share its latest date. */
  ghost predicate NoTieAtTop(rows: seq<District>, j: Id, slug: Id, asOf: int) {
    forall i, k :: Tied(rows, j, slug, asOf, i, k) ==>
        exists m :: 0 <= m < |rows| && Eligible(rows[m], j, asOf) && rows[m].slug == slug
            && rows[m].effective > rows[i].effective
  }

  lemma NotTied(rows: seq<District>, j: Id, slug: Id, asOf: int, i: nat, k: nat)
    requires k < i < |rows| && LastLatest(rows, j, slug, asOf, |rows|, i) && NoTieAtTop(rows, j, slug, asOf)
    ensures !Tied(rows, j, slug, asOf, k, i)
  {
  }

  /** A latest revision of the seat dated by then. */
  predicate IsLatest(rows: seq<District>, j: Id, slug: Id, asOf: int, d: District) {
    && d.jurisdiction == j && d.slug == slug && d.effective <= asOf
    && forall o | o in rows && o.jurisdiction == j && o.slug == slug ::
      asOf < o.effective || o.effective <= d.effective
  }

  /** The single-seat lookup finds a latest revision of the seat if there is one. */
  lemma SeatLookupExactly(rows: seq<District>, j: Id, slug: Id, asOf: int)
    ensures match BySlug(rows, j, slug, asOf)
      case None => forall d :: d in rows && d.jurisdiction == j && d.slug == slug ==> asOf < d.effective
      case Some(id) => exists d :: d in rows && d.id == id && IsLatest(rows, j, slug, asOf, d)
  {
    BestFacts(rows, j, slug, asOf, |rows|);
  }

  /** The single-seat lookup and the forward set name the same revision of a seat exactly when the seat's latest date is
    * not shared; with a tie the two queries are free to differ. */
  lemma SeatLookupAgrees(rows: seq<District>, j: Id, slug: Id, asOf: int)
    requires Keyed(rows)
    ensures BySlug(rows, j, slug, asOf).Some? ==>
      (BySlug(rows, j, slug, asOf).value in DistrictIdsAsOf(rows, j, asOf) <==> NoTieAtTop(rows, j, slug, asOf))
  {
    BestFacts(rows, j, slug, asOf, |rows|);
    var b := BestBefore(rows, j, slug, asOf, |rows|);
    if b.Some? {
      var i :| 0 <= i < |rows| && rows[i] == b.value && LastLatest(rows, j, slug, asOf, |rows|, i);
      ForwardIds(rows, j, asOf, 0, b.value.id);
      if NoTieAtTop(rows, j, slug, asOf) {
        forall k | 0 <= k < i ensures !Tied(rows, j, slug, asOf, k, i) { NotTied(rows, j, slug, asOf, i, k); }
        assert forall k :: 0 <= k < i && Eligible(rows[k], j, asOf) && rows[k].slug == slug ==>
          rows[k].effective != rows[i].effective || Tied(rows, j, slug, asOf, k, i);
        assert Picked(rows, j, asOf, i);
      }
      if b.value.id in DistrictIdsAsOf(rows, j, asOf) {
        var k :| 0 <= k < |rows| && Picked(rows, j, asOf, k) && rows[k].id == b.value.id;
        assert k == i;
        forall a, c | Tied(rows, j, slug, asOf, a, c) ensures rows[i].effective > rows[a].effective {}
      }
    }
  }

  // ---- the table --------------------------------------------------------------------------------------------

  class GeoStore {
    var rows: seq<District>

    ghost predicate Valid()
      reads this
    {
      Keyed(rows)
    }

    constructor ()
      ensures Valid() && rows == []
    {
      rows := [];
    }

    /** Insert a revision, or overwrite the one with its id; every other revision keeps its place. */
    method UpsertDistrict(d: District)
      requires Valid() && d.id != ""
      modifies this
      ensures Valid() && d in rows
      ensures forall r: District :: r.id != d.id ==> (r in rows <==> r in old(rows))
      ensures (forall i :: 0 <= i < |old(rows)| ==> old(rows)[i].id != d.id) ==> rows == old(rows) + [d]
    {
      var i := 0;
      while i < |rows| && rows[i].id != d.id
        invariant 0 <= i <= |rows| && forall k :: 0 <= k < i ==> rows[k].id != d.id
      {
        i := i + 1;
      }
      ghost var before := rows;
      if i < |rows| {
        rows := rows[i := d];
        assert rows[i] == d;
        forall r: District | r.id != d.id ensures r in rows <==> r in before {
          if r in before { var k :| 0 <= k < |before| && before[k] == r; assert rows[k] == r; }
        }
      } else {
        rows := rows + [d];
      }
    }
  }

  // ---- later revisions are invisible ---------------------------------------------------------------------------

  lemma PickedKept(rows: seq<District>, d: District, j: Id, asOf: int, i: nat)
    requires i < |rows| && d.effective > asOf
    ensures Picked(rows + [d], j, asOf, i) <==> Picked(rows, j, asOf, i)
  {
    var more := rows + [d];
    assert forall k :: 0 <= k < |rows| ==> more[k] == rows[k];
    assert !Eligible(more[|rows|], j, asOf);
  }

  lemma {:induction false} LaterIdsInvisible(rows: seq<District>, d: District, j: Id, asOf: int, i: nat)
    requires i <= |rows| && d.effective > asOf
    ensures IdsFrom(rows + [d], j, asOf, i) == IdsFrom(rows, j, asOf, i)
    decreases |rows| - i
  {
    var more := rows + [d];
    if i < |rows| {
      PickedKept(rows, d, j, asOf, i);
      LaterIdsInvisible(rows, d, j, asOf, i + 1);
    } else {
      assert !Picked(more, j, asOf, i);
      assert IdsFrom(more, j, asOf, i + 1) == [];
    }
  }

  lemma {:induction false} LaterContainingInvisible(rows: seq<District>, d: District, j: Id, p: Point, asOf: int,
        i: nat)
    requires i <= |rows| && d.effective > asOf
    ensures ContainingFrom(rows + [d], j, p, asOf, i) == ContainingFrom(rows, j, p, asOf, i)
    decreases |rows| - i
  {
    var more := rows + [d];
    if i < |rows| {
      PickedKept(rows, d, j, asOf, i);
      LaterContainingInvisible(rows, d, j, p, asOf, i + 1);
    } else {
      assert !Picked(more, j, asOf, i);
      assert ContainingFrom(more, j, p, asOf, i + 1) == None;
    }
  }

  lemma {:induction false} LaterSeatInvisible(rows: seq<District>, d: District, j: Id, slug: Id, asOf: int, n: nat)
    requires n <= |rows| && d.effective > asOf
    ensures BestBefore(rows + [d], j, slug, asOf, n) == BestBefore(rows, j, slug, asOf, n)
  {
    if n > 0 { LaterSeatInvisible(rows, d, j, slug, asOf, n - 1); }
  }

  /** Adding a revision dated after `asOf` changes none of the three effective-dated answers at `asOf`. */
  lemma LaterRevisionInvisible(rows: seq<District>, d: District, j: Id, slug: Id, p: Point, asOf: int)
    requires d.effective > asOf
    ensures DistrictIdsAsOf(rows + [d], j, asOf) == DistrictIdsAsOf(rows, j, asOf)
    ensures BySlug(rows + [d], j, slug, asOf) == BySlug(rows, j, slug, asOf)
    ensures DistrictContaining(rows + [d], j, p, asOf) == DistrictContaining(rows, j, p, asOf)
  {
    LaterIdsInvisible(rows, d, j, asOf, 0);
    LaterSeatInvisible(rows, d, j, slug, asOf, |rows|);
    LaterContainingInvisible(rows, d, j, p, asOf, 0);
    assert BestBefore(rows + [d], j, slug, asOf, |rows| + 1) == BestBefore(rows + [d], j, slug, asOf, |rows|);
  }
}
