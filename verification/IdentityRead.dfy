/** Viewer-dependent author resolution with per-request memos. The store, the boundary set and the clock are frozen for
  * the request: `Db` says what each read returns. */
module IdentityRead {
  import opened Wrappers
  import opened FirstOccurrences

  /** User ids are UUIDs, so they hold no colon. */
  type UserId = s: string | ':' !in s witness ""
  type Id = string
  type Point = int

  datatype Visibility = Public | IdVerified | MyJurisdiction | MyDistrict | AllOfficials | MyOfficials | Anonymous
  datatype Tier = Unverified | IdentityVerified | ResidencyVerified | ElectoralValidated
  datatype Relation = NoRelation | Home | Affected | InJurisdiction

  /** One jurisdiction membership; an official may represent a seat. */
  datatype Membership = Membership(jurisdiction: Id, official: bool, represents: Id)

  /** What the reads behind an account's facts return. An empty text stands for an absent seat. */
  datatype Account = Account(
    handle: string,
    displayName: string,
    iconType: string,
    visibility: Visibility,
    tier: Tier,
    memberships: seq<Membership>,
    platformRoles: seq<string>,
    mediaBodyIds: seq<Id>,
    point: Option<Point>)

  datatype Link = Link(userId: UserId, personaName: string)

  datatype Facts = Facts(
    handle: string,
    displayName: string,
    iconType: string,
    accountVisibility: Visibility,
    tier: Tier,
    officialIn: set<Id>,
    platformRoles: seq<string>,
    mediaBodyIds: seq<Id>,
    homeDistricts: seq<Id>)

  /** The frozen reads: who owns a persona key, stored persona names, the rows of an account, thread overrides, the
    * key of a user in a thread, the registered jurisdictions, the seat at a point, a jurisdiction's seats and the
    * bodies it recognizes. */
  datatype Db = Db(
    owner: Id -> Option<UserId>,
    storedPersona: Id -> Option<string>,
    derivedPersona: Id -> string,
    account: UserId -> Account,
    jurisdictions: seq<Id>,
    seatAt: (Id, Point) -> Id,
    threadVisibility: (UserId, Id) -> Option<Visibility>,
    keyOf: (UserId, Id) -> Option<Id>,
    seats: Id -> seq<Id>,
    recognized: Id -> seq<Id>)

  datatype Viewer = Viewer(userId: Option<UserId>, kycRank: nat, homeDistricts: seq<Id>, officialIn: set<Id>)

  datatype Context = Context(threadId: Id, jurisdiction: Id, affectedDistricts: seq<Id>)

  datatype Identity = Identity(
    display: string,
    handle: Option<string>,
    isPersona: bool,
    isSelf: bool,
    seed: string,
    iconType: Option<string>,
    threadId: Id,
    seenByOthersAs: Option<string>,
    visibility: Option<Visibility>)

  datatype Author = Author(
    author: string,
    handle: string,
    identity: Identity,
    geo: Relation,
    tier: Tier,
    official: bool,
    platformRoles: seq<string>,
    mediaMark: bool,
    mediaAccredited: bool)

  datatype MentionRow = MentionRow(userId: Option<UserId>, threadId: Id, reservedLabel: string)
  datatype MentionKind = Reserved | PersonaKind | Profile
  datatype Mention = Mention(display: string, kind: MentionKind, isSelf: bool)

  // ---- memo-free resolution -----------------------------------------------------------------------------------------

  /** The seat an official represents in a jurisdiction; the last membership counts. */
  function Represented(ms: seq<Membership>, j: Id): Id {
    if ms == [] then ""
    else
      var m := ms[|ms| - 1];
      if m.official && m.represents != "" && m.jurisdiction == j then m.represents else Represented(ms[..|ms| - 1], j)
  }

  /** The home seat of an account in one jurisdiction, or the empty text: the represented seat, else the seat of the
    * residence. */
  function HomeIn(db: Db, a: Account, j: Id): Id {
    if Represented(a.memberships, j) != "" then Represented(a.memberships, j)
    else if a.point.Some? then db.seatAt(j, a.point.value)
    else ""
  }

  function HomesIn(db: Db, a: Account, js: seq<Id>): seq<Id> {
    if js == [] then []
    else
      var home := HomeIn(db, a, js[|js| - 1]);
      HomesIn(db, a, js[..|js| - 1]) + if home == "" then [] else [home]
  }

  lemma NextHome(db: Db, a: Account, i: nat)
    requires i < |db.jurisdictions|
    ensures var js, home := db.jurisdictions, HomeIn(db, a, db.jurisdictions[i]);
      var homes := Dedupe(HomesIn(db, a, js[..i]));
      Dedupe(HomesIn(db, a, js[..i + 1])) == if home != "" && home !in homes then homes + [home] else homes
  {
    var home := HomeIn(db, a, db.jurisdictions[i]);
    var before := HomesIn(db, a, db.jurisdictions[..i]);
    HomesSnoc(db, a, db.jurisdictions, i);
    NextKept(before, home);
  }

  lemma HomesSnoc(db: Db, a: Account, js: seq<Id>, i: nat)
    requires i < |js|
    ensures HomesIn(db, a, js[..i + 1]) == HomesIn(db, a, js[..i]) + if HomeIn(db, a, js[i]) == "" then []
      else [HomeIn(db, a, js[i])]
  {
    assert js[..i + 1][..i] == js[..i] && js[..i + 1][i] == js[i];
  }

  lemma NextKept(before: seq<Id>, home: Id)
    ensures var kept := Dedupe(before);
      Dedupe(before + if home == "" then [] else [home]) == if home != "" && home !in kept then kept + [home] else kept
  {
    DedupeSnoc(before, home);
    DedupeKeeps(before);
    assert before + [] == before;
  }

  function OfficialIn(a: Account): set<Id> { set m | m in a.memberships && m.official :: m.jurisdiction }

  function FactsIn(db: Db, user: UserId): Facts {
    var a := db.account(user);
    Facts(a.handle, a.displayName, a.iconType, a.visibility, a.tier,
          OfficialIn(a), a.platformRoles, a.mediaBodyIds,
          Dedupe(HomesIn(db, a, db.jurisdictions)))
  }

  function LinkIn(db: Db, key: Id): Option<Link> {
    match db.owner(key)
    case None => None
    case Some(user) =>
      Some(Link(user, if db.storedPersona(key).Some? then db.storedPersona(key).value else db.derivedPersona(key)))
  }

  function EffectiveIn(db: Db, user: UserId, thread: Id): Visibility {
    match db.threadVisibility(user, thread)
    case Some(v) => v
    case None => FactsIn(db, user).accountVisibility
  }

  predicate Overlaps(a: seq<Id>, b: seq<Id>) { exists i :: 0 <= i < |a| && a[i] in b }

  predicate IsSelf(v: Viewer, user: UserId) { v.userId == Some(user) && user != "" }

  predicate IsRevealed(v: Viewer, visibility: Visibility, districts: seq<Id>) {
    match visibility
    case Public => true
    case IdVerified => v.kycRank >= 1
    case MyJurisdiction => v.kycRank >= 2 && (|districts| == 0 || |v.homeDistricts| > 0)
    case MyDistrict => v.kycRank >= 2 && Overlaps(districts, v.homeDistricts)
    case AllOfficials => v.officialIn != {}
    case MyOfficials => v.officialIn != {} && Overlaps(districts, v.homeDistricts)
    case Anonymous => false
  }

  predicate JurisdictionWide(affected: seq<Id>, seats: seq<Id>) {
    |affected| == 0 || (|seats| > 0 && forall i :: 0 <= i < |seats| ==> seats[i] in affected)
  }

  function Geo(v: Viewer, districts: seq<Id>, ctx: Context, seats: seq<Id>): Relation {
    if |districts| == 0 then NoRelation
    else if v.kycRank >= 2 && |seats| > 0
        && exists i :: 0 <= i < |districts| && districts[i] in v.homeDistricts && districts[i] in seats
      then Home
    else if JurisdictionWide(ctx.affectedDistricts, seats) then
      if Overlaps(districts, seats) then Affected else NoRelation
    else if Overlaps(districts, ctx.affectedDistricts) then Affected
    else if Overlaps(districts, seats) then InJurisdiction
    else NoRelation
  }

  function PersonaOf(name: string, thread: Id): Identity { Identity(name, None, true, false, name, None, thread, None,
        None) }

  function Unlinked(persona: string, ctx: Context): Author {
    Author(persona, persona, PersonaOf(persona, ctx.threadId), NoRelation, Unverified, false, [], false, false)
  }

  function AuthorOf(v: Viewer, link: Link, facts: Facts, effective: Visibility, ctx: Context, geo: Relation,
        recognized: seq<Id>): Author {
    var mediaMark := |facts.mediaBodyIds| > 0;
    var rest := Author("", "", PersonaOf("", ""), geo, facts.tier, ctx.jurisdiction in facts.officialIn,
        facts.platformRoles, mediaMark, mediaMark && Overlaps(facts.mediaBodyIds, recognized));
    if IsSelf(v, link.userId) then
      rest.(author := facts.displayName, handle := facts.handle,
            identity := Identity(facts.displayName, Some(facts.handle), false, true, facts.handle,
                Some(facts.iconType), ctx.threadId,
                                 if effective.Public? then None else Some(link.personaName), Some(effective)))
    else if IsRevealed(v, effective, facts.homeDistricts) then
      rest.(author := facts.displayName, handle := facts.handle,
            identity := Identity(facts.displayName, Some(facts.handle), false, false, facts.handle,
                Some(facts.iconType), ctx.threadId, None, None))
    else rest.(author := link.personaName, handle := link.personaName,
        identity := PersonaOf(link.personaName, ctx.threadId))
  }

  function AuthorIn(db: Db, v: Viewer, key: Id, ctx: Context): Author {
    match LinkIn(db, key)
    case None => Unlinked(db.derivedPersona(key), ctx)
    case Some(link) =>
      var facts := FactsIn(db, link.userId);
      AuthorOf(v, link, facts, EffectiveIn(db, link.userId, ctx.threadId), ctx,
               Geo(v, facts.homeDistricts, ctx, db.seats(ctx.jurisdiction)), db.recognized(ctx.jurisdiction))
  }

  predicate ThreadRevealedIn(db: Db, v: Viewer, user: UserId, thread: Id) {
    IsSelf(v, user) || IsRevealed(v, EffectiveIn(db, user, thread), FactsIn(db, user).homeDistricts)
  }

  predicate ProfileVisibleIn(db: Db, v: Viewer, user: UserId) {
    IsSelf(v, user) || FactsIn(db, user).officialIn != {}
        || IsRevealed(v, FactsIn(db, user).accountVisibility, FactsIn(db, user).homeDistricts)
  }

  function MentionIn(db: Db, v: Viewer, row: MentionRow, ctx: Context): Mention {
    if row.userId.None? || row.userId.value == "" then Mention("Someone", Reserved, false)
    else
      match db.keyOf(row.userId.value, row.threadId)
      case None => Mention(row.reservedLabel, Reserved, false)
      case Some(key) => MentionOf(AuthorIn(db, v, key, ctx.(threadId := row.threadId)))
  }

  function MentionOf(a: Author): Mention {
    if a.identity.isPersona then Mention(a.identity.display, PersonaKind, a.identity.isSelf)
    else Mention(if a.identity.handle.Some? then a.identity.handle.value else a.handle, Profile, a.identity.isSelf)
  }

  // ---- the per-request memos ----------------------------------------------------------------------------------------

  function MemoKey(user: string, thread: string): string { user + "::" + thread }

  lemma {:induction false} ColonSplits(u1: string, t1: string, u2: string, t2: string)
    requires ':' !in u1 && ':' !in u2 && MemoKey(u1, t1) == MemoKey(u2, t2)
    ensures u1 == u2 && t1 == t2
  {
    var k := MemoKey(u1, t1);
    assert k == MemoKey(u2, t2);
    assert k[|u1|] == ':' && k[|u2|] == ':';
    assert forall i :: 0 <= i < |u1| ==> k[i] == u1[i];
    assert forall i :: 0 <= i < |u2| ==> k[i] == u2[i];
    assert |u1| == |u2|;
    assert k[..|u1|] == u1 && k[..|u2|] == u2;
    assert k[|u1| + 2..] == t1 && k[|u2| + 2..] == t2;
  }

  /** Ids with colons would share keys. */
  lemma ColonsCollide()
    ensures MemoKey("a::b", "c") == MemoKey("a", "b::c")
  {
  }

  class ReadResolution {
    const db: Db
    const viewer: Viewer
    var links: map<Id, Option<Link>>
    var facts: map<UserId, Facts>
    var threadVis: map<string, Option<Visibility>>
    var jurDistricts: map<Id, seq<Id>>

    constructor (db: Db, viewer: Viewer)
      ensures Valid() && this.db == db && this.viewer == viewer
    {
      this.db, this.viewer := db, viewer;
      links, facts, threadVis, jurDistricts := map[], map[], map[], map[];
    }

    /** Every memo holds what the store would return. */
    ghost predicate Valid()
      reads this
    {
      && (forall k :: k in links ==> links[k] == LinkIn(db, k))
      && (forall u :: u in facts ==> facts[u] == FactsIn(db, u))
      && (forall u: UserId, t :: MemoKey(u, t) in threadVis ==> threadVis[MemoKey(u, t)] == db.threadVisibility(u, t))
      && (forall j :: j in jurDistricts ==> jurDistricts[j] == db.seats(j))
    }

    method LinkOf(key: Id) returns (link: Option<Link>)
      requires Valid()
      modifies this
      ensures Valid() && link == LinkIn(db, key)
    {
      if key in links { return links[key]; }
      var owner := db.owner(key);
      link := None;
      if owner.Some? {
        var stored := db.storedPersona(key);
        link := Some(Link(owner.value, if stored.Some? then stored.value else db.derivedPersona(key)));
      }
      links := links[key := link];
    }

    method HomeDistricts(a: Account) returns (homes: seq<Id>)
      ensures homes == Dedupe(HomesIn(db, a, db.jurisdictions))
    {
      homes := [];
      for i := 0 to |db.jurisdictions|
        invariant homes == Dedupe(HomesIn(db, a, db.jurisdictions[..i]))
      {
        NextHome(db, a, i);
        var j := db.jurisdictions[i];
        var represented := Represented(a.memberships, j);
        var home := if represented != "" then represented else if a.point.Some? then db.seatAt(j, a.point.value)
            else "";
        if home != "" && home !in homes { homes := homes + [home]; }
      }
      assert db.jurisdictions[..|db.jurisdictions|] == db.jurisdictions;
    }

    method FactsOf(user: UserId) returns (f: Facts)
      requires Valid()
      modifies this
      ensures Valid() && f == FactsIn(db, user)
    {
      if user in facts { return facts[user]; }
      var a := db.account(user);
      var homes := HomeDistricts(a);
      f := Facts(a.handle, a.displayName, a.iconType, a.visibility, a.tier, OfficialIn(a), a.platformRoles,
          a.mediaBodyIds, homes);
      facts := facts[user := f];
    }

    method EffectiveVisibility(user: UserId, thread: Id, f: Facts) returns (v: Visibility)
      requires Valid() && f == FactsIn(db, user)
      modifies this
      ensures Valid() && v == EffectiveIn(db, user, thread)
    {
      var key := MemoKey(user, thread);
      if key !in threadVis {
        threadVis := threadVis[key := db.threadVisibility(user, thread)];
        forall u: UserId, t | MemoKey(u, t) == key ensures u == user && t == thread { ColonSplits(u, t, user, thread); }
      }
      var override := threadVis[key];
      v := if override.Some? then override.value else f.accountVisibility;
    }

    method DistrictsOf(j: Id) returns (slugs: seq<Id>)
      requires Valid()
      modifies this
      ensures Valid() && slugs == db.seats(j)
    {
      if j in jurDistricts { return jurDistricts[j]; }
      slugs := db.seats(j);
      jurDistricts := jurDistricts[j := slugs];
    }

    method AuthorGeoRelation(districts: seq<Id>, ctx: Context) returns (r: Relation)
      requires Valid()
      modifies this
      ensures Valid() && r == Geo(viewer, districts, ctx, db.seats(ctx.jurisdiction))
    {
      if |districts| == 0 { return NoRelation; }
      var seats := DistrictsOf(ctx.jurisdiction);
      if viewer.kycRank >= 2 && |seats| > 0
        && exists i :: 0 <= i < |districts| && districts[i] in viewer.homeDistricts && districts[i] in seats
      {
        return Home;
      }
      var inJurisdiction := Overlaps(districts, seats);
      if JurisdictionWide(ctx.affectedDistricts, seats) { return if inJurisdiction then Affected else NoRelation; }
      if Overlaps(districts, ctx.affectedDistricts) { return Affected; }
      r := if inJurisdiction then InJurisdiction else NoRelation;
    }

    method ResolveAuthor(key: Id, ctx: Context) returns (a: Author)
      requires Valid()
      modifies this
      ensures Valid() && a == AuthorIn(db, viewer, key, ctx)
    {
      var link := LinkOf(key);
      if link.None? { return Unlinked(db.derivedPersona(key), ctx); }
      var f := FactsOf(link.value.userId);
      var geo := AuthorGeoRelation(f.homeDistricts, ctx);
      var effective := EffectiveVisibility(link.value.userId, ctx.threadId, f);
      var persona := link.value.personaName;
      var mediaMark := |f.mediaBodyIds| > 0;
      var identity;
      if viewer.userId == Some(link.value.userId) && link.value.userId != "" {
        identity := Identity(f.displayName, Some(f.handle), false, true, f.handle, Some(f.iconType), ctx.threadId,
            if effective == Public then None else Some(persona), Some(effective));
      } else if IsRevealed(viewer, effective, f.homeDistricts) {
        identity := Identity(f.displayName, Some(f.handle), false, false, f.handle, Some(f.iconType), ctx.threadId,
            None, None);
      } else {
        identity := Identity(persona, None, true, false, persona, None, ctx.threadId, None, None);
      }
      var recognized := db.recognized(ctx.jurisdiction);
      a := Author(identity.display, if identity.isPersona then persona else f.handle, identity, geo, f.tier,
          ctx.jurisdiction in f.officialIn, f.platformRoles, mediaMark,
          mediaMark && exists i :: 0 <= i < |f.mediaBodyIds| && f.mediaBodyIds[i] in recognized);
    }

    method ResolveMention(row: MentionRow, ctx: Context) returns (m: Mention)
      requires Valid()
      modifies this
      ensures Valid() && m == MentionIn(db, viewer, row, ctx)
    {
      if row.userId.None? || row.userId.value == "" { return Mention("Someone", Reserved, false); }
      var key := db.keyOf(row.userId.value, row.threadId);
      if key.None? { return Mention(row.reservedLabel, Reserved, false); }
      var a := ResolveAuthor(key.value, ctx.(threadId := row.threadId));
      if a.identity.isPersona { return Mention(a.identity.display, PersonaKind, a.identity.isSelf); }
      var handle := if a.identity.handle.Some? then a.identity.handle.value else a.handle;
      m := Mention(handle, Profile, a.identity.isSelf);
    }

    method ProfileVisible(user: UserId) returns (ok: bool)
      requires Valid()
      modifies this
      ensures Valid() && ok == ProfileVisibleIn(db, viewer, user)
    {
      if IsSelf(viewer, user) { return true; }
      var f := FactsOf(user);
      if f.officialIn != {} { return true; }
      ok := IsRevealed(viewer, f.accountVisibility, f.homeDistricts);
    }

    method ThreadRevealed(user: UserId, thread: Id) returns (ok: bool)
      requires Valid()
      modifies this
      ensures Valid() && ok == ThreadRevealedIn(db, viewer, user, thread)
    {
      if IsSelf(viewer, user) { return true; }
      var f := FactsOf(user);
      var effective := EffectiveVisibility(user, thread, f);
      ok := IsRevealed(viewer, effective, f.homeDistricts);
    }
  }

  // ---- the two reveal paths agree -----------------------------------------------------------------------------------

  /** An author is served as a persona exactly when the thread does not reveal its owner; an unlinked key always is. */
  lemma RevealPathsAgree(db: Db, v: Viewer, key: Id, ctx: Context)
    ensures AuthorIn(db, v, key, ctx).identity.isPersona <==>
      match db.owner(key) case None => true case Some(user) => !ThreadRevealedIn(db, v, user, ctx.threadId)
  {
  }

  /** The setting that counts for a user in a thread: the thread's override, else the account's own. */
  function SettingOf(db: Db, user: UserId, thread: Id): Visibility {
    if db.threadVisibility(user, thread).Some? then db.threadVisibility(user, thread).value
    else db.account(user).visibility
  }

  /** The persona name of a key: the stored one, else the derived one. */
  function PersonaName(db: Db, key: Id): string {
    if db.storedPersona(key).Some? then db.storedPersona(key).value else db.derivedPersona(key)
  }

  /** A name that tells nothing: the persona's, everywhere, with no handle and no icon. */
  predicate OnlyPersona(a: Author, name: string) {
    && a.author == a.handle == a.identity.display == a.identity.seed == name && a.identity.isPersona
    && a.identity.handle == None && a.identity.iconType == None
  }

  /** The account's own name, handle and icon, each in its place. */
  predicate OwnName(a: Author, account: Account) {
    && a.author == a.identity.display == account.displayName && a.handle == a.identity.seed == account.handle
    && a.identity.handle == Some(account.handle) && a.identity.iconType == Some(account.iconType)
    && !a.identity.isPersona
  }

  /** Marks that follow the account whether or not its name is shown. */
  predicate OwnMarks(db: Db, a: Author, account: Account, jurisdiction: Id) {
    && a.tier == account.tier && a.platformRoles == account.platformRoles
    && (a.official <==> exists m | m in account.memberships :: m.official && m.jurisdiction == jurisdiction)
    && (a.mediaMark <==> account.mediaBodyIds != [])
    && (a.mediaAccredited <==> exists b | b in account.mediaBodyIds :: b in db.recognized(jurisdiction))
  }

  /** The viewer meets every requirement of the setting: a rank, an office, a seat shared with the author. */
  ghost predicate Admits(v: Viewer, setting: Visibility, homes: seq<Id>) {
    && setting != Anonymous
    && (setting == IdVerified ==> v.kycRank >= 1)
    && (setting == MyJurisdiction || setting == MyDistrict ==> v.kycRank >= 2)
    && (setting == MyJurisdiction ==> homes == [] || v.homeDistricts != [])
    && (setting == AllOfficials || setting == MyOfficials ==> exists j :: j in v.officialIn)
    && (setting == MyDistrict || setting == MyOfficials ==> exists d :: d in homes && d in v.homeDistricts)
  }

  /** A thread reveals its users to themselves and to those their setting admits; a profile is visible to its user, to
    * everybody if the user holds an office, and to those the account's own setting admits. */
  lemma RevealsExactly(db: Db, v: Viewer, user: UserId, thread: Id)
    ensures var self := v.userId == Some(user) && user != ""; var homes := FactsIn(db, user).homeDistricts;
      && (ThreadRevealedIn(db, v, user, thread) <==> self || Admits(v, SettingOf(db, user, thread), homes))
      && (ProfileVisibleIn(db, v, user) <==>
           || self || (exists m :: m in db.account(user).memberships && m.official)
           || Admits(v, db.account(user).visibility, homes))
  {
    var homes, a := FactsIn(db, user).homeDistricts, db.account(user);
    AdmitsExactly(v, SettingOf(db, user, thread), homes);
    AdmitsExactly(v, a.visibility, homes);
    if m :| m in a.memberships && m.official { assert m.jurisdiction in OfficialIn(a); }
    if OfficialIn(a) != {} { var j :| j in OfficialIn(a); }
  }

  lemma AdmitsExactly(v: Viewer, setting: Visibility, homes: seq<Id>)
    ensures IsRevealed(v, setting, homes) <==> Admits(v, setting, homes)
  {
    if d :| d in homes && d in v.homeDistricts { var i :| 0 <= i < |homes| && homes[i] == d; }
    if Overlaps(homes, v.homeDistricts) { var i :| 0 <= i < |homes| && homes[i] in v.homeDistricts; }
    if v.officialIn != {} { var j :| j in v.officialIn; }
  }

  /** What an author shows, on the stored account: its own name exactly to its owner and to those the setting admits,
    * else nothing but the persona's; the marks of the account in either case; and the self hint to its owner alone. An
    * unlinked key has no account, no marks and no relation. */
  lemma AuthorShows(db: Db, v: Viewer, key: Id, ctx: Context)
    ensures var a := AuthorIn(db, v, key, ctx);
      a.identity.threadId == ctx.threadId &&
      match db.owner(key)
      case None =>
        && OnlyPersona(a, db.derivedPersona(key)) && !a.identity.isSelf && a.geo == NoRelation && a.tier == Unverified
        && !a.official && a.platformRoles == [] && !a.mediaMark && !a.mediaAccredited
        && a.identity.visibility == None && a.identity.seenByOthersAs == None
      case Some(user) =>
        var account, setting := db.account(user), SettingOf(db, user, ctx.threadId);
        && OwnMarks(db, a, account, ctx.jurisdiction)
        && (if a.identity.isPersona then OnlyPersona(a, PersonaName(db, key)) else OwnName(a, account))
        && (a.identity.isPersona <==>
             !a.identity.isSelf && !Admits(v, setting, FactsIn(db, user).homeDistricts))
        && (a.identity.isSelf <==> v.userId == Some(user) && user != "")
        && (a.identity.visibility == if a.identity.isSelf then Some(setting) else None)
        && (a.identity.seenByOthersAs ==
              if a.identity.isSelf && setting != Public then Some(PersonaName(db, key)) else None)
  {
    if db.owner(key).Some? {
      MarksShown(db, v, key, ctx, db.owner(key).value);
      RevealsExactly(db, v, db.owner(key).value, ctx.threadId);
    }
  }

  lemma MarksShown(db: Db, v: Viewer, key: Id, ctx: Context, user: UserId)
    requires db.owner(key) == Some(user)
    ensures OwnMarks(db, AuthorIn(db, v, key, ctx), db.account(user), ctx.jurisdiction)
  {
    OfficialExactly(db.account(user), ctx.jurisdiction);
    SharesExactly(db.account(user).mediaBodyIds, db.recognized(ctx.jurisdiction));
  }

  lemma OfficialExactly(a: Account, j: Id)
    ensures j in OfficialIn(a) <==> exists m | m in a.memberships :: m.official && m.jurisdiction == j
  {
    if m :| m in a.memberships && m.official && m.jurisdiction == j { assert j in OfficialIn(a); }
  }

  /** What a mention shows: nobody, the reserved label, the persona's name, or the handle of the account. */
  lemma MentionShows(db: Db, v: Viewer, row: MentionRow, ctx: Context)
    ensures var m := MentionIn(db, v, row, ctx);
      if row.userId.None? || row.userId.value == "" then m == Mention("Someone", Reserved, false)
      else match db.keyOf(row.userId.value, row.threadId)
        case None => m == Mention(row.reservedLabel, Reserved, false)
        case Some(key) =>
          match db.owner(key)
          case None => m == Mention(db.derivedPersona(key), PersonaKind, false)
          case Some(user) =>
            && m.display == (if m.kind.Profile? then db.account(user).handle else PersonaName(db, key))
            && m.kind != Reserved && (m.isSelf <==> v.userId == Some(user) && user != "")
  {
    if row.userId.Some? && db.keyOf(row.userId.value, row.threadId).Some? {
      AuthorShows(db, v, db.keyOf(row.userId.value, row.threadId).value, ctx.(threadId := row.threadId));
    }
  }

  /** A mention links to a profile exactly when its user has a key in the thread and the thread reveals that user. */
  lemma MentionRevealsExactly(db: Db, v: Viewer, row: MentionRow, ctx: Context)
    requires forall u, t :: db.keyOf(u, t).Some? ==> db.owner(db.keyOf(u, t).value) == Some(u)
    ensures MentionIn(db, v, row, ctx).kind.Profile? <==>
      && row.userId.Some? && row.userId.value != "" && db.keyOf(row.userId.value, row.threadId).Some?
      && ThreadRevealedIn(db, v, row.userId.value, row.threadId)
    ensures MentionIn(db, v, row, ctx).isSelf ==> MentionIn(db, v, row, ctx).kind.Profile?
  {
  }

  /** The reads two stores share when they differ only in the accounts' names. */
  ghost predicate SameButNames(a: Db, b: Db) {
    && a.(account := b.account) == b
    && forall u :: SameAccountButNames(a.account(u), b.account(u))
  }

  predicate SameAccountButNames(x: Account, y: Account) {
    x.(handle := "", displayName := "", iconType := "") == y.(handle := "", displayName := "", iconType := "")
  }

  lemma {:induction false} HomesIgnoreNames(a: Db, b: Db, x: Account, y: Account, js: seq<Id>)
    requires a.(account := b.account) == b && SameAccountButNames(x, y)
    ensures HomesIn(a, x, js) == HomesIn(b, y, js)
  {
    assert x.memberships == y.memberships && x.point == y.point;
    if js != [] { HomesIgnoreNames(a, b, x, y, js[..|js| - 1]); }
  }

  /** A persona leaks no name: it carries no handle, and renaming every account changes nothing in it. */
  lemma PersonaHidesNames(a: Db, b: Db, v: Viewer, key: Id, ctx: Context)
    requires SameButNames(a, b) && AuthorIn(a, v, key, ctx).identity.isPersona
    ensures AuthorIn(b, v, key, ctx) == AuthorIn(a, v, key, ctx)
    ensures AuthorIn(a, v, key, ctx).identity.handle.None? && AuthorIn(a, v, key, ctx).identity.iconType.None?
  {
    if a.owner(key).Some? {
      var user := a.owner(key).value;
      var x, y := a.account(user), b.account(user);
      assert SameAccountButNames(x, y);
      assert x.memberships == y.memberships;
      HomesIgnoreNames(a, b, x, y, a.jurisdictions);
    }
  }

  /** The membership gives its holder a seat in the jurisdiction. */
  predicate SitsIn(m: Membership, j: Id) { m.official && m.jurisdiction == j && m.represents != "" }

  /** The seat of an official is that of the last membership that gives one. */
  lemma {:induction false} LastSeatCounts(ms: seq<Membership>, j: Id)
    ensures Represented(ms, j) == "" <==> forall m :: m in ms ==> !SitsIn(m, j)
    ensures forall i ::
      0 <= i < |ms| && SitsIn(ms[i], j) && (forall k :: i < k < |ms| ==> !SitsIn(ms[k], j)) ==>
      Represented(ms, j) == ms[i].represents
  {
    if ms != [] {
      var init, m := ms[..|ms| - 1], ms[|ms| - 1];
      assert ms == init + [m];
      LastSeatCounts(init, j);
      if SitsIn(m, j) { assert m in ms; } else { assert forall x :: x in ms <==> x in init || x == m; }
      forall i | 0 <= i < |init| && SitsIn(ms[i], j) && (forall k :: i < k < |ms| ==> !SitsIn(ms[k], j))
        ensures Represented(ms, j) == ms[i].represents
      {
        assert init[i] == ms[i] && !SitsIn(m, j);
        assert forall k :: i < k < |init| ==> init[k] == ms[k];
      }
    }
  }

  /** An official's home in a jurisdiction is the seat they represent there, wherever they live; and an account has at
    * most one home seat per jurisdiction, each listed once. */
  lemma HomesAreSeats(db: Db, user: UserId, j: Id, point: Option<Point>)
    requires j in db.jurisdictions
    ensures var a := db.account(user); var homes := FactsIn(db, user).homeDistricts;
      && (Represented(a.memberships, j) != "" ==>
          HomeIn(db, a.(point := point), j) == HomeIn(db, a, j) == Represented(a.memberships, j))
      && (HomeIn(db, a, j) != "" ==> HomeIn(db, a, j) in homes)
      && (forall x, y :: 0 <= x < y < |homes| ==> homes[x] != homes[y])
      && (forall s :: s in homes ==> s != "" && exists k :: k in db.jurisdictions && HomeIn(db, a, k) == s)
  {
    var a := db.account(user);
    DedupeKeeps(HomesIn(db, a, db.jurisdictions));
    forall s { HomesHave(db, a, db.jurisdictions, s); }
  }

  lemma {:induction false} HomesHave(db: Db, a: Account, js: seq<Id>, s: Id)
    ensures s in HomesIn(db, a, js) <==> s != "" && exists k :: k in js && HomeIn(db, a, k) == s
  {
    if js != [] {
      var init, last := js[..|js| - 1], js[|js| - 1];
      assert js == init + [last];
      HomesHave(db, a, init, s);
    }
  }

  /** The audiences nest: whoever sees an author under a narrower setting sees them under the wider one. */
  lemma AudiencesNest(v: Viewer, districts: seq<Id>)
    ensures !IsRevealed(v, Anonymous, districts) && IsRevealed(v, Public, districts)
    ensures IsRevealed(v, MyDistrict, districts) ==> IsRevealed(v, MyJurisdiction, districts)
    ensures IsRevealed(v, MyJurisdiction, districts) ==> IsRevealed(v, IdVerified, districts)
    ensures IsRevealed(v, MyOfficials, districts) ==> IsRevealed(v, AllOfficials, districts)
    ensures v.officialIn == {} && v.kycRank == 0 ==> forall s :: IsRevealed(v, s, districts) ==> s.Public?
  {
  }

  /** A thread override wins outright in either direction; without one the thread shows no more than the profile, and
    * exactly as much for an account that holds no official role. */
  lemma OverrideSevers(db: Db, v: Viewer, user: UserId, thread: Id)
    requires !IsSelf(v, user)
    ensures db.threadVisibility(user, thread) == Some(Anonymous) ==> !ThreadRevealedIn(db, v, user, thread)
    ensures db.threadVisibility(user, thread) == Some(Public) ==> ThreadRevealedIn(db, v, user, thread)
    ensures db.threadVisibility(user, thread).None? ==>
      (ProfileVisibleIn(db, v, user) <==> ThreadRevealedIn(db, v, user, thread) || FactsIn(db, user).officialIn != {})
  {
  }

  /** The rungs of an author's relation to a post. Home is a seat the viewer, the author and the jurisdiction share.
    * Below it, a post about its whole jurisdiction, which names no district or all of them, affects every author with a
    * seat there and knows no other relation; any other post affects those with an affected seat, and the rest of the
    * jurisdiction's authors are in the jurisdiction. */
  lemma GeoRungs(v: Viewer, districts: seq<Id>, ctx: Context, seats: seq<Id>)
    ensures var geo, affected := Geo(v, districts, ctx, seats), ctx.affectedDistricts;
      var whole := affected == [] || (seats != [] && forall s :: s in seats ==> s in affected);
      var inside, hit := exists s :: s in districts && s in seats, exists s :: s in districts && s in affected;
      && (geo.Home? <==> v.kycRank >= 2 && exists s :: s in districts && s in v.homeDistricts && s in seats)
      && (geo.Affected? <==> !geo.Home? && if whole then inside else hit)
      && (geo.InJurisdiction? <==> !geo.Home? && !whole && !hit && inside)
  {
    SharesExactly(districts, seats);
    SharesExactly(districts, ctx.affectedDistricts);
    assert (forall i :: 0 <= i < |seats| ==> seats[i] in ctx.affectedDistricts) <==>
      forall s :: s in seats ==> s in ctx.affectedDistricts;
  }

  lemma SharesExactly(a: seq<Id>, b: seq<Id>)
    ensures Overlaps(a, b) <==> exists s :: s in a && s in b
  {
    if s :| s in a && s in b { var i :| 0 <= i < |a| && a[i] == s; }
  }
}
