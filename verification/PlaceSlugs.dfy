/** Which slug a visit's place gets, and which path its document. */
module PlaceSlugs {
  import opened Decimals
  import opened Wrappers

  /** `plainName` is the name as tags compare it: lower case, runs of space
      made one. */
  datatype Place = Place(name: string, plainName: string, gersId: Option<string>, slug: Option<string>)

  predicate SameAs(a: Place, b: Place) {
    a.gersId.Some? && b.gersId.Some? && a.gersId.value == b.gersId.value
  }

  /** One place for the author's purposes: the same GERS id, or, for two
      places by hand, the same name. */
  predicate SamePlace(a: Place, b: Place) {
    SameAs(a, b) || (a.gersId.None? && b.gersId.None? && a.plainName == b.plainName)
  }

  lemma SamePlaceIsEquivalence(a: Place, b: Place, c: Place)
    ensures SamePlace(a, a)
    ensures SamePlace(a, b) ==> SamePlace(b, a)
    ensures SamePlace(a, b) && SamePlace(b, c) ==> SamePlace(a, c)
  {
  }

  /** What makes a place itself: its GERS id, or, by hand, its name. */
  datatype Identity = Gers(id: string) | ByHand(name: string)

  function IdentityOf(p: Place): Identity {
    match p.gersId
    case Some(id) => Gers(id)
    case None => ByHand(p.plainName)
  }

  lemma SamePlaceIff(a: Place, b: Place)
    ensures SamePlace(a, b) <==> IdentityOf(a) == IdentityOf(b)
  {
  }

  // ---- numbered names ----

  function Numbered(base: string, n: nat): string {
    base + "-" + Decimal(n)
  }

  lemma NumberedInjective(base: string, m: nat, n: nat)
    requires Numbered(base, m) == Numbered(base, n)
    ensures m == n
  {
    assert Numbered(base, m)[|base| + 1..] == Decimal(m) && Numbered(base, n)[|base| + 1..] == Decimal(n);
    DecimalInjective(m, n);
  }

  /** The numbered names from 2 up to but not `n`. */
  function Candidates(base: string, n: nat): set<string>
    requires n >= 2
  {
    set k | 2 <= k < n :: Numbered(base, k)
  }

  lemma {:induction false} CandidatesAreMany(base: string, n: nat)
    requires n >= 2
    ensures |Candidates(base, n)| == n - 2
  {
    if n == 2 {
      assert Candidates(base, 2) == {};
    } else {
      CandidatesAreMany(base, n - 1);
      assert Candidates(base, n) == Candidates(base, n - 1) + {Numbered(base, n - 1)};
      if Numbered(base, n - 1) in Candidates(base, n - 1) {
        var k :| 2 <= k < n - 1 && Numbered(base, k) == Numbered(base, n - 1);
        NumberedInjective(base, k, n - 1);
      }
    }
  }

  /** By pigeonhole: no more numbered names can be taken than there are
      names taken. */
  lemma TakenCandidatesBounded(base: string, n: nat, taken: set<string>)
    requires n >= 2 && Candidates(base, n) <= taken
    ensures n - 2 <= |taken|
  {
    CandidatesAreMany(base, n);
    SubsetIsSmaller(Candidates(base, n), taken);
  }

  lemma SubsetIsSmaller<T>(a: set<T>, b: set<T>)
    requires a <= b
    ensures |a| <= |b|
  {
    assert b == a + (b - a);
  }

  // ---- the place's slug ----

  function FirstSlug(others: seq<Place>, place: Place): Option<string> {
    if others == [] then None
    else if SamePlace(others[0], place) && others[0].slug.Some? then others[0].slug
    else FirstSlug(others[1..], place)
  }

  /** The slugs other places hold. */
  function Taken(others: seq<Place>, place: Place): set<string> {
    set o | o in others && !SamePlace(o, place) && o.slug.Some? :: o.slug.value
  }

  function FirstFree(base: string, taken: set<string>, n: nat, last: nat): Option<string>
    decreases last + 1 - n
  {
    if n > last then None
    else if Numbered(base, n) !in taken then Some(Numbered(base, n))
    else FirstFree(base, taken, n + 1, last)
  }

  /** `base` is the slug of the name and `town` that of the town. */
  function PlaceSlug(place: Place, was: Option<Place>, others: seq<Place>, base: string, town: Option<string>): string {
    if was.Some? && SamePlace(was.value, place) && was.value.slug.Some? then was.value.slug.value
    else match FirstSlug(others, place)
      case Some(shared) => shared
      case None =>
        var taken := Taken(others, place);
        if base !in taken then base
        else if town.Some? && base + "-" + town.value !in taken then base + "-" + town.value
        else match FirstFree(base, taken, 2, |taken| + 2)
          case Some(free) => free
          case None => base
  }

  lemma {:induction false} FirstFreeFound(base: string, taken: set<string>, n: nat)
    requires 2 <= n <= |taken| + 3 && Candidates(base, n) <= taken
    ensures FirstFree(base, taken, n, |taken| + 2).Some?
    ensures FirstFree(base, taken, n, |taken| + 2).value !in taken
    decreases |taken| + 3 - n
  {
    TakenCandidatesBounded(base, n, taken);
    if n <= |taken| + 2 && Numbered(base, n) in taken {
      assert Candidates(base, n + 1) == Candidates(base, n) + {Numbered(base, n)};
      FirstFreeFound(base, taken, n + 1);
    }
  }

  lemma {:induction false} FirstSlugOf(others: seq<Place>, place: Place)
    ensures match FirstSlug(others, place)
      case Some(slug) => exists o :: o in others && SamePlace(o, place) && o.slug == Some(slug)
      case None => forall o | o in others && SamePlace(o, place) :: o.slug.None?
  {
    if others != [] && !(SamePlace(others[0], place) && others[0].slug.Some?) {
      FirstSlugOf(others[1..], place);
      assert forall o | o in others :: o == others[0] || o in others[1..];
    }
  }

  /** A slug that is not already the place's own is held by no other place;
      the last resort of reusing the base is never reached. */
  lemma NewSlugIsFree(place: Place, was: Option<Place>, others: seq<Place>, base: string, town: Option<string>)
    requires was.None? || !SamePlace(was.value, place) || was.value.slug.None?
    requires forall o | o in others && SamePlace(o, place) :: o.slug.None?
    ensures PlaceSlug(place, was, others, base, town) !in Taken(others, place)
  {
    FirstSlugOf(others, place);
    assert Candidates(base, 2) == {};
    FirstFreeFound(base, Taken(others, place), 2);
  }

  /** `n` is the least number from 2 with which the name is free. */
  predicate IsLeastFree(base: string, taken: set<string>, n: nat) {
    && n >= 2 && base + "-" + Decimal(n) !in taken
    && forall m | 2 <= m < n :: base + "-" + Decimal(m) in taken
  }

  lemma {:induction false} FirstFreeIsLeast(base: string, taken: set<string>, n: nat, last: nat) returns (k: nat)
    requires FirstFree(base, taken, n, last).Some?
    ensures n <= k <= last && FirstFree(base, taken, n, last) == Some(Numbered(base, k))
    ensures Numbered(base, k) !in taken && forall m | n <= m < k :: Numbered(base, m) in taken
    decreases last + 1 - n
  {
    if Numbered(base, n) in taken {
      k := FirstFreeIsLeast(base, taken, n + 1, last);
    } else {
      k := n;
    }
  }

  /** A place without a slug yet gets that of its name; where another place
      holds that, the town is added; where one holds that too, or there is
      no town, the least number from 2 that is free. */
  lemma NewSlugIs(place: Place, was: Option<Place>, others: seq<Place>, base: string, town: Option<string>)
    requires was.None? || !SamePlace(was.value, place) || was.value.slug.None?
    requires forall o | o in others && SamePlace(o, place) :: o.slug.None?
    ensures var slug, taken := PlaceSlug(place, was, others, base, town), Taken(others, place);
      if base !in taken then slug == base
      else if town.Some? && base + "-" + town.value !in taken then slug == base + "-" + town.value
      else exists n :: IsLeastFree(base, taken, n) && slug == Numbered(base, n)
  {
    var taken := Taken(others, place);
    FirstSlugOf(others, place);
    assert Candidates(base, 2) == {};
    FirstFreeFound(base, taken, 2);
    var k := FirstFreeIsLeast(base, taken, 2, |taken| + 2);
    assert forall m | 2 <= m < k :: Numbered(base, m) == base + "-" + Decimal(m);
    assert IsLeastFree(base, taken, k);
    hide FirstFree;
    hide FirstSlug;
  }

  /** An edit that keeps a slugged place keeps its slug, and so needs no
      listing. */
  lemma KeptPlaceNeedsNoListing(place: Place, was: Place, others: seq<Place>, base: string, town: Option<string>)
    requires SamePlace(was, place) && was.slug.Some?
    ensures PlaceSlug(place, Some(was), [], base, town) == was.slug.value
    ensures PlaceSlug(place, Some(was), others, base, town) == was.slug.value
  {
  }

  // ---- all an author's visits ----

  /** `site` as it is compared, without slashes at its end. */
  datatype Visit = Visit(site: string, place: Place)

  type Visits = map<string, Visit>

  /** Two slugged visits of one site share a slug if and only if they are
      the same place. */
  ghost predicate SlugsName(visits: Visits) {
    forall v, w | v in visits && w in visits && visits[v].site == visits[w].site &&
                  visits[v].place.slug.Some? && visits[w].place.slug.Some? ::
      visits[v].place.slug == visits[w].place.slug <==> SamePlace(visits[v].place, visits[w].place)
  }

  /** What the listing gives: the place of every other visit of the site,
      in any order. */
  ghost predicate ListsOthers(others: seq<Place>, visits: Visits, site: string, editing: Option<string>) {
    && (forall v | v in visits && visits[v].site == site && Some(v) != editing :: visits[v].place in others)
    && (forall o | o in others ::
          exists v :: v in visits && visits[v].site == site && Some(v) != editing && visits[v].place == o)
  }

  function Was(visits: Visits, editing: Option<string>): Option<Place> {
    if editing.Some? && editing.value in visits then Some(visits[editing.value].place) else None
  }

  /** Writing a visit: the draft's place takes the settled slug. */
  function Published(visits: Visits, rkey: string, site: string, place: Place, slug: string): Visits {
    visits[rkey := Visit(site, place.(slug := Some(slug)))]
  }

  /** The new slug against one other visit's. */
  lemma SlugAgainst(visits: Visits, site: string, editing: Option<string>, place: Place, others: seq<Place>,
                    base: string, town: Option<string>, v: string)
    requires SlugsName(visits) && ListsOthers(others, visits, site, editing)
    requires editing.Some? ==> editing.value in visits && visits[editing.value].site == site
    requires v in visits && visits[v].site == site && Some(v) != editing && visits[v].place.slug.Some?
    ensures visits[v].place.slug == Some(PlaceSlug(place, Was(visits, editing), others, base, town))
            <==> SamePlace(visits[v].place, place)
  {
    hide PlaceSlug;
    var was, there := Was(visits, editing), visits[v].place;
    assert there in others;
    if was.Some? && SamePlace(was.value, place) && was.value.slug.Some? {
      KeptPlaceNeedsNoListing(place, was.value, others, base, town);
      SamePlaceIsEquivalence(there, was.value, place);
      SamePlaceIsEquivalence(there, place, was.value);
    } else {
      SharedOrNew(place, was, others, base, town);
      FirstSlugOf(others, place);
      match FirstSlug(others, place)
      case Some(shared) =>
        var o :| o in others && SamePlace(o, place) && o.slug == Some(shared);
        var w :| w in visits && visits[w].site == site && visits[w].place == o;
        SamePlaceIsEquivalence(there, o, place);
        SamePlaceIsEquivalence(there, place, o);
      case None =>
        NewSlugIsFree(place, was, others, base, town);
    }
  }

  /** A place without a kept slug shares that of an earlier visit there. */
  lemma SharedOrNew(place: Place, was: Option<Place>, others: seq<Place>, base: string, town: Option<string>)
    requires was.None? || !SamePlace(was.value, place) || was.value.slug.None?
    ensures FirstSlug(others, place).Some? ==>
              PlaceSlug(place, was, others, base, town) == FirstSlug(others, place).value
  {
  }

  /** Publishing a visit, new or edited, keeps it, whatever the name and the
      town make of a slug. */
  lemma PublishKeepsSlugs(visits: Visits, site: string, editing: Option<string>, rkey: string, place: Place,
                          others: seq<Place>, base: string, town: Option<string>)
    requires SlugsName(visits) && ListsOthers(others, visits, site, editing)
    requires if editing.Some? then editing.value == rkey && rkey in visits && visits[rkey].site == site
             else rkey !in visits
    ensures SlugsName(Published(visits, rkey, site, place, PlaceSlug(place, Was(visits, editing), others, base, town)))
  {
    hide PlaceSlug;
    var slug := PlaceSlug(place, Was(visits, editing), others, base, town);
    var visits' := Published(visits, rkey, site, place, slug);
    forall v, w | v in visits' && w in visits' && visits'[v].site == visits'[w].site &&
                  visits'[v].place.slug.Some? && visits'[w].place.slug.Some?
      ensures visits'[v].place.slug == visits'[w].place.slug <==> SamePlace(visits'[v].place, visits'[w].place)
    {
      if v != rkey && w == rkey {
        SlugAgainst(visits, site, editing, place, others, base, town, v);
      } else if v == rkey && w != rkey {
        SlugAgainst(visits, site, editing, place, others, base, town, w);
        SamePlaceIsEquivalence(visits[w].place, place, place);
        SamePlaceIsEquivalence(place, visits[w].place, place);
      }
    }
  }

  // ---- across an author's sites ----

  /** Two slugged visits, of whichever sites, share a slug if and only if
      they are the same place. */
  ghost predicate SlugsNameAcross(visits: Visits) {
    forall v, w | v in visits && w in visits && visits[v].place.slug.Some? && visits[w].place.slug.Some? ::
      visits[v].place.slug == visits[w].place.slug <==> SamePlace(visits[v].place, visits[w].place)
  }

  /** The site has a slugged visit of this place. */
  ghost predicate SluggedAt(visits: Visits, site: string, place: Place) {
    exists w :: w in visits && visits[w].site == site && visits[w].place.slug.Some? && SamePlace(visits[w].place, place)
  }

  /** The site has one of every place that is slugged anywhere. */
  ghost predicate KnowsAll(visits: Visits, site: string) {
    forall v | v in visits && visits[v].place.slug.Some? :: SluggedAt(visits, site, visits[v].place)
  }

  /** Whatever is first published at the site, slugs tell the author's
      places apart afterwards. */
  ghost predicate FirstVisitsKeep(visits: Visits, rkey: string, site: string, others: seq<Place>) {
    forall place, base, town ::
      SlugsNameAcross(Published(visits, rkey, site, place, PlaceSlug(place, None, others, base, town)))
  }

  /** The listing is of one site: a place slugged only elsewhere has its slug
      given to any place new to the site that has a name like it. */
  lemma SitesShareASlug(visits: Visits, v: string, site: string, place: Place, others: seq<Place>, town: Option<string>)
    requires SlugsNameAcross(visits) && ListsOthers(others, visits, site, None)
    requires v in visits && visits[v].place.slug.Some? && !SluggedAt(visits, site, visits[v].place)
    requires !SluggedAt(visits, site, place)
    ensures PlaceSlug(place, None, others, visits[v].place.slug.value, town) == visits[v].place.slug.value
  {
    FirstSlugOf(others, place);
    forall o | o in others && o.slug.Some?
      ensures o.slug != visits[v].place.slug && !SamePlace(o, place)
    {
      var w :| w in visits && visits[w].site == site && visits[w].place == o;
      assert !SamePlace(visits[w].place, visits[v].place);
    }
  }

  /** A place by its GERS id, one that no visit has. */
  lemma NewPlace(visits: Visits, name: string) returns (place: Place)
    ensures forall v | v in visits :: !SamePlace(visits[v].place, place)
  {
    var ids := set v | v in visits && visits[v].place.gersId.Some? :: visits[v].place.gersId.value;
    assert Candidates("", 2) == {};
    FirstFreeFound("", ids, 2);
    place := Place(name, name, FirstFree("", ids, 2, |ids| + 2), None);
    forall v | v in visits
      ensures !SamePlace(visits[v].place, place)
    {
      assert visits[v].place.gersId.Some? ==> visits[v].place.gersId.value in ids;
    }
  }

  lemma UnknownIsShared(visits: Visits, v: string, rkey: string, site: string, others: seq<Place>)
    requires SlugsNameAcross(visits) && rkey !in visits && ListsOthers(others, visits, site, None)
    requires v in visits && visits[v].place.slug.Some? && !SluggedAt(visits, site, visits[v].place)
    ensures !FirstVisitsKeep(visits, rkey, site, others)
  {
    hide PlaceSlug;
    hide ListsOthers;
    var slug := visits[v].place.slug.value;
    var place := NewPlace(visits, slug);
    SitesShareASlug(visits, v, site, place, others, None);
    var after := Published(visits, rkey, site, place, PlaceSlug(place, None, others, slug, None));
    assert after[rkey].place.slug == after[v].place.slug && !SamePlace(after[v].place, after[rkey].place);
    assert !SlugsNameAcross(after);
  }

  lemma AcrossIsWithin(visits: Visits)
    requires SlugsNameAcross(visits)
    ensures SlugsName(visits)
  {
  }

  /** The new slug against any slugged visit's, at a site that knows all. */
  lemma SlugAgainstAny(visits: Visits, site: string, place: Place, others: seq<Place>, base: string,
                       town: Option<string>, v: string)
    requires SlugsNameAcross(visits) && ListsOthers(others, visits, site, None)
    requires v in visits && visits[v].place.slug.Some? && SluggedAt(visits, site, visits[v].place)
    ensures visits[v].place.slug == Some(PlaceSlug(place, None, others, base, town))
            <==> SamePlace(visits[v].place, place)
  {
    var w :| w in visits && visits[w].site == site && visits[w].place.slug.Some? &&
             SamePlace(visits[w].place, visits[v].place);
    assert visits[w].place.slug == visits[v].place.slug;
    AcrossIsWithin(visits);
    hide *;
    SlugAgainst(visits, site, None, place, others, base, town, w);
    WasNobody(visits);
    SamePlaceIsEquivalence(visits[w].place, visits[v].place, place);
    SamePlaceIsEquivalence(visits[v].place, visits[w].place, place);
  }

  lemma WasNobody(visits: Visits)
    ensures Was(visits, None) == None
  {
  }

  /** A new visit whose slug is right against every other's keeps it. */
  lemma NewAmong(visits: Visits, rkey: string, site: string, place: Place, slug: string)
    requires SlugsNameAcross(visits) && rkey !in visits
    requires forall v | v in visits && visits[v].place.slug.Some? ::
               visits[v].place.slug == Some(slug) <==> SamePlace(visits[v].place, place)
    ensures SlugsNameAcross(Published(visits, rkey, site, place, slug))
  {
    var visits' := Published(visits, rkey, site, place, slug);
    forall v, w | v in visits' && w in visits' && visits'[v].place.slug.Some? && visits'[w].place.slug.Some?
      ensures visits'[v].place.slug == visits'[w].place.slug <==> SamePlace(visits'[v].place, visits'[w].place)
    {
      if v == rkey && w != rkey {
        assert visits[w].place.slug.Some?;
      }
    }
  }

  lemma KnownIsKept(visits: Visits, rkey: string, site: string, place: Place, others: seq<Place>, base: string,
                    town: Option<string>)
    requires SlugsNameAcross(visits) && rkey !in visits && ListsOthers(others, visits, site, None)
    requires KnowsAll(visits, site)
    ensures SlugsNameAcross(Published(visits, rkey, site, place, PlaceSlug(place, None, others, base, town)))
  {
    hide PlaceSlug;
    hide SlugsNameAcross;
    hide ListsOthers;
    hide SluggedAt;
    hide Published;
    hide SamePlace;
    var slug := PlaceSlug(place, None, others, base, town);
    forall v | v in visits && visits[v].place.slug.Some?
      ensures visits[v].place.slug == Some(slug) <==> SamePlace(visits[v].place, place)
    {
      SlugAgainstAny(visits, site, place, others, base, town, v);
    }
    NewAmong(visits, rkey, site, place, slug);
  }

  /** While slugs tell all the author's places apart, first visits at a site
      keep it so, whatever is published, if and only if the site has a
      slugged visit of every place that is slugged anywhere. */
  lemma AcrossSitesIff(visits: Visits, rkey: string, site: string, others: seq<Place>)
    requires SlugsNameAcross(visits) && rkey !in visits && ListsOthers(others, visits, site, None)
    ensures FirstVisitsKeep(visits, rkey, site, others) <==> KnowsAll(visits, site)
  {
    hide PlaceSlug;
    hide ListsOthers;
    hide SlugsNameAcross;
    hide SluggedAt;
    if KnowsAll(visits, site) {
      forall place, base, town
        ensures SlugsNameAcross(Published(visits, rkey, site, place, PlaceSlug(place, None, others, base, town)))
      {
        KnownIsKept(visits, rkey, site, place, others, base, town);
      }
    } else {
      var v :| v in visits && visits[v].place.slug.Some? && !SluggedAt(visits, site, visits[v].place);
      UnknownIsShared(visits, v, rkey, site, others);
    }
  }

  // ---- runs ----

  datatype Change =
    | Publish(rkey: string, site: string, place: Place, others: seq<Place>, base: string, town: Option<string>)
    | Edit(rkey: string, place: Place, others: seq<Place>, base: string, town: Option<string>)
    | Delete(rkey: string)

  /** An edit stays at its site. */
  ghost predicate Allowed(visits: Visits, c: Change) {
    match c
    case Publish(rkey, site, _, others, _, _) => rkey !in visits && ListsOthers(others, visits, site, None)
    case Edit(rkey, _, others, _, _) => rkey in visits && ListsOthers(others, visits, visits[rkey].site, Some(rkey))
    case Delete(_) => true
  }

  function Changed(visits: Visits, c: Change): Visits {
    match c
    case Publish(rkey, site, place, others, base, town) =>
      Published(visits, rkey, site, place, PlaceSlug(place, None, others, base, town))
    case Edit(rkey, place, others, base, town) =>
      if rkey in visits then
        Published(visits, rkey, visits[rkey].site, place, PlaceSlug(place, Was(visits, Some(rkey)), others, base, town))
      else visits
    case Delete(rkey) => visits - {rkey}
  }

  /** An edit changes its own visit alone: the place is the draft's, with the
      slug it had if it is the same place and had one. */
  lemma EditIs(visits: Visits, rkey: string, place: Place, others: seq<Place>, base: string, town: Option<string>)
    requires rkey in visits
    ensures var after := Changed(visits, Edit(rkey, place, others, base, town));
      && after.Keys == visits.Keys && (forall v | v in visits && v != rkey :: after[v] == visits[v])
      && after[rkey].site == visits[rkey].site && after[rkey].place.slug.Some?
      && after[rkey].place == place.(slug := after[rkey].place.slug)
      && (SamePlace(visits[rkey].place, place) && visits[rkey].place.slug.Some? ==>
            after[rkey].place.slug == visits[rkey].place.slug)
  {
    if SamePlace(visits[rkey].place, place) && visits[rkey].place.slug.Some? {
      KeptPlaceNeedsNoListing(place, visits[rkey].place, others, base, town);
    }
    hide PlaceSlug;
  }

  ghost predicate AllAllowed(visits: Visits, changes: seq<Change>)
    decreases |changes|
  {
    changes == [] || (Allowed(visits, changes[0]) && AllAllowed(Changed(visits, changes[0]), changes[1..]))
  }

  ghost function After(visits: Visits, changes: seq<Change>): Visits
    decreases |changes|
  {
    if changes == [] then visits else After(Changed(visits, changes[0]), changes[1..])
  }

  /** Over any run of publishes, edits and deletions, each with the full
      list of its site's others, two slugged visits of one site share a slug
      if and only if they are the same place. */
  lemma {:induction false} RunKeepsSlugs(visits: Visits, changes: seq<Change>)
    requires SlugsName(visits) && AllAllowed(visits, changes)
    ensures SlugsName(After(visits, changes))
    decreases |changes|
  {
    if changes != [] {
      var c := changes[0];
      if c.Publish? {
        PublishKeepsSlugs(visits, c.site, None, c.rkey, c.place, c.others, c.base, c.town);
      } else if c.Edit? {
        PublishKeepsSlugs(visits, visits[c.rkey].site, Some(c.rkey), c.rkey, c.place, c.others, c.base, c.town);
      }
      RunKeepsSlugs(Changed(visits, c), changes[1..]);
    }
  }

  // ---- a document's path ----

  /** `base` is the path before numbering; the loop ends with a path that is
      not taken, numbered only when the base is. */
  method DocumentPath(base: string, taken: seq<string>) returns (path: string)
    ensures path !in taken
    ensures base !in taken ==> path == base
    ensures base in taken ==> exists n ::
      2 <= n <= |set t | t in taken| + 2 && path == Numbered(base, n) && Candidates(base, n) <= set t | t in taken
  {
    if base !in taken {
      return base;
    }
    ghost var held := set t | t in taken;
    assert Candidates(base, 2) == {};
    var n: nat := 2;
    while true
      invariant n >= 2 && Candidates(base, n) <= held
      decreases |held| + 2 - n
    {
      TakenCandidatesBounded(base, n, held);
      path := Numbered(base, n);
      if path !in taken {
        return;
      }
      assert Candidates(base, n + 1) == Candidates(base, n) + {Numbered(base, n)};
      TakenCandidatesBounded(base, n + 1, held);
      n := n + 1;
    }
  }
}
