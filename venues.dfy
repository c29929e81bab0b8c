/**
 * The venue handlers: the list grouped by (city, state), the name search, and
 * the detail page. The Venue table is the sequence of its rows in the order
 * the query returns them; for the list that is the order by name.
 */
module Venues {
  import opened Records
  import opened Seqs
  import opened Timeline
  import opened Search

  /** The (city, state) pair a venue is filed under. */
  type Location = (string, string)

  function LocationOf(v: Venue): Location
  {
    (v.city, v.state)
  }

  /** {id, name, num_upcoming_shows} for one venue. */
  function VenueSummary(v: Venue, now: Time): Summary
  {
    Summary(v.id, v.name, CountUpcoming(v.shows, now))
  }

  /** One summary per venue, each that of the venue at the same position. */
  function Summaries(vs: seq<Venue>, now: Time): (r: seq<Summary>)
    ensures |r| == |vs|
    ensures forall k :: 0 <= k < |vs| ==> r[k] == VenueSummary(vs[k], now)
  {
    if vs == [] then []
    else Summaries(vs[..|vs| - 1], now) + [VenueSummary(vs[|vs| - 1], now)]
  }

  lemma SummariesSnoc(vs: seq<Venue>, v: Venue, now: Time)
    ensures Summaries(vs + [v], now) == Summaries(vs, now) + [VenueSummary(v, now)]
  {
    assert (vs + [v])[..|vs|] == vs;
  }

  // ---------------------------------------------------------------------------
  // The grouped list: the reference definition
  // ---------------------------------------------------------------------------

  /** The locations of the venues, each once, in the order a walk over vs first meets them. */
  function Locations(vs: seq<Venue>): (r: seq<Location>)
    ensures |r| <= |vs|
  {
    if vs == [] then []
    else
      var seen := Locations(vs[..|vs| - 1]);
      var loc := LocationOf(vs[|vs| - 1]);
      if loc in seen then seen else seen + [loc]
  }

  lemma LocationsSnoc(vs: seq<Venue>, v: Venue)
    ensures Locations(vs + [v])
         == if LocationOf(v) in Locations(vs) then Locations(vs) else Locations(vs) + [LocationOf(v)]
  {
    assert (vs + [v])[..|vs|] == vs;
  }

  function IsAt(loc: Location): Venue -> bool
  {
    (v: Venue) => LocationOf(v) == loc
  }

  /** The venues filed under loc, in their order in vs. */
  function AtLocation(vs: seq<Venue>, loc: Location): seq<Venue>
  {
    Filter(vs, IsAt(loc))
  }

  /** The dictionary {city, state, venues} of one bucket. */
  datatype Area = Area(city: string, state: string, venues: seq<Summary>)

  function AreaOf(vs: seq<Venue>, loc: Location, now: Time): (a: Area)
  {
    Area(loc.0, loc.1, Summaries(AtLocation(vs, loc), now))
  }

  /** One area per location of ls, in the order of ls. */
  function AreasFor(ls: seq<Location>, vs: seq<Venue>, now: Time): (r: seq<Area>)
    ensures |r| == |ls|
    ensures forall i :: 0 <= i < |ls| ==> r[i] == AreaOf(vs, ls[i], now)
  {
    if ls == [] then [] else [AreaOf(vs, ls[0], now)] + AreasFor(ls[1..], vs, now)
  }

  /** What the venue list shows: one area per location, in first-seen order. */
  function Areas(vs: seq<Venue>, now: Time): (r: seq<Area>)
    ensures |r| == |Locations(vs)|
    ensures forall i :: 0 <= i < |r| ==> AreaLocation(r[i]) == Locations(vs)[i]
  {
    AreasFor(Locations(vs), vs, now)
  }

  function AreaLocation(a: Area): Location
  {
    (a.city, a.state)
  }

  /** The number of venue entries over all areas. */
  function EntryCount(areas: seq<Area>): (n: nat)
  {
    if areas == [] then 0 else |areas[0].venues| + EntryCount(areas[1..])
  }

  // ---------------------------------------------------------------------------
  // The grouped list: the handler
  // ---------------------------------------------------------------------------

  /** The position of key in an association list, or its length when key is absent. */
  function KeyIndex<K(==), V>(m: seq<(K, V)>, key: K): (k: nat)
    ensures k <= |m|
    ensures k < |m| ==> m[k].0 == key
    ensures k == |m| <==> forall j :: 0 <= j < |m| ==> m[j].0 != key
  {
    if m == [] then 0
    else if m[0].0 == key then 0
    else 1 + KeyIndex(m[1..], key)
  }

  /** Venue v joins the bucket of its own location and no other. */
  lemma GroupStep(done: seq<Venue>, v: Venue, loc: Location, now: Time)
    ensures Summaries(AtLocation(done + [v], loc), now)
         == Summaries(AtLocation(done, loc), now) + (if LocationOf(v) == loc then [VenueSummary(v, now)] else [])
  {
    FilterSnoc(done, v, IsAt(loc));
    if LocationOf(v) == loc {
      SummariesSnoc(AtLocation(done, loc), v, now);
    } else {
      assert AtLocation(done + [v], loc) == AtLocation(done, loc);
    }
  }

  /** The association list m holds, for each location of done in first-seen order, its bucket so far. */
  ghost predicate Mirrors(m: seq<(Location, seq<Summary>)>, done: seq<Venue>, now: Time)
  {
    && |m| == |Locations(done)|
    && (forall j :: 0 <= j < |m| ==> m[j].0 == Locations(done)[j])
    && (forall j :: 0 <= j < |m| ==> m[j].1 == Summaries(AtLocation(done, m[j].0), now))
  }

  /**
   * A venue at a location no bucket has: the defaultdict adds an empty bucket
   * at the end, and the venue is appended to it.
   */
  lemma BucketStepNew(m: seq<(Location, seq<Summary>)>, done: seq<Venue>, venue: Venue, now: Time)
    requires Mirrors(m, done, now)
    requires forall j :: 0 <= j < |m| ==> m[j].0 != LocationOf(venue)
    ensures var key := LocationOf(venue);
      var grown := m + [(key, [])];
      Mirrors(grown[|m| := (key, grown[|m|].1 + [VenueSummary(venue, now)])], done + [venue], now)
  {
    var key := LocationOf(venue);
    var grown := m + [(key, [])];
    var m' := m + [(key, [VenueSummary(venue, now)])];
    assert grown[|m| := (key, grown[|m|].1 + [VenueSummary(venue, now)])] == m' by {
      var entry := (key, grown[|m|].1 + [VenueSummary(venue, now)]);
      assert grown[|m|].1 + [VenueSummary(venue, now)] == [VenueSummary(venue, now)];
      assert |grown[|m| := entry]| == |m'|;
      forall j | 0 <= j < |m'| ensures grown[|m| := entry][j] == m'[j] {
        if j < |m| {
          assert grown[j] == m[j];
        }
      }
    }
    assert key !in Locations(done) by {
      forall j | 0 <= j < |Locations(done)| ensures Locations(done)[j] != key {
        assert m[j].0 == Locations(done)[j];
      }
    }
    LocationsSnoc(done, venue);
    assert Locations(done + [venue]) == Locations(done) + [key];
    AtUnseenLocation(done, key);
    forall j | 0 <= j < |m'|
      ensures m'[j].0 == Locations(done + [venue])[j]
      ensures m'[j].1 == Summaries(AtLocation(done + [venue], m'[j].0), now)
    {
      GroupStep(done, venue, m'[j].0, now);
      if j < |m| {
        assert m'[j] == m[j];
        assert m[j].0 == Locations(done)[j] != key;
      } else {
        assert m'[j] == (key, [VenueSummary(venue, now)]);
        assert Summaries(AtLocation(done, key), now) == [];
      }
    }
  }

  /** A venue at the location of bucket k is appended to that bucket. */
  lemma BucketStepOld(m: seq<(Location, seq<Summary>)>, done: seq<Venue>, venue: Venue, now: Time, k: nat)
    requires Mirrors(m, done, now)
    requires k < |m| && m[k].0 == LocationOf(venue)
    ensures Mirrors(m[k := (LocationOf(venue), m[k].1 + [VenueSummary(venue, now)])], done + [venue], now)
  {
    var key := LocationOf(venue);
    var m' := m[k := (key, m[k].1 + [VenueSummary(venue, now)])];
    LocationsSnoc(done, venue);
    assert Locations(done)[k] == key;
    assert Locations(done + [venue]) == Locations(done);
    LocationsDistinct(done);
    forall j | 0 <= j < |m'|
      ensures m'[j].0 == Locations(done + [venue])[j]
      ensures m'[j].1 == Summaries(AtLocation(done + [venue], m'[j].0), now)
    {
      GroupStep(done, venue, m'[j].0, now);
      if j != k {
        assert m'[j] == m[j];
        assert m[j].0 == Locations(done)[j] != key;
      }
    }
  }

  /** The venues handler: bucket the name-ordered venues by (city, state), then list the buckets. */
  method GroupByLocation(venues: seq<Venue>, now: Time) returns (areas: seq<Area>)
    ensures areas == Areas(venues, now)
  {
    // The defaultdict, as an association list in insertion order.
    var cityStateMap: seq<(Location, seq<Summary>)> := [];
    for i := 0 to |venues|
      invariant Mirrors(cityStateMap, venues[..i], now)
    {
      var venue := venues[i];
      assert venues[..i + 1] == venues[..i] + [venue];
      var numUpcomingShows := CountUpcoming(venue.shows, now);
      var key := (venue.city, venue.state);
      var k := KeyIndex(cityStateMap, key);
      if k == |cityStateMap| {
        BucketStepNew(cityStateMap, venues[..i], venue, now);
        cityStateMap := cityStateMap + [(key, [])];
      } else {
        BucketStepOld(cityStateMap, venues[..i], venue, now, k);
      }
      cityStateMap := cityStateMap[k := (key, cityStateMap[k].1 + [Summary(venue.id, venue.name, numUpcomingShows)])];
    }
    assert venues[..|venues|] == venues;
    areas := [];
    for j := 0 to |cityStateMap|
      invariant |areas| == j
      invariant forall t :: 0 <= t < j ==>
          areas[t] == Area(cityStateMap[t].0.0, cityStateMap[t].0.1, cityStateMap[t].1)
    {
      var (location, venuesList) := cityStateMap[j];
      var (city, state) := location;
      areas := areas + [Area(city, state, venuesList)];
    }
  }

  // ---------------------------------------------------------------------------
  // The grouped list: what it promises
  // ---------------------------------------------------------------------------

  /** The location of every venue is listed. */
  lemma {:induction false} LocationsListEveryVenue(vs: seq<Venue>)
    ensures forall q :: 0 <= q < |vs| ==> LocationOf(vs[q]) in Locations(vs)
  {
    if vs != [] {
      var init, v := vs[..|vs| - 1], vs[|vs| - 1];
      assert vs == init + [v];
      LocationsListEveryVenue(init);
      LocationsSnoc(init, v);
      forall q | 0 <= q < |init| ensures LocationOf(vs[q]) in Locations(vs) {
        assert vs[q] == init[q];
      }
    }
  }

  /** Every listed location is that of some venue. */
  lemma {:induction false} LocationsComeFromVenues(vs: seq<Venue>, i: nat)
    requires i < |Locations(vs)|
    ensures exists q :: 0 <= q < |vs| && LocationOf(vs[q]) == Locations(vs)[i]
  {
    var init, v := vs[..|vs| - 1], vs[|vs| - 1];
    assert vs == init + [v];
    LocationsSnoc(init, v);
    if i < |Locations(init)| {
      LocationsComeFromVenues(init, i);
      var q :| 0 <= q < |init| && LocationOf(init[q]) == Locations(init)[i];
      assert vs[q] == init[q];
    } else {
      assert LocationOf(vs[|vs| - 1]) == Locations(vs)[i];
    }
  }

  /** Every venue's location is listed, and every listed location is that of some venue. */
  lemma LocationsCover(vs: seq<Venue>)
    ensures forall q :: 0 <= q < |vs| ==> LocationOf(vs[q]) in Locations(vs)
    ensures forall i :: 0 <= i < |Locations(vs)| ==>
        exists q :: 0 <= q < |vs| && LocationOf(vs[q]) == Locations(vs)[i]
  {
    LocationsListEveryVenue(vs);
    forall i | 0 <= i < |Locations(vs)|
      ensures exists q :: 0 <= q < |vs| && LocationOf(vs[q]) == Locations(vs)[i]
    {
      LocationsComeFromVenues(vs, i);
    }
    assert forall i :: 0 <= i < |Locations(vs)| ==>
      exists q :: 0 <= q < |vs| && LocationOf(vs[q]) == Locations(vs)[i];
  }

  /** No location is listed twice. */
  lemma {:induction false} LocationsDistinct(vs: seq<Venue>)
    ensures Distinct(Locations(vs))
  {
    if vs != [] {
      var init, v := vs[..|vs| - 1], vs[|vs| - 1];
      assert vs == init + [v];
      LocationsDistinct(init);
      LocationsSnoc(init, v);
    }
  }

  /** A location no venue has holds no venue. */
  lemma AtUnseenLocation(vs: seq<Venue>, loc: Location)
    requires loc !in Locations(vs)
    ensures AtLocation(vs, loc) == []
  {
    LocationsCover(vs);
    FilterMembership(vs, IsAt(loc));
  }

  /**
   * First-seen order: when one location is listed before another, some venue of
   * the first comes before every venue of the second.
   */
  lemma {:induction false} LocationsInFirstSeenOrder(vs: seq<Venue>, i: nat, j: nat, q: nat)
    requires i < j < |Locations(vs)|
    requires q < |vs| && LocationOf(vs[q]) == Locations(vs)[j]
    ensures exists p :: 0 <= p < q && LocationOf(vs[p]) == Locations(vs)[i]
  {
    var init, v := vs[..|vs| - 1], vs[|vs| - 1];
    assert vs == init + [v];
    LocationsSnoc(init, v);
    var seen := Locations(init);
    if q < |init| {
      assert vs[q] == init[q];
      LocationsListEveryVenue(init);
      assert LocationOf(init[q]) in seen;
      if j < |seen| {
        LocationsInFirstSeenOrder(init, i, j, q);
        var p :| 0 <= p < q && LocationOf(init[p]) == seen[i];
        assert vs[p] == init[p];
      }
    } else {
      assert i < |seen|;
      LocationsComeFromVenues(init, i);
      var p :| 0 <= p < |init| && LocationOf(init[p]) == seen[i];
      assert vs[p] == init[p];
    }
  }

  /** The areas' locations are pairwise distinct. */
  lemma AreasHaveDistinctLocations(vs: seq<Venue>, now: Time)
    ensures forall i, j :: 0 <= i < j < |Areas(vs, now)| ==>
        AreaLocation(Areas(vs, now)[i]) != AreaLocation(Areas(vs, now)[j])
  {
    LocationsDistinct(vs);
  }

  /**
   * Areas come in first-seen order: when area i precedes area j, a venue of
   * area i comes, in the input, before any venue of area j.
   */
  lemma AreasInFirstSeenOrder(vs: seq<Venue>, now: Time, i: nat, j: nat, q: nat)
    requires i < j < |Areas(vs, now)|
    requires q < |vs| && LocationOf(vs[q]) == AreaLocation(Areas(vs, now)[j])
    ensures exists p :: 0 <= p < q && LocationOf(vs[p]) == AreaLocation(Areas(vs, now)[i])
  {
    LocationsInFirstSeenOrder(vs, i, j, q);
  }

  /**
   * Area a lists the summaries of exactly the venues at its location, in the
   * order those venues have in the input.
   */
  lemma AreaHoldsItsVenuesInOrder(vs: seq<Venue>, now: Time, a: nat)
    requires a < |Areas(vs, now)|
    ensures var loc := AreaLocation(Areas(vs, now)[a]);
      && Areas(vs, now)[a].venues == Summaries(AtLocation(vs, loc), now)
      && (forall v :: v in AtLocation(vs, loc) <==> v in vs && LocationOf(v) == loc)
      && IsSubsequence(AtLocation(vs, loc), vs)
  {
    var loc := AreaLocation(Areas(vs, now)[a]);
    FilterMembership(vs, IsAt(loc));
    FilterIsSubsequence(vs, IsAt(loc));
  }

  /** Every venue's summary is in the area of its own location. */
  lemma EveryVenueInItsArea(vs: seq<Venue>, now: Time, q: nat)
    requires q < |vs|
    ensures exists a :: (0 <= a < |Areas(vs, now)|
                         && AreaLocation(Areas(vs, now)[a]) == LocationOf(vs[q])
                         && VenueSummary(vs[q], now) in Areas(vs, now)[a].venues)
  {
    var ls := Locations(vs);
    var loc := LocationOf(vs[q]);
    LocationsListEveryVenue(vs);
    var a :| 0 <= a < |ls| && ls[a] == loc;
    var k := FilterIndex(vs, IsAt(loc), q);
    var area := Areas(vs, now)[a];
    assert area == AreaOf(vs, loc, now);
    assert area.venues[k] == VenueSummary(vs[q], now);
    assert AreaLocation(area) == loc && VenueSummary(vs[q], now) in area.venues;
  }

  function SizeAt(ls: seq<Location>, vs: seq<Venue>): (n: nat)
  {
    if ls == [] then 0 else |AtLocation(vs, ls[0])| + SizeAt(ls[1..], vs)
  }

  lemma {:induction false} SizeAtSnocVenue(ls: seq<Location>, vs: seq<Venue>, v: Venue)
    requires Distinct(ls)
    ensures SizeAt(ls, vs + [v]) == SizeAt(ls, vs) + (if LocationOf(v) in ls then 1 else 0)
  {
    if ls != [] {
      SizeAtSnocVenue(ls[1..], vs, v);
      FilterSnoc(vs, v, IsAt(ls[0]));
      if LocationOf(v) == ls[0] {
        assert LocationOf(v) !in ls[1..];
      }
    }
  }

  lemma {:induction false} SizeAtSnocLocation(ls: seq<Location>, loc: Location, vs: seq<Venue>)
    ensures SizeAt(ls + [loc], vs) == SizeAt(ls, vs) + |AtLocation(vs, loc)|
  {
    if ls != [] {
      assert (ls + [loc])[1..] == ls[1..] + [loc];
      SizeAtSnocLocation(ls[1..], loc, vs);
    }
  }

  lemma {:induction false} SizeAtLocationsIsLength(vs: seq<Venue>)
    ensures SizeAt(Locations(vs), vs) == |vs|
  {
    if vs != [] {
      var init, v := vs[..|vs| - 1], vs[|vs| - 1];
      assert vs == init + [v];
      SizeAtLocationsIsLength(init);
      LocationsSnoc(init, v);
      LocationsDistinct(init);
      var seen := Locations(init);
      SizeAtSnocVenue(seen, init, v);
      if LocationOf(v) !in seen {
        SizeAtSnocLocation(seen, LocationOf(v), vs);
        AtUnseenLocation(init, LocationOf(v));
        FilterSnoc(init, v, IsAt(LocationOf(v)));
      }
    }
  }

  lemma {:induction false} EntryCountIsSizeAt(ls: seq<Location>, vs: seq<Venue>, now: Time)
    ensures EntryCount(AreasFor(ls, vs, now)) == SizeAt(ls, vs)
  {
    if ls != [] {
      EntryCountIsSizeAt(ls[1..], vs, now);
      assert AreasFor(ls, vs, now)[1..] == AreasFor(ls[1..], vs, now);
    }
  }

  /** The areas hold as many entries as there are venues: with AreaHoldsItsVenuesInOrder and EveryVenueInItsArea, each venue exactly once. */
  lemma AreasHoldEveryVenueOnce(vs: seq<Venue>, now: Time)
    ensures EntryCount(Areas(vs, now)) == |vs|
  {
    EntryCountIsSizeAt(Locations(vs), vs, now);
    SizeAtLocationsIsLength(vs);
  }

  // ---------------------------------------------------------------------------
  // Search
  // ---------------------------------------------------------------------------

  function NameTest(term: string): Venue -> bool
  {
    (v: Venue) => NameMatches(v.name, term)
  }

  /** The rows the query `Venue.name ILIKE '%' + term + '%'` returns, in the order the query returns them. */
  function MatchingVenues(vs: seq<Venue>, term: string): seq<Venue>
  {
    Filter(vs, NameTest(term))
  }

  /** The hits are the venues whose name matches, in the order the query returns them; an empty term finds them all. */
  lemma MatchingVenuesAreTheHits(vs: seq<Venue>, term: string)
    ensures forall v :: v in MatchingVenues(vs, term) <==> v in vs && NameMatches(v.name, term)
    ensures IsSubsequence(MatchingVenues(vs, term), vs)
    ensures term == "" ==> MatchingVenues(vs, term) == vs
  {
    FilterMembership(vs, NameTest(term));
    FilterIsSubsequence(vs, NameTest(term));
    if term == "" {
      forall k | 0 <= k < |vs| ensures NameTest(term)(vs[k]) {
        EmptyTermMatchesEveryName(vs[k].name);
      }
      FilterAll(vs, NameTest(term));
    }
  }

  /** The search_venues handler: one {id, name, num_upcoming_shows} per hit, and their count. */
  method SearchVenues(venues: seq<Venue>, searchTerm: string, now: Time) returns (response: SearchResponse)
    ensures response.data == Summaries(MatchingVenues(venues, searchTerm), now)
    ensures response.count == |response.data|
  {
    var results := MatchingVenues(venues, searchTerm);
    var data: seq<Summary> := [];
    for k := 0 to |results|
      invariant data == Summaries(results[..k], now)
    {
      var result := results[k];
      assert results[..k + 1] == results[..k] + [result];
      SummariesSnoc(results[..k], result, now);
      var numUpcomingShows := CountUpcoming(result.shows, now);
      data := data + [Summary(result.id, result.name, numUpcomingShows)];
    }
    assert results[..|results|] == results;
    response := SearchResponse(|results|, data);
  }

  // ---------------------------------------------------------------------------
  // Detail page
  // ---------------------------------------------------------------------------

  /** Venue.query.get(id): the venue with that id, if there is one. */
  function FindVenue(vs: seq<Venue>, id: int): (r: Option<Venue>)
    ensures r.Some? ==> r.value in vs && r.value.id == id
    ensures r.None? <==> forall v :: v in vs ==> v.id != id
  {
    if vs == [] then None
    else if vs[0].id == id then Some(vs[0])
    else FindVenue(vs[1..], id)
  }

  /** The data dictionary of a venue page. */
  datatype VenueDetail = VenueDetail(
    id: int, name: string, genres: seq<string>, address: string,
    city: string, state: string, phone: string, website: string,
    facebookLink: string, seekingTalent: bool, imageLink: string,
    pastShows: seq<ShowEntry>, upcomingShows: seq<ShowEntry>,
    pastShowsCount: nat, upcomingShowsCount: nat)

  /**
   * The show_venue handler. An id with no venue gives None: the original
   * dereferences the missing row and fails.
   */
  method ShowVenue(venues: seq<Venue>, venueId: int, now: Time) returns (page: Option<VenueDetail>)
    ensures page.None? <==> FindVenue(venues, venueId).None?
    ensures page.Some? ==>
      var v, d := FindVenue(venues, venueId).value, page.value;
      && d.pastShows == EntriesOf(PastOf(v.shows, now), VenuePage)
      && d.upcomingShows == EntriesOf(UpcomingOf(v.shows, now), VenuePage)
      && d.pastShowsCount == |d.pastShows|
      && d.upcomingShowsCount == |d.upcomingShows|
      && d.pastShowsCount + d.upcomingShowsCount == |v.shows|
      && d == VenueDetail(v.id, v.name, v.genres, v.address, v.city, v.state, v.phone,
                          v.websiteLink, v.facebookLink, v.seekingTalent, v.imageLink,
                          d.pastShows, d.upcomingShows, d.pastShowsCount, d.upcomingShowsCount)
  {
    var found := FindVenue(venues, venueId);
    if found.None? {
      return None;
    }
    var venue := found.value;
    var pastShows, upcomingShows := SplitShows(venue.shows, now, VenuePage);
    SplitIsPartition(venue.shows, now);
    page := Some(VenueDetail(
      venue.id, venue.name, venue.genres, venue.address, venue.city, venue.state, venue.phone,
      venue.websiteLink, venue.facebookLink, venue.seekingTalent, venue.imageLink,
      pastShows, upcomingShows, |pastShows|, |upcomingShows|));
  }
}
