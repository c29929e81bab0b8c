/**
 * The artist handlers: the name search and the detail page. The Artist table
 * is the sequence of its rows in the order the query returns them; the search
 * query orders them by name.
 */
module Artists {
  import opened Records
  import opened Seqs
  import opened Timeline
  import opened Search

  /** {id, name, num_upcoming_shows} for one artist. */
  function ArtistSummary(a: Artist, now: Time): Summary
  {
    Summary(a.id, a.name, CountUpcoming(a.shows, now))
  }

  /** One summary per artist, each that of the artist at the same position. */
  function ArtistSummaries(artists: seq<Artist>, now: Time): (r: seq<Summary>)
    ensures |r| == |artists|
    ensures forall k :: 0 <= k < |artists| ==> r[k] == ArtistSummary(artists[k], now)
  {
    if artists == [] then []
    else ArtistSummaries(artists[..|artists| - 1], now) + [ArtistSummary(artists[|artists| - 1], now)]
  }

  lemma ArtistSummariesSnoc(artists: seq<Artist>, a: Artist, now: Time)
    ensures ArtistSummaries(artists + [a], now) == ArtistSummaries(artists, now) + [ArtistSummary(a, now)]
  {
    assert (artists + [a])[..|artists|] == artists;
  }

  // ---------------------------------------------------------------------------
  // Search
  // ---------------------------------------------------------------------------

  function NameTest(term: string): Artist -> bool
  {
    (a: Artist) => NameMatches(a.name, term)
  }

  /** The rows the query `Artist.name ILIKE '%' + term + '%'` returns, in name order. */
  function MatchingArtists(artists: seq<Artist>, term: string): seq<Artist>
  {
    Filter(artists, NameTest(term))
  }

  /** The hits are the artists whose name matches, in input order; an empty term finds them all. */
  lemma MatchingArtistsAreTheHits(artists: seq<Artist>, term: string)
    ensures forall a :: a in MatchingArtists(artists, term) <==> a in artists && NameMatches(a.name, term)
    ensures IsSubsequence(MatchingArtists(artists, term), artists)
    ensures term == "" ==> MatchingArtists(artists, term) == artists
  {
    FilterMembership(artists, NameTest(term));
    FilterIsSubsequence(artists, NameTest(term));
    if term == "" {
      forall k | 0 <= k < |artists| ensures NameTest(term)(artists[k]) {
        EmptyTermMatchesEveryName(artists[k].name);
      }
      FilterAll(artists, NameTest(term));
    }
  }

  /** The search_artists handler: one {id, name, num_upcoming_shows} per hit, and their count. */
  method SearchArtists(artists: seq<Artist>, searchTerm: string, now: Time) returns (response: SearchResponse)
    ensures response.data == ArtistSummaries(MatchingArtists(artists, searchTerm), now)
    ensures response.count == |response.data|
  {
    var results := MatchingArtists(artists, searchTerm);
    var data: seq<Summary> := [];
    for k := 0 to |results|
      invariant data == ArtistSummaries(results[..k], now)
    {
      var result := results[k];
      assert results[..k + 1] == results[..k] + [result];
      ArtistSummariesSnoc(results[..k], result, now);
      var numUpcomingShows := CountUpcoming(result.shows, now);
      data := data + [Summary(result.id, result.name, numUpcomingShows)];
    }
    assert results[..|results|] == results;
    response := SearchResponse(|results|, data);
  }

  // ---------------------------------------------------------------------------
  // Detail page
  // ---------------------------------------------------------------------------

  /** Artist.query.get(id): the artist with that id, if there is one. */
  function FindArtist(artists: seq<Artist>, id: int): (r: Option<Artist>)
    ensures r.Some? ==> r.value in artists && r.value.id == id
    ensures r.None? <==> forall a :: a in artists ==> a.id != id
  {
    if artists == [] then None
    else if artists[0].id == id then Some(artists[0])
    else FindArtist(artists[1..], id)
  }

  /** The data dictionary of an artist page. */
  datatype ArtistDetail = ArtistDetail(
    id: int, name: string, genres: seq<string>,
    city: string, state: string, phone: string,
    facebookLink: string, seekingVenue: bool, imageLink: string,
    pastShows: seq<ShowEntry>, upcomingShows: seq<ShowEntry>,
    pastShowsCount: nat, upcomingShowsCount: nat)

  /**
   * The show_artist handler. An id with no artist gives None: the original
   * dereferences the missing row and fails.
   */
  method ShowArtist(artists: seq<Artist>, artistId: int, now: Time) returns (page: Option<ArtistDetail>)
    ensures page.None? <==> FindArtist(artists, artistId).None?
    ensures page.Some? ==>
      var a, d := FindArtist(artists, artistId).value, page.value;
      && d.pastShows == EntriesOf(PastOf(a.shows, now), ArtistPage)
      && d.upcomingShows == EntriesOf(UpcomingOf(a.shows, now), ArtistPage)
      && d.pastShowsCount == |d.pastShows|
      && d.upcomingShowsCount == |d.upcomingShows|
      && d.pastShowsCount + d.upcomingShowsCount == |a.shows|
      && d == ArtistDetail(a.id, a.name, a.genres, a.city, a.state, a.phone,
                           a.facebookLink, a.seekingVenue, a.imageLink,
                           d.pastShows, d.upcomingShows, d.pastShowsCount, d.upcomingShowsCount)
  {
    var found := FindArtist(artists, artistId);
    if found.None? {
      return None;
    }
    var artist := found.value;
    var pastShows, upcomingShows := SplitShows(artist.shows, now, ArtistPage);
    SplitIsPartition(artist.shows, now);
    page := Some(ArtistDetail(
      artist.id, artist.name, artist.genres, artist.city, artist.state, artist.phone,
      artist.facebookLink, artist.seekingVenue, artist.imageLink,
      pastShows, upcomingShows, |pastShows|, |upcomingShows|));
  }
}
