/**
 * The shows handler: every show, ordered by start time, projected onto the
 * columns the listing displays.
 */
module ShowsPage {
  import opened Records
  import opened Seqs

  ghost predicate SortedByStartTime(s: seq<Show>)
  {
    forall i, j :: 0 <= i < j < |s| ==> s[i].startTime <= s[j].startTime
  }

  /** A show no later than the first show of a sorted list can go in front of it. */
  lemma ConsKeepsSorted(x: Show, s: seq<Show>)
    requires SortedByStartTime(s)
    requires s != [] ==> x.startTime <= s[0].startTime
    ensures SortedByStartTime([x] + s)
  {
    forall i, j | 0 <= i < j < |[x] + s| ensures ([x] + s)[i].startTime <= ([x] + s)[j].startTime {
      assert ([x] + s)[j] == s[j - 1];
      if i > 0 {
        assert ([x] + s)[i] == s[i - 1];
      } else {
        assert s[0].startTime <= s[j - 1].startTime;
      }
    }
  }

  lemma SortedTail(s: seq<Show>)
    requires s != [] && SortedByStartTime(s)
    ensures SortedByStartTime(s[1..])
    ensures |s| >= 2 ==> s[0].startTime <= s[1].startTime
  {
    forall i, j | 0 <= i < j < |s[1..]| ensures s[1..][i].startTime <= s[1..][j].startTime {
      assert s[1..][i] == s[i + 1] && s[1..][j] == s[j + 1];
    }
  }

  /** Put x into the sorted s, before the first show that does not start earlier than x. */
  function InsertByStartTime(x: Show, s: seq<Show>): (r: seq<Show>)
    requires SortedByStartTime(s)
    ensures SortedByStartTime(r)
    ensures |r| == |s| + 1
    ensures r[0] == x || (s != [] && r[0] == s[0])
  {
    if s == [] || x.startTime <= s[0].startTime then
      ConsKeepsSorted(x, s);
      [x] + s
    else
      SortedTail(s);
      var rest := InsertByStartTime(x, s[1..]);
      assert s[0].startTime <= rest[0].startTime;
      ConsKeepsSorted(s[0], rest);
      [s[0]] + rest
  }

  /** Insertion adds exactly x: nothing is lost or duplicated. */
  lemma {:induction false} InsertAddsOne(x: Show, s: seq<Show>)
    requires SortedByStartTime(s)
    ensures multiset(InsertByStartTime(x, s)) == multiset(s) + multiset{x}
  {
    if s != [] && s[0].startTime < x.startTime {
      SortedTail(s);
      InsertAddsOne(x, s[1..]);
      MultisetHeadTail(s);
      MultisetHeadTail(InsertByStartTime(x, s));
    }
  }

  /** ORDER BY start_time: the shows, sorted by start time, each kept exactly once. */
  function OrderByStartTime(shows: seq<Show>): (r: seq<Show>)
    ensures SortedByStartTime(r)
    ensures multiset(r) == multiset(shows)
    ensures |r| == |shows|
  {
    if shows == [] then []
    else
      var rest := OrderByStartTime(shows[1..]);
      InsertAddsOne(shows[0], rest);
      MultisetHeadTail(shows);
      InsertByStartTime(shows[0], rest)
  }

  /** {venue_id, venue_name, artist_id, artist_name, artist_image_link, start_time} */
  datatype ShowListing = ShowListing(
    venueId: int, venueName: string,
    artistId: int, artistName: string, artistImageLink: string,
    startTime: Time)

  /** The venue's id and name, the artist's id, name and image link, and the start time. */
  function ListingOf(show: Show): (l: ShowListing)
    ensures l.venueId == show.venue.id && l.venueName == show.venue.name
    ensures l.artistId == show.artist.id && l.artistName == show.artist.name
    ensures l.artistImageLink == show.artist.imageLink
    ensures l.startTime == show.startTime
  {
    ShowListing(show.venue.id, show.venue.name, show.artist.id, show.artist.name, show.artist.imageLink, show.startTime)
  }

  /**
   * The shows handler: one listing entry per show of the ordered query, at the
   * same position; so the listing is in start-time order and each show appears once.
   */
  method ListShows(shows: seq<Show>) returns (listing: seq<ShowListing>)
    ensures |listing| == |shows|
    ensures forall k :: 0 <= k < |listing| ==> listing[k] == ListingOf(OrderByStartTime(shows)[k])
    ensures forall i, j :: 0 <= i < j < |listing| ==> listing[i].startTime <= listing[j].startTime
  {
    var query := OrderByStartTime(shows);
    listing := [];
    for k := 0 to |query|
      invariant |listing| == k
      invariant forall t :: 0 <= t < k ==> listing[t] == ListingOf(query[t])
    {
      var show := query[k];
      listing := listing + [ListingOf(show)];
    }
  }
}
