/**
 * Where a show stands relative to the `now` a handler reads once, at its top.
 * Two tests are in use and they disagree on a show starting exactly at now:
 * num_upcoming_shows counts `start_time > now`, while a detail page files
 * every show that is not `start_time < now` as upcoming.
 */
module Timeline {
  import opened Records
  import opened Seqs

  /** sum(1 for show in shows if show.start_time > now) */
  function CountUpcoming(shows: seq<Show>, now: Time): (n: nat)
    ensures n <= |shows|
    ensures n == 0 <==> forall k :: 0 <= k < |shows| ==> shows[k].startTime <= now
    ensures n == |shows| <==> forall k :: 0 <= k < |shows| ==> shows[k].startTime > now
  {
    if shows == [] then 0
    else CountUpcoming(shows[..|shows| - 1], now) + (if shows[|shows| - 1].startTime > now then 1 else 0)
  }

  /** The count is the number of shows that start strictly after now. */
  lemma {:induction false} CountUpcomingIsIndexCount(shows: seq<Show>, now: Time)
    ensures CountUpcoming(shows, now) == |set k | 0 <= k < |shows| && shows[k].startTime > now|
  {
    if shows != [] {
      var n := |shows| - 1;
      var init := shows[..n];
      CountUpcomingIsIndexCount(init, now);
      var before := set k | 0 <= k < n && init[k].startTime > now;
      var after := set k | 0 <= k < |shows| && shows[k].startTime > now;
      assert before == set k | 0 <= k < n && shows[k].startTime > now;
      if shows[n].startTime > now {
        assert after == before + {n};
      } else {
        assert after == before;
      }
    }
  }

  /** The test of the detail pages: a show is past when it started strictly before now. */
  function IsPast(now: Time): Show -> bool
  {
    (s: Show) => s.startTime < now
  }

  /** The else branch of that test; a show starting exactly at now passes it. */
  function IsNotPast(now: Time): Show -> bool
  {
    (s: Show) => !(s.startTime < now)
  }

  function StartsAt(t: Time): Show -> bool
  {
    (s: Show) => s.startTime == t
  }

  function PastOf(shows: seq<Show>, now: Time): (r: seq<Show>)
  {
    Filter(shows, IsPast(now))
  }

  function UpcomingOf(shows: seq<Show>, now: Time): (r: seq<Show>)
  {
    Filter(shows, IsNotPast(now))
  }

  /** Which end of a show a detail page describes: a venue page lists artists, an artist page venues. */
  datatype Page = VenuePage | ArtistPage

  /**
   * The show_data dictionary: {artist_id, artist_name, artist_image_link, start_time}
   * on a venue page, {venue_id, venue_name, venue_image_link, start_time} on an artist page.
   */
  datatype ShowEntry = ShowEntry(id: int, name: string, imageLink: string, startTime: Time)

  function Counterpart(show: Show, page: Page): Party
  {
    match page
    case VenuePage => show.artist
    case ArtistPage => show.venue
  }

  /** A venue page describes the show's artist, an artist page its venue; both give the start time. */
  function EntryOf(show: Show, page: Page): (e: ShowEntry)
    ensures page == VenuePage ==>
      e.id == show.artist.id && e.name == show.artist.name && e.imageLink == show.artist.imageLink
    ensures page == ArtistPage ==>
      e.id == show.venue.id && e.name == show.venue.name && e.imageLink == show.venue.imageLink
    ensures e.startTime == show.startTime
  {
    var other := Counterpart(show, page);
    ShowEntry(other.id, other.name, other.imageLink, show.startTime)
  }

  /** One entry per show, each the projection of the show at the same position. */
  function EntriesOf(shows: seq<Show>, page: Page): (r: seq<ShowEntry>)
    ensures |r| == |shows|
    ensures forall k :: 0 <= k < |shows| ==> r[k] == EntryOf(shows[k], page)
  {
    if shows == [] then []
    else EntriesOf(shows[..|shows| - 1], page) + [EntryOf(shows[|shows| - 1], page)]
  }

  lemma EntriesSnoc(shows: seq<Show>, show: Show, page: Page)
    ensures EntriesOf(shows + [show], page) == EntriesOf(shows, page) + [EntryOf(show, page)]
  {
    assert (shows + [show])[..|shows|] == shows;
  }

  /** One step of the loop below, for a show that starts before now: it extends the past list only. */
  lemma PastStep(done: seq<Show>, show: Show, now: Time, page: Page)
    requires show.startTime < now
    ensures EntriesOf(PastOf(done + [show], now), page) == EntriesOf(PastOf(done, now), page) + [EntryOf(show, page)]
    ensures UpcomingOf(done + [show], now) == UpcomingOf(done, now)
  {
    FilterSnoc(done, show, IsPast(now));
    FilterSnoc(done, show, IsNotPast(now));
    EntriesSnoc(PastOf(done, now), show, page);
  }

  /** One step of the loop below, for any other show: it extends the upcoming list only. */
  lemma UpcomingStep(done: seq<Show>, show: Show, now: Time, page: Page)
    requires now <= show.startTime
    ensures PastOf(done + [show], now) == PastOf(done, now)
    ensures EntriesOf(UpcomingOf(done + [show], now), page) == EntriesOf(UpcomingOf(done, now), page) + [EntryOf(show, page)]
  {
    FilterSnoc(done, show, IsPast(now));
    FilterSnoc(done, show, IsNotPast(now));
    EntriesSnoc(UpcomingOf(done, now), show, page);
  }

  /** The loop of a detail page: each show goes to past_shows or, otherwise, to upcoming_shows. */
  method SplitShows(shows: seq<Show>, now: Time, page: Page)
    returns (pastShows: seq<ShowEntry>, upcomingShows: seq<ShowEntry>)
    ensures pastShows == EntriesOf(PastOf(shows, now), page)
    ensures upcomingShows == EntriesOf(UpcomingOf(shows, now), page)
  {
    pastShows, upcomingShows := [], [];
    for i := 0 to |shows|
      invariant pastShows == EntriesOf(PastOf(shows[..i], now), page)
      invariant upcomingShows == EntriesOf(UpcomingOf(shows[..i], now), page)
    {
      var show := shows[i];
      assert shows[..i + 1] == shows[..i] + [show];
      var showData := EntryOf(show, page);
      if show.startTime < now {
        PastStep(shows[..i], show, now, page);
        pastShows := pastShows + [showData];
      } else {
        UpcomingStep(shows[..i], show, now, page);
        upcomingShows := upcomingShows + [showData];
      }
    }
    assert shows[..|shows|] == shows;
  }

  /** Every show lands in exactly one of the two lists, by the test the page applies. */
  lemma SplitIsPartition(shows: seq<Show>, now: Time)
    ensures multiset(PastOf(shows, now)) + multiset(UpcomingOf(shows, now)) == multiset(shows)
    ensures |PastOf(shows, now)| + |UpcomingOf(shows, now)| == |shows|
    ensures forall s :: s in PastOf(shows, now) <==> s in shows && s.startTime < now
    ensures forall s :: s in UpcomingOf(shows, now) <==> s in shows && now <= s.startTime
  {
    FilterComplement(shows, IsPast(now), IsNotPast(now));
    FilterMembership(shows, IsPast(now));
    FilterMembership(shows, IsNotPast(now));
  }

  /** Both lists keep the relative order the shows had. */
  lemma SplitKeepsOrder(shows: seq<Show>, now: Time)
    ensures IsSubsequence(PastOf(shows, now), shows)
    ensures IsSubsequence(UpcomingOf(shows, now), shows)
  {
    FilterIsSubsequence(shows, IsPast(now));
    FilterIsSubsequence(shows, IsNotPast(now));
  }

  /** The upcoming list of a detail page holds the shows num_upcoming_shows counts, plus those starting at now. */
  lemma {:induction false} UpcomingIncludesBoundary(shows: seq<Show>, now: Time)
    ensures |UpcomingOf(shows, now)| == CountUpcoming(shows, now) + |Filter(shows, StartsAt(now))|
  {
    if shows != [] {
      UpcomingIncludesBoundary(shows[..|shows| - 1], now);
    }
  }

  /** The two notions of "upcoming" agree exactly when no show starts at now. */
  lemma BoundaryShowSeparatesCounts(shows: seq<Show>, now: Time)
    ensures CountUpcoming(shows, now) == |UpcomingOf(shows, now)|
        <==> forall k :: 0 <= k < |shows| ==> shows[k].startTime != now
  {
    UpcomingIncludesBoundary(shows, now);
    FilterMembership(shows, StartsAt(now));
    var atNow := Filter(shows, StartsAt(now));
    if atNow != [] {
      assert atNow[0] in shows;
    }
    if k :| 0 <= k < |shows| && shows[k].startTime == now {
      assert shows[k] in atNow;
    }
  }
}
