# Fyyur read-side aggregations, modelled in Dafny

Fyyur is a booking site for live-music venues and artists. Its request
handlers in `projects/01_fyyur/starter_code/app.py` do a little computation
on the rows they load:

- the **venue list** groups the name-ordered venues into areas keyed by
  `(city, state)`, in the order each pair is first met, with
  `{id, name, num_upcoming_shows}` per venue;
- the **venue and artist searches** keep the rows whose name matches the term
  and report `{count, data}`;
- the **venue and artist detail pages** split the entity's shows into
  `past_shows` (`start_time < now`) and `upcoming_shows` (everything else),
  with their counts;
- the **show listing** orders every show by start time and projects it onto
  its display columns.

The model lifts these out of Flask and SQLAlchemy. Tables are sequences of
records in the order the query yields them. A relationship the ORM loads is
already resolved: a venue carries its shows, and a show carries the display
columns of its artist and of its venue. Instants are integers. `now` is a
parameter, read once per call as each handler does.

Modules, one file each:

- `records.dfy` (`Records`): the rows, plus the `{id, name, num_upcoming_shows}` summary and the `{count, data}` search response that several handlers share. Each handler's other dictionaries are defined in its own module.
- `seqs.dfy` (`Seqs`): `Filter`, subsequence (order kept), and the facts about them that several handlers use.
- `timeline.dfy` (`Timeline`): `num_upcoming_shows` and the past/upcoming split of the detail pages.
- `search.dfy` (`Search`): the name test of the searches.
- `venues.dfy` (`Venues`): the venue list, the venue search and the venue page.
- `artists.dfy` (`Artists`): the artist search and the artist page.
- `showspage.dfy` (`ShowsPage`): the show listing.

Each handler loop is a method proved equal to a reference function of its
input. Lemmas about those functions give what the handlers promise:

- the grouping is a partition;
- areas come in first-seen order and have distinct locations;
- every area keeps its venues in input order;
- the split is a partition that keeps order;
- counts equal list lengths;
- the listing is a sorted permutation.

The two "upcoming" tests in the code disagree on a show that starts exactly at
`now`. `num_upcoming_shows` uses `start_time > now`, so it does not count such
a show. The detail pages send every show that fails `start_time < now` to
`upcoming_shows`, so such a show is listed there. The model keeps this.
`Timeline.BoundaryShowSeparatesCounts` proves the two numbers are equal
exactly when no show starts at `now`. A strict test on both sides would leave
such a show out of both detail lists. The code's `else` (app.py:193) puts it
in `upcoming_shows`, and the model follows the code.

## Model

| member | source | states |
|---|---|---|
| `Timeline.CountUpcoming` | projects/01_fyyur/starter_code/app.py:134 | `num_upcoming_shows` is at most the number of shows; it is zero exactly when no show starts after `now`, and equals the number of shows exactly when every show does |
| `Timeline.CountUpcomingIsIndexCount` | projects/01_fyyur/starter_code/app.py:134 | `num_upcoming_shows` is the number of the entity's shows whose start time is strictly after `now` |
| `Timeline.EntryOf` | projects/01_fyyur/starter_code/app.py:185-190 | a venue page's `show_data` carries the artist's id, name and image link; an artist page's carries the venue's (app.py:317-322); both carry the start time |
| `Timeline.EntriesOf` | projects/01_fyyur/starter_code/app.py:184-190 | one `show_data` entry per show, at the same position: the other party's id, name and image link, plus the start time |
| `Timeline.PastStep` | projects/01_fyyur/starter_code/app.py:191-192 | a show starting before `now` extends the past list by its entry and leaves the upcoming list as it was |
| `Timeline.UpcomingStep` | projects/01_fyyur/starter_code/app.py:193-194 | any other show extends the upcoming list by its entry and leaves the past list as it was |
| `Timeline.SplitShows` | projects/01_fyyur/starter_code/app.py:183-194 | the loop builds `past_shows` from the entries of the shows starting before `now` and `upcoming_shows` from the entries of all other shows |
| `Timeline.SplitIsPartition` | projects/01_fyyur/starter_code/app.py:191-194 | past and upcoming together hold every show exactly once (multiset equality, lengths sum to the number of shows); a show is past iff it starts before `now`, upcoming iff it starts at or after `now` |
| `Timeline.SplitKeepsOrder` | projects/01_fyyur/starter_code/app.py:183-194 | both lists are subsequences of the shows: relative order is kept |
| `Timeline.UpcomingIncludesBoundary` | projects/01_fyyur/starter_code/app.py:191-194 | the upcoming list is as long as `num_upcoming_shows` plus the number of shows starting exactly at `now` |
| `Timeline.BoundaryShowSeparatesCounts` | projects/01_fyyur/starter_code/app.py:134 | `num_upcoming_shows` equals `upcoming_shows_count` exactly when no show starts at `now` |
| `Search.ContainsIffOccurs` | projects/01_fyyur/starter_code/app.py:159 | the recursive substring test holds iff the term occurs at some position of the name |
| `Search.NameMatches` | projects/01_fyyur/starter_code/app.py:159 | `name ILIKE '%term%'` holds iff the case-folded term occurs at some position of the case-folded name (the same test at app.py:293) |
| `Search.EmptyTermMatchesEveryName` | projects/01_fyyur/starter_code/app.py:159 | an empty search term matches every name |
| `Search.MatchIgnoresCase` | projects/01_fyyur/starter_code/app.py:293 | folding the case of the name, of the term, or of both beforehand does not change the outcome |
| `Venues.Summaries` | projects/01_fyyur/starter_code/app.py:136-140 | one `{id, name, num_upcoming_shows}` per venue, at the same position |
| `Venues.KeyIndex` | projects/01_fyyur/starter_code/app.py:136 | the dictionary lookup finds the one bucket with the key, or reports that none has it |
| `Venues.GroupStep` | projects/01_fyyur/starter_code/app.py:136-140 | a venue joins the end of the bucket of its own location and leaves every other bucket unchanged |
| `Venues.BucketStepNew` | projects/01_fyyur/starter_code/app.py:136-140 | a venue at a location no bucket has opens a new bucket at the end holding only that venue, and the list still mirrors the venues seen so far |
| `Venues.BucketStepOld` | projects/01_fyyur/starter_code/app.py:136-140 | a venue at a location already met is appended to that location's bucket, and the list still mirrors the venues seen so far |
| `Venues.Areas` | projects/01_fyyur/starter_code/app.py:131-148 | the reference venue list: one area per listed location, in the order of the locations, each area under its `(city, state)` |
| `Venues.GroupByLocation` | projects/01_fyyur/starter_code/app.py:131-148 | the handler's two loops return exactly the reference areas: one per location, in first-seen order, each listing its venues' summaries in input order |
| `Venues.LocationsListEveryVenue` | projects/01_fyyur/starter_code/app.py:133-136 | the `(city, state)` of every venue is among the listed locations |
| `Venues.LocationsComeFromVenues` | projects/01_fyyur/starter_code/app.py:136 | every listed location is the `(city, state)` of some venue |
| `Venues.LocationsCover` | projects/01_fyyur/starter_code/app.py:131-140 | the location of every venue is listed, and every listed location belongs to some venue |
| `Venues.LocationsDistinct` | projects/01_fyyur/starter_code/app.py:131 | no location is listed twice |
| `Venues.AtUnseenLocation` | projects/01_fyyur/starter_code/app.py:131 | a location no venue has holds no venue (the empty default list) |
| `Venues.LocationsInFirstSeenOrder` | projects/01_fyyur/starter_code/app.py:143 | when location i is listed before location j, some venue of i comes in the input before every venue of j |
| `Venues.AreasHaveDistinctLocations` | projects/01_fyyur/starter_code/app.py:143-148 | the areas' `(city, state)` pairs are pairwise distinct |
| `Venues.AreasInFirstSeenOrder` | projects/01_fyyur/starter_code/app.py:129-148 | areas come out in the order their `(city, state)` is first met in the name-ordered venue list |
| `Venues.AreaHoldsItsVenuesInOrder` | projects/01_fyyur/starter_code/app.py:133-140 | an area lists the summaries of exactly the venues at its location, as a subsequence of the input (order kept) |
| `Venues.EveryVenueInItsArea` | projects/01_fyyur/starter_code/app.py:133-140 | every venue's summary appears in the area whose `(city, state)` is its own |
| `Venues.AreasHoldEveryVenueOnce` | projects/01_fyyur/starter_code/app.py:142-148 | the total number of entries over all areas equals the number of venues |
| `Venues.MatchingVenuesAreTheHits` | projects/01_fyyur/starter_code/app.py:159 | the search hits are exactly the venues whose name matches, in the order the query returns them; an empty term returns every venue |
| `Venues.SearchVenues` | projects/01_fyyur/starter_code/app.py:157-169 | `data` has one `{id, name, num_upcoming_shows}` per hit, in order, and `count` equals its length |
| `Venues.FindVenue` | projects/01_fyyur/starter_code/app.py:178 | the lookup returns a venue that has the id, and returns nothing exactly when no venue has it |
| `Venues.ShowVenue` | projects/01_fyyur/starter_code/app.py:176-212 | the venue page copies the venue's fields, lists past and upcoming shows split by the page's test, sets each count to its list's length, and the two counts sum to the number of shows; an unknown id gives no page |
| `Artists.ArtistSummaries` | projects/01_fyyur/starter_code/app.py:296-298 | one `{id, name, num_upcoming_shows}` per artist, at the same position |
| `Artists.MatchingArtistsAreTheHits` | projects/01_fyyur/starter_code/app.py:292-293 | the search hits are exactly the artists whose name matches, in input order; an empty term returns every artist |
| `Artists.SearchArtists` | projects/01_fyyur/starter_code/app.py:291-303 | `data` has one `{id, name, num_upcoming_shows}` per hit, in order, and `count` equals its length |
| `Artists.FindArtist` | projects/01_fyyur/starter_code/app.py:310 | the lookup returns an artist that has the id, and returns nothing exactly when no artist has it |
| `Artists.ShowArtist` | projects/01_fyyur/starter_code/app.py:309-342 | the artist page copies the artist's fields, lists past and upcoming shows split by the page's test, sets each count to its list's length, and the two counts sum to the number of shows; an unknown id gives no page |
| `ShowsPage.InsertByStartTime` | projects/01_fyyur/starter_code/app.py:485 | inserting a show into a start-time-sorted list keeps it sorted and one longer; the new first show is either the inserted one or the old first one |
| `ShowsPage.InsertAddsOne` | projects/01_fyyur/starter_code/app.py:485 | insertion adds exactly the inserted show: the multiset grows by that show and nothing else |
| `ShowsPage.OrderByStartTime` | projects/01_fyyur/starter_code/app.py:485 | `ORDER BY start_time` returns the shows sorted by start time, each exactly once (a permutation) |
| `ShowsPage.ListingOf` | projects/01_fyyur/starter_code/app.py:490-497 | a listing entry carries the show's venue id and name, its artist's id, name and image link, and its start time |
| `ShowsPage.ListShows` | projects/01_fyyur/starter_code/app.py:485-498 | one listing entry per show, each projecting the ordered show at its position, so the listing is in ascending start-time order |

## Left out

- Flask routing, `render_template`, `flash`, `redirect`, `jsonify` and the 404/500 handlers are presentation and I/O.
- The SQLAlchemy models are left out, and so are sessions, commits, rollbacks and closes. The create, edit and delete handlers, the show creation and the genre lookup `Genres.query.filter_by(...).first()` are persistence in the ORM and the database.
- The `artists` handler (app.py:281-284) passes its query result straight to its template, so there is nothing to compute.
- `ORDER BY name` is done by the database, with its own collation. The venue list and the artist search take their rows already in that order. The venue search has no `ORDER BY`, so the database fixes no order; the model takes the rows in the order the query returns them.
- `OrderByStartTime`: it is a stable insertion sort. SQL does not fix the order of shows with equal start times; the model picks one.
- `NameMatches`: case is folded for ASCII `A`-`Z` only. The database's case folding of other letters and its collation are not modelled. `%`, `_` and `\` typed inside the search term are taken literally, although `ILIKE` treats the first two as wildcards and the backslash as their escape.
- `format_datetime` (app.py:103-111) and `start_time.isoformat()` are formatting. Entries carry the integer start time instead of its ISO text.
- `datetime.now()` is a parameter `now`.
- Logging setup, app launch and the Alembic migrations are left out.
- An unknown id on a detail page makes the original dereference `None` and fail with a server error. The model returns `None`, meaning no page, for that case.
- Nullable columns (address, phone, links, descriptions) are modelled as plain strings. The uniqueness of primary keys is not modelled: lookups return the first row with the id. Nothing ties a show's venue or artist back to the row that lists it.
