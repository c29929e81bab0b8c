/**
 * The records the request handlers read, lifted out of the ORM.
 * A relationship the ORM loads lazily (venue.shows, show.artist, show.venue,
 * venue.genres) is already resolved here: a venue carries its shows, and a
 * show carries the display columns of its artist and of its venue.
 */
module Records {

  /** An instant, as an integer timestamp. */
  type Time = int

  datatype Option<T> = None | Some(value: T)

  /** The display columns of the artist or venue at one end of a show. */
  datatype Party = Party(id: int, name: string, imageLink: string)

  /** A row of the Shows table, joined with its artist and its venue. */
  datatype Show = Show(id: int, startTime: Time, artist: Party, venue: Party)

  /** A row of the Venue table; genres are the labels of its Genres rows. */
  datatype Venue = Venue(
    id: int, name: string, city: string, state: string,
    address: string, phone: string,
    imageLink: string, facebookLink: string, websiteLink: string,
    seekingTalent: bool, seekingDescription: string,
    genres: seq<string>, shows: seq<Show>)

  /** A row of the Artist table; genres are the labels of its Genres rows. */
  datatype Artist = Artist(
    id: int, name: string, city: string, state: string, phone: string,
    imageLink: string, facebookLink: string, websiteLink: string,
    seekingVenue: bool, seekingDescription: string,
    genres: seq<string>, shows: seq<Show>)

  /** The dictionary {id, name, num_upcoming_shows} of the venue list and of search results. */
  datatype Summary = Summary(id: int, name: string, numUpcomingShows: nat)

  /** The dictionary {count, data} a search hands to its template. */
  datatype SearchResponse = SearchResponse(count: nat, data: seq<Summary>)
}
