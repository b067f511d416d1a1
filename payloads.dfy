/** The two request bodies sent to Simkl: the watched-history batch of
    `mark_watched_batch_simkl` (movies with their ratings, shows with their
    season manifests) and the watchlist batch of `import_watchlist_simkl`. */
module Payloads {
  import opened Wrappers
  import opened Seasons
  import opened Shows
  import opened Csv

  /** `str(datetime.now())` */
  type Timestamp = string

  /** `{"ids": {"tmdb": id}, "watched_at": ..., "rating": ...}` */
  datatype MovieEntry = MovieEntry(tmdb: int, watchedAt: Timestamp, rating: Option<int>)

  /** `{"movies": [...], "shows": shows}`; the show records go in as they are. */
  datatype HistoryPayload = HistoryPayload(movies: seq<MovieEntry>, shows: seq<ShowRecord>)

  /** `ratings.get(id)` */
  function RatingLookup(ratings: map<int, int>, id: int): Option<int>
  {
    if id in ratings then Some(ratings[id]) else None
  }

  /** The `movies` comprehension: one entry per id in order, stamped with the
      clock reading taken for it (`clock(i)` is the i-th call of `now()`). */
  function HistoryMovies(movies: seq<int>, ratings: map<int, int>, clock: nat -> Timestamp): (entries: seq<MovieEntry>)
    ensures |entries| == |movies|
    ensures forall i :: 0 <= i < |movies| ==> entries[i].tmdb == movies[i] && entries[i].watchedAt == clock(i)
    ensures forall i :: 0 <= i < |movies| ==>
              (entries[i].rating.Some? <==> movies[i] in ratings) &&
              (movies[i] in ratings ==> entries[i].rating.value == ratings[movies[i]])
  {
    seq(|movies|, i requires 0 <= i < |movies| => MovieEntry(movies[i], clock(i), RatingLookup(ratings, movies[i])))
  }

  function HistoryPayloadOf(movies: seq<int>, shows: seq<ShowRecord>, ratings: map<int, int>, clock: nat -> Timestamp): HistoryPayload
  {
    HistoryPayload(HistoryMovies(movies, ratings, clock), shows)
  }

  /** `mark_watched_batch_simkl` up to the POST: every show record is looked
      up on TMDB (`lookup` answers for an id) and, where the total is
      positive, given its manifest in place; then the payload is built. */
  method MarkWatchedBatch(movies: seq<int>, shows: seq<ShowRecord>, ratings: map<int, int>,
                          lookup: int -> TmdbResponse, clock: nat -> Timestamp)
    returns (payload: HistoryPayload)
    modifies set s | s in shows
    ensures payload == HistoryPayloadOf(movies, shows, ratings, clock)
    ensures forall s :: s in shows ==> s.seasons == ExpandedSeasons(lookup(s.tmdbId), old(s.seasons))
  {
    var i := 0;
    while i < |shows|
      invariant 0 <= i <= |shows|
      invariant forall s :: s in shows[..i] ==> s.seasons == ExpandedSeasons(lookup(s.tmdbId), old(s.seasons))
      invariant forall s :: s in shows && s !in shows[..i] ==> s.seasons == old(s.seasons)
    {
      assert shows[..i + 1] == shows[..i] + [shows[i]];
      shows[i].ExpandFromTmdb(lookup(shows[i].tmdbId));
      i := i + 1;
    }
    assert shows[..i] == shows;
    payload := HistoryPayload(HistoryMovies(movies, ratings, clock), shows);
  }

  /** End to end from the CSV: a watched movie carries the rating of the last
      rated `movie` row with its id. */
  lemma HistoryRatingFromRows(rows: seq<Row>, clock: nat -> Timestamp, i: nat, k: nat)
    requires i < |IdsOfKind(rows, MovieKind)|
    requires k < |rows| && IsRatedMovieRow(rows[k], IdsOfKind(rows, MovieKind)[i])
    requires forall j :: k < j < |rows| ==> !IsRatedMovieRow(rows[j], IdsOfKind(rows, MovieKind)[i])
    ensures HistoryMovies(IdsOfKind(rows, MovieKind), RatingMap(rows), clock)[i].rating == rows[k].rating
  {
    RatingMapLastWins(rows, IdsOfKind(rows, MovieKind)[i], k);
  }

  /** ... and no rating at all when no `movie` row with its id has one. */
  lemma HistoryUnratedFromRows(rows: seq<Row>, clock: nat -> Timestamp, i: nat)
    requires i < |IdsOfKind(rows, MovieKind)|
    requires forall j :: 0 <= j < |rows| ==> !IsRatedMovieRow(rows[j], IdsOfKind(rows, MovieKind)[i])
    ensures HistoryMovies(IdsOfKind(rows, MovieKind), RatingMap(rows), clock)[i].rating == None
  {
  }

  /** The Simkl list every watchlist entry is added to. */
  const PlanToWatch := "plantowatch"

  /** The value under an entry's `"tmdb"` key: a number, or a whole show
      record `{"ids": {"tmdb": n}}`. */
  datatype TmdbRef = TmdbId(id: int) | ShowDict(showId: int)

  /** `{"ids": {"tmdb": ...}, "to": ...}` */
  datatype ListEntry = ListEntry(tmdb: TmdbRef, to: string)

  datatype WatchlistPayload = WatchlistPayload(movies: seq<ListEntry>, shows: seq<ListEntry>)

  /** The ids a list of entries names, in order; None when some entry's
      `tmdb` is not a number. */
  function ListedIds(entries: seq<ListEntry>): Option<seq<int>>
  {
    if entries == [] then Some([])
    else match (entries[0].tmdb, ListedIds(entries[1..]))
      case (TmdbId(n), Some(rest)) => Some([n] + rest)
      case _ => None
  }

  function PlanToWatchEntries(ids: seq<int>): (entries: seq<ListEntry>)
    ensures forall e :: e in entries ==> e.to == PlanToWatch
  {
    seq(|ids|, i requires 0 <= i < |ids| => ListEntry(TmdbId(ids[i]), PlanToWatch))
  }

  /** The watchlist payload with every show entry naming the show's id. */
  function WatchlistPayloadOf(movies: seq<int>, shows: seq<ShowRecord>): (payload: WatchlistPayload)
    ensures forall e :: e in payload.movies + payload.shows ==> e.to == PlanToWatch
  {
    WatchlistPayload(PlanToWatchEntries(movies), PlanToWatchEntries(ShowTmdbIds(shows)))
  }

  /** The watchlist payload as `import_watchlist_simkl` builds it from the
      records `process_csv` returns: `show_id` there is the whole record, so
      each show entry nests it under `"tmdb"`. */
  function WatchlistPayloadAsWritten(movies: seq<int>, shows: seq<ShowRecord>): (payload: WatchlistPayload)
    ensures |payload.shows| == |shows|
    ensures forall i :: 0 <= i < |shows| ==> payload.shows[i].tmdb == ShowDict(shows[i].tmdbId)
  {
    WatchlistPayload(PlanToWatchEntries(movies),
                     seq(|shows|, i requires 0 <= i < |shows| => ListEntry(ShowDict(shows[i].tmdbId), PlanToWatch)))
  }

  lemma {:induction false} PlanToWatchEntriesRoundTrip(ids: seq<int>)
    ensures ListedIds(PlanToWatchEntries(ids)) == Some(ids)
  {
    if ids != [] {
      var entries := PlanToWatchEntries(ids);
      assert entries[1..] == PlanToWatchEntries(ids[1..]);
      PlanToWatchEntriesRoundTrip(ids[1..]);
      assert [ids[0]] + ids[1..] == ids;
    }
  }

  /** The watchlist payload names exactly the given movie and show ids, in
      order and with nothing added. */
  lemma WatchlistRoundTrip(movies: seq<int>, shows: seq<ShowRecord>)
    ensures ListedIds(WatchlistPayloadOf(movies, shows).movies) == Some(movies)
    ensures ListedIds(WatchlistPayloadOf(movies, shows).shows) == Some(ShowTmdbIds(shows))
  {
    PlanToWatchEntriesRoundTrip(movies);
    PlanToWatchEntriesRoundTrip(ShowTmdbIds(shows));
  }

  /** As written, one show in the watchlist is enough for the show list to
      name no readable id, while the movie list is the intended one. */
  lemma {:induction false} WatchlistAsWrittenNestsShows(movies: seq<int>, shows: seq<ShowRecord>)
    requires shows != []
    ensures ListedIds(WatchlistPayloadAsWritten(movies, shows).shows) == None
    ensures ListedIds(WatchlistPayloadOf(movies, shows).shows) == Some(ShowTmdbIds(shows))
    ensures WatchlistPayloadAsWritten(movies, shows).movies == WatchlistPayloadOf(movies, shows).movies
  {
    var entries := WatchlistPayloadAsWritten(movies, shows).shows;
    assert entries[0].tmdb == ShowDict(shows[0].tmdbId);
    PlanToWatchEntriesRoundTrip(ShowTmdbIds(shows));
  }
}
