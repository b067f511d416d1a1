# Letterboxd → Simkl importer, modelled in Dafny

`importLetterboxdintoSimkl.py` reads a Letterboxd export enriched with TMDB ids.
It marks every movie and show in it as watched on Simkl, with ratings and, for
shows, a manifest of every episode of every regular season taken from TMDB.
It then downloads the Simkl history to report which items did not arrive, and
can optionally import a watchlist. This project models the data handling
between the network calls and proves its properties:

- **Seasons**: the episode total of a show over its seasons numbered above 0,
  and the per-season manifest `[{number, episodes: [1..count]}]`. A TMDB answer
  is an input (`TmdbResponse`). A non-200 answer gives `(0, [])`.
- **Shows**: the show record `{"ids": {"tmdb": id}}` as a class, because
  `mark_watched_batch_simkl` adds `seasons` to it in place. Seasons are added
  only when the total is positive.
- **Csv**: `process_csv`. It turns the rows into movie ids, show records, a
  last-write-wins id→URL map and an id→rating map for rated movie rows.
- **Payloads**: the watched-history payload (one entry per movie with its
  rating) and the watchlist payload (every entry added to `plantowatch`).
- **SimklHistory**: `extract_tmdb_ids_from_simkl` over a JSON value. Its three
  passes collect the stringified `tmdb` ids of movies, of shows, and of anime
  (read through their `show` record). Every item without one is skipped.
- **Reconcile**: `compare_csv_and_simkl_history`. Movies are checked against
  the movie and anime ids, shows against the show ids only. Each missing item
  is reported with a Letterboxd URL from the CSV.
- **Decimal** and **Seqs**: Python's `str`/`int` on integers, and
  order-preserving filtering.

Ids are integers in the CSV and strings on the Simkl side. `Decimal.RoundTrip`
proves that `int(str(n)) == n`, so comparing renderings is comparing ids.
The diff is a pure function of the rows and the history, so running it twice
gives the same report.

`datetime.now()` is called once per movie (line 96), so `HistoryMovies` takes
a clock indexed by movie position.

## Model

| member | source | states |
|---|---|---|
| `Seasons.RegularEpisodeSum` | importLetterboxdintoSimkl.py:60-64 | with non-negative episode counts the total is non-negative |
| `Seasons.GetTotalEpisodesFromTmdb` | importLetterboxdintoSimkl.py:58-69 | for a 200 answer: total = sum of `episode_count` over seasons numbered above 0, and the season list is returned unchanged; for any other status: `(0, [])` |
| `Seasons.EpisodeRange` | importLetterboxdintoSimkl.py:89 | `range(1, count + 1)`: exactly `count` episodes (none when `count <= 0`), the i-th numbered i + 1, so 1, 2, … strictly increasing |
| `Seasons.Manifest` | importLetterboxdintoSimkl.py:86-92 | no more entries than seasons; no entry is numbered 0 or below |
| `Seasons.RegularEpisodeSumAppend` | importLetterboxdintoSimkl.py:62-64 | the total of a concatenation is the sum of the totals |
| `Seasons.ManifestCountsRegularSeasons` | importLetterboxdintoSimkl.py:86-92 | one manifest entry per regular season, in TMDB's order, each built from that season |
| `Seasons.ManifestAppend` | importLetterboxdintoSimkl.py:86-92 | the manifest of a concatenation is the concatenation of the manifests, so entries keep season order |
| `Seasons.SpecialsIgnored` | importLetterboxdintoSimkl.py:63 | a season numbered 0 or below, wherever it stands, changes neither the total nor the manifest |
| `Seasons.ManifestMembership` | importLetterboxdintoSimkl.py:86-92 | an entry is in the manifest iff some season numbered above 0 has that number and `episodes == range(1, count + 1)` |
| `Seasons.ManifestEpisodeTotal` | importLetterboxdintoSimkl.py:60-64 | with non-negative counts the manifest marks exactly as many episodes as the total reports |
| `Seasons.PositiveTotalListsAnEpisode` | importLetterboxdintoSimkl.py:85-92 | when the total is positive the attached manifest lists at least one episode |
| `Shows.ShowRecord.constructor` | importLetterboxdintoSimkl.py:157 | a new record `{"ids": {"tmdb": id}}` with no `seasons` |
| `Shows.ShowRecord.ExpandFromTmdb` | importLetterboxdintoSimkl.py:82-92 | `seasons` becomes the manifest exactly when the TMDB total is positive; otherwise the record is left unchanged |
| `Csv.UrlMap` | importLetterboxdintoSimkl.py:148-149 | the URL map has a key for the id of every row, of any `Type`, and no other key |
| `Csv.RatingMap` | importLetterboxdintoSimkl.py:151-155 | an id has a rating iff some `movie` row with that id has a filled `Rating`; show rows never store one |
| `Csv.ProcessCsv` | importLetterboxdintoSimkl.py:139-159 | movie ids = ids of `movie` rows in order; one fresh record per `show` row in order, distinct, without seasons; the URL and rating maps as above |
| `Csv.IdsOfKindAppend` | importLetterboxdintoSimkl.py:145-157 | the ids of a concatenation of rows are the concatenated ids: file order is kept |
| `Csv.IdsOfKindMembership` | importLetterboxdintoSimkl.py:151-157 | an id is listed for a `Type` iff some row of that `Type` has it |
| `Csv.KindsPartitionRows` | importLetterboxdintoSimkl.py:151-157 | movies + shows never exceed the rows, and equal them iff every row is a movie or a show |
| `Csv.UnrecognisedRowIgnored` | importLetterboxdintoSimkl.py:148-157 | a row of any other `Type` adds no movie, no show and no rating, but still writes its URL |
| `Csv.UrlMapLastWins` | importLetterboxdintoSimkl.py:149 | the URL stored for an id is that of the last row with that id |
| `Csv.RatingMapLastWins` | importLetterboxdintoSimkl.py:153-155 | the rating stored for an id is that of the last rated `movie` row with that id |
| `Payloads.HistoryMovies` | importLetterboxdintoSimkl.py:96 | one entry per movie id, same order; entry i has id `movies[i]`, the i-th clock reading, and a rating iff the id is in the rating map, equal to the map's value |
| `Payloads.MarkWatchedBatch` | importLetterboxdintoSimkl.py:81-98 | every show record gets what `ExpandFromTmdb` gives for its TMDB answer (even if listed twice); the payload holds the movie entries and the same show records |
| `Payloads.HistoryRatingFromRows` | importLetterboxdintoSimkl.py:96 | from the CSV onwards: a watched movie carries the rating of the last rated `movie` row with its id |
| `Payloads.HistoryUnratedFromRows` | importLetterboxdintoSimkl.py:96 | a watched movie with no rated `movie` row carries no rating |
| `Payloads.PlanToWatchEntries` | importLetterboxdintoSimkl.py:119 | every watchlist entry goes to `plantowatch` |
| `Payloads.WatchlistPayloadOf` | importLetterboxdintoSimkl.py:118-121 | every movie and show entry goes to `plantowatch` (corrected show entries, see Findings) |
| `Payloads.WatchlistPayloadAsWritten` | importLetterboxdintoSimkl.py:120 | as written, show entry i nests the whole show record i under `tmdb` |
| `Payloads.PlanToWatchEntriesRoundTrip` | importLetterboxdintoSimkl.py:119 | reading the ids back from the entries gives the input ids, same length and order |
| `Payloads.WatchlistRoundTrip` | importLetterboxdintoSimkl.py:118-121 | the watchlist payload names exactly the movie ids and the show ids, in order |
| `Payloads.WatchlistAsWrittenNestsShows` | importLetterboxdintoSimkl.py:120 | as written, one show makes the show list unreadable as ids, while the movie list is unaffected |
| `SimklHistory.TmdbIdOf` | importLetterboxdintoSimkl.py:187-196 | an item yields an id iff it is an object whose record holds an `ids` object with a scalar `tmdb`; a non-object item or one without the record yields none |
| `SimklHistory.PassItems` | importLetterboxdintoSimkl.py:186 | a missing key iterates nothing; a list iterates its items; an object or string yields nothing usable; null, a boolean or a number cannot be iterated |
| `SimklHistory.HistoryIndexOf` | importLetterboxdintoSimkl.py:180-224 | a non-object history fails; extraction succeeds iff every present `movies`/`shows`/`anime` value is iterable; a non-iterable `movies` fails first; each list has at most one id per item |
| `SimklHistory.IdsOf` | importLetterboxdintoSimkl.py:186-196 | a pass collects at most one id per item |
| `SimklHistory.CollectIds` | importLetterboxdintoSimkl.py:186-196 | the loop collects, in order, the id of every item that has one |
| `SimklHistory.ExtractTmdbIdsFromSimkl` | importLetterboxdintoSimkl.py:180-224 | movies from `movie` records, shows from `show` records, anime from their `show` records; an error only for a non-object history or a non-iterable list |
| `SimklHistory.IdsOfMembership` | importLetterboxdintoSimkl.py:189-191 | an id is collected iff some item has a `tmdb` entry under its record's `ids` that renders to it |
| `SimklHistory.IdsOfAppend` | importLetterboxdintoSimkl.py:186-191 | ids keep the order of their items |
| `SimklHistory.SkippedItemIgnored` | importLetterboxdintoSimkl.py:193-196 | an item without a usable `tmdb` can be removed without changing the pass |
| `SimklHistory.MissingKeyGivesNoIds` | importLetterboxdintoSimkl.py:186 | a missing `movies`, `shows` or `anime` key gives an empty list |
| `SimklHistory.AnimeReadThroughShowRecord` | importLetterboxdintoSimkl.py:214 | an anime item is indexed through its `show` record, not an `anime` record |
| `Seqs.Filter` | importLetterboxdintoSimkl.py:236-237 | an element is kept iff it is in the input and passes the test; never longer than the input |
| `Seqs.FilterIsSubsequence` | importLetterboxdintoSimkl.py:236-237 | a filtered list is a subsequence of its input |
| `Seqs.FilterAppend` | importLetterboxdintoSimkl.py:236-237 | filtering a concatenation is concatenating the filtered parts |
| `Decimal.RoundTrip` | importLetterboxdintoSimkl.py:243 | `int(str(n)) == n` for every integer |
| `Decimal.RenderingInjective` | importLetterboxdintoSimkl.py:232-236 | two ids have the same string form iff they are equal |
| `Reconcile.CsvIds` | importLetterboxdintoSimkl.py:232-233 | the CSV ids of a `Type` are those of `process_csv`, rendered with `str`, same order |
| `Reconcile.CsvIdsMembership` | importLetterboxdintoSimkl.py:232-233 | a string is a CSV id of a `Type` iff it renders the id of some row of that `Type` |
| `Reconcile.MissingMovieIds` | importLetterboxdintoSimkl.py:236 | an id is missing iff it is a CSV movie id listed neither as a Simkl movie nor as an anime; no longer than the CSV list |
| `Reconcile.MissingShowIds` | importLetterboxdintoSimkl.py:237 | an id is missing iff it is a CSV show id not listed as a Simkl show; no longer than the CSV list |
| `Reconcile.DiffAsWritten` | importLetterboxdintoSimkl.py:240-251 | the printed report names exactly the missing movie ids and then the missing show ids, in CSV order |
| `Reconcile.Diff` | importLetterboxdintoSimkl.py:240-251 | the corrected report names exactly the missing ids, in CSV order (corrected lookup, see Findings) |
| `Reconcile.CompareCsvAndSimklHistoryAsWritten` | importLetterboxdintoSimkl.py:227-251 | a failed extraction propagates; on success every reported movie is a CSV movie absent from Simkl's movies and anime, every reported show a CSV show absent from its shows |
| `Reconcile.CompareCsvAndSimklHistory` | importLetterboxdintoSimkl.py:227-251 | the same guarantees with the corrected URL lookup (see Findings) |
| `Reconcile.FirstUrlAsWrittenFound` | importLetterboxdintoSimkl.py:243 | the script's lookup finds the URL of the first row with the id, whatever its `Type` |
| `Reconcile.ReportedUrlsAsWritten` | importLetterboxdintoSimkl.py:240-251 | as written, every reported item carries the URL of the first CSV row whose id renders to the item's id, and the lookup never misses |
| `Reconcile.MissingMoviesExactly` | importLetterboxdintoSimkl.py:236 | a movie is missing iff it is a CSV movie and Simkl lists it neither as a movie nor as an anime |
| `Reconcile.MissingShowsExactly` | importLetterboxdintoSimkl.py:237 | a show is missing iff it is a CSV show and Simkl does not list it as a show |
| `Reconcile.MissingAreSubsequences` | importLetterboxdintoSimkl.py:236-237 | both missing lists are subsequences of the CSV lists |
| `Reconcile.AnimeMatchesMoviesOnly` | importLetterboxdintoSimkl.py:236-237 | an id Simkl lists only as anime is matched for a CSV movie but reported for a CSV show |
| `Reconcile.FirstUrlOfKindFound` | importLetterboxdintoSimkl.py:250 | the corrected lookup finds the URL of the first row of that `Type` with the id |
| `Reconcile.ReportedUrls` | importLetterboxdintoSimkl.py:240-251 | every reported item carries the URL of the first CSV row of its kind with its id (corrected lookup, see Findings) |
| `Reconcile.FirstUrlsAgree` | importLetterboxdintoSimkl.py:243 | when every row with an id has one `Type`, the script's lookup and the corrected one agree |
| `Reconcile.AsWrittenAgreesWithoutSharedIds` | importLetterboxdintoSimkl.py:243-250 | with no id shared across `Type`s, the script's report equals the corrected report |
| `Reconcile.SharedIdGetsWrongUrl` | importLetterboxdintoSimkl.py:250 | movie 100 and show 100: as written the missing show gets the movie's URL, corrected it gets its own |
| `Reconcile.EndToEndAllRecorded` | importLetterboxdintoSimkl.py:227-237 | a rated movie and a show both in the history: nothing missing |
| `Reconcile.EndToEndShowMissing` | importLetterboxdintoSimkl.py:227-251 | the show absent from the history is reported as `"200"` with its URL |

## Findings

| source | as written | input that shows it | evidently intended | confidence | as-written member | corrected member |
|---|---|---|---|---|---|---|
| importLetterboxdintoSimkl.py:120 | each show entry is `{"ids": {"tmdb": show_id}}`, but `show_id` is the record `{"ids": {"tmdb": n}}` that `process_csv` built (line 157); the id ends up nested two levels deep | a watchlist CSV with the single row `200, show` | `{"ids": {"tmdb": 200}, "to": "plantowatch"}` | high, not executed | `Payloads.WatchlistPayloadAsWritten`, `Payloads.WatchlistAsWrittenNestsShows` | `Payloads.WatchlistPayloadOf`, `Payloads.WatchlistRoundTrip` |
| importLetterboxdintoSimkl.py:243-250 | a missing item's URL comes from the first CSV row with that TMDB id, whatever its `Type`; TMDB numbers films and TV series separately, so the ids can collide | rows `100, movie, …/a/` and `100, show, …/b/`, with Simkl listing movie 100 only | the missing show is reported with `…/b/` | medium, not executed | `Reconcile.DiffAsWritten`, `Reconcile.SharedIdGetsWrongUrl` | `Reconcile.Diff`, `Reconcile.ReportedUrls` |

`Reconcile.CompareCsvAndSimklHistoryAsWritten` composes the extraction with
`DiffAsWritten`, and `Reconcile.ReportedUrlsAsWritten` states the URL the script
prints; `Reconcile.CompareCsvAndSimklHistory` uses the corrected `Diff`.
`Reconcile.AsWrittenAgreesWithoutSharedIds` shows that the two reports differ
only when an id is shared across types.

## Left out

- The OAuth PIN flow and the credentials (lines 17-50) are not modelled: they are network requests and a blocking prompt.
- The HTTP requests and their status checks for the Simkl history POST, the watchlist POST and the history GET are not modelled. The models stop at the payloads and start again from the history JSON. For TMDB, the response (status and season list) is a parameter.
- `datetime.now()` is not modelled: it is a clock parameter.
- Printing, the 5-second sleep, the yes/no prompt, the file paths and `pd.read_csv` are not modelled. Rows are a sequence of `Row` records.
- JSON serialisation of the payloads is not modelled.
- A TMDB answer without a `seasons` key, or with non-integer season fields, raises outside any `try` in the script. The model's typed `TmdbSeason` cannot express it.
- Csv.Row: the `TMDB ID` is an integer and the `Rating` is the integer `int(...)` gives. A CSV with an empty id cell, which pandas reads as a float column, is not modelled. An empty URL cell is read as NaN, and a missing URL column makes the diff's lookup raise; both are not modelled. The URL is a string, `""` when the column is absent.
- SimklHistory.TmdbIdOf: a `tmdb` value that is a list or an object is skipped, where Python would append its `repr`. JSON floats are not part of `Json`.
- Decimal.ParseInt: it accepts only an optional `-` followed by ASCII digits. Python's `int` also accepts `+`, surrounding whitespace, underscores and other Unicode digits. It is only ever applied to `DecimalString` output.
- The `letterboxd_urls` map that `process_csv` returns is modelled (`Csv.UrlMap`), although the script's main flow never uses it.
