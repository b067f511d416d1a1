/** The rows of a Letterboxd export enriched with TMDB ids, and
    `process_csv`, which sorts them into movie ids, show records, a URL map
    and a rating map. */
module Csv {
  import opened Wrappers
  import opened Shows

  const MovieKind := "movie"
  const ShowKind := "show"

  /** One CSV row: `TMDB ID`, `Type`, `Letterboxd URL` (the empty string when
      the file has no such column) and `Rating` (None when the cell is empty). */
  datatype Row = Row(tmdbId: int, kind: string, url: string, rating: Option<int>)

  /** The ids of the rows of one `Type`, in file order. */
  function IdsOfKind(rows: seq<Row>, kind: string): (ids: seq<int>)
    ensures |ids| <= |rows|
  {
    if rows == [] then []
    else
      var last := rows[|rows| - 1];
      IdsOfKind(rows[..|rows| - 1], kind) + (if last.kind == kind then [last.tmdbId] else [])
  }

  /** `letterboxd_urls`: every row writes its URL under its id, so a later
      row overwrites an earlier one with the same id. */
  function UrlMap(rows: seq<Row>): (urls: map<int, string>)
    ensures urls.Keys == set i | 0 <= i < |rows| :: rows[i].tmdbId
  {
    if rows == [] then map[]
    else
      var last := rows[|rows| - 1];
      var init := UrlMap(rows[..|rows| - 1]);
      assert forall i :: 0 <= i < |rows| - 1 ==> rows[..|rows| - 1][i] == rows[i];
      init[last.tmdbId := last.url]
  }

  /** A movie row for `id` whose `Rating` cell is filled. */
  predicate IsRatedMovieRow(row: Row, id: int)
  {
    row.kind == MovieKind && row.tmdbId == id && row.rating.Some?
  }

  /** `movies_with_ratings`: only movie rows with a rating write, later ones
      overwriting earlier ones. */
  function RatingMap(rows: seq<Row>): (ratings: map<int, int>)
    ensures forall id :: id in ratings <==> exists i :: 0 <= i < |rows| && IsRatedMovieRow(rows[i], id)
  {
    if rows == [] then map[]
    else
      var last := rows[|rows| - 1];
      var init := RatingMap(rows[..|rows| - 1]);
      assert forall i :: 0 <= i < |rows| - 1 ==> rows[..|rows| - 1][i] == rows[i];
      if last.kind == MovieKind && last.rating.Some? then init[last.tmdbId := last.rating.value] else init
  }

  /** The row loop of `process_csv`. */
  method ProcessCsv(rows: seq<Row>) returns (movies: seq<int>, shows: seq<ShowRecord>, urls: map<int, string>, ratings: map<int, int>)
    ensures movies == IdsOfKind(rows, MovieKind)
    ensures ShowTmdbIds(shows) == IdsOfKind(rows, ShowKind)
    ensures forall i :: 0 <= i < |shows| ==> fresh(shows[i]) && shows[i].seasons == None
    ensures forall i, j :: 0 <= i < j < |shows| ==> shows[i] != shows[j]
    ensures urls == UrlMap(rows)
    ensures ratings == RatingMap(rows)
  {
    movies, shows, urls, ratings := [], [], map[], map[];
    var i := 0;
    while i < |rows|
      invariant 0 <= i <= |rows|
      invariant movies == IdsOfKind(rows[..i], MovieKind)
      invariant ShowTmdbIds(shows) == IdsOfKind(rows[..i], ShowKind)
      invariant forall k :: 0 <= k < |shows| ==> fresh(shows[k]) && shows[k].seasons == None
      invariant forall k, j :: 0 <= k < j < |shows| ==> shows[k] != shows[j]
      invariant urls == UrlMap(rows[..i])
      invariant ratings == RatingMap(rows[..i])
    {
      assert rows[..i + 1][..i] == rows[..i];
      var row := rows[i];
      urls := urls[row.tmdbId := row.url];
      if row.kind == MovieKind {
        movies := movies + [row.tmdbId];
        if row.rating.Some? {
          ratings := ratings[row.tmdbId := row.rating.value];
        }
      } else if row.kind == ShowKind {
        var show := new ShowRecord(row.tmdbId);
        shows := shows + [show];
      }
      i := i + 1;
    }
    assert rows[..i] == rows;
  }

  lemma {:induction false} IdsOfKindAppend(a: seq<Row>, b: seq<Row>, kind: string)
    ensures IdsOfKind(a + b, kind) == IdsOfKind(a, kind) + IdsOfKind(b, kind)
    decreases |b|
  {
    if b == [] {
      assert a + b == a;
    } else {
      var b' := b[..|b| - 1];
      assert (a + b)[..|a + b| - 1] == a + b';
      IdsOfKindAppend(a, b', kind);
    }
  }

  lemma {:induction false} IdsOfKindMembership(rows: seq<Row>, kind: string, id: int)
    ensures id in IdsOfKind(rows, kind) <==> exists i :: 0 <= i < |rows| && rows[i].kind == kind && rows[i].tmdbId == id
  {
    if rows != [] {
      var init := rows[..|rows| - 1];
      IdsOfKindMembership(init, kind, id);
      assert forall i :: 0 <= i < |init| ==> init[i] == rows[i];
    }
  }

  /** Each row lands in at most one of the two lists, and the lists cover
      every row exactly when every row is a movie or a show. */
  lemma {:induction false} KindsPartitionRows(rows: seq<Row>)
    ensures |IdsOfKind(rows, MovieKind)| + |IdsOfKind(rows, ShowKind)| <= |rows|
    ensures |IdsOfKind(rows, MovieKind)| + |IdsOfKind(rows, ShowKind)| == |rows| <==>
              forall i :: 0 <= i < |rows| ==> rows[i].kind == MovieKind || rows[i].kind == ShowKind
  {
    if rows != [] {
      var init := rows[..|rows| - 1];
      KindsPartitionRows(init);
      assert forall i :: 0 <= i < |init| ==> init[i] == rows[i];
    }
  }

  /** A row whose `Type` is neither `movie` nor `show` adds no movie, no show
      and no rating, wherever it stands; it only writes its URL. */
  lemma UnrecognisedRowIgnored(before: seq<Row>, row: Row, after: seq<Row>)
    requires row.kind != MovieKind && row.kind != ShowKind
    ensures IdsOfKind(before + [row] + after, MovieKind) == IdsOfKind(before + after, MovieKind)
    ensures IdsOfKind(before + [row] + after, ShowKind) == IdsOfKind(before + after, ShowKind)
    ensures RatingMap(before + [row]) == RatingMap(before)
    ensures UrlMap(before + [row]) == UrlMap(before)[row.tmdbId := row.url]
  {
    assert [row][..0] == [];
    assert (before + [row])[..|before|] == before;
    IdsOfKindAppend(before + [row], after, MovieKind);
    IdsOfKindAppend(before, [row], MovieKind);
    IdsOfKindAppend(before, after, MovieKind);
    IdsOfKindAppend(before + [row], after, ShowKind);
    IdsOfKindAppend(before, [row], ShowKind);
    IdsOfKindAppend(before, after, ShowKind);
  }

  /** The URL stored for an id is that of the LAST row with that id. */
  lemma {:induction false} UrlMapLastWins(rows: seq<Row>, k: nat)
    requires k < |rows|
    requires forall j :: k < j < |rows| ==> rows[j].tmdbId != rows[k].tmdbId
    ensures rows[k].tmdbId in UrlMap(rows) && UrlMap(rows)[rows[k].tmdbId] == rows[k].url
  {
    var init := rows[..|rows| - 1];
    if k < |rows| - 1 {
      assert init[k] == rows[k];
      UrlMapLastWins(init, k);
    }
  }

  /** The rating stored for an id is that of the LAST rated movie row with that
      id; an id with no rated movie row has none (show rows never store one). */
  lemma {:induction false} RatingMapLastWins(rows: seq<Row>, id: int, k: nat)
    requires k < |rows| && IsRatedMovieRow(rows[k], id)
    requires forall j :: k < j < |rows| ==> !IsRatedMovieRow(rows[j], id)
    ensures id in RatingMap(rows) && RatingMap(rows)[id] == rows[k].rating.value
  {
    var init := rows[..|rows| - 1];
    if k < |rows| - 1 {
      assert init[k] == rows[k];
      assert forall j :: k < j < |init| ==> init[j] == rows[j];
      RatingMapLastWins(init, id, k);
    }
  }
}
