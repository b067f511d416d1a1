/** `compare_csv_and_simkl_history`: which CSV movies and shows Simkl's
    history does not list, each reported with its Letterboxd URL. */
module Reconcile {
  import opened Wrappers
  import opened Seqs
  import opened Decimal
  import opened Csv
  import opened SimklHistory

  /** `csv_data[csv_data['Type'] == kind]['TMDB ID'].astype(str).tolist()` */
  function CsvIds(rows: seq<Row>, kind: string): (ids: seq<string>)
    ensures |ids| == |IdsOfKind(rows, kind)|
    ensures forall i :: 0 <= i < |ids| ==> ids[i] == DecimalString(IdsOfKind(rows, kind)[i])
  {
    var numbers := IdsOfKind(rows, kind);
    seq(|numbers|, i requires 0 <= i < |numbers| => DecimalString(numbers[i]))
  }

  /** `missing_movies`: a movie counts as recorded when Simkl lists its id
      among the movies or among the anime. */
  function MissingMovieIds(rows: seq<Row>, index: HistoryIndex): (missing: seq<string>)
    ensures |missing| <= |CsvIds(rows, MovieKind)|
    ensures forall id :: id in missing <==>
              id in CsvIds(rows, MovieKind) && id !in index.movies && id !in index.anime
  {
    Filter(id => id !in index.movies && id !in index.anime, CsvIds(rows, MovieKind))
  }

  /** `missing_shows`: only the show list is consulted. */
  function MissingShowIds(rows: seq<Row>, index: HistoryIndex): (missing: seq<string>)
    ensures |missing| <= |CsvIds(rows, ShowKind)|
    ensures forall id :: id in missing <==> id in CsvIds(rows, ShowKind) && id !in index.shows
  {
    Filter(id => id !in index.shows, CsvIds(rows, ShowKind))
  }

  /** One reported item: its id and its Letterboxd URL. A None URL stands for
      the lookup raising (an id `int` cannot parse, or no matching row). */
  datatype MissingItem = MissingItem(tmdbId: string, url: Option<string>)

  datatype Report = Report(missingMovies: seq<MissingItem>, missingShows: seq<MissingItem>)

  /** `csv_data[csv_data['TMDB ID'] == id]['Letterboxd URL'].values[0]`: the
      URL of the first row with the id, whatever its `Type`. */
  function FirstUrlAsWritten(rows: seq<Row>, id: int): Option<string>
  {
    if rows == [] then None
    else if rows[0].tmdbId == id then Some(rows[0].url)
    else FirstUrlAsWritten(rows[1..], id)
  }

  /** The URL of the first row with the id and the given `Type`. */
  function FirstUrlOfKind(rows: seq<Row>, id: int, kind: string): Option<string>
  {
    if rows == [] then None
    else if rows[0].tmdbId == id && rows[0].kind == kind then Some(rows[0].url)
    else FirstUrlOfKind(rows[1..], id, kind)
  }

  function LocateAsWritten(rows: seq<Row>, ids: seq<string>): seq<MissingItem>
  {
    seq(|ids|, i requires 0 <= i < |ids| =>
      MissingItem(ids[i], match ParseInt(ids[i]) case Some(n) => FirstUrlAsWritten(rows, n) case None => None))
  }

  function Locate(rows: seq<Row>, ids: seq<string>, kind: string): seq<MissingItem>
  {
    seq(|ids|, i requires 0 <= i < |ids| =>
      MissingItem(ids[i], match ParseInt(ids[i]) case Some(n) => FirstUrlOfKind(rows, n, kind) case None => None))
  }

  /** The report as the script prints it (lines 240-251). */
  function DiffAsWritten(rows: seq<Row>, index: HistoryIndex): (report: Report)
    ensures |report.missingMovies| == |MissingMovieIds(rows, index)|
    ensures forall i :: 0 <= i < |report.missingMovies| ==> report.missingMovies[i].tmdbId == MissingMovieIds(rows, index)[i]
    ensures |report.missingShows| == |MissingShowIds(rows, index)|
    ensures forall i :: 0 <= i < |report.missingShows| ==> report.missingShows[i].tmdbId == MissingShowIds(rows, index)[i]
  {
    Report(LocateAsWritten(rows, MissingMovieIds(rows, index)), LocateAsWritten(rows, MissingShowIds(rows, index)))
  }

  /** The report with each URL taken from a row of the item's own `Type`. */
  function Diff(rows: seq<Row>, index: HistoryIndex): (report: Report)
    ensures |report.missingMovies| == |MissingMovieIds(rows, index)|
    ensures forall i :: 0 <= i < |report.missingMovies| ==> report.missingMovies[i].tmdbId == MissingMovieIds(rows, index)[i]
    ensures |report.missingShows| == |MissingShowIds(rows, index)|
    ensures forall i :: 0 <= i < |report.missingShows| ==> report.missingShows[i].tmdbId == MissingShowIds(rows, index)[i]
  {
    Report(Locate(rows, MissingMovieIds(rows, index), MovieKind), Locate(rows, MissingShowIds(rows, index), ShowKind))
  }

  /** `compare_csv_and_simkl_history` as written: extract, then diff with
      the lookup of lines 243 and 250. */
  function CompareCsvAndSimklHistoryAsWritten(rows: seq<Row>, history: Json): (result: Result<Report, ExtractError>)
    ensures HistoryIndexOf(history).Failure? ==> result == Failure(HistoryIndexOf(history).error)
    ensures result.Success? ==> HistoryIndexOf(history).Success? && ReportsOnlyMissing(rows, HistoryIndexOf(history).value, result.value)
  {
    match HistoryIndexOf(history)
    case Failure(e) => Failure(e)
    case Success(index) =>
      var report := DiffAsWritten(rows, index);
      assert ReportsOnlyMissing(rows, index, report) by { ReportedIdsAreMissing(rows, index, report); }
      Success(report)
  }

  /** Extract, then diff with the corrected URL lookup (see Findings). */
  function CompareCsvAndSimklHistory(rows: seq<Row>, history: Json): (result: Result<Report, ExtractError>)
    ensures HistoryIndexOf(history).Failure? ==> result == Failure(HistoryIndexOf(history).error)
    ensures result.Success? ==> HistoryIndexOf(history).Success? && ReportsOnlyMissing(rows, HistoryIndexOf(history).value, result.value)
  {
    match HistoryIndexOf(history)
    case Failure(e) => Failure(e)
    case Success(index) =>
      var report := Diff(rows, index);
      assert ReportsOnlyMissing(rows, index, report) by { ReportedIdsAreMissing(rows, index, report); }
      Success(report)
  }

  /** Every reported movie is a CSV movie Simkl lists neither as a movie nor
      as an anime, and every reported show a CSV show it does not list as a
      show. */
  predicate ReportsOnlyMissing(rows: seq<Row>, index: HistoryIndex, report: Report)
  {
    && (forall item :: item in report.missingMovies ==>
          item.tmdbId in CsvIds(rows, MovieKind) && item.tmdbId !in index.movies && item.tmdbId !in index.anime)
    && (forall item :: item in report.missingShows ==>
          item.tmdbId in CsvIds(rows, ShowKind) && item.tmdbId !in index.shows)
  }

  /** Any report that names the missing ids in order reports only missing items. */
  lemma ReportedIdsAreMissing(rows: seq<Row>, index: HistoryIndex, report: Report)
    requires |report.missingMovies| == |MissingMovieIds(rows, index)|
    requires forall i :: 0 <= i < |report.missingMovies| ==> report.missingMovies[i].tmdbId == MissingMovieIds(rows, index)[i]
    requires |report.missingShows| == |MissingShowIds(rows, index)|
    requires forall i :: 0 <= i < |report.missingShows| ==> report.missingShows[i].tmdbId == MissingShowIds(rows, index)[i]
    ensures ReportsOnlyMissing(rows, index, report)
  {
    forall item | item in report.missingMovies
      ensures item.tmdbId in CsvIds(rows, MovieKind) && item.tmdbId !in index.movies && item.tmdbId !in index.anime
    {
      var i :| 0 <= i < |report.missingMovies| && report.missingMovies[i] == item;
      assert item.tmdbId in MissingMovieIds(rows, index);
    }
    forall item | item in report.missingShows
      ensures item.tmdbId in CsvIds(rows, ShowKind) && item.tmdbId !in index.shows
    {
      var i :| 0 <= i < |report.missingShows| && report.missingShows[i] == item;
      assert item.tmdbId in MissingShowIds(rows, index);
    }
  }

  /** `id` is the rendering of the id of some row of this `Type`. */
  predicate RenderedIdOfKind(rows: seq<Row>, kind: string, id: string)
  {
    exists i :: 0 <= i < |rows| && rows[i].kind == kind && DecimalString(rows[i].tmdbId) == id
  }

  lemma CsvIdsMembership(rows: seq<Row>, kind: string, id: string)
    ensures id in CsvIds(rows, kind) <==> RenderedIdOfKind(rows, kind, id)
  {
    var ids := CsvIds(rows, kind);
    var numbers := IdsOfKind(rows, kind);
    if id in ids {
      var j :| 0 <= j < |ids| && ids[j] == id;
      IdsOfKindMembership(rows, kind, numbers[j]);
    }
    if RenderedIdOfKind(rows, kind, id) {
      var i :| 0 <= i < |rows| && rows[i].kind == kind && DecimalString(rows[i].tmdbId) == id;
      IdsOfKindMembership(rows, kind, rows[i].tmdbId);
      var j :| 0 <= j < |numbers| && numbers[j] == rows[i].tmdbId;
      assert ids[j] == id;
    }
  }

  /** A movie is reported exactly when the CSV has it as a movie and Simkl
      lists it neither as a movie nor as an anime. */
  lemma MissingMoviesExactly(rows: seq<Row>, index: HistoryIndex, id: string)
    ensures id in MissingMovieIds(rows, index) <==>
              RenderedIdOfKind(rows, MovieKind, id) && id !in index.movies && id !in index.anime
  {
    CsvIdsMembership(rows, MovieKind, id);
  }

  /** A show is reported exactly when the CSV has it as a show and Simkl does
      not list it as a show. */
  lemma MissingShowsExactly(rows: seq<Row>, index: HistoryIndex, id: string)
    ensures id in MissingShowIds(rows, index) <==> RenderedIdOfKind(rows, ShowKind, id) && id !in index.shows
  {
    CsvIdsMembership(rows, ShowKind, id);
  }

  /** Both reports keep the CSV's order and add nothing to it. */
  lemma MissingAreSubsequences(rows: seq<Row>, index: HistoryIndex)
    ensures IsSubsequence(MissingMovieIds(rows, index), CsvIds(rows, MovieKind))
    ensures IsSubsequence(MissingShowIds(rows, index), CsvIds(rows, ShowKind))
  {
    FilterIsSubsequence(id => id !in index.movies && id !in index.anime, CsvIds(rows, MovieKind));
    FilterIsSubsequence(id => id !in index.shows, CsvIds(rows, ShowKind));
  }

  /** An id Simkl lists only as an anime is matched for a CSV movie but not
      for a CSV show. */
  lemma AnimeMatchesMoviesOnly(rows: seq<Row>, index: HistoryIndex, n: int)
    requires DecimalString(n) in index.anime && DecimalString(n) !in index.shows
    requires exists i :: 0 <= i < |rows| && rows[i].kind == ShowKind && rows[i].tmdbId == n
    ensures DecimalString(n) !in MissingMovieIds(rows, index)
    ensures DecimalString(n) in MissingShowIds(rows, index)
  {
    MissingMoviesExactly(rows, index, DecimalString(n));
    MissingShowsExactly(rows, index, DecimalString(n));
  }

  /** Row `k` is the first row of its `Type` with its id. */
  predicate IsFirstOfKind(rows: seq<Row>, k: int, kind: string)
    requires 0 <= k < |rows|
  {
    rows[k].kind == kind && forall j :: 0 <= j < k ==> !(rows[j].kind == kind && rows[j].tmdbId == rows[k].tmdbId)
  }

  lemma {:induction false} FirstUrlOfKindFound(rows: seq<Row>, n: int, kind: string, i: nat)
    requires i < |rows| && rows[i].kind == kind && rows[i].tmdbId == n
    ensures exists k :: 0 <= k <= i && rows[k].tmdbId == n && IsFirstOfKind(rows, k, kind) &&
                        FirstUrlOfKind(rows, n, kind) == Some(rows[k].url)
  {
    if !(rows[0].tmdbId == n && rows[0].kind == kind) {
      FirstUrlOfKindFound(rows[1..], n, kind, i - 1);
      var k :| 0 <= k <= i - 1 && rows[1..][k].tmdbId == n && IsFirstOfKind(rows[1..], k, kind) &&
               FirstUrlOfKind(rows[1..], n, kind) == Some(rows[1..][k].url);
      assert IsFirstOfKind(rows, k + 1, kind) by {
        forall j | 0 <= j < k + 1
          ensures !(rows[j].kind == kind && rows[j].tmdbId == rows[k + 1].tmdbId)
        {
          if j > 0 { assert rows[j] == rows[1..][j - 1]; }
        }
      }
    }
  }

  /** Every reported item names the Letterboxd URL of the first CSV row of
      its kind with its id: the `int` of the reported string is that id. */
  lemma ReportedUrls(rows: seq<Row>, index: HistoryIndex)
    ensures forall item :: item in Diff(rows, index).missingMovies ==>
              exists k :: 0 <= k < |rows| && IsFirstOfKind(rows, k, MovieKind) &&
                          DecimalString(rows[k].tmdbId) == item.tmdbId && item.url == Some(rows[k].url)
    ensures forall item :: item in Diff(rows, index).missingShows ==>
              exists k :: 0 <= k < |rows| && IsFirstOfKind(rows, k, ShowKind) &&
                          DecimalString(rows[k].tmdbId) == item.tmdbId && item.url == Some(rows[k].url)
  {
    LocatedUrls(rows, index, MovieKind, MissingMovieIds(rows, index));
    LocatedUrls(rows, index, ShowKind, MissingShowIds(rows, index));
  }

  lemma LocatedUrls(rows: seq<Row>, index: HistoryIndex, kind: string, ids: seq<string>)
    requires kind == MovieKind || kind == ShowKind
    requires ids == (if kind == MovieKind then MissingMovieIds(rows, index) else MissingShowIds(rows, index))
    ensures forall item :: item in Locate(rows, ids, kind) ==>
              exists k :: 0 <= k < |rows| && IsFirstOfKind(rows, k, kind) &&
                          DecimalString(rows[k].tmdbId) == item.tmdbId && item.url == Some(rows[k].url)
  {
    var items := Locate(rows, ids, kind);
    forall item | item in items
      ensures exists k :: 0 <= k < |rows| && IsFirstOfKind(rows, k, kind) &&
                          DecimalString(rows[k].tmdbId) == item.tmdbId && item.url == Some(rows[k].url)
    {
      var p :| 0 <= p < |items| && items[p] == item;
      var id := ids[p];
      assert id in ids;
      if kind == MovieKind {
        MissingMoviesExactly(rows, index, id);
      } else {
        MissingShowsExactly(rows, index, id);
      }
      var i :| 0 <= i < |rows| && rows[i].kind == kind && DecimalString(rows[i].tmdbId) == id;
      RoundTrip(rows[i].tmdbId);
      FirstUrlOfKindFound(rows, rows[i].tmdbId, kind, i);
    }
  }

  lemma {:induction false} FirstUrlAsWrittenFound(rows: seq<Row>, n: int, i: nat)
    requires i < |rows| && rows[i].tmdbId == n
    ensures exists k :: 0 <= k <= i && rows[k].tmdbId == n &&
                        (forall j :: 0 <= j < k ==> rows[j].tmdbId != n) &&
                        FirstUrlAsWritten(rows, n) == Some(rows[k].url)
  {
    if rows[0].tmdbId != n {
      FirstUrlAsWrittenFound(rows[1..], n, i - 1);
      var k :| 0 <= k <= i - 1 && rows[1..][k].tmdbId == n &&
               (forall j :: 0 <= j < k ==> rows[1..][j].tmdbId != n) &&
               FirstUrlAsWritten(rows[1..], n) == Some(rows[1..][k].url);
      forall j | 0 <= j < k + 1
        ensures rows[j].tmdbId != n
      {
        if j > 0 { assert rows[j] == rows[1..][j - 1]; }
      }
    }
  }

  /** As the script reports them: every item carries the Letterboxd URL of
      the first CSV row with its id, whatever that row's `Type`, and the
      lookup never fails for a reported id. */
  lemma ReportedUrlsAsWritten(rows: seq<Row>, index: HistoryIndex)
    ensures forall item :: item in DiffAsWritten(rows, index).missingMovies ==>
              exists k :: 0 <= k < |rows| && IsFirstWithId(rows, k) &&
                          DecimalString(rows[k].tmdbId) == item.tmdbId && item.url == Some(rows[k].url)
    ensures forall item :: item in DiffAsWritten(rows, index).missingShows ==>
              exists k :: 0 <= k < |rows| && IsFirstWithId(rows, k) &&
                          DecimalString(rows[k].tmdbId) == item.tmdbId && item.url == Some(rows[k].url)
  {
    LocatedUrlsAsWritten(rows, index, MovieKind, MissingMovieIds(rows, index));
    LocatedUrlsAsWritten(rows, index, ShowKind, MissingShowIds(rows, index));
  }

  /** No row before row `k` has a rendering equal to row `k`'s. */
  predicate IsFirstWithId(rows: seq<Row>, k: int)
    requires 0 <= k < |rows|
  {
    forall j :: 0 <= j < k ==> DecimalString(rows[j].tmdbId) != DecimalString(rows[k].tmdbId)
  }

  lemma LocatedUrlsAsWritten(rows: seq<Row>, index: HistoryIndex, kind: string, ids: seq<string>)
    requires kind == MovieKind || kind == ShowKind
    requires ids == (if kind == MovieKind then MissingMovieIds(rows, index) else MissingShowIds(rows, index))
    ensures forall item :: item in LocateAsWritten(rows, ids) ==>
              exists k :: 0 <= k < |rows| && IsFirstWithId(rows, k) &&
                          DecimalString(rows[k].tmdbId) == item.tmdbId && item.url == Some(rows[k].url)
  {
    var items := LocateAsWritten(rows, ids);
    forall item | item in items
      ensures exists k :: 0 <= k < |rows| && IsFirstWithId(rows, k) &&
                          DecimalString(rows[k].tmdbId) == item.tmdbId && item.url == Some(rows[k].url)
    {
      var p :| 0 <= p < |items| && items[p] == item;
      var id := ids[p];
      assert id in ids;
      if kind == MovieKind {
        MissingMoviesExactly(rows, index, id);
      } else {
        MissingShowsExactly(rows, index, id);
      }
      var i :| 0 <= i < |rows| && rows[i].kind == kind && DecimalString(rows[i].tmdbId) == id;
      var n := rows[i].tmdbId;
      RoundTrip(n);
      FirstUrlAsWrittenFound(rows, n, i);
      var k :| 0 <= k <= i && rows[k].tmdbId == n &&
               (forall j :: 0 <= j < k ==> rows[j].tmdbId != n) &&
               FirstUrlAsWritten(rows, n) == Some(rows[k].url);
      forall j | 0 <= j < k
        ensures DecimalString(rows[j].tmdbId) != DecimalString(rows[k].tmdbId)
      {
        RenderingInjective(rows[j].tmdbId, n);
      }
    }
  }

  /** Where every row with a given id has the same `Type`, the first row with
      the id is the first one of that `Type`. */
  lemma {:induction false} FirstUrlsAgree(rows: seq<Row>, n: int, kind: string)
    requires forall i :: 0 <= i < |rows| && rows[i].tmdbId == n ==> rows[i].kind == kind
    ensures FirstUrlAsWritten(rows, n) == FirstUrlOfKind(rows, n, kind)
  {
    if rows != [] && rows[0].tmdbId != n {
      assert forall i :: 0 <= i < |rows| - 1 ==> rows[1..][i] == rows[i + 1];
      FirstUrlsAgree(rows[1..], n, kind);
    }
  }

  /** A CSV in which no id is used by rows of two different `Type`s gets the
      same report from the script as from the corrected lookup. */
  lemma AsWrittenAgreesWithoutSharedIds(rows: seq<Row>, index: HistoryIndex)
    requires forall i, j :: 0 <= i < |rows| && 0 <= j < |rows| && rows[i].tmdbId == rows[j].tmdbId ==>
               rows[i].kind == rows[j].kind
    ensures DiffAsWritten(rows, index) == Diff(rows, index)
  {
    LocatorsAgree(rows, index, MovieKind, MissingMovieIds(rows, index));
    LocatorsAgree(rows, index, ShowKind, MissingShowIds(rows, index));
  }

  lemma LocatorsAgree(rows: seq<Row>, index: HistoryIndex, kind: string, ids: seq<string>)
    requires forall i, j :: 0 <= i < |rows| && 0 <= j < |rows| && rows[i].tmdbId == rows[j].tmdbId ==>
               rows[i].kind == rows[j].kind
    requires kind == MovieKind || kind == ShowKind
    requires ids == (if kind == MovieKind then MissingMovieIds(rows, index) else MissingShowIds(rows, index))
    ensures LocateAsWritten(rows, ids) == Locate(rows, ids, kind)
  {
    forall p | 0 <= p < |ids|
      ensures LocateAsWritten(rows, ids)[p] == Locate(rows, ids, kind)[p]
    {
      var id := ids[p];
      assert id in ids;
      if kind == MovieKind {
        MissingMoviesExactly(rows, index, id);
      } else {
        MissingShowsExactly(rows, index, id);
      }
      var i :| 0 <= i < |rows| && rows[i].kind == kind && DecimalString(rows[i].tmdbId) == id;
      RoundTrip(rows[i].tmdbId);
      FirstUrlsAgree(rows, rows[i].tmdbId, kind);
    }
  }

  lemma HundredRendering()
    ensures DecimalString(100) == "100" && DecimalString(200) == "200"
  {
  }

  /** A movie and a show that share TMDB id 100 (a film and a TV series are
      numbered separately on TMDB): with Simkl listing only the movie, the
      show is reported with the movie's URL as written, with its own URL
      once the lookup keeps to the show rows. */
  lemma SharedIdGetsWrongUrl()
    ensures var rows := [Row(100, MovieKind, "letterboxd.com/film/a/", None),
                         Row(100, ShowKind, "letterboxd.com/film/b/", None)];
            var index := HistoryIndex(["100"], [], []);
            DiffAsWritten(rows, index).missingShows == [MissingItem("100", Some("letterboxd.com/film/a/"))] &&
            Diff(rows, index).missingShows == [MissingItem("100", Some("letterboxd.com/film/b/"))]
  {
    var rows := [Row(100, MovieKind, "letterboxd.com/film/a/", None),
                 Row(100, ShowKind, "letterboxd.com/film/b/", None)];
    var index := HistoryIndex(["100"], [], []);
    HundredRendering();
    assert rows[..1][..0] == [];
    assert IdsOfKind(rows[..1], ShowKind) == [];
    assert IdsOfKind(rows, ShowKind) == [100];
    assert CsvIds(rows, ShowKind) == ["100"];
    assert MissingShowIds(rows, index) == ["100"];
    RoundTrip(100);
    assert ParseInt("100") == Some(100);
    assert FirstUrlAsWritten(rows, 100) == Some("letterboxd.com/film/a/");
    assert rows[1..][0] == rows[1];
    assert FirstUrlOfKind(rows, 100, ShowKind) == Some("letterboxd.com/film/b/");
    assert LocateAsWritten(rows, ["100"])[0] == MissingItem("100", Some("letterboxd.com/film/a/"));
    assert Locate(rows, ["100"], ShowKind)[0] == MissingItem("100", Some("letterboxd.com/film/b/"));
  }

  /** The two-row export of the end-to-end example: a movie rated 8 and a show. */
  function ExampleRows(): seq<Row>
  {
    [Row(100, MovieKind, "letterboxd.com/film/m/", Some(8)), Row(200, ShowKind, "letterboxd.com/film/s/", None)]
  }

  /** A Simkl history item whose `record` entry carries TMDB id `n`. */
  function ExampleItem(record: string, n: int): Json
  {
    JObj(map[record := JObj(map["ids" := JObj(map["tmdb" := JInt(n)])])])
  }

  lemma ExampleCsvIds()
    ensures CsvIds(ExampleRows(), MovieKind) == ["100"]
    ensures CsvIds(ExampleRows(), ShowKind) == ["200"]
  {
    var rows := ExampleRows();
    HundredRendering();
    assert rows[..1][..0] == [];
    assert IdsOfKind(rows[..1], MovieKind) == [100];
    assert IdsOfKind(rows, MovieKind) == [100];
    assert IdsOfKind(rows[..1], ShowKind) == [];
    assert IdsOfKind(rows, ShowKind) == [200];
  }

  /** Simkl records both the movie and the show: nothing is missing. */
  lemma EndToEndAllRecorded()
    ensures CompareCsvAndSimklHistory(ExampleRows(),
              JObj(map["movies" := JList([ExampleItem("movie", 100)]), "shows" := JList([ExampleItem("show", 200)])]))
            == Success(Report([], []))
  {
    var movie := ExampleItem("movie", 100);
    var show := ExampleItem("show", 200);
    var history := JObj(map["movies" := JList([movie]), "shows" := JList([show])]);
    HundredRendering();
    assert [movie][..0] == [] && [show][..0] == [];
    assert IdsOf([movie], "movie") == ["100"];
    assert IdsOf([show], "show") == ["200"];
    assert HistoryIndexOf(history) == Success(HistoryIndex(["100"], ["200"], []));
    ExampleCsvIds();
    var index := HistoryIndex(["100"], ["200"], []);
    assert MissingMovieIds(ExampleRows(), index) == [];
    assert MissingShowIds(ExampleRows(), index) == [];
    assert Locate(ExampleRows(), [], MovieKind) == [] && Locate(ExampleRows(), [], ShowKind) == [];
    assert Diff(ExampleRows(), index) == Report([], []);
  }

  /** Simkl records only the movie: the show is reported with its URL. */
  lemma EndToEndShowMissing()
    ensures CompareCsvAndSimklHistory(ExampleRows(), JObj(map["movies" := JList([ExampleItem("movie", 100)])]))
            == Success(Report([], [MissingItem("200", Some("letterboxd.com/film/s/"))]))
  {
    var rows := ExampleRows();
    var movie := ExampleItem("movie", 100);
    var history := JObj(map["movies" := JList([movie])]);
    HundredRendering();
    assert [movie][..0] == [];
    assert IdsOf([movie], "movie") == ["100"];
    assert HistoryIndexOf(history) == Success(HistoryIndex(["100"], [], []));
    ExampleCsvIds();
    var index := HistoryIndex(["100"], [], []);
    assert MissingMovieIds(rows, index) == [];
    assert MissingShowIds(rows, index) == ["200"];
    RoundTrip(200);
    assert ParseInt("200") == Some(200);
    assert rows[1..][0] == rows[1];
    assert FirstUrlOfKind(rows, 200, ShowKind) == Some("letterboxd.com/film/s/");
    assert Locate(rows, ["200"], ShowKind)[0] == MissingItem("200", Some("letterboxd.com/film/s/"));
    assert Locate(rows, [], MovieKind) == [];
    assert Diff(rows, index) == Report([], [MissingItem("200", Some("letterboxd.com/film/s/"))]);
  }
}
