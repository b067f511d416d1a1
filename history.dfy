/** `extract_tmdb_ids_from_simkl`: turning the JSON of Simkl's `all-items`
    answer into three lists of TMDB ids (as strings), one per media kind. */
module SimklHistory {
  import opened Wrappers
  import opened Decimal

  /** A decoded JSON value. */
  datatype Json =
    | JNull
    | JBool(b: bool)
    | JInt(n: int)
    | JStr(s: string)
    | JList(items: seq<Json>)
    | JObj(fields: map<string, Json>)

  /** The three id lists, in the order Simkl lists the items. */
  datatype HistoryIndex = HistoryIndex(movies: seq<string>, shows: seq<string>, anime: seq<string>)

  /** What escapes the extraction: `.get` on a history that is not an object,
      or a `for` over a top-level value that cannot be iterated. */
  datatype ExtractError = HistoryNotAnObject | NotIterable(key: string)

  /** Python's `str` of a scalar. */
  function PyStr(v: Json): Option<string>
  {
    match v
    case JNull => Some("None")
    case JBool(b) => Some(if b then "True" else "False")
    case JInt(n) => Some(DecimalString(n))
    case JStr(s) => Some(s)
    case _ => None
  }

  /** The id one item contributes: `str(item[record]["ids"]["tmdb"])` when the
      item is an object whose `record` entry is an object with an `ids` object
      holding `tmdb`; None (the item is skipped) otherwise. A missing `record`
      entry reads as `{}`; any other shape raises inside the `try` and the
      item is skipped. */
  function TmdbIdOf(item: Json, record: string): (id: Option<string>)
    ensures !item.JObj? || record !in item.fields ==> id == None
    ensures id.Some? <==>
              && item.JObj? && record in item.fields
              && item.fields[record].JObj? && "ids" in item.fields[record].fields
              && item.fields[record].fields["ids"].JObj? && "tmdb" in item.fields[record].fields["ids"].fields
              && !item.fields[record].fields["ids"].fields["tmdb"].JList?
              && !item.fields[record].fields["ids"].fields["tmdb"].JObj?
  {
    if item.JObj? && record in item.fields then
      var data := item.fields[record];
      if data.JObj? && "ids" in data.fields && data.fields["ids"].JObj? && "tmdb" in data.fields["ids"].fields
      then PyStr(data.fields["ids"].fields["tmdb"])
      else None
    else None
  }

  /** The ids one pass collects, in item order. */
  function IdsOf(items: seq<Json>, record: string): (ids: seq<string>)
    ensures |ids| <= |items|
  {
    if items == [] then []
    else
      var last := items[|items| - 1];
      IdsOf(items[..|items| - 1], record) + (match TmdbIdOf(last, record) case Some(id) => [id] case None => [])
  }

  /** One pass of the extraction loop. */
  method CollectIds(items: seq<Json>, record: string) returns (ids: seq<string>)
    ensures ids == IdsOf(items, record)
  {
    ids := [];
    var i := 0;
    while i < |items|
      invariant 0 <= i <= |items|
      invariant ids == IdsOf(items[..i], record)
    {
      assert items[..i + 1][..i] == items[..i];
      var id := TmdbIdOf(items[i], record);
      if id.Some? {
        ids := ids + [id.value];
      }
      i := i + 1;
    }
    assert items[..i] == items;
  }

  /** The items `history.get(key, [])` iterates over. A missing key gives no
      items. Iterating an object or a string yields strings, none of which
      has `.get`, so every one is skipped: the pass adds nothing. A number,
      boolean or null cannot be iterated, and the TypeError is raised outside
      the per-item `try`. */
  function PassItems(history: map<string, Json>, key: string): (items: Option<seq<Json>>)
    ensures key !in history ==> items == Some([])
    ensures items.None? <==> key in history && (history[key].JNull? || history[key].JBool? || history[key].JInt?)
    ensures key in history && history[key].JList? ==> items == Some(history[key].items)
    ensures key in history && (history[key].JObj? || history[key].JStr?) ==> items == Some([])
  {
    if key !in history then Some([])
    else match history[key]
      case JList(items) => Some(items)
      case JObj(_) => Some([])
      case JStr(_) => Some([])
      case _ => None
  }

  /** The three top-level keys, in the order they are read. */
  const KindKeys: seq<string> := ["movies", "shows", "anime"]

  /** A value a Python `for` can iterate over. */
  predicate Iterable(v: Json)
  {
    v.JList? || v.JObj? || v.JStr?
  }

  /** The result of `extract_tmdb_ids_from_simkl`: movies from each `movie`
      record, shows from each `show` record, and anime also from each item's
      `show` record. */
  function HistoryIndexOf(history: Json): (result: Result<HistoryIndex, ExtractError>)
    ensures !history.JObj? ==> result == Failure(HistoryNotAnObject)
    ensures result.Success? <==>
              history.JObj? && forall key :: key in KindKeys && key in history.fields ==> Iterable(history.fields[key])
    ensures history.JObj? && "movies" in history.fields && !Iterable(history.fields["movies"]) ==>
              result == Failure(NotIterable("movies"))
    ensures result.Success? ==>
              |result.value.movies| <= |PassItems(history.fields, "movies").value| &&
              |result.value.shows| <= |PassItems(history.fields, "shows").value| &&
              |result.value.anime| <= |PassItems(history.fields, "anime").value|
  {
    if !history.JObj? then Failure(HistoryNotAnObject)
    else
      var fields := history.fields;
      match (PassItems(fields, "movies"), PassItems(fields, "shows"), PassItems(fields, "anime"))
      case (None, _, _) => Failure(NotIterable("movies"))
      case (Some(_), None, _) => Failure(NotIterable("shows"))
      case (Some(_), Some(_), None) => Failure(NotIterable("anime"))
      case (Some(movies), Some(shows), Some(anime)) =>
        Success(HistoryIndex(IdsOf(movies, "movie"), IdsOf(shows, "show"), IdsOf(anime, "show")))
  }

  /** `extract_tmdb_ids_from_simkl`: the three passes in order. */
  method ExtractTmdbIdsFromSimkl(history: Json) returns (result: Result<HistoryIndex, ExtractError>)
    ensures result == HistoryIndexOf(history)
  {
    if !history.JObj? {
      return Failure(HistoryNotAnObject);
    }
    var movieItems := PassItems(history.fields, "movies");
    if movieItems.None? {
      return Failure(NotIterable("movies"));
    }
    var movies := CollectIds(movieItems.value, "movie");
    var showItems := PassItems(history.fields, "shows");
    if showItems.None? {
      return Failure(NotIterable("shows"));
    }
    var shows := CollectIds(showItems.value, "show");
    var animeItems := PassItems(history.fields, "anime");
    if animeItems.None? {
      return Failure(NotIterable("anime"));
    }
    var anime := CollectIds(animeItems.value, "show");
    result := Success(HistoryIndex(movies, shows, anime));
  }

  /** An id is collected exactly when some item yields it. */
  lemma {:induction false} IdsOfMembership(items: seq<Json>, record: string, id: string)
    ensures id in IdsOf(items, record) <==> exists i :: 0 <= i < |items| && TmdbIdOf(items[i], record) == Some(id)
  {
    if items != [] {
      var init := items[..|items| - 1];
      IdsOfMembership(init, record, id);
      assert forall i :: 0 <= i < |init| ==> init[i] == items[i];
    }
  }

  /** The ids keep the order of the items they come from. */
  lemma {:induction false} IdsOfAppend(a: seq<Json>, b: seq<Json>, record: string)
    ensures IdsOf(a + b, record) == IdsOf(a, record) + IdsOf(b, record)
    decreases |b|
  {
    if b == [] {
      assert a + b == a;
    } else {
      var b' := b[..|b| - 1];
      assert (a + b)[..|a + b| - 1] == a + b';
      IdsOfAppend(a, b', record);
    }
  }

  /** An item that yields no id can be removed without changing the pass. */
  lemma SkippedItemIgnored(before: seq<Json>, item: Json, after: seq<Json>, record: string)
    requires TmdbIdOf(item, record) == None
    ensures IdsOf(before + [item] + after, record) == IdsOf(before + after, record)
  {
    assert [item][..0] == [];
    IdsOfAppend(before + [item], after, record);
    IdsOfAppend(before, [item], record);
    IdsOfAppend(before, after, record);
  }

  /** A kind whose key is missing from the history has no ids. */
  lemma MissingKeyGivesNoIds(history: Json, key: string)
    requires history.JObj? && key !in history.fields
    requires key == "movies" || key == "shows" || key == "anime"
    requires HistoryIndexOf(history).Success?
    ensures key == "movies" ==> HistoryIndexOf(history).value.movies == []
    ensures key == "shows" ==> HistoryIndexOf(history).value.shows == []
    ensures key == "anime" ==> HistoryIndexOf(history).value.anime == []
  {
  }

  /** An anime item is read through its `show` record: one that carries its
      ids under `show` is indexed, one that carries them under `anime` is not. */
  lemma AnimeReadThroughShowRecord(n: int)
    ensures var ids := JObj(map["ids" := JObj(map["tmdb" := JInt(n)])]);
            var viaShow := JObj(map["anime" := JList([JObj(map["show" := ids])])]);
            var viaAnime := JObj(map["anime" := JList([JObj(map["anime" := ids])])]);
            HistoryIndexOf(viaShow) == Success(HistoryIndex([], [], [DecimalString(n)])) &&
            HistoryIndexOf(viaAnime) == Success(HistoryIndex([], [], []))
  {
    var ids := JObj(map["ids" := JObj(map["tmdb" := JInt(n)])]);
    var items := [JObj(map["show" := ids])];
    assert items[..0] == [];
    assert IdsOf(items, "show") == [DecimalString(n)];
    var others := [JObj(map["anime" := ids])];
    assert others[..0] == [];
    assert IdsOf(others, "show") == [];
  }
}
