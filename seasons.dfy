/** The TMDB side of marking a show watched: the episode total over the
    regular seasons of a show, and the per-season manifest of episode numbers
    that is attached to the show before it is sent to Simkl. */
module Seasons {
  import opened Wrappers
  import opened Seqs

  /** One element of TMDB's `seasons` list for a TV show. */
  datatype TmdbSeason = TmdbSeason(seasonNumber: int, episodeCount: int)

  /** The answer to a TMDB `/tv/{id}` request: its HTTP status and, on
      success, the show's season list. */
  datatype TmdbResponse = TmdbResponse(statusCode: int, seasons: seq<TmdbSeason>)

  const StatusOk := 200

  /** Season 0 holds the specials; only seasons numbered above 0 count. */
  predicate IsRegular(season: TmdbSeason) { season.seasonNumber > 0 }

  /** The episodes a season adds to the show's total. */
  function Contribution(season: TmdbSeason): int
  {
    if IsRegular(season) then season.episodeCount else 0
  }

  /** Sum of `episode_count` over the regular seasons. */
  function RegularEpisodeSum(seasons: seq<TmdbSeason>): (total: int)
    ensures (forall i :: 0 <= i < |seasons| ==> seasons[i].episodeCount >= 0) ==> total >= 0
  {
    if seasons == [] then 0
    else RegularEpisodeSum(seasons[..|seasons| - 1]) + Contribution(seasons[|seasons| - 1])
  }

  /** The loop of `get_total_episodes_from_tmdb` once the response is in:
      `(total, seasons)` for a 200 response, `(0, [])` for any other status. */
  method GetTotalEpisodesFromTmdb(response: TmdbResponse) returns (total: int, seasons: seq<TmdbSeason>)
    ensures response.statusCode == StatusOk ==>
              total == RegularEpisodeSum(response.seasons) && seasons == response.seasons
    ensures response.statusCode != StatusOk ==> total == 0 && seasons == []
  {
    if response.statusCode != StatusOk {
      return 0, [];
    }
    seasons := response.seasons;
    total := 0;
    var i := 0;
    while i < |seasons|
      invariant 0 <= i <= |seasons|
      invariant total == RegularEpisodeSum(seasons[..i])
    {
      assert seasons[..i + 1][..i] == seasons[..i];
      if seasons[i].seasonNumber > 0 {
        total := total + seasons[i].episodeCount;
      }
      i := i + 1;
    }
    assert seasons[..i] == seasons;
  }

  /** The episode total the script derives from a response. */
  function ResponseTotal(response: TmdbResponse): int
  {
    if response.statusCode == StatusOk then RegularEpisodeSum(response.seasons) else 0
  }

  /** An element of a manifest's `episodes` list: `{'number': ep}`. */
  datatype Episode = Episode(number: int)

  /** `[{'number': ep} for ep in range(1, count + 1)]` */
  function EpisodeRange(count: int): (episodes: seq<Episode>)
    ensures |episodes| == if count > 0 then count else 0
    ensures forall i :: 0 <= i < |episodes| ==> episodes[i].number == i + 1
    decreases if count > 0 then count else 0
  {
    if count <= 0 then [] else EpisodeRange(count - 1) + [Episode(count)]
  }

  /** `{'number': season_number, 'episodes': [...]}` */
  datatype SeasonEntry = SeasonEntry(number: int, episodes: seq<Episode>)

  function EntryOf(season: TmdbSeason): SeasonEntry
  {
    SeasonEntry(season.seasonNumber, EpisodeRange(season.episodeCount))
  }

  /** The `seasons` list built for a show: one entry per regular season. */
  function Manifest(seasons: seq<TmdbSeason>): (manifest: seq<SeasonEntry>)
    ensures |manifest| <= |seasons|
    ensures forall i :: 0 <= i < |manifest| ==> manifest[i].number > 0
  {
    if seasons == [] then []
    else
      var last := seasons[|seasons| - 1];
      Manifest(seasons[..|seasons| - 1]) + (if IsRegular(last) then [EntryOf(last)] else [])
  }

  /** The number of episodes a manifest marks watched. */
  function EpisodeTotal(manifest: seq<SeasonEntry>): nat
  {
    if manifest == [] then 0
    else EpisodeTotal(manifest[..|manifest| - 1]) + |manifest[|manifest| - 1].episodes|
  }

  /** What a show's `seasons` field holds after `mark_watched_batch_simkl`
      looked it up: the manifest when the total is positive, and otherwise
      whatever it held before. */
  function ExpandedSeasons(response: TmdbResponse, current: Option<seq<SeasonEntry>>): Option<seq<SeasonEntry>>
  {
    if ResponseTotal(response) > 0 then Some(Manifest(response.seasons)) else current
  }

  lemma {:induction false} RegularEpisodeSumAppend(a: seq<TmdbSeason>, b: seq<TmdbSeason>)
    ensures RegularEpisodeSum(a + b) == RegularEpisodeSum(a) + RegularEpisodeSum(b)
    decreases |b|
  {
    if b == [] {
      assert a + b == a;
    } else {
      var b' := b[..|b| - 1];
      assert (a + b)[..|a + b| - 1] == a + b';
      RegularEpisodeSumAppend(a, b');
    }
  }

  lemma {:induction false} ManifestAppend(a: seq<TmdbSeason>, b: seq<TmdbSeason>)
    ensures Manifest(a + b) == Manifest(a) + Manifest(b)
    decreases |b|
  {
    if b == [] {
      assert a + b == a;
    } else {
      var b' := b[..|b| - 1];
      assert (a + b)[..|a + b| - 1] == a + b';
      ManifestAppend(a, b');
    }
  }
  /** The manifest has one entry per regular season, in TMDB's order. */
  lemma {:induction false} ManifestCountsRegularSeasons(seasons: seq<TmdbSeason>)
    ensures |Manifest(seasons)| == |Filter(IsRegular, seasons)|
    ensures forall i :: 0 <= i < |Manifest(seasons)| ==> Manifest(seasons)[i] == EntryOf(Filter(IsRegular, seasons)[i])
  {
    if seasons != [] {
      assert seasons == [seasons[0]] + seasons[1..];
      ManifestAppend([seasons[0]], seasons[1..]);
      assert [seasons[0]][..0] == [];
      ManifestCountsRegularSeasons(seasons[1..]);
    }
  }


  /** Specials (and any season numbered 0 or below) neither add to the total
      nor appear in the manifest, wherever they stand in the list. */
  lemma SpecialsIgnored(before: seq<TmdbSeason>, special: TmdbSeason, after: seq<TmdbSeason>)
    requires special.seasonNumber <= 0
    ensures RegularEpisodeSum(before + [special] + after) == RegularEpisodeSum(before + after)
    ensures Manifest(before + [special] + after) == Manifest(before + after)
  {
    assert [special][..0] == [];
    assert RegularEpisodeSum([special]) == 0;
    assert Manifest([special]) == [];
    RegularEpisodeSumAppend(before, [special]);
    ManifestAppend(before, [special]);
    assert RegularEpisodeSum(before + [special]) == RegularEpisodeSum(before);
    assert Manifest(before + [special]) == Manifest(before);
    RegularEpisodeSumAppend(before + [special], after);
    RegularEpisodeSumAppend(before, after);
    ManifestAppend(before + [special], after);
    ManifestAppend(before, after);
  }

  /** Every manifest entry is one regular season of the input, numbered as
      that season and listing episodes 1..episode_count; every regular season
      has its entry. */
  lemma {:induction false} ManifestMembership(seasons: seq<TmdbSeason>, entry: SeasonEntry)
    ensures entry in Manifest(seasons) <==>
              exists i :: 0 <= i < |seasons| && IsRegular(seasons[i]) && entry == EntryOf(seasons[i])
  {
    if seasons != [] {
      var init := seasons[..|seasons| - 1];
      ManifestMembership(init, entry);
      if exists i :: 0 <= i < |init| && IsRegular(init[i]) && entry == EntryOf(init[i]) {
        var i :| 0 <= i < |init| && IsRegular(init[i]) && entry == EntryOf(init[i]);
        assert seasons[i] == init[i];
      }
      if exists i :: 0 <= i < |seasons| && IsRegular(seasons[i]) && entry == EntryOf(seasons[i]) {
        var i :| 0 <= i < |seasons| && IsRegular(seasons[i]) && entry == EntryOf(seasons[i]);
        if i < |init| {
          assert init[i] == seasons[i];
        }
      }
    }
  }

  /** With non-negative episode counts, the manifest marks exactly as many
      episodes as the total reports. */
  lemma {:induction false} ManifestEpisodeTotal(seasons: seq<TmdbSeason>)
    requires forall i :: 0 <= i < |seasons| ==> seasons[i].episodeCount >= 0
    ensures EpisodeTotal(Manifest(seasons)) == RegularEpisodeSum(seasons)
  {
    if seasons != [] {
      var init := seasons[..|seasons| - 1];
      var last := seasons[|seasons| - 1];
      ManifestEpisodeTotal(init);
      var m := Manifest(init);
      if IsRegular(last) {
        var m' := m + [EntryOf(last)];
        assert m'[..|m'| - 1] == m;
      } else {
        assert Manifest(seasons) == m;
      }
    }
  }

  /** A positive total means some regular season has episodes, so a manifest
      that gets attached always lists at least one episode. */
  lemma {:induction false} PositiveTotalListsAnEpisode(seasons: seq<TmdbSeason>)
    requires RegularEpisodeSum(seasons) > 0
    ensures exists i :: 0 <= i < |Manifest(seasons)| && |Manifest(seasons)[i].episodes| > 0
  {
    var init := seasons[..|seasons| - 1];
    var last := seasons[|seasons| - 1];
    var m := Manifest(init);
    if IsRegular(last) && last.episodeCount > 0 {
      assert Manifest(seasons)[|m|] == EntryOf(last);
    } else {
      PositiveTotalListsAnEpisode(init);
      var i :| 0 <= i < |m| && |m[i].episodes| > 0;
      assert Manifest(seasons)[i] == m[i];
    }
  }
}
