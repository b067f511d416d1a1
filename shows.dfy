/** A show record as the script passes it around: the dict
    `{"ids": {"tmdb": id}}` built while reading the CSV, to which
    `mark_watched_batch_simkl` later adds a `seasons` entry in place. */
module Shows {
  import opened Wrappers
  import opened Seasons

  class ShowRecord {
    /** `show["ids"]["tmdb"]`, never reassigned. */
    const tmdbId: int
    /** `show["seasons"]`, None while the key is absent. */
    var seasons: Option<seq<SeasonEntry>>

    constructor (tmdbId: int)
      ensures this.tmdbId == tmdbId && seasons == None
    {
      this.tmdbId := tmdbId;
      seasons := None;
    }

    /** The body of the show loop in `mark_watched_batch_simkl`: take the
        TMDB answer for this show and attach the manifest when the total is
        positive; otherwise leave the record as it is. */
    method ExpandFromTmdb(response: TmdbResponse)
      modifies this`seasons
      ensures seasons == ExpandedSeasons(response, old(seasons))
      ensures seasons != old(seasons) ==> seasons == Some(Manifest(response.seasons)) && ResponseTotal(response) > 0
    {
      var total, tmdbSeasons := GetTotalEpisodesFromTmdb(response);
      if total > 0 {
        seasons := Some(Manifest(tmdbSeasons));
      }
    }
  }

  /** The TMDB ids of a list of show records, in order. */
  function ShowTmdbIds(shows: seq<ShowRecord>): (ids: seq<int>)
    ensures |ids| == |shows|
    ensures forall i :: 0 <= i < |shows| ==> ids[i] == shows[i].tmdbId
  {
    seq(|shows|, i requires 0 <= i < |shows| => shows[i].tmdbId)
  }
}
