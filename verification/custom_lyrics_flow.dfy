/** How the options-page store and the custom-lyrics provider fit
    together: a record created by the store is what the provider serves
    for its video. Both read and write the same stored value.
 */
module CustomLyricsFlow {
  import opened Wrappers
  import opened Lyrics
  import ClyricsManager
  import CustomLyricsProvider

  /** A record created for a video that no earlier record names is served,
      with its (still empty) lyrics, to the next lookup of that video. */
  lemma CreatedRecordIsServed(stored: StoredValue, track: ClyricsManager.TrackInfo,
                              videoId: string, now: int, q: TrackQuery, m: SourceMap)
    requires CustomLyricsProvider.SlotKey in m
    requires q.videoId == Some(videoId)
    requires ClyricsManager.ListCustomLyrics(Done(stored)).value.Records?
    requires var list := ClyricsManager.ListCustomLyrics(Done(stored)).value.records;
             forall j :: 0 <= j < |list| ==> list[j].videoId != Some(videoId)
    ensures var c := ClyricsManager.CreateCustomLyrics(Done(stored), track, Some(videoId), now, Done(()));
            && c.Done?
            && var run := CustomLyricsProvider.CustomLyrics(Done(Records(c.value.saved)), q, m);
               && run.sourceMap[CustomLyricsProvider.SlotKey].filled
               && run.sourceMap[CustomLyricsProvider.SlotKey].result.Some?
               && run.sourceMap[CustomLyricsProvider.SlotKey].result.value.lyrics == []
  {
    var c := ClyricsManager.CreateCustomLyrics(Done(stored), track, Some(videoId), now, Done(()));
    var saved := c.value.saved;
    var n := |ClyricsManager.ListCustomLyrics(Done(stored)).value.records|;
    forall j | 0 <= j < n
      ensures !CustomLyricsProvider.VideoIdMatches(saved[j], q)
    {
      assert saved[j] == saved[..n][j];
    }
    CustomLyricsProvider.VideoIdWins(saved, q, m, n);
  }
}
