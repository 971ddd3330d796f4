/** The custom-lyrics provider: fills the "custom-lyrics" slot from the
    user's stored lyrics records.

    The outcome of the synced-storage read is an input: the value read
    (`StoredValue`) or what the read threw. The provider itself is a pure
    function from that outcome, the track query and the source map to the
    provider's run.
 */
module CustomLyricsProvider {
  import opened Wrappers
  import opened Lyrics
  import Seqs

  const SlotKey: string := "custom-lyrics"

  /** Seconds by which a record's duration may differ from the track's. */
  const DurationTolerance: int := 2

  /** `Array.isArray(raw) ? raw : []`. */
  function StoredRecords(v: StoredValue): (records: seq<CustomLyricsRecord>)
    ensures v.Records? ==> records == v.records
    ensures !v.Records? ==> records == []
  {
    if v.Records? then v.records else []
  }

  function Abs(x: int): nat {
    if x < 0 then -x else x
  }

  /** The loose `==` on video ids: two absent ids are equal. */
  predicate VideoIdMatches(rec: CustomLyricsRecord, q: TrackQuery) {
    rec.videoId == q.videoId
  }

  /** The album filter applies only when the query's album is truthy,
      i.e. present and not the empty string. */
  predicate AlbumFilterActive(q: TrackQuery) {
    q.album.Some? && q.album.value != ""
  }

  predicate AlbumAdmits(rec: CustomLyricsRecord, q: TrackQuery) {
    AlbumFilterActive(q) ==> rec.album == q.album
  }

  predicate MetadataMatches(rec: CustomLyricsRecord, q: TrackQuery) {
    && rec.song == q.song
    && rec.artist == q.artist
    && Abs(rec.duration - q.duration) <= DurationTolerance
  }

  predicate FallbackMatches(rec: CustomLyricsRecord, q: TrackQuery) {
    AlbumAdmits(rec, q) && MetadataMatches(rec, q)
  }

  /** Record `i` is the first whose video id equals the query's. */
  predicate IsVideoIdChoice(records: seq<CustomLyricsRecord>, q: TrackQuery, i: nat) {
    && i < |records| && VideoIdMatches(records[i], q)
    && forall j :: 0 <= j < i ==> !VideoIdMatches(records[j], q)
  }

  /** No record has the query's video id, and record `i` is the first
      that passes the album filter and the metadata match. */
  predicate IsFallbackChoice(records: seq<CustomLyricsRecord>, q: TrackQuery, i: nat) {
    && (forall j :: 0 <= j < |records| ==> !VideoIdMatches(records[j], q))
    && i < |records| && FallbackMatches(records[i], q)
    && forall j :: 0 <= j < i ==> !FallbackMatches(records[j], q)
  }

  predicate IsChoice(records: seq<CustomLyricsRecord>, q: TrackQuery, i: nat) {
    IsVideoIdChoice(records, q, i) || IsFallbackChoice(records, q, i)
  }

  /** At most one index is the choice. */
  lemma ChoiceUnique(records: seq<CustomLyricsRecord>, q: TrackQuery, i: nat, k: nat)
    requires IsChoice(records, q, i) && IsChoice(records, q, k)
    ensures i == k
  {
  }

  /** The record the provider serves: the first record whose video id
      equals the query's; failing that, the first record that passes the
      album filter and matches song, artist and duration. */
  function Select(records: seq<CustomLyricsRecord>, q: TrackQuery): (r: Option<CustomLyricsRecord>)
    ensures r.Some? ==> exists i: nat :: IsChoice(records, q, i) && records[i] == r.value
    ensures r.None? <==> forall j :: 0 <= j < |records| ==>
              !VideoIdMatches(records[j], q) && !FallbackMatches(records[j], q)
  {
    var byVideo := Seqs.Find(records, (rec: CustomLyricsRecord) => VideoIdMatches(rec, q));
    VideoIdSearch(records, q);
    if byVideo.Some? then byVideo
    else
      FallbackChoice(records, q);
      MetadataSearch(records, q)
  }

  lemma VideoIdSearch(records: seq<CustomLyricsRecord>, q: TrackQuery)
    ensures var r := Seqs.Find(records, (rec: CustomLyricsRecord) => VideoIdMatches(rec, q));
            && (r.Some? ==> exists i: nat :: IsVideoIdChoice(records, q, i) && records[i] == r.value)
            && (r.None? <==> forall j :: 0 <= j < |records| ==> !VideoIdMatches(records[j], q))
  {
    var r := Seqs.Find(records, (rec: CustomLyricsRecord) => VideoIdMatches(rec, q));
    if r.Some? {
      var i :| 0 <= i < |records| && records[i] == r.value && VideoIdMatches(records[i], q)
               && forall j :: 0 <= j < i ==> !VideoIdMatches(records[j], q);
      assert IsVideoIdChoice(records, q, i);
    }
  }

  /** The second search: song, artist and duration, over the records of
      the query's album when the album filter is on. */
  function MetadataSearch(records: seq<CustomLyricsRecord>, q: TrackQuery): (r: Option<CustomLyricsRecord>)
    ensures r.Some? ==> r.value in records && FallbackMatches(r.value, q)
    ensures r.None? <==> forall j :: 0 <= j < |records| ==> !FallbackMatches(records[j], q)
  {
    var candidates := if AlbumFilterActive(q) then Seqs.Filter(records, (rec: CustomLyricsRecord) => rec.album == q.album)
                      else records;
    Seqs.Find(candidates, (rec: CustomLyricsRecord) => MetadataMatches(rec, q))
  }

  /** Searching the album-filtered list is searching the full list for
      the first record that passes both tests. */
  lemma MetadataSearchIsFallback(records: seq<CustomLyricsRecord>, q: TrackQuery)
    ensures MetadataSearch(records, q) == Seqs.Find(records, (rec: CustomLyricsRecord) => FallbackMatches(rec, q))
  {
    var m := (rec: CustomLyricsRecord) => MetadataMatches(rec, q);
    var g := (rec: CustomLyricsRecord) => FallbackMatches(rec, q);
    if AlbumFilterActive(q) {
      FilteredSearch(records, q);
    } else {
      Seqs.FindAgrees(records, m, g);
    }
  }

  lemma FilteredSearch(records: seq<CustomLyricsRecord>, q: TrackQuery)
    requires AlbumFilterActive(q)
    ensures Seqs.Find(Seqs.Filter(records, (rec: CustomLyricsRecord) => rec.album == q.album),
                      (rec: CustomLyricsRecord) => MetadataMatches(rec, q))
            == Seqs.Find(records, (rec: CustomLyricsRecord) => FallbackMatches(rec, q))
  {
    var f := (rec: CustomLyricsRecord) => rec.album == q.album;
    var m := (rec: CustomLyricsRecord) => MetadataMatches(rec, q);
    var g := (rec: CustomLyricsRecord) => FallbackMatches(rec, q);
    Seqs.FindAfterFilter(records, f, m, g);
  }

  /** The metadata search finds the first record of the full list that
      passes the album filter and the metadata match. */
  lemma FallbackSearch(records: seq<CustomLyricsRecord>, q: TrackQuery)
    ensures var r := MetadataSearch(records, q);
            && (r.Some? ==> exists i: nat :: i < |records| && FallbackMatches(records[i], q) && records[i] == r.value
                              && forall j :: 0 <= j < i ==> !FallbackMatches(records[j], q))
            && (r.None? <==> forall j :: 0 <= j < |records| ==> !FallbackMatches(records[j], q))
  {
    MetadataSearchIsFallback(records, q);
  }

  /** Without a video-id match, the metadata search yields the choice. */
  lemma FallbackChoice(records: seq<CustomLyricsRecord>, q: TrackQuery)
    requires forall j :: 0 <= j < |records| ==> !VideoIdMatches(records[j], q)
    ensures var r := MetadataSearch(records, q);
            && (r.Some? ==> exists i: nat :: IsChoice(records, q, i) && records[i] == r.value)
            && (r.None? <==> forall j :: 0 <= j < |records| ==> !VideoIdMatches(records[j], q) && !FallbackMatches(records[j], q))
  {
    var r := MetadataSearch(records, q);
    FallbackSearch(records, q);
    if r.Some? {
      var i: nat :| i < |records| && FallbackMatches(records[i], q) && records[i] == r.value
                    && forall j :: 0 <= j < i ==> !FallbackMatches(records[j], q);
      assert IsFallbackChoice(records, q, i);
    }
  }

  /** The result built from a chosen record: its lines verbatim, never
      cached, attributed to "Custom Lyrics". */
  function ResultFor(rec: CustomLyricsRecord): (r: LyricSourceResult)
    ensures r.lyrics == rec.lyrics
    ensures r.source == "Custom Lyrics" && r.sourceHref == ""
    ensures r.musicVideoSynced == Some(false) && !r.cacheAllowed
  {
    LyricSourceResult(rec.lyrics, None, "Custom Lyrics", "", false, Some(false))
  }

  /** The provider. The storage read comes first; when it rejects, the
      provider throws with the source map untouched. Reading the slot of a
      source map that lacks "custom-lyrics" throws before anything is
      written. */
  function CustomLyrics(stored: Attempt<StoredValue>, q: TrackQuery, m: SourceMap): (run: FillerRun)
    ensures run.Threw? <==> stored.Throws? || SlotKey !in m
    ensures run.Threw? ==> run.sourceMap == m
    ensures run.Returned? ==> OnlySlotChanged(m, run.sourceMap, SlotKey) && run.sourceMap[SlotKey].filled
    ensures run.Returned? ==> (run.sourceMap[SlotKey].result ==
              match Select(StoredRecords(stored.value), q)
              case Some(rec) => Some(ResultFor(rec))
              case None => None)
  {
    match stored
    case Throws(_) => Threw(m)
    case Done(value) =>
      if SlotKey !in m then Threw(m)
      else
        var records := StoredRecords(value);
        if |records| < 1 then Returned(FillSlot(m, SlotKey, None))
        else
          match Select(records, q)
          case Some(rec) => Returned(FillSlot(m, SlotKey, Some(ResultFor(rec))))
          case None => Returned(FillSlot(m, SlotKey, None))
  }

  // ---------------------------------------------------------------------
  // Properties of the provider.

  /** Nothing usable stored: the slot is filled with a miss. */
  lemma EmptyStoreFillsMiss(stored: StoredValue, q: TrackQuery, m: SourceMap)
    requires SlotKey in m
    requires !stored.Records? || stored.records == []
    ensures CustomLyrics(Done(stored), q, m) == Returned(m[SlotKey := Slot(true, None)])
  {
  }

  /** A record with the query's video id wins over every metadata match,
      even one the album filter would exclude. */
  lemma VideoIdWins(records: seq<CustomLyricsRecord>, q: TrackQuery, m: SourceMap, i: nat)
    requires SlotKey in m
    requires i < |records| && VideoIdMatches(records[i], q)
    requires forall j :: 0 <= j < i ==> !VideoIdMatches(records[j], q)
    ensures CustomLyrics(Done(Records(records)), q, m).sourceMap[SlotKey] == Slot(true, Some(ResultFor(records[i])))
  {
    var r := Select(records, q);
    assert IsChoice(records, q, i);
    var k: nat :| IsChoice(records, q, k) && records[k] == r.value;
    ChoiceUnique(records, q, i, k);
  }

  /** Without a video-id match, the first record (in stored order) that
      passes the album filter and matches song, artist and duration is
      served. */
  lemma MetadataFallback(records: seq<CustomLyricsRecord>, q: TrackQuery, m: SourceMap, i: nat)
    requires SlotKey in m
    requires forall j :: 0 <= j < |records| ==> !VideoIdMatches(records[j], q)
    requires i < |records| && FallbackMatches(records[i], q)
    requires forall j :: 0 <= j < i ==> !FallbackMatches(records[j], q)
    ensures CustomLyrics(Done(Records(records)), q, m).sourceMap[SlotKey] == Slot(true, Some(ResultFor(records[i])))
  {
    var r := Select(records, q);
    assert IsChoice(records, q, i);
    var k: nat :| IsChoice(records, q, k) && records[k] == r.value;
    ChoiceUnique(records, q, i, k);
  }

  /** The duration tolerance is inclusive: a record 2 seconds off matches,
      one 3 seconds off does not. */
  lemma DurationToleranceIsInclusive(rec: CustomLyricsRecord, q: TrackQuery)
    requires rec.song == q.song && rec.artist == q.artist
    ensures rec.duration - q.duration == 2 ==> MetadataMatches(rec, q)
    ensures rec.duration - q.duration == -2 ==> MetadataMatches(rec, q)
    ensures rec.duration - q.duration == 3 ==> !MetadataMatches(rec, q)
    ensures rec.duration - q.duration == -3 ==> !MetadataMatches(rec, q)
  {
  }

  /** A record stored without a video id is served for a query that has
      none: the loose comparison equates the two absent values. */
  lemma AbsentVideoIdsMatch(rec: CustomLyricsRecord, q: TrackQuery, m: SourceMap)
    requires SlotKey in m
    requires rec.videoId.None? && q.videoId.None?
    ensures CustomLyrics(Done(Records([rec])), q, m).sourceMap[SlotKey].result == Some(ResultFor(rec))
  {
    VideoIdWins([rec], q, m, 0);
  }

  /** An empty or absent album switches the album filter off. */
  lemma EmptyAlbumDisablesFilter(rec: CustomLyricsRecord, q: TrackQuery)
    requires q.album == None || q.album == Some("")
    ensures AlbumAdmits(rec, q)
  {
  }
}
