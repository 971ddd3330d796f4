/** The records the lyrics providers exchange: timed lyric lines, the
    result a provider produces, the per-source result slot, and the stored
    custom-lyrics record.
 */
module Lyrics {
  import opened Wrappers

  /** A word- or phrase-level timed fragment of a line. */
  datatype LyricPart = LyricPart(startTimeMs: int, words: string, durationMs: int, isBackground: bool)

  /** One lyric line; `parts` is empty for line-level timing. */
  datatype Lyric = Lyric(startTimeMs: int, words: string, durationMs: int, parts: seq<LyricPart>)

  /** What a provider hands to the race coordinator. */
  datatype LyricSourceResult = LyricSourceResult(
    lyrics: seq<Lyric>,
    language: Option<string>,
    source: string,
    sourceHref: string,
    cacheAllowed: bool,
    musicVideoSynced: Option<bool>)

  /** One source's slot of the shared source map: `filled` tells the
      coordinator the provider is done, `result` is `None` for a miss.
      The slot's filler function is not part of this model. */
  datatype Slot = Slot(filled: bool, result: Option<LyricSourceResult>)

  /** The shared source map, from source id to slot. */
  type SourceMap = map<string, Slot>

  /** How a provider call ends: it returns, or it throws (rejects its
      promise), leaving the source map as it was at that point. */
  datatype FillerRun = Returned(sourceMap: SourceMap) | Threw(sourceMap: SourceMap)

  /** The track a provider is asked about (the fields of
      `ProviderParameters` other than the source map and the signal). */
  datatype TrackQuery = TrackQuery(
    song: string,
    artist: string,
    album: Option<string>,
    duration: int,
    videoId: Option<string>)

  /** A user-authored lyrics record as kept in the custom-lyrics store. */
  datatype CustomLyricsRecord = CustomLyricsRecord(
    videoId: Option<string>,
    song: string,
    artist: string,
    album: Option<string>,
    duration: int,
    modified: int,
    lyrics: seq<Lyric>)

  /** What `chrome.storage.sync.get` yields under "customLyrics": nothing,
      a value that is not an array (`truthy` says whether JavaScript
      treats it as true: an object, a non-empty string, a non-zero number,
      `true`), or an array of records. */
  datatype StoredValue = Missing | NotAnArray(truthy: bool) | Records(records: seq<CustomLyricsRecord>)

  /** JavaScript truthiness of a stored value; every array is truthy,
      the empty one included. */
  predicate IsTruthy(v: StoredValue) {
    v.Records? || (v.NotAnArray? && v.truthy)
  }

  /** `r` is `m` with slot `key` and no other slot changed. */
  predicate OnlySlotChanged(m: SourceMap, r: SourceMap, key: string) {
    && r.Keys == m.Keys
    && forall k :: k in m && k != key ==> r[k] == m[k]
  }

  /** A provider's single slot write: the slot ends filled with `result`. */
  function FillSlot(m: SourceMap, key: string, result: Option<LyricSourceResult>): (r: SourceMap)
    requires key in m
    ensures OnlySlotChanged(m, r, key)
    ensures r[key].filled && r[key].result == result
  {
    m[key := Slot(true, result)]
  }
}
