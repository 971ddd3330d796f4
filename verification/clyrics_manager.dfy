/** The custom-lyrics store of the options page: list, fetch by index and
    create, over the value kept under "customLyrics" in synced storage.

    The outcome of the storage read (the stored value, or what `get`
    threw) and of the storage write (done, or what `set` threw) are
    inputs; the array written back is an output. The clock reading for
    `modified` is a parameter.
 */
module ClyricsManager {
  import opened Wrappers
  import opened Lyrics

  /** The track metadata a new record is created from. */
  datatype TrackInfo = TrackInfo(song: string, artist: string, album: Option<string>, duration: int)

  /** The TypeError `clyrics.push(data)` throws when the listed value is
      not an array (V8's wording). */
  const PushTypeError: Thrown := ErrorObject("clyrics.push is not a function")

  /** `customLyrics || []`: a falsy stored value lists as the empty array,
      and any truthy one, array or not, is passed on as it is; a rejected
      read rejects. */
  function ListCustomLyrics(read: Attempt<StoredValue>): (r: Attempt<StoredValue>)
    ensures r.Throws? <==> read.Throws?
    ensures read.Throws? ==> r.thrown == read.thrown
    ensures r.Done? ==> IsTruthy(r.value)
    ensures read.Done? && IsTruthy(read.value) ==> r.value == read.value
    ensures read.Done? && !IsTruthy(read.value) ==> r.value == Records([])
  {
    match read
    case Throws(e) => Throws(e)
    case Done(stored) => Done(if IsTruthy(stored) then stored else Records([]))
  }

  /** What `list[index]` gives: a record, `undefined`, or whatever a
      value that is not an array holds under that key. */
  datatype Fetched = Found(record: CustomLyricsRecord) | Undefined | Foreign

  /** `list[index]`: the record at a zero-based index of the listed array,
      `undefined` for any index outside it; a rejected read rejects. */
  function GetCustomLyrics(read: Attempt<StoredValue>, index: int): (r: Attempt<Fetched>)
    ensures r.Throws? <==> read.Throws?
    ensures read.Throws? ==> r.thrown == read.thrown
    ensures r.Done? && ListCustomLyrics(read).value.Records? ==>
              var list := ListCustomLyrics(read).value.records;
              && (r.value.Found? <==> 0 <= index < |list|)
              && (r.value.Found? ==> r.value.record == list[index])
              && (!r.value.Found? ==> r.value == Undefined)
    ensures r.Done? && ListCustomLyrics(read).value.NotAnArray? ==> r.value == Foreign
  {
    match ListCustomLyrics(read)
    case Throws(e) => Throws(e)
    case Done(listed) =>
      if listed.Records? then
        Done(if 0 <= index < |listed.records| then Found(listed.records[index]) else Undefined)
      else Done(Foreign)
  }

  /** The outcome of creating a record: the record returned to the caller
      and the list written back to storage. */
  datatype Created = Created(record: CustomLyricsRecord, saved: seq<CustomLyricsRecord>)

  /** Appends a fresh record with no lyrics lines and writes the list back;
      there is no check for an existing record with the same metadata. A
      rejected read rejects, and so does `push` on a listed value that is
      not an array, both before any write; a rejected write rejects with
      nothing stored. */
  function CreateCustomLyrics(read: Attempt<StoredValue>, track: TrackInfo,
                              videoId: Option<string>, now: int, write: Attempt<()>): (c: Attempt<Created>)
    ensures c.Throws? <==> read.Throws? || ListCustomLyrics(read).value.NotAnArray? || write.Throws?
    ensures read.Throws? ==> c.thrown == read.thrown
    ensures read.Done? && ListCustomLyrics(read).value.NotAnArray? ==> c == Throws(PushTypeError)
    ensures read.Done? && ListCustomLyrics(read).value.Records? && write.Throws? ==> c.thrown == write.thrown
    ensures c.Done? ==> ListCustomLyrics(read).value.Records?
    ensures c.Done? ==> var list := ListCustomLyrics(read).value.records;
                        && |c.value.saved| == |list| + 1
                        && c.value.saved[..|list|] == list
                        && c.value.saved[|list|] == c.value.record
    ensures c.Done? ==> var rec := c.value.record;
                        && rec.videoId == videoId
                        && rec.song == track.song && rec.artist == track.artist
                        && rec.album == track.album && rec.duration == track.duration
                        && rec.modified == now && rec.lyrics == []
  {
    match ListCustomLyrics(read)
    case Throws(e) => Throws(e)
    case Done(listed) =>
      if !listed.Records? then Throws(PushTypeError)
      else
        var list := listed.records;
        var data := CustomLyricsRecord(videoId, track.song, track.artist, track.album, track.duration, now, []);
        assert (list + [data])[..|list|] == list;
        match write
        case Throws(e) => Throws(e)
        case Done(_) => Done(Created(data, list + [data]))
  }

  /** A falsy stored value behaves as an empty store, whatever it is. */
  lemma FalsyStoreIsEmpty(stored: StoredValue, index: int)
    requires !IsTruthy(stored)
    ensures ListCustomLyrics(Done(stored)) == Done(Records([]))
    ensures GetCustomLyrics(Done(stored), index) == Done(Undefined)
  {
  }

  /** A truthy value that is not an array is listed as it is, and creating
      a record rejects with the TypeError whatever the write would do. */
  lemma NonArrayRejectsCreate(stored: StoredValue, track: TrackInfo, videoId: Option<string>,
                              now: int, write: Attempt<()>)
    requires stored.NotAnArray? && stored.truthy
    ensures ListCustomLyrics(Done(stored)) == Done(stored)
    ensures CreateCustomLyrics(Done(stored), track, videoId, now, write) == Throws(PushTypeError)
  {
  }

  /** Every record stored before a creation keeps its index. */
  lemma CreateKeepsIndices(stored: StoredValue, track: TrackInfo,
                           videoId: Option<string>, now: int, index: int)
    requires GetCustomLyrics(Done(stored), index).value.Found?
    ensures var c := CreateCustomLyrics(Done(stored), track, videoId, now, Done(()));
            && c.Done?
            && GetCustomLyrics(Done(Records(c.value.saved)), index) == GetCustomLyrics(Done(stored), index)
  {
    var c := CreateCustomLyrics(Done(stored), track, videoId, now, Done(()));
    var n := |ListCustomLyrics(Done(stored)).value.records|;
    assert c.value.saved[index] == c.value.saved[..n][index];
  }

  /** The created record is what fetching the old length's index returns. */
  lemma CreateThenGet(stored: StoredValue, track: TrackInfo,
                      videoId: Option<string>, now: int)
    requires ListCustomLyrics(Done(stored)).value.Records?
    ensures var c := CreateCustomLyrics(Done(stored), track, videoId, now, Done(()));
            && c.Done?
            && GetCustomLyrics(Done(Records(c.value.saved)), |ListCustomLyrics(Done(stored)).value.records|)
               == Done(Found(c.value.record))
  {
  }

  /** Creating twice with the same metadata stores two records. */
  lemma CreateTwiceKeepsBoth(stored: StoredValue, track: TrackInfo,
                             videoId: Option<string>, now: int)
    requires ListCustomLyrics(Done(stored)).value.Records?
    ensures var c1 := CreateCustomLyrics(Done(stored), track, videoId, now, Done(()));
            var c2 := CreateCustomLyrics(Done(Records(c1.value.saved)), track, videoId, now, Done(()));
            && c1.Done? && c2.Done?
            && |c2.value.saved| == |ListCustomLyrics(Done(stored)).value.records| + 2
            && c2.value.saved[|c2.value.saved| - 2] == c2.value.saved[|c2.value.saved| - 1] == c1.value.record
  {
    var c1 := CreateCustomLyrics(Done(stored), track, videoId, now, Done(()));
    var c2 := CreateCustomLyrics(Done(Records(c1.value.saved)), track, videoId, now, Done(()));
    var n := |c1.value.saved|;
    assert c2.value.saved[n - 1] == c2.value.saved[..n][n - 1];
  }
}
