/** The rich-sync provider: queries the rich-sync lyrics service with the
    track metadata and a per-install device id, hands the timed-text
    payload to the TTML filler, and fills the "unison-richsynced" slot.

    Every awaited foreign call is an input: the persisted device id read
    from local storage, the freshly generated UUID, the fetch outcome (network
    failure, abort and the 10 second timeout all surface as a thrown
    value), and the outcome of `fillTtml`.
 */
module UnisonProvider {
  import opened Wrappers
  import opened Lyrics
  import Text

  const SlotKey: string := "unison-richsynced"

  /** The parts of the HTTP response the provider looks at: the `ok` flag
      and, when read, `json.data.lyrics` (`Throws` when the body is not
      JSON or has no `data`; `Done(None)` when `data.lyrics` is absent). */
  datatype ServiceResponse = ServiceResponse(ok: bool, lyrics: Attempt<Option<string>>)

  /** A truthy `fillTtml` outcome and the result it carries. */
  datatype TtmlFill = TtmlFill(result: Option<LyricSourceResult>)

  /** The request sent: its query parameters, in order, and the
      `X-Device-ID` header. */
  datatype Request = Request(query: seq<(string, string)>, deviceId: string)

  /** What one call does: the request it sent (if it got that far), the
      device id it persisted (if it generated one), and how it ended. */
  datatype UnisonRun = UnisonRun(request: Option<Request>, persistedId: Option<string>, run: FillerRun)

  /** The device id and the value, if any, written back under "odid". */
  datatype DeviceId = DeviceId(id: string, stored: Option<string>)

  /** `obtainDeviceId`: a truthy persisted id is reused as is; otherwise a
      new id is generated, persisted and returned. */
  function ObtainDeviceId(persisted: Option<string>, newId: string): (d: DeviceId)
    ensures persisted.Some? && persisted.value != "" ==> d == DeviceId(persisted.value, None)
    ensures !(persisted.Some? && persisted.value != "") ==> d.id == newId && d.stored == Some(newId)
  {
    if persisted.Some? && persisted.value != "" then DeviceId(persisted.value, None)
    else DeviceId(newId, Some(newId))
  }

  /** The query string: song, artist and duration always, album only when
      it is neither null nor undefined (an empty album is still sent). */
  function QueryParams(q: TrackQuery): (params: seq<(string, string)>)
    ensures |params| >= 3
    ensures params[0] == ("song", q.song) && params[1] == ("artist", q.artist)
    ensures params[2] == ("duration", Text.IntToString(q.duration))
    ensures |params| == if q.album.Some? then 4 else 3
    ensures q.album.Some? ==> params[3] == ("album", q.album.value)
  {
    [("song", q.song), ("artist", q.artist), ("duration", Text.IntToString(q.duration))]
      + (if q.album != None then [("album", q.album.value)] else [])
  }

  /** `searchParams.get(key)`: the value of the first parameter named
      `key`. */
  function Lookup(params: seq<(string, string)>, key: string): (v: Option<string>)
    ensures v.None? <==> forall i :: 0 <= i < |params| ==> params[i].0 != key
    ensures v.Some? ==> (key, v.value) in params
    ensures params != [] && params[0].0 == key ==> v == Some(params[0].1)
  {
    if params == [] then None
    else if params[0].0 == key then Some(params[0].1)
    else Lookup(params[1..], key)
  }

  /** The service reads back every field of the query from the URL: the
      three fixed parameters and an album exactly when one was given. */
  lemma QueryParamsRoundTrip(q: TrackQuery)
    ensures var params := QueryParams(q);
            && Lookup(params, "song") == Some(q.song)
            && Lookup(params, "artist") == Some(q.artist)
            && Lookup(params, "duration") == Some(Text.IntToString(q.duration))
            && Lookup(params, "album") == q.album
  {
    var params := QueryParams(q);
    assert params[0].0 == "song" && params[1].0 == "artist" && params[2].0 == "duration";
    assert "song" != "artist" && "song" != "duration" && "artist" != "duration";
    assert "album" != "song" && "album" != "artist" && "album" != "duration";
    if q.album.None? {
      assert forall i :: 0 <= i < |params| ==> params[i].0 != "album";
    }
  }

  /** The provider. A thrown value propagates: the slot is then left as it
      was, and so is the whole source map. */
  function Unison(q: TrackQuery, m: SourceMap,
                  persisted: Attempt<Option<string>>, newId: string,
                  fetch: Attempt<ServiceResponse>, fill: Attempt<Option<TtmlFill>>): (u: UnisonRun)
    ensures u.run.Threw? ==> u.run.sourceMap == m
    ensures u.run.Returned? ==> SlotKey in m && OnlySlotChanged(m, u.run.sourceMap, SlotKey)
                                && u.run.sourceMap[SlotKey].filled
    ensures u.request.Some? <==> persisted.Done?
    ensures u.request.Some? ==> u.request.value.query == QueryParams(q)
  {
    match persisted
    case Throws(_) => UnisonRun(None, None, Threw(m))
    case Done(odid) =>
      var device := ObtainDeviceId(odid, newId);
      var request := Some(Request(QueryParams(q), device.id));
      var ending :=
        match fetch
        case Throws(_) => Threw(m)
        case Done(response) =>
          if !response.ok then
            (if SlotKey in m then Returned(FillSlot(m, SlotKey, None)) else Threw(m))
          else
            match response.lyrics
            case Throws(_) => Threw(m)
            case Done(_) =>
              match fill
              case Throws(_) => Threw(m)
              case Done(None) =>
                if SlotKey in m then Returned(FillSlot(m, SlotKey, None)) else Threw(m)
              case Done(Some(filled)) =>
                if SlotKey in m then Returned(FillSlot(m, SlotKey, filled.result)) else Threw(m);
      UnisonRun(request, device.stored, ending)
  }

  // ---------------------------------------------------------------------
  // Properties of the provider.

  /** A non-ok response fills the slot with a miss, whatever the body and
      the TTML filler would have produced: neither is consulted. */
  lemma NotOkFillsMiss(q: TrackQuery, m: SourceMap, persisted: Option<string>, newId: string,
                       response: ServiceResponse, fill: Attempt<Option<TtmlFill>>)
    requires SlotKey in m && !response.ok
    ensures Unison(q, m, Done(persisted), newId, Done(response), fill).run
            == Returned(m[SlotKey := Slot(true, None)])
  {
  }

  /** A falsy fill outcome fills the slot with a miss; a truthy one fills
      it with the result the outcome carries. */
  lemma FillOutcomeDecidesSlot(q: TrackQuery, m: SourceMap, persisted: Option<string>, newId: string,
                               ttml: Option<string>, fill: Option<TtmlFill>)
    requires SlotKey in m
    ensures var u := Unison(q, m, Done(persisted), newId, Done(ServiceResponse(true, Done(ttml))), Done(fill));
            && u.run.Returned?
            && u.run.sourceMap[SlotKey] == Slot(true, if fill.Some? then fill.value.result else None)
  {
  }

  /** A rejected fetch, an unreadable body or a throwing TTML filler makes
      the provider throw with the slot still unfilled. */
  lemma ThrowLeavesSlotUnfilled(q: TrackQuery, m: SourceMap, persisted: Attempt<Option<string>>, newId: string,
                                fetch: Attempt<ServiceResponse>, fill: Attempt<Option<TtmlFill>>)
    requires SlotKey in m && !m[SlotKey].filled
    requires || persisted.Throws? || fetch.Throws?
             || (fetch.value.ok && fetch.value.lyrics.Throws?)
             || (fetch.value.ok && fill.Throws?)
    ensures var u := Unison(q, m, persisted, newId, fetch, fill);
            u.run.Threw? && !u.run.sourceMap[SlotKey].filled
  {
  }

  /** The header carries the persisted id when it is truthy, and the new
      one otherwise, which is then persisted. */
  lemma DeviceIdHeader(q: TrackQuery, m: SourceMap, persisted: Option<string>, newId: string,
                       fetch: Attempt<ServiceResponse>, fill: Attempt<Option<TtmlFill>>)
    ensures var u := Unison(q, m, Done(persisted), newId, fetch, fill);
            if persisted.Some? && persisted.value != "" then
              u.request.value.deviceId == persisted.value && u.persistedId.None?
            else
              u.request.value.deviceId == newId && u.persistedId == Some(newId)
  {
  }

  /** Reusing the id the previous call persisted: a second call sends the
      same device id as the first. */
  lemma DeviceIdStable(q: TrackQuery, m: SourceMap, newId1: string, newId2: string,
                       fetch: Attempt<ServiceResponse>, fill: Attempt<Option<TtmlFill>>)
    requires newId1 != ""
    ensures var u1 := Unison(q, m, Done(None), newId1, fetch, fill);
            var u2 := Unison(q, m, Done(u1.persistedId), newId2, fetch, fill);
            u2.request.value.deviceId == u1.request.value.deviceId
  {
  }
}
