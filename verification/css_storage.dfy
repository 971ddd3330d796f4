/** Where the theme editor keeps custom CSS: synced storage when the CSS
    is small enough, local storage otherwise, with a fallback to local
    storage when synced storage reports its quota exceeded.

    The two storage areas are two string maps. Each storage call of one
    save or load is numbered from 0 in call order; which calls fail, and
    with what error, is an input. A failing call changes nothing.
 */
module CssStorage {
  import opened Wrappers
  import Text
  import Utf8
  import EditorConfig

  const CssKey: string := "customCSS"
  const TypeKey: string := "cssStorageType"

  datatype Area = Sync | Local {
    /** The name stored under `cssStorageType`. */
    function Name(): string {
      if Sync? then "sync" else "local"
    }
  }

  datatype Store = Store(sync: map<string, string>, local: map<string, string>) {
    function Area(a: Area): map<string, string> {
      if a.Sync? then sync else local
    }
  }

  /** A storage error; its message may be missing. */
  datatype StorageError = StorageError(message: Option<string>)

  /** `error.message?.includes("quota")`. */
  predicate IsQuotaError(e: StorageError) {
    e.message.Some? && Text.Contains(e.message.value, "quota")
  }

  /** `getStorageStrategy`: local storage exactly when the CSS's UTF-8 size
      exceeds the synced-storage limit. */
  function GetStorageStrategy(css: string): (a: Area)
    ensures a == Local <==> Utf8.ByteSize(css) > EditorConfig.SyncStorageLimit
  {
    if Utf8.ByteSize(css) > EditorConfig.SyncStorageLimit then Local else Sync
  }

  /** One storage call that writes: `set(entries)` or `remove(key)`. */
  datatype Write = Set(area: Area, entries: map<string, string>) | Remove(area: Area, key: string)

  function Apply(store: Store, w: Write): Store {
    match w
    case Set(Sync, e) => store.(sync := store.sync + e)
    case Set(Local, e) => store.(local := store.local + e)
    case Remove(Sync, k) => store.(sync := store.sync - {k})
    case Remove(Local, k) => store.(local := store.local - {k})
  }

  /** The state after running some writes: the store, the number of calls
      made, and the error of the call that failed, if one did. */
  datatype Exec = Exec(store: Store, calls: nat, failure: Option<StorageError>)

  /** Runs `writes` in order, stopping at the first failing call. */
  function Run(store: Store, writes: seq<Write>, faults: map<nat, StorageError>, calls: nat): (e: Exec)
    ensures calls < e.calls <= calls + |writes| || (e.calls == calls && writes == [])
    ensures e.failure.None? <==> forall i :: calls <= i < calls + |writes| ==> i !in faults
    ensures e.failure.None? ==> e.calls == calls + |writes|
    ensures e.failure.Some? ==> e.calls - 1 in faults && e.failure.value == faults[e.calls - 1]
                                && forall i :: calls <= i < e.calls - 1 ==> i !in faults
    decreases writes
  {
    if writes == [] then Exec(store, calls, None)
    else if calls in faults then Exec(store, calls + 1, Some(faults[calls]))
    else Run(Apply(store, writes[0]), writes[1..], faults, calls + 1)
  }

  /** The first failing call among the calls numbered `lo` to `hi - 1`. */
  function FirstFault(faults: map<nat, StorageError>, lo: nat, hi: nat): (k: Option<nat>)
    ensures k.None? <==> forall i :: lo <= i < hi ==> i !in faults
    ensures k.Some? ==> lo <= k.value < hi && k.value in faults
                        && forall i :: lo <= i < k.value ==> i !in faults
    decreases hi - lo
  {
    if lo >= hi then None
    else if lo in faults then Some(lo)
    else FirstFault(faults, lo + 1, hi)
  }

  /** A failing call with none before it in the range is the first. */
  lemma FirstFaultIs(faults: map<nat, StorageError>, lo: nat, hi: nat, j: nat)
    requires lo <= j < hi && j in faults
    requires forall i :: lo <= i < j ==> i !in faults
    ensures FirstFault(faults, lo, hi) == Some(j)
  {
    var r := FirstFault(faults, lo, hi);
    assert r.Some? && !(r.value < j) && !(j < r.value);
  }

  /** A run of writes stops right after its first failing call, with that
      call's error; without one, it makes every call. */
  lemma RunStopsAtFirstFault(store: Store, writes: seq<Write>, faults: map<nat, StorageError>, calls: nat)
    ensures var e := Run(store, writes, faults, calls);
            var k := FirstFault(faults, calls, calls + |writes|);
            && (k.None? ==> e.failure.None? && e.calls == calls + |writes|)
            && (k.Some? ==> e.calls == k.value + 1 && e.failure == Some(faults[k.value]))
  {
    var e := Run(store, writes, faults, calls);
    var k := FirstFault(faults, calls, calls + |writes|);
    if k.Some? {
      assert e.failure.Some?;
      assert !(e.calls - 1 < k.value) && !(k.value < e.calls - 1);
    }
  }

  /** The writes of the local strategy, and of the quota fallback. */
  function LocalWrites(css: string): (ws: seq<Write>)
    ensures |ws| == 3
    ensures forall i :: 0 <= i < |ws| ==> TouchesOwnKeys(ws[i])
  {
    [Set(Local, map[CssKey := css]), Remove(Sync, CssKey), Set(Sync, map[TypeKey := "local"])]
  }

  /** The writes of the sync strategy. */
  function SyncWrites(css: string): (ws: seq<Write>)
    ensures |ws| == 2
    ensures forall i :: 0 <= i < |ws| ==> TouchesOwnKeys(ws[i])
  {
    [Set(Sync, map[CssKey := css, TypeKey := "sync"]), Remove(Local, CssKey)]
  }

  /** `SaveResult`; an absent `wasRetry` is `false`. */
  datatype SaveResult = SaveResult(success: bool, strategy: Option<Area>, wasRetry: bool, error: Option<StorageError>)

  datatype Saved = Saved(result: SaveResult, store: Store)

  /** `css` is stored in area `a` and only there, and the type key names
      `a`. */
  predicate PlacedIn(store: Store, css: string, a: Area) {
    && CssKey in store.Area(a) && store.Area(a)[CssKey] == css
    && CssKey !in store.Area(if a.Sync? then Local else Sync)
    && TypeKey in store.sync && store.sync[TypeKey] == a.Name()
  }

  /** Keys other than the two the editor owns keep their values. */
  predicate OthersUnchanged(before: Store, after: Store) {
    && before.sync.Keys - {CssKey, TypeKey} == after.sync.Keys - {CssKey, TypeKey}
    && (forall k :: k != CssKey && k != TypeKey && k in before.sync ==> k in after.sync && after.sync[k] == before.sync[k])
    && before.local.Keys - {CssKey} == after.local.Keys - {CssKey}
    && (forall k :: k != CssKey && k in before.local ==> k in after.local && after.local[k] == before.local[k])
  }

  /** The writes of the strategy chosen for `css`. */
  function StrategyWrites(css: string): seq<Write> {
    if GetStorageStrategy(css).Local? then LocalWrites(css) else SyncWrites(css)
  }

  /** `saveToStorageWithFallback`. */
  function SaveToStorageWithFallback(store: Store, css: string, retryCount: int,
                                     faults: map<nat, StorageError>): (s: Saved)
    ensures s.result.success ==> && s.result.strategy.Some?
                                 && PlacedIn(s.store, css, s.result.strategy.value)
                                 && s.result.error.None?
    ensures s.result.success && !s.result.wasRetry ==> s.result.strategy == Some(GetStorageStrategy(css))
    ensures s.result.wasRetry ==> s.result.success && s.result.strategy == Some(Local)
    ensures !s.result.success ==> s.result.error.Some? && s.result.strategy.None? && !s.result.wasRetry
    ensures faults == map[] ==> s.result == SaveResult(true, Some(GetStorageStrategy(css)), false, None)
    ensures OthersUnchanged(store, s.store)
  {
    var first := StrategyAttempt(store, css, faults);
    match first.failure
    case None => Saved(SaveResult(true, Some(GetStorageStrategy(css)), false, None), first.store)
    case Some(error) =>
      var k := FirstFault(faults, 0, |StrategyWrites(css)|).value;
      if IsQuotaError(error) && retryCount < EditorConfig.MaxRetryAttempts then
        var fallback := LocalFallback(first.store, css, faults, k + 1);
        OthersUnchangedTransitive(store, first.store, fallback.store);
        fallback
      else
        Saved(SaveResult(false, None, false, Some(error)), first.store)
  }

  /** Which call decides a save, for any failing calls: with no failing
      write of the chosen strategy the save succeeds there; after a first
      failing write with a quota error and retries left, it is a retried
      local save unless one of the fallback's calls fails too, in which
      case the first of those reports its error; after any other first
      failing write, that write's error is reported. */
  lemma SaveOutcome(store: Store, css: string, retryCount: int, faults: map<nat, StorageError>)
    ensures var r := SaveToStorageWithFallback(store, css, retryCount, faults).result;
            var k := FirstFault(faults, 0, |StrategyWrites(css)|);
            k.None? ==> r == SaveResult(true, Some(GetStorageStrategy(css)), false, None)
    ensures var r := SaveToStorageWithFallback(store, css, retryCount, faults).result;
            var k := FirstFault(faults, 0, |StrategyWrites(css)|);
            k.Some? && !(IsQuotaError(faults[k.value]) && retryCount < EditorConfig.MaxRetryAttempts) ==>
              r == SaveResult(false, None, false, Some(faults[k.value]))
    ensures var r := SaveToStorageWithFallback(store, css, retryCount, faults).result;
            var k := FirstFault(faults, 0, |StrategyWrites(css)|);
            k.Some? && IsQuotaError(faults[k.value]) && retryCount < EditorConfig.MaxRetryAttempts ==>
              var j := FirstFault(faults, k.value + 1, k.value + 1 + |LocalWrites(css)|);
              && (j.None? ==> r == SaveResult(true, Some(Local), true, None))
              && (j.Some? ==> r == SaveResult(false, None, false, Some(faults[j.value])))
  {
    var first := StrategyAttempt(store, css, faults);
    var k := FirstFault(faults, 0, |StrategyWrites(css)|);
    if k.Some? {
      assert first.failure == Some(faults[k.value]);
    }
  }

  /** The `try` block's writes for the chosen strategy, numbered from 0.
      They place the CSS when none fails, and otherwise stop right after
      the first failing call, with its error. */
  function StrategyAttempt(store: Store, css: string, faults: map<nat, StorageError>): (e: Exec)
    ensures var k := FirstFault(faults, 0, |StrategyWrites(css)|);
            && (k.None? ==> e.failure.None? && PlacedIn(e.store, css, GetStorageStrategy(css)))
            && (k.Some? ==> e.failure == Some(faults[k.value]) && e.calls == k.value + 1)
    ensures OthersUnchanged(store, e.store)
  {
    WritesEffect(store, css, GetStorageStrategy(css), faults, 0);
    RunStopsAtFirstFault(store, StrategyWrites(css), faults, 0);
    Run(store, StrategyWrites(css), faults, 0)
  }

  /** The `catch` block's retry: the local strategy's writes, numbered from
      `calls` on. It succeeds as a retried local save exactly when none of
      them fails, and otherwise fails with the first failing call's
      error. */
  function LocalFallback(store: Store, css: string, faults: map<nat, StorageError>, calls: nat): (s: Saved)
    ensures var j := FirstFault(faults, calls, calls + |LocalWrites(css)|);
            && (j.None? ==> s.result == SaveResult(true, Some(Local), true, None) && PlacedIn(s.store, css, Local))
            && (j.Some? ==> s.result == SaveResult(false, None, false, Some(faults[j.value])))
    ensures OthersUnchanged(store, s.store)
  {
    var fallback := Run(store, LocalWrites(css), faults, calls);
    WritesEffect(store, css, Local, faults, calls);
    RunStopsAtFirstFault(store, LocalWrites(css), faults, calls);
    match fallback.failure
    case None => Saved(SaveResult(true, Some(Local), true, None), fallback.store)
    case Some(localError) => Saved(SaveResult(false, None, false, Some(localError)), fallback.store)
  }

  lemma OthersUnchangedTransitive(a: Store, b: Store, c: Store)
    requires OthersUnchanged(a, b) && OthersUnchanged(b, c)
    ensures OthersUnchanged(a, c)
  {
  }

  /** The writes for area `a`: a complete run places the CSS there, and no
      run touches other keys. */
  lemma WritesEffect(store: Store, css: string, a: Area, faults: map<nat, StorageError>, calls: nat)
    ensures var writes := if a.Local? then LocalWrites(css) else SyncWrites(css);
            var e := Run(store, writes, faults, calls);
            && OthersUnchanged(store, e.store)
            && (e.failure.None? ==> PlacedIn(e.store, css, a))
  {
    var writes := if a.Local? then LocalWrites(css) else SyncWrites(css);
    RunKeepsOthers(store, writes, faults, calls);
    if Run(store, writes, faults, calls).failure.None? {
      RunComplete(store, writes, faults, calls);
      var s1 := Apply(store, writes[0]);
      var s2 := Apply(s1, writes[1]);
      assert ApplyAll(store, writes) == ApplyAll(s2, writes[2..]);
      if a.Local? {
        assert ApplyAll(s2, writes[2..]) == ApplyAll(Apply(s2, writes[2]), writes[3..]);
      }
    }
  }

  function ApplyAll(store: Store, writes: seq<Write>): Store
    decreases writes
  {
    if writes == [] then store else ApplyAll(Apply(store, writes[0]), writes[1..])
  }

  /** A run without failing calls applies every write. */
  lemma {:induction false} RunComplete(store: Store, writes: seq<Write>, faults: map<nat, StorageError>, calls: nat)
    requires Run(store, writes, faults, calls).failure.None?
    ensures Run(store, writes, faults, calls).store == ApplyAll(store, writes)
    decreases writes
  {
    if writes != [] {
      RunComplete(Apply(store, writes[0]), writes[1..], faults, calls + 1);
    }
  }

  /** The editor's writes only touch its own two keys. */
  lemma {:induction false} RunKeepsOthers(store: Store, writes: seq<Write>, faults: map<nat, StorageError>, calls: nat)
    requires forall i :: 0 <= i < |writes| ==> TouchesOwnKeys(writes[i])
    ensures OthersUnchanged(store, Run(store, writes, faults, calls).store)
    decreases writes
  {
    if writes != [] && calls !in faults {
      var next := Apply(store, writes[0]);
      ApplyKeepsOthers(store, writes[0]);
      assert forall i :: 0 <= i < |writes[1..]| ==> writes[1..][i] == writes[i + 1];
      RunKeepsOthers(next, writes[1..], faults, calls + 1);
      OthersUnchangedTransitive(store, next, Run(store, writes, faults, calls).store);
    }
  }

  lemma ApplyKeepsOthers(store: Store, w: Write)
    requires TouchesOwnKeys(w)
    ensures OthersUnchanged(store, Apply(store, w))
  {
  }

  predicate TouchesOwnKeys(w: Write) {
    match w
    case Set(Sync, e) => e.Keys <= {CssKey, TypeKey}
    case Set(Local, e) => e.Keys <= {CssKey}
    case Remove(Sync, k) => k == CssKey || k == TypeKey
    case Remove(Local, k) => k == CssKey
  }

  // ---------------------------------------------------------------------
  // Loading.

  function Get(m: map<string, string>, k: string): Option<string> {
    if k in m then Some(m[k]) else None
  }

  predicate Truthy(v: Option<string>) {
    v.Some? && v.value != ""
  }

  /** The `catch` path of `loadCustomCSS`, from read call `next` on with
      `css` read so far: the local value if truthy, then overwritten by
      whatever the synced read yields. A failing read ends the path. */
  function LoadFallback(store: Store, failing: set<nat>, next: nat, css: Option<string>): (r: Option<string>)
    ensures r == css || r == Get(store.local, CssKey) || r == Get(store.sync, CssKey)
    ensures css.None? ==> FallbackYields(store, failing, next, if Truthy(r) then r.value else "")
  {
    if next in failing then css
    else
      var fromLocal := if Truthy(Get(store.local, CssKey)) then Get(store.local, CssKey) else css;
      if next + 1 in failing then fromLocal else Get(store.sync, CssKey)
  }

  /** The type key says the CSS lives in local storage. */
  predicate TypeIsLocal(store: Store) {
    TypeKey in store.sync && store.sync[TypeKey] == "local"
  }

  /** The CSS held in an area, `""` when there is none. */
  function CssIn(store: Store, a: Area): string {
    Get(store.Area(a), CssKey).GetOr("")
  }

  /** What the `catch` path of a load returns when its two reads are calls
      `n` and `n + 1`: nothing if the local read throws, the local CSS if
      only the synced read throws, and otherwise the synced CSS, which
      replaces the local one even when it is missing. */
  predicate FallbackYields(store: Store, failing: set<nat>, n: nat, css: string) {
    && (n in failing ==> css == "")
    && (n !in failing && n + 1 in failing ==> css == CssIn(store, Local))
    && (n !in failing && n + 1 !in failing ==> css == CssIn(store, Sync))
  }

  /** `loadCustomCSS`, with `failing` the numbers of the read calls that
      throw. The first read is call 0; on the local path the local read is
      call 1; the fallback's reads follow the failing one. */
  function LoadCustomCss(store: Store, failing: set<nat>): (css: string)
    ensures 0 !in failing && TypeIsLocal(store) && 1 !in failing ==> css == CssIn(store, Local)
    ensures 0 !in failing && !TypeIsLocal(store) ==> css == CssIn(store, Sync)
    ensures 0 in failing ==> FallbackYields(store, failing, 1, css)
    ensures 0 !in failing && TypeIsLocal(store) && 1 in failing ==> FallbackYields(store, failing, 2, css)
  {
    var value :=
      if 0 in failing then LoadFallback(store, failing, 1, None)
      else if Get(store.sync, TypeKey) == Some("local") then
        (if 1 in failing then LoadFallback(store, failing, 2, None) else Get(store.local, CssKey))
      else Get(store.sync, CssKey);
    if Truthy(value) then value.value else ""
  }

  // ---------------------------------------------------------------------
  // Properties.

  /** Round trip: whatever path a successful save took, a load without
      failures returns the saved CSS. */
  lemma SaveLoadRoundTrip(store: Store, css: string, retryCount: int, faults: map<nat, StorageError>)
    requires SaveToStorageWithFallback(store, css, retryCount, faults).result.success
    ensures LoadCustomCss(SaveToStorageWithFallback(store, css, retryCount, faults).store, {}) == css
  {
  }

  /** The size threshold is strict: 7000 bytes stay in synced storage. */
  lemma StrategyThreshold(css: string)
    ensures Utf8.ByteSize(css) == 7000 ==> GetStorageStrategy(css) == Sync
    ensures Utf8.ByteSize(css) == 7001 ==> GetStorageStrategy(css) == Local
  {
  }

  /** A quota error on any one write of the chosen strategy, with retries
      left, falls back to local storage and reports a retried local save. */
  lemma QuotaFallsBackToLocal(store: Store, css: string, retryCount: int, k: nat, error: StorageError)
    requires k < |StrategyWrites(css)|
    requires IsQuotaError(error) && retryCount < EditorConfig.MaxRetryAttempts
    ensures SaveToStorageWithFallback(store, css, retryCount, map[k := error]).result
            == SaveResult(true, Some(Local), true, None)
  {
    assert FirstFault(map[k := error], 0, |StrategyWrites(css)|) == Some(k);
    assert FirstFault(map[k := error], k + 1, k + 1 + |LocalWrites(css)|).None?;
    SaveOutcome(store, css, retryCount, map[k := error]);
  }

  /** Any other error on any one write of the strategy, or a quota error
      with no retries left, fails the save with that very error. */
  lemma OtherErrorFails(store: Store, css: string, retryCount: int, k: nat, error: StorageError)
    requires k < |StrategyWrites(css)|
    requires !IsQuotaError(error) || retryCount >= EditorConfig.MaxRetryAttempts
    ensures SaveToStorageWithFallback(store, css, retryCount, map[k := error]).result
            == SaveResult(false, None, false, Some(error))
  {
    assert FirstFault(map[k := error], 0, |StrategyWrites(css)|) == Some(k);
    SaveOutcome(store, css, retryCount, map[k := error]);
  }

  /** The fallback runs at most once: when any of its writes fails too, the
      save fails with the fallback's error. */
  lemma FallbackFailureIsFinal(store: Store, css: string, retryCount: int, k: nat, j: nat,
                               e1: StorageError, e2: StorageError)
    requires k < |StrategyWrites(css)| && k < j <= k + |LocalWrites(css)|
    requires IsQuotaError(e1) && retryCount < EditorConfig.MaxRetryAttempts
    ensures SaveToStorageWithFallback(store, css, retryCount, map[k := e1, j := e2]).result
            == SaveResult(false, None, false, Some(e2))
  {
    var faults := map[k := e1, j := e2];
    assert faults[k] == e1 && faults[j] == e2;
    FirstFaultIs(faults, 0, |StrategyWrites(css)|, k);
    FirstFaultIs(faults, k + 1, k + 1 + |LocalWrites(css)|, j);
    SaveOutcome(store, css, retryCount, faults);
  }

  /** Nothing stored loads as the empty string. */
  lemma LoadNothing(failing: set<nat>)
    ensures LoadCustomCss(Store(map[], map[]), failing) == ""
  {
  }

  /** On the error path the synced read overwrites the local value, even
      when synced storage holds no CSS and local storage does. */
  lemma LoadFallbackPrefersSync(store: Store, failing: set<nat>)
    requires 0 in failing && 1 !in failing && 2 !in failing
    ensures LoadCustomCss(store, failing) == CssIn(store, Sync)
    ensures CssKey !in store.sync ==> LoadCustomCss(store, failing) == ""
  {
  }

  /** On the error path a failing synced read leaves the local value. */
  lemma LoadFallbackKeepsLocal(store: Store, failing: set<nat>)
    requires 0 in failing && 1 !in failing && 2 in failing
    ensures LoadCustomCss(store, failing) == CssIn(store, Local)
  {
  }

  // ---------------------------------------------------------------------
  // Status messages.

  /** `showSyncSuccess`'s text. */
  function SyncSuccessMessage(strategy: Area, wasRetry: bool): (msg: string)
    ensures strategy.Sync? ==> msg == "Saved!"
    ensures strategy.Local? && wasRetry ==> msg == "Saved (Large CSS - Local)"
    ensures strategy.Local? && !wasRetry ==> msg == "Saved (Local)"
  {
    if strategy.Local? then (if wasRetry then "Saved (Large CSS - Local)" else "Saved (Local)") else "Saved!"
  }

  /** `showSyncError`'s text. */
  function SyncErrorMessage(error: StorageError): (msg: string)
    ensures msg == "CSS too large for storage!" <==> IsQuotaError(error)
    ensures msg == "Something went wrong!" <==> !IsQuotaError(error)
  {
    if IsQuotaError(error) then "CSS too large for storage!" else "Something went wrong!"
  }

  /** A quota fallback is reported as a large local save. */
  lemma QuotaFallbackMessage(store: Store, css: string, retryCount: int, k: nat, error: StorageError)
    requires k < |StrategyWrites(css)|
    requires IsQuotaError(error) && retryCount < EditorConfig.MaxRetryAttempts
    ensures var r := SaveToStorageWithFallback(store, css, retryCount, map[k := error]).result;
            SyncSuccessMessage(r.strategy.value, r.wasRetry) == "Saved (Large CSS - Local)"
  {
    QuotaFallsBackToLocal(store, css, retryCount, k, error);
  }
}
