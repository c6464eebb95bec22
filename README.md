# OffGridOne update manager: a Dafny model

OffGridOne is a progressive web app for updating an off-grid device. The
operator picks update packages (ZIP archives), and the app keeps them in a
local list of pending updates. When connected to the device, the app runs an
apply pipeline: extract the archive, upload its files, then a fixed series
of best-effort device calls. A successful run moves the update into the
list of applied updates. That list is reconciled with the device's own list
of installed apps on every connection. A service worker keeps the app shell
available offline: it caches it by generation, routes fetches, and sweeps old
generations.

This project models that logic in Dafny and proves its properties:

- `js_value.dfy` (`JsValues`): the JSON-shaped JavaScript values the app
  reads. It covers truthiness, `||`, property reads, and what `for … of`
  visits.
- `js_string.dfy` (`JsStrings`): `String.prototype.replace` with a string
  pattern, which removes the first occurrence only. Also `trim` with the
  ECMAScript white-space set.
- `update_record.dfy` (`UpdateRecords`): the update record and
  `StorageService.extractUpdateMetadata`. The archive and JSON libraries
  become an `ArchiveOutcome`.
- `registry.dfy` (`Registry`): the list operations on pending and applied
  updates:
  - removal by name;
  - the "with file" filter;
  - the device merge, as a specification function (`Merge`, `Reconcile`)
    and as the push loop (`MergeApplied`);
  - the empty-list fallback when loading from storage.
- `pipeline.dfy` (`Pipeline`): `UIManager.applyUpdate` up to its commit, as
  an imperative method (`RunPipeline`) proved against a specification of one
  run (`Plan`). `Plan` gives the result, the progress checkpoints and the
  ordered device calls.
- `app_state.dfy` (`App`): the global `state` object as the class
  `AppState`. Its two lists live in memory and in `localStorage`. The class
  holds every operation that changes them: load, connection refresh,
  reconciliation, file selection, removal, mark-as-applied, and the apply
  flow behind its connection gate. It also holds the SSID and connection
  guard of the network settings.
- `service_worker.dfy` (`ServiceWorker`): the cache storage as the class
  `CacheStorage` (named caches in creation order). It has the install,
  fetch and activate handlers, with the fetch routing as a pure decision
  (`Decide`).

The network, the ZIP library, the device's replies and the clock are
parameters. The archive and its entries are `ArchiveLoad`/`ArchiveOutcome`.
The upload is an `UploadOracle`: its progress callbacks plus its final
status. The best-effort calls get a reply function, `GatewayCall -> bool`.
The fetch network is a `NetResult` or a function from URL to `NetResult`.
Each `new Date().toISOString()` is a string parameter.

## Model

| member | source | states |
|---|---|---|
| JsValues.Truthy | app.js:335-347 | JavaScript truthiness: the empty string, 0, false, null and undefined are falsy; every array and object is truthy |
| JsValues.Or | app.js:335-347 | the or-operator: the left operand when it is truthy, else the right one |
| JsValues.Elements | app.js:773-785 | what `for … of` visits in a list field: an array's items, a string's characters, nothing otherwise |
| JsValues.OrTruthy | app.js:335-347 | the or-operator yields a truthy value exactly when one operand is truthy, and yields one of the two operands |
| JsValues.ElementsNonEmpty | app.js:773-785 | a list field gives the loop something to visit only when it is a non-empty array or string, and such a field is truthy |
| JsStrings.IndexOfFrom | app.js:319 | the result is -1 when the pattern does not occur at or after `from`, otherwise the leftmost such occurrence |
| JsStrings.RemoveFirst | app.js:319 | removing a pattern changes the length by nothing or by exactly the pattern's length |
| JsStrings.RemoveFirstAbsent | app.js:319 | a string without the pattern is returned unchanged |
| JsStrings.RemoveFirstCutsLeftmost | app.js:319 | only the leftmost occurrence is cut out; everything around it is kept |
| JsStrings.StripZipSuffix | app.js:319 | for a base name with no ".zip" in it, `base + ".zip"` loses exactly its extension |
| JsStrings.TrimStart | app.js:851 | only leading white space is removed, and the result starts with a non-space |
| JsStrings.TrimEnd | app.js:851 | only trailing white space is removed, and the result ends with a non-space |
| JsStrings.Trim | app.js:851 | `trim()`: leading and trailing white space removed |
| JsStrings.TrimEmptyIffAllSpace | app.js:851-856 | the trimmed SSID is empty exactly when the input is all white space |
| UpdateRecords.DefaultName | app.js:319 | the filename-derived name: the file name with its first ".zip" removed |
| UpdateRecords.ExtractUpdateMetadata | app.js:308-366 | every path keeps the file, its size and time; version, icon and the three list fields are truthy; the name is truthy or the filename default; `error` is present exactly on the paths that threw (including a manifest of `null` or `undefined`) |
| UpdateRecords.FallbackFields | app.js:316-364 | without a manifest, or when something threw: default name, "1.0.0", the package icon, empty lists, no integration fields; `error` carries the exception message only on the throwing paths |
| UpdateRecords.ManifestFieldResolution | app.js:335-348 | each aliased field takes the truthy snake_case value, else the truthy camelCase value, else `[]` for the lists; the integration fields fall back to the camelCase value itself |
| UpdateRecords.ManifestNameVersionIcon | app.js:336-338 | a truthy name, version or icon is taken as given; a falsy name becomes the filename default, a falsy version "1.0.0" and a falsy icon the package glyph |
| UpdateRecords.EmptyManifestIsFallback | app.js:335-348 | a manifest with no properties gives the no-manifest record, with the manifest kept as `metadata` |
| UpdateRecords.DefaultNameStripsExtension | app.js:319 | "name.zip" gives "name" when the name has no ".zip" of its own |
| UpdateRecords.DefaultNameRemovesFirstOnly | app.js:319 | "app.zip.zip" gives "app.zip" |
| UpdateRecords.DefaultNameCutsInsideName | app.js:319 | "my.zipper.zip" gives "myper.zip": the first ".zip" is removed even when it is not the extension |
| UpdateRecords.DefaultNameCanBeEmpty | app.js:319 | a file named ".zip" gets the empty, falsy name |
| Registry.WithoutName | app.js:379 | the filter keeps exactly the records with a different name, each from the input |
| Registry.WithoutNameSingle | app.js:379 | when the name is unique, the filter removes exactly that one entry and keeps the order |
| Registry.WithFiles | app.js:529 | exactly the records holding a file are kept |
| Registry.PlanSync | app.js:515-516 | without device info or apps, the sync returns early; apps that are not an array, or hold a null app, throw; otherwise every app is merged |
| Registry.DeviceRecord | app.js:518-525 | the applied record built from one device app |
| Registry.DeviceRecords | app.js:518-525 | one applied record per device app, in device order: the app's name and version, its icon or else the package glyph, its `installedAt` or else the current time, marked applied, with no file and `fileExists` false |
| Registry.Merge | app.js:531-536 | the `forEach` push: each local record is appended unless a record of its name is already in the merged list |
| Registry.FirstFresh | app.js:531-536 | the records of a list kept in order when their name is neither excluded nor held by an earlier record of the list |
| Registry.FirstFreshNames | app.js:531-536 | a name is among the kept records exactly when the list has it and the excluded records do not |
| Registry.MergeIsFirstFresh | app.js:531-536 | the merge appends to the device records exactly the records `FirstFresh` keeps |
| Registry.Reconcile | app.js:518-538 | the reconciled applied list: the device records, then the merge of the local records that hold a file |
| Registry.MergeFresh | app.js:531-537 | each pushed record comes from the local list and has a name not yet in the merged list |
| Registry.MergeCovers | app.js:531-537 | every device name and every local name ends up in the merged list |
| Registry.MergeNoCollision | app.js:531-537 | when no local name collides, the merge is plain concatenation |
| Registry.ReconcileShape | app.js:514-541 | the device apps come first in device order; then local records with files, with fresh names; every local record with a file is represented by name; records without a file come only from the device |
| Registry.ReconcileTail | app.js:518-538 | after the device records come the local records that hold a file, in local order, each kept only when neither the device nor an earlier local record has its name, so the first of several namesakes wins |
| Registry.ReconcileDeviceWins | app.js:531-537 | on a name collision the device's record is kept and the local one dropped |
| Registry.ReconcileIdempotent | app.js:514-541 | reconciling twice equals reconciling once when every device app reports `installedAt` |
| Registry.MergeApplied | app.js:531-537 | the push loop computes exactly `Merge` of the device records and the local records |
| Registry.LoadList | app.js:280-306 | a missing, empty or unparsable item loads as the empty list; a saved list loads as itself |
| Pipeline.PayloadEntries | app.js:743-745 | payload entries are neither directories nor the manifest, and come from the archive; every archive entry that is a file other than the manifest is kept |
| Pipeline.PayloadEntriesAppend | app.js:743-745 | the filter keeps archive order: filtering two runs laid end to end gives the two filtered runs in the same order |
| Pipeline.Plan | app.js:730-836 | one run of the apply: an archive error fails at 5; the first unreadable payload entry fails during extraction; a rejected upload fails after the upload call; otherwise the best-effort calls follow and the run completes at 100 |
| Pipeline.StepTrace | app.js:770-810 | the best-effort checkpoints: 70, then 75, 80, 85, 88 and 92 for the steps that run, then 95 |
| Pipeline.TailCalls | app.js:772-816 | the best-effort calls: deletes, commands, the optional reverse-proxy, dashboard and service calls, and the registration |
| Pipeline.FirstUnreadable | app.js:750-752 | every entry before the index reads; the entry at the index, if any, does not |
| Pipeline.ExtractPayload | app.js:749-758 | the extraction loop yields the checkpoints `10 + (i/n)*20` for the entries read; it fails exactly at the first unreadable entry, with that entry's message; otherwise it yields every payload name |
| Pipeline.DeleteOldFiles | app.js:773-778 | one delete call per old file, in order, each logged with the device's reply |
| Pipeline.ExecuteCommands | app.js:781-786 | one command call per update command, in order, each logged with the device's reply |
| Pipeline.CallIf | app.js:789-807 | an optional step makes its call exactly when its field is truthy |
| Pipeline.BestEffortSteps | app.js:770-818 | the checkpoints 70 … 100 and the best-effort calls, in their fixed order, whatever the device replies |
| Pipeline.RunPipeline | app.js:730-818 | the run's result, trace and calls are those of `Plan`, which does not read the device's replies; every logged call carries the reply it got |
| Pipeline.UploadAndRegister | app.js:760-818 | the upload is skipped with no payload; a rejected upload fails the run after the upload call; otherwise the best-effort steps follow |
| Pipeline.ExtractionBand | app.js:756 | extraction checkpoints never decrease and lie in [10, 30) |
| Pipeline.UploadBand | app.js:764-766 | upload percentages in [0, 100] that never decrease are shown in order within [30, 70] |
| Pipeline.StepBand | app.js:770-810 | the best-effort checkpoints never decrease and lie in [70, 95] |
| Pipeline.TraceShape | app.js:735-818 | with valid upload percentages the trace never decreases and stays in [0, 100]; it reaches 100 exactly when the run completes, and then only as the last checkpoint |
| Pipeline.CompletedIff | app.js:737-835 | a run completes exactly when the archive opens, every payload entry reads, and the upload is accepted or skipped |
| Pipeline.FailureMessage | app.js:831-835 | a failed run reports a non-empty message; an archive error reports its own message, or the generic one when that is empty |
| Pipeline.TailCallsOrder | app.js:772-816 | the best-effort calls start with one delete per old file, in order, and then one command per update command, in order; at most three optional calls follow; the registration is always made, and last |
| Pipeline.OptionalCallsIff | app.js:789-807 | the reverse-proxy, dashboard and service calls are made exactly when `caddyConfig`, `homerConfig` and `serviceName` are truthy |
| Pipeline.TailCallsNoUpload | app.js:770-816 | no best-effort call is an upload |
| Pipeline.RunCalls | app.js:739-816 | a completed run ends with the registration; a failed run made no call but the upload; the upload, when made, comes first, carries exactly the payload names, and needs a payload |
| Pipeline.CaddyDefaults | app.js:789-794 | the reverse-proxy domain defaults to the update's name and the port to 8080 |
| Pipeline.ThreeFilesScenario | app.js:737-818 | three payload files, nothing else to do, upload accepted: the run completes at 100 after exactly the upload and the registration |
| Pipeline.ServiceScenario | app.js:803-818 | with `serviceName` "web" the run completes at 100 whatever the device answers to the service call, and the service call comes right before the registration |
| App.ExtractAll | app.js:546-552 | one record per selected file, in selection order |
| App.AppliedCopy | app.js:369-373 | the applied copy keeps the update's name, version and file, is marked applied and stamped with the time |
| App.AppState.Load | app.js:472-474 | the initial state is disconnected with no device info, and each list is what storage gives |
| App.AppState.SyncAppliedUpdatesFromDevice | app.js:514-541 | with device apps, the applied list becomes their reconciliation with the local records and is saved; otherwise nothing changes; it throws exactly when the device apps are malformed |
| App.AppState.RefreshConnection | app.js:479-512 | connected exactly when the health check succeeds; device info is replaced only by a successful device-info reply; when connected, the applied list is reconciled with the (possibly stale) device info |
| App.AppState.HandleFileSelection | app.js:543-558 | the earlier pending records stay in front unchanged and every selected file's record follows, in selection order, without de-duplication; the list is saved; an empty selection changes nothing |
| App.AppState.RemovePendingUpdate | app.js:660-672 | on confirmation exactly entry `index` goes: the list shrinks by one, entries before it keep their index and entries after it move down by one; on dismissal nothing changes |
| App.AppState.MarkUpdateAsApplied | app.js:368-381 | applied grows by the stamped copy at its end; every pending record with that name goes; both lists are saved; nothing else changes |
| App.AppState.ApplyUpdate | app.js:730-836 | the pipeline runs as `Plan`; only a completed run commits the update to applied and drops it from pending; a failed run leaves both lists and storage untouched |
| App.AppState.ShowUpdateConfirmation | app.js:675-728 | when disconnected the apply never starts and nothing changes; a dismissed confirmation changes nothing; otherwise the apply runs |
| App.AppState.ApplyNetworkSettings | app.js:850-901 | an all-space SSID is refused first, then a disconnected device; only then is the trimmed SSID sent; a refusal by the device gives the fixed failure message |
| App.CommitMovesOne | app.js:375-380 | when the update's name is unique in pending, pending shrinks by exactly one and applied grows by one record with that name, marked applied |
| App.CommitDropsNamesakes | app.js:379 | two pending updates with the same name both leave pending on commit |
| App.SyncIdempotent | app.js:514-541 | syncing twice with the same device info equals syncing once when every app reports `installedAt` |
| ServiceWorker.Decide | service-worker.js:36-96 | the fetch routing: non-GET passes through; device API GETs go to the network, with a 503 reply offline; a cache hit is served; a miss is fetched, and offline a navigation gets the offline page |
| ServiceWorker.Stores | service-worker.js:67-84 | a response is written to the cache only for an intercepted, uncached GET whose network response has status 200 |
| ServiceWorker.NonGetPassesThrough | service-worker.js:39-42 | a non-GET request gets no response from the worker and writes nothing |
| ServiceWorker.ApiIsNetworkOnly | service-worker.js:44-56 | a device API GET never depends on the cache and stores nothing; a network failure becomes the 503 JSON reply |
| ServiceWorker.CacheHitIgnoresNetwork | service-worker.js:59-65 | a cached response is returned as it is, whatever the network would do, and nothing is stored |
| ServiceWorker.MissReturnsNetwork | service-worker.js:67-84 | on a miss the network response is returned unchanged and stored exactly when its status is 200 |
| ServiceWorker.MissOffline | service-worker.js:86-93 | on a miss with the network down, a navigation gets the cached offline page (or nothing), any other request the failure; nothing is stored |
| ServiceWorker.OfflineScenario | service-worker.js:44-93 | offline, a navigation gets the cached root document, an asset request the failure, and a device API request the 503 reply |
| ServiceWorker.MatchIn | service-worker.js:60 | a lookup finds the entry of some cache that has the URL, and finds nothing exactly when no cache has it |
| ServiceWorker.CacheStorage.Lookup | service-worker.js:60 | the same, on the stored caches |
| ServiceWorker.CacheStorage.Open | service-worker.js:20 | opening creates an empty cache, last in order, only when the name is new |
| ServiceWorker.CacheStorage.Put | service-worker.js:79-82 | the response is written under its URL in the named cache only |
| ServiceWorker.CacheStorage.Delete | service-worker.js:109 | the named cache and its name are removed; it reports whether it existed |
| ServiceWorker.CacheStorage.HandleFetch | service-worker.js:36-96 | the outcome is `Decide` on the request and the cache lookups; the network response is written into the current generation exactly when `Stores` holds, and nothing else changes |
| ServiceWorker.PutAll | service-worker.js:23 | after `addAll` every listed URL holds its response, and every other entry is unchanged |
| ServiceWorker.AddAllReady | service-worker.js:23 | `addAll` goes ahead exactly when every response arrived with a 2xx status |
| ServiceWorker.CacheStorage.OpenAndAddAll | service-worker.js:19-24 | the cache is opened; then either all the responses are written or none |
| ServiceWorker.CacheStorage.Install | service-worker.js:17-33 | the current generation exists after install; it holds every app-shell URL exactly when all of them could be fetched; a failure is only reported |
| ServiceWorker.InstallCachesShell | service-worker.js:2-24 | after a successful install every app-shell URL maps to the response the network gave for it |
| ServiceWorker.OnlyCurrent | service-worker.js:101-112 | the sweep keeps only the current generation's name, and keeps it when present |
| ServiceWorker.CacheStorage.Activate | service-worker.js:99-119 | every cache not named `offgridone-v3` is deleted; the current one keeps its contents |
| ServiceWorker.SweptLookup | service-worker.js:99-113 | after the sweep a lookup finds exactly the current generation's entry, and nothing from an older one |
| ServiceWorker.ActivateIdempotent | service-worker.js:99-113 | activating twice leaves the same storage as activating once |

## Left out

- DOM and UI: the snackbars, dialogs, progress-bar drawing and `render*`.
  The model keeps the progress values emitted and the outcome the dialogs
  show.
- The HTTP and XHR bodies of the device calls. Each call is its success
  flag. The upload is a sequence of percentages plus its final status; the
  `(loaded / total) * 100` computation survives only as the precondition
  `ValidProgress` on those percentages.
- `formatBytes` and `formatDate`: floating-point logarithms and locale
  formatting.
- JSON serialisation through `localStorage`. A saved list reloads as
  itself. In the browser a `File` object does not survive `JSON.stringify`:
  a reloaded pending update then has an empty object as its file, and its
  archive cannot be opened. Model that with a failing `ArchiveLoad`.
- A stored item that parses to something other than an array. `Stored`
  has no case for it.
- Failing `localStorage.setItem` calls: saving always succeeds.
- Asynchrony: promise scheduling, the `setTimeout` after a successful apply,
  the parallel deletes of the activation sweep, and the fact that the
  fetch handler does not await its `cache.put`. Everything runs in order,
  and the `put` completes before the response is returned.
- `skipWaiting`, `clients.claim` and the `DOMContentLoaded` wiring.
- URL resolution: cache keys are the request URLs as given. The install
  list and the offline page are keyed by their relative URLs.
- Response bodies, headers and `clone`. A response is its status, content
  type and body text.
- `Date` errors: an invalid `lastModified` would make `toISOString` throw.
  Times are strings passed in.
- Numbers are exact reals, with no NaN or infinities: JSON has none.
- JsValues.Prop: a string's or an array's built-in `length` property is not
  modelled as a property. The app reads only named manifest and device
  fields through it. When `oldFiles` or `updateCommands` is an object with a
  positive numeric `length`, the browser's delete loop or command loop
  (`for … of`, app.js:775 and app.js:783) throws because the object is not
  iterable. That happens after the upload was accepted, so the run ends in
  the error dialog and the update is not committed. The model iterates
  nothing for such a field and completes the run, so `Pipeline.CompletedIff`
  says Completed for it.
- The default icon is taken to be the package glyph U+1F4E6. The source
  text shows it as the four UTF-8 bytes of that glyph read as cp1252
  characters (app.js:321, 338, 356, 521).
- Every device call and the upload are assumed to settle. The upload's XHR
  listens only for `load` and `error` (app.js:147-157), and no `fetch` has a
  timeout, so a stalled request leaves `applyUpdate` waiting forever with
  the progress modal open. The model has no such outcome: every run ends
  Completed or Failed.
- Object key order: `Object.keys` lists integer-like keys first. The
  archive's entries are given in the order the library lists them.
- Names compare with `==` on values. JavaScript's `===` on object or array
  names compares identity.
- JsStrings.TrimStart: the white-space set is the ECMAScript one. It is
  written out as characters, with no Unicode database.
- App.AppState.ApplyUpdate: requires `index` to name a pending entry. The
  index comes from the rendered list.
- App.AppState.RemovePendingUpdate: requires the same, for the same reason.
- App.AppState.ShowUpdateConfirmation: the reconnect button of the
  "Connection Required" prompt is `RefreshConnection`, called separately.
- The device's reply to each best-effort call is recorded in the log and
  never read, so `Plan` does not take it.

Where the intended behaviour and the code differ, the model follows the
code:

- The default name removes the first ".zip" anywhere in the file name, not
  the extension ("my.zipper.zip" gives "myper.zip"). A file named ".zip"
  gets the empty name.
- The commit removes every pending update with the same name, not exactly
  one. Pending shrinks by one only when the name is unique
  (`CommitMovesOne`, `CommitDropsNamesakes`).
- Reconciliation keeps duplicate names that the device itself reports.
- The service worker intercepts device API GET requests. It answers them
  from the network only, with a synthetic 503 reply when offline; it does
  not let them pass through untouched. Non-GET requests pass through.
- A failed health check keeps the old device info. A healthy check whose
  device-info request fails still counts as connected, and reconciliation
  then uses the stale device info.
- Install failures are caught: the worker installs even when the app shell
  could not be cached.
