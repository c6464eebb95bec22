/**
 * The app's global `state` object and the `UIManager` / `StorageService`
 * operations that change it: loading the two lists, refreshing the
 * connection, reconciling with the device, selecting files, removing a
 * pending update, the apply flow behind its connection gate, and the
 * network-settings guard. `localStorage` is the pair of `Stored` fields; the
 * device's replies, the archives and the clock are parameters.
 */
module App {
  import opened Wrappers
  import opened JsValues
  import opened JsStrings
  import opened UpdateRecords
  import opened Registry
  import opened Pipeline

  /** One selected file together with what opening it as an archive gives. */
  datatype Selected = Selected(file: FileInfo, archive: ArchiveOutcome)

  /** The records `handleFileSelection` builds, one per selected file, in order. */
  function ExtractAll(files: seq<Selected>): (r: seq<UpdateRecord>)
    ensures |r| == |files|
    ensures forall i :: 0 <= i < |files| ==> r[i] == ExtractUpdateMetadata(files[i].file, files[i].archive)
  {
    seq(|files|, i requires 0 <= i < |files| => ExtractUpdateMetadata(files[i].file, files[i].archive))
  }

  /** The copy `markUpdateAsApplied` pushes: the update stamped as applied at `now`. */
  function AppliedCopy(update: UpdateRecord, now: string): (r: UpdateRecord)
    ensures r.name == update.name && r.version == update.version && r.file == update.file
    ensures r.isApplied && r.appliedAt == Str(now)
  {
    update.(appliedAt := Str(now), isApplied := true)
  }

  /** The applied list after `syncAppliedUpdatesFromDevice` with the given `deviceInfo`
      (unchanged when it returns early or throws). */
  function SyncedApplied(deviceInfo: JsValue, applied: seq<UpdateRecord>, now: string): seq<UpdateRecord> {
    match PlanSync(deviceInfo)
    case MergeWith(apps) => Reconcile(apps, applied, now)
    case _ => applied
  }

  /** What pressing "Apply" on a pending update leads to. */
  datatype ApplyOutcome =
    | ConnectionRequired                 // not connected: the reconnect prompt, nothing started
    | Cancelled                          // the confirmation dialog was dismissed
    | Ran(result: PipelineResult, trace: seq<real>, log: seq<Exchange>)

  /** What `applyNetworkSettings` ends with. */
  datatype NetworkOutcome =
    | EmptySsid                          // "SSID cannot be empty"
    | NotConnected                       // "Please connect to device first"
    | Configured(ssid: string, password: string, hideSsid: bool)
    | ConfigureFailed(message: string)   // the error dialog's message

  const NetworkFailure: string := "Failed to apply network settings"

  class AppState {
    var isConnected: bool
    var deviceInfo: JsValue
    var pending: seq<UpdateRecord>
    var applied: seq<UpdateRecord>
    /** The `pending_updates` and `applied_updates` items of `localStorage`. */
    var storedPending: Stored
    var storedApplied: Stored

    /** Loading either list from storage gives back the list in memory. */
    ghost predicate Persisted()
      reads this
    {
      LoadList(storedPending) == pending && LoadList(storedApplied) == applied
    }

    /** The initial `state` followed by `loadStoredData`'s two loads. */
    constructor Load(savedPending: Stored, savedApplied: Stored)
      ensures !isConnected && deviceInfo == Null
      ensures pending == LoadList(savedPending) && applied == LoadList(savedApplied)
      ensures storedPending == savedPending && storedApplied == savedApplied
      ensures Persisted()
    {
      isConnected := false;
      deviceInfo := Null;
      storedPending := savedPending;
      storedApplied := savedApplied;
      pending := LoadList(savedPending);
      applied := LoadList(savedApplied);
    }

    /**
     * `syncAppliedUpdatesFromDevice`: with device apps to merge, the applied
     * list becomes their reconciliation with the local records and is saved;
     * otherwise nothing changes. `threw` reports the TypeError raised when
     * `apps` is not an array or holds a null app.
     */
    method SyncAppliedUpdatesFromDevice(now: string) returns (threw: bool)
      requires Persisted()
      modifies this
      ensures threw <==> PlanSync(deviceInfo).Throw?
      ensures applied == SyncedApplied(old(deviceInfo), old(applied), now)
      ensures PlanSync(deviceInfo).MergeWith? ==> storedApplied == Saved(applied)
      ensures !PlanSync(deviceInfo).MergeWith? ==> storedApplied == old(storedApplied)
      ensures isConnected == old(isConnected) && deviceInfo == old(deviceInfo)
      ensures pending == old(pending) && storedPending == old(storedPending)
      ensures Persisted()
    {
      var plan := PlanSync(deviceInfo);
      threw := plan.Throw?;
      if !plan.MergeWith? {
        return;
      }
      var deviceApps := DeviceRecords(plan.apps, now);
      var localWithFiles := WithFiles(applied);
      var merged := MergeApplied(deviceApps, localWithFiles);
      applied := merged;
      storedApplied := Saved(applied);
    }

    /**
     * `refreshConnection`: `healthOk` is whether `GET /health` answered with a
     * 2xx status; `installedApps` is the body of `GET /installed-apps` when that
     * request (made only after a healthy check) succeeded. A failed device-info
     * request still counts as connected and leaves `deviceInfo` as it was;
     * when connected the applied list is reconciled with `deviceInfo`.
     */
    method RefreshConnection(healthOk: bool, installedApps: Option<JsValue>, now: string)
      returns (threw: bool)
      requires Persisted()
      modifies this
      ensures isConnected == healthOk
      ensures deviceInfo == if healthOk && installedApps.Some? then installedApps.value else old(deviceInfo)
      ensures applied == if healthOk then SyncedApplied(deviceInfo, old(applied), now) else old(applied)
      ensures threw <==> healthOk && PlanSync(deviceInfo).Throw?
      ensures pending == old(pending) && storedPending == old(storedPending)
      ensures !healthOk ==> storedApplied == old(storedApplied)
      ensures Persisted()
    {
      threw := false;
      if healthOk && installedApps.Some? {
        deviceInfo := installedApps.value;
      }
      isConnected := healthOk;
      if healthOk {
        threw := SyncAppliedUpdatesFromDevice(now);
      }
    }

    /**
     * `handleFileSelection`: every selected file becomes a record, appended to
     * the pending list in selection order with no de-duplication, and the list
     * is saved; an empty selection changes nothing. `added` is the count the
     * snackbar reports.
     */
    method HandleFileSelection(files: seq<Selected>) returns (added: nat)
      requires Persisted()
      modifies this
      ensures added == |files|
      ensures pending == old(pending) + ExtractAll(files)
      ensures |pending| == |old(pending)| + |files| && pending[..|old(pending)|] == old(pending)
      ensures forall i :: 0 <= i < |files| ==>
        pending[|old(pending)| + i] == ExtractUpdateMetadata(files[i].file, files[i].archive)
      ensures |files| > 0 ==> storedPending == Saved(pending)
      ensures |files| == 0 ==> storedPending == old(storedPending)
      ensures isConnected == old(isConnected) && deviceInfo == old(deviceInfo)
      ensures applied == old(applied) && storedApplied == old(storedApplied)
      ensures Persisted()
    {
      added := 0;
      if |files| == 0 {
        return;
      }
      var newUpdates: seq<UpdateRecord> := [];
      var i := 0;
      while i < |files|
        invariant 0 <= i <= |files|
        invariant newUpdates == ExtractAll(files[..i])
      {
        var metadata := ExtractUpdateMetadata(files[i].file, files[i].archive);
        newUpdates := newUpdates + [metadata];
        i := i + 1;
      }
      assert files[..i] == files;
      ghost var before := pending;
      pending := pending + newUpdates;
      assert pending[..|before|] == before;
      storedPending := Saved(pending);
      added := |newUpdates|;
    }

    /**
     * `removePendingUpdate` and its confirmation dialog: when confirmed,
     * exactly entry `index` is removed, the others keep their order, and the
     * list is saved; when dismissed nothing changes.
     */
    method RemovePendingUpdate(index: nat, confirmed: bool)
      requires index < |pending|
      requires Persisted()
      modifies this
      ensures confirmed ==> pending == old(pending)[..index] + old(pending)[index + 1..]
      ensures confirmed ==> |pending| == |old(pending)| - 1
      ensures confirmed ==> forall i :: 0 <= i < index ==> pending[i] == old(pending)[i]
      ensures confirmed ==> forall i :: index <= i < |pending| ==> pending[i] == old(pending)[i + 1]
      ensures confirmed ==> storedPending == Saved(pending)
      ensures !confirmed ==> pending == old(pending) && storedPending == old(storedPending)
      ensures isConnected == old(isConnected) && deviceInfo == old(deviceInfo)
      ensures applied == old(applied) && storedApplied == old(storedApplied)
      ensures Persisted()
    {
      if confirmed {
        pending := pending[..index] + pending[index + 1..];
        storedPending := Saved(pending);
      }
    }

    /**
     * `markUpdateAsApplied`: the applied list grows by the stamped copy at its
     * end; every pending record with the update's name is dropped, the rest
     * keep their order; both lists are saved.
     */
    method MarkUpdateAsApplied(update: UpdateRecord, now: string)
      modifies this
      ensures applied == old(applied) + [AppliedCopy(update, now)]
      ensures pending == WithoutName(old(pending), update.name)
      ensures storedApplied == Saved(applied) && storedPending == Saved(pending)
      ensures isConnected == old(isConnected) && deviceInfo == old(deviceInfo)
      ensures Persisted()
    {
      applied := applied + [AppliedCopy(update, now)];
      storedApplied := Saved(applied);
      pending := WithoutName(pending, update.name);
      storedPending := Saved(pending);
    }

    /**
     * `applyUpdate` on pending entry `index`: the pipeline runs as `Plan`
     * describes; only a completed run commits, moving the update to the
     * applied list and reloading both lists; a failed run leaves both lists
     * and storage untouched. `installedAt` is the time sent to the device,
     * `appliedAt` the later time of the commit.
     */
    method ApplyUpdate(index: nat, archive: ArchiveLoad, upload: UploadOracle,
                       reply: GatewayCall -> bool, installedAt: string, appliedAt: string)
      returns (result: PipelineResult, trace: seq<real>, log: seq<Exchange>)
      requires index < |pending|
      requires Persisted()
      modifies this
      ensures Run(result, trace, CallsOf(log)) == Plan(old(pending)[index], archive, upload, installedAt)
      ensures ExchangesAnswered(log, reply, upload)
      ensures result.Completed? ==>
        && applied == old(applied) + [AppliedCopy(old(pending)[index], appliedAt)]
        && pending == WithoutName(old(pending), old(pending)[index].name)
      ensures result.Failed? ==>
        && pending == old(pending) && applied == old(applied)
        && storedPending == old(storedPending) && storedApplied == old(storedApplied)
      ensures isConnected == old(isConnected) && deviceInfo == old(deviceInfo)
      ensures Persisted()
    {
      var update := pending[index];
      result, trace, log := RunPipeline(update, archive, upload, reply, installedAt);
      if result.Completed? {
        MarkUpdateAsApplied(update, appliedAt);
        assert LoadList(storedPending) == pending && LoadList(storedApplied) == applied;
        pending := LoadList(storedPending);
        applied := LoadList(storedApplied);
      }
    }

    /**
     * `showUpdateConfirmation` and the dialog after it: when not connected the
     * reconnect prompt is shown and nothing is started or changed; when the
     * confirmation is dismissed nothing changes; otherwise `applyUpdate` runs.
     */
    method ShowUpdateConfirmation(index: nat, confirmed: bool, archive: ArchiveLoad, upload: UploadOracle,
                                  reply: GatewayCall -> bool, installedAt: string, appliedAt: string)
      returns (outcome: ApplyOutcome)
      requires index < |pending|
      requires Persisted()
      modifies this
      ensures !old(isConnected) <==> outcome.ConnectionRequired?
      ensures old(isConnected) && !confirmed <==> outcome.Cancelled?
      ensures !outcome.Ran? ==>
        && pending == old(pending) && applied == old(applied)
        && storedPending == old(storedPending) && storedApplied == old(storedApplied)
      ensures outcome.Ran? ==>
        Run(outcome.result, outcome.trace, CallsOf(outcome.log)) == Plan(old(pending)[index], archive, upload, installedAt)
      ensures outcome.Ran? && outcome.result.Completed? ==>
        && applied == old(applied) + [AppliedCopy(old(pending)[index], appliedAt)]
        && pending == WithoutName(old(pending), old(pending)[index].name)
      ensures outcome.Ran? && outcome.result.Failed? ==>
        && pending == old(pending) && applied == old(applied)
        && storedPending == old(storedPending) && storedApplied == old(storedApplied)
      ensures isConnected == old(isConnected) && deviceInfo == old(deviceInfo)
      ensures Persisted()
    {
      if !isConnected {
        return ConnectionRequired;
      }
      if !confirmed {
        return Cancelled;
      }
      var result, trace, log := ApplyUpdate(index, archive, upload, reply, installedAt, appliedAt);
      outcome := Ran(result, trace, log);
    }

    /**
     * `applyNetworkSettings`: the trimmed SSID must be non-empty, then the
     * device must be connected, and only then is the configuration sent;
     * `configureOk` is the device's answer. The password is sent untrimmed.
     * Nothing in the state changes.
     */
    method ApplyNetworkSettings(ssidInput: string, password: string, hideSsid: bool, configureOk: bool)
      returns (outcome: NetworkOutcome)
      ensures outcome.EmptySsid? <==> Trim(ssidInput) == []
      ensures outcome.NotConnected? <==> Trim(ssidInput) != [] && !isConnected
      ensures outcome.Configured? <==> Trim(ssidInput) != [] && isConnected && configureOk
      ensures outcome.Configured? ==> outcome == Configured(Trim(ssidInput), password, hideSsid)
      ensures outcome.ConfigureFailed? ==> outcome.message == NetworkFailure
    {
      var ssid := Trim(ssidInput);
      if ssid == [] {
        return EmptySsid;
      }
      if !isConnected {
        return NotConnected;
      }
      if configureOk {
        outcome := Configured(ssid, password, hideSsid);
      } else {
        outcome := ConfigureFailed(NetworkFailure);
      }
    }
  }

  // ----- Properties of the registry operations -----

  /**
   * The commit moves one record when its name is unique among the pending
   * ones: the pending list shrinks by exactly one, the applied list grows by
   * one carrying that name and marked applied.
   */
  lemma CommitMovesOne(pending: seq<UpdateRecord>, applied: seq<UpdateRecord>, k: nat, now: string)
    requires k < |pending|
    requires forall i :: 0 <= i < |pending| && i != k ==> pending[i].name != pending[k].name
    ensures |WithoutName(pending, pending[k].name)| == |pending| - 1
    ensures WithoutName(pending, pending[k].name) == pending[..k] + pending[k + 1..]
    ensures var a := applied + [AppliedCopy(pending[k], now)];
      |a| == |applied| + 1 && a[|applied|].name == pending[k].name && a[|applied|].isApplied
  {
    WithoutNameSingle(pending, k);
  }

  /**
   * When other pending records share the update's name, the commit drops
   * them too: two pending updates named alike both leave the pending list.
   */
  lemma CommitDropsNamesakes(a: UpdateRecord, b: UpdateRecord)
    requires a.name == b.name
    ensures WithoutName([a, b], a.name) == []
  {
    assert WithoutName([b], a.name) == [];
  }

  /** Reconciling again with the same device info changes nothing when every
      device app reports its installation time. */
  lemma SyncIdempotent(deviceInfo: JsValue, applied: seq<UpdateRecord>, now1: string, now2: string)
    requires PlanSync(deviceInfo).MergeWith? ==>
      forall i :: 0 <= i < |PlanSync(deviceInfo).apps| ==> Truthy(Prop(PlanSync(deviceInfo).apps[i], "installedAt"))
    ensures SyncedApplied(deviceInfo, SyncedApplied(deviceInfo, applied, now1), now2)
         == SyncedApplied(deviceInfo, applied, now1)
  {
    if PlanSync(deviceInfo).MergeWith? {
      ReconcileIdempotent(PlanSync(deviceInfo).apps, applied, now1, now2);
    }
  }

  /** Without device info or without apps in it, the applied list is left alone. */
  lemma SyncSkipsWithoutApps(deviceInfo: JsValue, applied: seq<UpdateRecord>, now: string)
    requires !Truthy(deviceInfo) || !Truthy(Prop(deviceInfo, "apps"))
    ensures SyncedApplied(deviceInfo, applied, now) == applied
  {
  }
}
