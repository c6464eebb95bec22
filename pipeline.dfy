/**
 * The body of `UIManager.applyUpdate`: extraction, upload, the best-effort
 * device calls and the progress checkpoints, up to (not including) the commit
 * to the registry. The archive library, the upload request and the device's
 * replies are oracles given as parameters.
 */
module Pipeline {
  import opened Wrappers
  import opened JsValues
  import opened UpdateRecords

  // ----- Oracles -----

  /** Reading one payload entry as a blob. */
  datatype BlobRead = BlobOk | BlobError(message: string)
  /** One key of `zip.files`, in the order `Object.keys` lists them. */
  datatype ZipEntry = ZipEntry(name: string, dir: bool, blob: BlobRead)
  /** `JSZip.loadAsync(update.file)`. */
  datatype ArchiveLoad = LoadError(message: string) | Loaded(entries: seq<ZipEntry>)
  /** How the multi-file upload request ends. */
  datatype UploadReply = UploadStatus(status: int, statusText: string) | UploadNetworkError
  /** The upload's progress callbacks (percentages) and its final reply. */
  datatype UploadOracle = UploadOracle(progress: seq<real>, reply: UploadReply)

  /** The device calls the pipeline makes. */
  datatype GatewayCall =
    | UploadMultipleFiles(files: seq<string>)
    | DeleteFile(path: JsValue)
    | ExecuteCommand(command: JsValue)
    | AddCaddyEntry(domain: JsValue, port: JsValue)
    | AddHomerEntry(entry: JsValue)
    | EnableService(service: JsValue)
    | AddOrUpdateInstalledApp(name: JsValue, version: JsValue, icon: JsValue, installedAt: string)

  /** A call and the success flag it came back with. */
  datatype Exchange = Exchange(call: GatewayCall, ok: bool)

  datatype PipelineResult = Completed | Failed(message: string)

  const GenericFailure: string := "An error occurred while applying the update"

  /** `error.message || 'An error occurred while applying the update'`. */
  function FailureText(message: string): string {
    if message != "" then message else GenericFailure
  }

  /** The upload promise resolves only on a 2xx status. */
  predicate UploadAccepted(reply: UploadReply) {
    reply.UploadStatus? && 200 <= reply.status < 300
  }

  /** The message of the upload promise's rejection. */
  function UploadError(reply: UploadReply): string {
    match reply
    case UploadStatus(_, text) => "Upload failed: " + text
    case UploadNetworkError => "Upload failed"
  }

  /** Upload percentages as the gateway promises them: in [0, 100] and never decreasing. */
  ghost predicate ValidProgress(ps: seq<real>) {
    && (forall i :: 0 <= i < |ps| ==> 0.0 <= ps[i] <= 100.0)
    && (forall i, j :: 0 <= i < j < |ps| ==> ps[i] <= ps[j])
  }

  // ----- The specification of one run -----

  /** `Object.keys(zip.files).filter(name => !zip.files[name].dir && name !== 'apply_update.json')`. */
  function PayloadEntries(entries: seq<ZipEntry>): (r: seq<ZipEntry>)
    ensures forall i :: 0 <= i < |r| ==> !r[i].dir && r[i].name != ManifestEntry && r[i] in entries
    ensures forall e :: e in entries && !e.dir && e.name != ManifestEntry ==> e in r
  {
    if entries == [] then []
    else if !entries[0].dir && entries[0].name != ManifestEntry then [entries[0]] + PayloadEntries(entries[1..])
    else PayloadEntries(entries[1..])
  }

  /** The filter keeps archive order: filtering two runs of entries laid end to
      end gives the two filtered runs, in the same order. */
  lemma {:induction false} PayloadEntriesAppend(a: seq<ZipEntry>, b: seq<ZipEntry>)
    ensures PayloadEntries(a + b) == PayloadEntries(a) + PayloadEntries(b)
  {
    if a != [] {
      assert (a + b)[1..] == a[1..] + b;
      PayloadEntriesAppend(a[1..], b);
    } else {
      assert a + b == b;
    }
  }

  function Names(files: seq<ZipEntry>): (r: seq<string>)
    ensures |r| == |files|
  {
    seq(|files|, i requires 0 <= i < |files| => files[i].name)
  }

  /** Index of the first payload entry whose blob cannot be read, or the count of entries. */
  function FirstUnreadable(files: seq<ZipEntry>): (k: nat)
    ensures k <= |files|
    ensures forall j :: 0 <= j < k ==> files[j].blob.BlobOk?
    ensures k < |files| ==> files[k].blob.BlobError?
  {
    if files == [] || files[0].blob.BlobError? then 0
    else 1 + FirstUnreadable(files[1..])
  }

  /** The checkpoints emitted after extracting the first `k` of `n` payload files. */
  function ExtractionProgress(n: nat, k: nat): (r: seq<real>)
    requires k <= n
    ensures |r| == k
  {
    seq(k, i requires 0 <= i < k => 10.0 + (i as real / n as real) * 20.0)
  }

  /** Upload callback percentage `p` shown as `30 + 0.4 p`. */
  function UploadProgress(ps: seq<real>): (r: seq<real>)
    ensures |r| == |ps|
  {
    seq(|ps|, i requires 0 <= i < |ps| => 30.0 + ps[i] * 0.4)
  }

  /** A checkpoint emitted only when its step runs. */
  function Checkpoint(runs: bool, value: real): seq<real> {
    if runs then [value] else []
  }

  /** The checkpoints from "Files uploaded" (70) to "Registering application..." (95). */
  function StepTrace(u: UpdateRecord): seq<real> {
    [70.0]
    + Checkpoint(|Elements(u.oldFiles)| > 0, 75.0)
    + Checkpoint(|Elements(u.updateCommands)| > 0, 80.0)
    + Checkpoint(Truthy(u.caddyConfig), 85.0)
    + Checkpoint(Truthy(u.homerConfig), 88.0)
    + Checkpoint(Truthy(u.serviceName), 92.0)
    + [95.0]
  }

  /** The checkpoints after the upload, ending with "Update complete!" (100). */
  function TailTrace(u: UpdateRecord): seq<real> {
    StepTrace(u) + [100.0]
  }

  function Deletes(paths: seq<JsValue>): (r: seq<GatewayCall>)
    ensures |r| == |paths|
  {
    seq(|paths|, i requires 0 <= i < |paths| => DeleteFile(paths[i]))
  }

  function Executes(commands: seq<JsValue>): (r: seq<GatewayCall>)
    ensures |r| == |commands|
  {
    seq(|commands|, i requires 0 <= i < |commands| => ExecuteCommand(commands[i]))
  }

  /** The reverse-proxy call: the domain defaults to the update's name, the port to 8080. */
  function CaddyCall(u: UpdateRecord): GatewayCall {
    AddCaddyEntry(Or(Prop(u.caddyConfig, "domain"), u.name), Or(Prop(u.caddyConfig, "port"), Num(8080.0)))
  }

  function RegisterCall(u: UpdateRecord, installedAt: string): GatewayCall {
    AddOrUpdateInstalledApp(u.name, u.version, u.icon, installedAt)
  }

  function Optional(runs: bool, call: GatewayCall): seq<GatewayCall> {
    if runs then [call] else []
  }

  /** The best-effort calls after the upload, in their fixed order. */
  function TailCalls(u: UpdateRecord, installedAt: string): seq<GatewayCall> {
    Deletes(Elements(u.oldFiles))
    + Executes(Elements(u.updateCommands))
    + Optional(Truthy(u.caddyConfig), CaddyCall(u))
    + Optional(Truthy(u.homerConfig), AddHomerEntry(u.homerConfig))
    + Optional(Truthy(u.serviceName), EnableService(u.serviceName))
    + [RegisterCall(u, installedAt)]
  }

  /** What one run produces: its result, its progress checkpoints and its device calls. */
  datatype Run = Run(result: PipelineResult, trace: seq<real>, calls: seq<GatewayCall>)

  /** The run of `applyUpdate` on `u`, given what the archive and the upload do. */
  function Plan(u: UpdateRecord, archive: ArchiveLoad, upload: UploadOracle, installedAt: string): Run {
    match archive
    case LoadError(msg) => Run(Failed(FailureText(msg)), [0.0, 5.0], [])
    case Loaded(entries) => ExtractAndUpload(u, PayloadEntries(entries), upload, installedAt)
  }

  /** The run once the archive is open: extract every payload file, then upload. */
  function ExtractAndUpload(u: UpdateRecord, files: seq<ZipEntry>, upload: UploadOracle, installedAt: string): Run {
    var k := FirstUnreadable(files);
    var extracted := [0.0, 5.0, 10.0] + ExtractionProgress(|files|, k);
    if k < |files| then Run(Failed(FailureText(files[k].blob.message)), extracted, [])
    else UploadAndFinish(u, Names(files), extracted, upload, installedAt)
  }

  /** The run once every payload file is extracted: upload them (if there are
      any), then the best-effort steps. */
  function UploadAndFinish(u: UpdateRecord, names: seq<string>, before: seq<real>,
                           upload: UploadOracle, installedAt: string): Run {
    if |names| == 0 then
      Run(Completed, before + TailTrace(u), TailCalls(u, installedAt))
    else
      var uploaded := before + [30.0] + UploadProgress(upload.progress);
      var uploadCall := [UploadMultipleFiles(names)];
      if !UploadAccepted(upload.reply) then
        Run(Failed(FailureText(UploadError(upload.reply))), uploaded, uploadCall)
      else
        Run(Completed, uploaded + TailTrace(u), uploadCall + TailCalls(u, installedAt))
  }

  function CallsOf(log: seq<Exchange>): (r: seq<GatewayCall>)
    ensures |r| == |log|
  {
    seq(|log|, i requires 0 <= i < |log| => log[i].call)
  }

  lemma CallsOfAppend(a: seq<Exchange>, b: seq<Exchange>)
    ensures CallsOf(a + b) == CallsOf(a) + CallsOf(b)
  {
    forall i | 0 <= i < |a + b| ensures CallsOf(a + b)[i] == (CallsOf(a) + CallsOf(b))[i] {
      if i >= |a| { assert (a + b)[i] == b[i - |a|]; }
    }
  }

  lemma RepliesAppend(a: seq<Exchange>, b: seq<Exchange>, reply: GatewayCall -> bool)
    requires RepliesRecorded(a, reply) && RepliesRecorded(b, reply)
    ensures RepliesRecorded(a + b, reply)
  {
    forall i | 0 <= i < |a + b| ensures (a + b)[i].ok == reply((a + b)[i].call) {
      if i >= |a| { assert (a + b)[i] == b[i - |a|]; }
    }
  }

  lemma DeletesSnoc(paths: seq<JsValue>, j: nat)
    requires j < |paths|
    ensures Deletes(paths[..j + 1]) == Deletes(paths[..j]) + [DeleteFile(paths[j])]
  {
    assert Deletes(paths[..j + 1])[j] == DeleteFile(paths[j]);
  }

  lemma ExecutesSnoc(commands: seq<JsValue>, j: nat)
    requires j < |commands|
    ensures Executes(commands[..j + 1]) == Executes(commands[..j]) + [ExecuteCommand(commands[j])]
  {
    assert Executes(commands[..j + 1])[j] == ExecuteCommand(commands[j]);
  }

  // ----- The imperative pipeline -----

  /** Every best-effort call in the log carries the device's reply to it. */
  ghost predicate RepliesRecorded(log: seq<Exchange>, reply: GatewayCall -> bool) {
    forall i :: 0 <= i < |log| ==> log[i].ok == reply(log[i].call)
  }

  /** The extraction loop: read each payload blob in turn, emitting
      `10 + (i / n) * 20` after the i-th; the first unreadable blob aborts. */
  method ExtractPayload(files: seq<ZipEntry>)
    returns (filesToUpload: seq<string>, progress: seq<real>, failure: Option<string>)
    ensures var k := FirstUnreadable(files);
      && progress == ExtractionProgress(|files|, k)
      && (failure.Some? <==> k < |files|)
      && (k < |files| ==> failure.value == files[k].blob.message)
      && (k == |files| ==> filesToUpload == Names(files))
  {
    filesToUpload := [];
    progress := [];
    var i := 0;
    while i < |files|
      invariant 0 <= i <= |files|
      invariant forall j :: 0 <= j < i ==> files[j].blob.BlobOk?
      invariant filesToUpload == Names(files[..i])
      invariant progress == ExtractionProgress(|files|, i)
    {
      if files[i].blob.BlobError? {
        failure := Some(files[i].blob.message);
        return;
      }
      filesToUpload := filesToUpload + [files[i].name];
      progress := progress + [10.0 + (i as real / |files| as real) * 20.0];
      i := i + 1;
    }
    assert files[..i] == files;
    failure := None;
  }

  /** `for (const oldFile of update.oldFiles) await APIService.deleteFile(oldFile)`. */
  method DeleteOldFiles(paths: seq<JsValue>, reply: GatewayCall -> bool) returns (log: seq<Exchange>)
    ensures CallsOf(log) == Deletes(paths) && RepliesRecorded(log, reply)
  {
    log := [];
    var j := 0;
    while j < |paths|
      invariant 0 <= j <= |paths|
      invariant CallsOf(log) == Deletes(paths[..j]) && RepliesRecorded(log, reply)
    {
      var call := DeleteFile(paths[j]);
      CallsOfAppend(log, [Exchange(call, reply(call))]);
      DeletesSnoc(paths, j);
      log := log + [Exchange(call, reply(call))];
      j := j + 1;
    }
    assert paths[..j] == paths;
  }

  /** `for (const command of update.updateCommands) await APIService.executeCommand(command)`. */
  method ExecuteCommands(commands: seq<JsValue>, reply: GatewayCall -> bool) returns (log: seq<Exchange>)
    ensures CallsOf(log) == Executes(commands) && RepliesRecorded(log, reply)
  {
    log := [];
    var j := 0;
    while j < |commands|
      invariant 0 <= j <= |commands|
      invariant CallsOf(log) == Executes(commands[..j]) && RepliesRecorded(log, reply)
    {
      var call := ExecuteCommand(commands[j]);
      CallsOfAppend(log, [Exchange(call, reply(call))]);
      ExecutesSnoc(commands, j);
      log := log + [Exchange(call, reply(call))];
      j := j + 1;
    }
    assert commands[..j] == commands;
  }

  /** A single best-effort call, made only when its step runs. */
  method CallIf(runs: bool, call: GatewayCall, reply: GatewayCall -> bool) returns (log: seq<Exchange>)
    ensures CallsOf(log) == Optional(runs, call) && RepliesRecorded(log, reply)
  {
    log := [];
    if runs {
      log := [Exchange(call, reply(call))];
    }
  }

  /** Steps 3 to 8 of `applyUpdate`: nothing in them can fail the run. */
  method BestEffortSteps(u: UpdateRecord, reply: GatewayCall -> bool, installedAt: string)
    returns (trace: seq<real>, log: seq<Exchange>)
    ensures trace == TailTrace(u)
    ensures CallsOf(log) == TailCalls(u, installedAt) && RepliesRecorded(log, reply)
  {
    var oldFiles := Elements(u.oldFiles);
    var deletes: seq<Exchange> := [];
    if |oldFiles| > 0 {
      deletes := DeleteOldFiles(oldFiles, reply);
    }
    var commands := Elements(u.updateCommands);
    var executes: seq<Exchange> := [];
    if |commands| > 0 {
      executes := ExecuteCommands(commands, reply);
    }
    var caddy := CallIf(Truthy(u.caddyConfig), CaddyCall(u), reply);
    var homer := CallIf(Truthy(u.homerConfig), AddHomerEntry(u.homerConfig), reply);
    var service := CallIf(Truthy(u.serviceName), EnableService(u.serviceName), reply);
    var register := RegisterCall(u, installedAt);
    var registration := [Exchange(register, reply(register))];
    assert CallsOf(deletes) == Deletes(oldFiles) && CallsOf(executes) == Executes(commands);
    assert CallsOf(registration) == [register];
    trace := [70.0]
      + Checkpoint(|oldFiles| > 0, 75.0)
      + Checkpoint(|commands| > 0, 80.0)
      + Checkpoint(Truthy(u.caddyConfig), 85.0)
      + Checkpoint(Truthy(u.homerConfig), 88.0)
      + Checkpoint(Truthy(u.serviceName), 92.0)
      + [95.0];
    trace := trace + [100.0];
    log := deletes + executes + caddy + homer + service + registration;
    LogOfSix(deletes, executes, caddy, homer, service, registration, reply);
  }

  /** The calls and the replies of six logs laid end to end. */
  lemma LogOfSix(a: seq<Exchange>, b: seq<Exchange>, c: seq<Exchange>, d: seq<Exchange>,
                 e: seq<Exchange>, f: seq<Exchange>, reply: GatewayCall -> bool)
    requires RepliesRecorded(a, reply) && RepliesRecorded(b, reply) && RepliesRecorded(c, reply)
    requires RepliesRecorded(d, reply) && RepliesRecorded(e, reply) && RepliesRecorded(f, reply)
    ensures CallsOf(a + b + c + d + e + f)
         == CallsOf(a) + CallsOf(b) + CallsOf(c) + CallsOf(d) + CallsOf(e) + CallsOf(f)
    ensures RepliesRecorded(a + b + c + d + e + f, reply)
  {
    CallsOfAppend(a, b);
    CallsOfAppend(a + b, c);
    CallsOfAppend(a + b + c, d);
    CallsOfAppend(a + b + c + d, e);
    CallsOfAppend(a + b + c + d + e, f);
    RepliesAppend(a, b, reply);
    RepliesAppend(a + b, c, reply);
    RepliesAppend(a + b + c, d, reply);
    RepliesAppend(a + b + c + d, e, reply);
    RepliesAppend(a + b + c + d + e, f, reply);
  }

  /** Every exchange carries the reply it got: the upload's status check for the
      upload call, the device's reply for every best-effort call. */
  ghost predicate ExchangesAnswered(log: seq<Exchange>, reply: GatewayCall -> bool, upload: UploadOracle) {
    forall i :: 0 <= i < |log| ==>
      log[i].ok == (if log[i].call.UploadMultipleFiles? then UploadAccepted(upload.reply) else reply(log[i].call))
  }

  /**
   * `applyUpdate` from the progress modal to the final checkpoint. The device's
   * replies to the best-effort calls are recorded in the log and never read:
   * the result, the trace and the calls are those of `Plan`, which does not
   * depend on `reply`.
   */
  method RunPipeline(u: UpdateRecord, archive: ArchiveLoad, upload: UploadOracle,
                     reply: GatewayCall -> bool, installedAt: string)
    returns (result: PipelineResult, trace: seq<real>, log: seq<Exchange>)
    ensures Run(result, trace, CallsOf(log)) == Plan(u, archive, upload, installedAt)
    ensures ExchangesAnswered(log, reply, upload)
  {
    if archive.LoadError? {
      result, trace, log := Failed(FailureText(archive.message)), [0.0, 5.0], [];
      return;
    }
    var files := PayloadEntries(archive.entries);
    var filesToUpload, extraction, failure := ExtractPayload(files);
    var extracted := [0.0, 5.0, 10.0] + extraction;
    if failure.Some? {
      result, trace, log := Failed(FailureText(failure.value)), extracted, [];
      return;
    }
    result, trace, log := UploadAndRegister(u, filesToUpload, extracted, upload, reply, installedAt);
  }

  /** The upload (skipped when nothing is to be uploaded) and the steps after it. */
  method UploadAndRegister(u: UpdateRecord, names: seq<string>, before: seq<real>, upload: UploadOracle,
                           reply: GatewayCall -> bool, installedAt: string)
    returns (result: PipelineResult, trace: seq<real>, log: seq<Exchange>)
    ensures Run(result, trace, CallsOf(log)) == UploadAndFinish(u, names, before, upload, installedAt)
    ensures ExchangesAnswered(log, reply, upload)
  {
    trace := before;
    log := [];
    if |names| > 0 {
      trace := trace + [30.0] + UploadProgress(upload.progress);
      var accepted := UploadAccepted(upload.reply);
      log := [Exchange(UploadMultipleFiles(names), accepted)];
      if !accepted {
        result := Failed(FailureText(UploadError(upload.reply)));
        return;
      }
    }
    var tailTrace, tailLog := BestEffortSteps(u, reply, installedAt);
    TailCallsNoUpload(u, installedAt);
    forall i | 0 <= i < |tailLog| ensures !tailLog[i].call.UploadMultipleFiles? {
      assert CallsOf(tailLog)[i] == tailLog[i].call;
    }
    CallsOfAppend(log, tailLog);
    trace := trace + tailTrace;
    log := log + tailLog;
    result := Completed;
  }

  lemma TailCallsNoUpload(u: UpdateRecord, installedAt: string)
    ensures NoUpload(TailCalls(u, installedAt))
  {
    var d := Deletes(Elements(u.oldFiles));
    var e := Executes(Elements(u.updateCommands));
    var c := Optional(Truthy(u.caddyConfig), CaddyCall(u));
    var h := Optional(Truthy(u.homerConfig), AddHomerEntry(u.homerConfig));
    var s := Optional(Truthy(u.serviceName), EnableService(u.serviceName));
    NoUploadConcat(d, e);
    NoUploadConcat(d + e, c);
    NoUploadConcat(d + e + c, h);
    NoUploadConcat(d + e + c + h, s);
    NoUploadConcat(d + e + c + h + s, [RegisterCall(u, installedAt)]);
  }

  /** No call in `s` is an upload. */
  ghost predicate NoUpload(s: seq<GatewayCall>) {
    forall i :: 0 <= i < |s| ==> !s[i].UploadMultipleFiles?
  }

  lemma NoUploadConcat(a: seq<GatewayCall>, b: seq<GatewayCall>)
    requires NoUpload(a) && NoUpload(b)
    ensures NoUpload(a + b)
  {
    forall i | 0 <= i < |a + b| ensures !(a + b)[i].UploadMultipleFiles? {
      if i >= |a| { assert (a + b)[i] == b[i - |a|]; }
    }
  }

  /** Positions in a three-part sequence: the first two parts keep their indices. */
  lemma PrefixPositions(d: seq<GatewayCall>, e: seq<GatewayCall>, rest: seq<GatewayCall>)
    ensures forall i :: 0 <= i < |d| ==> (d + e + rest)[i] == d[i]
    ensures forall i :: 0 <= i < |e| ==> (d + e + rest)[|d| + i] == e[i]
  {
  }

  // ----- Properties of a run -----

  ghost predicate NonDecreasing(s: seq<real>) {
    forall i, j :: 0 <= i < j < |s| ==> s[i] <= s[j]
  }

  ghost predicate Within(s: seq<real>, lo: real, hi: real) {
    forall i :: 0 <= i < |s| ==> lo <= s[i] <= hi
  }

  /** Two non-decreasing runs of checkpoints, the second starting where the first may end. */
  lemma Chain(a: seq<real>, b: seq<real>, lo: real, mid: real, hi: real)
    requires lo <= mid <= hi
    requires NonDecreasing(a) && Within(a, lo, mid)
    requires NonDecreasing(b) && Within(b, mid, hi)
    ensures NonDecreasing(a + b) && Within(a + b, lo, hi)
  {
    forall i, j | 0 <= i < j < |a + b| ensures (a + b)[i] <= (a + b)[j] {
      if j < |a| {
      } else if i < |a| {
        assert (a + b)[j] == b[j - |a|];
      } else {
        assert (a + b)[i] == b[i - |a|] && (a + b)[j] == b[j - |a|];
      }
    }
    forall i | 0 <= i < |a + b| ensures lo <= (a + b)[i] <= hi {
      if i >= |a| { assert (a + b)[i] == b[i - |a|]; }
    }
  }

  lemma CheckpointAt(runs: bool, v: real)
    ensures NonDecreasing(Checkpoint(runs, v)) && Within(Checkpoint(runs, v), v, v)
  {
  }

  /** Extraction checkpoints `10 + (i / n) * 20` rise with `i` and stay below 30. */
  lemma ExtractionBand(n: nat, k: nat)
    requires k <= n
    ensures NonDecreasing(ExtractionProgress(n, k))
    ensures forall i :: 0 <= i < k ==> 10.0 <= ExtractionProgress(n, k)[i] < 30.0
  {
    var r := ExtractionProgress(n, k);
    forall i | 0 <= i < k ensures 10.0 <= r[i] < 30.0 {
      FractionBelowOne(i, n);
    }
    forall i, j | 0 <= i < j < k ensures r[i] <= r[j] {
      FractionMonotone(i, j, n);
    }
  }

  lemma FractionBelowOne(i: nat, n: nat)
    requires i < n
    ensures 0.0 <= i as real / n as real < 1.0
  {
    var q := i as real / n as real;
    assert q * n as real == i as real;
  }

  lemma FractionMonotone(i: nat, j: nat, n: nat)
    requires i <= j && 0 < n
    ensures i as real / n as real <= j as real / n as real
  {
    var p := i as real / n as real;
    var q := j as real / n as real;
    assert p * n as real == i as real && q * n as real == j as real;
    assert (q - p) * n as real == j as real - i as real;
  }

  /** Upload percentages `p` in [0, 100] are shown in the [30, 70] band, in order. */
  lemma UploadBand(ps: seq<real>)
    requires ValidProgress(ps)
    ensures NonDecreasing(UploadProgress(ps)) && Within(UploadProgress(ps), 30.0, 70.0)
  {
  }

  /** The best-effort checkpoints run from 70 to 95 in order. */
  lemma StepBand(u: UpdateRecord)
    ensures NonDecreasing(StepTrace(u)) && Within(StepTrace(u), 70.0, 95.0)
  {
    var c1 := Checkpoint(|Elements(u.oldFiles)| > 0, 75.0);
    var c2 := Checkpoint(|Elements(u.updateCommands)| > 0, 80.0);
    var c3 := Checkpoint(Truthy(u.caddyConfig), 85.0);
    var c4 := Checkpoint(Truthy(u.homerConfig), 88.0);
    var c5 := Checkpoint(Truthy(u.serviceName), 92.0);
    CheckpointAt(|Elements(u.oldFiles)| > 0, 75.0);
    CheckpointAt(|Elements(u.updateCommands)| > 0, 80.0);
    CheckpointAt(Truthy(u.caddyConfig), 85.0);
    CheckpointAt(Truthy(u.homerConfig), 88.0);
    CheckpointAt(Truthy(u.serviceName), 92.0);
    Chain([70.0], c1, 70.0, 70.0, 75.0);
    Chain([70.0] + c1, c2, 70.0, 75.0, 80.0);
    Chain([70.0] + c1 + c2, c3, 70.0, 80.0, 85.0);
    Chain([70.0] + c1 + c2 + c3, c4, 70.0, 85.0, 88.0);
    Chain([70.0] + c1 + c2 + c3 + c4, c5, 70.0, 88.0, 92.0);
    Chain([70.0] + c1 + c2 + c3 + c4 + c5, [95.0], 70.0, 92.0, 95.0);
  }

  /** The checkpoints up to the end of extraction, all below 30. */
  lemma ExtractedBand(n: nat, k: nat)
    requires k <= n
    ensures NonDecreasing([0.0, 5.0, 10.0] + ExtractionProgress(n, k))
    ensures Within([0.0, 5.0, 10.0] + ExtractionProgress(n, k), 0.0, 30.0)
    ensures forall i :: 0 <= i < 3 + k ==> ([0.0, 5.0, 10.0] + ExtractionProgress(n, k))[i] < 30.0
  {
    ExtractionBand(n, k);
    var e := ExtractionProgress(n, k);
    Chain([0.0, 5.0, 10.0], e, 0.0, 10.0, 30.0);
    forall i | 0 <= i < 3 + k ensures ([0.0, 5.0, 10.0] + e)[i] < 30.0 {
      if i >= 3 { assert ([0.0, 5.0, 10.0] + e)[i] == e[i - 3]; }
    }
  }

  /** The checkpoints up to the end of the upload (or its skip), all at most 70. */
  lemma UploadedBand(names: seq<string>, before: seq<real>, upload: UploadOracle)
    requires NonDecreasing(before) && Within(before, 0.0, 30.0)
    requires ValidProgress(upload.progress)
    ensures var up := if |names| == 0 then before else before + [30.0] + UploadProgress(upload.progress);
      NonDecreasing(up) && Within(up, 0.0, 70.0)
  {
    if |names| > 0 {
      UploadBand(upload.progress);
      Chain(before, [30.0], 0.0, 30.0, 30.0);
      Chain(before + [30.0], UploadProgress(upload.progress), 0.0, 30.0, 70.0);
    }
  }

  /**
   * A well-shaped progress trace: it never decreases, stays within [0, 100],
   * and reaches 100 exactly when the run completes, then only as its final
   * checkpoint.
   */
  ghost predicate WellShaped(r: Run) {
    && NonDecreasing(r.trace) && Within(r.trace, 0.0, 100.0)
    && (r.result.Completed? <==> |r.trace| > 0 && r.trace[|r.trace| - 1] == 100.0)
    && (forall i :: 0 <= i < |r.trace| - 1 ==> r.trace[i] < 100.0)
  }

  /** A trace that stops at or below 70 is well shaped for a failed run. */
  lemma FailedShape(r: Run)
    requires r.result.Failed?
    requires NonDecreasing(r.trace) && Within(r.trace, 0.0, 70.0)
    ensures WellShaped(r)
  {
  }

  /** A trace that reaches 70 and then runs the best-effort checkpoints is well shaped for a completed run. */
  lemma CompletedShape(up: seq<real>, u: UpdateRecord, calls: seq<GatewayCall>)
    requires NonDecreasing(up) && Within(up, 0.0, 70.0)
    ensures WellShaped(Run(Completed, up + TailTrace(u), calls))
  {
    var t := up + TailTrace(u);
    var steps := up + StepTrace(u);
    StepBand(u);
    Chain(up, StepTrace(u), 0.0, 70.0, 95.0);
    Chain(steps, [100.0], 0.0, 95.0, 100.0);
    assert t == steps + [100.0];
    forall i | 0 <= i < |t| - 1 ensures t[i] < 100.0 {
      assert t[i] == steps[i];
    }
  }

  lemma FinishShape(u: UpdateRecord, names: seq<string>, before: seq<real>, upload: UploadOracle, installedAt: string)
    requires NonDecreasing(before) && Within(before, 0.0, 30.0)
    requires ValidProgress(upload.progress)
    ensures WellShaped(UploadAndFinish(u, names, before, upload, installedAt))
  {
    UploadedBand(names, before, upload);
    if |names| == 0 {
      CompletedShape(before, u, TailCalls(u, installedAt));
    } else {
      var up := before + [30.0] + UploadProgress(upload.progress);
      if UploadAccepted(upload.reply) {
        CompletedShape(up, u, [UploadMultipleFiles(names)] + TailCalls(u, installedAt));
      } else {
        FailedShape(UploadAndFinish(u, names, before, upload, installedAt));
      }
    }
  }

  /**
   * Given upload percentages in [0, 100] that never decrease, the progress
   * trace never decreases and stays within [0, 100]; it reaches 100 exactly
   * when the run completes, and then only as its final checkpoint.
   */
  lemma TraceShape(u: UpdateRecord, archive: ArchiveLoad, upload: UploadOracle, installedAt: string)
    requires ValidProgress(upload.progress)
    ensures WellShaped(Plan(u, archive, upload, installedAt))
  {
    var r := Plan(u, archive, upload, installedAt);
    if archive.LoadError? {
      return;
    }
    var files := PayloadEntries(archive.entries);
    var k := FirstUnreadable(files);
    ExtractedBand(|files|, k);
    if k < |files| {
      FailedShape(r);
    } else {
      FinishShape(u, Names(files), [0.0, 5.0, 10.0] + ExtractionProgress(|files|, k), upload, installedAt);
    }
  }

  /**
   * The run completes exactly when the archive opens, every payload blob is
   * read, and the upload is accepted or skipped: no best-effort step can fail it.
   */
  lemma CompletedIff(u: UpdateRecord, archive: ArchiveLoad, upload: UploadOracle, installedAt: string)
    ensures Plan(u, archive, upload, installedAt).result.Completed? <==>
      && archive.Loaded?
      && (forall i :: 0 <= i < |PayloadEntries(archive.entries)| ==> PayloadEntries(archive.entries)[i].blob.BlobOk?)
      && (|PayloadEntries(archive.entries)| == 0 || UploadAccepted(upload.reply))
  {
    if archive.Loaded? {
      var files := PayloadEntries(archive.entries);
      var k := FirstUnreadable(files);
      if k < |files| {
        assert !files[k].blob.BlobOk?;
      }
    }
  }

  /** A failed run reports the first failure's message, or the generic one when it is empty. */
  lemma FailureMessage(u: UpdateRecord, archive: ArchiveLoad, upload: UploadOracle, installedAt: string)
    ensures var r := Plan(u, archive, upload, installedAt);
      r.result.Failed? ==>
        && r.result.message != ""
        && (archive.LoadError? ==> r.result.message == FailureText(archive.message))
  {
  }

  /** `Optional` holds a call exactly when its step runs. */
  lemma OptionalHas(runs: bool, call: GatewayCall, c: GatewayCall)
    ensures c in Optional(runs, call) <==> runs && c == call
  {
  }

  /** The best-effort calls, split at the end of the per-item calls. */
  function BulkCalls(u: UpdateRecord): seq<GatewayCall> {
    Deletes(Elements(u.oldFiles)) + Executes(Elements(u.updateCommands))
  }

  function OptionalCalls(u: UpdateRecord): seq<GatewayCall> {
    Optional(Truthy(u.caddyConfig), CaddyCall(u))
    + Optional(Truthy(u.homerConfig), AddHomerEntry(u.homerConfig))
    + Optional(Truthy(u.serviceName), EnableService(u.serviceName))
  }

  lemma TailCallsSplit(u: UpdateRecord, installedAt: string)
    ensures TailCalls(u, installedAt) == BulkCalls(u) + OptionalCalls(u) + [RegisterCall(u, installedAt)]
  {
  }

  /**
   * The best-effort calls: one delete per old file and then one command per
   * update command, each in order; at most three optional calls; the
   * registration always, and last.
   */
  lemma TailCallsOrder(u: UpdateRecord, installedAt: string)
    ensures var t := TailCalls(u, installedAt);
      var olds := Elements(u.oldFiles);
      var cmds := Elements(u.updateCommands);
      && |olds| + |cmds| + 1 <= |t| <= |olds| + |cmds| + 4
      && (forall i :: 0 <= i < |olds| ==> t[i] == DeleteFile(olds[i]))
      && (forall i :: 0 <= i < |cmds| ==> t[|olds| + i] == ExecuteCommand(cmds[i]))
      && t[|t| - 1] == RegisterCall(u, installedAt)
  {
    var d := Deletes(Elements(u.oldFiles));
    var e := Executes(Elements(u.updateCommands));
    TailCallsSplit(u, installedAt);
    PrefixPositions(d, e, OptionalCalls(u) + [RegisterCall(u, installedAt)]);
  }

  /** No optional call is a delete or a command. */
  lemma NotBulk(u: UpdateRecord, x: GatewayCall)
    requires !x.DeleteFile? && !x.ExecuteCommand?
    ensures x !in BulkCalls(u)
  {
    var d := Deletes(Elements(u.oldFiles));
    var e := Executes(Elements(u.updateCommands));
    forall i | 0 <= i < |d| ensures d[i] != x { }
    forall i | 0 <= i < |e| ensures e[i] != x { }
  }

  /** The reverse-proxy, dashboard and service calls are made exactly when
      their fields are truthy. */
  lemma OptionalCallsIff(u: UpdateRecord, installedAt: string)
    ensures Truthy(u.caddyConfig) <==> CaddyCall(u) in TailCalls(u, installedAt)
    ensures Truthy(u.homerConfig) <==> AddHomerEntry(u.homerConfig) in TailCalls(u, installedAt)
    ensures Truthy(u.serviceName) <==> EnableService(u.serviceName) in TailCalls(u, installedAt)
  {
    TailCallsSplit(u, installedAt);
    NotBulk(u, CaddyCall(u));
    NotBulk(u, AddHomerEntry(u.homerConfig));
    NotBulk(u, EnableService(u.serviceName));
  }

  /**
   * The device calls of a run: a completed run ends with the registration; a
   * failed run made no call besides the upload; the upload, when made, is the
   * first call and carries exactly the payload names, and it is made only
   * when there is a payload.
   */
  lemma RunCalls(u: UpdateRecord, archive: ArchiveLoad, upload: UploadOracle, installedAt: string)
    ensures var r := Plan(u, archive, upload, installedAt);
      && (r.result.Completed? ==> |r.calls| > 0 && r.calls[|r.calls| - 1] == RegisterCall(u, installedAt))
      && (r.result.Failed? ==> forall i :: 0 <= i < |r.calls| ==> r.calls[i].UploadMultipleFiles?)
      && (forall i :: 0 <= i < |r.calls| && r.calls[i].UploadMultipleFiles? ==>
            && i == 0 && archive.Loaded?
            && |PayloadEntries(archive.entries)| > 0
            && r.calls[i].files == Names(PayloadEntries(archive.entries)))
  {
    var r := Plan(u, archive, upload, installedAt);
    if archive.Loaded? && r.result.Completed? {
      var t := TailCalls(u, installedAt);
      TailCallsOrder(u, installedAt);
      TailCallsNoUpload(u, installedAt);
      var files := PayloadEntries(archive.entries);
      if |files| == 0 {
        assert r.calls == t;
      } else {
        var pre := [UploadMultipleFiles(Names(files))];
        assert r.calls == pre + t;
        forall i | 0 < i < |r.calls| ensures !r.calls[i].UploadMultipleFiles? {
          assert r.calls[i] == t[i - 1];
        }
      }
    }
  }

  /** The reverse-proxy domain defaults to the update's name and the port to 8080. */
  lemma CaddyDefaults(u: UpdateRecord)
    ensures !Truthy(Prop(u.caddyConfig, "domain")) ==> CaddyCall(u).domain == u.name
    ensures Truthy(Prop(u.caddyConfig, "domain")) ==> CaddyCall(u).domain == Prop(u.caddyConfig, "domain")
    ensures !Truthy(Prop(u.caddyConfig, "port")) ==> CaddyCall(u).port == Num(8080.0)
    ensures Truthy(Prop(u.caddyConfig, "port")) ==> CaddyCall(u).port == Prop(u.caddyConfig, "port")
  {
  }

  /** An archive of `n` readable payload files (plus the manifest). */
  function ReadableArchive(n: nat): ArchiveLoad {
    Loaded([ZipEntry(ManifestEntry, false, BlobOk)]
      + seq(n, i requires 0 <= i < n => ZipEntry("file" + [(48 + i % 10) as char], false, BlobOk)))
  }

  lemma ReadableArchivePayload(n: nat)
    ensures |PayloadEntries(ReadableArchive(n).entries)| == n
    ensures FirstUnreadable(PayloadEntries(ReadableArchive(n).entries)) == n
  {
    var payload := seq(n, i requires 0 <= i < n => ZipEntry("file" + [(48 + i % 10) as char], false, BlobOk));
    assert ReadableArchive(n).entries[1..] == payload;
    PayloadAll(payload);
    FirstUnreadableAll(payload);
  }

  lemma {:induction false} PayloadAll(files: seq<ZipEntry>)
    requires forall i :: 0 <= i < |files| ==> !files[i].dir && files[i].name != ManifestEntry
    ensures PayloadEntries(files) == files
  {
    if files != [] {
      PayloadAll(files[1..]);
    }
  }

  lemma {:induction false} FirstUnreadableAll(files: seq<ZipEntry>)
    requires forall i :: 0 <= i < |files| ==> files[i].blob.BlobOk?
    ensures FirstUnreadable(files) == |files|
  {
    if files != [] {
      FirstUnreadableAll(files[1..]);
    }
  }

  /** An update whose manifest names no old files, commands or optional steps. */
  ghost predicate Plain(u: UpdateRecord) {
    && Elements(u.oldFiles) == [] && Elements(u.updateCommands) == []
    && !Truthy(u.caddyConfig) && !Truthy(u.homerConfig) && !Truthy(u.serviceName)
  }

  /**
   * Three payload files, nothing else to do, upload accepted: the run reaches
   * 100 and completes, after exactly the upload and the registration.
   */
  lemma ThreeFilesScenario(u: UpdateRecord, upload: UploadOracle, installedAt: string)
    requires Plain(u) && UploadAccepted(upload.reply)
    ensures var r := Plan(u, ReadableArchive(3), upload, installedAt);
      && r.result == Completed
      && r.trace[|r.trace| - 1] == 100.0
      && |r.calls| == 2 && r.calls[0].UploadMultipleFiles? && |r.calls[0].files| == 3
      && r.calls[1] == RegisterCall(u, installedAt)
  {
    ReadableArchivePayload(3);
    assert TailCalls(u, installedAt) == [RegisterCall(u, installedAt)];
  }

  /**
   * A manifest naming service "web": the run completes whatever the device
   * answers to the service call, because the plan does not read the replies;
   * the service call is made, just before the registration.
   */
  lemma ServiceScenario(u: UpdateRecord, upload: UploadOracle, installedAt: string)
    requires u.serviceName == Str("web")
    requires Elements(u.oldFiles) == [] && Elements(u.updateCommands) == []
    requires !Truthy(u.caddyConfig) && !Truthy(u.homerConfig)
    requires UploadAccepted(upload.reply)
    ensures var r := Plan(u, ReadableArchive(1), upload, installedAt);
      && r.result == Completed
      && r.trace[|r.trace| - 1] == 100.0
      && r.calls[1..] == [EnableService(Str("web")), RegisterCall(u, installedAt)]
  {
    ReadableArchivePayload(1);
    assert TailCalls(u, installedAt) == [EnableService(Str("web")), RegisterCall(u, installedAt)];
  }
}
