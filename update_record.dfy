/**
 * Update records and their construction from a selected package file
 * (`StorageService.extractUpdateMetadata`). The archive library and the JSON
 * parser are replaced by the outcome they produce.
 */
module UpdateRecords {
  import opened Wrappers
  import opened JsValues
  import opened JsStrings

  /** Name of the manifest entry inside a package. */
  const ManifestEntry: string := "apply_update.json"
  /** The package glyph used when no icon is given (U+1F4E6). */
  const DefaultIcon: string := "\U{1F4E6}"
  const DefaultVersion: string := "1.0.0"
  /** V8's message for `metadata.name` when the manifest parses to `null`. */
  const NullManifestMessage: string := "Cannot read properties of null (reading 'name')"
  /** The same message for `undefined`, which `JSON.parse` never yields but which
      throws the same way. */
  const UndefinedManifestMessage: string := "Cannot read properties of undefined (reading 'name')"

  /** The selected `File`: its name, size and `lastModified` already rendered as an ISO string. */
  datatype FileInfo = FileInfo(name: string, size: nat, modifiedTime: string)

  /** What reading the package yields once the archive and JSON libraries are abstracted. */
  datatype ArchiveOutcome =
    | Unreadable(message: string)          // the archive cannot be opened
    | NoManifest                           // no `apply_update.json` entry
    | ManifestUnreadable(message: string)  // the entry cannot be read as text or is not valid JSON
    | Manifest(value: JsValue)             // the parsed manifest

  /**
   * One entry of the pending or applied list. Fields the source leaves off a
   * record are `Undefined` (or `None`, or `false` for `isApplied`).
   */
  datatype UpdateRecord = UpdateRecord(
    name: JsValue,
    version: JsValue,
    icon: JsValue,
    fileSize: JsValue,
    modifiedTime: JsValue,
    file: Option<FileInfo>,
    newFiles: JsValue,
    oldFiles: JsValue,
    updateCommands: JsValue,
    caddyConfig: JsValue,
    homerConfig: JsValue,
    serviceName: JsValue,
    metadata: JsValue,
    error: Option<string>,
    appliedAt: JsValue,
    isApplied: bool,
    fileExists: Option<bool>)

  /** `file.name.replace('.zip', '')`. */
  function DefaultName(fileName: string): string {
    RemoveFirst(fileName, ".zip")
  }

  /** The record built when there is no usable manifest. */
  function FallbackRecord(file: FileInfo, error: Option<string>): UpdateRecord {
    UpdateRecord(
      name := Str(DefaultName(file.name)),
      version := Str(DefaultVersion),
      icon := Str(DefaultIcon),
      fileSize := Num(file.size as real),
      modifiedTime := Str(file.modifiedTime),
      file := Some(file),
      newFiles := Arr([]),
      oldFiles := Arr([]),
      updateCommands := Arr([]),
      caddyConfig := Undefined,
      homerConfig := Undefined,
      serviceName := Undefined,
      metadata := Undefined,
      error := error,
      appliedAt := Undefined,
      isApplied := false,
      fileExists := None)
  }

  /** The record built from a parsed manifest that is neither `null` nor `undefined`. */
  function ManifestRecord(file: FileInfo, m: JsValue): UpdateRecord {
    UpdateRecord(
      name := Or(Prop(m, "name"), Str(DefaultName(file.name))),
      version := Or(Prop(m, "version"), Str(DefaultVersion)),
      icon := Or(Prop(m, "icon"), Str(DefaultIcon)),
      fileSize := Num(file.size as real),
      modifiedTime := Str(file.modifiedTime),
      file := Some(file),
      newFiles := Or(Or(Prop(m, "new_files"), Prop(m, "newFiles")), Arr([])),
      oldFiles := Or(Or(Prop(m, "old_files"), Prop(m, "oldFiles")), Arr([])),
      updateCommands := Or(Or(Prop(m, "update_commands"), Prop(m, "updateCommands")), Arr([])),
      caddyConfig := Or(Prop(m, "caddy_config"), Prop(m, "caddyConfig")),
      homerConfig := Or(Prop(m, "homer_config"), Prop(m, "homerConfig")),
      serviceName := Or(Prop(m, "service_name"), Prop(m, "serviceName")),
      metadata := m,
      error := None,
      appliedAt := Undefined,
      isApplied := false,
      fileExists := None)
  }

  /**
   * `extractUpdateMetadata(file)`. Every path yields a record that keeps the file,
   * its size and time, and whose version, icon and three list fields are truthy;
   * the name is truthy unless it is the filename-derived default.
   */
  function ExtractUpdateMetadata(file: FileInfo, archive: ArchiveOutcome): (r: UpdateRecord)
    ensures r.file == Some(file) && r.fileSize == Num(file.size as real)
    ensures r.modifiedTime == Str(file.modifiedTime)
    ensures Truthy(r.version) && Truthy(r.icon)
    ensures Truthy(r.newFiles) && Truthy(r.oldFiles) && Truthy(r.updateCommands)
    ensures Truthy(r.name) || r.name == Str(DefaultName(file.name))
    ensures !r.isApplied && r.appliedAt == Undefined && r.fileExists == None
    ensures r.error.Some? <==>
      archive.Unreadable? || archive.ManifestUnreadable? || archive == Manifest(Null) || archive == Manifest(Undefined)
  {
    match archive
    case Unreadable(msg) => FallbackRecord(file, Some(msg))
    case NoManifest => FallbackRecord(file, None)
    case ManifestUnreadable(msg) => FallbackRecord(file, Some(msg))
    case Manifest(m) =>
      if m.Null? then FallbackRecord(file, Some(NullManifestMessage))
      else if m.Undefined? then FallbackRecord(file, Some(UndefinedManifestMessage))
      else ManifestRecord(file, m)
  }

  /** The fallback record: default name, version and icon, empty lists, no
      integration fields; the error message only on the paths that threw. */
  lemma FallbackFields(file: FileInfo, archive: ArchiveOutcome)
    requires !archive.Manifest? || archive.value.Null? || archive.value.Undefined?
    ensures var r := ExtractUpdateMetadata(file, archive);
      && r.name == Str(DefaultName(file.name))
      && r.version == Str("1.0.0") && r.icon == Str(DefaultIcon)
      && r.newFiles == Arr([]) && r.oldFiles == Arr([]) && r.updateCommands == Arr([])
      && r.caddyConfig == Undefined && r.homerConfig == Undefined && r.serviceName == Undefined
      && r.metadata == Undefined
      && r.error == (match archive
                     case Unreadable(msg) => Some(msg)
                     case ManifestUnreadable(msg) => Some(msg)
                     case NoManifest => None
                     case Manifest(v) => Some(if v.Null? then NullManifestMessage else UndefinedManifestMessage))
  {
  }

  /** A manifest field given under two spellings: the snake_case value wins when it
      is truthy, otherwise the camelCase value, otherwise the default. */
  function Resolve(m: JsValue, snake: string, camel: string, default: JsValue): JsValue {
    if Truthy(Prop(m, snake)) then Prop(m, snake)
    else if Truthy(Prop(m, camel)) then Prop(m, camel)
    else default
  }

  /** With a parsed manifest each aliased field resolves snake_case first, then
      camelCase; the list fields default to `[]` and the integration fields to
      the camelCase value itself (whatever falsy value it is). */
  lemma ManifestFieldResolution(file: FileInfo, m: JsValue)
    requires !m.Null? && !m.Undefined?
    ensures var r := ExtractUpdateMetadata(file, Manifest(m));
      && r.newFiles == Resolve(m, "new_files", "newFiles", Arr([]))
      && r.oldFiles == Resolve(m, "old_files", "oldFiles", Arr([]))
      && r.updateCommands == Resolve(m, "update_commands", "updateCommands", Arr([]))
      && r.caddyConfig == Resolve(m, "caddy_config", "caddyConfig", Prop(m, "caddyConfig"))
      && r.homerConfig == Resolve(m, "homer_config", "homerConfig", Prop(m, "homerConfig"))
      && r.serviceName == Resolve(m, "service_name", "serviceName", Prop(m, "serviceName"))
      && r.metadata == m && r.error == None
  {
  }

  /** The name, version and icon of a parsed manifest are taken when truthy; a
      falsy one falls back to the filename-derived name, "1.0.0" or the package
      glyph. */
  lemma ManifestNameVersionIcon(file: FileInfo, m: JsValue)
    requires !m.Null? && !m.Undefined?
    ensures var r := ExtractUpdateMetadata(file, Manifest(m));
      && (Truthy(Prop(m, "name")) ==> r.name == Prop(m, "name"))
      && (!Truthy(Prop(m, "name")) ==> r.name == Str(DefaultName(file.name)))
      && (Truthy(Prop(m, "version")) ==> r.version == Prop(m, "version"))
      && (!Truthy(Prop(m, "version")) ==> r.version == Str("1.0.0"))
      && (Truthy(Prop(m, "icon")) ==> r.icon == Prop(m, "icon"))
      && (!Truthy(Prop(m, "icon")) ==> r.icon == Str(DefaultIcon))
  {
  }

  /** A manifest with no properties (`{}`, or JSON that is not an object, such
      as a number or an array) yields the no-manifest record, only with
      `metadata` kept. */
  lemma EmptyManifestIsFallback(file: FileInfo, m: JsValue)
    requires !m.Null? && !m.Undefined?
    requires m.Obj? ==> m.props == map[]
    ensures ExtractUpdateMetadata(file, Manifest(m))
         == ExtractUpdateMetadata(file, NoManifest).(metadata := m)
  {
  }

  /** A package file named `base + ".zip"` whose base has no ".zip" in it gets
      `base` as its default name. */
  lemma DefaultNameStripsExtension(base: string)
    requires forall i :: 0 <= i <= |base| ==> !OccursAt(base, ".zip", i)
    ensures DefaultName(base + ".zip") == base
  {
    StripZipSuffix(base);
  }

  /** The default name of a file whose first ".zip" starts at `i`. */
  lemma DefaultNameCut(s: string, i: nat)
    requires OccursAt(s, ".zip", i)
    requires forall j :: 0 <= j < i ==> !OccursAt(s, ".zip", j)
    ensures DefaultName(s) == s[..i] + s[i + 4..]
  {
    RemoveFirstCutsLeftmost(s, ".zip", i);
  }

  /** Only the first ".zip" goes: "app.zip.zip" gives "app.zip". */
  lemma DefaultNameRemovesFirstOnly()
    ensures DefaultName("app.zip.zip") == "app.zip"
  {
    var a := "app.zip.zip";
    assert a[0] == 'a' && a[1] == 'p' && a[2] == 'p';
    forall j | 0 <= j < 3 ensures !OccursAt(a, ".zip", j) {
      assert a[j..j + 4][0] == a[j] != '.';
    }
    assert a[3..7] == ".zip";
    DefaultNameCut(a, 3);
    assert a[..3] + a[7..] == "app" + ".zip";
  }

  /** The ".zip" removed need not be an extension: "my.zipper.zip" gives "myper.zip". */
  lemma DefaultNameCutsInsideName()
    ensures DefaultName("my.zipper.zip") == "myper.zip"
  {
    var b := "my.zipper.zip";
    assert b[0] == 'm' && b[1] == 'y';
    forall j | 0 <= j < 2 ensures !OccursAt(b, ".zip", j) {
      assert b[j..j + 4][0] == b[j] != '.';
    }
    assert b[2..6] == ".zip";
    DefaultNameCut(b, 2);
    assert b[..2] + b[6..] == "my" + "per.zip";
  }

  /** A file named exactly ".zip" gets the empty name, so the fallback record's
      name is falsy although the file was selected. */
  lemma DefaultNameCanBeEmpty()
    ensures DefaultName(".zip") == ""
    ensures !Truthy(ExtractUpdateMetadata(FileInfo(".zip", 0, ""), NoManifest).name)
  {
    StripZipSuffix("");
  }
}
