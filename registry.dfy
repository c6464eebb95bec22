/**
 * The local update registry: the list operations behind the pending and
 * applied lists (`markUpdateAsApplied`'s filter, `syncAppliedUpdatesFromDevice`'s
 * merge) and the empty-list fallback used when the lists are loaded.
 */
module Registry {
  import opened Wrappers
  import opened JsValues
  import opened UpdateRecords

  // ----- Filtering by name (markUpdateAsApplied) -----

  /** `s.filter(u => u.name !== name)`. */
  function WithoutName(s: seq<UpdateRecord>, name: JsValue): (r: seq<UpdateRecord>)
    ensures |r| <= |s|
    ensures forall i :: 0 <= i < |r| ==> r[i].name != name && r[i] in s
    ensures forall x :: x in s && x.name != name ==> x in r
  {
    if s == [] then []
    else if s[0].name != name then [s[0]] + WithoutName(s[1..], name)
    else WithoutName(s[1..], name)
  }

  /** Filtering a concatenation filters each part, so the kept records stay in order. */
  lemma {:induction false} WithoutNameAppend(a: seq<UpdateRecord>, b: seq<UpdateRecord>, name: JsValue)
    ensures WithoutName(a + b, name) == WithoutName(a, name) + WithoutName(b, name)
  {
    if a != [] {
      var t := a[1..];
      var head: seq<UpdateRecord> := if a[0].name != name then [a[0]] else [];
      assert a == [a[0]] + t && a + b == [a[0]] + (t + b);
      WithoutNameAppend(t, b, name);
      WithoutNameCons(a[0], t + b, name);
      WithoutNameCons(a[0], t, name);
      assert head + (WithoutName(t, name) + WithoutName(b, name))
          == (head + WithoutName(t, name)) + WithoutName(b, name);
    } else {
      assert a + b == b;
    }
  }

  lemma WithoutNameCons(h: UpdateRecord, s: seq<UpdateRecord>, name: JsValue)
    ensures WithoutName([h] + s, name) == (if h.name != name then [h] else []) + WithoutName(s, name)
  {
    assert ([h] + s)[0] == h && ([h] + s)[1..] == s;
  }

  /** A list with no record of that name is left as it is. */
  lemma {:induction false} WithoutNameAbsent(s: seq<UpdateRecord>, name: JsValue)
    requires forall i :: 0 <= i < |s| ==> s[i].name != name
    ensures WithoutName(s, name) == s
  {
    if s != [] {
      WithoutNameAbsent(s[1..], name);
    }
  }

  /** When exactly one record (at index k) carries the name, the filter deletes
      exactly that record and keeps the others in order. */
  lemma WithoutNameSingle(s: seq<UpdateRecord>, k: nat)
    requires k < |s|
    requires forall i :: 0 <= i < |s| && i != k ==> s[i].name != s[k].name
    ensures WithoutName(s, s[k].name) == s[..k] + s[k + 1..]
    ensures |WithoutName(s, s[k].name)| == |s| - 1
  {
    var name := s[k].name;
    assert s == s[..k] + ([s[k]] + s[k + 1..]);
    WithoutNameAppend(s[..k], [s[k]] + s[k + 1..], name);
    WithoutNameAppend([s[k]], s[k + 1..], name);
    WithoutNameAbsent(s[..k], name);
    WithoutNameAbsent(s[k + 1..], name);
  }

  // ----- Records that still hold their file -----

  /** `s.filter(u => u.file)`. */
  function WithFiles(s: seq<UpdateRecord>): (r: seq<UpdateRecord>)
    ensures |r| <= |s|
    ensures forall i :: 0 <= i < |r| ==> r[i].file.Some? && r[i] in s
    ensures forall x :: x in s && x.file.Some? ==> x in r
  {
    if s == [] then []
    else if s[0].file.Some? then [s[0]] + WithFiles(s[1..])
    else WithFiles(s[1..])
  }

  /** Filtering a concatenation filters each part. */
  lemma {:induction false} WithFilesAppend(a: seq<UpdateRecord>, b: seq<UpdateRecord>)
    ensures WithFiles(a + b) == WithFiles(a) + WithFiles(b)
  {
    if a != [] {
      assert (a + b)[1..] == a[1..] + b;
      WithFilesAppend(a[1..], b);
    } else {
      assert a + b == b;
    }
  }

  /** A list whose every record holds a file is kept whole. */
  lemma {:induction false} WithFilesAll(s: seq<UpdateRecord>)
    requires forall i :: 0 <= i < |s| ==> s[i].file.Some?
    ensures WithFiles(s) == s
  {
    if s != [] {
      WithFilesAll(s[1..]);
    }
  }

  // ----- Reconciliation with the device (syncAppliedUpdatesFromDevice) -----

  /** `list.find(a => a.name === name)` finds something. */
  predicate HasName(s: seq<UpdateRecord>, name: JsValue) {
    exists i :: 0 <= i < |s| && s[i].name == name
  }

  /** The `forEach` over the local records: each is pushed unless a record of that
      name is already in the merged list. */
  function Merge(acc: seq<UpdateRecord>, locals: seq<UpdateRecord>): seq<UpdateRecord>
    decreases |locals|
  {
    if locals == [] then acc
    else Merge(if HasName(acc, locals[0].name) then acc else acc + [locals[0]], locals[1..])
  }

  /**
   * The records of `s` the merge keeps, stated without the merge's accumulator:
   * `s[i]` is kept exactly when its name is not in `excluded` and no earlier
   * record of `s` has it, so the first of several namesakes wins and the kept
   * records stay in their order in `s`.
   */
  function FirstFresh(excluded: seq<UpdateRecord>, s: seq<UpdateRecord>): seq<UpdateRecord>
    decreases |s|
  {
    if s == [] then []
    else
      var init := s[..|s| - 1];
      var x := s[|s| - 1];
      FirstFresh(excluded, init) + (if HasName(excluded, x.name) || HasName(init, x.name) then [] else [x])
  }

  lemma HasNameAppend(a: seq<UpdateRecord>, b: seq<UpdateRecord>, name: JsValue)
    ensures HasName(a + b, name) <==> HasName(a, name) || HasName(b, name)
  {
    if HasName(a + b, name) {
      var i :| 0 <= i < |a + b| && (a + b)[i].name == name;
      if i >= |a| { assert b[i - |a|].name == name; }
    }
    if HasName(a, name) {
      var i :| 0 <= i < |a| && a[i].name == name;
      assert (a + b)[i] == a[i];
    }
    if HasName(b, name) {
      var i :| 0 <= i < |b| && b[i].name == name;
      assert (a + b)[|a| + i] == b[i];
    }
  }

  /** A name is among the kept records exactly when `s` has it and `excluded` does not. */
  lemma {:induction false} FirstFreshNames(excluded: seq<UpdateRecord>, s: seq<UpdateRecord>, name: JsValue)
    ensures HasName(FirstFresh(excluded, s), name) <==> HasName(s, name) && !HasName(excluded, name)
    decreases |s|
  {
    if s != [] {
      var init := s[..|s| - 1];
      var x := s[|s| - 1];
      var keep: seq<UpdateRecord> := if HasName(excluded, x.name) || HasName(init, x.name) then [] else [x];
      FirstFreshNames(excluded, init, name);
      HasNameAppend(FirstFresh(excluded, init), keep, name);
      assert s == init + [x];
      HasNameAppend(init, [x], name);
      assert HasName([x], name) <==> x.name == name by {
        if x.name == name { assert [x][0].name == name; }
      }
      assert HasName(keep, name) <==> keep == [x] && x.name == name by {
        if keep == [x] && x.name == name { assert keep[0].name == name; }
      }
    }
  }

  /** Merging one more record at the end: it is pushed unless its name is already there. */
  lemma {:induction false} MergeSnoc(acc: seq<UpdateRecord>, s: seq<UpdateRecord>, x: UpdateRecord)
    ensures Merge(acc, s + [x])
         == (var m := Merge(acc, s); if HasName(m, x.name) then m else m + [x])
    decreases |s|
  {
    if s == [] {
      assert [] + [x] == [x];
    } else {
      var next := if HasName(acc, s[0].name) then acc else acc + [s[0]];
      assert (s + [x])[1..] == s[1..] + [x];
      MergeSnoc(next, s[1..], x);
    }
  }

  /** The merge appends to `acc` exactly the records `FirstFresh` keeps. */
  lemma {:induction false} MergeIsFirstFresh(acc: seq<UpdateRecord>, s: seq<UpdateRecord>)
    ensures Merge(acc, s) == acc + FirstFresh(acc, s)
    decreases |s|
  {
    if s == [] {
      assert acc + [] == acc;
    } else {
      var init := s[..|s| - 1];
      var x := s[|s| - 1];
      assert s == init + [x];
      MergeIsFirstFresh(acc, init);
      MergeSnoc(acc, init, x);
      var f := FirstFresh(acc, init);
      HasNameAppend(acc, f, x.name);
      FirstFreshNames(acc, init, x.name);
      if HasName(acc, x.name) || HasName(init, x.name) {
        assert FirstFresh(acc, s) == f + [];
        assert acc + f == acc + (f + []);
      } else {
        assert FirstFresh(acc, s) == f + [x];
        assert acc + f + [x] == acc + (f + [x]);
      }
    }
  }

  /** `r` extends `acc`, and every record after `acc` brings a name not present
      before it: not in `acc`, and not repeated among the added records. */
  ghost predicate FreshTail(acc: seq<UpdateRecord>, r: seq<UpdateRecord>) {
    && |acc| <= |r| && r[..|acc|] == acc
    && forall i :: |acc| <= i < |r| ==> !HasName(r[..i], r[i].name)
  }

  lemma FreshTailTrans(a: seq<UpdateRecord>, b: seq<UpdateRecord>, c: seq<UpdateRecord>)
    requires FreshTail(a, b) && FreshTail(b, c)
    ensures FreshTail(a, c)
  {
    assert c[..|a|] == c[..|b|][..|a|];
  }

  /** The merged list starts with `acc`, every record it adds comes from `locals`
      and carries a name that was not yet present. */
  lemma {:induction false} MergeFresh(acc: seq<UpdateRecord>, locals: seq<UpdateRecord>)
    ensures FreshTail(acc, Merge(acc, locals))
    ensures forall i :: |acc| <= i < |Merge(acc, locals)| ==> Merge(acc, locals)[i] in locals
    decreases |locals|
  {
    if locals != [] {
      var x := locals[0];
      var next := if HasName(acc, x.name) then acc else acc + [x];
      assert FreshTail(acc, next) by {
        if !HasName(acc, x.name) { assert next[..|acc|] == acc; }
      }
      MergeFresh(next, locals[1..]);
      FreshTailTrans(acc, next, Merge(next, locals[1..]));
      var r := Merge(acc, locals);
      forall i | |acc| <= i < |r| ensures r[i] in locals {
        if i < |next| {
          assert r[i] == r[..|next|][i] == next[i] == x;
        } else {
          assert r[i] in locals[1..];
        }
      }
    }
  }

  /** After merging, every local record's name is present in the result. */
  lemma {:induction false} MergeCovers(acc: seq<UpdateRecord>, locals: seq<UpdateRecord>)
    ensures forall i :: 0 <= i < |locals| ==> HasName(Merge(acc, locals), locals[i].name)
    ensures forall i :: 0 <= i < |acc| ==> HasName(Merge(acc, locals), acc[i].name)
    decreases |locals|
  {
    if locals != [] {
      var x := locals[0];
      var next := if HasName(acc, x.name) then acc else acc + [x];
      MergeFresh(next, locals[1..]);
      MergeCovers(next, locals[1..]);
      var r := Merge(acc, locals);
      assert r == Merge(next, locals[1..]);
      assert HasName(next, x.name) by {
        if !HasName(acc, x.name) { assert next[|acc|] == x; }
      }
      forall i | 0 <= i < |acc| ensures HasName(r, acc[i].name) {
        assert next[i] == acc[i];
      }
      forall i | 0 <= i < |locals| ensures HasName(r, locals[i].name) {
        if i > 0 { assert locals[i] == locals[1..][i - 1]; }
      }
    }
  }

  /** Records whose names are all new are appended as they are. */
  lemma {:induction false} MergeNoCollision(acc: seq<UpdateRecord>, locals: seq<UpdateRecord>)
    requires FreshTail(acc, acc + locals)
    ensures Merge(acc, locals) == acc + locals
    decreases |locals|
  {
    if locals != [] {
      var x := locals[0];
      var all := acc + locals;
      assert all[..|acc|] == acc;
      assert !HasName(acc, x.name) by { assert all[|acc|] == x; }
      var next := acc + [x];
      assert next + locals[1..] == all;
      forall i | |next| <= i < |all| ensures !HasName((next + locals[1..])[..i], (next + locals[1..])[i].name) {
      }
      MergeNoCollision(next, locals[1..]);
    }
  }

  /** The applied record synthesized from one device-reported app
      (`app` is neither null nor undefined). */
  function DeviceRecord(app: JsValue, now: string): UpdateRecord {
    UpdateRecord(
      name := Prop(app, "name"),
      version := Prop(app, "version"),
      icon := Or(Prop(app, "icon"), Str(DefaultIcon)),
      fileSize := Undefined,
      modifiedTime := Undefined,
      file := None,
      newFiles := Undefined,
      oldFiles := Undefined,
      updateCommands := Undefined,
      caddyConfig := Undefined,
      homerConfig := Undefined,
      serviceName := Undefined,
      metadata := Undefined,
      error := None,
      appliedAt := Or(Prop(app, "installedAt"), Str(now)),
      isApplied := true,
      fileExists := Some(false))
  }

  /** `deviceInfo.apps.map(...)`: one applied record per device app, in device
      order, with the app's name and version, its icon or the package glyph, its
      `installedAt` or the current time, and no file. */
  function DeviceRecords(apps: seq<JsValue>, now: string): (r: seq<UpdateRecord>)
    ensures |r| == |apps|
    ensures forall i :: 0 <= i < |r| ==> r[i].file.None? && r[i].isApplied && r[i].fileExists == Some(false)
    ensures forall i :: 0 <= i < |r| ==>
      && r[i].name == Prop(apps[i], "name")
      && r[i].version == Prop(apps[i], "version")
      && (Truthy(Prop(apps[i], "icon")) ==> r[i].icon == Prop(apps[i], "icon"))
      && (!Truthy(Prop(apps[i], "icon")) ==> r[i].icon == Str(DefaultIcon))
      && (Truthy(Prop(apps[i], "installedAt")) ==> r[i].appliedAt == Prop(apps[i], "installedAt"))
      && (!Truthy(Prop(apps[i], "installedAt")) ==> r[i].appliedAt == Str(now))
  {
    seq(|apps|, i requires 0 <= i < |apps| => DeviceRecord(apps[i], now))
  }

  /** What `syncAppliedUpdatesFromDevice` does with the current `deviceInfo`. */
  datatype SyncPlan =
    | Skip                            // no device info, or no apps in it: return at once
    | Throw                           // `apps` is not an array, or an app is null: a TypeError
    | MergeWith(apps: seq<JsValue>)   // merge these device apps

  function PlanSync(deviceInfo: JsValue): (p: SyncPlan)
    ensures p.MergeWith? ==> forall i :: 0 <= i < |p.apps| ==> !p.apps[i].Null? && !p.apps[i].Undefined?
  {
    var apps := Prop(deviceInfo, "apps");
    if !Truthy(deviceInfo) || !Truthy(apps) then Skip
    else if !apps.Arr? then Throw
    else if exists i :: 0 <= i < |apps.items| && (apps.items[i].Null? || apps.items[i].Undefined?) then Throw
    else MergeWith(apps.items)
  }

  /** The applied list after reconciling with the device's apps. */
  function Reconcile(apps: seq<JsValue>, applied: seq<UpdateRecord>, now: string): seq<UpdateRecord> {
    Merge(DeviceRecords(apps, now), WithFiles(applied))
  }

  /**
   * Reconciliation puts the device apps first, in device order; after them come
   * local records that still hold a file, each with a name neither the device
   * nor an earlier kept record has; every local record with a file is
   * represented by name; local records without a file are gone.
   */
  lemma ReconcileShape(apps: seq<JsValue>, applied: seq<UpdateRecord>, now: string)
    ensures var r := Reconcile(apps, applied, now); var n := |apps|;
      && n <= |r| && r[..n] == DeviceRecords(apps, now)
      && (forall i :: n <= i < |r| ==> r[i] in applied && r[i].file.Some?)
      && (forall i :: n <= i < |r| ==> !HasName(r[..i], r[i].name))
      && (forall x :: x in applied && x.file.Some? ==> HasName(r, x.name))
      && (forall x :: x in r && x.file.None? ==> x in DeviceRecords(apps, now))
  {
    var d := DeviceRecords(apps, now);
    var l := WithFiles(applied);
    var r := Merge(d, l);
    MergeFresh(d, l);
    MergeCovers(d, l);
    forall x | x in applied && x.file.Some? ensures HasName(r, x.name) {
      var k :| 0 <= k < |l| && l[k] == x;
    }
    forall x | x in r && x.file.None? ensures x in d {
      var k :| 0 <= k < |r| && r[k] == x;
      if k < |d| {
        assert r[..|d|][k] == x;
      }
    }
  }

  /** After the device records come the local records that still hold a file,
      in local order, each kept only when neither the device nor an earlier
      local record has its name: the first of several namesakes wins. */
  lemma ReconcileTail(apps: seq<JsValue>, applied: seq<UpdateRecord>, now: string)
    ensures Reconcile(apps, applied, now)
         == DeviceRecords(apps, now) + FirstFresh(DeviceRecords(apps, now), WithFiles(applied))
  {
    MergeIsFirstFresh(DeviceRecords(apps, now), WithFiles(applied));
  }

  /** On a name clash the device's record is kept and the local one dropped:
      no appended record carries a name the device reported. */
  lemma ReconcileDeviceWins(apps: seq<JsValue>, applied: seq<UpdateRecord>, now: string, i: nat)
    requires |apps| <= i < |Reconcile(apps, applied, now)|
    ensures !HasName(DeviceRecords(apps, now), Reconcile(apps, applied, now)[i].name)
  {
    var d := DeviceRecords(apps, now);
    var r := Reconcile(apps, applied, now);
    MergeFresh(d, WithFiles(applied));
    forall k | 0 <= k < |d| ensures d[k].name != r[i].name {
      assert r[..|d|][k] == r[..i][k];
    }
  }

  /** Reconciling again with the same device apps changes nothing, provided every
      app reports `installedAt` (otherwise the second run stamps a new time). */
  lemma ReconcileIdempotent(apps: seq<JsValue>, applied: seq<UpdateRecord>, now1: string, now2: string)
    requires forall i :: 0 <= i < |apps| ==> Truthy(Prop(apps[i], "installedAt"))
    ensures Reconcile(apps, Reconcile(apps, applied, now1), now2) == Reconcile(apps, applied, now1)
  {
    var d := DeviceRecords(apps, now1);
    assert DeviceRecords(apps, now2) == d;
    var r := Reconcile(apps, applied, now1);
    ReconcileShape(apps, applied, now1);
    MergeFresh(d, WithFiles(applied));
    var tail := r[|d|..];
    assert r == d + tail;
    WithFilesAppend(d, tail);
    assert WithFiles(d) == [] by { WithFilesNone(d); }
    WithFilesAll(tail);
    assert WithFiles(r) == tail;
    MergeNoCollision(d, tail);
  }

  lemma {:induction false} WithFilesNone(s: seq<UpdateRecord>)
    requires forall i :: 0 <= i < |s| ==> s[i].file.None?
    ensures WithFiles(s) == []
  {
    if s != [] {
      WithFilesNone(s[1..]);
    }
  }

  /** The merge loop of `syncAppliedUpdatesFromDevice`: start from the device
      records and push each local record whose name is not yet in the list. */
  method MergeApplied(deviceApps: seq<UpdateRecord>, localWithFiles: seq<UpdateRecord>)
    returns (merged: seq<UpdateRecord>)
    ensures merged == Merge(deviceApps, localWithFiles)
  {
    merged := deviceApps;
    var i := 0;
    while i < |localWithFiles|
      invariant 0 <= i <= |localWithFiles|
      invariant Merge(merged, localWithFiles[i..]) == Merge(deviceApps, localWithFiles)
    {
      var local := localWithFiles[i];
      assert localWithFiles[i..][1..] == localWithFiles[i + 1..];
      if !HasName(merged, local.name) {
        merged := merged + [local];
      }
      i := i + 1;
    }
    assert localWithFiles[i..] == [];
  }

  // ----- Loading from storage -----

  /** What `localStorage.getItem` holds for one of the two lists. */
  datatype Stored =
    | Absent                       // no item under the key
    | EmptyText                    // an empty string (falsy)
    | Corrupt                      // text that `JSON.parse` rejects
    | Saved(records: seq<UpdateRecord>)

  /** `loadPendingUpdates` / `loadAppliedUpdates`: the saved list, or `[]` when
      the item is missing, empty or unparsable. */
  function LoadList(stored: Stored): (r: seq<UpdateRecord>)
    ensures stored.Saved? ==> r == stored.records
    ensures !stored.Saved? ==> r == []
  {
    match stored
    case Saved(records) => records
    case _ => []
  }
}
