/**
  What `runSync` (js/sync.js) makes of a configuration saved by the settings screen
  (js/config.js): the entries it reads, and what follows for a parent-mode and a
  contact-mode save.
 */
module SettingsSync {
  import opened Wrappers
  import opened JsValue
  import opened Store
  import opened SyncCompute
  import opened SyncRun
  import opened Settings

  /** A string entry of an object; any other entry reads as "". */
  function StrProp(v: Value, key: string): string
  {
    if Get(v, key).Str? then Get(v, key).s else ""
  }

  /** One entry of `childAppSettings` as `runSync` reads it. */
  function RowOf(v: Value): ChildSetting
  {
    ChildSetting(
      StrProp(v, "appId"),
      StrProp(v, "groupIdFieldCode"),
      StrProp(v, "mode"),
      StrProp(v, "copySourceFieldCode"),
      StrProp(v, "targetFieldCode"),
      StrProp(v, "contactTargetField"))
  }

  /**
    `getConfig()` followed by the reads at the top of `runSync`: no configuration, or a
    falsy one, is None; a `childAppSettings` that is not an array reads as no rows (such a
    value is rejected by `RunStored` before it is read).
   */
  function ReadSyncConfig(stored: Option<Value>): (r: Option<SyncConfig>)
    ensures r.None? <==> stored.None? || !Truthy(stored.value)
  {
    if stored.None? || !Truthy(stored.value) then None
    else
      var v := stored.value;
      var cs := Get(v, "childAppSettings");
      var rows := if cs.Arr? then seq(|cs.items|, i requires 0 <= i < |cs.items| => RowOf(cs.items[i])) else [];
      Some(SyncConfig(rows, StrProp(v, "parentGroupIdField"), StrProp(v, "contactAppId"),
                      StrProp(v, "contactGroupIdField"), StrProp(v, "contactTargetField")))
  }

  /** `config.childAppSettings || []`. */
  function ChildSettingsOf(v: Value): Value
  {
    if Truthy(Get(v, "childAppSettings")) then Get(v, "childAppSettings") else Arr([])
  }

  /** `childSettings.length === 0`: an empty array or string, or an object whose `length` is 0. */
  predicate NoRows(cs: Value)
  {
    || (cs.Arr? && |cs.items| == 0)
    || (cs.Str? && |cs.s| == 0)
    || (cs.Obj? && Get(cs, "length") == Num(0))
  }

  /**
    `childSettings.filter(s => s.targetFieldCode)` throws a TypeError: a value that is not
    an array has no `filter`, and reading `targetFieldCode` of a null or undefined row fails.
   */
  predicate FilterThrows(cs: Value)
  {
    !cs.Arr? || exists i :: 0 <= i < |cs.items| && IsNullish(cs.items[i])
  }

  /**
    `runSync` on the configuration as stored: its checks run on the raw values in the
    source's order, and the run itself on the configuration they read. The TypeError of
    the filter escapes `runSync` before any request; it is returned here as FilterThrew.
   */
  function RunStored(stored: Option<Value>, appId: AppId, snap: Snapshot): (r: (Run, Result<Counts, SyncError>))
    ensures stored.None? || !Truthy(stored.value) ==> r == (Run(snap, [], 0, 0, []), Failure(ConfigMissing))
    ensures r.1 == Failure(FilterThrew)
            <==> && stored.Some? && Truthy(stored.value)
                 && !NoRows(ChildSettingsOf(stored.value))
                 && Truthy(Get(stored.value, "parentGroupIdField"))
                 && FilterThrows(ChildSettingsOf(stored.value))
    ensures r.1 == Failure(FilterThrew) ==> r.0 == Run(snap, [], 0, 0, [])
  {
    var start := Run(snap, [], 0, 0, []);
    if stored.None? || !Truthy(stored.value) then (start, Failure(ConfigMissing))
    else
      var v := stored.value;
      var cs := ChildSettingsOf(v);
      if NoRows(cs) then (start, Failure(NoChildSettings))
      else if !Truthy(Get(v, "parentGroupIdField")) then (start, Failure(NoParentGroupIdField))
      else if FilterThrows(cs) then (start, Failure(FilterThrew))
      else RunSync(ReadSyncConfig(stored), appId, snap)
  }

  /**
    A configuration of the shape the settings screen saves: an object whose
    `childAppSettings` is absent or an array of objects and whose `parentGroupIdField` is
    absent or a string.
   */
  predicate Plain(v: Value)
  {
    && v.Obj?
    && (var cs := Get(v, "childAppSettings");
        IsNullish(cs) || (cs.Arr? && forall i :: 0 <= i < |cs.items| ==> cs.items[i].Obj?))
    && (IsNullish(Get(v, "parentGroupIdField")) || Get(v, "parentGroupIdField").Str?)
  }

  /** On such a configuration the raw checks agree with those on the configuration read, and nothing throws. */
  lemma RunStoredPlain(stored: Option<Value>, appId: AppId, snap: Snapshot)
    requires stored.Some? && Plain(stored.value)
    ensures RunStored(stored, appId, snap) == RunSync(ReadSyncConfig(stored), appId, snap)
  {
    var v := stored.value;
    var cs := Get(v, "childAppSettings");
    if cs.Arr? && |cs.items| > 0 {
      assert cs.items[0].Obj?;
      assert !FilterThrows(cs);
    }
  }

  /** A stored row reads back as the row that was saved. */
  lemma RowRoundTrip(s: ChildSetting)
    ensures RowOf(StoredRow(s)) == s
  {
  }

  /** `runSync` reads a parent-mode save as the saved rows and selects, with an empty contact target. */
  lemma ReadSavedParent(rows: seq<ChildSetting>, pg: string, ca: string, cg: string)
    ensures ReadSyncConfig(Some(Obj(ParentConfig(rows, pg, ca, cg)))) == Some(SyncConfig(rows, pg, ca, cg, ""))
  {
    var v := Obj(ParentConfig(rows, pg, ca, cg));
    ParentConfigShape(rows, pg, ca, cg);
    var items := Get(v, "childAppSettings").items;
    assert |items| == |rows|;
    forall i | 0 <= i < |rows| ensures RowOf(items[i]) == rows[i] {
      RowRoundTrip(rows[i]);
    }
    assert seq(|items|, i requires 0 <= i < |items| => RowOf(items[i])) == rows;
    assert StrProp(v, "parentGroupIdField") == pg && StrProp(v, "contactAppId") == ca;
    assert StrProp(v, "contactGroupIdField") == cg && StrProp(v, "contactTargetField") == "";
  }

  /** Both saved shapes are plain. */
  lemma SavedPlain(rows: seq<ChildSetting>, pg: string, ca: string, cg: string, codes: seq<string>, listFilter: bool)
    ensures Plain(Obj(ParentConfig(rows, pg, ca, cg)))
    ensures Plain(Obj(ContactConfig(codes, listFilter)))
  {
    ParentConfigShape(rows, pg, ca, cg);
    assert "childAppSettings" !in ContactConfig(codes, listFilter);
    assert "parentGroupIdField" !in ContactConfig(codes, listFilter);
  }

  /**
    A configuration saved in parent mode never makes `runSync` write to contacts: the
    contact target is always saved empty, so no batch update is issued, the contact
    counter stays 0 and every progress report has 0 contacts.
   */
  lemma SavedParentNoContactWrites(f: SaveForm, appId: AppId, snap: Snapshot)
    requires !f.contactMode && SaveConfig(f).Success?
    ensures var r := RunStored(Some(Obj(SaveConfig(f).value)), appId, snap);
            && r.0.contactUpdated == 0
            && (forall q :: q in r.0.log ==> !q.PutRecords?)
            && (r.1.Success? ==> r.1.value.contactUpdated == 0)
  {
    var pg, ca, cg := Field(f.parentGroup), Field(f.contactApp), Field(f.contactGroup);
    SavedParentShape(pg, ca, cg, f.tbody);
    var rows := CollectChildRows(f.tbody.value);
    SavedPlain(rows, pg, ca, cg, [], false);
    RunStoredPlain(Some(Obj(ParentConfig(rows, pg, ca, cg))), appId, snap);
    ReadSavedParent(rows, pg, ca, cg);
    RunSyncNoContact(Some(SyncConfig(rows, pg, ca, cg, "")), appId, snap);
  }

  /** A configuration saved in contact mode has no child rows, so `runSync` rejects it before any request. */
  lemma SavedContactRejected(codes: seq<string>, listFilter: bool, appId: AppId, snap: Snapshot)
    ensures RunStored(Some(Obj(ContactConfig(codes, listFilter))), appId, snap)
            == (Run(snap, [], 0, 0, []), Failure(NoChildSettings))
  {
    var v := Obj(ContactConfig(codes, listFilter));
    assert "childAppSettings" !in v.props;
  }
}
