/**
  `runSync` of js/sync.js: check the configuration, read every parent record, then for each
  parent in turn compute its values, write them back, and — when a contact app is fully
  configured — copy the first target's value onto every contact record of the same group.
  The promise chain is a left fold over the parents that stops at the first rejection.
 */
module SyncRun {
  import opened Wrappers
  import opened JsValue
  import opened Store
  import opened SyncCompute
  import opened SyncPaging
  import opened SyncWrites

  /** The plugin configuration as `runSync` reads it; an absent or non-string entry reads as "". */
  datatype SyncConfig = SyncConfig(
    childAppSettings: seq<ChildSetting>,
    parentGroupIdField: string,
    contactAppId: AppId,
    contactGroupIdField: string,
    contactTargetField: string)

  /**
    Why `runSync` rejects: one of its four configuration checks, the TypeError its
    `childSettings.filter(...)` throws on settings it cannot read, or a rejected REST call.
   */
  datatype SyncError =
    | ConfigMissing
    | NoChildSettings
    | NoParentGroupIdField
    | FilterThrew
    | NoTargetField
    | Api(e: ApiError)

  datatype Counts = Counts(updated: nat, contactUpdated: nat)

  /**
    What the promise chain carries: the store as the writes so far left it, every request
    issued, the two counters, and the arguments of every `onProgress` call.
   */
  datatype Run = Run(store: Snapshot, log: seq<Request>, updated: nat, contactUpdated: nat, progress: seq<Counts>)

  predicate ContactEnabled(c: SyncConfig)
  {
    c.contactAppId != "" && c.contactGroupIdField != "" && c.contactTargetField != ""
  }

  /** The value copied to contacts: the first valid setting's target value, or "" when there is none. */
  function ContactValue(valid: seq<ChildSetting>, valuesByField: map<string, string>): string
  {
    if |valid| > 0 && valid[0].targetFieldCode in valuesByField then valuesByField[valid[0].targetFieldCode] else ""
  }

  /**
    The position of the last setting whose target is `t`, or -1 when none has it: the
    setting whose value `valuesByField[t]` ends with, since later rows overwrite earlier ones.
   */
  function LastTarget(valid: seq<ChildSetting>, t: string): (k: int)
    ensures -1 <= k < |valid|
    ensures k >= 0 ==> valid[k].targetFieldCode == t && forall j :: k < j < |valid| ==> valid[j].targetFieldCode != t
    ensures k < 0 ==> forall j :: 0 <= j < |valid| ==> valid[j].targetFieldCode != t
    decreases |valid|
  {
    if |valid| == 0 then -1
    else if valid[|valid| - 1].targetFieldCode == t then |valid| - 1
    else LastTarget(valid[..|valid| - 1], t)
  }

  function Report(r: Run): Run
  {
    r.(progress := r.progress + [Counts(r.updated, r.contactUpdated)])
  }

  /** The write of the contact stage: the ids' records get the value, then the counter grows and progress is reported. */
  function WriteContacts(r: Run, c: SyncConfig, value: string, ids: seq<string>): (Run, Option<ApiError>)
  {
    var u := UpdateContactRecords(r.store, c.contactAppId, c.contactTargetField, ids, value);
    var r1 := r.(log := r.log + u.0);
    match u.1
    case Failure(e) => (r1, Some(e))
    case Success(next) => (Report(r1.(store := next, contactUpdated := r1.contactUpdated + |ids|)), None)
  }

  /** The contact part of one parent's step: look up the group's contacts and write the value; no contacts, no report. */
  function ContactStage(r: Run, c: SyncConfig, value: string, groupIdValue: string): (Run, Option<ApiError>)
  {
    var f := FetchContactIds(r.store, c.contactAppId, c.contactGroupIdField, groupIdValue);
    var r1 := r.(log := r.log + f.0);
    match f.1
    case Failure(e) => (r1, Some(e))
    case Success(ids) => if |ids| == 0 then (r1, None) else WriteContacts(r1, c, value, ids)
  }

  /** The parent part of one step, given what the computation issued and resolved with: write the parent and count it. */
  function ParentStage(r: Run, appId: AppId, computed: (seq<Request>, Result<ParentValues, ApiError>))
    : (Run, Result<ParentValues, ApiError>)
  {
    var r1 := r.(log := r.log + computed.0);
    match computed.1
    case Failure(e) => (r1, Failure(e))
    case Success(pv) =>
      var w := UpdateParentRecord(r1.store, appId, pv.id, pv.valuesByField);
      var r2 := r1.(log := r1.log + w.0);
      match w.1
      case Failure(e) => (r2, Failure(e))
      case Success(next) => (r2.(store := next, updated := r2.updated + 1), Success(pv))
  }

  /** After the parent write: the contact stage when a contact app is configured, else a report. */
  function AfterParent(p: (Run, Result<ParentValues, ApiError>), c: SyncConfig): (Run, Option<ApiError>)
  {
    match p.1
    case Failure(e) => (p.0, Some(e))
    case Success(pv) =>
      if ContactEnabled(c) then
        ContactStage(p.0, c, ContactValue(ValidSettings(c.childAppSettings), pv.valuesByField), pv.groupIdValue)
      else (Report(p.0), None)
  }

  /** One link of the chain: compute, write the parent, count it, then the contact part or a report. */
  function ProcessParent(r: Run, c: SyncConfig, appId: AppId, record: Rec): (Run, Option<ApiError>)
    requires |c.childAppSettings| > 0
  {
    AfterParent(ParentStage(r, appId, ComputeAllValuesForParent(r.store, record, c.childAppSettings)), c)
  }

  /** `records.forEach(...)` building the chain: the parents in order, stopping at the first rejection. */
  function ProcessAll(r: Run, c: SyncConfig, appId: AppId, records: seq<Rec>): (Run, Option<ApiError>)
    requires |c.childAppSettings| > 0
    decreases |records|
  {
    if |records| == 0 then (r, None)
    else
      var step := ProcessParent(r, c, appId, records[0]);
      if step.1.Some? then step else ProcessAll(step.0, c, appId, records[1..])
  }

  /** What the chain resolves or rejects with. */
  function Outcome(p: (Run, Option<ApiError>)): (Run, Result<Counts, SyncError>)
  {
    match p.1
    case Some(e) => (p.0, Failure(Api(e)))
    case None => (p.0, Success(Counts(p.0.updated, p.0.contactUpdated)))
  }

  /** Everything after the configuration checks: read the parents, then run the chain over them. */
  function SyncParents(snap: Snapshot, c: SyncConfig, appId: AppId): (Run, Result<Counts, SyncError>)
    requires |c.childAppSettings| > 0
  {
    var f := FetchParents(snap, appId);
    var r1 := Run(snap, f.0, 0, 0, []);
    match f.1
    case Failure(e) => (r1, Failure(Api(e)))
    case Success(records) =>
      if |records| == 0 then (r1, Success(Counts(0, 0)))
      else Outcome(ProcessAll(r1, c, appId, records))
  }

  /** The configuration passes the four checks of `runSync`. */
  predicate Accepted(c: SyncConfig)
  {
    |c.childAppSettings| > 0 && c.parentGroupIdField != "" && |ValidSettings(c.childAppSettings)| > 0
  }

  /**
    `runSync(onProgress)` on the parent app `appId`. The configuration checks come first,
    in the source's order, and each rejects before any request.
   */
  function RunSync(config: Option<SyncConfig>, appId: AppId, snap: Snapshot): (r: (Run, Result<Counts, SyncError>))
    ensures config.None? ==> r == (Run(snap, [], 0, 0, []), Failure(ConfigMissing))
    ensures config.Some? && |config.value.childAppSettings| == 0 ==> r == (Run(snap, [], 0, 0, []), Failure(NoChildSettings))
    ensures config.Some? && |config.value.childAppSettings| > 0 && config.value.parentGroupIdField == "" ==>
              r == (Run(snap, [], 0, 0, []), Failure(NoParentGroupIdField))
    ensures config.Some? && |config.value.childAppSettings| > 0 && config.value.parentGroupIdField != ""
            && (forall s :: s in config.value.childAppSettings ==> s.targetFieldCode == "") ==>
              r == (Run(snap, [], 0, 0, []), Failure(NoTargetField))
    ensures config.Some? && Accepted(config.value) ==> r == SyncParents(snap, config.value, appId)
  {
    var start := Run(snap, [], 0, 0, []);
    if config.None? then (start, Failure(ConfigMissing))
    else
      var c := config.value;
      ValidSettingsEmpty(c.childAppSettings);
      if |c.childAppSettings| == 0 then (start, Failure(NoChildSettings))
      else if c.parentGroupIdField == "" then (start, Failure(NoParentGroupIdField))
      else if |ValidSettings(c.childAppSettings)| == 0 then (start, Failure(NoTargetField))
      else SyncParents(snap, c, appId)
  }

  // ---------------------------------------------------------------------------------------
  // The log only grows.

  predicate Extends(before: seq<Request>, after: seq<Request>)
  {
    |before| <= |after| && after[..|before|] == before
  }

  lemma ExtendsAppend(a: seq<Request>, b: seq<Request>)
    ensures Extends(a, a + b)
  {
    assert (a + b)[..|a|] == a;
  }

  lemma ExtendsTrans(a: seq<Request>, b: seq<Request>, c: seq<Request>)
    requires Extends(a, b) && Extends(b, c)
    ensures Extends(a, c)
  {
    assert c[..|a|] == c[..|b|][..|a|];
  }

  lemma ContactStageExtends(r: Run, c: SyncConfig, value: string, groupIdValue: string)
    ensures var s := ContactStage(r, c, value, groupIdValue);
            Extends(r.log, s.0.log) && s.0.updated == r.updated
  {
    var f := FetchContactIds(r.store, c.contactAppId, c.contactGroupIdField, groupIdValue);
    ExtendsAppend(r.log, f.0);
    if f.1.Success? && |f.1.value| > 0 {
      var u := UpdateContactRecords(r.store, c.contactAppId, c.contactTargetField, f.1.value, value);
      ExtendsAppend(r.log + f.0, u.0);
      ExtendsTrans(r.log, r.log + f.0, r.log + f.0 + u.0);
    }
  }

  lemma ParentStageExtends(r: Run, appId: AppId, computed: (seq<Request>, Result<ParentValues, ApiError>))
    ensures Extends(r.log, ParentStage(r, appId, computed).0.log)
  {
    ExtendsAppend(r.log, computed.0);
    if computed.1.Success? {
      var pv := computed.1.value;
      var w := UpdateParentRecord(r.store, appId, pv.id, pv.valuesByField);
      ExtendsAppend(r.log + computed.0, w.0);
      ExtendsTrans(r.log, r.log + computed.0, r.log + computed.0 + w.0);
    }
  }

  lemma ProcessParentExtends(r: Run, c: SyncConfig, appId: AppId, record: Rec)
    requires |c.childAppSettings| > 0
    ensures Extends(r.log, ProcessParent(r, c, appId, record).0.log)
  {
    var p := ParentStage(r, appId, ComputeAllValuesForParent(r.store, record, c.childAppSettings));
    ParentStageExtends(r, appId, ComputeAllValuesForParent(r.store, record, c.childAppSettings));
    if p.1.Success? && ContactEnabled(c) {
      var pv := p.1.value;
      ContactStageExtends(p.0, c, ContactValue(ValidSettings(c.childAppSettings), pv.valuesByField), pv.groupIdValue);
      ExtendsTrans(r.log, p.0.log, AfterParent(p, c).0.log);
    }
  }

  /** The chain never drops a request: each parent's requests follow those of the parents before it. */
  lemma {:induction false} ProcessAllExtends(r: Run, c: SyncConfig, appId: AppId, records: seq<Rec>)
    requires |c.childAppSettings| > 0
    ensures Extends(r.log, ProcessAll(r, c, appId, records).0.log)
    decreases |records|
  {
    if |records| > 0 {
      var step := ProcessParent(r, c, appId, records[0]);
      ProcessParentExtends(r, c, appId, records[0]);
      if step.1.None? {
        ProcessAllExtends(step.0, c, appId, records[1..]);
        ExtendsTrans(r.log, step.0.log, ProcessAll(step.0, c, appId, records[1..]).0.log);
      }
    } else {
      assert r.log[..|r.log|] == r.log;
    }
  }

  /**
    Once the configuration is accepted the first request is the read of the first page of
    parents, whatever happens afterwards.
   */
  lemma RunSyncFirstRequest(config: Option<SyncConfig>, appId: AppId, snap: Snapshot)
    requires config.Some? && Accepted(config.value)
    ensures var r := RunSync(config, appId, snap);
            |r.0.log| > 0 && r.0.log[0] == GetRecords(appId, ParentQuery(0))
  {
    var c := config.value;
    var f := FetchParents(snap, appId);
    FetchParentsSpec(snap, appId);
    assert f.0[0] == GetRecords(appId, ParentQuery(0));
    if f.1.Success? && |f.1.value| > 0 {
      var r1 := Run(snap, f.0, 0, 0, []);
      ProcessAllExtends(r1, c, appId, f.1.value);
      var s := ProcessAll(r1, c, appId, f.1.value);
      assert s.0.log[..|f.0|][0] == s.0.log[0];
    }
  }

  // ---------------------------------------------------------------------------------------
  // The log and the counters.

  /** Number of PUTs on /k/v1/record (parent writes) in a log. */
  function ParentWrites(log: seq<Request>): nat
  {
    if |log| == 0 then 0 else ParentWrites(log[..|log| - 1]) + (if log[|log| - 1].PutRecord? then 1 else 0)
  }

  /** Number of records written by PUTs on /k/v1/records (contact writes) in a log. */
  function ContactWrites(log: seq<Request>): nat
  {
    if |log| == 0 then 0
    else ContactWrites(log[..|log| - 1]) + (if log[|log| - 1].PutRecords? then |log[|log| - 1].updates| else 0)
  }

  lemma {:induction false} WritesAppend(a: seq<Request>, b: seq<Request>)
    ensures ParentWrites(a + b) == ParentWrites(a) + ParentWrites(b)
    ensures ContactWrites(a + b) == ContactWrites(a) + ContactWrites(b)
    decreases |b|
  {
    if |b| == 0 {
      assert a + b == a;
    } else {
      assert (a + b)[..|a + b| - 1] == a + b[..|b| - 1];
      WritesAppend(a, b[..|b| - 1]);
    }
  }

  lemma {:induction false} ReadsOnly(log: seq<Request>)
    requires forall q :: q in log ==> q.GetRecords?
    ensures ParentWrites(log) == 0 && ContactWrites(log) == 0
  {
    if |log| > 0 {
      assert log[|log| - 1] in log;
      ReadsOnly(log[..|log| - 1]);
    }
  }

  lemma {:induction false} ChunkWrites(app: AppId, cs: seq<seq<Update>>)
    ensures var log := seq(|cs|, i requires 0 <= i < |cs| => PutRecords(app, cs[i]));
            ParentWrites(log) == 0 && ContactWrites(log) == |Flatten(cs)|
  {
    var log := seq(|cs|, i requires 0 <= i < |cs| => PutRecords(app, cs[i]));
    if |cs| > 0 {
      var head := [PutRecords(app, cs[0])];
      var tail := seq(|cs| - 1, i requires 0 <= i < |cs| - 1 => PutRecords(app, cs[1..][i]));
      assert log == head + tail;
      ChunkWrites(app, cs[1..]);
      WritesAppend(head, tail);
      assert head[..0] == [];
    }
  }

  /** The counters agree with the log: one parent write per `updated`, one contact record per `contactUpdated`. */
  predicate Tally(r: Run)
  {
    r.updated == ParentWrites(r.log) && r.contactUpdated == ContactWrites(r.log)
  }

  lemma WriteContactsTally(r: Run, c: SyncConfig, value: string, ids: seq<string>)
    requires Tally(r)
    ensures var s := WriteContacts(r, c, value, ids);
            s.1.None? ==> Tally(s.0) && s.0.updated == r.updated
  {
    var u := UpdateContactRecords(r.store, c.contactAppId, c.contactTargetField, ids, value);
    var cs := Chunks(ToUpdates(ids, c.contactTargetField, value));
    PutChunksLog(r.store, c.contactAppId, cs);
    if u.1.Success? {
      if |ids| > 0 {
        ChunkWrites(c.contactAppId, cs);
        ChunksSpec(ToUpdates(ids, c.contactTargetField, value));
      }
      WritesAppend(r.log, u.0);
    }
  }

  /** The contact stage adds |ids| to the counter exactly when it writes |ids| contact records. */
  lemma ContactStageTally(r: Run, c: SyncConfig, value: string, groupIdValue: string)
    requires Tally(r)
    ensures var s := ContactStage(r, c, value, groupIdValue);
            s.1.None? ==> Tally(s.0) && s.0.updated == r.updated
  {
    var f := FetchContactIds(r.store, c.contactAppId, c.contactGroupIdField, groupIdValue);
    FetchContactIdsSpec(r.store, c.contactAppId, c.contactGroupIdField, groupIdValue);
    ReadsOnly(f.0);
    WritesAppend(r.log, f.0);
    if f.1.Success? && |f.1.value| > 0 {
      WriteContactsTally(r.(log := r.log + f.0), c, value, f.1.value);
    }
  }

  /**
    When the contact stage resolves, the contact app exists and `contactUpdated` has grown by
    the number of its records whose join field reads as the parent's join value.
   */
  lemma ContactStageCount(r: Run, c: SyncConfig, value: string, groupIdValue: string)
    ensures var s := ContactStage(r, c, value, groupIdValue);
            s.1.None? ==>
              && c.contactAppId in r.store
              && s.0.contactUpdated
                   == r.contactUpdated + |Matching(r.store[c.contactAppId].records, c.contactGroupIdField, groupIdValue)|
  {
    FetchContactIdsSpec(r.store, c.contactAppId, c.contactGroupIdField, groupIdValue);
  }

  /** A parent whose values are not empty is counted exactly when its PUT is issued. */
  lemma ParentStageTally(r: Run, appId: AppId, computed: (seq<Request>, Result<ParentValues, ApiError>))
    requires Tally(r)
    requires forall q :: q in computed.0 ==> q.GetRecords?
    requires computed.1.Success? ==> |computed.1.value.valuesByField| > 0
    ensures var p := ParentStage(r, appId, computed);
            p.1.Success? ==> Tally(p.0) && p.0.updated == r.updated + 1 && p.1 == computed.1
  {
    ReadsOnly(computed.0);
    WritesAppend(r.log, computed.0);
    if computed.1.Success? {
      var pv := computed.1.value;
      var w := UpdateParentRecord(r.store, appId, pv.id, pv.valuesByField);
      WritesAppend(r.log + computed.0, w.0);
      assert w.0[..0] == [];
    }
  }

  /** With at least one valid setting every computed `valuesByField` has a key. */
  lemma ValuesNotEmpty(snap: Snapshot, record: Rec, settings: seq<ChildSetting>)
    requires |settings| > 0 && |ValidSettings(settings)| > 0
    ensures var computed := ComputeAllValuesForParent(snap, record, settings);
            computed.1.Success? ==> |computed.1.value.valuesByField| > 0
  {
    var computed := ComputeAllValuesForParent(snap, record, settings);
    if computed.1.Success? {
      ValuesByFieldSpec(snap, record, settings);
      var valid := ValidSettings(settings);
      assert valid[0] in valid;
      assert valid[0].targetFieldCode in TargetCodes(settings);
      assert valid[0].targetFieldCode in computed.1.value.valuesByField;
    }
  }

  /** Every parent whose step resolves is counted once and written once. */
  lemma ProcessParentTally(r: Run, c: SyncConfig, appId: AppId, record: Rec)
    requires |c.childAppSettings| > 0 && |ValidSettings(c.childAppSettings)| > 0
    requires Tally(r)
    ensures var s := ProcessParent(r, c, appId, record);
            s.1.None? ==> Tally(s.0) && s.0.updated == r.updated + 1
  {
    var computed := ComputeAllValuesForParent(r.store, record, c.childAppSettings);
    ValuesNotEmpty(r.store, record, c.childAppSettings);
    ParentStageTally(r, appId, computed);
    var p := ParentStage(r, appId, computed);
    if p.1.Success? && ContactEnabled(c) {
      var pv := p.1.value;
      ContactStageTally(p.0, c, ContactValue(ValidSettings(c.childAppSettings), pv.valuesByField), pv.groupIdValue);
    }
  }

  lemma {:induction false} ProcessAllTally(r: Run, c: SyncConfig, appId: AppId, records: seq<Rec>)
    requires |c.childAppSettings| > 0 && |ValidSettings(c.childAppSettings)| > 0
    requires Tally(r)
    ensures var s := ProcessAll(r, c, appId, records);
            s.1.None? ==> Tally(s.0) && s.0.updated == r.updated + |records|
    decreases |records|
  {
    if |records| > 0 {
      ProcessParentTally(r, c, appId, records[0]);
      var step := ProcessParent(r, c, appId, records[0]);
      if step.1.None? {
        ProcessAllTally(step.0, c, appId, records[1..]);
      }
    }
  }

  /**
    When `runSync` resolves, `updated` is the number of parent records read and the number
    of parent PUTs issued, and `contactUpdated` is the number of contact records written;
    zero parents resolve with {0, 0}.
   */
  lemma RunSyncCounts(config: Option<SyncConfig>, appId: AppId, snap: Snapshot)
    requires RunSync(config, appId, snap).1.Success?
    ensures var r := RunSync(config, appId, snap);
            var parents := FetchParents(snap, appId).1;
            && parents.Success?
            && r.1.value.updated == |parents.value|
            && r.1.value.updated == ParentWrites(r.0.log)
            && r.1.value.contactUpdated == ContactWrites(r.0.log)
            && (|parents.value| == 0 ==> r.1.value == Counts(0, 0))
  {
    var c := config.value;
    var f := FetchParents(snap, appId);
    FetchParentsSpec(snap, appId);
    ReadsOnly(f.0);
    var r1 := Run(snap, f.0, 0, 0, []);
    if |f.1.value| > 0 {
      ProcessAllTally(r1, c, appId, f.1.value);
    }
  }

  // ---------------------------------------------------------------------------------------
  // A store that fits the configuration.

  /**
    Every app and field the configuration names exists: the parent app with every target
    field, each child app with its join field and its creation-time field, and — when enabled — the contact app with its
    join and target fields.
   */
  predicate Ready(snap: Snapshot, c: SyncConfig, appId: AppId)
  {
    && appId in snap
    && TargetCodes(c.childAppSettings) <= snap[appId].fieldCodes
    && (forall s :: s in c.childAppSettings && s.targetFieldCode != "" ==> ChildReady(snap, s))
    && (ContactEnabled(c) ==>
          && c.contactAppId in snap
          && c.contactGroupIdField in snap[c.contactAppId].fieldCodes
          && c.contactTargetField in snap[c.contactAppId].fieldCodes)
  }

  lemma ReadyShape(a: Snapshot, b: Snapshot, c: SyncConfig, appId: AppId)
    requires Ready(a, c, appId) && SameShape(a, b)
    ensures Ready(b, c, appId)
  {
  }

  /** Every id of the matching records is an id of the app. */
  lemma MatchingIds(recs: seq<Rec>, field: string, v: string)
    ensures var ids := Ids(Matching(recs, field, v));
            forall i :: 0 <= i < |ids| ==> ids[i] in Ids(recs)
  {
    var m := Matching(recs, field, v);
    MatchingMembers(recs, field, v);
    forall i | 0 <= i < |m| ensures Ids(m)[i] in Ids(recs) {
      IdsIndex(m, i);
      assert m[i] in m;
      IdsMember(recs, m[i]);
    }
  }

  /**
    With the contact app and its fields in place the contact stage resolves, keeps the
    store's shape, and leaves every contact record whose join field reads as the parent's
    join value with the target field set to `value`, and every other record as it was.
   */
  lemma ContactStageSucceeds(r: Run, c: SyncConfig, appId: AppId, value: string, groupIdValue: string)
    requires Ready(r.store, c, appId) && ContactEnabled(c)
    ensures var s := ContactStage(r, c, value, groupIdValue);
            s.1.None? && SameShape(r.store, s.0.store)
    ensures var s := ContactStage(r, c, value, groupIdValue);
            var recs := r.store[c.contactAppId].records;
            && c.contactAppId in s.0.store
            && (forall other :: other in r.store && other != c.contactAppId ==> other in s.0.store && s.0.store[other] == r.store[other])
            && ContactWritten(recs, s.0.store[c.contactAppId].records,
                              Ids(Matching(recs, c.contactGroupIdField, groupIdValue)), c.contactTargetField, value)
  {
    var recs := r.store[c.contactAppId].records;
    FetchContactIdsSpec(r.store, c.contactAppId, c.contactGroupIdField, groupIdValue);
    var ids := Ids(Matching(recs, c.contactGroupIdField, groupIdValue));
    if |ids| > 0 {
      MatchingIds(recs, c.contactGroupIdField, groupIdValue);
      UpdateContactRecordsSpec(r.store, c.contactAppId, c.contactTargetField, ids, value);
      PutChunksLog(r.store, c.contactAppId, Chunks(ToUpdates(ids, c.contactTargetField, value)));
    }
  }

  /** With the apps and fields in place and the parent's id known, its step resolves and keeps the store's shape. */
  lemma ProcessParentSucceeds(r: Run, c: SyncConfig, appId: AppId, record: Rec)
    requires |c.childAppSettings| > 0 && |ValidSettings(c.childAppSettings)| > 0
    requires Ready(r.store, c, appId) && record.id in Ids(r.store[appId].records)
    ensures var s := ProcessParent(r, c, appId, record);
            s.1.None? && SameShape(r.store, s.0.store)
  {
    var settings := c.childAppSettings;
    var computed := ComputeAllValuesForParent(r.store, record, settings);
    ComputeAllSucceeds(r.store, record, settings);
    ValuesByFieldSpec(r.store, record, settings);
    ValuesNotEmpty(r.store, record, settings);
    var pv := computed.1.value;
    PutKeepsShape(r.store, appId, Update(pv.id, pv.valuesByField));
    var p := ParentStage(r, appId, computed);
    if ContactEnabled(c) {
      ReadyShape(r.store, p.0.store, c, appId);
      ContactStageSucceeds(p.0, c, appId, ContactValue(ValidSettings(settings), pv.valuesByField), pv.groupIdValue);
      SameShapeTrans(r.store, p.0.store, AfterParent(p, c).0.store);
    }
  }

  /** On a store with every app and field in place, one parent's step writes `valuesByField` onto that parent. */
  lemma ProcessParentWritesParent(r: Run, c: SyncConfig, appId: AppId, record: Rec)
    requires |c.childAppSettings| > 0 && |ValidSettings(c.childAppSettings)| > 0
    requires Ready(r.store, c, appId) && record.id in Ids(r.store[appId].records)
    ensures var computed := ComputeAllValuesForParent(r.store, record, c.childAppSettings);
            var p := ParentStage(r, appId, computed);
            && computed.1.Success?
            && p.1 == computed.1
            && appId in p.0.store
            && ParentWritten(r.store[appId].records, p.0.store[appId].records, record.id, computed.1.value.valuesByField)
  {
    var settings := c.childAppSettings;
    var computed := ComputeAllValuesForParent(r.store, record, settings);
    ComputeAllSucceeds(r.store, record, settings);
    ValuesByFieldSpec(r.store, record, settings);
    ValuesNotEmpty(r.store, record, settings);
    var pv := computed.1.value;
    UpdateParentRecordEffect(r.store, appId, pv.id, pv.valuesByField);
  }

  /**
    The value copied to the contacts is the one the first valid setting's target holds in
    `valuesByField`: the value computed for the last valid setting with that same target.
   */
  lemma ContactValueIsLast(snap: Snapshot, record: Rec, settings: seq<ChildSetting>)
    requires |settings| > 0 && |ValidSettings(settings)| > 0
    requires ComputeAllValuesForParent(snap, record, settings).1.Success?
    ensures var valid := ValidSettings(settings);
            var vbf := ComputeAllValuesForParent(snap, record, settings).1.value.valuesByField;
            var t := valid[0].targetFieldCode;
            var k := LastTarget(valid, t);
            && t in vbf
            && ContactValue(valid, vbf) == vbf[t]
            && 0 <= k
            && ComputeValueForOneRow(snap, record, valid[k]).1 == Success(RowValue(t, ContactValue(valid, vbf)))
  {
    var valid := ValidSettings(settings);
    var t := valid[0].targetFieldCode;
    var k := LastTarget(valid, t);
    assert k >= 0;
    ValuesByFieldAt(snap, record, settings, k);
  }

  /** ValuesByFieldSpec at one setting that no later setting overwrites. */
  lemma ValuesByFieldAt(snap: Snapshot, record: Rec, settings: seq<ChildSetting>, k: nat)
    requires |settings| > 0
    requires ComputeAllValuesForParent(snap, record, settings).1.Success?
    requires k < |ValidSettings(settings)|
    requires forall j :: k < j < |ValidSettings(settings)| ==> ValidSettings(settings)[j].targetFieldCode != ValidSettings(settings)[k].targetFieldCode
    ensures var valid := ValidSettings(settings);
            var vbf := ComputeAllValuesForParent(snap, record, settings).1.value.valuesByField;
            && valid[k].targetFieldCode in vbf
            && ComputeValueForOneRow(snap, record, valid[k]).1 == Success(RowValue(valid[k].targetFieldCode, vbf[valid[k].targetFieldCode]))
  {
    ValuesByFieldSpec(snap, record, settings);
  }

  /**
    On a store with every app and field in place, one parent's step resolves. With a
    contact app, the group's contacts, as the parent write left them, get ContactValue;
    without one nothing is written after the parent.
   */
  lemma ProcessParentWritesContacts(r: Run, c: SyncConfig, appId: AppId, record: Rec)
    requires |c.childAppSettings| > 0 && |ValidSettings(c.childAppSettings)| > 0
    requires Ready(r.store, c, appId) && record.id in Ids(r.store[appId].records)
    ensures var computed := ComputeAllValuesForParent(r.store, record, c.childAppSettings);
            var p := ParentStage(r, appId, computed);
            var s := ProcessParent(r, c, appId, record);
            && computed.1.Success?
            && s.1.None?
            && (!ContactEnabled(c) ==> s.0.store == p.0.store)
            && (ContactEnabled(c) ==>
                  var pv := computed.1.value;
                  var before := p.0.store[c.contactAppId].records;
                  && c.contactAppId in s.0.store
                  && ContactWritten(before, s.0.store[c.contactAppId].records,
                                    Ids(Matching(before, c.contactGroupIdField, pv.groupIdValue)), c.contactTargetField,
                                    ContactValue(ValidSettings(c.childAppSettings), pv.valuesByField)))
  {
    var settings := c.childAppSettings;
    var computed := ComputeAllValuesForParent(r.store, record, settings);
    ComputeAllSucceeds(r.store, record, settings);
    ValuesByFieldSpec(r.store, record, settings);
    ValuesNotEmpty(r.store, record, settings);
    var pv := computed.1.value;
    PutKeepsShape(r.store, appId, Update(pv.id, pv.valuesByField));
    var p := ParentStage(r, appId, computed);
    ProcessParentSucceeds(r, c, appId, record);
    if ContactEnabled(c) {
      ReadyShape(r.store, p.0.store, c, appId);
      ContactStageSucceeds(p.0, c, appId, ContactValue(ValidSettings(settings), pv.valuesByField), pv.groupIdValue);
    }
  }

  lemma {:induction false} ProcessAllSucceeds(r: Run, c: SyncConfig, appId: AppId, records: seq<Rec>)
    requires |c.childAppSettings| > 0 && |ValidSettings(c.childAppSettings)| > 0
    requires Ready(r.store, c, appId)
    requires forall x :: x in records ==> x.id in Ids(r.store[appId].records)
    ensures ProcessAll(r, c, appId, records).1.None?
    decreases |records|
  {
    if |records| > 0 {
      assert records[0] in records;
      ProcessParentSucceeds(r, c, appId, records[0]);
      var step := ProcessParent(r, c, appId, records[0]);
      ReadyShape(r.store, step.0.store, c, appId);
      assert forall x :: x in records[1..] ==> x in records;
      ProcessAllSucceeds(step.0, c, appId, records[1..]);
    }
  }

  /**
    On a store that has every app and field the configuration names, an accepted `runSync`
    resolves, with `updated` the number of parents read — every parent record when the
    store's totalCount covers them all.
   */
  lemma RunSyncSucceeds(config: Option<SyncConfig>, appId: AppId, snap: Snapshot)
    requires config.Some? && Accepted(config.value) && Ready(snap, config.value, appId)
    ensures var r := RunSync(config, appId, snap);
            && r.1.Success?
            && r.1.value.updated == |FetchParents(snap, appId).1.value|
            && (snap[appId].reportedTotal.Some? && snap[appId].reportedTotal.value >= |snap[appId].records| ==>
                  r.1.value.updated == |snap[appId].records|)
  {
    var c := config.value;
    var recs := snap[appId].records;
    FetchParentsSpec(snap, appId);
    var parents := FetchParents(snap, appId).1.value;
    assert parents == recs[..|parents|];
    forall x | x in parents ensures x.id in Ids(recs) {
      assert x in recs;
      IdsMember(recs, x);
    }
    var r1 := Run(snap, FetchParents(snap, appId).0, 0, 0, []);
    if |parents| > 0 {
      ProcessAllSucceeds(r1, c, appId, parents);
      ReadsOnly(r1.log);
      ProcessAllTally(r1, c, appId, parents);
    }
    if snap[appId].reportedTotal.Some? && snap[appId].reportedTotal.value >= |recs| {
      FetchParentsComplete(snap, appId);
    }
  }

  // ---------------------------------------------------------------------------------------
  // Without a contact app.

  /** The log `after` is `before` followed by requests none of which is a contact write. */
  predicate ExtendsWithoutContactWrites(before: seq<Request>, after: seq<Request>)
  {
    && Extends(before, after)
    && forall i :: |before| <= i < |after| ==> !after[i].PutRecords?
  }

  lemma NoContactTrans(a: seq<Request>, b: seq<Request>, c: seq<Request>)
    requires ExtendsWithoutContactWrites(a, b) && ExtendsWithoutContactWrites(b, c)
    ensures ExtendsWithoutContactWrites(a, c)
  {
    ExtendsTrans(a, b, c);
    forall i | |a| <= i < |c| ensures !c[i].PutRecords? {
      if i < |b| {
        assert c[i] == c[..|b|][i];
      }
    }
  }

  lemma NoContactAppend(a: seq<Request>, b: seq<Request>)
    requires forall q :: q in b ==> !q.PutRecords?
    ensures ExtendsWithoutContactWrites(a, a + b)
  {
    ExtendsAppend(a, b);
    forall i | |a| <= i < |a + b| ensures !(a + b)[i].PutRecords? {
      assert (a + b)[i] == b[i - |a|];
    }
  }

  /** The parent part never writes a contact and leaves the contact counter and the reports alone. */
  lemma ParentStageNoContact(r: Run, appId: AppId, computed: (seq<Request>, Result<ParentValues, ApiError>))
    requires forall q :: q in computed.0 ==> q.GetRecords?
    ensures var p := ParentStage(r, appId, computed);
            && ExtendsWithoutContactWrites(r.log, p.0.log)
            && p.0.contactUpdated == r.contactUpdated && p.0.progress == r.progress
            && (p.1.Success? ==> p.0.updated == r.updated + 1)
  {
    NoContactAppend(r.log, computed.0);
    if computed.1.Success? {
      var pv := computed.1.value;
      var w := UpdateParentRecord(r.store, appId, pv.id, pv.valuesByField);
      NoContactAppend(r.log + computed.0, w.0);
      NoContactTrans(r.log, r.log + computed.0, r.log + computed.0 + w.0);
    }
  }

  lemma ProcessParentNoContact(r: Run, c: SyncConfig, appId: AppId, record: Rec)
    requires |c.childAppSettings| > 0 && !ContactEnabled(c)
    ensures var s := ProcessParent(r, c, appId, record);
            && s.0.contactUpdated == r.contactUpdated
            && ExtendsWithoutContactWrites(r.log, s.0.log)
            && (s.1.None? ==> s.0.updated == r.updated + 1 && s.0.progress == r.progress + [Counts(r.updated + 1, r.contactUpdated)])
  {
    ParentStageNoContact(r, appId, ComputeAllValuesForParent(r.store, record, c.childAppSettings));
  }

  lemma {:induction false} ProcessAllNoContact(r: Run, c: SyncConfig, appId: AppId, records: seq<Rec>)
    requires |c.childAppSettings| > 0 && !ContactEnabled(c)
    ensures var s := ProcessAll(r, c, appId, records);
            && s.0.contactUpdated == r.contactUpdated
            && ExtendsWithoutContactWrites(r.log, s.0.log)
            && (s.1.None? ==> s.0.updated == r.updated + |records|
                              && s.0.progress == r.progress + seq(|records|, i requires 0 <= i < |records| => Counts(r.updated + i + 1, r.contactUpdated)))
    decreases |records|
  {
    if |records| > 0 {
      var step := ProcessParent(r, c, appId, records[0]);
      ProcessParentNoContact(r, c, appId, records[0]);
      if step.1.None? {
        var tail := records[1..];
        ProcessAllNoContact(step.0, c, appId, tail);
        var s := ProcessAll(step.0, c, appId, tail);
        NoContactTrans(r.log, step.0.log, s.0.log);
        var n := |records|;
        assert seq(n, i requires 0 <= i < n => Counts(r.updated + i + 1, r.contactUpdated))
            == [Counts(r.updated + 1, r.contactUpdated)] + seq(n - 1, i requires 0 <= i < n - 1 => Counts(step.0.updated + i + 1, r.contactUpdated));
      }
    } else {
      assert r.log[..|r.log|] == r.log;
    }
  }

  /** The chain started from a log without contact writes and zero counters keeps both properties. */
  lemma ChainNoContact(r1: Run, c: SyncConfig, appId: AppId, records: seq<Rec>)
    requires |c.childAppSettings| > 0 && !ContactEnabled(c)
    requires r1.updated == 0 && r1.contactUpdated == 0 && r1.progress == []
    requires forall q :: q in r1.log ==> !q.PutRecords?
    ensures var r := Outcome(ProcessAll(r1, c, appId, records));
            && r.0.contactUpdated == 0
            && (forall q :: q in r.0.log ==> !q.PutRecords?)
            && (r.1.Success? ==> r.1.value.contactUpdated == 0
                                 && r.0.progress == seq(r.1.value.updated, i requires 0 <= i < r.1.value.updated => Counts(i + 1, 0)))
  {
    ProcessAllNoContact(r1, c, appId, records);
    var s := ProcessAll(r1, c, appId, records);
    forall q | q in s.0.log ensures !q.PutRecords? {
      var i :| 0 <= i < |s.0.log| && s.0.log[i] == q;
      if i < |r1.log| {
        assert s.0.log[i] == s.0.log[..|r1.log|][i];
        assert r1.log[i] in r1.log;
      }
    }
  }

  lemma SyncParentsNoContact(snap: Snapshot, c: SyncConfig, appId: AppId)
    requires |c.childAppSettings| > 0 && !ContactEnabled(c)
    ensures var r := SyncParents(snap, c, appId);
            && r.0.contactUpdated == 0
            && (forall q :: q in r.0.log ==> !q.PutRecords?)
            && (r.1.Success? ==> r.1.value.contactUpdated == 0
                                 && r.0.progress == seq(r.1.value.updated, i requires 0 <= i < r.1.value.updated => Counts(i + 1, 0)))
  {
    var f := FetchParents(snap, appId);
    FetchParentsSpec(snap, appId);
    assert forall q :: q in f.0 ==> q.GetRecords?;
    if f.1.Success? && |f.1.value| > 0 {
      ChainNoContact(Run(snap, f.0, 0, 0, []), c, appId, f.1.value);
    }
  }

  /**
    Without a fully configured contact app no contact record is ever written:
    `contactUpdated` stays 0, and after each parent `onProgress` receives (k, 0).
   */
  lemma RunSyncNoContact(config: Option<SyncConfig>, appId: AppId, snap: Snapshot)
    requires config.Some? && !ContactEnabled(config.value)
    ensures var r := RunSync(config, appId, snap);
            && r.0.contactUpdated == 0
            && (forall q :: q in r.0.log ==> !q.PutRecords?)
            && (r.1.Success? ==> r.1.value.contactUpdated == 0
                                 && r.0.progress == seq(r.1.value.updated, i requires 0 <= i < r.1.value.updated => Counts(i + 1, 0)))
  {
    if Accepted(config.value) {
      SyncParentsNoContact(snap, config.value, appId);
    }
  }
}
