/**
  The per-parent computation of js/sync.js: for one parent record and each child-app
  setting, look up the newest child record with the same join value and turn it into
  the value written to the parent (`computeValueForOneRow`), then collect those values
  by target field (`computeAllValuesForParent`).
 */
module SyncCompute {
  import opened Wrappers
  import opened JsValue
  import QueryLiteral
  import opened Store

  const LABEL_SUBMITTED: string := "提出済"
  const LABEL_NOT_SUBMITTED: string := "未提出"
  const MODE_EXISTENCE: string := "existence"

  /** One row of `childAppSettings`. */
  datatype ChildSetting = ChildSetting(
    appId: AppId,
    groupIdFieldCode: string,
    mode: string,
    copySourceFieldCode: string,
    targetFieldCode: string,
    contactTargetField: string)

  /** What one setting contributes for one parent: a target field and its value. */
  datatype RowValue = RowValue(targetFieldCode: string, value: string)

  /** The result of `computeAllValuesForParent`. */
  datatype ParentValues = ParentValues(id: string, groupIdValue: string, valuesByField: map<string, string>)

  /** The clauses after the condition of the child query: newest record first, one record. */
  const CHILD_TAIL: string := " order by 作成日時 desc limit 1"

  /** The query of `getChildRecords`, in the store's clause syntax. */
  function ChildQuery(field: string, v: string): string
  {
    field + " = \"" + QueryLiteral.Escape(v) + "\"" + CHILD_TAIL
  }

  /** The child tail is the newest-first clauses written out, and reads back as them. */
  lemma ChildTailClauses()
    ensures CHILD_TAIL == " " + ClausesText(NEWEST_ONE)
    ensures ParseTail(CHILD_TAIL) == Some(NEWEST_ONE)
  {
    assert NatText(1) == "1";
    assert LimitText(Some(1), None) == "limit " + "1";
    assert OrderText(Order(CREATED_AT, true)) == "order by " + CREATED_AT + " desc";
    assert ClausesText(NEWEST_ONE) == "order by " + CREATED_AT + " desc" + (" " + ("limit " + "1"));
    assert " " + ("order by " + CREATED_AT + " desc" + (" " + ("limit " + "1"))) == CHILD_TAIL;
    assert Writable(NEWEST_ONE);
    ClausesRoundTrip(NEWEST_ONE);
  }

  /**
    The child query compares `field` with exactly `v`: the store reads the literal after
    `field = "` back as `v`, and what follows is the newest-first ordering and `limit 1`.
   */
  lemma ChildQueryLiteral(field: string, v: string)
    ensures var q := ChildQuery(field, v);
            && |q| >= |field| + 4 && q[..|field| + 4] == field + " = \""
            && QueryLiteral.ReadLiteral(q[|field| + 4..]) == Some((v, CHILD_TAIL))
            && ParseTail(CHILD_TAIL) == Some(NEWEST_ONE)
  {
    var q := ChildQuery(field, v);
    assert q == (field + " = \"") + (QueryLiteral.Escape(v) + "\"" + CHILD_TAIL);
    assert q[|field| + 4..] == QueryLiteral.Escape(v) + "\"" + CHILD_TAIL;
    QueryLiteral.ReadLiteralEscape(v, CHILD_TAIL);
    ChildTailClauses();
  }

  /** The clauses after the child condition as js/sync.js spells them, call-style. */
  const CHILD_TAIL_AS_WRITTEN: string := " " + ("orderBy(" + "\"作成日時\", \"desc\") limit(1)")

  /** The call-style clauses are outside the store's syntax, so every child GET is rejected. */
  lemma ChildTailAsWrittenRejected(snap: Snapshot, app: AppId, field: string, v: string)
    ensures ParseTail(CHILD_TAIL_AS_WRITTEN).None?
    ensures QueryLatest(snap, app, field, v, CHILD_TAIL_AS_WRITTEN).Failure?
  {
    var q := CHILD_TAIL_AS_WRITTEN[1..];
    assert q == "orderBy(" + "\"作成日時\", \"desc\") limit(1)";
    assert q[..8] == "orderBy(";
    CallStyleOrderRejected(q);
  }

  /** The child app exists and has the join field and the creation-time field the query orders by. */
  predicate ChildReady(snap: Snapshot, s: ChildSetting)
  {
    s.appId in snap && s.groupIdFieldCode in snap[s.appId].fieldCodes && CREATED_AT in snap[s.appId].fieldCodes
  }

  /** The GET of `getChildRecords`: the newest record carrying the join value, if any. */
  function GetLatestChild(snap: Snapshot, app: AppId, field: string, v: string): (r: Result<seq<Rec>, ApiError>)
    ensures r.Success? <==> app in snap && field in snap[app].fieldCodes && CREATED_AT in snap[app].fieldCodes
    ensures r.Success? ==> |r.value| <= 1
    ensures r.Success? ==> (|r.value| == 0 <==> Matching(snap[app].records, field, v) == [])
    ensures r.Success? && |r.value| == 1 ==>
              var m := Matching(snap[app].records, field, v);
              r.value[0] in m && forall x :: x in m ==> x.createdAt <= r.value[0].createdAt
  {
    var a :- CheckFields(snap, app, {field, CREATED_AT});
    var m := Matching(a.records, field, v);
    Success(if |m| == 0 then [] else [Latest(m)])
  }

  /** That GET is the store's answer to the condition followed by the child tail. */
  lemma GetLatestChildAnswers(snap: Snapshot, app: AppId, field: string, v: string)
    ensures GetLatestChild(snap, app, field, v) == QueryLatest(snap, app, field, v, CHILD_TAIL)
  {
    ChildTailClauses();
  }

  /** The copy path's reading of the newest child record: "" for an empty code, a missing field or a null value. */
  function CopyText(latest: Rec, field: string): string
  {
    if field == "" then "" else FieldText(latest.fields, field)
  }

  /** The value derived from the child records returned by the query. */
  function ValueFromChildren(s: ChildSetting, children: seq<Rec>): string
  {
    if s.mode == MODE_EXISTENCE then
      (if |children| > 0 then LABEL_SUBMITTED else LABEL_NOT_SUBMITTED)
    else if |children| == 0 then ""
    else CopyText(children[0], s.copySourceFieldCode)
  }

  /**
    `computeValueForOneRow`: the parent's join value is read with the setting's own
    `groupIdFieldCode`; the result is the request issued and either the row value or the
    store's rejection.
   */
  function ComputeValueForOneRow(snap: Snapshot, record: Rec, s: ChildSetting): (r: (Request, Result<RowValue, ApiError>))
    ensures r.0 == GetRecords(s.appId, ChildQuery(s.groupIdFieldCode, FieldText(record.fields, s.groupIdFieldCode)))
    ensures r.1.Success? <==> ChildReady(snap, s)
    ensures r.1.Success? ==> r.1.value.targetFieldCode == s.targetFieldCode
  {
    var v := FieldText(record.fields, s.groupIdFieldCode);
    var req := GetRecords(s.appId, ChildQuery(s.groupIdFieldCode, v));
    match GetLatestChild(snap, s.appId, s.groupIdFieldCode, v)
    case Failure(e) => (req, Failure(e))
    case Success(children) => (req, Success(RowValue(s.targetFieldCode, ValueFromChildren(s, children))))
  }

  /** Child records of the setting's app that share the parent's join value. */
  function Matches(snap: Snapshot, record: Rec, s: ChildSetting): seq<Rec>
    requires s.appId in snap
  {
    Matching(snap[s.appId].records, s.groupIdFieldCode, FieldText(record.fields, s.groupIdFieldCode))
  }

  /**
    Existence mode: the value is `提出済` exactly when some child record carries the
    parent's join value, and `未提出` otherwise.
   */
  lemma ExistenceValue(snap: Snapshot, record: Rec, s: ChildSetting)
    requires s.mode == MODE_EXISTENCE
    requires ComputeValueForOneRow(snap, record, s).1.Success?
    ensures var value := ComputeValueForOneRow(snap, record, s).1.value.value;
            && (value == LABEL_SUBMITTED <==>
                 exists c :: c in snap[s.appId].records
                   && FieldText(c.fields, s.groupIdFieldCode) == FieldText(record.fields, s.groupIdFieldCode))
            && (value == LABEL_SUBMITTED || value == LABEL_NOT_SUBMITTED)
  {
    var m := Matches(snap, record, s);
    MatchingMembers(snap[s.appId].records, s.groupIdFieldCode, FieldText(record.fields, s.groupIdFieldCode));
    if |m| > 0 {
      assert m[0] in m;
    }
  }

  /**
    Any other mode copies: "" when no child record carries the join value, otherwise the
    copy field of a child record whose creation time is the greatest among those that do.
   */
  lemma CopyValue(snap: Snapshot, record: Rec, s: ChildSetting)
    requires s.mode != MODE_EXISTENCE
    requires ComputeValueForOneRow(snap, record, s).1.Success?
    ensures var value := ComputeValueForOneRow(snap, record, s).1.value.value;
            var m := Matches(snap, record, s);
            && (|m| == 0 ==> value == "")
            && (|m| > 0 ==> exists c :: c in m && value == CopyText(c, s.copySourceFieldCode)
                                       && forall x :: x in m ==> x.createdAt <= c.createdAt)
            && (s.copySourceFieldCode == "" ==> value == "")
  {
    var v := FieldText(record.fields, s.groupIdFieldCode);
    var children := GetLatestChild(snap, s.appId, s.groupIdFieldCode, v).value;
    var m := Matches(snap, record, s);
    if |m| > 0 {
      var c := children[0];
      assert c in m && forall x :: x in m ==> x.createdAt <= c.createdAt;
    }
  }

  /** The non-empty target field codes of the settings. */
  function TargetCodes(settings: seq<ChildSetting>): set<string>
  {
    set s | s in settings && s.targetFieldCode != "" :: s.targetFieldCode
  }

  /** Settings with a non-empty target field, in their original order (`filter(s => s.targetFieldCode)`). */
  function ValidSettings(settings: seq<ChildSetting>): (r: seq<ChildSetting>)
    ensures |r| <= |settings|
    ensures forall x :: x in r <==> x in settings && x.targetFieldCode != ""
  {
    if |settings| == 0 then []
    else (if settings[0].targetFieldCode != "" then [settings[0]] else []) + ValidSettings(settings[1..])
  }

  /**
    Evaluates the settings one after another, stopping at the first rejected request; the
    source starts them together under `Promise.all`, which yields the same values in the
    same order.
   */
  function ComputeRows(snap: Snapshot, record: Rec, settings: seq<ChildSetting>)
    : (r: (seq<Request>, Result<seq<RowValue>, ApiError>))
    ensures forall q :: q in r.0 ==> q.GetRecords?
  {
    if |settings| == 0 then ([], Success([]))
    else
      var first := ComputeValueForOneRow(snap, record, settings[0]);
      match first.1
      case Failure(e) => ([first.0], Failure(e))
      case Success(row) =>
        var rest := ComputeRows(snap, record, settings[1..]);
        match rest.1
        case Failure(e) => ([first.0] + rest.0, Failure(e))
        case Success(rows) => ([first.0] + rest.0, Success([row] + rows))
  }

  /** The rows succeed exactly when every setting's own request does. */
  lemma {:induction false} ComputeRowsSuccess(snap: Snapshot, record: Rec, settings: seq<ChildSetting>)
    ensures ComputeRows(snap, record, settings).1.Success?
            <==> forall i :: 0 <= i < |settings| ==> ComputeValueForOneRow(snap, record, settings[i]).1.Success?
  {
    if |settings| > 0 {
      ComputeRowsSuccess(snap, record, settings[1..]);
      assert forall i :: 1 <= i < |settings| ==> settings[i] == settings[1..][i - 1];
    }
  }

  /** On success row `i` and request `i` are those of setting `i`. */
  lemma {:induction false} ComputeRowsSpec(snap: Snapshot, record: Rec, settings: seq<ChildSetting>)
    requires ComputeRows(snap, record, settings).1.Success?
    ensures var r := ComputeRows(snap, record, settings);
            && |r.1.value| == |settings| && |r.0| == |settings|
            && forall i :: 0 <= i < |settings| ==>
                 && ComputeValueForOneRow(snap, record, settings[i]) == (r.0[i], Success(r.1.value[i]))
  {
    if |settings| > 0 {
      ComputeRowsSpec(snap, record, settings[1..]);
      assert forall i :: 1 <= i < |settings| ==> settings[i] == settings[1..][i - 1];
    }
  }

  /** The `results.forEach` that builds `valuesByField`: a later row overwrites an earlier one with the same target. */
  function CollectValues(rows: seq<RowValue>): map<string, string>
  {
    if |rows| == 0 then map[]
    else
      var acc := CollectValues(rows[..|rows| - 1]);
      var last := rows[|rows| - 1];
      if last.targetFieldCode != "" then acc[last.targetFieldCode := last.value] else acc
  }

  /** Row `i` is the last row aiming at its target field. */
  predicate LastFor(rows: seq<RowValue>, i: int)
    requires 0 <= i < |rows|
  {
    forall j :: i < j < |rows| ==> rows[j].targetFieldCode != rows[i].targetFieldCode
  }

  /** The non-empty targets of the rows. */
  function RowTargets(rows: seq<RowValue>): set<string>
  {
    set i | 0 <= i < |rows| && rows[i].targetFieldCode != "" :: rows[i].targetFieldCode
  }

  lemma RowTargetsSnoc(rows: seq<RowValue>)
    requires |rows| > 0
    ensures var last := rows[|rows| - 1];
            RowTargets(rows) == RowTargets(rows[..|rows| - 1]) + (if last.targetFieldCode != "" then {last.targetFieldCode} else {})
  {
    var init := rows[..|rows| - 1];
    assert forall i :: 0 <= i < |init| ==> init[i] == rows[i];
  }

  /** The keys of `valuesByField` are exactly the non-empty targets. */
  lemma {:induction false} CollectValuesKeys(rows: seq<RowValue>)
    ensures CollectValues(rows).Keys == RowTargets(rows)
  {
    if |rows| > 0 {
      CollectValuesKeys(rows[..|rows| - 1]);
      RowTargetsSnoc(rows);
    }
  }

  /** Each key of `valuesByField` holds the value of the last row aiming at it. */
  lemma {:induction false} CollectValuesLast(rows: seq<RowValue>, i: int)
    requires 0 <= i < |rows| && rows[i].targetFieldCode != "" && LastFor(rows, i)
    ensures rows[i].targetFieldCode in CollectValues(rows)
    ensures CollectValues(rows)[rows[i].targetFieldCode] == rows[i].value
  {
    var init := rows[..|rows| - 1];
    if i < |init| {
      assert init[i] == rows[i];
      assert LastFor(init, i) by {
        forall j | i < j < |init| ensures init[j].targetFieldCode != init[i].targetFieldCode {
          assert init[j] == rows[j];
        }
      }
      CollectValuesLast(init, i);
    }
  }

  /**
    `computeAllValuesForParent`. The join value kept for the contact lookup is read with the
    FIRST setting's `groupIdFieldCode` (whether or not that setting has a target); each
    child query reads it with its own setting's code.
   */
  function ComputeAllValuesForParent(snap: Snapshot, record: Rec, settings: seq<ChildSetting>)
    : (r: (seq<Request>, Result<ParentValues, ApiError>))
    requires |settings| > 0
    ensures forall q :: q in r.0 ==> q.GetRecords?
    ensures r.1.Success? ==>
              && r.1.value.id == record.id
              && r.1.value.groupIdValue == FieldText(record.fields, settings[0].groupIdFieldCode)
  {
    var valid := ValidSettings(settings);
    var rows := ComputeRows(snap, record, valid);
    match rows.1
    case Failure(e) => (rows.0, Failure(e))
    case Success(values) =>
      (rows.0, Success(ParentValues(record.id, FieldText(record.fields, settings[0].groupIdFieldCode), CollectValues(values))))
  }

  lemma TargetsOfRows(settings: seq<ChildSetting>, rows: seq<RowValue>)
    requires |rows| == |ValidSettings(settings)|
    requires forall i :: 0 <= i < |rows| ==> rows[i].targetFieldCode == ValidSettings(settings)[i].targetFieldCode
    ensures RowTargets(rows) == TargetCodes(settings)
  {
    var valid := ValidSettings(settings);
    forall k | k in RowTargets(rows) ensures k in TargetCodes(settings) {
      var i :| 0 <= i < |rows| && rows[i].targetFieldCode != "" && rows[i].targetFieldCode == k;
      assert valid[i] in valid;
    }
    forall k | k in TargetCodes(settings) ensures k in RowTargets(rows) {
      var s :| s in settings && s.targetFieldCode != "" && s.targetFieldCode == k;
      assert s in valid;
      var i :| 0 <= i < |valid| && valid[i] == s;
      assert rows[i].targetFieldCode == k;
    }
  }

  /**
    The fields written to the parent are exactly the non-empty targets of the settings, and
    each carries the value computed for the last setting with that target.
   */
  lemma ValuesByFieldSpec(snap: Snapshot, record: Rec, settings: seq<ChildSetting>)
    requires |settings| > 0
    requires ComputeAllValuesForParent(snap, record, settings).1.Success?
    ensures var valid := ValidSettings(settings);
            var vbf := ComputeAllValuesForParent(snap, record, settings).1.value.valuesByField;
            && vbf.Keys == TargetCodes(settings)
            && forall i :: 0 <= i < |valid| && (forall j :: i < j < |valid| ==> valid[j].targetFieldCode != valid[i].targetFieldCode) ==>
                 && valid[i].targetFieldCode in vbf
                 && ComputeValueForOneRow(snap, record, valid[i]).1 == Success(RowValue(valid[i].targetFieldCode, vbf[valid[i].targetFieldCode]))
  {
    var valid := ValidSettings(settings);
    ComputeRowsSpec(snap, record, valid);
    var rows := ComputeRows(snap, record, valid).1.value;
    assert forall i :: 0 <= i < |valid| ==> ComputeValueForOneRow(snap, record, valid[i]).1 == Success(rows[i]);
    CollectValuesKeys(rows);
    TargetsOfRows(settings, rows);
    forall i | 0 <= i < |valid| && (forall j :: i < j < |valid| ==> valid[j].targetFieldCode != valid[i].targetFieldCode)
      ensures valid[i].targetFieldCode in CollectValues(rows)
      ensures ComputeValueForOneRow(snap, record, valid[i]).1 == Success(RowValue(valid[i].targetFieldCode, CollectValues(rows)[valid[i].targetFieldCode]))
    {
      assert LastFor(rows, i);
      CollectValuesLast(rows, i);
    }
  }

  /**
    The per-parent computation resolves exactly when every setting with a target names an
    existing child app that has its join field and its creation-time field; settings
    without a target issue no request.
   */
  lemma ComputeAllSucceeds(snap: Snapshot, record: Rec, settings: seq<ChildSetting>)
    requires |settings| > 0
    ensures ComputeAllValuesForParent(snap, record, settings).1.Success?
            <==> forall s :: s in settings && s.targetFieldCode != "" ==> ChildReady(snap, s)
  {
    var valid := ValidSettings(settings);
    ComputeRowsSuccess(snap, record, valid);
    if forall s :: s in settings && s.targetFieldCode != "" ==> ChildReady(snap, s) {
      assert forall i :: 0 <= i < |valid| ==> valid[i] in valid;
    } else {
      var s :| s in settings && s.targetFieldCode != "" && !ChildReady(snap, s);
      assert s in valid;
    }
  }

  /** No setting survives the filter exactly when every target field code is empty. */
  lemma ValidSettingsEmpty(settings: seq<ChildSetting>)
    ensures |ValidSettings(settings)| == 0 <==> forall s :: s in settings ==> s.targetFieldCode == ""
  {
    var valid := ValidSettings(settings);
    if |valid| > 0 {
      assert valid[0] in valid;
    }
  }
}
