/**
  The plugin settings screen of js/config.js, with the DOM read as plain inputs: the REST
  path prefix for guest spaces, the default configuration, the normalisation and legacy
  migration applied when a stored configuration is loaded, the rows read from the child
  table, and the ordered checks and saved shape of `saveConfig`.
 */
module Settings {
  import opened Wrappers
  import opened JsValue
  import Text
  import opened SyncCompute


  // ---------------------------------------------------------------------------------------
  // getApiBasePath

  const GUEST: string := "/guest/"

  /** "/guest/" occurs at position `i`. */
  predicate GuestPrefix(s: string, i: nat)
  {
    i + 7 <= |s| && s[i..i + 7] == GUEST
  }

  /** `/\/guest\/(\d+)\//` matches at position `i`: "/guest/", at least one digit, then "/". */
  predicate GuestAt(s: string, i: nat)
  {
    GuestPrefix(s, i)
    && var k := DigitRun(s[i + 7..]);
       k > 0 && i + 7 + k < |s| && s[i + 7 + k] == '/'
  }

  /** The digits captured by a match at `i`. */
  function GuestDigits(s: string, i: nat): (ds: string)
    requires GuestAt(s, i)
    ensures |ds| > 0 && forall j :: 0 <= j < |ds| ==> IsDigit(ds[j])
  {
    s[i + 7..][..DigitRun(s[i + 7..])]
  }

  /** The leftmost match at or after `i`. */
  function FirstGuest(s: string, i: nat): (r: Option<nat>)
    requires i <= |s|
    ensures r.Some? ==> i <= r.value <= |s| && GuestAt(s, r.value) && forall m :: i <= m < r.value ==> !GuestAt(s, m)
    ensures r.None? ==> forall m :: i <= m <= |s| ==> !GuestAt(s, m)
    decreases |s| - i
  {
    if GuestAt(s, i) then Some(i)
    else if i == |s| then None
    else FirstGuest(s, i + 1)
  }

  /**
    `getApiBasePath()` for `location.pathname` (None when there is no `location`): the guest
    space path with the digits of the leftmost match, or "/k/v1" when nothing matches.
   */
  function ApiBasePath(pathname: Option<string>): (r: string)
    ensures pathname.None? ==> r == "/k/v1"
    ensures pathname.Some? && (forall m :: 0 <= m <= |pathname.value| ==> !GuestAt(pathname.value, m)) ==> r == "/k/v1"
    ensures pathname.Some? && FirstGuest(pathname.value, 0).Some? ==>
              r == "/k/guest/" + GuestDigits(pathname.value, FirstGuest(pathname.value, 0).value) + "/v1"
  {
    if pathname.None? then "/k/v1"
    else
      match FirstGuest(pathname.value, 0)
      case None => "/k/v1"
      case Some(i) => "/k/guest/" + GuestDigits(pathname.value, i) + "/v1"
  }

  /** A page of guest space `n` gets the REST prefix of that space, whatever follows the space number. */
  lemma GuestSpaceRoundTrip(n: nat, rest: string)
    ensures ApiBasePath(Some("/k/guest/" + NatText(n) + "/" + rest)) == "/k/guest/" + NatText(n) + "/v1"
  {
    var ds := NatText(n);
    var s := "/k/guest/" + ds + "/" + rest;
    GuestAtSpace(ds, rest);
    assert !GuestAt(s, 0) && !GuestAt(s, 1) by { assert s[1] == 'k'; }
    assert FirstGuest(s, 0) == Some(2);
  }

  /** In "/k/guest/<ds>/…" the match at position 2 captures `ds`. */
  lemma GuestAtSpace(ds: string, rest: string)
    requires |ds| > 0 && forall j :: 0 <= j < |ds| ==> IsDigit(ds[j])
    ensures var s := "/k/guest/" + ds + "/" + rest;
            GuestAt(s, 2) && GuestDigits(s, 2) == ds
  {
    var s := "/k/guest/" + ds + "/" + rest;
    assert s[2..9] == GUEST;
    assert s[9..] == ds + "/" + rest;
    DigitRunPrefix(ds, "/" + rest);
    assert s[9 + |ds|] == '/';
    assert s[9..][..|ds|] == ds;
  }

  /** The digit run of digits followed by a non-digit is exactly those digits. */
  lemma {:induction false} DigitRunPrefix(ds: string, tail: string)
    requires forall j :: 0 <= j < |ds| ==> IsDigit(ds[j])
    requires |tail| > 0 && !IsDigit(tail[0])
    ensures DigitRun(ds + tail) == |ds|
  {
    if |ds| > 0 {
      assert (ds + tail)[1..] == ds[1..] + tail;
      DigitRunPrefix(ds[1..], tail);
    }
  }

  /** A "/guest/" that is not followed by digits and a "/" leaves the prefix at "/k/v1". */
  lemma GuestWithoutDigits(s: string)
    requires forall m: nat :: GuestPrefix(s, m) && m + 7 < |s| ==> !IsDigit(s[m + 7])
    ensures ApiBasePath(Some(s)) == "/k/v1"
  {
    forall m | 0 <= m <= |s| ensures !GuestAt(s, m) {
      if m + 7 < |s| {
        assert s[m + 7..][0] == s[m + 7];
      }
    }
  }

  // ---------------------------------------------------------------------------------------
  // getDefaultConfig and loadConfig

  const MODE_PARENT: string := "parent"
  const MODE_CONTACT: string := "contact"

  /** `getDefaultConfig()`. */
  function DefaultConfig(): map<string, Value>
  {
    map[
      "mode" := Str(MODE_PARENT),
      "childAppSettings" := Arr([]),
      "parentGroupIdField" := Str(""),
      "contactAppId" := Str(""),
      "contactGroupIdField" := Str(""),
      "contactTargetField" := Str(""),
      "contactAppReadOnlyFields" := Arr([]),
      "contactAppListViewFilter" := Bool(false)
    ]
  }

  /** What `loadConfig` goes on with: the mode shown, and the normalised configuration object. */
  datatype Loaded = Loaded(mode: string, config: map<string, Value>)

  /** `x` when it is an array, `[]` otherwise. */
  function ArrayOrEmpty(x: Value): (r: Value)
    ensures r.Arr? && (x.Arr? ==> r == x)
  {
    if x.Arr? then x else Arr([])
  }

  /** The legacy `parentTargetField` is copied into the first row when rows exist and that row has no target. */
  predicate Migrates(c: map<string, Value>, rows: seq<Value>)
  {
    "parentTargetField" in c && Truthy(c["parentTargetField"]) && |rows| > 0 && !Truthy(Get(rows[0], "targetFieldCode"))
  }

  /**
    The normalisation block of `loadConfig` on a stored object `c`: the mode is "contact"
    only for exactly "contact"; `contactAppReadOnlyFields` and `childAppSettings` become
    `[]` unless they are arrays; then the legacy migration. None when the migration would
    write to a first row that is not an object, which throws in strict mode.
   */
  function Normalize(c: map<string, Value>): Option<Loaded>
  {
    var mode := if Get(Obj(c), "mode") == Str(MODE_CONTACT) then MODE_CONTACT else MODE_PARENT;
    var ro := ArrayOrEmpty(Get(Obj(c), "contactAppReadOnlyFields"));
    var cs := ArrayOrEmpty(Get(Obj(c), "childAppSettings"));
    var c1 := c["contactAppReadOnlyFields" := ro]["childAppSettings" := cs];
    if !Migrates(c, cs.items) then Some(Loaded(mode, c1))
    else if !cs.items[0].Obj? then None
    else
      var first := Obj(cs.items[0].props["targetFieldCode" := c["parentTargetField"]]);
      Some(Loaded(mode, c1["childAppSettings" := Arr([first] + cs.items[1..])]))
  }

  /**
    `loadConfig` for the parsed stored configuration (None when there is none or it does
    not parse): a missing or falsy configuration is replaced by the default; a truthy
    primitive makes the first property assignment throw (None).
   */
  function LoadConfig(parsed: Option<Value>): (r: Option<Loaded>)
    ensures r.Some? ==> (r.value.mode == MODE_CONTACT <==> parsed.Some? && parsed.value.Obj? && Get(parsed.value, "mode") == Str(MODE_CONTACT))
    ensures r.Some? ==> r.value.mode == MODE_CONTACT || r.value.mode == MODE_PARENT
    ensures r.None? <==> (parsed.Some? && Truthy(parsed.value) && !parsed.value.Obj?)
                         || (parsed.Some? && parsed.value.Obj? && Normalize(parsed.value.props).None?)
  {
    if parsed.None? || !Truthy(parsed.value) then Normalize(DefaultConfig())
    else if !parsed.value.Obj? then None
    else Normalize(parsed.value.props)
  }

  /** With nothing stored the screen shows the default configuration in parent mode. */
  lemma LoadMissing()
    ensures LoadConfig(None) == Some(Loaded(MODE_PARENT, DefaultConfig()))
  {
    var d := DefaultConfig();
    assert d["contactAppReadOnlyFields" := Arr([])]["childAppSettings" := Arr([])] == d;
  }

  /**
    After loading, both lists are arrays, an array read-only list is kept as stored, every
    other stored entry is kept, and nothing else is added.
   */
  lemma LoadConfigShape(c: map<string, Value>)
    requires Normalize(c).Some?
    ensures var n := Normalize(c).value.config;
            && n.Keys == c.Keys + {"contactAppReadOnlyFields", "childAppSettings"}
            && n["contactAppReadOnlyFields"].Arr? && n["childAppSettings"].Arr?
            && ("contactAppReadOnlyFields" in c && c["contactAppReadOnlyFields"].Arr? ==> n["contactAppReadOnlyFields"] == c["contactAppReadOnlyFields"])
            && (forall k :: k in c && k != "contactAppReadOnlyFields" && k != "childAppSettings" ==> n[k] == c[k])
  {
  }

  /**
    The legacy migration: when it applies, the first row gains `parentTargetField` as its
    target and every other row is unchanged; otherwise the rows are the stored array, or
    `[]` when that is not an array.
   */
  lemma LoadConfigMigration(c: map<string, Value>)
    requires Normalize(c).Some?
    ensures var rows := ArrayOrEmpty(Get(Obj(c), "childAppSettings")).items;
            var out := Normalize(c).value.config["childAppSettings"].items;
            && |out| == |rows|
            && (forall i :: 1 <= i < |rows| ==> out[i] == rows[i])
            && (Migrates(c, rows) ==> rows[0].Obj? && out[0] == Obj(rows[0].props["targetFieldCode" := c["parentTargetField"]]))
            && (!Migrates(c, rows) ==> out == rows)
  {
  }

  /** Loading what loading produced changes nothing: the normalisation is idempotent. */
  lemma LoadConfigIdempotent(parsed: Option<Value>)
    requires LoadConfig(parsed).Some?
    ensures var l := LoadConfig(parsed).value;
            LoadConfig(Some(Obj(l.config))) == Some(l)
  {
    var c := if parsed.None? || !Truthy(parsed.value) then DefaultConfig() else parsed.value.props;
    NormalizeIdempotent(c);
  }

  lemma NormalizeIdempotent(c: map<string, Value>)
    requires Normalize(c).Some?
    ensures Normalize(Normalize(c).value.config) == Normalize(c)
  {
    var n := Normalize(c).value.config;
    LoadConfigShape(c);
    NoSecondMigration(c);
    assert Get(Obj(n), "mode") == Get(Obj(c), "mode");
    assert n["contactAppReadOnlyFields" := ArrayOrEmpty(Get(Obj(n), "contactAppReadOnlyFields"))]["childAppSettings" := ArrayOrEmpty(Get(Obj(n), "childAppSettings"))] == n;
  }

  /** A migrated first row has a target, so a second load migrates nothing. */
  lemma NoSecondMigration(c: map<string, Value>)
    requires Normalize(c).Some?
    ensures var n := Normalize(c).value.config;
            !Migrates(n, n["childAppSettings"].items)
  {
    var n := Normalize(c).value.config;
    var rows := n["childAppSettings"].items;
    LoadConfigShape(c);
    LoadConfigMigration(c);
    var old0 := ArrayOrEmpty(Get(Obj(c), "childAppSettings")).items;
    if Migrates(c, old0) {
      assert Get(rows[0], "targetFieldCode") == c["parentTargetField"];
    }
  }

  // ---------------------------------------------------------------------------------------
  // collectChildRows

  /**
    The selects of one child-table row, as `value` strings; None when the row has no such
    element.
   */
  datatype RowInputs = RowInputs(
    appId: Option<string>,
    groupIdField: Option<string>,
    mode: Option<string>,
    copySource: Option<string>,
    targetField: Option<string>,
    contactTarget: Option<string>)

  /**
    `(el && el.value) || fallback`: with an empty fallback the element's value, "" when
    there is no element; with a non-empty fallback never empty.
   */
  function ValueOr(el: Option<string>, fallback: string): (r: string)
    ensures el.Some? && el.value != "" ==> r == el.value
    ensures (el.None? || el.value == "") ==> r == fallback
    ensures fallback == "" ==> r == el.GetOr("")
    ensures fallback != "" ==> r != ""
  {
    if el.Some? && el.value != "" then el.value else fallback
  }

  /** One row of `collectChildRows`. */
  function CollectRow(tr: RowInputs): ChildSetting
  {
    ChildSetting(
      ValueOr(tr.appId, ""),
      ValueOr(tr.groupIdField, ""),
      ValueOr(tr.mode, MODE_EXISTENCE),
      ValueOr(tr.copySource, ""),
      ValueOr(tr.targetField, ""),
      Text.Trim(ValueOr(tr.contactTarget, "")))
  }

  /**
    `collectChildRows(tbody)` over the rows of the table: one setting per row, in order,
    each select read as its value ("" when the row lacks it), the mode defaulting to
    "existence" and the contact target trimmed.
   */
  function CollectChildRows(trs: seq<RowInputs>): (rows: seq<ChildSetting>)
    ensures |rows| == |trs|
    ensures forall i :: 0 <= i < |trs| ==> rows[i] == CollectRow(trs[i])
    ensures forall i :: 0 <= i < |trs| ==>
              && rows[i].appId == trs[i].appId.GetOr("")
              && rows[i].groupIdFieldCode == trs[i].groupIdField.GetOr("")
              && rows[i].copySourceFieldCode == trs[i].copySource.GetOr("")
              && rows[i].targetFieldCode == trs[i].targetField.GetOr("")
              && rows[i].contactTargetField == Text.Trim(trs[i].contactTarget.GetOr(""))
    ensures forall i :: 0 <= i < |trs| ==>
              && rows[i].mode != ""
              && (rows[i].mode == MODE_EXISTENCE <==> trs[i].mode.GetOr("") == "" || trs[i].mode.value == MODE_EXISTENCE)
  {
    seq(|trs|, i requires 0 <= i < |trs| => CollectRow(trs[i]))
  }

  /**
    A collected row never has an empty mode, reads a missing or empty select as "" (as
    "existence" for the mode) and a filled one as its value.
   */
  lemma CollectRowDefaults(tr: RowInputs)
    ensures var r := CollectRow(tr);
            && r.mode != ""
            && (r.mode == MODE_EXISTENCE <==> tr.mode.None? || tr.mode.value == "" || tr.mode.value == MODE_EXISTENCE)
            && (r.appId == "" <==> tr.appId.None? || tr.appId.value == "")
            && (tr.appId.Some? ==> r.appId == tr.appId.value)
            && (tr.groupIdField.Some? ==> r.groupIdFieldCode == tr.groupIdField.value)
            && (tr.copySource.Some? ==> r.copySourceFieldCode == tr.copySource.value)
            && (tr.targetField.Some? ==> r.targetFieldCode == tr.targetField.value)
            && (tr.groupIdField.None? ==> r.groupIdFieldCode == "")
            && (tr.copySource.None? ==> r.copySourceFieldCode == "")
            && (tr.targetField.None? ==> r.targetFieldCode == "")
  {
    var mode, app := ValueOr(tr.mode, MODE_EXISTENCE), ValueOr(tr.appId, "");
    var group, copy, target := ValueOr(tr.groupIdField, ""), ValueOr(tr.copySource, ""), ValueOr(tr.targetField, "");
    var r := CollectRow(tr);
    assert r.mode == mode && r.appId == app;
    assert r.groupIdFieldCode == group && r.copySourceFieldCode == copy && r.targetFieldCode == target;
  }

  /** The contact target of a collected row is the trimmed select value, and is its own trim. */
  lemma CollectRowContactTrimmed(tr: RowInputs)
    ensures var r := CollectRow(tr);
            && r.contactTargetField == Text.Trim(r.contactTargetField)
            && r.contactTargetField == (if tr.contactTarget.Some? then Text.Trim(tr.contactTarget.value) else "")
  {
    Text.TrimIdempotent(ValueOr(tr.contactTarget, ""));
  }

  // ---------------------------------------------------------------------------------------
  // saveConfig

  /**
    What `saveConfig` reads from the page: whether the contact-mode radio is checked, the
    `data-field-code` of every checked read-only box ("" when absent), the list-view
    filter box, the three parent-mode selects (None when absent) and the child table
    (None when there is no `#child-app-tbody`).
   */
  datatype SaveForm = SaveForm(
    contactMode: bool,
    checkedCodes: seq<string>,
    listFilter: Option<bool>,
    parentGroup: Option<string>,
    contactApp: Option<string>,
    contactGroup: Option<string>,
    tbody: Option<seq<RowInputs>>)

  /**
    Why nothing is saved: one of the four messages `saveConfig` shows (a child row is
    reported 1-based), or the TypeError `collectChildRows(null)` throws.
   */
  datatype SaveError =
    | MissingParentGroupId
    | MissingContactApp
    | MissingContactGroupId
    | IncompleteRow(row: nat)
    | NoChildTable

  /** A row with an app chosen but no join key or no target field. */
  predicate Incomplete(r: ChildSetting)
  {
    r.appId != "" && r.appId != "undefined" && (r.groupIdFieldCode == "" || r.targetFieldCode == "")
  }

  /** The first incomplete row at or after `i`. */
  function FirstIncomplete(rows: seq<ChildSetting>, i: nat): (r: Option<nat>)
    requires i <= |rows|
    ensures r.Some? ==> i <= r.value < |rows| && Incomplete(rows[r.value]) && forall j :: i <= j < r.value ==> !Incomplete(rows[j])
    ensures r.None? ==> forall j :: i <= j < |rows| ==> !Incomplete(rows[j])
    decreases |rows| - i
  {
    if i == |rows| then None
    else if Incomplete(rows[i]) then Some(i)
    else FirstIncomplete(rows, i + 1)
  }

  /** A child row as it is stored: an object of six strings. */
  function StoredRow(s: ChildSetting): Value
  {
    Obj(map[
      "appId" := Str(s.appId),
      "groupIdFieldCode" := Str(s.groupIdFieldCode),
      "mode" := Str(s.mode),
      "copySourceFieldCode" := Str(s.copySourceFieldCode),
      "targetFieldCode" := Str(s.targetFieldCode),
      "contactTargetField" := Str(s.contactTargetField)
    ])
  }

  /** The contact-mode configuration: the mode, the read-only codes and the list filter flag, nothing more. */
  function ContactConfig(codes: seq<string>, listFilter: bool): map<string, Value>
  {
    map[
      "mode" := Str(MODE_CONTACT),
      "contactAppReadOnlyFields" := Arr(seq(|codes|, i requires 0 <= i < |codes| => Str(codes[i]))),
      "contactAppListViewFilter" := Bool(listFilter)
    ]
  }

  /** The parent-mode configuration; the contact target is always written as "". */
  function ParentConfig(rows: seq<ChildSetting>, parentGroup: string, contactApp: string, contactGroup: string): map<string, Value>
  {
    map[
      "mode" := Str(MODE_PARENT),
      "childAppSettings" := Arr(seq(|rows|, i requires 0 <= i < |rows| => StoredRow(rows[i]))),
      "parentGroupIdField" := Str(parentGroup),
      "contactAppId" := Str(contactApp),
      "contactGroupIdField" := Str(contactGroup),
      "contactTargetField" := Str("")
    ]
  }

  /** The codes of the checked boxes that have one, in page order. */
  function NonEmpty(codes: seq<string>): (r: seq<string>)
    ensures forall x :: x in r <==> x in codes && x != ""
  {
    if |codes| == 0 then []
    else (if codes[0] != "" then [codes[0]] else []) + NonEmpty(codes[1..])
  }

  /** The trimmed value of a select, "" when it is absent. */
  function Field(el: Option<string>): string
  {
    Text.Trim(el.GetOr(""))
  }

  /** The parent-mode checks on the trimmed selects, before the child table is read. */
  function CheckHeader(parentGroup: string, contactApp: string, contactGroup: string): Option<SaveError>
  {
    if parentGroup == "" then Some(MissingParentGroupId)
    else if contactApp == "" || contactApp == "undefined" then Some(MissingContactApp)
    else if contactGroup == "" then Some(MissingContactGroupId)
    else None
  }

  /** The parent-mode save on the trimmed selects and the child table. */
  function SaveParent(parentGroup: string, contactApp: string, contactGroup: string, tbody: Option<seq<RowInputs>>): Result<map<string, Value>, SaveError>
  {
    if CheckHeader(parentGroup, contactApp, contactGroup).Some? then Failure(CheckHeader(parentGroup, contactApp, contactGroup).value)
    else if tbody.None? then Failure(NoChildTable)
    else SaveRows(CollectChildRows(tbody.value), parentGroup, contactApp, contactGroup)
  }

  /** The child-row check and the saved object, once the header checks have passed. */
  function SaveRows(rows: seq<ChildSetting>, parentGroup: string, contactApp: string, contactGroup: string): Result<map<string, Value>, SaveError>
  {
    match FirstIncomplete(rows, 0)
    case Some(i) => Failure(IncompleteRow(i + 1))
    case None => Success(ParentConfig(rows, parentGroup, contactApp, contactGroup))
  }

  /**
    `saveConfig()`: the configuration handed to `setConfig`, or why nothing is saved.
    Contact mode always saves; parent mode checks the join key, the contact app and the
    contact join key in that order, then the child rows.
   */
  function SaveConfig(f: SaveForm): (r: Result<map<string, Value>, SaveError>)
    ensures f.contactMode ==> r == Success(ContactConfig(NonEmpty(f.checkedCodes), f.listFilter.GetOr(false)))
    ensures f.contactMode ==>
              && r.value.Keys == {"mode", "contactAppReadOnlyFields", "contactAppListViewFilter"}
              && r.value["mode"] == Str(MODE_CONTACT)
    ensures !f.contactMode && r.Success? ==>
              && f.tbody.Some?
              && Field(f.parentGroup) != "" && Field(f.contactApp) != "" && Field(f.contactApp) != "undefined"
              && Field(f.contactGroup) != ""
              && r.value == ParentConfig(CollectChildRows(f.tbody.value), Field(f.parentGroup), Field(f.contactApp), Field(f.contactGroup))
              && r.value["mode"] == Str(MODE_PARENT) && r.value["contactTargetField"] == Str("")
              && forall i :: 0 <= i < |f.tbody.value| ==> !Incomplete(CollectRow(f.tbody.value[i]))
  {
    if f.contactMode then Success(ContactConfig(NonEmpty(f.checkedCodes), f.listFilter.GetOr(false)))
    else SaveParent(Field(f.parentGroup), Field(f.contactApp), Field(f.contactGroup), f.tbody)
  }

  /**
    The order of the parent-mode checks: each message is shown exactly when every earlier
    check passed and its own fails.
   */
  lemma SaveParentOrder(pg: string, ca: string, cg: string, tbody: Option<seq<RowInputs>>)
    ensures SaveParent(pg, ca, cg, tbody) == Failure(MissingParentGroupId) <==> pg == ""
    ensures SaveParent(pg, ca, cg, tbody) == Failure(MissingContactApp) <==> pg != "" && (ca == "" || ca == "undefined")
    ensures SaveParent(pg, ca, cg, tbody) == Failure(MissingContactGroupId) <==>
              pg != "" && ca != "" && ca != "undefined" && cg == ""
  {
  }

  /** The same order for the form: the selects are trimmed before they are checked. */
  lemma SaveConfigOrder(f: SaveForm)
    requires !f.contactMode
    ensures SaveConfig(f) == Failure(MissingParentGroupId) <==> Field(f.parentGroup) == ""
    ensures SaveConfig(f) == Failure(MissingContactApp) <==>
              Field(f.parentGroup) != "" && (Field(f.contactApp) == "" || Field(f.contactApp) == "undefined")
    ensures SaveConfig(f) == Failure(MissingContactGroupId) <==>
              Field(f.parentGroup) != "" && Field(f.contactApp) != "" && Field(f.contactApp) != "undefined" && Field(f.contactGroup) == ""
  {
    SaveParentOrder(Field(f.parentGroup), Field(f.contactApp), Field(f.contactGroup), f.tbody);
  }

  /**
    A child row is reported exactly when the three header checks pass and it is the first
    row with an app but without join key or target; the report is 1-based.
   */
  lemma SaveParentRowError(pg: string, ca: string, cg: string, tbody: Option<seq<RowInputs>>, n: nat)
    ensures SaveParent(pg, ca, cg, tbody) == Failure(IncompleteRow(n)) <==>
              CheckHeader(pg, ca, cg).None? && tbody.Some? && 0 < n <= |tbody.value|
              && Incomplete(CollectChildRows(tbody.value)[n - 1])
              && forall j :: 0 <= j < n - 1 ==> !Incomplete(CollectChildRows(tbody.value)[j])
  {
    if CheckHeader(pg, ca, cg).None? && tbody.Some? {
      SaveRowsError(CollectChildRows(tbody.value), pg, ca, cg, n);
    }
  }

  lemma SaveRowsError(rows: seq<ChildSetting>, pg: string, ca: string, cg: string, n: nat)
    ensures SaveRows(rows, pg, ca, cg) == Failure(IncompleteRow(n)) <==>
              0 < n <= |rows| && Incomplete(rows[n - 1]) && forall j :: 0 <= j < n - 1 ==> !Incomplete(rows[j])
  {
    FirstIncompleteIs(rows, n);
  }

  /** The first incomplete row is the one with no incomplete row before it. */
  lemma FirstIncompleteIs(rows: seq<ChildSetting>, n: nat)
    ensures FirstIncomplete(rows, 0) == Some(n - 1) <==>
              0 < n <= |rows| && Incomplete(rows[n - 1]) && forall j :: 0 <= j < n - 1 ==> !Incomplete(rows[j])
  {
    var first := FirstIncomplete(rows, 0);
    if 0 < n <= |rows| && Incomplete(rows[n - 1]) && (forall j :: 0 <= j < n - 1 ==> !Incomplete(rows[j])) {
      assert first.Some?;
      if first.value < n - 1 {
        assert false;
      }
      if first.value > n - 1 {
        assert false;
      }
    }
  }

  /** Rows without an app never stop the save. */
  lemma SaveParentRowsWithoutApp(pg: string, ca: string, cg: string, trs: seq<RowInputs>)
    requires CheckHeader(pg, ca, cg).None?
    requires forall i :: 0 <= i < |trs| ==> trs[i].appId.None? || trs[i].appId.value == ""
    ensures SaveParent(pg, ca, cg, Some(trs)).Success?
  {
    var rows := CollectChildRows(trs);
    forall i | 0 <= i < |rows| ensures !Incomplete(rows[i]) {
      assert rows[i].appId == "";
    }
  }

  /**
    What a parent-mode save writes: the six entries, mode "parent", the checked selects,
    the collected rows none of which is incomplete, and an empty contact target.
   */
  lemma SavedParentShape(pg: string, ca: string, cg: string, tbody: Option<seq<RowInputs>>)
    requires SaveParent(pg, ca, cg, tbody).Success?
    ensures var v := SaveParent(pg, ca, cg, tbody).value;
            && tbody.Some?
            && v == ParentConfig(CollectChildRows(tbody.value), pg, ca, cg)
            && pg != "" && ca != "" && ca != "undefined" && cg != ""
            && forall i :: 0 <= i < |tbody.value| ==> !Incomplete(CollectRow(tbody.value[i]))
  {
  }

  /** The parent-mode configuration has exactly six entries, mode "parent" and an empty contact target. */
  lemma ParentConfigShape(rows: seq<ChildSetting>, pg: string, ca: string, cg: string)
    ensures var v := ParentConfig(rows, pg, ca, cg);
            && v.Keys == {"mode", "childAppSettings", "parentGroupIdField", "contactAppId", "contactGroupIdField", "contactTargetField"}
            && v["mode"] == Str(MODE_PARENT) && v["contactTargetField"] == Str("")
            && v["childAppSettings"] == Arr(seq(|rows|, i requires 0 <= i < |rows| => StoredRow(rows[i])))
            && v["parentGroupIdField"] == Str(pg) && v["contactAppId"] == Str(ca) && v["contactGroupIdField"] == Str(cg)
  {
  }

  /** A contact-mode save writes exactly three entries. */
  lemma SavedContactShape(f: SaveForm)
    requires f.contactMode
    ensures var v := SaveConfig(f).value;
            && v.Keys == {"mode", "contactAppReadOnlyFields", "contactAppListViewFilter"}
            && v["mode"] == Str(MODE_CONTACT)
            && v["contactAppListViewFilter"].Bool?
            && v["contactAppReadOnlyFields"].Arr?
            && forall x :: Str(x) in v["contactAppReadOnlyFields"].items <==> x in f.checkedCodes && x != ""
  {
    var codes := NonEmpty(f.checkedCodes);
    var items := ContactConfig(codes, f.listFilter.GetOr(false))["contactAppReadOnlyFields"].items;
    forall x ensures Str(x) in items <==> x in codes {
      if Str(x) in items {
        var i :| 0 <= i < |items| && items[i] == Str(x);
        assert codes[i] == x;
      }
      if x in codes {
        var i :| 0 <= i < |codes| && codes[i] == x;
        assert items[i] == Str(x);
      }
    }
  }

  /**
    Saving and then loading: the screen comes back in the mode it was saved in and keeps
    every saved entry; the list the saved mode does not write comes back empty, and
    nothing is migrated since no legacy field is written.
   */
  lemma SaveLoadRoundTrip(f: SaveForm)
    requires SaveConfig(f).Success?
    ensures var v := SaveConfig(f).value;
            LoadConfig(Some(Obj(v))) == Some(if f.contactMode then Loaded(MODE_CONTACT, v["childAppSettings" := Arr([])])
                                             else Loaded(MODE_PARENT, v["contactAppReadOnlyFields" := Arr([])]))
  {
    if f.contactMode {
      ContactLoad(NonEmpty(f.checkedCodes), f.listFilter.GetOr(false));
    } else {
      var pg, ca, cg := Field(f.parentGroup), Field(f.contactApp), Field(f.contactGroup);
      SavedParentShape(pg, ca, cg, f.tbody);
      ParentLoad(CollectChildRows(f.tbody.value), pg, ca, cg);
    }
  }

  lemma ContactLoad(codes: seq<string>, listFilter: bool)
    ensures var v := ContactConfig(codes, listFilter);
            LoadConfig(Some(Obj(v))) == Some(Loaded(MODE_CONTACT, v["childAppSettings" := Arr([])]))
  {
    var v := ContactConfig(codes, listFilter);
    assert v["contactAppReadOnlyFields" := v["contactAppReadOnlyFields"]] == v;
  }

  lemma ParentLoad(rows: seq<ChildSetting>, pg: string, ca: string, cg: string)
    ensures var v := ParentConfig(rows, pg, ca, cg);
            LoadConfig(Some(Obj(v))) == Some(Loaded(MODE_PARENT, v["contactAppReadOnlyFields" := Arr([])]))
  {
    var v := ParentConfig(rows, pg, ca, cg);
    assert v["contactAppReadOnlyFields" := Arr([])]["childAppSettings" := v["childAppSettings"]] == v["contactAppReadOnlyFields" := Arr([])];
  }
}
