/**
  Two helpers of js/desktop.js that read the plugin configuration and record values:
  `getReadOnlyFieldCodes`, the fields the record screens lock, and the list of distinct
  values `loadFieldValues` offers in a filter row's condition select.
 */
module DesktopFields {
  import opened Wrappers
  import opened JsValue
  import Text
  import Distinct
  import Sorting

  // ---------------------------------------------------------------------------------------
  // getReadOnlyFieldCodes

  /** The trimmed target of one `childAppSettings` row, or `None` when the row adds nothing. */
  function RowTarget(row: Value): Option<string>
  {
    var t := Get(row, "targetFieldCode");
    if Truthy(row) && Truthy(t) && Text.Trim(ToText(t)) != "" then Some(Text.Trim(ToText(t))) else None
  }

  /** The trimmed targets of the rows, in row order. */
  function RowTargets(rows: seq<Value>): (codes: seq<string>)
    ensures forall c :: c in codes <==> exists row :: row in rows && RowTarget(row) == Some(c)
  {
    if |rows| == 0 then []
    else
      var init := RowTargets(rows[..|rows| - 1]);
      assert forall row :: row in rows <==> row in rows[..|rows| - 1] || row == rows[|rows| - 1];
      match RowTarget(rows[|rows| - 1])
      case None => init
      case Some(c) => init + [c]
  }

  /** Strings as JavaScript values. */
  function Strs(codes: seq<string>): (r: seq<Value>)
    ensures |r| == |codes| && forall i :: 0 <= i < |codes| ==> r[i] == Str(codes[i])
  {
    seq(|codes|, i requires 0 <= i < |codes| => Str(codes[i]))
  }

  /** `v.length` is truthy: a non-empty array or string, or an object with a truthy `length` property. */
  predicate LengthTruthy(v: Value)
  {
    match v
    case Arr(items) => |items| > 0
    case Str(s) => |s| > 0
    case Obj(props) => "length" in props && Truthy(props["length"])
    case _ => false
  }

  /**
    `getReadOnlyFieldCodes(config)`. In parent mode `childAppSettings.forEach` is called on
    whatever has a truthy `length`: on anything but an array it throws, here `None`.
   */
  function ReadOnlyFieldCodes(config: Value): (r: Option<seq<Value>>)
    ensures !Truthy(config) ==> r == Some([])
    ensures Truthy(config) && Get(config, "mode") == Str("contact") ==>
              r == Some(if Get(config, "contactAppReadOnlyFields").Arr? then Get(config, "contactAppReadOnlyFields").items else [])
    ensures (&& Truthy(config) && Get(config, "mode") != Str("contact")
             && (Get(config, "mode") != Str("parent") || !LengthTruthy(Get(config, "childAppSettings")))) ==> r == Some([])
    ensures r.None? <==> Truthy(config) && Get(config, "mode") == Str("parent")
                         && LengthTruthy(Get(config, "childAppSettings")) && !Get(config, "childAppSettings").Arr?
  {
    if !Truthy(config) then Some([])
    else if Get(config, "mode") == Str("contact") then
      var list := Get(config, "contactAppReadOnlyFields");
      Some(if list.Arr? then list.items else [])
    else if Get(config, "mode") == Str("parent") && LengthTruthy(Get(config, "childAppSettings")) then
      match Get(config, "childAppSettings")
      case Arr(rows) =>
        var codes := RowTargets(rows);
        Some(Strs(Distinct.FirstOccurrences(codes, |codes|)))
      case _ => None
    else Some([])
  }

  /**
    In parent mode with settings rows, the codes are the trimmed non-empty targets, each
    once, in the order of their first appearance.
   */
  lemma ReadOnlyParentCodes(config: Value)
    requires Truthy(config) && Get(config, "mode") == Str("parent")
    requires Get(config, "childAppSettings").Arr? && |Get(config, "childAppSettings").items| > 0
    ensures var rows := Get(config, "childAppSettings").items;
            var codes := RowTargets(rows);
            && ReadOnlyFieldCodes(config) == Some(Strs(Distinct.Dedup(codes)))
            && Distinct.NoDup(Distinct.Dedup(codes))
            && (forall c :: c in Distinct.Dedup(codes) <==> exists row :: row in rows && RowTarget(row) == Some(c))
            && (forall a, b :: 0 <= a < b < |Distinct.Dedup(codes)| ==>
                  Distinct.IndexOf(codes, Distinct.Dedup(codes)[a]) < Distinct.IndexOf(codes, Distinct.Dedup(codes)[b]))
  {
    var codes := RowTargets(Get(config, "childAppSettings").items);
    ReadOnlyParentValue(config);
    Distinct.DedupSpec(codes);
  }

  lemma ReadOnlyParentValue(config: Value)
    requires Truthy(config) && Get(config, "mode") == Str("parent")
    requires Get(config, "childAppSettings").Arr? && |Get(config, "childAppSettings").items| > 0
    ensures ReadOnlyFieldCodes(config) == Some(Strs(Distinct.Dedup(RowTargets(Get(config, "childAppSettings").items))))
  {
    var rows := Get(config, "childAppSettings").items;
    var codes := RowTargets(rows);
    assert LengthTruthy(Get(config, "childAppSettings")) && Get(config, "mode") != Str("contact");
    assert ReadOnlyFieldCodes(config) == Some(Strs(Distinct.FirstOccurrences(codes, |codes|)));
    Distinct.FirstOccurrencesDedup(codes, |codes|);
    assert codes[..|codes|] == codes;
  }

  // ---------------------------------------------------------------------------------------
  // loadFieldValues

  /**
    The raw value of a record's field: the field's `value`, or the first element when that
    is an array; undefined or null when there is nothing to read.
   */
  function RawValue(record: Value, fieldCode: string): Value
  {
    var f := Get(record, fieldCode);
    if Truthy(f) && !IsNullish(Get(f, "value")) then
      var v := Get(f, "value");
      if v.Arr? then (if |v.items| > 0 then v.items[0] else Undefined) else v
    else Null
  }

  /**
    The text offered for a raw value: an object with `code` or `value` gives its `code`
    when that is not null and its `value` otherwise; the text is trimmed, and null,
    undefined and "" give "".
   */
  function NormalizeValue(raw: Value): (v: string)
    ensures v == Text.Trim(v)
  {
    var picked := if raw.Obj? && ("code" in raw.props || "value" in raw.props) then
                    (if !IsNullish(Get(raw, "code")) then Get(raw, "code") else Get(raw, "value"))
                  else raw;
    var t := if !IsNullish(picked) && picked != Str("") then Text.Trim(ToText(picked)) else "";
    Text.TrimIdempotent(ToText(picked));
    t
  }

  /** The non-empty normalised values of the records, in record order, repeats included. */
  function Candidates(records: seq<Value>, fieldCode: string): (cs: seq<string>)
    ensures forall i :: 0 <= i < |cs| ==> cs[i] != "" && Text.Trim(cs[i]) == cs[i]
  {
    if |records| == 0 then []
    else
      var init := Candidates(records[..|records| - 1], fieldCode);
      var raw := RawValue(records[|records| - 1], fieldCode);
      var v := if IsNullish(raw) then "" else NormalizeValue(raw);
      if v == "" then init else init + [v]
  }

  /**
    The property names every plain object inherits from `Object.prototype`; reading one of
    them on `{}` gives a truthy value.
   */
  const PrototypeNames: set<string> := {
    "constructor", "hasOwnProperty", "isPrototypeOf", "propertyIsEnumerable", "toLocaleString",
    "toString", "valueOf", "__proto__", "__defineGetter__", "__defineSetter__",
    "__lookupGetter__", "__lookupSetter__"}

  /**
    The list as the source builds it: a value is pushed unless `set[v]` is truthy, and
    `set` is a plain object, so a value naming an inherited property is never pushed.
   */
  function DistinctAsWritten(cs: seq<string>): seq<string>
  {
    if |cs| == 0 then []
    else
      var acc := DistinctAsWritten(cs[..|cs| - 1]);
      var v := cs[|cs| - 1];
      if v in acc || v in PrototypeNames then acc else acc + [v]
  }

  /**
    The records of a response: `resp.records || []`. Any other truthy value makes `forEach`
    throw into the catch, and so does a null or undefined response, both giving [].
   */
  function ResponseRecords(response: Value): seq<Value>
  {
    var records := Get(response, "records");
    if records.Arr? then records.items else []
  }

  /** A null or undefined record makes `r[fieldCode]` throw into the catch, which gives []. */
  predicate HasNullishRecord(records: seq<Value>)
  {
    exists i :: 0 <= i < |records| && IsNullish(records[i])
  }

  /**
    `loadFieldValues(fieldCode, done)` as written: the list `done` receives. `appId` is ""
    when the app id is unknown; `response` is `None` when the request is rejected.
   */
  function LoadFieldValuesAsWritten(appId: string, fieldCode: string, response: Option<Value>): seq<string>
  {
    if appId == "" || fieldCode == "" || response.None? || HasNullishRecord(ResponseRecords(response.value)) then []
    else Sorting.Sort(DistinctAsWritten(Candidates(ResponseRecords(response.value), fieldCode)))
  }

  /** `loadFieldValues` with the evidently intended de-duplication: every value once. */
  function LoadFieldValues(appId: string, fieldCode: string, response: Option<Value>): seq<string>
  {
    if appId == "" || fieldCode == "" || response.None? || HasNullishRecord(ResponseRecords(response.value)) then []
    else Sorting.Sort(Distinct.Dedup(Candidates(ResponseRecords(response.value), fieldCode)))
  }

  /** Sorting the de-duplicated values: ascending, without repeats, and with the same members. */
  lemma SortedDistinct(cs: seq<string>)
    ensures var r := Sorting.Sort(Distinct.Dedup(cs));
            && Sorting.Sorted(r)
            && Distinct.NoDup(r)
            && forall v :: v in r <==> v in cs
  {
    var d := Distinct.Dedup(cs);
    Distinct.DedupSpec(cs);
    Sorting.SortSpec(d);
    var r := Sorting.Sort(d);
    Distinct.NoDupPermutation(d, r);
    forall v ensures v in r <==> v in d {
      assert v in r <==> v in multiset(r);
      assert v in d <==> v in multiset(d);
    }
  }

  /**
    The offered values are sorted, distinct, trimmed and non-empty, and they are exactly the
    normalised values of the records; nothing is offered without an app, a field, or an
    answer, nor when a record is null or undefined.
   */
  lemma LoadFieldValuesSpec(appId: string, fieldCode: string, response: Option<Value>)
    ensures var r := LoadFieldValues(appId, fieldCode, response);
            && (appId == "" || fieldCode == "" || response.None? ==> r == [])
            && (response.Some? && HasNullishRecord(ResponseRecords(response.value)) ==> r == [])
            && Sorting.Sorted(r)
            && Distinct.NoDup(r)
            && (forall i :: 0 <= i < |r| ==> r[i] != "" && Text.Trim(r[i]) == r[i])
            && (response.Some? && appId != "" && fieldCode != "" && !HasNullishRecord(ResponseRecords(response.value)) ==>
                  forall v :: v in r <==> v in Candidates(ResponseRecords(response.value), fieldCode))
  {
    if appId == "" || fieldCode == "" || response.None? || HasNullishRecord(ResponseRecords(response.value)) {
      assert LoadFieldValues(appId, fieldCode, response) == [];
    } else {
      var cs := Candidates(ResponseRecords(response.value), fieldCode);
      assert LoadFieldValues(appId, fieldCode, response) == Sorting.Sort(Distinct.Dedup(cs));
      OfferedCandidates(cs);
    }
  }

  /** The sorted, de-duplicated candidates are trimmed and non-empty, like the candidates. */
  lemma OfferedCandidates(cs: seq<string>)
    requires forall i :: 0 <= i < |cs| ==> cs[i] != "" && Text.Trim(cs[i]) == cs[i]
    ensures var r := Sorting.Sort(Distinct.Dedup(cs));
            && Sorting.Sorted(r)
            && Distinct.NoDup(r)
            && (forall v :: v in r <==> v in cs)
            && (forall i :: 0 <= i < |r| ==> r[i] != "" && Text.Trim(r[i]) == r[i])
  {
    SortedDistinct(cs);
    var r := Sorting.Sort(Distinct.Dedup(cs));
    forall i | 0 <= i < |r| ensures r[i] != "" && Text.Trim(r[i]) == r[i] {
      assert r[i] in r;
      var j :| 0 <= j < |cs| && cs[j] == r[i];
    }
  }

  /** As written, a value that names an inherited property is never offered. */
  lemma {:induction false} AsWrittenDropsPrototypeNames(cs: seq<string>)
    ensures forall v :: v in DistinctAsWritten(cs) ==> v in cs && v !in PrototypeNames
  {
    if |cs| > 0 {
      AsWrittenDropsPrototypeNames(cs[..|cs| - 1]);
    }
  }

  /** As written and intended agree when no value names an inherited property. */
  lemma {:induction false} AsWrittenAgrees(cs: seq<string>)
    requires forall i :: 0 <= i < |cs| ==> cs[i] !in PrototypeNames
    ensures DistinctAsWritten(cs) == Distinct.Dedup(cs)
  {
    if |cs| > 0 {
      AsWrittenAgrees(cs[..|cs| - 1]);
    }
  }

  /** As written, a record value naming an inherited property is not offered, though the intended list offers it. */
  lemma PrototypeNameDropped(appId: string, fieldCode: string, response: Option<Value>, v: string)
    requires appId != "" && fieldCode != "" && response.Some? && !HasNullishRecord(ResponseRecords(response.value))
    requires v in Candidates(ResponseRecords(response.value), fieldCode) && v in PrototypeNames
    ensures v !in LoadFieldValuesAsWritten(appId, fieldCode, response)
    ensures v in LoadFieldValues(appId, fieldCode, response)
  {
    var cs := Candidates(ResponseRecords(response.value), fieldCode);
    assert LoadFieldValuesAsWritten(appId, fieldCode, response) == Sorting.Sort(DistinctAsWritten(cs));
    assert LoadFieldValues(appId, fieldCode, response) == Sorting.Sort(Distinct.Dedup(cs));
    AsWrittenDropsPrototypeNames(cs);
    Sorting.SortSpec(DistinctAsWritten(cs));
    assert v !in multiset(DistinctAsWritten(cs));
    SortedDistinct(cs);
  }

  /** The one record `{f: {value: "constructor"}}` yields the value "constructor". */
  lemma ConstructorCandidate()
    ensures Candidates([Obj(map["f" := Obj(map["value" := Str("constructor")])])], "f") == ["constructor"]
  {
    var rec := Obj(map["f" := Obj(map["value" := Str("constructor")])]);
    assert RawValue(rec, "f") == Str("constructor");
    ConstructorNormalized();
    assert [rec][..0] == [];
  }

  lemma ConstructorNormalized()
    ensures NormalizeValue(Str("constructor")) == "constructor"
  {
    Text.TrimFixed("constructor");
  }

  /**
    A response with one record whose field holds "constructor": the intended list offers
    it, the list as written does not.
   */
  lemma PrototypeNameCounterexample()
    ensures var response := Obj(map["records" := Arr([Obj(map["f" := Obj(map["value" := Str("constructor")])])])]);
            && "constructor" !in LoadFieldValuesAsWritten("1", "f", Some(response))
            && "constructor" in LoadFieldValues("1", "f", Some(response))
  {
    var rec := Obj(map["f" := Obj(map["value" := Str("constructor")])]);
    var response := Obj(map["records" := Arr([rec])]);
    assert ResponseRecords(response) == [rec];
    assert !HasNullishRecord([rec]);
    ConstructorCandidate();
    PrototypeNameDropped("1", "f", Some(response), "constructor");
  }
}
