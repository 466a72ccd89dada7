/**
  The two REST reads of the settings screen (js/config.js): the form fields of an app
  (`fetchFormFields`, with its per-app cache) and the paged app list (`fetchAppList`).
  The network is a parameter: the response the one GET would get, or the list of apps
  the server pages through together with the offsets whose request is rejected.
 */
module SettingsFetch {
  import opened Wrappers
  import opened JsValue
  import Text

  // ---------------------------------------------------------------------------------------
  // fetchFormFields

  const NO_APP_SELECTED: string := "アプリが選択されていません"
  const FIELDS_FAILED: string := "フィールド一覧の取得に失敗しました"

  /** One entry of the field list: the field code and its label (`p.label || code`). */
  datatype FieldItem = FieldItem(code: string, display: Value)

  /**
    Why the promise rejects: an Error with a message, or the TypeError reading
    `resp.properties` throws when the response is null or undefined.
   */
  datatype FieldError = Message(text: string) | PropertiesThrew

  /**
    The result of one call: the app keys a GET was issued for, the field cache
    afterwards, and the promise's outcome.
   */
  datatype FieldFetch = FieldFetch(requested: seq<string>, cache: map<string, set<FieldItem>>, result: Result<set<FieldItem>, FieldError>)

  /** `appId == null || String(appId).trim() === '' || String(appId) === 'undefined'`. */
  predicate InvalidAppId(appId: Value)
  {
    IsNullish(appId) || Text.Trim(ToText(appId)) == "" || ToText(appId) == "undefined"
  }

  /** A property is listed when it is truthy, has a truthy `type`, and its code does not start with "__". */
  predicate Listed(code: string, p: Value)
  {
    Truthy(p) && Truthy(Get(p, "type")) && !Text.StartsWith(code, "__")
  }

  function Label(code: string, p: Value): Value
  {
    if Truthy(Get(p, "label")) then Get(p, "label") else Str(code)
  }

  /** The listed entries of `resp.properties || {}`; properties that are not an object list nothing. */
  function FieldList(resp: Value): (r: set<FieldItem>)
    ensures forall item :: item in r <==>
              Get(resp, "properties").Obj? && item.code in Get(resp, "properties").props
              && Listed(item.code, Get(resp, "properties").props[item.code])
              && item.display == Label(item.code, Get(resp, "properties").props[item.code])
  {
    var props := Get(resp, "properties");
    if !props.Obj? then {}
    else set code | code in props.props && Listed(code, props.props[code]) :: FieldItem(code, Label(code, props.props[code]))
  }

  /**
    `fetchFormFields(appId)`, where `response` is what the GET on /app/form/fields would
    give (a rejection carries the error's message, "" when it has none). A null or
    undefined response rejects with the TypeError and caches nothing. The order of the
    list is left to the label sort, which is not part of this model.
   */
  function FetchFormFields(appId: Value, cache: map<string, set<FieldItem>>, response: Result<Value, string>): (r: FieldFetch)
    ensures InvalidAppId(appId) ==> r == FieldFetch([], cache, Failure(Message(NO_APP_SELECTED)))
    ensures !InvalidAppId(appId) && ToText(appId) in cache ==> r == FieldFetch([], cache, Success(cache[ToText(appId)]))
    ensures r.result.Success? ==> ToText(appId) in r.cache && r.result.value == r.cache[ToText(appId)]
    ensures r.requested == [] || r.requested == [ToText(appId)]
    ensures !InvalidAppId(appId) && ToText(appId) !in cache && response.Success? && IsNullish(response.value) ==>
              r == FieldFetch([ToText(appId)], cache, Failure(PropertiesThrew))
    ensures r.result.Failure? ==> r.cache == cache
  {
    if InvalidAppId(appId) then FieldFetch([], cache, Failure(Message(NO_APP_SELECTED)))
    else
      var key := ToText(appId);
      if key in cache then FieldFetch([], cache, Success(cache[key]))
      else
        match response
        case Failure(msg) => FieldFetch([key], cache, Failure(Message(if msg != "" then msg else FIELDS_FAILED)))
        case Success(resp) =>
          if IsNullish(resp) then FieldFetch([key], cache, Failure(PropertiesThrew))
          else
            var list := FieldList(resp);
            FieldFetch([key], cache[key := list], Success(list))
  }

  /** A second call for the same app answers from the cache, without a request, with the same list. */
  lemma FetchFormFieldsCached(appId: Value, cache: map<string, set<FieldItem>>, response: Result<Value, string>, later: Result<Value, string>)
    requires FetchFormFields(appId, cache, response).result.Success?
    ensures var first := FetchFormFields(appId, cache, response);
            FetchFormFields(appId, first.cache, later) == FieldFetch([], first.cache, first.result)
  {
  }

  /** A fresh fetch lists exactly the typed properties whose code does not start with "__". */
  lemma FetchFormFieldsFresh(appId: Value, cache: map<string, set<FieldItem>>, resp: Value, code: string)
    requires !InvalidAppId(appId) && ToText(appId) !in cache
    requires Get(resp, "properties").Obj? && code in Get(resp, "properties").props
    ensures var r := FetchFormFields(appId, cache, Success(resp));
            var p := Get(resp, "properties").props[code];
            && r.requested == [ToText(appId)]
            && r.result.Success?
            && (FieldItem(code, Label(code, p)) in r.result.value <==> Truthy(p) && Truthy(Get(p, "type")) && !Text.StartsWith(code, "__"))
  {
  }

  // ---------------------------------------------------------------------------------------
  // fetchAppList

  const APP_LIST_LIMIT: nat := 100
  const APPS_FAILED: string := "アプリ一覧の取得に失敗しました"

  /** One entry of the app list: the id as a string and the name. */
  datatype AppItem = AppItem(id: string, name: Value)

  /** `a.id != null ? a.id : a.appId`. */
  function RawAppId(a: Value): Value
  {
    if !IsNullish(Get(a, "id")) then Get(a, "id") else Get(a, "appId")
  }

  /**
    The entry pushed for one app, or None when it has no usable id; every entry has a
    name, the app's own when it is truthy and "アプリ" + id otherwise.
   */
  function Entry(a: Value): (r: Option<AppItem>)
    ensures r.None? <==> IsNullish(RawAppId(a)) || ToText(RawAppId(a)) == "undefined"
    ensures r.Some? ==> r.value.id == ToText(RawAppId(a))
    ensures r.Some? ==> r.value.name == (if Truthy(Get(a, "name")) then Get(a, "name") else Str("アプリ" + r.value.id))
    ensures r.Some? ==> Truthy(r.value.name) && (Truthy(Get(a, "name")) ==> r.value.name == Get(a, "name"))
  {
    var id := RawAppId(a);
    if IsNullish(id) || ToText(id) == "undefined" then None
    else Some(AppItem(ToText(id), if Truthy(Get(a, "name")) then Get(a, "name") else Str("アプリ" + ToText(id))))
  }

  /** The entries of a page, in page order. */
  function Entries(list: seq<Value>): seq<AppItem>
  {
    if |list| == 0 then []
    else (if Entry(list[0]).Some? then [Entry(list[0]).value] else []) + Entries(list[1..])
  }

  lemma {:induction false} EntriesAppend(a: seq<Value>, b: seq<Value>)
    ensures Entries(a + b) == Entries(a) + Entries(b)
  {
    if |a| > 0 {
      assert (a + b)[0] == a[0];
      assert (a + b)[1..] == a[1..] + b;
      EntriesAppend(a[1..], b);
      var h := if Entry(a[0]).Some? then [Entry(a[0]).value] else [];
      assert Entries(a + b) == h + (Entries(a[1..]) + Entries(b));
      assert h + (Entries(a[1..]) + Entries(b)) == (h + Entries(a[1..])) + Entries(b);
    } else {
      assert a + b == b;
    }
  }

  /** An entry is listed exactly when some app yields it. */
  lemma {:induction false} EntriesMembers(list: seq<Value>, item: AppItem)
    ensures item in Entries(list) <==> exists i :: 0 <= i < |list| && Entry(list[i]) == Some(item)
  {
    if |list| > 0 {
      EntriesMembers(list[1..], item);
      if exists i :: 0 <= i < |list[1..]| && Entry(list[1..][i]) == Some(item) {
        var i :| 0 <= i < |list[1..]| && Entry(list[1..][i]) == Some(item);
        assert Entry(list[i + 1]) == Some(item);
      }
      if exists i :: 0 <= i < |list| && Entry(list[i]) == Some(item) {
        var i :| 0 <= i < |list| && Entry(list[i]) == Some(item);
        if i > 0 {
          assert list[1..][i - 1] == list[i];
        }
      }
    }
  }

  /** The page the server returns for `?limit=100&offset=<offset>`. */
  function Page(apps: seq<Value>, offset: nat): (p: seq<Value>)
    requires offset <= |apps|
    ensures |p| <= APP_LIST_LIMIT
  {
    if offset + APP_LIST_LIMIT <= |apps| then apps[offset..offset + APP_LIST_LIMIT] else apps[offset..]
  }

  /**
    The request loop from `offset` on: `failing` maps the offsets whose request is
    rejected to the error's message ("" when it has none). A full page asks for the next
    one; a shorter page resolves with everything collected.
   */
  function AppsFrom(apps: seq<Value>, failing: map<nat, string>, offset: nat, acc: seq<AppItem>): (seq<nat>, Result<seq<AppItem>, string>)
    requires offset <= |apps|
    decreases |apps| - offset
  {
    if offset in failing then ([offset], Failure(if failing[offset] != "" then failing[offset] else APPS_FAILED))
    else
      var page := Page(apps, offset);
      var all := acc + Entries(page);
      if |page| < APP_LIST_LIMIT then ([offset], Success(all))
      else
        var rest := AppsFrom(apps, failing, offset + APP_LIST_LIMIT, all);
        ([offset] + rest.0, rest.1)
  }

  /** `fetchAppList()` against a server holding `apps`: the offsets requested, and the outcome. */
  function FetchAppList(apps: seq<Value>, failing: map<nat, string>): (seq<nat>, Result<seq<AppItem>, string>)
  {
    AppsFrom(apps, failing, 0, [])
  }

  /**
    With no rejection the loop asks for every page, one more than the number of full pages
    after `offset`, in steps of 100.
   */
  lemma {:induction false} AppsFromRequests(apps: seq<Value>, failing: map<nat, string>, offset: nat, acc: seq<AppItem>)
    requires offset <= |apps|
    requires forall o :: offset <= o <= |apps| ==> o !in failing
    decreases |apps| - offset
    ensures var r := AppsFrom(apps, failing, offset, acc);
            && |r.0| == (|apps| - offset) / 100 + 1
            && (forall i :: 0 <= i < |r.0| ==> r.0[i] == offset + 100 * i)
  {
    var page := Page(apps, offset);
    if |page| == APP_LIST_LIMIT {
      var next := offset + APP_LIST_LIMIT;
      AppsFromRequests(apps, failing, next, acc + Entries(page));
      var r := AppsFrom(apps, failing, offset, acc);
      var rest := AppsFrom(apps, failing, next, acc + Entries(page));
      forall i | 0 <= i < |r.0| ensures r.0[i] == offset + 100 * i {
        if i > 0 {
          assert r.0[i] == rest.0[i - 1];
        }
      }
    }
  }

  /** With no rejection the loop resolves with the entries of every app from `offset` on, after those collected. */
  lemma {:induction false} AppsFromResult(apps: seq<Value>, failing: map<nat, string>, offset: nat, acc: seq<AppItem>)
    requires offset <= |apps|
    requires forall o :: offset <= o <= |apps| ==> o !in failing
    decreases |apps| - offset
    ensures AppsFrom(apps, failing, offset, acc).1 == Success(acc + Entries(apps[offset..]))
  {
    var page := Page(apps, offset);
    if |page| < APP_LIST_LIMIT {
      assert page == apps[offset..];
    } else {
      var next := offset + APP_LIST_LIMIT;
      AppsFromResult(apps, failing, next, acc + Entries(page));
      assert apps[offset..] == page + apps[next..];
      EntriesAppend(page, apps[next..]);
      assert acc + Entries(page) + Entries(apps[next..]) == acc + Entries(apps[offset..]);
    }
  }

  /**
    `fetchAppList()` without rejections: it asks for offsets 0, 100, 200, … until a page is
    shorter than 100 (so one request more than the full pages) and lists every app with
    an id, in server order.
   */
  lemma FetchAppListSpec(apps: seq<Value>, failing: map<nat, string>)
    requires forall o :: 0 <= o <= |apps| ==> o !in failing
    ensures var r := FetchAppList(apps, failing);
            && |r.0| == |apps| / 100 + 1
            && (forall i :: 0 <= i < |r.0| ==> r.0[i] == 100 * i)
            && r.1 == Success(Entries(apps))
  {
    AppsFromRequests(apps, failing, 0, []);
    AppsFromResult(apps, failing, 0, []);
    assert apps[0..] == apps;
    assert [] + Entries(apps) == Entries(apps);
  }

  /**
    A rejection stops the loop: the outcome is a failure exactly when the last offset
    requested is a rejected one, and then it carries that rejection's message or the
    default one.
   */
  lemma {:induction false} AppsFromFailure(apps: seq<Value>, failing: map<nat, string>, offset: nat, acc: seq<AppItem>)
    requires offset <= |apps|
    decreases |apps| - offset
    ensures var r := AppsFrom(apps, failing, offset, acc);
            && |r.0| > 0 && r.0[0] == offset
            && (forall i :: 0 <= i < |r.0| - 1 ==> r.0[i] !in failing)
            && (r.1.Failure? <==> r.0[|r.0| - 1] in failing)
            && (r.1.Failure? ==> r.1.error == (if failing[r.0[|r.0| - 1]] != "" then failing[r.0[|r.0| - 1]] else APPS_FAILED))
  {
    if offset !in failing && |Page(apps, offset)| == APP_LIST_LIMIT {
      var next := offset + APP_LIST_LIMIT;
      AppsFromFailure(apps, failing, next, acc + Entries(Page(apps, offset)));
      var r := AppsFrom(apps, failing, offset, acc);
      var rest := AppsFrom(apps, failing, next, acc + Entries(Page(apps, offset)));
      assert r.0 == [offset] + rest.0;
      forall i | 0 <= i < |r.0| - 1 ensures r.0[i] !in failing {
        if i > 0 {
          assert r.0[i] == rest.0[i - 1];
        }
      }
      assert r.0[|r.0| - 1] == rest.0[|rest.0| - 1];
    }
  }
}
