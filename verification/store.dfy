/**
  An abstract, finite snapshot of the kintone record store and the handful of REST calls
  the plugin makes against it (GET and PUT on /k/v1/records, PUT on /k/v1/record). Each
  call is a pure function of the snapshot; a write returns the next snapshot. The
  rejections modelled are an unknown app, a query whose clauses fall outside the grammar
  below, a query or write naming a field the app does not have, a write to a record id
  the app does not have, and a batch larger than 100.

  Query grammar. The condition `field = "v"` reaches the store as its parts; what follows
  it is text, parsed as the store's documented syntax: an optional `order by <field>
  asc|desc`, then an optional `limit <n>`, then an optional `offset <n>`, separated by
  single spaces. A query with no `order by` is answered in snapshot order.
 */
module Store {
  import opened Wrappers
  import opened JsValue
  import Text

  type AppId = string

  /** A record: its `$id`, its `作成日時` as an ordering key, and the `.value` of every other field by code. */
  datatype Rec = Rec(id: string, createdAt: int, fields: map<string, Value>)

  /**
    One app: its records in `$id` ascending order (the order `order by $id asc` asks
    for, and the order a query without `order by` is answered in), the field codes of
    its form, and the `totalCount` its GET responses carry (None when the response has
    no totalCount).
   */
  datatype App = App(records: seq<Rec>, fieldCodes: set<string>, reportedTotal: Option<nat>)

  type Snapshot = map<AppId, App>

  datatype Reason =
    | NoSuchApp
    | NoSuchFields(codes: set<string>)
    | NoSuchRecord(id: string)
    | BatchTooLarge(size: nat)
    | BadQuery(query: string)
    | UnmodelledOrder

  /** The rejection of one REST call. */
  datatype ApiError = Rejected(app: AppId, reason: Reason)

  /** The body of one record update: the record id and `{ code: { value } }` for each field. */
  datatype Update = Update(id: string, fields: map<string, string>)

  /** One REST call, as the plugin issues it. */
  datatype Request =
    | GetRecords(app: AppId, query: string)
    | PutRecord(app: AppId, update: Update)
    | PutRecords(app: AppId, updates: seq<Update>)

  /** Largest number of records one PUT on /k/v1/records may carry. */
  const MAX_PUT_RECORDS: nat := 100

  /** A page of a GET on /k/v1/records. */
  datatype Page = Page(records: seq<Rec>, totalCount: Option<nat>)

  /** The code of the creation-time field every app has. */
  const CREATED_AT: string := "作成日時"

  /** Records one GET returns when its query has no `limit` clause. */
  const DEFAULT_LIMIT: nat := 100

  /** An `order by <field> asc` or `order by <field> desc` clause. */
  datatype Order = Order(field: string, desc: bool)

  /** The clauses after a query's condition, each optional. */
  datatype Clauses = Clauses(order: Option<Order>, limit: Option<nat>, offset: Option<nat>)

  /** Newest record first, one record: the only ordering by creation time the store answers here. */
  const NEWEST_ONE: Clauses := Clauses(Some(Order(CREATED_AT, true)), Some(1), None)

  /** Length of the leading run of characters other than a space. */
  function WordLen(s: string): (k: nat)
    ensures k <= |s|
    ensures forall i :: 0 <= i < k ==> s[i] != ' '
    ensures k == |s| || s[k] == ' '
  {
    if |s| > 0 && s[0] != ' ' then 1 + WordLen(s[1..]) else 0
  }

  /** What may follow a clause: the end of the query, or one space and the next clause. */
  function NextClause(rest: string): (r: Option<string>)
    ensures r.Some? <==> rest == "" || (|rest| > 1 && rest[0] == ' ')
    ensures r.Some? ==> rest == (if rest == "" then "" else " ") + r.value
  {
    if rest == "" then Some("")
    else if |rest| > 1 && rest[0] == ' ' then Some(rest[1..])
    else None
  }

  /** An optional `order by <field> asc|desc`: the clause read and the text after it. */
  function ParseOrder(s: string): Option<(Option<Order>, string)>
  {
    if !Text.StartsWith(s, "order by ") then Some((None, s))
    else
      var t := s[9..];
      var k := WordLen(t);
      var after := t[k..];
      if k == 0 then None
      else if Text.StartsWith(after, " asc") then
        var next :- NextClause(after[4..]);
        Some((Some(Order(t[..k], false)), next))
      else if Text.StartsWith(after, " desc") then
        var next :- NextClause(after[5..]);
        Some((Some(Order(t[..k], true)), next))
      else None
  }

  /** An optional `<keyword><digits>` clause (`limit ` or `offset `): the number read and the text after it. */
  function ParseCount(s: string, keyword: string): Option<(Option<nat>, string)>
  {
    if !Text.StartsWith(s, keyword) then Some((None, s))
    else
      var t := s[|keyword|..];
      var k := DigitRun(t);
      if k == 0 then None
      else
        var next :- NextClause(t[k..]);
        Some((Some(DigitsValue(t[..k])), next))
  }

  /** `order by`, `limit` and `offset`, each optional, in that order, and nothing after them. */
  function ParseClauses(s: string): Option<Clauses>
  {
    var o :- ParseOrder(s);
    var l :- ParseCount(o.1, "limit ");
    var f :- ParseCount(l.1, "offset ");
    if f.1 == "" then Some(Clauses(o.0, l.0, f.0)) else None
  }

  /** The clauses of a query's text after its condition (one leading space is the separator). */
  function ParseTail(s: string): Option<Clauses>
  {
    if |s| > 0 && s[0] == ' ' then ParseClauses(s[1..]) else ParseClauses(s)
  }

  function ClausesOf(app: AppId, query: string): (r: Result<Clauses, ApiError>)
    ensures r.Success? <==> ParseTail(query).Some?
    ensures r.Success? ==> r.value == ParseTail(query).value
  {
    match ParseTail(query)
    case None => Failure(Rejected(app, BadQuery(query)))
    case Some(c) => Success(c)
  }

  /** The clauses ask for `$id` ascending order, explicitly or by leaving `order by` out. */
  predicate IdOrder(c: Clauses)
  {
    c.order.None? || c.order.value == Order("$id", false)
  }

  function OffsetOf(c: Clauses): nat { c.offset.GetOr(0) }

  function LimitOf(c: Clauses): nat { c.limit.GetOr(DEFAULT_LIMIT) }

  /**
    `rec[code] ? rec[code].value : ''` with null and undefined read as '', then `String(..)`:
    the text of a field, "" when the record lacks it.
   */
  function FieldText(fields: map<string, Value>, code: string): string
  {
    if code in fields && !IsNullish(fields[code]) then ToText(fields[code]) else ""
  }

  /** The `$id` of each record, in order. */
  function Ids(recs: seq<Rec>): (ids: seq<string>)
    ensures |ids| == |recs|
  {
    if |recs| == 0 then [] else [recs[0].id] + Ids(recs[1..])
  }

  lemma {:induction false} IdsIndex(recs: seq<Rec>, i: nat)
    requires i < |recs|
    ensures Ids(recs)[i] == recs[i].id
  {
    if i > 0 {
      IdsIndex(recs[1..], i - 1);
    }
  }

  /** The id of every record of a list is among the list's ids. */
  lemma IdsMember(recs: seq<Rec>, x: Rec)
    requires x in recs
    ensures x.id in Ids(recs)
  {
    var i :| 0 <= i < |recs| && recs[i] == x;
    IdsIndex(recs, i);
  }

  lemma {:induction false} IdsAppend(a: seq<Rec>, b: seq<Rec>)
    ensures Ids(a + b) == Ids(a) + Ids(b)
  {
    if |a| == 0 {
      assert a + b == b;
    } else {
      assert (a + b)[1..] == a[1..] + b;
      IdsAppend(a[1..], b);
    }
  }

  /** The store's reading of the condition `field = "v"`, in store order. */
  function Matching(recs: seq<Rec>, field: string, v: string): (r: seq<Rec>)
    ensures |r| <= |recs|
  {
    if |recs| == 0 then []
    else (if FieldText(recs[0].fields, field) == v then [recs[0]] else []) + Matching(recs[1..], field, v)
  }

  /** The matches are exactly the records whose field reads as `v`. */
  lemma {:induction false} MatchingMembers(recs: seq<Rec>, field: string, v: string)
    ensures forall x :: x in Matching(recs, field, v) <==> x in recs && FieldText(x.fields, field) == v
  {
    if |recs| > 0 {
      MatchingMembers(recs[1..], field, v);
      assert recs == [recs[0]] + recs[1..];
    }
  }

  /** A run of digits ends where the digits end. */
  lemma {:induction false} DigitRunStops(ds: string, rest: string)
    requires forall i :: 0 <= i < |ds| ==> IsDigit(ds[i])
    requires rest == "" || !IsDigit(rest[0])
    ensures DigitRun(ds + rest) == |ds|
  {
    if |ds| > 0 {
      assert (ds + rest)[1..] == ds[1..] + rest;
      DigitRunStops(ds[1..], rest);
    }
  }

  /** A word ends where the first space is. */
  lemma {:induction false} WordLenStops(w: string, rest: string)
    requires forall i :: 0 <= i < |w| ==> w[i] != ' '
    requires rest == "" || rest[0] == ' '
    ensures WordLen(w + rest) == |w|
  {
    if |w| > 0 {
      assert (w + rest)[1..] == w[1..] + rest;
      WordLenStops(w[1..], rest);
    }
  }

  /** `<keyword><n>` reads back as `n`, whatever clause follows it. */
  lemma CountClause(keyword: string, n: nat, rest: string)
    requires rest == "" || (|rest| > 1 && rest[0] == ' ')
    ensures ParseCount(keyword + NatText(n) + rest, keyword) == Some((Some(n), NextClause(rest).value))
  {
    var s := keyword + NatText(n) + rest;
    assert s[..|keyword|] == keyword;
    var t := s[|keyword|..];
    assert t == NatText(n) + rest;
    DigitRunStops(NatText(n), rest);
    assert t[..|NatText(n)|] == NatText(n);
    assert t[|NatText(n)|..] == rest;
    DigitsValueNatText(n);
  }

  /** `order by <field> asc|desc` reads back as its field and direction. */
  lemma OrderClause(field: string, desc: bool, rest: string)
    requires |field| > 0 && forall i :: 0 <= i < |field| ==> field[i] != ' '
    requires rest == "" || (|rest| > 1 && rest[0] == ' ')
    ensures var dir := if desc then " desc" else " asc";
            ParseOrder("order by " + field + dir + rest) == Some((Some(Order(field, desc)), NextClause(rest).value))
  {
    var dir := if desc then " desc" else " asc";
    var s := "order by " + field + dir + rest;
    assert s[..9] == "order by ";
    var t := s[9..];
    assert t == field + (dir + rest);
    WordLenStops(field, dir + rest);
    assert t[..|field|] == field;
    var after := t[|field|..];
    assert after == dir + rest;
    assert after[..|dir|] == dir;
    assert after[|dir|..] == rest;
    if desc {
      assert after[1] == 'd';
      assert !Text.StartsWith(after, " asc");
    }
  }

  /** `order by <field> asc|desc`. */
  function OrderText(o: Order): string
  {
    "order by " + o.field + (if o.desc then " desc" else " asc")
  }

  /** `offset <n>`, or nothing. */
  function OffsetText(offset: Option<nat>): string
  {
    if offset.None? then "" else "offset " + NatText(offset.value)
  }

  /** `limit <n>` and the offset clause after it, or just the offset clause. */
  function LimitText(limit: Option<nat>, offset: Option<nat>): string
  {
    if limit.None? then OffsetText(offset)
    else "limit " + NatText(limit.value) + (if offset.None? then "" else " " + OffsetText(offset))
  }

  /** The clauses written out in the store's syntax, separated by single spaces. */
  function ClausesText(c: Clauses): string
  {
    var tail := LimitText(c.limit, c.offset);
    if c.order.None? then tail
    else OrderText(c.order.value) + (if tail == "" then "" else " " + tail)
  }

  /** An ordering the syntax can carry: a field code that is one word. */
  predicate Writable(c: Clauses)
  {
    c.order.Some? ==> |c.order.value.field| > 0 && forall i :: 0 <= i < |c.order.value.field| ==> c.order.value.field[i] != ' '
  }

  lemma OffsetTextParses(offset: Option<nat>)
    ensures ParseCount(OffsetText(offset), "offset ") == Some((offset, ""))
    ensures ParseCount(OffsetText(offset), "limit ") == Some((None, OffsetText(offset)))
    ensures ParseOrder(OffsetText(offset)) == Some((None, OffsetText(offset)))
  {
    var t := OffsetText(offset);
    if offset.Some? {
      assert t == "offset " + NatText(offset.value) + "";
      CountClause("offset ", offset.value, "");
      assert t[0] == 'o' && t[1] == 'f';
      assert !Text.StartsWith(t, "limit ");
      assert !Text.StartsWith(t, "order by ");
    }
  }

  /** Text that does not begin with `o` carries no `order by`. */
  lemma NoOrderClause(s: string)
    requires |s| > 0 && s[0] != 'o'
    ensures ParseOrder(s) == Some((None, s))
  {
    if |s| >= 9 {
      assert s[..9][0] == s[0];
    }
    assert !Text.StartsWith(s, "order by ");
  }

  lemma LimitTextParses(limit: Option<nat>, offset: Option<nat>)
    ensures ParseCount(LimitText(limit, offset), "limit ") == Some((limit, OffsetText(offset)))
    ensures ParseOrder(LimitText(limit, offset)) == Some((None, LimitText(limit, offset)))
  {
    OffsetTextParses(offset);
    if limit.Some? {
      var rest := if offset.None? then "" else " " + OffsetText(offset);
      var t := "limit " + NatText(limit.value) + rest;
      assert LimitText(limit, offset) == t;
      CountClause("limit ", limit.value, rest);
      assert t[0] == 'l';
      NoOrderClause(t);
    }
  }

  /** Written-out clauses read back as themselves. */
  lemma ClausesRoundTrip(c: Clauses)
    requires Writable(c)
    ensures ParseClauses(ClausesText(c)) == Some(c)
    ensures ParseTail(" " + ClausesText(c)) == Some(c)
    ensures ParseTail(ClausesText(c)) == Some(c)
  {
    var tail := LimitText(c.limit, c.offset);
    LimitTextParses(c.limit, c.offset);
    OffsetTextParses(c.offset);
    if c.order.Some? {
      var o := c.order.value;
      var rest := if tail == "" then "" else " " + tail;
      if tail != "" {
        assert |tail| > 1 by {
          if c.limit.None? {
            assert |OffsetText(c.offset)| > 1;
          }
        }
      }
      OrderClause(o.field, o.desc, rest);
      assert ClausesText(c) == "order by " + o.field + (if o.desc then " desc" else " asc") + rest;
    }
    assert (" " + ClausesText(c))[1..] == ClausesText(c);
    if ClausesText(c) != "" {
      assert ClausesText(c)[0] == 'o' || ClausesText(c)[0] == 'l';
    }
  }

  /** A clause written call-style, `orderBy(...)`, is outside the syntax. */
  lemma CallStyleOrderRejected(s: string)
    requires Text.StartsWith(s, "orderBy(")
    ensures ParseClauses(s).None?
  {
    assert s[..8] == "orderBy(";
    assert s[0] == 'o' && s[1] == 'r' && s[5] == 'B';
    assert !Text.StartsWith(s, "order by ");
    assert !Text.StartsWith(s, "limit ");
    assert !Text.StartsWith(s, "offset ");
  }

  /** So is `limit(...)`. */
  lemma CallStyleLimitRejected(s: string)
    requires Text.StartsWith(s, "limit(")
    ensures ParseClauses(s).None?
  {
    assert s[..6] == "limit(";
    assert s[0] == 'l' && s[5] == '(';
    assert !Text.StartsWith(s, "order by ");
    assert !Text.StartsWith(s, "limit ");
    assert !Text.StartsWith(s, "offset ");
  }

  /**
    `limit limit offset offset` applied to an ordered result: the records from position
    `offset` on, at most `limit` of them, in the same order.
   */
  function Slice(recs: seq<Rec>, offset: nat, limit: nat): (r: seq<Rec>)
    ensures |r| == if offset >= |recs| then 0 else if |recs| - offset < limit then |recs| - offset else limit
    ensures forall i :: 0 <= i < |r| ==> r[i] == recs[offset + i]
  {
    if offset >= |recs| then [] else if offset + limit <= |recs| then recs[offset..offset + limit] else recs[offset..]
  }

  /** The first record among those with the greatest `作成日時`. */
  function Latest(recs: seq<Rec>): (r: Rec)
    requires |recs| > 0
    ensures r in recs
    ensures forall x :: x in recs ==> x.createdAt <= r.createdAt
  {
    if |recs| == 1 then recs[0]
    else
      var rest := Latest(recs[1..]);
      if recs[0].createdAt >= rest.createdAt then recs[0] else rest
  }

  function AppOf(snap: Snapshot, app: AppId): Result<App, ApiError>
  {
    if app in snap then Success(snap[app]) else Failure(Rejected(app, NoSuchApp))
  }

  function CheckFields(snap: Snapshot, app: AppId, codes: set<string>): Result<App, ApiError>
  {
    var a :- AppOf(snap, app);
    if codes <= a.fieldCodes then Success(a) else Failure(Rejected(app, NoSuchFields(codes - a.fieldCodes)))
  }

  /** GET with the query text `query` (no condition) and `totalCount: true`. */
  function QueryPage(snap: Snapshot, app: AppId, query: string): (r: Result<Page, ApiError>)
    ensures r.Success? <==> app in snap && ParseTail(query).Some? && IdOrder(ParseTail(query).value)
    ensures r.Success? ==>
              var c := ParseTail(query).value;
              && r.value.records == Slice(snap[app].records, OffsetOf(c), LimitOf(c))
              && r.value.totalCount == snap[app].reportedTotal
  {
    var a :- AppOf(snap, app);
    var c :- ClausesOf(app, query);
    if !IdOrder(c) then Failure(Rejected(app, UnmodelledOrder))
    else Success(Page(Slice(a.records, OffsetOf(c), LimitOf(c)), a.reportedTotal))
  }

  /**
    GET with `field = "v"` followed by `tail`, which must read `order by 作成日時 desc limit 1`.
    Among records sharing the greatest creation time the store's order is unspecified; the
    first in snapshot order is taken.
   */
  function QueryLatest(snap: Snapshot, app: AppId, field: string, v: string, tail: string)
    : (r: Result<seq<Rec>, ApiError>)
    ensures r.Success? <==> && app in snap && ParseTail(tail) == Some(NEWEST_ONE)
                            && field in snap[app].fieldCodes && CREATED_AT in snap[app].fieldCodes
    ensures r.Success? ==> |r.value| <= 1
    ensures r.Success? ==> (|r.value| == 0 <==> Matching(snap[app].records, field, v) == [])
    ensures r.Success? && |r.value| == 1 ==>
              var m := Matching(snap[app].records, field, v);
              r.value[0] in m && forall x :: x in m ==> x.createdAt <= r.value[0].createdAt
  {
    var a :- CheckFields(snap, app, {field, CREATED_AT});
    var c :- ClausesOf(app, tail);
    if c != NEWEST_ONE then Failure(Rejected(app, UnmodelledOrder))
    else
      var m := Matching(a.records, field, v);
      Success(if |m| == 0 then [] else [Latest(m)])
  }

  /** GET with `field = "v"` followed by `tail`, in `$id` order. */
  function QueryMatchingPage(snap: Snapshot, app: AppId, field: string, v: string, tail: string)
    : (r: Result<seq<Rec>, ApiError>)
    ensures r.Success? <==> && app in snap && field in snap[app].fieldCodes
                            && ParseTail(tail).Some? && IdOrder(ParseTail(tail).value)
    ensures r.Success? ==>
              var c := ParseTail(tail).value;
              r.value == Slice(Matching(snap[app].records, field, v), OffsetOf(c), LimitOf(c))
  {
    var a :- CheckFields(snap, app, {field});
    var c :- ClausesOf(app, tail);
    if !IdOrder(c) then Failure(Rejected(app, UnmodelledOrder))
    else Success(Slice(Matching(a.records, field, v), OffsetOf(c), LimitOf(c)))
  }

  /** The record's fields with every field of the update set to its new text. */
  function Overlay(fields: map<string, Value>, update: map<string, string>): (r: map<string, Value>)
    ensures r.Keys == fields.Keys + update.Keys
    ensures forall k :: k in update ==> r[k] == Str(update[k])
    ensures forall k :: k in fields && k !in update ==> r[k] == fields[k]
  {
    fields + map k | k in update :: Str(update[k])
  }

  /**
    The records after a write to the one whose `$id` is `u.id`: every record keeps its
    place, id and creation time; the written record gains or overwrites the update's
    fields, as text, and keeps its other fields; every other record is untouched.
   */
  function ApplyUpdate(recs: seq<Rec>, u: Update): (r: seq<Rec>)
    ensures |r| == |recs|
    ensures forall i :: 0 <= i < |recs| ==> r[i].id == recs[i].id && r[i].createdAt == recs[i].createdAt
    ensures forall i :: 0 <= i < |recs| && recs[i].id != u.id ==> r[i] == recs[i]
    ensures forall i :: 0 <= i < |recs| && recs[i].id == u.id ==>
              && r[i].fields.Keys == recs[i].fields.Keys + u.fields.Keys
              && (forall k :: k in u.fields ==> r[i].fields[k] == Str(u.fields[k]))
              && (forall k :: k in recs[i].fields && k !in u.fields ==> r[i].fields[k] == recs[i].fields[k])
  {
    seq(|recs|, i requires 0 <= i < |recs| =>
      if recs[i].id == u.id then recs[i].(fields := Overlay(recs[i].fields, u.fields)) else recs[i])
  }

  function ApplyAll(recs: seq<Rec>, us: seq<Update>): (r: seq<Rec>)
    ensures Ids(r) == Ids(recs)
    decreases |us|
  {
    if |us| == 0 then recs
    else
      IdsApplyUpdate(recs, us[0]);
      ApplyAll(ApplyUpdate(recs, us[0]), us[1..])
  }

  /** The first update whose id the app lacks, if any. */
  function FirstUnknownId(us: seq<Update>, ids: seq<string>): (r: Option<string>)
    ensures r.None? <==> forall i :: 0 <= i < |us| ==> us[i].id in ids
  {
    if |us| == 0 then None
    else if us[0].id !in ids then Some(us[0].id)
    else FirstUnknownId(us[1..], ids)
  }

  function UpdatedCodes(us: seq<Update>): set<string>
  {
    set i, k | 0 <= i < |us| && k in us[i].fields :: k
  }

  /** PUT on /k/v1/record: one record, several fields. */
  function Put(snap: Snapshot, app: AppId, u: Update): (r: Result<Snapshot, ApiError>)
    ensures r.Success? <==> app in snap && u.fields.Keys <= snap[app].fieldCodes && u.id in Ids(snap[app].records)
    ensures r.Success? ==> r.value == snap[app := snap[app].(records := ApplyUpdate(snap[app].records, u))]
  {
    var a :- CheckFields(snap, app, u.fields.Keys);
    if u.id !in Ids(a.records) then Failure(Rejected(app, NoSuchRecord(u.id)))
    else Success(snap[app := a.(records := ApplyUpdate(a.records, u))])
  }

  /** PUT on /k/v1/records: up to 100 records in one request, all or nothing. */
  function PutMany(snap: Snapshot, app: AppId, us: seq<Update>): (r: Result<Snapshot, ApiError>)
    ensures r.Success? <==> app in snap && |us| <= MAX_PUT_RECORDS && UpdatedCodes(us) <= snap[app].fieldCodes
                            && forall i :: 0 <= i < |us| ==> us[i].id in Ids(snap[app].records)
    ensures r.Success? ==> r.value == snap[app := snap[app].(records := ApplyAll(snap[app].records, us))]
  {
    var a :- CheckFields(snap, app, UpdatedCodes(us));
    if |us| > MAX_PUT_RECORDS then Failure(Rejected(app, BatchTooLarge(|us|)))
    else match FirstUnknownId(us, Ids(a.records))
      case Some(id) => Failure(Rejected(app, NoSuchRecord(id)))
      case None => Success(snap[app := a.(records := ApplyAll(a.records, us))])
  }

  /** Two snapshots have the same apps, record ids, forms and reported totals; only field values may differ. */
  predicate SameShape(a: Snapshot, b: Snapshot)
  {
    && a.Keys == b.Keys
    && forall app :: app in a ==>
         && Ids(a[app].records) == Ids(b[app].records)
         && a[app].fieldCodes == b[app].fieldCodes
         && a[app].reportedTotal == b[app].reportedTotal
  }

  /** An update leaves every record id where it was. */
  lemma {:induction false} IdsApplyUpdate(recs: seq<Rec>, u: Update)
    ensures Ids(ApplyUpdate(recs, u)) == Ids(recs)
  {
    if |recs| > 0 {
      assert ApplyUpdate(recs, u)[1..] == ApplyUpdate(recs[1..], u);
      IdsApplyUpdate(recs[1..], u);
    }
  }

  /** A successful write changes field values only. */
  lemma PutKeepsShape(snap: Snapshot, app: AppId, u: Update)
    requires Put(snap, app, u).Success?
    ensures SameShape(snap, Put(snap, app, u).value)
  {
    IdsApplyUpdate(snap[app].records, u);
  }

  lemma PutManyKeepsShape(snap: Snapshot, app: AppId, us: seq<Update>)
    requires PutMany(snap, app, us).Success?
    ensures SameShape(snap, PutMany(snap, app, us).value)
  {
  }

  lemma SameShapeTrans(a: Snapshot, b: Snapshot, c: Snapshot)
    requires SameShape(a, b) && SameShape(b, c)
    ensures SameShape(a, c)
  {
  }
}
