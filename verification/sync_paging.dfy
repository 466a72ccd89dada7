/**
  The two offset-paging loops of js/sync.js: `getAllParentRecords`, which reads the parent
  app 500 records at a time in record-id order, and `getContactRecordIds`, which reads the
  ids of the contact records carrying a join value, 500 at a time. Each loop is a recursive
  function over the snapshot that returns the requests it issued and what it resolved with.
 */
module SyncPaging {
  import opened Wrappers
  import opened JsValue
  import QueryLiteral
  import opened Store
  import Text

  /** Page size of both loops. */
  const LIMIT: nat := 500

  /** What `getAllParentRecords` asks for on one page: `$id` order, 500 records, from `offset`. */
  function ParentClauses(offset: nat): Clauses
  {
    Clauses(Some(Order("$id", false)), Some(LIMIT), Some(offset))
  }

  /** The query of `getAllParentRecords` for one page, in the store's clause syntax. */
  function ParentQuery(offset: nat): string
  {
    "order by $id asc limit 500 offset " + NatText(offset)
  }

  lemma PageSizeText()
    ensures NatText(LIMIT) == "500"
  {
    assert NatText(5) == "5";
    assert NatText(50) == NatText(5) + [DigitChar(0)];
    assert NatText(500) == NatText(50) + [DigitChar(0)];
  }

  /** The parent query is the parent clauses written out, and reads back as them. */
  lemma ParentQueryClauses(offset: nat)
    ensures ParentQuery(offset) == ClausesText(ParentClauses(offset))
    ensures ParseTail(ParentQuery(offset)) == Some(ParentClauses(offset))
  {
    var n := NatText(offset);
    PageSizeText();
    assert OrderText(Order("$id", false)) == "order by $id asc";
    assert LimitText(Some(LIMIT), Some(offset)) == "limit " + "500" + (" " + ("offset " + n));
    assert "order by $id asc" + (" " + ("limit " + "500" + (" " + ("offset " + n)))) == ParentQuery(offset);
    ClausesRoundTrip(ParentClauses(offset));
  }

  /** The GET of one parent page: `$id` order, at most 500 records from `offset`. */
  function GetParentPage(snap: Snapshot, app: AppId, offset: nat): (r: Result<Page, ApiError>)
    ensures r.Success? <==> app in snap
    ensures r.Success? ==> r.value.records == Slice(snap[app].records, offset, LIMIT)
                           && r.value.totalCount == snap[app].reportedTotal
  {
    var a :- AppOf(snap, app);
    Success(Page(Slice(a.records, offset, LIMIT), a.reportedTotal))
  }

  /** The parent page is the store's answer to the parent query. */
  lemma GetParentPageAnswers(snap: Snapshot, app: AppId, offset: nat)
    ensures GetParentPage(snap, app, offset) == QueryPage(snap, app, ParentQuery(offset))
  {
    ParentQueryClauses(offset);
  }

  /** The parent query as js/sync.js spells it, with call-style clauses. */
  function ParentQueryAsWritten(offset: nat): string
  {
    "orderBy(" + ("\"$id\", \"asc\") limit(500) offset(" + NatText(offset) + ")")
  }

  /** The call-style clauses are outside the store's syntax, so the first parent GET is rejected. */
  lemma ParentQueryAsWrittenRejected(snap: Snapshot, app: AppId, offset: nat)
    ensures ParseTail(ParentQueryAsWritten(offset)).None?
    ensures QueryPage(snap, app, ParentQueryAsWritten(offset)).Failure?
  {
    var q := ParentQueryAsWritten(offset);
    assert q[..8] == "orderBy(";
    CallStyleOrderRejected(q);
  }

  /** The measure of a paging loop: the records still ahead of `offset`. */
  function Remaining(n: nat, offset: nat): nat
  {
    if offset <= n then n - offset else 0
  }

  /**
    One round of `getAllParentRecords` and the rounds after it. The total is the parsed
    `totalCount` when the response carries one and the page's own length otherwise.
   */
  function FetchParentsFrom(snap: Snapshot, app: AppId, offset: nat, acc: seq<Rec>): (seq<Request>, Result<seq<Rec>, ApiError>)
    decreases if app in snap then Remaining(|snap[app].records|, offset) else 0
  {
    var req := GetRecords(app, ParentQuery(offset));
    match GetParentPage(snap, app, offset)
    case Failure(e) => ([req], Failure(e))
    case Success(page) =>
      var all := acc + page.records;
      var total := if page.totalCount.Some? then page.totalCount.value else |page.records|;
      if |page.records| < LIMIT || |all| >= total then ([req], Success(all))
      else
        var rest := FetchParentsFrom(snap, app, offset + LIMIT, all);
        ([req] + rest.0, rest.1)
  }

  function FetchParents(snap: Snapshot, app: AppId): (seq<Request>, Result<seq<Rec>, ApiError>)
  {
    FetchParentsFrom(snap, app, 0, [])
  }

  /**
    The number of pages the loop wants before the accumulated count reaches the total:
    one without a total, otherwise ⌈t/500⌉ and at least one.
   */
  function PagesWanted(total: Option<nat>): nat
  {
    match total
    case None => 1
    case Some(t) => if t <= 500 then 1 else (t + 499) / 500
  }

  function Min(a: int, b: int): int
  {
    if a <= b then a else b
  }

  /** The requests of rounds j, j+1, …, j+count-1 of the parent loop. */
  function ParentRequests(app: AppId, j: nat, count: nat): seq<Request>
  {
    seq(count, i requires 0 <= i < count => GetRecords(app, ParentQuery(500 * (j + i))))
  }

  lemma ParentRequestsCons(app: AppId, j: nat, count: nat)
    ensures [GetRecords(app, ParentQuery(500 * j))] + ParentRequests(app, j + 1, count) == ParentRequests(app, j, count + 1)
  {
    var a := [GetRecords(app, ParentQuery(500 * j))] + ParentRequests(app, j + 1, count);
    forall i | 1 <= i < count + 1 ensures a[i] == ParentRequests(app, j, count + 1)[i] {
      assert 500 * (j + 1 + (i - 1)) == 500 * (j + i);
    }
  }

  lemma ParentRequestsOne(app: AppId, j: nat)
    ensures ParentRequests(app, j, 1) == [GetRecords(app, ParentQuery(500 * j))]
  {
  }

  /** One unfolding of the parent loop, with the page the store returns. */
  lemma ParentRound(snap: Snapshot, app: AppId, offset: nat, acc: seq<Rec>)
    requires app in snap
    ensures var page := Slice(snap[app].records, offset, LIMIT);
            var all := acc + page;
            var total := if snap[app].reportedTotal.Some? then snap[app].reportedTotal.value else |page|;
            var req := GetRecords(app, ParentQuery(offset));
            var rest := FetchParentsFrom(snap, app, offset + 500, all);
            FetchParentsFrom(snap, app, offset, acc)
              == if |page| < LIMIT || |all| >= total then ([req], Success(all)) else ([req] + rest.0, rest.1)
  {
  }

  /** A prefix of the records extended by the next page. */
  lemma RecordsPage(recs: seq<Rec>, offset: nat)
    requires offset <= |recs|
    ensures var page := Slice(recs, offset, LIMIT);
            && recs[..offset] + page == recs[..offset + |page|]
            && (|page| < LIMIT ==> offset + |page| == |recs|)
            && (|page| >= LIMIT ==> |page| == LIMIT)
  {
  }

  /** How long a page is: short only at the end of the list. */
  lemma PageSize(recs: seq<Rec>, offset: nat)
    requires offset <= |recs|
    ensures var page := Slice(recs, offset, LIMIT);
            && (|page| < LIMIT ==> offset + |page| == |recs|)
            && (|page| >= LIMIT ==> |page| == LIMIT && offset + LIMIT <= |recs|)
  {
  }

  /** After `j` full pages the parent loop ends with the first min(n, 500·k) records. */
  lemma {:induction false} FetchParentsFromValue(snap: Snapshot, app: AppId, j: nat)
    requires app in snap
    requires 500 * j <= |snap[app].records|
    requires j < PagesWanted(snap[app].reportedTotal)
    ensures var recs := snap[app].records;
            FetchParentsFrom(snap, app, 500 * j, recs[..500 * j]).1
              == Success(recs[..Min(|recs|, 500 * PagesWanted(snap[app].reportedTotal))])
    decreases |snap[app].records| - 500 * j
  {
    var recs := snap[app].records;
    var n := |recs|;
    var k := PagesWanted(snap[app].reportedTotal);
    var offset := 500 * j;
    var page := Slice(recs, offset, LIMIT);
    ParentRound(snap, app, offset, recs[..offset]);
    RecordsPage(recs, offset);
    var all := recs[..offset] + page;
    var total := if snap[app].reportedTotal.Some? then snap[app].reportedTotal.value else |page|;
    if |page| < LIMIT {
      assert Min(n, 500 * k) == n;
      assert recs[..n] == recs;
    } else if |all| >= total {
      assert k == j + 1;
    } else {
      assert j + 1 < k;
      assert 500 * (j + 1) == offset + 500;
      FetchParentsFromValue(snap, app, j + 1);
    }
  }

  /**
    After `j` full pages the parent loop issues the requests of rounds j to
    min(k, ⌊n/500⌋ + 1) - 1; only the number of records gathered so far matters.
   */
  lemma {:induction false} FetchParentsFromRequests(snap: Snapshot, app: AppId, j: nat, acc: seq<Rec>)
    requires app in snap
    requires 500 * j <= |snap[app].records| && |acc| == 500 * j
    requires j < PagesWanted(snap[app].reportedTotal)
    ensures var recs := snap[app].records;
            var k := PagesWanted(snap[app].reportedTotal);
            FetchParentsFrom(snap, app, 500 * j, acc).0 == ParentRequests(app, j, Min(k, |recs| / 500 + 1) - j)
    decreases |snap[app].records| - 500 * j
  {
    var recs := snap[app].records;
    var n := |recs|;
    var k := PagesWanted(snap[app].reportedTotal);
    var offset := 500 * j;
    var page := Slice(recs, offset, LIMIT);
    ParentRound(snap, app, offset, acc);
    PageSize(recs, offset);
    var all := acc + page;
    var total := if snap[app].reportedTotal.Some? then snap[app].reportedTotal.value else |page|;
    if |page| < LIMIT {
      assert n / 500 == j;
      ParentRequestsOne(app, j);
    } else if |all| >= total {
      assert k == j + 1;
      ParentRequestsOne(app, j);
    } else {
      assert j + 1 < k;
      assert 500 * (j + 1) == offset + 500 == |all|;
      FetchParentsFromRequests(snap, app, j + 1, all);
      ParentRequestsCons(app, j, Min(k, n / 500 + 1) - (j + 1));
    }
  }

  /**
    `getAllParentRecords` resolves with the first min(n, 500·k) records in record-id order,
    where k is ⌈totalCount/500⌉ (at least 1), and 1 when the response has no totalCount;
    request i asks for offset 500·i, and the loop stops after min(k, ⌊n/500⌋ + 1) requests.
   */
  lemma FetchParentsSpec(snap: Snapshot, app: AppId)
    ensures var r := FetchParents(snap, app);
            && (r.1.Success? <==> app in snap)
            && (app !in snap ==> r.0 == [GetRecords(app, ParentQuery(0))])
            && (app in snap ==>
                  var recs := snap[app].records;
                  var k := PagesWanted(snap[app].reportedTotal);
                  && r.1.value == recs[..Min(|recs|, 500 * k)]
                  && |r.0| == Min(k, |recs| / 500 + 1)
                  && forall i :: 0 <= i < |r.0| ==> r.0[i] == GetRecords(app, ParentQuery(500 * i)))
  {
    if app in snap {
      assert snap[app].records[..0] == [];
      FetchParentsFromValue(snap, app, 0);
      FetchParentsFromRequests(snap, app, 0, snap[app].records[..0]);
    }
  }

  /** Without a totalCount the loop stops after the first page, however many records there are. */
  lemma FetchParentsNoTotal(snap: Snapshot, app: AppId)
    requires app in snap && snap[app].reportedTotal.None?
    ensures FetchParents(snap, app) == ([GetRecords(app, ParentQuery(0))], Success(Slice(snap[app].records, 0, LIMIT)))
  {
    FetchParentsSpec(snap, app);
    var recs := snap[app].records;
    if |recs| <= LIMIT {
      assert recs[..|recs|] == recs[0..];
    }
  }

  /** A totalCount no smaller than the record count makes the loop read every record. */
  lemma FetchParentsComplete(snap: Snapshot, app: AppId)
    requires app in snap && snap[app].reportedTotal.Some? && snap[app].reportedTotal.value >= |snap[app].records|
    ensures FetchParents(snap, app).1 == Success(snap[app].records)
  {
    FetchParentsSpec(snap, app);
    var recs := snap[app].records;
    assert 500 * PagesWanted(snap[app].reportedTotal) >= |recs|;
    assert recs[..|recs|] == recs;
  }

  /** What `getContactRecordIds` asks for on one page: 500 records from `offset`, in the default order. */
  function ContactClauses(offset: nat): Clauses
  {
    Clauses(None, Some(LIMIT), Some(offset))
  }

  /** The clauses after the condition of a contact page query. */
  function ContactTail(offset: nat): string
  {
    " limit 500 offset " + NatText(offset)
  }

  /** The contact tail is the contact clauses written out, and reads back as them. */
  lemma ContactTailClauses(offset: nat)
    ensures ContactTail(offset) == " " + ClausesText(ContactClauses(offset))
    ensures ParseTail(ContactTail(offset)) == Some(ContactClauses(offset))
  {
    var n := NatText(offset);
    PageSizeText();
    assert ClausesText(ContactClauses(offset)) == "limit " + "500" + (" " + ("offset " + n));
    assert " " + ("limit " + "500" + (" " + ("offset " + n))) == ContactTail(offset);
    ClausesRoundTrip(ContactClauses(offset));
  }

  /** The query of `getContactRecordIds` for one page, in the store's clause syntax. */
  function ContactQuery(field: string, v: string, offset: nat): string
  {
    field + " = \"" + QueryLiteral.Escape(v) + "\"" + ContactTail(offset)
  }

  /** The GET of one contact page: at most 500 matching records from `offset`. */
  function GetContactPage(snap: Snapshot, app: AppId, field: string, v: string, offset: nat): (r: Result<seq<Rec>, ApiError>)
    ensures r.Success? <==> app in snap && field in snap[app].fieldCodes
    ensures r.Success? ==> r.value == Slice(Matching(snap[app].records, field, v), offset, LIMIT)
  {
    var a :- CheckFields(snap, app, {field});
    Success(Slice(Matching(a.records, field, v), offset, LIMIT))
  }

  /** The contact page is the store's answer to the condition followed by the contact clauses. */
  lemma GetContactPageAnswers(snap: Snapshot, app: AppId, field: string, v: string, offset: nat)
    ensures GetContactPage(snap, app, field, v, offset) == QueryMatchingPage(snap, app, field, v, ContactTail(offset))
  {
    ContactTailClauses(offset);
  }

  /** The clauses after the contact condition as js/sync.js spells them, call-style. */
  function ContactTailAsWritten(offset: nat): string
  {
    " " + ("limit(" + ("500) offset(" + NatText(offset) + ")"))
  }

  /** The call-style clauses are outside the store's syntax, so the first contact GET is rejected. */
  lemma ContactTailAsWrittenRejected(snap: Snapshot, app: AppId, field: string, v: string, offset: nat)
    ensures ParseTail(ContactTailAsWritten(offset)).None?
    ensures QueryMatchingPage(snap, app, field, v, ContactTailAsWritten(offset)).Failure?
  {
    var q := ContactTailAsWritten(offset)[1..];
    assert q == "limit(" + ("500) offset(" + NatText(offset) + ")");
    assert q[..6] == "limit(";
    CallStyleLimitRejected(q);
  }

  /** One round of `getContactRecordIds` and the rounds after it: it stops only on a short page. */
  function FetchContactIdsFrom(snap: Snapshot, app: AppId, field: string, v: string, offset: nat, acc: seq<string>)
    : (seq<Request>, Result<seq<string>, ApiError>)
    decreases if app in snap then Remaining(|Matching(snap[app].records, field, v)|, offset) else 0
  {
    var req := GetRecords(app, ContactQuery(field, v, offset));
    match GetContactPage(snap, app, field, v, offset)
    case Failure(e) => ([req], Failure(e))
    case Success(page) =>
      var all := acc + Ids(page);
      if |page| < LIMIT then ([req], Success(all))
      else
        var rest := FetchContactIdsFrom(snap, app, field, v, offset + 500, all);
        ([req] + rest.0, rest.1)
  }

  function FetchContactIds(snap: Snapshot, app: AppId, field: string, v: string): (seq<Request>, Result<seq<string>, ApiError>)
  {
    FetchContactIdsFrom(snap, app, field, v, 0, [])
  }

  /** The requests of rounds j, j+1, …, j+count-1 of the contact loop. */
  function ContactRequests(app: AppId, field: string, v: string, j: nat, count: nat): seq<Request>
  {
    seq(count, i requires 0 <= i < count => GetRecords(app, ContactQuery(field, v, 500 * (j + i))))
  }

  lemma ContactRequestsCons(app: AppId, field: string, v: string, j: nat, count: nat)
    ensures [GetRecords(app, ContactQuery(field, v, 500 * j))] + ContactRequests(app, field, v, j + 1, count)
            == ContactRequests(app, field, v, j, count + 1)
  {
    var a := [GetRecords(app, ContactQuery(field, v, 500 * j))] + ContactRequests(app, field, v, j + 1, count);
    forall i | 1 <= i < count + 1 ensures a[i] == ContactRequests(app, field, v, j, count + 1)[i] {
      assert 500 * (j + 1 + (i - 1)) == 500 * (j + i);
    }
  }

  /** One unfolding of the contact loop, with the page the store returns. */
  lemma ContactRound(snap: Snapshot, app: AppId, field: string, v: string, offset: nat, acc: seq<string>)
    requires app in snap && field in snap[app].fieldCodes
    ensures var page := Slice(Matching(snap[app].records, field, v), offset, LIMIT);
            var req := GetRecords(app, ContactQuery(field, v, offset));
            var rest := FetchContactIdsFrom(snap, app, field, v, offset + LIMIT, acc + Ids(page));
            FetchContactIdsFrom(snap, app, field, v, offset, acc)
              == if |page| < LIMIT then ([req], Success(acc + Ids(page))) else ([req] + rest.0, rest.1)
  {
  }

  /**
    The contact loop over an already-matched list `m`: the same rounds, with the page of
    round `offset` being `limit(500) offset(offset)` of `m`.
   */
  function PagedIds(app: AppId, field: string, v: string, m: seq<Rec>, offset: nat, acc: seq<string>): (seq<Request>, seq<string>)
    decreases Remaining(|m|, offset)
  {
    var page := Slice(m, offset, LIMIT);
    var req := GetRecords(app, ContactQuery(field, v, offset));
    if |page| < LIMIT then ([req], acc + Ids(page))
    else
      var rest := PagedIds(app, field, v, m, offset + 500, acc + Ids(page));
      ([req] + rest.0, rest.1)
  }

  /** While the app and field exist, the contact loop is the loop over the matched list. */
  lemma {:induction false} FetchContactIdsPaged(snap: Snapshot, app: AppId, field: string, v: string, offset: nat, acc: seq<string>)
    requires app in snap && field in snap[app].fieldCodes
    ensures var p := PagedIds(app, field, v, Matching(snap[app].records, field, v), offset, acc);
            FetchContactIdsFrom(snap, app, field, v, offset, acc) == (p.0, Success(p.1))
    decreases Remaining(|Matching(snap[app].records, field, v)|, offset)
  {
    var m := Matching(snap[app].records, field, v);
    var page := Slice(m, offset, LIMIT);
    ContactRound(snap, app, field, v, offset, acc);
    if |page| >= LIMIT {
      FetchContactIdsPaged(snap, app, field, v, offset + 500, acc + Ids(page));
    }
  }

  /** Matching records split at a page boundary. */
  lemma ContactPage(m: seq<Rec>, offset: nat)
    requires offset <= |m|
    ensures var page := Slice(m, offset, LIMIT);
            && Ids(m[..offset]) + Ids(page) == Ids(m[..offset + |page|])
            && (|page| < LIMIT ==> offset + |page| == |m|)
            && (|page| >= LIMIT ==> |page| == LIMIT)
  {
    var page := Slice(m, offset, LIMIT);
    IdsAppend(m[..offset], page);
    assert m[..offset] + page == m[..offset + |page|];
  }

  /** One unfolding of the loop over the matched list. */
  lemma PagedRound(app: AppId, field: string, v: string, m: seq<Rec>, offset: nat, acc: seq<string>)
    ensures var page := Slice(m, offset, LIMIT);
            var req := GetRecords(app, ContactQuery(field, v, offset));
            var rest := PagedIds(app, field, v, m, offset + 500, acc + Ids(page));
            PagedIds(app, field, v, m, offset, acc)
              == if |page| < LIMIT then ([req], acc + Ids(page)) else ([req] + rest.0, rest.1)
  {
  }

  /** After `j` full pages the loop over the matched list ends with the ids of all of it. */
  lemma {:induction false} PagedIdsValue(app: AppId, field: string, v: string, m: seq<Rec>, j: nat)
    requires 500 * j <= |m|
    ensures PagedIds(app, field, v, m, 500 * j, Ids(m[..500 * j])).1 == Ids(m)
    decreases |m| - 500 * j
  {
    var offset := 500 * j;
    var page := Slice(m, offset, LIMIT);
    ContactPage(m, offset);
    PagedRound(app, field, v, m, offset, Ids(m[..offset]));
    if |page| < LIMIT {
      assert m[..|m|] == m;
    } else {
      assert 500 * (j + 1) == offset + 500;
      PagedIdsValue(app, field, v, m, j + 1);
    }
  }

  /** After `j` full pages the loop over the matched list issues the requests of rounds j to ⌊|m|/500⌋, whatever it has gathered. */
  lemma {:induction false} PagedIdsRequests(app: AppId, field: string, v: string, m: seq<Rec>, j: nat, acc: seq<string>)
    requires 500 * j <= |m|
    ensures PagedIds(app, field, v, m, 500 * j, acc).0 == ContactRequests(app, field, v, j, |m| / 500 + 1 - j)
    decreases |m| - 500 * j
  {
    var offset := 500 * j;
    var page := Slice(m, offset, LIMIT);
    PageSize(m, offset);
    PagedRound(app, field, v, m, offset, acc);
    if |page| < LIMIT {
      assert |m| / 500 == j;
      assert ContactRequests(app, field, v, j, 1) == [GetRecords(app, ContactQuery(field, v, offset))];
    } else {
      assert 500 * (j + 1) == offset + 500;
      PagedIdsRequests(app, field, v, m, j + 1, acc + Ids(page));
      ContactRequestsCons(app, field, v, j, |m| / 500 + 1 - (j + 1));
    }
  }

  /**
    `getContactRecordIds` resolves with the ids of every matching contact record in store
    order; it issues ⌊m/500⌋ + 1 requests for m matches (one more, empty page when m is a
    multiple of 500), request i asking for offset 500·i.
   */
  lemma FetchContactIdsSpec(snap: Snapshot, app: AppId, field: string, v: string)
    ensures var r := FetchContactIds(snap, app, field, v);
            && (r.1.Success? <==> app in snap && field in snap[app].fieldCodes)
            && (r.1.Failure? ==> r.0 == [GetRecords(app, ContactQuery(field, v, 0))])
            && (r.1.Success? ==>
                  var m := Matching(snap[app].records, field, v);
                  && r.1.value == Ids(m)
                  && |r.0| == |m| / 500 + 1
                  && forall i :: 0 <= i < |r.0| ==> r.0[i] == GetRecords(app, ContactQuery(field, v, 500 * i)))
  {
    if app in snap && field in snap[app].fieldCodes {
      var m := Matching(snap[app].records, field, v);
      assert m[..0] == [];
      FetchContactIdsPaged(snap, app, field, v, 0, []);
      PagedIdsValue(app, field, v, m, 0);
      PagedIdsRequests(app, field, v, m, 0, []);
    }
  }
}
