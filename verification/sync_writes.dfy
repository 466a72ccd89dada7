/**
  The two writers of js/sync.js: `updateParentRecord`, one PUT on /k/v1/record per parent,
  and `updateContactRecords`, which sets one field on every given contact record with
  sequential PUTs on /k/v1/records of at most 100 records each.
 */
module SyncWrites {
  import opened Wrappers
  import opened JsValue
  import opened Store

  function Min(a: nat, b: nat): nat
  {
    if a <= b then a else b
  }

  /** `for (i = 0; i < n; i += 100) s.slice(i, i + 100)`. */
  function Chunks<T>(s: seq<T>): seq<seq<T>>
    decreases |s|
  {
    if |s| == 0 then []
    else [s[..Min(100, |s|)]] + Chunks(s[Min(100, |s|)..])
  }

  function Flatten<T>(ss: seq<seq<T>>): seq<T>
  {
    if |ss| == 0 then [] else ss[0] + Flatten(ss[1..])
  }

  /**
    The chunks put back together give the list; there are ⌈n/100⌉ of them, each holds
    between 1 and 100 elements, and every chunk but the last holds exactly 100.
   */
  lemma {:induction false} ChunksSpec<T>(s: seq<T>)
    ensures var cs := Chunks(s);
            && Flatten(cs) == s
            && |cs| == (|s| + 99) / 100
            && (forall i :: 0 <= i < |cs| ==> 1 <= |cs[i]| <= 100)
            && (forall i :: 0 <= i < |cs| - 1 ==> |cs[i]| == 100)
    decreases |s|
  {
    if |s| > 0 {
      var k := Min(100, |s|);
      var cs := Chunks(s);
      var rest := Chunks(s[k..]);
      ChunksSpec(s[k..]);
      assert cs == [s[..k]] + rest;
      assert cs[1..] == rest;
      assert Flatten(cs) == s[..k] + Flatten(rest);
      assert s == s[..k] + s[k..];
      if |s| <= 100 {
        assert (|s| + 99) / 100 == 1;
        assert |s[k..]| == 0;
      } else {
        assert (|s| + 99) / 100 == 1 + (|s| - 100 + 99) / 100;
      }
      forall i | 0 <= i < |cs| ensures 1 <= |cs[i]| <= 100 && (i < |cs| - 1 ==> |cs[i]| == 100) {
        if i > 0 {
          assert cs[i] == rest[i - 1];
        }
      }
    }
  }

  /**
    `toRecords`: one update per id, in the ids' order, each touching `field` alone and
    setting it to `value`; together they touch no other field.
   */
  function ToUpdates(ids: seq<string>, field: string, value: string): (us: seq<Update>)
    ensures |us| == |ids|
    ensures forall i :: 0 <= i < |ids| ==> us[i].id == ids[i] && us[i].fields.Keys == {field} && us[i].fields[field] == value
    ensures |ids| > 0 ==> UpdatedCodes(us) == {field}
  {
    var us := seq(|ids|, i requires 0 <= i < |ids| => Update(ids[i], map[field := value]));
    assert |ids| > 0 ==> field in us[0].fields;
    us
  }

  /** The PUTs of the chain, one per chunk, stopping at the first one the store rejects. */
  function PutChunks(snap: Snapshot, app: AppId, chunks: seq<seq<Update>>): (seq<Request>, Result<Snapshot, ApiError>)
  {
    if |chunks| == 0 then ([], Success(snap))
    else
      var req := PutRecords(app, chunks[0]);
      match PutMany(snap, app, chunks[0])
      case Failure(e) => ([req], Failure(e))
      case Success(next) =>
        var rest := PutChunks(next, app, chunks[1..]);
        ([req] + rest.0, rest.1)
  }

  /** `updateContactRecords`. */
  function UpdateContactRecords(snap: Snapshot, app: AppId, field: string, ids: seq<string>, value: string)
    : (seq<Request>, Result<Snapshot, ApiError>)
  {
    if |ids| == 0 then ([], Success(snap))
    else PutChunks(snap, app, Chunks(ToUpdates(ids, field, value)))
  }

  /** Applying two runs of updates one after the other is applying their concatenation. */
  lemma {:induction false} ApplyAllAppend(recs: seq<Rec>, a: seq<Update>, b: seq<Update>)
    ensures ApplyAll(ApplyAll(recs, a), b) == ApplyAll(recs, a + b)
    decreases |a|
  {
    if |a| == 0 {
      assert a + b == b;
    } else {
      assert (a + b)[0] == a[0];
      assert (a + b)[1..] == a[1..] + b;
      var step := ApplyUpdate(recs, a[0]);
      assert ApplyAll(recs, a) == ApplyAll(step, a[1..]);
      assert ApplyAll(recs, a + b) == ApplyAll(step, a[1..] + b);
      ApplyAllAppend(step, a[1..], b);
    }
  }

  lemma UpdatedCodesOne(us: seq<Update>, field: string, value: string)
    requires |us| > 0 && forall i :: 0 <= i < |us| ==> us[i].fields == map[field := value]
    ensures UpdatedCodes(us) == {field}
  {
    assert field in us[0].fields;
  }

  /** A chunk the store accepts: 1 to 100 updates, each setting only `field`, each to a known id. */
  predicate ChunkFits(ids: seq<string>, c: seq<Update>, field: string, value: string)
  {
    && 0 < |c| <= MAX_PUT_RECORDS
    && forall j :: 0 <= j < |c| ==> c[j].fields == map[field := value] && c[j].id in ids
  }

  lemma FirstChunk(snap: Snapshot, app: AppId, c: seq<Update>, field: string, value: string)
    requires app in snap && field in snap[app].fieldCodes
    requires ChunkFits(Ids(snap[app].records), c, field, value)
    ensures PutMany(snap, app, c) == Success(snap[app := snap[app].(records := ApplyAll(snap[app].records, c))])
  {
    UpdatedCodesOne(c, field, value);
  }

  /** Writing the first chunk and then the rest is writing all of them. */
  lemma StoreAfterChunks(snap: Snapshot, app: AppId, c: seq<Update>, tail: seq<seq<Update>>)
    requires app in snap
    ensures var next := snap[app := snap[app].(records := ApplyAll(snap[app].records, c))];
            next[app := next[app].(records := ApplyAll(next[app].records, Flatten(tail)))]
            == snap[app := snap[app].(records := ApplyAll(snap[app].records, Flatten([c] + tail)))]
  {
    assert ([c] + tail)[1..] == tail;
    ApplyAllAppend(snap[app].records, c, Flatten(tail));
  }

  /** When every chunk fits, the chain leaves the store with all the updates applied. */
  lemma {:induction false} PutChunksResult(snap: Snapshot, app: AppId, chunks: seq<seq<Update>>, field: string, value: string)
    requires app in snap && field in snap[app].fieldCodes
    requires forall i :: 0 <= i < |chunks| ==> ChunkFits(Ids(snap[app].records), chunks[i], field, value)
    ensures PutChunks(snap, app, chunks).1 == Success(snap[app := snap[app].(records := ApplyAll(snap[app].records, Flatten(chunks)))])
  {
    var recs := snap[app].records;
    if |chunks| > 0 {
      var c, tail := chunks[0], chunks[1..];
      FirstChunk(snap, app, c, field, value);
      var next := snap[app := snap[app].(records := ApplyAll(recs, c))];
      assert forall i :: 0 <= i < |tail| ==> tail[i] == chunks[i + 1];
      PutChunksResult(next, app, tail, field, value);
      assert chunks == [c] + tail;
      StoreAfterChunks(snap, app, c, tail);
    } else {
      assert ApplyAll(recs, Flatten(chunks)) == recs;
      assert snap[app := snap[app]] == snap;
    }
  }

  /**
    When every chunk fits, the chain issues one PUT per chunk, in order, and leaves the
    store with all the updates applied.
   */
  lemma PutChunksSucceeds(snap: Snapshot, app: AppId, chunks: seq<seq<Update>>, field: string, value: string)
    requires app in snap && field in snap[app].fieldCodes
    requires forall i :: 0 <= i < |chunks| ==> ChunkFits(Ids(snap[app].records), chunks[i], field, value)
    ensures var r := PutChunks(snap, app, chunks);
            && r.1 == Success(snap[app := snap[app].(records := ApplyAll(snap[app].records, Flatten(chunks)))])
            && r.0 == seq(|chunks|, i requires 0 <= i < |chunks| => PutRecords(app, chunks[i]))
  {
    PutChunksResult(snap, app, chunks, field, value);
    PutChunksLog(snap, app, chunks);
  }

  /**
    Whatever the store answers, the chain issues only PUTs on /k/v1/records; when it
    resolves, it issued one per chunk in order, and the store kept its shape.
   */
  lemma {:induction false} PutChunksLog(snap: Snapshot, app: AppId, chunks: seq<seq<Update>>)
    ensures var r := PutChunks(snap, app, chunks);
            && (forall q :: q in r.0 ==> q.PutRecords?)
            && (r.1.Success? ==>
                  && r.0 == seq(|chunks|, i requires 0 <= i < |chunks| => PutRecords(app, chunks[i]))
                  && SameShape(snap, r.1.value))
  {
    if |chunks| > 0 {
      var first := PutMany(snap, app, chunks[0]);
      if first.Success? {
        var next := first.value;
        PutManyKeepsShape(snap, app, chunks[0]);
        PutChunksLog(next, app, chunks[1..]);
        var rest := PutChunks(next, app, chunks[1..]);
        assert PutChunks(snap, app, chunks) == ([PutRecords(app, chunks[0])] + rest.0, rest.1);
        if rest.1.Success? {
          SameShapeTrans(snap, next, rest.1.value);
        }
      }
    }
  }

  /** A chain whose first chunk is rejected stops there, with one PUT issued. */
  lemma PutChunksFirstRejected(snap: Snapshot, app: AppId, chunks: seq<seq<Update>>)
    requires |chunks| > 0 && PutMany(snap, app, chunks[0]).Failure?
    ensures PutChunks(snap, app, chunks) == ([PutRecords(app, chunks[0])], Failure(PutMany(snap, app, chunks[0]).error))
  {
  }

  /** What one `updateContactRecords` leaves in a record: `field` set to `value` when its id is listed. */
  predicate ContactWritten(before: seq<Rec>, after: seq<Rec>, ids: seq<string>, field: string, value: string)
  {
    && |after| == |before|
    && forall i :: 0 <= i < |before| ==>
         after[i] == if before[i].id in ids then before[i].(fields := Overlay(before[i].fields, map[field := value])) else before[i]
  }

  /** Overlaying the same update twice is overlaying it once. */
  lemma OverlayIdempotent(fields: map<string, Value>, u: map<string, string>)
    ensures Overlay(Overlay(fields, u), u) == Overlay(fields, u)
  {
  }

  lemma {:induction false} ApplyAllToUpdates(recs: seq<Rec>, ids: seq<string>, field: string, value: string)
    ensures ContactWritten(recs, ApplyAll(recs, ToUpdates(ids, field, value)), ids, field, value)
    decreases |ids|
  {
    var us := ToUpdates(ids, field, value);
    if |ids| > 0 {
      var u := map[field := value];
      var step := ApplyUpdate(recs, us[0]);
      assert us[1..] == ToUpdates(ids[1..], field, value);
      ApplyAllToUpdates(step, ids[1..], field, value);
      var after := ApplyAll(recs, us);
      assert after == ApplyAll(step, us[1..]);
      forall i | 0 <= i < |recs|
        ensures after[i] == if recs[i].id in ids then recs[i].(fields := Overlay(recs[i].fields, u)) else recs[i]
      {
        assert step[i].id == recs[i].id;
        if recs[i].id == ids[0] {
          OverlayIdempotent(recs[i].fields, u);
        }
        assert recs[i].id in ids <==> recs[i].id == ids[0] || recs[i].id in ids[1..];
      }
    }
  }

  lemma {:induction false} FlattenChunksOfUpdates(ids: seq<string>, field: string, value: string)
    ensures var cs := Chunks(ToUpdates(ids, field, value));
            forall i, j :: 0 <= i < |cs| && 0 <= j < |cs[i]| ==> cs[i][j].fields == map[field := value] && cs[i][j].id in ids
  {
    var us := ToUpdates(ids, field, value);
    var cs: seq<seq<Update>> := Chunks(us);
    ChunksSpec(us);
    forall i, j | 0 <= i < |cs| && 0 <= j < |cs[i]|
      ensures cs[i][j].fields == map[field := value] && cs[i][j].id in ids
    {
      FlattenMember(cs, i, j);
      var k :| 0 <= k < |us| && us[k] == cs[i][j];
      assert us[k].id == ids[k];
    }
  }

  /** Every element of a chunk is an element of the flattened list. */
  lemma {:induction false} FlattenMember<T>(ss: seq<seq<T>>, i: nat, j: nat)
    requires i < |ss| && j < |ss[i]|
    ensures ss[i][j] in Flatten(ss)
  {
    if i > 0 {
      FlattenMember(ss[1..], i - 1, j);
    }
  }

  /**
    `updateContactRecords(app, field, ids, value)`: no request for an empty list; otherwise
    ⌈n/100⌉ PUTs of at most 100 records, whose records listed in order are the ids, each
    setting only `field` to `value`. When the app has the field and every id, the PUTs all
    succeed and every listed record ends with `field` set to `value`, the rest unchanged.
   */
  lemma UpdateContactRecordsSpec(snap: Snapshot, app: AppId, field: string, ids: seq<string>, value: string)
    ensures var r := UpdateContactRecords(snap, app, field, ids, value);
            var cs := Chunks(ToUpdates(ids, field, value));
            && (|ids| == 0 ==> r == ([], Success(snap)))
            && |cs| == (|ids| + 99) / 100
            && Flatten(cs) == ToUpdates(ids, field, value)
            && (forall i :: 0 <= i < |cs| ==> 1 <= |cs[i]| <= 100)
            && (app in snap && field in snap[app].fieldCodes && (forall i :: 0 <= i < |ids| ==> ids[i] in Ids(snap[app].records)) ==>
                  && r.0 == seq(|cs|, i requires 0 <= i < |cs| => PutRecords(app, cs[i]))
                  && r.1.Success?
                  && r.1.value.Keys == snap.Keys
                  && (forall other :: other in snap && other != app ==> r.1.value[other] == snap[other])
                  && r.1.value[app].fieldCodes == snap[app].fieldCodes
                  && ContactWritten(snap[app].records, r.1.value[app].records, ids, field, value))
  {
    var us := ToUpdates(ids, field, value);
    var cs: seq<seq<Update>> := Chunks(us);
    ChunksSpec(us);
    if app in snap && field in snap[app].fieldCodes && (forall i :: 0 <= i < |ids| ==> ids[i] in Ids(snap[app].records)) {
      FlattenChunksOfUpdates(ids, field, value);
      ApplyAllToUpdates(snap[app].records, ids, field, value);
      if |ids| > 0 {
        forall i | 0 <= i < |cs| ensures ChunkFits(Ids(snap[app].records), cs[i], field, value) {
          forall j | 0 <= j < |cs[i]| ensures cs[i][j].id in Ids(snap[app].records) {
            var k :| 0 <= k < |ids| && ids[k] == cs[i][j].id;
          }
        }
        PutChunksSucceeds(snap, app, cs, field, value);
      } else {
        assert ApplyAll(snap[app].records, us) == snap[app].records;
        assert snap[app := snap[app]] == snap;
      }
    }
  }

  /** `updateParentRecord`: no request when there is nothing to write, else one PUT of every field. */
  function UpdateParentRecord(snap: Snapshot, app: AppId, id: string, valuesByField: map<string, string>)
    : (r: (seq<Request>, Result<Snapshot, ApiError>))
    ensures |valuesByField| == 0 ==> r == ([], Success(snap))
    ensures |valuesByField| > 0 ==>
              && r.0 == [PutRecord(app, Update(id, valuesByField))]
              && (r.1.Success? <==> app in snap && valuesByField.Keys <= snap[app].fieldCodes && id in Ids(snap[app].records))
  {
    if |valuesByField| == 0 then ([], Success(snap))
    else
      var u := Update(id, valuesByField);
      ([PutRecord(app, u)], Put(snap, app, u))
  }

  /**
    `after` is `before` with the record of id `id` given every field of `valuesByField`
    as text, its other fields kept, and every other record unchanged.
   */
  predicate ParentWritten(before: seq<Rec>, after: seq<Rec>, id: string, valuesByField: map<string, string>)
  {
    && |after| == |before|
    && forall i :: 0 <= i < |before| ==>
         if before[i].id == id then
           && after[i].id == id
           && (forall k :: k in valuesByField ==> k in after[i].fields && after[i].fields[k] == Str(valuesByField[k]))
           && (forall k :: k in before[i].fields && k !in valuesByField ==> k in after[i].fields && after[i].fields[k] == before[i].fields[k])
         else after[i] == before[i]
  }

  /** A successful parent write is that write on the app's records, and touches no other app. */
  lemma UpdateParentRecordEffect(snap: Snapshot, app: AppId, id: string, valuesByField: map<string, string>)
    requires |valuesByField| > 0 && UpdateParentRecord(snap, app, id, valuesByField).1.Success?
    ensures var after := UpdateParentRecord(snap, app, id, valuesByField).1.value;
            && after.Keys == snap.Keys
            && (forall other :: other in snap && other != app ==> after[other] == snap[other])
            && ParentWritten(snap[app].records, after[app].records, id, valuesByField)
  {
  }
}
