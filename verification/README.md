# Festival sync plugin — a Dafny model

The repository is a kintone plugin for a festival office. A parent app lists the
participating groups. For every group, `runSync` looks up the newest record in each
configured child app (an application form) that carries the group's join value. It then
writes either "提出済"/"未提出" (submitted / not submitted) or a copied field into the
parent record. When a contact app is configured, it also copies the first target's value
onto every contact record of the group.

Beside the sync engine the repository holds:

- the record-list filter and the read-only field lock of the desktop script;
- the settings screen, which loads, normalises, validates and saves the configuration;
- a small script that writes a 64×64 grey placeholder PNG with a hand-written CRC-32.

The model works as follows:

- The kintone record store is an abstract, finite snapshot: a map from app id to the
  app's records in `$id` ascending order, its form's field codes, and the `totalCount`
  its responses carry. A query without `order by` is answered in that order.
- The store reads the text after a query's condition in its clause syntax: an optional
  `order by <field> asc|desc`, then `limit <n>`, then `offset <n>`. Text outside that
  syntax is rejected.
- Every REST call is a pure function of the snapshot. Every call is logged as a `Request`.
  A write returns the next snapshot.
- The promise chains are sequential folds that stop at the first rejection.
- The DOM is read as plain inputs: one record per table row, holding the `value` of each
  select.
- Byte buffers are sequences of `byte` (0..255). The CRC register is a natural number
  below 2^32.

Modules, in dependency order:

- `Wrappers`: `Option` and `Result`.
- `Text`: ECMAScript `trim`, `join`, `startsWith`.
- `JsValue`: JavaScript values, truthiness, `String(v)`, `parseInt`.
- `QueryLiteral`: query-string escaping, and the store's reading of a literal.
- `Store`: the snapshot and the REST calls.
- `SyncCompute`, `SyncPaging`, `SyncWrites`, `SyncRun`: js/sync.js.
- `Distinct`, `Sorting`: the de-duplication and the default string sort of js/desktop.js.
- `DesktopFilter`, `DesktopFields`: js/desktop.js.
- `Settings`, `SettingsFetch`, `SettingsSync`: js/config.js, and what `runSync` makes of
  a saved configuration.
- `Crc32`, `Png`: scripts/ensure-icon.js (RFC 2083).

## Model

| member | source | states |
|---|---|---|
| Text.Trim | js/desktop.js:207 | `trim` yields a string with no white space at either end, no longer than the input |
| Text.TrimMiddle | js/desktop.js:207 | the trimmed string is the part of the input between a white-space prefix and a white-space suffix |
| Text.TrimIdempotent | js/config.js:282 | trimming twice is trimming once |
| JsValue.NatText | js/sync.js:38 | `String(n)` of a natural number is a non-empty run of decimal digits |
| JsValue.ParseIntNatText | js/sync.js:44 | `parseInt(String(n), 10) == n`: the decimal text and `parseInt` are inverse |
| QueryLiteral.EscapeIsCharwise | js/desktop.js:178-182 | doubling backslashes and then prefixing quotes is the same as escaping each character on its own |
| QueryLiteral.EscapeLength | js/desktop.js:178-182 | the escaped text is one character longer per backslash and per double quote; a value with neither is unchanged |
| QueryLiteral.UnescapeEscape | js/desktop.js:178-188 | `unescapeQueryValue(escapeQueryValue(s)) == s` for every `s` without U+0000 |
| QueryLiteral.UnescapeEscapeNul | js/desktop.js:187 | with a U+0000 the round trip fails: `"\0"` comes back as a backslash |
| QueryLiteral.ReadLiteralEscape | js/sync.js:62-63 | a value escaped and closed with `"` is read back by the store as exactly that value, ending at the plugin's quote |
| Store.Ids | js/sync.js:150 | the `$id` list has one entry per record |
| Store.MatchingMembers | js/sync.js:140 | the records matching `field = "v"` are exactly those whose field reads as `v` |
| Store.Slice | js/sync.js:38 | `limit n offset o` gives the records from position `o` on, at most `n` of them, in the same order |
| Store.ClausesRoundTrip | js/sync.js:38 | clauses written out in the store's syntax read back as themselves |
| Store.CallStyleOrderRejected | js/sync.js:38 | text that opens with the call-style `orderBy(` is outside the clause syntax |
| Store.CallStyleLimitRejected | js/sync.js:147 | so is text that opens with `limit(` |
| Store.Latest | js/sync.js:63 | the newest record is in the list and no record in it is newer |
| Store.QueryPage | js/sync.js:36-44 | the paged GET succeeds exactly for an existing app and a query in the clause syntax asking for `$id` order; it returns the records its limit and offset select (100 from 0 when absent) and the app's totalCount |
| Store.QueryLatest | js/sync.js:60-70 | the child GET succeeds exactly when the app exists with the join field and 作成日時 and the text after the condition reads as `order by 作成日時 desc limit 1`; it returns at most one record, none exactly when nothing matches, else a newest match |
| Store.QueryMatchingPage | js/sync.js:145-149 | the contact GET succeeds exactly when the app and field exist and the text after the condition is in the clause syntax with `$id` order; it returns the matching records its limit and offset select |
| Store.Overlay | js/sync.js:200-203 | a written record has every written field set to its new text and every other field kept |
| Store.ApplyUpdate | js/sync.js:205-209 | every record keeps its place, id and creation time; the record with the update's id gains the update's fields as text and keeps its other fields; every other record is unchanged |
| Store.ApplyAll | js/sync.js:183-186 | applying a batch keeps every record id in place |
| Store.FirstUnknownId | js/sync.js:183-186 | a batch has no unknown id exactly when every id of it is in the app |
| Store.Put | js/sync.js:205-209 | PUT on /k/v1/record succeeds exactly when the app, the fields and the id exist, and then updates that record only |
| Store.PutMany | js/sync.js:178-186 | PUT on /k/v1/records succeeds exactly for at most 100 records of known ids and existing fields, all or nothing |
| Store.PutKeepsShape | js/sync.js:205-209 | a successful write changes field values only |
| Store.PutManyKeepsShape | js/sync.js:183-186 | a successful batch write changes field values only |
| SyncCompute.ChildQueryLiteral | js/sync.js:62-63 | the child query compares the join field with exactly the join value, and the text after it reads as newest first, one record |
| SyncCompute.ChildTailClauses | js/sync.js:63 | the corrected child clauses are `order by 作成日時 desc limit 1` written out, and read back as newest first, one record |
| SyncCompute.GetLatestChildAnswers | js/sync.js:63-65 | the child records the computation uses are the store's answer to the corrected child query |
| SyncCompute.ChildTailAsWrittenRejected | js/sync.js:63 | the call-style `orderBy("作成日時", "desc") limit(1)` is outside the clause syntax, so every child GET is rejected |
| SyncCompute.ComputeValueForOneRow | js/sync.js:77-103 | one GET with the query built from the setting's own join field; success exactly when the child app exists with its join field and 作成日時; the row keeps the setting's target |
| SyncCompute.ExistenceValue | js/sync.js:87-88 | in existence mode the value is 提出済 exactly when some child record has the join value, and 未提出 otherwise |
| SyncCompute.CopyValue | js/sync.js:89-101 | any other mode gives "" without a match or without a copy field code, otherwise the copy field of a newest matching child |
| SyncCompute.ValidSettings | js/sync.js:115-116 | the filtered settings are exactly those with a non-empty target |
| SyncCompute.ComputeRows | js/sync.js:115-121 | the per-setting evaluation issues only GETs |
| SyncCompute.ComputeRowsSuccess | js/sync.js:121 | the rows resolve exactly when every setting's own request does |
| SyncCompute.ComputeRowsSpec | js/sync.js:117-121 | on success row `i` and request `i` are those of setting `i` |
| SyncCompute.CollectValuesKeys | js/sync.js:122-125 | the keys of `valuesByField` are exactly the non-empty targets of the rows |
| SyncCompute.CollectValuesLast | js/sync.js:123-125 | each key holds the value of the last row aiming at it |
| SyncCompute.ComputeAllValuesForParent | js/sync.js:111-130 | the result carries the record's id and the join value read with the first setting's join field; only GETs are issued |
| SyncCompute.ValuesByFieldSpec | js/sync.js:115-125 | the fields written are exactly the settings' non-empty targets; each holds the value computed for the last setting with that target |
| SyncCompute.ComputeAllSucceeds | js/sync.js:111-121 | the parent's computation resolves exactly when every setting with a target names an existing child app with its join field and 作成日時 |
| SyncCompute.ValidSettingsEmpty | js/sync.js:237-238 | no setting survives the filter exactly when every target is empty |
| SyncPaging.ParentQueryClauses | js/sync.js:38 | the corrected parent query is `order by $id asc limit 500 offset o` and reads back as those clauses |
| SyncPaging.GetParentPageAnswers | js/sync.js:36-41 | the page the parent loop uses is the store's answer to the corrected parent query |
| SyncPaging.ParentQueryAsWrittenRejected | js/sync.js:38 | the call-style `orderBy("$id", "asc") limit(500) offset(o)` is outside the clause syntax, so the parent GET is rejected for every store |
| SyncPaging.ContactTailClauses | js/sync.js:147 | the corrected contact clauses are ` limit 500 offset o` and read back as those clauses |
| SyncPaging.GetContactPageAnswers | js/sync.js:145-148 | the page the contact loop uses is the store's answer to the condition and the corrected contact clauses |
| SyncPaging.ContactTailAsWrittenRejected | js/sync.js:147 | the call-style ` limit(500) offset(o)` is outside the clause syntax, so the contact GET is rejected for every store |
| SyncPaging.FetchParentsFromValue | js/sync.js:41-50 | after `j` full pages the parent loop resolves with the first min(n, 500·k) records |
| SyncPaging.FetchParentsFromRequests | js/sync.js:36-50 | after `j` full pages the loop issues the requests for offsets 500·j onwards, min(k, ⌊n/500⌋+1) − j of them |
| SyncPaging.FetchParentsSpec | js/sync.js:30-55 | `getAllParentRecords` fails exactly for a missing app; otherwise it resolves with the first min(n, 500·k) records after min(k, ⌊n/500⌋+1) requests, request `i` at offset 500·i |
| SyncPaging.FetchParentsNoTotal | js/sync.js:44-45 | without a totalCount the loop stops after the first page |
| SyncPaging.FetchParentsComplete | js/sync.js:44-46 | a totalCount covering every record makes the loop read every record |
| SyncPaging.FetchContactIdsPaged | js/sync.js:144-158 | while the app and field exist, the contact loop is the loop over the matched list |
| SyncPaging.PagedIdsValue | js/sync.js:149-152 | the contact loop collects the ids of all matches in page order |
| SyncPaging.PagedIdsRequests | js/sync.js:145-156 | the contact loop asks for offsets 500·j, 500·(j+1), … and stops only on a short page |
| SyncPaging.FetchContactIdsSpec | js/sync.js:137-161 | `getContactRecordIds` succeeds exactly when the app and field exist; it resolves with the ids of every match, in store order, after ⌊m/500⌋+1 requests at offsets 500·i |
| SyncWrites.ChunksSpec | js/sync.js:178-179 | the chunks put back together give the list; there are ⌈n/100⌉ of them, each of 1 to 100 elements, all but the last of exactly 100 |
| SyncWrites.ToUpdates | js/sync.js:170-176 | one update per id, in the ids' order, each touching only the target field and setting it to the value; together they touch no other field |
| SyncWrites.ApplyAllAppend | js/sync.js:177-191 | applying two batches in turn is applying their concatenation |
| SyncWrites.PutChunksSucceeds | js/sync.js:177-191 | when every chunk fits, the chain issues one PUT per chunk in order and the store ends with all updates applied |
| SyncWrites.PutChunksLog | js/sync.js:177-191 | whatever the store answers, only PUTs on /k/v1/records are issued; on success one per chunk and the store keeps its shape |
| SyncWrites.PutChunksFirstRejected | js/sync.js:181-187 | a rejected first chunk stops the chain after one PUT |
| SyncWrites.OverlayIdempotent | js/sync.js:173 | writing the same fields twice is writing them once |
| SyncWrites.ApplyAllToUpdates | js/sync.js:170-176 | after the updates, every listed record has the field set to the value and every other record is unchanged |
| SyncWrites.UpdateContactRecordsSpec | js/sync.js:168-192 | no request for no ids; the updates are split into ⌈n/100⌉ batches of 1 to 100 whose concatenation is one update per id setting only the field; on a store holding the app, the field and every id, one PUT per batch is issued, all succeed, other apps are untouched and exactly the listed records change |
| SyncWrites.UpdateParentRecord | js/sync.js:198-211 | no request for an empty `valuesByField`; otherwise one PUT with every field, succeeding exactly when the app, the fields and the id exist |
| SyncWrites.UpdateParentRecordEffect | js/sync.js:198-211 | a successful parent write sets every given field on that record, keeps its other fields and touches no other record or app |
| SyncRun.RunSync | js/sync.js:217-240 | `runSync` rejects in order for a missing configuration, no child settings, no parent join field and no target field, each before any request; an accepted configuration goes on to the parents |
| SyncRun.ProcessAllExtends | js/sync.js:256-278 | the chain never drops a request: each parent's requests follow those of the parents before it |
| SyncRun.RunSyncFirstRequest | js/sync.js:251 | an accepted configuration first reads the first page of parents |
| SyncRun.ContactStageTally | js/sync.js:267-272 | when the contact stage resolves, the counters still agree with the log (parent PUTs and contact records written) and `updated` is unchanged |
| SyncRun.ContactStageCount | js/sync.js:263-272 | when the contact stage resolves, the contact app exists and `contactUpdated` has grown by exactly the number of its records carrying the parent's join value |
| SyncRun.ProcessParentTally | js/sync.js:257-276 | each parent whose step resolves is counted once and written once |
| SyncRun.ProcessAllTally | js/sync.js:256-278 | over the chain the counters agree with the log and `updated` grows by the number of parents |
| SyncRun.RunSyncCounts | js/sync.js:251-281 | on success `updated` is the number of parents read and of parent PUTs; `contactUpdated` is the number of contact records written; no parents give {0, 0} |
| SyncRun.ContactStageSucceeds | js/sync.js:263-272 | with the contact app and its fields in place, the contact stage resolves and keeps the store's shape; every contact whose join field reads as the parent's join value ends with the target field set to the value, and every other record and app is unchanged |
| SyncRun.ProcessParentWritesParent | js/sync.js:258-261 | on a store with every app and field in place, the parent's write gives the parent record every computed field as text and keeps its other fields and every other record |
| SyncRun.ContactValueIsLast | js/sync.js:264-266 | the value copied to contacts is what the first valid setting's target holds in `valuesByField`: the value computed for the last valid setting with that target |
| SyncRun.ProcessParentWritesContacts | js/sync.js:261-275 | the step resolves; with a contact app, the group's contacts, as the parent write left them, get the copied value; without one nothing is written after the parent |
| SyncRun.ProcessParentSucceeds | js/sync.js:257-276 | with the apps and fields in place and a known parent id, the parent's step resolves and keeps the store's shape |
| SyncRun.ProcessAllSucceeds | js/sync.js:256-278 | on such a store the whole chain resolves |
| SyncRun.RunSyncSucceeds | js/sync.js:217-283 | on a store with every configured app and field (作成日時 of each child app included), an accepted `runSync` resolves with `updated` the number of parents read, all of them when the totalCount covers them |
| SyncRun.RunSyncNoContact | js/sync.js:263-275 | without a fully configured contact app no contact record is written, `contactUpdated` stays 0 and the k-th report is (k, 0) |
| Distinct.IndexOf | js/desktop.js:484 | `indexOf` gives the first position of the element, or −1 exactly when it is absent |
| Distinct.DedupSpec | js/desktop.js:484 | the de-duplicated list has no repeats, has the same elements, and keeps them in order of first occurrence |
| Distinct.FirstOccurrencesDedup | js/desktop.js:484 | the `a.indexOf(c) === i` filter keeps exactly what the reference de-duplication keeps |
| Distinct.NoDupPermutation | js/desktop.js:210 | reordering a list without repeats gives a list without repeats |
| Sorting.StrLeTotal | js/desktop.js:210 | any two strings are ordered one way or the other |
| Sorting.StrLeTrans | js/desktop.js:210 | the string order is transitive |
| Sorting.InsertSpec | js/desktop.js:210 | inserting into a sorted list keeps it sorted and adds exactly that element |
| Sorting.SortSpec | js/desktop.js:210 | `sort()` yields an ascending list holding the same strings, each as often |
| DesktopFilter.EscapeQueryValue | js/desktop.js:178-182 | null and undefined give ""; otherwise the length grows by one per backslash and per quote of `String(s)` |
| DesktopFilter.UnescapeQueryValue | js/desktop.js:184-188 | null and undefined give ""; otherwise the result is never longer than `String(s)`, and a text with no backslash and no U+0000 comes back unchanged |
| DesktopFilter.QueryValueRoundTrip | js/desktop.js:178-188 | unescaping an escaped value gives back `String(v)` when it holds no U+0000 |
| DesktopFilter.RowCondition | js/desktop.js:222-232 | a row is skipped exactly when its field or condition select is missing or empty, or its index names no field; otherwise the condition is `fieldCode op "escaped"` with `!=` exactly for "neq", and the join defaults to "and" |
| DesktopFilter.CollectConditionsMembers | js/desktop.js:220-233 | a condition is collected exactly when some row produces it |
| DesktopFilter.JoinConditions | js/desktop.js:234-242 | the loop computes the reference fold: "" for no rows, the condition for one, then `(acc) or c` after an "or" and `acc and c` otherwise |
| DesktopFilter.BuildQueryFromTable | js/desktop.js:217-243 | no table body gives ""; otherwise the fold of the collected conditions |
| DesktopFilter.FoldIgnoresLastJoin | js/desktop.js:237-241 | the join of the last row is never read |
| DesktopFilter.FoldAllAnd | js/desktop.js:237-241 | with no "or" before the last row the query is the conditions joined with " and " |
| DesktopFilter.FoldOrParenthesised | js/desktop.js:239 | an "or" before the last row makes the query open with "(" |
| DesktopFilter.FindIndex | js/desktop.js:269 | `findIndex` gives the first entry with that field code, or none exactly when no entry has it |
| DesktopFilter.AndRowsMembers | js/desktop.js:262-273 | the rows of an or-part are exactly its matched atoms whose field is known |
| DesktopFilter.OrRowsMembers | js/desktop.js:259-274 | the rows of the query are exactly the matched atoms of every or-part whose field is known |
| DesktopFilter.ParseQueryToRowsSpec | js/desktop.js:256-277 | a blank query gives no rows; otherwise the rows come from matched atoms with a known field, in query order, and the last row's join is "and" |
| DesktopFilter.ConditionRoundTrip | js/desktop.js:264-272 | a condition written by the table reads back as a row on the same field with the same operator and value, when the value holds no U+0000 |
| DesktopFields.RowTargets | js/desktop.js:479-483 | a code is collected exactly when some row has it as a trimmed, non-empty target |
| DesktopFields.ReadOnlyFieldCodes | js/desktop.js:472-487 | no configuration gives []; contact mode gives the stored list when it is an array, else []; other modes give [] unless parent mode has rows; a parent-mode `childAppSettings` that is not an array throws |
| DesktopFields.ReadOnlyParentCodes | js/desktop.js:477-485 | parent mode with rows gives the trimmed non-empty targets, each once, in order of first appearance |
| DesktopFields.NormalizeValue | js/desktop.js:202-207 | the normalised value is its own trim |
| DesktopFields.Candidates | js/desktop.js:200-208 | every candidate value is non-empty and trimmed |
| DesktopFields.SortedDistinct | js/desktop.js:208-210 | de-duplicating and then sorting yields a sorted list without repeats, with the same values |
| DesktopFields.LoadFieldValuesSpec | js/desktop.js:190-215 | without an app, a field or a response the list is empty, and so it is when a record is null or undefined (the throw the catch turns into []); otherwise the values are sorted, distinct, trimmed and non-empty, and they are exactly the records' normalised values |
| DesktopFields.AsWrittenDropsPrototypeNames | js/desktop.js:198-208 | as written, a value naming an inherited property of `{}` is never listed |
| DesktopFields.AsWrittenAgrees | js/desktop.js:198-208 | as written and as intended agree when no value names an inherited property |
| DesktopFields.PrototypeNameDropped | js/desktop.js:198-208 | a record value naming an inherited property is dropped as written but listed as intended |
| DesktopFields.PrototypeNameCounterexample | js/desktop.js:198-211 | one record whose field holds "constructor": listed as intended, missing as written |
| Settings.FirstGuest | js/config.js:31 | the leftmost `/guest/<digits>/` match, or none when nothing matches |
| Settings.ApiBasePath | js/config.js:28-36 | without `location` or a match the prefix is "/k/v1"; otherwise "/k/guest/<digits>/v1" with the digits of the leftmost match |
| Settings.GuestSpaceRoundTrip | js/config.js:30-32 | a page of guest space `n` gets the prefix of space `n` |
| Settings.GuestWithoutDigits | js/config.js:30-35 | a "/guest/" not followed by a digit leaves the prefix at "/k/v1" |
| Settings.ArrayOrEmpty | js/config.js:345-348 | the result is an array, and is the input when that is one |
| Settings.LoadConfig | js/config.js:342-351 | the loaded mode is "contact" exactly when the stored object says exactly "contact", else "parent"; loading fails (throws) exactly for a truthy non-object or an object whose lists cannot be normalised |
| Settings.LoadMissing | js/config.js:38-49 | with nothing stored the screen shows the default configuration in parent mode |
| Settings.LoadConfigShape | js/config.js:345-348 | after loading both lists are arrays, an array read-only list is kept, and every other entry is kept |
| Settings.LoadConfigMigration | js/config.js:349-351 | the legacy target is copied into the first row only when rows exist and that row has no target; other rows are unchanged |
| Settings.LoadConfigIdempotent | js/config.js:343-351 | loading what loading produced changes nothing |
| Settings.NoSecondMigration | js/config.js:349-351 | a migrated first row has a target, so a second load migrates nothing |
| Settings.ValueOr | js/config.js:277-281 | with an empty fallback the element's value, "" when there is no element; a non-empty fallback never gives "" |
| Settings.CollectChildRows | js/config.js:270-286 | one setting per table row, in order; each select reads as its value, "" when the row lacks it; the mode is never empty and is "existence" when missing or empty; the contact target is trimmed |
| Settings.CollectRowDefaults | js/config.js:276-281 | the mode is never empty and is "existence" when missing; the other selects read as "" when missing |
| Settings.CollectRowContactTrimmed | js/config.js:282 | the contact target is the trimmed select value |
| Settings.FirstIncomplete | js/config.js:528-545 | the first row with an app but no join key or target, or none |
| Settings.NonEmpty | js/config.js:483-486 | the checked codes that are not empty |
| Settings.SaveConfig | js/config.js:480-553 | contact mode always saves exactly the mode "contact", the checked codes and the list-filter flag; a parent-mode save has passed the header and row checks and writes the collected rows with mode "parent" and an empty contact target |
| Settings.SaveParentOrder | js/config.js:504-525 | each parent-mode message is shown exactly when the earlier checks pass and its own fails |
| Settings.SaveConfigOrder | js/config.js:504-525 | the same order on the form's trimmed selects |
| Settings.SaveParentRowError | js/config.js:526-545 | a child row is reported, 1-based, exactly when the header checks pass and it is the first row with an app but without join key or target |
| Settings.FirstIncompleteIs | js/config.js:528-531 | the first incomplete row is the incomplete row with no incomplete row before it |
| Settings.SaveParentRowsWithoutApp | js/config.js:530 | rows without an app never stop the save |
| Settings.SavedParentShape | js/config.js:546-553 | a parent-mode save passed every check and writes the collected rows with mode "parent" and an empty contact target |
| Settings.ParentConfigShape | js/config.js:546-553 | the parent-mode object has exactly six entries |
| Settings.SavedContactShape | js/config.js:488-492 | a contact-mode save writes exactly the mode, the non-empty checked codes and a boolean |
| Settings.SaveLoadRoundTrip | js/config.js:343-351 | saving and then loading restores the saved mode and every saved entry; the list that mode does not write comes back empty |
| SettingsSync.ReadSyncConfig | js/sync.js:218-231 | `runSync` sees no configuration exactly when none is stored or it is falsy |
| SettingsSync.RunStored | js/sync.js:218-240 | `runSync` on the stored value: a missing or falsy configuration is refused first; the TypeError of `childSettings.filter` ends it, before any request, exactly when the earlier checks pass and `childAppSettings` is a truthy non-array or holds a null or undefined row |
| SettingsSync.RunStoredPlain | js/sync.js:223-240 | on a configuration of the saved shape the checks on the raw values agree with those on the configuration read, and nothing throws |
| SettingsSync.SavedPlain | js/config.js:546-553 | both saved shapes have `childAppSettings` absent or an array of objects and a string or absent `parentGroupIdField` |
| SettingsSync.RowRoundTrip | js/config.js:276-283 | a stored child row reads back as itself |
| SettingsSync.ReadSavedParent | js/config.js:546-553 | `runSync` reads a parent-mode save as the saved rows and selects with an empty contact target |
| SettingsSync.SavedParentNoContactWrites | js/config.js:552 | a configuration saved in parent mode, read back by `runSync`, never makes it write a contact |
| SettingsSync.SavedContactRejected | js/config.js:488-492 | a configuration saved in contact mode has no child rows, so `runSync` rejects it before any request |
| SettingsFetch.FieldList | js/config.js:105-112 | a field is listed exactly when its property is truthy, has a truthy `type` and a code not starting with "__", labelled `label \|\| code` |
| SettingsFetch.FetchFormFields | js/config.js:93-127 | an invalid app id is rejected before any request; a cached app answers from the cache without a request; a null or undefined response rejects with the TypeError; a success is cached under the app key, and a rejection caches nothing |
| SettingsFetch.FetchFormFieldsCached | js/config.js:97-114 | a second call for the same app answers from the cache with the same list |
| SettingsFetch.FetchFormFieldsFresh | js/config.js:102-112 | a fresh fetch issues one request and lists exactly the typed properties whose code does not start with "__" |
| SettingsFetch.Entry | js/config.js:66-68 | an app without a usable id is skipped; every entry has its id as text and a truthy name: the app's own when truthy, else "アプリ"+id |
| SettingsFetch.EntriesMembers | js/config.js:65-69 | an entry is listed exactly when some app yields it |
| SettingsFetch.AppsFromRequests | js/config.js:60-75 | without rejections the loop asks for every page from the offset, in steps of 100, one more than the full pages |
| SettingsFetch.AppsFromResult | js/config.js:64-72 | without rejections the loop resolves with the entries of every app after those collected |
| SettingsFetch.FetchAppListSpec | js/config.js:54-88 | when no request is rejected, `fetchAppList` asks for offsets 0, 100, … until a short page and lists every app with an id in server order |
| SettingsFetch.AppsFromFailure | js/config.js:62-81 | the loop starts at the offset and stops at the first rejection; it fails exactly when the last offset asked for is rejected, with that error's message or the default one |
| Crc32.XorComm | scripts/ensure-icon.js:19-24 | xor is commutative |
| Crc32.XorAssoc | scripts/ensure-icon.js:19-24 | xor is associative |
| Crc32.XorUint32 | scripts/ensure-icon.js:19-24 | the xor of two 32-bit values is a 32-bit value |
| Crc32.RoundsXor | scripts/ensure-icon.js:19 | the eight table rounds distribute over xor |
| Crc32.BuildTable | scripts/ensure-icon.js:16-21 | the table has 256 entries; entry `n` is `n` after 8 rounds of the reflected polynomial step and is below 2^32 |
| Crc32.StepIsBitwise | scripts/ensure-icon.js:24 | the table-driven byte step equals 8 rounds of the bitwise step on `c xor b` |
| Crc32.UpdateIsBitwise | scripts/ensure-icon.js:24 | the table-driven update over a buffer equals the bitwise one |
| Crc32.UpdateBound | scripts/ensure-icon.js:24 | the register stays below 2^32 |
| Crc32.CrcFacts | scripts/ensure-icon.js:22-26 | the CRC equals the bitwise CRC-32 of section 3.4 of RFC 2083, is below 2^32 and is 0 for the empty buffer |
| Crc32.Crc32 | scripts/ensure-icon.js:22-26 | the loop computes the bitwise CRC-32, below 2^32, and 0 for the empty buffer |
| Png.BE32RoundTrip | scripts/ensure-icon.js:30-33 | the four bytes `writeUInt32BE` writes read back as the number |
| Png.ReadBE32RoundTrip | scripts/ensure-icon.js:30-33 | every four bytes are the big-endian form of the number they stand for |
| Png.ChunkLayout | scripts/ensure-icon.js:28-35 | a chunk exists exactly when the data length fits in four bytes; it is 12 + n bytes: the length, the type, the data, and the CRC of type and data |
| Png.ChunkRoundTrip | scripts/ensure-icon.js:28-35 | a chunk reads back, by a checking parser, as its type and data, with what follows left over |
| Png.RawScanlines | scripts/ensure-icon.js:37-43 | the raw image has (1 + 64) · 64 bytes: 0 (filter type None) at each row start, 0x80 everywhere else |
| Png.HeaderFields | scripts/ensure-icon.js:45-52 | IHDR data is 13 bytes: width 64 and height 64 big-endian, bit depth 8, colour type 0, then three zero bytes |
| Png.PngFileExists | scripts/ensure-icon.js:54-59 | the file exists exactly when the compressed data's length fits in four bytes |
| Png.ThreeChunks | scripts/ensure-icon.js:54-59 | three chunks in a row read back as their types and data, in order |
| Png.PngFileLayout | scripts/ensure-icon.js:54-59 | the file is the signature followed by IHDR with the header data, IDAT with the compressed data and IEND with no data |

## Left out

- The DOM and all UI work is not modelled: overlays, messages, `fillSelect`, `addChildRow`, `createRow`, event handlers, `escapeHtml`, and the timed field disabling. Table rows and selects are inputs instead.
- `kintone.api` is not modelled as I/O, because it is a network call. The record store is a snapshot and every call is a pure function of it. The rejections modelled are an unknown app, field or record id, a batch above 100, and query text outside the clause syntax. Permissions, server errors and the store's bounds on `limit` and `offset` values are not modelled.
- Store.QueryPage: of the orderings the syntax allows only `$id` ascending, written or implied, is answered; any other is rejected as unmodelled. The same holds for Store.QueryMatchingPage.
- Store.QueryLatest: only `order by 作成日時 desc limit 1` is answered; any other clause text is rejected as unmodelled.
- A query without `order by` is answered in `$id` ascending order. The store's own default order is not modelled. The contact stage only uses the set of ids it collects, so their order does not change what is written.
- `kintone.plugin.app.getConfig`/`retrieveConfig`/`setConfig` and `JSON.parse`/`JSON.stringify` are not modelled, because they are platform I/O. The parsed configuration is a parameter, and the save returns the object handed to `setConfig`.
- The sync script's `getConfig` (js/sync.js:15-25) is not modelled.
  - It reads the configuration with `kintone.plugin.app.retrieveConfig()` (js/sync.js:16), with no plugin id and outside its `try`. The other two scripts call `kintone.plugin.app.getConfig(pluginId)` instead (js/desktop.js:34, js/config.js:341).
  - The model assumes that call returns the stored configuration. If `retrieveConfig` is missing or throws, `runSync` throws at js/sync.js:218, before any of its checks or requests. The caller at js/desktop.js:131 then never attaches its `.then`/`.catch`. None of that path is modelled.
  - The string-or-`{config}` unwrapping and its `JSON.parse` are not modelled either, because they are JSON parsing. Their result is the `Option<Value>` that SettingsSync.RunStored and SettingsSync.ReadSyncConfig take.
- Store.Rec keeps a record's `$id` and `作成日時` as `id` and `createdAt`, not among `fields`. A setting whose copy source, join field or target names `$id` or `作成日時` therefore reads `fields` in the model. The source reads the record's own id or creation time there (`latest[field].value`, js/sync.js:95-97). Tying `createdAt`'s ordering key to the field's date-time text is not modelled.
- SyncCompute.ComputeRows: `Promise.all` in `computeAllValuesForParent` is evaluated sequentially, in order, and stops at the first rejected GET. The values and their order are the same. The source issues the remaining GETs anyway.
- The 作成日時 tie-break among child records with the same creation time is unspecified by the store. The model takes the first in record-id order.
- The regular-expression splitting of `parseQueryToRows` (js/desktop.js:259-264) is not modelled, because regex matching is out of scope. The query comes already split into or-parts, and-parts and matched atoms.
- `location`, `URLSearchParams` and `applyFilterByUrl` are not modelled, because they are navigation. `getApiBasePath` takes the pathname as a parameter.
- `zlib.deflateSync` is not modelled, because it is a library call: the IDAT data is a parameter. `fs` and `console` (scripts/ensure-icon.js:10-13, 61-63) are I/O.
- tailwind.config.js is build configuration with no logic.
- SyncPaging.FetchParentsFrom: `totalCount` is the number `parseInt` reads from the response, or absent. A `totalCount` that does not parse (NaN) is not modelled; with it the source would read pages until a short one.
- SettingsFetch.FetchFormFields: the result is a set of fields rather than the list sorted by `localeCompare` (js/config.js:113), because that order depends on the locale. For the same reason, the TypeError the comparator throws when a label is a truthy non-string is not modelled.
- SettingsFetch.FieldList: `properties` that is an array lists nothing, though `Object.keys` would list its indices.
- SettingsFetch.FetchAppList: the response is the server's app list with the offsets whose request is rejected. The `resp.apps` wrapper and the thrown-exception paths are not modelled.
- Settings.LoadConfig: an array configuration or a non-object first row is treated as throwing (None). The source would go on with an array as an object.
- SettingsSync.ReadSyncConfig: an entry that is not a string reads as "". The source would use the value itself, so a truthy non-string `parentGroupIdField` or `targetFieldCode` passes its check there but reads as "" here. A saved configuration holds only strings (SettingsSync.RunStoredPlain). A non-array `childAppSettings` and null rows never reach this reading: SettingsSync.RunStored stops them first.
- SettingsSync.RunStored: the TypeError of `childSettings.filter` is thrown synchronously by `runSync` rather than returned as a rejected promise. The model returns it as the FilterThrew failure.
- Sorting.SortSpec: strings are compared by Unicode scalar value. JavaScript compares UTF-16 code units, which orders characters outside the Basic Multilingual Plane differently.
- JsValue.ParseInt: numbers are integers. NaN, fractions and exponent notation are not modelled.
- Crc32.Crc32: the register is the unsigned reading of the source's 32-bit value, as `>>> 0` gives it, rather than a signed 32-bit integer. No concrete CRC value is computed.
- Png.Chunk: the type argument is the four ASCII bytes `Buffer.from('IHDR')` gives, rather than a JavaScript string.

## Findings

| source | as written | input that shows it | evidently intended | confidence | as-written member | corrected member |
|---|---|---|---|---|---|---|
| js/sync.js:38 | the parent query is written call-style, `orderBy("$id", "asc") limit(500) offset(n)`, which is not the store's clause syntax, so `runSync` rejects at its first GET (js/sync.js:251) whatever the store holds | any accepted configuration, offset 0 | `order by $id asc limit 500 offset n` | medium, not executed | SyncPaging.ParentQueryAsWrittenRejected | SyncPaging.GetParentPageAnswers |
| js/sync.js:63 | the child query ends call-style, `orderBy("作成日時", "desc") limit(1)`, so every child GET is rejected | any parent with a setting that has a target | `order by 作成日時 desc limit 1` | medium, not executed | SyncCompute.ChildTailAsWrittenRejected | SyncCompute.GetLatestChildAnswers |
| js/sync.js:147 | the contact query ends call-style, ` limit(500) offset(n)`, so every contact GET is rejected | any parent step with a configured contact app, offset 0 | ` limit 500 offset n` | medium, not executed | SyncPaging.ContactTailAsWrittenRejected | SyncPaging.GetContactPageAnswers |
| js/desktop.js:198-208 | the seen-set is a plain object `{}`, so `set[v]` is truthy for inherited property names such as "constructor" or "toString", and such a value is never listed | one record whose field value is "constructor" | every distinct non-empty value is listed once | high, not executed | DesktopFields.PrototypeNameCounterexample | DesktopFields.LoadFieldValuesSpec |
