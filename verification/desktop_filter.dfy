/**
  The record-list filter of js/desktop.js: `buildQueryFromTable` turns the rows of the
  filter table into a kintone query, and `parseQueryToRows` turns a query back into rows.
  The table's DOM is given as one `FilterInput` per row; the regular-expression splitting
  of a query into or-parts, and-parts and `field op "literal"` atoms is taken as given.
 */
module DesktopFilter {
  import opened Wrappers
  import opened JsValue
  import Text
  import QueryLiteral

  /** An entry of `viewSettings`; a null entry is `None`. */
  datatype ViewSetting = ViewSetting(fieldCode: string)

  /** The four selects of one filter row; `None` when the row lacks that select. */
  datatype FilterInput = FilterInput(field: Option<string>, op: Option<string>, cond: Option<string>, join: Option<string>)

  /** An entry of `rows` in `buildQueryFromTable`. */
  datatype Condition = Condition(cond: string, join: string)

  /** `escapeQueryValue`: null and undefined give "", anything else is escaped after `String(s)`. */
  function EscapeQueryValue(v: Value): (r: string)
    ensures IsNullish(v) ==> r == ""
    ensures !IsNullish(v) ==> |r| == |ToText(v)| + Text.Count(ToText(v), '\\') + Text.Count(ToText(v), '"')
  {
    if IsNullish(v) then ""
    else
      QueryLiteral.EscapeLength(ToText(v));
      QueryLiteral.Escape(ToText(v))
  }

  /**
    `unescapeQueryValue`: null and undefined give ""; otherwise `String(s)` never grows, and
    a text with no backslash and no U+0000 comes back unchanged.
   */
  function UnescapeQueryValue(v: Value): (r: string)
    ensures IsNullish(v) ==> r == ""
    ensures !IsNullish(v) ==> |r| <= |ToText(v)|
    ensures !IsNullish(v) && Text.Count(ToText(v), '\\') == 0 && Text.Count(ToText(v), QueryLiteral.NUL) == 0 ==>
              r == ToText(v)
  {
    if IsNullish(v) then ""
    else
      QueryLiteral.UnescapeShape(ToText(v));
      QueryLiteral.Unescape(ToText(v))
  }

  /** Unescaping an escaped value gives back `String(v)` whenever that text holds no U+0000. */
  lemma QueryValueRoundTrip(v: Value)
    requires !IsNullish(v)
    requires forall i :: 0 <= i < |ToText(v)| ==> ToText(v)[i] != QueryLiteral.NUL
    ensures UnescapeQueryValue(Str(EscapeQueryValue(v))) == ToText(v)
  {
    QueryLiteral.UnescapeEscape(ToText(v));
  }

  /** The setting a select value points at: `viewSettings[parseInt(value, 10)]` when it is a non-null entry. */
  function SettingAt(viewSettings: seq<Option<ViewSetting>>, value: string): Option<ViewSetting>
  {
    match ParseInt(value)
    case None => None
    case Some(idx) => if 0 <= idx < |viewSettings| then viewSettings[idx] else None
  }

  /** The text of one condition. */
  function ConditionText(fieldCode: string, negated: bool, literal: string): string
  {
    fieldCode + " " + (if negated then "!=" else "=") + " \"" + literal + "\""
  }

  /** One row of the table: skipped (`None`) when a select is missing or empty or the field index names no field. */
  function RowCondition(viewSettings: seq<Option<ViewSetting>>, tr: FilterInput): (r: Option<Condition>)
    ensures r.Some? <==>
              && tr.field.Some? && tr.cond.Some? && tr.field.value != "" && tr.cond.value != ""
              && SettingAt(viewSettings, tr.field.value).Some?
              && SettingAt(viewSettings, tr.field.value).value.fieldCode != ""
    ensures r.Some? ==>
              && r.value.cond == ConditionText(SettingAt(viewSettings, tr.field.value).value.fieldCode,
                                               tr.op == Some("neq"), QueryLiteral.Escape(tr.cond.value))
              && r.value.join == (if tr.join.Some? then tr.join.value else "and")
  {
    if tr.field.None? || tr.cond.None? || tr.field.value == "" || tr.cond.value == "" then None
    else
      match SettingAt(viewSettings, tr.field.value)
      case None => None
      case Some(setting) =>
        if setting.fieldCode == "" then None
        else
          var op := if tr.op.Some? && tr.op.value == "neq" then "!=" else "=";
          var cond := setting.fieldCode + " " + op + " \"" + QueryLiteral.Escape(tr.cond.value) + "\"";
          Some(Condition(cond, if tr.join.Some? then tr.join.value else "and"))
  }

  /** The `rows` array: the conditions of the rows that are not skipped, in table order. */
  function CollectConditions(viewSettings: seq<Option<ViewSetting>>, trs: seq<FilterInput>): (rows: seq<Condition>)
    ensures |rows| <= |trs|
  {
    if |trs| == 0 then []
    else
      var rest := CollectConditions(viewSettings, trs[1..]);
      match RowCondition(viewSettings, trs[0])
      case None => rest
      case Some(c) => [c] + rest
  }

  /** A condition is collected exactly when some row of the table produces it. */
  lemma {:induction false} CollectConditionsMembers(viewSettings: seq<Option<ViewSetting>>, trs: seq<FilterInput>)
    ensures forall c :: c in CollectConditions(viewSettings, trs) <==> exists tr :: tr in trs && RowCondition(viewSettings, tr) == Some(c)
  {
    if |trs| > 0 {
      CollectConditionsMembers(viewSettings, trs[1..]);
      forall c | (exists tr :: tr in trs && RowCondition(viewSettings, tr) == Some(c))
        ensures c in CollectConditions(viewSettings, trs)
      {
        var tr :| tr in trs && RowCondition(viewSettings, tr) == Some(c);
        if tr != trs[0] {
          var i :| 0 <= i < |trs| && trs[i] == tr;
          assert trs[1..][i - 1] == tr;
        }
      }
      forall c | c in CollectConditions(viewSettings, trs)
        ensures exists tr :: tr in trs && RowCondition(viewSettings, tr) == Some(c)
      {
        if c !in CollectConditions(viewSettings, trs[1..]) {
          assert RowCondition(viewSettings, trs[0]) == Some(c);
        } else {
          var tr :| tr in trs[1..] && RowCondition(viewSettings, tr) == Some(c);
          assert tr in trs;
        }
      }
    }
  }

  /**
    Reference definition of the join: "" for no rows, the only condition for one row,
    otherwise the join of all but the last row, combined with the last condition according
    to the join of the row before it.
   */
  function Fold(rows: seq<Condition>): string
  {
    if |rows| == 0 then ""
    else if |rows| == 1 then rows[0].cond
    else
      var acc := Fold(rows[..|rows| - 1]);
      var last := rows[|rows| - 1];
      if rows[|rows| - 2].join == "or" then "(" + acc + ") or " + last.cond else acc + " and " + last.cond
  }

  /** The loop of `buildQueryFromTable` over the collected rows. */
  method JoinConditions(rows: seq<Condition>) returns (q: string)
    ensures q == Fold(rows)
  {
    if |rows| == 0 {
      return "";
    }
    if |rows| == 1 {
      return rows[0].cond;
    }
    var acc := rows[0].cond;
    var i := 1;
    assert rows[..1] == [rows[0]];
    while i < |rows|
      invariant 1 <= i <= |rows|
      invariant acc == Fold(rows[..i])
    {
      var prevJoin := rows[i - 1].join;
      assert rows[..i + 1][..i] == rows[..i];
      if prevJoin == "or" {
        acc := "(" + acc + ") or " + rows[i].cond;
      } else {
        acc := acc + " and " + rows[i].cond;
      }
      i := i + 1;
    }
    assert rows[..|rows|] == rows;
    q := acc;
  }

  /** `buildQueryFromTable`: "" without the table body, else the joined conditions of its rows. */
  method BuildQueryFromTable(viewSettings: seq<Option<ViewSetting>>, tbody: Option<seq<FilterInput>>) returns (q: string)
    ensures tbody.None? ==> q == ""
    ensures tbody.Some? ==> q == Fold(CollectConditions(viewSettings, tbody.value))
  {
    if tbody.None? {
      return "";
    }
    q := JoinConditions(CollectConditions(viewSettings, tbody.value));
  }

  /** The join of the last row is never read. */
  lemma {:induction false} FoldIgnoresLastJoin(rows: seq<Condition>, join: string)
    requires |rows| > 0
    ensures Fold(rows[|rows| - 1 := rows[|rows| - 1].(join := join)]) == Fold(rows)
  {
    var rows' := rows[|rows| - 1 := rows[|rows| - 1].(join := join)];
    if |rows| > 1 {
      assert rows'[..|rows| - 1] == rows[..|rows| - 1];
    }
  }

  /** When no row before the last says "or", the query is the conditions joined with " and ". */
  lemma {:induction false} FoldAllAnd(rows: seq<Condition>)
    requires forall i :: 0 <= i < |rows| - 1 ==> rows[i].join != "or"
    ensures Fold(rows) == Text.Join(seq(|rows|, i requires 0 <= i < |rows| => rows[i].cond), " and ")
  {
    var conds := seq(|rows|, i requires 0 <= i < |rows| => rows[i].cond);
    if |rows| > 1 {
      var init := rows[..|rows| - 1];
      FoldAllAnd(init);
      assert seq(|init|, i requires 0 <= i < |init| => init[i].cond) == conds[..|conds| - 1];
    }
  }

  /** An "or" before the last row wraps everything before it in parentheses, so the query opens with "(". */
  lemma {:induction false} FoldOrParenthesised(rows: seq<Condition>, k: nat)
    requires k < |rows| - 1 && rows[k].join == "or"
    ensures |Fold(rows)| > 0 && Fold(rows)[0] == '('
  {
    var init := rows[..|rows| - 1];
    if k < |rows| - 2 {
      assert init[k] == rows[k];
      FoldOrParenthesised(init, k);
      var acc := Fold(init);
      if rows[|rows| - 2].join != "or" {
        assert Fold(rows) == acc + " and " + rows[|rows| - 1].cond;
        assert Fold(rows)[0] == acc[0];
      }
    }
  }

  // ---------------------------------------------------------------------------------------
  // Reading a query back into rows.

  /** What the atom pattern `^(\S+)\s*(!?=)\s*"(...)"\s*$` captures: the field, whether the operator is `!=`, the literal body. */
  datatype Atom = Atom(fieldCode: string, negated: bool, literal: string)

  /** A row of the filter table as `parseQueryToRows` returns it. */
  datatype ParsedRow = ParsedRow(fieldIdx: nat, op: string, cond: string, join: string)

  /** `viewSettings.findIndex(v => v && v.fieldCode === fieldCode)`. */
  function FindIndex(viewSettings: seq<Option<ViewSetting>>, fieldCode: string): (r: Option<nat>)
    ensures r.Some? ==> r.value < |viewSettings| && viewSettings[r.value] == Some(ViewSetting(fieldCode))
    ensures r.Some? ==> forall j :: 0 <= j < r.value ==> viewSettings[j] != Some(ViewSetting(fieldCode))
    ensures r.None? <==> forall j :: 0 <= j < |viewSettings| ==> viewSettings[j] != Some(ViewSetting(fieldCode))
  {
    if |viewSettings| == 0 then None
    else if viewSettings[0] == Some(ViewSetting(fieldCode)) then Some(0)
    else
      match FindIndex(viewSettings[1..], fieldCode)
      case None =>
        assert forall j :: 1 <= j < |viewSettings| ==> viewSettings[j] == viewSettings[1..][j - 1];
        None
      case Some(k) => Some(k + 1)
  }

  /**
    The row for the and-part `j` of or-part `i`, or `None` when the and-part does not match
    the atom pattern or its field is not in `viewSettings`. Its join is "and" inside an
    and-group and "or" after the last and-part of every or-part but the last.
   */
  function AtomRow(viewSettings: seq<Option<ViewSetting>>, parts: seq<seq<Option<Atom>>>, i: nat, j: nat): Option<ParsedRow>
    requires i < |parts| && j < |parts[i]|
  {
    match parts[i][j]
    case None => None
    case Some(a) =>
      match FindIndex(viewSettings, a.fieldCode)
      case None => None
      case Some(idx) =>
        var join := if j < |parts[i]| - 1 then "and" else if i < |parts| - 1 then "or" else "and";
        Some(ParsedRow(idx, if a.negated then "neq" else "eq", QueryLiteral.Unescape(a.literal), join))
  }

  /** The rows of and-parts `j..` of or-part `i`. */
  function AndRows(viewSettings: seq<Option<ViewSetting>>, parts: seq<seq<Option<Atom>>>, i: nat, j: nat): seq<ParsedRow>
    requires i < |parts| && j <= |parts[i]|
    decreases |parts[i]| - j
  {
    if j == |parts[i]| then []
    else
      var rest := AndRows(viewSettings, parts, i, j + 1);
      match AtomRow(viewSettings, parts, i, j)
      case None => rest
      case Some(row) => [row] + rest
  }

  /** The rows of or-parts `i..`. */
  function OrRows(viewSettings: seq<Option<ViewSetting>>, parts: seq<seq<Option<Atom>>>, i: nat): seq<ParsedRow>
    requires i <= |parts|
    decreases |parts| - i
  {
    if i == |parts| then [] else AndRows(viewSettings, parts, i, 0) + OrRows(viewSettings, parts, i + 1)
  }

  /** `rows[rows.length - 1].join = 'and'` when there is a row. */
  function LastJoinAnd(rows: seq<ParsedRow>): (r: seq<ParsedRow>)
  {
    if |rows| == 0 then rows else rows[|rows| - 1 := rows[|rows| - 1].(join := "and")]
  }

  /** `parseQueryToRows(query)`, `parts` being the query split into or-parts, and-parts and atoms. */
  function ParseQueryToRows(query: string, viewSettings: seq<Option<ViewSetting>>, parts: seq<seq<Option<Atom>>>): seq<ParsedRow>
  {
    if Text.Trim(query) == "" then [] else LastJoinAnd(OrRows(viewSettings, parts, 0))
  }

  /** The rows of and-parts `j..` of or-part `i` come from the matched atoms among them. */
  lemma {:induction false} AndRowsMember(viewSettings: seq<Option<ViewSetting>>, parts: seq<seq<Option<Atom>>>, i: nat, j: nat, row: ParsedRow)
    requires i < |parts| && j <= |parts[i]|
    ensures (row in AndRows(viewSettings, parts, i, j))
              <==> exists k :: j <= k < |parts[i]| && AtomRow(viewSettings, parts, i, k) == Some(row)
    decreases |parts[i]| - j
  {
    if j < |parts[i]| {
      AndRowsMember(viewSettings, parts, i, j + 1, row);
      var here := AtomRow(viewSettings, parts, i, j);
      var rest := AndRows(viewSettings, parts, i, j + 1);
      assert row in AndRows(viewSettings, parts, i, j) <==> here == Some(row) || row in rest;
      if here != Some(row) && !(row in rest) {
        forall k | j <= k < |parts[i]| ensures AtomRow(viewSettings, parts, i, k) != Some(row) {
        }
      }
    }
  }

  /** Exactly the matched atoms whose field is in `viewSettings` become rows, in query order. */
  lemma AndRowsMembers(viewSettings: seq<Option<ViewSetting>>, parts: seq<seq<Option<Atom>>>, i: nat, j: nat)
    requires i < |parts| && j <= |parts[i]|
    ensures forall row :: row in AndRows(viewSettings, parts, i, j)
              <==> exists k :: j <= k < |parts[i]| && AtomRow(viewSettings, parts, i, k) == Some(row)
  {
    forall row
      ensures (row in AndRows(viewSettings, parts, i, j))
              <==> exists k :: j <= k < |parts[i]| && AtomRow(viewSettings, parts, i, k) == Some(row)
    {
      AndRowsMember(viewSettings, parts, i, j, row);
    }
  }

  lemma {:induction false} OrRowsMember(viewSettings: seq<Option<ViewSetting>>, parts: seq<seq<Option<Atom>>>, i: nat, row: ParsedRow)
    requires i <= |parts|
    ensures (row in OrRows(viewSettings, parts, i))
              <==> exists p, k :: i <= p < |parts| && 0 <= k < |parts[p]| && AtomRow(viewSettings, parts, p, k) == Some(row)
    decreases |parts| - i
  {
    if i < |parts| {
      AndRowsMember(viewSettings, parts, i, 0, row);
      OrRowsMember(viewSettings, parts, i + 1, row);
      var here := AndRows(viewSettings, parts, i, 0);
      var rest := OrRows(viewSettings, parts, i + 1);
      assert row in OrRows(viewSettings, parts, i) <==> row in here || row in rest;
      if row in here {
        var k :| 0 <= k < |parts[i]| && AtomRow(viewSettings, parts, i, k) == Some(row);
      } else if !(row in rest) {
        forall p, k | i <= p < |parts| && 0 <= k < |parts[p]| ensures AtomRow(viewSettings, parts, p, k) != Some(row) {
          if p == i {
            assert !(exists k' :: 0 <= k' < |parts[i]| && AtomRow(viewSettings, parts, i, k') == Some(row));
          }
        }
      }
    }
  }

  lemma OrRowsMembers(viewSettings: seq<Option<ViewSetting>>, parts: seq<seq<Option<Atom>>>, i: nat)
    requires i <= |parts|
    ensures forall row :: row in OrRows(viewSettings, parts, i)
              <==> exists p, k :: i <= p < |parts| && 0 <= k < |parts[p]| && AtomRow(viewSettings, parts, p, k) == Some(row)
  {
    forall row
      ensures (row in OrRows(viewSettings, parts, i))
              <==> exists p, k :: i <= p < |parts| && 0 <= k < |parts[p]| && AtomRow(viewSettings, parts, p, k) == Some(row)
    {
      OrRowsMember(viewSettings, parts, i, row);
    }
  }

  /**
    A blank query gives no rows. Otherwise the rows are those of the matched atoms with a
    known field, in query order, except that the last row's join is "and".
   */
  lemma ParseQueryToRowsSpec(query: string, viewSettings: seq<Option<ViewSetting>>, parts: seq<seq<Option<Atom>>>)
    ensures var rows := ParseQueryToRows(query, viewSettings, parts);
            && (Text.Trim(query) == "" ==> rows == [])
            && (|rows| > 0 ==> rows[|rows| - 1].join == "and")
            && (Text.Trim(query) != "" ==>
                  var all := OrRows(viewSettings, parts, 0);
                  && |rows| == |all|
                  && forall n :: 0 <= n < |rows| ==>
                       && rows[n] == (if n == |rows| - 1 then all[n].(join := "and") else all[n])
                       && exists p, k :: 0 <= p < |parts| && 0 <= k < |parts[p]| && AtomRow(viewSettings, parts, p, k) == Some(all[n]))
  {
    var all := OrRows(viewSettings, parts, 0);
    OrRowsMembers(viewSettings, parts, 0);
    forall n | 0 <= n < |all|
      ensures exists p, k :: 0 <= p < |parts| && 0 <= k < |parts[p]| && AtomRow(viewSettings, parts, p, k) == Some(all[n])
    {
      assert all[n] in all;
    }
  }
  /**
    A condition written by the table reads back as a row on the same field code with the
    same operator and the same value, when the value holds no U+0000.
   */
  lemma ConditionRoundTrip(viewSettings: seq<Option<ViewSetting>>, tr: FilterInput)
    requires RowCondition(viewSettings, tr).Some?
    requires forall i :: 0 <= i < |tr.cond.value| ==> tr.cond.value[i] != QueryLiteral.NUL
    ensures var setting := SettingAt(viewSettings, tr.field.value).value;
            var atom := Atom(setting.fieldCode, tr.op == Some("neq"), QueryLiteral.Escape(tr.cond.value));
            var parts := [[Some(atom)]];
            && RowCondition(viewSettings, tr).value.cond == ConditionText(atom.fieldCode, atom.negated, atom.literal)
            && AtomRow(viewSettings, parts, 0, 0).Some?
            && var row := AtomRow(viewSettings, parts, 0, 0).value;
               && viewSettings[row.fieldIdx] == Some(setting)
               && (row.op == "neq" <==> tr.op == Some("neq"))
               && row.cond == tr.cond.value
  {
    var setting := SettingAt(viewSettings, tr.field.value).value;
    var idx := ParseInt(tr.field.value).value;
    assert viewSettings[idx] == Some(setting);
    QueryLiteral.UnescapeEscape(tr.cond.value);
  }
}
