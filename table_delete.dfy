/**
 * The database browse-and-delete page: the user ticks rows of a table by
 * their Project value, unlocks the page with a password, and the selected
 * projects are deleted with one parameterised DELETE statement in which a
 * missing Project (None) stands for SQL NULL.
 *
 * The database is an abstract list of rows, each given by its Project cell;
 * executing a statement keeps the rows whose WHERE clause does not evaluate
 * to TRUE under SQL's three-valued logic.
 */
module TableDelete {
  import opened Common

  /** A Project cell: a name, or None for NULL / NaN. */
  type Cell = Option<string>

  /** The column name as it is written into the query, quoted for case sensitivity. */
  const ProjectColumn: string := "\"Project\""

  /** How a NULL project is shown next to its checkbox. */
  const NullDisplay: string := "None (NULL)"

  const CorrectPassword: string := "password"

  // ---------------------------------------------------------------------
  // Splitting the selection into NULL and non-NULL entries
  // ---------------------------------------------------------------------

  /** `[p for p in selected_projects if p is None]` */
  function NoneSelected(selected: seq<Cell>): (r: seq<Cell>)
    ensures forall k :: 0 <= k < |r| ==> r[k] == None
    ensures |r| <= |selected|
  {
    if selected == [] then []
    else (if selected[0].None? then [None] else []) + NoneSelected(selected[1..])
  }

  /** `[p for p in selected_projects if p is not None]`, as the names themselves. */
  function NonNoneSelected(selected: seq<Cell>): (r: seq<string>)
    ensures |r| <= |selected|
    ensures forall k :: 0 <= k < |r| ==> Some(r[k]) in selected
  {
    if selected == [] then []
    else (if selected[0].Some? then [selected[0].value] else []) + NonNoneSelected(selected[1..])
  }

  /** The names again as cells. */
  function AsCells(names: seq<string>): (r: seq<Cell>)
    ensures |r| == |names|
    ensures forall k :: 0 <= k < |names| ==> r[k] == Some(names[k])
  {
    seq(|names|, k requires 0 <= k < |names| => Some(names[k]))
  }

  /** Together the two groups hold every selected entry exactly as often as the selection does. */
  lemma {:induction false} SelectionPartitionCounts(selected: seq<Cell>)
    ensures multiset(NoneSelected(selected)) + multiset(AsCells(NonNoneSelected(selected))) == multiset(selected)
    ensures |NoneSelected(selected)| + |NonNoneSelected(selected)| == |selected|
  {
    if selected != [] {
      var x, rest := selected[0], selected[1..];
      SelectionPartitionCounts(rest);
      assert selected == [x] + rest;
      if x.Some? {
        assert AsCells(NonNoneSelected(selected)) == [x] + AsCells(NonNoneSelected(rest));
      } else {
        assert NoneSelected(selected) == [None] + NoneSelected(rest);
        assert NonNoneSelected(selected) == NonNoneSelected(rest);
      }
    }
  }

  /** Each group keeps the selection's order. */
  lemma {:induction false} SelectionPartitionOrder(selected: seq<Cell>)
    ensures Subsequence(NoneSelected(selected), selected)
    ensures Subsequence(AsCells(NonNoneSelected(selected)), selected)
  {
    if selected != [] {
      var x, rest := selected[0], selected[1..];
      SelectionPartitionOrder(rest);
      var ns, cs := NoneSelected(selected), AsCells(NonNoneSelected(selected));
      if x.Some? {
        assert cs == [x] + AsCells(NonNoneSelected(rest));
        assert cs[1..] == AsCells(NonNoneSelected(rest));
        assert ns == NoneSelected(rest);
        assert ns != [] ==> ns[0] != x;
      } else {
        assert ns == [None] + NoneSelected(rest);
        assert ns[1..] == NoneSelected(rest);
        assert cs == AsCells(NonNoneSelected(rest));
        assert cs != [] ==> cs[0] != x;
      }
    }
  }

  /** The first group is empty exactly when no None was chosen; the second holds exactly the chosen names. */
  lemma {:induction false} SelectionPartitionMembers(selected: seq<Cell>)
    ensures NoneSelected(selected) != [] <==> None in selected
    ensures forall v :: v in NonNoneSelected(selected) <==> Some(v) in selected
  {
    if selected != [] {
      var x, rest := selected[0], selected[1..];
      SelectionPartitionMembers(rest);
      assert selected == [x] + rest;
      assert forall c :: c in selected <==> c == x || c in rest;
    }
  }

  // ---------------------------------------------------------------------
  // The statement: its parts, its text and its meaning
  // ---------------------------------------------------------------------

  /** One part of the WHERE clause. */
  datatype Condition =
    | ProjectIn(names: seq<string>)   // "Project" IN (:name, ...)
    | ProjectIsNull                   // "Project" IS NULL

  /** The statement handed to the database: text parts plus bound parameters. */
  datatype DeleteStatement = DeleteStatement(table: string, conditions: seq<Condition>, params: map<string, string>)

  /** The bound-parameter name of the i-th non-NULL project: `f'project{i}'`. */
  function ParamName(i: nat): (n: string)
    ensures |n| > |"project"| && n[..|"project"|] == "project"
  {
    "project" + NatToString(i)
  }

  lemma ParamNameInjective(i: nat, j: nat)
    requires ParamName(i) == ParamName(j)
    ensures i == j
  {
    PrefixCancel("project", NatToString(i), NatToString(j));
    NatToStringInjective(i, j);
  }

  /** `project0, ..., project{k-1}` */
  function ParamNames(k: nat): (r: seq<string>)
    ensures |r| == k
  {
    seq(k, i requires 0 <= i < k => ParamName(i))
  }

  /** Each name written as a placeholder, `:name`. */
  function Placeholders(names: seq<string>): (r: seq<string>)
    ensures |r| == |names|
    ensures forall k :: 0 <= k < |names| ==> r[k] == ":" + names[k]
  {
    seq(|names|, k requires 0 <= k < |names| => ":" + names[k])
  }

  function RenderCondition(c: Condition): (s: string)
    ensures |s| > 0
  {
    match c
    case ProjectIn(names) => ProjectColumn + " IN (" + Join(Placeholders(names), ", ") + ")"
    case ProjectIsNull => ProjectColumn + " IS NULL"
  }

  function RenderConditions(cs: seq<Condition>): (r: seq<string>)
    ensures |r| == |cs|
    ensures forall k :: 0 <= k < |cs| ==> r[k] == RenderCondition(cs[k])
  {
    seq(|cs|, k requires 0 <= k < |cs| => RenderCondition(cs[k]))
  }

  /** `' OR '.join(query_parts)` */
  function WhereClause(s: DeleteStatement): (w: string)
    ensures s.conditions != [] ==> |w| > 0
  {
    Join(RenderConditions(s.conditions), " OR ")
  }

  /** The query text sent to the database. */
  function Sql(s: DeleteStatement): string
  {
    "DELETE FROM " + s.table + " WHERE " + WhereClause(s)
  }

  /** SQL's three truth values. */
  datatype Truth = Yes | No | Unknown

  function Or(a: Truth, b: Truth): Truth
  {
    if a == Yes || b == Yes then Yes
    else if a == Unknown || b == Unknown then Unknown
    else No
  }

  /** A condition evaluated on a row's Project cell; `IN` on NULL is unknown. */
  function EvalCondition(c: Condition, params: map<string, string>, cell: Cell): Truth
  {
    match c
    case ProjectIn(names) =>
      if cell.None? then Unknown
      else if exists k :: 0 <= k < |names| && names[k] in params && params[names[k]] == cell.value then Yes
      else No
    case ProjectIsNull => if cell.None? then Yes else No
  }

  /** The conditions joined by OR. */
  function EvalWhere(cs: seq<Condition>, params: map<string, string>, cell: Cell): Truth
  {
    if cs == [] then No else Or(EvalCondition(cs[0], params, cell), EvalWhere(cs[1..], params, cell))
  }

  /** The statement deletes a row with this Project cell. */
  predicate Deletes(s: DeleteStatement, cell: Cell)
  {
    EvalWhere(s.conditions, s.params, cell) == Yes
  }

  /** The conditions delete_rows builds for a selection. */
  function PlannedConditions(selected: seq<Cell>): seq<Condition>
  {
    var names := NonNoneSelected(selected);
    (if names != [] then [ProjectIn(ParamNames(|names|))] else [])
      + (if None in selected then [ProjectIsNull] else [])
  }

  /** The parameters delete_rows binds: `project{i}` to the i-th non-NULL name. */
  ghost predicate BindsNames(params: map<string, string>, names: seq<string>)
  {
    && params.Keys == (set i | 0 <= i < |names| :: ParamName(i))
    && forall i :: 0 <= i < |names| ==> ParamName(i) in params && params[ParamName(i)] == names[i]
  }

  /** Under the planned conditions a NULL Project is deleted exactly when None was selected. */
  lemma PlanMatchesNull(selected: seq<Cell>, s: DeleteStatement)
    requires s.conditions == PlannedConditions(selected)
    ensures Deletes(s, None) <==> None in selected
  {
    var names := NonNoneSelected(selected);
    var nullPart := if None in selected then [ProjectIsNull] else [];
    assert EvalWhere(nullPart, s.params, None) == (if None in selected then Yes else No);
    if names != [] {
      assert s.conditions == [ProjectIn(ParamNames(|names|))] + nullPart;
      assert s.conditions[1..] == nullPart;
      assert EvalCondition(s.conditions[0], s.params, None) == Unknown;
    } else {
      assert s.conditions == nullPart;
    }
  }

  /** Under the planned conditions and parameters a named Project is deleted exactly when it was selected. */
  lemma PlanMatchesName(selected: seq<Cell>, s: DeleteStatement, v: string)
    requires s.conditions == PlannedConditions(selected)
    requires BindsNames(s.params, NonNoneSelected(selected))
    ensures Deletes(s, Some(v)) <==> v in NonNoneSelected(selected)
  {
    var names := NonNoneSelected(selected);
    var nullPart := if None in selected then [ProjectIsNull] else [];
    assert EvalWhere(nullPart, s.params, Some(v)) == No;
    if names != [] {
      var c := ProjectIn(ParamNames(|names|));
      assert s.conditions == [c] + nullPart;
      assert s.conditions[1..] == nullPart;
      if v in names {
        var k :| 0 <= k < |names| && names[k] == v;
        assert ParamNames(|names|)[k] == ParamName(k);
        assert EvalCondition(c, s.params, Some(v)) == Yes;
      } else {
        forall k | 0 <= k < |names|
          ensures !(ParamNames(|names|)[k] in s.params && s.params[ParamNames(|names|)[k]] == v)
        {
          assert ParamNames(|names|)[k] == ParamName(k);
          assert names[k] in names;
        }
        assert EvalCondition(c, s.params, Some(v)) == No;
      }
    } else {
      assert s.conditions == nullPart;
    }
  }

  /** A statement of the planned shape deletes exactly the selected cells, NULL included. */
  lemma PlanMatchesSelection(selected: seq<Cell>, s: DeleteStatement)
    requires s.conditions == PlannedConditions(selected)
    requires BindsNames(s.params, NonNoneSelected(selected))
    ensures forall cell :: Deletes(s, cell) <==> cell in selected
  {
    SelectionPartitionMembers(selected);
    forall cell
      ensures Deletes(s, cell) <==> cell in selected
    {
      if cell.None? {
        PlanMatchesNull(selected, s);
      } else {
        PlanMatchesName(selected, s, cell.value);
      }
    }
  }

  /** The text of the `IN` part for k names: `"Project" IN (:project0, ..., :project{k-1})`. */
  function InText(k: nat): string
  {
    ProjectColumn + " IN (" + Join(Placeholders(ParamNames(k)), ", ") + ")"
  }

  /** The text of the `IS NULL` part. */
  const NullText: string := ProjectColumn + " IS NULL"

  /**
   * The WHERE clause delete_rows writes for a selection: the `IN` part with
   * one placeholder per chosen name, then `OR`, then the `IS NULL` part,
   * each present only when needed.
   */
  function PlannedWhere(selected: seq<Cell>): string
  {
    var k := |NonNoneSelected(selected)|;
    if k > 0 && None in selected then InText(k) + " OR " + NullText
    else if k > 0 then InText(k)
    else if None in selected then NullText
    else ""
  }

  /** A statement with the planned conditions renders exactly that clause. */
  lemma PlannedWhereText(selected: seq<Cell>, s: DeleteStatement)
    requires s.conditions == PlannedConditions(selected)
    ensures WhereClause(s) == PlannedWhere(selected)
  {
    var k := |NonNoneSelected(selected)|;
    var cs := s.conditions;
    var parts := RenderConditions(cs);
    if k > 0 && None in selected {
      assert cs == [ProjectIn(ParamNames(k)), ProjectIsNull];
      assert parts[0] == InText(k) && parts[1] == NullText;
      assert parts[1..] == [NullText];
      assert Join(parts, " OR ") == parts[0] + " OR " + Join(parts[1..], " OR ");
    } else if k > 0 {
      assert cs == [ProjectIn(ParamNames(k))];
      assert parts[0] == InText(k);
    } else if None in selected {
      assert cs == [ProjectIsNull];
      assert parts[0] == NullText;
    } else {
      assert cs == [];
    }
  }

  /** The full query text of a statement with the planned conditions. */
  lemma PlannedSql(selected: seq<Cell>, s: DeleteStatement)
    requires s.conditions == PlannedConditions(selected)
    ensures Sql(s) == "DELETE FROM " + s.table + " WHERE " + PlannedWhere(selected)
  {
    PlannedWhereText(selected, s);
  }

  /** `{f'project{i}': project for i, project in enumerate(names)}` */
  function BoundParams(names: seq<string>): (m: map<string, string>)
    ensures BindsNames(m, names)
  {
    assert forall i, j :: 0 <= i < |names| && 0 <= j < |names| && ParamName(i) == ParamName(j) ==> i == j by {
      forall i, j | 0 <= i < |names| && 0 <= j < |names| && ParamName(i) == ParamName(j)
        ensures i == j
      {
        ParamNameInjective(i, j);
      }
    }
    map i | 0 <= i < |names| :: ParamName(i) := names[i]
  }

  /**
   * delete_rows' statement construction: nothing for an empty selection;
   * otherwise an `IN` part when some name is chosen, then an `IS NULL` part
   * when None is chosen, parameters `project{i}` bound to the non-NULL names
   * in order, a WHERE clause that is never empty, the query text
   * `DELETE FROM <table> WHERE <planned clause>`, and a statement that
   * deletes a row exactly when its Project cell was selected.
   */
  method PlanDelete(table: string, selected: seq<Cell>) returns (plan: Option<DeleteStatement>)
    ensures plan.None? <==> selected == []
    ensures plan.Some? ==> plan.value.table == table
    ensures plan.Some? ==> plan.value.conditions == PlannedConditions(selected)
    ensures plan.Some? ==> BindsNames(plan.value.params, NonNoneSelected(selected))
    ensures plan.Some? ==> |WhereClause(plan.value)| > 0
    ensures plan.Some? ==> Sql(plan.value) == "DELETE FROM " + table + " WHERE " + PlannedWhere(selected)
    ensures plan.Some? ==> forall cell :: Deletes(plan.value, cell) <==> cell in selected
  {
    if selected == [] {
      return None;
    }
    var names := NonNoneSelected(selected);
    var queryParts: seq<Condition> := [];
    var params: map<string, string> := map[];
    if names != [] {
      queryParts := queryParts + [ProjectIn(ParamNames(|names|))];
      params := params + BoundParams(names);
    }
    if None in selected {
      queryParts := queryParts + [ProjectIsNull];
    }
    SelectionPartitionMembers(selected);
    var s := DeleteStatement(table, queryParts, params);
    PlanMatchesSelection(selected, s);
    PlannedSql(selected, s);
    plan := Some(s);
  }

  // ---------------------------------------------------------------------
  // Executing the statement against the table
  // ---------------------------------------------------------------------

  /** The rows the database keeps after executing the statement. */
  function Survivors(s: DeleteStatement, rows: seq<Cell>): (r: seq<Cell>)
    ensures |r| <= |rows|
  {
    if rows == [] then []
    else (if Deletes(s, rows[0]) then [] else [rows[0]]) + Survivors(s, rows[1..])
  }

  /** The rows whose Project was not selected, in table order. */
  function Unselected(rows: seq<Cell>, selected: seq<Cell>): (r: seq<Cell>)
  {
    if rows == [] then []
    else (if rows[0] in selected then [] else [rows[0]]) + Unselected(rows[1..], selected)
  }

  /**
   * What stays keeps table order, and a Project value stays iff it is in the
   * table and was not selected (UnselectedPositions: each such row once).
   */
  lemma {:induction false} UnselectedProperties(rows: seq<Cell>, selected: seq<Cell>)
    ensures Subsequence(Unselected(rows, selected), rows)
    ensures forall c :: c in Unselected(rows, selected) <==> c in rows && c !in selected
  {
    if rows != [] {
      UnselectedProperties(rows[1..], selected);
      var u, ur := Unselected(rows, selected), Unselected(rows[1..], selected);
      assert rows == [rows[0]] + rows[1..];
      if rows[0] in selected {
        assert u == ur;
        assert u != [] ==> u[0] != rows[0];
      } else {
        assert u == [rows[0]] + ur;
        assert u[1..] == ur;
      }
    }
  }

  /**
   * The rows left are the table's rows at the ascending positions of the
   * unselected ones: each such row once, in table order, and no other.
   */
  lemma {:induction false} UnselectedPositions(rows: seq<Cell>, selected: seq<Cell>) returns (idx: seq<nat>)
    ensures AtPositions(Unselected(rows, selected), rows, idx)
    ensures forall k :: 0 <= k < |rows| ==> (k in idx <==> rows[k] !in selected)
  {
    if rows == [] {
      idx := [];
    } else {
      var rest := UnselectedPositions(rows[1..], selected);
      var keep := rows[0] !in selected;
      assert Unselected(rows, selected) == (if keep then [rows[0]] else []) + Unselected(rows[1..], selected);
      AtPositionsCons(Unselected(rows[1..], selected), rows, rest, keep);
      ShiftMembers(rest);
      var shifted := Shift(rest);
      idx := (if keep then [0] else []) + shifted;
      forall k | 0 <= k < |rows|
        ensures k in idx <==> rows[k] !in selected
      {
        if k > 0 {
          assert rows[1..][k - 1] == rows[k];
          assert k in idx <==> (k - 1) + 1 in shifted;
        } else {
          assert 0 !in shifted;
        }
      }
    }
  }

  /** A statement that deletes exactly the selected cells keeps exactly the unselected rows. */
  lemma {:induction false} SurvivorsAreUnselected(s: DeleteStatement, rows: seq<Cell>, selected: seq<Cell>)
    requires forall cell :: Deletes(s, cell) <==> cell in selected
    ensures Survivors(s, rows) == Unselected(rows, selected)
  {
    if rows != [] {
      SurvivorsAreUnselected(s, rows[1..], selected);
    }
  }

  /**
   * delete_rows: an empty selection deletes nothing and sends no statement;
   * otherwise the planned statement is sent, and unless the database reports
   * an error (then the count is 0 and the table as it was) exactly the rows
   * whose Project was selected are gone and their number is returned.
   */
  method DeleteRows(table: string, selected: seq<Cell>, rows: seq<Cell>, dbError: bool)
    returns (deleted: nat, remaining: seq<Cell>, sent: Option<DeleteStatement>)
    ensures selected == [] ==> deleted == 0 && remaining == rows && sent == None
    ensures selected != [] ==> sent.Some? && sent.value.table == table
    ensures selected != [] ==> sent.Some? && sent.value.conditions == PlannedConditions(selected)
    ensures selected != [] ==> sent.Some? && BindsNames(sent.value.params, NonNoneSelected(selected))
    ensures selected != [] ==> sent.Some? && Sql(sent.value) == "DELETE FROM " + table + " WHERE " + PlannedWhere(selected)
    ensures selected != [] && dbError ==> deleted == 0 && remaining == rows
    ensures selected != [] && !dbError ==> remaining == Unselected(rows, selected)
    ensures selected != [] && !dbError ==> deleted == |rows| - |remaining|
    ensures selected != [] && !dbError ==> forall c :: c in remaining <==> c in rows && c !in selected
  {
    sent := PlanDelete(table, selected);
    if sent.None? {
      return 0, rows, sent;
    }
    if dbError {
      return 0, rows, sent;
    }
    remaining := Survivors(sent.value, rows);
    SurvivorsAreUnselected(sent.value, rows, selected);
    UnselectedProperties(rows, selected);
    deleted := |rows| - |remaining|;
  }

  // ---------------------------------------------------------------------
  // Choosing rows on the page
  // ---------------------------------------------------------------------

  /** A NULL / NaN project is shown as 'None (NULL)', any other by its name. */
  function DisplayName(cell: Cell): (d: string)
    ensures cell.None? ==> d == NullDisplay
    ensures cell.Some? ==> d == cell.value
  {
    match cell
    case None => NullDisplay
    case Some(name) => name
  }

  /** The checkbox text of the row at `index`: `f"Select row {index+1}: {display_name}"`. */
  function RowLabel(index: nat, cell: Cell): string
  {
    "Select row " + NatToString(index + 1) + ": " + DisplayName(cell)
  }

  /** The Project cells of the ticked rows, in row order. */
  function CheckedRows(rows: seq<Cell>, checked: seq<bool>): seq<Cell>
    requires |checked| == |rows|
  {
    if rows == [] then []
    else
      var n := |rows| - 1;
      CheckedRows(rows[..n], checked[..n]) + (if checked[n] then [rows[n]] else [])
  }

  /** The collected cells keep the rows' order. */
  lemma {:induction false} CheckedRowsInOrder(rows: seq<Cell>, checked: seq<bool>)
    requires |checked| == |rows|
    ensures Subsequence(CheckedRows(rows, checked), rows)
  {
    if rows != [] {
      var n := |rows| - 1;
      var before := CheckedRows(rows[..n], checked[..n]);
      CheckedRowsInOrder(rows[..n], checked[..n]);
      SubsequenceAppend(before, rows[..n], rows[n], checked[n]);
      assert rows[..n] + [rows[n]] == rows;
      assert CheckedRows(rows, checked) == if checked[n] then before + [rows[n]] else before;
    }
  }

  /**
   * The collected cells are the rows' cells at the ascending positions of
   * the ticked rows: each ticked row once, in row order, and no other.
   */
  lemma {:induction false} CheckedRowsPositions(rows: seq<Cell>, checked: seq<bool>) returns (idx: seq<nat>)
    requires |checked| == |rows|
    ensures AtPositions(CheckedRows(rows, checked), rows, idx)
    ensures forall k :: 0 <= k < |rows| ==> (k in idx <==> checked[k])
  {
    if rows == [] {
      idx := [];
    } else {
      var n := |rows| - 1;
      var before := CheckedRowsPositions(rows[..n], checked[..n]);
      AtPositionsSnoc(CheckedRows(rows[..n], checked[..n]), rows, before, checked[n]);
      idx := before + (if checked[n] then [n] else []);
      forall k | 0 <= k < |rows|
        ensures k in idx <==> checked[k]
      {
        if k < n {
          assert checked[..n][k] == checked[k];
          assert k in idx <==> k in before;
        } else {
          assert n !in before;
        }
      }
    }
  }

  /** One cell is collected per ticked row. */
  lemma {:induction false} CheckedRowsCount(rows: seq<Cell>, checked: seq<bool>)
    requires |checked| == |rows|
    ensures |CheckedRows(rows, checked)| == |set k | 0 <= k < |rows| && checked[k]|
  {
    if rows != [] {
      var n := |rows| - 1;
      CheckedRowsCount(rows[..n], checked[..n]);
      var before := set k | 0 <= k < n && checked[..n][k];
      var all := set k | 0 <= k < |rows| && checked[k];
      if checked[n] {
        assert all == before + {n};
      } else {
        assert all == before;
      }
    }
  }

  /** Exactly the ticked rows' cells are collected; a ticked NULL row is collected as None. */
  lemma {:induction false} CheckedRowsMembers(rows: seq<Cell>, checked: seq<bool>)
    requires |checked| == |rows|
    ensures forall k :: 0 <= k < |rows| && checked[k] ==> rows[k] in CheckedRows(rows, checked)
    ensures forall c :: c in CheckedRows(rows, checked) ==> exists k :: 0 <= k < |rows| && checked[k] && rows[k] == c
  {
    if rows != [] {
      var n := |rows| - 1;
      CheckedRowsMembers(rows[..n], checked[..n]);
      var before := CheckedRows(rows[..n], checked[..n]);
      assert CheckedRows(rows, checked) == before + (if checked[n] then [rows[n]] else []);
      forall c | c in CheckedRows(rows, checked)
        ensures exists k :: 0 <= k < |rows| && checked[k] && rows[k] == c
      {
        if c in before {
          var k :| 0 <= k < n && checked[..n][k] && rows[..n][k] == c;
          assert checked[k] && rows[k] == c;
        } else {
          assert checked[n] && rows[n] == c;
        }
      }
      forall k | 0 <= k < |rows| && checked[k]
        ensures rows[k] in CheckedRows(rows, checked)
      {
        if k < n {
          assert checked[..n][k] && rows[..n][k] == rows[k];
        }
      }
    }
  }

  /**
   * The row-selection loop: every row gets a checkbox labelled with its
   * position and display name, and the ticked rows' Project cells are
   * appended in row order.
   */
  method CollectSelection(rows: seq<Cell>, checked: seq<bool>) returns (labels: seq<string>, selected: seq<Cell>)
    requires |checked| == |rows|
    ensures |labels| == |rows|
    ensures forall k :: 0 <= k < |rows| ==> labels[k] == RowLabel(k, rows[k])
    ensures selected == CheckedRows(rows, checked)
  {
    labels, selected := [], [];
    var index := 0;
    while index < |rows|
      invariant 0 <= index <= |rows|
      invariant |labels| == index
      invariant forall k :: 0 <= k < index ==> labels[k] == RowLabel(k, rows[k])
      invariant selected == CheckedRows(rows[..index], checked[..index])
    {
      labels := labels + [RowLabel(index, rows[index])];
      if checked[index] {
        selected := selected + [rows[index]];
      }
      assert rows[..index + 1][..index] == rows[..index];
      assert checked[..index + 1][..index] == checked[..index];
      index := index + 1;
    }
    assert rows[..index] == rows && checked[..index] == checked;
  }

  // ---------------------------------------------------------------------
  // The password gate
  // ---------------------------------------------------------------------

  /** The page's session state. */
  class DeletePage {
    var passwordEntered: bool

    /** Every run of the page starts locked. */
    constructor ()
      ensures !passwordEntered
    {
      passwordEntered := false;
    }

    /** check_password: unlocked exactly when the password is the configured one. */
    method CheckPassword(password: string)
      modifies this
      ensures passwordEntered <==> password == CorrectPassword
    {
      if password == CorrectPassword {
        passwordEntered := true;
      } else {
        passwordEntered := false;
      }
    }
  }

  /** What the page does once the password has been checked. */
  datatype PageAction =
    | ShowLockedHint       // "Deletion allowed with correct pw"
    | Wait                 // unlocked, button not pressed
    | ReportNothingChosen  // pressed with an empty selection
    | RunDelete            // delete_rows is called

  function DeleteAction(unlocked: bool, pressed: bool, selected: seq<Cell>): (a: PageAction)
    ensures a == RunDelete <==> unlocked && pressed && selected != []
    ensures a == ShowLockedHint <==> !unlocked
    ensures a == ReportNothingChosen <==> unlocked && pressed && selected == []
  {
    if !unlocked then ShowLockedHint
    else if !pressed then Wait
    else if selected == [] then ReportNothingChosen
    else RunDelete
  }
}
