/** Moving the rows of a table plan under a template's columns: the coercion in
    artpm_agent/artifacts/coordinator.py followed by the generator's row check in
    artpm_agent/artifacts/generator.py. */
module RowRealignment {
  import opened Common
  import opened Text

  // ---------- Plans ----------

  /** A cell: nothing, text, a number with its spelling, or a truth value. */
  datatype Scalar = Null | Str(text: string) | Number(spelling: string, finite: bool) | Flag(value: bool)

  datatype Row = ListRow(cells: seq<Scalar>) | DictRow(entries: map<string, Scalar>)

  datatype Plan = Plan(columns: seq<string>, rows: seq<Row>)

  function Stripped(names: seq<string>): (r: seq<string>)
    ensures |r| == |names|
    ensures forall i :: 0 <= i < |names| ==> r[i] == Strip(names[i])
  {
    seq(|names|, i requires 0 <= i < |names| => Strip(names[i]))
  }

  /** What `validate_table` lets through. Column names are checked trimmed but kept as they are. */
  predicate ValidRow(plan: Plan, row: Row) {
    match row
    case ListRow(cells) => |cells| == |plan.columns|
    case DictRow(entries) => forall key :: key in entries ==> key in Stripped(plan.columns)
  }

  predicate ValidPlan(plan: Plan) {
    && (forall i :: 0 <= i < |plan.columns| ==> Strip(plan.columns[i]) != [])
    && Distinct(Stripped(plan.columns))
    && forall i :: 0 <= i < |plan.rows| ==> ValidRow(plan, plan.rows[i])
  }

  /** A template sheet learned with clean column names. */
  predicate CleanColumns(columns: seq<string>) {
    columns != [] && Distinct(columns) && forall i :: 0 <= i < |columns| ==> columns[i] != [] && Trimmed(columns[i])
  }

  // ---------- Coercion ----------

  function Get(entries: map<string, Scalar>, key: string): Scalar {
    if key in entries then entries[key] else Null
  }

  /** `dict(zip(keys, cells))`: a repeated key keeps its last cell. */
  function Zip(keys: seq<string>, cells: seq<Scalar>): map<string, Scalar>
    decreases |keys|
  {
    if keys == [] || |cells| < |keys| then map[]
    else Zip(keys[..|keys| - 1], cells)[keys[|keys| - 1] := cells[|keys| - 1]]
  }

  function Pick(entries: map<string, Scalar>, columns: seq<string>): map<string, Scalar> {
    map column | column in columns :: Get(entries, column)
  }

  function CoercedRow(plan: Plan, columns: seq<string>, row: Row): Row {
    match row
    case DictRow(entries) => DictRow(Pick(entries, columns))
    case ListRow(cells) =>
      if plan.columns == columns then row else DictRow(Pick(Zip(plan.columns, cells), columns))
  }

  /** `_coerce_plan_rows_to_template`; a list row of the wrong width would be skipped. */
  method CoercePlanRows(plan: Plan, columns: seq<string>) returns (rows: seq<Row>)
    requires ValidPlan(plan)
    ensures |rows| == |plan.rows|
    ensures forall i :: 0 <= i < |rows| ==> rows[i] == CoercedRow(plan, columns, plan.rows[i])
  {
    hide Zip, Pick;
    rows := [];
    for i := 0 to |plan.rows|
      invariant |rows| == i
      invariant forall k :: 0 <= k < i ==> rows[k] == CoercedRow(plan, columns, plan.rows[k])
    {
      var row := plan.rows[i];
      assert ValidRow(plan, row);
      if row.DictRow? {
        rows := rows + [DictRow(Pick(row.entries, columns))];
      } else if |row.cells| == |plan.columns| {
        var entries := Zip(plan.columns, row.cells);
        if plan.columns == columns {
          rows := rows + [row];
        } else {
          rows := rows + [DictRow(Pick(entries, columns))];
        }
      }
    }
  }

  // ---------- The generator's rows ----------

  datatype Limits = Limits(maxRows: nat, maxCellChars: nat)

  /** Text that a spreadsheet would run. */
  predicate Formula(v: Scalar) {
    v.Str? && "=" <= v.text
  }

  /** A cell is entered as it is, except that a formula is entered as the same text after one quote. */
  predicate Entered(cell: Scalar, written: Scalar) {
    if Formula(cell) then written == Str("'" + cell.text) else written == cell
  }

  /** What no sheet may hold: a number that is not finite, and text over the limit. */
  predicate NotAllowed(cell: Scalar, limits: Limits) {
    (cell.Number? && !cell.finite) || (cell.Str? && |cell.text| > limits.maxCellChars)
  }

  /** `_cell_value`. */
  function CellValue(v: Scalar, limits: Limits): (r: Result<Scalar, string>)
    ensures r.Err? <==> NotAllowed(v, limits)
    ensures r.Ok? ==> Entered(v, r.value) && !Formula(r.value)
    ensures r.Ok? && r.value.Str? ==> |r.value.text| <= limits.maxCellChars + 1
  {
    match v
    case Null => Ok(Null)
    case Number(_, finite) => if finite then Ok(v) else Err("non-finite number")
    case Flag(_) => Ok(v)
    case Str(text) =>
      if |text| > limits.maxCellChars then Err("cell too long")
      else Ok(if text != [] && text[0] == '=' then Str("'" + text) else v)
  }

  /** The cells of one row in column order, before they are checked. */
  function Laid(columns: seq<string>, row: Row): Result<seq<Scalar>, string> {
    match row
    case DictRow(entries) =>
      if exists key :: key in entries && key !in columns then Err("unknown columns")
      else Ok(seq(|columns|, j requires 0 <= j < |columns| => Get(entries, columns[j])))
    case ListRow(cells) => if |cells| != |columns| then Err("wrong width") else Ok(cells)
  }

  /** `_table_rows`. */
  method TableRows(columns: seq<string>, rows: seq<Row>, limits: Limits) returns (r: Result<seq<seq<Scalar>>, string>)
    ensures r.Err? <==> |rows| > limits.maxRows || exists i :: 0 <= i < |rows| && Refused(columns, rows[i], limits)
    ensures r.Ok? ==> |r.value| == |rows| && forall i :: 0 <= i < |rows| ==> Checked(columns, rows[i], limits, r.value[i])
  {
    var table: seq<seq<Scalar>> := [];
    for i := 0 to |rows|
      invariant |table| == i && i <= limits.maxRows
      invariant forall k :: 0 <= k < i ==> Checked(columns, rows[k], limits, table[k]) && !Refused(columns, rows[k], limits)
    {
      if i + 1 > limits.maxRows {
        return Err("too many rows");
      }
      var laid := Laid(columns, rows[i]);
      if laid.Err? {
        assert Refused(columns, rows[i], limits);
        return Err(laid.error);
      }
      var values: seq<Scalar> := [];
      for j := 0 to |laid.value|
        invariant |values| == j
        invariant forall k :: 0 <= k < j ==> CellValue(laid.value[k], limits) == Ok(values[k])
      {
        var cell := CellValue(laid.value[j], limits);
        if cell.Err? {
          assert Refused(columns, rows[i], limits);
          return Err(cell.error);
        }
        values := values + [cell.value];
      }
      table := table + [values];
    }
    return Ok(table);
  }

  /** The row does not fit the columns or holds a cell that is not allowed. */
  predicate Refused(columns: seq<string>, row: Row, limits: Limits) {
    var laid := Laid(columns, row);
    laid.Err? || exists j :: 0 <= j < |laid.value| && CellValue(laid.value[j], limits).Err?
  }

  /** `values` is the row, laid out and checked. */
  predicate Checked(columns: seq<string>, row: Row, limits: Limits, values: seq<Scalar>) {
    var laid := Laid(columns, row);
    && laid.Ok? && |values| == |laid.value|
    && forall j :: 0 <= j < |values| ==> CellValue(laid.value[j], limits) == Ok(values[j])
  }

  /** The cell that a row has for column `j`: a mapping's by name, and none if the name is missing; a list's by
      place. */
  function CellAt(columns: seq<string>, row: Row, j: nat): Scalar
    requires j < |columns| && (row.ListRow? ==> |row.cells| == |columns|)
  {
    match row
    case DictRow(entries) => if columns[j] in entries then entries[columns[j]] else Null
    case ListRow(cells) => cells[j]
  }

  predicate Fits(columns: seq<string>, row: Row) {
    match row
    case DictRow(entries) => forall key :: key in entries ==> key in columns
    case ListRow(cells) => |cells| == |columns|
  }

  /** Which rows a sheet refuses, and what it enters for the others: a mapping with a name that is no column, a
      list of another width and a cell that is not allowed are refused; every other cell is entered under its
      column. */
  lemma RowsExactly(columns: seq<string>, row: Row, limits: Limits, values: seq<Scalar>)
    ensures Refused(columns, row, limits) <==>
      !Fits(columns, row) || exists j :: 0 <= j < |columns| && NotAllowed(CellAt(columns, row, j), limits)
    ensures Checked(columns, row, limits, values) ==>
      Fits(columns, row) && |values| == |columns| && forall j :: 0 <= j < |columns| ==> Entered(CellAt(columns, row, j), values[j])
  {
    hide Entered, NotAllowed;
    var laid := Laid(columns, row);
    assert laid.Ok? <==> Fits(columns, row);
    if laid.Ok? {
      assert |laid.value| == |columns|;
      assert forall j :: 0 <= j < |columns| ==> laid.value[j] == CellAt(columns, row, j);
    }
  }

  // ---------- Realignment keeps the plan's cells ----------

  /** The cell of a plan row under a column spelled exactly `column`. */
  function PlanCell(plan: Plan, row: Row, column: string): Scalar {
    match row
    case DictRow(entries) => Get(entries, column)
    case ListRow(cells) => Get(Zip(plan.columns, cells), column)
  }

  lemma {:induction false} ZipFinds(keys: seq<string>, cells: seq<Scalar>, i: nat)
    requires Distinct(keys) && |cells| >= |keys| && i < |keys|
    ensures Get(Zip(keys, cells), keys[i]) == cells[i]
    decreases |keys|
  {
    if i < |keys| - 1 {
      ZipFinds(keys[..|keys| - 1], cells, i);
    }
  }

  lemma {:induction false} ZipFindsNothing(keys: seq<string>, cells: seq<Scalar>, key: string)
    requires key !in keys
    ensures Get(Zip(keys, cells), key) == Null
    decreases |keys|
  {
    if keys != [] {
      ZipFindsNothing(keys[..|keys| - 1], cells, key);
    }
  }

  lemma UniqueUnstripped(names: seq<string>)
    requires Distinct(Stripped(names))
    ensures Distinct(names)
  {
    forall i, j | 0 <= i < j < |names| ensures names[i] != names[j] {
      assert Stripped(names)[i] != Stripped(names)[j];
    }
  }

  /** A coerced row always fits the template: it lays out as the plan's cells under the template's
      columns. */
  lemma CoercedRowLaid(plan: Plan, columns: seq<string>, row: Row)
    requires ValidPlan(plan) && CleanColumns(columns) && ValidRow(plan, row)
    ensures var laid := Laid(columns, CoercedRow(plan, columns, row));
      laid.Ok? && |laid.value| == |columns| && forall j :: 0 <= j < |columns| ==> laid.value[j] == PlanCell(plan, row, columns[j])
  {
    hide Zip, Strip;
    if row.ListRow? && plan.columns == columns {
      UniqueUnstripped(columns);
      forall j | 0 <= j < |columns| ensures row.cells[j] == PlanCell(plan, row, columns[j]) {
        ZipFinds(columns, row.cells, j);
      }
    }
  }

  /** Row realignment for a validated plan and a clean template. It fails exactly on the row limit or on
      a cell that is not allowed; otherwise there are as many rows as planned, each as wide as the
      template, with the plan's cell under each column of that name and nothing under the others, for
      list and mapping rows alike. */
  method RealignedRows(plan: Plan, columns: seq<string>, limits: Limits) returns (r: Result<seq<seq<Scalar>>, string>)
    requires ValidPlan(plan) && CleanColumns(columns)
    ensures r.Err? <==> (
      || |plan.rows| > limits.maxRows
      || exists i, j :: 0 <= i < |plan.rows| && 0 <= j < |columns| && NotAllowed(PlanCell(plan, plan.rows[i], columns[j]), limits))
    ensures r.Ok? ==> |r.value| == |plan.rows| && forall i :: 0 <= i < |plan.rows| ==> (
      |r.value[i]| == |columns| &&
        forall j :: 0 <= j < |columns| ==> Entered(PlanCell(plan, plan.rows[i], columns[j]), r.value[i][j]))
  {
    hide PlanCell, CoercedRow, Laid, CellValue, CleanColumns, Entered, NotAllowed, Formula;
    var rows := CoercePlanRows(plan, columns);
    r := TableRows(columns, rows, limits);
    forall i | 0 <= i < |rows|
      ensures Refused(columns, rows[i], limits) <==> exists j :: 0 <= j < |columns| && NotAllowed(PlanCell(plan, plan.rows[i], columns[j]), limits)
      ensures var laid := Laid(columns, rows[i]);
        laid.Ok? && |laid.value| == |columns| && forall j :: 0 <= j < |columns| ==> laid.value[j] == PlanCell(plan, plan.rows[i], columns[j])
    {
      assert ValidRow(plan, plan.rows[i]);
      CoercedRowLaid(plan, columns, plan.rows[i]);
    }
  }

  /** The cell the plan meant for a template column: under the plan column that trims to it. */
  predicate Meant(plan: Plan, row: Row, column: string, cell: Scalar) {
    match row
    case DictRow(entries) => cell == Get(entries, column)
    case ListRow(cells) =>
      |cells| == |plan.columns| && exists p :: 0 <= p < |cells| && Strip(plan.columns[p]) == column && cells[p] == cell
  }

  /** Validation trims the plan's columns but coercion does not. A cell of a list row that was meant for
      a template column arrives there if and only if its plan column is itself trimmed, or there was
      nothing in it. */
  lemma MeantCellArrivesExactly(plan: Plan, columns: seq<string>, cells: seq<Scalar>, p: nat)
    requires ValidPlan(plan) && CleanColumns(columns) && |cells| == |plan.columns| && p < |cells|
    requires Strip(plan.columns[p]) in columns
    ensures PlanCell(plan, ListRow(cells), Strip(plan.columns[p])) == cells[p] <==>
      Trimmed(plan.columns[p]) || cells[p] == Null
  {
    var column := Strip(plan.columns[p]);
    StripTrims(plan.columns[p]);
    UniqueUnstripped(plan.columns);
    if Trimmed(plan.columns[p]) {
      ZipFinds(plan.columns, cells, p);
    } else {
      forall q | 0 <= q < |plan.columns| ensures plan.columns[q] != column {
        StripTrims(plan.columns[q]);
        assert q != p ==> Stripped(plan.columns)[q] != Stripped(plan.columns)[p];
      }
      ZipFindsNothing(plan.columns, cells, column);
    }
  }

  /** So with trimmed plan columns nothing that should be kept is lost. */
  lemma MeantCellsArrive(plan: Plan, columns: seq<string>, row: Row, column: string, cell: Scalar)
    requires ValidPlan(plan) && CleanColumns(columns) && ValidRow(plan, row)
    requires forall p :: 0 <= p < |plan.columns| ==> Trimmed(plan.columns[p])
    requires column in columns && Meant(plan, row, column, cell)
    ensures PlanCell(plan, row, column) == cell
  {
    if row.ListRow? {
      var p :| 0 <= p < |row.cells| && Strip(plan.columns[p]) == column && row.cells[p] == cell;
      MeantCellArrivesExactly(plan, columns, row.cells, p);
    }
  }

  // ---------- Finding the rows of a sheet ----------

  function Rows(rowsBySheet: map<string, seq<Row>>, key: string): seq<Row> {
    if key in rowsBySheet then rowsBySheet[key] else []
  }

  /** `_template_rows_for_sheet`: by name, else by index. */
  function RowsForSheet(rowsBySheet: map<string, seq<Row>>, name: string, index: nat): seq<Row> {
    if Rows(rowsBySheet, name) != [] then Rows(rowsBySheet, name) else Rows(rowsBySheet, Decimal(index))
  }

  // ---------- The name a sheet is written under ----------

  const MAX_SHEET_NAME := 31

  predicate InvalidInSheetName(c: char) {
    c == '\\' || c == '/' || c == '*' || c == '?' || c == ':' || c == '[' || c == ']'
  }

  function Substituted(s: string): (r: string)
    ensures |r| == |s|
    ensures forall i :: 0 <= i < |s| ==> r[i] == if InvalidInSheetName(s[i]) then '_' else s[i]
  {
    seq(|s|, i requires 0 <= i < |s| => if InvalidInSheetName(s[i]) then '_' else s[i])
  }

  function Cut(s: string): string {
    if |s| > MAX_SHEET_NAME then s[..MAX_SHEET_NAME] else s
  }

  /** `str.strip("'")`. */
  function Unquoted(s: string): (r: string)
    ensures |r| <= |s| && (r == [] || (r[0] != '\'' && r[|r| - 1] != '\''))
    ensures |r| == |s| ==> r == s
  {
    if s == [] then s
    else if s[0] == '\'' then Unquoted(s[1..])
    else if s[|s| - 1] == '\'' then Unquoted(s[..|s| - 1])
    else s
  }

  lemma {:induction false} UnquotedIsPart(s: string)
    ensures forall c :: c in Unquoted(s) ==> c in s
  {
    if s != [] && s[0] == '\'' {
      UnquotedIsPart(s[1..]);
    } else if s != [] && s[|s| - 1] == '\'' {
      UnquotedIsPart(s[..|s| - 1]);
    }
  }

  /** `_sheet_name` of a name that is a string. */
  function SheetName(s: string): Result<string, string> {
    if Strip(s) == [] then Err("sheet_name must be a non-empty string")
    else
      var name := Unquoted(Cut(Substituted(Strip(s))));
      if name == [] then Err("sheet_name has no usable characters") else Ok(name)
  }

  /** Names that `_sheet_name` leaves alone. */
  predicate PlainName(s: string) {
    && s != [] && |s| <= MAX_SHEET_NAME && Trimmed(s)
    && (forall i :: 0 <= i < |s| ==> !InvalidInSheetName(s[i]))
    && s[0] != '\'' && s[|s| - 1] != '\''
  }

  lemma StripIsNoLonger(s: string)
    ensures |Strip(s)| <= |s| && (|Strip(s)| == |s| ==> Strip(s) == s)
  {
  }

  lemma UnchangedIsPlain(s: string)
    requires SheetName(s) == Ok(s)
    ensures PlainName(s)
  {
    StripIsNoLonger(s);
    StripTrims(s);
    var t := Strip(s);
    assert |Unquoted(Cut(Substituted(t)))| <= |Cut(Substituted(t))| <= |t| <= |s|;
    assert t == s && Substituted(s) == s;
    forall i | 0 <= i < |s| ensures !InvalidInSheetName(s[i]) {
      assert Substituted(s)[i] == s[i];
    }
  }

  /** A stored name is written unchanged exactly if it is plain. */
  lemma PlainExactly(s: string)
    ensures SheetName(s) == Ok(s) <==> PlainName(s)
  {
    if PlainName(s) {
      StripTrims(s);
      assert Substituted(s) == s;
    }
    if SheetName(s) == Ok(s) {
      UnchangedIsPlain(s);
    }
  }

  /** What `_sheet_name` returns is plain but for whitespace at its ends, which cutting and unquoting can
      expose. So it is not idempotent: it returns its own result unchanged exactly if that is trimmed. */
  lemma SheetNameTwiceExactly(s: string)
    requires SheetName(s).Ok?
    ensures SheetName(SheetName(s).value) == SheetName(s) <==> Trimmed(SheetName(s).value)
  {
    hide SheetName, InvalidInSheetName;
    var name := SheetName(s).value;
    ResultIsNearlyPlain(s);
    PlainExactly(name);
  }

  lemma ResultIsNearlyPlain(s: string)
    requires SheetName(s).Ok?
    ensures var name := SheetName(s).value; PlainName(name) <==> Trimmed(name)
  {
    hide Strip, InvalidInSheetName, Cut, Substituted;
    ResultHasNoInvalid(Strip(s));
  }

  lemma ResultHasNoInvalid(t: string)
    ensures var name := Unquoted(Cut(Substituted(t)));
      |name| <= MAX_SHEET_NAME && forall i :: 0 <= i < |name| ==> !InvalidInSheetName(name[i])
  {
    hide Unquoted;
    var cut, name := Cut(Substituted(t)), Unquoted(Cut(Substituted(t)));
    UnquotedIsPart(cut);
    forall i | 0 <= i < |name| ensures !InvalidInSheetName(name[i]) {
      assert name[i] in cut;
      var j :| 0 <= j < |cut| && cut[j] == name[i];
      assert cut[j] == Substituted(t)[j];
    }
  }

  lemma SubstitutedIs(s: string, t: string)
    requires |t| == |s|
    requires forall i :: 0 <= i < |s| ==> t[i] == if InvalidInSheetName(s[i]) then '_' else s[i]
    ensures Substituted(s) == t
  {
    hide InvalidInSheetName;
  }

  /** What is left to work out for a short name without whitespace at its ends. */
  lemma ShortName(s: string, substituted: string)
    requires Trimmed(s) && 0 < |s| <= MAX_SHEET_NAME && |substituted| == |s|
    requires forall i :: 0 <= i < |s| ==> substituted[i] == if InvalidInSheetName(s[i]) then '_' else s[i]
    ensures Unquoted(substituted) != [] ==> SheetName(s) == Ok(Unquoted(substituted))
  {
    hide Strip, Trimmed, Substituted, InvalidInSheetName, Unquoted;
    StripTrims(s);
    SubstitutedIs(s, substituted);
  }

  /** The stored name of a table learned from `data[1].csv`. */
  lemma BracketsAreRewritten()
    ensures SheetName("data[1]") == Ok("data_1_")
  {
    hide SheetName;
    ShortName("data[1]", "data_1_");
  }

  /** Quotes around a space leave a name that is refused the second time. */
  lemma QuotedSpaceIsNotTrimmed()
    ensures SheetName("' '") == Ok(" ") && SheetName(" ").Err?
  {
    hide SheetName, Unquoted;
    SpaceIsRefused();
    SpaceIsUnquoted();
    ShortName("' '", "' '");
  }

  lemma SpaceIsRefused()
    ensures SheetName(" ").Err?
  {
    hide Strip, Unquoted, Cut, Substituted;
    assert Strip(" ") == [] by {
      SpaceIsStripped();
    }
  }

  lemma SpaceIsStripped()
    ensures Strip(" ") == []
  {
    assert IsSpace(' ');
  }

  lemma SpaceIsUnquoted()
    ensures Unquoted("' '") == " "
  {
    assert "' '"[1..] == " '" && " '"[..1] == " ";
    assert Unquoted(" '") == Unquoted(" ") == " ";
  }

  /** The coerced rows are filed under the first sheet's stored name and looked up under the name it is
      written with. */
  lemma RowsArriveExactly(stored: string, rows: seq<Row>)
    requires SheetName(stored).Ok? && rows != []
    ensures RowsForSheet(map[stored := rows], SheetName(stored).value, 0) == if PlainName(stored) then rows else []
  {
    PlainExactly(stored);
    ZeroIsPlain();
    hide SheetName, PlainName, Decimal;
  }

  lemma ZeroIsPlain()
    ensures Decimal(0) == "0" && PlainName("0")
  {
  }

  /** Generating the first sheet of a template from a validated plan: the name it is written with, and its
      rows. With a plain stored name every planned row arrives, realigned; with any other name that is
      accepted at all the sheet comes out without rows, and nothing is raised. */
  method GenerateFirstSheet(plan: Plan, stored: string, columns: seq<string>, limits: Limits)
    returns (r: Result<(string, seq<seq<Scalar>>), string>)
    requires ValidPlan(plan) && CleanColumns(columns)
    ensures SheetName(stored).Err? ==> r.Err?
    ensures SheetName(stored).Ok? && !PlainName(stored) ==> r == Ok((SheetName(stored).value, []))
    ensures PlainName(stored) ==> (r.Err? <==> (
      || |plan.rows| > limits.maxRows
      || exists i, j :: 0 <= i < |plan.rows| && 0 <= j < |columns| && NotAllowed(PlanCell(plan, plan.rows[i], columns[j]), limits)))
    ensures PlainName(stored) && r.Ok? ==> r.value.0 == stored && |r.value.1| == |plan.rows|
    ensures PlainName(stored) && r.Ok? ==> forall i :: 0 <= i < |plan.rows| ==> (
      |r.value.1[i]| == |columns| &&
        forall j :: 0 <= j < |columns| ==> Entered(PlanCell(plan, plan.rows[i], columns[j]), r.value.1[i][j]))
  {
    hide PlanCell, CoercedRow, Laid, CellValue, CleanColumns, Entered, NotAllowed, Formula, SheetName, PlainName;
    var rows := CoercePlanRows(plan, columns);
    var rowsBySheet := map[stored := rows];
    var name := SheetName(stored);
    PlainExactly(stored);
    if name.Err? {
      return Err(name.error);
    }
    var found := RowsForSheet(rowsBySheet, name.value, 0);
    if rows != [] {
      RowsArriveExactly(stored, rows);
    }
    var table := TableRows(columns, found, limits);
    forall i | 0 <= i < |rows|
      ensures Refused(columns, rows[i], limits) <==> exists j :: 0 <= j < |columns| && NotAllowed(PlanCell(plan, plan.rows[i], columns[j]), limits)
      ensures var laid := Laid(columns, rows[i]);
        laid.Ok? && |laid.value| == |columns| && forall j :: 0 <= j < |columns| ==> laid.value[j] == PlanCell(plan, plan.rows[i], columns[j])
    {
      assert ValidRow(plan, plan.rows[i]);
      CoercedRowLaid(plan, columns, plan.rows[i]);
    }
    if table.Err? {
      return Err(table.error);
    }
    return Ok((name.value, table.value));
  }

  /** Another sheet of the template gets the rows filed for the first one as well, exactly if the name it is
      written with, or the numeral of its index, is spelled like the first one's stored name. In terms of
      stored names: a plain one does so exactly if it repeats that name, and one that is rewritten can do so
      without repeating it. */
  lemma OtherSheetsExactly(stored: string, rows: seq<Row>, other: string, index: nat)
    requires rows != [] && SheetName(other).Ok?
    ensures var found := RowsForSheet(map[stored := rows], SheetName(other).value, index);
      && (found == rows || found == [])
      && (found == rows <==> SheetName(other).value == stored || Decimal(index) == stored)
      && (PlainName(other) ==> (found == rows <==> other == stored || Decimal(index) == stored))
      && (!PlainName(other) && other == stored ==> (found == rows <==> Decimal(index) == stored))
  {
    PlainExactly(other);
    hide SheetName, PlainName, Decimal;
  }

  /** Other sheets that receive them: the second one when the first is called `1`, and one learned from
      `data[1].csv` next to one called `data_1_`. */
  lemma OtherSheetsReceiveToo(rows: seq<Row>)
    requires rows != []
    ensures SheetName("totals") == Ok("totals") && RowsForSheet(map["1" := rows], "totals", 1) == rows
    ensures SheetName("data[1]").Ok? && RowsForSheet(map["data_1_" := rows], SheetName("data[1]").value, 1) == rows
  {
    hide SheetName;
    assert Decimal(1) == "1";
    PlainExactly("totals");
    BracketsAreRewritten();
  }
}
