/** Column names of a learned spreadsheet template and the row they are taken from
    (artpm_agent/artifacts/templates.py), and the generator's check of those names
    (artpm_agent/artifacts/generator.py). */
module TemplateColumns {
  import opened Common
  import opened Text

  const MAX_TEMPLATE_COLUMNS := 120
  const MAX_HEADER_SCAN_ROWS := 20

  // ---------- Column names ----------

  /** The name a column starts from: its cleaned header cell, or a numbered filler. */
  function Base(cells: seq<string>, i: nat): string
    requires i < |cells|
  {
    if cells[i] == "" then "\U{5217}" + Decimal(i + 1) else cells[i]
  }

  /** How many of the first `n` columns have a base that folds to `key`. */
  function Seen(cells: seq<string>, fold: string -> string, key: string, n: nat): nat
    requires n <= |cells|
  {
    if n == 0 then 0
    else Seen(cells, fold, key, n - 1) + if fold(Base(cells, n - 1)) == key then 1 else 0
  }

  /** Which occurrence of its case-folded base a column is. */
  function Occurrence(cells: seq<string>, fold: string -> string, i: nat): (k: nat)
    requires i < |cells|
    ensures k >= 1
  {
    Seen(cells, fold, fold(Base(cells, i)), i + 1)
  }

  /** The columns up to one that share its folded base. */
  function Sharing(cells: seq<string>, fold: string -> string, key: string, n: nat): set<nat>
    requires n <= |cells|
  {
    set j: nat | j < n && fold(Base(cells, j)) == key
  }

  lemma {:induction false} SeenCounts(cells: seq<string>, fold: string -> string, key: string, n: nat)
    requires n <= |cells|
    ensures Seen(cells, fold, key, n) == |Sharing(cells, fold, key, n)|
    decreases n
  {
    hide Base;
    if n > 0 {
      SeenCounts(cells, fold, key, n - 1);
      OneMoreSharing(cells, fold, key, n - 1);
    }
  }

  lemma OneMoreSharing(cells: seq<string>, fold: string -> string, key: string, n: nat)
    requires n < |cells|
    ensures |Sharing(cells, fold, key, n + 1)| == |Sharing(cells, fold, key, n)| + if fold(Base(cells, n)) == key then 1 else 0
  {
    hide Base;
    assert Sharing(cells, fold, key, n + 1) == Sharing(cells, fold, key, n) + if fold(Base(cells, n)) == key then {n} else {};
    assert n !in Sharing(cells, fold, key, n);
  }

  /** A column is called what its cell says, or its number if that is blank, followed by `_k` if it is the k-th
      of that folded name and not the first. */
  lemma NamesExactly(cells: seq<string>, fold: string -> string, i: nat)
    requires i < |cells|
    ensures Base(cells, i) == if cells[i] == "" then "\U{5217}" + Decimal(i + 1) else cells[i]
    ensures var base := Base(cells, i); var k := |Sharing(cells, fold, fold(base), i + 1)|;
      ColumnName(cells, fold, i) == if k == 1 then base else base + "_" + Decimal(k)
  {
    SeenCounts(cells, fold, fold(Base(cells, i)), i + 1);
  }

  function Suffixed(base: string, k: nat): string {
    base + "_" + Decimal(k)
  }

  /** The k-th occurrence carries the suffix `_k`; the first carries none. */
  function ColumnName(cells: seq<string>, fold: string -> string, i: nat): string
    requires i < |cells|
  {
    if Occurrence(cells, fold, i) == 1 then Base(cells, i) else Suffixed(Base(cells, i), Occurrence(cells, fold, i))
  }

  function FirstColumns(cells: seq<string>): seq<string> {
    if |cells| > MAX_TEMPLATE_COLUMNS then cells[..MAX_TEMPLATE_COLUMNS] else cells
  }

  /** `_normalize_columns`, counting the uses of each key as it goes. `fold` is case folding. */
  method NormalizeColumns(values: seq<string>, fold: string -> string) returns (columns: seq<string>)
    ensures var cells := if |values| > 120 then values[..120] else values;
      |columns| == |cells| && forall i :: 0 <= i < |cells| ==> columns[i] == ColumnName(cells, fold, i)
  {
    hide Base, Suffixed;
    var cells := FirstColumns(values);
    columns := [];
    var used: map<string, nat> := map[];
    for index := 0 to |cells|
      invariant |columns| == index
      invariant forall i :: 0 <= i < index ==> columns[i] == ColumnName(cells, fold, i)
      invariant forall key :: (if key in used then used[key] else 0) == Seen(cells, fold, key, index)
      invariant forall key :: key in used ==> used[key] > 0
    {
      var base := Base(cells, index);
      var key := fold(base);
      if key in used {
        used := used[key := used[key] + 1];
        columns := columns + [Suffixed(base, used[key])];
      } else {
        used := used[key := 1];
        columns := columns + [base];
      }
    }
  }

  /** A first occurrence that is spelled like another column's base with that column's suffix. */
  predicate Clash(cells: seq<string>, fold: string -> string, i: nat, j: nat)
    requires i < |cells| && j < |cells|
  {
    && Occurrence(cells, fold, i) == 1 && Occurrence(cells, fold, j) > 1
    && Base(cells, i) == Suffixed(Base(cells, j), Occurrence(cells, fold, j))
  }

  predicate IsColumnsOf(columns: seq<string>, cells: seq<string>, fold: string -> string) {
    |columns| == |cells| && forall i :: 0 <= i < |cells| ==> columns[i] == ColumnName(cells, fold, i)
  }

  lemma {:induction false} SeenGrows(cells: seq<string>, fold: string -> string, key: string, m: nat, n: nat)
    requires m <= n <= |cells|
    ensures Seen(cells, fold, key, m) <= Seen(cells, fold, key, n)
    decreases n
  {
    hide Base;
    if m < n {
      SeenGrows(cells, fold, key, m, n - 1);
    }
  }

  /** Two columns with the same folded base are different occurrences of it. */
  lemma OccurrencesDiffer(cells: seq<string>, fold: string -> string, i: nat, j: nat)
    requires i < j < |cells| && fold(Base(cells, i)) == fold(Base(cells, j))
    ensures Occurrence(cells, fold, i) < Occurrence(cells, fold, j)
  {
    SeenGrows(cells, fold, fold(Base(cells, i)), i + 1, j);
  }

  /** A suffix can be read off its name. */
  lemma SuffixedInjective(a: string, b: string, k: nat, l: nat)
    requires Suffixed(a, k) == Suffixed(b, l)
    ensures a == b && k == l
  {
    DigitsOnly(k);
    DigitsOnly(l);
    DecimalReadsBack(k);
    DecimalReadsBack(l);
    var s := Suffixed(a, k);
    assert s[|a|] == '_' && s[|b|] == '_';
    forall m | |a| < m < |s| ensures s[m] != '_' {
      assert s[m] == Decimal(k)[m - |a| - 1];
    }
    forall m | |b| < m < |s| ensures s[m] != '_' {
      assert s[m] == Decimal(l)[m - |b| - 1];
    }
    assert s[|a| + 1..] == Decimal(k) && s[|b| + 1..] == Decimal(l);
    assert s[..|a|] == a && s[..|b|] == b;
  }

  /** Suffixing keeps names apart except for one case: the names are distinct if and only if no first
      occurrence is spelled like a suffixed one. */
  lemma DistinctUnlessClash(columns: seq<string>, cells: seq<string>, fold: string -> string)
    requires IsColumnsOf(columns, cells, fold)
    ensures Distinct(columns) <==> forall i, j :: 0 <= i < |cells| && 0 <= j < |cells| ==> !Clash(cells, fold, i, j)
  {
    hide Occurrence, Suffixed, Base;
    forall i, j | 0 <= i < |cells| && 0 <= j < |cells| && Clash(cells, fold, i, j) ensures !Distinct(columns) {
      assert i != j && columns[i] == columns[j];
      assert i < j || j < i;
    }
    forall i, j | 0 <= i < j < |columns| && columns[i] == columns[j]
      ensures Clash(cells, fold, i, j) || Clash(cells, fold, j, i)
    {
      SameNameClashes(cells, fold, i, j);
    }
  }

  lemma SameNameClashes(cells: seq<string>, fold: string -> string, i: nat, j: nat)
    requires i < j < |cells| && ColumnName(cells, fold, i) == ColumnName(cells, fold, j)
    ensures Clash(cells, fold, i, j) || Clash(cells, fold, j, i)
  {
    hide Suffixed, Base;
    var k, l := Occurrence(cells, fold, i), Occurrence(cells, fold, j);
    if k > 1 && l > 1 {
      SuffixedInjective(Base(cells, i), Base(cells, j), k, l);
    }
    if fold(Base(cells, i)) == fold(Base(cells, j)) {
      OccurrencesDiffer(cells, fold, i, j);
    }
  }

  /** The same headers `a, a, a_2` show that the names can clash. */
  lemma ThreeHeadersClash(fold: string -> string)
    requires fold("a") != fold("a_2")
    ensures Clash(["a", "a", "a_2"], fold, 2, 1)
  {
    var cells := ["a", "a", "a_2"];
    assert Base(cells, 0) == "a" && Base(cells, 1) == "a" && Base(cells, 2) == "a_2";
    var key, other := fold("a"), fold("a_2");
    assert Seen(cells, fold, key, 0) == 0 && Seen(cells, fold, key, 1) == 1 && Seen(cells, fold, key, 2) == 2;
    assert Seen(cells, fold, other, 0) == 0 && Seen(cells, fold, other, 1) == 0 && Seen(cells, fold, other, 2) == 0;
    assert Decimal(2) == "2";
  }

  // ---------- The generator's check ----------

  /** `_normalized_columns` accepts: a bounded number of non-blank names of bounded length, unique once
      trimmed. */
  predicate Accepts(names: seq<string>, maxColumns: nat, maxCellChars: nat) {
    && 1 <= |names| <= maxColumns
    && (forall i :: 0 <= i < |names| ==> Strip(names[i]) != [] && |Strip(names[i])| <= maxCellChars)
    && forall i, j :: 0 <= i < j < |names| ==> Strip(names[i]) != Strip(names[j])
  }

  lemma DigitsAreNoSpace(s: string)
    requires s != [] && '0' <= s[|s| - 1] <= '9' && !IsSpace(s[0])
    ensures Strip(s) == s
  {
    StripTrims(s);
  }

  lemma NamesTrimmed(cells: seq<string>, fold: string -> string, i: nat)
    requires i < |cells| && Trimmed(cells[i])
    ensures var name := ColumnName(cells, fold, i); name != [] && Strip(name) == name
  {
    hide Occurrence;
    var base, k := Base(cells, i), Occurrence(cells, fold, i);
    assert base != [] && !IsSpace(base[0]);
    DigitsOnly(k);
    DigitsOnly(i + 1);
    if k > 1 {
      var s := Suffixed(base, k);
      assert s[0] == base[0];
      assert s[|s| - 1] == Decimal(k)[|Decimal(k)| - 1];
      DigitsAreNoSpace(s);
    } else if cells[i] == "" {
      assert base[|base| - 1] == Decimal(i + 1)[|Decimal(i + 1)| - 1];
      DigitsAreNoSpace(base);
    } else {
      StripTrims(base);
    }
  }

  /** A learned sheet can be generated from again exactly when its columns fit the generator's own
      limits, on their number (100 by default, below the 120 that learning keeps) and on their length, and
      no header is spelled like a suffixed one. */
  lemma GeneratorAcceptsExactly(columns: seq<string>, cells: seq<string>, fold: string -> string, maxColumns: nat, maxCellChars: nat)
    requires IsColumnsOf(columns, cells, fold) && forall i :: 0 <= i < |cells| ==> Trimmed(cells[i])
    ensures Accepts(columns, maxColumns, maxCellChars) <==> (
      && 1 <= |cells| <= maxColumns
      && (forall i :: 0 <= i < |cells| ==> NameLength(cells, fold, i) <= maxCellChars)
      && forall i, j :: 0 <= i < |cells| && 0 <= j < |cells| ==> !Clash(cells, fold, i, j))
  {
    DistinctUnlessClash(columns, cells, fold);
    forall i | 0 <= i < |columns| ensures |columns[i]| == NameLength(cells, fold, i) {
    }
    hide ColumnName, Clash, Strip, NameLength;
    forall i | 0 <= i < |columns| ensures columns[i] != [] && Strip(columns[i]) == columns[i] {
      NamesTrimmed(cells, fold, i);
    }
  }

  /** The length of a column's name, from its header and its occurrence. */
  function NameLength(cells: seq<string>, fold: string -> string, i: nat): nat
    requires i < |cells|
  {
    var k := Occurrence(cells, fold, i);
    |Base(cells, i)| + if k == 1 then 0 else 1 + |Decimal(k)|
  }

  // ---------- The header row ----------

  /** A cell of the source sheet: its cleaned text, and whether it is a non-blank string. */
  datatype Cell = Cell(cleaned: string, isText: bool)

  type Row = seq<Cell>

  function Trim(row: Row): Row {
    if |row| > MAX_TEMPLATE_COLUMNS then row[..MAX_TEMPLATE_COLUMNS] else row
  }

  function NonEmptyCount(row: Row): nat {
    if row == [] then 0 else (if row[0].cleaned != "" then 1 else 0) + NonEmptyCount(row[1..])
  }

  function TextCellCount(row: Row): nat {
    if row == [] then 0 else (if row[0].isText then 1 else 0) + TextCellCount(row[1..])
  }

  /** The places of the cells that are not blank, and of those that are text. */
  function NonEmptyPlaces(row: Row): set<nat> {
    set i: nat | i < |row| && row[i].cleaned != ""
  }

  function TextPlaces(row: Row): set<nat> {
    set i: nat | i < |row| && row[i].isText
  }

  lemma {:induction false} OneMoreCell(row: Row, cell: Cell)
    ensures NonEmptyCount(row + [cell]) == NonEmptyCount(row) + if cell.cleaned != "" then 1 else 0
    ensures TextCellCount(row + [cell]) == TextCellCount(row) + if cell.isText then 1 else 0
  {
    if row == [] {
      assert row + [cell] == [cell] && [cell][1..] == [];
    } else {
      assert (row + [cell])[1..] == row[1..] + [cell];
      OneMoreCell(row[1..], cell);
    }
  }

  /** Each count is the number of cells that it is about. */
  lemma {:induction false} CountsExactly(row: Row)
    ensures NonEmptyCount(row) == |NonEmptyPlaces(row)|
    ensures TextCellCount(row) == |TextPlaces(row)|
    decreases |row|
  {
    if row != [] {
      var n: nat := |row| - 1;
      CountsExactly(row[..n]);
      OneMoreCell(row[..n], row[n]);
      assert row == row[..n] + [row[n]];
      OneMorePlace(row[..n], row[n]);
    }
  }

  lemma OneMorePlace(row: Row, cell: Cell)
    ensures |NonEmptyPlaces(row + [cell])| == |NonEmptyPlaces(row)| + if cell.cleaned != "" then 1 else 0
    ensures |TextPlaces(row + [cell])| == |TextPlaces(row)| + if cell.isText then 1 else 0
  {
    var n: nat := |row|;
    OneMoreNonEmpty(row, cell, n);
    OneMoreText(row, cell, n);
    hide NonEmptyPlaces, TextPlaces;
  }

  lemma OneMoreNonEmpty(row: Row, cell: Cell, n: nat)
    requires n == |row|
    ensures n !in NonEmptyPlaces(row)
    ensures NonEmptyPlaces(row + [cell]) == NonEmptyPlaces(row) + if cell.cleaned != "" then {n} else {}
  {
  }

  lemma OneMoreText(row: Row, cell: Cell, n: nat)
    requires n == |row|
    ensures n !in TextPlaces(row)
    ensures TextPlaces(row + [cell]) == TextPlaces(row) + if cell.isText then {n} else {}
  {
  }

  /** Row `a` makes a strictly better header than row `b`. */
  predicate Better(a: Row, b: Row) {
    NonEmptyCount(Trim(a)) > NonEmptyCount(Trim(b))
    || (NonEmptyCount(Trim(a)) == NonEmptyCount(Trim(b)) && TextCellCount(Trim(a)) > TextCellCount(Trim(b)))
  }

  function Scanned(rows: seq<Row>): nat {
    if |rows| > MAX_HEADER_SCAN_ROWS then MAX_HEADER_SCAN_ROWS else |rows|
  }

  function Cleaned(row: Row): (cells: seq<string>)
    ensures |cells| == |row|
  {
    seq(|row|, i requires 0 <= i < |row| => row[i].cleaned)
  }

  /** The cells the columns are named after. */
  function HeaderCells(rows: seq<Row>, best: nat): seq<string>
    requires rows == [] || best < |rows|
  {
    if rows == [] || NonEmptyCount(Trim(rows[best])) == 0 then ["\U{5217}1"] else Cleaned(Trim(rows[best]))
  }

  /** `_detect_header`: of the rows scanned, the earliest that no other beats. */
  method DetectHeader(rows: seq<Row>, fold: string -> string) returns (best: nat, columns: seq<string>)
    ensures rows == [] ==> best == 0
    ensures rows != [] ==> best < |rows| && best < 20
    ensures forall i :: 0 <= i < |rows| && i < 20 ==> !Better(rows[i], rows[best])
    ensures forall i :: 0 <= i < best ==> Better(rows[best], rows[i])
    ensures IsColumnsOf(columns, HeaderCells(rows, best), fold) && columns != []
  {
    best := 0;
    var bestScore: (int, int, int) := (-1, -1, 0);
    for index := 0 to Scanned(rows)
      invariant rows == [] ==> best == 0
      invariant index == 0 ==> best == 0 && bestScore.0 == -1 && bestScore.1 == -1
      invariant index > 0 ==>
        && best < index && bestScore.2 + best == 0
        && bestScore.0 == NonEmptyCount(Trim(rows[best])) && bestScore.1 == TextCellCount(Trim(rows[best]))
      invariant forall i :: 0 <= i < index ==> !Better(rows[i], rows[best])
      invariant forall i :: 0 <= i < best ==> Better(rows[best], rows[i])
    {
      var trimmed := Trim(rows[index]);
      var score := (NonEmptyCount(trimmed), TextCellCount(trimmed), -index);
      if score.0 > bestScore.0
        || (score.0 == bestScore.0 && (score.1 > bestScore.1 || (score.1 == bestScore.1 && score.2 > bestScore.2)))
      {
        bestScore, best := score, index;
      }
    }
    var cells := HeaderCells(rows, best);
    assert FirstColumns(cells) == cells;
    columns := NormalizeColumns(cells, fold);
    if rows != [] && NonEmptyCount(Trim(rows[best])) > 0 {
      assert Trim(rows[best]) != [];
    }
  }
}
