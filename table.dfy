/** The year's table: the records side by side as one frame, the budget
    column dropped, six labels renamed, and the eleven output columns
    selected in a fixed order. A record without some column has None
    there. */
module Table {
  import opened PyBuiltins
  import opened Gross
  import opened Record

  /** The output columns, in order. */
  const Columns: seq<string> := [
    "movie_title", "movie_summary", "release_date", "genres", "indicative_rating",
    "running_time", "domestic_gross", "international_gross", "total_gross",
    "domestic_opening", "domestic_distributor"]

  /** The page labels the script renames, and their new names. */
  const Renames: map<string, string> := map[
    "Domestic Distributor" := "domestic_distributor",
    "Domestic Opening" := "domestic_opening",
    "Earliest Release Date" := "release_date",
    "Running Time" := "running_time",
    "Genres" := "genres",
    "MPAA" := "indicative_rating"]

  /** A label as it is called after the renames. */
  function RenameLabel(k: string): string {
    if k in Renames then Renames[k] else k
  }

  /** The page label an output column is renamed from (itself when it is
      not renamed). */
  function SourceOf(c: string): string {
    if c == "domestic_distributor" then "Domestic Distributor"
    else if c == "domestic_opening" then "Domestic Opening"
    else if c == "release_date" then "Earliest Release Date"
    else if c == "running_time" then "Running Time"
    else if c == "genres" then "Genres"
    else if c == "indicative_rating" then "MPAA"
    else c
  }

  /** The written table: a header and one row per record. */
  datatype Frame = Frame(header: seq<string>, rows: seq<seq<Value>>)

  /** A record's value in output column `c`: the value under the label
      renamed to `c`, else under `c` itself, else None. */
  function Cell(rec: Info, c: string): (v: Value)
    // a value in an output column comes from a label renamed to it
    ensures c in Columns && v != Null ==> exists k :: k in rec && RenameLabel(k) == c && rec[k] == v
    // a record without such a label has None there
    ensures c in Columns && (forall k :: k in rec ==> RenameLabel(k) != c) ==> v == Null
  {
    if c in Columns then
      RenamedTo(c, SourceOf(c));
      RenamedTo(c, c);
      CellValue(rec, c)
    else CellValue(rec, c)
  }

  function CellValue(rec: Info, c: string): Value {
    if SourceOf(c) in rec then rec[SourceOf(c)]
    else if c in rec then rec[c]
    else Null
  }

  /** One output row. */
  function AssembleRow(rec: Info): (row: seq<Value>)
    ensures |row| == |Columns|
  {
    seq(|Columns|, j requires 0 <= j < |Columns| => Cell(rec, Columns[j]))
  }

  /** Whether some record holds a label that the renames turn into `c`:
      the frame then has a column `c`. */
  predicate ColumnPresent(records: seq<Info>, c: string) {
    exists i, k :: 0 <= i < |records| && k in records[i] && RenameLabel(k) == c
  }

  /** Whether some record has a budget: the frame then has that column,
      and dropping it succeeds. */
  predicate HasBudget(records: seq<Info>) {
    exists i :: 0 <= i < |records| && BudgetKey in records[i]
  }

  /** The frame built from the year's records, as written to the file.
      Dropping a budget column the frame does not have, or selecting a
      column it does not have, is a KeyError. */
  function AssembleTable(records: seq<Info>): (r: Result<Frame>)
    ensures r.Ok? <==> HasBudget(records) && forall j :: 0 <= j < |Columns| ==> ColumnPresent(records, Columns[j])
    ensures r.Err? ==> r.error == KeyError
    ensures r.Ok? ==> r.value.header == Columns && |r.value.rows| == |records|
    ensures r.Ok? ==> forall i :: 0 <= i < |records| ==> r.value.rows[i] == AssembleRow(records[i])
  {
    if !HasBudget(records) then Err(KeyError)
    else if exists j :: 0 <= j < |Columns| && !ColumnPresent(records, Columns[j]) then Err(KeyError)
    else Ok(Frame(Columns, seq(|records|, i requires 0 <= i < |records| => AssembleRow(records[i]))))
  }

  // ------------------------------------------------------------ properties

  /** The renames and `SourceOf` are inverse on the renamed labels. */
  lemma RenamesInverse()
    ensures forall k :: k in Renames ==> SourceOf(Renames[k]) == k
  {
  }

  /** Renaming an output column's source label gives the column. */
  lemma SourceRenamed()
    ensures forall j :: 0 <= j < |Columns| ==> RenameLabel(SourceOf(Columns[j])) == Columns[j]
  {
    forall j | 0 <= j < |Columns| ensures RenameLabel(SourceOf(Columns[j])) == Columns[j] {
      if j < 6 {
        SourceRenamedLow(j);
      } else {
        SourceRenamedHigh(j);
      }
    }
  }

  lemma SourceRenamedLow(j: nat)
    requires j < 6
    ensures RenameLabel(SourceOf(Columns[j])) == Columns[j]
  {
  }

  lemma SourceRenamedHigh(j: nat)
    requires 6 <= j < |Columns|
    ensures RenameLabel(SourceOf(Columns[j])) == Columns[j]
  {
  }

  /** No output column is itself renamed. */
  lemma ColumnsKept()
    ensures forall j :: 0 <= j < |Columns| ==> RenameLabel(Columns[j]) == Columns[j]
  {
  }

  /** The labels that the renames turn into an output column are exactly
      its source label and the column name itself. */
  lemma RenamedTo(c: string, k: string)
    requires c in Columns
    ensures RenameLabel(k) == c <==> k == SourceOf(c) || k == c
  {
    RenamesInverse();
    SourceRenamed();
    ColumnsKept();
  }

  /** So a column is present when some record holds its source label or
      its own name. */
  lemma ColumnPresentIff(records: seq<Info>, c: string)
    requires c in Columns
    ensures ColumnPresent(records, c) <==>
      exists i :: 0 <= i < |records| && (SourceOf(c) in records[i] || c in records[i])
  {
    if ColumnPresent(records, c) {
      var i, k :| 0 <= i < |records| && k in records[i] && RenameLabel(k) == c;
      RenamedTo(c, k);
    }
    if exists i :: 0 <= i < |records| && (SourceOf(c) in records[i] || c in records[i]) {
      var i :| 0 <= i < |records| && (SourceOf(c) in records[i] || c in records[i]);
      SourceRenamed();
      ColumnsKept();
      if SourceOf(c) in records[i] {
        assert RenameLabel(SourceOf(c)) == c;
      } else {
        assert RenameLabel(c) == c;
      }
    }
  }

  /** A field reaches its renamed column; a field the record lacks is
      None in its row. */
  lemma RowCells(rec: Info, j: nat)
    requires j < |Columns|
    ensures SourceOf(Columns[j]) in rec ==> AssembleRow(rec)[j] == rec[SourceOf(Columns[j])]
    ensures SourceOf(Columns[j]) !in rec && Columns[j] !in rec ==> AssembleRow(rec)[j] == Null
  {
  }

  /** The release date, for instance, lands in the third column. */
  lemma ReleaseDateColumn(rec: Info)
    requires ReleaseKey in rec
    ensures AssembleRow(rec)[2] == rec[ReleaseKey]
  {
    assert SourceOf(Columns[2]) == ReleaseKey;
  }

  /** Neither the budget nor `IMDbPro` can reach the output: a row does not
      depend on them. */
  lemma HiddenLabels(rec: Info)
    ensures AssembleRow(rec) == AssembleRow(rec - {BudgetKey, ImdbKey})
  {
    var trimmed := rec - {BudgetKey, ImdbKey};
    forall j | 0 <= j < |Columns|
      ensures Cell(rec, Columns[j]) == Cell(trimmed, Columns[j])
    {
      NotHidden(Columns[j]);
    }
  }

  /** No output column and no source label is the budget or `IMDbPro`. */
  lemma NotHidden(c: string)
    requires c in Columns
    ensures SourceOf(c) != BudgetKey && SourceOf(c) != ImdbKey
    ensures c != BudgetKey && c != ImdbKey
  {
  }

  /** A year with no records, or none with a budget, writes no file. */
  lemma NoBudgetFails(records: seq<Info>)
    requires forall i :: 0 <= i < |records| ==> BudgetKey !in records[i]
    ensures AssembleTable(records) == Err(KeyError)
  {
  }

  /** A year where no record has genres (under either label) writes no
      file either: the selection raises KeyError. */
  lemma MissingColumnFails(records: seq<Info>, j: nat)
    requires j < |Columns|
    requires forall i :: 0 <= i < |records| ==> SourceOf(Columns[j]) !in records[i] && Columns[j] !in records[i]
    ensures AssembleTable(records) == Err(KeyError)
  {
    ColumnPresentIff(records, Columns[j]);
  }
}
