/** Reading the volcano catalogue (`GVP._load_data` in volcanoes/core/gvp.py): every CSV row is
    cleaned of surrounding whitespace, turned into a `Volcano`, and skipped when the constructor
    raises. The CSV reader itself is not modelled: a file is given as the rows it yields. */
module Catalogue {
  import opened Wrappers
  import opened Errors
  import opened Values
  import Seqs
  import Text
  import opened Volcanoes

  /** One row of `csv.DictReader`: a cell per header name (`None` for a cell missing at the end of
      a short line), and the surplus cells of a long line, which the reader files under the key
      `None`. */
  datatype CsvRow = CsvRow(cells: seq<(string, Option<string>)>, surplus: Option<seq<string>>)

  /** What opening and reading the file gives: it is missing, reading it fails part-way, or it
      yields its rows. */
  datatype CsvFile = Missing | Unreadable | Rows(rows: seq<CsvRow>)

  /** `v.strip() if isinstance(v, str) else v`. */
  function CleanValue(v: Option<string>): Value {
    match v case Some(s) => Str(Text.Strip(s)) case None => Null
  }

  /** `{k.strip(): clean(v) for k, v in row.items() if k is not None}`: the surplus entry is dropped,
      and of two keys that strip alike the later wins. */
  function CleanRow(cells: seq<(string, Option<string>)>): (r: Fields)
    ensures r.Keys == set c | c in cells :: Text.Strip(c.0)
    ensures forall k :: k in r ==> r[k].Str? || r[k].Null?
  {
    if cells == [] then map[]
    else
      var init := cells[..|cells| - 1];
      var last := cells[|cells| - 1];
      assert cells == init + [last];
      CleanRow(init)[Text.Strip(last.0) := CleanValue(last.1)]
  }

  /** Every key holds the cleaned value of the last cell whose name strips to it. */
  lemma {:induction false} CleanRowLastWins(cells: seq<(string, Option<string>)>, i: nat)
    requires i < |cells|
    requires forall j :: i < j < |cells| ==> Text.Strip(cells[j].0) != Text.Strip(cells[i].0)
    ensures CleanRow(cells)[Text.Strip(cells[i].0)] == CleanValue(cells[i].1)
  {
    var init := cells[..|cells| - 1];
    if i < |cells| - 1 {
      assert cells[i] == init[i];
      CleanRowLastWins(init, i);
    }
  }

  /** `Volcano(cleaned_row)` for one row: the processed fields, or the exception it raises. */
  function RowRecord(row: CsvRow, syntax: NumberSyntax): Result<Fields, Error> {
    Processed(CleanRow(row.cells), syntax)
  }

  /** The volcanoes `_load_data` keeps from `rows`; `LoadRowsAppend` gives the order. */
  function LoadRows(rows: seq<CsvRow>, syntax: NumberSyntax): (r: seq<Volcano>)
    ensures |r| <= |rows|
  {
    if rows == [] then []
    else
      var init := rows[..|rows| - 1];
      LoadRows(init, syntax) + RowLoad(rows[|rows| - 1], syntax)
  }

  /** What one row contributes: its record, or nothing when building it raises. */
  function RowLoad(row: CsvRow, syntax: NumberSyntax): seq<Volcano> {
    match RowRecord(row, syntax)
    case Ok(d) => [Volcano(d)]
    case Err(_) => []
  }

  /** `RowLoad` as a function value. */
  function RowLoads(syntax: NumberSyntax): CsvRow -> seq<Volcano> {
    row => RowLoad(row, syntax)
  }

  /** Loading concatenates what each row contributes, in file order. */
  lemma {:induction false} LoadRowsFlat(rows: seq<CsvRow>, syntax: NumberSyntax)
    ensures LoadRows(rows, syntax) == Seqs.FlatMap(rows, RowLoads(syntax))
  {
    if rows != [] {
      LoadRowsFlat(rows[..|rows| - 1], syntax);
      LoadRowsLast(rows, syntax);
    }
  }

  /** Loading keeps file order: the rows of `a + b` load as those of `a` followed by those of
      `b`. */
  lemma LoadRowsAppend(a: seq<CsvRow>, b: seq<CsvRow>, syntax: NumberSyntax)
    ensures LoadRows(a + b, syntax) == LoadRows(a, syntax) + LoadRows(b, syntax)
  {
    LoadRowsFlat(a + b, syntax);
    LoadRowsFlat(a, syntax);
    LoadRowsFlat(b, syntax);
    Seqs.FlatMapAppend(a, b, RowLoads(syntax));
  }

  /** The last row's contribution comes last. */
  lemma LoadRowsLast(rows: seq<CsvRow>, syntax: NumberSyntax)
    requires rows != []
    ensures LoadRows(rows, syntax) == LoadRows(rows[..|rows| - 1], syntax) + RowLoad(rows[|rows| - 1], syntax)
  {
  }

  /** One row loads as its record, or as nothing when building it raises. */
  lemma LoadRowsOne(row: CsvRow, syntax: NumberSyntax)
    ensures LoadRows([row], syntax) == RowLoad(row, syntax)
  {
    assert [row][..0] == [];
  }

  /** `_volcanoes` after `_load_data`: a missing or unreadable file leaves it empty. */
  function LoadFile(file: CsvFile, syntax: NumberSyntax): seq<Volcano> {
    match file
    case Rows(rows) => LoadRows(rows, syntax)
    case _ => []
  }

  /** A record as loading leaves it: the name is a string, every other text field a string or
      `None`, and the numeric fields coerced. */
  predicate Loaded(v: Volcano) {
    && v.Name().Str?
    && (forall k :: k in v.data && Unlisted(k) ==> v.data[k].Str? || v.data[k].Null?)
    && Shaped(v.data, NumericFields)
  }

  /** Every record made from a cleaned row is `Loaded`. */
  lemma CleanRowLoaded(cells: seq<(string, Option<string>)>, syntax: NumberSyntax)
    requires Processed(CleanRow(cells), syntax).Ok?
    ensures Loaded(Volcano(Processed(CleanRow(cells), syntax).value))
  {
    var d := CleanRow(cells);
    ProcessedFields(d, syntax);
    var name := Get(d, "VolcanoName", Str(""));
    if IsUnnamed(name.s) {
      assert Get(Renamed(d, syntax).value, "VolcanoName", Str("")).Str?;
    }
    NumericFieldsDistinct();
    CoercedAfterRename(d, Renamed(d, syntax).value, NumericFields, syntax);
  }

  /** Every kept record is `Loaded`. */
  lemma {:induction false} LoadRowsLoaded(rows: seq<CsvRow>, syntax: NumberSyntax)
    ensures forall v :: v in LoadRows(rows, syntax) ==> Loaded(v)
  {
    if rows != [] {
      LoadRowsLoaded(rows[..|rows| - 1], syntax);
      var last := rows[|rows| - 1];
      if RowRecord(last, syntax).Ok? {
        CleanRowLoaded(last.cells, syntax);
      }
    }
  }

  /** Every kept record is the record of one of the rows. */
  lemma {:induction false} LoadRowsFrom(rows: seq<CsvRow>, syntax: NumberSyntax)
    ensures forall v :: v in LoadRows(rows, syntax) ==> exists row :: row in rows && RowRecord(row, syntax) == Ok(v.data)
  {
    if rows != [] {
      var init := rows[..|rows| - 1];
      LoadRowsFrom(init, syntax);
      assert forall row :: row in init ==> row in rows;
    }
  }

  /** A row that the constructor accepts is never lost. */
  lemma {:induction false} LoadRowsComplete(rows: seq<CsvRow>, syntax: NumberSyntax)
    ensures forall row :: row in rows && RowRecord(row, syntax).Ok? ==>
      Volcano(RowRecord(row, syntax).value) in LoadRows(rows, syntax)
  {
    if rows != [] {
      var init := rows[..|rows| - 1];
      LoadRowsComplete(init, syntax);
      assert rows == init + [rows[|rows| - 1]];
    }
  }

  /** When no row raises, every row becomes a record. */
  lemma {:induction false} LoadRowsAll(rows: seq<CsvRow>, syntax: NumberSyntax)
    requires forall row :: row in rows ==> RowRecord(row, syntax).Ok?
    ensures |LoadRows(rows, syntax)| == |rows|
  {
    if rows != [] {
      var init := rows[..|rows| - 1];
      assert forall row :: row in init ==> row in rows;
      LoadRowsAll(init, syntax);
    }
  }
}
