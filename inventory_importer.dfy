/**
 * The bulk-import parser of the inventory (backend/app/inventory/importer.py): the column sets,
 * the missing-columns error and its message, the dispatch on the file extension, and the
 * column filtering and number coercion `parse_upload` applies to the data frame. The pandas
 * readers and `pd.to_numeric` on a text cell are parameters.
 */
module InventoryImporter {
  import opened Common
  import opened Text
  import opened Seqs

  // ---- The column sets ----

  const Required: set<string> := {"lot_number", "name", "category", "quantity_available", "unit"}
  const Optional: set<string> := {"supplier", "cost", "expiry_date", "location"}
  const AllColumns: set<string> := Required + Optional

  /** Five required and four optional names, disjoint, nine in all. */
  lemma ColumnSets()
    ensures |Required| == 5 && |Optional| == 4
    ensures Required * Optional == {}
    ensures |AllColumns| == 9
  {
    assert AllColumns == {"lot_number", "name", "category", "quantity_available", "unit", "supplier", "cost", "expiry_date", "location"};
  }

  // ---- The missing-columns report ----

  /** Python's string comparison: code point by code point, a proper prefix first. */
  predicate LexLess(a: string, b: string)
    decreases |a|
  {
    |b| > 0 && (|a| == 0 || a[0] < b[0] || (a[0] == b[0] && LexLess(a[1..], b[1..])))
  }

  predicate StrictlySorted(s: seq<string>) {
    forall i, j :: 0 <= i < j < |s| ==> LexLess(s[i], s[j])
  }

  /** The required names in sorted order. */
  const RequiredSorted: seq<string> := ["category", "lot_number", "name", "quantity_available", "unit"]

  /** `sorted(missing)`, for a set of required names. */
  function SortedMissing(missing: set<string>): seq<string> {
    Filter(RequiredSorted, (c: string) => c in missing)
  }

  /** `', '.join(names)`. */
  function Join(names: seq<string>, sep: string): string {
    if names == [] then ""
    else if |names| == 1 then names[0]
    else names[0] + sep + Join(names[1..], sep)
  }

  const ReportPrefix: string := "Faltan columnas requeridas: "

  /** `str(ImportErrorReport(missing))`. */
  function ReportMessage(missing: set<string>): string {
    ReportPrefix + Join(SortedMissing(missing), ", ")
  }

  lemma RequiredSortedIsSorted()
    ensures StrictlySorted(RequiredSorted)
    ensures forall c :: c in RequiredSorted <==> c in Required
  {
    var s := RequiredSorted;
    assert forall i :: 0 <= i < |s| ==> |s[i]| > 0;
    assert s[0][0] == 'c' && s[1][0] == 'l' && s[2][0] == 'n' && s[3][0] == 'q' && s[4][0] == 'u';
  }

  /** For a set of required names the report lists exactly those names, in increasing order. */
  lemma SortedMissingExact(missing: set<string>)
    requires missing <= Required
    ensures StrictlySorted(SortedMissing(missing))
    ensures forall c :: c in SortedMissing(missing) <==> c in missing
  {
    var p := (c: string) => c in missing;
    RequiredSortedIsSorted();
    FilterPairwise(RequiredSorted, p, LexLess);
    forall c ensures c in SortedMissing(missing) <==> c in missing {
      FilterMembership(RequiredSorted, p, c);
    }
  }

  lemma {:induction false} LexLessIrreflexive(a: string)
    ensures !LexLess(a, a)
    decreases |a|
  {
    if |a| > 0 {
      LexLessIrreflexive(a[1..]);
    }
  }

  /** A file missing a single required column is told that column's name. */
  lemma SingleMissing(c: string)
    requires c in Required
    ensures ReportMessage({c}) == ReportPrefix + c
  {
    SortedMissingSingle(c);
    assert Join([c], ", ") == c;
  }

  /** The report for a single required column lists just that column. */
  lemma SortedMissingSingle(c: string)
    requires c in Required
    ensures SortedMissing({c}) == [c]
  {
    var s := SortedMissing({c});
    assert StrictlySorted(s) && forall x :: x in s <==> x == c by { SortedMissingExact({c}); }
    SortedSingleton(s, c);
  }

  /** A strictly sorted list whose only member is `c` is `[c]`. */
  lemma SortedSingleton(s: seq<string>, c: string)
    requires StrictlySorted(s)
    requires forall x :: x in s <==> x == c
    ensures s == [c]
  {
    assert c in s;
    if |s| >= 2 {
      assert s[0] in s && s[1] in s;
      LexLessIrreflexive(c);
      assert false;
    }
  }

  // ---- The extension dispatch ----

  /** The readers `parse_upload` chooses between. */
  datatype Format = Csv | Excel | Json

  const Unsupported: string := "Extensi\U{00F3}n de archivo no soportada"

  /** `Path(filename).name`: the text after the last `/`, ignoring trailing slashes. */
  function FinalName(path: string): string
    decreases |path|
  {
    if |path| > 0 && path[|path| - 1] == '/' then FinalName(path[..|path| - 1])
    else path[LastIndex(path, '/') + 1..]
  }

  /** `Path(...).suffix` of a final name: from its last dot, when that dot is neither first nor last. */
  function Suffix(name: string): string {
    var i := LastIndex(name, '.');
    if 0 < i < |name| - 1 then name[i..] else ""
  }

  /** The reader a lower-cased suffix selects, or the `ValueError` for any other suffix. */
  function FormatOf(ext: string): (r: Result<Format, string>)
    ensures r == Ok(Csv) <==> ext == ".csv"
    ensures r == Ok(Excel) <==> ext == ".xlsx" || ext == ".xls"
    ensures r == Ok(Json) <==> ext == ".json"
    ensures r.Err? ==> r.error == Unsupported
  {
    if ext == ".csv" then Ok(Csv)
    else if ext in {".xlsx", ".xls"} then Ok(Excel)
    else if ext == ".json" then Ok(Json)
    else Err(Unsupported)
  }

  /** `Path(filename).suffix.lower()` dispatched. */
  function Dispatch(filename: string): Result<Format, string> {
    FormatOf(Lower(Suffix(FinalName(filename))))
  }

  /** A slash-free stem and a dot-free extension: the suffix is the dot and the extension. */
  lemma SuffixOfName(dir: string, stem: string, ext: string)
    requires stem != "" && '/' !in stem && ext != "" && '/' !in ext && '.' !in ext
    ensures Suffix(FinalName(dir + (stem + "." + ext))) == "." + ext
  {
    var name := stem + "." + ext;
    assert '/' !in name by {
      assert forall k :: 0 <= k < |stem| ==> name[k] == stem[k];
      assert forall k :: |stem| < k < |name| ==> name[k] == ext[k - |stem| - 1];
    }
    FinalNameOf(dir, name);
    LastDotOf(dir[LastIndex(dir, '/') + 1..], stem, ext);
  }

  /** A non-empty slash-free last component is the whole final name, preceded by the directory's tail. */
  lemma FinalNameOf(dir: string, name: string)
    requires name != "" && '/' !in name
    ensures FinalName(dir + name) == dir[LastIndex(dir, '/') + 1..] + name
  {
    var path := dir + name;
    var j := LastIndex(dir, '/');
    assert path[|path| - 1] != '/' by { assert path[|path| - 1] == name[|name| - 1]; }
    assert LastIndex(path, '/') == j by { LastIndexPrefix(dir, name, '/'); }
    assert path[j + 1..] == dir[j + 1..] + name;
  }

  lemma LastDotOf(pre: string, stem: string, ext: string)
    requires stem != "" && ext != "" && '.' !in ext
    ensures Suffix(pre + (stem + "." + ext)) == "." + ext
  {
    var n := pre + (stem + "." + ext);
    var d := |pre| + |stem|;
    assert n[d] == '.';
    assert forall k :: d < k < |n| ==> n[k] == ext[k - d - 1];
    LastIndexAt(n, '.', d);
    assert n[d..] == "." + ext;
  }

  /** The reader is chosen by the extension alone, in any letter case, whatever the directory and stem. */
  lemma DispatchByExtension(dir: string, stem: string, ext: string)
    requires stem != "" && '/' !in stem && ext != "" && '/' !in ext && '.' !in ext
    ensures Dispatch(dir + (stem + "." + ext)) == FormatOf("." + Lower(ext))
  {
    var s := Suffix(FinalName(dir + (stem + "." + ext)));
    assert s == "." + ext by { SuffixOfName(dir, stem, ext); }
    assert Lower(s) == "." + Lower(ext) by {
      assert forall i :: 0 <= i < |s| ==> Lower(s)[i] == ("." + Lower(ext))[i];
    }
  }

  /** A name whose only dot is its first character, or that has no dot, has no suffix and is refused. */
  lemma NoSuffixRefused(name: string)
    requires name != "" && '/' !in name && forall k :: 0 < k < |name| ==> name[k] != '.'
    ensures Dispatch(name) == Err(Unsupported)
  {
    assert name[|name| - 1] != '/';
    assert LastIndex(name, '/') == -1;
    assert name[0..] == name;
    var i := LastIndex(name, '.');
    assert i <= 0;
    assert Lower("") == "";
  }

  // ---- The data frame ----

  /** A cell of the frame. */
  datatype Cell = Text(text: string) | Number(number: real) | NaN | Null

  type Record = map<string, Cell>

  /** A data frame: its column labels in order and its rows by label. */
  datatype Frame = Frame(columns: seq<string>, rows: seq<Record>)

  /** A frame's cell, `Null` when the row has no value for the label. */
  function CellOf(row: Record, c: string): Cell {
    if c in row then row[c] else Null
  }

  /** `REQUIRED_COLUMNS - set(df.columns)`. */
  function Missing(columns: seq<string>): set<string> {
    set c | c in Required && c !in columns
  }

  /** `[c for c in df.columns if c in ALL_COLUMNS]`. */
  function Retained(columns: seq<string>): seq<string> {
    Filter(columns, (c: string) => c in AllColumns)
  }

  /** `df[cols]`. */
  function Select(df: Frame, cols: seq<string>): Frame {
    Frame(cols, seq(|df.rows|, i requires 0 <= i < |df.rows| => map c | c in cols :: CellOf(df.rows[i], c)))
  }

  /** `pd.to_numeric(cell, errors="coerce")`; `toNumber` parses a text cell. */
  function ToNumeric(c: Cell, toNumber: string -> Option<real>): Cell {
    match c
    case Number(_) => c
    case Text(s) => if toNumber(s).Some? then Number(toNumber(s).value) else NaN
    case NaN => NaN
    case Null => NaN
  }

  /** `df[col] = pd.to_numeric(df[col], errors="coerce")`. */
  function Coerce(df: Frame, col: string, toNumber: string -> Option<real>): Frame {
    df.(rows := seq(|df.rows|, i requires 0 <= i < |df.rows| =>
                      df.rows[i][col := ToNumeric(CellOf(df.rows[i], col), toNumber)]))
  }

  /** `df[col] = None` for a label not yet in the frame. */
  function SetNull(df: Frame, col: string): Frame {
    Frame(df.columns + [col], seq(|df.rows|, i requires 0 <= i < |df.rows| => df.rows[i][col := Null]))
  }

  /**
   * What a pandas reader raises on input it cannot read: a `ValueError` (a parser error, a bad
   * JSON document) or an exception of another class (such as a file `openpyxl` cannot open).
   */
  datatype ReadError = ReadValueError(message: string) | ReadFailure(message: string)

  /**
   * What `parse_upload` raises: the report of missing columns, a `ValueError` (its own or the
   * reader's), or an exception of another class that the reader raised.
   */
  datatype ImportError = ImportErrorReport(missing: set<string>) | ValueError(message: string) | OtherException(message: string)

  /**
   * `parse_upload`. `read` stands for the pandas reader of each format and `toNumber` for
   * `pd.to_numeric` on a text cell. A reader's exception propagates unchanged. The frame is
   * narrowed to the known columns, its labels are stripped, `quantity_available` is coerced to
   * numbers, and `cost` is coerced or added as nulls.
   */
  method ParseUpload(filename: string, data: seq<Byte>, read: (Format, seq<Byte>) -> Result<Frame, ReadError>,
                     toNumber: string -> Option<real>) returns (r: Result<seq<Record>, ImportError>)
    ensures Dispatch(filename).Err? ==> r == Err(ValueError(Unsupported))
    ensures Dispatch(filename).Ok? ==>
      var rd := read(Dispatch(filename).value, data);
      && (rd.Err? && rd.error.ReadValueError? ==> r == Err(ValueError(rd.error.message)))
      && (rd.Err? && rd.error.ReadFailure? ==> r == Err(OtherException(rd.error.message)))
      && (rd.Ok? && Missing(rd.value.columns) != {} ==> r == Err(ImportErrorReport(Missing(rd.value.columns))))
      && (rd.Ok? && Missing(rd.value.columns) == {} ==> r == Ok(Records(rd.value, toNumber)))
  {
    var fmt := Dispatch(filename);
    if fmt.Err? {
      return Err(ValueError(Unsupported));
    }
    var rd := read(fmt.value, data);
    if rd.Err? {
      match rd.error
      case ReadValueError(m) => return Err(ValueError(m));
      case ReadFailure(m) => return Err(OtherException(m));
    }
    var df := rd.value;
    var missing := Required - set c | c in df.columns;
    MissingIs(df.columns);
    if missing != {} {
      return Err(ImportErrorReport(missing));
    }
    ghost var input := df;
    df := Select(df, Retained(df.columns));
    var stripped := StripAll(df.columns);
    RetainedStripped(input.columns);
    df := df.(columns := stripped);
    assert df == Select(input, Retained(input.columns));
    df := Coerce(df, "quantity_available", toNumber);
    if "cost" in df.columns {
      df := Coerce(df, "cost", toNumber);
    } else {
      df := SetNull(df, "cost");
    }
    return Ok(df.rows);
  }

  /** The records `parse_upload` returns for a frame holding every required column. */
  function Records(df: Frame, toNumber: string -> Option<real>): seq<Record> {
    var sel := Coerce(Select(df, Retained(df.columns)), "quantity_available", toNumber);
    if "cost" in sel.columns then Coerce(sel, "cost", toNumber).rows else SetNull(sel, "cost").rows
  }

  /** `df.columns = [c.strip() for c in df.columns]`. */
  function StripAll(cols: seq<string>): (r: seq<string>)
    ensures |r| == |cols| && forall i :: 0 <= i < |cols| ==> r[i] == Strip(cols[i])
  {
    seq(|cols|, i requires 0 <= i < |cols| => Strip(cols[i]))
  }

  /** `c.strip()` leaves every known column name as it is. */
  lemma RetainedStripped(columns: seq<string>)
    ensures StripAll(Retained(columns)) == Retained(columns)
  {
    var cols := Retained(columns);
    forall i | 0 <= i < |cols| ensures Strip(cols[i]) == cols[i] {
      FilterMembership(columns, (c: string) => c in AllColumns, cols[i]);
      KnownNamesUnspaced(cols[i]);
    }
  }

  lemma MissingIs(columns: seq<string>)
    ensures Required - (set c | c in columns) == Missing(columns)
  {
  }

  lemma KnownNamesUnspaced(c: string)
    requires c in AllColumns
    ensures forall k :: 0 <= k < |c| ==> !IsPySpace(c[k])
  {
    if c in Required {
      RequiredUnspaced(c);
    } else {
      OptionalUnspaced(c);
    }
  }

  lemma RequiredUnspaced(c: string)
    requires c in Required
    ensures forall k :: 0 <= k < |c| ==> !IsPySpace(c[k])
  {
  }

  lemma OptionalUnspaced(c: string)
    requires c in Optional
    ensures forall k :: 0 <= k < |c| ==> !IsPySpace(c[k])
  {
  }

  /** The retained labels are the input labels that are known, in input order, and include every required one. */
  lemma RetainedColumns(columns: seq<string>)
    ensures forall c :: c in Retained(columns) <==> c in columns && c in AllColumns
    ensures IsSubsequence(Retained(columns), columns)
    ensures Missing(columns) == {} ==> forall c :: c in Required ==> c in Retained(columns)
  {
    var p := (c: string) => c in AllColumns;
    forall c ensures c in Retained(columns) <==> c in columns && c in AllColumns {
      FilterMembership(columns, p, c);
    }
    FilterIsSubsequence(columns, p);
    if Missing(columns) == {} {
      forall c | c in Required ensures c in columns {
        assert c in Missing(columns) <==> c !in columns;
      }
    }
  }

  /** The record `parse_upload` makes of one row, keeping the labels `cols`. */
  function RecordOf(row: Record, cols: seq<string>, toNumber: string -> Option<real>): Record {
    var sel := map c | c in cols :: CellOf(row, c);
    var q := sel["quantity_available" := ToNumeric(CellOf(sel, "quantity_available"), toNumber)];
    if "cost" in cols then q["cost" := ToNumeric(CellOf(q, "cost"), toNumber)] else q["cost" := Null]
  }

  /** The records are the rows, one for one, each made into a record of the retained labels. */
  lemma RecordsAt(df: Frame, toNumber: string -> Option<real>, i: int)
    requires 0 <= i < |df.rows|
    ensures |Records(df, toNumber)| == |df.rows|
    ensures Records(df, toNumber)[i] == RecordOf(df.rows[i], Retained(df.columns), toNumber)
  {
  }

  /**
   * Every record has one entry per retained label plus `cost`; `quantity_available` is a number
   * or `NaN`; `cost` is a number or `NaN` when the file had the column and null otherwise; every
   * other entry is the file's cell.
   */
  lemma RecordShape(row: Record, cols: seq<string>, toNumber: string -> Option<real>)
    requires "quantity_available" in cols
    ensures var rec := RecordOf(row, cols, toNumber);
      && rec.Keys == (set c | c in cols) + {"cost"}
      && (rec["quantity_available"].Number? || rec["quantity_available"].NaN?)
      && ("cost" in cols ==> rec["cost"].Number? || rec["cost"].NaN?)
      && ("cost" !in cols ==> rec["cost"] == Null)
      && forall c :: c in rec.Keys && c != "quantity_available" && c != "cost" ==> rec[c] == CellOf(row, c)
  {
  }

  /**
   * For a file with every required column, each record holds every required label and only
   * known labels, and there is one record per row.
   */
  lemma RecordsShape(df: Frame, toNumber: string -> Option<real>, i: int)
    requires Missing(df.columns) == {}
    requires 0 <= i < |df.rows|
    ensures |Records(df, toNumber)| == |df.rows|
    ensures var rec := Records(df, toNumber)[i];
      && Required <= rec.Keys <= AllColumns
      && rec.Keys == (set c | c in Retained(df.columns)) + {"cost"}
  {
    RetainedColumns(df.columns);
    var cols := Retained(df.columns);
    RecordsAt(df, toNumber, i);
    RecordShape(df.rows[i], cols, toNumber);
  }
}
