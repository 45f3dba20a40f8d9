/**
 * The inventory REST handlers that hold logic of their own (backend/app/routers/inventory.py):
 * the CSV export, which writes a fixed header and one row per item, and the bulk import, which
 * maps the parser's errors to HTTP statuses and then creates the rows one by one, counting the
 * inserted rows and collecting the rejected ones.
 */
module InventoryRouter {
  import opened Common
  import opened InventoryService
  import II = InventoryImporter
  import opened Seqs

  // ---- Export ----

  /** The export's columns: the ten of `InventoryItem` and five the ORM class does not declare. */
  datatype Column =
    | LotNumber | Name | Category | QuantityAvailable | Unit | Manufacturer | Location
    | ExpiryDate | Supplier | SafetyStock | MinOrderQty | PackageSize | Origin | Cost | CreatedAt

  /** The attribute name of a column. */
  function ColumnName(c: Column): string {
    match c
    case LotNumber => "lot_number"
    case Name => "name"
    case Category => "category"
    case QuantityAvailable => "quantity_available"
    case Unit => "unit"
    case Manufacturer => "manufacturer"
    case Location => "location"
    case ExpiryDate => "expiry_date"
    case Supplier => "supplier"
    case SafetyStock => "safety_stock"
    case MinOrderQty => "min_order_qty"
    case PackageSize => "package_size"
    case Origin => "origin"
    case Cost => "cost"
    case CreatedAt => "created_at"
  }

  /** The export's header, in the order of the frontend's table. */
  const Header: seq<Column> := [
    LotNumber, Name, Category, QuantityAvailable, Unit, Manufacturer, Location, ExpiryDate,
    Supplier, SafetyStock, MinOrderQty, PackageSize, Origin, Cost, CreatedAt]

  /** A value handed to `csv.writer`: text, a number, an ISO date or date-time, or `None`. */
  datatype Field = Str(text: string) | Num(number: real) | IsoDate(date: Date) | IsoDateTime(stamp: DateTime) | NoneField

  function OptStr(o: Option<string>): Field {
    if o.Some? then Str(o.value) else NoneField
  }

  function OptNum(o: Option<real>): Field {
    if o.Some? then Num(o.value) else NoneField
  }

  /** The header as the first row writes it: the fifteen names. */
  function HeaderRow(): (r: seq<Field>)
    ensures |r| == |Header| == 15
    ensures forall i :: 0 <= i < |Header| ==> r[i] == Str(ColumnName(Header[i]))
  {
    seq(|Header|, i requires 0 <= i < |Header| => Str(ColumnName(Header[i])))
  }

  /**
   * What the export writes for a column of an `InventoryItem`, with dates in ISO form and a
   * missing date as `None`; no value at all for a column the ORM class does not declare.
   */
  function Written(it: Item, c: Column): Option<Field> {
    match c
    case LotNumber => Some(Str(it.lotNumber))
    case Name => Some(Str(it.name))
    case Category => Some(Str(it.category))
    case QuantityAvailable => Some(Num(it.quantity))
    case Unit => Some(Str(it.unit))
    case Location => Some(OptStr(it.location))
    case ExpiryDate => Some(if it.expiryDate.Some? then IsoDate(it.expiryDate.value) else NoneField)
    case Supplier => Some(OptStr(it.supplier))
    case Cost => Some(OptNum(it.cost))
    case CreatedAt => Some(if it.createdAt.Some? then IsoDateTime(it.createdAt.value) else NoneField)
    case _ => None
  }

  /** The message of the `AttributeError` Python raises for an attribute the object lacks. */
  function NoAttribute(name: string): string {
    "'InventoryItem' object has no attribute '" + name + "'"
  }

  /** Evaluating `it.<name>` for each column in turn, as a list display does: the first missing one raises. */
  function Attributes(it: Item, cols: seq<Column>): Result<seq<Field>, string> {
    if cols == [] then Ok([])
    else
      match Written(it, cols[0])
      case None => Err(NoAttribute(ColumnName(cols[0])))
      case Some(f) =>
        match Attributes(it, cols[1..])
        case Err(e) => Err(e)
        case Ok(fs) => Ok([f] + fs)
  }

  /** The row the handler builds for one item, as written: the header's attributes read in order. */
  function RowAsWritten(it: Item): Result<seq<Field>, string> {
    Attributes(it, Header)
  }

  /** Reading the columns stops at the first one the item lacks, with that column's error. */
  lemma {:induction false} AttributesStopAt(it: Item, cols: seq<Column>, k: nat)
    requires k < |cols| && Written(it, cols[k]).None?
    requires forall i :: 0 <= i < k ==> Written(it, cols[i]).Some?
    ensures Attributes(it, cols) == Err(NoAttribute(ColumnName(cols[k])))
  {
    if k > 0 {
      AttributesStopAt(it, cols[1..], k - 1);
    }
  }

  /**
   * `InventoryItem` has no `manufacturer` attribute, and it is the sixth column read, after
   * five that exist: building the row of any item raises.
   */
  lemma RowAsWrittenFails(it: Item)
    ensures RowAsWritten(it) == Err(NoAttribute("manufacturer"))
  {
    AttributesStopAt(it, Header, 5);
  }

  /**
   * `export_csv` as written: the header row, then the row of each item; the first item's row
   * raises, so the export succeeds only for an empty inventory.
   */
  method ExportCsvAsWritten(items: seq<Item>) returns (r: Result<seq<seq<Field>>, string>)
    ensures items == [] ==> r == Ok([HeaderRow()])
    ensures items != [] ==> r == Err(NoAttribute("manufacturer"))
  {
    var rows := [HeaderRow()];
    for k := 0 to |items|
      invariant |rows| == k + 1 && rows[0] == HeaderRow()
      invariant forall j :: 0 <= j < k ==> RowAsWritten(items[j]).Ok?
    {
      var row := RowAsWritten(items[k]);
      if row.Err? {
        RowAsWrittenFails(items[k]);
        return Err(row.error);
      }
      rows := rows + [row.value];
    }
    if items != [] {
      RowAsWrittenFails(items[0]);
      assert false;
    }
    assert rows == [rows[0]];
    return Ok(rows);
  }

  /** The row of one item with each attribute the ORM class lacks written as `None`. */
  function RowOf(it: Item): seq<Field> {
    [ Str(it.lotNumber), Str(it.name), Str(it.category), Num(it.quantity), Str(it.unit),
      NoneField,
      OptStr(it.location),
      if it.expiryDate.Some? then IsoDate(it.expiryDate.value) else NoneField,
      OptStr(it.supplier),
      NoneField, NoneField, NoneField, NoneField,
      OptNum(it.cost),
      if it.createdAt.Some? then IsoDateTime(it.createdAt.value) else NoneField ]
  }

  /** The value of a column in a row: the attribute, or `None` when the item has none. */
  function ColumnValue(it: Item, c: Column): Field {
    if Written(it, c).Some? then Written(it, c).value else NoneField
  }

  /** The row has one field per header column, and field `i` is the attribute of column `Header[i]`. */
  lemma RowOfByName(it: Item)
    ensures |RowOf(it)| == |Header|
    ensures forall i :: 0 <= i < |Header| ==> RowOf(it)[i] == ColumnValue(it, Header[i])
  {
  }

  /** Where the item has every column read, the row as written succeeds with the columns' values. */
  lemma {:induction false} AttributesAgree(it: Item, cols: seq<Column>)
    requires forall i :: 0 <= i < |cols| ==> Written(it, cols[i]).Some?
    ensures Attributes(it, cols).Ok?
    ensures |Attributes(it, cols).value| == |cols|
    ensures forall i :: 0 <= i < |cols| ==> Attributes(it, cols).value[i] == ColumnValue(it, cols[i])
    decreases |cols|
  {
    if cols != [] {
      AttributesAgree(it, cols[1..]);
      var fs := Attributes(it, cols[1..]).value;
      assert Attributes(it, cols).value == [ColumnValue(it, cols[0])] + fs;
    }
  }

  /** `export_csv` with the missing attributes read as `None`: the header, then one row per item in order. */
  method ExportCsv(items: seq<Item>) returns (rows: seq<seq<Field>>)
    ensures |rows| == |items| + 1
    ensures rows[0] == HeaderRow()
    ensures forall k :: 0 <= k < |items| ==> rows[k + 1] == RowOf(items[k])
  {
    rows := [HeaderRow()];
    for k := 0 to |items|
      invariant |rows| == k + 1 && rows[0] == HeaderRow()
      invariant forall j :: 0 <= j < k ==> rows[j + 1] == RowOf(items[j])
    {
      rows := rows + [RowOf(items[k])];
    }
  }

  // ---- Import ----

  /** One entry of `skipped`: the 1-based row, its `lot_number` cell and the error text. */
  datatype Skip = Skip(row: nat, lotNumber: II.Cell, error: string)

  /** The handler's outcome: the summary with status 201, or an `HTTPException`. */
  datatype ImportResponse = Imported(inserted: nat, skipped: seq<Skip>) | HttpError(status: nat, detail: string)

  /**
   * The status a parser error maps to: 422 for missing columns, 400 for any other `ValueError`,
   * and 500 for an exception no clause catches, which the framework answers itself.
   */
  function Status(e: II.ImportError): (r: nat)
    ensures e.ImportErrorReport? <==> r == 422
    ensures e.ValueError? <==> r == 400
    ensures e.OtherException? <==> r == 500
  {
    match e
    case ImportErrorReport(_) => 422
    case ValueError(_) => 400
    case OtherException(_) => 500
  }

  const InternalServerError: string := "Internal Server Error"

  /** `str(exc)` of a caught parser error; the framework's own text for an uncaught one. */
  function Detail(e: II.ImportError): string {
    match e
    case ImportErrorReport(missing) => II.ReportMessage(missing)
    case ValueError(message) => message
    case OtherException(_) => InternalServerError
  }

  /** `row.get("lot_number", "")`. */
  function LotOf(row: II.Record): (r: II.Cell)
    ensures "lot_number" in row ==> r == row["lot_number"]
    ensures "lot_number" !in row ==> r == II.Text("")
  {
    if "lot_number" in row then row["lot_number"] else II.Text("")
  }

  /**
   * What the loop calls and cannot be seen here: `validate` stands for `ItemCreate(**row)` (its
   * error text when validation fails), `errorText` for `str(err)` of what the service raises,
   * and `clock(idx)` for the creation time of the row at 0-based index `idx`.
   */
  datatype Hooks = Hooks(validate: II.Record -> Result<ItemCreate, string>,
                         errorText: ServiceError -> string,
                         clock: nat -> DateTime)

  /** The state of the loop: the tables, the two tallies and the messages broadcast so far. */
  datatype Tally = Tally(tables: Tables, inserted: nat, skipped: seq<Skip>, sent: seq<Message>)

  /** One pass of the loop, for the row at 0-based index `idx`. */
  function ImportStep(acc: Tally, idx: nat, row: II.Record, h: Hooks): Tally {
    match h.validate(row)
    case Err(msg) => acc.(skipped := acc.skipped + [Skip(idx + 1, LotOf(row), msg)])
    case Ok(data) =>
      match AfterCreate(acc.tables, data, h.clock(idx))
      case Err(e) => acc.(skipped := acc.skipped + [Skip(idx + 1, LotOf(row), h.errorText(e))])
      case Ok(t) => Tally(t, acc.inserted + 1, acc.skipped, acc.sent + [Message("ALTA", data.lotNumber, None)])
  }

  /** The state after the first `n` rows, starting from the tables `t`. */
  function ImportRows(t: Tables, rows: seq<II.Record>, n: nat, h: Hooks): Tally
    requires n <= |rows|
  {
    if n == 0 then Tally(t, 0, [], [])
    else ImportStep(ImportRows(t, rows, n - 1, h), n - 1, rows[n - 1], h)
  }

  /**
   * A row is inserted exactly when it validates, its category is one of the enum's, its lot is
   * new and its quantity is not negative; then the tables are those `create_item` commits and one `ALTA` is sent. Otherwise
   * nothing changes but one entry, for this row, added to `skipped`: with the validation's message
   * when the row does not validate, and with the text of the service's error when it is refused.
   */
  lemma ImportStepOutcome(acc: Tally, idx: nat, row: II.Record, h: Hooks)
    ensures var next := ImportStep(acc, idx, row, h);
      var v := h.validate(row);
      && (next.inserted == acc.inserted + 1 <==>
            && v.Ok? && v.value.category in CategoryEnum
            && v.value.lotNumber !in acc.tables.items && v.value.quantity >= 0.0)
      && (next.inserted == acc.inserted + 1 ==>
            && next.tables == AfterCreate(acc.tables, v.value, h.clock(idx)).value
            && next.skipped == acc.skipped
            && next.sent == acc.sent + [Message("ALTA", v.value.lotNumber, None)])
      && (next.inserted != acc.inserted + 1 ==>
            && next.inserted == acc.inserted
            && next.tables == acc.tables
            && next.sent == acc.sent
            && |next.skipped| == |acc.skipped| + 1)
      && (v.Err? ==> next.skipped == acc.skipped + [Skip(idx + 1, LotOf(row), v.error)])
      && (v.Ok? && AfterCreate(acc.tables, v.value, h.clock(idx)).Err? ==>
            next.skipped == acc.skipped + [Skip(idx + 1, LotOf(row), h.errorText(AfterCreate(acc.tables, v.value, h.clock(idx)).error))])
  {
  }

  /** Every row is counted once, and one message is broadcast per inserted row. */
  lemma {:induction false} ImportCounts(t: Tables, rows: seq<II.Record>, n: nat, h: Hooks)
    requires n <= |rows|
    ensures var tl := ImportRows(t, rows, n, h);
      tl.inserted + |tl.skipped| == n && |tl.sent| == tl.inserted
  {
    if n > 0 {
      ImportCounts(t, rows, n - 1, h);
      ImportStepOutcome(ImportRows(t, rows, n - 1, h), n - 1, rows[n - 1], h);
    }
  }

  /**
   * The skipped rows are 1-based positions among the first `n`, strictly increasing, each with
   * the `lot_number` cell of its row.
   */
  predicate SkipsWellFormed(skipped: seq<Skip>, rows: seq<II.Record>, n: nat)
    requires n <= |rows|
  {
    && (forall k :: 0 <= k < |skipped| ==> 1 <= skipped[k].row <= n && skipped[k].lotNumber == LotOf(rows[skipped[k].row - 1]))
    && (forall j, k :: 0 <= j < k < |skipped| ==> skipped[j].row < skipped[k].row)
  }

  /** A well-formed list stays well formed when a later row is seen, skipped or not. */
  lemma SkipsExtend(skipped: seq<Skip>, rows: seq<II.Record>, n: nat, error: string)
    requires 0 < n <= |rows| && SkipsWellFormed(skipped, rows, n - 1)
    ensures SkipsWellFormed(skipped, rows, n)
    ensures SkipsWellFormed(skipped + [Skip(n, LotOf(rows[n - 1]), error)], rows, n)
  {
    var s := skipped + [Skip(n, LotOf(rows[n - 1]), error)];
    forall j, k | 0 <= j < k < |s| ensures s[j].row < s[k].row {
      assert s[j] == skipped[j];
    }
  }

  /** The `skipped` list the loop builds is well formed. */
  lemma {:induction false} ImportSkips(t: Tables, rows: seq<II.Record>, n: nat, h: Hooks)
    requires n <= |rows|
    ensures SkipsWellFormed(ImportRows(t, rows, n, h).skipped, rows, n)
  {
    if n > 0 {
      ImportSkips(t, rows, n - 1, h);
      var prev := ImportRows(t, rows, n - 1, h);
      var next := ImportRows(t, rows, n, h);
      ImportStepOutcome(prev, n - 1, rows[n - 1], h);
      if next.skipped == prev.skipped {
        SkipsExtend(prev.skipped, rows, n, "");
      } else {
        SkipsExtend(prev.skipped, rows, n, next.skipped[|prev.skipped|].error);
      }
    }
  }

  /** The import keeps the ledger consistent: rows are only ever added through `create_item`. */
  lemma {:induction false} ImportKeepsConsistent(t: Tables, rows: seq<II.Record>, n: nat, h: Hooks)
    requires n <= |rows| && Consistent(t)
    ensures Consistent(ImportRows(t, rows, n, h).tables)
  {
    if n > 0 {
      ImportKeepsConsistent(t, rows, n - 1, h);
      var prev := ImportRows(t, rows, n - 1, h);
      var v := h.validate(rows[n - 1]);
      if v.Ok? && AfterCreate(prev.tables, v.value, h.clock(n - 1)).Ok? {
        CreateKeepsConsistent(prev.tables, v.value, h.clock(n - 1));
      }
    }
  }

  /** What `parse_upload` returns or raises for the upload. */
  function ParseOutcome(filename: string, data: seq<Byte>, read: (II.Format, seq<Byte>) -> Result<II.Frame, II.ReadError>,
                        toNumber: string -> Option<real>): Result<seq<II.Record>, II.ImportError> {
    var fmt := II.Dispatch(filename);
    if fmt.Err? then Err(II.ValueError(II.Unsupported))
    else
      var rd := read(fmt.value, data);
      if rd.Err? then
        (match rd.error
         case ReadValueError(m) => Err(II.ValueError(m))
         case ReadFailure(m) => Err(II.OtherException(m)))
      else if II.Missing(rd.value.columns) != {} then Err(II.ImportErrorReport(II.Missing(rd.value.columns)))
      else Ok(II.Records(rd.value, toNumber))
  }

  /**
   * `import_bulk`. A parser error becomes an `HTTPException`, and an exception no clause catches
   * the framework's 500 response, before any row is inserted; otherwise
   * each row is created in turn and the response carries the tallies of the loop.
   */
  method ImportBulk(svc: InventoryService, db: Database, filename: string, contents: seq<Byte>,
                    read: (II.Format, seq<Byte>) -> Result<II.Frame, II.ReadError>, toNumber: string -> Option<real>, h: Hooks)
    returns (resp: ImportResponse)
    requires svc.Valid()
    modifies db, svc.listeners
    ensures var parsed := ParseOutcome(filename, contents, read, toNumber);
      && (parsed.Err? ==> (resp == HttpError(Status(parsed.error), Detail(parsed.error))
            && db.tables == old(db.tables)
            && forall i :: 0 <= i < |svc.listeners| ==> svc.listeners[i].contents == old(svc.listeners[i].contents)))
      && (parsed.Ok? ==> (
            var tl := ImportRows(old(db.tables), parsed.value, |parsed.value|, h);
            && resp == Imported(tl.inserted, tl.skipped)
            && db.tables == tl.tables
            && forall i :: 0 <= i < |svc.listeners| ==> svc.listeners[i].contents == old(svc.listeners[i].contents) + tl.sent))
  {
    var parsed := II.ParseUpload(filename, contents, read, toNumber);
    assert parsed == ParseOutcome(filename, contents, read, toNumber);
    if parsed.Err? {
      return HttpError(Status(parsed.error), Detail(parsed.error));
    }
    var inserted, skipped := CreateRows(svc, db, parsed.value, h);
    return Imported(inserted, skipped);
  }

  /** The loop of `import_bulk`: each row is validated and created in turn, and tallied. */
  method CreateRows(svc: InventoryService, db: Database, rows: seq<II.Record>, h: Hooks)
    returns (inserted: nat, skipped: seq<Skip>)
    requires svc.Valid()
    modifies db, svc.listeners
    ensures var tl := ImportRows(old(db.tables), rows, |rows|, h);
      && inserted == tl.inserted && skipped == tl.skipped
      && db.tables == tl.tables
      && forall i :: 0 <= i < |svc.listeners| ==> svc.listeners[i].contents == old(svc.listeners[i].contents) + tl.sent
  {
    inserted := 0;
    skipped := [];
    ghost var sent: seq<Message> := [];
    for idx := 0 to |rows|
      invariant ImportRows(old(db.tables), rows, idx, h) == Tally(db.tables, inserted, skipped, sent)
      invariant forall i :: 0 <= i < |svc.listeners| ==> svc.listeners[i].contents == old(svc.listeners[i].contents) + sent
    {
      ghost var before := Tally(db.tables, inserted, skipped, sent);
      var row := rows[idx];
      var item := h.validate(row);
      if item.Err? {
        skipped := skipped + [Skip(idx + 1, LotOf(row), item.error)];
      } else {
        label BeforeCreate:
        var r := svc.CreateItem(db, item.value, h.clock(idx));
        if r.Ok? {
          var m := Message("ALTA", item.value.lotNumber, None);
          forall i | 0 <= i < |svc.listeners|
            ensures svc.listeners[i].contents == old(svc.listeners[i].contents) + (sent + [m])
          {
            assert svc.listeners[i].contents == old@BeforeCreate(svc.listeners[i].contents) + [m];
            assert old(svc.listeners[i].contents) + (sent + [m]) == old(svc.listeners[i].contents) + sent + [m];
          }
          inserted := inserted + 1;
          sent := sent + [m];
        } else {
          skipped := skipped + [Skip(idx + 1, LotOf(row), h.errorText(r.error))];
        }
      }
      assert ImportStep(before, idx, row, h) == Tally(db.tables, inserted, skipped, sent);
    }
  }
}
