/** Spreadsheet generation from an extracted record. A worksheet is a map from
    (row, column) to the value of each non-empty cell; loading a template file
    and saving the workbook are replaced by a repository of templates and the
    outcome of the save. `str(value)` of a non-string is kept symbolic. */
module ExcelService {
  import opened Wrappers
  import opened Text
  import opened Json
  import opened Errors

  /** A cell value: a string, the `str()` of a non-string value written by the
      service, or any other value a template file brings along. */
  datatype CellValue = Str(s: string) | StrOf(v: JsonValue) | OtherValue(id: int)

  type Worksheet = map<(int, int), CellValue>

  datatype Sheet = Sheet(title: string, cells: Worksheet)

  /** The sheets in tab order and the index of the active one. */
  datatype Workbook = Workbook(sheets: seq<Sheet>, active: int)

  /** A template file on disk: a workbook, or one the loader rejects. */
  datatype TemplateFile = Readable(book: Workbook) | Unreadable(reason: string)

  /** The saved report: its path and the workbook written there. */
  datatype Report = Report(path: string, book: Workbook)

  /** One generation: its outcome, and whether the save was attempted. */
  datatype ExcelRun = ExcelRun(outcome: Result<Report, AppError>, saveAttempted: bool)

  /** A data row of columns 1 to 3: its caption and the value it shows. */
  datatype Row = Row(caption: string, value: JsonValue)

  const ExcelErrorPrefix := "Error generando archivo Excel: "
  const TemplateNotFoundPrefix := "Plantilla no encontrada: "
  const DefaultTitle := "Datos Extraídos"
  const Headers := ["Campo", "Valor", "Tipo", "Confianza"]
  const MetadataTitle := "Metadatos del Procesamiento"
  const OutputDir := "output/"

  /** `str(v)` in a cell: a string is written as itself. */
  function Shown(v: JsonValue): CellValue {
    if v.JString? then Str(v.s) else StrOf(v)
  }

  /** The message of the AttributeError raised by `v.attr` on a value lacking it. */
  function NoAttributeError(typeName: string, attr: string): string {
    "'" + typeName + "' object has no attribute '" + attr + "'"
  }

  /** Two worksheets agree on cell `p`: both empty there, or both holding the same value. */
  predicate Same(a: Worksheet, b: Worksheet, p: (int, int)) {
    (p in a <==> p in b) && (p in a ==> a[p] == b[p])
  }

  // ---------------------------------------------------------------- sheet choice

  function Titles(book: Workbook): (ts: seq<string>)
    ensures |ts| == |book.sheets|
    ensures forall i :: 0 <= i < |ts| ==> ts[i] == book.sheets[i].title
  {
    seq(|book.sheets|, i requires 0 <= i < |book.sheets| => book.sheets[i].title)
  }

  /** The position of the first sheet titled `title`, or the number of sheets. */
  function SheetIndex(sheets: seq<Sheet>, title: string, from: nat): (i: nat)
    requires from <= |sheets|
    ensures from <= i <= |sheets|
    ensures forall j :: from <= j < i ==> sheets[j].title != title
    ensures i < |sheets| ==> sheets[i].title == title
    decreases |sheets| - from
  {
    if from == |sheets| || sheets[from].title == title then from else SheetIndex(sheets, title, from + 1)
  }

  /** `workbook.active` (None when its index names no sheet). */
  function ActiveSheet(book: Workbook): Option<nat> {
    if 0 <= book.active < |book.sheets| then Some(book.active as nat) else None
  }

  /** The sheet `_populate_workbook` fills: the one titled "Datos", else the one
      titled "Sheet1", else the active one. */
  function SelectSheet(book: Workbook): (r: Option<nat>)
    ensures r.Some? ==> r.value < |book.sheets|
    ensures "Datos" in Titles(book) ==> r.Some? && book.sheets[r.value].title == "Datos"
    ensures "Datos" !in Titles(book) && "Sheet1" in Titles(book) ==>
              r.Some? && book.sheets[r.value].title == "Sheet1"
    ensures "Datos" !in Titles(book) && "Sheet1" !in Titles(book) ==> r == ActiveSheet(book)
  {
    var datos := SheetIndex(book.sheets, "Datos", 0);
    var sheet1 := SheetIndex(book.sheets, "Sheet1", 0);
    assert datos < |book.sheets| ==> Titles(book)[datos] == "Datos";
    assert sheet1 < |book.sheets| ==> Titles(book)[sheet1] == "Sheet1";
    if datos < |book.sheets| then Some(datos)
    else if sheet1 < |book.sheets| then Some(sheet1)
    else ActiveSheet(book)
  }

  // ----------------------------------------------------------- default workbook

  /** `_create_default_workbook`: one active sheet titled "Datos Extraídos"
      with the four headers in row 1 (their styling is not modelled). */
  function DefaultWorkbook(): Workbook {
    Workbook([Sheet(DefaultTitle, HeaderCells())], 0)
  }

  function HeaderCells(): (ws: Worksheet)
    ensures forall c :: 1 <= c <= 4 ==> (1, c) in ws && ws[(1, c)] == Str(Headers[c - 1])
    ensures forall p: (int, int) :: p in ws ==> p.0 == 1 && 1 <= p.1 <= 4
  {
    map[(1, 1) := Str(Headers[0]), (1, 2) := Str(Headers[1]), (1, 3) := Str(Headers[2]), (1, 4) := Str(Headers[3])]
  }

  // ------------------------------------------------------------------ start row

  /** `_find_start_row`: data goes below a header row, recognised by the
      label in cell (1, 1). */
  function FindStartRow(ws: Worksheet): (row: int)
    ensures row == 1 || row == 2
    ensures row == 2 <==> (1, 1) in ws && ws[(1, 1)] in {Str("Campo"), Str("Dato"), Str("Key")}
  {
    if (1, 1) in ws && ws[(1, 1)] in [Str("Campo"), Str("Dato"), Str("Key")] then 2 else 1
  }

  // ------------------------------------------------------------------- metadata

  /** The loop of `_add_metadata` from entry `k` on: entry `k` goes to row `k + 2`,
      its key in column 5 and its value in column 6. */
  function WriteMetadataEntries(ws: Worksheet, fields: seq<(string, JsonValue)>, k: nat): Worksheet
    requires k <= |fields|
    decreases |fields| - k
  {
    if k == |fields| then ws
    else WriteMetadataEntries(ws[(k + 2, 5) := Str(fields[k].0)][(k + 2, 6) := Shown(fields[k].1)], fields, k + 1)
  }

  /** `_add_metadata`: nothing for a falsy value; otherwise the title and then
      the entries, which only a dict has. */
  function AddMetadata(ws: Worksheet, meta: JsonValue): (r: Result<Worksheet, string>)
    ensures r.Failure? <==> Truthy(meta) && !meta.JObject?
    ensures !Truthy(meta) ==> r == Success(ws)
  {
    if !Truthy(meta) then Success(ws)
    else if !meta.JObject? then Failure(NoAttributeError(TypeName(meta), "items"))
    else Success(WriteMetadataEntries(ws[(1, 5) := Str(MetadataTitle)], meta.fields, 0))
  }

  /** Cell `p` lies in the metadata block of `n` entries: the title cell, or
      columns 5 and 6 of rows 2 to `n + 1`. */
  predicate InMetadataBlock(p: (int, int), n: nat) {
    p == (1, 5) || (2 <= p.0 < n + 2 && 5 <= p.1 <= 6)
  }

  /** Row `row` of the metadata block holds the entry `e`. */
  predicate MetadataAt(ws: Worksheet, row: int, e: (string, JsonValue)) {
    (row, 5) in ws && ws[(row, 5)] == Str(e.0) && (row, 6) in ws && ws[(row, 6)] == Shown(e.1)
  }

  lemma {:induction false} WriteMetadataEntriesPlacement(
    ws: Worksheet, fields: seq<(string, JsonValue)>, k: nat, r: Worksheet)
    requires k <= |fields| && r == WriteMetadataEntries(ws, fields, k)
    ensures forall j :: k <= j < |fields| ==> MetadataAt(r, j + 2, fields[j])
    ensures forall p: (int, int) :: !(k + 2 <= p.0 < |fields| + 2 && 5 <= p.1 <= 6) ==> Same(r, ws, p)
    decreases |fields| - k
  {
    if k < |fields| {
      var ws' := ws[(k + 2, 5) := Str(fields[k].0)][(k + 2, 6) := Shown(fields[k].1)];
      WriteMetadataEntriesPlacement(ws', fields, k + 1, r);
      assert Same(r, ws', (k + 2, 5)) && Same(r, ws', (k + 2, 6));
      assert MetadataAt(r, k + 2, fields[k]);
      forall p: (int, int) | !(k + 2 <= p.0 < |fields| + 2 && 5 <= p.1 <= 6)
        ensures Same(r, ws, p)
      {
        assert Same(r, ws', p);
      }
    }
  }

  /** The metadata block: a truthy dict writes its title at (1, 5) and entry
      `k` at row `k + 2` (key in column 5, value in column 6), and leaves every
      other cell as it was. */
  lemma MetadataLayout(ws: Worksheet, fields: seq<(string, JsonValue)>)
    requires |fields| > 0
    ensures AddMetadata(ws, JObject(fields)).Success?
    ensures var r := AddMetadata(ws, JObject(fields)).value;
            && (1, 5) in r && r[(1, 5)] == Str(MetadataTitle)
            && (forall k :: 0 <= k < |fields| ==> MetadataAt(r, k + 2, fields[k]))
            && (forall p: (int, int) :: !InMetadataBlock(p, |fields|) ==> Same(r, ws, p))
  {
    var ws' := ws[(1, 5) := Str(MetadataTitle)];
    var r := WriteMetadataEntries(ws', fields, 0);
    WriteMetadataEntriesPlacement(ws', fields, 0, r);
    assert Same(r, ws', (1, 5));
    forall p: (int, int) | !InMetadataBlock(p, |fields|)
      ensures Same(r, ws, p)
    {
      assert Same(r, ws', p);
    }
  }

  // ------------------------------------------------------------------ data rows

  /** Keys starting with an underscore (such as `_metadata`) are skipped. */
  predicate Hidden(key: string) {
    StartsWith(key, "_")
  }

  /** Writes one data row: label in column 1, `str(value)` in column 2 and
      `type(value).__name__` in column 3. */
  function WriteRow(ws: Worksheet, row: int, r: Row): Worksheet {
    ws[(row, 1) := Str(r.caption)][(row, 2) := Shown(r.value)][(row, 3) := Str(TypeName(r.value))]
  }

  function DictLabel(parent: string, child: string): string {
    parent + "." + child
  }

  function ListLabel(parent: string, i: nat): string {
    parent + "[" + NatToString(i) + "]"
  }

  /** `_add_dict_data` from child `i` on, writing at `row`: the next free row
      and the updated sheet. */
  function AddDictData(ws: Worksheet, parent: string, fields: seq<(string, JsonValue)>, i: nat, row: int): (Worksheet, int)
    requires i <= |fields|
    decreases |fields| - i
  {
    if i == |fields| then (ws, row)
    else AddDictData(WriteRow(ws, row, Row(DictLabel(parent, fields[i].0), fields[i].1)), parent, fields, i + 1, row + 1)
  }

  /** `_add_list_data` from item `i` on, writing at `row`. */
  function AddListData(ws: Worksheet, parent: string, items: seq<JsonValue>, i: nat, row: int): (Worksheet, int)
    requires i <= |items|
    decreases |items| - i
  {
    if i == |items| then (ws, row)
    else AddListData(WriteRow(ws, row, Row(ListLabel(parent, i), items[i])), parent, items, i + 1, row + 1)
  }

  /** The data loop of `_populate_workbook` from entry `i` on, writing at `row`. */
  function PopulateRows(ws: Worksheet, data: seq<(string, JsonValue)>, i: nat, row: int): (Worksheet, int)
    requires i <= |data|
    decreases |data| - i
  {
    if i == |data| then (ws, row)
    else
      var (key, value) := data[i];
      if Hidden(key) then PopulateRows(ws, data, i + 1, row)
      else if value.JObject? then
        var (ws', next) := AddDictData(ws, key, value.fields, 0, row);
        PopulateRows(ws', data, i + 1, next)
      else if value.JList? then
        var (ws', next) := AddListData(ws, key, value.items, 0, row);
        PopulateRows(ws', data, i + 1, next)
      else PopulateRows(WriteRow(ws, row, Row(key, value)), data, i + 1, row + 1)
  }

  // ---------------------------------------------------- reference row layout

  /** The rows one entry expands to: one per dict child (`parent.child`), one
      per list item (`parent[i]`), or the entry itself; children are shown
      whole, never expanded further. */
  function Expand(key: string, value: JsonValue): (rows: seq<Row>)
    ensures |rows| == Weight(value)
  {
    match value
    case JObject(fields) => seq(|fields|, k requires 0 <= k < |fields| => Row(DictLabel(key, fields[k].0), fields[k].1))
    case JList(items) => seq(|items|, k requires 0 <= k < |items| => Row(ListLabel(key, k), items[k]))
    case _ => [Row(key, value)]
  }

  /** How many rows a visible entry takes. */
  function Weight(value: JsonValue): nat {
    match value
    case JObject(fields) => |fields|
    case JList(items) => |items|
    case _ => 1
  }

  /** The rows of one entry of the record: none for a hidden key. */
  function Part(entry: (string, JsonValue)): seq<Row> {
    if Hidden(entry.0) then [] else Expand(entry.0, entry.1)
  }

  /** The rows of a record, in order: its visible entries expanded one level. */
  function Flatten(data: seq<(string, JsonValue)>): seq<Row> {
    if |data| == 0 then [] else Part(data[0]) + Flatten(data[1..])
  }

  /** The number of data rows: the sum of the weights of the visible entries. */
  function RowCount(data: seq<(string, JsonValue)>): nat {
    if |data| == 0 then 0
    else (if Hidden(data[0].0) then 0 else Weight(data[0].1)) + RowCount(data[1..])
  }

  /** Writes `rows` on consecutive rows from `row`. */
  function WriteRows(ws: Worksheet, rows: seq<Row>, row: int): Worksheet
    decreases |rows|
  {
    if |rows| == 0 then ws else WriteRows(WriteRow(ws, row, rows[0]), rows[1..], row + 1)
  }

  /** Row `row` of the sheet holds `r` in columns 1 to 3. */
  predicate RowAt(ws: Worksheet, row: int, r: Row) {
    && (row, 1) in ws && ws[(row, 1)] == Str(r.caption)
    && (row, 2) in ws && ws[(row, 2)] == Shown(r.value)
    && (row, 3) in ws && ws[(row, 3)] == Str(TypeName(r.value))
  }

  /** Cell `p` lies in columns 1 to 3 of the `n` rows from `row`. */
  predicate InDataBlock(p: (int, int), row: int, n: nat) {
    row <= p.0 < row + n && 1 <= p.1 <= 3
  }

  /** Rows are written contiguously from `row`, each in its place, and no
      other cell changes. */
  lemma {:induction false} WriteRowsPlacement(ws: Worksheet, rows: seq<Row>, row: int)
    ensures var r := WriteRows(ws, rows, row);
            && (forall k :: 0 <= k < |rows| ==> RowAt(r, row + k, rows[k]))
            && (forall p: (int, int) :: !InDataBlock(p, row, |rows|) ==> Same(r, ws, p))
    decreases |rows|
  {
    if |rows| > 0 {
      var ws' := WriteRow(ws, row, rows[0]);
      WriteRowsPlacement(ws', rows[1..], row + 1);
      var r := WriteRows(ws', rows[1..], row + 1);
      assert r == WriteRows(ws, rows, row);
      assert RowAt(r, row, rows[0]) by {
        assert Same(r, ws', (row, 1)) && Same(r, ws', (row, 2)) && Same(r, ws', (row, 3));
      }
      forall k | 1 <= k < |rows|
        ensures RowAt(r, row + k, rows[k])
      {
        assert rows[1..][k - 1] == rows[k];
      }
      forall p: (int, int) | !InDataBlock(p, row, |rows|)
        ensures Same(r, ws, p)
      {
        assert Same(r, ws', p);
      }
    }
  }

  lemma {:induction false} WriteRowsAppend(ws: Worksheet, a: seq<Row>, b: seq<Row>, row: int)
    ensures WriteRows(ws, a + b, row) == WriteRows(WriteRows(ws, a, row), b, row + |a|)
    decreases |a|
  {
    if |a| > 0 {
      assert (a + b)[0] == a[0];
      assert (a + b)[1..] == a[1..] + b;
      WriteRowsAppend(WriteRow(ws, row, a[0]), a[1..], b, row + 1);
    } else {
      assert a + b == b;
    }
  }

  lemma {:induction false} AddDictDataWritesRows(ws: Worksheet, parent: string, fields: seq<(string, JsonValue)>, i: nat, row: int)
    requires i <= |fields|
    ensures AddDictData(ws, parent, fields, i, row)
         == (WriteRows(ws, Expand(parent, JObject(fields))[i..], row), row + |fields| - i)
    decreases |fields| - i
  {
    var rows := Expand(parent, JObject(fields));
    if i < |fields| {
      AddDictDataWritesRows(WriteRow(ws, row, rows[i]), parent, fields, i + 1, row + 1);
      assert rows[i..][0] == rows[i];
      assert rows[i..][1..] == rows[i + 1..];
    }
  }

  lemma {:induction false} AddListDataWritesRows(ws: Worksheet, parent: string, items: seq<JsonValue>, i: nat, row: int)
    requires i <= |items|
    ensures AddListData(ws, parent, items, i, row)
         == (WriteRows(ws, Expand(parent, JList(items))[i..], row), row + |items| - i)
    decreases |items| - i
  {
    var rows := Expand(parent, JList(items));
    if i < |items| {
      AddListDataWritesRows(WriteRow(ws, row, rows[i]), parent, items, i + 1, row + 1);
      assert rows[i..][0] == rows[i];
      assert rows[i..][1..] == rows[i + 1..];
    }
  }

  /** One turn of the data loop writes the rows of entry `i`. */
  lemma PopulateStep(ws: Worksheet, data: seq<(string, JsonValue)>, i: nat, row: int)
    requires i < |data|
    ensures PopulateRows(ws, data, i, row)
         == PopulateRows(WriteRows(ws, Part(data[i]), row), data, i + 1, row + |Part(data[i])|)
  {
    var (key, value) := data[i];
    var head := Part(data[i]);
    assert head[0..] == head;
    if Hidden(key) {
    } else if value.JObject? {
      AddDictDataWritesRows(ws, key, value.fields, 0, row);
    } else if value.JList? {
      AddListDataWritesRows(ws, key, value.items, 0, row);
    } else {
      assert WriteRows(ws, head, row) == WriteRows(WriteRow(ws, row, Row(key, value)), [], row + 1);
    }
  }

  /** The data loop writes exactly the flattened record, contiguously from
      its start row, and returns the row after the last one. */
  lemma {:induction false} PopulateRowsWritesFlatten(ws: Worksheet, data: seq<(string, JsonValue)>, i: nat, row: int)
    requires i <= |data|
    ensures PopulateRows(ws, data, i, row)
         == (WriteRows(ws, Flatten(data[i..]), row), row + |Flatten(data[i..])|)
    decreases |data| - i
  {
    if i < |data| {
      var head := Part(data[i]);
      var tail := Flatten(data[i + 1..]);
      assert data[i..][0] == data[i];
      assert data[i..][1..] == data[i + 1..];
      assert Flatten(data[i..]) == head + tail;
      PopulateStep(ws, data, i, row);
      PopulateRowsWritesFlatten(WriteRows(ws, head, row), data, i + 1, row + |head|);
      WriteRowsAppend(ws, head, tail, row);
    }
  }

  /** The record's rows are the rows of its parts, in order. */
  lemma {:induction false} FlattenAppend(a: seq<(string, JsonValue)>, b: seq<(string, JsonValue)>)
    ensures Flatten(a + b) == Flatten(a) + Flatten(b)
    decreases |a|
  {
    if |a| > 0 {
      var head := Part(a[0]);
      assert (a + b)[0] == a[0];
      assert (a + b)[1..] == a[1..] + b;
      assert Flatten(a + b) == head + Flatten(a[1..] + b);
      FlattenAppend(a[1..], b);
      assert Flatten(a) == head + Flatten(a[1..]);
    } else {
      assert a + b == b;
    }
  }

  /** An entry whose key starts with an underscore contributes no row,
      wherever it sits in the record. */
  lemma HiddenEntryWritesNothing(a: seq<(string, JsonValue)>, key: string, value: JsonValue, b: seq<(string, JsonValue)>)
    requires Hidden(key)
    ensures Flatten(a + [(key, value)] + b) == Flatten(a + b)
  {
    var e := [(key, value)];
    FlattenAppend(a + e, b);
    FlattenAppend(a, e);
    FlattenAppend(a, b);
    assert Flatten(e) == [] by {
      assert e[1..] == [];
    }
    assert Flatten(a) + [] == Flatten(a);
  }

  /** The number of data rows is the sum over visible entries of the dict's
      size, the list's length, or one. */
  lemma {:induction false} FlattenLength(data: seq<(string, JsonValue)>)
    ensures |Flatten(data)| == RowCount(data)
    decreases |data|
  {
    if |data| > 0 {
      FlattenLength(data[1..]);
    }
  }

  /** No row is labelled with a key starting with an underscore: every label
      begins with its visible entry's key. */
  lemma {:induction false} NoHiddenLabel(data: seq<(string, JsonValue)>)
    ensures forall k :: 0 <= k < |Flatten(data)| ==> !Hidden(Flatten(data)[k].caption)
    decreases |data|
  {
    if |data| > 0 {
      NoHiddenLabel(data[1..]);
      var (key, value) := data[0];
      var head := Part(data[0]);
      var rows := head + Flatten(data[1..]);
      assert Flatten(data) == rows;
      forall k | 0 <= k < |head|
        ensures !Hidden(head[k].caption)
      {
        var caption := head[k].caption;
        if |key| > 0 {
          assert caption[0] == key[0];
          assert key[..1] != "_";
        } else if value.JObject? {
          assert caption[0] == '.';
        } else if value.JList? {
          assert caption[0] == '[';
        }
      }
      forall k | 0 <= k < |rows|
        ensures !Hidden(rows[k].caption)
      {
        if k >= |head| {
          assert rows[k] == Flatten(data[1..])[k - |head|];
        }
      }
    }
  }

  // ---------------------------------------------------------------- workbook

  /** `_populate_workbook`: metadata first, then the data rows from the start
      row; the chosen sheet is replaced by its filled version. Without a sheet
      to fill, the first `worksheet.cell` call raises. */
  function PopulateWorkbook(book: Workbook, data: seq<(string, JsonValue)>): (r: Result<Workbook, string>)
    ensures SelectSheet(book).None? ==> r == Failure(NoAttributeError("NoneType", "cell"))
    ensures r.Success? ==>
              && SelectSheet(book).Some?
              && |r.value.sheets| == |book.sheets| && r.value.active == book.active
              && Titles(r.value) == Titles(book)
              && (forall i :: 0 <= i < |book.sheets| && i != SelectSheet(book).value ==>
                    r.value.sheets[i] == book.sheets[i])
  {
    match SelectSheet(book)
    case None => Failure(NoAttributeError("NoneType", "cell"))
    case Some(idx) =>
      var sheet := book.sheets[idx];
      var meta := Lookup(data, "_metadata").GetOr(JObject([]));
      match AddMetadata(sheet.cells, meta)
      case Failure(e) => Failure(e)
      case Success(ws) =>
        var (filled, _) := PopulateRows(ws, data, 0, FindStartRow(ws));
        Success(Workbook(book.sheets[idx := Sheet(sheet.title, filled)], book.active))
  }

  /** The filled sheet: the metadata stage's sheet with the flattened record
      written from the start row in columns 1 to 3, and nothing else touched,
      so the metadata block in columns 5 and 6 is never overwritten. */
  lemma PopulateLayout(book: Workbook, data: seq<(string, JsonValue)>, idx: nat, ws: Worksheet)
    requires SelectSheet(book) == Some(idx)
    requires AddMetadata(book.sheets[idx].cells, Lookup(data, "_metadata").GetOr(JObject([]))) == Success(ws)
    ensures PopulateWorkbook(book, data).Success?
    ensures var filled := PopulateWorkbook(book, data).value.sheets[idx].cells;
            && (forall k :: 0 <= k < |Flatten(data)| ==> RowAt(filled, FindStartRow(ws) + k, Flatten(data)[k]))
            && (forall p: (int, int) :: !InDataBlock(p, FindStartRow(ws), |Flatten(data)|) ==> Same(filled, ws, p))
  {
    FilledCells(book, data, idx, ws);
    var filled := PopulateWorkbook(book, data).value.sheets[idx].cells;
    var start, rows := FindStartRow(ws), Flatten(data);
    assert filled == WriteRows(ws, rows, start);
    WriteRowsPlacement(ws, rows, start);
  }

  /** The chosen sheet's cells after the fill. */
  lemma FilledCells(book: Workbook, data: seq<(string, JsonValue)>, idx: nat, ws: Worksheet)
    requires SelectSheet(book) == Some(idx)
    requires AddMetadata(book.sheets[idx].cells, Lookup(data, "_metadata").GetOr(JObject([]))) == Success(ws)
    ensures PopulateWorkbook(book, data).Success?
    ensures PopulateWorkbook(book, data).value.sheets[idx].cells == WriteRows(ws, Flatten(data), FindStartRow(ws))
  {
    var filled := WriteRows(ws, Flatten(data), FindStartRow(ws));
    PopulateWorkbookWrites(book, data, idx, ws);
    var sheets := book.sheets[idx := Sheet(book.sheets[idx].title, filled)];
    assert sheets[idx].cells == filled;
  }

  /** The fill replaces the chosen sheet's cells by the metadata stage's
      sheet with the flattened record written from the start row. */
  lemma PopulateWorkbookWrites(book: Workbook, data: seq<(string, JsonValue)>, idx: nat, ws: Worksheet)
    requires SelectSheet(book) == Some(idx)
    requires AddMetadata(book.sheets[idx].cells, Lookup(data, "_metadata").GetOr(JObject([]))) == Success(ws)
    ensures PopulateWorkbook(book, data) == Success(Workbook(
              book.sheets[idx := Sheet(book.sheets[idx].title, WriteRows(ws, Flatten(data), FindStartRow(ws)))],
              book.active))
  {
    PopulateRowsWritesFlatten(ws, data, 0, FindStartRow(ws));
    assert data[0..] == data;
  }

  /** The metadata block is never overwritten by the data rows: after the
      whole fill, a non-empty `_metadata` dict still sits at (1, 5) and below. */
  lemma MetadataSurvivesData(book: Workbook, data: seq<(string, JsonValue)>, idx: nat, fields: seq<(string, JsonValue)>)
    requires SelectSheet(book) == Some(idx)
    requires Lookup(data, "_metadata") == Some(JObject(fields)) && |fields| > 0
    ensures PopulateWorkbook(book, data).Success?
    ensures var filled := PopulateWorkbook(book, data).value.sheets[idx].cells;
            && (1, 5) in filled && filled[(1, 5)] == Str(MetadataTitle)
            && (forall k :: 0 <= k < |fields| ==> MetadataAt(filled, k + 2, fields[k]))
  {
    var cells := book.sheets[idx].cells;
    MetadataLayout(cells, fields);
    var ws := AddMetadata(cells, JObject(fields)).value;
    PopulateLayout(book, data, idx, ws);
    var filled := PopulateWorkbook(book, data).value.sheets[idx].cells;
    assert Same(filled, ws, (1, 5));
    forall k | 0 <= k < |fields|
      ensures MetadataAt(filled, k + 2, fields[k])
    {
      assert Same(filled, ws, (k + 2, 5)) && Same(filled, ws, (k + 2, 6));
    }
  }

  /** Writing the metadata never moves the start row: the header cell (1, 1)
      lies outside the metadata block. */
  lemma StartRowIgnoresMetadata(ws: Worksheet, meta: JsonValue)
    requires AddMetadata(ws, meta).Success?
    ensures FindStartRow(AddMetadata(ws, meta).value) == FindStartRow(ws)
  {
    if Truthy(meta) {
      if |meta.fields| > 0 {
        MetadataLayout(ws, meta.fields);
        assert !InMetadataBlock((1, 1), |meta.fields|);
      }
    }
  }

  // -------------------------------------------------------------- generation

  /** `_load_template`: the template named `name`, a not-found error when no
      such file exists, or a load error. */
  function LoadTemplate(name: string, repo: map<string, TemplateFile>): (r: Result<Workbook, AppError>)
    ensures name !in repo ==> r == Failure(AppError(TemplateNotFoundError, TemplateNotFoundPrefix + name))
    ensures r.Success? <==> name in repo && repo[name].Readable?
  {
    if name !in repo then Failure(AppError(TemplateNotFoundError, TemplateNotFoundPrefix + name))
    else match repo[name]
      case Readable(book) => Success(book)
      case Unreadable(reason) => Failure(AppError(ExcelGenerationError, "Error cargando plantilla " + name + ": " + reason))
  }

  /** `f"certiflow_report_{timestamp}.xlsx"` in the output directory. */
  function ReportPath(timestamp: string): string {
    OutputDir + "certiflow_report_" + timestamp + ".xlsx"
  }

  /** The handler of `generate_excel_report`: any exception, whatever its class. */
  function Wrap(detail: string): (e: AppError)
    ensures e.kind == ExcelGenerationError && StartsWith(e.message, ExcelErrorPrefix)
  {
    var m := ExcelErrorPrefix + detail;
    assert m[..|ExcelErrorPrefix|] == ExcelErrorPrefix;
    AppError(ExcelGenerationError, m)
  }

  /** `generate_excel_report`. A non-empty template name loads that template,
      otherwise the default workbook is built; the workbook is filled and then
      saved under a timestamped name. `saveError` is what the save raises, if
      anything. */
  function GenerateExcelReport(
    data: seq<(string, JsonValue)>,
    templateName: Option<string>,
    repo: map<string, TemplateFile>,
    timestamp: string,
    saveError: Option<string>): (run: ExcelRun)
    ensures run.outcome.Failure? ==>
              run.outcome.error.kind == ExcelGenerationError && StartsWith(run.outcome.error.message, ExcelErrorPrefix)
    ensures run.outcome.Success? <==> run.saveAttempted && saveError.None?
    ensures run.outcome.Success? ==> run.outcome.value.path == ReportPath(timestamp)
    ensures run.saveAttempted && saveError.Some? ==> run.outcome == Failure(Wrap(saveError.value))
  {
    var loaded :=
      if templateName.Some? && templateName.value != "" then LoadTemplate(templateName.value, repo)
      else Success(DefaultWorkbook());
    match loaded
    case Failure(e) => ExcelRun(Failure(Wrap(e.message)), false)
    case Success(book) =>
      match PopulateWorkbook(book, data)
      case Failure(e) => ExcelRun(Failure(Wrap(e)), false)
      case Success(filled) =>
        match saveError
        case Some(e) => ExcelRun(Failure(Wrap(e)), true)
        case None => ExcelRun(Success(Report(ReportPath(timestamp), filled)), true)
  }

  /** A missing template is reported as an `ExcelGenerationError` wrapping the
      not-found message, and nothing is saved. */
  lemma MissingTemplateIsExcelError(
    data: seq<(string, JsonValue)>, name: string, repo: map<string, TemplateFile>,
    timestamp: string, saveError: Option<string>)
    requires name != "" && name !in repo
    ensures var run := GenerateExcelReport(data, Some(name), repo, timestamp, saveError);
            && run.outcome == Failure(AppError(ExcelGenerationError, ExcelErrorPrefix + TemplateNotFoundPrefix + name))
            && !run.saveAttempted
  {
    assert ExcelErrorPrefix + (TemplateNotFoundPrefix + name) == ExcelErrorPrefix + TemplateNotFoundPrefix + name;
  }

  /** The default sheet keeps its headers in row 1 and receives the record's
      rows from row 2. */
  lemma DefaultSheetLayout(data: seq<(string, JsonValue)>)
    requires var meta := Lookup(data, "_metadata").GetOr(JObject([])); !Truthy(meta) || meta.JObject?
    ensures PopulateWorkbook(DefaultWorkbook(), data).Success?
    ensures var book := PopulateWorkbook(DefaultWorkbook(), data).value;
            && |book.sheets| == 1
            && book.sheets[0].title == DefaultTitle
            && (forall c :: 1 <= c <= 4 ==> (1, c) in book.sheets[0].cells && book.sheets[0].cells[(1, c)] == Str(Headers[c - 1]))
            && (forall k :: 0 <= k < |Flatten(data)| ==> RowAt(book.sheets[0].cells, 2 + k, Flatten(data)[k]))
  {
    var book := DefaultWorkbook();
    var meta := Lookup(data, "_metadata").GetOr(JObject([]));
    DefaultSheetPrepared(meta);
    var ws := AddMetadata(HeaderCells(), meta).value;
    var rows := Flatten(data);
    PopulateWorkbookWrites(book, data, 0, ws);
    var filled := WriteRows(ws, rows, 2);
    WriteRowsPlacement(ws, rows, 2);
    HeadersSurviveRows(ws, rows);
    assert PopulateWorkbook(book, data).value == Workbook([Sheet(DefaultTitle, filled)], 0);
  }

  /** Data written from row 2 leaves the header row as it was. */
  lemma HeadersSurviveRows(ws: Worksheet, rows: seq<Row>)
    requires forall c :: 1 <= c <= 4 ==> Same(ws, HeaderCells(), (1, c))
    ensures var filled := WriteRows(ws, rows, 2);
            forall c :: 1 <= c <= 4 ==> (1, c) in filled && filled[(1, c)] == Str(Headers[c - 1])
  {
    var filled := WriteRows(ws, rows, 2);
    WriteRowsPlacement(ws, rows, 2);
    forall c | 1 <= c <= 4
      ensures (1, c) in filled && filled[(1, c)] == Str(Headers[c - 1])
    {
      assert !InDataBlock((1, c), 2, |rows|);
      assert Same(filled, ws, (1, c)) && Same(ws, HeaderCells(), (1, c));
    }
  }

  /** In the default workbook the one sheet is chosen, and after the
      metadata stage its headers are intact, so data starts at row 2. */
  lemma DefaultSheetPrepared(meta: JsonValue)
    requires !Truthy(meta) || meta.JObject?
    ensures SelectSheet(DefaultWorkbook()) == Some(0)
    ensures DefaultWorkbook().sheets[0].cells == HeaderCells()
    ensures AddMetadata(HeaderCells(), meta).Success?
    ensures var ws := AddMetadata(HeaderCells(), meta).value;
            && FindStartRow(ws) == 2
            && forall c :: 1 <= c <= 4 ==> Same(ws, HeaderCells(), (1, c))
  {
    var book := DefaultWorkbook();
    assert Titles(book) == [DefaultTitle];
    var ws := AddMetadata(HeaderCells(), meta).value;
    if Truthy(meta) {
      MetadataLayout(HeaderCells(), meta.fields);
      assert forall c :: 1 <= c <= 4 ==> !InMetadataBlock((1, c), |meta.fields|);
    }
    assert forall c :: 1 <= c <= 4 ==> Same(ws, HeaderCells(), (1, c));
  }

  /** Without a template (or with an empty name) the report is the default
      sheet: headers in row 1, the metadata block, and the record's rows from
      row 2. */
  lemma DefaultReportLayout(
    data: seq<(string, JsonValue)>, templateName: Option<string>, repo: map<string, TemplateFile>, timestamp: string)
    requires templateName.None? || templateName.value == ""
    requires var meta := Lookup(data, "_metadata").GetOr(JObject([])); !Truthy(meta) || meta.JObject?
    ensures var run := GenerateExcelReport(data, templateName, repo, timestamp, None);
            && run.outcome.Success?
            && run.outcome.value.book == PopulateWorkbook(DefaultWorkbook(), data).value
  {
    DefaultSheetLayout(data);
  }

  /** A readable template takes the place of the default workbook: the saved
      book is that template filled by `_populate_workbook`, and a fill failure
      is wrapped before any save. */
  lemma TemplateReportLayout(
    data: seq<(string, JsonValue)>, name: string, repo: map<string, TemplateFile>,
    timestamp: string, saveError: Option<string>)
    requires name != "" && name in repo && repo[name].Readable?
    ensures var run := GenerateExcelReport(data, Some(name), repo, timestamp, saveError);
            var filled := PopulateWorkbook(repo[name].book, data);
            && (filled.Failure? ==> run == ExcelRun(Failure(Wrap(filled.error)), false))
            && (filled.Success? && saveError.None? ==>
                  run.outcome == Success(Report(ReportPath(timestamp), filled.value)))
  {
  }
}
