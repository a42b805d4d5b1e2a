/** The JSON text of a query result (`jsonify_row` and `to_json` in src/util.cc), which places commas
    between values instead of after them, and writes the same canonical text. */
module JsonRows {
  import opened Options
  import opened Json
  import JsonReader

  datatype ColumnType = BOOL | NUMBER | OTHER

  datatype Column = Column(name: string, kind: ColumnType)

  /** A row has a value or null for every column. */
  type Row = seq<Option<string>>

  function Cell(kind: ColumnType, val: Option<string>): Json {
    match val
    case None => Null
    case Some(v) =>
      if kind == BOOL then Bool(v != "" && v[0] == 't')
      else if kind == NUMBER then Unquoted(v)
      else Str(v)
  }

  function RowFields(columns: seq<Column>, row: Row): (fields: seq<(string, Json)>)
    requires |row| == |columns|
    ensures |fields| == |columns|
    ensures forall j :: 0 <= j < |columns| ==> fields[j] == (columns[j].name, Cell(columns[j].kind, row[j]))
  {
    seq(|columns|, j requires 0 <= j < |columns| => (columns[j].name, Cell(columns[j].kind, row[j])))
  }

  function RowJson(columns: seq<Column>, row: Row): Json
    requires |row| == |columns|
  {
    Obj(RowFields(columns, row))
  }

  function RowsJson(columns: seq<Column>, rows: seq<Row>): (items: seq<Json>)
    requires forall i :: 0 <= i < |rows| ==> |rows[i]| == |columns|
    ensures |items| == |rows|
    ensures forall i :: 0 <= i < |rows| ==> items[i] == RowJson(columns, rows[i])
  {
    seq(|rows|, i requires 0 <= i < |rows| => RowJson(columns, rows[i]))
  }

  method AppendCell(kind: ColumnType, val: Option<string>, out: string) returns (ret: string)
    ensures ret == out + Text(Cell(kind, val))
  {
    ret := out;
    if val == None {
      ret := ret + "null";
    } else if kind == BOOL {
      ret := ret + if val.value != "" && val.value[0] == 't' then "true" else "false";
    } else if kind == NUMBER {
      ret := ret + val.value;
    } else {
      var w := new Writer();
      w.AppendQuotedString(val.value);
      ret := ret + w.ret;
    }
  }

  method AppendField(column: Column, val: Option<string>, out: string) returns (ret: string)
    ensures ret == out + Field((column.name, Cell(column.kind, val)))
  {
    hide Text, Cell;
    ghost var v := Text(Cell(column.kind, val));
    ret := out + "\"";
    ret := ret + column.name;
    ret := ret + "\"" + ":";
    ret := AppendCell(column.kind, val, ret);
    assert ret == out + ("\"" + column.name + "\":" + v);
  }

  /** The text after j of the n values, with a comma if another one follows. */
  function Placed(done: string, j: nat, n: nat): string {
    done + if 0 < j < n then "," else ""
  }

  lemma NextField(fields: seq<(string, Json)>, j: nat)
    requires j < |fields|
    ensures Fields(fields[..j + 1]) == Placed(Fields(fields[..j]), j, |fields|) + Field(fields[j])
  {
    hide Text, Field;
    FieldsSnoc(fields[..j], fields[j]);
    assert fields[..j + 1] == fields[..j] + [fields[j]];
  }

  lemma NextItem(items: seq<Json>, i: nat)
    requires i < |items|
    ensures Items(items[..i + 1]) == Placed(Items(items[..i]), i, |items|) + Text(items[i])
  {
    hide Text;
    ItemsSnoc(items[..i], items[i]);
    assert items[..i + 1] == items[..i] + [items[i]];
  }

  method JsonifyRow(columns: seq<Column>, row: Row, out: string) returns (ret: string)
    requires |row| == |columns|
    ensures ret == out + Text(RowJson(columns, row))
  {
    ghost var fields := RowFields(columns, row);
    ret := out + "{";
    ret := AppendFields(columns, row, ret);
    ret := ret + "}";
    assert ret == out + ("{" + Fields(fields) + "}");
  }

  /** The loop over the columns. */
  method AppendFields(columns: seq<Column>, row: Row, out: string) returns (ret: string)
    requires |row| == |columns|
    ensures ret == out + Fields(RowFields(columns, row))
  {
    hide Text, Field, Cell;
    ghost var fields := RowFields(columns, row);
    ret := out;
    for j := 0 to |columns|
      invariant ret == out + Placed(Fields(fields[..j]), j, |columns|)
    {
      NextField(fields, j);
      ret := AppendField(columns[j], row[j], ret);
      assert ret == out + Fields(fields[..j + 1]);
      if j < |columns| - 1 {
        ret := ret + ",";
      }
    }
    assert fields[..|columns|] == fields;
  }

  /** The loop over the rows. */
  method AppendRows(columns: seq<Column>, rows: seq<Row>, out: string) returns (ret: string)
    requires forall i :: 0 <= i < |rows| ==> |rows[i]| == |columns|
    ensures ret == out + Items(RowsJson(columns, rows))
  {
    hide Text, RowJson;
    ghost var items := RowsJson(columns, rows);
    ret := out;
    for i := 0 to |rows|
      invariant ret == out + Placed(Items(items[..i]), i, |rows|)
    {
      NextItem(items, i);
      ret := JsonifyRow(columns, rows[i], ret);
      assert ret == out + Items(items[..i + 1]);
      if i < |rows| - 1 {
        ret := ret + ",";
      }
    }
    assert items[..|rows|] == items;
  }

  /** The result statuses `to_json` is called with. */
  datatype Status = TuplesOk | SingleTuple | CommandOk

  method ToJson(status: Status, columns: seq<Column>, rows: seq<Row>) returns (ret: string)
    requires forall i :: 0 <= i < |rows| ==> |rows[i]| == |columns|
    requires status == SingleTuple ==> rows != []
    ensures ret == match status
                   case TuplesOk => Text(Arr(RowsJson(columns, rows)))
                   case SingleTuple => Text(RowJson(columns, rows[0]))
                   case CommandOk => Text(Obj([]))
  {
    match status {
      case TuplesOk =>
        ret := AppendRows(columns, rows, "[");
        ret := ret + "]";
      case SingleTuple =>
        ret := JsonifyRow(columns, rows[0], "");
      case CommandOk =>
        ret := "{}";
    }
  }

  /** What a client should see of a cell: null for no value, the text, the truth value that PostgreSQL
      prints as t or f, or a number of the very digits that were printed. */
  ghost predicate ShowsCell(kind: ColumnType, val: Option<string>, v: Json) {
    match val
    case None => v == Null
    case Some(text) =>
      match kind
      case OTHER => v == Str(text)
      case BOOL => v.Bool? && (text == "t" ==> v.b) && (text == "f" ==> !v.b)
      case NUMBER => (v.Int? || v.Unquoted?) && Text(v) == text
  }

  ghost predicate ShowsRow(columns: seq<Column>, row: Row, v: Json)
    requires |row| == |columns|
  {
    && v.Obj? && |v.fields| == |columns|
    && forall j :: 0 <= j < |columns| ==>
         v.fields[j].0 == columns[j].name && ShowsCell(columns[j].kind, row[j], v.fields[j].1)
  }

  ghost predicate ShowsTable(columns: seq<Column>, rows: seq<Row>, v: Json)
    requires forall i :: 0 <= i < |rows| ==> |rows[i]| == |columns|
  {
    v.Arr? && |v.items| == |rows| && forall i :: 0 <= i < |rows| ==> ShowsRow(columns, rows[i], v.items[i])
  }

  /** Reading the JSON of a table shows the table, cell by cell, exactly if every numeric cell is a JSON
      number, when no column name needs escaping. */
  lemma {:induction false} TableReadsBackExactlyWhen(columns: seq<Column>, rows: seq<Row>)
    requires forall i :: 0 <= i < |rows| ==> |rows[i]| == |columns|
    requires forall j :: 0 <= j < |columns| ==> Clean(columns[j].name)
    ensures var r := JsonReader.ReadValue(Text(Arr(RowsJson(columns, rows))));
            (r.Some? && r.value.1 == "" && ShowsTable(columns, rows, r.value.0)) <==>
            forall i, j :: 0 <= i < |rows| && 0 <= j < |columns| && columns[j].kind == NUMBER ==> IsNumeric(rows[i][j])
  {
    hide Text, JsonReader.ReadValue, JsonReader.Meant, JsonReader.Readable, IsNumeric, ShowsRow;
    var table := Arr(RowsJson(columns, rows));
    if forall i, j :: 0 <= i < |rows| && 0 <= j < |columns| && columns[j].kind == NUMBER ==> IsNumeric(rows[i][j]) {
      forall i | 0 <= i < |rows|
        ensures JsonReader.Readable(RowJson(columns, rows[i]))
      {
        RowIsReadable(columns, rows[i]);
      }
      ReadableTable(columns, rows);
      JsonReader.ReaderInvertsWriter(table);
      MeantTable(columns, rows);
    }
    var r := JsonReader.ReadValue(Text(table));
    if r.Some? && ShowsTable(columns, rows, r.value.0) {
      JsonReader.ReaderReturnsNumbers(Text(table));
      forall i, j | 0 <= i < |rows| && 0 <= j < |columns| && columns[j].kind == NUMBER
        ensures IsNumeric(rows[i][j])
      {
        assert JsonReader.OnlyNumbers(r.value.0.items[i]);
        NumericCell(columns, rows[i], r.value.0.items[i], j);
      }
    }
  }

  /** One row by itself. */
  lemma {:induction false} RowReadsBack(columns: seq<Column>, row: Row)
    requires |row| == |columns|
    requires forall j :: 0 <= j < |columns| ==> Clean(columns[j].name)
    requires forall j :: 0 <= j < |columns| && columns[j].kind == NUMBER ==> IsNumeric(row[j])
    ensures var r := JsonReader.ReadValue(Text(RowJson(columns, row)));
            r.Some? && r.value.1 == "" && ShowsRow(columns, row, r.value.0)
  {
    hide Text, JsonReader.ReadValue, JsonReader.Meant, JsonReader.Readable, IsNumeric, ShowsRow;
    RowIsReadable(columns, row);
    JsonReader.ReaderInvertsWriter(RowJson(columns, row));
    MeantRow(columns, row);
  }

  lemma {:induction false} MeantTable(columns: seq<Column>, rows: seq<Row>)
    requires forall i :: 0 <= i < |rows| ==> |rows[i]| == |columns|
    ensures ShowsTable(columns, rows, JsonReader.Meant(Arr(RowsJson(columns, rows))))
  {
    hide ShowsRow, RowJson;
    forall i | 0 <= i < |rows|
      ensures ShowsRow(columns, rows[i], JsonReader.Meant(RowJson(columns, rows[i])))
    {
      MeantRow(columns, rows[i]);
    }
  }

  lemma {:induction false} MeantRow(columns: seq<Column>, row: Row)
    requires |row| == |columns|
    ensures ShowsRow(columns, row, JsonReader.Meant(RowJson(columns, row)))
  {
    hide ShowsCell;
    var fields := RowFields(columns, row);
    forall j | 0 <= j < |columns|
      ensures JsonReader.MeantFields(fields)[j].0 == columns[j].name
      ensures ShowsCell(columns[j].kind, row[j], JsonReader.MeantFields(fields)[j].1)
    {
      assert JsonReader.MeantFields(fields)[j] == JsonReader.MeantField(fields[j]);
      MeantCell(columns[j].kind, row[j]);
    }
  }

  lemma MeantCell(kind: ColumnType, val: Option<string>)
    ensures ShowsCell(kind, val, JsonReader.Meant(Cell(kind, val)))
  {
  }

  predicate IsNumeric(val: Option<string>) {
    val.Some? ==> JsonReader.IsNumber(val.value)
  }

  lemma RowIsReadable(columns: seq<Column>, row: Row)
    requires |row| == |columns|
    requires forall j :: 0 <= j < |columns| ==> Clean(columns[j].name)
    requires forall j :: 0 <= j < |columns| && columns[j].kind == NUMBER ==> IsNumeric(row[j])
    ensures JsonReader.Readable(RowJson(columns, row))
  {
    hide Clean, JsonReader.IsNumber;
  }

  lemma ReadableTable(columns: seq<Column>, rows: seq<Row>)
    requires forall i :: 0 <= i < |rows| ==> |rows[i]| == |columns|
    requires forall i :: 0 <= i < |rows| ==> JsonReader.Readable(RowJson(columns, rows[i]))
    ensures JsonReader.Readable(Arr(RowsJson(columns, rows)))
  {
    hide RowJson;
  }

  lemma NumericCell(columns: seq<Column>, row: Row, v: Json, j: nat)
    requires |row| == |columns| && j < |columns| && columns[j].kind == NUMBER
    requires ShowsRow(columns, row, v) && JsonReader.OnlyNumbers(v)
    ensures IsNumeric(row[j])
  {
    hide JsonReader.IsNumber;
    if row[j].Some? {
      assert JsonReader.OnlyNumbers(v.fields[j].1);
      if v.fields[j].1.Int? {
        JsonReader.IntIsNumber(v.fields[j].1.value);
      }
    }
  }

  /** PostgreSQL writes NaN and Infinity in numeric columns, which are not JSON numbers. */
  lemma NaNDoesNotReadBack(name: string, content: string)
    requires Clean(name) && (content == "NaN" || content == "Infinity" || content == "-Infinity")
    ensures var table := Arr(RowsJson([Column(name, NUMBER)], [[Some(content)]]));
            var r := JsonReader.ReadValue(Text(table));
            !(r.Some? && r.value.1 == "" && ShowsTable([Column(name, NUMBER)], [[Some(content)]], r.value.0))
  {
    hide Text, JsonReader.ReadValue, JsonReader.Meant, Clean;
    var (columns, rows) := ([Column(name, NUMBER)], [[Some(content)]]);
    TableReadsBackExactlyWhen(columns, rows);
    assert !IsNumeric(rows[0][0]);
    assert columns[0].kind == NUMBER;
  }
}
