/** The generator of `csv2sql.py`: it renders already-split CSV rows as one
    batch INSERT for a named table, in the MySQL dialect (one multi-row
    `INSERT INTO ... VALUES`) or the Oracle dialect (`INSERT ALL` with one
    `INTO ... VALUES` block per row).

    The pure functions below describe the text exactly; the class
    `SqlGenerator` is the object the program builds, whose two text buffers
    are appended to by `GetSql` and never reset. */
module Csv2Sql {
  import opened PyStrings

  /** One CSV line, already split into its fields. */
  type Row = seq<string>

  /** The `--order_mapping` object in key-insertion order: pairs of
      (destination column name, source field index). */
  type OrderMapping = seq<(string, int)>

  /** What `get_sql` gives back: the SQL text, or Python's `IndexError`
      when a mapped index is outside a row. */
  datatype SqlResult = Sql(text: string) | IndexError

  /** The keys of a JSON object are distinct. */
  predicate DistinctKeys(m: OrderMapping)
  {
    forall i, j :: 0 <= i < j < |m| ==> m[i].0 != m[j].0
  }

  /** The mapping's keys in mapping order. */
  function Keys(m: OrderMapping): (ks: seq<string>)
    ensures |ks| == |m|
    ensures forall i :: 0 <= i < |m| ==> ks[i] == m[i].0
  {
    seq(|m|, i requires 0 <= i < |m| => m[i].0)
  }

  /** `",".join(order_mapping.keys())`. */
  function ColumnList(m: OrderMapping): string
  {
    Join(",", Keys(m))
  }

  /** `row[index]` does not raise: Python accepts `-len(row) <= index < len(row)`. */
  predicate InRange(row: Row, index: int)
  {
    -|row| <= index < |row|
  }

  /** `row[index]` with Python's reading of negative indices (from the end). */
  function Field(row: Row, index: int): string
    requires InRange(row, index)
  {
    if index >= 0 then row[index] else row[|row| + index]
  }

  /** Every mapped index is valid for `row`. */
  predicate RowFits(row: Row, m: OrderMapping)
  {
    forall j :: 0 <= j < |m| ==> InRange(row, m[j].1)
  }

  predicate AllFit(rows: seq<Row>, m: OrderMapping)
  {
    forall k :: 0 <= k < |rows| ==> RowFits(rows[k], m)
  }

  /** How many rows, from the front, pass before the first row that makes
      `get_sql` raise `IndexError`. */
  function FitCount(rows: seq<Row>, m: OrderMapping): (n: nat)
    ensures n <= |rows|
    ensures forall k :: 0 <= k < n ==> RowFits(rows[k], m)
    ensures n < |rows| ==> !RowFits(rows[n], m)
  {
    if rows == [] || !RowFits(rows[0], m) then 0
    else 1 + FitCount(rows[1..], m)
  }

  /** The row's fields picked in mapping order. */
  function Fields(row: Row, m: OrderMapping): (vs: seq<string>)
    requires RowFits(row, m)
    ensures |vs| == |m|
    ensures forall j :: 0 <= j < |m| ==> vs[j] == Field(row, m[j].1)
  {
    seq(|m|, j requires 0 <= j < |m| => Field(row, m[j].1))
  }

  /** A value wrapped in single quotes, with no escaping. */
  function Quote(v: string): string
  {
    "'" + v + "'"
  }

  function QuoteAll(vs: seq<string>): (qs: seq<string>)
    ensures |qs| == |vs|
    ensures forall j :: 0 <= j < |vs| ==> qs[j] == Quote(vs[j])
  {
    seq(|vs|, j requires 0 <= j < |vs| => Quote(vs[j]))
  }

  /** The value list of one row: `'v1','v2',...,'vn'`. */
  function ValueList(row: Row, m: OrderMapping): string
    requires RowFits(row, m)
  {
    Join(",", QuoteAll(Fields(row, m)))
  }

  // ---------------------------------------------------------------------
  // The text of each dialect

  function MysqlHeader(table: string, cols: string): string
  {
    "INSERT INTO " + table + "(" + cols + ") VALUES\n"
  }

  const OracleHeader: string := "INSERT ALL \n"

  const OracleTrailer: string := "select 1 from dual;\n" + "COMMIT;"

  /** The MySQL tuple of one row, with the separator appended after it. */
  function MysqlEntry(vals: string): string
  {
    "(" + vals + "),\n"
  }

  /** The Oracle block of one row. */
  function OracleBlock(table: string, cols: string, vals: string): string
  {
    "INTO " + table + " (" + cols + ")\nVALUES (" + vals + ")\n"
  }

  /** The MySQL tuples of `rows`, in order. */
  function MysqlRows(rows: seq<Row>, m: OrderMapping): string
    requires AllFit(rows, m)
  {
    if rows == [] then ""
    else MysqlRows(rows[..|rows| - 1], m) + MysqlEntry(ValueList(rows[|rows| - 1], m))
  }

  /** The Oracle blocks of `rows`, in order. */
  function OracleRows(table: string, cols: string, rows: seq<Row>, m: OrderMapping): string
    requires AllFit(rows, m)
  {
    if rows == [] then ""
    else OracleRows(table, cols, rows[..|rows| - 1], m) + OracleBlock(table, cols, ValueList(rows[|rows| - 1], m))
  }

  /** The MySQL buffer once `rows` have been appended to it. */
  function MysqlBuffer(table: string, cols: string, rows: seq<Row>, m: OrderMapping): string
    requires AllFit(rows, m)
  {
    MysqlHeader(table, cols) + MysqlRows(rows, m)
  }

  /** The Oracle buffer once `rows` have been appended to it. */
  function OracleBuffer(table: string, cols: string, rows: seq<Row>, m: OrderMapping): string
    requires AllFit(rows, m)
  {
    OracleHeader + OracleRows(table, cols, rows, m)
  }

  /** The MySQL statement for `rows`: the buffer with its last two
      characters cut off. */
  function MysqlStatement(table: string, m: OrderMapping, rows: seq<Row>): string
    requires AllFit(rows, m)
  {
    DropLast(MysqlBuffer(table, ColumnList(m), rows, m), 2)
  }

  /** The Oracle statement for `rows`: the buffer and the closing lines. */
  function OracleStatement(table: string, m: OrderMapping, rows: seq<Row>): string
    requires AllFit(rows, m)
  {
    OracleBuffer(table, ColumnList(m), rows, m) + OracleTrailer
  }

  /** The statement `get_sql` returns once `rows` are in the buffer: the
      MySQL text for the exact dialect string `mysql`, the Oracle text for
      any other. */
  function SqlText(table: string, dbType: string, m: OrderMapping, rows: seq<Row>): string
    requires AllFit(rows, m)
  {
    if dbType == "mysql" then MysqlStatement(table, m, rows) else OracleStatement(table, m, rows)
  }

  /** The output file's base name: year, month, day, hour, minute and second
      in decimal, unpadded, run together: decimal digits only, one or more
      per field. */
  function TimeString(year: nat, month: nat, day: nat, hour: nat, minute: nat, second: nat): (name: string)
    ensures AllDigits(name) && |name| >= 6
  {
    Str(year) + Str(month) + Str(day) + Str(hour) + Str(minute) + Str(second)
  }

  // ---------------------------------------------------------------------
  // Facts the generator's loops rely on

  lemma FitCountStops(rows: seq<Row>, m: OrderMapping, i: nat)
    requires i <= FitCount(rows, m) && i < |rows| && !RowFits(rows[i], m)
    ensures FitCount(rows, m) == i
  {
  }

  lemma FitCountSteps(rows: seq<Row>, m: OrderMapping, i: nat)
    requires i <= FitCount(rows, m) && i < |rows| && RowFits(rows[i], m)
    ensures i + 1 <= FitCount(rows, m)
  {
  }

  lemma AppendPrefix<T>(a: seq<T>, s: seq<T>, i: nat)
    requires i < |s|
    ensures a + s[..i + 1] == (a + s[..i]) + [s[i]]
  {
    assert s[..i + 1] == s[..i] + [s[i]];
  }

  lemma MysqlBufferSnoc(table: string, cols: string, rows: seq<Row>, row: Row, m: OrderMapping)
    requires AllFit(rows, m) && RowFits(row, m)
    ensures AllFit(rows + [row], m)
    ensures MysqlBuffer(table, cols, rows + [row], m)
         == MysqlBuffer(table, cols, rows, m) + MysqlEntry(ValueList(row, m))
  {
    assert (rows + [row])[..|rows|] == rows;
  }

  lemma OracleBufferSnoc(table: string, cols: string, rows: seq<Row>, row: Row, m: OrderMapping)
    requires AllFit(rows, m) && RowFits(row, m)
    ensures AllFit(rows + [row], m)
    ensures OracleBuffer(table, cols, rows + [row], m)
         == OracleBuffer(table, cols, rows, m) + OracleBlock(table, cols, ValueList(row, m))
  {
    assert (rows + [row])[..|rows|] == rows;
  }

  /** `acc += "'" + v + "',"` appends the quoted value and a comma. */
  lemma QuoteThenComma(acc: string, v: string)
    ensures acc + ("'" + v + "',") == acc + Quote(v) + ","
  {
    assert "'" + v + "'," == Quote(v) + ",";
  }

  /** Quoting then terminating every value with `,` and stripping commas
      yields exactly the value list: the comma `strip` removes is the
      trailing one, and no quoted value begins or ends with a comma. */
  lemma StrippedRowIsValueList(row: Row, m: OrderMapping)
    requires RowFits(row, m)
    ensures Strip(Terminated(QuoteAll(Fields(row, m)), ","), ',') == ValueList(row, m)
  {
    var qs := QuoteAll(Fields(row, m));
    forall p | p in qs ensures |p| > 0 && p[0] != ',' && p[|p| - 1] != ',' {
      var j :| 0 <= j < |qs| && qs[j] == p;
    }
    StripTerminated(qs, ',');
  }

  /** The inner loop of `get_sql` for one row: `"'" + row[index] + "',"`
      for each mapped index in mapping order, then `strip(',')`. `ok` is
      false where Python raises `IndexError`. */
  method RenderRow(row: Row, m: OrderMapping) returns (ok: bool, rowStr: string)
    ensures ok <==> RowFits(row, m)
    ensures ok ==> rowStr == ValueList(row, m)
  {
    rowStr := "";
    ghost var quoted: seq<string> := [];
    var j := 0;
    while j < |m|
      invariant 0 <= j <= |m|
      invariant forall jj :: 0 <= jj < j ==> InRange(row, m[jj].1)
      invariant |quoted| == j
      invariant forall jj :: 0 <= jj < j ==> quoted[jj] == Quote(Field(row, m[jj].1))
      invariant rowStr == Terminated(quoted, ",")
    {
      var index := m[j].1;
      if !InRange(row, index) {
        return false, rowStr;
      }
      TerminatedSnoc(quoted, Quote(Field(row, index)), ",");
      QuoteThenComma(rowStr, Field(row, index));
      rowStr := rowStr + ("'" + Field(row, index) + "',");
      quoted := quoted + [Quote(Field(row, index))];
      j := j + 1;
    }
    assert quoted == QuoteAll(Fields(row, m));
    StrippedRowIsValueList(row, m);
    rowStr := Strip(rowStr, ',');
    ok := true;
  }

  // ---------------------------------------------------------------------
  // The generator object

  class SqlGenerator {
    const tableName: string
    const dbType: string
    const separator: string
    const excludeFirstLine: bool
    const orderMapping: OrderMapping
    /** The column list, computed once. */
    const omKeysStr: string

    /** The two text buffers. Only the one of the dialect is ever appended
        to; neither is ever reset. */
    var mysqlInsertSql: string
    var orclInsertSql: string

    /** Every row appended to the dialect's buffer so far, in order. */
    ghost var rows: seq<Row>

    ghost predicate Valid()
      reads this
    {
      omKeysStr == ColumnList(orderMapping) && AllFit(rows, orderMapping) &&
      if IsMysqlDb() then
        mysqlInsertSql == MysqlBuffer(tableName, omKeysStr, rows, orderMapping) &&
        orclInsertSql == OracleHeader
      else
        orclInsertSql == OracleBuffer(tableName, omKeysStr, rows, orderMapping) &&
        mysqlInsertSql == MysqlHeader(tableName, omKeysStr)
    }

    constructor (tableName: string, dbType: string, separator: string, excludeFirstLine: bool,
                 orderMapping: OrderMapping)
      requires DistinctKeys(orderMapping)
      ensures Valid()
      ensures this.tableName == tableName && this.dbType == dbType && this.separator == separator
      ensures this.excludeFirstLine == excludeFirstLine && this.orderMapping == orderMapping
      ensures omKeysStr == ColumnList(orderMapping)
      ensures rows == []
      ensures mysqlInsertSql == "INSERT INTO " + tableName + "(" + ColumnList(orderMapping) + ") VALUES\n"
      ensures orclInsertSql == "INSERT ALL \n"
    {
      this.tableName := tableName;
      this.dbType := dbType;
      this.separator := separator;
      this.excludeFirstLine := excludeFirstLine;
      this.orderMapping := orderMapping;
      var cols := Join(",", Keys(orderMapping));
      omKeysStr := cols;
      mysqlInsertSql := "INSERT INTO " + tableName + "(" + cols + ") VALUES\n";
      orclInsertSql := "INSERT ALL \n";
      rows := [];
    }

    /** The MySQL dialect is chosen by the exact string `mysql`; `oracle`,
        and any other string, selects the Oracle dialect. */
    predicate IsMysqlDb()
      ensures dbType == "mysql" ==> IsMysqlDb()
      ensures dbType == "oracle" ==> !IsMysqlDb()
    {
      dbType == "mysql"
    }

    /** `mysql_insert_sql += "(" + row_str + "),\n"` for one rendered row. */
    method AppendMysql(ghost row: Row, rowStr: string)
      requires Valid() && IsMysqlDb()
      requires RowFits(row, orderMapping) && rowStr == ValueList(row, orderMapping)
      modifies this
      ensures Valid() && rows == old(rows) + [row]
      ensures mysqlInsertSql == old(mysqlInsertSql) + ("(" + rowStr + "),\n")
      ensures orclInsertSql == old(orclInsertSql)
    {
      MysqlBufferSnoc(tableName, omKeysStr, rows, row, orderMapping);
      mysqlInsertSql := mysqlInsertSql + ("(" + rowStr + "),\n");
      rows := rows + [row];
    }

    /** `orcl_insert_sql += "INTO <t> (<cols>)\nVALUES (<vals>)\n"` for one
        rendered row. */
    method AppendOracle(ghost row: Row, rowStr: string)
      requires Valid() && !IsMysqlDb()
      requires RowFits(row, orderMapping) && rowStr == ValueList(row, orderMapping)
      modifies this
      ensures Valid() && rows == old(rows) + [row]
      ensures orclInsertSql
           == old(orclInsertSql) + ("INTO " + tableName + " (" + omKeysStr + ")\nVALUES (" + rowStr + ")\n")
      ensures mysqlInsertSql == old(mysqlInsertSql)
    {
      OracleBufferSnoc(tableName, omKeysStr, rows, row, orderMapping);
      orclInsertSql := orclInsertSql + ("INTO " + tableName + " (" + omKeysStr + ")\nVALUES (" + rowStr + ")\n");
      rows := rows + [row];
    }

    /** Appends one rendered row to the buffer of the generator's dialect. */
    method AppendRow(ghost row: Row, rowStr: string)
      requires Valid()
      requires RowFits(row, orderMapping) && rowStr == ValueList(row, orderMapping)
      modifies this
      ensures Valid() && rows == old(rows) + [row]
      ensures IsMysqlDb() ==> mysqlInsertSql == old(mysqlInsertSql) + ("(" + rowStr + "),\n")
                              && orclInsertSql == old(orclInsertSql)
      ensures !IsMysqlDb() ==> mysqlInsertSql == old(mysqlInsertSql)
                               && orclInsertSql == old(orclInsertSql) + OracleBlock(tableName, omKeysStr, rowStr)
    {
      if IsMysqlDb() {
        AppendMysql(row, rowStr);
      } else {
        AppendOracle(row, rowStr);
      }
    }

    /** What `get_sql` returns once the loop is over is the statement of
        every row in the buffer. */
    lemma StatementOfBuffer()
      requires Valid()
      ensures IsMysqlDb() ==> DropLast(mysqlInsertSql, 2) == SqlText(tableName, dbType, orderMapping, rows)
      ensures !IsMysqlDb() ==> orclInsertSql + "select 1 from dual;\n" + "COMMIT;"
                               == SqlText(tableName, dbType, orderMapping, rows)
    {
      Assoc(orclInsertSql, "select 1 from dual;\n", "COMMIT;");
    }

    /** Appends one rendered row per element of `reader` to the dialect's
        buffer and returns the statement the whole buffer makes, including
        the rows of earlier calls. A row whose mapped index is out of range
        raises `IndexError`; the rows before it stay appended. */
    method GetSql(reader: seq<Row>) returns (r: SqlResult)
      requires Valid()
      modifies this
      ensures Valid()
      ensures rows == old(rows) + reader[..FitCount(reader, orderMapping)]
      ensures r == if FitCount(reader, orderMapping) < |reader| then IndexError
                   else Sql(SqlText(tableName, dbType, orderMapping, rows))
    {
      var i := 0;
      while i < |reader|
        invariant 0 <= i <= |reader|
        invariant Valid()
        invariant i <= FitCount(reader, orderMapping)
        invariant rows == old(rows) + reader[..i]
      {
        var row := reader[i];
        var ok, rowStr := RenderRow(row, orderMapping);
        if !ok {
          FitCountStops(reader, orderMapping, i);
          return IndexError;
        }
        FitCountSteps(reader, orderMapping, i);
        AppendPrefix(old(rows), reader, i);
        AppendRow(row, rowStr);
        i := i + 1;
      }
      assert reader[..i] == reader;
      StatementOfBuffer();
      if IsMysqlDb() {
        return Sql(DropLast(mysqlInsertSql, 2));
      } else {
        return Sql(orclInsertSql + "select 1 from dual;\n" + "COMMIT;");
      }
    }
  }
}
