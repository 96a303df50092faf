/** What the text `SqlGenerator.get_sql` produces means: the column list,
    the value list of a row, the shape of each dialect's statement, the
    effect of calling `get_sql` twice on one generator, and the output file
    name. */
module Csv2SqlProperties {
  import opened PyStrings
  import opened Csv2Sql

  // ---------------------------------------------------------------------
  // Column list

  /** The column list gives the mapping's keys back, in mapping order, when
      the mapping is not empty and no key holds a comma. */
  lemma ColumnListRoundTrip(m: OrderMapping)
    requires |m| > 0
    requires forall i :: 0 <= i < |m| ==> ',' !in m[i].0
    ensures Split(ColumnList(m), ',') == Keys(m)
  {
    var ks := Keys(m);
    forall p | p in ks ensures ',' !in p {
      var i :| 0 <= i < |ks| && ks[i] == p;
    }
    SplitJoin(ks, ',');
  }

  // ---------------------------------------------------------------------
  // Value list of one row

  /** A non-empty value list begins and ends with a quote: there is no
      leading or trailing comma. With no mapped column it is empty. */
  lemma ValueListEnds(row: Row, m: OrderMapping)
    requires RowFits(row, m)
    ensures |m| == 0 ==> ValueList(row, m) == ""
    ensures |m| > 0 ==> var v := ValueList(row, m);
      |v| >= 2 && v[0] == '\'' && v[|v| - 1] == '\''
  {
    if |m| > 0 {
      var qs := QuoteAll(Fields(row, m));
      forall p | p in qs ensures |p| > 0 {
        var j :| 0 <= j < |qs| && qs[j] == p;
      }
      JoinEnds(",", qs);
      if |m| == 1 {
        assert ValueList(row, m) == qs[0];
      }
    }
  }

  /** One more mapped column adds `,'<field>'` at the end of the value
      list, the field taken verbatim (no escaping); a single column gives
      `'<field>'`. */
  lemma ValueListSnoc(row: Row, m: OrderMapping, column: string, index: int)
    requires RowFits(row, m) && InRange(row, index)
    ensures RowFits(row, m + [(column, index)])
    ensures ValueList(row, m + [(column, index)])
         == (if m == [] then "" else ValueList(row, m) + ",") + "'" + Field(row, index) + "'"
  {
    var m' := m + [(column, index)];
    var qs := QuoteAll(Fields(row, m));
    var qs' := QuoteAll(Fields(row, m'));
    assert qs' == qs + [Quote(Field(row, index))];
    assert qs'[..|qs'| - 1] == qs;
  }

  // ---------------------------------------------------------------------
  // MySQL statement

  /** The MySQL tuple of each row, without the separator. */
  function Tuples(rows: seq<Row>, m: OrderMapping): (ts: seq<string>)
    requires AllFit(rows, m)
    ensures |ts| == |rows|
    ensures forall k :: 0 <= k < |rows| ==> ts[k] == "(" + ValueList(rows[k], m) + ")"
  {
    if rows == [] then []
    else Tuples(rows[..|rows| - 1], m) + ["(" + ValueList(rows[|rows| - 1], m) + ")"]
  }

  lemma {:induction false} MysqlRowsAreTerminatedTuples(rows: seq<Row>, m: OrderMapping)
    requires AllFit(rows, m)
    ensures MysqlRows(rows, m) == Terminated(Tuples(rows, m), ",\n")
  {
    if rows != [] {
      var init := rows[..|rows| - 1];
      var v := ValueList(rows[|rows| - 1], m);
      var t := "(" + v + ")";
      MysqlRowsAreTerminatedTuples(init, m);
      TerminatedSnoc(Tuples(init, m), t, ",\n");
      assert Tuples(rows, m) == Tuples(init, m) + [t];
      EntryIsTupleThenSeparator(v);
      var a := Terminated(Tuples(init, m), ",\n");
      assert MysqlRows(rows, m) == a + MysqlEntry(v);
      Assoc(a, t, ",\n");
    }
  }

  lemma EntryIsTupleThenSeparator(v: string)
    ensures MysqlEntry(v) == ("(" + v + ")") + ",\n"
  {
  }

  /** With no row, cutting two characters off the bare header leaves it
      ending in `VALUE`. */
  lemma MysqlNoRows(table: string, m: OrderMapping)
    ensures MysqlStatement(table, m, []) == "INSERT INTO " + table + "(" + ColumnList(m) + ") VALUE"
  {
    var h := MysqlHeader(table, ColumnList(m));
    assert MysqlBuffer(table, ColumnList(m), [], m) == h;
    assert h == ("INSERT INTO " + table + "(" + ColumnList(m) + ") VALUE") + "S\n";
  }

  /** With at least one row, the MySQL statement is the header and the
      rows' tuples in input order, separated by `,\n`: the last `,\n` is
      the one cut off, so the statement ends in `)`. */
  lemma MysqlWithRows(table: string, m: OrderMapping, rows: seq<Row>)
    requires AllFit(rows, m) && |rows| > 0
    ensures MysqlStatement(table, m, rows) == MysqlHeader(table, ColumnList(m)) + Join(",\n", Tuples(rows, m))
    ensures var s := MysqlStatement(table, m, rows); s[|s| - 1] == ')'
  {
    var ts := Tuples(rows, m);
    MysqlRowsAreTerminatedTuples(rows, m);
    TerminatedIsJoinThenSep(ts, ",\n");
    var h := MysqlHeader(table, ColumnList(m));
    var j := Join(",\n", ts);
    assert MysqlBuffer(table, ColumnList(m), rows, m) == (h + j) + ",\n";
    forall p | p in ts ensures |p| > 0 {
      var k :| 0 <= k < |ts| && ts[k] == p;
    }
    JoinEnds(",\n", ts);
  }

  // ---------------------------------------------------------------------
  // Oracle statement

  lemma {:induction false} OracleRowsAppend(table: string, cols: string, a: seq<Row>, b: seq<Row>, m: OrderMapping)
    requires AllFit(a, m) && AllFit(b, m)
    ensures AllFit(a + b, m)
    ensures OracleRows(table, cols, a + b, m) == OracleRows(table, cols, a, m) + OracleRows(table, cols, b, m)
    decreases |b|
  {
    if b == [] {
      assert a + b == a;
    } else {
      var init := b[..|b| - 1];
      assert (a + b)[..|a + b| - 1] == a + init;
      OracleRowsAppend(table, cols, a, init, m);
      Assoc(OracleRows(table, cols, a, m), OracleRows(table, cols, init, m),
            OracleBlock(table, cols, ValueList(b[|b| - 1], m)));
    }
  }

  /** The Oracle statement is `INSERT ALL \n`, then one block per row in
      input order (the `k`-th block is the `k`-th row's), then the closing
      `select 1 from dual;\nCOMMIT;`. */
  lemma OracleBlockAt(table: string, m: OrderMapping, rows: seq<Row>, k: nat)
    requires AllFit(rows, m) && k < |rows|
    ensures OracleStatement(table, m, rows)
         == OracleHeader
          + OracleRows(table, ColumnList(m), rows[..k], m)
          + OracleBlock(table, ColumnList(m), ValueList(rows[k], m))
          + OracleRows(table, ColumnList(m), rows[k + 1..], m)
          + OracleTrailer
  {
    var cols := ColumnList(m);
    assert rows == rows[..k + 1] + rows[k + 1..];
    OracleRowsAppend(table, cols, rows[..k + 1], rows[k + 1..], m);
    assert rows[..k + 1][..k] == rows[..k];
    var before := OracleRows(table, cols, rows[..k], m);
    var block := OracleBlock(table, cols, ValueList(rows[k], m));
    var after := OracleRows(table, cols, rows[k + 1..], m);
    assert OracleRows(table, cols, rows[..k + 1], m) == before + block;
    assert OracleRows(table, cols, rows, m) == (before + block) + after;
    Assoc(OracleHeader, before + block, after);
    Assoc(OracleHeader, before, block);
  }

  /** With no row the Oracle statement is the header and the closing lines. */
  lemma OracleNoRows(table: string, m: OrderMapping)
    ensures OracleStatement(table, m, []) == "INSERT ALL \nselect 1 from dual;\nCOMMIT;"
  {
    assert OracleBuffer(table, ColumnList(m), [], m) == OracleHeader;
  }

  // ---------------------------------------------------------------------
  // Calling get_sql again on the same generator

  lemma {:induction false} MysqlRowsAppend(a: seq<Row>, b: seq<Row>, m: OrderMapping)
    requires AllFit(a, m) && AllFit(b, m)
    ensures AllFit(a + b, m)
    ensures MysqlRows(a + b, m) == MysqlRows(a, m) + MysqlRows(b, m)
    decreases |b|
  {
    if b == [] {
      assert a + b == a;
    } else {
      var init := b[..|b| - 1];
      assert (a + b)[..|a + b| - 1] == a + init;
      MysqlRowsAppend(a, init, m);
      Assoc(MysqlRows(a, m), MysqlRows(init, m), MysqlEntry(ValueList(b[|b| - 1], m)));
    }
  }

  /** Once rows are in a generator's buffer, a later call that adds rows
      returns a strictly longer statement: the buffer is never reset, so
      `get_sql` is not idempotent on one generator. */
  lemma SqlTextGrows(table: string, dbType: string, m: OrderMapping, earlier: seq<Row>, later: seq<Row>)
    requires AllFit(earlier, m) && AllFit(later, m) && |later| > 0
    ensures AllFit(earlier + later, m)
    ensures |SqlText(table, dbType, m, earlier + later)| > |SqlText(table, dbType, m, earlier)|
  {
    var cols := ColumnList(m);
    var last := later[|later| - 1];
    assert later == later[..|later| - 1] + [last];
    if dbType == "mysql" {
      MysqlRowsAppend(earlier, later, m);
      assert |MysqlRows(later, m)| >= |MysqlEntry(ValueList(last, m))| > 2;
    } else {
      OracleRowsAppend(table, cols, earlier, later, m);
      assert |OracleRows(table, cols, later, m)| > 0;
    }
  }

  /** Two calls on one generator with the same rows: the second result
      holds the rows twice, so the two results differ whenever there is a
      row. */
  method GetSqlTwice(table: string, dbType: string, m: OrderMapping, reader: seq<Row>)
    returns (first: SqlResult, second: SqlResult)
    requires DistinctKeys(m)
    ensures AllFit(reader, m) ==> first == Sql(SqlText(table, dbType, m, reader))
    ensures AllFit(reader, m) ==> AllFit(reader + reader, m) && second == Sql(SqlText(table, dbType, m, reader + reader))
    ensures AllFit(reader, m) && |reader| > 0 ==> first != second
    ensures !AllFit(reader, m) ==> first == IndexError && second == IndexError
  {
    var g := new SqlGenerator(table, dbType, ",", false, m);
    first := g.GetSql(reader);
    second := g.GetSql(reader);
    if AllFit(reader, m) {
      FitCountAll(reader, m);
      assert reader[..|reader|] == reader;
      assert [] + reader == reader;
      if |reader| > 0 {
        SqlTextGrows(table, dbType, m, reader, reader);
      }
    } else {
      FitCountShort(reader, m);
    }
  }

  /** Two fresh generators with the same table, dialect and mapping return
      the same text for the same rows, whatever separator and first-line
      flag each was built with. */
  method FreshGeneratorsAgree(table: string, dbType: string, m: OrderMapping, reader: seq<Row>,
                              sep1: string, skip1: bool, sep2: string, skip2: bool)
    returns (a: SqlResult, b: SqlResult)
    requires DistinctKeys(m)
    ensures a == b
    ensures AllFit(reader, m) <==> a != IndexError
  {
    var g1 := new SqlGenerator(table, dbType, sep1, skip1, m);
    var g2 := new SqlGenerator(table, dbType, sep2, skip2, m);
    a := g1.GetSql(reader);
    b := g2.GetSql(reader);
    if AllFit(reader, m) {
      FitCountAll(reader, m);
    } else {
      FitCountShort(reader, m);
    }
  }

  lemma FitCountAll(rows: seq<Row>, m: OrderMapping)
    requires AllFit(rows, m)
    ensures FitCount(rows, m) == |rows|
  {
  }

  lemma FitCountShort(rows: seq<Row>, m: OrderMapping)
    requires !AllFit(rows, m)
    ensures FitCount(rows, m) < |rows|
  {
  }

  // ---------------------------------------------------------------------
  // Output file name

  /** Months and days are not padded, so distinct times can share a name:
      January 11 and November 1 of one year, at the same time of day. */
  lemma TimeStringCollides(year: nat, hour: nat, minute: nat, second: nat)
    ensures TimeString(year, 1, 11, hour, minute, second) == TimeString(year, 11, 1, hour, minute, second)
  {
    assert Str(11) == Str(1) + Str(1);
  }

  /** 2024-01-11 00:00:00 and 2024-11-01 00:00:00 both give `2024111000`. */
  lemma TimeStringCollisionExample()
    ensures TimeString(2024, 1, 11, 0, 0, 0) == "2024111000"
    ensures TimeString(2024, 11, 1, 0, 0, 0) == "2024111000"
  {
    TimeStringCollides(2024, 0, 0, 0);
    assert Str(2024) == "2024" by {
      assert Str(2) == "2";
      assert Str(20) == "20";
      assert Str(202) == "202";
    }
    assert Str(11) == "11";
  }

  /** Each field is written without leading zeros: the first character of
      each field's digits is `0` exactly when that field is zero. */
  lemma TimeStringUnpadded(year: nat, month: nat, day: nat, hour: nat, minute: nat, second: nat)
    ensures var t := TimeString(year, month, day, hour, minute, second);
      var o1 := |Str(year)|;
      var o2 := o1 + |Str(month)|;
      var o3 := o2 + |Str(day)|;
      var o4 := o3 + |Str(hour)|;
      var o5 := o4 + |Str(minute)|;
      o5 < |t| &&
      (t[0] == '0' <==> year == 0) && (t[o1] == '0' <==> month == 0) &&
      (t[o2] == '0' <==> day == 0) && (t[o3] == '0' <==> hour == 0) &&
      (t[o4] == '0' <==> minute == 0) && (t[o5] == '0' <==> second == 0)
  {
    StrUnpadded(year);
    StrUnpadded(month);
    StrUnpadded(day);
    StrUnpadded(hour);
    StrUnpadded(minute);
    StrUnpadded(second);
  }
}

module Csv2SqlExamples {
  import opened PyStrings
  import opened Csv2Sql
  import opened Csv2SqlProperties

  function UsersMapping(): OrderMapping
  {
    [("id", 0), ("name", 1)]
  }

  function UsersRows(): seq<Row>
  {
    [["1", "Alice"], ["2", "Bob"]]
  }

  lemma UsersColumnList()
    ensures ColumnList(UsersMapping()) == "id,name"
  {
    var ks := Keys(UsersMapping());
    assert ks == ["id", "name"];
    assert ks[..1] == ["id"];
  }

  lemma UsersValueList(row: Row, id: string, name: string)
    requires row == [id, name]
    ensures RowFits(row, UsersMapping())
    ensures ValueList(row, UsersMapping()) == "'" + id + "','" + name + "'"
  {
    var m := UsersMapping();
    assert [] + [("id", 0)] == [("id", 0)];
    assert m == [("id", 0)] + [("name", 1)];
    ValueListSnoc(row, [], "id", 0);
    ValueListSnoc(row, [("id", 0)], "name", 1);
  }

  lemma UsersValueLists()
    ensures AllFit(UsersRows(), UsersMapping())
    ensures ColumnList(UsersMapping()) == "id,name"
    ensures ValueList(UsersRows()[0], UsersMapping()) == "'1','Alice'"
    ensures ValueList(UsersRows()[1], UsersMapping()) == "'2','Bob'"
  {
    UsersColumnList();
    UsersValueList(UsersRows()[0], "1", "Alice");
    UsersValueList(UsersRows()[1], "2", "Bob");
  }

  /** The two rows as MySQL value tuples, joined. */
  lemma UsersTuples()
    ensures Join(",\n", Tuples(UsersRows(), UsersMapping())) == "('1','Alice'),\n('2','Bob')"
  {
    var m := UsersMapping();
    var rows := UsersRows();
    UsersValueLists();
    var ts := Tuples(rows, m);
    assert ts[0] == "(" + "'1','Alice'" + ")" == "('1','Alice')";
    assert ts[1] == "(" + "'2','Bob'" + ")" == "('2','Bob')";
    assert ts == ["('1','Alice')", "('2','Bob')"];
    assert ts[..1] == ["('1','Alice')"];
    assert Join(",\n", ts) == "('1','Alice')" + ",\n" + "('2','Bob')";
  }

  /** Mapping `{"id": 0, "name": 1}`, table `users`, two rows, MySQL. */
  lemma UsersMysqlExample()
    ensures AllFit(UsersRows(), UsersMapping())
    ensures SqlText("users", "mysql", UsersMapping(), UsersRows())
         == "INSERT INTO users(id,name) VALUES\n" + "('1','Alice'),\n('2','Bob')"
  {
    var m := UsersMapping();
    var rows := UsersRows();
    UsersValueLists();
    MysqlWithRows("users", m, rows);
    UsersTuples();
    UsersMysqlHeader();
    assert SqlText("users", "mysql", m, rows) == MysqlStatement("users", m, rows);
  }

  /** The MySQL header of the example, spelled out. */
  lemma UsersMysqlHeader()
    ensures MysqlHeader("users", "id,name") == "INSERT INTO users(id,name) VALUES\n"
  {
  }

  /** The Oracle `INTO` blocks of the example, spelled out. */
  lemma UsersBlockText0()
    ensures OracleBlock("users", "id,name", "'1','Alice'") == "INTO users (id,name)\nVALUES ('1','Alice')\n"
  {
  }

  lemma UsersBlockText1()
    ensures OracleBlock("users", "id,name", "'2','Bob'") == "INTO users (id,name)\nVALUES ('2','Bob')\n"
  {
  }

  /** The two rows as Oracle `INTO` blocks. */
  lemma UsersBlocks()
    ensures AllFit(UsersRows(), UsersMapping())
    ensures OracleRows("users", "id,name", UsersRows(), UsersMapping())
         == "INTO users (id,name)\nVALUES ('1','Alice')\n" + "INTO users (id,name)\nVALUES ('2','Bob')\n"
  {
    var m := UsersMapping();
    var rows := UsersRows();
    UsersValueLists();
    assert rows[..1] == [rows[0]] && [rows[0]][..0] == [];
    var b0 := OracleBlock("users", "id,name", "'1','Alice'");
    var b1 := OracleBlock("users", "id,name", "'2','Bob'");
    assert OracleRows("users", "id,name", rows[..1], m) == b0;
    assert OracleRows("users", "id,name", rows, m) == b0 + b1;
    UsersBlockText0();
    UsersBlockText1();
  }

  /** The same input, Oracle: the header, one block per row, the trailer. */
  lemma UsersOracleExample()
    ensures AllFit(UsersRows(), UsersMapping())
    ensures SqlText("users", "oracle", UsersMapping(), UsersRows())
         == "INSERT ALL \n"
          + ("INTO users (id,name)\nVALUES ('1','Alice')\n" + "INTO users (id,name)\nVALUES ('2','Bob')\n")
          + ("select 1 from dual;\n" + "COMMIT;")
  {
    var m := UsersMapping();
    var rows := UsersRows();
    UsersValueLists();
    UsersBlocks();
    assert SqlText("users", "oracle", m, rows) == OracleStatement("users", m, rows);
  }
}
