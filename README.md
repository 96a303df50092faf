# csv2sql SqlGenerator in Dafny

`csv2sql.py` turns the rows of a CSV file into one SQL batch insert for a
named table. It writes either a MySQL multi-row `INSERT INTO <t>(<cols>)
VALUES` or an Oracle `INSERT ALL` with one `INTO ... VALUES` block per row.
Its core is the class `SqlGenerator`, and this project models that class:

- **Construction.** The column list is the order mapping's keys joined by
  commas. Both dialect headers are built once.
- **`is_mysql_db`.** Only the exact string `mysql` selects MySQL. Every
  other dialect string takes the Oracle path.
- **`get_sql`.** It renders each row as `'v1','v2',...`, picking each value
  by its mapped index in mapping order. It appends the rendered row to the
  dialect's buffer and returns the finished statement.
- **`time_string`.** The formatting of the output file name, as a function
  of six numbers.

The files:

- `py_strings.dfy` (module `PyStrings`) gives the Python string operations
  the class relies on, with Python's semantics: `sep.join`, `s.strip(c)`,
  the slice `s[:-k]` and `str(n)`. It also gives `s.split(c)` and `int(s)`
  as partners, so that joins and number formatting can be shown to be
  reversible.
- `sql_generator.dfy` (module `Csv2Sql`) holds three things:
  - the data model: a row is a sequence of strings, and the mapping is a
    sequence of (column, index) pairs in key order;
  - pure functions giving the exact text of each dialect;
  - the class `SqlGenerator`, whose two string buffers `GetSql` appends to
    in place. The ghost field `rows` records every row appended so far, and
    `Valid()` ties each buffer to the text function of those rows.
- `sql_properties.dfy` (modules `Csv2SqlProperties` and `Csv2SqlExamples`)
  holds the lemmas about the statements, two client methods that call
  `GetSql` on real generator objects, and a worked example.

Three behaviours of the code are worth knowing:

- With zero rows, the MySQL statement is not "just the header". `[:-2]`
  cuts `S\n` off the header, so the text ends in `VALUE` (`MysqlNoRows`).
- `get_sql` is not idempotent on one object. The buffers are only ever
  appended to, so a second call returns the first call's rows again. Only
  fresh objects with equal inputs agree (`GetSqlTwice`,
  `FreshGeneratorsAgree`).
- Negative indices are not rejected. `row[index]` follows Python: any index
  in `-len(row) .. len(row)-1` is accepted, and a negative index counts from
  the end. Anything else raises `IndexError`, which the model returns as the
  result `IndexError`. The rows rendered before the failing row stay in the
  buffer.

## Model

| member | source | states |
|---|---|---|
| PyStrings.LStrip | csv2sql.py:53 | the leading half of `strip(',')`: the result is a suffix, every dropped character is the comma, and the result does not start with one |
| PyStrings.RStrip | csv2sql.py:53 | the trailing half of `strip(',')`: the result is a prefix, every dropped character is the comma, and the result does not end with one |
| PyStrings.Strip | csv2sql.py:53 | the definition of `strip(',')` as `lstrip` then `rstrip`; `LStrip` and `RStrip` characterise each half, and `StripTerminated` shows what it leaves of the row string |
| PyStrings.DropLast | csv2sql.py:59 | `s[:-2]`: the prefix two characters shorter, or the empty string when `s` is shorter than two |
| PyStrings.IndexOf | csv2sql.py:41 | the first position of the separator, used to split a joined column list back apart |
| PyStrings.Join | csv2sql.py:41 | the definition of `sep.join(parts)`: the parts with `sep` between neighbours; `JoinCons`, `JoinEnds` and `SplitJoin` carry its properties |
| PyStrings.Terminated | csv2sql.py:52-57 | the definition of the text a loop of `acc += p + t` builds: every part followed by `t`; `TerminatedSnoc`, `TerminatedAppend` and `TerminatedIsJoinThenSep` carry its properties |
| PyStrings.TerminatedIsJoinThenSep | csv2sql.py:52-55 | appending `p + sep` for each part gives the join of the parts plus one trailing `sep` |
| PyStrings.TerminatedSnoc | csv2sql.py:52 | one more loop step adds the part and its terminator at the end |
| PyStrings.TerminatedAppend | csv2sql.py:52-55 | terminated runs of parts concatenate |
| PyStrings.JoinEnds | csv2sql.py:53 | a join of non-empty parts starts with the first part's first character and ends with the last part's last character |
| PyStrings.StripTerminated | csv2sql.py:52-53 | stripping `c` from parts each followed by `c` gives their join by `c`, when no part starts or ends with `c` |
| PyStrings.JoinCons | csv2sql.py:41 | a join is the first part, the separator, and the join of the rest |
| PyStrings.SplitJoin | csv2sql.py:41 | splitting a join at the separator gives the parts back, when no part holds the separator |
| PyStrings.Str | csv2sql.py:66 | `"{}".format(n)` for a natural number: never empty and decimal digits only; `StrRoundTrip` and `StrUnpadded` give its inverse and its lack of padding |
| PyStrings.StrRoundTrip | csv2sql.py:66 | the decimal form of a number is all digits and reads back as the number |
| PyStrings.StrUnpadded | csv2sql.py:66 | the decimal form is never empty and has no leading zero except for zero itself |
| Csv2Sql.Keys | csv2sql.py:41 | `order_mapping.keys()`: the keys in insertion order, one per mapping entry |
| Csv2Sql.ColumnList | csv2sql.py:41 | the definition of `",".join(order_mapping.keys())`; `ColumnListRoundTrip` shows it splits back into the keys, and `MysqlWithRows` and `OracleBlockAt` show it unchanged in the header and in every `INTO` line |
| Csv2Sql.Field | csv2sql.py:52 | the definition of `row[index]`, a negative index counting from the end; `InRange` is the condition under which it does not raise, used by `RenderRow` and `FitCount` |
| Csv2Sql.FitCount | csv2sql.py:48-52 | how many rows, from the front, are rendered before the first row that raises `IndexError`: all rows before it fit, and the row at it does not |
| Csv2Sql.Fields | csv2sql.py:51-52 | the row's values picked by `row[index]` for each mapped index, in mapping order, negative indices counted from the end |
| Csv2Sql.Quote | csv2sql.py:52 | the definition of `"'" + v + "'"`, with no escaping; `QuoteThenComma` and `ValueListSnoc` carry its properties |
| Csv2Sql.QuoteAll | csv2sql.py:52 | each value wrapped in single quotes, with no escaping |
| Csv2Sql.QuoteThenComma | csv2sql.py:52 | `row_str += "'" + v + "',"` appends the quoted value and a comma |
| Csv2Sql.ValueList | csv2sql.py:50-53 | the definition of `row_str` after the strip: the quoted fields joined by commas; `RenderRow`, `StrippedRowIsValueList`, `ValueListEnds` and `ValueListSnoc` carry its properties |
| Csv2Sql.StrippedRowIsValueList | csv2sql.py:50-53 | the row string after `strip(',')` is exactly the quoted values joined by commas, because no quoted value begins or ends with a comma |
| Csv2Sql.RenderRow | csv2sql.py:50-53 | the inner loop succeeds exactly when every mapped index is valid for the row, and then yields the value list `'v1',...,'vn'` |
| Csv2Sql.MysqlHeader | csv2sql.py:42 | the definition of the MySQL header `INSERT INTO <t>(<cols>) VALUES\n`; `MysqlNoRows` and `MysqlWithRows` state the statements built on it |
| Csv2Sql.OracleBlock | csv2sql.py:57 | the definition of one Oracle block `INTO <t> (<cols>)\nVALUES (<vals>)\n`; `OracleBlockAt` places the `k`-th row's block in the statement. The Oracle header `INSERT ALL \n` (line 43) and trailer `select 1 from dual;\nCOMMIT;` (line 61) are the constants `OracleHeader` and `OracleTrailer` |
| Csv2Sql.MysqlEntry | csv2sql.py:55 | the definition of the text appended per row, `(<vals>),\n`; `AppendMysql`, `MysqlBufferSnoc` and `MysqlRowsAreTerminatedTuples` carry its properties |
| Csv2Sql.MysqlRows | csv2sql.py:55 | the definition of the per-row MySQL text of `rows`, in input order; `MysqlRowsAreTerminatedTuples` and `MysqlRowsAppend` carry its properties |
| Csv2Sql.OracleRows | csv2sql.py:57 | the definition of the per-row Oracle blocks of `rows`, in input order; `OracleRowsAppend` and `OracleBlockAt` carry its properties |
| Csv2Sql.MysqlBuffer | csv2sql.py:42-55 | the definition of what `self.mysql_insert_sql` holds once `rows` have been appended: the header then the rows' entries; `AppendMysql`, `MysqlBufferSnoc`, `MysqlNoRows` and `MysqlWithRows` carry its properties |
| Csv2Sql.OracleBuffer | csv2sql.py:43-57 | the definition of what `self.orcl_insert_sql` holds once `rows` have been appended: `INSERT ALL \n` then the rows' blocks; `AppendOracle`, `OracleBufferSnoc` and `OracleBlockAt` carry its properties |
| Csv2Sql.MysqlStatement | csv2sql.py:59 | the definition of the MySQL result: the buffer with its last two characters cut off; `MysqlNoRows` and `MysqlWithRows` state its text |
| Csv2Sql.OracleStatement | csv2sql.py:61 | the definition of the Oracle result: the buffer followed by the trailer; `OracleBlockAt` and `OracleNoRows` state its text |
| Csv2Sql.SqlText | csv2sql.py:58-61 | the definition of what `get_sql` returns: the MySQL statement for exactly `mysql`, the Oracle statement otherwise; `GetSql` returns it and `SqlTextGrows` shows it lengthens as rows are added |
| Csv2Sql.TimeString | csv2sql.py:64-66 | the file name from six numbers: decimal digits only, at least six of them; `TimeStringUnpadded`, `TimeStringCollides` and `StrRoundTrip` carry the rest |
| Csv2Sql.MysqlBufferSnoc | csv2sql.py:55 | one more row adds its tuple `(<vals>),\n` at the end of the MySQL buffer |
| Csv2Sql.OracleBufferSnoc | csv2sql.py:57 | one more row adds its `INTO <t> (<cols>)\nVALUES (<vals>)\n` block at the end of the Oracle buffer |
| Csv2Sql.SqlGenerator.constructor | csv2sql.py:34-43 | the fields hold the arguments; the column list is the keys joined by commas; the buffers hold exactly the MySQL header `INSERT INTO <t>(<cols>) VALUES\n` and `INSERT ALL \n`; no row is recorded yet |
| Csv2Sql.SqlGenerator.Valid | csv2sql.py:41-57 | the invariant tying the fields to the recorded rows: the stored column list is the keys joined by commas, the dialect's buffer is its buffer text over every recorded row, and the other buffer still holds its header; the constructor establishes it and `AppendMysql`, `AppendOracle`, `AppendRow` and `GetSql` keep it |
| Csv2Sql.SqlGenerator.IsMysqlDb | csv2sql.py:45-46 | `mysql` selects MySQL and `oracle` selects Oracle |
| Csv2Sql.SqlGenerator.AppendMysql | csv2sql.py:54-55 | the MySQL buffer grows by exactly `(<vals>),\n`, the Oracle buffer is unchanged, and the buffer still equals the text of every row recorded |
| Csv2Sql.SqlGenerator.AppendOracle | csv2sql.py:56-57 | the Oracle buffer grows by exactly one `INTO` block that carries the stored column list, the MySQL buffer is unchanged, and the buffer still equals the text of every row recorded |
| Csv2Sql.SqlGenerator.AppendRow | csv2sql.py:54-57 | the row goes to the buffer of the generator's dialect only |
| Csv2Sql.SqlGenerator.StatementOfBuffer | csv2sql.py:58-61 | the text returned after the loop (the MySQL buffer minus two characters, or the Oracle buffer plus `select 1 from dual;\nCOMMIT;`) is the dialect's statement of every recorded row |
| Csv2Sql.SqlGenerator.GetSql | csv2sql.py:48-61 | every row before the first bad one is appended to the dialect's buffer, earlier calls' rows included. The result is `IndexError` when some row has an invalid index; otherwise it is the dialect's statement over all rows ever appended |
| Csv2SqlProperties.ColumnListRoundTrip | csv2sql.py:41 | the column list splits back into the mapping's keys, in mapping order, when the mapping is non-empty and no key holds a comma |
| Csv2SqlProperties.ValueListEnds | csv2sql.py:50-53 | a row's value list is empty with no mapped column, and otherwise starts and ends with a quote: no leading or trailing comma |
| Csv2SqlProperties.ValueListSnoc | csv2sql.py:51-53 | one more mapped column adds `,'<field>'` at the end of the value list, the field verbatim; the first column gives `'<field>'` |
| Csv2SqlProperties.Tuples | csv2sql.py:55 | the MySQL tuple of each row is `(` + its value list + `)`, one per row, in input order |
| Csv2SqlProperties.MysqlRowsAreTerminatedTuples | csv2sql.py:55 | the MySQL rows text is each row's tuple followed by `,\n`, in input order |
| Csv2SqlProperties.MysqlNoRows | csv2sql.py:42-59 | with zero rows the MySQL statement is `INSERT INTO <t>(<cols>) VALUE` |
| Csv2SqlProperties.MysqlWithRows | csv2sql.py:55-59 | with rows, the MySQL statement is the header followed by the tuples in input order, separated by `,\n`, and it ends in `)` |
| Csv2SqlProperties.OracleRowsAppend | csv2sql.py:57 | the Oracle blocks of two row runs concatenate |
| Csv2SqlProperties.OracleBlockAt | csv2sql.py:57-61 | the Oracle statement is `INSERT ALL \n`, the blocks of the rows before row `k`, row `k`'s block with the column list and its value list, the later rows' blocks, then `select 1 from dual;\nCOMMIT;` |
| Csv2SqlProperties.OracleNoRows | csv2sql.py:43-61 | with zero rows the Oracle statement is `INSERT ALL \nselect 1 from dual;\nCOMMIT;` |
| Csv2SqlProperties.MysqlRowsAppend | csv2sql.py:55 | the MySQL tuples of two row runs concatenate |
| Csv2SqlProperties.SqlTextGrows | csv2sql.py:55-57 | adding rows to a buffer strictly lengthens the statement, in either dialect |
| Csv2SqlProperties.GetSqlTwice | csv2sql.py:48-61 | on one generator, a second `get_sql` over the same rows returns the statement of the rows twice, so it differs from the first result whenever there is a row; a bad row gives `IndexError` both times |
| Csv2SqlProperties.FreshGeneratorsAgree | csv2sql.py:41-61 | two fresh generators with the same table, dialect and mapping return the same result, whatever their separator and first-line flag; it is `IndexError` exactly when some row has an invalid index |
| Csv2SqlProperties.TimeStringCollides | csv2sql.py:66 | January 11 and November 1 of one year, at the same time of day, give the same name |
| Csv2SqlProperties.TimeStringCollisionExample | csv2sql.py:66 | 2024-1-11 00:00:00 and 2024-11-1 00:00:00 both give `2024111000` |
| Csv2SqlProperties.TimeStringUnpadded | csv2sql.py:66 | each of the six fields starts with `0` exactly when it is zero: no field is zero-padded |
| Csv2SqlExamples.UsersColumnList | csv2sql.py:41 | the mapping `{"id": 0, "name": 1}` gives the column list `id,name` |
| Csv2SqlExamples.UsersValueList | csv2sql.py:50-53 | a row `[id, name]` under that mapping gives `'<id>','<name>'` |
| Csv2SqlExamples.UsersValueLists | csv2sql.py:50-53 | the rows `1,Alice` and `2,Bob` give `'1','Alice'` and `'2','Bob'` |
| Csv2SqlExamples.UsersTuples | csv2sql.py:55-59 | their MySQL tuples joined are `('1','Alice'),\n('2','Bob')` |
| Csv2SqlExamples.UsersMysqlExample | csv2sql.py:42-59 | table `users` in MySQL gives `INSERT INTO users(id,name) VALUES\n('1','Alice'),\n('2','Bob')` |
| Csv2SqlExamples.UsersBlocks | csv2sql.py:57 | their Oracle blocks are `INTO users (id,name)\nVALUES ('1','Alice')\n` then the same for Bob |
| Csv2SqlExamples.UsersOracleExample | csv2sql.py:43-61 | table `users` in Oracle gives `INSERT ALL \n`, the two blocks, then `select 1 from dual;\nCOMMIT;` |

## Left out

- `parse_arguments` (csv2sql.py:7-17): argparse and `json.loads` are library parsing. The mapping comes in already parsed, as (column, index) pairs in key order.
- `Csv2Sql.SqlGenerator.constructor`: requires distinct keys, which a parsed JSON object always has. The model does not capture what `json.loads` does with a repeated key: the resulting dict keeps one entry, at the position where the key first appeared, holding the index given by its last occurrence.
- Mapping values that are not integers (a string or a float in the JSON) would raise `TypeError` at `row[index]`. The model only takes integer indices.
- `csv.reader` with the separator and `QUOTE_ALL` (csv2sql.py:74) is a library tokenizer. Rows come in already split.
- The constructor stores `separator` and `exclude_first_line`, but only `run` uses them. The `csv_file` argument is not modelled.
- `run` and `write_sql_to_file` (csv2sql.py:68-77) are file I/O. The `next(f)` on line 76 skips exactly one raw input line before parsing. `write_sql_to_file` names the file `./<time_string>.sql`.
- `time_string` (csv2sql.py:63-66): `datetime.now()` is a clock read. The six numbers become parameters of `TimeString`.
- No SQL or identifier escaping is modelled, because the source does none.
