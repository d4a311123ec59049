# LazyDB statement builder, in Dafny

LazyDB is a small PHP wrapper around the `mysql_*` driver. Most of it hands
SQL strings to the driver unchanged. The one piece with logic of its own
is the statement builder in `lazydb.php`. This project models that
builder as pure Dafny functions over strings:

- **Value encoder.** `get_field_value` with `add_slashes` (PHP's
  `addslashes`) turns a row value into SQL text. A
  `LazyDBExpressionType` (made by `LazyDB::createExpression`) is emitted
  verbatim. An array is serialized and then quoted like a string. Any other
  value is escaped and single-quoted.
- **`update`, `insert`, `insert_batch`.** These build UPDATE, single-row
  INSERT and multi-row INSERT statements. Each builder returns the SQL text
  it would pass to `query`. `insert_batch` returns an explicit
  `BatchOutcome`: `Inserted(sql)` (returns 1), `EmptyBatch` (returns -1) or
  `BadInput` (the script dies).

Each operation is paired with its inverse:

- `addslashes` is paired with PHP's `stripslashes`.
- The emitted statements are paired with a reader (`Lexer`, `Readback`).
  The reader tokenises single string literals and backtick-quoted names.
  It follows the escape rules in the "String Literals" and "Schema Object
  Names" sections of the MySQL Reference Manual. It does not join
  adjacent literals (see "## Left out").

The round-trip lemmas say what the text means on the server: which table,
which columns in which order, which values, which where-clause. They also
show that no escaped value can end its literal early.

Modules, one per file:

| file | module | contents |
|---|---|---|
| text.dfy | `Text` | `Option`, PHP `implode` (`Join`), prefix matching |
| slashes.dfy | `Slashes` | `addslashes`, `stripslashes`, the `Escaped` invariant |
| lexer.dfy | `Lexer` | reading a string literal and a quoted identifier |
| encoder.dfy | `Encoder` | `Value`, `get_field_value`, `createExpression` |
| builder.dfy | `Builder` | `update`, `insert`, `insert_batch` and its key check |
| readback.dfy | `Readback` | statement readers and the round-trip lemmas |

Three quirks of the source are kept exactly:

- `insert` has no empty-row check. With no columns it emits
  `` INSERT INTO `t` (``) VALUES () ``.
- `update` puts two spaces before `WHERE`. It leaves a trailing space and
  no WHERE at all when the where-clause is empty, which updates every row.
- `insert_batch` puts a space before the suffix, so the statement ends in a
  space when the suffix is empty.

Where the library's own documentation and its code disagree, the model
follows the code:

- `insert_batch`'s doc comment (lazydb.php:393) says it returns 0 on
  failure. The code returns -1 for an empty batch and 1 otherwise. A key
  mismatch ends the script with `die`, and 0 is never returned.
- The escaping is PHP's `addslashes`. It escapes only `'`, `"`, `\` and
  NUL, and writes NUL as the two characters `\0`. Newline, carriage
  return and Ctrl-Z pass through unchanged. The `handleSlashes` flag
  (lazydb.php:59) is never read, so escaping is unconditional.
- The batch key check compares keys position by position against entry 0.
  It lets through an entry whose keys are a prefix of entry 0's keys. Past
  the end of the column list, PHP reads NULL, and `NULL != ""` is false, so
  an extra key that is the empty string also passes. Such entries produce
  VALUES groups whose length differs from the column list.
  `Readback.InsertBatchReadsBack` shows those groups as they are sent.

## Model

| member | source | states |
|---|---|---|
| `Slashes.AddSlashes` | lazydb.php:508-510 | The escaped text splits into backslash pairs and ordinary characters, so no `'`, `"`, `\` or NUL stands alone; `stripslashes` recovers the input exactly |
| `Slashes.AddSlashesPlain` | lazydb.php:508-510 | Text without `'`, `"`, `\` or NUL is left unchanged: only those four characters are escaped |
| `Slashes.AddSlashesAppend` | lazydb.php:508-510 | Escaping works character by character: escaping a concatenation is the concatenation of the escapes |
| `Slashes.SlashBeforeApostrophe` | lazydb.php:508-510 | An apostrophe between plain text gains exactly one backslash before it and nothing else changes |
| `Lexer.LiteralRoundTrip` | lazydb.php:475-477 | A single-quoted `addslashes` body is read by the server as exactly the original text, and the literal closes at the closing quote, unless what follows begins with a quote, or with whitespace and then a quote |
| `Lexer.IdentRoundTrip` | lazydb.php:354 | A backtick-quoted name without a backtick in it is read back as that name, with the rest of the input untouched |
| `Encoder.CreateExpression` | lazydb.php:83-85 | The wrapper made by `createExpression` is emitted as its SQL text whatever `serialize` is: no quotes and no escaping |
| `Encoder.FieldValue` | lazydb.php:471-479 | An expression yields its text verbatim; any other value yields a single-quoted literal whose inside is escaped and un-escapes to the value's text (the serialized form for an array) |
| `Encoder.ArrayEncodedAsSerializedText` | lazydb.php:474-475 | An array is encoded exactly as the string its serialization produces, escaped and single-quoted |
| `Encoder.IntegerNeedsNoEscaping` | lazydb.php:476-477 | An integer is emitted as its quoted decimal form, with nothing escaped |
| `Encoder.FieldValueReadsBack` | lazydb.php:471-479 | Every non-expression value is read by the server as exactly its text, and the input after the literal is untouched, unless that input begins with a quote, or with whitespace and then a quote |
| `Encoder.ApostropheEscaped` | lazydb.php:476-477 | A string such as `o'connell` is emitted as `'o\'connell'`, so the apostrophe cannot close the literal |
| `Builder.EntryFits` | lazydb.php:414-420 | The inner key-check loop succeeds exactly when every key from the start position fits the column list at its own position |
| `Builder.EntriesFit` | lazydb.php:412-422 | The outer loop succeeds exactly when every entry from the start index conforms to the column list |
| `Builder.InsertBatch` | lazydb.php:396-431 | The result is the empty-batch outcome exactly for no entries, and the abort exactly when some entry does not conform to entry 0's columns; otherwise the statement is built |
| `Builder.FirstEntryConforms` | lazydb.php:405-409 | Entry 0 always passes the check against its own keys |
| `Builder.ConformsIffPrefix` | lazydb.php:413-418 | For an entry no longer than the column list, passing the check is the same as its keys being a positional prefix of the columns |
| `Builder.MismatchAborts` | lazydb.php:415-418 | An entry naming a different column than entry 0 at any shared position aborts the batch, and no value is returned |
| `Builder.BatchReturnCodes` | lazydb.php:396-399 | The return value is -1 exactly for an empty batch and 1 exactly when every entry conforms; it is never 0 |
| `Builder.SingleRowBatchIsInsert` | lazydb.php:370-427 | A batch of one row is the single-row INSERT followed by a space and the suffix |
| `Builder.EmptyRowInsert` | lazydb.php:370-382 | `insert` with no columns still emits a statement, with one empty column name and no values |
| `Builder.UpdateWithoutWhere` | lazydb.php:356-360 | With an empty where-clause the UPDATE has no WHERE and ends in a space |
| `Readback.ValueReadsAs` | lazydb.php:471-479 | Each non-expression value reads as one literal denoting its text when followed by any input that does not begin with a quote, or with whitespace and then a quote |
| `Readback.NamesRoundTrip` | lazydb.php:379-382 | The column list, imploded with backtick-comma-backtick inside outer backticks, reads back as the names, in order |
| `Readback.LiteralListRoundTrip` | lazydb.php:380-382 | Comma-joined literals read back as their texts, in order and with equal count |
| `Readback.GroupRoundTrip` | lazydb.php:421 | A parenthesised, comma-joined list of literals (possibly empty) reads back as one group holding those texts |
| `Readback.RowGroupReadsAs` | lazydb.php:419-421 | A row's VALUES group reads back as the row's texts in key order |
| `Readback.GroupListRoundTrip` | lazydb.php:425-427 | Comma-joined VALUES groups read back as their rows, in order |
| `Readback.PairRoundTrip` | lazydb.php:354 | `` `key` = literal `` reads back as the pair of the name and the literal's text |
| `Readback.AssignmentPairReadsAs` | lazydb.php:353-355 | Each SET pair of the row reads back as (column, value text) |
| `Readback.AssignmentListRoundTrip` | lazydb.php:356 | Comma-joined SET pairs read back as the pairs, in order |
| `Readback.InsertTextRoundTrip` | lazydb.php:424-427 | INSERT text with any column list (an empty one reads as one empty name) and any groups reads back as table, columns, groups and the text that follows, piece by piece |
| `Readback.UpdateTextRoundTrip` | lazydb.php:356-360 | UPDATE text reads back as its pairs and exactly the where-clause given; "" means there is no WHERE |
| `Readback.InsertReadsBack` | lazydb.php:370-382 | `insert` names the table and the row's columns in row order (one empty name for an empty row), then one VALUES group with every value's text in the same order, and nothing after it |
| `Readback.InsertBatchReadsBack` | lazydb.php:396-431 | A successful `insert_batch` names entry 0's columns (one empty name when entry 0 is empty), then one group per entry in order with that entry's texts in key order, then a space and the suffix verbatim |
| `Readback.UpdateReadsBack` | lazydb.php:351-360 | `update` sets each column of the row, in order, to that value's text, and carries exactly the given where-clause (none when it is empty) |

## Left out

- Running statements: `connect`, `select_db`, `query`, the fetch helpers, `get_num_rows`, `get_affected_rows`, `free_result`, `get_insert_id` and `close` call the external `mysql_*` driver. The builders return the SQL text instead of running it. `insert`'s return value (the last insert id) comes from the driver.
- The fetch loops `query_select`, `query_select_manualkey`, `query_single`/`query_row`, `query_scalar`, `query_select_single`/`query_col`, `get_databases` and `get_tables` iterate over driver result sets.
- `log_error`, `gmt_time` and `gmt_timezone` write files and read the clock.
- PHP's `serialize` is a parameter (`Serializer`) with no interpretation. Every property holds for any choice of it. Decoding a serialized array happens outside this code and is not modelled.
- PHP floats and objects other than the expression wrapper are not modelled as values. Float-to-string conversion depends on the `precision` setting.
- Integers are unbounded. PHP's 64-bit integer limit (past which values become floats) is not modelled.
- PHP array keys are modelled as strings compared exactly. PHP turns integer-like keys into integers, and `!=` compares numeric strings numerically. So key comparisons in `insert_batch` between, say, `"1e1"` and `"10"` are not modelled. Nor is the extra key `"0"` past the end of the column list: PHP stores it as the integer 0 and `NULL != 0` is false, so PHP lets it through, while the model aborts.
- The escaping assumes `magic_quotes_sybase` is off. On PHP 5.3 and earlier with that setting on, `addslashes` doubles `'` and leaves `"` and `\` alone. PHP 5.4 and later have no such setting.
- The reader does not join adjacent string literals. MySQL reads `'a' 'b'` as the one string `'ab'`, and the reader stops at the first closing quote. The builders never emit whitespace followed by a quote after a quoted value, so the statement round trips are unaffected.
- `$entries[0]` is modelled as the first entry. Batches are lists, not PHP arrays with arbitrary keys.
- Multi-byte character sets and the server's NO_BACKSLASH_ESCAPES mode are not modelled. Text is a sequence of characters, read with backslash escapes on.
- `example.php` is a demo that performs live database I/O. It calls `LazyDB::E`, which `lazydb.php` does not define.
- Names are not validated, as in the source. A table or column name containing a backtick, or an expression value, is spliced in raw, so the statement round trips below say nothing about such input.
- `Readback.InsertReadsBack` assumes the table name and the row's keys contain no backtick and no value is an expression.
- `Readback.InsertBatchReadsBack` assumes the table name and entry 0's keys contain no backtick and no value in any entry is an expression.
- `Readback.UpdateReadsBack` assumes the table name and the row's keys contain no backtick and no value is an expression.
- The reader treats a backtick as the end of a quoted name. The server's doubled-backtick escape never arises for backtick-free names.
