/**
 * The statement builders of `LazyDB`: `update`, `insert` and
 * `insert_batch`. Each returns the SQL text it would hand to `query`;
 * running the statement is the driver's business and is not modelled.
 * Table names, column names, where-clauses and suffixes are spliced in raw,
 * exactly as the PHP code does.
 */
module Builder {
  import opened Text
  import opened Encoder

  /** A PHP associative array used as a row: column names with values, in iteration order. */
  type Row = seq<(string, Value)>

  function Columns(row: Row): seq<string> {
    seq(|row|, i requires 0 <= i < |row| => row[i].0)
  }

  function Literals(row: Row, serialize: Serializer): seq<string> {
    seq(|row|, i requires 0 <= i < |row| => FieldValue(row[i].1, serialize))
  }

  /** One `` `key` = value `` pair of an UPDATE's SET list. */
  function Assignment(key: string, v: Value, serialize: Serializer): string {
    "`" + key + "` = " + FieldValue(v, serialize)
  }

  function Assignments(data: Row, serialize: Serializer): seq<string> {
    seq(|data|, i requires 0 <= i < |data| => Assignment(data[i].0, data[i].1, serialize))
  }

  /** The where-part of an UPDATE: present only for a non-empty where-clause. */
  function WhereClause(where: string): string {
    if where != "" then " WHERE " + where else ""
  }

  /**
   * `LazyDB::update`. The SET list is followed by one space and then the
   * where-part, so a where-clause is preceded by two spaces and an empty one
   * leaves a trailing space (and updates every row).
   */
  function Update(table: string, data: Row, where: string, serialize: Serializer): string {
    "UPDATE `" + table + "` SET " + Join(",", Assignments(data, serialize)) + " " + WhereClause(where)
  }

  /** The parenthesised column list: for no columns at all this is `` (``) ``. */
  function ColumnList(fields: seq<string>): string {
    "(`" + Join("`,`", fields) + "`)"
  }

  /** One parenthesised VALUES group for a row. */
  function ValueGroup(row: Row, serialize: Serializer): string {
    "(" + Join(",", Literals(row, serialize)) + ")"
  }

  /** `LazyDB::insert`: a single-row INSERT. There is no check for an empty row. */
  function Insert(table: string, data: Row, serialize: Serializer): string {
    "INSERT INTO `" + table + "` " + ColumnList(Columns(data)) + " VALUES " + ValueGroup(data, serialize)
  }

  /**
   * The three ways `insert_batch` can end: it returns 1 after issuing the
   * statement, returns -1 for an empty batch, or stops the script with `die`
   * when an entry's keys do not fit the column list.
   */
  datatype BatchOutcome = Inserted(sql: string) | EmptyBatch | BadInput

  /** What `insert_batch` returns to its caller; `die` returns nothing. */
  function ReturnCode(o: BatchOutcome): Option<int> {
    match o
    case Inserted(_) => Some(1)
    case EmptyBatch => Some(-1)
    case BadInput => None
  }

  /**
   * The sanity check `$fields[$sanity_idx] != $key`: within the column list
   * the names must be equal; past its end PHP reads NULL, which compares
   * equal only to the empty key.
   */
  predicate KeyFits(fields: seq<string>, idx: nat, key: string) {
    if idx < |fields| then fields[idx] == key else key == ""
  }

  /** Every key of `entry` fits the column list at its own position. */
  predicate Conforms(fields: seq<string>, entry: Row) {
    forall j :: 0 <= j < |entry| ==> KeyFits(fields, j, entry[j].0)
  }

  /** The inner loop of `insert_batch`: walks one entry's keys from position `idx`. */
  function EntryFits(fields: seq<string>, entry: Row, idx: nat): (ok: bool)
    requires idx <= |entry|
    ensures ok <==> forall j :: idx <= j < |entry| ==> KeyFits(fields, j, entry[j].0)
    decreases |entry| - idx
  {
    idx == |entry| || (KeyFits(fields, idx, entry[idx].0) && EntryFits(fields, entry, idx + 1))
  }

  /** The outer loop of `insert_batch`: walks the entries from index `k`. */
  function EntriesFit(fields: seq<string>, entries: seq<Row>, k: nat): (ok: bool)
    requires k <= |entries|
    ensures ok <==> forall i :: k <= i < |entries| ==> Conforms(fields, entries[i])
    decreases |entries| - k
  {
    k == |entries| || (EntryFits(fields, entries[k], 0) && EntriesFit(fields, entries, k + 1))
  }

  function Groups(entries: seq<Row>, serialize: Serializer): seq<string> {
    seq(|entries|, i requires 0 <= i < |entries| => ValueGroup(entries[i], serialize))
  }

  /**
   * `LazyDB::insert_batch`. The column list comes from entry 0; every entry
   * must conform to it, else the call dies; the groups are followed by one
   * space and the raw suffix.
   */
  function InsertBatch(table: string, entries: seq<Row>, suffix: string, serialize: Serializer): (o: BatchOutcome)
    ensures o.EmptyBatch? <==> entries == []
    ensures o.BadInput? <==>
      entries != [] && exists i :: 0 <= i < |entries| && !Conforms(Columns(entries[0]), entries[i])
    ensures o.Inserted? <==>
      entries != [] && forall i :: 0 <= i < |entries| ==> Conforms(Columns(entries[0]), entries[i])
  {
    if |entries| == 0 then EmptyBatch
    else
      var fields := Columns(entries[0]);
      if !EntriesFit(fields, entries, 0) then BadInput
      else
        Inserted("INSERT INTO `" + table + "` " + ColumnList(fields) + " VALUES "
                 + Join(",", Groups(entries, serialize)) + " " + suffix)
  }

  /** Entry 0 always passes the check against its own keys. */
  lemma FirstEntryConforms(entry: Row)
    ensures Conforms(Columns(entry), entry)
  {
  }

  /**
   * For an entry no longer than the column list, passing the check means
   * exactly that its keys are a positional prefix of the columns: shorter
   * entries are let through.
   */
  lemma ConformsIffPrefix(fields: seq<string>, entry: Row)
    requires |entry| <= |fields|
    ensures Conforms(fields, entry) <==> Columns(entry) == fields[..|entry|]
  {
  }

  /** An entry that names a different column than entry 0 at some position aborts the batch. */
  lemma MismatchAborts(table: string, entries: seq<Row>, suffix: string, serialize: Serializer, i: nat, j: nat)
    requires i < |entries| && j < |entries[i]| && j < |entries[0]|
    requires entries[i][j].0 != entries[0][j].0
    ensures InsertBatch(table, entries, suffix, serialize) == BadInput
    ensures ReturnCode(InsertBatch(table, entries, suffix, serialize)) == None
  {
  }

  /**
   * `insert_batch` returns -1 exactly for an empty batch and 1 whenever it
   * returns at all otherwise; it never returns 0.
   */
  lemma BatchReturnCodes(table: string, entries: seq<Row>, suffix: string, serialize: Serializer)
    ensures ReturnCode(InsertBatch(table, entries, suffix, serialize)) == Some(-1) <==> entries == []
    ensures ReturnCode(InsertBatch(table, entries, suffix, serialize)) != Some(0)
    ensures ReturnCode(InsertBatch(table, entries, suffix, serialize)) == Some(1) <==>
      entries != [] && forall i :: 0 <= i < |entries| ==> Conforms(Columns(entries[0]), entries[i])
  {
  }

  /** A batch of one row is the single-row INSERT followed by a space and the suffix. */
  lemma SingleRowBatchIsInsert(table: string, row: Row, suffix: string, serialize: Serializer)
    ensures InsertBatch(table, [row], suffix, serialize) == Inserted(Insert(table, row, serialize) + " " + suffix)
  {
  }

  /** With no columns, `insert` still emits a statement with one empty column name and no values. */
  lemma EmptyRowInsert(table: string, serialize: Serializer)
    ensures Insert(table, [], serialize) == "INSERT INTO `" + table + "` (``) VALUES ()"
  {
  }

  /** With an empty where-clause the UPDATE has no WHERE at all and ends in a space. */
  lemma UpdateWithoutWhere(table: string, data: Row, serialize: Serializer)
    ensures Update(table, data, "", serialize) == "UPDATE `" + table + "` SET " + Join(",", Assignments(data, serialize)) + " "
  {
  }
}
