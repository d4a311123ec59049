/**
 * Reading the builder's statements back the way the server tokenises them,
 * and the round trips that say what each statement means: which table,
 * which columns in which order, which values, which where-clause.
 */
module Readback {
  import opened Text
  import opened Lexer
  import opened Encoder
  import opened Builder

  /** An INSERT as read: table, column names, one list of literal texts per VALUES group, and what follows. */
  datatype InsertStatement = InsertStatement(table: string, columns: seq<string>, rows: seq<seq<string>>, tail: string)

  /** An UPDATE as read: table, (column, literal text) pairs in order, and the where-clause ("" if none). */
  datatype UpdateStatement = UpdateStatement(table: string, assignments: seq<(string, string)>, where: string)

  /** Reads `` `a`,`b`,... ``. */
  function ReadNames(s: string): (o: Option<(seq<string>, string)>)
    ensures o.Some? ==> |o.value.1| < |s|
    decreases |s|
  {
    match ReadIdent(s)
    case None => None
    case Some((name, rest)) =>
      if StartsWith(rest, ',') then
        match ReadNames(rest[1..])
        case None => None
        case Some((names, rest')) => Some(([name] + names, rest'))
      else Some(([name], rest))
  }

  /** Reads `'a','b',...`. */
  function ReadLiterals(s: string): (o: Option<(seq<string>, string)>)
    ensures o.Some? ==> |o.value.1| < |s|
    decreases |s|
  {
    match ReadLiteral(s)
    case None => None
    case Some((text, rest)) =>
      if StartsWith(rest, ',') then
        match ReadLiterals(rest[1..])
        case None => None
        case Some((texts, rest')) => Some(([text] + texts, rest'))
      else Some(([text], rest))
  }

  /** Reads one VALUES group `(...)`, possibly empty. */
  function ReadGroup(s: string): (o: Option<(seq<string>, string)>)
    ensures o.Some? ==> |o.value.1| < |s|
  {
    if !StartsWith(s, '(') then None
    else if StartsWith(s[1..], ')') then Some(([], s[2..]))
    else
      match ReadLiterals(s[1..])
      case None => None
      case Some((texts, rest)) =>
        if StartsWith(rest, ')') then Some((texts, rest[1..])) else None
  }

  /** Reads `(...),(...),...`. */
  function ReadGroups(s: string): (o: Option<(seq<seq<string>>, string)>)
    ensures o.Some? ==> |o.value.1| < |s|
    decreases |s|
  {
    match ReadGroup(s)
    case None => None
    case Some((group, rest)) =>
      if StartsWith(rest, ',') then
        match ReadGroups(rest[1..])
        case None => None
        case Some((groups, rest')) => Some(([group] + groups, rest'))
      else Some(([group], rest))
  }

  /** Reads one `` `k` = 'v' ``. */
  function ReadAssignment(s: string): (o: Option<((string, string), string)>)
    ensures o.Some? ==> |o.value.1| < |s|
  {
    match ReadIdent(s)
    case None => None
    case Some((key, r1)) =>
      match Expect(" = ", r1)
      case None => None
      case Some(r2) =>
        match ReadLiteral(r2)
        case None => None
        case Some((text, r3)) => Some(((key, text), r3))
  }

  /** Reads `` `k` = 'v',`k` = 'v',... ``. */
  function ReadAssignments(s: string): (o: Option<(seq<(string, string)>, string)>)
    ensures o.Some? ==> |o.value.1| < |s|
    decreases |s|
  {
    match ReadAssignment(s)
    case None => None
    case Some((pair, rest)) =>
      if StartsWith(rest, ',') then
        match ReadAssignments(rest[1..])
        case None => None
        case Some((pairs, rest')) => Some(([pair] + pairs, rest'))
      else Some(([pair], rest))
  }

  function ReadInsert(s: string): Option<InsertStatement> {
    var a :- Expect("INSERT INTO ", s);
    var t :- ReadIdent(a);
    var b :- Expect(" (", t.1);
    var c :- ReadNames(b);
    var d :- Expect(") VALUES ", c.1);
    var g :- ReadGroups(d);
    Some(InsertStatement(t.0, c.0, g.0, g.1))
  }

  function ReadUpdate(s: string): Option<UpdateStatement> {
    var a :- Expect("UPDATE ", s);
    var t :- ReadIdent(a);
    var b :- Expect(" SET ", t.1);
    var p :- if StartsWith(b, '`') then ReadAssignments(b) else Some(([], b));
    var c :- Expect(" ", p.1);
    if c == [] then Some(UpdateStatement(t.0, p.0, ""))
    else
      var w :- Expect(" WHERE ", c);
      Some(UpdateStatement(t.0, p.0, w))
  }

  /** No name contains a backtick, so none can close its quoting early. */
  predicate PlainNames(names: seq<string>) {
    forall i :: 0 <= i < |names| ==> '`' !in names[i]
  }

  /** No value is a raw expression, so every value is a quoted literal. */
  predicate Quotable(row: Row) {
    forall i :: 0 <= i < |row| ==> !row[i].1.Expr?
  }

  function Payloads(row: Row, serialize: Serializer): seq<string>
    requires Quotable(row)
  {
    seq(|row|, i requires 0 <= i < |row| => Payload(row[i].1, serialize))
  }

  function PayloadRows(entries: seq<Row>, serialize: Serializer): seq<seq<string>>
    requires forall i :: 0 <= i < |entries| ==> Quotable(entries[i])
  {
    seq(|entries|, i requires 0 <= i < |entries| => Payloads(entries[i], serialize))
  }

  function Pairs(data: Row, serialize: Serializer): seq<(string, string)>
    requires Quotable(data)
  {
    seq(|data|, i requires 0 <= i < |data| => (data[i].0, Payload(data[i].1, serialize)))
  }

  /** `lit` is read as one literal denoting `text`, whatever (quote-free) input follows it. */
  ghost predicate ReadsAs(lit: string, text: string) {
    && StartsWith(lit, '\'')
    && forall rest {:trigger ReadLiteral(lit + rest)} ::
         !StartsWith(rest, '\'') ==> ReadLiteral(lit + rest) == Some((text, rest))
  }

  /** `group` is read as one VALUES group holding `texts`, whatever input follows it. */
  ghost predicate GroupReadsAs(group: string, texts: seq<string>) {
    forall rest {:trigger ReadGroup(group + rest)} :: ReadGroup(group + rest) == Some((texts, rest))
  }

  /** `item` is read as one SET pair, whatever (quote-free) input follows it. */
  ghost predicate AssignmentReadsAs(item: string, pair: (string, string)) {
    && StartsWith(item, '`')
    && forall rest {:trigger ReadAssignment(item + rest)} ::
      !StartsWith(rest, '\'') ==> ReadAssignment(item + rest) == Some((pair, rest))
  }

  /** Every non-expression value is read back as its text. */
  lemma ValueReadsAs(v: Value, serialize: Serializer)
    requires !v.Expr?
    ensures ReadsAs(FieldValue(v, serialize), Payload(v, serialize))
  {
    forall rest | !StartsWith(rest, '\'')
      ensures ReadLiteral(FieldValue(v, serialize) + rest) == Some((Payload(v, serialize), rest))
    {
      FieldValueReadsBack(v, serialize, rest);
    }
  }

  /** The column list `implode("`,`", ...)` inside outer backticks reads back as the names, in order. */
  lemma {:induction false} NamesRoundTrip(names: seq<string>, rest: string)
    requires |names| > 0 && PlainNames(names)
    requires !StartsWith(rest, ',')
    ensures ReadNames("`" + Join("`,`", names) + "`" + rest) == Some((names, rest))
    decreases |names|
  {
    var n := names[0];
    if |names| == 1 {
      assert "`" + Join("`,`", names) + "`" + rest == "`" + n + "`" + rest;
      IdentRoundTrip(n, rest);
      assert names == [n];
    } else {
      var tail := names[1..];
      var inner := "`" + Join("`,`", tail) + "`" + rest;
      assert "`" + Join("`,`", names) + "`" + rest == "`" + n + "`" + ("," + inner);
      IdentRoundTrip(n, "," + inner);
      assert ("," + inner)[1..] == inner;
      assert PlainNames(tail) by {
        forall i | 0 <= i < |tail| ensures '`' !in tail[i] {
          assert tail[i] == names[i + 1];
        }
      }
      NamesRoundTrip(tail, rest);
      assert names == [n] + tail;
    }
  }

  /** Comma-joined literals read back as their texts, in order. */
  lemma {:induction false} LiteralListRoundTrip(lits: seq<string>, texts: seq<string>, rest: string)
    requires |lits| == |texts| > 0
    requires forall i :: 0 <= i < |lits| ==> ReadsAs(lits[i], texts[i])
    requires !StartsWith(rest, ',') && !StartsWith(rest, '\'')
    ensures ReadLiterals(Join(",", lits) + rest) == Some((texts, rest))
    decreases |lits|
  {
    assert ReadsAs(lits[0], texts[0]);
    if |lits| == 1 {
      assert Join(",", lits) + rest == lits[0] + rest;
      assert ReadLiteral(lits[0] + rest) == Some((texts[0], rest));
      assert texts == [texts[0]];
    } else {
      var inner := Join(",", lits[1..]) + rest;
      assert Join(",", lits) + rest == lits[0] + ("," + inner);
      assert ReadLiteral(lits[0] + ("," + inner)) == Some((texts[0], "," + inner));
      assert ("," + inner)[1..] == inner;
      LiteralListRoundTrip(lits[1..], texts[1..], rest);
      assert texts == [texts[0]] + texts[1..];
    }
  }

  /** Comma-joined VALUES groups read back as their rows' texts, in order. */
  lemma {:induction false} GroupListRoundTrip(groups: seq<string>, rows: seq<seq<string>>, rest: string)
    requires |groups| == |rows| > 0
    requires forall i :: 0 <= i < |groups| ==> GroupReadsAs(groups[i], rows[i])
    requires !StartsWith(rest, ',')
    ensures ReadGroups(Join(",", groups) + rest) == Some((rows, rest))
    decreases |groups|
  {
    assert GroupReadsAs(groups[0], rows[0]);
    if |groups| == 1 {
      assert Join(",", groups) + rest == groups[0] + rest;
      assert ReadGroup(groups[0] + rest) == Some((rows[0], rest));
      assert rows == [rows[0]];
    } else {
      var inner := Join(",", groups[1..]) + rest;
      assert Join(",", groups) + rest == groups[0] + ("," + inner);
      assert ReadGroup(groups[0] + ("," + inner)) == Some((rows[0], "," + inner));
      assert ("," + inner)[1..] == inner;
      GroupListRoundTrip(groups[1..], rows[1..], rest);
      assert rows == [rows[0]] + rows[1..];
    }
  }

  /** Comma-joined SET pairs read back as the pairs, in order. */
  lemma {:induction false} AssignmentListRoundTrip(items: seq<string>, pairs: seq<(string, string)>, rest: string)
    requires |items| == |pairs| > 0
    requires forall i :: 0 <= i < |items| ==> AssignmentReadsAs(items[i], pairs[i])
    requires !StartsWith(rest, ',') && !StartsWith(rest, '\'')
    ensures ReadAssignments(Join(",", items) + rest) == Some((pairs, rest))
    decreases |items|
  {
    assert AssignmentReadsAs(items[0], pairs[0]);
    if |items| == 1 {
      assert Join(",", items) + rest == items[0] + rest;
      assert ReadAssignment(items[0] + rest) == Some((pairs[0], rest));
      assert pairs == [pairs[0]];
    } else {
      var inner := Join(",", items[1..]) + rest;
      assert Join(",", items) + rest == items[0] + ("," + inner);
      assert ReadAssignment(items[0] + ("," + inner)) == Some((pairs[0], "," + inner));
      assert ("," + inner)[1..] == inner;
      AssignmentListRoundTrip(items[1..], pairs[1..], rest);
      assert pairs == [pairs[0]] + pairs[1..];
    }
  }

  /** A parenthesised, comma-joined list of literals (possibly empty) is read as one group. */
  lemma {:induction false} GroupRoundTrip(lits: seq<string>, texts: seq<string>, rest: string)
    requires |lits| == |texts|
    requires forall i :: 0 <= i < |lits| ==> ReadsAs(lits[i], texts[i])
    ensures ReadGroup("(" + Join(",", lits) + ")" + rest) == Some((texts, rest))
  {
    var body := Join(",", lits);
    var s := "(" + body + ")" + rest;
    assert s[1..] == body + (")" + rest);
    if |lits| == 0 {
      assert s[1..] == ")" + rest;
      assert s[2..] == rest;
    } else {
      assert ReadsAs(lits[0], texts[0]);
      assert StartsWith(body, '\'') by {
        if |lits| > 1 {
          assert body == lits[0] + ("," + Join(",", lits[1..]));
        }
      }
      LiteralListRoundTrip(lits, texts, ")" + rest);
      assert body + (")" + rest) == body + ")" + rest;
      assert (")" + rest)[1..] == rest;
    }
  }

  /** A row's VALUES group is read as the row's texts, in order. */
  lemma RowGroupReadsAs(row: Row, serialize: Serializer)
    requires Quotable(row)
    ensures GroupReadsAs(ValueGroup(row, serialize), Payloads(row, serialize))
  {
    var lits := Literals(row, serialize);
    var texts := Payloads(row, serialize);
    forall i | 0 <= i < |lits| ensures ReadsAs(lits[i], texts[i]) {
      ValueReadsAs(row[i].1, serialize);
    }
    forall rest ensures ReadGroup(ValueGroup(row, serialize) + rest) == Some((texts, rest)) {
      GroupRoundTrip(lits, texts, rest);
    }
  }

  lemma {:induction false} PairRoundTrip(key: string, lit: string, text: string, rest: string)
    requires '`' !in key && ReadsAs(lit, text)
    requires !StartsWith(rest, '\'')
    ensures ReadAssignment("`" + key + "` = " + lit + rest) == Some(((key, text), rest))
  {
    assert "`" + key + "` = " + lit + rest == "`" + key + "`" + (" = " + (lit + rest));
    IdentRoundTrip(key, " = " + (lit + rest));
    ExpectPrefix(" = ", lit + rest);
    assert ReadLiteral(lit + rest) == Some((text, rest));
  }

  /** One SET pair of a plain column and a quoted value is read as (column, text). */
  lemma {:induction false} AssignmentPairReadsAs(key: string, v: Value, serialize: Serializer)
    requires '`' !in key && !v.Expr?
    ensures AssignmentReadsAs(Assignment(key, v, serialize), (key, Payload(v, serialize)))
  {
    assert Assignment(key, v, serialize)[0] == '`';
    var lit := FieldValue(v, serialize);
    var text := Payload(v, serialize);
    ValueReadsAs(v, serialize);
    forall rest | !StartsWith(rest, '\'')
      ensures ReadAssignment(Assignment(key, v, serialize) + rest) == Some(((key, text), rest))
    {
      PairRoundTrip(key, lit, text, rest);
    }
  }

  /**
   * The column names a reader sees in `` (`...`) ``: an empty list is
   * printed as `` (``) ``, which names one column with the empty name.
   */
  function NamesAsRead(names: seq<string>): seq<string> {
    if |names| == 0 then [""] else names
  }

  /** The text of an INSERT, with any column list and any groups, reads back piece by piece. */
  lemma {:induction false} InsertTextRoundTrip(table: string, names: seq<string>, groups: seq<string>, rows: seq<seq<string>>, tail: string)
    requires '`' !in table && PlainNames(names)
    requires |groups| == |rows| > 0
    requires forall i :: 0 <= i < |groups| ==> GroupReadsAs(groups[i], rows[i])
    requires !StartsWith(tail, ',')
    ensures ReadInsert("INSERT INTO `" + table + "` " + ColumnList(names) + " VALUES " + Join(",", groups) + tail)
      == Some(InsertStatement(table, NamesAsRead(names), rows, tail))
  {
    var e := Join(",", groups) + tail;
    var d := ") VALUES " + e;
    var c := "`" + Join("`,`", names) + "`" + d;
    var b := " (" + c;
    var a := "`" + table + "`" + b;
    assert "INSERT INTO `" + table + "` " + ColumnList(names) + " VALUES " + Join(",", groups) + tail
      == "INSERT INTO " + a;
    ExpectPrefix("INSERT INTO ", a);
    IdentRoundTrip(table, b);
    ExpectPrefix(" (", c);
    if |names| == 0 {
      assert Join("`,`", names) == Join("`,`", [""]);
    }
    NamesRoundTrip(NamesAsRead(names), d);
    ExpectPrefix(") VALUES ", e);
    GroupListRoundTrip(groups, rows, tail);
  }

  /** The text of an UPDATE reads back as its pairs and exactly the where-clause given, "" meaning none. */
  lemma {:induction false} UpdateTextRoundTrip(table: string, items: seq<string>, pairs: seq<(string, string)>, where: string)
    requires '`' !in table
    requires |items| == |pairs|
    requires forall i :: 0 <= i < |items| ==> AssignmentReadsAs(items[i], pairs[i])
    ensures ReadUpdate("UPDATE `" + table + "` SET " + Join(",", items) + " " + WhereClause(where))
      == Some(UpdateStatement(table, pairs, where))
  {
    var w := WhereClause(where);
    var body := Join(",", items);
    var c := body + (" " + w);
    var b := " SET " + c;
    var a := "`" + table + "`" + b;
    assert "UPDATE `" + table + "` SET " + body + " " + w == "UPDATE " + a;
    ExpectPrefix("UPDATE ", a);
    IdentRoundTrip(table, b);
    ExpectPrefix(" SET ", c);
    if |items| == 0 {
      assert c == " " + w;
      assert pairs == [];
    } else {
      assert AssignmentReadsAs(items[0], pairs[0]);
      assert StartsWith(c, '`') by {
        if |items| > 1 {
          assert body == items[0] + ("," + Join(",", items[1..]));
        }
      }
      AssignmentListRoundTrip(items, pairs, " " + w);
    }
    ExpectPrefix(" ", w);
    if where != "" {
      ExpectPrefix(" WHERE ", where);
    }
  }

  /**
   * `insert` names the table and the row's columns in the row's order, with
   * one VALUES group holding every value's text in the same order, and
   * nothing after it.
   */
  lemma InsertReadsBack(table: string, row: Row, serialize: Serializer)
    requires '`' !in table && PlainNames(Columns(row)) && Quotable(row)
    ensures ReadInsert(Insert(table, row, serialize))
      == Some(InsertStatement(table, NamesAsRead(Columns(row)), [Payloads(row, serialize)], ""))
  {
    var g := ValueGroup(row, serialize);
    RowGroupReadsAs(row, serialize);
    assert Insert(table, row, serialize)
      == "INSERT INTO `" + table + "` " + ColumnList(Columns(row)) + " VALUES " + Join(",", [g]) + "";
    InsertTextRoundTrip(table, Columns(row), [g], [Payloads(row, serialize)], "");
  }

  /**
   * A successful `insert_batch` names the columns of entry 0, then one
   * VALUES group per entry in order, each holding that entry's texts in key
   * order (a prefix entry gives a shorter group), then a space and the
   * suffix verbatim.
   */
  lemma InsertBatchReadsBack(table: string, entries: seq<Row>, suffix: string, serialize: Serializer)
    requires InsertBatch(table, entries, suffix, serialize).Inserted?
    requires '`' !in table && PlainNames(Columns(entries[0]))
    requires forall i :: 0 <= i < |entries| ==> Quotable(entries[i])
    ensures ReadInsert(InsertBatch(table, entries, suffix, serialize).sql)
      == Some(InsertStatement(table, NamesAsRead(Columns(entries[0])), PayloadRows(entries, serialize), " " + suffix))
  {
    var groups := Groups(entries, serialize);
    var rows := PayloadRows(entries, serialize);
    forall i | 0 <= i < |groups| ensures GroupReadsAs(groups[i], rows[i]) {
      RowGroupReadsAs(entries[i], serialize);
    }
    var head := "INSERT INTO `" + table + "` " + ColumnList(Columns(entries[0])) + " VALUES " + Join(",", groups);
    assert InsertBatch(table, entries, suffix, serialize).sql == head + " " + suffix == head + (" " + suffix);
    InsertTextRoundTrip(table, Columns(entries[0]), groups, rows, " " + suffix);
  }

  /**
   * `update` names the table and sets each column of the row, in order, to
   * that value's text; the statement carries exactly the where-clause given,
   * and none at all when it is empty.
   */
  lemma UpdateReadsBack(table: string, data: Row, where: string, serialize: Serializer)
    requires '`' !in table && PlainNames(Columns(data)) && Quotable(data)
    ensures ReadUpdate(Update(table, data, where, serialize))
      == Some(UpdateStatement(table, Pairs(data, serialize), where))
  {
    var items := Assignments(data, serialize);
    var pairs := Pairs(data, serialize);
    forall i | 0 <= i < |items| ensures AssignmentReadsAs(items[i], pairs[i]) {
      assert '`' !in Columns(data)[i];
      AssignmentPairReadsAs(data[i].0, data[i].1, serialize);
    }
    UpdateTextRoundTrip(table, items, pairs, where);
  }
}
