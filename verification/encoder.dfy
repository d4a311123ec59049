/**
 * The value encoder of `LazyDB`: `get_field_value`, which turns one row
 * value into the SQL text spliced into a statement, and the expression
 * wrapper built by `LazyDB::createExpression`.
 */
module Encoder {
  import opened Text
  import opened Slashes
  import Lexer

  /** The PHP values a row may hold, with the wrapper class as its own case. */
  datatype Value =
    | Expr(sql: string)               // a LazyDBExpressionType: raw SQL, never quoted
    | Arr(items: seq<(string, Value)>) // a PHP array, stored serialized
    | Str(s: string)
    | Int(i: int)
    | Bool(b: bool)
    | Null

  /** PHP's `serialize`, left uninterpreted: the model holds for any choice of it. */
  type Serializer = seq<(string, Value)> -> string

  /** `LazyDB::createExpression`: marks `sql` to be spliced into statements as it is. */
  function CreateExpression(sql: string): (v: Value)
    ensures forall serialize: Serializer :: FieldValue(v, serialize) == sql
  {
    Expr(sql)
  }

  /** Decimal digits of `n`, most significant first, as PHP prints integers. */
  function Digits(n: nat): (r: string)
    ensures |r| > 0
    ensures forall i :: 0 <= i < |r| ==> '0' <= r[i] <= '9'
    decreases n
  {
    if n < 10 then ["0123456789"[n]]
    else Digits(n / 10) + ["0123456789"[n % 10]]
  }

  /** PHP's string conversion of a scalar, as `addslashes` receives it. */
  function ScalarText(v: Value): string
    requires !v.Expr? && !v.Arr?
  {
    match v
    case Str(s) => s
    case Int(i) => if i < 0 then "-" + Digits(-i) else Digits(i)
    case Bool(b) => if b then "1" else ""
    case Null => ""
  }

  /** The text a quoted value stands for: the serialized form of an array, the string form of a scalar. */
  function Payload(v: Value, serialize: Serializer): string
    requires !v.Expr?
  {
    if v.Arr? then serialize(v.items) else ScalarText(v)
  }

  function Quote(t: string): string {
    "'" + t + "'"
  }

  /**
   * `LazyDB::get_field_value`. An expression is emitted verbatim; anything
   * else becomes a single-quoted literal whose inside is escaped (no quote,
   * backslash or NUL stands alone in it) and un-escapes to the value's text.
   */
  function FieldValue(v: Value, serialize: Serializer): (r: string)
    ensures v.Expr? ==> r == v.sql
    ensures !v.Expr? ==>
      && |r| >= 2 && r[0] == '\'' && r[|r| - 1] == '\''
      && Escaped(r[1..|r| - 1])
      && StripSlashes(r[1..|r| - 1]) == Payload(v, serialize)
  {
    match v
    case Expr(sql) => sql
    case Arr(items) =>
      var body := AddSlashes(serialize(items));
      assert Quote(body)[1..|Quote(body)| - 1] == body;
      Quote(body)
    case _ =>
      var body := AddSlashes(ScalarText(v));
      assert Quote(body)[1..|Quote(body)| - 1] == body;
      Quote(body)
  }

  /** An array is encoded exactly as the string its serialization produces. */
  lemma ArrayEncodedAsSerializedText(items: seq<(string, Value)>, serialize: Serializer)
    ensures FieldValue(Arr(items), serialize) == FieldValue(Str(serialize(items)), serialize)
    ensures FieldValue(Arr(items), serialize) == Quote(AddSlashes(serialize(items)))
  {
  }

  /** Integers need no escaping: they are emitted as their quoted decimal form. */
  lemma IntegerNeedsNoEscaping(i: int, serialize: Serializer)
    ensures FieldValue(Int(i), serialize) == Quote(ScalarText(Int(i)))
  {
    var t := ScalarText(Int(i));
    assert forall k :: 0 <= k < |t| ==> !IsSpecial(t[k]);
    AddSlashesPlain(t);
  }

  /**
   * The server reads every non-expression value back as exactly its text:
   * the literal opens at the first character and closes at the last, so the
   * input after it is untouched (provided that input does not begin with a
   * quote, which never happens in the builder's statements).
   */
  lemma FieldValueReadsBack(v: Value, serialize: Serializer, rest: string)
    requires !v.Expr?
    requires !StartsWith(rest, '\'')
    ensures Lexer.ReadLiteral(FieldValue(v, serialize) + rest) == Some((Payload(v, serialize), rest))
  {
    var x := Payload(v, serialize);
    assert FieldValue(v, serialize) == "'" + AddSlashes(x) + "'";
    Lexer.LiteralRoundTrip(x, rest);
  }

  /**
   * An apostrophe inside otherwise plain text (as in `o'connell`) gets one
   * backslash and nothing else changes, so it cannot close the literal.
   */
  lemma {:induction false} ApostropheEscaped(a: string, b: string, serialize: Serializer)
    requires forall k :: 0 <= k < |a| ==> !IsSpecial(a[k])
    requires forall k :: 0 <= k < |b| ==> !IsSpecial(b[k])
    ensures FieldValue(Str(a + "'" + b), serialize) == "'" + a + "\\'" + b + "'"
  {
    var x := a + "'" + b;
    Slashes.SlashBeforeApostrophe(a, b);
    assert FieldValue(Str(x), serialize) == Quote(AddSlashes(x));
  }
}
