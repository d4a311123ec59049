/**
 * How a MySQL server reads the two kinds of quoted token the builder emits:
 * single-quoted string literals and backtick-quoted identifiers. This is the
 * reading side against which the encoder's output is checked; the escape
 * table follows the "String Literals" section of the MySQL Reference Manual
 * (with NO_BACKSLASH_ESCAPES off).
 */
module Lexer {
  import opened Text
  import opened Slashes

  /** What the two characters `\c` stand for inside a string literal. */
  function EscapeMeaning(c: char): string {
    if c == '0' then "\0"
    else if c == 'n' then "\n"
    else if c == 'r' then "\r"
    else if c == 't' then "\t"
    else if c == 'b' then "\U{8}"
    else if c == 'Z' then "\U{1A}"
    else if c == '%' || c == '_' then ['\\', c]
    else [c]
  }

  /**
   * Reads the inside of a string literal whose opening quote is already
   * consumed. Returns the characters the literal denotes and the input after
   * the closing quote; a doubled quote `''` stands for one quote.
   */
  function LiteralBody(s: string): (o: Option<(string, string)>)
    ensures o.Some? ==> |o.value.1| < |s|
    decreases |s|
  {
    if s == [] then None
    else if s[0] == '\\' then
      if |s| == 1 then None
      else match LiteralBody(s[2..])
        case None => None
        case Some((body, rest)) => Some((EscapeMeaning(s[1]) + body, rest))
    else if s[0] == '\'' then
      if StartsWith(s[1..], '\'') then
        match LiteralBody(s[2..])
        case None => None
        case Some((body, rest)) => Some(("'" + body, rest))
      else Some(([], s[1..]))
    else
      match LiteralBody(s[1..])
      case None => None
      case Some((body, rest)) => Some(([s[0]] + body, rest))
  }

  /** Reads one single-quoted string literal from the front of `s`. */
  function ReadLiteral(s: string): (o: Option<(string, string)>)
    ensures o.Some? ==> |o.value.1| < |s|
  {
    if StartsWith(s, '\'') then LiteralBody(s[1..]) else None
  }

  /** Reads one backtick-quoted identifier from the front of `s`, up to the next backtick. */
  function ReadIdent(s: string): (o: Option<(string, string)>)
    ensures o.Some? ==> |o.value.1| < |s|
  {
    if StartsWith(s, '`') then IdentBody(s[1..]) else None
  }

  function IdentBody(s: string): (o: Option<(string, string)>)
    ensures o.Some? ==> |o.value.1| < |s|
    decreases |s|
  {
    if s == [] then None
    else if s[0] == '`' then Some(([], s[1..]))
    else
      match IdentBody(s[1..])
      case None => None
      case Some((name, rest)) => Some(([s[0]] + name, rest))
  }

  /** One escaped character is read back as that character, whatever follows it. */
  lemma EscapeCharReadsBack(c: char, t: string)
    ensures LiteralBody(EscapeChar(c) + t) ==
      match LiteralBody(t)
      case None => None
      case Some((body, rest)) => Some(([c] + body, rest))
  {
  }

  /**
   * The body `addslashes` produces, followed by a closing quote, is read back
   * as exactly the original text, and the literal ends at that closing quote:
   * nothing inside it can end the literal early. The only demand on what
   * follows is that it does not begin with another quote (which would make a
   * doubled `''`).
   */
  lemma {:induction false} LiteralBodyRoundTrip(x: string, rest: string)
    requires !StartsWith(rest, '\'')
    ensures LiteralBody(AddSlashes(x) + "'" + rest) == Some((x, rest))
    decreases |x|
  {
    if x == [] {
      assert AddSlashes(x) + "'" + rest == "'" + rest;
      assert ("'" + rest)[1..] == rest;
    } else {
      var t := AddSlashes(x[1..]) + "'" + rest;
      assert AddSlashes(x) == EscapeChar(x[0]) + AddSlashes(x[1..]);
      assert AddSlashes(x) + "'" + rest == EscapeChar(x[0]) + t;
      LiteralBodyRoundTrip(x[1..], rest);
      EscapeCharReadsBack(x[0], t);
      assert x == [x[0]] + x[1..];
    }
  }

  /** A quoted `addslashes` literal reads back as its text, with the rest of the input untouched. */
  lemma LiteralRoundTrip(x: string, rest: string)
    requires !StartsWith(rest, '\'')
    ensures ReadLiteral("'" + AddSlashes(x) + "'" + rest) == Some((x, rest))
  {
    var body := AddSlashes(x);
    var s := "'" + body + "'" + rest;
    assert s == "'" + (body + "'" + rest);
    assert s[1..] == body + "'" + rest;
    LiteralBodyRoundTrip(x, rest);
    assert ReadLiteral(s) == LiteralBody(s[1..]);
  }

  /** A backtick-quoted name with no backtick inside reads back as that name. */
  lemma {:induction false} IdentRoundTrip(name: string, rest: string)
    requires '`' !in name
    ensures ReadIdent("`" + name + "`" + rest) == Some((name, rest))
    decreases |name|
  {
    var s := "`" + name + "`" + rest;
    assert s[1..] == name + "`" + rest;
    IdentBodyRoundTrip(name, rest);
  }

  lemma {:induction false} IdentBodyRoundTrip(name: string, rest: string)
    requires '`' !in name
    ensures IdentBody(name + "`" + rest) == Some((name, rest))
    decreases |name|
  {
    var s := name + "`" + rest;
    if name == [] {
      assert s == "`" + rest;
      assert s[1..] == rest;
    } else {
      assert s[0] == name[0];
      assert s[1..] == name[1..] + "`" + rest;
      assert '`' !in name[1..] by {
        forall i | 0 <= i < |name[1..]| ensures name[1..][i] != '`' {
          assert name[1..][i] == name[i + 1];
        }
      }
      IdentBodyRoundTrip(name[1..], rest);
      assert name == [name[0]] + name[1..];
    }
  }
}
