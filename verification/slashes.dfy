/**
 * PHP's `addslashes`, which `LazyDB::add_slashes` calls unconditionally, and
 * its inverse `stripslashes`, used only to show that no information is lost.
 */
module Slashes {

  /** The four characters `addslashes` escapes; nothing else is touched. */
  predicate IsSpecial(c: char) {
    c == '\'' || c == '"' || c == '\\' || c == '\0'
  }

  /** One input character as `addslashes` writes it: NUL becomes the two characters `\0`. */
  function EscapeChar(c: char): string {
    if c == '\0' then "\\0"
    else if IsSpecial(c) then ['\\', c]
    else [c]
  }

  /**
   * `t` splits, left to right, into escape pairs (a backslash and the
   * character after it) and single characters that are not special: no
   * quote, double quote, backslash or NUL stands on its own.
   */
  predicate Escaped(t: string)
    decreases |t|
  {
    if t == [] then true
    else if t[0] == '\\' then |t| >= 2 && Escaped(t[2..])
    else !IsSpecial(t[0]) && Escaped(t[1..])
  }

  /** PHP's `stripslashes`: `\0` gives NUL, `\x` gives `x`, a trailing lone backslash is dropped. */
  function StripSlashes(t: string): string
    decreases |t|
  {
    if t == [] then []
    else if t[0] == '\\' then
      if |t| == 1 then []
      else (if t[1] == '0' then ['\0'] else [t[1]]) + StripSlashes(t[2..])
    else [t[0]] + StripSlashes(t[1..])
  }

  /** PHP's `addslashes`. */
  function AddSlashes(s: string): (r: string)
    ensures Escaped(r)
    ensures StripSlashes(r) == s
    decreases |s|
  {
    if s == [] then []
    else
      var head := EscapeChar(s[0]);
      var tail := AddSlashes(s[1..]);
      assert s == [s[0]] + s[1..];
      assert (head + tail)[|head|..] == tail;
      head + tail
  }

  /** Escaping distributes over concatenation: each character is escaped on its own. */
  lemma {:induction false} AddSlashesAppend(a: string, b: string)
    ensures AddSlashes(a + b) == AddSlashes(a) + AddSlashes(b)
    decreases |a|
  {
    if a == [] {
      assert a + b == b;
    } else {
      assert (a + b)[0] == a[0];
      assert (a + b)[1..] == a[1..] + b;
      AddSlashesAppend(a[1..], b);
    }
  }

  /** Text with none of the four special characters is left as it is. */
  lemma {:induction false} AddSlashesPlain(s: string)
    requires forall i :: 0 <= i < |s| ==> !IsSpecial(s[i])
    ensures AddSlashes(s) == s
    decreases |s|
  {
    if s != [] {
      AddSlashesPlain(s[1..]);
      assert s == [s[0]] + s[1..];
    }
  }

  lemma QuoteEscaped()
    ensures AddSlashes("'") == "\\'"
  {
  }

  /** Plain text in front passes through unchanged, ahead of whatever the rest becomes. */
  lemma {:induction false} PlainPrefix(a: string, c: string)
    requires forall k :: 0 <= k < |a| ==> !IsSpecial(a[k])
    ensures AddSlashes(a + c) == a + AddSlashes(c)
  {
    AddSlashesPlain(a);
    AddSlashesAppend(a, c);
  }

  lemma {:induction false} QuoteThenPlain(b: string)
    requires forall k :: 0 <= k < |b| ==> !IsSpecial(b[k])
    ensures AddSlashes("'" + b) == "\\'" + b
  {
    QuoteEscaped();
    AddSlashesPlain(b);
    AddSlashesAppend("'", b);
  }

  /** Between plain text, an apostrophe gains one backslash and nothing else changes. */
  lemma {:induction false} SlashBeforeApostrophe(a: string, b: string)
    requires forall k :: 0 <= k < |a| ==> !IsSpecial(a[k])
    requires forall k :: 0 <= k < |b| ==> !IsSpecial(b[k])
    ensures AddSlashes(a + "'" + b) == a + "\\'" + b
  {
    QuoteThenPlain(b);
    PlainPrefix(a, "'" + b);
    assert a + "'" + b == a + ("'" + b);
    assert a + "\\'" + b == a + ("\\'" + b);
  }
}
