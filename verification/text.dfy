/** Small sequence helpers shared by the statement builder and the statement reader. */
module Text {

  /** An optional value; failure-compatible, so readers can be chained with `:-`. */
  datatype Option<+T> = None | Some(value: T) {
    predicate IsFailure() { None? }

    function PropagateFailure<U>(): Option<U>
      requires None?
    {
      None
    }

    function Extract(): T
      requires Some?
    {
      value
    }
  }

  predicate StartsWith(s: string, c: char) {
    |s| > 0 && s[0] == c
  }

  /** PHP's `implode(sep, parts)`: the parts in order, `sep` between neighbours. */
  function Join(sep: string, parts: seq<string>): string
    decreases |parts|
  {
    if |parts| == 0 then ""
    else if |parts| == 1 then parts[0]
    else parts[0] + sep + Join(sep, parts[1..])
  }

  /** Consumes `prefix` from the front of `s`, if it is there. */
  function Expect(prefix: string, s: string): (rest: Option<string>)
    ensures rest.Some? <==> prefix <= s
    ensures rest.Some? ==> s == prefix + rest.value
  {
    if |prefix| <= |s| && s[..|prefix|] == prefix then Some(s[|prefix|..]) else None
  }

  lemma ExpectPrefix(prefix: string, rest: string)
    ensures Expect(prefix, prefix + rest) == Some(rest)
  {
  }
}
