/**
  Quote-on-demand field escaping in the style of section 2, rules 5 to 7, of
  RFC 4180, and the reader of a single field that undoes it.
 */
module Escape {
  import opened Wrappers

  /** `s.includes(sub)`: `sub` occurs somewhere in `s` (the empty string occurs everywhere). */
  predicate Contains(s: string, sub: string)
    decreases |s|
  {
    sub <= s || (0 < |s| && Contains(s[1..], sub))
  }

  /** Searching for a one-character string is membership of that character. */
  lemma {:induction false} ContainsChar(s: string, c: char)
    ensures Contains(s, [c]) <==> c in s
    decreases |s|
  {
    if 0 < |s| {
      ContainsChar(s[1..], c);
      assert c in s <==> s[0] == c || c in s[1..];
    }
  }

  /** The field holds the delimiter, a line feed, a carriage return or a double quote. */
  predicate NeedsQuoting(value: string, delimiter: string) {
    || Contains(value, delimiter)
    || Contains(value, "\n")
    || Contains(value, "\r")
    || Contains(value, "\"")
  }

  /** With a one-character delimiter, quoting depends only on which characters the field holds. */
  lemma NeedsQuotingChars(value: string, c: char)
    ensures NeedsQuoting(value, [c]) <==> c in value || '\n' in value || '\r' in value || '"' in value
  {
    ContainsChar(value, c);
    ContainsChar(value, '\n');
    ContainsChar(value, '\r');
    ContainsChar(value, '"');
  }

  /** Number of occurrences of `c` in `s`. */
  function Occurrences(s: string, c: char): nat
    decreases |s|
  {
    if |s| == 0 then 0 else (if s[0] == c then 1 else 0) + Occurrences(s[1..], c)
  }

  /**
    Reads the body of a quoted field: every `""` stands for one `"`, and a lone
    `"` cannot appear inside the quotes.
   */
  function CollapseQuotes(s: string): Option<string>
    decreases |s|
  {
    if |s| == 0 then Some("")
    else if s[0] != '"' then
      match CollapseQuotes(s[1..])
      case Some(t) => Some([s[0]] + t)
      case None => None
    else if 2 <= |s| && s[1] == '"' then
      match CollapseQuotes(s[2..])
      case Some(t) => Some("\"" + t)
      case None => None
    else None
  }

  /** `s.replace(/"/g, '""')`. */
  function DoubleQuotes(s: string): (r: string)
    ensures CollapseQuotes(r) == Some(s)
    ensures |r| == |s| + Occurrences(s, '"')
    ensures forall c :: c != '"' ==> (c in r <==> c in s)
    decreases |s|
  {
    if |s| == 0 then ""
    else
      var rest := DoubleQuotes(s[1..]);
      var r := (if s[0] == '"' then "\"\"" else [s[0]]) + rest;
      assert s == [s[0]] + s[1..];
      if s[0] == '"' then
        assert r[2..] == rest;
        r
      else
        assert r[1..] == rest;
        r
  }

  /**
    `escapeCSVField`: a field that needs quoting is wrapped in double quotes
    with its inner quotes doubled; any other field is returned unchanged.
   */
  function EscapeField(value: string, delimiter: string): (r: string)
    ensures !NeedsQuoting(value, delimiter) ==> r == value
    ensures NeedsQuoting(value, delimiter) ==>
              && 2 <= |r| && r[0] == '"' && r[|r| - 1] == '"'
              && CollapseQuotes(r[1..|r| - 1]) == Some(value)
              && |r| == |value| + 2 + Occurrences(value, '"')
  {
    if NeedsQuoting(value, delimiter) then
      var body := DoubleQuotes(value);
      var r := "\"" + body + "\"";
      assert r[1..|r| - 1] == body;
      r
    else value
  }

  /**
    Reads one field as RFC 4180 section 2 writes it: a field enclosed in
    double quotes is read through `CollapseQuotes`; an unenclosed field must not
    contain a double quote and is read as it stands.
   */
  function ReadField(f: string): Option<string> {
    if 2 <= |f| && f[0] == '"' && f[|f| - 1] == '"' then CollapseQuotes(f[1..|f| - 1])
    else if '"' in f then None
    else Some(f)
  }

  /** Escaping loses nothing: reading an escaped field gives back the original text. */
  lemma EscapeRoundTrip(value: string, delimiter: string)
    ensures ReadField(EscapeField(value, delimiter)) == Some(value)
  {
    if !NeedsQuoting(value, delimiter) {
      ContainsChar(value, '"');
    }
  }

  /** Two distinct field texts never escape to the same output under one delimiter. */
  lemma EscapeInjective(a: string, b: string, delimiter: string)
    requires EscapeField(a, delimiter) == EscapeField(b, delimiter)
    ensures a == b
  {
    EscapeRoundTrip(a, delimiter);
    EscapeRoundTrip(b, delimiter);
  }

  /** A field left unquoted contains none of the characters that would break the line structure. */
  lemma UnquotedFieldIsPlain(value: string, delimiter: string)
    requires EscapeField(value, delimiter) == value
    ensures '"' !in value && '\n' !in value && '\r' !in value
    ensures !Contains(value, delimiter)
  {
    ContainsChar(value, '"');
    ContainsChar(value, '\n');
    ContainsChar(value, '\r');
  }
}
