/** Characters and text shared by the query tokenizer and the JSON reader. */
module Texts {

  /** `char::is_ascii_whitespace`. */
  predicate IsSpace(c: char) {
    c == ' ' || c == '\t' || c == '\n' || c == '\r' || c == '\U{0C}'
  }

  /** The length of the longest prefix of accepted characters. */
  function Span(ok: char -> bool, s: string): (n: nat)
    ensures n <= |s| && (n < |s| ==> !ok(s[n])) && forall i | 0 <= i < n :: ok(s[i])
  {
    if s == "" || !ok(s[0]) then 0 else 1 + Span(ok, s[1..])
  }

  lemma {:induction false} SpanIs(ok: char -> bool, s: string, n: nat)
    requires n <= |s| && (n < |s| ==> !ok(s[n])) && forall i | 0 <= i < n :: ok(s[i])
    ensures Span(ok, s) == n
  {
  }

  lemma {:induction false} SpanFront(ok: char -> bool, s: string, rest: string)
    requires (rest == "" || !ok(rest[0])) && forall i | 0 <= i < |s| :: ok(s[i])
    ensures Span(ok, s + rest) == |s|
  {
    SpanIs(ok, s + rest, |s|);
  }

  lemma {:induction false} SpanBefore(ok: char -> bool, s: string, rest: string)
    requires rest == "" || !ok(rest[0])
    ensures Span(ok, s + rest) == Span(ok, s)
  {
    SpanIs(ok, s + rest, Span(ok, s));
  }

  lemma {:induction false} Shift(s: string, start: nat, i: nat)
    requires start <= i <= |s|
    ensures s[start..][..i - start] == s[start..i] && s[start..][i - start..] == s[i..]
  {
  }

  /** Advance while the characters are accepted. */
  method ScanWhile(ok: char -> bool, s: string, start: nat) returns (i: nat)
    requires start <= |s|
    ensures i == start + Span(ok, s[start..]) && i <= |s|
  {
    i := start;
    while i < |s| && ok(s[i])
      invariant start <= i <= |s| && forall j | start <= j < i :: ok(s[j])
    {
      i := i + 1;
    }
    SpanIs(ok, s[start..], i - start);
  }

  /** Quotes and backslashes behind a backslash, everything else as it is. */
  function Escape(s: string): string {
    if s == "" then ""
    else (if s[0] == '"' || s[0] == '\\' then ['\\', s[0]] else [s[0]]) + Escape(s[1..])
  }

  function Quote(s: string): string {
    "\"" + Escape(s) + "\""
  }
}
