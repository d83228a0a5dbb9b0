/** The query tokenizer. Parsing a float is left to the library and passed in as `pf`. */
module Lexer {
  import opened ByteStrings
  import opened Numbers
  import opened Texts

  datatype Tok =
    | Ident(name: string)
    | Text(text: string)
    | Integer(n: i64)
    | Real(bits: u64)
    | Op(op: string)
    | LParen
    | RParen

  datatype ParseError = Syntax

  predicate IsLetter(c: char) {
    'a' <= c <= 'z' || 'A' <= c <= 'Z'
  }

  predicate IdentStart(c: char) {
    IsLetter(c) || c == '_' || c == '*' || c == '?'
  }

  predicate IdentChar(c: char) {
    IdentStart(c) || IsDigit(c) || c == '.' || c == '-'
  }

  predicate PathChar(c: char) {
    !IsSpace(c) && c != '(' && c != ')'
  }

  predicate OpStart(c: char) {
    c == '=' || c == '!' || c == '<' || c == '>'
  }

  /** The rest of a quoted string; a backslash takes the next character as it is. */
  function Quoted(s: string, acc: string): (r: Result<(string, string), ParseError>)
    ensures r.Ok? ==> |r.value.1| < |s|
    decreases |s|
  {
    if s == "" then Err(Syntax)
    else if s[0] == '"' then Ok((acc, s[1..]))
    else if s[0] == '\\' && |s| > 1 then Quoted(s[2..], acc + [s[1]])
    else Quoted(s[1..], acc + [s[0]])
  }

  function Number(pf: FloatParser, s: string): (r: Result<(Tok, string), ParseError>)
    requires NumberStart(s)
    ensures r.Ok? ==> |r.value.1| < |s|
  {
    var (n, isReal) := NumberEnd(s);
    if isReal then
      match pf(s[..n])
      case None => Err(Syntax)
      case Some(bits) => Ok((Real(bits), s[n..]))
    else
      match ParseI64(s[..n])
      case None => Err(Syntax)
      case Some(k) => Ok((Integer(k), s[n..]))
  }

  function NextTok(pf: FloatParser, s: string): (r: Result<(Tok, string), ParseError>)
    requires s != "" && !IsSpace(s[0])
    ensures r.Ok? ==> |r.value.1| < |s|
  {
    var c := s[0];
    if c == '(' then Ok((LParen, s[1..]))
    else if c == ')' then Ok((RParen, s[1..]))
    else if c == '"' then
      var (text, rest) :- Quoted(s[1..], "");
      Ok((Text(text), rest))
    else if OpStart(c) then
      if |s| > 1 && s[1] == '=' then Ok((Op([c] + "="), s[2..])) else Ok((Op([c]), s[1..]))
    else if c == '/' then
      var n := Span(PathChar, s);
      Ok((Ident(s[..n]), s[n..]))
    else if c == '-' || IsDigit(c) then Number(pf, s)
    else if IdentStart(c) then
      var n := Span(IdentChar, s);
      Ok((Ident(s[..n]), s[n..]))
    else Err(Syntax)
  }

  function Tokenize(pf: FloatParser, s: string): Result<seq<Tok>, ParseError>
    decreases |s|
  {
    if s == "" then Ok([])
    else if IsSpace(s[0]) then Tokenize(pf, s[1..])
    else
      var (tok, rest) :- NextTok(pf, s);
      var toks :- Tokenize(pf, rest);
      Ok([tok] + toks)
  }

  // ----- writing tokens down -----

  predicate Writable(t: Tok) {
    match t
    case Ident(s) =>
      s != "" && (if s[0] == '/' then forall i | 0 <= i < |s| :: PathChar(s[i])
                  else IdentStart(s[0]) && forall i | 0 <= i < |s| :: IdentChar(s[i]))
    case Op(s) => 1 <= |s| <= 2 && OpStart(s[0]) && (|s| == 2 ==> s[1] == '=')
    case Real(_) => false
    case _ => true
  }

  function TokText(t: Tok): string {
    match t
    case Ident(s) => s
    case Text(s) => Quote(s)
    case Integer(n) => IntText(n)
    case Real(_) => ""
    case Op(s) => s
    case LParen => "("
    case RParen => ")"
  }

  /** Each token followed by a space. */
  function Spaced(toks: seq<Tok>): string {
    if toks == [] then "" else TokText(toks[0]) + (" " + Spaced(toks[1..]))
  }

  lemma {:induction false} QuotedBack(s: string, acc: string, rest: string)
    ensures Quoted(Escape(s) + ("\"" + rest), acc) == Ok((acc + s, rest))
    decreases |s|
  {
    var t := Escape(s) + ("\"" + rest);
    if s == "" {
      assert t[1..] == rest && acc + s == acc;
    } else {
      QuotedBack(s[1..], acc + [s[0]], rest);
      assert acc + [s[0]] + s[1..] == acc + s;
      var next := Escape(s[1..]) + ("\"" + rest);
      if s[0] == '"' || s[0] == '\\' {
        assert t == ['\\', s[0]] + next;
        assert t[2..] == next;
      } else {
        assert t == [s[0]] + next;
        assert t[1..] == next;
      }
    }
  }

  lemma {:induction false} TextFront(pf: FloatParser, s: string, rest: string)
    ensures NextTok(pf, Quote(s) + rest) == Ok((Text(s), rest))
  {
    var t := Quote(s) + rest;
    assert t[1..] == Escape(s) + ("\"" + rest);
    QuotedBack(s, "", rest);
    assert "" + s == s;
  }

  lemma {:induction false} IdentFront(pf: FloatParser, s: string, rest: string)
    requires Writable(Ident(s))
    ensures NextTok(pf, s + (" " + rest)) == Ok((Ident(s), " " + rest))
  {
    var t := s + (" " + rest);
    assert t[0] == s[0] && t[..|s|] == s && t[|s|..] == " " + rest;
    if s[0] == '/' {
      SpanFront(PathChar, s, " " + rest);
    } else {
      SpanFront(IdentChar, s, " " + rest);
    }
  }

  lemma {:induction false} IntegerFront(pf: FloatParser, n: i64, rest: string)
    ensures var t := IntText(n) + (" " + rest);
            t != "" && !IsSpace(t[0]) && NextTok(pf, t) == Ok((Integer(n), " " + rest))
  {
    hide NumberEnd;
    IntShape(n);
    ParseIntText(n);
    IntIsNumber(n);
    NumberStops(IntText(n), " " + rest);
  }

  lemma {:induction false} OpFront(pf: FloatParser, s: string, rest: string)
    requires Writable(Op(s))
    ensures NextTok(pf, s + (" " + rest)) == Ok((Op(s), " " + rest))
  {
    var t := s + (" " + rest);
    assert t[0] == s[0] && t[|s|..] == " " + rest;
    if |s| == 1 {
      assert s == [s[0]] && t[1] == ' ';
    } else {
      assert s == [s[0]] + "=" && t[1] == '=';
    }
  }

  lemma {:induction false} TokenFront(pf: FloatParser, tok: Tok, rest: string)
    requires Writable(tok)
    ensures var t := TokText(tok) + (" " + rest);
            t != "" && !IsSpace(t[0]) && NextTok(pf, t) == Ok((tok, " " + rest))
  {
    match tok
    case Ident(s) => IdentFront(pf, s, rest);
    case Text(s) => TextFront(pf, s, " " + rest);
    case Integer(n) => IntegerFront(pf, n, rest);
    case Op(s) => OpFront(pf, s, rest);
    case LParen =>
      assert ("(" + (" " + rest))[1..] == " " + rest;
    case RParen =>
      assert (")" + (" " + rest))[1..] == " " + rest;
  }

  /** Any sequence of tokens written down is read back. */
  lemma {:induction false} TokenizeSpaced(pf: FloatParser, toks: seq<Tok>)
    requires forall i | 0 <= i < |toks| :: Writable(toks[i])
    ensures Tokenize(pf, Spaced(toks)) == Ok(toks)
  {
    hide NextTok, TokText, Writable;
    if toks != [] {
      var rest := Spaced(toks[1..]);
      TokenFront(pf, toks[0], rest);
      TokenizeSpaced(pf, toks[1..]);
      assert (" " + rest)[1..] == rest;
      assert Tokenize(pf, " " + rest) == Tokenize(pf, rest);
      assert toks == [toks[0]] + toks[1..];
    }
  }
}
