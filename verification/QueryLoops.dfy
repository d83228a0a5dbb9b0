/** The tokenizer and the parser as the code runs them, on moving indices. */
module QueryLoops {
  import opened ByteStrings
  import opened Numbers
  import opened Texts
  import opened Lexer
  import opened Query
  import opened QueryParse

  // ----- tokens -----

  /** The characters of a quoted string, from behind its opening quote. */
  method ScanQuoted(s: string, start: nat) returns (r: Result<(string, nat), ParseError>)
    requires start <= |s|
    ensures match Quoted(s[start..], "")
            case Err(e) => r == Err(e)
            case Ok((text, rest)) => r.Ok? && r.value.0 == text && start < r.value.1 <= |s| && s[r.value.1..] == rest
  {
    var i, text := start, "";
    while i < |s| && s[i] != '"'
      invariant start <= i <= |s| && Quoted(s[start..], "") == Quoted(s[i..], text)
    {
      if s[i] == '\\' && i + 1 < |s| {
        assert s[i..][2..] == s[i + 2..];
        i := i + 1;
      } else {
        assert s[i..][1..] == s[i + 1..];
      }
      text := text + [s[i]];
      i := i + 1;
    }
    if i >= |s| {
      return Err(Syntax);
    }
    assert s[i..][1..] == s[i + 1..];
    r := Ok((text, i + 1));
  }

  method ScanNumber(pf: FloatParser, s: string, start: nat) returns (r: Result<(Tok, nat), ParseError>)
    requires start < |s| && NumberStart(s[start..])
    ensures match Number(pf, s[start..])
            case Err(e) => r == Err(e)
            case Ok((tok, rest)) => r.Ok? && r.value.0 == tok && start < r.value.1 <= |s| && s[r.value.1..] == rest
  {
    hide NumberEnd, ParseI64;
    var i, isReal := ScanNumberEnd(s, start);
    if isReal {
      var bits := pf(s[start..i]);
      r := if bits.None? then Err(Syntax) else Ok((Real(bits.value), i));
    } else {
      var n := ParseI64(s[start..i]);
      r := if n.None? then Err(Syntax) else Ok((Integer(n.value), i));
    }
  }

  method ScanToken(pf: FloatParser, s: string, start: nat) returns (r: Result<(Tok, nat), ParseError>)
    requires start < |s| && !IsSpace(s[start])
    ensures match NextTok(pf, s[start..])
            case Err(e) => r == Err(e)
            case Ok((tok, rest)) => r.Ok? && r.value.0 == tok && start < r.value.1 <= |s| && s[r.value.1..] == rest
  {
    hide Span, Quoted, Number;
    var c := s[start];
    var cur := s[start..];
    assert cur[1..] == s[start + 1..];
    if c == '(' {
      r := Ok((LParen, start + 1));
    } else if c == ')' {
      r := Ok((RParen, start + 1));
    } else if c == '"' {
      var q := ScanQuoted(s, start + 1);
      r := if q.Err? then Err(q.error) else Ok((Text(q.value.0), q.value.1));
    } else if OpStart(c) {
      if start + 1 < |s| && s[start + 1] == '=' {
        assert cur[2..] == s[start + 2..];
        r := Ok((Op([c] + "="), start + 2));
      } else {
        r := Ok((Op([c]), start + 1));
      }
    } else if c == '/' {
      var i := ScanWhile(PathChar, s, start);
      SpanStarts(PathChar, cur);
      assert cur[..i - start] == s[start..i] && cur[i - start..] == s[i..];
      r := Ok((Ident(s[start..i]), i));
    } else if c == '-' || IsDigit(c) {
      r := ScanNumber(pf, s, start);
    } else if IdentStart(c) {
      var i := ScanWhile(IdentChar, s, start);
      SpanStarts(IdentChar, cur);
      assert cur[..i - start] == s[start..i] && cur[i - start..] == s[i..];
      r := Ok((Ident(s[start..i]), i));
    } else {
      r := Err(Syntax);
    }
  }

  lemma {:induction false} SpanStarts(ok: char -> bool, s: string)
    requires s != "" && ok(s[0])
    ensures Span(ok, s) >= 1
  {
  }

  function After(out: seq<Tok>, r: Result<seq<Tok>, ParseError>): Result<seq<Tok>, ParseError> {
    match r
    case Ok(rest) => Ok(out + rest)
    case Err(e) => Err(e)
  }

  lemma {:induction false} AfterOne(pf: FloatParser, s: string, out: seq<Tok>, tok: Tok, rest: string)
    requires s != "" && !IsSpace(s[0]) && NextTok(pf, s) == Ok((tok, rest))
    ensures After(out, Tokenize(pf, s)) == After(out + [tok], Tokenize(pf, rest))
  {
    hide NextTok;
    var toks := Tokenize(pf, rest);
    if toks.Ok? {
      assert out + ([tok] + toks.value) == out + [tok] + toks.value;
    }
  }

  method TokenizeText(pf: FloatParser, s: string) returns (r: Result<seq<Tok>, ParseError>)
    ensures r == Tokenize(pf, s)
  {
    hide NextTok;
    var tokens: seq<Tok>, i := [], 0;
    assert s[0..] == s;
    if Tokenize(pf, s).Ok? {
      assert [] + Tokenize(pf, s).value == Tokenize(pf, s).value;
    }
    while i < |s|
      invariant i <= |s| && Tokenize(pf, s) == After(tokens, Tokenize(pf, s[i..]))
    {
      if IsSpace(s[i]) {
        assert s[i..][1..] == s[i + 1..];
        i := i + 1;
      } else {
        var next := ScanToken(pf, s, i);
        if next.Err? {
          return Err(next.error);
        }
        AfterOne(pf, s[i..], tokens, next.value.0, s[next.value.1..]);
        tokens, i := tokens + [next.value.0], next.value.1;
      }
    }
    assert s[i..] == "" && tokens + [] == tokens;
    r := Ok(tokens);
  }

  // ----- expressions -----

  lemma {:induction false} PredicateSuffix(toks: Toks)
    requires ParsePredicate(toks).Ok?
    ensures var rest := ParsePredicate(toks).value.1; |rest| < |toks| && rest == toks[|toks| - |rest|..]
  {
  }

  /** Tokens and the index of the next one. */
  class Parser {
    const tokens: Toks
    var i: nat

    predicate Valid()
      reads this
    {
      i <= |tokens|
    }

    function Rest(): Toks
      requires Valid()
      reads this
    {
      tokens[i..]
    }

    constructor (tokens: Toks)
      ensures Valid() && this.tokens == tokens && i == 0
    {
      this.tokens := tokens;
      i := 0;
    }

    /** The outcome is that of the function on what was left, and so is what is left now. */
    ghost predicate Did<T>(parsed: Parsed<T>, r: Result<T, ParseError>)
      requires Valid()
      reads this
    {
      match parsed
      case Err(e) => r == Err(e)
      case Ok((e, rest)) => r == Ok(e) && Rest() == rest
    }

    method Next(tok: Tok) returns (b: bool)
      requires Valid()
      ensures b <==> Rest() != [] && Rest()[0] == tok
    {
      b := i < |tokens| && tokens[i] == tok;
    }

    method Bump()
      requires Valid() && i < |tokens|
      modifies this
      ensures Valid() && i == old(i) + 1 && Rest() == old(Rest())[1..]
    {
      assert tokens[i..][1..] == tokens[i + 1..];
      i := i + 1;
    }

    method Expression() returns (r: Result<Expr, ParseError>)
      requires Valid()
      modifies this
      ensures Valid() && i >= old(i) && (r.Ok? ==> i > old(i)) && Did(ParseExpr(old(Rest())), r)
      decreases |tokens| - i, 3
    {
      hide ParseTerm;
      var first := Term();
      if first.Err? {
        return Err(first.error);
      }
      var left := first.value;
      ghost var start := ParseExpr(old(Rest()));
      while true
        invariant Valid() && i > old(i) && start == ParseChain(left, Rest())
        decreases |tokens| - i
      {
        var isAnd := Next(Ident("AND"));
        var isOr := Next(Ident("OR"));
        if !isAnd && !isOr {
          break;
        }
        Bump();
        var right := Term();
        if right.Err? {
          return Err(right.error);
        }
        left := Connect(isAnd, left, right.value);
      }
      r := Ok(left);
    }

    method Term() returns (r: Result<Expr, ParseError>)
      requires Valid()
      modifies this
      ensures Valid() && i >= old(i) && (r.Ok? ==> i > old(i)) && Did(ParseTerm(old(Rest())), r)
      decreases |tokens| - i, 2
    {
      hide ParsePrimary;
      var negated := Next(Ident("NOT"));
      if negated {
        Bump();
        var inner := Primary();
        return if inner.Err? then Err(inner.error) else Ok(Not(inner.value));
      }
      r := Primary();
    }

    method Primary() returns (r: Result<Expr, ParseError>)
      requires Valid()
      modifies this
      ensures Valid() && i >= old(i) && (r.Ok? ==> i > old(i)) && Did(ParsePrimary(old(Rest())), r)
      decreases |tokens| - i, 1
    {
      hide ParseExpr, ParsePredicate;
      var open := Next(LParen);
      if open {
        Bump();
        var e := Expression();
        if e.Err? {
          return Err(e.error);
        }
        var close := Next(RParen);
        if !close {
          return Err(Syntax);
        }
        Bump();
        return Ok(e.value);
      }
      var p := ParsePredicate(Rest());
      if p.Err? {
        return Err(p.error);
      }
      PredicateSuffix(Rest());
      ghost var before := Rest();
      i := |tokens| - |p.value.1|;
      assert Rest() == before[|before| - |p.value.1|..];
      r := Ok(Pred(p.value.0));
    }
  }

  method ParseText(pf: FloatParser, input: string) returns (r: Result<Expr, ParseError>)
    ensures r == ParseQuery(pf, input)
  {
    hide Tokenize, ParseExpr;
    var toks := TokenizeText(pf, input);
    if toks.Err? {
      return Err(toks.error);
    }
    var p := new Parser(toks.value);
    assert p.Rest() == toks.value;
    var e := p.Expression();
    if e.Err? {
      return Err(e.error);
    }
    r := if p.i < |p.tokens| then Err(Syntax) else Ok(e.value);
  }
}
