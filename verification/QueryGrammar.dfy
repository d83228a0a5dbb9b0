/** The query language on every text: which texts are queries, and what each means. */
module QueryGrammar {
  import opened ByteStrings
  import opened Values
  import opened Numbers
  import opened Texts
  import opened JsonTexts
  import opened Lexer
  import opened Query
  import opened QueryParse

  // ----- the tokens of a query and its meaning, side by side -----

  /** A string argument, quoted or as a bare word. */
  datatype Word = Quoted(text: string) | Bare(text: string)

  datatype Literal = Textual(word: Word) | Integral(n: i64) | Floating(bits: u64)

  datatype Spelled =
    | SPath(word: Word)
    | SSlash(text: string)
    | SType(word: Word)
    | SName(word: Word)
    | SValue(op: CmpOp, x: Literal)
    | SHas(word: Word)
    | SContains(x: Literal)
    | SAt(index: u64, op: CmpOp, x: Literal)
    | SKey(op: CmpOp, x: Literal)
    | SSize(op: CmpOp, size: i64)

  datatype Primary = Simple(pred: Spelled) | Grouped(inner: Sentence)

  datatype Term = Term(negated: bool, primary: Primary)

  datatype Linked = Linked(isAnd: bool, term: Term)

  /** A term and any number of connectives with further terms. */
  datatype Sentence = Sentence(first: Term, links: seq<Linked>)

  function WordTok(w: Word): Tok {
    match w case Quoted(s) => Text(s) case Bare(s) => Ident(s)
  }

  function LitTok(x: Literal): Tok {
    match x case Textual(w) => WordTok(w) case Integral(n) => Integer(n) case Floating(bits) => Real(bits)
  }

  /** A bare null, true or false is a scalar of its own, any other word a string. */
  function LitMeaning(x: Literal): Scalar {
    match x
    case Integral(n) => Int(n)
    case Floating(bits) => Float(bits)
    case Textual(Quoted(s)) => Str(s)
    case Textual(Bare("null")) => Null
    case Textual(Bare("true")) => Bool(true)
    case Textual(Bare("false")) => Bool(false)
    case Textual(Bare(s)) => Str(s)
  }

  function OpTok(op: CmpOp): Tok {
    Tok.Op(match op case Eq => "=" case Ne => "!=" case Lt => "<" case Le => "<=" case Gt => ">" case Ge => ">=")
  }

  predicate Wellspelled(p: Spelled) {
    && (p.SSlash? ==> p.text != "" && p.text[0] == '/')
    && (p.SAt? ==> p.index < I64)
  }

  function SpelledToks(p: Spelled): Toks
    requires Wellspelled(p)
  {
    match p
    case SPath(w) => [Ident("path"), WordTok(w)]
    case SSlash(s) => [Ident("path"), Tok.Op(s)]
    case SType(w) => [Ident("type"), WordTok(w)]
    case SName(w) => [Ident("name"), WordTok(w)]
    case SValue(op, x) => [Ident("value"), OpTok(op), LitTok(x)]
    case SHas(w) => [Ident("has"), WordTok(w)]
    case SContains(x) => [Ident("contains"), LitTok(x)]
    case SAt(i, op, x) => [Ident("at"), Integer(i), OpTok(op), LitTok(x)]
    case SKey(op, x) => [Ident("key"), OpTok(op), LitTok(x)]
    case SSize(op, n) => [Ident("size"), OpTok(op), Integer(n)]
  }

  function SpelledMeaning(p: Spelled): Predicate {
    match p
    case SPath(w) => PathGlob(w.text)
    case SSlash(s) => PathGlob(s)
    case SType(w) => TypeIs(w.text)
    case SName(w) => NameGlob(w.text)
    case SValue(op, x) => ValueCmp(op, LitMeaning(x))
    case SHas(w) => HasKey(w.text)
    case SContains(x) => Predicate.Contains(Leaf(LitMeaning(x)))
    case SAt(i, op, x) => AtIndex(i, op, LitMeaning(x))
    case SKey(op, x) => KeyCmp(op, LitMeaning(x))
    case SSize(op, n) => SizeCmp(op, n)
  }

  predicate PrimaryOk(p: Primary)
    decreases p, 0
  {
    match p case Simple(x) => Wellspelled(x) case Grouped(e) => SentenceOk(e)
  }

  predicate SentenceOk(e: Sentence)
    decreases e, 1
  {
    PrimaryOk(e.first.primary) && LinksOk(e.links)
  }

  predicate LinksOk(links: seq<Linked>)
    decreases links, 0
  {
    links == [] || (LinkOk(links[0]) && LinksOk(links[1..]))
  }

  predicate LinkOk(l: Linked)
    decreases l, 1
  {
    PrimaryOk(l.term.primary)
  }

  function PrimaryToks(p: Primary): Toks
    requires PrimaryOk(p)
    decreases p, 0
  {
    match p
    case Simple(x) => SpelledToks(x)
    case Grouped(e) => [LParen] + SentenceToks(e) + [RParen]
  }

  function TermToks(t: Term): Toks
    requires PrimaryOk(t.primary)
    decreases t, 0
  {
    (if t.negated then [Ident("NOT")] else []) + PrimaryToks(t.primary)
  }

  function SentenceToks(e: Sentence): Toks
    requires SentenceOk(e)
    decreases e, 1
  {
    TermToks(e.first) + LinksToks(e.links)
  }

  function LinksToks(links: seq<Linked>): Toks
    requires LinksOk(links)
    decreases links, 0
  {
    if links == [] then [] else LinkToks(links[0]) + LinksToks(links[1..])
  }

  function LinkToks(l: Linked): Toks
    requires LinkOk(l)
    decreases l, 1
  {
    [Ident(if l.isAnd then "AND" else "OR")] + TermToks(l.term)
  }

  function PrimaryMeaning(p: Primary): Expr
    decreases p, 0
  {
    match p
    case Simple(x) => Pred(SpelledMeaning(x))
    case Grouped(e) => Meaning(e)
  }

  function TermMeaning(t: Term): Expr
    decreases t, 0
  {
    if t.negated then Expr.Not(PrimaryMeaning(t.primary)) else PrimaryMeaning(t.primary)
  }

  /** AND and OR have one precedence and group to the left. */
  function Meaning(e: Sentence): Expr
    decreases e, 1
  {
    Grouping(TermMeaning(e.first), e.links)
  }

  function Grouping(left: Expr, links: seq<Linked>): Expr
    decreases links, 0
  {
    if links == [] then left
    else if links[0].isAnd then Grouping(And(left, LinkMeaning(links[0])), links[1..])
    else Grouping(Or(left, LinkMeaning(links[0])), links[1..])
  }

  function LinkMeaning(l: Linked): Expr
    decreases l, 1
  {
    TermMeaning(l.term)
  }

  // ----- predicates -----

  lemma {:induction false} WordIff(toks: Toks, s: string, rest: Toks)
    ensures ExpectString(toks) == Ok((s, rest)) <==> exists w: Word :: toks == [WordTok(w)] + rest && w.text == s
  {
    if w: Word :| toks == [WordTok(w)] + rest && w.text == s {
      assert toks[0] == WordTok(w) && toks[1..] == rest;
    }
    if ExpectString(toks) == Ok((s, rest)) {
      var w := if toks[0].Text? then Quoted(s) else Bare(s);
      assert toks == [WordTok(w)] + rest;
    }
  }

  lemma {:induction false} LitIff(toks: Toks, x: Scalar, rest: Toks)
    ensures ParseScalar(toks) == Ok((x, rest)) <==>
            exists l: Literal :: toks == [LitTok(l)] + rest && LitMeaning(l) == x
  {
    if l: Literal :| toks == [LitTok(l)] + rest && LitMeaning(l) == x {
      assert toks[0] == LitTok(l) && toks[1..] == rest;
    }
    if ParseScalar(toks) == Ok((x, rest)) {
      var l := match toks[0]
        case Text(s) => Textual(Quoted(s))
        case Ident(s) => Textual(Bare(s))
        case Integer(n) => Integral(n)
        case Real(bits) => Floating(bits);
      assert toks == [LitTok(l)] + rest;
    }
  }

  lemma {:induction false} OpIff(toks: Toks, op: CmpOp, rest: Toks)
    ensures ExpectCmp(toks) == Ok((op, rest)) <==> toks == [OpTok(op)] + rest
  {
    if toks == [OpTok(op)] + rest {
      assert toks[0] == OpTok(op) && toks[1..] == rest;
    }
    if ExpectCmp(toks) == Ok((op, rest)) {
      assert toks == [toks[0]] + rest;
    }
  }

  lemma {:induction false} IntIff(toks: Toks, n: i64, rest: Toks)
    ensures ExpectInt(toks) == Ok((n, rest)) <==> toks == [Integer(n)] + rest
  {
    if toks == [Integer(n)] + rest {
      assert toks[0] == Integer(n) && toks[1..] == rest;
    }
    if ExpectInt(toks) == Ok((n, rest)) {
      assert toks == [toks[0]] + rest;
    }
  }

  lemma {:induction false} SpelledParses(p: Spelled, rest: Toks)
    requires Wellspelled(p)
    ensures ParsePredicate(SpelledToks(p) + rest) == Ok((SpelledMeaning(p), rest))
  {
    hide ExpectString, ParseScalar, ExpectCmp, ExpectInt, LitMeaning, LitTok, OpTok, WordTok;
    var toks := SpelledToks(p) + rest;
    var args := SpelledToks(p)[1..] + rest;
    assert toks[0] == SpelledToks(p)[0] && toks[1..] == args;
    match p
    case SPath(w) => PathParses(w, args, rest);
    case SSlash(s) => SlashParses(s, args, rest);
    case SType(w) => WordParses(w, args, rest);
    case SName(w) => WordParses(w, args, rest);
    case SHas(w) => WordParses(w, args, rest);
    case SContains(x) =>
      assert args == [LitTok(x)] + rest;
      LitIff(args, LitMeaning(x), rest);
    case SValue(op, x) => ComparisonParses(op, x, args, rest);
    case SKey(op, x) => ComparisonParses(op, x, args, rest);
    case SAt(i, op, x) =>
      var tail := [OpTok(op), LitTok(x)] + rest;
      assert args == [Integer(i)] + tail;
      IntIff(args, i, tail);
      ComparisonParses(op, x, tail, rest);
    case SSize(op, n) =>
      var tail := [Integer(n)] + rest;
      assert args == [OpTok(op)] + tail;
      OpIff(args, op, tail);
      IntIff(tail, n, rest);
  }

  lemma {:induction false} WordParses(w: Word, args: Toks, rest: Toks)
    requires args == [WordTok(w)] + rest
    ensures ExpectString(args) == Ok((w.text, rest))
  {
    WordIff(args, w.text, rest);
  }

  lemma {:induction false} PathParses(w: Word, args: Toks, rest: Toks)
    requires args == [WordTok(w)] + rest
    ensures ExpectPath(args) == Ok((w.text, rest))
  {
    WordParses(w, args, rest);
    assert args[0] == WordTok(w);
  }

  lemma {:induction false} SlashParses(s: string, args: Toks, rest: Toks)
    requires args == [Tok.Op(s)] + rest && s != "" && s[0] == '/'
    ensures ExpectPath(args) == Ok((s, rest))
  {
    assert args[0] == Tok.Op(s) && args[1..] == rest;
  }

  lemma {:induction false} ComparisonParses(op: CmpOp, x: Literal, args: Toks, rest: Toks)
    requires args == [OpTok(op), LitTok(x)] + rest
    ensures ExpectCmp(args) == Ok((op, [LitTok(x)] + rest))
    ensures ParseScalar([LitTok(x)] + rest) == Ok((LitMeaning(x), rest))
  {
    hide LitTok, OpTok, LitMeaning;
    var tail := [LitTok(x)] + rest;
    assert args == [OpTok(op)] + tail;
    OpIff(args, op, tail);
    LitIff(tail, LitMeaning(x), rest);
  }

  lemma {:induction false} WordFound(toks: Toks) returns (w: Word)
    requires ExpectString(toks).Ok?
    ensures toks == [WordTok(w)] + ExpectString(toks).value.1 && w.text == ExpectString(toks).value.0
  {
    WordIff(toks, ExpectString(toks).value.0, ExpectString(toks).value.1);
    w :| toks == [WordTok(w)] + ExpectString(toks).value.1 && w.text == ExpectString(toks).value.0;
  }

  lemma {:induction false} LitFound(toks: Toks) returns (l: Literal)
    requires ParseScalar(toks).Ok?
    ensures toks == [LitTok(l)] + ParseScalar(toks).value.1 && LitMeaning(l) == ParseScalar(toks).value.0
  {
    LitIff(toks, ParseScalar(toks).value.0, ParseScalar(toks).value.1);
    l :| toks == [LitTok(l)] + ParseScalar(toks).value.1 && LitMeaning(l) == ParseScalar(toks).value.0;
  }

  lemma {:induction false} ComparisonFound(args: Toks) returns (op: CmpOp, l: Literal, rest: Toks)
    requires ExpectCmp(args).Ok? && ParseScalar(ExpectCmp(args).value.1).Ok?
    ensures args == [OpTok(op), LitTok(l)] + rest
    ensures ExpectCmp(args).value.0 == op && ParseScalar(ExpectCmp(args).value.1) == Ok((LitMeaning(l), rest))
  {
    hide ExpectCmp, ParseScalar, OpTok, LitTok, LitMeaning;
    op := ExpectCmp(args).value.0;
    var tail := ExpectCmp(args).value.1;
    OpIff(args, op, tail);
    l := LitFound(tail);
    rest := ParseScalar(tail).value.1;
    assert args == [OpTok(op), LitTok(l)] + rest;
  }

  /** Whatever parses as a predicate is the spelling of one. */
  lemma {:induction false} PredicateFound(toks: Toks) returns (p: Spelled)
    requires ParsePredicate(toks).Ok?
    ensures Wellspelled(p) && SpelledMeaning(p) == ParsePredicate(toks).value.0
    ensures toks == SpelledToks(p) + ParsePredicate(toks).value.1
  {
    hide ExpectString, ParseScalar, ExpectCmp, ExpectInt, ExpectPath, LitMeaning, LitTok, OpTok, WordTok;
    var name, args := toks[0].name, toks[1..];
    assert toks == [Ident(name)] + args;
    if name == "path" {
      p := PathFound(args);
    } else if name == "type" {
      var w := WordFound(args);
      p := SType(w);
    } else if name == "name" {
      var w := WordFound(args);
      p := SName(w);
    } else if name == "has" {
      var w := WordFound(args);
      p := SHas(w);
    } else if name == "contains" {
      var l := LitFound(args);
      p := SContains(l);
    } else {
      p := ComparedFound(toks);
    }
  }

  lemma {:induction false} PathFound(args: Toks) returns (p: Spelled)
    requires ExpectPath(args).Ok?
    ensures Wellspelled(p) && (p.SPath? || p.SSlash?)
    ensures SpelledMeaning(p) == PathGlob(ExpectPath(args).value.0)
    ensures [Ident("path")] + args == SpelledToks(p) + ExpectPath(args).value.1
  {
    hide ExpectString, WordTok;
    if args != [] && args[0].Op? && args[0].op != "" && args[0].op[0] == '/' {
      p := SSlash(args[0].op);
      assert args == [args[0]] + args[1..];
    } else {
      var w := WordFound(args);
      p := SPath(w);
    }
  }

  lemma {:induction false} ComparedFound(toks: Toks) returns (p: Spelled)
    requires ParsePredicate(toks).Ok? && toks[0].name in {"value", "at", "key", "size"}
    ensures Wellspelled(p) && SpelledMeaning(p) == ParsePredicate(toks).value.0
    ensures toks == SpelledToks(p) + ParsePredicate(toks).value.1
  {
    hide ParseScalar, ExpectCmp, ExpectInt, LitMeaning, LitTok, OpTok;
    var name, args := toks[0].name, toks[1..];
    assert toks == [Ident(name)] + args;
    if name == "value" {
      var op, l, rest := ComparisonFound(args);
      p := SValue(op, l);
    } else if name == "key" {
      var op, l, rest := ComparisonFound(args);
      p := SKey(op, l);
    } else if name == "at" {
      var i, tail := ExpectInt(args).value.0, ExpectInt(args).value.1;
      IntIff(args, i, tail);
      var op, l, rest := ComparisonFound(tail);
      p := SAt(i, op, l);
    } else {
      var op, tail := ExpectCmp(args).value.0, ExpectCmp(args).value.1;
      OpIff(args, op, tail);
      var n, rest := ExpectInt(tail).value.0, ExpectInt(tail).value.1;
      IntIff(tail, n, rest);
      p := SSize(op, n);
    }
  }

  // ----- expressions -----

  predicate Continues(toks: Toks) {
    toks != [] && (toks[0] == Ident("AND") || toks[0] == Ident("OR"))
  }

  lemma {:induction false} PrimaryFirst(p: Primary)
    requires PrimaryOk(p)
    ensures PrimaryToks(p) != [] && PrimaryToks(p)[0] != Ident("NOT")
    ensures p.Simple? ==> PrimaryToks(p)[0] != LParen
  {
  }

  lemma {:induction false} PrimaryParses(p: Primary, rest: Toks)
    requires PrimaryOk(p)
    ensures ParsePrimary(PrimaryToks(p) + rest) == Ok((PrimaryMeaning(p), rest))
    decreases p, 0
  {
    hide ParsePredicate, SpelledToks, SentenceToks, SpelledMeaning, Wellspelled;
    var toks := PrimaryToks(p) + rest;
    match p
    case Simple(x) =>
      SpelledFirst(x);
      SpelledParses(x, rest);
    case Grouped(e) =>
      var tail := [RParen] + rest;
      assert toks[0] == LParen && toks[1..] == SentenceToks(e) + tail;
      SentenceParses(e, tail);
      assert tail[1..] == rest;
  }

  lemma {:induction false} SpelledFirst(p: Spelled)
    requires Wellspelled(p)
    ensures SpelledToks(p) != [] && SpelledToks(p)[0].Ident? && SpelledToks(p)[0] != Ident("NOT")
  {
  }

  lemma {:induction false} TermParses(t: Term, rest: Toks)
    requires PrimaryOk(t.primary)
    ensures ParseTerm(TermToks(t) + rest) == Ok((TermMeaning(t), rest))
    decreases t, 0
  {
    hide ParsePrimary, PrimaryToks, PrimaryMeaning;
    PrimaryFirst(t.primary);
    PrimaryParses(t.primary, rest);
    var toks := TermToks(t) + rest;
    if t.negated {
      assert toks[0] == Ident("NOT") && toks[1..] == PrimaryToks(t.primary) + rest;
    } else {
      assert toks == PrimaryToks(t.primary) + rest && toks[0] == PrimaryToks(t.primary)[0];
    }
  }

  lemma {:induction false} SentenceParses(e: Sentence, rest: Toks)
    requires SentenceOk(e) && !Continues(rest)
    ensures ParseExpr(SentenceToks(e) + rest) == Ok((Meaning(e), rest))
    decreases e, 1
  {
    hide ParseTerm, ParseChain, TermToks, LinksToks, TermMeaning, Grouping;
    var tail := LinksToks(e.links) + rest;
    assert SentenceToks(e) + rest == TermToks(e.first) + tail;
    TermParses(e.first, tail);
    LinksParse(TermMeaning(e.first), e.links, rest);
  }

  lemma {:induction false} LinksParse(left: Expr, links: seq<Linked>, rest: Toks)
    requires LinksOk(links) && !Continues(rest)
    ensures ParseChain(left, LinksToks(links) + rest) == Ok((Grouping(left, links), rest))
    decreases links, 0
  {
    hide ParseTerm, TermToks, TermMeaning;
    if links == [] {
      assert LinksToks(links) + rest == rest;
    } else {
      var tail := LinksToks(links[1..]) + rest;
      LinkParses(left, links[0], tail);
      assert LinksToks(links) + rest == LinkToks(links[0]) + tail;
      LinksParse(Connect(links[0].isAnd, left, LinkMeaning(links[0])), links[1..], rest);
    }
  }

  lemma {:induction false} LinkParses(left: Expr, l: Linked, tail: Toks)
    requires LinkOk(l)
    ensures ParseChain(left, LinkToks(l) + tail) ==
            ParseChain(if l.isAnd then And(left, LinkMeaning(l)) else Or(left, LinkMeaning(l)), tail)
    decreases l, 1
  {
    hide ParseTerm, TermToks, TermMeaning;
    var toks := LinkToks(l) + tail;
    assert toks[0] == Ident(if l.isAnd then "AND" else "OR") && toks[1..] == TermToks(l.term) + tail;
    TermParses(l.term, tail);
  }

  lemma {:induction false} PrimaryFound(toks: Toks) returns (p: Primary)
    requires ParsePrimary(toks).Ok?
    ensures PrimaryOk(p) && PrimaryMeaning(p) == ParsePrimary(toks).value.0
    ensures toks == PrimaryToks(p) + ParsePrimary(toks).value.1
    decreases |toks|, 1
  {
    hide ParsePredicate, SpelledToks, SpelledMeaning, Wellspelled, ParseExpr, Meaning, SentenceToks, SentenceOk;
    if toks != [] && toks[0] == LParen {
      var e := SentenceFound(toks[1..]);
      var rest := ParseExpr(toks[1..]).value.1;
      p := Grouped(e);
      assert rest == [RParen] + rest[1..] && toks == [LParen] + toks[1..];
      assert toks == PrimaryToks(p) + rest[1..];
    } else {
      var x := PredicateFound(toks);
      p := Simple(x);
    }
  }

  lemma {:induction false} TermFound(toks: Toks) returns (t: Term)
    requires ParseTerm(toks).Ok?
    ensures PrimaryOk(t.primary) && TermMeaning(t) == ParseTerm(toks).value.0
    ensures toks == TermToks(t) + ParseTerm(toks).value.1
    decreases |toks|, 2
  {
    hide ParsePrimary, PrimaryToks, PrimaryMeaning, PrimaryOk;
    if toks != [] && toks[0] == Ident("NOT") {
      var p := PrimaryFound(toks[1..]);
      t := Term(true, p);
      assert toks == [Ident("NOT")] + toks[1..];
    } else {
      var p := PrimaryFound(toks);
      t := Term(false, p);
      assert [] + PrimaryToks(p) == PrimaryToks(p);
    }
  }

  lemma {:induction false} SentenceFound(toks: Toks) returns (e: Sentence)
    requires ParseExpr(toks).Ok?
    ensures SentenceOk(e) && Meaning(e) == ParseExpr(toks).value.0
    ensures toks == SentenceToks(e) + ParseExpr(toks).value.1 && !Continues(ParseExpr(toks).value.1)
    decreases |toks|, 3
  {
    hide ParseTerm, ParseChain, TermToks, LinksToks, TermMeaning, Grouping, PrimaryOk;
    var t := TermFound(toks);
    var tail := ParseTerm(toks).value.1;
    ExprUnfold(toks);
    var links := LinksFound(ParseTerm(toks).value.0, tail);
    e := Sentence(t, links);
    assert toks == TermToks(t) + (LinksToks(links) + ParseExpr(toks).value.1);
  }

  lemma {:induction false} ExprUnfold(toks: Toks)
    requires ParseExpr(toks).Ok?
    ensures ParseTerm(toks).Ok? && ParseChain(ParseTerm(toks).value.0, ParseTerm(toks).value.1) == ParseExpr(toks)
    ensures |ParseTerm(toks).value.1| < |toks|
  {
  }

  lemma {:induction false} LinksFound(left: Expr, toks: Toks) returns (links: seq<Linked>)
    requires ParseChain(left, toks).Ok?
    ensures LinksOk(links) && Grouping(left, links) == ParseChain(left, toks).value.0
    ensures toks == LinksToks(links) + ParseChain(left, toks).value.1 && !Continues(ParseChain(left, toks).value.1)
    decreases |toks|, 0
  {
    hide ParseTerm, ParseChain, LinksOk, LinksToks, LinkToks, Grouping, TermToks, TermMeaning, PrimaryOk;
    if Continues(toks) {
      var isAnd := toks[0] == Ident("AND");
      ChainUnfold(left, toks);
      var t := TermFound(toks[1..]);
      var right, tail := ParseTerm(toks[1..]).value.0, ParseTerm(toks[1..]).value.1;
      var l := Linked(isAnd, t);
      var more := LinksFound(if isAnd then And(left, right) else Or(left, right), tail);
      LinksCons(left, l, more);
      links := [l] + more;
      LinkFront(l, toks, tail);
      assert toks == LinkToks(l) + (LinksToks(more) + ParseChain(left, toks).value.1);
    } else {
      links := [];
      ChainDone(left, toks);
    }
  }

  lemma {:induction false} LinkFront(l: Linked, toks: Toks, tail: Toks)
    requires LinkOk(l) && Continues(toks) && l.isAnd == (toks[0] == Ident("AND"))
    requires toks[1..] == TermToks(l.term) + tail
    ensures toks == LinkToks(l) + tail
  {
    hide TermToks;
    assert toks == [toks[0]] + toks[1..];
  }

  lemma {:induction false} ChainDone(left: Expr, toks: Toks)
    requires !Continues(toks)
    ensures ParseChain(left, toks) == Ok((left, toks))
    ensures LinksOk([]) && Grouping(left, []) == left && LinksToks([]) + toks == toks
  {
  }

  lemma {:induction false} LinksCons(left: Expr, l: Linked, more: seq<Linked>)
    requires LinkOk(l) && LinksOk(more)
    ensures LinksOk([l] + more) && LinksToks([l] + more) == LinkToks(l) + LinksToks(more)
    ensures Grouping(left, [l] + more) ==
            Grouping(if l.isAnd then And(left, LinkMeaning(l)) else Or(left, LinkMeaning(l)), more)
  {
    hide LinkOk, LinkToks, LinkMeaning;
    var links := [l] + more;
    assert links[0] == l && links[1..] == more;
  }

  lemma {:induction false} ChainUnfold(left: Expr, toks: Toks)
    requires ParseChain(left, toks).Ok? && Continues(toks)
    ensures ParseTerm(toks[1..]).Ok? && |ParseTerm(toks[1..]).value.1| < |toks|
    ensures var (right, tail) := ParseTerm(toks[1..]).value;
            ParseChain(left, toks) ==
            ParseChain(if toks[0] == Ident("AND") then And(left, right) else Or(left, right), tail)
  {
    hide ParseTerm;
    assert IsConnective(toks);
  }

  ghost predicate IsQuery(toks: Toks, x: Expr) {
    exists e: Sentence :: SentenceOk(e) && SentenceToks(e) == toks && Meaning(e) == x
  }

  /** The token sequences that are queries, and what each means. */
  lemma {:induction false} QueryIff(toks: Toks, x: Expr)
    ensures ParseExpr(toks) == Ok((x, [])) <==> IsQuery(toks, x)
  {
    hide ParseExpr, Meaning, SentenceToks, SentenceOk;
    if e: Sentence :| SentenceOk(e) && SentenceToks(e) == toks && Meaning(e) == x {
      SentenceParses(e, []);
      assert SentenceToks(e) + [] == toks;
    }
    if ParseExpr(toks) == Ok((x, [])) {
      var e := SentenceFound(toks);
      assert SentenceToks(e) == SentenceToks(e) + [] == toks;
    }
  }

  // ----- the characters of a query -----

  /** The classes of characters, by code point. */
  predicate LetterCode(n: int) {
    65 <= n <= 90 || 97 <= n <= 122
  }

  predicate DigitCode(n: int) {
    48 <= n <= 57
  }

  /** Tab, line feed, form feed, carriage return and space. */
  predicate SpaceCode(n: int) {
    n == 9 || n == 10 || n == 12 || n == 13 || n == 32
  }

  lemma {:induction false} CharClasses(c: char)
    ensures IsDigit(c) <==> DigitCode(c as int)
    ensures IsSpace(c) <==> SpaceCode(c as int)
    ensures IdentStart(c) <==> LetterCode(c as int) || c in "_*?"
    ensures IdentChar(c) <==> LetterCode(c as int) || DigitCode(c as int) || c in "_*?.-"
    ensures PathChar(c) <==> !SpaceCode(c as int) && c !in "()"
    ensures OpStart(c) <==> c in "=!<>"
  {
  }

  /** How a token may be written. */
  ghost predicate Lexeme(pf: FloatParser, text: string, tok: Tok) {
    match tok
    case LParen => text == "("
    case RParen => text == ")"
    case Text(v) => exists us :: Proper(us) && Plainly(us, v) && text == "\"" + Written(us) + "\""
    case Op(o) => text == o && o in {"=", "!", "<", ">", "==", "!=", "<=", ">="}
    case Ident(v) =>
      text == v && v != "" &&
      (if v[0] == '/' then forall i | 0 <= i < |v| :: !SpaceCode(v[i] as int) && v[i] !in "()"
       else
         && (LetterCode(v[0] as int) || v[0] in "_*?")
         && forall i | 0 <= i < |v| :: LetterCode(v[i] as int) || DigitCode(v[i] as int) || v[i] in "_*?.-")
    case Integer(n) => NumberText(text) && '.' !in text && IsInteger(text, n)
    case Real(bits) => NumberText(text) && '.' in text && pf(text) == Some(bits)
  }

  /** In a query a character behind a backslash always stands for itself. */
  predicate Plainly(us: seq<Unit>, v: string) {
    |v| == |us| && forall i | 0 <= i < |us| :: v[i] == us[i].c
  }

  /** What follows cannot belong to the token. */
  predicate Ends(tok: Tok, rest: string) {
    rest == "" ||
    match tok
    case Op(o) => |o| == 2 || rest[0] != '='
    case Ident(v) =>
      if v != "" && v[0] == '/' then SpaceCode(rest[0] as int) || rest[0] in "()"
      else !LetterCode(rest[0] as int) && !DigitCode(rest[0] as int) && rest[0] !in "_*?.-"
    case Integer(_) => !DigitCode(rest[0] as int) && rest[0] != '.'
    case Real(_) => !DigitCode(rest[0] as int)
    case _ => true
  }

  ghost predicate Leads(pf: FloatParser, s: string, tok: Tok, rest: string) {
    exists text :: s == text + rest && Lexeme(pf, text, tok) && Ends(tok, rest)
  }

  lemma {:induction false} QuotedReads(us: seq<Unit>, v: string, acc: string, rest: string)
    requires Proper(us) && Plainly(us, v)
    ensures Lexer.Quoted(Written(us) + ("\"" + rest), acc) == Ok((acc + v, rest))
    decreases |us|
  {
    var s := Written(us) + ("\"" + rest);
    if us == [] {
      assert s[1..] == rest && acc + v == acc;
    } else {
      QuotedReads(us[1..], v[1..], acc + [v[0]], rest);
      assert acc + [v[0]] + v[1..] == acc + v;
      var next := Written(us[1..]) + ("\"" + rest);
      if us[0].Plain? {
        assert s == [us[0].c] + next && s[1..] == next;
      } else {
        assert s == ['\\', us[0].c] + next && s[2..] == next;
      }
    }
  }

  lemma {:induction false} QuotedStep(s: string, acc: string) returns (u: Unit, n: nat)
    requires Lexer.Quoted(s, acc).Ok? && s[0] != '"'
    ensures 0 < n <= |s| && Lexer.Quoted(s, acc) == Lexer.Quoted(s[n..], acc + [u.c])
    ensures s[..n] == (match u case Plain(x) => [x] case Escaped(x) => ['\\', x])
    ensures u.Plain? ==> u.c != '"' && u.c != '\\'
  {
    if s[0] == '\\' {
      LoneBackslash(s, acc);
      u, n := Escaped(s[1]), 2;
    } else {
      u, n := Plain(s[0]), 1;
    }
  }

  lemma {:induction false} LoneBackslash(s: string, acc: string)
    requires s != "" && s[0] == '\\' && Lexer.Quoted(s, acc).Ok?
    ensures |s| > 1
  {
    NothingEnds(s[1..], acc + [s[0]]);
  }

  lemma {:induction false} NothingEnds(s: string, acc: string)
    ensures s == "" ==> Lexer.Quoted(s, acc).Err?
  {
  }

  lemma {:induction false} QuotedUnits(s: string, acc: string) returns (us: seq<Unit>, v: string)
    requires Lexer.Quoted(s, acc).Ok?
    ensures Proper(us) && Plainly(us, v) && Lexer.Quoted(s, acc).value.0 == acc + v
    ensures s == Written(us) + ("\"" + Lexer.Quoted(s, acc).value.1)
    decreases |s|
  {
    hide Proper, Plainly, Written;
    if s[0] == '"' {
      us, v := [], "";
      NothingQuoted();
      assert acc + v == acc && s == "\"" + s[1..];
    } else {
      var u, n := QuotedStep(s, acc);
      us, v := QuotedUnits(s[n..], acc + [u.c]);
      PlainlyCons(u, us, v);
      assert acc + [u.c] + v == acc + ([u.c] + v);
      assert s == s[..n] + s[n..];
      us, v := [u] + us, [u.c] + v;
    }
  }

  lemma {:induction false} NothingQuoted()
    ensures Proper([]) && Plainly([], "") && Written([]) == ""
  {
  }

  lemma {:induction false} PlainlyCons(u: Unit, us: seq<Unit>, v: string)
    requires Proper(us) && Plainly(us, v) && (u.Plain? ==> u.c != '"' && u.c != '\\')
    ensures Proper([u] + us) && Plainly([u] + us, [u.c] + v)
    ensures Written([u] + us) == (match u case Plain(x) => [x] case Escaped(x) => ['\\', x]) + Written(us)
  {
    assert ([u] + us)[1..] == us;
  }

  lemma {:induction false} TextLeads(pf: FloatParser, s: string, v: string, rest: string)
    requires Leads(pf, s, Text(v), rest)
    ensures s != "" && !IsSpace(s[0]) && NextTok(pf, s) == Ok((Text(v), rest))
  {
    hide Lexer.Quoted, Proper, Plainly, Written;
    var text :| s == text + rest && Lexeme(pf, text, Text(v));
    var us :| Proper(us) && Plainly(us, v) && text == "\"" + Written(us) + "\"";
    assert s[1..] == Written(us) + ("\"" + rest);
    QuotedReads(us, v, "", rest);
    assert "" + v == v;
  }

  lemma {:induction false} IdentLeads(pf: FloatParser, s: string, v: string, rest: string)
    requires Leads(pf, s, Ident(v), rest)
    ensures s != "" && !IsSpace(s[0]) && NextTok(pf, s) == Ok((Ident(v), rest))
  {
    hide Lexer.Quoted, Number, IsSpace, IdentStart, IdentChar, PathChar, OpStart, LetterCode, DigitCode,
         SpaceCode, Span;
    assert s == v + rest && s[0] == v[0] && s[..|v|] == v && s[|v|..] == rest;
    CharClasses(v[0]);
    HeadKinds(v[0]);
    forall i | 0 <= i < |v|
      ensures if v[0] == '/' then PathChar(v[i]) else IdentChar(v[i])
    {
      CharClasses(v[i]);
    }
    if rest != "" {
      CharClasses(rest[0]);
    }
    if v[0] == '/' {
      SpanFront(PathChar, v, rest);
    } else {
      SpanFront(IdentChar, v, rest);
    }
  }

  /** The kinds of first characters do not overlap. */
  lemma {:induction false} HeadKinds(c: char)
    ensures IdentStart(c) ==> !OpStart(c) && c != '(' && c != ')' && c != '"' && c != '/' && c != '-' && !IsDigit(c) &&
                              !IsSpace(c)
    ensures c == '/' || c == '-' || IsDigit(c) || OpStart(c) || c == '(' || c == ')' || c == '"' ==> !IsSpace(c)
    ensures c == '/' || c == '-' || IsDigit(c) ==> !OpStart(c) && c != '(' && c != ')' && c != '"'
    ensures OpStart(c) ==> c != '(' && c != ')' && c != '"'
    ensures c == '-' || IsDigit(c) ==> c != '/'
  {
  }

  lemma {:induction false} OpLeads(pf: FloatParser, s: string, o: string, rest: string)
    requires Leads(pf, s, Tok.Op(o), rest)
    ensures s != "" && !IsSpace(s[0]) && NextTok(pf, s) == Ok((Tok.Op(o), rest))
  {
    hide Lexer.Quoted, Number, IdentStart, IdentChar, PathChar, Span;
    assert s == o + rest && s[0] == o[0] && s[|o|..] == rest;
    if |o| == 1 {
      assert o == [s[0]];
      assert rest != "" ==> s[1] == rest[0];
    } else {
      assert o == [s[0]] + "=" && s[1] == o[1];
    }
  }

  lemma {:induction false} NumberLeads(pf: FloatParser, s: string, tok: Tok, rest: string)
    requires (tok.Integer? || tok.Real?) && Leads(pf, s, tok, rest)
    ensures s != "" && !IsSpace(s[0]) && NextTok(pf, s) == Ok((tok, rest))
  {
    hide Lexer.Quoted, IsSpace, IdentStart, IdentChar, PathChar, OpStart, Span, ParseI64, IsInteger, IsDigit, NumberEnd,
         DigitCode;
    var text :| s == text + rest && Lexeme(pf, text, tok) && Ends(tok, rest);
    if rest != "" {
      CharClasses(rest[0]);
    }
    NumberStopsHere(text, rest);
    if tok.Integer? {
      IntegerIff(text, tok.n);
    }
    HeadKinds(text[0]);
    assert s[0] == text[0];
  }

  /** A number ends before what is neither digit nor, where it has no point, a point. */
  lemma {:induction false} NumberStopsHere(text: string, rest: string)
    requires NumberText(text) && (rest == "" || (!IsDigit(rest[0]) && (rest[0] != '.' || '.' in text)))
    ensures NumberStart(text + rest) && NumberEnd(text + rest) == NumberEnd(text)
    ensures NumberEnd(text).1 <==> '.' in text
    ensures (text + rest)[..|text|] == text && (text + rest)[|text|..] == rest
  {
    hide IsDigit, Span;
    PointInside(text);
    var sign := if text[0] == '-' then 1 else 0;
    Behind(text, rest, sign);
    var a := sign + Span(IsDigit, text[sign..]);
    if a < |text| {
      Behind(text, rest, a + 1);
      SpanInside(text[sign..], rest);
      SpanBefore(IsDigit, text[a + 1..], rest);
    } else {
      SpanBefore(IsDigit, text[sign..], rest);
    }
  }

  lemma {:induction false} SpanInside(s: string, rest: string)
    requires Span(IsDigit, s) < |s|
    ensures Span(IsDigit, s + rest) == Span(IsDigit, s)
  {
    SpanIs(IsDigit, s + rest, Span(IsDigit, s));
  }

  lemma {:induction false} ParenLeads(pf: FloatParser, s: string, tok: Tok, rest: string)
    requires (tok == LParen || tok == RParen) && Leads(pf, s, tok, rest)
    ensures s != "" && !IsSpace(s[0]) && NextTok(pf, s) == Ok((tok, rest))
  {
    assert s[1..] == rest;
  }

  lemma {:induction false} LeadsNext(pf: FloatParser, s: string, tok: Tok, rest: string)
    requires Leads(pf, s, tok, rest)
    ensures s != "" && !IsSpace(s[0]) && NextTok(pf, s) == Ok((tok, rest))
  {
    hide NextTok, Leads;
    match tok
    case Text(v) => TextLeads(pf, s, v, rest);
    case Ident(v) => IdentLeads(pf, s, v, rest);
    case Op(o) => OpLeads(pf, s, o, rest);
    case Integer(_) => NumberLeads(pf, s, tok, rest);
    case Real(_) => NumberLeads(pf, s, tok, rest);
    case LParen => ParenLeads(pf, s, tok, rest);
    case RParen => ParenLeads(pf, s, tok, rest);
  }

  lemma {:induction false} NextFound(pf: FloatParser, s: string, tok: Tok, rest: string)
    requires s != "" && !IsSpace(s[0]) && NextTok(pf, s) == Ok((tok, rest))
    ensures Leads(pf, s, tok, rest)
  {
    hide Lexer.Quoted, Number, IsSpace, IdentStart, IdentChar, PathChar, OpStart, Span, Leads, IsDigit;
    var c := s[0];
    HeadKinds(c);
    assert s == [c] + s[1..];
    if c == '(' || c == ')' {
      ParenFound(pf, s, tok, rest);
    } else if c == '"' {
      TextFound(pf, s, tok, rest);
    } else if OpStart(c) {
      OpFound(pf, s, tok, rest);
    } else if c == '/' {
      IdentFound(pf, s, rest, PathChar);
    } else if c == '-' || IsDigit(c) {
      NumberFound(pf, s, tok, rest);
    } else {
      IdentFound(pf, s, rest, IdentChar);
    }
  }

  lemma {:induction false} ParenFound(pf: FloatParser, s: string, tok: Tok, rest: string)
    requires s != "" && (s[0] == '(' || s[0] == ')') && s[1..] == rest && tok == if s[0] == '(' then LParen else RParen
    ensures Leads(pf, s, tok, rest)
  {
    var text := s[..1];
    assert s == text + rest && Lexeme(pf, text, tok) && Ends(tok, rest);
  }

  lemma {:induction false} TextFound(pf: FloatParser, s: string, tok: Tok, rest: string)
    requires s != "" && s[0] == '"' && Lexer.Quoted(s[1..], "").Ok?
    requires tok == Text(Lexer.Quoted(s[1..], "").value.0) && rest == Lexer.Quoted(s[1..], "").value.1
    ensures Leads(pf, s, tok, rest)
  {
    hide Lexer.Quoted, Proper, Plainly, Written;
    var us, v := QuotedUnits(s[1..], "");
    assert "" + v == v && s == "\"" + s[1..];
    var text := "\"" + Written(us) + "\"";
    assert s == text + rest;
    assert Lexeme(pf, text, tok) && Ends(tok, rest);
  }

  lemma {:induction false} OpFound(pf: FloatParser, s: string, tok: Tok, rest: string)
    requires s != "" && OpStart(s[0])
    requires if |s| > 1 && s[1] == '=' then tok == Tok.Op([s[0]] + "=") && rest == s[2..]
             else tok == Tok.Op([s[0]]) && rest == s[1..]
    ensures Leads(pf, s, tok, rest)
  {
    var text := tok.op;
    assert s == text + rest;
    assert text in {"=", "!", "<", ">", "==", "!=", "<=", ">="} by {
      assert text == [s[0]] || text == [s[0], '='];
    }
    assert Lexeme(pf, text, tok) && Ends(tok, rest);
  }

  lemma {:induction false} IdentFound(pf: FloatParser, s: string, rest: string, ok: char -> bool)
    requires s != "" && (if s[0] == '/' then ok == PathChar else ok == IdentChar && IdentStart(s[0]))
    requires rest == s[Span(ok, s)..]
    ensures Leads(pf, s, Ident(s[..Span(ok, s)]), rest)
  {
    hide IdentStart, IdentChar, PathChar, LetterCode, DigitCode, SpaceCode;
    var n := Span(ok, s);
    var v := s[..n];
    SpanStarts(s, ok);
    assert s == v + rest && v[0] == s[0];
    CharClasses(s[0]);
    forall i | 0 <= i < |v|
      ensures ok(v[i])
    {
      CharClasses(v[i]);
    }
    forall i | 0 <= i < |v|
      ensures if v[0] == '/' then !SpaceCode(v[i] as int) && v[i] !in "()"
              else LetterCode(v[i] as int) || DigitCode(v[i] as int) || v[i] in "_*?.-"
    {
      CharClasses(v[i]);
    }
    if rest != "" {
      CharClasses(rest[0]);
    }
    assert Lexeme(pf, v, Ident(v)) && Ends(Ident(v), rest);
  }

  lemma {:induction false} SpanStarts(s: string, ok: char -> bool)
    requires s != "" && (if s[0] == '/' then ok == PathChar else ok == IdentChar && IdentStart(s[0]))
    ensures Span(ok, s) > 0
  {
  }

  lemma {:induction false} NumberFound(pf: FloatParser, s: string, tok: Tok, rest: string)
    requires NumberStart(s) && Number(pf, s) == Ok((tok, rest))
    ensures Leads(pf, s, tok, rest)
  {
    hide NumberEnd, ParseI64, IsInteger, IsDigit, DigitCode;
    var n := NumberEnd(s).0;
    var text := s[..n];
    assert s == text + rest;
    NumberCut(s);
    PointInside(text);
    if rest != "" {
      CharClasses(rest[0]);
    }
    if tok.Integer? {
      IntegerIff(text, tok.n);
    }
    assert Lexeme(pf, text, tok) && Ends(tok, rest);
  }

  /** The text up to where a number ends is a number of the same kind, and what follows does not continue it. */
  lemma {:induction false} NumberCut(s: string)
    requires NumberStart(s)
    ensures var (n, point) := NumberEnd(s);
            && NumberText(s[..n]) && NumberEnd(s[..n]).1 == point
            && (n < |s| ==> !IsDigit(s[n]) && (!point ==> s[n] != '.'))
  {
    hide IsDigit, Span, NumberEnd;
    var sign := if s[0] == '-' then 1 else 0;
    var d := Span(IsDigit, s[sign..]);
    EndUnfold(s, sign, d);
    if NumberEnd(s).1 {
      PointCut(s, sign, d, NumberEnd(s).0);
    } else {
      PlainCut(s, sign, d);
    }
  }

  lemma {:induction false} PlainCut(s: string, sign: nat, d: nat)
    requires NumberStart(s) && sign == (if s[0] == '-' then 1 else 0) && d == Span(IsDigit, s[sign..])
    requires sign + d > 0
    ensures sign + d <= |s| && NumberStart(s[..sign + d]) && NumberEnd(s[..sign + d]) == (sign + d, false)
    ensures sign + d < |s| ==> !IsDigit(s[sign + d])
  {
    hide IsDigit, Span, NumberEnd;
    var t := s[..sign + d];
    StartKept(s, sign + d);
    assert t[sign..] == s[sign..][..d];
    SpanCut(s[sign..], d);
    EndUnfold(t, sign, d);
  }

  lemma {:induction false} PointCut(s: string, sign: nat, d: nat, n: nat)
    requires NumberStart(s) && sign == (if s[0] == '-' then 1 else 0) && d == Span(IsDigit, s[sign..])
    requires sign + d < |s| && s[sign + d] == '.' && n == sign + d + 1 + Span(IsDigit, s[sign + d + 1..])
    ensures n <= |s| && NumberStart(s[..n]) && NumberEnd(s[..n]) == (n, true)
    ensures n < |s| ==> !IsDigit(s[n])
  {
    hide IsDigit, Span, NumberEnd;
    var a := sign + d;
    var t := s[..n];
    StartKept(s, n);
    assert t[sign..] == s[sign..][..n - sign];
    SpanCut(s[sign..], n - sign);
    EndUnfold(t, sign, d);
    assert t[a] == '.' && t[a + 1..] == s[a + 1..][..n - a - 1];
    SpanCut(s[a + 1..], n - a - 1);
  }

  lemma {:induction false} StartKept(s: string, n: nat)
    requires NumberStart(s) && 0 < n <= |s|
    ensures NumberStart(s[..n]) && s[..n][0] == s[0]
  {
  }

  lemma {:induction false} SpanCut(s: string, n: nat)
    requires Span(IsDigit, s) <= n <= |s|
    ensures Span(IsDigit, s[..n]) == Span(IsDigit, s)
    ensures Span(IsDigit, s) < |s| ==> !IsDigit(s[Span(IsDigit, s)])
  {
    hide IsDigit;
    SpanIs(IsDigit, s[..n], Span(IsDigit, s));
  }

  // ----- the whole text -----

  predicate Blank(s: string) {
    forall i | 0 <= i < |s| :: SpaceCode(s[i] as int)
  }

  /** The text is the tokens, each as long as it can be, with blank text between them. */
  ghost predicate Spells(pf: FloatParser, s: string, toks: seq<Tok>)
    decreases |toks|
  {
    if toks == [] then Blank(s)
    else exists gap: string, body: string, rest: string ::
        s == gap + body && Blank(gap) && Leads(pf, body, toks[0], rest) && Spells(pf, rest, toks[1..])
  }

  lemma {:induction false} GapSkipped(pf: FloatParser, gap: string, body: string)
    requires Blank(gap)
    ensures Tokenize(pf, gap + body) == Tokenize(pf, body)
    decreases |gap|
  {
    hide NextTok;
    if gap == "" {
      assert gap + body == body;
    } else {
      CharClasses(gap[0]);
      assert (gap + body)[1..] == gap[1..] + body;
      GapSkipped(pf, gap[1..], body);
    }
  }

  lemma {:induction false} SpellsTokens(pf: FloatParser, s: string, toks: seq<Tok>)
    requires Spells(pf, s, toks)
    ensures Tokenize(pf, s) == Ok(toks)
    decreases |toks|
  {
    hide NextTok, Leads, Blank;
    if toks == [] {
      GapSkipped(pf, s, "");
      assert s + "" == s;
    } else {
      var gap: string, body: string, rest: string :|
        s == gap + body && Blank(gap) && Leads(pf, body, toks[0], rest) && Spells(pf, rest, toks[1..]);
      GapSkipped(pf, gap, body);
      LeadsNext(pf, body, toks[0], rest);
      SpellsTokens(pf, rest, toks[1..]);
      assert toks == [toks[0]] + toks[1..];
    }
  }

  lemma {:induction false} GapFound(s: string) returns (gap: string, body: string)
    ensures s == gap + body && Blank(gap) && (body != "" ==> !IsSpace(body[0]))
  {
    hide IsSpace, SpaceCode;
    if s != "" && IsSpace(s[0]) {
      CharClasses(s[0]);
      gap, body := GapFound(s[1..]);
      gap := [s[0]] + gap;
      assert s == [s[0]] + s[1..];
    } else {
      gap, body := "", s;
      assert "" + s == s;
    }
  }

  lemma {:induction false} TokensSpell(pf: FloatParser, s: string, toks: seq<Tok>)
    requires Tokenize(pf, s) == Ok(toks)
    ensures Spells(pf, s, toks)
    decreases |toks|
  {
    hide NextTok, Leads, IsSpace, SpaceCode;
    var gap, body := GapFound(s);
    GapSkipped(pf, gap, body);
    if body == "" {
      assert s == gap;
    } else {
      var (tok, rest) := NextTok(pf, body).value;
      NextFound(pf, body, tok, rest);
      assert toks[0] == tok && toks[1..] == Tokenize(pf, rest).value;
      TokensSpell(pf, rest, toks[1..]);
    }
  }

  /** Exactly which texts are which tokens. */
  lemma {:induction false} TokensIff(pf: FloatParser, s: string, toks: seq<Tok>)
    ensures Tokenize(pf, s) == Ok(toks) <==> Spells(pf, s, toks)
  {
    hide Tokenize, Spells;
    if Spells(pf, s, toks) {
      SpellsTokens(pf, s, toks);
    }
    if Tokenize(pf, s) == Ok(toks) {
      TokensSpell(pf, s, toks);
    }
  }

  /** Exactly which texts are queries, and what each asks. */
  lemma {:induction false} ParseQueryIff(pf: FloatParser, s: string, x: Expr)
    ensures ParseQuery(pf, s) == Ok(x) <==> exists toks :: Spells(pf, s, toks) && IsQuery(toks, x)
  {
    hide Tokenize, Spells, ParseExpr, IsQuery;
    forall toks
      ensures Tokenize(pf, s) == Ok(toks) <==> Spells(pf, s, toks)
    {
      TokensIff(pf, s, toks);
    }
    if Tokenize(pf, s).Ok? {
      QueryIff(Tokenize(pf, s).value, x);
    }
  }

  /** A bare word as the argument of a predicate: anything that can be written as one. */
  lemma {:induction false} BareArgument(pf: FloatParser, s: string)
    requires Lexeme(pf, s, Ident(s))
    ensures ParseQuery(pf, "path " + s) == Ok(Pred(PathGlob(s)))
    ensures ParseQuery(pf, "type " + s) == Ok(Pred(TypeIs(s)))
    ensures ParseQuery(pf, "name " + s) == Ok(Pred(NameGlob(s)))
    ensures ParseQuery(pf, "has " + s) == Ok(Pred(HasKey(s)))
  {
    hide ParseQuery, Lexeme;
    assert "path" + " " + s == "path " + s && "type" + " " + s == "type " + s;
    assert "name" + " " + s == "name " + s && "has" + " " + s == "has " + s;
    TwoWords(pf, "path", s, SPath(Bare(s)));
    TwoWords(pf, "type", s, SType(Bare(s)));
    TwoWords(pf, "name", s, SName(Bare(s)));
    TwoWords(pf, "has", s, SHas(Bare(s)));
  }

  lemma {:induction false} TwoWords(pf: FloatParser, word: string, s: string, p: Spelled)
    requires Lexeme(pf, s, Ident(s)) && word in {"path", "type", "name", "has"}
    requires Wellspelled(p) && SpelledToks(p) == [Ident(word), Ident(s)]
    ensures ParseQuery(pf, word + " " + s) == Ok(Pred(SpelledMeaning(p)))
  {
    hide Spells, IsQuery, SpelledToks, SpelledMeaning;
    var toks := [Ident(word), Ident(s)];
    TwoSpelled(pf, word, s);
    var e := Sentence(Term(false, Simple(p)), []);
    assert IsQuery(toks, Pred(SpelledMeaning(p))) by {
      SimpleSentence(p);
    }
    ParseQueryIff(pf, word + " " + s, Pred(SpelledMeaning(p)));
  }

  lemma {:induction false} SimpleSentence(p: Spelled)
    requires Wellspelled(p)
    ensures IsQuery(SpelledToks(p), Pred(SpelledMeaning(p)))
  {
    hide SpelledToks, SpelledMeaning, Wellspelled;
    var e := Sentence(Term(false, Simple(p)), []);
    assert SentenceOk(e);
    assert TermToks(e.first) == [] + SpelledToks(p) == SpelledToks(p);
    assert LinksToks([]) == [] && LinksOk([]);
    assert SentenceToks(e) == SpelledToks(p) + [] == SpelledToks(p);
    assert TermMeaning(e.first) == Pred(SpelledMeaning(p));
    assert Meaning(e) == Pred(SpelledMeaning(p));
  }

  lemma {:induction false} TwoSpelled(pf: FloatParser, word: string, s: string)
    requires Lexeme(pf, s, Ident(s)) && word in {"path", "type", "name", "has"}
    ensures Spells(pf, word + " " + s, [Ident(word), Ident(s)])
  {
    hide Lexeme;
    var rest := " " + s;
    assert Lexeme(pf, word, Ident(word)) by {
      WordLexeme(pf, word);
    }
    assert word + " " + s == "" + (word + rest) && Leads(pf, word + rest, Ident(word), rest);
    assert s + "" == s && Leads(pf, s, Ident(s), "");
    assert Spells(pf, "", []);
    assert [Ident(word), Ident(s)][1..] == [Ident(s)] && [Ident(s)][1..] == [];
    assert Spells(pf, rest, [Ident(s)]);
  }

  lemma {:induction false} WordLexeme(pf: FloatParser, word: string)
    requires word in {"path", "type", "name", "has"}
    ensures Lexeme(pf, word, Ident(word))
  {
  }
}
