/** The recursive-descent query parser, over the tokens still to be read. */
module QueryParse {
  import opened ByteStrings
  import opened Values
  import opened Numbers
  import opened Lexer
  import opened Query

  type Toks = seq<Tok>
  type Parsed<T> = Result<(T, Toks), ParseError>

  // ----- leaves -----

  function ExpectString(toks: Toks): (r: Parsed<string>)
    ensures r.Ok? ==> |r.value.1| < |toks|
  {
    if toks == [] then Err(Syntax)
    else match toks[0]
      case Text(s) => Ok((s, toks[1..]))
      case Ident(s) => Ok((s, toks[1..]))
      case _ => Err(Syntax)
  }

  function ExpectPath(toks: Toks): (r: Parsed<string>)
    ensures r.Ok? ==> |r.value.1| < |toks|
  {
    if toks != [] && toks[0].Op? && toks[0].op != "" && toks[0].op[0] == '/' then Ok((toks[0].op, toks[1..]))
    else ExpectString(toks)
  }

  function ExpectCmp(toks: Toks): (r: Parsed<CmpOp>)
    ensures r.Ok? ==> |r.value.1| < |toks|
  {
    if toks == [] || !toks[0].Op? then Err(Syntax)
    else if toks[0].op == "=" then Ok((Eq, toks[1..]))
    else if toks[0].op == "!=" then Ok((Ne, toks[1..]))
    else if toks[0].op == "<" then Ok((Lt, toks[1..]))
    else if toks[0].op == "<=" then Ok((Le, toks[1..]))
    else if toks[0].op == ">" then Ok((Gt, toks[1..]))
    else if toks[0].op == ">=" then Ok((Ge, toks[1..]))
    else Err(Syntax)
  }

  function ExpectInt(toks: Toks): (r: Parsed<i64>)
    ensures r.Ok? ==> |r.value.1| < |toks|
  {
    if toks != [] && toks[0].Integer? then Ok((toks[0].n, toks[1..])) else Err(Syntax)
  }

  function ExpectUint(toks: Toks): (r: Parsed<u64>)
    ensures r.Ok? ==> |r.value.1| < |toks|
  {
    var (n, rest) :- ExpectInt(toks);
    if n < 0 then Err(Syntax) else Ok((n, rest))
  }

  function ParseScalar(toks: Toks): (r: Parsed<Scalar>)
    ensures r.Ok? ==> |r.value.1| < |toks|
  {
    if toks == [] then Err(Syntax)
    else match toks[0]
      case Text(s) => Ok((Str(s), toks[1..]))
      case Integer(n) => Ok((Int(n), toks[1..]))
      case Real(bits) => Ok((Float(bits), toks[1..]))
      case Ident(s) =>
        Ok((if s == "null" then Null
            else if s == "true" then Bool(true)
            else if s == "false" then Bool(false)
            else Str(s), toks[1..]))
      case _ => Err(Syntax)
  }

  function ParsePredicate(toks: Toks): (r: Parsed<Predicate>)
    ensures r.Ok? ==> |r.value.1| < |toks|
  {
    if toks == [] || !toks[0].Ident? then Err(Syntax) else
    var name, rest := toks[0].name, toks[1..];
    if name == "path" then
      var (g, rest) :- ExpectPath(rest);
      Ok((PathGlob(g), rest))
    else if name == "type" then
      var (t, rest) :- ExpectString(rest);
      Ok((TypeIs(t), rest))
    else if name == "name" then
      var (g, rest) :- ExpectString(rest);
      Ok((NameGlob(g), rest))
    else if name == "value" then
      var (op, rest) :- ExpectCmp(rest);
      var (x, rest) :- ParseScalar(rest);
      Ok((ValueCmp(op, x), rest))
    else if name == "has" then
      var (k, rest) :- ExpectString(rest);
      Ok((HasKey(k), rest))
    else if name == "contains" then
      var (x, rest) :- ParseScalar(rest);
      Ok((Contains(Leaf(x)), rest))
    else if name == "at" then
      var (i, rest) :- ExpectUint(rest);
      var (op, rest) :- ExpectCmp(rest);
      var (x, rest) :- ParseScalar(rest);
      Ok((AtIndex(i, op, x), rest))
    else if name == "key" then
      var (op, rest) :- ExpectCmp(rest);
      var (x, rest) :- ParseScalar(rest);
      Ok((KeyCmp(op, x), rest))
    else if name == "size" then
      var (op, rest) :- ExpectCmp(rest);
      var (n, rest) :- ExpectInt(rest);
      Ok((SizeCmp(op, n), rest))
    else Err(Syntax)
  }

  // ----- expressions: term ((AND|OR) term)*, equal precedence, to the left -----

  predicate IsConnective(toks: Toks) {
    toks != [] && (toks[0] == Ident("AND") || toks[0] == Ident("OR"))
  }

  function Connect(isAnd: bool, left: Expr, right: Expr): Expr {
    if isAnd then And(left, right) else Or(left, right)
  }

  function ParseExpr(toks: Toks): (r: Parsed<Expr>)
    ensures r.Ok? ==> |r.value.1| < |toks|
    decreases |toks|, 3
  {
    var (left, rest) :- ParseTerm(toks);
    ParseChain(left, rest)
  }

  function ParseChain(left: Expr, toks: Toks): (r: Parsed<Expr>)
    ensures r.Ok? ==> |r.value.1| <= |toks|
    decreases |toks|, 0
  {
    if !IsConnective(toks) then Ok((left, toks)) else
    var (right, rest) :- ParseTerm(toks[1..]);
    ParseChain(Connect(toks[0] == Ident("AND"), left, right), rest)
  }

  function ParseTerm(toks: Toks): (r: Parsed<Expr>)
    ensures r.Ok? ==> |r.value.1| < |toks|
    decreases |toks|, 2
  {
    if toks != [] && toks[0] == Ident("NOT") then
      var (inner, rest) :- ParsePrimary(toks[1..]);
      Ok((Not(inner), rest))
    else ParsePrimary(toks)
  }

  function ParsePrimary(toks: Toks): (r: Parsed<Expr>)
    ensures r.Ok? ==> |r.value.1| < |toks|
    decreases |toks|, 1
  {
    if toks != [] && toks[0] == LParen then
      var (e, rest) :- ParseExpr(toks[1..]);
      if rest != [] && rest[0] == RParen then Ok((e, rest[1..])) else Err(Syntax)
    else
      var (p, rest) :- ParsePredicate(toks);
      Ok((Pred(p), rest))
  }

  function ParseQuery(pf: FloatParser, input: string): Result<Expr, ParseError> {
    var toks :- Tokenize(pf, input);
    var (e, rest) :- ParseExpr(toks);
    if rest != [] then Err(Syntax) else Ok(e)
  }

  // ----- which expressions the parser can produce -----

  /** Anything but a byte string can be written in a query. */
  predicate ScalarProducible(x: Scalar) {
    !x.Bin?
  }

  predicate PredProducible(p: Predicate) {
    match p
    case ValueCmp(_, x) => ScalarProducible(x)
    case Contains(v) => v.Leaf? && ScalarProducible(v.scalar)
    case AtIndex(i, _, x) => i < I64 && ScalarProducible(x)
    case KeyCmp(_, x) => ScalarProducible(x)
    case _ => true
  }

  predicate Producible(e: Expr) {
    match e
    case And(a, b) => Producible(a) && Producible(b)
    case Or(a, b) => Producible(a) && Producible(b)
    case Not(a) => Producible(a)
    case Pred(p) => PredProducible(p)
  }

  predicate PredFloatFree(p: Predicate) {
    match p
    case ValueCmp(_, x) => !x.Float?
    case Contains(v) => v.Leaf? ==> !v.scalar.Float?
    case AtIndex(_, _, x) => !x.Float?
    case KeyCmp(_, x) => !x.Float?
    case _ => true
  }

  predicate FloatFree(e: Expr) {
    match e
    case And(a, b) => FloatFree(a) && FloatFree(b)
    case Or(a, b) => FloatFree(a) && FloatFree(b)
    case Not(a) => FloatFree(a)
    case Pred(p) => PredFloatFree(p)
  }

  lemma {:induction false} ExprProducible(toks: Toks)
    ensures ParseExpr(toks).Ok? ==> Producible(ParseExpr(toks).value.0)
    decreases |toks|, 3
  {
    TermProducible(toks);
    if ParseTerm(toks).Ok? {
      ChainProducible(ParseTerm(toks).value.0, ParseTerm(toks).value.1);
    }
  }

  lemma {:induction false} ChainProducible(left: Expr, toks: Toks)
    requires Producible(left)
    ensures ParseChain(left, toks).Ok? ==> Producible(ParseChain(left, toks).value.0)
    decreases |toks|, 0
  {
    if IsConnective(toks) {
      TermProducible(toks[1..]);
      if ParseTerm(toks[1..]).Ok? {
        var (right, rest) := ParseTerm(toks[1..]).value;
        ChainProducible(Connect(toks[0] == Ident("AND"), left, right), rest);
      }
    }
  }

  lemma {:induction false} TermProducible(toks: Toks)
    ensures ParseTerm(toks).Ok? ==> Producible(ParseTerm(toks).value.0)
    decreases |toks|, 2
  {
    if toks != [] && toks[0] == Ident("NOT") {
      PrimaryProducible(toks[1..]);
    } else {
      PrimaryProducible(toks);
    }
  }

  lemma {:induction false} PrimaryProducible(toks: Toks)
    ensures ParsePrimary(toks).Ok? ==> Producible(ParsePrimary(toks).value.0)
    decreases |toks|, 1
  {
    if toks != [] && toks[0] == LParen {
      ExprProducible(toks[1..]);
    }
  }

  // ----- writing expressions down -----

  function CmpText(op: CmpOp): string {
    match op
    case Eq => "="
    case Ne => "!="
    case Lt => "<"
    case Le => "<="
    case Gt => ">"
    case Ge => ">="
  }

  function ScalarTok(x: Scalar): Tok
    requires ScalarProducible(x)
  {
    match x
    case Null => Ident("null")
    case Bool(b) => Ident(if b then "true" else "false")
    case Int(n) => Integer(n)
    case Float(bits) => Real(bits)
    case Str(s) => Text(s)
  }

  function PredToks(p: Predicate): Toks
    requires PredProducible(p)
  {
    match p
    case PathGlob(g) => [Ident("path"), Text(g)]
    case TypeIs(t) => [Ident("type"), Text(t)]
    case NameGlob(g) => [Ident("name"), Text(g)]
    case ValueCmp(op, x) => [Ident("value"), Op(CmpText(op)), ScalarTok(x)]
    case HasKey(k) => [Ident("has"), Text(k)]
    case Contains(v) => [Ident("contains"), ScalarTok(v.scalar)]
    case AtIndex(i, op, x) => [Ident("at"), Integer(i), Op(CmpText(op)), ScalarTok(x)]
    case KeyCmp(op, x) => [Ident("key"), Op(CmpText(op)), ScalarTok(x)]
    case SizeCmp(op, n) => [Ident("size"), Op(CmpText(op)), Integer(n)]
  }

  function ConnectiveTok(isAnd: bool): Tok {
    Ident(if isAnd then "AND" else "OR")
  }

  /** Strings quoted; everything but a predicate in parentheses. */
  function PrimaryToks(e: Expr): Toks
    requires Producible(e)
    decreases e, 0
  {
    match e
    case Pred(p) => PredToks(p)
    case Not(a) => [LParen] + TermToks(e) + [RParen]
    case And(a, b) => [LParen] + (TermToks(a) + ([ConnectiveTok(true)] + TermToks(b))) + [RParen]
    case Or(a, b) => [LParen] + (TermToks(a) + ([ConnectiveTok(false)] + TermToks(b))) + [RParen]
  }

  function TermToks(e: Expr): Toks
    requires Producible(e)
    decreases if e.Not? then e.inner else e, 1
  {
    if e.Not? then [Ident("NOT")] + PrimaryToks(e.inner) else PrimaryToks(e)
  }

  // ----- reading back what was written -----

  lemma {:induction false} CmpBack(op: CmpOp, rest: Toks)
    ensures ExpectCmp([Op(CmpText(op))] + rest) == Ok((op, rest))
  {
    assert ([Op(CmpText(op))] + rest)[1..] == rest;
  }

  lemma {:induction false} ScalarBack(x: Scalar, rest: Toks)
    requires ScalarProducible(x)
    ensures ParseScalar([ScalarTok(x)] + rest) == Ok((x, rest))
  {
    assert ([ScalarTok(x)] + rest)[1..] == rest;
  }

  lemma {:induction false} CmpScalarBack(op: CmpOp, x: Scalar, rest: Toks)
    requires ScalarProducible(x)
    ensures var toks := [Op(CmpText(op)), ScalarTok(x)] + rest;
            ExpectCmp(toks) == Ok((op, [ScalarTok(x)] + rest)) && ParseScalar([ScalarTok(x)] + rest) == Ok((x, rest))
  {
    var toks := [Op(CmpText(op)), ScalarTok(x)] + rest;
    assert toks == [Op(CmpText(op))] + ([ScalarTok(x)] + rest);
    CmpBack(op, [ScalarTok(x)] + rest);
    ScalarBack(x, rest);
  }

  lemma {:induction false} ComparisonBack(p: Predicate, rest: Toks)
    requires PredProducible(p) && (p.ValueCmp? || p.KeyCmp? || p.AtIndex? || p.SizeCmp?)
    ensures ParsePredicate(PredToks(p) + rest) == Ok((p, rest))
  {
    var toks := PredToks(p) + rest;
    var tail := PredToks(p)[1..] + rest;
    assert toks[1..] == tail;
    match p
    case ValueCmp(op, x) =>
      assert tail == [Op(CmpText(op)), ScalarTok(x)] + rest;
      CmpScalarBack(op, x, rest);
    case KeyCmp(op, x) =>
      assert tail == [Op(CmpText(op)), ScalarTok(x)] + rest;
      CmpScalarBack(op, x, rest);
    case AtIndex(i, op, x) =>
      assert tail[1..] == [Op(CmpText(op)), ScalarTok(x)] + rest;
      CmpScalarBack(op, x, rest);
    case SizeCmp(op, n) =>
      assert tail == [Op(CmpText(op))] + ([Integer(n)] + rest);
      CmpBack(op, [Integer(n)] + rest);
      assert ([Integer(n)] + rest)[1..] == rest;
  }

  lemma {:induction false} PredBack(p: Predicate, rest: Toks)
    requires PredProducible(p)
    ensures ParsePredicate(PredToks(p) + rest) == Ok((p, rest))
  {
    if p.ValueCmp? || p.KeyCmp? || p.AtIndex? || p.SizeCmp? {
      ComparisonBack(p, rest);
    } else {
      var tail := PredToks(p)[1..] + rest;
      assert (PredToks(p) + rest)[1..] == tail && tail[1..] == rest;
      if p.Contains? {
        assert tail == [ScalarTok(p.needle.scalar)] + rest;
        ScalarBack(p.needle.scalar, rest);
      }
    }
  }

  type Link = (bool, Expr)

  ghost predicate LinksProducible(items: seq<Link>) {
    forall i | 0 <= i < |items| :: Producible(items[i].1)
  }

  function ChainToks(items: seq<Link>): Toks
    requires forall i | 0 <= i < |items| :: Producible(items[i].1)
  {
    if items == [] then []
    else ([ConnectiveTok(items[0].0)] + TermToks(items[0].1)) + ChainToks(items[1..])
  }

  /** Equal precedence, grouping to the left. */
  function FoldChain(left: Expr, items: seq<Link>): Expr
    decreases items
  {
    if items == [] then left else FoldChain(Connect(items[0].0, left, items[0].1), items[1..])
  }

  lemma {:induction false} PrimaryHead(e: Expr)
    requires Producible(e)
    ensures PrimaryToks(e) != [] && PrimaryToks(e)[0] != Ident("NOT")
  {
  }

  lemma {:induction false} TermBack(e: Expr, rest: Toks)
    requires Producible(e)
    ensures ParseTerm(TermToks(e) + rest) == Ok((e, rest))
    decreases if e.Not? then e.inner else e, 1
  {
    var toks := TermToks(e) + rest;
    if e.Not? {
      assert toks[1..] == PrimaryToks(e.inner) + rest;
      PrimaryBack(e.inner, rest);
    } else {
      PrimaryHead(e);
      assert toks[0] == PrimaryToks(e)[0];
      PrimaryBack(e, rest);
    }
  }

  lemma {:induction false} ParenBack(inner: Toks, e: Expr, rest: Toks)
    requires ParseExpr(inner + ([RParen] + rest)) == Ok((e, [RParen] + rest))
    ensures ParsePrimary([LParen] + inner + [RParen] + rest) == Ok((e, rest))
  {
    var toks := [LParen] + inner + [RParen] + rest;
    assert toks[1..] == inner + ([RParen] + rest);
    assert ([RParen] + rest)[1..] == rest;
  }

  lemma {:induction false} ExprStep(toks: Toks, left: Expr, rest: Toks)
    requires ParseTerm(toks) == Ok((left, rest))
    ensures ParseExpr(toks) == ParseChain(left, rest)
  {
  }

  lemma {:induction false} ChainStep(left: Expr, isAnd: bool, tail: Toks, right: Expr, rest: Toks)
    requires ParseTerm(tail) == Ok((right, rest))
    ensures ParseChain(left, [ConnectiveTok(isAnd)] + tail) == ParseChain(Connect(isAnd, left, right), rest)
  {
    assert ([ConnectiveTok(isAnd)] + tail)[1..] == tail;
  }

  lemma {:induction false} PairBack(isAnd: bool, a: Expr, ta: Toks, b: Expr, tb: Toks, rest: Toks)
    requires !IsConnective(rest)
    requires ParseTerm(ta + ([ConnectiveTok(isAnd)] + (tb + rest))) == Ok((a, [ConnectiveTok(isAnd)] + (tb + rest)))
    requires ParseTerm(tb + rest) == Ok((b, rest))
    ensures ParseExpr((ta + ([ConnectiveTok(isAnd)] + tb)) + rest) == Ok((Connect(isAnd, a, b), rest))
  {
    var tail := [ConnectiveTok(isAnd)] + (tb + rest);
    assert (ta + ([ConnectiveTok(isAnd)] + tb)) + rest == ta + tail;
    ExprStep(ta + tail, a, tail);
    ChainStep(a, isAnd, tb + rest, b, rest);
  }

  lemma {:induction false} PrimaryBack(e: Expr, rest: Toks)
    requires Producible(e)
    ensures ParsePrimary(PrimaryToks(e) + rest) == Ok((e, rest))
    decreases e, 0
  {
    match e
    case Pred(p) =>
      PredBack(p, rest);
      assert PredToks(p)[0].Ident?;
    case Not(a) =>
      TermBack(e, [RParen] + rest);
      assert !IsConnective([RParen] + rest);
      ParenBack(TermToks(e), e, rest);
    case And(a, b) =>
      TermBack(a, [ConnectiveTok(true)] + (TermToks(b) + ([RParen] + rest)));
      TermBack(b, [RParen] + rest);
      var inner := TermToks(a) + ([ConnectiveTok(true)] + TermToks(b));
      PairBack(true, a, TermToks(a), b, TermToks(b), [RParen] + rest);
      ParenBack(inner, e, rest);
    case Or(a, b) =>
      TermBack(a, [ConnectiveTok(false)] + (TermToks(b) + ([RParen] + rest)));
      TermBack(b, [RParen] + rest);
      var inner := TermToks(a) + ([ConnectiveTok(false)] + TermToks(b));
      PairBack(false, a, TermToks(a), b, TermToks(b), [RParen] + rest);
      ParenBack(inner, e, rest);
  }

  lemma {:induction false} ChainSplit(a: Toks, b: Toks, c: Toks, d: Toks)
    ensures ((a + b) + c) + d == a + (b + (c + d))
  {
  }

  lemma {:induction false} ChainBack(left: Expr, items: seq<Link>, rest: Toks)
    requires LinksProducible(items) && !IsConnective(rest)
    ensures ParseChain(left, ChainToks(items) + rest) == Ok((FoldChain(left, items), rest))
    decreases items
  {
    if items == [] {
      assert ChainToks(items) + rest == rest;
    } else {
      var (isAnd, e) := items[0];
      var tail := ChainToks(items[1..]) + rest;
      ChainSplit([ConnectiveTok(isAnd)], TermToks(e), ChainToks(items[1..]), rest);
      TermBack(e, tail);
      ChainStep(left, isAnd, TermToks(e) + tail, e, tail);
      ChainBack(Connect(isAnd, left, e), items[1..], rest);
    }
  }

  // ----- the texts -----

  predicate Lettered(s: string) {
    s != "" && forall i | 0 <= i < |s| :: IsLetter(s[i])
  }

  lemma {:induction false} WordWritable(s: string)
    requires Lettered(s)
    ensures Writable(Ident(s))
  {
    assert IsLetter(s[0]);
  }

  ghost predicate AllWritable(toks: Toks) {
    forall i | 0 <= i < |toks| :: Writable(toks[i])
  }

  lemma {:induction false} ScalarWritable(x: Scalar)
    requires ScalarProducible(x) && !x.Float?
    ensures Writable(ScalarTok(x))
  {
    WordWritable("null");
    WordWritable("true");
    WordWritable("false");
  }

  function PredWord(p: Predicate): string {
    match p
    case PathGlob(_) => "path"
    case TypeIs(_) => "type"
    case NameGlob(_) => "name"
    case ValueCmp(_, _) => "value"
    case HasKey(_) => "has"
    case Contains(_) => "contains"
    case AtIndex(_, _, _) => "at"
    case KeyCmp(_, _) => "key"
    case SizeCmp(_, _) => "size"
  }

  lemma {:induction false} PredWritable(p: Predicate)
    requires PredProducible(p) && PredFloatFree(p)
    ensures AllWritable(PredToks(p))
  {
    assert Lettered(PredWord(p));
    WordWritable(PredWord(p));
    assert PredToks(p)[0] == Ident(PredWord(p));
    match p
    case ValueCmp(op, x) => ScalarWritable(x);
    case Contains(v) => ScalarWritable(v.scalar);
    case AtIndex(_, op, x) => ScalarWritable(x);
    case KeyCmp(op, x) => ScalarWritable(x);
    case _ =>
  }

  lemma {:induction false} TermWritable(e: Expr)
    requires Producible(e) && FloatFree(e)
    ensures AllWritable(TermToks(e))
    decreases if e.Not? then e.inner else e, 1
  {
    if e.Not? {
      WordWritable("NOT");
      PrimaryWritable(e.inner);
    } else {
      PrimaryWritable(e);
    }
  }

  lemma {:induction false} PrimaryWritable(e: Expr)
    requires Producible(e) && FloatFree(e)
    ensures AllWritable(PrimaryToks(e))
    decreases e, 0
  {
    WordWritable("AND");
    WordWritable("OR");
    match e
    case Pred(p) => PredWritable(p);
    case Not(a) => TermWritable(e);
    case And(a, b) => TermWritable(a); TermWritable(b);
    case Or(a, b) => TermWritable(a); TermWritable(b);
  }

  /** Every expression the parser can produce, floats aside, is produced from its own text. */
  lemma {:induction false} PrintParse(pf: FloatParser, e: Expr)
    requires Producible(e) && FloatFree(e)
    ensures ParseQuery(pf, Spaced(TermToks(e))) == Ok(e)
  {
    TermWritable(e);
    TokenizeSpaced(pf, TermToks(e));
    TermBack(e, []);
    assert TermToks(e) + [] == TermToks(e);
    ExprStep(TermToks(e), e, []);
  }

  /** And it produces no others. */
  lemma {:induction false} ParsedIsProducible(pf: FloatParser, input: string)
    requires ParseQuery(pf, input).Ok?
    ensures Producible(ParseQuery(pf, input).value)
  {
    ExprProducible(Tokenize(pf, input).value);
  }

  lemma {:induction false} ChainWritable(items: seq<Link>)
    requires LinksProducible(items) && forall i | 0 <= i < |items| :: FloatFree(items[i].1)
    ensures AllWritable(ChainToks(items))
  {
    if items != [] {
      WordWritable(if items[0].0 then "AND" else "OR");
      TermWritable(items[0].1);
      ChainWritable(items[1..]);
    }
  }

  /** A chain of terms without parentheses is the left fold of its terms, AND and OR alike. */
  lemma {:induction false} ChainParsesLeft(pf: FloatParser, first: Expr, items: seq<Link>)
    requires Producible(first) && FloatFree(first)
    requires LinksProducible(items) && forall i | 0 <= i < |items| :: FloatFree(items[i].1)
    ensures ParseQuery(pf, Spaced(TermToks(first) + ChainToks(items))) == Ok(FoldChain(first, items))
  {
    var toks := TermToks(first) + ChainToks(items);
    TermWritable(first);
    ChainWritable(items);
    TokenizeSpaced(pf, toks);
    TermBack(first, ChainToks(items));
    ChainBack(first, items, []);
    assert ChainToks(items) + [] == ChainToks(items);
  }
}
