/** What a query answers: its hits as sets of paths, connective by connective and predicate by predicate. */
module QueryMeaning {
  import opened ByteStrings
  import opened Utf8
  import opened Strings
  import opened Orders
  import opened Values
  import opened Numbers
  import opened Storage
  import opened Paths
  import opened Glob
  import opened Namespace
  import opened TreeModel
  import opened Listing
  import opened Walking
  import opened JsonTexts
  import opened Query
  import opened Reading

  /** The paths a query returns. */
  ghost function Answers(s: Store, rows: Rows, t: NsTree, expr: Expr): set<Path>
    requires Represents(s, rows, t) && Execute(s, rows, t, expr).Ok?
  {
    set h | h in Execute(s, rows, t, expr).value :: h.path
  }

  /** The name each kind goes by. */
  function KindName(e: Entry): string {
    match e
    case Directory => "directory"
    case ValueEntry(Leaf(Null)) => "null"
    case ValueEntry(Leaf(Bool(_))) => "bool"
    case ValueEntry(Leaf(Int(_))) => "int"
    case ValueEntry(Leaf(Float(_))) => "float"
    case ValueEntry(Leaf(Str(_))) => "string"
    case ValueEntry(Leaf(Bin(_))) => "bytes"
    case ValueEntry(Hash(_)) => "hash"
    case ValueEntry(Set(_)) => "set"
    case ValueEntry(List(_)) => "list"
    case ValueEntry(Tree(_)) => "tree"
  }

  // ----- order -----

  function KindOf(x: Scalar): nat {
    match x
    case Null => 0
    case Bool(_) => 1
    case Int(_) => 2
    case Float(_) => 3
    case Str(_) => 4
    case Bin(_) => 5
  }

  /** The first difference of two byte strings is at `k`, where the first ends or is smaller. */
  predicate Differ(a: Bytes, b: Bytes, k: nat) {
    k <= |a| && k < |b| && a[..k] == b[..k] && (k == |a| || a[k] < b[k])
  }

  /** One byte string before another: the first difference decides, and a prefix comes first. */
  ghost predicate BytesBefore(a: Bytes, b: Bytes) {
    exists k: nat :: Differ(a, b, k)
  }

  /** Null, bools, integers, floats, strings, byte strings; within a kind by content. */
  ghost predicate Before(x: Scalar, y: Scalar) {
    match (x, y)
    case (Bool(a), Bool(b)) => !a && b
    case (Int(a), Int(b)) => a < b
    case (Float(a), Float(b)) => a < b
    case (Str(a), Str(b)) => BytesBefore(ToUtf8(a), ToUtf8(b))
    case (Bin(a), Bin(b)) => BytesBefore(a, b)
    case _ => KindOf(x) < KindOf(y)
  }

  lemma {:induction false} LessIsBefore(a: Bytes, b: Bytes)
    ensures Less(a, b) <==> BytesBefore(a, b)
    decreases |a|
  {
    if a != [] && b != [] && a[0] == b[0] {
      LessIsBefore(a[1..], b[1..]);
      BeforeBehind(a, b);
    } else {
      BeforeAtOnce(a, b);
    }
  }

  lemma {:induction false} BeforeAtOnce(a: Bytes, b: Bytes)
    requires a == [] || b == [] || a[0] != b[0]
    ensures BytesBefore(a, b) <==> b != [] && (a == [] || a[0] < b[0])
  {
    if b != [] && (a == [] || a[0] < b[0]) {
      assert Differ(a, b, 0);
    }
    forall k: nat | 0 < k <= |a| && k < |b|
      ensures !Differ(a, b, k)
    {
      assert a[..k][0] == a[0] && b[..k][0] == b[0];
    }
  }

  lemma {:induction false} BeforeBehind(a: Bytes, b: Bytes)
    requires a != [] && b != [] && a[0] == b[0]
    ensures BytesBefore(a, b) <==> BytesBefore(a[1..], b[1..])
  {
    hide Differ;
    if k: nat :| Differ(a, b, k) {
      DifferShift(a, b, k - 1);
    }
    if k: nat :| Differ(a[1..], b[1..], k) {
      DifferShift(a, b, k);
      assert Differ(a, b, k + 1);
    }
  }

  lemma {:induction false} DifferShift(a: Bytes, b: Bytes, k: int)
    requires a != [] && b != [] && a[0] == b[0] && k >= -1
    ensures k == -1 ==> !Differ(a, b, 0)
    ensures k >= 0 ==> (Differ(a, b, k + 1) <==> Differ(a[1..], b[1..], k))
  {
    if 0 <= k < |a| && k < |b| {
      assert a[..k + 1] == [a[0]] + a[1..][..k] && b[..k + 1] == [b[0]] + b[1..][..k];
    }
  }

  /** The order of scalars. */
  lemma {:induction false} ScalarOrderIs(x: Scalar, y: Scalar)
    ensures ScalarLess(x, y) <==> Before(x, y)
  {
    hide BytesBefore, Less, StrLess;
    if x.Str? && y.Str? {
      StrLessIsByteOrder(x.s, y.s);
      LessIsBefore(ToUtf8(x.s), ToUtf8(y.s));
    } else if x.Bin? && y.Bin? {
      LessIsBefore(x.data, y.data);
    }
  }

  /** The six comparisons, given how the two sides stand to each other. */
  predicate Compares(op: CmpOp, less: bool, equal: bool, greater: bool) {
    match op
    case Eq => equal
    case Ne => less || greater
    case Lt => less
    case Le => less || equal
    case Gt => greater
    case Ge => greater || equal
  }

  lemma {:induction false} ComparesScalars(op: CmpOp, x: Scalar, y: Scalar)
    ensures CmpScalar(op, x, y) <==> Compares(op, Before(x, y), x == y, Before(y, x))
  {
    hide Before, ScalarLess;
    ScalarOrderIs(x, y);
    ScalarOrderIs(y, x);
    CmpTrichotomy(x, y);
  }

  lemma {:induction false} ComparesInts(op: CmpOp, m: int, n: int)
    ensures CmpInt(op, m, n) <==> Compares(op, m < n, m == n, m > n)
  {
  }

  // ----- the answers and the entries of the tree -----

  lemma {:induction false} Answered(s: Store, rows: Rows, t: NsTree, expr: Expr, p: Path)
    requires Represents(s, rows, t) && Execute(s, rows, t, expr).Ok?
    ensures p in Answers(s, rows, t, expr) <==>
            p in t.live && GetAbs(t, p).Ok? && EvalExpr(expr, p, GetAbs(t, p).value)
  {
    hide Represents, Execute, EvalExpr;
    ExecuteSpec(s, rows, t, expr);
    var hits := Execute(s, rows, t, expr).value;
    if p in t.live && GetAbs(t, p).Ok? && EvalExpr(expr, p, GetAbs(t, p).value) {
      var h := Hit(p, EntryType(GetAbs(t, p).value));
      assert HitOf(t, expr, h);
      assert h in hits;
    }
    if p in Answers(s, rows, t, expr) {
      var h :| h in hits && h.path == p;
      assert HitOf(t, expr, h);
    }
  }

  /** Every hit carries the name of its kind, and no path is hit twice. */
  lemma {:induction false} HitKinds(s: Store, rows: Rows, t: NsTree, expr: Expr, h: Hit)
    requires Represents(s, rows, t) && Execute(s, rows, t, expr).Ok?
    ensures h in Execute(s, rows, t, expr).value <==>
            && h.path in Answers(s, rows, t, expr)
            && GetAbs(t, h.path).Ok? && h.typeName == KindName(GetAbs(t, h.path).value)
    ensures Distinct(Execute(s, rows, t, expr).value)
  {
    hide Represents, Execute, EvalExpr, EntryType, KindName, GetAbs;
    ExecuteSpec(s, rows, t, expr);
    Answered(s, rows, t, expr, h.path);
    if GetAbs(t, h.path).Ok? {
      KindNameIs(GetAbs(t, h.path).value);
    }
    assert h in Execute(s, rows, t, expr).value <==> HitOf(t, expr, h);
  }

  lemma {:induction false} KindNameIs(e: Entry)
    ensures EntryType(e) == KindName(e)
  {
  }

  // ----- connectives -----

  lemma {:induction false} AndAnswers(s: Store, rows: Rows, t: NsTree, a: Expr, b: Expr)
    requires Represents(s, rows, t)
    requires Execute(s, rows, t, And(a, b)).Ok? && Execute(s, rows, t, a).Ok? && Execute(s, rows, t, b).Ok?
    ensures Answers(s, rows, t, And(a, b)) == Answers(s, rows, t, a) * Answers(s, rows, t, b)
  {
    hide Represents, Execute, Answers, GetAbs;
    forall p
      ensures p in Answers(s, rows, t, And(a, b)) <==> p in Answers(s, rows, t, a) && p in Answers(s, rows, t, b)
    {
      Answered(s, rows, t, And(a, b), p);
      Answered(s, rows, t, a, p);
      Answered(s, rows, t, b, p);
    }
  }

  lemma {:induction false} OrAnswers(s: Store, rows: Rows, t: NsTree, a: Expr, b: Expr)
    requires Represents(s, rows, t)
    requires Execute(s, rows, t, Or(a, b)).Ok? && Execute(s, rows, t, a).Ok? && Execute(s, rows, t, b).Ok?
    ensures Answers(s, rows, t, Or(a, b)) == Answers(s, rows, t, a) + Answers(s, rows, t, b)
  {
    hide Represents, Execute, Answers, GetAbs;
    forall p
      ensures p in Answers(s, rows, t, Or(a, b)) <==> p in Answers(s, rows, t, a) || p in Answers(s, rows, t, b)
    {
      Answered(s, rows, t, Or(a, b), p);
      Answered(s, rows, t, a, p);
      Answered(s, rows, t, b, p);
    }
  }

  lemma {:induction false} NotAnswers(s: Store, rows: Rows, t: NsTree, a: Expr)
    requires Represents(s, rows, t) && Execute(s, rows, t, Expr.Not(a)).Ok? && Execute(s, rows, t, a).Ok?
    ensures Answers(s, rows, t, Expr.Not(a)) == t.live.Keys - Answers(s, rows, t, a)
  {
    hide Represents, Execute, Answers, GetAbs;
    AllReadable(s, rows, t, Expr.Not(a));
    forall p
      ensures p in Answers(s, rows, t, Expr.Not(a)) <==> p in t.live && p !in Answers(s, rows, t, a)
    {
      Answered(s, rows, t, Expr.Not(a), p);
      Answered(s, rows, t, a, p);
    }
  }

  /** A query that looks up no type reads every node. */
  lemma {:induction false} AllReadable(s: Store, rows: Rows, t: NsTree, expr: Expr)
    requires Represents(s, rows, t) && Execute(s, rows, t, expr).Ok? && RequiredType(expr).None?
    ensures forall p | p in t.live :: GetAbs(t, p).Ok?
  {
    FullScanSpec(s, rows, t, expr);
  }

  // ----- predicates -----

  /** `value op x`: the scalars that compare. */
  lemma {:induction false} ValueAnswers(s: Store, rows: Rows, t: NsTree, op: CmpOp, x: Scalar, q: Path)
    requires Represents(s, rows, t) && Execute(s, rows, t, Pred(ValueCmp(op, x))).Ok?
    ensures q in Answers(s, rows, t, Pred(ValueCmp(op, x))) <==>
            exists y: Scalar :: GetAbs(t, q) == Ok(ValueEntry(Leaf(y))) &&
                                Compares(op, Before(y, x), y == x, Before(x, y))
  {
    hide Represents, Execute, Answers, CmpScalar, Compares, Before;
    Answered(s, rows, t, Pred(ValueCmp(op, x)), q);
    forall y: Scalar
      ensures CmpScalar(op, y, x) <==> Compares(op, Before(y, x), y == x, Before(x, y))
    {
      ComparesScalars(op, y, x);
    }
  }

  /** `has k`: hashes with that field, trees with that string key or the integer key it spells. */
  lemma {:induction false} HasAnswers(s: Store, rows: Rows, t: NsTree, k: string, q: Path)
    requires Represents(s, rows, t) && Execute(s, rows, t, Pred(HasKey(k))).Ok?
    ensures q in Answers(s, rows, t, Pred(HasKey(k))) <==>
            && GetAbs(t, q).Ok? && GetAbs(t, q).value.ValueEntry?
            && match GetAbs(t, q).value.value
               case Hash(fs) => exists f :: f in fs && f.key == k
               case Tree(es) => exists e :: e in es && (e.key == Str(k) || (e.key.Int? && IsInteger(k, e.key.n)))
               case _ => false
  {
    hide Represents, Execute, Answers, GetAbs, ParseI64, IsInteger;
    Answered(s, rows, t, Pred(HasKey(k)), q);
    GotIsLive(t, q);
    if GetAbs(t, q).Ok? && GetAbs(t, q).value.ValueEntry? {
      HasMeans(k, GetAbs(t, q).value.value);
    }
  }

  lemma {:induction false} GotIsLive(t: NsTree, q: Path)
    ensures GetAbs(t, q).Ok? ==> q in t.live
  {
  }

  lemma {:induction false} HasMeans(k: string, v: Value)
    ensures EvalValue(HasKey(k), v) <==>
            match v
            case Hash(fs) => exists f :: f in fs && f.key == k
            case Tree(es) => exists e :: e in es && (e.key == Str(k) || (e.key.Int? && IsInteger(k, e.key.n)))
            case _ => false
  {
    hide ParseI64, IsInteger;
    if v.Tree? {
      forall n: i64
        ensures ParseI64(k) == Some(n) <==> IsInteger(k, n)
      {
        IntegerIff(k, n);
      }
      HasEntryIs(v.entries, Str(k));
      if ParseI64(k).Some? {
        HasEntryIs(v.entries, Int(ParseI64(k).value));
      }
    } else if v.Hash? {
      HasEntryIs(v.fields, k);
    }
  }

  lemma {:induction false} HasEntryIs<K>(es: seq<Pair<K>>, k: K)
    ensures HasEntry(es, k) <==> exists e :: e in es && e.key == k
  {
    assert forall i | 0 <= i < |es| :: es[i] in es;
  }

  /** `contains x`: structures with that value among their members, items, or the values of their fields. */
  lemma {:induction false} ContainsAnswers(s: Store, rows: Rows, t: NsTree, x: Value, q: Path)
    requires Represents(s, rows, t) && Execute(s, rows, t, Pred(Contains(x))).Ok?
    ensures q in Answers(s, rows, t, Pred(Contains(x))) <==>
            && GetAbs(t, q).Ok? && GetAbs(t, q).value.ValueEntry?
            && match GetAbs(t, q).value.value
               case Leaf(_) => false
               case Set(ms) => exists m :: m in ms && m == x
               case List(xs) => exists m :: m in xs && m == x
               case Hash(fs) => exists f :: f in fs && f.val == x
               case Tree(es) => exists e :: e in es && e.val == x
  {
    hide Represents, Execute, Answers, GetAbs;
    Answered(s, rows, t, Pred(Contains(x)), q);
    GotIsLive(t, q);
    if GetAbs(t, q).Ok? && GetAbs(t, q).value.ValueEntry? {
      ContainsMeans(x, GetAbs(t, q).value.value);
    }
  }

  lemma {:induction false} ContainsMeans(x: Value, v: Value)
    ensures EvalValue(Contains(x), v) <==>
            match v
            case Leaf(_) => false
            case Set(ms) => exists m :: m in ms && m == x
            case List(xs) => exists m :: m in xs && m == x
            case Hash(fs) => exists f :: f in fs && f.val == x
            case Tree(es) => exists e :: e in es && e.val == x
  {
    match v
    case Hash(fs) => HasValIs(fs, x);
    case Tree(es) => HasValIs(es, x);
    case _ =>
  }

  lemma {:induction false} HasValIs<K>(es: seq<Pair<K>>, x: Value)
    ensures HasVal(es, x) <==> exists e :: e in es && e.val == x
  {
    assert forall i | 0 <= i < |es| :: es[i] in es;
  }

  /** `at i op x`: lists with a scalar at that index, counted from zero, that compares. */
  lemma {:induction false} AtAnswers(s: Store, rows: Rows, t: NsTree, i: u64, op: CmpOp, x: Scalar, q: Path)
    requires Represents(s, rows, t) && Execute(s, rows, t, Pred(AtIndex(i, op, x))).Ok?
    ensures q in Answers(s, rows, t, Pred(AtIndex(i, op, x))) <==>
            exists xs: seq<Value>, y: Scalar ::
              && GetAbs(t, q) == Ok(ValueEntry(List(xs))) && i < |xs| && xs[i] == Leaf(y)
              && Compares(op, Before(y, x), y == x, Before(x, y))
  {
    hide Represents, Execute, Answers, CmpScalar, Compares, Before;
    Answered(s, rows, t, Pred(AtIndex(i, op, x)), q);
    forall y: Scalar
      ensures CmpScalar(op, y, x) <==> Compares(op, Before(y, x), y == x, Before(x, y))
    {
      ComparesScalars(op, y, x);
    }
  }

  /** `key op x`: trees with a key that compares. */
  lemma {:induction false} KeyAnswers(s: Store, rows: Rows, t: NsTree, op: CmpOp, x: Scalar, q: Path)
    requires Represents(s, rows, t) && Execute(s, rows, t, Pred(KeyCmp(op, x))).Ok?
    ensures q in Answers(s, rows, t, Pred(KeyCmp(op, x))) <==>
            exists es: seq<Pair<Scalar>>, e: Pair<Scalar> ::
              && GetAbs(t, q) == Ok(ValueEntry(Tree(es))) && e in es
              && Compares(op, Before(e.key, x), e.key == x, Before(x, e.key))
  {
    hide Represents, Execute, Answers, CmpScalar, Compares, Before;
    Answered(s, rows, t, Pred(KeyCmp(op, x)), q);
    forall y: Scalar
      ensures CmpScalar(op, y, x) <==> Compares(op, Before(y, x), y == x, Before(x, y))
    {
      ComparesScalars(op, y, x);
    }
    if GetAbs(t, q).Ok? && GetAbs(t, q).value.ValueEntry? && GetAbs(t, q).value.value.Tree? {
      var es := GetAbs(t, q).value.value.entries;
      assert forall i | 0 <= i < |es| :: es[i] in es;
    }
  }

  /** The size of a value: bytes of strings and byte strings, members of structures. */
  ghost predicate HasSize(v: Value, n: nat) {
    match v
    case Leaf(Str(s)) => n == |ToUtf8(s)|
    case Leaf(Bin(b)) => n == |b|
    case Leaf(_) => false
    case Hash(fs) => n == |fs|
    case Set(ms) => n == |ms|
    case List(xs) => n == |xs|
    case Tree(es) => n == |es|
  }

  /** `size op n`: the values that have a size that compares. */
  lemma {:induction false} SizeAnswers(s: Store, rows: Rows, t: NsTree, op: CmpOp, n: i64, q: Path)
    requires Represents(s, rows, t) && Execute(s, rows, t, Pred(SizeCmp(op, n))).Ok?
    ensures q in Answers(s, rows, t, Pred(SizeCmp(op, n))) <==>
            exists v: Value, m: nat ::
              GetAbs(t, q) == Ok(ValueEntry(v)) && HasSize(v, m) && Compares(op, m < n, m == n, m > n)
  {
    hide Represents, Execute, Answers, Compares, CmpInt, ToUtf8;
    Answered(s, rows, t, Pred(SizeCmp(op, n)), q);
    forall m: int
      ensures CmpInt(op, m, n) <==> Compares(op, m < n, m == n, m > n)
    {
      ComparesInts(op, m, n);
    }
    if GetAbs(t, q).Ok? && GetAbs(t, q).value.ValueEntry? {
      SizeMeans(GetAbs(t, q).value.value);
    }
  }

  lemma {:induction false} SizeMeans(v: Value)
    ensures forall m: nat :: HasSize(v, m) <==> Query.Size(v) == Some(m)
  {
  }

  /** `type n`: the nodes of that kind; `scalar` stands for six kinds. */
  lemma {:induction false} TypeAnswers(s: Store, rows: Rows, t: NsTree, n: string, q: Path)
    requires Represents(s, rows, t) && Execute(s, rows, t, Pred(TypeIs(n))).Ok?
    ensures q in Answers(s, rows, t, Pred(TypeIs(n))) <==>
            && GetAbs(t, q).Ok?
            && (KindName(GetAbs(t, q).value) == n
                || (n == "scalar" && GetAbs(t, q).value.ValueEntry? && GetAbs(t, q).value.value.Leaf?))
  {
    hide Represents, Execute, Answers, GetAbs, KindName, TypeName;
    Answered(s, rows, t, Pred(TypeIs(n)), q);
    GotIsLive(t, q);
    if GetAbs(t, q).Ok? {
      KindNameIs(GetAbs(t, q).value);
      NoKindScalar(GetAbs(t, q).value);
    }
  }

  lemma {:induction false} NoKindScalar(e: Entry)
    ensures KindName(e) != "scalar"
  {
  }

  /** `name g`: the nodes whose name matches, the name of the root being empty. */
  lemma {:induction false} NameAnswers(s: Store, rows: Rows, t: NsTree, g: string, q: Path)
    requires Represents(s, rows, t) && Execute(s, rows, t, Pred(NameGlob(g))).Ok?
    ensures q in Answers(s, rows, t, Pred(NameGlob(g))) <==>
            q in t.live && Splits(CharRun, g, if q == [] then "" else q[|q| - 1])
  {
    hide Represents, Execute, Answers, GetAbs, Splits, GlobRec;
    Answered(s, rows, t, Pred(NameGlob(g)), q);
    AllReadable(s, rows, t, Pred(NameGlob(g)));
    GlobMeaning(g, if q == [] then "" else q[|q| - 1]);
  }

  /** `path g`: the nodes whose segments match those of the pattern. */
  lemma {:induction false} PathAnswers(s: Store, rows: Rows, t: NsTree, g: string, q: Path)
    requires Represents(s, rows, t) && Execute(s, rows, t, Pred(PathGlob(g))).Ok?
    ensures q in Answers(s, rows, t, Pred(PathGlob(g))) <==> q in t.live && Splits(SegmentRun, Pieces(g), q)
  {
    hide Execute, Answers, GetAbs, Splits, PathGlobMatch, Flat, Mirrors, Pieces;
    Answered(s, rows, t, Pred(PathGlob(g)), q);
    AllReadable(s, rows, t, Pred(PathGlob(g)));
    if q in t.live {
      PathGlobMeaning(g, q);
    }
  }

  /** The pieces of a pattern are its runs between slashes, empty ones dropped. */
  lemma {:induction false} PiecesMeaning(s: string, rest: string)
    requires '/' !in s
    ensures Pieces(s) == if s == "" then [] else [s]
    ensures Pieces(s + "/" + rest) == (if s == "" then [] else [s]) + Pieces(rest)
  {
    hide Split;
    SplitNone(s, '/');
    SplitFirst(s, '/', rest);
    assert ([s] + Split(rest, '/'))[1..] == Split(rest, '/');
    assert NonEmpty([s]) == if s == "" then [] else [s] + NonEmpty([]);
  }

  // ----- when the index is used -----

  function Conjuncts(e: Expr): seq<Expr> {
    if e.And? then Conjuncts(e.left) + Conjuncts(e.right) else [e]
  }

  predicate Concrete(e: Expr) {
    e.Pred? && e.pred.TypeIs? && e.pred.name != "scalar"
  }

  /** The index is asked for a type only if that is one of the conjuncts. */
  lemma {:induction false} RequiredIsConjunct(e: Expr)
    requires RequiredType(e).Some?
    ensures Concrete(Pred(TypeIs(RequiredType(e).value))) && Pred(TypeIs(RequiredType(e).value)) in Conjuncts(e)
  {
    if e.And? {
      if RequiredType(e.left) == RequiredType(e) {
        RequiredIsConjunct(e.left);
      } else {
        RequiredIsConjunct(e.right);
      }
    }
  }

  /** It is asked for a type if a conjunct names it and none names another, and for none if none is named. */
  lemma {:induction false} ConjunctIsRequired(e: Expr, n: string)
    requires forall c | c in Conjuncts(e) && Concrete(c) :: c.pred.name == n
    ensures RequiredType(e) == if exists c :: c in Conjuncts(e) && Concrete(c) then Some(n) else None
  {
    if e.And? {
      assert forall c :: c in Conjuncts(e) <==> c in Conjuncts(e.left) || c in Conjuncts(e.right);
      ConjunctIsRequired(e.left, n);
      ConjunctIsRequired(e.right, n);
    } else {
      assert e in Conjuncts(e);
    }
  }

  // ----- the order of what is listed -----

  /** The index answers in the order of the bytes of the paths' string forms. */
  lemma {:induction false} IndexOrderIs(p: Path, q: Path)
    ensures PathStrLess(p, q) <==> BytesBefore(ToUtf8(AsStr(p)), ToUtf8(AsStr(q)))
  {
    hide BytesBefore, AsStr;
    StrLessIsByteOrder(AsStr(p), AsStr(q));
    LessIsBefore(ToUtf8(AsStr(p)), ToUtf8(AsStr(q)));
  }

  /** A directory is listed in the order of the bytes of its names. */
  lemma {:induction false} NameOrderIs(a: Child, b: Child)
    ensures NameLess(a, b) <==> BytesBefore(ToUtf8(a.0), ToUtf8(b.0))
  {
    hide BytesBefore;
    StrLessIsByteOrder(a.0, b.0);
    LessIsBefore(ToUtf8(a.0), ToUtf8(b.0));
  }

  /** At segment `k` the first path ends, or its segment comes first. */
  predicate Parts(p: Path, q: Path, k: nat) {
    k <= |p| && k < |q| && p[..k] == q[..k] && (k == |p| || StrLess(p[k], q[k]))
  }

  /** The walk visits parents before children, and siblings in the order of their names. */
  lemma {:induction false} WalkOrderIs(p: Path, q: Path)
    ensures PathLess(p, q) <==> exists k: nat :: Parts(p, q, k)
    decreases |p|
  {
    hide Parts, StrLess;
    if p != [] && q != [] && p[0] == q[0] {
      WalkOrderIs(p[1..], q[1..]);
      PartsShift(p, q);
      StrIrreflexive(p[0]);
    } else {
      PartsAtOnce(p, q);
    }
  }

  lemma {:induction false} PartsAtOnce(p: Path, q: Path)
    requires p == [] || q == [] || p[0] != q[0]
    ensures (exists k: nat :: Parts(p, q, k)) <==> q != [] && (p == [] || StrLess(p[0], q[0]))
  {
    hide StrLess;
    if q != [] && (p == [] || StrLess(p[0], q[0])) {
      assert Parts(p, q, 0);
    }
    forall k: nat | 0 < k <= |p| && k < |q|
      ensures !Parts(p, q, k)
    {
      assert p[..k][0] == p[0] && q[..k][0] == q[0];
    }
  }

  lemma {:induction false} PartsShift(p: Path, q: Path)
    requires p != [] && q != [] && p[0] == q[0]
    ensures (exists k: nat :: Parts(p, q, k)) <==> exists k: nat :: Parts(p[1..], q[1..], k)
  {
    hide Parts;
    if k: nat :| Parts(p, q, k) {
      PartsOne(p, q, k - 1);
    }
    if k: nat :| Parts(p[1..], q[1..], k) {
      PartsOne(p, q, k);
      assert Parts(p, q, k + 1);
    }
  }

  lemma {:induction false} PartsOne(p: Path, q: Path, k: int)
    requires p != [] && q != [] && p[0] == q[0] && k >= -1
    ensures k == -1 ==> !Parts(p, q, 0)
    ensures k >= 0 ==> (Parts(p, q, k + 1) <==> Parts(p[1..], q[1..], k))
  {
    StrIrreflexive(p[0]);
    if 0 <= k < |p| && k < |q| {
      assert p[..k + 1] == [p[0]] + p[1..][..k] && q[..k + 1] == [q[0]] + q[1..][..k];
    }
  }
}
