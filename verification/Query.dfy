/** AlefQL: expressions, their meaning on one entry, and the two ways to run a query. */
module Query {
  import opened ByteStrings
  import opened Utf8
  import opened Strings
  import opened Orders
  import opened Values
  import opened CodecTheorems
  import opened Storage
  import opened Paths
  import opened Numbers
  import opened Glob
  import opened Namespace
  import opened TreeModel
  import opened Listing
  import opened Walking

  datatype CmpOp = Eq | Ne | Lt | Le | Gt | Ge

  datatype Predicate =
    | PathGlob(pattern: string)
    | TypeIs(name: string)
    | NameGlob(pattern: string)
    | ValueCmp(op: CmpOp, scalar: Scalar)
    | HasKey(key: string)
    | Contains(needle: Value)
    | AtIndex(index: u64, op: CmpOp, scalar: Scalar)
    | KeyCmp(op: CmpOp, scalar: Scalar)
    | SizeCmp(op: CmpOp, size: i64)

  datatype Expr = And(left: Expr, right: Expr) | Or(left: Expr, right: Expr) | Not(inner: Expr) | Pred(pred: Predicate)

  datatype Hit = Hit(path: Path, typeName: string)

  // ----- one entry -----

  predicate CmpScalar(op: CmpOp, a: Scalar, b: Scalar) {
    match op
    case Eq => a == b
    case Ne => a != b
    case Lt => ScalarLess(a, b)
    case Le => ScalarLess(a, b) || a == b
    case Gt => ScalarLess(b, a)
    case Ge => ScalarLess(b, a) || a == b
  }

  predicate CmpInt(op: CmpOp, a: int, b: int) {
    match op
    case Eq => a == b
    case Ne => a != b
    case Lt => a < b
    case Le => a <= b
    case Gt => a > b
    case Ge => a >= b
  }

  /** Exactly one of `<`, `=` and `>` holds, the others follow from them, and `<` mirrors `>`. */
  lemma {:induction false} CmpTrichotomy(a: Scalar, b: Scalar)
    ensures CmpScalar(Lt, a, b) <==> CmpScalar(Gt, b, a)
    ensures CmpScalar(Eq, a, b) <==> !CmpScalar(Lt, a, b) && !CmpScalar(Gt, a, b)
    ensures !(CmpScalar(Lt, a, b) && CmpScalar(Gt, a, b))
    ensures CmpScalar(Ne, a, b) <==> !CmpScalar(Eq, a, b)
    ensures CmpScalar(Le, a, b) <==> !CmpScalar(Gt, a, b)
    ensures CmpScalar(Ge, a, b) <==> !CmpScalar(Lt, a, b)
  {
    ScalarOrder();
    hide ScalarLess;
    assert !ScalarLess(a, a) && (ScalarLess(a, b) || ScalarLess(b, a) || a == b);
  }

  predicate HasEntry<K(==)>(es: seq<Pair<K>>, k: K) {
    exists i | 0 <= i < |es| :: es[i].key == k
  }

  predicate HasVal<K>(es: seq<Pair<K>>, v: Value) {
    exists i | 0 <= i < |es| :: es[i].val == v
  }

  /** Strings and byte strings count bytes. */
  function Size(v: Value): Option<nat> {
    match v
    case Hash(fs) => Some(|fs|)
    case Set(ms) => Some(|ms|)
    case List(xs) => Some(|xs|)
    case Tree(es) => Some(|es|)
    case Leaf(Str(s)) => Some(|ToUtf8(s)|)
    case Leaf(Bin(b)) => Some(|b|)
    case Leaf(_) => None
  }

  /** The predicates that look at a value; directories satisfy none of them. */
  predicate EvalValue(p: Predicate, v: Value)
    requires !p.PathGlob? && !p.NameGlob? && !p.TypeIs?
  {
    match p
    case ValueCmp(op, x) => v.Leaf? && CmpScalar(op, v.scalar, x)
    case HasKey(k) =>
      (match v
       case Hash(fs) => HasEntry(fs, k)
       case Tree(es) => HasEntry(es, Str(k)) || (ParseI64(k).Some? && HasEntry(es, Int(ParseI64(k).value)))
       case _ => false)
    case Contains(needle) =>
      (match v
       case Set(ms) => needle in ms
       case List(xs) => needle in xs
       case Hash(fs) => HasVal(fs, needle)
       case Tree(es) => HasVal(es, needle)
       case Leaf(_) => false)
    case AtIndex(i, op, x) => v.List? && i < |v.items| && v.items[i].Leaf? && CmpScalar(op, v.items[i].scalar, x)
    case KeyCmp(op, x) => v.Tree? && exists i | 0 <= i < |v.entries| :: CmpScalar(op, v.entries[i].key, x)
    case SizeCmp(op, n) => Size(v).Some? && CmpInt(op, Size(v).value, n)
  }

  predicate EvalPred(p: Predicate, path: Path, e: Entry) {
    match p
    case PathGlob(g) => PathGlobMatch(g, AsStr(path))
    case NameGlob(g) => GlobRec(g, if path == [] then "" else Name(path))
    case TypeIs(t) =>
      (match e
       case Directory => t != "scalar" && t == "directory"
       case ValueEntry(v) => if t == "scalar" then v.Leaf? else TypeName(v) == t)
    case _ => e.ValueEntry? && EvalValue(p, e.value)
  }

  predicate EvalExpr(expr: Expr, path: Path, e: Entry) {
    match expr
    case And(a, b) => EvalExpr(a, path, e) && EvalExpr(b, path, e)
    case Or(a, b) => EvalExpr(a, path, e) || EvalExpr(b, path, e)
    case Not(a) => !EvalExpr(a, path, e)
    case Pred(p) => EvalPred(p, path, e)
  }

  function EntryType(e: Entry): string {
    match e
    case Directory => "directory"
    case ValueEntry(v) => TypeName(v)
  }

  // ----- running a query -----

  /** The type an AND-chain forces, if it forces one. */
  function RequiredType(expr: Expr): Option<string> {
    match expr
    case Pred(TypeIs(t)) => if t != "scalar" then Some(t) else None
    case And(a, b) =>
      (match (RequiredType(a), RequiredType(b))
       case (Some(t), None) => Some(t)
       case (None, Some(t)) => Some(t)
       case (Some(t), Some(u)) => if t == u then Some(t) else None
       case (None, None) => None)
    case _ => None
  }

  function ReadAt(s: Store): Path -> Result<Visit, NsError> {
    (p: Path) => match Get(s, p) case Ok(e) => Ok((p, e)) case Err(e) => Err(e)
  }

  ghost function Candidates(s: Store, rows: Rows, t: NsTree, expr: Expr): Result<seq<Visit>, NsError>
    requires Represents(s, rows, t)
  {
    match RequiredType(expr)
    case Some(ty) =>
      var ps :- PathsWithType(s, ty);
      Traverse(ReadAt(s), ps)
    case None => Walk(s, rows, t, [])
  }

  function FilterOne(expr: Expr, v: Visit): seq<Hit> {
    if EvalExpr(expr, v.0, v.1) then [Hit(v.0, EntryType(v.1))] else []
  }

  function Filter(expr: Expr, cands: seq<Visit>): seq<Hit> {
    if cands == [] then [] else FilterOne(expr, cands[0]) + Filter(expr, cands[1..])
  }

  ghost function Execute(s: Store, rows: Rows, t: NsTree, expr: Expr): Result<seq<Hit>, NsError>
    requires Represents(s, rows, t)
  {
    var cands :- Candidates(s, rows, t, expr);
    Ok(Filter(expr, cands))
  }

  /** The plain meaning of a query: every entry of the tree, filtered. */
  ghost function FullScan(s: Store, rows: Rows, t: NsTree, expr: Expr): Result<seq<Hit>, NsError>
    requires Represents(s, rows, t)
  {
    var all :- Walk(s, rows, t, []);
    Ok(Filter(expr, all))
  }

  // ----- the two agree -----

  /** Whatever satisfies the expression has the type the plan looks up. */
  lemma {:induction false} RequiredTypeSound(expr: Expr, path: Path, e: Entry)
    requires EvalExpr(expr, path, e) && RequiredType(expr).Some?
    ensures EntryType(e) == RequiredType(expr).value
  {
    if expr.And? {
      if RequiredType(expr.left).Some? {
        RequiredTypeSound(expr.left, path, e);
      } else {
        RequiredTypeSound(expr.right, path, e);
      }
    }
  }

  ghost predicate DistinctPaths(cands: seq<Visit>) {
    forall i, j | 0 <= i < j < |cands| :: cands[i].0 != cands[j].0
  }

  lemma {:induction false} FilterSpec(expr: Expr, cands: seq<Visit>)
    requires DistinctPaths(cands)
    ensures Distinct(Filter(expr, cands))
    ensures forall h :: h in Filter(expr, cands) <==>
              exists v: Visit :: v in cands && EvalExpr(expr, v.0, v.1) && h == Hit(v.0, EntryType(v.1))
  {
    if cands != [] {
      FilterSpec(expr, cands[1..]);
      var rest := Filter(expr, cands[1..]);
      forall i | 0 <= i < |rest|
        ensures rest[i].path != cands[0].0
      {
        assert rest[i] in rest;
      }
      assert forall v: Visit :: v in cands <==> v == cands[0] || v in cands[1..];
    }
  }

  /** `h` is the hit of a live node satisfying the expression. */
  ghost predicate HitOf(t: NsTree, expr: Expr, h: Hit) {
    exists e: Entry :: GetAbs(t, h.path) == Ok(e) && EvalExpr(expr, h.path, e) && h.typeName == EntryType(e)
  }

  /** Candidates that include every match give exactly the matches. */
  lemma {:induction false} FilterMatches(t: NsTree, expr: Expr, cands: seq<Visit>)
    requires DistinctPaths(cands) && forall v: Visit | v in cands :: GetAbs(t, v.0) == Ok(v.1)
    requires forall v: Visit | GetAbs(t, v.0) == Ok(v.1) && EvalExpr(expr, v.0, v.1) :: v in cands
    ensures Distinct(Filter(expr, cands)) && forall h :: h in Filter(expr, cands) <==> HitOf(t, expr, h)
  {
    FilterSpec(expr, cands);
    forall h | HitOf(t, expr, h)
      ensures h in Filter(expr, cands)
    {
      var e: Entry :| GetAbs(t, h.path) == Ok(e) && EvalExpr(expr, h.path, e) && h.typeName == EntryType(e);
      var v: Visit := (h.path, e);
      assert v in cands;
    }
  }

  lemma {:induction false} ListedDistinct(t: NsTree, ps: set<Path>, out: seq<Visit>)
    requires Lists(t, ps, out)
    ensures DistinctPaths(out)
  {
    forall i, j | 0 <= i < j < |out|
      ensures out[i].0 != out[j].0
    {
      assert VisitLess(out[i], out[j]);
      PathLessIrreflexive(out[i].0);
    }
  }

  lemma {:induction false} FullScanSpec(s: Store, rows: Rows, t: NsTree, expr: Expr)
    requires Represents(s, rows, t)
    ensures FullScan(s, rows, t, expr).Ok? <==> Readable(t, t.live.Keys)
    ensures FullScan(s, rows, t, expr).Ok? ==>
              Distinct(FullScan(s, rows, t, expr).value) &&
              forall h :: h in FullScan(s, rows, t, expr).value <==> HitOf(t, expr, h)
  {
    WalkSpec(s, rows, t, []);
    UnderRoot(t);
    var all := Walk(s, rows, t, []);
    if all.Ok? {
      ListedDistinct(t, t.live.Keys, all.value);
      FilterMatches(t, expr, all.value);
    }
  }

  /** The type of what is read back is the type the node was indexed under. */
  lemma {:induction false} ReadType(t: NsTree, p: Path, e: Entry)
    requires GetAbs(t, p) == Ok(e)
    ensures TypeOf(t.live[p].node) == EntryType(e)
  {
    if t.live[p].node.Val? {
      TypeSurvives(t.live[p].node.v);
    }
  }

  lemma {:induction false} ReadAllSpec(s: Store, rows: Rows, t: NsTree, ps: seq<Path>)
    requires Represents(s, rows, t)
    ensures Traverse(ReadAt(s), ps).Ok? <==> forall p | p in ps :: GetAbs(t, p).Ok?
    ensures Traverse(ReadAt(s), ps).Ok? ==>
              var out := Traverse(ReadAt(s), ps).value;
              |out| == |ps| && forall i | 0 <= i < |ps| :: out[i].0 == ps[i] && GetAbs(t, ps[i]) == Ok(out[i].1)
  {
    if ps != [] {
      GetSpec(s, rows, t, ps[0]);
      ReadAllSpec(s, rows, t, ps[1..]);
      assert forall p :: p in ps <==> p == ps[0] || p in ps[1..];
    }
  }

  lemma {:induction false} PathStrLessIrreflexive(p: Path)
    ensures !PathStrLess(p, p)
  {
    StrIrreflexive(AsStr(p));
  }

  lemma {:induction false} SelectedCandidates(t: NsTree, expr: Expr, ty: string, ps: seq<Path>, cands: seq<Visit>)
    requires RequiredType(expr) == Some(ty) && Ascending(PathStrLess, ps) && forall p :: p in ps <==> Selected(t, ty, p)
    requires |cands| == |ps|
    requires forall i | 0 <= i < |ps| :: cands[i].0 == ps[i] && GetAbs(t, ps[i]) == Ok(cands[i].1)
    ensures DistinctPaths(cands)
    ensures forall v: Visit | v in cands :: GetAbs(t, v.0) == Ok(v.1)
    ensures forall v: Visit | GetAbs(t, v.0) == Ok(v.1) && EvalExpr(expr, v.0, v.1) :: v in cands
  {
    forall i, j | 0 <= i < j < |cands|
      ensures cands[i].0 != cands[j].0
    {
      assert PathStrLess(ps[i], ps[j]);
      PathStrLessIrreflexive(ps[i]);
    }
    forall v: Visit | GetAbs(t, v.0) == Ok(v.1) && EvalExpr(expr, v.0, v.1)
      ensures v in cands
    {
      RequiredTypeSound(expr, v.0, v.1);
      ReadType(t, v.0, v.1);
      SelectedExact(t, ty, v.0);
      var i :| 0 <= i < |ps| && ps[i] == v.0;
      assert cands[i] == v;
    }
  }

  /** The index plan: when it succeeds, and what it then returns. */
  lemma {:induction false} IndexPlanSpec(s: Store, rows: Rows, t: NsTree, expr: Expr, ty: string)
    requires Represents(s, rows, t) && RequiredType(expr) == Some(ty)
    ensures Execute(s, rows, t, expr).Ok? <==> forall p | Selected(t, ty, p) :: NoNul(p) && GetAbs(t, p).Ok?
    ensures Execute(s, rows, t, expr).Ok? ==>
              Distinct(Execute(s, rows, t, expr).value) &&
              forall h :: h in Execute(s, rows, t, expr).value <==> HitOf(t, expr, h)
  {
    PathsWithTypeSpec(s, rows, t, ty);
    var ps := PathsWithType(s, ty);
    if ps.Ok? {
      ReadAllSpec(s, rows, t, ps.value);
      var cands := Traverse(ReadAt(s), ps.value);
      if cands.Ok? {
        SelectedCandidates(t, expr, ty, ps.value, cands.value);
        FilterMatches(t, expr, cands.value);
      }
    }
  }

  /**
   * The plan a query is run with returns the same hits as filtering the whole walk, none
   * twice. It can only fail where the scan does not on a path with a NUL.
   */
  lemma {:induction false} PlanAgrees(s: Store, rows: Rows, t: NsTree, expr: Expr)
    requires Represents(s, rows, t)
    ensures var plan, scan := Execute(s, rows, t, expr), FullScan(s, rows, t, expr);
            && (plan.Ok? && scan.Ok? ==>
                  && Distinct(plan.value) && Distinct(scan.value)
                  && forall h :: h in plan.value <==> h in scan.value)
            && (scan.Ok? && (forall p | p in t.live :: NoNul(p)) ==> plan.Ok?)
  {
    FullScanSpec(s, rows, t, expr);
    if RequiredType(expr).Some? {
      IndexPlanSpec(s, rows, t, expr, RequiredType(expr).value);
    }
  }
}
