/** The read side as the code runs it: loops over rows and children. */
module Reading {
  import opened ByteStrings
  import opened Utf8
  import opened Orders
  import opened Codec
  import opened CodecLoops
  import opened Storage
  import opened Paths
  import opened Keys
  import opened Namespace
  import opened TreeModel
  import opened Listing
  import opened Walking
  import opened Query

  /** What has been collected, in front of the outcome for the rest. */
  function Prepend<T>(out: seq<T>, r: Result<seq<T>, NsError>): Result<seq<T>, NsError> {
    match r
    case Ok(rest) => Ok(out + rest)
    case Err(e) => Err(e)
  }

  lemma {:induction false} PrependMore<T>(out: seq<T>, x: T, rest: Result<seq<T>, NsError>)
    requires rest.Ok?
    ensures Prepend(out, Ok([x] + rest.value)) == Prepend(out + [x], rest)
  {
    assert out + ([x] + rest.value) == out + [x] + rest.value;
  }

  lemma {:induction false} PrependAll<T>(r: Result<seq<T>, NsError>)
    ensures Prepend([], r) == r
  {
    if r.Ok? {
      assert [] + r.value == r.value;
    }
  }

  lemma {:induction false} PrependNothing<T>(out: seq<T>)
    ensures Prepend(out, Ok([])) == Ok(out)
  {
    assert out + [] == out;
  }

  // ----- lookups -----

  method ResolvePath(m: Store, p: Path) returns (r: Result<(u64, NodeRecord), NsError>)
    ensures r == Resolve(m, p)
  {
    hide ChildKey, NodeKey, DecodeId;
    var id := ROOT;
    for i := 0 to |p|
      invariant Descend(m, id, p[i..]) == Descend(m, ROOT, p)
    {
      assert p[i..][1..] == p[i + 1..];
      if ChildKey(id, p[i]) !in m {
        return Err(NotFound);
      }
      var next := DecodeId(m[ChildKey(id, p[i])]);
      if next.None? {
        return Err(Invalid);
      }
      id := next.value;
    }
    assert p[|p|..] == [];
    if NodeKey(id) !in m {
      return Err(NotFound);
    }
    var rec := ParseNode(m[NodeKey(id)]);
    r := if rec.Err? then Err(rec.error) else Ok((id, rec.value));
  }

  method GetEntry(m: Store, p: Path) returns (r: Result<Entry, NsError>)
    ensures r == Get(m, p)
  {
    hide Resolve, Decode;
    var found := ResolvePath(m, p);
    if found.Err? {
      return Err(found.error);
    }
    match found.value.1
    case DirRecord => r := Ok(Directory);
    case ValueRecord(enc) =>
      var v := DecodeBytes(enc);
      r := if v.Err? then Err(CodecErr(v.error)) else Ok(ValueEntry(v.value));
  }

  // ----- listings -----

  lemma {:induction false} ListRowsStep(m: Store, prefix: nat, rows: seq<Row>)
    requires rows != [] && forall i | 0 <= i < |rows| :: prefix <= |rows[i].0|
    ensures ListRows(m, prefix, rows) ==
            match ListRow(m, prefix, rows[0])
            case Err(e) => Err(e)
            case Ok(c) => Prepend([c], ListRows(m, prefix, rows[1..]))
  {
    hide NodeKey, DecodeId, FromUtf8, ParseNode;
  }

  function ListRow(m: Store, prefix: nat, row: Row): Result<Child, NsError>
    requires prefix <= |row.0|
  {
    match FromUtf8(row.0[prefix..])
    case None => Err(Invalid)
    case Some(name) =>
      match DecodeId(row.1)
      case None => Err(Invalid)
      case Some(id) =>
        if NodeKey(id) !in m then Err(Invalid) else
        var rec :- ParseNode(m[NodeKey(id)]);
        Ok((name, rec.DirRecord?))
  }

  method CollectChildren(m: Store, prefix: nat, rows: seq<Row>) returns (r: Result<seq<Child>, NsError>)
    requires forall i | 0 <= i < |rows| :: prefix <= |rows[i].0|
    ensures r == ListRows(m, prefix, rows)
  {
    hide ListRows, ListRow;
    var out: seq<Child> := [];
    PrependAll(ListRows(m, prefix, rows));
    assert rows[0..] == rows;
    for i := 0 to |rows|
      invariant ListRows(m, prefix, rows) == Prepend(out, ListRows(m, prefix, rows[i..]))
    {
      var rest := rows[i..];
      ListRowsStep(m, prefix, rest);
      assert rest[0] == rows[i] && rest[1..] == rows[i + 1..];
      var c := ListRow(m, prefix, rows[i]);
      if c.Err? {
        return Err(c.error);
      }
      if ListRows(m, prefix, rows[i + 1..]).Ok? {
        PrependMore(out, c.value, ListRows(m, prefix, rows[i + 1..]));
      }
      out := out + [c.value];
    }
    ListNothing(m, prefix, rows[|rows|..]);
    PrependNothing(out);
    r := Ok(out);
  }

  lemma {:induction false} ListNothing(m: Store, prefix: nat, rows: seq<Row>)
    requires rows == []
    ensures ListRows(m, prefix, rows) == Ok([])
  {
  }

  method ListChildren(m: Store, p: Path) returns (r: Result<seq<Child>, NsError>)
    ensures r == ListDir(m, p)
  {
    hide Resolve, Scan, ListRows;
    var found := ResolvePath(m, p);
    if found.Err? {
      return Err(found.error);
    }
    var (id, rec) := found.value;
    if !rec.DirRecord? {
      return Err(NotDirectory);
    }
    var rows := ScanRange(m, ChildPrefix(id));
    ScannedLong(m, ChildPrefix(id));
    var out := CollectChildren(m, |ChildPrefix(id)|, rows);
    r := if out.Err? then Err(out.error) else Ok(SortBy(NameLess, out.value));
  }

  lemma {:induction false} ScannedLong(m: Store, prefix: Bytes)
    ensures forall i | 0 <= i < |Scan(m, prefix)| :: |prefix| <= |Scan(m, prefix)[i].0|
  {
    ScanKeys(m, prefix);
    assert forall i | 0 <= i < |Scan(m, prefix)| :: Scan(m, prefix)[i] in Scan(m, prefix);
  }

  lemma {:induction false} TraverseStep<A, B>(f: A -> Result<B, NsError>, xs: seq<A>)
    requires xs != []
    ensures Traverse(f, xs) ==
            match f(xs[0])
            case Err(e) => Err(e)
            case Ok(y) => Prepend([y], Traverse(f, xs[1..]))
  {
  }

  /** Pushing each outcome, stopping at the first error. */
  method CollectAll<A, B>(f: A -> Result<B, NsError>, xs: seq<A>) returns (r: Result<seq<B>, NsError>)
    ensures r == Traverse(f, xs)
  {
    hide Traverse;
    var out: seq<B> := [];
    PrependAll(Traverse(f, xs));
    assert xs[0..] == xs;
    for i := 0 to |xs|
      invariant Traverse(f, xs) == Prepend(out, Traverse(f, xs[i..]))
    {
      TraverseStep(f, xs[i..]);
      assert xs[i..][0] == xs[i] && xs[i..][1..] == xs[i + 1..];
      var y := f(xs[i]);
      if y.Err? {
        return Err(y.error);
      }
      if Traverse(f, xs[i + 1..]).Ok? {
        PrependMore(out, y.value, Traverse(f, xs[i + 1..]));
      }
      out := out + [y.value];
    }
    TraverseNothing(f, xs[|xs|..]);
    PrependNothing(out);
    r := Ok(out);
  }

  lemma {:induction false} TraverseNothing<A, B>(f: A -> Result<B, NsError>, xs: seq<A>)
    requires xs == []
    ensures Traverse(f, xs) == Ok([])
  {
  }

  method PathsOfType(m: Store, ty: string) returns (r: Result<seq<Path>, NsError>)
    ensures r == PathsWithType(m, ty)
  {
    hide Scan, RowPath;
    var rows := ScanRange(m, TypePrefix(ty));
    var out := CollectAll(RowPath, rows);
    r := if out.Err? then Err(out.error) else Ok(SortBy(PathStrLess, out.value));
  }

  // ----- the walk and the query -----

  /** Depth first, pushing onto one result. */
  method WalkTree(m: Store, p: Path, out0: seq<Visit>, ghost rows: Rows, ghost t: NsTree)
    returns (r: Result<seq<Visit>, NsError>)
    requires Represents(m, rows, t) && p in t.live
    ensures r == Prepend(out0, Walk(m, rows, t, p))
    decreases t.next - t.live[p].id, 1
  {
    hide Get, ListDir, Flat, Mirrors, WalkAll;
    GetSpec(m, rows, t, p);
    var entry := GetEntry(m, p);
    if entry.Err? {
      return Err(entry.error);
    }
    var out := out0 + [(p, entry.value)];
    if !entry.value.Directory? {
      return Ok(out);
    }
    var names := ListChildren(m, p);
    if names.Err? {
      return Err(names.error);
    }
    ListSpec(m, rows, t, p);
    r := WalkNames(m, p, names.value, out, rows, t);
    WalkUnfolds(m, rows, t, p, entry.value, names.value, out0);
  }

  lemma {:induction false} WalkUnfolds(m: Store, rows: Rows, t: NsTree, p: Path, e: Entry, names: seq<Child>,
      out: seq<Visit>)
    requires Represents(m, rows, t) && p in t.live && Get(m, p) == Ok(e) && e.Directory?
    requires ListDir(m, p) == Ok(names) && forall c | c in names :: ChildOf(t, p, c)
    ensures Prepend(out, Walk(m, rows, t, p)) == Prepend(out + [(p, e)], WalkAll(m, rows, t, p, names))
  {
    hide Get, ListDir, Flat, Mirrors, WalkAll;
    var below := WalkAll(m, rows, t, p, names);
    if below.Ok? {
      PrependMore(out, (p, e), below);
    }
  }

  method WalkNames(m: Store, p: Path, names: seq<Child>, out0: seq<Visit>, ghost rows: Rows, ghost t: NsTree)
    returns (r: Result<seq<Visit>, NsError>)
    requires Represents(m, rows, t) && p in t.live && forall c | c in names :: ChildOf(t, p, c)
    ensures r == Prepend(out0, WalkAll(m, rows, t, p, names))
    decreases t.next - t.live[p].id, 0
  {
    hide Represents, Walk, WalkAll;
    var out := out0;
    assert names[0..] == names;
    for i := 0 to |names|
      invariant Prepend(out0, WalkAll(m, rows, t, p, names)) == Prepend(out, WalkAll(m, rows, t, p, names[i..]))
    {
      var rest := names[i..];
      assert rest[0] == names[i] && rest[1..] == names[i + 1..] && names[i] in names;
      WalkAllUnfolds(m, rows, t, p, rest, out);
      var child := Join(p, names[i].0);
      var r' := WalkTree(m, child.value, out, rows, t);
      if r'.Err? {
        return Err(r'.error);
      }
      out := r'.value;
    }
    WalkNothing(m, rows, t, p, names[|names|..]);
    PrependNothing(out);
    r := Ok(out);
  }

  lemma {:induction false} WalkNothing(m: Store, rows: Rows, t: NsTree, p: Path, names: seq<Child>)
    requires Represents(m, rows, t) && p in t.live && names == []
    ensures WalkAll(m, rows, t, p, names) == Ok([])
  {
  }

  lemma {:induction false} WalkAllUnfolds(m: Store, rows: Rows, t: NsTree, p: Path, names: seq<Child>, out: seq<Visit>)
    requires Represents(m, rows, t) && p in t.live && names != [] && forall c | c in names :: ChildOf(t, p, c)
    ensures var child := p + [names[0].0];
            && Join(p, names[0].0) == Ok(child) && child in t.live && t.live[p].id < t.live[child].id < t.next
            && Prepend(out, WalkAll(m, rows, t, p, names)) ==
               match Prepend(out, Walk(m, rows, t, child))
               case Err(e) => Err(e)
               case Ok(out') => Prepend(out', WalkAll(m, rows, t, p, names[1..]))
  {
    hide Walk, Flat, Mirrors;
    ChildBelow(t, p, names[0]);
    var child := p + [names[0].0];
    var first, rest := Walk(m, rows, t, child), WalkAll(m, rows, t, p, names[1..]);
    if first.Ok? && rest.Ok? {
      assert out + (first.value + rest.value) == out + first.value + rest.value;
    }
  }

  method CandidatesFor(m: Store, expr: Expr, ghost rows: Rows, ghost t: NsTree) returns (r: Result<seq<Visit>, NsError>)
    requires Represents(m, rows, t)
    ensures r == Candidates(m, rows, t, expr)
  {
    hide PathsWithType, Walk;
    var ty := RequiredType(expr);
    if ty.Some? {
      var ps := PathsOfType(m, ty.value);
      if ps.Err? {
        return Err(ps.error);
      }
      r := CollectAll(ReadAt(m), ps.value);
    } else {
      r := WalkTree(m, [], [], rows, t);
      PrependAll(Walk(m, rows, t, []));
    }
  }

  lemma {:induction false} FilterSnoc(expr: Expr, cands: seq<Visit>, v: Visit)
    ensures Filter(expr, cands + [v]) == Filter(expr, cands) + FilterOne(expr, v)
  {
    hide FilterOne;
    if cands == [] {
      assert cands + [v] == [v];
    } else {
      assert (cands + [v])[1..] == cands[1..] + [v];
      FilterSnoc(expr, cands[1..], v);
    }
  }

  method FilterHits(expr: Expr, cands: seq<Visit>) returns (hits: seq<Hit>)
    ensures hits == Filter(expr, cands)
  {
    hide EvalExpr;
    hits := [];
    for i := 0 to |cands|
      invariant hits == Filter(expr, cands[..i])
    {
      FilterSnoc(expr, cands[..i], cands[i]);
      assert cands[..i] + [cands[i]] == cands[..i + 1];
      if EvalExpr(expr, cands[i].0, cands[i].1) {
        hits := hits + [Hit(cands[i].0, EntryType(cands[i].1))];
      }
    }
    assert cands[..|cands|] == cands;
  }

  /** `execute`, from the parsed expression on: every match once, and nothing else. */
  method RunQuery(m: Store, expr: Expr, ghost rows: Rows, ghost t: NsTree) returns (r: Result<seq<Hit>, NsError>)
    requires Represents(m, rows, t)
    ensures r == Execute(m, rows, t, expr)
    ensures r.Ok? ==> Distinct(r.value) && forall h :: h in r.value <==> HitOf(t, expr, h)
  {
    hide Candidates, EvalExpr, Represents, HitOf, Filter;
    ExecuteSpec(m, rows, t, expr);
    var cands := CandidatesFor(m, expr, rows, t);
    if cands.Err? {
      return Err(cands.error);
    }
    var hits := FilterHits(expr, cands.value);
    r := Ok(hits);
  }

  lemma {:induction false} ExecuteSpec(m: Store, rows: Rows, t: NsTree, expr: Expr)
    requires Represents(m, rows, t)
    ensures Execute(m, rows, t, expr).Ok? ==>
              Distinct(Execute(m, rows, t, expr).value) &&
              forall h :: h in Execute(m, rows, t, expr).value <==> HitOf(t, expr, h)
  {
    if RequiredType(expr).Some? {
      IndexPlanSpec(m, rows, t, expr, RequiredType(expr).value);
    } else {
      FullScanSpec(m, rows, t, expr);
    }
  }
}
