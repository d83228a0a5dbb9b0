/** Directory listings and the type index as readers see them. */
module Listing {
  import opened ByteStrings
  import opened Utf8
  import opened Strings
  import opened Orders
  import opened Storage
  import opened Paths
  import opened Keys
  import opened Namespace
  import opened TreeModel

  /** A child's name, and whether it is a directory. */
  type Child = (string, bool)

  predicate NameLess(a: Child, b: Child) {
    StrLess(a.0, b.0)
  }

  ghost function ListDir(s: Store, p: Path): Result<seq<Child>, NsError> {
    var (id, rec) :- Resolve(s, p);
    if !rec.DirRecord? then Err(NotDirectory) else
    ScanKeys(s, ChildPrefix(id));
    var out :- ListRows(s, |ChildPrefix(id)|, Scan(s, ChildPrefix(id)));
    Ok(SortBy(NameLess, out))
  }

  lemma {:induction false} ScanKeys(s: Store, prefix: Bytes)
    ensures forall r | r in Scan(s, prefix) :: r.0 in s && StartsWith(r.0, prefix) && r.1 == s[r.0]
    ensures forall k | k in s && StartsWith(k, prefix) :: (k, s[k]) in Scan(s, prefix)
    ensures forall i, j | 0 <= i < j < |Scan(s, prefix)| :: Less(Scan(s, prefix)[i].0, Scan(s, prefix)[j].0)
  {
    var keys := SortedKeys(PrefixKeys(s, prefix));
    SortedKeysSpec(PrefixKeys(s, prefix));
    RowsOfAt(s, keys);
    forall k | k in s && StartsWith(k, prefix)
      ensures (k, s[k]) in Scan(s, prefix)
    {
      assert k in keys;
      var i :| 0 <= i < |keys| && keys[i] == k;
      assert Scan(s, prefix)[i] == (k, s[k]);
    }
  }

  // ----- listings -----

  /** `c` describes the node `p/c` of the tree. */
  predicate ChildOf(t: NsTree, p: Path, c: Child) {
    p + [c.0] in t.live && c.1 == t.live[p + [c.0]].node.Dir?
  }

  lemma {:induction false} ScannedRow(s: Store, rows: Rows, t: NsTree, p: Path, key: Bytes) returns (c: Child)
    requires Represents(s, rows, t) && p in t.live && key in s && StartsWith(key, ChildPrefix(t.live[p].id))
    ensures key == ChildKey(t.live[p].id, c.0) && ChildOf(t, p, c)
    ensures DecodeId(s[key]) == Some(t.live[p + [c.0]].id)
  {
    var id := t.live[p].id;
    var k: Key :| k in rows && Enc(k) == key;
    ChildScan(k, id);
    assert RowAgrees(rows, t, k);
    c := (k.name, t.live[p + [k.name]].node.Dir?);
    ChildRow(s, rows, t, p, k.name);
  }

  lemma {:induction false} ListedName(id: u64, name: string)
    ensures |ChildPrefix(id)| <= |ChildKey(id, name)|
    ensures FromUtf8(ChildKey(id, name)[|ChildPrefix(id)|..]) == Some(name)
  {
    assert ChildKey(id, name)[|ChildPrefix(id)|..] == ToUtf8(name);
    Utf8RoundTrip(name);
  }

  /** One scanned row and the child it describes. */
  ghost predicate Describes(s: Store, t: NsTree, p: Path, r: Row, c: Child) {
    && p in t.live && ChildOf(t, p, c)
    && r.0 == ChildKey(t.live[p].id, c.0) && DecodeId(r.1) == Some(t.live[p + [c.0]].id)
    && NodeKey(t.live[p + [c.0]].id) in s
    && ParseNode(s[NodeKey(t.live[p + [c.0]].id)]) == Ok(RecordOf(t.live[p + [c.0]].node))
  }

  lemma {:induction false} RowDescribes(s: Store, rows: Rows, t: NsTree, p: Path, key: Bytes) returns (c: Child)
    requires Represents(s, rows, t) && p in t.live && key in s && StartsWith(key, ChildPrefix(t.live[p].id))
    ensures Describes(s, t, p, (key, s[key]), c)
  {
    c := ScannedRow(s, rows, t, p, key);
    NodeRow(s, rows, t, p + [c.0]);
  }

  lemma {:induction false} ListRowsStep(s: Store, prefix: nat, scanned: seq<Row>, c: Child, id: u64, rec: NodeRecord)
    requires scanned != [] && forall i | 0 <= i < |scanned| :: prefix <= |scanned[i].0|
    requires FromUtf8(scanned[0].0[prefix..]) == Some(c.0) && DecodeId(scanned[0].1) == Some(id)
    requires NodeKey(id) in s && ParseNode(s[NodeKey(id)]) == Ok(rec) && c.1 == rec.DirRecord?
    requires ListRows(s, prefix, scanned[1..]).Ok?
    ensures ListRows(s, prefix, scanned) == Ok([c] + ListRows(s, prefix, scanned[1..]).value)
  {
  }

  ghost predicate IsChild(s: Store, t: NsTree, p: Path, r: Row) {
    exists c :: Describes(s, t, p, r, c)
  }

  lemma {:induction false} ListRowsSpec(s: Store, t: NsTree, p: Path, scanned: seq<Row>) returns (out: seq<Child>)
    requires p in t.live && forall i | 0 <= i < |scanned| :: |ChildPrefix(t.live[p].id)| <= |scanned[i].0|
    requires forall i | 0 <= i < |scanned| :: IsChild(s, t, p, scanned[i])
    ensures ListRows(s, |ChildPrefix(t.live[p].id)|, scanned) == Ok(out)
    ensures |out| == |scanned| && forall i | 0 <= i < |out| :: Describes(s, t, p, scanned[i], out[i])
  {
    out := [];
    if scanned != [] {
      var c :| Describes(s, t, p, scanned[0], c);
      var l := t.live[p + [c.0]];
      ListedName(t.live[p].id, c.0);
      var rest := ListRowsSpec(s, t, p, scanned[1..]);
      ListRowsStep(s, |ChildPrefix(t.live[p].id)|, scanned, c, l.id, RecordOf(l.node));
      out := [c] + rest;
    }
  }

  lemma {:induction false} KeyOrderIsNameOrder(id: u64, a: string, b: string)
    ensures Less(ChildKey(id, a), ChildKey(id, b)) <==> StrLess(a, b)
  {
    LessBehindPrefix(ChildPrefix(id), ToUtf8(a), ToUtf8(b));
    StrLessIsByteOrder(a, b);
  }

  lemma {:induction false} NameLessAsymmetric()
    ensures forall a: Child, b: Child :: NameLess(a, b) ==> !NameLess(b, a)
  {
    StrOrder();
    forall a: Child, b: Child | NameLess(a, b)
      ensures !NameLess(b, a)
    {
      assert StrLess(b.0, a.0) ==> StrLess(b.0, b.0);
    }
  }

  lemma {:induction false} ListedAscending(id: u64, scanned: seq<Row>, out: seq<Child>)
    requires |out| == |scanned| && forall i | 0 <= i < |out| :: scanned[i].0 == ChildKey(id, out[i].0)
    requires forall i, j | 0 <= i < j < |scanned| :: Less(scanned[i].0, scanned[j].0)
    ensures Ascending(NameLess, out)
  {
    forall i, j | 0 <= i < j < |out|
      ensures NameLess(out[i], out[j])
    {
      KeyOrderIsNameOrder(id, out[i].0, out[j].0);
      assert Less(scanned[i].0, scanned[j].0);
    }
  }

  lemma {:induction false} ListedComplete(s: Store, rows: Rows, t: NsTree, p: Path, scanned: seq<Row>,
      out: seq<Child>, name: string)
    requires Represents(s, rows, t) && p in t.live && p + [name] in t.live
    requires scanned == Scan(s, ChildPrefix(t.live[p].id)) && |out| == |scanned|
    requires forall i | 0 <= i < |out| :: scanned[i].0 == ChildKey(t.live[p].id, out[i].0)
    ensures exists i | 0 <= i < |out| :: out[i].0 == name
  {
    var id := t.live[p].id;
    ChildRow(s, rows, t, p, name);
    var key := ChildKey(id, name);
    assert StartsWith(key, ChildPrefix(id)) by { assert key[..|ChildPrefix(id)|] == ChildPrefix(id); }
    ScanKeys(s, ChildPrefix(id));
    var i :| 0 <= i < |scanned| && scanned[i] == (key, s[key]);
    ChildKeyInjective(id, out[i].0, id, name);
  }

  /** A directory lists each of its children once, in name order; the final sort is idle. */
  lemma {:induction false} ListSpec(s: Store, rows: Rows, t: NsTree, p: Path)
    requires Represents(s, rows, t) && p in t.live && t.live[p].node.Dir?
    ensures ListDir(s, p).Ok?
    ensures Ascending(NameLess, ListDir(s, p).value)
    ensures forall c: Child :: c in ListDir(s, p).value <==> ChildOf(t, p, c)
  {
    ResolveSpec(s, rows, t, p);
    var out := ScannedChildren(s, rows, t, p);
    NameLessAsymmetric();
    SortByFixed(NameLess, out);
  }

  lemma {:induction false} ScannedChildren(s: Store, rows: Rows, t: NsTree, p: Path) returns (out: seq<Child>)
    requires Represents(s, rows, t) && p in t.live
    ensures var scanned := Scan(s, ChildPrefix(t.live[p].id));
            && (forall i | 0 <= i < |scanned| :: |ChildPrefix(t.live[p].id)| <= |scanned[i].0|)
            && ListRows(s, |ChildPrefix(t.live[p].id)|, scanned) == Ok(out)
    ensures Ascending(NameLess, out) && forall c: Child :: c in out <==> ChildOf(t, p, c)
  {
    var id := t.live[p].id;
    var scanned := Scan(s, ChildPrefix(id));
    ScanKeys(s, ChildPrefix(id));
    forall i | 0 <= i < |scanned|
      ensures IsChild(s, t, p, scanned[i])
    {
      assert scanned[i] in scanned;
      var c := RowDescribes(s, rows, t, p, scanned[i].0);
    }
    out := ListRowsSpec(s, t, p, scanned);
    ListedAscending(id, scanned, out);
    ListedExactly(s, rows, t, p, scanned, out);
  }

  lemma {:induction false} ListedExactly(s: Store, rows: Rows, t: NsTree, p: Path, scanned: seq<Row>, out: seq<Child>)
    requires Represents(s, rows, t) && p in t.live
    requires scanned == Scan(s, ChildPrefix(t.live[p].id)) && |out| == |scanned|
    requires forall i | 0 <= i < |out| :: Describes(s, t, p, scanned[i], out[i])
    ensures forall c: Child :: c in out <==> ChildOf(t, p, c)
  {
    forall c: Child | ChildOf(t, p, c)
      ensures c in out
    {
      ListedComplete(s, rows, t, p, scanned, out, c.0);
    }
  }

  /** Listing anything but a live directory fails as looking it up does. */
  lemma {:induction false} ListFails(s: Store, rows: Rows, t: NsTree, p: Path)
    requires Represents(s, rows, t) && !(p in t.live && t.live[p].node.Dir?)
    ensures ListDir(s, p) == Err(if p in t.live then NotDirectory else NotFound)
  {
    ResolveSpec(s, rows, t, p);
  }

  // ----- the type index -----

  predicate PathStrLess(p: Path, q: Path) {
    StrLess(AsStr(p), AsStr(q))
  }

  ghost function PathsWithType(s: Store, ty: string): Result<seq<Path>, NsError> {
    var out :- Traverse(RowPath, Scan(s, TypePrefix(ty)));
    Ok(SortBy(PathStrLess, out))
  }

  /** The prefix scan for `ty` sees the node at `p`. */
  predicate Selected(t: NsTree, ty: string, p: Path) {
    p in t.live && StartsWith(TypeKey(TypeOf(t.live[p].node), t.live[p].id), TypePrefix(ty))
  }

  lemma {:induction false} IndexRow(s: Store, rows: Rows, t: NsTree, ty: string, key: Bytes) returns (p: Path)
    requires Represents(s, rows, t) && key in s && StartsWith(key, TypePrefix(ty))
    ensures Selected(t, ty, p) && key == TypeKey(TypeOf(t.live[p].node), t.live[p].id)
    ensures s[key] == ToUtf8(AsStr(p)) && PathOk(p)
  {
    var k: Key :| k in rows && Enc(k) == key;
    TypeScan(k, ty);
    assert RowAgrees(rows, t, k);
    p := t.at[k.id];
  }

  /** The row of the node at `p`. */
  ghost predicate RowOf(t: NsTree, ty: string, r: Row, p: Path) {
    Selected(t, ty, p) && r == (TypeKey(TypeOf(t.live[p].node), t.live[p].id), ToUtf8(AsStr(p))) && PathOk(p)
  }

  /** Each row leads back to its own node, unless a segment holds a NUL. */
  lemma {:induction false} RowParses(t: NsTree, ty: string, r: Row, p: Path)
    requires RowOf(t, ty, r, p)
    ensures RowPath(r) == if NoNul(p) then Ok(p) else Err(PathErr(PathError.InvalidUtf8))
  {
    Utf8RoundTrip(AsStr(p));
    ParseAsStr(p);
  }

  lemma {:induction false} RowPathsSpec(f: Row -> Result<Path, NsError>, e: NsError, scanned: seq<Row>, ps: seq<Path>)
    requires |ps| == |scanned|
    requires forall i | 0 <= i < |ps| :: f(scanned[i]) == if NoNul(ps[i]) then Ok(ps[i]) else Err(e)
    ensures Traverse(f, scanned).Ok? <==> forall i | 0 <= i < |ps| :: NoNul(ps[i])
    ensures Traverse(f, scanned).Ok? ==> Traverse(f, scanned).value == ps
  {
    if i :| 0 <= i < |ps| && !NoNul(ps[i]) {
      TraverseErr(f, scanned, i);
    } else {
      TraverseOk(f, scanned, ps);
    }
  }

  /** The path behind each scanned row. */
  lemma {:induction false} ScannedLead(s: Store, rows: Rows, t: NsTree, ty: string) returns (ps: seq<Path>)
    requires Represents(s, rows, t)
    ensures var scanned := Scan(s, TypePrefix(ty));
            |ps| == |scanned| && forall i | 0 <= i < |ps| :: RowOf(t, ty, scanned[i], ps[i])
  {
    var scanned := Scan(s, TypePrefix(ty));
    ScanKeys(s, TypePrefix(ty));
    var leads := (r, p) => RowOf(t, ty, r, p);
    forall i | 0 <= i < |scanned|
      ensures Related(leads, scanned[i])
    {
      assert scanned[i] in scanned;
      var p := IndexRow(s, rows, t, ty, scanned[i].0);
      assert leads(scanned[i], p);
    }
    ps := ChooseAll(leads, scanned);
  }

  lemma {:induction false} RowsComplete(s: Store, rows: Rows, t: NsTree, ty: string, scanned: seq<Row>,
      ps: seq<Path>, p: Path)
    requires Represents(s, rows, t) && Selected(t, ty, p)
    requires scanned == Scan(s, TypePrefix(ty)) && |ps| == |scanned|
    requires forall i | 0 <= i < |ps| :: RowOf(t, ty, scanned[i], ps[i])
    ensures p in ps
  {
    var l := t.live[p];
    var k := KType(TypeOf(l.node), l.id);
    RowGet(s, rows, k);
    assert RowAgrees(rows, t, k);
    assert HasRow(t, k) && Enc(k) == TypeKey(TypeOf(l.node), l.id);
    ScanKeys(s, TypePrefix(ty));
    var i :| 0 <= i < |scanned| && scanned[i] == (Enc(k), s[Enc(k)]);
    assert RowOf(t, ty, scanned[i], ps[i]);
    var m := t.live[ps[i]];
    TypeKeyInjective(TypeOf(l.node), l.id, TypeOf(m.node), m.id);
    assert t.at[m.id] == ps[i] && t.at[l.id] == p;
  }

  lemma {:induction false} RowsDistinct(t: NsTree, ty: string, scanned: seq<Row>, ps: seq<Path>)
    requires |ps| == |scanned| && forall i | 0 <= i < |ps| :: RowOf(t, ty, scanned[i], ps[i])
    requires forall i, j | 0 <= i < j < |scanned| :: Less(scanned[i].0, scanned[j].0)
    ensures Distinct(ps)
  {
    forall i, j | 0 <= i < j < |ps|
      ensures ps[i] != ps[j]
    {
      assert RowOf(t, ty, scanned[i], ps[i]) && RowOf(t, ty, scanned[j], ps[j]);
      LessIrreflexive(scanned[i].0);
      assert Less(scanned[i].0, scanned[j].0);
    }
  }

  lemma {:induction false} PathOrder()
    ensures Transitive(PathStrLess)
    ensures forall p: Path, q: Path | PathOk(p) && PathOk(q) && p != q :: PathStrLess(p, q) || PathStrLess(q, p)
  {
    StrOrder();
    forall p: Path, q: Path | PathOk(p) && PathOk(q) && p != q
      ensures PathStrLess(p, q) || PathStrLess(q, p)
    {
      if AsStr(p) == AsStr(q) { AsStrInjective(p, q); }
    }
  }

  /** Sorted paths: each selected node once. */
  lemma {:induction false} SortedPaths(t: NsTree, ty: string, ps: seq<Path>)
    requires NodesOk(t) && Distinct(ps) && forall p :: p in ps <==> Selected(t, ty, p)
    ensures Ascending(PathStrLess, SortBy(PathStrLess, ps))
    ensures forall p :: p in SortBy(PathStrLess, ps) <==> Selected(t, ty, p)
  {
    PathOrder();
    SortByAscending(PathStrLess, ps);
    SortByElements(PathStrLess, ps);
  }

  /**
   * The index answers with every node its scan selects, once each and in string order;
   * it fails exactly when one of their paths holds a NUL, which `parse` refuses.
   */
  lemma {:induction false} PathsWithTypeSpec(s: Store, rows: Rows, t: NsTree, ty: string)
    requires Represents(s, rows, t)
    ensures PathsWithType(s, ty).Ok? <==> forall p | Selected(t, ty, p) :: NoNul(p)
    ensures PathsWithType(s, ty).Ok? ==>
              && Ascending(PathStrLess, PathsWithType(s, ty).value)
              && forall p :: p in PathsWithType(s, ty).value <==> Selected(t, ty, p)
  {
    var scanned := Scan(s, TypePrefix(ty));
    var ps := ScannedLead(s, rows, t, ty);
    forall i | 0 <= i < |ps|
      ensures RowPath(scanned[i]) == if NoNul(ps[i]) then Ok(ps[i]) else Err(PathErr(PathError.InvalidUtf8))
    {
      RowParses(t, ty, scanned[i], ps[i]);
    }
    RowPathsSpec(RowPath, PathErr(PathError.InvalidUtf8), scanned, ps);
    ScannedOnce(s, rows, t, ty, ps);
    SortedPaths(t, ty, ps);
  }

  lemma {:induction false} ScannedOnce(s: Store, rows: Rows, t: NsTree, ty: string, ps: seq<Path>)
    requires Represents(s, rows, t) && |ps| == |Scan(s, TypePrefix(ty))|
    requires forall i | 0 <= i < |ps| :: RowOf(t, ty, Scan(s, TypePrefix(ty))[i], ps[i])
    ensures Distinct(ps) && forall p :: p in ps <==> Selected(t, ty, p)
  {
    var scanned := Scan(s, TypePrefix(ty));
    ScanKeys(s, TypePrefix(ty));
    RowsDistinct(t, ty, scanned, ps);
    forall p
      ensures p in ps <==> Selected(t, ty, p)
    {
      if Selected(t, ty, p) { RowsComplete(s, rows, t, ty, scanned, ps, p); }
    }
  }

  lemma {:induction false} SlashFree(s: string)
    requires '/' !in s
    ensures SLASH !in ToUtf8(s)
  {
    if s != [] {
      SlashFree(s[1..]);
      assert SLASH !in EncodeChar(s[0]);
    }
  }

  lemma {:induction false} TypeNamesSlashFree(n: Node)
    ensures SLASH !in ToUtf8(TypeOf(n))
  {
    SlashFree(TypeOf(n));
  }

  /**
   * What the scan for `ty` selects, exactly: the nodes of that type, and nodes of another
   * type whose id continues it to `ty`.
   */
  lemma {:induction false} SelectedIff(t: NsTree, ty: string, p: Path)
    ensures Selected(t, ty, p) <==>
            p in t.live && (TypeOf(t.live[p].node) == ty || ContinuesTo(TypeOf(t.live[p].node), t.live[p].id, ty))
  {
    hide TypeKey, TypePrefix, StartsWith, ContinuesTo;
    if p in t.live {
      TypeNamesSlashFree(t.live[p].node);
      TypeScanIff(TypeOf(t.live[p].node), t.live[p].id, ty);
    }
  }

  /** For a type name without a slash the scan selects the nodes of that type and no others. */
  lemma {:induction false} SelectedExact(t: NsTree, ty: string, p: Path)
    ensures p in t.live && TypeOf(t.live[p].node) == ty ==> Selected(t, ty, p)
    ensures '/' !in ty ==> (Selected(t, ty, p) <==> p in t.live && TypeOf(t.live[p].node) == ty)
  {
    SelectedIff(t, ty, p);
    if p in t.live && '/' !in ty {
      hide TypeOf, Selected;
      SlashFree(ty);
      NotContinued(TypeOf(t.live[p].node), t.live[p].id, ty);
    }
  }

  lemma {:induction false} NotContinued(u: string, id: u64, ty: string)
    requires SLASH !in ToUtf8(ty)
    ensures !ContinuesTo(u, id, ty)
  {
    forall j | 0 <= j < 8
      ensures ToUtf8(ty) != ToUtf8(u) + [SLASH] + Be(id, 8)[..j]
    {
      var b := ToUtf8(u) + [SLASH] + Be(id, 8)[..j];
      assert b[|ToUtf8(u)|] == SLASH && SLASH in b;
    }
  }
}
