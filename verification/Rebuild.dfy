/** Rebuilding the type index from the tree, whatever the index held before. */
module Rebuild {
  import opened ByteStrings
  import opened Utf8
  import opened Strings
  import opened Orders
  import opened Storage
  import opened Paths
  import opened Keys
  import opened Namespace
  import opened TreeModel
  import opened Refinement
  import opened Listing
  import opened Walking
  import opened Reading

  /** `s` and `s0` differ at most in rows under `idx/t/` and in the index version. */
  ghost predicate SameOutside(s: Store, s0: Store) {
    forall k | !StartsWith(k, INDEX) && k != META_VERSION :: (k in s <==> k in s0) && (k in s ==> s[k] == s0[k])
  }

  /** `s0` with the index version of `s`. */
  function Versioned(s0: Store, s: Store): Store {
    if META_VERSION in s then s0[META_VERSION := s[META_VERSION]] else s0 - {META_VERSION}
  }

  // ----- reads do not look at the index -----

  lemma {:induction false} NotIndexed(k: Key)
    requires k.KNode? || k.KChild?
    ensures !StartsWith(Enc(k), INDEX) && Enc(k) != META_VERSION
  {
    IndexScan(k);
    EncHead(k);
  }

  lemma {:induction false} DescendSame(s: Store, s0: Store, id: u64, segs: Path)
    requires SameOutside(s, s0)
    ensures Descend(s, id, segs) == Descend(s0, id, segs)
    decreases segs
  {
    hide StartsWith, ChildKey, DecodeId;
    if segs != [] {
      NotIndexed(KChild(id, segs[0]));
      assert Enc(KChild(id, segs[0])) == ChildKey(id, segs[0]);
      if ChildKey(id, segs[0]) in s && DecodeId(s[ChildKey(id, segs[0])]).Some? {
        DescendSame(s, s0, DecodeId(s[ChildKey(id, segs[0])]).value, segs[1..]);
      }
    }
  }

  lemma {:induction false} ResolveSame(s: Store, s0: Store, p: Path)
    requires SameOutside(s, s0)
    ensures Resolve(s, p) == Resolve(s0, p)
  {
    hide StartsWith, NodeKey;
    DescendSame(s, s0, ROOT, p);
    var id := Descend(s, ROOT, p);
    if id.Ok? {
      NotIndexed(KNode(id.value));
      assert Enc(KNode(id.value)) == NodeKey(id.value);
    }
  }

  lemma {:induction false} FirstByte(k: Bytes, p: Bytes)
    requires p != []
    ensures StartsWith(k, p) ==> k != [] && k[0] == p[0]
  {
    if StartsWith(k, p) {
      assert k[..|p|][0] == p[0];
    }
  }

  lemma {:induction false} ChildPrefixNotIndexed(id: u64, k: Bytes)
    requires StartsWith(k, ChildPrefix(id))
    ensures !StartsWith(k, INDEX) && k != META_VERSION
  {
    FirstByte(k, ChildPrefix(id));
    FirstByte(k, INDEX);
  }

  lemma {:induction false} ScanSame(s: Store, s0: Store, id: u64)
    requires SameOutside(s, s0)
    ensures Scan(s, ChildPrefix(id)) == Scan(s0, ChildPrefix(id))
  {
    hide StartsWith;
    var prefix := ChildPrefix(id);
    forall k | StartsWith(k, prefix)
      ensures k in s <==> k in s0
    {
      ChildPrefixNotIndexed(id, k);
    }
    assert PrefixKeys(s, prefix) == PrefixKeys(s0, prefix);
    var keys := SortedKeys(PrefixKeys(s, prefix));
    SortedKeysSpec(PrefixKeys(s, prefix));
    forall k | k in keys
      ensures k in s && k in s0 && s[k] == s0[k]
    {
      ChildPrefixNotIndexed(id, k);
    }
    SameRows(s, s0, keys);
  }

  lemma {:induction false} ListRowsSame(s: Store, s0: Store, n: nat, rows: seq<Row>)
    requires SameOutside(s, s0) && forall i | 0 <= i < |rows| :: n <= |rows[i].0|
    ensures ListRows(s, n, rows) == ListRows(s0, n, rows)
  {
    hide StartsWith, NodeKey, FromUtf8, DecodeId, ParseNode;
    if rows != [] {
      ListRowsSame(s, s0, n, rows[1..]);
      var id := DecodeId(rows[0].1);
      if id.Some? {
        NotIndexed(KNode(id.value));
        assert Enc(KNode(id.value)) == NodeKey(id.value);
      }
    }
  }

  lemma {:induction false} ListSame(s: Store, s0: Store, p: Path)
    requires SameOutside(s, s0)
    ensures ListDir(s, p) == ListDir(s0, p)
  {
    hide SameOutside, Resolve, ListRows, Scan;
    ResolveSame(s, s0, p);
    var found := Resolve(s, p);
    if found.Ok? {
      var prefix := ChildPrefix(found.value.0);
      ScanSame(s, s0, found.value.0);
      ScannedLong(s, prefix);
      ListRowsSame(s, s0, |prefix|, Scan(s, prefix));
    }
  }

  // ----- what the batch has written so far -----

  function IndexKey(t: NsTree, p: Path): Bytes
    requires p in t.live
  {
    TypeKey(TypeOf(t.live[p].node), t.live[p].id)
  }

  ghost predicate Kept(t: NsTree, done: set<Path>, k: Bytes)
    requires done <= t.live.Keys
  {
    StartsWith(k, INDEX) ==> exists p | p in done :: k == IndexKey(t, p)
  }

  /** The good store with index rows only for the paths visited. */
  ghost function Partial(s0: Store, t: NsTree, done: set<Path>): Store
    requires done <= t.live.Keys
  {
    map k | k in s0 && Kept(t, done, k) :: s0[k]
  }

  lemma {:induction false} ClearedIndex(s: Store, s0: Store, t: NsTree, cleared: Store)
    requires SameOutside(s, s0)
    requires forall k :: k in cleared <==> k in s && !StartsWith(k, INDEX)
    requires forall k | k in cleared :: cleared[k] == s[k]
    ensures cleared == Partial(Versioned(s0, s), t, {})
  {
    VersionNotIndexed();
    hide StartsWith;
  }

  lemma {:induction false} VersionNotIndexed()
    ensures !StartsWith(META_VERSION, INDEX)
  {
    FirstByte(META_VERSION, INDEX);
  }

  lemma {:induction false} OneIndexRow(s0: Store, rows: Rows, t: NsTree, p: Path)
    requires Represents(s0, rows, t) && p in t.live
    ensures IndexKey(t, p) in s0 && s0[IndexKey(t, p)] == ToUtf8(AsStr(p)) && StartsWith(IndexKey(t, p), INDEX)
  {
    var k := KType(TypeOf(t.live[p].node), t.live[p].id);
    RowGet(s0, rows, k);
    assert RowAgrees(rows, t, k);
    assert Enc(k) == IndexKey(t, p);
    IndexScan(k);
  }

  lemma {:induction false} PartialGrows(s: Store, s0: Store, rows: Rows, t: NsTree, done: set<Path>, p: Path)
    requires Represents(s0, rows, t) && p in t.live && done <= t.live.Keys
    ensures Partial(Versioned(s0, s), t, done)[IndexKey(t, p) := ToUtf8(AsStr(p))]
            == Partial(Versioned(s0, s), t, done + {p})
  {
    OneIndexRow(s0, rows, t, p);
    VersionNotIndexed();
    PartialAdds(Versioned(s0, s), t, done, p);
  }

  lemma {:induction false} PartialAdds(s0: Store, t: NsTree, done: set<Path>, p: Path)
    requires p in t.live && done <= t.live.Keys
    requires IndexKey(t, p) in s0 && s0[IndexKey(t, p)] == ToUtf8(AsStr(p))
    ensures Partial(s0, t, done)[IndexKey(t, p) := ToUtf8(AsStr(p))] == Partial(s0, t, done + {p})
  {
    hide StartsWith, IndexKey;
    var a, b := Partial(s0, t, done)[IndexKey(t, p) := ToUtf8(AsStr(p))], Partial(s0, t, done + {p});
    forall k
      ensures k in a <==> k in b
    {
      assert k == IndexKey(t, p) ==> Kept(t, done + {p}, k);
      assert Kept(t, done, k) ==> Kept(t, done + {p}, k);
      assert Kept(t, done + {p}, k) ==> Kept(t, done, k) || k == IndexKey(t, p);
    }
  }

  lemma {:induction false} PartialWhole(s: Store, s0: Store, rows: Rows, t: NsTree)
    requires Represents(s0, rows, t)
    ensures Partial(Versioned(s0, s), t, t.live.Keys) == Versioned(s0, s)
  {
    VersionNotIndexed();
    forall b | b in Versioned(s0, s)
      ensures Kept(t, t.live.Keys, b)
    {
      if StartsWith(b, INDEX) {
        assert b in s0;
        IndexedRow(s0, rows, t, b);
      }
    }
  }

  lemma {:induction false} IndexedRow(s0: Store, rows: Rows, t: NsTree, b: Bytes)
    requires Represents(s0, rows, t) && b in s0 && StartsWith(b, INDEX)
    ensures exists p | p in t.live :: b == IndexKey(t, p)
  {
    var k: Key :| k in rows && Enc(k) == b;
    IndexScan(k);
    assert RowAgrees(rows, t, k);
    assert b == IndexKey(t, t.at[k.id]);
  }

  // ----- the stack of the walk -----

  predicate Apart(p: Path, q: Path) {
    !Extends(p, q) && !Extends(q, p)
  }

  /** Every live path is either visited or below exactly one path on the stack. */
  ghost predicate Frontier(t: NsTree, done: set<Path>, stack: seq<Path>) {
    && done <= t.live.Keys
    && (forall i | 0 <= i < |stack| :: stack[i] in t.live)
    && (forall i, j | 0 <= i < j < |stack| :: Apart(stack[i], stack[j]))
    && (forall p | p in t.live :: p in done <==> !Covered(stack, p))
  }

  predicate Covered(stack: seq<Path>, p: Path) {
    exists i | 0 <= i < |stack| :: Extends(stack[i], p)
  }

  lemma {:induction false} FrontierStart(t: NsTree)
    requires [] in t.live
    ensures Frontier(t, {}, [[]])
  {
    forall p | p in t.live
      ensures Covered([[]], p)
    {
      assert Extends([[]][0], p);
    }
  }

  lemma {:induction false} FrontierDone(t: NsTree, done: set<Path>)
    requires Frontier(t, done, [])
    ensures done == t.live.Keys
  {
    forall p | p in t.live
      ensures p in done
    {
      assert !Covered([], p);
    }
  }

  lemma {:induction false} FrontierTop(t: NsTree, done: set<Path>, stack: seq<Path>)
    requires Frontier(t, done, stack) && stack != []
    ensures stack[|stack| - 1] in t.live && stack[|stack| - 1] !in done
  {
    var p := stack[|stack| - 1];
    assert Extends(p, p);
    assert Covered(stack, p);
  }

  /** The children of `p`, as pushed. */
  function Pushed(p: Path, names: seq<Child>): seq<Path> {
    seq(|names|, i requires 0 <= i < |names| => p + [names[i].0])
  }

  lemma {:induction false} ChildExtends(p: Path, name: string, r: Path)
    ensures Extends(p + [name], r) ==> Extends(p, r)
    ensures Extends(r, p + [name]) ==> Extends(r, p) || Extends(p, r)
  {
    var c := p + [name];
    if Extends(c, r) {
      assert r[..|p|] == r[..|c|][..|p|] == p;
    }
    if Extends(r, c) {
      if |r| <= |p| {
        assert p[..|r|] == c[..|r|];
      } else {
        assert r == c && r[..|p|] == p;
      }
    }
  }

  lemma {:induction false} ChildApart(p: Path, name: string, r: Path)
    requires Apart(r, p)
    ensures Apart(r, p + [name])
  {
    ChildExtends(p, name, r);
  }

  lemma {:induction false} SiblingApart(p: Path, a: string, b: string)
    requires a != b
    ensures Apart(p + [a], p + [b])
  {
    var x, y := p + [a], p + [b];
    assert x[|p|] == a && y[|p|] == b;
    assert y[..|x|] == y && x[..|y|] == x;
  }

  lemma {:induction false} PushedApart(t: NsTree, done: set<Path>, stack: seq<Path>, names: seq<Child>)
    requires Frontier(t, done, stack) && stack != [] && Ascending(NameLess, names)
    ensures var rest, p := stack[..|stack| - 1], stack[|stack| - 1];
            var next := rest + Pushed(p, names);
            forall i, j | 0 <= i < j < |next| :: Apart(next[i], next[j])
  {
    hide Apart, NameLess;
    var rest, p := stack[..|stack| - 1], stack[|stack| - 1];
    var next := rest + Pushed(p, names);
    forall i, j | 0 <= i < j < |next|
      ensures Apart(next[i], next[j])
    {
      if j < |rest| {
        assert next[i] == stack[i] && next[j] == stack[j];
      } else if i < |rest| {
        assert Apart(stack[i], stack[|stack| - 1]);
        ChildApart(p, names[j - |rest|].0, stack[i]);
      } else {
        assert NameLess(names[i - |rest|], names[j - |rest|]);
        NameLessDiffers(names[i - |rest|], names[j - |rest|]);
        SiblingApart(p, names[i - |rest|].0, names[j - |rest|].0);
      }
    }
  }

  lemma {:induction false} NameLessDiffers(a: Child, b: Child)
    requires NameLess(a, b)
    ensures a.0 != b.0
  {
    StrIrreflexive(a.0);
  }

  /** Below `p` is `p` itself and what its children cover. */
  lemma {:induction false} PushedCovers(t: NsTree, p: Path, names: seq<Child>, q: Path)
    requires WellFormedTree(t) && p in t.live && q in t.live && forall c: Child :: c in names <==> ChildOf(t, p, c)
    ensures Extends(p, q) <==> q == p || Covered(Pushed(p, names), q)
  {
    var kids := Pushed(p, names);
    if Extends(p, q) && q != p {
      ThroughChild(t, p, names, q);
      var i :| 0 <= i < |names| && names[i].0 == q[|p|];
      assert q[..|p| + 1] == q[..|p|] + [q[|p|]];
      assert Extends(kids[i], q);
    }
    if Covered(kids, q) {
      var i :| 0 <= i < |kids| && Extends(kids[i], q);
      assert q[..|p|] == q[..|p| + 1][..|p|] == kids[i][..|p|] == p;
    }
  }

  lemma {:induction false} CoveredSplit(a: seq<Path>, b: seq<Path>, q: Path)
    ensures Covered(a + b, q) <==> Covered(a, q) || Covered(b, q)
  {
    hide Extends;
    if Covered(a, q) {
      var i :| 0 <= i < |a| && Extends(a[i], q);
      assert (a + b)[i] == a[i];
    }
    if Covered(b, q) {
      var i :| 0 <= i < |b| && Extends(b[i], q);
      assert (a + b)[|a| + i] == b[i];
    }
  }

  /** Two paths on the stack never cover the same path. */
  lemma {:induction false} OnlyCover(t: NsTree, done: set<Path>, stack: seq<Path>, q: Path)
    requires Frontier(t, done, stack) && stack != [] && Extends(stack[|stack| - 1], q)
    ensures !Covered(stack[..|stack| - 1], q)
  {
    var p := stack[|stack| - 1];
    forall i | 0 <= i < |stack| - 1
      ensures !Extends(stack[i], q)
    {
      assert Apart(stack[i], p);
      PrefixesCompare(stack[i], p, q);
    }
  }

  lemma {:induction false} PrefixesCompare(a: Path, b: Path, q: Path)
    ensures Extends(a, q) && Extends(b, q) ==> Extends(a, b) || Extends(b, a)
  {
    if Extends(a, q) && Extends(b, q) {
      if |a| <= |b| {
        assert b[..|a|] == q[..|b|][..|a|] == q[..|a|];
      } else {
        assert a[..|b|] == q[..|a|][..|b|] == q[..|b|];
      }
    }
  }

  /** Visiting the top of the stack and pushing its children keeps the frontier. */
  lemma {:induction false} FrontierStep(t: NsTree, done: set<Path>, stack: seq<Path>, names: seq<Child>)
    requires WellFormedTree(t) && Frontier(t, done, stack) && stack != [] && Ascending(NameLess, names)
    requires forall c: Child :: c in names <==> ChildOf(t, stack[|stack| - 1], c)
    ensures var rest, p := stack[..|stack| - 1], stack[|stack| - 1];
            Frontier(t, done + {p}, rest + Pushed(p, names))
  {
    hide Apart, NameLess, Extends, Covered, WellFormedTree;
    var rest, p := stack[..|stack| - 1], stack[|stack| - 1];
    var kids := Pushed(p, names);
    PushedApart(t, done, stack, names);
    forall q | q in t.live
      ensures q in done + {p} <==> !Covered(rest + kids, q)
    {
      CoveredStep(t, done, stack, names, q);
    }
    forall i | 0 <= i < |rest + kids|
      ensures (rest + kids)[i] in t.live
    {
      if i < |rest| {
        assert (rest + kids)[i] == stack[i];
      } else {
        assert names[i - |rest|] in names;
      }
    }
  }

  lemma {:induction false} CoveredStep(t: NsTree, done: set<Path>, stack: seq<Path>, names: seq<Child>, q: Path)
    requires WellFormedTree(t) && Frontier(t, done, stack) && stack != [] && q in t.live
    requires forall c: Child :: c in names <==> ChildOf(t, stack[|stack| - 1], c)
    ensures var rest, p := stack[..|stack| - 1], stack[|stack| - 1];
            q in done + {p} <==> !Covered(rest + Pushed(p, names), q)
  {
    hide Covered, Apart, ChildOf;
    var rest, p := stack[..|stack| - 1], stack[|stack| - 1];
    CoveredSplit(rest, Pushed(p, names), q);
    CoveredSplit(rest, [p], q);
    assert rest + [p] == stack;
    CoveredOne(p, q);
    PushedCovers(t, p, names, q);
    if Extends(p, q) {
      OnlyCover(t, done, stack, q);
    }
    if q == p {
      NotOwnChild(p, names);
      assert Extends(p, p);
    }
  }

  lemma {:induction false} CoveredOne(p: Path, q: Path)
    ensures Covered([p], q) <==> Extends(p, q)
  {
    if Extends(p, q) {
      assert Extends([p][0], q);
    }
  }

  lemma {:induction false} NotOwnChild(p: Path, names: seq<Child>)
    ensures !Covered(Pushed(p, names), p)
  {
  }

  // ----- the rebuild itself -----

  method ClearIndex(s: Store) returns (batch: Batch, ghost cleared: Store)
    ensures cleared == ApplyOps(s, batch)
    ensures forall k :: k in cleared <==> k in s && !StartsWith(k, INDEX)
    ensures forall k | k in cleared :: cleared[k] == s[k]
  {
    hide StartsWith, Scan;
    var rows := ScanRange(s, INDEX);
    ScanKeys(s, INDEX);
    batch := [];
    cleared := s;
    for i := 0 to |rows|
      invariant cleared == ApplyOps(s, batch)
      invariant forall k | k in cleared :: k in s && cleared[k] == s[k]
      invariant forall k | k in s && k !in cleared :: StartsWith(k, INDEX)
      invariant forall j | 0 <= j < i :: rows[j].0 !in cleared
    {
      assert rows[i] in rows;
      var drop := Delete(rows[i].0);
      ApplyOpsConcat(s, batch, [drop]);
      Apply1(cleared, drop);
      batch := batch + [drop];
      cleared := ApplyOp(cleared, drop);
    }
    forall k | k in s && StartsWith(k, INDEX)
      ensures k !in cleared
    {
      assert (k, s[k]) in rows;
    }
  }

  method PushChildren(stack: seq<Path>, p: Path, names: seq<Child>) returns (out: seq<Path>)
    requires forall i | 0 <= i < |names| :: SegmentOk(names[i].0)
    ensures out == stack + Pushed(p, names)
  {
    out := stack;
    for i := 0 to |names|
      invariant out == stack + Pushed(p, names)[..i]
    {
      var child := Join(p, names[i].0);
      assert Pushed(p, names)[..i] + [child.value] == Pushed(p, names)[..i + 1];
      out := out + [child.value];
    }
    assert Pushed(p, names)[..|names|] == Pushed(p, names);
  }

  /** What the loop has to keep: the batch so far, the paths visited, the paths to visit. */
  ghost predicate Rebuilding(s: Store, s0: Store, t: NsTree, batch: Batch, done: set<Path>, stack: seq<Path>) {
    Frontier(t, done, stack) && Readable(t, done) && ApplyOps(s, batch) == Partial(Versioned(s0, s), t, done)
  }

  lemma {:induction false} RebuildStarts(s: Store, s0: Store, t: NsTree, batch: Batch, cleared: Store)
    requires SameOutside(s, s0) && [] in t.live && cleared == ApplyOps(s, batch)
    requires forall k :: k in cleared <==> k in s && !StartsWith(k, INDEX)
    requires forall k | k in cleared :: cleared[k] == s[k]
    ensures Rebuilding(s, s0, t, batch, {}, [[]])
  {
    hide StartsWith, ApplyOps, Frontier;
    FrontierStart(t);
    ClearedIndex(s, s0, t, cleared);
    assert Frontier(t, {}, [[]]) ==> {} <= t.live.Keys;
  }

  /** One visit: its index row is written and its children take its place on the stack. */
  lemma {:induction false} RebuildVisits(
    s: Store, s0: Store, rows: Rows, t: NsTree, batch: Batch, done: set<Path>, stack: seq<Path>, names: seq<Child>)
    requires Represents(s0, rows, t) && Rebuilding(s, s0, t, batch, done, stack) && stack != []
    requires stack[|stack| - 1] in t.live && GetAbs(t, stack[|stack| - 1]).Ok?
    requires Ascending(NameLess, names) && forall c: Child :: c in names <==> ChildOf(t, stack[|stack| - 1], c)
    ensures var p := stack[|stack| - 1];
            Rebuilding(s, s0, t, batch + [Put(IndexKey(t, p), ToUtf8(AsStr(p)))], done + {p},
                       stack[..|stack| - 1] + Pushed(p, names))
  {
    var p := stack[|stack| - 1];
    FrontierStep(t, done, stack, names);
    PartialGrows(s, s0, rows, t, done, p);
    hide Flat, Mirrors, Frontier, Partial, Versioned, ApplyOps, IndexKey, GetAbs, Pushed;
    var put := Put(IndexKey(t, p), ToUtf8(AsStr(p)));
    ApplyOpsConcat(s, batch, [put]);
    Apply1(ApplyOps(s, batch), put);
  }

  lemma {:induction false} TopReads(s: Store, s0: Store, rows: Rows, t: NsTree, p: Path)
    requires Represents(s0, rows, t) && SameOutside(s, s0) && p in t.live
    ensures Resolve(s, p) == Ok((t.live[p].id, RecordOf(t.live[p].node)))
    ensures RecordType(RecordOf(t.live[p].node)).Ok? <==> GetAbs(t, p).Ok?
    ensures GetAbs(t, p).Ok? ==> RecordType(RecordOf(t.live[p].node)) == Ok(TypeOf(t.live[p].node))
  {
    hide Flat, Mirrors, SameOutside, Resolve;
    ResolveSame(s, s0, p);
    ResolveSpec(s0, rows, t, p);
    RecordTypeSpec(t.live[p].node);
  }

  lemma {:induction false} TopChildren(s: Store, s0: Store, rows: Rows, t: NsTree, p: Path)
    requires Represents(s0, rows, t) && SameOutside(s, s0) && p in t.live && t.live[p].node.Dir?
    ensures ListDir(s, p).Ok? && Ascending(NameLess, ListDir(s, p).value)
    ensures forall c: Child :: c in ListDir(s, p).value <==> ChildOf(t, p, c)
    ensures forall i | 0 <= i < |ListDir(s, p).value| :: SegmentOk(ListDir(s, p).value[i].0)
  {
    hide Flat, Mirrors, SameOutside, ListDir;
    ListSame(s, s0, p);
    ListSpec(s0, rows, t, p);
    var names := ListDir(s, p).value;
    forall i | 0 <= i < |names|
      ensures SegmentOk(names[i].0)
    {
      assert names[i] in names && PathOk(p + [names[i].0]);
      assert names[i].0 in p + [names[i].0];
    }
  }

  lemma {:induction false} ValueHasNoChildren(t: NsTree, p: Path)
    requires WellFormedTree(t) && p in t.live && t.live[p].node.Val?
    ensures forall c: Child :: c in [] <==> ChildOf(t, p, c)
  {
    forall c: Child
      ensures !ChildOf(t, p, c)
    {
      assert Parent(p + [c.0]) == p;
    }
  }

  lemma {:induction false} RebuildEnds(s: Store, s0: Store, rows: Rows, t: NsTree, batch: Batch, done: set<Path>)
    requires Represents(s0, rows, t) && Rebuilding(s, s0, t, batch, done, [])
    ensures ApplyOps(s, batch) == Versioned(s0, s) && Readable(t, t.live.Keys)
  {
    hide Flat, Mirrors, Frontier, Partial, ApplyOps, Readable, Versioned;
    FrontierDone(t, done);
    PartialWhole(s, s0, rows, t);
  }

  lemma {:induction false} TopOf(s: Store, s0: Store, t: NsTree, batch: Batch, done: set<Path>, stack: seq<Path>)
    requires Rebuilding(s, s0, t, batch, done, stack) && stack != []
    ensures stack[|stack| - 1] in t.live && stack[|stack| - 1] !in done && done <= t.live.Keys
  {
    FrontierTop(t, done, stack);
  }

  /**
   * Whatever was under `idx/t/`, applying the batch gives exactly the store that incremental
   * maintenance would hold, its version row aside. The walk ends; it fails only on a value
   * that cannot be read.
   */
  method RebuildBatch(s: Store, ghost s0: Store, ghost rows: Rows, ghost t: NsTree) returns (r: Result<Batch, NsError>)
    requires Represents(s0, rows, t) && SameOutside(s, s0)
    ensures r.Ok? <==> Readable(t, t.live.Keys)
    ensures r.Ok? ==> ApplyOps(s, r.value) == Versioned(s0, s)
  {
    hide Flat, Mirrors, SameOutside, Rebuilding, ApplyOps, Resolve, ListDir, RecordType, GetAbs, IndexKey,
         RecordOf, AsStr, TypeKey, Versioned;
    var batch, cleared := ClearIndex(s);
    var stack: seq<Path> := [[]];
    ghost var done: set<Path> := {};
    RebuildStarts(s, s0, t, batch, cleared);
    while stack != []
      invariant Rebuilding(s, s0, t, batch, done, stack)
      invariant done <= t.live.Keys
      decreases t.live.Keys - done
    {
      TopOf(s, s0, t, batch, done, stack);
      var p := stack[|stack| - 1];
      TopReads(s, s0, rows, t, p);
      var found := ResolvePath(s, p);
      var (id, rec) := found.value;
      var ty := RecordType(rec);
      if ty.Err? {
        assert p in t.live.Keys;
        return Err(ty.error);
      }
      TopKey(t, p);
      var names: seq<Child> := [];
      if rec.DirRecord? {
        DirRecordIsDir(t.live[p].node);
        TopChildren(s, s0, rows, t, p);
        var listed := ListChildren(s, p);
        names := listed.value;
      } else {
        DirRecordIsDir(t.live[p].node);
        ValueHasNoChildren(t, p);
      }
      RebuildVisits(s, s0, rows, t, batch, done, stack, names);
      batch := batch + [Put(TypeKey(ty.value, id), ToUtf8(AsStr(p)))];
      done := done + {p};
      stack := PushChildren(stack[..|stack| - 1], p, names);
    }
    RebuildEnds(s, s0, rows, t, batch, done);
    r := Ok(batch);
  }

  lemma {:induction false} TopKey(t: NsTree, p: Path)
    requires p in t.live
    ensures IndexKey(t, p) == TypeKey(TypeOf(t.live[p].node), t.live[p].id)
  {
  }

  lemma {:induction false} DirRecordIsDir(n: Node)
    ensures RecordOf(n).DirRecord? <==> n.Dir?
  {
  }
}
