/**
 * The directory tree behind the rows. A tree is its live paths with their ids and nodes;
 * the store holds exactly the rows the tree calls for.
 */
module TreeModel {
  import opened ByteStrings
  import opened Utf8
  import opened Values
  import opened Codec
  import opened Storage
  import opened Paths
  import opened Keys
  import opened Namespace

  datatype Node = Dir | Val(v: Value)
  datatype Live = Live(id: u64, node: Node)

  /** `at` is the inverse of the ids in `live`; ids below `next` have been handed out. */
  datatype NsTree = NsTree(live: map<Path, Live>, at: map<u64, Path>, next: u64)

  function TypeOf(n: Node): string {
    match n
    case Dir => "directory"
    case Val(v) => TypeName(v)
  }

  function RecordOf(n: Node): NodeRecord {
    match n
    case Dir => DirRecord
    case Val(v) => ValueRecord(Encode(v))
  }

  function NodeBytes(n: Node): Bytes {
    match n
    case Dir => DIR_NODE
    case Val(v) => ValueNode(Encode(v))
  }

  // ----- well-formed trees -----

  ghost predicate Rooted(t: NsTree) {
    [] in t.live && t.live[[]] == Live(ROOT, Dir)
  }

  /** Ids identify paths, and are all below the counter. */
  ghost predicate IdsUnique(t: NsTree) {
    && (forall p | p in t.live :: t.live[p].id in t.at && t.at[t.live[p].id] == p && t.live[p].id < t.next)
    && (forall id | id in t.at :: t.at[id] in t.live && t.live[t.at[id]].id == id)
  }

  /** Every node but the root hangs in a live directory with a smaller id. */
  ghost predicate ParentsLive(t: NsTree) {
    forall p | p in t.live && p != [] ::
      && Parent(p) in t.live
      && t.live[Parent(p)].node.Dir?
      && t.live[Parent(p)].id < t.live[p].id
  }

  ghost predicate NodesOk(t: NsTree) {
    forall p | p in t.live :: PathOk(p) && (t.live[p].node.Val? ==> WellFormed(t.live[p].node.v))
  }

  ghost predicate WellFormedTree(t: NsTree) {
    Rooted(t) && IdsUnique(t) && ParentsLive(t) && NodesOk(t)
  }

  // ----- rows -----

  predicate HasRow(t: NsTree, k: Key) {
    match k
    case KNext => true
    case KVersion => true
    case KNode(id) => id in t.at
    case KChild(id, name) => id in t.at && t.at[id] + [name] in t.live
    case KType(ty, id) => id in t.at && t.at[id] in t.live && TypeOf(t.live[t.at[id]].node) == ty
  }

  function RowValue(t: NsTree, k: Key): Bytes
    requires HasRow(t, k)
    requires k.KNode? ==> t.at[k.id] in t.live
  {
    match k
    case KNext => EncodeId(t.next)
    case KVersion => Be(1, 8)
    case KNode(id) => NodeBytes(t.live[t.at[id]].node)
    case KChild(id, name) => EncodeId(t.live[t.at[id] + [name]].id)
    case KType(ty, id) => ToUtf8(AsStr(t.at[id]))
  }

  type Rows = map<Key, Bytes>

  ghost predicate RowAgrees(rows: Rows, t: NsTree, k: Key)
    requires IdsUnique(t)
  {
    (k in rows <==> HasRow(t, k)) && (k in rows ==> rows[k] == RowValue(t, k))
  }

  /** The rows are exactly those of the tree. */
  ghost predicate Mirrors(rows: Rows, t: NsTree)
    requires IdsUnique(t)
  {
    forall k: Key :: RowAgrees(rows, t, k)
  }

  /** The store is the byte form of the rows. */
  ghost predicate Flat(s: Store, rows: Rows) {
    && (forall k: Key | k in rows :: Enc(k) in s && s[Enc(k)] == rows[k])
    && (forall b | b in s :: exists k: Key :: k in rows && Enc(k) == b)
  }

  ghost predicate Represents(s: Store, rows: Rows, t: NsTree) {
    WellFormedTree(t) && Mirrors(rows, t) && Flat(s, rows)
  }

  // ----- byte-level row access -----

  lemma {:induction false} RowGet(s: Store, rows: Rows, k: Key)
    requires Flat(s, rows)
    ensures Enc(k) in s <==> k in rows
    ensures k in rows ==> s[Enc(k)] == rows[k]
  {
    if Enc(k) in s {
      var l: Key :| l in rows && Enc(l) == Enc(k);
      EncInjective(l, k);
    }
  }

  lemma {:induction false} FlatPut(s: Store, rows: Rows, k: Key, v: Bytes)
    requires Flat(s, rows)
    ensures Flat(s[Enc(k) := v], rows[k := v])
  {
    var s', rows' := s[Enc(k) := v], rows[k := v];
    forall l: Key | l in rows'
      ensures Enc(l) in s' && s'[Enc(l)] == rows'[l]
    {
      if Enc(l) == Enc(k) { EncInjective(l, k); }
    }
    forall b | b in s'
      ensures exists l: Key :: l in rows' && Enc(l) == b
    {
      if b == Enc(k) {
        assert k in rows';
      } else {
        var l: Key :| l in rows && Enc(l) == b;
        assert l in rows';
      }
    }
  }

  lemma {:induction false} FlatDelete(s: Store, rows: Rows, k: Key)
    requires Flat(s, rows)
    ensures Flat(s - {Enc(k)}, rows - {k})
  {
    var s', rows' := s - {Enc(k)}, rows - {k};
    forall l: Key | l in rows'
      ensures Enc(l) in s' && s'[Enc(l)] == rows'[l]
    {
      if Enc(l) == Enc(k) { EncInjective(l, k); }
    }
    forall b | b in s'
      ensures exists l: Key :: l in rows' && Enc(l) == b
    {
      var l: Key :| l in rows && Enc(l) == b;
      assert l in rows';
    }
  }

  // ----- lookups see the tree -----

  lemma {:induction false} NodeRow(s: Store, rows: Rows, t: NsTree, p: Path)
    requires Represents(s, rows, t) && p in t.live
    ensures NodeAt(s, t.live[p].id) == Ok(RecordOf(t.live[p].node))
    ensures NodeKey(t.live[p].id) in s && ParseNode(s[NodeKey(t.live[p].id)]) == Ok(RecordOf(t.live[p].node))
  {
    var k := KNode(t.live[p].id);
    RowGet(s, rows, k);
    assert RowAgrees(rows, t, k);
    assert HasRow(t, k) && rows[k] == NodeBytes(t.live[p].node);
    assert Enc(k) == NodeKey(t.live[p].id);
    if t.live[p].node.Val? {
      assert NodeBytes(t.live[p].node)[1..] == Encode(t.live[p].node.v);
    }
  }

  lemma {:induction false} ChildRow(s: Store, rows: Rows, t: NsTree, p: Path, name: string)
    requires Represents(s, rows, t) && p in t.live
    ensures var k := ChildKey(t.live[p].id, name);
            && (k in s <==> p + [name] in t.live)
            && (k in s ==> DecodeId(s[k]) == Some(t.live[p + [name]].id))
  {
    var k := KChild(t.live[p].id, name);
    RowGet(s, rows, k);
    assert RowAgrees(rows, t, k);
    assert Enc(k) == ChildKey(t.live[p].id, name);
    assert HasRow(t, k) <==> p + [name] in t.live;
    if HasRow(t, k) {
      assert rows[k] == EncodeId(t.live[p + [name]].id);
      IdRoundTrip(t.live[p + [name]].id);
    }
  }

  lemma {:induction false} NextRow(s: Store, rows: Rows, t: NsTree)
    requires Represents(s, rows, t)
    ensures NextId(s) == Ok(t.next)
  {
    RowGet(s, rows, KNext);
    assert RowAgrees(rows, t, KNext);
    assert HasRow(t, KNext) && Enc(KNext) == META_NEXT_ID;
    assert rows[KNext] == EncodeId(t.next);
    IdRoundTrip(t.next);
  }

  /** Live paths are closed under taking prefixes. */
  lemma {:induction false} PrefixLive(t: NsTree, p: Path, q: Path)
    requires ParentsLive(t) && p + q in t.live
    ensures p in t.live
    decreases |q|
  {
    if q == [] {
      assert p + q == p;
    } else {
      assert Parent(p + q) == p + q[..|q| - 1];
      PrefixLive(t, p, q[..|q| - 1]);
    }
  }

  lemma {:induction false} DescendSpec(s: Store, rows: Rows, t: NsTree, p: Path, segs: Path)
    requires Represents(s, rows, t) && p in t.live
    ensures Descend(s, t.live[p].id, segs) ==
            if p + segs in t.live then Ok(t.live[p + segs].id) else Err(NotFound)
    decreases |segs|
  {
    if segs == [] {
      assert p + segs == p;
    } else {
      ChildRow(s, rows, t, p, segs[0]);
      assert p + segs == (p + [segs[0]]) + segs[1..];
      if p + [segs[0]] in t.live {
        DescendSpec(s, rows, t, p + [segs[0]], segs[1..]);
      } else if p + segs in t.live {
        PrefixLive(t, p + [segs[0]], segs[1..]);
      }
    }
  }

  /** Looking a path up gives its node, or NotFound; never another error. */
  lemma {:induction false} ResolveSpec(s: Store, rows: Rows, t: NsTree, p: Path)
    requires Represents(s, rows, t)
    ensures Resolve(s, p) ==
            if p in t.live then Ok((t.live[p].id, RecordOf(t.live[p].node))) else Err(NotFound)
  {
    DescendSpec(s, rows, t, [], p);
    assert [] + p == p;
    if p in t.live {
      NodeRow(s, rows, t, p);
    }
  }

  /** What a stored value comes back as. */
  function Stored(v: Value): Result<Value, NsError> {
    DecodeNs(Encode(v))
  }

  function GetAbs(t: NsTree, p: Path): Result<Entry, NsError> {
    if p !in t.live then Err(NotFound) else
    match t.live[p].node
    case Dir => Ok(Directory)
    case Val(v) =>
      var w :- Stored(v);
      Ok(ValueEntry(w))
  }

  lemma {:induction false} GetSpec(s: Store, rows: Rows, t: NsTree, p: Path)
    requires Represents(s, rows, t)
    ensures Get(s, p) == GetAbs(t, p)
  {
    ResolveSpec(s, rows, t, p);
  }
}
