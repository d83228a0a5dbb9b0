/** The database object: every call computes one batch and commits it. */
module Databases {
  import opened ByteStrings
  import opened Utf8
  import opened Values
  import opened Codec
  import opened CodecLoops
  import opened Storage
  import opened Paths
  import opened Keys
  import opened Namespace
  import opened TreeModel
  import opened Refinement
  import opened Runs
  import opened Walking
  import opened Reading
  import opened Overlays
  import opened Txn
  import opened Rebuild

  // ----- computing batches -----

  method ParentOf(m: Store, p: Path) returns (r: Result<u64, NsError>)
    requires p != []
    ensures r == ResolveParent(m, p)
  {
    hide Resolve;
    var found := ResolvePath(m, Parent(p));
    if found.Err? {
      return Err(if found.error.NotFound? then ParentMissing else found.error);
    }
    r := if found.value.1.DirRecord? then Ok(found.value.0) else Err(NotDirectory);
  }

  method NewNodeBatch(m: Store, parent: u64, p: Path, node: Bytes, ty: string) returns (r: Result<Batch, NsError>)
    requires p != []
    ensures r == NewNode(m, parent, p, node, ty)
  {
    hide DecodeId, EncodeId, NodeKey, ChildKey, TypeKey, ToUtf8, AsStr;
    if META_NEXT_ID !in m {
      return Err(Invalid);
    }
    var id := DecodeId(m[META_NEXT_ID]);
    if id.None? {
      return Err(Invalid);
    }
    var batch: Batch := [];
    batch := batch + [Put(META_NEXT_ID, EncodeId(id.value as int + 1))];
    batch := batch + [Put(NodeKey(id.value), node)];
    batch := batch + [Put(ChildKey(parent, Name(p)), EncodeId(id.value))];
    batch := batch + [Put(TypeKey(ty, id.value), ToUtf8(AsStr(p)))];
    assert batch == [Put(META_NEXT_ID, EncodeId(id.value as int + 1)), Put(NodeKey(id.value), node),
                     Put(ChildKey(parent, Name(p)), EncodeId(id.value)), Put(TypeKey(ty, id.value), ToUtf8(AsStr(p)))];
    r := Ok(batch);
  }

  method MkdirBatch(m: Store, p: Path) returns (r: Result<Batch, NsError>)
    ensures r == Mkdir(m, p)
  {
    hide Resolve, ResolveParent, NewNode;
    if p == [] {
      return Ok([]);
    }
    var found := ResolvePath(m, p);
    if found.Ok? {
      return Err(AlreadyExists);
    }
    if !found.error.NotFound? {
      return Err(found.error);
    }
    var parent := ParentOf(m, p);
    if parent.Err? {
      return Err(parent.error);
    }
    r := NewNodeBatch(m, parent.value, p, DIR_NODE, "directory");
  }

  method OverwriteBatch(m: Store, id: u64, p: Path, value: Value) returns (r: Result<Batch, NsError>)
    ensures r == Overwrite(m, id, p, value)
  {
    hide Encode, Decode, TypeName, NodeKey, TypeKey, ToUtf8, AsStr;
    var enc := EncodeBytes(value);
    if NodeKey(id) !in m {
      return Err(Invalid);
    }
    var rec := ParseNode(m[NodeKey(id)]);
    if rec.Err? {
      return Err(rec.error);
    }
    if rec.value.DirRecord? {
      return Err(IsDirectory);
    }
    var prev := DecodeBytes(rec.value.enc);
    if prev.Err? {
      return Err(CodecErr(prev.error));
    }
    var batch: Batch := [];
    if TypeName(prev.value) != TypeName(value) {
      batch := batch + [Delete(TypeKey(TypeName(prev.value), id))];
    }
    batch := batch + [Put(NodeKey(id), ValueNode(enc))];
    batch := batch + [Put(TypeKey(TypeName(value), id), ToUtf8(AsStr(p)))];
    assert batch == (if TypeName(prev.value) != TypeName(value)
        then [Delete(TypeKey(TypeName(prev.value), id))] else [])
                    + [Put(NodeKey(id), ValueNode(enc)), Put(TypeKey(TypeName(value), id), ToUtf8(AsStr(p)))];
    r := Ok(batch);
  }

  method SetBatchOf(m: Store, p: Path, value: Value) returns (r: Result<Batch, NsError>)
    ensures r == SetValue(m, p, value)
  {
    hide ResolveParent, NewNode, Overwrite, Encode, DecodeId;
    if p == [] {
      return Err(Invalid);
    }
    var parent := ParentOf(m, p);
    if parent.Err? {
      return Err(parent.error);
    }
    if ChildKey(parent.value, Name(p)) in m {
      var id := DecodeId(m[ChildKey(parent.value, Name(p))]);
      if id.None? {
        return Err(Invalid);
      }
      r := OverwriteBatch(m, id.value, p, value);
    } else {
      var enc := EncodeBytes(value);
      r := NewNodeBatch(m, parent.value, p, ValueNode(enc), TypeName(value));
    }
  }

  method RemoveBatchOf(m: Store, p: Path) returns (r: Result<Batch, NsError>)
    ensures r == Remove(m, p)
  {
    hide Resolve, Decode, Scan, StartsWith, NodeKey, ChildKey, TypeKey, ChildPrefix, RecordType;
    if p == [] {
      return Err(Invalid);
    }
    var found := ResolvePath(m, p);
    if found.Err? {
      return Err(found.error);
    }
    var (id, rec) := found.value;
    if rec.DirRecord? {
      var children := ScanRange(m, ChildPrefix(id));
      ScanEmpty(m, ChildPrefix(id));
      if children != [] {
        return Err(Invalid);
      }
    }
    var parent := ResolvePath(m, Parent(p));
    if parent.Err? {
      return Err(parent.error);
    }
    var ty := RecordType(rec);
    if ty.Err? {
      return Err(ty.error);
    }
    var batch: Batch := [];
    batch := batch + [Delete(TypeKey(ty.value, id))];
    batch := batch + [Delete(ChildKey(parent.value.0, Name(p)))];
    batch := batch + [Delete(NodeKey(id))];
    assert batch == [Delete(TypeKey(ty.value, id)), Delete(ChildKey(parent.value.0, Name(p))), Delete(NodeKey(id))];
    r := Ok(batch);
  }

  // ----- upgrading older stores -----

  /**
   * `s` is the store `s0` of a good database, but for the index and its version; with the
   * current version it is that store.
   */
  ghost predicate Upgradable(s: Store, s0: Store, rows: Rows, t: NsTree) {
    && Represents(s0, rows, t) && SameOutside(s, s0)
    && (META_VERSION in s && s[META_VERSION] == Be(1, 8) ==> s == s0)
  }

  lemma {:induction false} VersionRow(s0: Store, rows: Rows, t: NsTree)
    requires Represents(s0, rows, t)
    ensures META_VERSION in s0 && s0[META_VERSION] == Be(1, 8)
  {
    RowGet(s0, rows, KVersion);
    assert RowAgrees(rows, t, KVersion);
    assert Enc(KVersion) == META_VERSION;
  }

  lemma {:induction false} Upgraded(s: Store, s0: Store, rows: Rows, t: NsTree)
    requires Represents(s0, rows, t)
    ensures Versioned(s0, s)[META_VERSION := Be(1, 8)] == s0
  {
    VersionRow(s0, rows, t);
  }

  lemma {:induction false} RootRow(s: Store, s0: Store, rows: Rows, t: NsTree)
    requires Represents(s0, rows, t) && SameOutside(s, s0)
    ensures NodeKey(ROOT) in s
  {
    NodeRow(s0, rows, t, []);
    NotIndexed(KNode(ROOT));
    assert Enc(KNode(ROOT)) == NodeKey(ROOT);
  }

  lemma {:induction false} CounterRow(s: Store, s0: Store, rows: Rows, t: NsTree)
    requires Represents(s0, rows, t) && SameOutside(s, s0)
    ensures META_NEXT_ID in s
  {
    RowGet(s0, rows, KNext);
    assert RowAgrees(rows, t, KNext);
    IndexScan(KNext);
    assert Enc(KNext) == META_NEXT_ID;
  }

  /** A store whose id counter is missing is given the counter of a database with only a root. */
  function Repaired(s: Store): Store {
    if NodeKey(ROOT) in s && META_NEXT_ID !in s then s[META_NEXT_ID := EncodeId(ROOT + 1)] else s
  }

  lemma {:induction false} RepairNeeded(s: Store, s0: Store, rows: Rows, t: NsTree)
    requires Represents(s0, rows, t) && SameOutside(Repaired(s), s0)
    ensures NodeKey(ROOT) in s
  {
    hide Represents, SameOutside, NodeKey, EncodeId;
    RootRow(Repaired(s), s0, rows, t);
  }

  /** The rows of the first commit differ from an opened store only in the version. */
  lemma {:induction false} FreshUpgrades(s: Store) returns (rows: Rows)
    requires s == ApplyOps(map[], [Put(NodeKey(ROOT), DIR_NODE), Put(META_NEXT_ID, EncodeId(ROOT + 1)),
                                   Put(TypeKey("directory", ROOT), ToUtf8(AsStr([])))])
    ensures Represents(Opened(), rows, FRESH_TREE) && SameOutside(s, Opened()) && META_VERSION !in s
  {
    rows := OpenedRepresents();
    VersionNotIndexed();
    EncHead(KNode(ROOT));
    EncHead(KType("directory", ROOT));
    FreshPuts(NodeKey(ROOT), DIR_NODE, META_NEXT_ID, EncodeId(ROOT + 1), TypeKey("directory", ROOT),
        ToUtf8(AsStr([])), META_VERSION, Be(1, 8));
  }

  lemma {:induction false} FreshPuts(a: Bytes, x: Bytes, b: Bytes, y: Bytes, c: Bytes, z: Bytes, d: Bytes, w: Bytes)
    requires d != a && d != b && d != c
    ensures var s, s1 := ApplyOps(map[], [Put(a, x), Put(b, y), Put(c, z)]),
                         ApplyOps(map[], [Put(a, x), Put(b, y), Put(c, z), Put(d, w)]);
            d !in s && s1 == s[d := w]
  {
    Apply3(map[], Put(a, x), Put(b, y), Put(c, z));
    Apply4(map[], Put(a, x), Put(b, y), Put(c, z), Put(d, w));
  }

  lemma {:induction false} FreshReadable()
    ensures Readable(FRESH_TREE, FRESH_TREE.live.Keys)
  {
  }

  // ----- the object -----

  class Database {
    const store: MemoryStorage

    constructor (store: MemoryStorage)
      ensures this.store == store
    {
      this.store := store;
    }

    /**
     * An empty store gets its root, a missing counter is restarted; a store without the current index version gets its
     * index rebuilt, and is then the good store whatever the index held.
     */
    static method Open(store: MemoryStorage, ghost s0: Store, ghost rows: Rows, ghost t: NsTree)
      returns (r: Result<Database, NsError>)
      requires store.data == map[] || Upgradable(Repaired(store.data), s0, rows, t)
      modifies store
      ensures old(store.data) == map[] ==> r.Ok? && store.data == Opened()
      ensures old(store.data) != map[] && (Repaired(old(store.data)) == s0 || Readable(t, t.live.Keys)) ==> r.Ok?
      ensures old(store.data) != map[] && r.Ok? ==> store.data == s0
      ensures r.Ok? ==> fresh(r.value) && r.value.store == store
      ensures r.Err? ==> store.data == Repaired(old(store.data))
    {
      hide Represents, SameOutside, Readable, Opened, Versioned, ApplyOps, NodeKey, TypeKey;
      ghost var good, goodRows, tree := s0, rows, t;
      if store.data != map[] {
        RepairNeeded(store.data, s0, rows, t);
      }
      var root := store.Get(NodeKey(ROOT));
      if root.None? {
        store.Commit([Put(NodeKey(ROOT), DIR_NODE), Put(META_NEXT_ID, EncodeId(ROOT + 1)),
                      Put(TypeKey("directory", ROOT), ToUtf8(AsStr([])))]);
        good, tree := Opened(), FRESH_TREE;
        goodRows := FreshUpgrades(store.data);
        FreshReadable();
      } else {
        var next := store.Get(META_NEXT_ID);
        if next.None? {
          Apply1(store.data, Put(META_NEXT_ID, EncodeId(ROOT + 1)));
          store.Commit([Put(META_NEXT_ID, EncodeId(ROOT + 1))]);
        }
      }
      VersionRow(good, goodRows, tree);
      var version := store.Get(META_VERSION);
      if version != Some(Be(1, 8)) {
        var batch := RebuildBatch(store.data, good, goodRows, tree);
        if batch.Err? {
          return Err(batch.error);
        }
        Upgraded(store.data, good, goodRows, tree);
        Apply1(Versioned(good, store.data), Put(META_VERSION, Be(1, 8)));
        store.Commit(batch.value);
        store.Commit([Put(META_VERSION, Be(1, 8))]);
      }
      var db := new Database(store);
      r := Ok(db);
    }

    method RebuildTypeIndex(ghost s0: Store, ghost rows: Rows, ghost t: NsTree) returns (r: Result<(), NsError>)
      requires Represents(s0, rows, t) && SameOutside(store.data, s0)
      modifies store
      ensures r.Ok? <==> Readable(t, t.live.Keys)
      ensures store.data == if r.Ok? then Versioned(s0, old(store.data)) else old(store.data)
    {
      hide Represents, SameOutside, Readable, Versioned, ApplyOps;
      var batch := RebuildBatch(store.data, s0, rows, t);
      if batch.Err? {
        return Err(batch.error);
      }
      store.Commit(batch.value);
      r := Ok(());
    }

    method CommitIf(batch: Result<Batch, NsError>) returns (r: Result<(), NsError>)
      modifies store
      ensures Effect(old(store.data), batch, r, store.data)
    {
      if batch.Err? {
        return Err(batch.error);
      }
      store.Commit(batch.value);
      r := Ok(());
    }

    method MakeDir(p: Path) returns (r: Result<(), NsError>)
      modifies store
      ensures Effect(old(store.data), Mkdir(old(store.data), p), r, store.data)
    {
      hide Mkdir, ApplyOps;
      var batch := MkdirBatch(store.data, p);
      r := CommitIf(batch);
    }

    method Set(p: Path, value: Value) returns (r: Result<(), NsError>)
      modifies store
      ensures Effect(old(store.data), SetValue(old(store.data), p, value), r, store.data)
    {
      hide SetValue, ApplyOps;
      var batch := SetBatchOf(store.data, p, value);
      r := CommitIf(batch);
    }

    method Delete(p: Path) returns (r: Result<(), NsError>)
      modifies store
      ensures Effect(old(store.data), Remove(old(store.data), p), r, store.data)
    {
      hide Remove, ApplyOps;
      var batch := RemoveBatchOf(store.data, p);
      r := CommitIf(batch);
    }

    /** `hash_set`, `list_push`, `set_add` and `tree_set`: read, modify, write back. */
    method Modify(op: Op) returns (r: Result<(), NsError>)
      requires op.HashSet? || op.ListPush? || op.SetAdd? || op.TreeSet?
      modifies store
      ensures Effect(old(store.data), OpBatch(old(store.data), op), r, store.data)
    {
      hide SetValue, ApplyOps, Namespace.Get, Updated;
      var got := GetEntry(store.data, op.path);
      DirectoryFails(got, op);
      var prev: Result<Value, NsError> :=
        match got
        case Err(e) => Err(e)
        case Ok(Directory) => Err(IsDirectory)
        case Ok(ValueEntry(v)) => Ok(v);
      var next := NextStructure(prev, op);
      if next.Err? {
        return Err(next.error);
      }
      r := Set(op.path, next.value);
    }

    /** All of the operations in one commit, or none. */
    method ApplyTxn(ops: seq<Op>) returns (r: Result<(), NsError>)
      modifies store
      ensures match Transact(old(store.data), ops)
              case Ok(s') => r == Ok(()) && store.data == s'
              case Err(e) => r == Err(e) && store.data == old(store.data)
    {
      hide Patched, TxnBatch, ApplyOps;
      if ops == [] {
        return Ok(());
      }
      var ov := new Overlay(store);
      assert ops[0..] == ops;
      for i := 0 to |ops|
        invariant fresh(ov) && ov.store == store && store.data == old(store.data)
        invariant Transact(ov.View(), ops[i..]) == Transact(old(store.data), ops)
      {
        assert ops[i..][1..] == ops[i + 1..];
        var one := ApplyOne(ov, ops[i]);
        if one.Err? {
          return Err(one.error);
        }
      }
      var batch := ov.IntoBatch();
      NoOps(store.data);
      if batch != [] {
        store.Commit(batch);
      }
      r := Ok(());
    }
  }
}
