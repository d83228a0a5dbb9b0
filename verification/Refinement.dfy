/** Byte-level operations refine the operations on trees, errors included. */
module Refinement {
  import opened ByteStrings
  import opened Utf8
  import opened Strings
  import opened Orders
  import opened Values
  import opened Codec
  import opened CodecTheorems
  import opened Storage
  import opened Paths
  import opened Keys
  import opened Namespace
  import opened TreeModel
  import opened Steps

  // ----- batches on rows -----

  lemma {:induction false} Apply1(s: Store, a: BatchOp)
    ensures ApplyOps(s, [a]) == ApplyOp(s, a)
  {
    assert [a][1..] == [];
  }

  lemma {:induction false} Apply2(s: Store, a: BatchOp, b: BatchOp)
    ensures ApplyOps(s, [a, b]) == ApplyOp(ApplyOp(s, a), b)
  {
    Apply1(ApplyOp(s, a), b);
    assert [a, b][1..] == [b];
  }

  lemma {:induction false} Apply3(s: Store, a: BatchOp, b: BatchOp, c: BatchOp)
    ensures ApplyOps(s, [a, b, c]) == ApplyOp(ApplyOp(ApplyOp(s, a), b), c)
  {
    assert [a, b, c][1..] == [b, c];
    Apply2(ApplyOp(s, a), b, c);
  }

  lemma {:induction false} Apply4(s: Store, a: BatchOp, b: BatchOp, c: BatchOp, d: BatchOp)
    ensures ApplyOps(s, [a, b, c, d]) == ApplyOp(ApplyOp(ApplyOp(ApplyOp(s, a), b), c), d)
  {
    assert [a, b, c, d][1..] == [b, c, d];
    Apply3(ApplyOp(s, a), b, c, d);
  }

  lemma {:induction false} FlatPuts(s: Store, rows: Rows, a: Key, x: Bytes, b: Key, y: Bytes)
    requires Flat(s, rows)
    ensures Flat(ApplyOps(s, [Put(Enc(a), x), Put(Enc(b), y)]), rows[a := x][b := y])
  {
    Apply2(s, Put(Enc(a), x), Put(Enc(b), y));
    FlatPut(s, rows, a, x);
    FlatPut(s[Enc(a) := x], rows[a := x], b, y);
  }

  lemma {:induction false} FlatPuts4(s: Store, rows: Rows, a: Key, x: Bytes, b: Key, y: Bytes,
                                     c: Key, z: Bytes, d: Key, w: Bytes)
    requires Flat(s, rows)
    ensures Flat(ApplyOps(s, [Put(Enc(a), x), Put(Enc(b), y), Put(Enc(c), z), Put(Enc(d), w)]),
                 rows[a := x][b := y][c := z][d := w])
  {
    var ab, cd := [Put(Enc(a), x), Put(Enc(b), y)], [Put(Enc(c), z), Put(Enc(d), w)];
    FlatPuts(s, rows, a, x, b, y);
    FlatPuts(ApplyOps(s, ab), rows[a := x][b := y], c, z, d, w);
    ApplyOpsConcat(s, ab, cd);
    assert ab + cd == [Put(Enc(a), x), Put(Enc(b), y), Put(Enc(c), z), Put(Enc(d), w)];
  }

  lemma {:induction false} FlatAdded(s: Store, rows: Rows, t: NsTree, p: Path, n: Node)
    requires Flat(s, rows) && p != [] && Parent(p) in t.live && t.next + 1 < U64
    ensures Flat(ApplyOps(s, [Put(META_NEXT_ID, EncodeId(t.next + 1)),
                              Put(NodeKey(t.next), NodeBytes(n)),
                              Put(ChildKey(t.live[Parent(p)].id, Name(p)), EncodeId(t.next)),
                              Put(TypeKey(TypeOf(n), t.next), ToUtf8(AsStr(p)))]),
                 AddRows(rows, t, p, n))
  {
    hide Flat, ApplyOps;
    FlatPuts4(s, rows, KNext, EncodeId(t.next + 1), KNode(t.next), NodeBytes(n),
              KChild(t.live[Parent(p)].id, Name(p)), EncodeId(t.next),
              KType(TypeOf(n), t.next), ToUtf8(AsStr(p)));
  }

  // ----- the operations -----

  lemma {:induction false} ResolveParentSpec(s: Store, rows: Rows, t: NsTree, p: Path)
    requires Represents(s, rows, t) && p != []
    ensures ResolveParent(s, p) ==
            match ParentAbs(t, p) case Some(e) => Err(e) case None => Ok(t.live[Parent(p)].id)
  {
    ResolveSpec(s, rows, t, Parent(p));
  }

  /** Allocating a node commits exactly the rows of the larger tree. */
  lemma {:induction false} NewNodeRefines(s: Store, rows: Rows, t: NsTree, p: Path, n: Node)
    requires Represents(s, rows, t) && t.next + 1 < U64 && (n.Val? ==> WellFormed(n.v))
    requires p != [] && p !in t.live && ParentAbs(t, p).None? && PathOk(p)
    ensures var r := NewNode(s, t.live[Parent(p)].id, p, NodeBytes(n), TypeOf(n));
            r.Ok? && Represents(ApplyOps(s, r.value), AddRows(rows, t, p, n), AddNode(t, p, n))
  {
    hide Flat, Mirrors, ApplyOps;
    NextRow(s, rows, t);
    FlatAdded(s, rows, t, p, n);
    AddMirrors(rows, t, p, n);
  }

  /** The outcome of a step: the same error, or the rows of the next tree. */
  ghost predicate Agrees(s: Store, r: Result<Batch, NsError>, rows': Rows, abs: Result<NsTree, NsError>) {
    match abs
    case Err(e) => r == Err(e)
    case Ok(t') => r.Ok? && Represents(ApplyOps(s, r.value), rows', t')
  }

  lemma {:induction false} MkdirRefines(s: Store, rows: Rows, t: NsTree, p: Path) returns (rows': Rows)
    requires Represents(s, rows, t) && t.next + 1 < U64 && PathOk(p)
    ensures Agrees(s, Mkdir(s, p), rows', MkdirAbs(t, p))
  {
    hide Flat, Mirrors;
    rows' := rows;
    if p != [] {
      ResolveSpec(s, rows, t, p);
      ResolveParentSpec(s, rows, t, p);
      if p !in t.live && ParentAbs(t, p).None? {
        NewNodeRefines(s, rows, t, p, Dir);
        rows' := AddRows(rows, t, p, Dir);
      }
    }
  }

  /** Optionally one deletion, then two puts. */
  lemma {:induction false} FlatReplace(s: Store, rows: Rows, drop: bool, k: Key, a: Key, x: Bytes, b: Key, y: Bytes)
    requires Flat(s, rows)
    ensures Flat(ApplyOps(s, (if drop then [Delete(Enc(k))] else []) + [Put(Enc(a), x), Put(Enc(b), y)]),
                 (if drop then rows - {k} else rows)[a := x][b := y])
  {
    var puts := [Put(Enc(a), x), Put(Enc(b), y)];
    if drop {
      ApplyOpsConcat(s, [Delete(Enc(k))], puts);
      Apply1(s, Delete(Enc(k)));
      FlatDelete(s, rows, k);
      FlatPuts(s - {Enc(k)}, rows - {k}, a, x, b, y);
    } else {
      assert [] + puts == puts;
      FlatPuts(s, rows, a, x, b, y);
    }
  }

  lemma {:induction false} FlatSet(s: Store, rows: Rows, t: NsTree, p: Path, v: Value)
    requires Flat(s, rows) && p in t.live
    ensures var l := t.live[p];
            Flat(ApplyOps(s, (if TypeOf(l.node) != TypeName(v) then [Delete(TypeKey(TypeOf(l.node), l.id))] else [])
                             + [Put(NodeKey(l.id), ValueNode(Encode(v))),
                                Put(TypeKey(TypeName(v), l.id), ToUtf8(AsStr(p)))]),
                 SetRows(rows, t, p, v))
  {
    hide Flat, ApplyOps;
    var l := t.live[p];
    FlatReplace(s, rows, TypeOf(l.node) != TypeName(v), KType(TypeOf(l.node), l.id),
                KNode(l.id), ValueNode(Encode(v)), KType(TypeName(v), l.id), ToUtf8(AsStr(p)));
  }

  lemma {:induction false} OverwriteRefines(s: Store, rows: Rows, t: NsTree, p: Path, v: Value)
    requires Represents(s, rows, t) && p in t.live && WellFormed(v)
    ensures var r := Overwrite(s, t.live[p].id, p, v);
            match t.live[p].node
            case Dir => r == Err(IsDirectory)
            case Val(u) =>
              match Stored(u)
              case Err(e) => r == Err(e)
              case Ok(_) => r.Ok? && Represents(ApplyOps(s, r.value), SetRows(rows, t, p, v), SetNode(t, p, v))
  {
    hide Flat, Mirrors, ApplyOps;
    NodeRow(s, rows, t, p);
    if t.live[p].node.Val? {
      TypeSurvives(t.live[p].node.v);
      FlatSet(s, rows, t, p, v);
      SetMirrors(rows, t, p, v);
    }
  }

  lemma {:induction false} SetRefines(s: Store, rows: Rows, t: NsTree, p: Path, v: Value) returns (rows': Rows)
    requires Represents(s, rows, t) && t.next + 1 < U64 && PathOk(p) && WellFormed(v)
    ensures Agrees(s, SetValue(s, p, v), rows', SetAbs(t, p, v))
  {
    hide Flat, Mirrors, ApplyOps;
    rows' := rows;
    if p != [] {
      ResolveParentSpec(s, rows, t, p);
      if ParentAbs(t, p).None? {
        assert Parent(p) + [Name(p)] == p;
        ChildRow(s, rows, t, Parent(p), Name(p));
        if p in t.live {
          OverwriteRefines(s, rows, t, p, v);
          rows' := SetRows(rows, t, p, v);
        } else {
          NewNodeRefines(s, rows, t, p, Val(v));
          rows' := AddRows(rows, t, p, Val(v));
        }
      }
    }
  }

  /** The child scan is empty exactly when the tree has nothing below the directory. */
  lemma {:induction false} HasChildrenSpec(s: Store, rows: Rows, t: NsTree, p: Path)
    requires Represents(s, rows, t) && p in t.live
    ensures HasChildren(s, t.live[p].id) <==> HasChildrenAbs(t, p)
  {
    if HasChildren(s, t.live[p].id) {
      ScannedChild(s, rows, t, p);
    }
    if HasChildrenAbs(t, p) {
      var q :| q in t.live && q != [] && Parent(q) == p;
      assert p + [Name(q)] == q;
      ChildRow(s, rows, t, p, Name(q));
      ChildScan(KChild(t.live[p].id, Name(q)), t.live[p].id);
    }
  }

  lemma {:induction false} ScannedChild(s: Store, rows: Rows, t: NsTree, p: Path)
    requires Represents(s, rows, t) && p in t.live && HasChildren(s, t.live[p].id)
    ensures HasChildrenAbs(t, p)
  {
    var b :| b in s && StartsWith(b, ChildPrefix(t.live[p].id));
    var k: Key :| k in rows && Enc(k) == b;
    ChildScan(k, t.live[p].id);
    assert RowAgrees(rows, t, k);
    assert Parent(p + [k.name]) == p;
  }

  lemma {:induction false} FlatDeletes(s: Store, rows: Rows, a: Key, b: Key, c: Key)
    requires Flat(s, rows)
    ensures Flat(ApplyOps(s, [Delete(Enc(a)), Delete(Enc(b)), Delete(Enc(c))]), rows - {a} - {b} - {c})
  {
    Apply3(s, Delete(Enc(a)), Delete(Enc(b)), Delete(Enc(c)));
    FlatDelete(s, rows, a);
    FlatDelete(s - {Enc(a)}, rows - {a}, b);
    FlatDelete(s - {Enc(a)} - {Enc(b)}, rows - {a} - {b}, c);
  }

  lemma {:induction false} FlatRemoved(s: Store, rows: Rows, t: NsTree, p: Path)
    requires Flat(s, rows) && p != [] && p in t.live && Parent(p) in t.live
    ensures var l := t.live[p];
            Flat(ApplyOps(s, [Delete(TypeKey(TypeOf(l.node), l.id)),
                              Delete(ChildKey(t.live[Parent(p)].id, Name(p))),
                              Delete(NodeKey(l.id))]),
                 RemoveRows(rows, t, p))
  {
    hide Flat, ApplyOps;
    var l := t.live[p];
    FlatDeletes(s, rows, KType(TypeOf(l.node), l.id), KChild(t.live[Parent(p)].id, Name(p)), KNode(l.id));
  }

  lemma {:induction false} RecordTypeSpec(n: Node)
    ensures RecordType(RecordOf(n)) ==
            match n case Dir => Ok("directory")
                    case Val(v) => (match Stored(v) case Ok(_) => Ok(TypeOf(n)) case Err(e) => Err(e))
  {
    if n.Val? {
      TypeSurvives(n.v);
    }
  }

  lemma {:induction false} ValuesHaveNoChildren(t: NsTree, p: Path)
    requires WellFormedTree(t) && p in t.live && t.live[p].node.Val?
    ensures !HasChildrenAbs(t, p)
  {
  }

  lemma {:induction false} RemoveBatch(s: Store, p: Path, id: u64, rec: NodeRecord, parent: u64, up: NodeRecord)
    requires p != [] && Resolve(s, p) == Ok((id, rec)) && Resolve(s, Parent(p)) == Ok((parent, up))
    requires !(rec.DirRecord? && HasChildren(s, id))
    ensures Remove(s, p) ==
            match RecordType(rec)
            case Err(e) => Err(e)
            case Ok(ty) => Ok([Delete(TypeKey(ty, id)), Delete(ChildKey(parent, Name(p))), Delete(NodeKey(id))])
  {
    hide Resolve, HasChildren;
  }

  lemma {:induction false} RemoveLive(s: Store, rows: Rows, t: NsTree, p: Path)
    requires Represents(s, rows, t) && p != [] && p in t.live && !HasChildrenAbs(t, p)
    requires t.live[p].node.Dir? || Stored(t.live[p].node.v).Ok?
    ensures Remove(s, p).Ok? && Represents(ApplyOps(s, Remove(s, p).value), RemoveRows(rows, t, p), RemoveNode(t, p))
  {
    hide Flat, Mirrors, ApplyOps, HasChildrenAbs, HasChildren, Resolve, Remove;
    var l, up := t.live[p], t.live[Parent(p)];
    ResolveSpec(s, rows, t, p);
    ResolveSpec(s, rows, t, Parent(p));
    HasChildrenSpec(s, rows, t, p);
    RecordTypeSpec(l.node);
    RemoveBatch(s, p, l.id, RecordOf(l.node), up.id, RecordOf(up.node));
    FlatRemoved(s, rows, t, p);
    RemoveMirrors(rows, t, p);
  }

  lemma {:induction false} RemoveUnreadable(s: Store, rows: Rows, t: NsTree, p: Path)
    requires Represents(s, rows, t) && p != [] && p in t.live && t.live[p].node.Val? && Stored(t.live[p].node.v).Err?
    ensures Remove(s, p) == Err(Stored(t.live[p].node.v).error)
  {
    hide Flat, Mirrors, Resolve, Remove;
    var l, up := t.live[p], t.live[Parent(p)];
    ResolveSpec(s, rows, t, p);
    ResolveSpec(s, rows, t, Parent(p));
    RecordTypeSpec(l.node);
    RemoveBatch(s, p, l.id, RecordOf(l.node), up.id, RecordOf(up.node));
  }

  lemma {:induction false} RemoveRefines(s: Store, rows: Rows, t: NsTree, p: Path) returns (rows': Rows)
    requires Represents(s, rows, t)
    ensures Agrees(s, Remove(s, p), rows', RemoveAbs(t, p))
  {
    hide Flat, Mirrors, ApplyOps, HasChildrenAbs, HasChildren, Stored;
    rows' := rows;
    if p != [] {
      ResolveSpec(s, rows, t, p);
      if p in t.live {
        HasChildrenSpec(s, rows, t, p);
        if t.live[p].node.Val? {
          ValuesHaveNoChildren(t, p);
        }
        if t.live[p].node.Val? && Stored(t.live[p].node.v).Err? {
          RemoveUnreadable(s, rows, t, p);
        } else if !HasChildrenAbs(t, p) {
          RemoveLive(s, rows, t, p);
          rows' := RemoveRows(rows, t, p);
        }
      }
    }
  }

  // ----- structure operations -----

  ghost predicate OpOk(op: Op) {
    PathOk(op.path) && (!op.MkdirOp? && !op.DeleteOp? ==> WellFormed(op.value))
  }

  lemma {:induction false} UpdatedWellFormed(t: NsTree, op: Op)
    requires OpOk(op) && (op.HashSet? || op.ListPush? || op.SetAdd? || op.TreeSet?)
    ensures Updated(GetAbs(t, op.path), op).Ok? ==> WellFormed(Updated(GetAbs(t, op.path), op).value)
  {
    var got := GetAbs(t, op.path);
    if got.Ok? && got.value.ValueEntry? {
      DecodedIsFixedPoint(Encode(t.live[op.path].node.v));
      UpdatedKeepsForm(got.value.value, op);
    }
  }

  lemma {:induction false} UpdatedKeepsForm(prev: Value, op: Op)
    requires OpOk(op) && (op.HashSet? || op.ListPush? || op.SetAdd? || op.TreeSet?) && WellFormed(prev)
    ensures Updated(Ok(ValueEntry(prev)), op).Ok? ==> WellFormed(Updated(Ok(ValueEntry(prev)), op).value)
  {
    if op.HashSet? && prev.Hash? {
      StrOrder();
      InsertedForm(StrLess, prev.fields, op.field, op.value);
    } else if op.TreeSet? && prev.Tree? {
      ScalarOrder();
      InsertedForm(ScalarLess, prev.entries, op.key, op.value);
    }
  }

  lemma {:induction false} InsertedForm<K(!new)>(less: (K, K) -> bool, es: seq<Pair<K>>, k: K, v: Value)
    requires StrictOrder(less) && Sorted(less, es) && WellFormed(v)
    requires forall i | 0 <= i < |es| :: WellFormed(es[i].val)
    ensures var r := Insert(less, es, k, v); Sorted(less, r) && forall i | 0 <= i < |r| :: WellFormed(r[i].val)
  {
    InsertSorted(less, es, k, v);
    var r := Insert(less, es, k, v);
    forall i | 0 <= i < |r|
      ensures WellFormed(r[i].val)
    {
      assert r[i] in r;
    }
  }

  /**
   * Every operation on a store that represents a tree ends as the operation on the tree
   * does: with the same error, or in a store that represents the resulting tree.
   */
  lemma {:induction false} StepRefines(s: Store, rows: Rows, t: NsTree, op: Op) returns (rows': Rows)
    requires Represents(s, rows, t) && t.next + 1 < U64 && OpOk(op)
    ensures Agrees(s, OpBatch(s, op), rows', StepAbs(t, op))
  {
    match op
    case MkdirOp(p) => rows' := MkdirRefines(s, rows, t, p);
    case SetOp(p, v) => rows' := SetRefines(s, rows, t, p, v);
    case DeleteOp(p) => rows' := RemoveRefines(s, rows, t, p);
    case _ =>
      rows' := rows;
      GetSpec(s, rows, t, op.path);
      UpdatedWellFormed(t, op);
      var up := Updated(GetAbs(t, op.path), op);
      if up.Ok? {
        rows' := SetRefines(s, rows, t, op.path, up.value);
      }
  }
}
