/** The transaction's operations on the overlay. */
module Txn {
  import opened ByteStrings
  import opened Utf8
  import opened Strings
  import opened Values
  import opened Codec
  import opened CodecLoops
  import opened Storage
  import opened Paths
  import opened Keys
  import opened Namespace
  import opened Refinement
  import opened Runs
  import opened Overlays

  /** An operation either fails and changes nothing, or has the effect of its batch. */
  ghost predicate Effect(before: Store, batch: Result<Batch, NsError>, r: Result<(), NsError>, after: Store) {
    match batch
    case Err(e) => r == Err(e) && after == before
    case Ok(ops) => r == Ok(()) && after == ApplyOps(before, ops)
  }

  method NextIdOv(ov: Overlay) returns (r: Result<u64, NsError>)
    ensures r == NextId(ov.View())
  {
    var raw := ov.Get(META_NEXT_ID);
    if raw.None? {
      return Err(Invalid);
    }
    var id := DecodeId(raw.value);
    r := if id.None? then Err(Invalid) else Ok(id.value);
  }

  method ResolveOv(ov: Overlay, p: Path) returns (r: Result<(u64, NodeRecord), NsError>)
    ensures r == Resolve(ov.View(), p)
  {
    hide Patched, ChildKey, NodeKey, DecodeId;
    ghost var s := ov.View();
    var id := ROOT;
    for i := 0 to |p|
      invariant Descend(s, id, p[i..]) == Descend(s, ROOT, p)
    {
      assert p[i..][1..] == p[i + 1..];
      var raw := ov.Get(ChildKey(id, p[i]));
      if raw.None? {
        return Err(NotFound);
      }
      var next := DecodeId(raw.value);
      if next.None? {
        return Err(Invalid);
      }
      id := next.value;
    }
    assert p[|p|..] == [];
    var node := ov.Get(NodeKey(id));
    if node.None? {
      return Err(NotFound);
    }
    var rec := ParseNode(node.value);
    r := if rec.Err? then Err(rec.error) else Ok((id, rec.value));
  }

  method GetValueOv(ov: Overlay, p: Path) returns (r: Result<Value, NsError>)
    ensures r == match Get(ov.View(), p)
                 case Err(e) => Err(e)
                 case Ok(Directory) => Err(IsDirectory)
                 case Ok(ValueEntry(v)) => Ok(v)
  {
    hide Resolve, Decode, Patched;
    var found := ResolveOv(ov, p);
    if found.Err? {
      return Err(found.error);
    }
    match found.value.1
    case DirRecord => r := Err(IsDirectory);
    case ValueRecord(enc) =>
      var v := DecodeBytes(enc);
      r := if v.Err? then Err(CodecErr(v.error)) else Ok(v.value);
  }

  method ResolveParentOv(ov: Overlay, p: Path) returns (r: Result<u64, NsError>)
    requires p != []
    ensures r == ResolveParent(ov.View(), p)
  {
    hide Resolve, Patched;
    var found := ResolveOv(ov, Parent(p));
    if found.Err? {
      return Err(if found.error.NotFound? then ParentMissing else found.error);
    }
    r := if found.value.1.DirRecord? then Ok(found.value.0) else Err(NotDirectory);
  }

  method NewNodeOv(ov: Overlay, parent: u64, p: Path, node: Bytes, ty: string) returns (r: Result<(), NsError>)
    requires p != []
    modifies ov
    ensures Effect(old(ov.View()), NewNode(old(ov.View()), parent, p, node, ty), r, ov.View())
  {
    hide Patched, NextId, ChildKey, NodeKey, TypeKey, EncodeId, ToUtf8, AsStr, ApplyOps;
    ghost var s := ov.View();
    var next := NextIdOv(ov);
    if next.Err? {
      return Err(next.error);
    }
    var id := next.value;
    ov.Put(META_NEXT_ID, EncodeId(id as int + 1));
    ov.Put(NodeKey(id), node);
    ov.Put(ChildKey(parent, Name(p)), EncodeId(id));
    ov.Put(TypeKey(ty, id), ToUtf8(AsStr(p)));
    Apply4(s, Put(META_NEXT_ID, EncodeId(id as int + 1)), Put(NodeKey(id), node),
           Put(ChildKey(parent, Name(p)), EncodeId(id)), Put(TypeKey(ty, id), ToUtf8(AsStr(p))));
    r := Ok(());
  }

  method MkdirOv(ov: Overlay, p: Path) returns (r: Result<(), NsError>)
    modifies ov
    ensures Effect(old(ov.View()), MkdirTxn(old(ov.View()), p), r, ov.View())
  {
    hide Patched, Resolve, ResolveParent, NewNode;
    if p == [] {
      return Ok(());
    }
    var found := ResolveOv(ov, p);
    if found.Ok? {
      return Err(AlreadyExists);
    }
    var parent := ResolveParentOv(ov, p);
    if parent.Err? {
      return Err(parent.error);
    }
    r := NewNodeOv(ov, parent.value, p, DIR_NODE, "directory");
  }

  method OverwriteOv(ov: Overlay, id: u64, p: Path, value: Value) returns (r: Result<(), NsError>)
    modifies ov
    ensures Effect(old(ov.View()), Overwrite(old(ov.View()), id, p, value), r, ov.View())
  {
    hide Patched, NodeKey, TypeKey, ToUtf8, AsStr, ApplyOps, Encode, Decode, TypeName;
    ghost var s := ov.View();
    var enc := EncodeBytes(value);
    var existing := ov.Get(NodeKey(id));
    if existing.None? {
      return Err(Invalid);
    }
    var rec := ParseNode(existing.value);
    if rec.Err? {
      return Err(rec.error);
    }
    if rec.value.DirRecord? {
      return Err(IsDirectory);
    }
    var prev := DecodeBytes(rec.value.enc);
    if prev.Err? {
      return Err(CodecErr(prev.error));
    }
    var prevType, newType := TypeName(prev.value), TypeName(value);
    if prevType != newType {
      ov.Delete(TypeKey(prevType, id));
    }
    ov.Put(NodeKey(id), ValueNode(enc));
    ov.Put(TypeKey(newType, id), ToUtf8(AsStr(p)));
    ReplaceOps(s, prevType != newType, TypeKey(prevType, id), NodeKey(id), ValueNode(enc), TypeKey(newType, id),
        ToUtf8(AsStr(p)));
    r := Ok(());
  }

  lemma {:induction false} ReplaceOps(s: Store, drop: bool, k: Bytes, a: Bytes, x: Bytes, b: Bytes, y: Bytes)
    ensures ApplyOps(s, (if drop then [Delete(k)] else []) + [Put(a, x), Put(b, y)])
            == (if drop then s - {k} else s)[a := x][b := y]
  {
    var puts := [Put(a, x), Put(b, y)];
    if drop {
      ApplyOpsConcat(s, [Delete(k)], puts);
      Apply1(s, Delete(k));
      Apply2(s - {k}, Put(a, x), Put(b, y));
    } else {
      assert [] + puts == puts;
      Apply2(s, Put(a, x), Put(b, y));
    }
  }

  method SetOv(ov: Overlay, p: Path, value: Value) returns (r: Result<(), NsError>)
    modifies ov
    ensures Effect(old(ov.View()), SetValue(old(ov.View()), p, value), r, ov.View())
  {
    hide Patched, ResolveParent, NewNode, Overwrite, ChildKey, DecodeId, Encode;
    if p == [] {
      return Err(Invalid);
    }
    var parent := ResolveParentOv(ov, p);
    if parent.Err? {
      return Err(parent.error);
    }
    var raw := ov.Get(ChildKey(parent.value, Name(p)));
    if raw.None? {
      var enc := EncodeBytes(value);
      r := NewNodeOv(ov, parent.value, p, ValueNode(enc), TypeName(value));
      return;
    }
    var id := DecodeId(raw.value);
    if id.None? {
      return Err(Invalid);
    }
    r := OverwriteOv(ov, id.value, p, value);
  }

  method DeleteOv(ov: Overlay, p: Path) returns (r: Result<(), NsError>)
    modifies ov
    ensures Effect(old(ov.View()), Remove(old(ov.View()), p), r, ov.View())
  {
    hide Patched, Resolve, NodeKey, ChildKey, ChildPrefix, TypeKey, ApplyOps, Decode, TypeName, Scan, StartsWith;
    ghost var s := ov.View();
    if p == [] {
      return Err(Invalid);
    }
    var found := ResolveOv(ov, p);
    if found.Err? {
      return Err(found.error);
    }
    var (id, rec) := found.value;
    if rec.DirRecord? {
      var children := ov.ScanPrefix(ChildPrefix(id));
      ScanEmpty(s, ChildPrefix(id));
      if children != [] {
        return Err(Invalid);
      }
    }
    var parent := ResolveOv(ov, Parent(p));
    if parent.Err? {
      return Err(parent.error);
    }
    var ty := "directory";
    if rec.ValueRecord? {
      var v := DecodeBytes(rec.enc);
      if v.Err? {
        return Err(CodecErr(v.error));
      }
      ty := TypeName(v.value);
    }
    ov.Delete(TypeKey(ty, id));
    ov.Delete(ChildKey(parent.value.0, Name(p)));
    ov.Delete(NodeKey(id));
    Apply3(s, Delete(TypeKey(ty, id)), Delete(ChildKey(parent.value.0, Name(p))), Delete(NodeKey(id)));
    r := Ok(());
  }

  /** The structure to write back, as the match in `apply_one` computes it. */
  method NextStructure(got: Result<Value, NsError>, op: Op) returns (r: Result<Value, NsError>)
    requires op.HashSet? || op.ListPush? || op.SetAdd? || op.TreeSet?
    ensures r == Updated(match got case Ok(v) => Ok(ValueEntry(v)) case Err(e) => Err(e), op)
  {
    hide Insert, Payload;
    if got.Err? && !got.error.NotFound? {
      return Err(got.error);
    }
    match op
    case HashSet(_, k, v) =>
      var fields := [];
      if got.Ok? {
        if !got.value.Hash? {
          return Err(TypeMismatch);
        }
        fields := got.value.fields;
      }
      InsertEmpty(StrLess, k, v);
      r := Ok(Hash(Insert(StrLess, fields, k, v)));
    case ListPush(_, v) =>
      var items := [];
      if got.Ok? {
        if !got.value.List? {
          return Err(TypeMismatch);
        }
        items := got.value.items;
      }
      assert [] + [v] == [v];
      r := Ok(List(items + [v]));
    case SetAdd(_, v) =>
      var members := [];
      if got.Ok? {
        if !got.value.Set? {
          return Err(TypeMismatch);
        }
        members := got.value.members;
      }
      assert [] + [v] == [v];
      members := AddUnlessPresent(members, v);
      r := Ok(Value.Set(members));
    case TreeSet(_, k, v) =>
      var entries := [];
      if got.Ok? {
        if !got.value.Tree? {
          return Err(TypeMismatch);
        }
        entries := got.value.entries;
      }
      InsertEmpty(ScalarLess, k, v);
      r := Ok(Tree(Insert(ScalarLess, entries, k, v)));
  }

  method AddUnlessPresent(ms: seq<Value>, v: Value) returns (out: seq<Value>)
    ensures out == AddMember(ms, v)
  {
    hide Payload;
    var payload := WriteValue(v, []);
    assert [] + Payload(v) == Payload(v);
    for i := 0 to |ms|
      invariant forall j | 0 <= j < i :: Payload(ms[j]) != Payload(v)
    {
      var one := WriteValue(ms[i], []);
      assert [] + Payload(ms[i]) == Payload(ms[i]);
      if one == payload {
        return ms;
      }
    }
    out := ms + [v];
  }

  method ApplyOne(ov: Overlay, op: Op) returns (r: Result<(), NsError>)
    modifies ov
    ensures Effect(old(ov.View()), TxnBatch(old(ov.View()), op), r, ov.View())
  {
    hide Patched, MkdirTxn, SetValue, Remove, Get, Updated, ApplyOps;
    match op
    case MkdirOp(p) => r := MkdirOv(ov, p);
    case SetOp(p, v) => r := SetOv(ov, p, v);
    case DeleteOp(p) => r := DeleteOv(ov, p);
    case _ =>
      var got := GetValueOv(ov, op.path);
      DirectoryFails(Get(ov.View(), op.path), op);
      var next := NextStructure(got, op);
      if next.Err? {
        return Err(next.error);
      }
      r := SetOv(ov, op.path, next.value);
  }

  /** Reading a directory as a value fails before and after the match alike. */
  lemma {:induction false} DirectoryFails(got: Result<Entry, NsError>, op: Op)
    requires op.HashSet? || op.ListPush? || op.SetAdd? || op.TreeSet?
    ensures got == Ok(Directory) ==> Updated(got, op) == Updated(Err(IsDirectory), op)
  {
  }
}
