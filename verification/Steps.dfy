/** Every mutation keeps the store and the tree in step, with the same errors. */
module Steps {
  import opened ByteStrings
  import opened Utf8
  import opened Values
  import opened Paths
  import opened Keys
  import opened Namespace
  import opened TreeModel

  // ----- the operations on trees -----

  function AddNode(t: NsTree, p: Path, n: Node): NsTree
    requires t.next + 1 < U64
  {
    NsTree(t.live[p := Live(t.next, n)], t.at[t.next := p], t.next + 1)
  }

  function SetNode(t: NsTree, p: Path, v: Value): NsTree
    requires p in t.live
  {
    t.(live := t.live[p := Live(t.live[p].id, Val(v))])
  }

  function RemoveNode(t: NsTree, p: Path): NsTree
    requires p in t.live
  {
    NsTree(t.live - {p}, t.at - {t.live[p].id}, t.next)
  }

  function ParentAbs(t: NsTree, p: Path): Option<NsError>
    requires p != []
  {
    if Parent(p) !in t.live then Some(ParentMissing)
    else if !t.live[Parent(p)].node.Dir? then Some(NotDirectory)
    else None
  }

  function MkdirAbs(t: NsTree, p: Path): Result<NsTree, NsError>
    requires t.next + 1 < U64
  {
    if p == [] then Ok(t)
    else if p in t.live then Err(AlreadyExists)
    else match ParentAbs(t, p)
      case Some(e) => Err(e)
      case None => Ok(AddNode(t, p, Dir))
  }

  function SetAbs(t: NsTree, p: Path, v: Value): Result<NsTree, NsError>
    requires t.next + 1 < U64
  {
    if p == [] then Err(Invalid)
    else match ParentAbs(t, p)
      case Some(e) => Err(e)
      case None =>
        if p !in t.live then Ok(AddNode(t, p, Val(v)))
        else match t.live[p].node
          case Dir => Err(IsDirectory)
          case Val(u) =>
            var _ :- Stored(u);
            Ok(SetNode(t, p, v))
  }

  predicate HasChildrenAbs(t: NsTree, p: Path) {
    exists q | q in t.live :: q != [] && Parent(q) == p
  }

  function RemoveAbs(t: NsTree, p: Path): Result<NsTree, NsError> {
    if p == [] then Err(Invalid)
    else if p !in t.live then Err(NotFound)
    else match t.live[p].node
      case Dir => if HasChildrenAbs(t, p) then Err(Invalid) else Ok(RemoveNode(t, p))
      case Val(u) =>
        var _ :- Stored(u);
        Ok(RemoveNode(t, p))
  }

  function StepAbs(t: NsTree, op: Op): Result<NsTree, NsError>
    requires t.next + 1 < U64
  {
    match op
    case MkdirOp(p) => MkdirAbs(t, p)
    case SetOp(p, v) => SetAbs(t, p, v)
    case DeleteOp(p) => RemoveAbs(t, p)
    case _ =>
      var v :- Updated(GetAbs(t, op.path), op);
      SetAbs(t, op.path, v)
  }

  // ----- the tree side: well-formedness and rows -----

  lemma {:induction false} AddWellFormed(t: NsTree, p: Path, n: Node)
    requires WellFormedTree(t) && t.next + 1 < U64
    requires p != [] && p !in t.live && ParentAbs(t, p).None? && PathOk(p)
    requires n.Val? ==> WellFormed(n.v)
    ensures WellFormedTree(AddNode(t, p, n))
  {
  }

  function AddRows(rows: Rows, t: NsTree, p: Path, n: Node): Rows
    requires p != [] && Parent(p) in t.live && t.next + 1 < U64
  {
    rows[KNext := EncodeId(t.next + 1)]
        [KNode(t.next) := NodeBytes(n)]
        [KChild(t.live[Parent(p)].id, Name(p)) := EncodeId(t.next)]
        [KType(TypeOf(n), t.next) := ToUtf8(AsStr(p))]
  }

  lemma {:induction false} ParentName(p: Path, q: Path, name: string)
    requires p != []
    ensures q + [name] == p <==> q == Parent(p) && name == Name(p)
  {
    assert Parent(p) + [Name(p)] == p;
    if q + [name] == p {
      assert p[..|p| - 1] == q;
    }
  }

  lemma {:induction false} AddMirrors(rows: Rows, t: NsTree, p: Path, n: Node)
    requires WellFormedTree(t) && Mirrors(rows, t) && t.next + 1 < U64
    requires p != [] && p !in t.live && ParentAbs(t, p).None? && PathOk(p)
    requires n.Val? ==> WellFormed(n.v)
    ensures WellFormedTree(AddNode(t, p, n)) && Mirrors(AddRows(rows, t, p, n), AddNode(t, p, n))
  {
    AddWellFormed(t, p, n);
    forall k: Key
      ensures RowAgrees(AddRows(rows, t, p, n), AddNode(t, p, n), k)
    {
      assert RowAgrees(rows, t, k);
      AddRowAgrees(rows, t, p, n, k);
    }
  }

  lemma {:induction false} AddRowAgrees(rows: Rows, t: NsTree, p: Path, n: Node, k: Key)
    requires WellFormedTree(t) && RowAgrees(rows, t, k) && t.next + 1 < U64
    requires p != [] && p !in t.live && ParentAbs(t, p).None?
    requires IdsUnique(AddNode(t, p, n))
    ensures RowAgrees(AddRows(rows, t, p, n), AddNode(t, p, n), k)
  {
    if k.KChild? {
      AddChildAgrees(rows, t, p, n, k.parent, k.name);
    }
  }

  lemma {:induction false} AddChildAgrees(rows: Rows, t: NsTree, p: Path, n: Node, id: u64, name: string)
    requires WellFormedTree(t) && RowAgrees(rows, t, KChild(id, name)) && t.next + 1 < U64
    requires p != [] && p !in t.live && ParentAbs(t, p).None?
    requires IdsUnique(AddNode(t, p, n))
    ensures RowAgrees(AddRows(rows, t, p, n), AddNode(t, p, n), KChild(id, name))
  {
    if id in t.at {
      ParentName(p, t.at[id], name);
    } else if id == t.next {
      assert Parent(p + [name]) == p;
    }
  }

  lemma {:induction false} SetWellFormed(t: NsTree, p: Path, v: Value)
    requires WellFormedTree(t) && p in t.live && t.live[p].node.Val? && WellFormed(v)
    ensures WellFormedTree(SetNode(t, p, v))
  {
  }

  function SetRows(rows: Rows, t: NsTree, p: Path, v: Value): Rows
    requires p in t.live
  {
    var l := t.live[p];
    (if TypeOf(l.node) != TypeName(v) then rows - {KType(TypeOf(l.node), l.id)} else rows)
        [KNode(l.id) := NodeBytes(Val(v))]
        [KType(TypeName(v), l.id) := ToUtf8(AsStr(p))]
  }

  lemma {:induction false} SetMirrors(rows: Rows, t: NsTree, p: Path, v: Value)
    requires WellFormedTree(t) && Mirrors(rows, t)
    requires p in t.live && t.live[p].node.Val? && WellFormed(v)
    ensures WellFormedTree(SetNode(t, p, v)) && Mirrors(SetRows(rows, t, p, v), SetNode(t, p, v))
  {
    SetWellFormed(t, p, v);
    forall k: Key
      ensures RowAgrees(SetRows(rows, t, p, v), SetNode(t, p, v), k)
    {
      assert RowAgrees(rows, t, k);
      SetRowAgrees(rows, t, p, v, k);
    }
  }

  lemma {:induction false} SetRowAgrees(rows: Rows, t: NsTree, p: Path, v: Value, k: Key)
    requires IdsUnique(t) && RowAgrees(rows, t, k) && p in t.live && t.live[p].node.Val?
    requires IdsUnique(SetNode(t, p, v))
    ensures RowAgrees(SetRows(rows, t, p, v), SetNode(t, p, v), k)
  {
    var t' := SetNode(t, p, v);
    assert t'.live.Keys == t.live.Keys;
    if k.KChild? {
      assert HasRow(t', k) <==> HasRow(t, k);
    }
  }

  lemma {:induction false} RemoveWellFormed(t: NsTree, p: Path)
    requires WellFormedTree(t) && p != [] && p in t.live && !HasChildrenAbs(t, p)
    ensures WellFormedTree(RemoveNode(t, p))
  {
  }

  function RemoveRows(rows: Rows, t: NsTree, p: Path): Rows
    requires p != [] && p in t.live && Parent(p) in t.live
  {
    var l := t.live[p];
    rows - {KType(TypeOf(l.node), l.id)} - {KChild(t.live[Parent(p)].id, Name(p))} - {KNode(l.id)}
  }

  lemma {:induction false} RemoveMirrors(rows: Rows, t: NsTree, p: Path)
    requires WellFormedTree(t) && Mirrors(rows, t)
    requires p != [] && p in t.live && !HasChildrenAbs(t, p)
    ensures WellFormedTree(RemoveNode(t, p)) && Mirrors(RemoveRows(rows, t, p), RemoveNode(t, p))
  {
    RemoveWellFormed(t, p);
    forall k: Key
      ensures RowAgrees(RemoveRows(rows, t, p), RemoveNode(t, p), k)
    {
      assert RowAgrees(rows, t, k);
      RemoveRowAgrees(rows, t, p, k);
    }
  }

  lemma {:induction false} RemoveRowAgrees(rows: Rows, t: NsTree, p: Path, k: Key)
    requires WellFormedTree(t) && RowAgrees(rows, t, k)
    requires p != [] && p in t.live && !HasChildrenAbs(t, p)
    requires IdsUnique(RemoveNode(t, p))
    ensures RowAgrees(RemoveRows(rows, t, p), RemoveNode(t, p), k)
  {
    hide HasChildrenAbs, NodesOk;
    if k.KChild? {
      RemoveChildAgrees(rows, t, p, k.parent, k.name);
    }
  }

  lemma {:induction false} NoChild(t: NsTree, p: Path, name: string)
    requires !HasChildrenAbs(t, p)
    ensures p + [name] !in t.live
  {
    assert Parent(p + [name]) == p;
  }

  lemma {:induction false} RemoveChildAgrees(rows: Rows, t: NsTree, p: Path, id: u64, name: string)
    requires WellFormedTree(t) && RowAgrees(rows, t, KChild(id, name))
    requires p != [] && p in t.live && !HasChildrenAbs(t, p)
    requires IdsUnique(RemoveNode(t, p))
    ensures RowAgrees(RemoveRows(rows, t, p), RemoveNode(t, p), KChild(id, name))
  {
    hide NodesOk, HasChildrenAbs, TypeOf, NodeBytes;
    if id in t.at {
      ParentName(p, t.at[id], name);
      NoChild(t, p, name);
      var k, q := KChild(id, name), t.at[id] + [name];
      assert HasRow(t, k) <==> q in t.live;
      assert HasRow(RemoveNode(t, p), k) <==> id != t.live[p].id && q in t.live && q != p;
      assert k == KChild(t.live[Parent(p)].id, Name(p)) <==> q == p;
    }
  }
}
