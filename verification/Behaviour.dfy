/** What callers of the database may rely on, in terms of the store and the tree behind it. */
module Behaviour {
  import opened ByteStrings
  import opened Utf8
  import opened Values
  import opened Codec
  import opened CodecTheorems
  import opened Storage
  import opened Paths
  import opened Keys
  import opened Namespace
  import opened TreeModel
  import opened Steps
  import opened Refinement

  // ----- the shape of the rows -----

  /** Every node but the root is linked from exactly one (parent, name). */
  lemma {:induction false} UniqueLink(s: Store, rows: Rows, t: NsTree, p: u64, n: string, q: u64, m: string)
    requires Represents(s, rows, t)
    requires ChildKey(p, n) in s && ChildKey(q, m) in s && s[ChildKey(p, n)] == s[ChildKey(q, m)]
    ensures p == q && n == m
  {
    LinkedNode(s, rows, t, p, n);
    LinkedNode(s, rows, t, q, m);
    var a, b := t.at[p] + [n], t.at[q] + [m];
    BeInjective(t.live[a].id, t.live[b].id);
    assert a == b;
    assert a[|a| - 1] == n && a[..|a| - 1] == t.at[p];
  }

  lemma {:induction false} LinkedNode(s: Store, rows: Rows, t: NsTree, p: u64, n: string)
    requires Represents(s, rows, t) && ChildKey(p, n) in s
    ensures p in t.at && t.at[p] + [n] in t.live
    ensures s[ChildKey(p, n)] == EncodeId(t.live[t.at[p] + [n]].id)
  {
    var k := KChild(p, n);
    assert Enc(k) == ChildKey(p, n);
    RowGet(s, rows, k);
    assert RowAgrees(rows, t, k);
  }

  /** Every node but the root is linked from a directory with a smaller id, all below the counter. */
  lemma {:induction false} LinkedFromDirectory(s: Store, rows: Rows, t: NsTree, id: u64) returns (p: u64, n: string)
    requires Represents(s, rows, t) && NodeKey(id) in s && id != ROOT
    ensures ChildKey(p, n) in s && s[ChildKey(p, n)] == EncodeId(id)
    ensures NodeAt(s, p) == Ok(DirRecord) && p < id && exists next :: NextId(s) == Ok(next) && id < next
  {
    var k := KNode(id);
    assert Enc(k) == NodeKey(id);
    RowGet(s, rows, k);
    assert RowAgrees(rows, t, k);
    hide Flat, Mirrors, NodeKey, ChildKey;
    var path := t.at[id];
    assert path != [];
    p, n := t.live[Parent(path)].id, Name(path);
    assert Parent(path) + [n] == path;
    LinkRow(s, rows, t, Parent(path), n);
    NodeRow(s, rows, t, Parent(path));
    NextRow(s, rows, t);
  }

  lemma {:induction false} LinkRow(s: Store, rows: Rows, t: NsTree, p: Path, n: string)
    requires Represents(s, rows, t) && p in t.live && p + [n] in t.live
    ensures ChildKey(t.live[p].id, n) in s && s[ChildKey(t.live[p].id, n)] == EncodeId(t.live[p + [n]].id)
  {
    var k := KChild(t.live[p].id, n);
    assert Enc(k) == ChildKey(t.live[p].id, n);
    RowGet(s, rows, k);
    assert RowAgrees(rows, t, k);
  }

  /** The index has a row for a key exactly when the tree has a node of that type and id. */
  lemma {:induction false} IndexExact(s: Store, rows: Rows, t: NsTree, ty: string, id: u64)
    requires Represents(s, rows, t)
    ensures TypeKey(ty, id) in s <==> id in t.at && TypeOf(t.live[t.at[id]].node) == ty
    ensures TypeKey(ty, id) in s ==> s[TypeKey(ty, id)] == ToUtf8(AsStr(t.at[id]))
  {
    var k := KType(ty, id);
    assert Enc(k) == TypeKey(ty, id);
    RowGet(s, rows, k);
    assert RowAgrees(rows, t, k);
  }

  // ----- what set, delete and mkdir change -----

  lemma {:induction false} GetUnchanged(s: Store, rows: Rows, t: NsTree, s': Store, rows': Rows, t': NsTree, q: Path)
    requires Represents(s, rows, t) && Represents(s', rows', t')
    requires (q in t.live <==> q in t'.live) && (q in t.live ==> t.live[q].node == t'.live[q].node)
    ensures Get(s', q) == Get(s, q) && Exists(s', q) == Exists(s, q)
  {
    hide Flat, Mirrors, Resolve, Get;
    GetSpec(s, rows, t, q);
    GetSpec(s', rows', t', q);
    ResolveSpec(s, rows, t, q);
    ResolveSpec(s', rows', t', q);
  }

  /**
   * After a successful `set(p, v)`, reading `p` gives the canonical form of `v` if and only
   * if its lengths fit 32 bits, and every other path reads as before.
   */
  lemma {:induction false} SetThenGet(s: Store, rows: Rows, t: NsTree, p: Path, v: Value, q: Path)
    requires Represents(s, rows, t) && t.next + 1 < U64 && PathOk(p) && WellFormed(v)
    requires Step(s, SetOp(p, v)).Ok?
    ensures var s' := Step(s, SetOp(p, v)).value;
            && (Get(s', p) == Ok(ValueEntry(Canon(v))) <==> Fits(Canon(v)))
            && (q != p ==> Get(s', q) == Get(s, q) && Exists(s', q) == Exists(s, q))
  {
    hide Flat, Mirrors, Resolve, Get, ApplyOps, SetValue, WellFormed;
    var rows' := StepRefines(s, rows, t, SetOp(p, v));
    var s', t' := Step(s, SetOp(p, v)).value, StepAbs(t, SetOp(p, v)).value;
    SetAbsFrame(t, p, v, q);
    GetStored(s', rows', t', p, v);
    if q != p {
      GetUnchanged(s, rows, t, s', rows', t', q);
    }
  }

  lemma {:induction false} SetAbsFrame(t: NsTree, p: Path, v: Value, q: Path)
    requires t.next + 1 < U64 && SetAbs(t, p, v).Ok?
    ensures var t' := SetAbs(t, p, v).value;
            && p in t'.live && t'.live[p].node == Val(v)
            && (q != p ==> (q in t.live <==> q in t'.live) && (q in t.live ==> t.live[q] == t'.live[q]))
  {
  }

  lemma {:induction false} GetStored(s: Store, rows: Rows, t: NsTree, p: Path, v: Value)
    requires Represents(s, rows, t) && p in t.live && t.live[p].node == Val(v) && WellFormed(v)
    ensures Get(s, p) == Ok(ValueEntry(Canon(v))) <==> Fits(Canon(v))
  {
    GetSpec(s, rows, t, p);
    RoundTripIff(v);
  }

  /** After a successful `delete(p)`, `p` is gone and every other path reads as before. */
  lemma {:induction false} DeleteThenGet(s: Store, rows: Rows, t: NsTree, p: Path, q: Path)
    requires Represents(s, rows, t) && t.next + 1 < U64 && PathOk(p)
    requires Step(s, DeleteOp(p)).Ok?
    ensures var s' := Step(s, DeleteOp(p)).value;
            && Get(s', p) == Err(NotFound) && Exists(s', p) == Ok(false)
            && (q != p ==> Get(s', q) == Get(s, q) && Exists(s', q) == Exists(s, q))
  {
    hide Flat, Mirrors, Resolve, Get, ApplyOps, Remove, HasChildrenAbs;
    var rows' := StepRefines(s, rows, t, DeleteOp(p));
    var s', t' := Step(s, DeleteOp(p)).value, StepAbs(t, DeleteOp(p)).value;
    ResolveSpec(s', rows', t', p);
    GetSpec(s', rows', t', p);
    if q != p {
      GetUnchanged(s, rows, t, s', rows', t', q);
    }
  }

  /** After a successful `mkdir(p)` of a new path, `p` is a directory and nothing else changed. */
  lemma {:induction false} MkdirThenGet(s: Store, rows: Rows, t: NsTree, p: Path, q: Path)
    requires Represents(s, rows, t) && t.next + 1 < U64 && PathOk(p)
    requires Step(s, MkdirOp(p)).Ok?
    ensures var s' := Step(s, MkdirOp(p)).value;
            && Get(s', p) == Ok(Directory)
            && (q != p ==> Get(s', q) == Get(s, q) && Exists(s', q) == Exists(s, q))
  {
    hide Flat, Mirrors, Resolve, Get, ApplyOps, Mkdir;
    var rows' := StepRefines(s, rows, t, MkdirOp(p));
    var s', t' := Step(s, MkdirOp(p)).value, StepAbs(t, MkdirOp(p)).value;
    GetSpec(s', rows', t', p);
    if q != p {
      GetUnchanged(s, rows, t, s', rows', t', q);
    }
  }
}
