/** Every run of the database: the invariant, what each operation changes, transactions. */
module Runs {
  import opened ByteStrings
  import opened Utf8
  import opened Storage
  import opened Paths
  import opened Keys
  import opened Namespace
  import opened TreeModel
  import opened Steps
  import opened Refinement

  // ----- transactions -----

  /** Inside a transaction `mkdir` goes ahead unless the path resolves. */
  function MkdirTxn(s: Store, p: Path): Result<Batch, NsError> {
    if p == [] then Ok([])
    else if Resolve(s, p).Ok? then Err(AlreadyExists)
    else
      var parent :- ResolveParent(s, p);
      NewNode(s, parent, p, DIR_NODE, "directory")
  }

  function TxnBatch(s: Store, op: Op): Result<Batch, NsError> {
    match op
    case MkdirOp(p) => MkdirTxn(s, p)
    case _ => OpBatch(s, op)
  }

  /** All operations on one overlay, or the first error. */
  function Transact(s: Store, ops: seq<Op>): Result<Store, NsError>
    decreases ops
  {
    if ops == [] then Ok(s) else
    var batch :- TxnBatch(s, ops[0]);
    Transact(ApplyOps(s, batch), ops[1..])
  }

  /** The same operations one commit at a time. */
  function RunDirect(s: Store, ops: seq<Op>): Result<Store, NsError>
    decreases ops
  {
    if ops == [] then Ok(s) else
    var s' :- Step(s, ops[0]);
    RunDirect(s', ops[1..])
  }

  /** On any store: whatever the direct operations manage, the transaction does in one commit. */
  lemma {:induction false} TransactCovers(s: Store, ops: seq<Op>)
    requires RunDirect(s, ops).Ok?
    ensures Transact(s, ops) == RunDirect(s, ops)
    decreases ops
  {
    if ops != [] {
      var s' := Step(s, ops[0]).value;
      TransactCovers(s', ops[1..]);
    }
  }

  // ----- actions and runs -----

  datatype Action = Direct(op: Op) | Transaction(ops: seq<Op>)

  /** Failed actions leave the store as it was. */
  function Perform(s: Store, a: Action): Store {
    match a
    case Direct(op) => (match Step(s, op) case Ok(s') => s' case Err(_) => s)
    case Transaction(ops) => (match Transact(s, ops) case Ok(s') => s' case Err(_) => s)
  }

  function Run(s: Store, actions: seq<Action>): Store
    decreases actions
  {
    if actions == [] then s else Run(Perform(s, actions[0]), actions[1..])
  }

  ghost predicate ActionOk(a: Action) {
    match a
    case Direct(op) => OpOk(op)
    case Transaction(ops) => forall op | op in ops :: OpOk(op)
  }

  function Cost(actions: seq<Action>): nat {
    if actions == [] then 0
    else (match actions[0] case Direct(_) => 1 case Transaction(ops) => |ops|) + Cost(actions[1..])
  }

  /** What `open` leaves in a fresh store. */
  const FRESH_TREE: NsTree := NsTree(map[[] := Live(ROOT, Dir)], map[ROOT := []], 2)

  function FreshStore(root: u64, dir: string): Store {
    ApplyOps(map[], [Put(NodeKey(root), DIR_NODE),
                     Put(META_NEXT_ID, EncodeId(root + 1)),
                     Put(TypeKey(dir, root), ToUtf8(AsStr([]))),
                     Put(META_VERSION, Be(1, 8))])
  }

  function Opened(): Store {
    FreshStore(ROOT, "directory")
  }

  function FreshRows(root: u64, dir: string): Rows {
    var empty: Rows := map[];
    empty[KNode(root) := DIR_NODE][KNext := EncodeId(root + 1)]
         [KType(dir, root) := ToUtf8(AsStr([]))][KVersion := Be(1, 8)]
  }

  lemma {:induction false} FreshFlat(root: u64, dir: string)
    ensures Flat(FreshStore(root, dir), FreshRows(root, dir))
  {
    var s0: Store, empty: Rows := map[], map[];
    assert Flat(s0, empty);
    FlatPuts4(s0, empty, KNode(root), DIR_NODE, KNext, EncodeId(root + 1),
              KType(dir, root), ToUtf8(AsStr([])), KVersion, Be(1, 8));
  }

  lemma {:induction false} FreshMirrors(root: u64, dir: string)
    requires root == ROOT && dir == "directory"
    ensures WellFormedTree(FRESH_TREE) && Mirrors(FreshRows(root, dir), FRESH_TREE)
  {
    forall k: Key
      ensures RowAgrees(FreshRows(root, dir), FRESH_TREE, k)
    {
      if k.KChild? && k.parent == ROOT {
        assert [] + [k.name] != [];
      }
    }
  }

  lemma {:induction false} OpenedRepresents() returns (rows: Rows)
    ensures Represents(Opened(), rows, FRESH_TREE)
  {
    var root, dir := ROOT, "directory";
    rows := FreshRows(root, dir);
    FreshMirrors(root, dir);
    FreshFlat(root, dir);
  }

  lemma {:induction false} NextGrows(t: NsTree, op: Op)
    requires t.next + 1 < U64 && StepAbs(t, op).Ok?
    ensures StepAbs(t, op).value.next <= t.next + 1
  {
  }

  lemma {:induction false} TxnStepRefines(s: Store, rows: Rows, t: NsTree, op: Op) returns (rows': Rows)
    requires Represents(s, rows, t) && t.next + 1 < U64 && OpOk(op)
    ensures TxnBatch(s, op) == OpBatch(s, op)
    ensures Agrees(s, TxnBatch(s, op), rows', StepAbs(t, op))
  {
    if op.MkdirOp? {
      ResolveSpec(s, rows, t, op.path);
    }
    rows' := StepRefines(s, rows, t, op);
  }

  /** On stores that represent a tree, a transaction and the direct operations agree entirely. */
  lemma {:induction false} TransactRefines(s: Store, rows: Rows, t: NsTree, ops: seq<Op>)
    returns (rows': Rows, t': NsTree)
    requires Represents(s, rows, t) && t.next + |ops| < U64 && forall op | op in ops :: OpOk(op)
    ensures Transact(s, ops) == RunDirect(s, ops)
    ensures Transact(s, ops).Ok? ==>
              Represents(Transact(s, ops).value, rows', t') && t'.next <= t.next + |ops|
    decreases ops
  {
    rows', t' := rows, t;
    if ops != [] {
      rows' := TxnStepRefines(s, rows, t, ops[0]);
      var abs := StepAbs(t, ops[0]);
      if abs.Ok? {
        NextGrows(t, ops[0]);
        var s' := ApplyOps(s, OpBatch(s, ops[0]).value);
        rows', t' := TransactRefines(s', rows', abs.value, ops[1..]);
      }
    }
  }

  lemma {:induction false} PerformRefines(s: Store, rows: Rows, t: NsTree, a: Action)
    returns (rows': Rows, t': NsTree)
    requires Represents(s, rows, t) && ActionOk(a) && t.next + Cost([a]) < U64
    ensures Represents(Perform(s, a), rows', t') && t'.next <= t.next + Cost([a])
  {
    assert [a][1..] == [];
    rows', t' := rows, t;
    match a
    case Direct(op) =>
      var r := StepRefines(s, rows, t, op);
      if StepAbs(t, op).Ok? {
        NextGrows(t, op);
        rows', t' := r, StepAbs(t, op).value;
      }
    case Transaction(ops) =>
      var r, u := TransactRefines(s, rows, t, ops);
      if Transact(s, ops).Ok? {
        rows', t' := r, u;
      }
  }

  /**
   * Any run from a store that represents a tree ends in one that does. Ids are handed out
   * one per operation at most, so a run shorter than 2^64 never wraps the counter.
   */
  lemma {:induction false} RunRefines(s: Store, rows: Rows, t: NsTree, actions: seq<Action>)
    returns (rows': Rows, t': NsTree)
    requires Represents(s, rows, t) && t.next + Cost(actions) < U64 && forall a | a in actions :: ActionOk(a)
    ensures Represents(Run(s, actions), rows', t')
    decreases actions
  {
    rows', t' := rows, t;
    if actions != [] {
      var a := actions[0];
      assert Cost([a]) + Cost(actions[1..]) == Cost(actions) by { assert [a][1..] == []; }
      rows', t' := PerformRefines(s, rows, t, a);
      rows', t' := RunRefines(Perform(s, a), rows', t', actions[1..]);
    }
  }

  /** The invariant of every database opened fresh and used in any way. */
  lemma {:induction false} ReachableRepresents(actions: seq<Action>) returns (rows: Rows, t: NsTree)
    requires Cost(actions) < U64 - 2 && forall a | a in actions :: ActionOk(a)
    ensures Represents(Run(Opened(), actions), rows, t)
  {
    rows := OpenedRepresents();
    rows, t := RunRefines(Opened(), rows, FRESH_TREE, actions);
  }
}
