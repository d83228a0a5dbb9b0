/** What the structure operations leave behind, in terms of what was readable before. */
module Structures {
  import opened ByteStrings
  import opened Strings
  import opened Values
  import opened Codec
  import opened CodecTheorems
  import opened Storage
  import opened Paths
  import opened Namespace
  import opened TreeModel
  import opened Refinement
  import opened Behaviour
  import opened SetAdds

  // ----- ordered maps by lookup -----

  function CanonOf(v: Option<Value>): Option<Value> {
    match v
    case None => None
    case Some(v) => Some(Canon(v))
  }

  lemma {:induction false} CanonFieldsFind(fs: seq<Pair<string>>, k: string)
    ensures Find(CanonFields(fs), k) == CanonOf(Find(fs, k))
  {
    hide Canon;
    if fs != [] {
      CanonFieldsFind(fs[1..], k);
      assert CanonFields(fs)[1..] == CanonFields(fs[1..]);
    }
  }

  lemma {:induction false} CanonEntriesFind(es: seq<Pair<Scalar>>, k: Scalar)
    ensures Find(CanonEntries(es), k) == CanonOf(Find(es, k))
  {
    hide Canon;
    if es != [] {
      CanonEntriesFind(es[1..], k);
      assert CanonEntries(es)[1..] == CanonEntries(es[1..]);
    }
  }

  lemma {:induction false} CanonAllSnoc(vs: seq<Value>, v: Value)
    ensures CanonAll(vs + [v]) == CanonAll(vs) + [Canon(v)]
  {
    hide Canon;
    if vs == [] {
      assert vs + [v] == [v];
    } else {
      assert (vs + [v])[1..] == vs[1..] + [v];
      CanonAllSnoc(vs[1..], v);
    }
  }

  // ----- the operations -----

  ghost predicate Modified(s: Store, rows: Rows, t: NsTree, op: Op) {
    && Represents(s, rows, t) && t.next + 1 < U64 && OpOk(op)
    && (op.HashSet? || op.ListPush? || op.SetAdd? || op.TreeSet?)
    && Step(s, op).Ok?
  }

  /** What is read at the path before, if anything: canonical, as everything read is. */
  lemma {:induction false} ReadIsCanonical(s: Store, rows: Rows, t: NsTree, p: Path)
    requires Represents(s, rows, t) && Get(s, p).Ok? && Get(s, p).value.ValueEntry?
    ensures Canon(Get(s, p).value.value) == Get(s, p).value.value
  {
    hide Flat, Mirrors, Resolve;
    GetSpec(s, rows, t, p);
    DecodedIsFixedPoint(Encode(t.live[p].node.v));
  }

  /** A structure operation stores what it computed from the value it read, and nothing else changes. */
  lemma {:induction false} ModifyThenGet(s: Store, rows: Rows, t: NsTree, op: Op, q: Path)
    requires Modified(s, rows, t, op)
    ensures var up := Updated(Get(s, op.path), op); var s' := Step(s, op).value;
            && up.Ok?
            && (Get(s', op.path) == Ok(ValueEntry(Canon(up.value))) <==> Fits(Canon(up.value)))
            && (q != op.path ==> Get(s', q) == Get(s, q) && Exists(s', q) == Exists(s, q))
  {
    hide Flat, Mirrors, Get, SetValue, ApplyOps, Updated, WellFormed;
    GetSpec(s, rows, t, op.path);
    UpdatedWellFormed(t, op);
    var up := Updated(Get(s, op.path), op);
    SetThenGet(s, rows, t, op.path, up.value, q);
  }

  function FieldsAt(got: Result<Entry, NsError>): seq<Pair<string>> {
    if got.Ok? && got.value.ValueEntry? && got.value.value.Hash? then got.value.value.fields else []
  }

  /** After `hash_set` the field reads as the canonical value and every other field as before. */
  lemma {:induction false} HashSetThenGet(s: Store, rows: Rows, t: NsTree, p: Path, k: string, v: Value, k': string)
    requires Modified(s, rows, t, HashSet(p, k, v))
    ensures Get(s, p) == Err(NotFound) || (Get(s, p).Ok? && Get(s, p).value.ValueEntry? && Get(s, p).value.value.Hash?)
    ensures var up := CanonFields(Insert(StrLess, FieldsAt(Get(s, p)), k, v));
            && (Get(Step(s, HashSet(p, k, v)).value, p) == Ok(ValueEntry(Hash(up))) <==> Fits(Hash(up)))
            && Find(up, k') == if k' == k then Some(Canon(v)) else Find(FieldsAt(Get(s, p)), k')
  {
    hide Represents, Get, Step, Insert, Fits, OpOk;
    var op := HashSet(p, k, v);
    ModifyThenGet(s, rows, t, op, p);
    var fs := FieldsAt(Get(s, p));
    assert Updated(Get(s, p), op) == Ok(Hash(Insert(StrLess, fs, k, v))) by {
      InsertEmpty(StrLess, k, v);
    }
    CanonFieldsFind(Insert(StrLess, fs, k, v), k');
    InsertFind(StrLess, fs, k, v, k');
    if Get(s, p).Ok? {
      ReadIsCanonical(s, rows, t, p);
    }
    CanonFieldsFind(fs, k');
    CanonFieldsFind([], k');
  }

  function EntriesAt(got: Result<Entry, NsError>): seq<Pair<Scalar>> {
    if got.Ok? && got.value.ValueEntry? && got.value.value.Tree? then got.value.value.entries else []
  }

  /** After `tree_set` the key reads as the canonical value and every other key as before. */
  lemma {:induction false} TreeSetThenGet(s: Store, rows: Rows, t: NsTree, p: Path, k: Scalar, v: Value, k': Scalar)
    requires Modified(s, rows, t, TreeSet(p, k, v))
    ensures Get(s, p) == Err(NotFound) || (Get(s, p).Ok? && Get(s, p).value.ValueEntry? && Get(s, p).value.value.Tree?)
    ensures var up := CanonEntries(Insert(ScalarLess, EntriesAt(Get(s, p)), k, v));
            && (Get(Step(s, TreeSet(p, k, v)).value, p) == Ok(ValueEntry(Tree(up))) <==> Fits(Tree(up)))
            && Find(up, k') == if k' == k then Some(Canon(v)) else Find(EntriesAt(Get(s, p)), k')
  {
    hide Represents, Get, Step, Insert, Fits, OpOk;
    var op := TreeSet(p, k, v);
    ModifyThenGet(s, rows, t, op, p);
    var es := EntriesAt(Get(s, p));
    assert Updated(Get(s, p), op) == Ok(Tree(Insert(ScalarLess, es, k, v))) by {
      InsertEmpty(ScalarLess, k, v);
    }
    CanonEntriesFind(Insert(ScalarLess, es, k, v), k');
    InsertFind(ScalarLess, es, k, v, k');
    if Get(s, p).Ok? {
      ReadIsCanonical(s, rows, t, p);
    }
    CanonEntriesFind(es, k');
    CanonEntriesFind([], k');
  }

  function ItemsAt(got: Result<Entry, NsError>): seq<Value> {
    if got.Ok? && got.value.ValueEntry? && got.value.value.List? then got.value.value.items else []
  }

  /** After `list_push` the list reads as before with the canonical value at its end. */
  lemma {:induction false} ListPushThenGet(s: Store, rows: Rows, t: NsTree, p: Path, v: Value)
    requires Modified(s, rows, t, ListPush(p, v))
    ensures Get(s, p) == Err(NotFound) || (Get(s, p).Ok? && Get(s, p).value.ValueEntry? && Get(s, p).value.value.List?)
    ensures var up := List(ItemsAt(Get(s, p)) + [Canon(v)]);
            Get(Step(s, ListPush(p, v)).value, p) == Ok(ValueEntry(up)) <==> Fits(up)
  {
    hide Represents, Get, Step, Fits, OpOk;
    var op := ListPush(p, v);
    ModifyThenGet(s, rows, t, op, p);
    var xs := ItemsAt(Get(s, p));
    assert [] + [v] == [v];
    assert Updated(Get(s, p), op) == Ok(List(xs + [v]));
    if Get(s, p).Ok? {
      ReadIsCanonical(s, rows, t, p);
    }
    CanonAllSnoc(xs, v);
    assert CanonAll(xs) == xs;
  }

  function MembersAt(got: Result<Entry, NsError>): seq<Value> {
    if got.Ok? && got.value.ValueEntry? && got.value.value.Set? then got.value.value.members else []
  }

  /** After `set_add` the set has the payloads it had and that of the value. */
  lemma {:induction false} SetAddThenGet(s: Store, rows: Rows, t: NsTree, p: Path, v: Value)
    requires Modified(s, rows, t, SetAdd(p, v))
    ensures Get(s, p) == Err(NotFound) || (Get(s, p).Ok? && Get(s, p).value.ValueEntry? && Get(s, p).value.value.Set?)
    ensures var up := Canon(Value.Set(AddMember(MembersAt(Get(s, p)), v)));
            && (Get(Step(s, SetAdd(p, v)).value, p) == Ok(ValueEntry(up)) <==> Fits(up))
            && forall b :: b in Payloads(up.members) <==> b in Payloads(MembersAt(Get(s, p))) || b == Payload(v)
  {
    hide Represents, Get, Step, Fits, OpOk, Payload, Payloads;
    var op := SetAdd(p, v);
    ModifyThenGet(s, rows, t, op, p);
    var ms := MembersAt(Get(s, p));
    assert [] + [v] == [v];
    assert Updated(Get(s, p), op) == Ok(Value.Set(AddMember(ms, v)));
    KeptPayloads(AddMember(ms, v));
    AddMemberPayloads(ms, v);
  }
}
