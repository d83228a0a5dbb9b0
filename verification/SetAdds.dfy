/** Adding members one by one: order and repeats leave no trace in the stored bytes. */
module SetAdds {
  import opened ByteStrings
  import opened Utf8
  import opened Orders
  import opened Values
  import opened Codec
  import opened CodecProofs
  import opened CodecTheorems
  import opened Storage
  import opened Paths
  import opened Keys
  import opened Namespace
  import opened TreeModel
  import opened Steps
  import opened Refinement
  import opened Runs
  import opened Behaviour

  function Adds(p: Path, vs: seq<Value>): seq<Op> {
    if vs == [] then [] else [SetAdd(p, vs[0])] + Adds(p, vs[1..])
  }

  ghost predicate Storable(vs: seq<Value>) {
    forall v | v in vs :: WellFormed(v) && Fits(Canon(v))
  }

  // ----- members and payloads -----

  /** The members a stored set comes back with. */
  function Kept(ms: seq<Value>): seq<Value> {
    SortMembers(CanonAll(ms))
  }

  lemma {:induction false} KeptStorable(ms: seq<Value>)
    requires Storable(ms)
    ensures Storable(Kept(ms))
    ensures |Kept(ms)| < U32 ==> Fits(Canon(Value.Set(ms)))
    ensures WellFormed(Value.Set(ms))
  {
    SortMembersElements(CanonAll(ms));
    forall x | x in CanonAll(ms)
      ensures WellFormed(x) && Fits(x) && Canon(x) == x
    {
      var i :| 0 <= i < |ms| && CanonAll(ms)[i] == x;
      CanonAllAt(ms, i);
      assert ms[i] in ms;
      CanonIsCanonical(ms[i]);
      CanonicalIsFixed(x);
    }
    assert forall i | 0 <= i < |ms| :: ms[i] in ms;
    assert forall i | 0 <= i < |Kept(ms)| :: Kept(ms)[i] in Kept(ms);
  }

  lemma {:induction false} KeptPayloads(ms: seq<Value>)
    ensures forall b :: b in Payloads(Kept(ms)) <==> b in Payloads(ms)
  {
    SortMembersPayloads(CanonAll(ms));
    CanonPayloadAll(ms);
    SortDedupSpec(Payloads(ms));
  }

  /** An ascending sequence within another is no longer. */
  lemma {:induction false} AscendingCount(s: seq<Bytes>, t: seq<Bytes>)
    requires Ascending(Less, s) && Ascending(Less, t) && forall b | b in s :: b in t
    ensures |s| <= |t|
  {
    hide Less;
    if s != [] {
      assert s[0] in t;
      var i :| 0 <= i < |t| && t[i] == s[0];
      forall b | b in s[1..]
        ensures b in t[i + 1..]
      {
        LaterIn(s, t, i, b);
      }
      AscendingCount(s[1..], t[i + 1..]);
    }
  }

  lemma {:induction false} LaterIn(s: seq<Bytes>, t: seq<Bytes>, i: nat, b: Bytes)
    requires Ascending(Less, s) && Ascending(Less, t) && s != [] && i < |t| && t[i] == s[0] && b in s[1..] && b in t
    ensures b in t[i + 1..]
  {
    var k :| 0 <= k < |s[1..]| && s[1..][k] == b;
    var j :| 0 <= j < |t| && t[j] == b;
    assert Less(s[0], s[k + 1]);
    LessAsymmetric(s[0], b);
    assert forall l | 0 <= l < i :: Less(t[l], t[i]);
    assert j > i;
    assert t[i + 1..][j - i - 1] == b;
  }

  /** A stored set has no more members than there are payloads to choose from. */
  lemma {:induction false} KeptCount(ms: seq<Value>, all: seq<Bytes>)
    requires Ascending(Less, all) && forall b | b in Payloads(ms) :: b in all
    ensures |Kept(ms)| <= |all|
  {
    hide Less, Payload;
    SortMembersPayloads(CanonAll(ms));
    CanonPayloadAll(ms);
    SortDedupSpec(Payloads(ms));
    AscendingCount(Payloads(Kept(ms)), all);
  }

  lemma {:induction false} PayloadsContain(ms: seq<Value>, b: Bytes)
    ensures b in Payloads(ms) <==> exists i | 0 <= i < |ms| :: Payload(ms[i]) == b
  {
    forall i | 0 <= i < |ms|
      ensures Payloads(ms)[i] == Payload(ms[i])
    {
      PayloadsAt(ms, i);
    }
    if b in Payloads(ms) {
      var i :| 0 <= i < |ms| && Payloads(ms)[i] == b;
      assert Payload(ms[i]) == b;
    }
  }

  lemma {:induction false} AddMemberPayloads(ms: seq<Value>, v: Value)
    ensures forall b :: b in Payloads(AddMember(ms, v)) <==> b in Payloads(ms) || b == Payload(v)
  {
    PayloadsContain(ms, Payload(v));
    PayloadsSnoc(ms, v);
  }

  // ----- the store after a first add -----

  /** The rows committed for a new set at `p`. */
  function SetBatch(t: NsTree, p: Path, ms: seq<Value>): Batch
    requires p != [] && Parent(p) in t.live
  {
    [Put(META_NEXT_ID, EncodeId(t.next + 1)),
     Put(NodeKey(t.next), ValueNode(Encode(Value.Set(ms)))),
     Put(ChildKey(t.live[Parent(p)].id, Name(p)), EncodeId(t.next)),
     Put(TypeKey("set", t.next), ToUtf8(AsStr(p)))]
  }

  ghost predicate Addable(s: Store, rows: Rows, t: NsTree, p: Path) {
    && Represents(s, rows, t) && t.next + 2 < U64
    && p != [] && PathOk(p) && p !in t.live && ParentAbs(t, p).None?
  }

  lemma {:induction false} SetBatchRepresents(s: Store, rows: Rows, t: NsTree, p: Path, ms: seq<Value>)
    requires Addable(s, rows, t, p) && WellFormed(Value.Set(ms))
    ensures NewNode(s, t.live[Parent(p)].id, p, ValueNode(Encode(Value.Set(ms))), "set") == Ok(SetBatch(t, p, ms))
    ensures var n := Val(Value.Set(ms));
            Represents(ApplyOps(s, SetBatch(t, p, ms)), AddRows(rows, t, p, n), AddNode(t, p, n))
  {
    NextRow(s, rows, t);
    NewNodeRefines(s, rows, t, p, Val(Value.Set(ms)));
  }

  lemma {:induction false} SetAbsent(s: Store, rows: Rows, t: NsTree, p: Path, ms: seq<Value>)
    requires Addable(s, rows, t, p) && WellFormed(Value.Set(ms))
    ensures SetValue(s, p, Value.Set(ms)) == Ok(SetBatch(t, p, ms))
  {
    hide Flat, Mirrors, ApplyOps, Payload, NewNode, ResolveParent, WellFormed;
    ResolveParentSpec(s, rows, t, p);
    assert Parent(p) + [Name(p)] == p;
    ChildRow(s, rows, t, Parent(p), Name(p));
    SetBatchRepresents(s, rows, t, p, ms);
  }

  lemma {:induction false} AddIsSet(s: Store, p: Path, v: Value, ms: seq<Value>, batch: Batch)
    requires Updated(Get(s, p), SetAdd(p, v)) == Ok(Value.Set(ms)) && SetValue(s, p, Value.Set(ms)) == Ok(batch)
    ensures Step(s, SetAdd(p, v)) == Ok(ApplyOps(s, batch))
  {
    hide Updated, Get, SetValue, ApplyOps;
  }

  lemma {:induction false} FirstAdd(s: Store, rows: Rows, t: NsTree, p: Path, v: Value)
    requires Addable(s, rows, t, p) && WellFormed(v)
    ensures Step(s, SetAdd(p, v)) == Ok(ApplyOps(s, SetBatch(t, p, [v])))
  {
    hide Flat, Mirrors, ApplyOps, Payload, SetValue, Step, SetBatch, Canon, IdsUnique, NodesOk, ParentsLive;
    GetSpec(s, rows, t, p);
    assert WellFormed(Value.Set([v]));
    SetAbsent(s, rows, t, p, [v]);
    AddIsSet(s, p, v, [v], SetBatch(t, p, [v]));
  }

  lemma {:induction false} Overwrites(s: Store, a: Bytes, x: Bytes, b: Bytes, y: Bytes, y': Bytes,
                                      c: Bytes, z: Bytes, d: Bytes, w: Bytes)
    requires a != b && b != c && b != d
    ensures ApplyOps(ApplyOps(s, [Put(a, x), Put(b, y), Put(c, z), Put(d, w)]), [Put(b, y'), Put(d, w)])
            == ApplyOps(s, [Put(a, x), Put(b, y'), Put(c, z), Put(d, w)])
  {
    Apply4(s, Put(a, x), Put(b, y), Put(c, z), Put(d, w));
    Apply4(s, Put(a, x), Put(b, y'), Put(c, z), Put(d, w));
    Apply2(ApplyOps(s, [Put(a, x), Put(b, y), Put(c, z), Put(d, w)]), Put(b, y'), Put(d, w));
  }

  lemma {:induction false} KeysDiffer(t: NsTree, p: Path)
    requires p != [] && Parent(p) in t.live
    ensures META_NEXT_ID != NodeKey(t.next)
    ensures NodeKey(t.next) != ChildKey(t.live[Parent(p)].id, Name(p))
    ensures NodeKey(t.next) != TypeKey("set", t.next)
  {
    EncHead(KNext);
    EncHead(KNode(t.next));
    EncHead(KChild(t.live[Parent(p)].id, Name(p)));
    EncHead(KType("set", t.next));
  }

  /** Overwriting a set with a set rewrites only its node row. */
  lemma {:induction false} SetOverSet(s: Store, rows: Rows, t: NsTree, p: Path, ms: seq<Value>, ms': seq<Value>)
    requires Addable(s, rows, t, p) && WellFormed(Value.Set(ms)) && Fits(Canon(Value.Set(ms)))
    ensures var s1 := ApplyOps(s, SetBatch(t, p, ms));
            && SetValue(s1, p, Value.Set(ms')).Ok?
            && ApplyOps(s1, SetValue(s1, p, Value.Set(ms')).value) == ApplyOps(s, SetBatch(t, p, ms'))
  {
    hide Flat, Mirrors, ApplyOps, WellFormed, Fits, Canon, Payload, Resolve, Overwrite, Encode, Decode,
         IdsUnique, NodesOk, EncodeId, ToUtf8, AsStr, ChildKey, NodeKey, TypeKey;
    var s1 := ApplyOps(s, SetBatch(t, p, ms));
    var n := Val(Value.Set(ms));
    var rows1, t1 := AddRows(rows, t, p, n), AddNode(t, p, n);
    SetBatchRepresents(s, rows, t, p, ms);
    ResolveParentSpec(s1, rows1, t1, p);
    assert Parent(p) + [Name(p)] == p;
    ChildRow(s1, rows1, t1, Parent(p), Name(p));
    NodeRow(s1, rows1, t1, p);
    RoundTripIff(Value.Set(ms));
    OverwriteSet(s1, t.next, p, ms, ms');
    KeysDiffer(t, p);
    Overwrites(s, META_NEXT_ID, EncodeId(t.next + 1),
               NodeKey(t.next), ValueNode(Encode(Value.Set(ms))), ValueNode(Encode(Value.Set(ms'))),
               ChildKey(t.live[Parent(p)].id, Name(p)), EncodeId(t.next),
               TypeKey("set", t.next), ToUtf8(AsStr(p)));
  }

  lemma {:induction false} OverwriteSet(s: Store, id: u64, p: Path, ms: seq<Value>, ms': seq<Value>)
    requires NodeKey(id) in s && ParseNode(s[NodeKey(id)]) == Ok(ValueRecord(Encode(Value.Set(ms))))
    requires Decode(Encode(Value.Set(ms))).Ok?
    ensures Overwrite(s, id, p, Value.Set(ms')) ==
            Ok([Put(NodeKey(id), ValueNode(Encode(Value.Set(ms')))), Put(TypeKey("set", id), ToUtf8(AsStr(p)))])
  {
    TypeSurvives(Value.Set(ms));
    var puts := [Put(NodeKey(id), ValueNode(Encode(Value.Set(ms')))), Put(TypeKey("set", id), ToUtf8(AsStr(p)))];
    assert [] + puts == puts;
  }

  lemma {:induction false} GetAdded(s: Store, rows: Rows, t: NsTree, p: Path, ms: seq<Value>)
    requires Addable(s, rows, t, p) && WellFormed(Value.Set(ms)) && Fits(Canon(Value.Set(ms)))
    ensures Get(ApplyOps(s, SetBatch(t, p, ms)), p) == Ok(ValueEntry(Value.Set(Kept(ms))))
  {
    var n := Val(Value.Set(ms));
    SetBatchRepresents(s, rows, t, p, ms);
    GetStored(ApplyOps(s, SetBatch(t, p, ms)), AddRows(rows, t, p, n), AddNode(t, p, n), p, Value.Set(ms));
  }

  lemma {:induction false} NextAdd(s: Store, rows: Rows, t: NsTree, p: Path, ms: seq<Value>, v: Value)
    requires Addable(s, rows, t, p) && WellFormed(Value.Set(ms)) && Fits(Canon(Value.Set(ms)))
    ensures Step(ApplyOps(s, SetBatch(t, p, ms)), SetAdd(p, v))
            == Ok(ApplyOps(s, SetBatch(t, p, AddMember(Kept(ms), v))))
  {
    hide Flat, Mirrors, ApplyOps, WellFormed, Fits, Canon, Payload, SetValue, Get, Step, AddMember;
    var s1, ms' := ApplyOps(s, SetBatch(t, p, ms)), AddMember(Kept(ms), v);
    GetAdded(s, rows, t, p, ms);
    SetOverSet(s, rows, t, p, ms, ms');
    AddIsSet(s1, p, v, ms', SetValue(s1, p, Value.Set(ms')).value);
  }

  /** However many adds follow, the store holds one set with exactly all the payloads. */
  lemma {:induction false} MoreAdds(
    s: Store, rows: Rows, t: NsTree, p: Path, ms: seq<Value>, vs: seq<Value>, all: seq<Bytes>)
    returns (ms': seq<Value>)
    requires Addable(s, rows, t, p) && Storable(ms) && Storable(vs)
    requires Ascending(Less, all) && |all| < U32
    requires forall b | b in Payloads(ms) || b in Payloads(vs) :: b in all
    ensures RunDirect(ApplyOps(s, SetBatch(t, p, ms)), Adds(p, vs)) == Ok(ApplyOps(s, SetBatch(t, p, ms')))
    ensures forall b :: b in Payloads(ms') <==> b in Payloads(ms) || b in Payloads(vs)
    decreases vs
  {
    hide Flat, Mirrors, ApplyOps, SetBatch, Step, Addable, Less;
    if vs == [] {
      ms' := ms;
    } else {
      var next := AddMember(Kept(ms), vs[0]);
      KeptStorable(ms);
      KeptCount(ms, all);
      KeptPayloads(ms);
      AddMemberPayloads(Kept(ms), vs[0]);
      NextAdd(s, rows, t, p, ms, vs[0]);
      assert Adds(p, vs)[1..] == Adds(p, vs[1..]);
      assert Storable(next) by { assert vs[0] in vs; }
      assert Payloads(vs) == [Payload(vs[0])] + Payloads(vs[1..]);
      ms' := MoreAdds(s, rows, t, p, next, vs[1..], all);
    }
  }

  lemma {:induction false} AllAdds(s: Store, rows: Rows, t: NsTree, p: Path, vs: seq<Value>)
    returns (ms: seq<Value>)
    requires Addable(s, rows, t, p) && Storable(vs) && vs != [] && |SortDedup(Payloads(vs))| < U32
    ensures RunDirect(s, Adds(p, vs)) == Ok(ApplyOps(s, SetBatch(t, p, ms)))
    ensures forall b :: b in Payloads(ms) <==> b in Payloads(vs)
  {
    hide Flat, Mirrors, ApplyOps, SetBatch, Step, Addable, Less;
    assert vs[0] in vs;
    FirstAdd(s, rows, t, p, vs[0]);
    assert Adds(p, vs)[1..] == Adds(p, vs[1..]);
    assert Payloads(vs) == [Payload(vs[0])] + Payloads(vs[1..]);
    assert Payloads([vs[0]]) == [Payload(vs[0])];
    SortDedupSpec(Payloads(vs));
    ms := MoreAdds(s, rows, t, p, [vs[0]], vs[1..], SortDedup(Payloads(vs)));
  }

  lemma {:induction false} SameDistinct(s: seq<Bytes>, t: seq<Bytes>)
    requires forall b :: b in s <==> b in t
    ensures SortDedup(s) == SortDedup(t)
  {
    SortDedupSpec(s);
    SortDedupSpec(t);
    BytesOrder();
    AscendingUnique(Less, SortDedup(s), SortDedup(t));
  }

  lemma {:induction false} SamePayload(ms: seq<Value>, ms': seq<Value>)
    requires forall b :: b in Payloads(ms) <==> b in Payloads(ms')
    ensures Payload(Value.Set(ms)) == Payload(Value.Set(ms'))
  {
    SameDistinct(Payloads(ms), Payloads(ms'));
  }

  lemma {:induction false} InDirectory(s: Store, rows: Rows, t: NsTree, p: Path)
    requires Addable(s, rows, t, p)
    ensures p != [] && Parent(p) in t.live
  {
  }

  lemma {:induction false} SameSetBatch(t: NsTree, p: Path, ms: seq<Value>, ms': seq<Value>)
    requires p != [] && Parent(p) in t.live && Payload(Value.Set(ms)) == Payload(Value.Set(ms'))
    ensures SetBatch(t, p, ms) == SetBatch(t, p, ms')
  {
    hide Payload;
  }

  /**
   * Starting from an absent path in an existing directory, two sequences of `set_add` that
   * add the same payloads, in any order and with any repeats, leave the same store. Only
   * the number of distinct payloads is bounded, by the 32 bits of a set's count.
   */
  lemma {:induction false} SetAddOrderIrrelevant(
    s: Store, rows: Rows, t: NsTree, p: Path, vs: seq<Value>, ws: seq<Value>)
    requires Addable(s, rows, t, p) && Storable(vs) && Storable(ws)
    requires vs != [] && ws != [] && |SortDedup(Payloads(vs))| < U32
    requires forall b :: b in Payloads(vs) <==> b in Payloads(ws)
    ensures RunDirect(s, Adds(p, vs)).Ok? && RunDirect(s, Adds(p, vs)) == RunDirect(s, Adds(p, ws))
  {
    hide Addable, ApplyOps, SetBatch, Less, Payloads, Storable, RunDirect, SortDedup;
    SameDistinct(Payloads(vs), Payloads(ws));
    var ms := AllAdds(s, rows, t, p, vs);
    var ms' := AllAdds(s, rows, t, p, ws);
    SamePayload(ms, ms');
    InDirectory(s, rows, t, p);
    SameSetBatch(t, p, ms, ms');
  }
}
