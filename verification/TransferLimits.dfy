/** When importing an export gives the database back, and when it does not. */
module TransferLimits {
  import opened ByteStrings
  import opened Utf8
  import opened Orders
  import opened Values
  import opened Codec
  import opened CodecTheorems
  import opened Storage
  import opened Numbers
  import opened Paths
  import opened Keys
  import opened Namespace
  import opened TreeModel
  import opened Runs
  import opened Listing
  import opened Walking
  import opened Json
  import opened JsonProofs
  import opened JsonValues
  import opened JsonBack
  import opened Transfer
  import opened TransferProofs

  // ----- which child names an import takes -----

  /** At the root a name is parsed, so it may hold slashes; below, it is one segment, and may hold a NUL. */
  lemma {:induction false} ChildPathIff(p: Path, name: string, q: Path)
    ensures ChildPath(p, name) == Ok(q) <==>
            if p == [] then PathOk(q) && NoNul(q) && exists n: nat :: "/" + name == AsStr(q) + Slashes(n)
            else SegmentOk(name) && q == p + [name]
  {
    hide Parse, AsStr, NoNul;
    if p == [] {
      ParseIff("/" + name, q);
    }
  }

  lemma {:induction false} NulRefused(name: string)
    requires SegmentOk(name) && '\0' in name
    ensures ChildPath([], name).Err?
  {
    var q := [name];
    assert PathOk(q) && AsStr(q) == "/" + name;
    assert q[0] in q && !NoNul(q);
    ParseAsStr(q);
  }

  /** An import stops at the latest at the first name it refuses. */
  lemma {:induction false} RefusedName(pf: FloatParser, s: Store, p: Path, fields: seq<Field>, i: nat)
    requires i < |fields| && ChildPath(p, fields[i].key).Err?
    ensures ImportChildren(pf, s, p, fields).error.Some?
    decreases fields
  {
    hide ChildPath, ImportField;
    if i > 0 && ChildPath(p, fields[0].key).Ok? {
      var first := ImportField(pf, s, ChildPath(p, fields[0].key).value, fields[0]);
      RefusedName(pf, first.store, p, fields[1..], i - 1);
    }
  }

  lemma {:induction false} ChildKeyAt(pf: FloatParser, ft: FloatText, s: Store, rows: Rows, t: NsTree, p: Path,
      names: seq<Child>, fields: seq<Field>, i: nat)
    requires Represents(s, rows, t) && Exportable(t) && p in t.live
    requires (forall c | c in names :: ChildOf(t, p, c)) && i < |names|
    requires Every(AllFilled(ChildSlots(pf, ft, s, rows, t, p, names))) == Some(fields)
    ensures i < |fields| && fields[i].key == names[i].0
    decreases names
  {
    hide Flat, Mirrors, WellFormedTree, Exportable, NodeJson, Every, AllFilled, ChildSlots;
    FirstChild(pf, ft, s, rows, t, p, names, fields);
    if i > 0 {
      ChildKeyAt(pf, ft, s, rows, t, p, names[1..], fields[1..], i - 1);
    }
  }

  lemma {:induction false} FirstChild(pf: FloatParser, ft: FloatText, s: Store, rows: Rows, t: NsTree, p: Path,
      names: seq<Child>, fields: seq<Field>)
    requires Represents(s, rows, t) && Exportable(t) && p in t.live
    requires (forall c | c in names :: ChildOf(t, p, c)) && names != []
    requires Every(AllFilled(ChildSlots(pf, ft, s, rows, t, p, names))) == Some(fields)
    ensures p + [names[0].0] in t.live
    ensures fields != [] && fields[0].key == names[0].0
    ensures NodeJson(pf, ft, s, rows, t, p + [names[0].0]) == Some(fields[0].val)
    ensures Every(AllFilled(ChildSlots(pf, ft, s, rows, t, p, names[1..]))) == Some(fields[1..])
  {
    hide Flat, Mirrors, WellFormedTree, Exportable, NodeJson, Every, AllFilled;
    ChildBelow(t, p, names[0]);
    var slots := ChildSlots(pf, ft, s, rows, t, p, names);
    assert slots[1..] == ChildSlots(pf, ft, s, rows, t, p, names[1..]);
    FilledSplit(slots, fields);
  }

  lemma {:induction false} HeadLive(t: NsTree, p: Path)
    requires WellFormedTree(t) && p in t.live && p != []
    ensures [p[0]] in t.live
    decreases |p|
  {
    if |p| == 1 {
      assert p == [p[0]];
    } else {
      HeadLive(t, Parent(p));
    }
  }

  /** A name with a NUL right below the root makes the import fail. */
  lemma {:induction false} NulNameFails(
    pf: FloatParser, ft: FloatText, s: Store, rows: Rows, t: NsTree, p: Path, s1: Store, j: JsonVal)
    requires Represents(s, rows, t) && Exportable(t) && p in t.live && p != [] && '\0' in p[0]
    requires NodeJson(pf, ft, s, rows, t, []) == Some(j)
    ensures ImportNode(pf, s1, [], j, true).error.Some?
  {
    hide Flat, Mirrors, ListDir, GetAbs, Exportable, NodeJson, ChildSlots, ImportNode, ImportChildren, DirJson,
         ChildPath, Every, AllFilled;
    DirGet(t, []);
    NodeJsonDir(pf, ft, s, rows, t, []);
    ListSpec(s, rows, t, []);
    HeadLive(t, p);
    var names := ListDir(s, []).value;
    var c: Child := (p[0], t.live[[p[0]]].node.Dir?);
    assert [] + [p[0]] == [p[0]];
    assert ChildOf(t, [], c) && c in names;
    var i: nat :| i < |names| && names[i] == c;
    var fields := DirFields(ChildSlots(pf, ft, s, rows, t, [], names), j);
    ChildKeyAt(pf, ft, s, rows, t, [], names, fields, i);
    LiveSegment(t, [p[0]]);
    NulRefused(p[0]);
    RefusedName(pf, s1, [], fields, i);
    ImportRootStep(pf, s1, fields);
  }

  lemma {:induction false} LiveSegment(t: NsTree, p: Path)
    requires WellFormedTree(t) && p in t.live && p != []
    ensures SegmentOk(p[0])
  {
    assert PathOk(p) && p[0] in p;
  }

  // ----- a value that cannot be read back spoils the whole text -----

  predicate Legible(pf: FloatParser, ft: FloatText, got: Result<Entry, NsError>) {
    got.Ok? && got.value.ValueEntry? ==> ValueJson(pf, ft, got.value.value).Some?
  }

  lemma {:induction false} NodeLegible(pf: FloatParser, ft: FloatText, s: Store, rows: Rows, t: NsTree, p: Path,
      j: JsonVal)
    requires Represents(s, rows, t) && Exportable(t) && p in t.live
    requires NodeJson(pf, ft, s, rows, t, p) == Some(j)
    ensures forall q | q in Under(t, p) :: Legible(pf, ft, GetAbs(t, q))
    decreases t.next - t.live[p].id, 1, 0
  {
    hide Flat, Mirrors, ListDir, GetAbs, ValueJson, NodeJson, ChildSlots, DirJson, Every, AllFilled, Under, Through;
    match GetAbs(t, p).value
    case ValueEntry(v) =>
      NodeJsonValue(pf, ft, s, rows, t, p, v);
      ValueAt(t, p);
      UnderValue(t, p);
    case Directory =>
      DirectoryNode(t, p);
      NodeJsonDir(pf, ft, s, rows, t, p);
      ListSpec(s, rows, t, p);
      var names := ListDir(s, p).value;
      var fields := DirFields(ChildSlots(pf, ft, s, rows, t, p, names), j);
      ChildrenLegible(pf, ft, s, rows, t, p, names, fields);
      UnderDir(t, p, names);
  }

  lemma {:induction false} ChildrenLegible(pf: FloatParser, ft: FloatText, s: Store, rows: Rows, t: NsTree, p: Path,
      names: seq<Child>, fields: seq<Field>)
    requires Represents(s, rows, t) && Exportable(t) && p in t.live
    requires Ascending(NameLess, names) && forall c | c in names :: ChildOf(t, p, c)
    requires Every(AllFilled(ChildSlots(pf, ft, s, rows, t, p, names))) == Some(fields)
    ensures forall q | q in Through(t, p, names) :: Legible(pf, ft, GetAbs(t, q))
    decreases t.next - t.live[p].id, 0, |names|
  {
    hide Flat, Mirrors, WellFormedTree, Exportable, NodeJson, Every, AllFilled, Under, Legible, ChildSlots, GetAbs;
    if names == [] {
      assert Through(t, p, names) == {};
    } else {
      ChildBelow(t, p, names[0]);
      FirstChild(pf, ft, s, rows, t, p, names, fields);
      ThroughFirst(t, p, names);
      NodeLegible(pf, ft, s, rows, t, p + [names[0].0], fields[0].val);
      ChildrenLegible(pf, ft, s, rows, t, p, names[1..], fields[1..]);
    }
  }

  /** One value whose text cannot be read, and nothing of the export can be imported. */
  lemma {:induction false} IllegibleFails(pf: FloatParser, ft: FloatText, s: Store, rows: Rows, t: NsTree, p: Path,
      s1: Store)
    requires Represents(s, rows, t) && Exportable(t) && Decimal(ft) && p in t.live && !Legible(pf, ft, GetAbs(t, p))
    ensures Export(ft, s, rows, t, []).Ok?
    ensures ImportJson(pf, s1, Export(ft, s, rows, t, []).value) == Outcome(s1, Some(Invalid))
  {
    hide Flat, Mirrors, GetAbs, Exportable, Export, NodeJson, ImportJson, ImportNode, Decimal, Legible, Under;
    ExportText(pf, ft, s, rows, t, s1);
    UnderRoot(t);
    if NodeJson(pf, ft, s, rows, t, []).Some? {
      NodeLegible(pf, ft, s, rows, t, [], NodeJson(pf, ft, s, rows, t, []).value);
    }
  }

  // ----- what holds of every value that an import writes -----

  /** Whatever value the row reads as has the property. */
  predicate RowSafe(P: Value -> bool, row: Bytes) {
    var rec := ParseNode(row);
    rec.Ok? && rec.value.ValueRecord? && Decode(rec.value.enc).Ok? ==> P(Decode(rec.value.enc).value)
  }

  ghost predicate StoreSafe(P: Value -> bool, s: Store) {
    forall id: u64 | NodeKey(id) in s :: RowSafe(P, s[NodeKey(id)])
  }

  ghost predicate WriteSafe(P: Value -> bool, op: BatchOp) {
    op.Put? && !RowSafe(P, op.value) ==> forall id: u64 :: op.key != NodeKey(id)
  }

  lemma {:induction false} WriteKeepsSafe(P: Value -> bool, s: Store, op: BatchOp)
    requires StoreSafe(P, s) && WriteSafe(P, op)
    ensures StoreSafe(P, ApplyOp(s, op))
  {
    hide RowSafe, NodeKey;
    var s' := ApplyOp(s, op);
    forall id: u64 | NodeKey(id) in s'
      ensures RowSafe(P, s'[NodeKey(id)])
    {
      assert op.Put? && NodeKey(id) == op.key ==> RowSafe(P, op.value);
    }
  }

  lemma {:induction false} BatchKeepsSafe(P: Value -> bool, s: Store, ops: Batch)
    requires StoreSafe(P, s) && forall op | op in ops :: WriteSafe(P, op)
    ensures StoreSafe(P, ApplyOps(s, ops))
    decreases ops
  {
    hide RowSafe, NodeKey, StoreSafe, WriteSafe;
    if ops != [] {
      WriteKeepsSafe(P, s, ops[0]);
      BatchKeepsSafe(P, ApplyOp(s, ops[0]), ops[1..]);
    }
  }

  lemma {:induction false} OtherKey(P: Value -> bool, k: Key, v: Bytes)
    requires !k.KNode?
    ensures WriteSafe(P, Put(Enc(k), v))
  {
    hide RowSafe;
    forall id: u64
      ensures Enc(k) != NodeKey(id)
    {
      EncHead(k);
      EncHead(KNode(id));
    }
  }

  lemma {:induction false} NewNodeSafe(P: Value -> bool, s: Store, parent: u64, p: Path, node: Bytes, ty: string)
    requires p != [] && RowSafe(P, node) && NewNode(s, parent, p, node, ty).Ok?
    ensures forall op | op in NewNode(s, parent, p, node, ty).value :: WriteSafe(P, op)
  {
    hide RowSafe, NodeKey, ChildKey, TypeKey, EncodeId, ToUtf8, AsStr, NextId, WriteSafe;
    var id: nat := NextId(s).value;
    OtherKey(P, KNext, EncodeId(id + 1));
    OtherKey(P, KChild(parent, Name(p)), EncodeId(id));
    OtherKey(P, KType(ty, id), ToUtf8(AsStr(p)));
    SafeWrite(P, NodeKey(id), node);
  }

  lemma {:induction false} SafeWrite(P: Value -> bool, k: Bytes, v: Bytes)
    requires RowSafe(P, v)
    ensures WriteSafe(P, Put(k, v))
  {
  }

  lemma {:induction false} DeleteSafe(P: Value -> bool, k: Bytes)
    ensures WriteSafe(P, Delete(k))
  {
  }

  lemma {:induction false} SetSafe(P: Value -> bool, s: Store, p: Path, w: Value)
    requires RowSafe(P, ValueNode(Encode(w))) && SetValue(s, p, w).Ok?
    ensures forall op | op in SetValue(s, p, w).value :: WriteSafe(P, op)
  {
    hide RowSafe, NodeKey, ChildKey, TypeKey, EncodeId, ToUtf8, AsStr, NewNode, WriteSafe, ResolveParent, Encode,
         ValueNode, DecodeId, ParseNode, DecodeNs, TypeName;
    var parent := ResolveParent(s, p).value;
    if ChildKey(parent, Name(p)) !in s {
      NewNodeSafe(P, s, parent, p, ValueNode(Encode(w)), TypeName(w));
    } else {
      var id := DecodeId(s[ChildKey(parent, Name(p))]).value;
      OtherKey(P, KType(TypeName(w), id), ToUtf8(AsStr(p)));
      SafeWrite(P, NodeKey(id), ValueNode(Encode(w)));
      DeleteSafe(P, TypeKey(TypeName(DecodeNs(ParseNode(s[NodeKey(id)]).value.enc).value), id));
    }
  }

  lemma {:induction false} DirRowSafe(P: Value -> bool)
    ensures RowSafe(P, DIR_NODE)
  {
  }

  lemma {:induction false} MkdirSafe(P: Value -> bool, s: Store, p: Path)
    requires Mkdir(s, p).Ok?
    ensures forall op | op in Mkdir(s, p).value :: WriteSafe(P, op)
  {
    hide RowSafe, NewNode, WriteSafe, ResolveParent, Resolve, Exists;
    if p != [] {
      DirRowSafe(P);
      NewNodeSafe(P, s, ResolveParent(s, p).value, p, DIR_NODE, "directory");
    }
  }

  lemma {:induction false} CommitSafe(P: Value -> bool, s: Store, op: Op)
    requires StoreSafe(P, s) && (op.MkdirOp? || (op.SetOp? && RowSafe(P, ValueNode(Encode(op.value)))))
    ensures StoreSafe(P, Commit(s, op).store)
  {
    hide RowSafe, StoreSafe, WriteSafe, Mkdir, SetValue, ApplyOps, Encode, ValueNode;
    if OpBatch(s, op).Ok? {
      if op.MkdirOp? {
        MkdirSafe(P, s, op.path);
      } else {
        SetSafe(P, s, op.path, op.value);
      }
      BatchKeepsSafe(P, s, OpBatch(s, op).value);
    }
  }

  /** Every value in the JSON of a subtree is stored with the property, if it converts at all. */
  ghost predicate JsonSafe(P: Value -> bool, pf: FloatParser, j: JsonVal)
    decreases j, 1
  {
    if IsDirJson(j) then DirSafe(P, pf, j.fields[0])
    else ToValue(pf, j).Ok? ==> RowSafe(P, ValueNode(Encode(ToValue(pf, j).value)))
  }

  ghost predicate DirSafe(P: Value -> bool, pf: FloatParser, f: Field)
    decreases f, 3
  {
    f.val.JObj? ==> AllSafe(P, pf, f.val.fields)
  }

  ghost predicate AllSafe(P: Value -> bool, pf: FloatParser, fields: seq<Field>)
    decreases fields, 0
  {
    fields == [] || (FieldSafe(P, pf, fields[0]) && AllSafe(P, pf, fields[1..]))
  }

  ghost predicate FieldSafe(P: Value -> bool, pf: FloatParser, f: Field)
    decreases f, 2
  {
    JsonSafe(P, pf, f.val)
  }

  lemma {:induction false} ImportNodeSafe(P: Value -> bool, pf: FloatParser, s: Store, p: Path, j: JsonVal)
    requires StoreSafe(P, s) && JsonSafe(P, pf, j)
    ensures StoreSafe(P, ImportNode(pf, s, p, j, false).store)
    decreases j, 1
  {
    hide StoreSafe, RowSafe, ToValue, Commit, Encode, ValueNode, ImportDir, DirSafe;
    if IsDirJson(j) {
      ImportDirSafe(P, pf, s, p, j.fields[0]);
    } else if ToValue(pf, j).Ok? {
      CommitSafe(P, s, SetOp(p, ToValue(pf, j).value));
    }
  }

  lemma {:induction false} ImportDirSafe(P: Value -> bool, pf: FloatParser, s: Store, p: Path, f: Field)
    requires StoreSafe(P, s) && DirSafe(P, pf, f)
    ensures StoreSafe(P, ImportDir(pf, s, p, f, false).store)
    decreases f, 3
  {
    hide StoreSafe, RowSafe, Commit, ImportChildren, Exists, AllSafe;
    if f.val.JObj? {
      ImportChildrenSafe(P, pf, s, p, f.val.fields);
      CommitSafe(P, s, MkdirOp(p));
      ImportChildrenSafe(P, pf, Commit(s, MkdirOp(p)).store, p, f.val.fields);
    }
  }

  lemma {:induction false} ImportFieldSafe(P: Value -> bool, pf: FloatParser, s: Store, p: Path, f: Field)
    requires StoreSafe(P, s) && FieldSafe(P, pf, f)
    ensures StoreSafe(P, ImportField(pf, s, p, f).store)
    decreases f, 2
  {
    ImportNodeSafe(P, pf, s, p, f.val);
  }

  /** Importing such JSON, to the end or to a failure, keeps the property of every stored value. */
  lemma {:induction false} ImportChildrenSafe(P: Value -> bool, pf: FloatParser, s: Store, p: Path, fields: seq<Field>)
    requires StoreSafe(P, s) && AllSafe(P, pf, fields)
    ensures StoreSafe(P, ImportChildren(pf, s, p, fields).store)
    decreases fields, 0
  {
    hide StoreSafe, FieldSafe, ImportField, ChildPath;
    if fields != [] && ChildPath(p, fields[0].key).Ok? {
      var child := ChildPath(p, fields[0].key).value;
      ImportFieldSafe(P, pf, s, child, fields[0]);
      ImportChildrenSafe(P, pf, ImportField(pf, s, child, fields[0]).store, p, fields[1..]);
    }
  }

  // ----- the JSON of an exported tree is such JSON -----

  lemma {:induction false} StoredRowSafe(P: Value -> bool, w: Value)
    requires Decode(Encode(w)) == Ok(Canon(w)) && P(Canon(w))
    ensures RowSafe(P, ValueNode(Encode(w)))
  {
    hide Decode, Encode, Canon;
    assert ValueNode(Encode(w))[1..] == Encode(w);
  }

  lemma {:induction false} ReadFits(t: NsTree, p: Path, v: Value)
    requires GetAbs(t, p) == Ok(ValueEntry(v))
    ensures Fits(v)
  {
    var enc := Encode(t.live[p].node.v);
    DecodedGood(enc[1..], v, []);
  }

  /** What the entry is stored as after it was sent has the property. */
  ghost predicate Sends(P: Value -> bool, pf: FloatParser, ft: FloatText, got: Result<Entry, NsError>) {
    got.Ok? && got.value.ValueEntry? && ValueJson(pf, ft, got.value.value).Some? ==>
      JsonSafe(P, pf, ValueJson(pf, ft, got.value.value).value)
  }

  ghost predicate AllSend(P: Value -> bool, pf: FloatParser, ft: FloatText, t: NsTree) {
    forall p | p in t.live :: Sends(P, pf, ft, GetAbs(t, p))
  }

  lemma {:induction false} NodeJsonSafe(P: Value -> bool, pf: FloatParser, ft: FloatText, s: Store, rows: Rows,
      t: NsTree, p: Path, j: JsonVal)
    requires Represents(s, rows, t) && Exportable(t) && AllSend(P, pf, ft, t) && p in t.live
    requires NodeJson(pf, ft, s, rows, t, p) == Some(j)
    ensures JsonSafe(P, pf, j)
    decreases t.next - t.live[p].id, 1, 0
  {
    hide Flat, Mirrors, ListDir, GetAbs, ValueJson, ToValue, NodeJson, ChildSlots, RowSafe, Encode, ValueNode, Decode,
         AllSafe, DirJson, Every, AllFilled;
    match GetAbs(t, p).value
    case ValueEntry(v) =>
      NodeJsonValue(pf, ft, s, rows, t, p, v);
      assert Sends(P, pf, ft, GetAbs(t, p));
    case Directory =>
      DirectoryNode(t, p);
      NodeJsonDir(pf, ft, s, rows, t, p);
      var names := ListDir(s, p).value;
      var fields := DirFields(ChildSlots(pf, ft, s, rows, t, p, names), j);
      ChildrenJsonSafe(P, pf, ft, s, rows, t, p, names, fields);
  }

  lemma {:induction false} ChildrenJsonSafe(P: Value -> bool, pf: FloatParser, ft: FloatText, s: Store, rows: Rows,
      t: NsTree, p: Path, names: seq<Child>, fields: seq<Field>)
    requires Represents(s, rows, t) && Exportable(t) && AllSend(P, pf, ft, t) && p in t.live
    requires forall c | c in names :: ChildOf(t, p, c)
    requires Every(AllFilled(ChildSlots(pf, ft, s, rows, t, p, names))) == Some(fields)
    ensures AllSafe(P, pf, fields)
    decreases t.next - t.live[p].id, 0, |names|
  {
    hide Flat, Mirrors, WellFormedTree, Exportable, NodeJson, JsonSafe, AllSend, Every, AllFilled;
    if names == [] {
      NoSlots();
    } else {
      ChildBelow(t, p, names[0]);
      FirstChild(pf, ft, s, rows, t, p, names, fields);
      NodeJsonSafe(P, pf, ft, s, rows, t, p + [names[0].0], fields[0].val);
      ChildrenJsonSafe(P, pf, ft, s, rows, t, p, names[1..], fields[1..]);
    }
  }

  lemma {:induction false} OpenedSafe(P: Value -> bool)
    ensures StoreSafe(P, Opened())
  {
    hide RowSafe, NodeKey, TypeKey, WriteSafe, EncodeId, ToUtf8, AsStr, ApplyOps, StoreSafe;
    DirRowSafe(P);
    SafeWrite(P, NodeKey(ROOT), DIR_NODE);
    OtherKey(P, KNext, EncodeId(ROOT + 1));
    OtherKey(P, KType("directory", ROOT), ToUtf8(AsStr([])));
    OtherKey(P, KVersion, Be(1, 8));
    EmptySafe(P);
    BatchKeepsSafe(P, map[], [Put(NodeKey(ROOT), DIR_NODE), Put(META_NEXT_ID, EncodeId(ROOT + 1)),
                              Put(TypeKey("directory", ROOT), ToUtf8(AsStr([]))), Put(META_VERSION, Be(1, 8))]);
  }

  lemma {:induction false} EmptySafe(P: Value -> bool)
    ensures StoreSafe(P, map[])
  {
  }

  /** Whatever an import of an export stores has the property. */
  lemma {:induction false} ImportedSafe(P: Value -> bool, pf: FloatParser, ft: FloatText, s: Store, rows: Rows,
      t: NsTree, j: JsonVal)
    requires Represents(s, rows, t) && Exportable(t) && AllSend(P, pf, ft, t)
    requires NodeJson(pf, ft, s, rows, t, []) == Some(j)
    ensures StoreSafe(P, ImportNode(pf, Opened(), [], j, true).store)
  {
    hide Flat, Mirrors, ListDir, GetAbs, Exportable, NodeJson, ChildSlots, ImportNode, ImportChildren, DirJson,
         Opened, StoreSafe, AllSafe, AllSend, Every, AllFilled;
    DirGet(t, []);
    NodeJsonDir(pf, ft, s, rows, t, []);
    var names := ListDir(s, []).value;
    var fields := DirFields(ChildSlots(pf, ft, s, rows, t, [], names), j);
    ChildrenJsonSafe(P, pf, ft, s, rows, t, [], names, fields);
    OpenedSafe(P);
    ImportChildrenSafe(P, pf, Opened(), [], fields);
    ImportRootStep(pf, Opened(), fields);
  }

  /** The entry, if it is a value, has the property. */
  predicate EntryHas(P: Value -> bool, got: Result<Entry, NsError>) {
    got.Ok? && got.value.ValueEntry? ==> P(got.value.value)
  }

  lemma {:induction false} GetSafe(P: Value -> bool, s: Store, p: Path)
    requires StoreSafe(P, s)
    ensures EntryHas(P, Get(s, p))
  {
    hide Descend, Decode;
  }

  // ----- exactly when the database comes back -----

  lemma {:induction false} SameReads(P: Value -> bool, s: Store, rows: Rows, t: NsTree, s2: Store)
    requires Represents(s, rows, t) && StoreSafe(P, s2) && forall p :: Get(s2, p) == Get(s, p)
    ensures forall p | p in t.live :: EntryHas(P, GetAbs(t, p))
  {
    hide Flat, Mirrors, WellFormedTree, GetAbs, Get, StoreSafe, EntryHas;
    forall p | p in t.live
      ensures EntryHas(P, GetAbs(t, p))
    {
      GetSpec(s, rows, t, p);
      GetSafe(P, s2, p);
    }
  }

  /** An import that reads the same has kept a property that all values are sent with. */
  lemma {:induction false} ReadsHave(P: Value -> bool, pf: FloatParser, ft: FloatText, s: Store, rows: Rows, t: NsTree,
      j: JsonVal)
    requires Represents(s, rows, t) && Exportable(t) && AllSend(P, pf, ft, t)
    requires NodeJson(pf, ft, s, rows, t, []) == Some(j)
    requires forall p :: Get(ImportNode(pf, Opened(), [], j, true).store, p) == Get(s, p)
    ensures forall p | p in t.live :: EntryHas(P, GetAbs(t, p))
  {
    hide Flat, Mirrors, GetAbs, Get, StoreSafe, EntryHas, NodeJson, ImportNode, AllSend, Opened;
    ImportedSafe(P, pf, ft, s, rows, t, j);
    SameReads(P, s, rows, t, ImportNode(pf, Opened(), [], j, true).store);
  }

  lemma {:induction false} SentSafe(P: Value -> bool, pf: FloatParser, j: JsonVal)
    requires !IsDirJson(j)
    requires ToValue(pf, j).Ok? ==> var w := ToValue(pf, j).value; Decode(Encode(w)) == Ok(Canon(w)) && P(Canon(w))
    ensures JsonSafe(P, pf, j)
  {
    hide ToValue, Decode, Encode, Canon, RowSafe, ValueNode, DirSafe;
    if ToValue(pf, j).Ok? {
      StoredRowSafe(P, ToValue(pf, j).value);
    }
  }

  /** Every value is sent with plain keys. */
  lemma {:induction false} SendsPlain(P: Value -> bool, pf: FloatParser, ft: FloatText, t: NsTree)
    requires PrintedAlike(pf, ft) && forall v | KeysSafe(v) :: P(v)
    ensures AllSend(P, pf, ft, t)
  {
    hide PrintedAlike, GetAbs, ValueJson, ToValue, KeysSafe, Survives, Fits, Canon, Decode, Encode, JsonSafe, IsDirJson;
    forall p | p in t.live
      ensures Sends(P, pf, ft, GetAbs(t, p))
    {
      var got := GetAbs(t, p);
      if got.Ok? && got.value.ValueEntry? && ValueJson(pf, ft, got.value.value).Some? {
        var v, j := got.value.value, ValueJson(pf, ft, got.value.value).value;
        ReadFits(t, p, v);
        ValueIsNotDir(pf, ft, v, j);
        if ToValue(pf, j).Ok? {
          StoredAgain(pf, ft, v, j, ToValue(pf, j).value);
        }
        SentSafe(P, pf, j);
      }
    }
  }

  /** Every value whose keys are plain is sent as one that survives. */
  lemma {:induction false} SendsSurvivors(P: Value -> bool, Q: Value -> bool, pf: FloatParser, ft: FloatText, t: NsTree)
    requires PrintedAlike(pf, ft) && (forall v | Survives(pf, ft, v) :: P(v)) && (forall v | Q(v) :: KeysSafe(v))
    requires forall p | p in t.live :: EntryHas(Q, GetAbs(t, p))
    ensures AllSend(P, pf, ft, t)
  {
    hide PrintedAlike, GetAbs, ValueJson, ToValue, KeysSafe, Survives, Fits, Canon, Decode, Encode, JsonSafe, IsDirJson;
    forall p | p in t.live
      ensures Sends(P, pf, ft, GetAbs(t, p))
    {
      var got := GetAbs(t, p);
      assert EntryHas(Q, got);
      if got.Ok? && got.value.ValueEntry? && ValueJson(pf, ft, got.value.value).Some? {
        var v, j := got.value.value, ValueJson(pf, ft, got.value.value).value;
        ReadFits(t, p, v);
        ValueIsNotDir(pf, ft, v, j);
        if ToValue(pf, j).Ok? {
          StoredAgain(pf, ft, v, j, ToValue(pf, j).value);
        }
        SentSafe(P, pf, j);
      }
    }
  }

  /** An import of an export that reads the same can only have been of values that survive. */
  lemma {:induction false} ReadsSurvive(pf: FloatParser, ft: FloatText, s: Store, rows: Rows, t: NsTree, j: JsonVal)
    requires Represents(s, rows, t) && Exportable(t) && PrintedAlike(pf, ft)
    requires NodeJson(pf, ft, s, rows, t, []) == Some(j)
    requires forall p :: Get(ImportNode(pf, Opened(), [], j, true).store, p) == Get(s, p)
    ensures Survivors(pf, ft, t)
  {
    hide Flat, Mirrors, GetAbs, Get, NodeJson, ImportNode, AllSend, Opened, PrintedAlike, KeysSafe, Survives,
         Exportable;
    var Q := (v: Value) => KeysSafe(v);
    var P := (v: Value) => Survives(pf, ft, v);
    SendsPlain(Q, pf, ft, t);
    ReadsHave(Q, pf, ft, s, rows, t, j);
    SendsSurvivors(P, Q, pf, ft, t);
    ReadsHave(P, pf, ft, s, rows, t, j);
    forall p | p in t.live
      ensures EntrySurvives(pf, ft, GetAbs(t, p))
    {
      assert EntryHas(P, GetAbs(t, p));
    }
  }

  /**
   * A readable database comes back from its export, every path reading the same, if and
   * only if no name right below the root holds a NUL, every float in it is finite, printed
   * with a point and parsed to itself, and no tree key comes back as another.
   */
  lemma {:induction false} ExportImportIff(pf: FloatParser, ft: FloatText, s: Store, rows: Rows, t: NsTree)
    requires Represents(s, rows, t) && Exportable(t) && Decimal(ft) && PrintedAlike(pf, ft)
    ensures Export(ft, s, rows, t, []).Ok?
    ensures var out := ImportJson(pf, Opened(), Export(ft, s, rows, t, []).value);
            (out.error.None? && forall p :: Get(out.store, p) == Get(s, p)) <==> RootNamesOk(t) && Survivors(pf, ft, t)
  {
    hide Flat, Mirrors, GetAbs, Exportable, Survivors, Opened, ImportJson, Export, NodeJson, Get, ImportNode, Decimal,
         PrintedAlike;
    ExportText(pf, ft, s, rows, t, Opened());
    var out := ImportJson(pf, Opened(), Export(ft, s, rows, t, []).value);
    if RootNamesOk(t) && Survivors(pf, ft, t) {
      var rows', t' := ExportImport(pf, ft, s, rows, t);
    }
    if out.error.None? {
      var j := NodeJson(pf, ft, s, rows, t, []).value;
      forall p | p in t.live && p != []
        ensures '\0' !in p[0]
      {
        if '\0' in p[0] {
          NulNameFails(pf, ft, s, rows, t, p, Opened(), j);
        }
      }
      if forall p :: Get(out.store, p) == Get(s, p) {
        ReadsSurvive(pf, ft, s, rows, t, j);
      }
    }
  }
}
