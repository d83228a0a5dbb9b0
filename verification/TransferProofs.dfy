/** Importing an export into an empty database rebuilds the tree. */
module TransferProofs {
  import opened ByteStrings
  import opened Orders
  import opened Values
  import opened Codec
  import opened CodecTheorems
  import opened Storage
  import opened Numbers
  import opened Paths
  import opened Namespace
  import opened TreeModel
  import opened Steps
  import opened Refinement
  import opened Runs
  import opened Listing
  import opened Walking
  import opened Json
  import opened JsonProofs
  import opened JsonValues
  import opened Transfer

  /** Every node can be read. */
  ghost predicate Exportable(t: NsTree) {
    Readable(t, t.live.Keys)
  }

  predicate EntrySurvives(pf: FloatParser, ft: FloatText, got: Result<Entry, NsError>) {
    got.Ok? && got.value.ValueEntry? ==> Survives(pf, ft, got.value.value)
  }

  /** Every float and every tree key in the tree comes back from its text. */
  ghost predicate Survivors(pf: FloatParser, ft: FloatText, t: NsTree) {
    forall p | p in t.live :: EntrySurvives(pf, ft, GetAbs(t, p))
  }

  /** Names right below the root must satisfy `parse`. */
  ghost predicate RootNamesOk(t: NsTree) {
    forall p | p in t.live && p != [] :: '\0' !in p[0]
  }

  // ----- which trees can be exported -----

  /** The export of a subtree succeeds exactly when every node in it can be read. */
  lemma {:induction false} ExportOkIff(ft: FloatText, s: Store, rows: Rows, t: NsTree, p: Path)
    requires Represents(s, rows, t) && p in t.live
    ensures Export(ft, s, rows, t, p).Ok? <==> Readable(t, Under(t, p))
    decreases t.next - t.live[p].id, 1, 0
  {
    hide Flat, Mirrors, ListDir, Wrapped, Get, GetAbs, ValueText, JoinWith, ExportAll, Under;
    GetSpec(s, rows, t, p);
    InUnder(t, p);
    if GetAbs(t, p).Ok? {
      match GetAbs(t, p).value
      case ValueEntry(v) =>
        ValueAt(t, p);
        UnderValue(t, p);
      case Directory =>
        DirectoryNode(t, p);
        ListSpec(s, rows, t, p);
        var names := ListDir(s, p).value;
        ExportAllOkIff(ft, s, rows, t, p, names);
        UnderDir(t, p, names);
    }
  }

  lemma {:induction false} ExportAllOkIff(ft: FloatText, s: Store, rows: Rows, t: NsTree, p: Path, names: seq<Child>)
    requires Represents(s, rows, t) && p in t.live
    requires Ascending(NameLess, names) && forall c | c in names :: ChildOf(t, p, c)
    ensures ExportAll(ft, s, rows, t, p, names).Ok? <==> Readable(t, Through(t, p, names))
    decreases t.next - t.live[p].id, 0, |names|
  {
    hide Flat, Mirrors, GetAbs, Export, Member, Under, WellFormedTree;
    if names == [] {
      assert Through(t, p, names) == {};
    } else {
      ChildBelow(t, p, names[0]);
      ExportOkIff(ft, s, rows, t, p + [names[0].0]);
      ExportAllOkIff(ft, s, rows, t, p, names[1..]);
      ThroughFirst(t, p, names);
    }
  }

  lemma {:induction false} ValueAt(t: NsTree, p: Path)
    requires GetAbs(t, p).Ok? && GetAbs(t, p).value.ValueEntry?
    ensures p in t.live && t.live[p].node.Val?
  {
  }

  // ----- the JSON of a tree -----

  ghost function NodeJson(pf: FloatParser, ft: FloatText, s: Store, rows: Rows, t: NsTree, p: Path): Option<JsonVal>
    requires Represents(s, rows, t) && Exportable(t) && p in t.live
    decreases t.next - t.live[p].id, 1, 0
  {
    match GetAbs(t, p).value
    case ValueEntry(v) => ValueJson(pf, ft, v)
    case Directory =>
      ListSpec(s, rows, t, p);
      DirJson(ChildSlots(pf, ft, s, rows, t, p, ListDir(s, p).value))
  }

  ghost function ChildSlots(pf: FloatParser, ft: FloatText, s: Store, rows: Rows, t: NsTree, p: Path,
      names: seq<Child>): seq<Slot>
    requires Represents(s, rows, t) && Exportable(t) && p in t.live
    requires forall c | c in names :: ChildOf(t, p, c)
    decreases t.next - t.live[p].id, 0, |names|
  {
    if names == [] then [] else
    ChildBelow(t, p, names[0]);
    [Slot(names[0].0, NodeJson(pf, ft, s, rows, t, p + [names[0].0]))]
    + ChildSlots(pf, ft, s, rows, t, p, names[1..])
  }

  function DirJson(slots: seq<Slot>): Option<JsonVal> {
    Tagged("__dir", InObject(Every(AllFilled(slots))))
  }

  /** The exported text reads as that JSON, or not at all if a float in it does not. */
  lemma {:induction false} ExportReads(pf: FloatParser, ft: FloatText, s: Store, rows: Rows, t: NsTree, p: Path)
    requires Represents(s, rows, t) && Exportable(t) && p in t.live && Decimal(ft)
    ensures Export(ft, s, rows, t, p).Ok?
    ensures Reads(pf, Export(ft, s, rows, t, p).value, NodeJson(pf, ft, s, rows, t, p))
    decreases t.next - t.live[p].id, 1, 0
  {
    hide Reads, AllFieldsRead, Flat, Mirrors, ListDir, Wrapped, Get, GetAbs, ValueText, ValueJson, Decimal, Tagged,
         InObject, Every, AllFilled;
    GetSpec(s, rows, t, p);
    match GetAbs(t, p).value
    case ValueEntry(v) => ValueReads(pf, ft, v);
    case Directory =>
      DirectoryNode(t, p);
      ListSpec(s, rows, t, p);
      var names := ListDir(s, p).value;
      ExportAllReads(pf, ft, s, rows, t, p, names);
      var parts := ExportAll(ft, s, rows, t, p, names).value;
      var slots := ChildSlots(pf, ft, s, rows, t, p, names);
      ObjectReads(pf, parts, slots);
      WrappedReads(pf, "__dir", "{" + JoinWith(parts) + "}", InObject(Every(AllFilled(slots))));
  }

  lemma {:induction false} DirectoryNode(t: NsTree, p: Path)
    requires GetAbs(t, p) == Ok(Directory)
    ensures p in t.live && t.live[p].node.Dir?
  {
  }

  lemma {:induction false} ExportAllReads(pf: FloatParser, ft: FloatText, s: Store, rows: Rows, t: NsTree,
      p: Path, names: seq<Child>)
    requires Represents(s, rows, t) && Exportable(t) && p in t.live && Decimal(ft)
    requires forall c | c in names :: ChildOf(t, p, c)
    ensures ExportAll(ft, s, rows, t, p, names).Ok?
    ensures AllFieldsRead(pf, ExportAll(ft, s, rows, t, p, names).value, ChildSlots(pf, ft, s, rows, t, p, names))
    decreases t.next - t.live[p].id, 0, |names|
  {
    hide Reads, Flat, Mirrors, GetAbs, Export, NodeJson, FieldReads, WellFormedTree, Exportable, Member, Decimal;
    if names != [] {
      ChildBelow(t, p, names[0]);
      var child := p + [names[0].0];
      ExportReads(pf, ft, s, rows, t, child);
      ExportAllReads(pf, ft, s, rows, t, p, names[1..]);
      FieldCons(pf, names[0].0, Export(ft, s, rows, t, child).value, NodeJson(pf, ft, s, rows, t, child),
                ExportAll(ft, s, rows, t, p, names[1..]).value, ChildSlots(pf, ft, s, rows, t, p, names[1..]));
    }
  }

  // ----- the ids an import needs -----

  lemma {:induction false} IdPositive(t: NsTree, p: Path)
    requires WellFormedTree(t) && p in t.live
    ensures t.live[p].id >= 1
    decreases |p|
  {
    if p != [] {
      IdPositive(t, Parent(p));
    }
  }

  ghost function Older(t: NsTree, n: nat): set<Path> {
    set p | p in t.live && t.live[p].id < n
  }

  lemma {:induction false} OlderCount(t: NsTree, n: nat)
    requires WellFormedTree(t) && n >= 1
    ensures |Older(t, n)| < n
    decreases n
  {
    if n == 1 {
      forall p | p in Older(t, 1) ensures false { IdPositive(t, p); }
      assert Older(t, 1) == {};
    } else {
      OlderCount(t, n - 1);
      OlderStep(t, n - 1);
    }
  }

  lemma {:induction false} OlderStep(t: NsTree, n: nat)
    requires IdsUnique(t)
    ensures |Older(t, n + 1)| <= |Older(t, n)| + 1
  {
    if n in t.at {
      assert Older(t, n + 1) == Older(t, n) + {t.at[n]};
    } else {
      assert Older(t, n + 1) == Older(t, n);
    }
  }

  lemma {:induction false} LiveCount(t: NsTree)
    requires WellFormedTree(t)
    ensures |t.live| < t.next
  {
    IdPositive(t, []);
    OlderCount(t, t.next);
    assert Older(t, t.next) == t.live.Keys;
  }

  // ----- importing -----

  /** `u` holds the nodes of `t` at `done`, read alike, on consecutive ids. */
  ghost predicate Copied(t: NsTree, done: set<Path>, u: NsTree) {
    && done <= t.live.Keys && u.live.Keys == done && u.next as int == |done| + 1
    && forall q | q in done :: GetAbs(u, q) == GetAbs(t, q)
  }

  /** Room for one more node. */
  lemma {:induction false} RoomLeft(t: NsTree, done: set<Path>, u: NsTree, p: Path)
    requires WellFormedTree(t) && Copied(t, done, u) && p in t.live && p !in done
    ensures u.next + 1 < U64
  {
    LiveCount(t);
    SubsetCount(done, t.live.Keys, p);
  }

  lemma {:induction false} SubsetCount(a: set<Path>, b: set<Path>, p: Path)
    requires a <= b && p in b && p !in a
    ensures |a| < |b|
  {
    assert b == a + (b - a);
    assert p in b - a;
  }

  lemma {:induction false} DirGet(t: NsTree, p: Path)
    requires p in t.live && t.live[p].node.Dir?
    ensures GetAbs(t, p) == Ok(Directory)
  {
  }

  /** The parent is a directory on both sides. */
  lemma {:induction false} ParentCopied(t: NsTree, done: set<Path>, u: NsTree, p: Path)
    requires WellFormedTree(t) && Copied(t, done, u) && p in t.live && p != [] && Parent(p) in done
    ensures ParentAbs(u, p).None?
  {
    DirGet(t, Parent(p));
    DirectoryNode(u, Parent(p));
  }

  lemma {:induction false} CopiedAdd(t: NsTree, done: set<Path>, u: NsTree, p: Path, n: Node)
    requires Copied(t, done, u) && p in t.live && p !in done && u.next + 1 < U64
    requires GetAbs(AddNode(u, p, n), p) == GetAbs(t, p)
    ensures Copied(t, done + {p}, AddNode(u, p, n))
  {
    hide GetAbs;
    var u' := AddNode(u, p, n);
    forall q | q in done
      ensures GetAbs(u', q) == GetAbs(t, q)
    {
      assert q != p;
      GetKept(u, p, n, q);
    }
  }

  lemma {:induction false} GetKept(u: NsTree, p: Path, n: Node, q: Path)
    requires q != p && u.next + 1 < U64
    ensures GetAbs(AddNode(u, p, n), q) == GetAbs(u, q)
  {
  }

  /** What was read from a store is stored back without change. */
  lemma {:induction false} ReadBack(t: NsTree, p: Path, v: Value)
    requires GetAbs(t, p) == Ok(ValueEntry(v))
    ensures WellFormed(v) && Stored(v) == Ok(v) && t.live[p].node.Val?
  {
    DecodedIsFixedPoint(Encode(t.live[p].node.v));
  }

  lemma {:induction false} ImportValue(
    t: NsTree, p: Path, v: Value, s1: Store, rows1: Rows, u: NsTree, done: set<Path>)
    returns (rows2: Rows)
    requires WellFormedTree(t) && GetAbs(t, p) == Ok(ValueEntry(v)) && p != []
    requires Represents(s1, rows1, u) && Copied(t, done, u) && Parent(p) in done && p !in done
    ensures u.next + 1 < U64 && Commit(s1, SetOp(p, v)).error.None?
    ensures Represents(Commit(s1, SetOp(p, v)).store, rows2, AddNode(u, p, Val(v)))
    ensures Copied(t, done + {p}, AddNode(u, p, Val(v)))
  {
    hide Flat, Mirrors, SetValue, ApplyOps, WellFormed, Stored;
    ReadBack(t, p, v);
    RoomLeft(t, done, u, p);
    ParentCopied(t, done, u, p);
    rows2 := StepRefines(s1, rows1, u, SetOp(p, v));
    CopiedAdd(t, done, u, p, Val(v));
  }

  lemma {:induction false} ImportMkdir(
    t: NsTree, p: Path, s1: Store, rows1: Rows, u: NsTree, done: set<Path>)
    returns (rows2: Rows)
    requires WellFormedTree(t) && GetAbs(t, p) == Ok(Directory) && p != []
    requires Represents(s1, rows1, u) && Copied(t, done, u) && Parent(p) in done && p !in done
    ensures u.next + 1 < U64 && Exists(s1, p) == Ok(false) && Commit(s1, MkdirOp(p)).error.None?
    ensures Represents(Commit(s1, MkdirOp(p)).store, rows2, AddNode(u, p, Dir))
    ensures Copied(t, done + {p}, AddNode(u, p, Dir))
  {
    hide Flat, Mirrors, Mkdir, ApplyOps, Stored, Resolve;
    DirectoryNode(t, p);
    RoomLeft(t, done, u, p);
    ParentCopied(t, done, u, p);
    ResolveSpec(s1, rows1, u, p);
    rows2 := StepRefines(s1, rows1, u, MkdirOp(p));
    CopiedAdd(t, done, u, p, Dir);
  }

  lemma {:induction false} ChildPathOk(t: NsTree, p: Path, c: Child)
    requires WellFormedTree(t) && RootNamesOk(t) && p in t.live && ChildOf(t, p, c)
    ensures ChildPath(p, c.0) == Ok(p + [c.0])
  {
    ChildBelow(t, p, c);
    if p == [] {
      var q := [c.0];
      assert p + [c.0] == q && q in t.live && PathOk(q) && '\0' !in q[0];
      ParseAsStr(q);
      assert AsStr(q) == "/" + c.0;
    }
  }

  /** A value is never printed as a directory. */
  lemma {:induction false} ValueIsNotDir(pf: FloatParser, ft: FloatText, v: Value, j: JsonVal)
    requires ValueJson(pf, ft, v) == Some(j)
    ensures !IsDirJson(j)
  {
    hide HexText, NatText, ParseI64;
  }

  lemma {:induction false} NodeJsonDir(pf: FloatParser, ft: FloatText, s: Store, rows: Rows, t: NsTree, p: Path)
    requires Represents(s, rows, t) && Exportable(t) && GetAbs(t, p) == Ok(Directory) && p in t.live
        && t.live[p].node.Dir?
    ensures ListDir(s, p).Ok? && forall c | c in ListDir(s, p).value :: ChildOf(t, p, c)
    ensures NodeJson(pf, ft, s, rows, t, p) == DirJson(ChildSlots(pf, ft, s, rows, t, p, ListDir(s, p).value))
  {
    hide Flat, Mirrors, ListDir, GetAbs, ChildSlots, DirJson;
    ListSpec(s, rows, t, p);
  }

  /** The JSON of a directory, taken apart. */
  lemma {:induction false} DirFields(slots: seq<Slot>, j: JsonVal) returns (fields: seq<Field>)
    requires DirJson(slots) == Some(j)
    ensures Every(AllFilled(slots)) == Some(fields) && j == JObj([Field("__dir", JObj(fields))])
  {
    hide Every, AllFilled;
    fields := Every(AllFilled(slots)).value;
  }

  lemma {:induction false} NodeJsonValue(pf: FloatParser, ft: FloatText, s: Store, rows: Rows, t: NsTree, p: Path,
      v: Value)
    requires Represents(s, rows, t) && Exportable(t) && p in t.live && GetAbs(t, p) == Ok(ValueEntry(v))
    ensures NodeJson(pf, ft, s, rows, t, p) == ValueJson(pf, ft, v)
  {
    hide Flat, Mirrors, ListDir, GetAbs, ValueJson;
  }

  lemma {:induction false} ImportDirStep(pf: FloatParser, s: Store, p: Path, fields: seq<Field>)
    requires p != [] && Exists(s, p) == Ok(false) && Commit(s, MkdirOp(p)).error.None?
    ensures ImportNode(pf, s, p, JObj([Field("__dir", JObj(fields))]), false)
        == ImportChildren(pf, Commit(s, MkdirOp(p)).store, p, fields)
  {
    hide Exists, Commit, ImportChildren;
  }

  lemma {:induction false} ImportRootStep(pf: FloatParser, s: Store, fields: seq<Field>)
    ensures ImportNode(pf, s, [], JObj([Field("__dir", JObj(fields))]), true) == ImportChildren(pf, s, [], fields)
  {
    hide ImportChildren;
  }

  lemma {:induction false} ImportValueStep(pf: FloatParser, s: Store, p: Path, j: JsonVal, v: Value)
    requires !IsDirJson(j) && ToValue(pf, j) == Ok(v)
    ensures ImportNode(pf, s, p, j, false) == Commit(s, SetOp(p, v))
  {
    hide ToValue, Commit, ImportDir;
  }

  lemma {:induction false} DirJsonOf(slots: seq<Slot>, fields: seq<Field>)
    requires Every(AllFilled(slots)) == Some(fields)
    ensures DirJson(slots) == Some(JObj([Field("__dir", JObj(fields))]))
  {
    hide Every, AllFilled;
  }

  /** Importing the JSON of the subtree at `p` copies the subtree. */
  lemma {:induction false} ImportNodeSpec(
    pf: FloatParser, ft: FloatText, s: Store, rows: Rows, t: NsTree, p: Path,
    s1: Store, rows1: Rows, u: NsTree, done: set<Path>)
    returns (j: JsonVal, rows2: Rows, u2: NsTree)
    requires Represents(s, rows, t) && Exportable(t) && Survivors(pf, ft, t) && RootNamesOk(t) && p in t.live && p != []
    requires Represents(s1, rows1, u) && Copied(t, done, u) && Parent(p) in done && Under(t, p) !! done
    ensures NodeJson(pf, ft, s, rows, t, p) == Some(j)
    ensures var out := ImportNode(pf, s1, p, j, false);
            out.error.None? && Represents(out.store, rows2, u2) && Copied(t, done + Under(t, p), u2)
    decreases t.next - t.live[p].id, 1, 0
  {
    hide Flat, Mirrors, ListDir, GetAbs, Survives, ValueJson, ToValue, Copied, Commit, Exists, Under, WellFormed,
         Stored, ImportNode, ImportChildren, NodeJson, ChildSlots, Through, RootNamesOk, IsDirJson, DirJson, Every,
         AllFilled;
    InUnder(t, p);
    match GetAbs(t, p).value
    case ValueEntry(v) =>
      assert EntrySurvives(pf, ft, GetAbs(t, p));
      ReadBack(t, p, v);
      NodeJsonValue(pf, ft, s, rows, t, p, v);
      ValueBack(pf, ft, v);
      j := ValueJson(pf, ft, v).value;
      ValueIsNotDir(pf, ft, v, j);
      rows2 := ImportValue(t, p, v, s1, rows1, u, done);
      u2 := AddNode(u, p, Val(v));
      UnderValue(t, p);
      ImportValueStep(pf, s1, p, j, v);
    case Directory =>
      DirectoryNode(t, p);
      NodeJsonDir(pf, ft, s, rows, t, p);
      ListSpec(s, rows, t, p);
      var names := ListDir(s, p).value;
      var rows' := ImportMkdir(t, p, s1, rows1, u, done);
      UnderDir(t, p, names);
      BelowIsNew(t, p, names, done);
      var fields: seq<Field>;
      fields, rows2, u2 := ImportChildrenSpec(pf, ft, s, rows, t, p, names, Commit(s1, MkdirOp(p)).store, rows',
          AddNode(u, p, Dir), done + {p});
      DirJsonOf(ChildSlots(pf, ft, s, rows, t, p, names), fields);
      j := JObj([Field("__dir", JObj(fields))]);
      ImportDirStep(pf, s1, p, fields);
      assert done + {p} + Through(t, p, names) == done + Under(t, p);
  }

  lemma {:induction false} InUnder(t: NsTree, p: Path)
    requires p in t.live
    ensures p in Under(t, p)
  {
    assert Extends(p, p);
  }

  lemma {:induction false} BelowIsNew(t: NsTree, p: Path, names: seq<Child>, done: set<Path>)
    requires Under(t, p) !! done && Under(t, p) == {p} + Through(t, p, names)
    ensures Through(t, p, names) !! done + {p}
  {
    hide Under;
    forall q | q in Through(t, p, names)
      ensures q !in done + {p}
    {
      assert q in Under(t, p) && |q| > |p|;
    }
  }

  lemma {:induction false} ImportChildrenSpec(
    pf: FloatParser, ft: FloatText, s: Store, rows: Rows, t: NsTree, p: Path, names: seq<Child>,
    s1: Store, rows1: Rows, u: NsTree, done: set<Path>)
    returns (fields: seq<Field>, rows2: Rows, u2: NsTree)
    requires Represents(s, rows, t) && Exportable(t) && Survivors(pf, ft, t) && RootNamesOk(t) && p in t.live
    requires Ascending(NameLess, names) && forall c | c in names :: ChildOf(t, p, c)
    requires Represents(s1, rows1, u) && Copied(t, done, u) && p in done && Through(t, p, names) !! done
    ensures Every(AllFilled(ChildSlots(pf, ft, s, rows, t, p, names))) == Some(fields)
    ensures var out := ImportChildren(pf, s1, p, fields);
            out.error.None? && Represents(out.store, rows2, u2) && Copied(t, done + Through(t, p, names), u2)
    decreases t.next - t.live[p].id, 0, |names|
  {
    hide Flat, Mirrors, GetAbs, Copied, NodeJson, ImportNode, Under, ChildPath, Exportable, Survivors, RootNamesOk,
         WellFormedTree, Every, AllFilled;
    if names == [] {
      fields, rows2, u2 := [], rows1, u;
      NoSlots();
      assert Through(t, p, names) == {};
      assert done + {} == done;
    } else {
      ChildBelow(t, p, names[0]);
      ChildPathOk(t, p, names[0]);
      ThroughFirst(t, p, names);
      var child := p + [names[0].0];
      assert Parent(child) == p;
      var j, rows', u' := ImportNodeSpec(pf, ft, s, rows, t, child, s1, rows1, u, done);
      var out := ImportNode(pf, s1, child, j, false);
      RestIsNew(t, Under(t, child), Through(t, p, names[1..]), done);
      var rest: seq<Field>;
      rest, rows2, u2 :=
        ImportChildrenSpec(pf, ft, s, rows, t, p, names[1..], out.store, rows', u', done + Under(t, child));
      assert done + Under(t, child) + Through(t, p, names[1..]) == done + Through(t, p, names);
      var slots := ChildSlots(pf, ft, s, rows, t, p, names);
      assert slots[0] == Slot(names[0].0, Some(j)) && slots[1..] == ChildSlots(pf, ft, s, rows, t, p, names[1..]);
      FilledJoin(slots, j, rest);
      fields := [Field(names[0].0, j)] + rest;
      assert fields[1..] == rest;
    }
  }

  lemma {:induction false} NoSlots()
    ensures Every(AllFilled([])) == Some([])
  {
  }

  lemma {:induction false} RestIsNew(t: NsTree, first: set<Path>, rest: set<Path>, done: set<Path>)
    requires first + rest !! done && forall q, r | q in first && r in rest :: PathLess(q, r)
    ensures rest !! done + first
  {
    forall q | q in rest
      ensures q !in done + first
    {
      assert q in first + rest;
      PathLessIrreflexive(q);
    }
  }

  // ----- the whole text -----

  lemma {:induction false} TrimBraces(s: string)
    requires s != "" && s[0] == '{' && s[|s| - 1] == '}'
    ensures Trim(s) == s
  {
  }

  lemma {:induction false} RootText(ft: FloatText, s: Store, rows: Rows, t: NsTree)
    requires Represents(s, rows, t) && Export(ft, s, rows, t, []).Ok?
    ensures Trim(Export(ft, s, rows, t, []).value) == Export(ft, s, rows, t, []).value
  {
    hide Flat, Mirrors, ListDir, ExportAll, JoinWith, Trim, Get;
    GetSpec(s, rows, t, []);
    DirGet(t, []);
    TrimBraces(Export(ft, s, rows, t, []).value);
  }

  lemma {:induction false} FreshCopied(t: NsTree)
    requires WellFormedTree(t)
    ensures Copied(t, {[]}, FRESH_TREE)
  {
    DirGet(t, []);
    DirGet(FRESH_TREE, []);
  }

  lemma {:induction false} ImportRoot(pf: FloatParser, ft: FloatText, s: Store, rows: Rows, t: NsTree)
    returns (j: JsonVal, rows': Rows, t': NsTree)
    requires Represents(s, rows, t) && Exportable(t) && Survivors(pf, ft, t) && RootNamesOk(t)
    ensures NodeJson(pf, ft, s, rows, t, []) == Some(j)
    ensures var out := ImportNode(pf, Opened(), [], j, true);
            out.error.None? && Represents(out.store, rows', t') && Copied(t, t.live.Keys, t')
  {
    hide Flat, Mirrors, ListDir, GetAbs, Copied, Exportable, Survivors, RootNamesOk, Opened, NodeJson, ChildSlots,
         ImportNode, ImportChildren, Through, Under, DirJson, Every, AllFilled;
    DirGet(t, []);
    NodeJsonDir(pf, ft, s, rows, t, []);
    ListSpec(s, rows, t, []);
    var names := ListDir(s, []).value;
    var rows0 := OpenedRepresents();
    FreshCopied(t);
    UnderRoot(t);
    UnderDir(t, [], names);
    ThroughBelow(t, [], names);
    var fields: seq<Field>;
    fields, rows', t' := ImportChildrenSpec(pf, ft, s, rows, t, [], names, Opened(), rows0, FRESH_TREE, {[]});
    DirJsonOf(ChildSlots(pf, ft, s, rows, t, [], names), fields);
    j := JObj([Field("__dir", JObj(fields))]);
    ImportRootStep(pf, Opened(), fields);
  }

  lemma {:induction false} ThroughBelow(t: NsTree, p: Path, names: seq<Child>)
    ensures Through(t, p, names) !! {p}
  {
  }

  /** Importing the text of a database is importing its JSON, and fails if there is none. */
  lemma {:induction false} ExportText(pf: FloatParser, ft: FloatText, s: Store, rows: Rows, t: NsTree, s1: Store)
    requires Represents(s, rows, t) && Exportable(t) && Decimal(ft)
    ensures Export(ft, s, rows, t, []).Ok?
    ensures ImportJson(pf, s1, Export(ft, s, rows, t, []).value)
        == match NodeJson(pf, ft, s, rows, t, [])
           case Some(j) => ImportNode(pf, s1, [], j, true)
           case None => Outcome(s1, Some(Invalid))
  {
    hide Flat, Mirrors, GetAbs, Exportable, ParseJson, Trim, Reads, Export, NodeJson, ImportNode, Decimal;
    ExportReads(pf, ft, s, rows, t, []);
    RootText(ft, s, rows, t);
    ReadWhole(pf, Export(ft, s, rows, t, []).value, NodeJson(pf, ft, s, rows, t, []));
  }

  /**
   * Exporting a database whose values survive and importing the text into an empty one
   * gives a database in which every path reads the same.
   */
  lemma {:induction false} ExportImport(pf: FloatParser, ft: FloatText, s: Store, rows: Rows, t: NsTree)
    returns (rows': Rows, t': NsTree)
    requires Represents(s, rows, t) && Exportable(t) && Decimal(ft) && Survivors(pf, ft, t) && RootNamesOk(t)
    ensures Export(ft, s, rows, t, []).Ok?
    ensures var out := ImportJson(pf, Opened(), Export(ft, s, rows, t, []).value);
            && out.error.None? && Represents(out.store, rows', t')
            && forall p :: Get(out.store, p) == Get(s, p)
  {
    hide Flat, Mirrors, GetAbs, Exportable, Survivors, RootNamesOk, Opened, ImportJson, Export, NodeJson, Get,
         ImportNode, Decimal;
    ExportText(pf, ft, s, rows, t, Opened());
    var j: JsonVal;
    j, rows', t' := ImportRoot(pf, ft, s, rows, t);
    var out := ImportJson(pf, Opened(), Export(ft, s, rows, t, []).value);
    forall p
      ensures Get(out.store, p) == Get(s, p)
    {
      GetSpec(s, rows, t, p);
      GetSpec(out.store, rows', t', p);
      SameRead(t, t', p);
    }
  }

  lemma {:induction false} SameRead(t: NsTree, u: NsTree, p: Path)
    requires Copied(t, t.live.Keys, u)
    ensures GetAbs(u, p) == GetAbs(t, p)
  {
  }
}
