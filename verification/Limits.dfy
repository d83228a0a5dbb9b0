/** Where the promises stop, at concrete inputs. */
module Limits {
  import opened ByteStrings
  import opened Utf8
  import opened Values
  import opened Codec
  import opened CodecTheorems
  import opened Storage
  import opened Paths
  import opened Keys
  import opened Namespace
  import opened TreeModel
  import opened Steps
  import opened Refinement
  import opened Runs
  import opened Listing
  import opened Walking
  import opened Query
  import opened Databases
  import opened Numbers
  import opened Json
  import opened JsonProofs
  import opened JsonValues
  import opened Transfer
  import opened TransferProofs
  import opened TransferLimits

  // ----- a name with a NUL, which `join` accepts and `parse` refuses -----

  const NUL_NAME: Path := ["\0"]

  lemma {:induction false} NulDirectory() returns (rows: Rows, t: NsTree)
    ensures Join([], "\0") == Ok(NUL_NAME)
    ensures Step(Opened(), MkdirOp(NUL_NAME)).Ok?
    ensures Represents(Step(Opened(), MkdirOp(NUL_NAME)).value, rows, t)
    ensures NUL_NAME in t.live && Readable(t, t.live.Keys)
    ensures forall p | p in t.live :: t.live[p].node.Dir?
  {
    hide Flat, Mirrors, Mkdir, ApplyOps, Opened;
    var rows0 := OpenedRepresents();
    assert SegmentOk("\0") && PathOk(NUL_NAME) && [] + ["\0"] == NUL_NAME;
    assert Parent(NUL_NAME) == [];
    rows := StepRefines(Opened(), rows0, FRESH_TREE, MkdirOp(NUL_NAME));
    t := StepAbs(FRESH_TREE, MkdirOp(NUL_NAME)).value;
    assert t == AddNode(FRESH_TREE, NUL_NAME, Dir);
    forall p | p in t.live
      ensures GetAbs(t, p).Ok?
    {
      assert t.live[p].node.Dir?;
    }
  }

  /**
   * One directory with a NUL in its name and the query for directories fails, though the
   * full scan for the same expression succeeds and finds it.
   */
  lemma {:induction false} NulBreaksIndex() returns (rows: Rows, t: NsTree)
    ensures var s, expr := Step(Opened(), MkdirOp(NUL_NAME)), Pred(TypeIs("directory"));
            && s.Ok? && Represents(s.value, rows, t)
            && Execute(s.value, rows, t, expr).Err?
            && FullScan(s.value, rows, t, expr).Ok?
            && Hit(NUL_NAME, "directory") in FullScan(s.value, rows, t, expr).value
  {
    hide Represents, Step, Opened, Execute, FullScan, Readable, Selected;
    rows, t := NulDirectory();
    var s, expr := Step(Opened(), MkdirOp(NUL_NAME)).value, Pred(TypeIs("directory"));
    SelectedExact(t, "directory", NUL_NAME);
    assert Selected(t, "directory", NUL_NAME) && !NoNul(NUL_NAME) by {
      assert NUL_NAME[0] in NUL_NAME;
    }
    IndexPlanSpec(s, rows, t, expr, "directory");
    FullScanSpec(s, rows, t, expr);
    assert GetAbs(t, NUL_NAME) == Ok(Directory) && EvalExpr(expr, NUL_NAME, Directory);
    assert HitOf(t, expr, Hit(NUL_NAME, "directory"));
  }

  /** Without values the printing of floats plays no part. */
  lemma {:induction false} DirsExportAlike(ft: FloatText, ft': FloatText, s: Store, rows: Rows, t: NsTree, p: Path)
    requires Represents(s, rows, t) && p in t.live && forall q | q in t.live :: t.live[q].node.Dir?
    ensures Export(ft, s, rows, t, p) == Export(ft', s, rows, t, p)
    decreases t.next - t.live[p].id, 1, 0
  {
    hide Flat, Mirrors, ListDir, Get, ExportAll, Wrapped, JoinWith;
    GetSpec(s, rows, t, p);
    DirGet(t, p);
    ListSpec(s, rows, t, p);
    AllExportAlike(ft, ft', s, rows, t, p, ListDir(s, p).value);
  }

  lemma {:induction false} AllExportAlike(ft: FloatText, ft': FloatText, s: Store, rows: Rows, t: NsTree, p: Path,
      names: seq<Child>)
    requires Represents(s, rows, t) && p in t.live && forall q | q in t.live :: t.live[q].node.Dir?
    requires forall c | c in names :: ChildOf(t, p, c)
    ensures ExportAll(ft, s, rows, t, p, names) == ExportAll(ft', s, rows, t, p, names)
    decreases t.next - t.live[p].id, 0, |names|
  {
    hide Flat, Mirrors, WellFormedTree, Export, Member;
    if names != [] {
      ChildBelow(t, p, names[0]);
      DirsExportAlike(ft, ft', s, rows, t, p + [names[0].0]);
      AllExportAlike(ft, ft', s, rows, t, p, names[1..]);
    }
  }

  const NO_FLOATS: FloatText := FloatText(_ => false, _ => "")

  /** Its export cannot be imported: at the root a name is parsed as a path. */
  lemma {:induction false} NulExportFails(pf: FloatParser, ft: FloatText) returns (rows: Rows, t: NsTree)
    ensures var s := Step(Opened(), MkdirOp(NUL_NAME));
            && s.Ok? && Represents(s.value, rows, t) && Export(ft, s.value, rows, t, []).Ok?
            && ImportJson(pf, Opened(), Export(ft, s.value, rows, t, []).value).error.Some?
  {
    hide Flat, Mirrors, Step, Opened, Export, ImportJson, ImportNode, NodeJson, GetAbs, Readable;
    rows, t := NulDirectory();
    var s := Step(Opened(), MkdirOp(NUL_NAME)).value;
    DirsExportAlike(ft, NO_FLOATS, s, rows, t, []);
    ExportText(pf, NO_FLOATS, s, rows, t, Opened());
    var j := NodeJson(pf, NO_FLOATS, s, rows, t, []);
    if j.Some? {
      NulNameFails(pf, NO_FLOATS, s, rows, t, NUL_NAME, Opened(), j.value);
    }
  }

  // ----- a tree key, and floats, that come back as another kind -----

  const A: Path := ["a"]
  const NULL_KEY: Value := Tree([Pair(Str("null"), Leaf(Null))])

  /** The key "null" comes back as the null key. */
  lemma {:induction false} KeyChangesKind(pf: FloatParser, ft: FloatText)
    ensures WellFormed(NULL_KEY) && !Survives(pf, ft, NULL_KEY)
    ensures ValueJson(pf, ft, NULL_KEY) == Some(JObj([Field("__tree", JObj([Field("null", JNull)]))]))
    ensures ToValue(pf, JObj([Field("__tree", JObj([Field("null", JNull)]))])) == Ok(Tree([Pair(Null, Leaf(Null))]))
  {
    var fields := [Field("null", JNull)];
    var slots := [Slot("null", Some(JNull))];
    assert EntrySlots(pf, ft, NULL_KEY.entries) == slots;
    assert slots[1..] == [];
    NoSlots();
    FilledJoin(slots, JNull, []);
    assert fields + [] == fields;
    assert fields[1..] == [];
    assert FieldValue(pf, fields[0]) == Ok(Leaf(Null)) && ParseKey(pf, "null") == Ok(Null);
    InsertEmpty(ScalarLess, Null, Leaf(Null));
    assert ToEntries(pf, fields[1..], [Pair(Null, Leaf(Null))]) == Ok([Pair(Null, Leaf(Null))]);
    TreeForm(pf, fields, [Pair(Null, Leaf(Null))]);
  }

  /** What any float comes back as, or that its text cannot be read. */
  lemma {:induction false} FloatOutcome(pf: FloatParser, ft: FloatText, bits: u64)
    requires Decimal(ft)
    ensures var json := ParseJson(pf, ValueText(ft, Leaf(Float(bits))));
            var text := ft.show(bits);
            if !ft.finite(bits) then
              json.Ok? && ToValue(pf, json.value) == Ok(Leaf(Str("float:" + NatText(bits))))
            else if '.' in text then
              if pf(text).None? then json.Err?
              else json.Ok? && ToValue(pf, json.value) == Ok(Leaf(Float(pf(text).value)))
            else
              if ParseI64(text).None? then json.Err?
              else json.Ok? && ToValue(pf, json.value) == Ok(Leaf(Int(ParseI64(text).value)))
  {
    hide ParseJson, Reads, NatText, ParseI64, Decimal;
    ScalarReads(pf, ft, Float(bits));
    ReadWhole(pf, ScalarText(ft, Float(bits)), ScalarJson(pf, ft, Float(bits)));
  }

  lemma {:induction false} NoPoint(n: int)
    ensures '.' !in IntText(n)
  {
    hide IntText;
    IntShape(n);
    var s := IntText(n);
    assert forall i | 0 <= i < |s| :: s[i] != '.';
  }

  /**
   * `Display` prints a float with an integral value as an integer: it comes back as that
   * integer if this is one of 64 bits, and otherwise cannot be read.
   */
  lemma {:induction false} IntegralChanges(pf: FloatParser, ft: FloatText, bits: u64, n: int)
    requires Decimal(ft) && ft.finite(bits) && ft.show(bits) == IntText(n)
    ensures var json := ParseJson(pf, ValueText(ft, Leaf(Float(bits))));
            if 0 <= n + I64 && n < I64 then json.Ok? && ToValue(pf, json.value) == Ok(Leaf(Int(n))) else json.Err?
  {
    hide ParseJson, IntText, ParseI64, ToValue, ValueText, Decimal;
    FloatOutcome(pf, ft, bits);
    NoPoint(n);
    if 0 <= n + I64 && n < I64 {
      ParseIntText(n);
    } else {
      ParseBeyond(n);
    }
  }

  /** Negative zero, printed as "-0", comes back as the integer zero. */
  lemma {:induction false} MinusZeroChanges(pf: FloatParser, ft: FloatText, bits: u64)
    requires Decimal(ft) && ft.finite(bits) && ft.show(bits) == "-0"
    ensures var json := ParseJson(pf, ValueText(ft, Leaf(Float(bits))));
            json.Ok? && ToValue(pf, json.value) == Ok(Leaf(Int(0)))
  {
    hide ParseJson, ToValue, ValueText, Decimal;
    FloatOutcome(pf, ft, bits);
    assert "-0"[1..] == "0" && NatValue("0") == 0;
    assert ParseI64("-0") == Some(0);
  }

  /** One value of 1e19, printed in twenty digits, and nothing of the export can be imported. */
  lemma {:induction false} LargeFloatFails(pf: FloatParser, ft: FloatText, bits: u64) returns (rows: Rows, t: NsTree)
    requires Decimal(ft) && ft.finite(bits) && ft.show(bits) == IntText(10_000_000_000_000_000_000)
    ensures var s := Step(Opened(), SetOp(A, Leaf(Float(bits))));
            && s.Ok? && Represents(s.value, rows, t) && Export(ft, s.value, rows, t, []).Ok?
            && ImportJson(pf, Opened(), Export(ft, s.value, rows, t, []).value).error.Some?
  {
    hide Flat, Mirrors, WellFormedTree, SetValue, ApplyOps, Opened, Export, ImportJson, Readable, GetAbs, Decimal,
         IntText, ParseI64, ValueJson, Stored;
    var v := Leaf(Float(bits));
    var rows0 := OpenedRepresents();
    assert SegmentOk("a") && PathOk(A) && Parent(A) == [];
    rows := StepRefines(Opened(), rows0, FRESH_TREE, SetOp(A, v));
    t := AddNode(FRESH_TREE, A, Val(v));
    assert StepAbs(FRESH_TREE, SetOp(A, v)) == Ok(t);
    var s := Step(Opened(), SetOp(A, v)).value;
    FloatNode(t, bits);
    LargeIllegible(pf, ft, bits);
    IllegibleFails(pf, ft, s, rows, t, A, Opened());
  }

  lemma {:induction false} LargeIllegible(pf: FloatParser, ft: FloatText, bits: u64)
    requires ft.finite(bits) && ft.show(bits) == IntText(10_000_000_000_000_000_000)
    ensures ValueJson(pf, ft, Leaf(Float(bits))) == None
  {
    hide IntText, ParseI64;
    NoPoint(10_000_000_000_000_000_000);
    ParseBeyond(10_000_000_000_000_000_000);
  }

  lemma {:induction false} FloatNode(t: NsTree, bits: u64)
    requires t.live.Keys == {[], A} && t.live[[]].node.Dir? && t.live[A].node == Val(Leaf(Float(bits)))
    ensures GetAbs(t, A) == Ok(ValueEntry(Leaf(Float(bits)))) && Readable(t, t.live.Keys)
  {
    hide Decode, Encode;
    DirGet(t, []);
    RoundTripIff(Leaf(Float(bits)));
  }

  // ----- a type name with a slash -----

  const ZERO: Value := Leaf(Int(0))
  const SLASHED: string := "int/\0\0\0\0\0\0"

  /** Make and delete one directory, `k` times: each time takes an id. */
  function Cycles(k: nat): seq<Action> {
    if k == 0 then [] else [Direct(MkdirOp(A)), Direct(DeleteOp(A))] + Cycles(k - 1)
  }

  function Emptied(k: nat): NsTree
    requires k + 4 < U64
  {
    FRESH_TREE.(next := 2 + k)
  }

  lemma {:induction false} OneCycle(s: Store, rows: Rows, k: nat) returns (rows': Rows)
    requires k + 5 < U64 && Represents(s, rows, Emptied(k))
    ensures Represents(Perform(Perform(s, Direct(MkdirOp(A))), Direct(DeleteOp(A))), rows', Emptied(k + 1))
  {
    hide Flat, Mirrors, Mkdir, Remove, ApplyOps, WellFormedTree;
    var t := Emptied(k);
    assert SegmentOk("a") && PathOk(A) && Parent(A) == [];
    rows' := StepRefines(s, rows, t, MkdirOp(A));
    var u := AddNode(t, A, Dir);
    assert StepAbs(t, MkdirOp(A)) == Ok(u);
    rows' := StepRefines(Perform(s, Direct(MkdirOp(A))), rows', u, DeleteOp(A));
    assert !HasChildrenAbs(u, A);
    assert RemoveNode(u, A) == Emptied(k + 1);
  }

  lemma {:induction false} CyclesRun(s: Store, rows: Rows, j: nat, k: nat) returns (rows': Rows)
    requires j + k + 5 < U64 && Represents(s, rows, Emptied(j))
    ensures Represents(Run(s, Cycles(k)), rows', Emptied(j + k))
    decreases k
  {
    hide Represents, Perform, Emptied;
    rows' := rows;
    if k > 0 {
      rows' := OneCycle(s, rows, j);
      var s' := Perform(Perform(s, Direct(MkdirOp(A))), Direct(DeleteOp(A)));
      rows' := CyclesRun(s', rows', j + 1, k - 1);
      assert Cycles(k)[1..][1..] == Cycles(k - 1);
    }
  }

  lemma {:induction false} SlashInId()
    ensures Be(0x2f00, 8) == [0, 0, 0, 0, 0, 0, 0x2f, 0]
  {
    assert Be(0, 6) == [0, 0, 0, 0, 0, 0] by {
      assert Be(0, 3) == [0, 0, 0];
    }
    assert Be(0x2f, 7) == Be(0, 6) + [0x2f];
  }

  lemma {:induction false} SlashedContinues()
    ensures ContinuesTo("int", 0x2f00, SLASHED)
  {
    hide ToUtf8, Be;
    SlashInId();
    assert Be(0x2f00, 8)[6] == SLASH && Be(0x2f00, 8)[..6] == [0, 0, 0, 0, 0, 0];
    SlashedBytes();
  }

  lemma {:induction false} SlashedBytes()
    ensures ToUtf8(SLASHED) == ToUtf8("int") + [SLASH] + [0, 0, 0, 0, 0, 0]
  {
    hide ToUtf8;
    assert SLASHED == "int" + "/" + "\0\0\0\0\0\0";
    ToUtf8Concat("int" + "/", "\0\0\0\0\0\0");
    ToUtf8Concat("int", "/");
    SixZeros();
    OneSlash();
  }

  lemma {:induction false} OneSlash()
    ensures ToUtf8("/") == [SLASH]
  {
  }

  lemma {:induction false} SixZeros()
    ensures ToUtf8("\0\0\0\0\0\0") == [0, 0, 0, 0, 0, 0]
  {
    assert ToUtf8("\0\0\0") == [0, 0, 0];
    assert "\0\0\0\0\0\0" == "\0\0\0" + "\0\0\0";
    ToUtf8Concat("\0\0\0", "\0\0\0");
  }

  /** A run after which asking for a type that no value has answers with an int. */
  lemma {:induction false} SlashedTypeFound() returns (rows: Rows, t: NsTree)
    ensures var s := Step(Run(Opened(), Cycles(0x2efe)), SetOp(A, ZERO));
            && s.Ok? && Represents(s.value, rows, t)
            && A in t.live && TypeOf(t.live[A].node) == "int"
            && PathsWithType(s.value, SLASHED).Ok? && A in PathsWithType(s.value, SLASHED).value
  {
    hide Flat, Mirrors, WellFormedTree, SetValue, ApplyOps, Opened, Run, Cycles, PathsWithType, ContinuesTo, Selected;
    rows := OpenedRepresents();
    rows := CyclesRun(Opened(), rows, 0, 0x2efe);
    var s0 := Run(Opened(), Cycles(0x2efe));
    var t0 := Emptied(0x2efe);
    assert SegmentOk("a") && PathOk(A) && Parent(A) == [];
    rows := StepRefines(s0, rows, t0, SetOp(A, ZERO));
    t := AddNode(t0, A, Val(ZERO));
    assert StepAbs(t0, SetOp(A, ZERO)) == Ok(t);
    var s := Step(s0, SetOp(A, ZERO)).value;
    SlashedContinues();
    SelectedIff(t, SLASHED, A);
    NulFreeNames(t, SLASHED);
    PathsWithTypeSpec(s, rows, t, SLASHED);
  }

  lemma {:induction false} NulFreeNames(t: NsTree, ty: string)
    requires t.live.Keys == {[], A}
    ensures forall p | Selected(t, ty, p) :: NoNul(p)
  {
    hide TypeKey, TypePrefix, StartsWith;
    forall p | Selected(t, ty, p)
      ensures NoNul(p)
    {
      assert p in t.live.Keys;
    }
  }

  // ----- mkdir inside a transaction -----

  lemma {:induction false} DescendErrors(s: Store, id: u64, segs: Path)
    ensures Descend(s, id, segs).Err? ==> Descend(s, id, segs).error in {NotFound, Invalid}
    decreases segs
  {
    if segs != [] && ChildKey(id, segs[0]) in s && DecodeId(s[ChildKey(id, segs[0])]).Some? {
      DescendErrors(s, DecodeId(s[ChildKey(id, segs[0])]).value, segs[1..]);
    }
  }

  lemma {:induction false} ResolveErrors(s: Store, p: Path)
    ensures Resolve(s, p).Err? ==> Resolve(s, p).error in {NotFound, Invalid}
  {
    DescendErrors(s, ROOT, p);
  }

  /**
   * On any store, `mkdir` in a transaction and outside agree unless the path runs into a
   * malformed row, which the transaction passes over, and everything else it needs is sound.
   */
  lemma {:induction false} MkdirAgreesIff(s: Store, p: Path)
    ensures MkdirTxn(s, p) == Mkdir(s, p) <==>
            || p == []
            || Resolve(s, p) != Err(Invalid)
            || ResolveParent(s, p) == Err(Invalid)
            || (ResolveParent(s, p).Ok? && NextId(s).Err?)
  {
    hide Resolve, NextId, NodeKey, ChildKey, TypeKey, EncodeId, ToUtf8, AsStr, ResolveParent;
    ResolveErrors(s, p);
    NextIdErrors(s);
  }

  lemma {:induction false} NextIdErrors(s: Store)
    ensures NextId(s).Err? ==> NextId(s) == Err(Invalid)
  {
  }

  const X: Path := ["x"]

  /** A directory whose child row for "x" holds no id. */
  function Malformed(): Store {
    var root: Store := map[];
    root[NodeKey(ROOT) := DIR_NODE][META_NEXT_ID := EncodeId(2)][ChildKey(ROOT, "x") := []]
  }

  /** There the direct operation reports the damage and the transaction replaces the row. */
  lemma {:induction false} MkdirDiffers()
    ensures Mkdir(Malformed(), X) == Err(Invalid)
    ensures MkdirTxn(Malformed(), X).Ok?
    ensures Resolve(ApplyOps(Malformed(), MkdirTxn(Malformed(), X).value), X) == Ok((2, DirRecord))
  {
    hide NodeKey, ChildKey, TypeKey, EncodeId, ToUtf8, AsStr, DecodeId;
    MalformedRows();
    var s := Malformed();
    assert DecodeId([]) == None by { NoId(); }
    assert Descend(s, ROOT, X) == Err(Invalid);
    assert Parent(X) == [] && Name(X) == "x";
    assert Resolve(s, []) == Ok((ROOT, DirRecord));
    IdRoundTrip(2);
    assert NextId(s) == Ok(2);
    MadeResolves(s);
  }

  lemma {:induction false} NoId()
    ensures DecodeId([]) == None
  {
  }

  lemma {:induction false} MalformedRows()
    ensures var s := Malformed();
            && NodeKey(ROOT) in s && s[NodeKey(ROOT)] == DIR_NODE
            && META_NEXT_ID in s && s[META_NEXT_ID] == EncodeId(2)
            && ChildKey(ROOT, "x") in s && s[ChildKey(ROOT, "x")] == []
  {
    EncHead(KNode(ROOT));
    EncHead(KNext);
    EncHead(KChild(ROOT, "x"));
  }

  lemma {:induction false} MadeResolves(s: Store)
    requires NewNode(s, ROOT, X, DIR_NODE, "directory").Ok? && NextId(s) == Ok(2)
    ensures Resolve(ApplyOps(s, NewNode(s, ROOT, X, DIR_NODE, "directory").value), X) == Ok((2, DirRecord))
  {
    hide NodeKey, ChildKey, TypeKey, EncodeId, ToUtf8, AsStr, DecodeId, NextId;
    var ops := NewNode(s, ROOT, X, DIR_NODE, "directory").value;
    var s' := ApplyOps(s, ops);
    assert Name(X) == "x";
    Apply4(s, Put(META_NEXT_ID, EncodeId(3)), Put(NodeKey(2), DIR_NODE), Put(ChildKey(ROOT, "x"), EncodeId(2)),
           Put(TypeKey("directory", 2), ToUtf8(AsStr(X))));
    DistinctKeys();
    IdRoundTrip(2);
    assert X[1..] == [];
    assert Descend(s', ROOT, X) == Descend(s', 2, []);
  }

  lemma {:induction false} DistinctKeys()
    ensures NodeKey(2) != ChildKey(ROOT, "x") && NodeKey(2) != TypeKey("directory", 2)
    ensures ChildKey(ROOT, "x") != TypeKey("directory", 2)
  {
    EncHead(KNode(2));
    EncHead(KChild(ROOT, "x"));
    EncHead(KType("directory", 2));
  }

  // ----- the repair of a lost id counter -----

  ghost predicate HoldsTree(s: Store) {
    exists rows: Rows, t: NsTree :: Represents(s, rows, t)
  }

  lemma {:induction false} IdsBelowCounter(s: Store, rows: Rows, t: NsTree, id: u64, next: u64)
    requires Represents(s, rows, t) && NodeKey(id) in s
    requires META_NEXT_ID in s && s[META_NEXT_ID] == EncodeId(next)
    ensures id < next
  {
    assert Enc(KNode(id)) == NodeKey(id) && Enc(KNext) == META_NEXT_ID;
    RowGet(s, rows, KNode(id));
    RowGet(s, rows, KNext);
    assert RowAgrees(rows, t, KNode(id)) && RowAgrees(rows, t, KNext);
    BeInjective(t.next, next);
  }

  lemma {:induction false} RestartedMirrors(rows: Rows, t: NsTree)
    requires WellFormedTree(t) && Mirrors(rows, t) && t.live.Keys == {[]}
    ensures WellFormedTree(t.(next := 2)) && Mirrors(rows[KNext := EncodeId(2)], t.(next := 2))
  {
    var rows', t' := rows[KNext := EncodeId(2)], t.(next := 2);
    forall k: Key
      ensures RowAgrees(rows', t', k)
    {
      assert RowAgrees(rows, t, k);
    }
  }

  /**
   * Opening restarts a lost counter at 2, whatever ids are taken. That gives a good store
   * if and only if the root was all there is.
   */
  lemma {:induction false} CounterRepairIff(s: Store, rows: Rows, t: NsTree)
    requires Represents(s, rows, t)
    ensures HoldsTree(Repaired(s - {META_NEXT_ID})) <==> t.live.Keys == {[]}
  {
    hide Flat, Mirrors, WellFormedTree, NodeKey, EncodeId;
    var s' := Repaired(s - {META_NEXT_ID});
    RepairedRows(s, rows, t);
    if HoldsTree(s') {
      var rows', t' :| Represents(s', rows', t');
      forall p | p in t.live
        ensures p == []
      {
        NodeRow(s, rows, t, p);
        OtherThanCounter(t.live[p].id);
        IdsBelowCounter(s', rows', t', t.live[p].id, 2);
        OnlyRootBelow2(t, p);
      }
      RootLive(t);
    }
    if t.live.Keys == {[]} {
      RestartedMirrors(rows, t);
      FlatPut(s, rows, KNext, EncodeId(2));
      assert Represents(s', rows[KNext := EncodeId(2)], t.(next := 2));
    }
  }

  lemma {:induction false} OtherThanCounter(id: u64)
    ensures NodeKey(id) != META_NEXT_ID
  {
    EncHead(KNode(id));
    EncHead(KNext);
  }

  lemma {:induction false} RepairedRows(s: Store, rows: Rows, t: NsTree)
    requires Represents(s, rows, t)
    ensures Repaired(s - {META_NEXT_ID}) == s[Enc(KNext) := EncodeId(2)]
  {
    hide Flat, Mirrors, NodeKey, EncodeId;
    RootLive(t);
    NodeRow(s, rows, t, []);
    OtherThanCounter(ROOT);
    assert Enc(KNext) == META_NEXT_ID && ROOT + 1 == 2;
    assert s[META_NEXT_ID := EncodeId(2)] == (s - {META_NEXT_ID})[META_NEXT_ID := EncodeId(2)];
  }

  lemma {:induction false} RootLive(t: NsTree)
    requires WellFormedTree(t)
    ensures [] in t.live && t.live[[]].id == ROOT
  {
  }

  lemma {:induction false} OnlyRootBelow2(t: NsTree, p: Path)
    requires WellFormedTree(t) && p in t.live && t.live[p].id < 2
    ensures p == []
  {
    if p != [] {
      IdPositive(t, Parent(p));
    }
  }
}
