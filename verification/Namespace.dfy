/** The namespace operations as functions over the raw key-value map. */
module Namespace {
  import opened ByteStrings
  import opened Utf8
  import opened Strings
  import opened Values
  import opened Codec
  import opened Storage
  import opened Paths
  import opened Keys

  datatype NsError =
    | PathErr(path: PathError)
    | CodecErr(codec: CodecError)
    | NotFound
    | AlreadyExists
    | NotDirectory
    | IsDirectory
    | ParentMissing
    | TypeMismatch
    | Invalid

  datatype NodeRecord = DirRecord | ValueRecord(enc: Bytes)

  datatype Entry = Directory | ValueEntry(value: Value)

  const DIR_NODE: Bytes := [0]

  function ValueNode(enc: Bytes): Bytes {
    [1] + enc
  }

  function ParseNode(b: Bytes): Result<NodeRecord, NsError> {
    if b == [] then Err(Invalid)
    else if b[0] == 0 then Ok(DirRecord)
    else if b[0] == 1 then Ok(ValueRecord(b[1..]))
    else Err(Invalid)
  }

  function DecodeNs(enc: Bytes): Result<Value, NsError> {
    match Decode(enc)
    case Ok(v) => Ok(v)
    case Err(e) => Err(CodecErr(e))
  }

  function RecordType(rec: NodeRecord): Result<string, NsError> {
    match rec
    case DirRecord => Ok("directory")
    case ValueRecord(enc) =>
      var v :- DecodeNs(enc);
      Ok(TypeName(v))
  }

  // ----- lookups -----

  /** Follow child rows from `id`. */
  function Descend(s: Store, id: u64, segs: Path): Result<u64, NsError>
    decreases segs
  {
    if segs == [] then Ok(id)
    else if ChildKey(id, segs[0]) !in s then Err(NotFound)
    else match DecodeId(s[ChildKey(id, segs[0])])
      case None => Err(Invalid)
      case Some(next) => Descend(s, next, segs[1..])
  }

  function NodeAt(s: Store, id: u64): Result<NodeRecord, NsError> {
    if NodeKey(id) !in s then Err(NotFound) else ParseNode(s[NodeKey(id)])
  }

  function Resolve(s: Store, p: Path): Result<(u64, NodeRecord), NsError> {
    var id :- Descend(s, ROOT, p);
    var rec :- NodeAt(s, id);
    Ok((id, rec))
  }

  function Exists(s: Store, p: Path): Result<bool, NsError> {
    match Resolve(s, p)
    case Ok(_) => Ok(true)
    case Err(NotFound) => Ok(false)
    case Err(e) => Err(e)
  }

  function Get(s: Store, p: Path): Result<Entry, NsError> {
    var (_, rec) :- Resolve(s, p);
    match rec
    case DirRecord => Ok(Directory)
    case ValueRecord(enc) =>
      var v :- DecodeNs(enc);
      Ok(ValueEntry(v))
  }

  function NextId(s: Store): Result<u64, NsError> {
    if META_NEXT_ID !in s then Err(Invalid)
    else match DecodeId(s[META_NEXT_ID])
      case None => Err(Invalid)
      case Some(id) => Ok(id)
  }

  // ----- mutations: each computes the batch it commits -----

  type Batch = seq<BatchOp>

  function ResolveParent(s: Store, p: Path): Result<u64, NsError>
    requires p != []
  {
    match Resolve(s, Parent(p))
    case Err(NotFound) => Err(ParentMissing)
    case Err(e) => Err(e)
    case Ok((id, rec)) => if rec.DirRecord? then Ok(id) else Err(NotDirectory)
  }

  /** The four rows of a new node; the id counter wraps at 2^64 as `u64` does. */
  function NewNode(s: Store, parent: u64, p: Path, node: Bytes, ty: string): Result<Batch, NsError>
    requires p != []
  {
    var id :- NextId(s);
    Ok([Put(META_NEXT_ID, EncodeId(id + 1)),
        Put(NodeKey(id), node),
        Put(ChildKey(parent, Name(p)), EncodeId(id)),
        Put(TypeKey(ty, id), ToUtf8(AsStr(p)))])
  }

  function Mkdir(s: Store, p: Path): Result<Batch, NsError> {
    if p == [] then Ok([]) else
    var exists' :- Exists(s, p);
    if exists' then Err(AlreadyExists) else
    var parent :- ResolveParent(s, p);
    NewNode(s, parent, p, DIR_NODE, "directory")
  }

  function SetValue(s: Store, p: Path, value: Value): Result<Batch, NsError> {
    if p == [] then Err(Invalid) else
    var parent :- ResolveParent(s, p);
    if ChildKey(parent, Name(p)) !in s then
      NewNode(s, parent, p, ValueNode(Encode(value)), TypeName(value))
    else match DecodeId(s[ChildKey(parent, Name(p))])
      case None => Err(Invalid)
      case Some(id) => Overwrite(s, id, p, value)
  }

  function Overwrite(s: Store, id: u64, p: Path, value: Value): Result<Batch, NsError> {
    if NodeKey(id) !in s then Err(Invalid) else
    var rec :- ParseNode(s[NodeKey(id)]);
    match rec
    case DirRecord => Err(IsDirectory)
    case ValueRecord(enc) =>
      var prev :- DecodeNs(enc);
      Ok((if TypeName(prev) != TypeName(value) then [Delete(TypeKey(TypeName(prev), id))] else [])
         + [Put(NodeKey(id), ValueNode(Encode(value))),
            Put(TypeKey(TypeName(value), id), ToUtf8(AsStr(p)))])
  }

  predicate HasChildren(s: Store, id: u64) {
    exists k | k in s :: StartsWith(k, ChildPrefix(id))
  }

  function Remove(s: Store, p: Path): Result<Batch, NsError> {
    if p == [] then Err(Invalid) else
    var (id, rec) :- Resolve(s, p);
    if rec.DirRecord? && HasChildren(s, id) then Err(Invalid) else
    var (parent, _) :- Resolve(s, Parent(p));
    var ty :- RecordType(rec);
    Ok([Delete(TypeKey(ty, id)), Delete(ChildKey(parent, Name(p))), Delete(NodeKey(id))])
  }

  /** One mutation, direct or inside a transaction. */
  datatype Op =
    | MkdirOp(path: Path)
    | SetOp(path: Path, value: Value)
    | DeleteOp(path: Path)
    | HashSet(path: Path, field: string, value: Value)
    | ListPush(path: Path, value: Value)
    | SetAdd(path: Path, value: Value)
    | TreeSet(path: Path, key: Scalar, value: Value)

  /** `set_add` compares members by payload. */
  function AddMember(ms: seq<Value>, v: Value): seq<Value> {
    if exists i | 0 <= i < |ms| :: Payload(ms[i]) == Payload(v) then ms else ms + [v]
  }

  /** The structure a structure operation writes back, given what `get` returned. */
  function Updated(got: Result<Entry, NsError>, op: Op): Result<Value, NsError>
    requires op.HashSet? || op.ListPush? || op.SetAdd? || op.TreeSet?
  {
    match got
    case Err(NotFound) =>
      (match op
       case HashSet(_, k, v) => Ok(Hash([Pair(k, v)]))
       case ListPush(_, v) => Ok(List([v]))
       case SetAdd(_, v) => Ok(Value.Set([v]))
       case TreeSet(_, k, v) => Ok(Tree([Pair(k, v)])))
    case Err(e) => Err(e)
    case Ok(Directory) => Err(IsDirectory)
    case Ok(ValueEntry(prev)) =>
      (match (op, prev)
       case (HashSet(_, k, v), Hash(m)) => Ok(Hash(Insert(StrLess, m, k, v)))
       case (ListPush(_, v), List(xs)) => Ok(List(xs + [v]))
       case (SetAdd(_, v), Set(ms)) => Ok(Value.Set(AddMember(ms, v)))
       case (TreeSet(_, k, v), Tree(m)) => Ok(Tree(Insert(ScalarLess, m, k, v)))
       case _ => Err(TypeMismatch))
  }

  function OpBatch(s: Store, op: Op): Result<Batch, NsError> {
    match op
    case MkdirOp(p) => Mkdir(s, p)
    case SetOp(p, v) => SetValue(s, p, v)
    case DeleteOp(p) => Remove(s, p)
    case _ =>
      var v :- Updated(Get(s, op.path), op);
      SetValue(s, op.path, v)
  }

  function Step(s: Store, op: Op): Result<Store, NsError> {
    var batch :- OpBatch(s, op);
    Ok(ApplyOps(s, batch))
  }

  // ----- reading -----

  /** One child per row, in key order; `list` sorts them by name, which changes nothing. */
  function ListRows(s: Store, prefix: nat, rows: seq<Row>): Result<seq<(string, bool)>, NsError>
    requires forall i | 0 <= i < |rows| :: prefix <= |rows[i].0|
  {
    if rows == [] then Ok([]) else
    match FromUtf8(rows[0].0[prefix..])
    case None => Err(Invalid)
    case Some(name) =>
      match DecodeId(rows[0].1)
      case None => Err(Invalid)
      case Some(id) =>
        if NodeKey(id) !in s then Err(Invalid) else
        var rec :- ParseNode(s[NodeKey(id)]);
        var rest :- ListRows(s, prefix, rows[1..]);
        Ok([(name, rec.DirRecord?)] + rest)
  }

  /** The path held by an index row. */
  function RowPath(r: Row): Result<Path, NsError> {
    match FromUtf8(r.1)
    case None => Err(Invalid)
    case Some(str) =>
      match Parse(str)
      case Err(e) => Err(PathErr(e))
      case Ok(p) => Ok(p)
  }
}
