/** The versioned binary encoding of values, as functions. */
module Codec {
  import opened ByteStrings
  import opened Utf8
  import opened Orders
  import opened Strings
  import opened Values

  const VERSION: byte := 1
  const TAG_NULL: byte := 0x00
  const TAG_BOOL: byte := 0x01
  const TAG_INT: byte := 0x02
  const TAG_FLOAT: byte := 0x03
  const TAG_STRING: byte := 0x04
  const TAG_BYTES: byte := 0x05
  const TAG_HASH: byte := 0x10
  const TAG_SET: byte := 0x11
  const TAG_LIST: byte := 0x12
  const TAG_TREE: byte := 0x13

  datatype CodecError =
    | EmptyInput
    | UnsupportedVersion(version: byte)
    | UnexpectedEof
    | UnknownTag(tag: byte)
    | InvalidUtf8
    | InvalidBool(raw: byte)
    | TrailingBytes
    | DuplicateSetMember

  // ----- encoding -----

  function ScalarPayload(s: Scalar): Bytes {
    match s
    case Null => [TAG_NULL]
    case Bool(b) => [TAG_BOOL, if b then 1 else 0]
    case Int(n) => [TAG_INT] + Le(Unsigned(n), 8)
    case Float(bits) => [TAG_FLOAT] + Le(bits, 8)
    case Str(s) => [TAG_STRING] + Blob(ToUtf8(s))
    case Bin(b) => [TAG_BYTES] + Blob(b)
  }

  function Payload(v: Value): Bytes
    decreases v, 1
  {
    match v
    case Leaf(s) => ScalarPayload(s)
    case Hash(fs) => [TAG_HASH] + Le32(|fs|) + FieldsPayload(fs)
    case Set(ms) =>
      var encoded := SortUnique(Less, Payloads(ms));
      [TAG_SET] + Le32(|encoded|) + Concat(encoded)
    case List(xs) => [TAG_LIST] + Le32(|xs|) + Concat(Payloads(xs))
    case Tree(es) => [TAG_TREE] + Le32(|es|) + EntriesPayload(es)
  }

  function Payloads(vs: seq<Value>): (r: seq<Bytes>)
    ensures |r| == |vs|
    decreases vs, 0
  {
    if vs == [] then [] else [Payload(vs[0])] + Payloads(vs[1..])
  }

  function FieldsPayload(fs: seq<Pair<string>>): Bytes
    decreases fs, 0
  {
    if fs == [] then []
    else FieldPayload(fs[0]) + FieldsPayload(fs[1..])
  }

  function FieldPayload(f: Pair<string>): Bytes
    decreases f, 2
  {
    Blob(ToUtf8(f.key)) + Payload(f.val)
  }

  function EntriesPayload(es: seq<Pair<Scalar>>): Bytes
    decreases es, 0
  {
    if es == [] then []
    else EntryPayload(es[0]) + EntriesPayload(es[1..])
  }

  function EntryPayload(e: Pair<Scalar>): Bytes
    decreases e, 2
  {
    ScalarPayload(e.key) + Payload(e.val)
  }

  function Encode(v: Value): Bytes {
    [VERSION] + Payload(v)
  }

  // ----- canonical form -----

  function InsertMember(m: Value, ms: seq<Value>): seq<Value> {
    if ms == [] || Less(Payload(m), Payload(ms[0])) then [m] + ms
    else if Payload(ms[0]) == Payload(m) then ms
    else [ms[0]] + InsertMember(m, ms[1..])
  }

  /** Members in order of their payloads, one per payload. */
  function SortMembers(ms: seq<Value>): seq<Value> {
    if ms == [] then [] else InsertMember(ms[0], SortMembers(ms[1..]))
  }

  /** The value with every nested set sorted and deduplicated by payload. */
  function Canon(v: Value): Value
    decreases v, 1
  {
    match v
    case Leaf(_) => v
    case Hash(fs) => Hash(CanonFields(fs))
    case Set(ms) => Set(SortMembers(CanonAll(ms)))
    case List(xs) => List(CanonAll(xs))
    case Tree(es) => Tree(CanonEntries(es))
  }

  function CanonAll(vs: seq<Value>): (r: seq<Value>)
    ensures |r| == |vs|
    decreases vs, 0
  {
    if vs == [] then [] else [Canon(vs[0])] + CanonAll(vs[1..])
  }

  function CanonFields(fs: seq<Pair<string>>): (r: seq<Pair<string>>)
    ensures |r| == |fs|
    decreases fs, 0
  {
    if fs == [] then [] else [CanonField(fs[0])] + CanonFields(fs[1..])
  }

  function CanonField(f: Pair<string>): Pair<string>
    decreases f, 2
  {
    Pair(f.key, Canon(f.val))
  }

  function CanonEntries(es: seq<Pair<Scalar>>): (r: seq<Pair<Scalar>>)
    ensures |r| == |es|
    decreases es, 0
  {
    if es == [] then [] else [CanonEntry(es[0])] + CanonEntries(es[1..])
  }

  function CanonEntry(e: Pair<Scalar>): Pair<Scalar>
    decreases e, 2
  {
    Pair(e.key, Canon(e.val))
  }

  // ----- every length fits the u32 it is cast to -----

  predicate ScalarFits(s: Scalar) {
    match s
    case Str(s) => |ToUtf8(s)| < U32
    case Bin(b) => |b| < U32
    case _ => true
  }

  predicate Fits(v: Value)
    decreases v
  {
    match v
    case Leaf(s) => ScalarFits(s)
    case Hash(fs) => |fs| < U32 && forall i | 0 <= i < |fs| :: |ToUtf8(fs[i].key)| < U32 && Fits(fs[i].val)
    case Set(ms) => |ms| < U32 && forall i | 0 <= i < |ms| :: Fits(ms[i])
    case List(xs) => |xs| < U32 && forall i | 0 <= i < |xs| :: Fits(xs[i])
    case Tree(es) => |es| < U32 && forall i | 0 <= i < |es| :: ScalarFits(es[i].key) && Fits(es[i].val)
  }

  // ----- decoding: each reader returns the value and the rest of the cursor -----

  type Read<T> = Result<(T, Bytes), CodecError>

  function ReadU8(cur: Bytes): (r: Read<byte>)
    ensures r.Ok? ==> |r.value.1| < |cur|
  {
    if cur == [] then Err(UnexpectedEof) else Ok((cur[0], cur[1..]))
  }

  function ReadSlice(cur: Bytes, len: nat): (r: Read<Bytes>)
    ensures r.Ok? ==> |r.value.1| == |cur| - len
  {
    if |cur| < len then Err(UnexpectedEof) else Ok((cur[..len], cur[len..]))
  }

  function ReadU32(cur: Bytes): (r: Read<nat>)
    ensures r.Ok? ==> |r.value.1| < |cur|
  {
    var (b, rest) :- ReadSlice(cur, 4);
    Ok((FromLe(b), rest))
  }

  function ReadU64(cur: Bytes): (r: Read<u64>)
    ensures r.Ok? ==> |r.value.1| < |cur|
  {
    var (b, rest) :- ReadSlice(cur, 8);
    Widths();
    FromLeBound(b);
    Ok((FromLe(b), rest))
  }

  function ReadBlob(cur: Bytes): (r: Read<Bytes>)
    ensures r.Ok? ==> |r.value.1| < |cur|
  {
    var (len, rest) :- ReadU32(cur);
    ReadSlice(rest, len)
  }

  function ReadStr(cur: Bytes): (r: Read<string>)
    ensures r.Ok? ==> |r.value.1| < |cur|
  {
    var (b, rest) :- ReadBlob(cur);
    match FromUtf8(b)
    case None => Err(InvalidUtf8)
    case Some(s) => Ok((s, rest))
  }

  predicate ScalarTag(tag: byte) {
    tag <= TAG_BYTES
  }

  function DecodeScalar(tag: byte, cur: Bytes): (r: Read<Scalar>)
    requires ScalarTag(tag)
    ensures r.Ok? ==> |r.value.1| <= |cur|
  {
    if tag == TAG_NULL then
      Ok((Null, cur))
    else if tag == TAG_BOOL then
      var (b, rest) :- ReadU8(cur);
      if b == 0 then Ok((Bool(false), rest))
      else if b == 1 then Ok((Bool(true), rest))
      else Err(InvalidBool(b))
    else if tag == TAG_INT then
      var (n, rest) :- ReadU64(cur);
      Ok((Int(Signed(n)), rest))
    else if tag == TAG_FLOAT then
      var (bits, rest) :- ReadU64(cur);
      Ok((Float(bits), rest))
    else if tag == TAG_STRING then
      var (s, rest) :- ReadStr(cur);
      Ok((Str(s), rest))
    else
      var (b, rest) :- ReadBlob(cur);
      Ok((Bin(b), rest))
  }

  function DecodeValue(cur: Bytes): (r: Read<Value>)
    ensures r.Ok? ==> |r.value.1| < |cur|
    decreases |cur|, 0
  {
    var (tag, rest) :- ReadU8(cur);
    if ScalarTag(tag) then
      var (x, rest) :- DecodeScalar(tag, rest);
      Ok((Leaf(x), rest))
    else if tag in {TAG_HASH, TAG_SET, TAG_LIST, TAG_TREE} then
      var (n, rest) :- ReadU32(rest);
      DecodeMany(tag, n, rest)
    else
      Err(UnknownTag(tag))
  }

  /** The structures: `n` members, each by its own loop. */
  function DecodeMany(tag: byte, n: nat, cur: Bytes): (r: Read<Value>)
    ensures r.Ok? ==> |r.value.1| <= |cur|
    decreases |cur|, 2
  {
    if tag == TAG_HASH then
      var (fs, rest) :- DecodeFields(n, cur, []);
      Ok((Hash(fs), rest))
    else if tag == TAG_SET then
      var (ms, rest) :- DecodeMembers(n, cur, []);
      Ok((Set(ms), rest))
    else if tag == TAG_LIST then
      var (xs, rest) :- DecodeItems(n, cur, []);
      Ok((List(xs), rest))
    else
      var (es, rest) :- DecodeEntries(n, cur, []);
      Ok((Tree(es), rest))
  }

  function DecodeItems(n: nat, cur: Bytes, acc: seq<Value>): (r: Read<seq<Value>>)
    ensures r.Ok? ==> |r.value.1| <= |cur|
    decreases |cur|, 1
  {
    if n == 0 then Ok((acc, cur)) else
    var (v, rest) :- DecodeValue(cur);
    DecodeItems(n - 1, rest, acc + [v])
  }

  /** Set members must arrive strictly ascending by payload. */
  function DecodeMembers(n: nat, cur: Bytes, acc: seq<Value>): (r: Read<seq<Value>>)
    ensures r.Ok? ==> |r.value.1| <= |cur|
    decreases |cur|, 1
  {
    if n == 0 then Ok((acc, cur)) else
    var (v, rest) :- DecodeValue(cur);
    if acc != [] && !Less(Payload(acc[|acc| - 1]), Payload(v)) then Err(DuplicateSetMember)
    else DecodeMembers(n - 1, rest, acc + [v])
  }

  function DecodeFields(n: nat, cur: Bytes, acc: seq<Pair<string>>): (r: Read<seq<Pair<string>>>)
    ensures r.Ok? ==> |r.value.1| <= |cur|
    decreases |cur|, 1
  {
    if n == 0 then Ok((acc, cur)) else
    var (k, rest) :- ReadStr(cur);
    var (v, rest) :- DecodeValue(rest);
    DecodeFields(n - 1, rest, Insert(StrLess, acc, k, v))
  }

  /** Tree keys are decoded as whole values and must turn out scalar. */
  function DecodeEntries(n: nat, cur: Bytes, acc: seq<Pair<Scalar>>): (r: Read<seq<Pair<Scalar>>>)
    ensures r.Ok? ==> |r.value.1| <= |cur|
    decreases |cur|, 1
  {
    if n == 0 then Ok((acc, cur)) else
    var (k, rest) :- DecodeValue(cur);
    if !k.Leaf? then Err(UnknownTag(0xff)) else
    var (v, rest) :- DecodeValue(rest);
    DecodeEntries(n - 1, rest, Insert(ScalarLess, acc, k.scalar, v))
  }

  function Decode(b: Bytes): Result<Value, CodecError> {
    if b == [] then Err(EmptyInput)
    else if b[0] != VERSION then Err(UnsupportedVersion(b[0]))
    else
      var (v, rest) :- DecodeValue(b[1..]);
      if rest != [] then Err(TrailingBytes) else Ok(v)
  }
}
