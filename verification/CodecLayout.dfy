/** The binary format byte by byte, and what the decoder makes of bytes that are not an encoding. */
module CodecLayout {
  import opened ByteStrings
  import opened Utf8
  import opened Orders
  import opened Strings
  import opened Values
  import opened Codec
  import opened CodecProofs
  import opened CodecTheorems

  // ----- the layout of every kind of value -----

  /** Two's complement in 64 bits. */
  function Wrapped64(n: i64): nat {
    n % 0x1_0000_0000_0000_0000
  }

  function Text(s: string): Bytes {
    Word32(|ToUtf8(s)|) + ToUtf8(s)
  }

  /** What stands behind the version byte. */
  function Body(v: Value): Bytes {
    Encode(v)[1..]
  }

  function FieldPart(f: Pair<string>): Bytes {
    Text(f.key) + Body(f.val)
  }

  function EntryPart(e: Pair<Scalar>): Bytes {
    Body(Leaf(e.key)) + Body(e.val)
  }

  /** A scalar is its tag and its content. */
  lemma {:induction false} ScalarLayout(x: Scalar)
    ensures Encode(Leaf(x)) ==
            match x
            case Null => [1, 0x00]
            case Bool(b) => [1, 0x01, if b then 1 else 0]
            case Int(n) => [1, 0x02] + Word64(Wrapped64(n))
            case Float(bits) => [1, 0x03] + Word64(bits)
            case Str(s) => [1, 0x04] + Text(s)
            case Bin(b) => [1, 0x05] + (Word32(|b|) + b)
  {
    hide Word32, Le, ToUtf8;
    match x
    case Int(n) =>
      Le8(Unsigned(n));
      assert Unsigned(n) == Wrapped64(n);
    case Float(bits) => Le8(bits);
    case Str(s) => Le4(|ToUtf8(s)|);
    case Bin(b) => Le4(|b|);
    case _ =>
  }

  lemma {:induction false} BodyIsPayload(v: Value)
    ensures Body(v) == Payload(v) && Encode(v) == [1] + Payload(v)
  {
  }

  /** A list is its count and its items in order. */
  lemma {:induction false} ListLayout(xs: seq<Value>)
    ensures Encode(List(xs)) ==
            [1, 0x12] + (Word32(|xs|) + Concat(seq(|xs|, i requires 0 <= i < |xs| => Body(xs[i]))))
  {
    hide Word32, Concat, Body;
    Le4(|xs|);
    forall i | 0 <= i < |xs|
      ensures Payloads(xs)[i] == Body(xs[i])
    {
      PayloadsAt(xs, i);
      BodyIsPayload(xs[i]);
    }
    assert Payloads(xs) == seq(|xs|, i requires 0 <= i < |xs| => Body(xs[i]));
    assert Encode(List(xs)) == [1] + ([0x12] + Le32(|xs|) + Concat(Payloads(xs)));
  }

  /** A set is the count of its distinct members and these in ascending order of their bytes. */
  lemma {:induction false} SetLayout(ms: seq<Value>) returns (parts: seq<Bytes>)
    ensures Ascending(Less, parts) && forall b :: b in parts <==> exists m :: m in ms && b == Body(m)
    ensures Encode(Value.Set(ms)) == [1, 0x11] + (Word32(|parts|) + Concat(parts))
  {
    hide Word32, Concat, Body, Payload, Less;
    parts := SortDedup(Payloads(ms));
    SortDedupSpec(Payloads(ms));
    Le4(|parts|);
    forall b
      ensures b in Payloads(ms) <==> exists m :: m in ms && b == Body(m)
    {
      MemberPart(ms, b);
    }
    SetUnfold(ms);
  }

  lemma {:induction false} SetUnfold(ms: seq<Value>)
    ensures var parts := SortDedup(Payloads(ms));
            Encode(Value.Set(ms)) == [1] + ([0x11] + Le32(|parts|) + Concat(parts))
  {
  }

  lemma {:induction false} MemberPart(ms: seq<Value>, b: Bytes)
    ensures b in Payloads(ms) <==> exists m :: m in ms && b == Body(m)
  {
    hide Body, Payload;
    if b in Payloads(ms) {
      var i :| 0 <= i < |ms| && Payloads(ms)[i] == b;
      PayloadsAt(ms, i);
      BodyIsPayload(ms[i]);
      assert ms[i] in ms;
    }
    if m :| m in ms && b == Body(m) {
      var i :| 0 <= i < |ms| && ms[i] == m;
      PayloadsAt(ms, i);
      BodyIsPayload(m);
    }
  }

  lemma {:induction false} FieldParts(fs: seq<Pair<string>>)
    ensures FieldsPayload(fs) == Concat(seq(|fs|, i requires 0 <= i < |fs| => FieldPart(fs[i])))
  {
    hide FieldPart, FieldPayload;
    var parts := seq(|fs|, i requires 0 <= i < |fs| => FieldPart(fs[i]));
    if fs != [] {
      FieldParts(fs[1..]);
      assert parts[1..] == seq(|fs[1..]|, i requires 0 <= i < |fs[1..]| => FieldPart(fs[1..][i]));
      FieldPartIs(fs[0]);
    }
  }

  lemma {:induction false} FieldPartIs(f: Pair<string>)
    ensures FieldPayload(f) == FieldPart(f)
  {
    hide Word32, Body;
    Le4(|ToUtf8(f.key)|);
    BodyIsPayload(f.val);
  }

  /** A hash is its count, and each key as text in front of its value. */
  lemma {:induction false} HashLayout(fs: seq<Pair<string>>)
    ensures Encode(Hash(fs)) ==
            [1, 0x10] + (Word32(|fs|) + Concat(seq(|fs|, i requires 0 <= i < |fs| => FieldPart(fs[i]))))
  {
    hide Word32, Concat, FieldsPayload;
    Le4(|fs|);
    FieldParts(fs);
    assert Encode(Hash(fs)) == [1] + ([0x10] + Le32(|fs|) + FieldsPayload(fs));
  }

  lemma {:induction false} EntryParts(es: seq<Pair<Scalar>>)
    ensures EntriesPayload(es) == Concat(seq(|es|, i requires 0 <= i < |es| => EntryPart(es[i])))
  {
    hide EntryPart, EntryPayload;
    var parts := seq(|es|, i requires 0 <= i < |es| => EntryPart(es[i]));
    if es != [] {
      EntryParts(es[1..]);
      assert parts[1..] == seq(|es[1..]|, i requires 0 <= i < |es[1..]| => EntryPart(es[1..][i]));
      EntryPartIs(es[0]);
    }
  }

  lemma {:induction false} EntryPartIs(e: Pair<Scalar>)
    ensures EntryPayload(e) == EntryPart(e)
  {
    hide Body;
    BodyIsPayload(Leaf(e.key));
    BodyIsPayload(e.val);
  }

  /** A tree is its count, and each key as a scalar in front of its value. */
  lemma {:induction false} TreeLayout(es: seq<Pair<Scalar>>)
    ensures Encode(Tree(es)) ==
            [1, 0x13] + (Word32(|es|) + Concat(seq(|es|, i requires 0 <= i < |es| => EntryPart(es[i]))))
  {
    hide Word32, Concat, EntriesPayload;
    Le4(|es|);
    EntryParts(es);
    assert Encode(Tree(es)) == [1] + ([0x13] + Le32(|es|) + EntriesPayload(es));
  }

  // ----- and back -----

  /** These bytes decode to these scalars. */
  lemma {:induction false} ScalarsRead(b: bool, n: i64, bits: u64, s: string, data: Bytes)
    ensures Decode([1, 0x00]) == Ok(Leaf(Null))
    ensures Decode([1, 0x01, if b then 1 else 0]) == Ok(Leaf(Bool(b)))
    ensures Decode([1, 0x02] + Word64(Wrapped64(n))) == Ok(Leaf(Int(n)))
    ensures Decode([1, 0x03] + Word64(bits)) == Ok(Leaf(Float(bits)))
    ensures |ToUtf8(s)| < U32 ==> Decode([1, 0x04] + Text(s)) == Ok(Leaf(Str(s)))
    ensures |data| < U32 ==> Decode([1, 0x05] + (Word32(|data|) + data)) == Ok(Leaf(Bin(data)))
  {
    hide Decode, Encode, Word32, Word64, Text, Wrapped64;
    ScalarLayout(Null);
    ScalarLayout(Bool(b));
    ScalarLayout(Int(n));
    ScalarLayout(Float(bits));
    ScalarLayout(Str(s));
    ScalarLayout(Bin(data));
    RoundTripIff(Leaf(Null));
    RoundTripIff(Leaf(Bool(b)));
    RoundTripIff(Leaf(Int(n)));
    RoundTripIff(Leaf(Float(bits)));
    RoundTripIff(Leaf(Str(s)));
    RoundTripIff(Leaf(Bin(data)));
  }

  /** What is refused at the first bytes, whatever follows. */
  lemma {:induction false} DecodeRefuses(version: byte, tag: byte, rest: Bytes)
    ensures Decode([]) == Err(EmptyInput)
    ensures version != 1 ==> Decode([version] + rest) == Err(UnsupportedVersion(version))
    ensures Decode([1]) == Err(UnexpectedEof)
    ensures 5 < tag < 0x10 || 0x13 < tag ==> Decode([1, tag] + rest) == Err(UnknownTag(tag))
    ensures tag > 1 ==> Decode([1, 0x01, tag] + rest) == Err(InvalidBool(tag))
  {
    hide DecodeValue;
    var b, c := [1, tag] + rest, [1, 0x01, tag] + rest;
    assert b[0] == 1 && b[1..] == [tag] + rest;
    assert c[0] == 1 && c[1..] == [0x01] + ([tag] + rest);
    assert ([version] + rest)[0] == version;
    NoValue();
    TagRefused(tag, rest);
  }

  lemma {:induction false} NoValue()
    ensures DecodeValue([]) == Err(UnexpectedEof)
  {
  }

  lemma {:induction false} TagRefused(tag: byte, rest: Bytes)
    ensures 5 < tag < 0x10 || 0x13 < tag ==> DecodeValue([tag] + rest) == Err(UnknownTag(tag))
    ensures tag > 1 ==> DecodeValue([0x01] + ([tag] + rest)) == Err(InvalidBool(tag))
  {
    ReadTag(tag, rest);
    ReadTag(0x01, [tag] + rest);
  }

  /** Anything behind a whole value. */
  lemma {:induction false} TrailingRefused(v: Value, rest: Bytes)
    requires WellFormed(v) && Fits(Canon(v)) && rest != []
    ensures Decode(Encode(v) + rest) == Err(TrailingBytes)
  {
    hide Canon, Payload, Fits, DecodeValue;
    PayloadRoundTrip(v, rest);
    var d := Encode(v) + rest;
    assert d[0] == VERSION && d[1..] == Payload(v) + rest;
  }

  /** Text that is no UTF-8, and set members that do not ascend. */
  lemma {:induction false} DecodeRefusesContent(b: Bytes, v: Value, w: Value)
    requires |b| < U32 && FromUtf8(b).None?
    requires Good(v) && Good(w) && !Less(Body(v), Body(w))
    ensures Decode([1, 0x04] + (Word32(|b|) + b)) == Err(CodecError.InvalidUtf8)
    ensures Decode([1, 0x11, 2, 0, 0, 0] + (Body(v) + Body(w))) == Err(DuplicateSetMember)
  {
    hide Less, Word32, DecodeMembers, Good, Body, Payload;
    TextRefused(b);
    BodyIsPayload(v);
    BodyIsPayload(w);
    DecodeFront(v, Payload(w));
    DecodeFront(w, []);
    assert Payload(w) + [] == Payload(w);
    TwoMembers(v, w);
    var rest := Payload(v) + Payload(w);
    var bytes := [1, 0x11, 2, 0, 0, 0] + rest;
    Le4(2);
    WordTwo();
    ReadU32Front(2, rest);
    assert bytes[1..] == [0x11] + (Le32(2) + rest);
    DecodeManyTagged(TAG_SET, Le32(2) + rest, 2, rest);
  }

  lemma {:induction false} WordTwo()
    ensures Word32(2) == [2, 0, 0, 0]
  {
  }

  lemma {:induction false} TwoMembers(v: Value, w: Value)
    requires DecodeValue(Payload(v) + Payload(w)) == Ok((v, Payload(w))) && DecodeValue(Payload(w)) == Ok((w, []))
    requires !Less(Payload(v), Payload(w))
    ensures DecodeMembers(2, Payload(v) + Payload(w), []) == Err(DuplicateSetMember)
  {
    hide Less, DecodeValue, Payload;
    assert [] + [v] == [v];
    assert DecodeMembers(2, Payload(v) + Payload(w), []) == DecodeMembers(1, Payload(w), [v]);
  }

  lemma {:induction false} TextRefused(b: Bytes)
    requires |b| < U32 && FromUtf8(b).None?
    ensures Decode([1, 0x04] + (Word32(|b|) + b)) == Err(CodecError.InvalidUtf8)
  {
    hide FromUtf8, Word32;
    Le4(|b|);
    ReadBlobFront(b, []);
    assert Blob(b) + [] == Blob(b);
    var bytes := [1, 0x04] + (Word32(|b|) + b);
    assert bytes[1..] == [0x04] + Blob(b) && ([0x04] + Blob(b))[1..] == Blob(b);
  }

  // ----- the kinds in a canonical set -----

  function Kind(v: Value): nat {
    match v
    case Leaf(Null) => 0
    case Leaf(Bool(_)) => 1
    case Leaf(Int(_)) => 2
    case Leaf(Float(_)) => 3
    case Leaf(Str(_)) => 4
    case Leaf(Bin(_)) => 5
    case Hash(_) => 6
    case Set(_) => 7
    case List(_) => 8
    case Tree(_) => 9
  }

  lemma {:induction false} KindByTag(v: Value, w: Value)
    requires Payload(v)[0] <= Payload(w)[0]
    ensures Kind(v) <= Kind(w)
  {
    hide Le, ToUtf8, FieldsPayload, EntriesPayload, Payloads, Concat, SortUnique;
  }

  lemma {:induction false} LessFirst(a: Bytes, b: Bytes)
    requires Less(a, b) && a != [] && b != []
    ensures a[0] <= b[0]
  {
  }

  lemma {:induction false} PayloadFilled(v: Value)
    ensures Payload(v) != []
  {
  }

  /** Members of a set that was stored come by kind: null, bool, int, float, string, bytes, hash, set, list, tree. */
  lemma {:induction false} KindsInOrder(v: Value, i: nat, j: nat)
    requires Canonical(v) && v.Set? && i < j < |v.members|
    ensures Kind(v.members[i]) <= Kind(v.members[j])
  {
    hide Payload, Less, Kind;
    var ms := v.members;
    PayloadsAt(ms, i);
    PayloadsAt(ms, j);
    assert Less(Payloads(ms)[i], Payloads(ms)[j]);
    PayloadFilled(ms[i]);
    PayloadFilled(ms[j]);
    LessFirst(Payload(ms[i]), Payload(ms[j]));
    KindByTag(ms[i], ms[j]);
  }

  // ----- a cut-off encoding -----

  /** Reading on with more behind gives the same, but for running out of bytes. */
  predicate ReadsOn<T(==)>(r: Read<T>, r': Read<T>, s: Bytes) {
    match r
    case Ok((x, rest)) => r' == Ok((x, rest + s))
    case Err(e) => e != UnexpectedEof ==> r' == Err(e)
  }

  lemma {:induction false} SliceOn(b: Bytes, n: nat, s: Bytes)
    ensures ReadsOn(ReadSlice(b, n), ReadSlice(b + s, n), s)
  {
    if n <= |b| {
      assert (b + s)[..n] == b[..n] && (b + s)[n..] == b[n..] + s;
    }
  }

  lemma {:induction false} U32On(b: Bytes, s: Bytes)
    ensures ReadsOn(ReadU32(b), ReadU32(b + s), s)
  {
    SliceOn(b, 4, s);
  }

  lemma {:induction false} BlobOn(b: Bytes, s: Bytes)
    ensures ReadsOn(ReadBlob(b), ReadBlob(b + s), s)
  {
    U32On(b, s);
    if ReadU32(b).Ok? {
      SliceOn(ReadU32(b).value.1, ReadU32(b).value.0, s);
    }
  }

  lemma {:induction false} StrOn(b: Bytes, s: Bytes)
    ensures ReadsOn(ReadStr(b), ReadStr(b + s), s)
  {
    BlobOn(b, s);
  }

  lemma {:induction false} U64On(b: Bytes, s: Bytes)
    ensures ReadsOn(ReadU64(b), ReadU64(b + s), s)
  {
    SliceOn(b, 8, s);
  }

  lemma {:induction false} U8On(b: Bytes, s: Bytes)
    ensures ReadsOn(ReadU8(b), ReadU8(b + s), s)
  {
    if b != [] {
      assert (b + s)[1..] == b[1..] + s;
    }
  }

  lemma {:induction false} ScalarOn(tag: byte, b: Bytes, s: Bytes)
    requires ScalarTag(tag)
    ensures ReadsOn(DecodeScalar(tag, b), DecodeScalar(tag, b + s), s)
  {
    hide ReadU8, ReadU64, ReadStr, ReadBlob;
    U8On(b, s);
    U64On(b, s);
    StrOn(b, s);
    BlobOn(b, s);
  }

  lemma {:induction false} ValueOn(b: Bytes, s: Bytes)
    ensures ReadsOn(DecodeValue(b), DecodeValue(b + s), s)
    decreases |b|, 0
  {
    hide DecodeScalar, DecodeMany, ReadU32, ReadU8;
    U8On(b, s);
    if ReadU8(b).Ok? {
      FirstByte(b);
      var (tag, rest) := ReadU8(b).value;
      if ScalarTag(tag) {
        ScalarOn(tag, rest, s);
      } else if tag in {TAG_HASH, TAG_SET, TAG_LIST, TAG_TREE} {
        U32On(rest, s);
        if ReadU32(rest).Ok? {
          var (n, body) := ReadU32(rest).value;
          ManyOn(tag, n, body, s);
        }
      }
    }
  }

  lemma {:induction false} FirstByte(b: Bytes)
    requires ReadU8(b).Ok?
    ensures |ReadU8(b).value.1| < |b|
  {
  }

  lemma {:induction false} ManyOn(tag: byte, n: nat, b: Bytes, s: Bytes)
    ensures ReadsOn(DecodeMany(tag, n, b), DecodeMany(tag, n, b + s), s)
    decreases |b|, 2
  {
    hide DecodeFields, DecodeMembers, DecodeItems, DecodeEntries;
    FieldsOn(n, b, [], s);
    MembersOn(n, b, [], s);
    ItemsOn(n, b, [], s);
    EntriesOn(n, b, [], s);
  }

  lemma {:induction false} ItemsOn(n: nat, b: Bytes, acc: seq<Value>, s: Bytes)
    ensures ReadsOn(DecodeItems(n, b, acc), DecodeItems(n, b + s, acc), s)
    decreases |b|, 1
  {
    hide DecodeValue;
    if n > 0 {
      ValueOn(b, s);
      if DecodeValue(b).Ok? {
        var (v, rest) := DecodeValue(b).value;
        ItemsOn(n - 1, rest, acc + [v], s);
      }
    }
  }

  lemma {:induction false} MembersOn(n: nat, b: Bytes, acc: seq<Value>, s: Bytes)
    ensures ReadsOn(DecodeMembers(n, b, acc), DecodeMembers(n, b + s, acc), s)
    decreases |b|, 1
  {
    hide DecodeValue, Less, Payload;
    if n > 0 {
      ValueOn(b, s);
      if DecodeValue(b).Ok? {
        var (v, rest) := DecodeValue(b).value;
        MembersOn(n - 1, rest, acc + [v], s);
      }
    }
  }

  lemma {:induction false} FieldsOn(n: nat, b: Bytes, acc: seq<Pair<string>>, s: Bytes)
    ensures ReadsOn(DecodeFields(n, b, acc), DecodeFields(n, b + s, acc), s)
    decreases |b|, 1
  {
    hide DecodeValue, ReadStr, Insert, StrLess;
    if n > 0 {
      StrOn(b, s);
      if ReadStr(b).Ok? {
        var (k, mid) := ReadStr(b).value;
        ValueOn(mid, s);
        if DecodeValue(mid).Ok? {
          var (v, rest) := DecodeValue(mid).value;
          FieldsOn(n - 1, rest, Insert(StrLess, acc, k, v), s);
        }
      }
    }
  }

  lemma {:induction false} EntriesOn(n: nat, b: Bytes, acc: seq<Pair<Scalar>>, s: Bytes)
    ensures ReadsOn(DecodeEntries(n, b, acc), DecodeEntries(n, b + s, acc), s)
    decreases |b|, 1
  {
    hide DecodeValue, Insert, ScalarLess;
    if n > 0 {
      ValueOn(b, s);
      if DecodeValue(b).Ok? {
        var (k, mid) := DecodeValue(b).value;
        if k.Leaf? {
          ValueOn(mid, s);
          if DecodeValue(mid).Ok? {
            var (v, rest) := DecodeValue(mid).value;
            EntriesOn(n - 1, rest, Insert(ScalarLess, acc, k.scalar, v), s);
          }
        }
      }
    }
  }

  /** An encoding cut off anywhere behind its version byte is refused as too short. */
  lemma {:induction false} CutOff(v: Value, n: nat)
    requires WellFormed(v) && Fits(Canon(v)) && 1 <= n < |Encode(v)|
    ensures Decode(Encode(v)[..n]) == Err(UnexpectedEof)
  {
    hide DecodeValue, Payload, Canon, Fits;
    var p, s := Payload(v)[..n - 1], Payload(v)[n - 1..];
    assert Encode(v)[..n][1..] == p && p + s == Payload(v);
    ValueOn(p, s);
    PayloadRoundTrip(v, []);
    assert Payload(v) + [] == Payload(v);
    EofOnly(DecodeValue(p), s, Canon(v));
  }

  lemma {:induction false} EofOnly(r: Read<Value>, s: Bytes, v: Value)
    requires s != [] && ReadsOn(r, Ok((v, [])), s)
    ensures r == Err(UnexpectedEof)
  {
  }
}
