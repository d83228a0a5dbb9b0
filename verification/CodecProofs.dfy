/** The codec is canonical, prefix-free, and inverted by the decoder exactly when lengths fit. */
module CodecProofs {
  import opened ByteStrings
  import opened Utf8
  import opened Orders
  import opened Strings
  import opened Values
  import opened Codec

  // ----- the payloads of a set -----

  function SortDedup(s: seq<Bytes>): seq<Bytes> {
    SortUnique(Less, s)
  }

  lemma {:induction false} SortDedupSpec(s: seq<Bytes>)
    ensures Ascending(Less, SortDedup(s))
    ensures forall x :: x in SortDedup(s) <==> x in s
    ensures Ascending(Less, s) ==> SortDedup(s) == s
    ensures SortDedup(SortDedup(s)) == SortDedup(s)
  {
    BytesOrder();
    SortUniqueSpec(Less, s);
    SortUniqueFixed(Less, SortDedup(s));
    if Ascending(Less, s) {
      SortUniqueFixed(Less, s);
    }
  }

  // ----- canonical form keeps the payload -----

  lemma {:induction false} PayloadsAt(vs: seq<Value>, i: nat)
    requires i < |vs|
    ensures Payloads(vs)[i] == Payload(vs[i])
  {
    if i > 0 {
      PayloadsAt(vs[1..], i - 1);
    }
  }

  lemma {:induction false} InsertMemberPayloads(m: Value, ms: seq<Value>)
    ensures Payloads(InsertMember(m, ms)) == InsertUnique(Less, Payload(m), Payloads(ms))
  {
    if ms == [] || Less(Payload(m), Payload(ms[0])) {
      assert ([m] + ms)[1..] == ms;
    } else if Payload(ms[0]) != Payload(m) {
      InsertMemberPayloads(m, ms[1..]);
      assert ([ms[0]] + InsertMember(m, ms[1..]))[1..] == InsertMember(m, ms[1..]);
      assert Payloads(ms)[1..] == Payloads(ms[1..]);
    }
  }

  lemma {:induction false} SortMembersPayloads(ms: seq<Value>)
    ensures Payloads(SortMembers(ms)) == SortDedup(Payloads(ms))
  {
    if ms != [] {
      SortMembersPayloads(ms[1..]);
      InsertMemberPayloads(ms[0], SortMembers(ms[1..]));
      assert Payloads(ms)[1..] == Payloads(ms[1..]);
    }
  }

  lemma {:induction false} CanonPayload(v: Value)
    ensures Payload(Canon(v)) == Payload(v)
    decreases v, 1
  {
    match v
    case Leaf(_) =>
    case Hash(fs) => CanonPayloadFields(fs);
    case Set(ms) =>
      CanonPayloadAll(ms);
      SortMembersPayloads(CanonAll(ms));
      SortDedupSpec(Payloads(ms));
    case List(xs) => CanonPayloadAll(xs);
    case Tree(es) => CanonPayloadEntries(es);
  }

  lemma {:induction false} CanonPayloadAll(vs: seq<Value>)
    ensures Payloads(CanonAll(vs)) == Payloads(vs)
    decreases vs, 0
  {
    if vs != [] {
      CanonPayload(vs[0]);
      CanonPayloadAll(vs[1..]);
    }
  }

  lemma {:induction false} CanonPayloadFields(fs: seq<Pair<string>>)
    ensures FieldsPayload(CanonFields(fs)) == FieldsPayload(fs)
    decreases fs, 0
  {
    if fs != [] {
      CanonPayloadField(fs[0]);
      CanonPayloadFields(fs[1..]);
    }
  }

  lemma {:induction false} CanonPayloadField(f: Pair<string>)
    ensures FieldPayload(CanonField(f)) == FieldPayload(f)
    decreases f, 2
  {
    CanonPayload(f.val);
  }

  lemma {:induction false} CanonPayloadEntries(es: seq<Pair<Scalar>>)
    ensures EntriesPayload(CanonEntries(es)) == EntriesPayload(es)
    decreases es, 0
  {
    if es != [] {
      CanonPayloadEntry(es[0]);
      CanonPayloadEntries(es[1..]);
    }
  }

  lemma {:induction false} CanonPayloadEntry(e: Pair<Scalar>)
    ensures EntryPayload(CanonEntry(e)) == EntryPayload(e)
    decreases e, 2
  {
    CanonPayload(e.val);
  }

  // ----- canonical values -----

  /** Every nested set is strictly ascending by payload. */
  ghost predicate Canonical(v: Value)
    decreases v
  {
    match v
    case Leaf(_) => true
    case Hash(fs) => forall i | 0 <= i < |fs| :: Canonical(fs[i].val)
    case Set(ms) => Ascending(Less, Payloads(ms)) && forall i | 0 <= i < |ms| :: Canonical(ms[i])
    case List(xs) => forall i | 0 <= i < |xs| :: Canonical(xs[i])
    case Tree(es) => forall i | 0 <= i < |es| :: Canonical(es[i].val)
  }

  lemma {:induction false} InsertMemberElements(m: Value, ms: seq<Value>)
    ensures forall x :: x in InsertMember(m, ms) ==> x in ms || x == m
  {
    if ms != [] {
      InsertMemberElements(m, ms[1..]);
    }
  }

  lemma {:induction false} SortMembersElements(ms: seq<Value>)
    ensures forall x :: x in SortMembers(ms) ==> x in ms
  {
    if ms != [] {
      SortMembersElements(ms[1..]);
      InsertMemberElements(ms[0], SortMembers(ms[1..]));
    }
  }

  lemma {:induction false} CanonAllAt(vs: seq<Value>, i: nat)
    requires i < |vs|
    ensures CanonAll(vs)[i] == Canon(vs[i])
  {
    if i > 0 {
      CanonAllAt(vs[1..], i - 1);
    }
  }

  lemma {:induction false} CanonFieldsAt(fs: seq<Pair<string>>, i: nat)
    requires i < |fs|
    ensures CanonFields(fs)[i] == Pair(fs[i].key, Canon(fs[i].val))
  {
    if i > 0 {
      CanonFieldsAt(fs[1..], i - 1);
    }
  }

  lemma {:induction false} CanonEntriesAt(es: seq<Pair<Scalar>>, i: nat)
    requires i < |es|
    ensures CanonEntries(es)[i] == Pair(es[i].key, Canon(es[i].val))
  {
    if i > 0 {
      CanonEntriesAt(es[1..], i - 1);
    }
  }

  /** `Canon` yields a canonical value and keeps maps ordered. */
  lemma {:induction false} CanonIsCanonical(v: Value)
    ensures Canonical(Canon(v))
    ensures WellFormed(v) ==> WellFormed(Canon(v))
    decreases v
  {
    match v
    case Leaf(_) =>
    case Hash(fs) =>
      forall i | 0 <= i < |fs|
        ensures CanonFields(fs)[i].key == fs[i].key && Canonical(CanonFields(fs)[i].val)
        ensures WellFormed(v) ==> WellFormed(CanonFields(fs)[i].val)
      {
        CanonFieldsAt(fs, i);
        CanonIsCanonical(fs[i].val);
      }
    case Set(ms) =>
      SortDedupSpec(Payloads(CanonAll(ms)));
      SortMembersPayloads(CanonAll(ms));
      CanonAllElements(v, ms);
      SortMembersElements(CanonAll(ms));
    case List(xs) => CanonAllElements(v, xs);
    case Tree(es) =>
      forall i | 0 <= i < |es|
        ensures CanonEntries(es)[i].key == es[i].key && Canonical(CanonEntries(es)[i].val)
        ensures WellFormed(v) ==> WellFormed(CanonEntries(es)[i].val)
      {
        CanonEntriesAt(es, i);
        CanonIsCanonical(es[i].val);
      }
  }

  lemma {:induction false} CanonAllElements(v: Value, vs: seq<Value>)
    requires v == Set(vs) || v == List(vs)
    ensures forall x :: x in CanonAll(vs) ==> Canonical(x) && (WellFormed(v) ==> WellFormed(x))
    decreases v, 0
  {
    forall i | 0 <= i < |vs|
      ensures Canonical(CanonAll(vs)[i]) && (WellFormed(v) ==> WellFormed(CanonAll(vs)[i]))
    {
      CanonAllAt(vs, i);
      CanonIsCanonical(vs[i]);
    }
  }

  lemma {:induction false} SortMembersFixed(ms: seq<Value>)
    requires Ascending(Less, Payloads(ms))
    ensures SortMembers(ms) == ms
  {
    if ms != [] {
      assert Payloads(ms)[1..] == Payloads(ms[1..]);
      SortMembersFixed(ms[1..]);
      if |ms| > 1 {
        PayloadsAt(ms, 1);
        assert Less(Payloads(ms)[0], Payloads(ms)[1]);
      }
      assert ms == [ms[0]] + ms[1..];
    }
  }

  lemma {:induction false} CanonicalIsFixed(v: Value)
    requires Canonical(v)
    ensures Canon(v) == v
    decreases v
  {
    match v
    case Leaf(_) =>
    case Hash(fs) =>
      forall i | 0 <= i < |fs|
        ensures CanonFields(fs)[i] == fs[i]
      {
        CanonFieldsAt(fs, i);
        CanonicalIsFixed(fs[i].val);
      }
    case Set(ms) =>
      CanonAllFixed(v, ms);
      SortMembersFixed(ms);
    case List(xs) => CanonAllFixed(v, xs);
    case Tree(es) =>
      forall i | 0 <= i < |es|
        ensures CanonEntries(es)[i] == es[i]
      {
        CanonEntriesAt(es, i);
        CanonicalIsFixed(es[i].val);
      }
  }

  lemma {:induction false} CanonAllFixed(v: Value, vs: seq<Value>)
    requires (v == Set(vs) || v == List(vs)) && Canonical(v)
    ensures CanonAll(vs) == vs
    decreases v, 0
  {
    forall i | 0 <= i < |vs|
      ensures CanonAll(vs)[i] == vs[i]
    {
      CanonAllAt(vs, i);
      CanonicalIsFixed(vs[i]);
    }
  }

  // ----- reading back what was written -----

  lemma {:induction false} ReadSliceFront(b: Bytes, s: Bytes)
    ensures ReadSlice(b + s, |b|) == Ok((b, s))
  {
    assert (b + s)[..|b|] == b && (b + s)[|b|..] == s;
  }

  lemma {:induction false} ReadU32Front(n: nat, s: Bytes)
    requires n < U32
    ensures ReadU32(Le32(n) + s) == Ok((n, s))
  {
    ReadSliceFront(Le32(n), s);
    Le32RoundTrip(n);
  }

  lemma {:induction false} ReadU64Front(n: u64, s: Bytes)
    ensures ReadU64(Le(n, 8) + s) == Ok((n, s))
  {
    ReadSliceFront(Le(n, 8), s);
    Widths();
    LeRoundTrip(n, 8);
  }

  lemma {:induction false} ReadBlobFront(b: Bytes, s: Bytes)
    requires |b| < U32
    ensures ReadBlob(Blob(b) + s) == Ok((b, s))
  {
    assert Blob(b) + s == Le32(|b|) + (b + s);
    ReadU32Front(|b|, b + s);
    ReadSliceFront(b, s);
  }

  lemma {:induction false} ReadStrFront(t: string, s: Bytes)
    requires |ToUtf8(t)| < U32
    ensures ReadStr(Blob(ToUtf8(t)) + s) == Ok((t, s))
  {
    ReadBlobFront(ToUtf8(t), s);
    Utf8RoundTrip(t);
  }

  lemma {:induction false} ReadTag(tag: byte, s: Bytes)
    ensures ReadU8([tag] + s) == Ok((tag, s))
  {
  }

  function ScalarBody(x: Scalar): Bytes {
    ScalarPayload(x)[1..]
  }

  lemma {:induction false} ScalarBodyFront(x: Scalar, s: Bytes)
    requires ScalarFits(x)
    ensures ScalarTag(ScalarPayload(x)[0])
    ensures DecodeScalar(ScalarPayload(x)[0], ScalarBody(x) + s) == Ok((x, s))
  {
    match x
    case Null => assert ScalarBody(x) + s == s;
    case Bool(b) => ReadTag(if b then 1 else 0, s);
    case Int(n) => ReadU64Front(Unsigned(n), s);
    case Float(bits) => ReadU64Front(bits, s);
    case Str(t) => ReadStrFront(t, s);
    case Bin(b) => ReadBlobFront(b, s);
  }

  lemma {:induction false} DecodeScalarTagged(tag: byte, body: Bytes, x: Scalar, rest: Bytes)
    requires ScalarTag(tag) && DecodeScalar(tag, body) == Ok((x, rest))
    ensures DecodeValue([tag] + body) == Ok((Leaf(x), rest))
  {
    ReadTag(tag, body);
  }

  lemma {:induction false} DecodeManyTagged(tag: byte, body: Bytes, n: nat, rest: Bytes)
    requires tag in {TAG_HASH, TAG_SET, TAG_LIST, TAG_TREE} && ReadU32(body) == Ok((n, rest))
    ensures DecodeValue([tag] + body) == DecodeMany(tag, n, rest)
  {
    ReadTag(tag, body);
  }

  lemma {:induction false} Headed(p: Bytes, x: Scalar, s: Bytes)
    requires p != [] && ScalarTag(p[0]) && DecodeScalar(p[0], p[1..] + s) == Ok((x, s))
    ensures DecodeValue(p + s) == Ok((Leaf(x), s))
  {
    assert p + s == [p[0]] + (p[1..] + s);
    DecodeScalarTagged(p[0], p[1..] + s, x, s);
  }

  lemma {:induction false} ScalarFront(x: Scalar, s: Bytes)
    requires ScalarFits(x)
    ensures DecodeValue(ScalarPayload(x) + s) == Ok((Leaf(x), s))
  {
    ScalarBodyFront(x, s);
    Headed(ScalarPayload(x), x, s);
  }

  lemma {:induction false} Framed(tag: byte, n: nat, body: Bytes, s: Bytes, v: Value)
    requires n < U32 && tag in {TAG_HASH, TAG_SET, TAG_LIST, TAG_TREE}
    requires DecodeMany(tag, n, body + s) == Ok((v, s))
    ensures DecodeValue([tag] + Le32(n) + body + s) == Ok((v, s))
  {
    assert [tag] + Le32(n) + body + s == [tag] + (Le32(n) + (body + s));
    ReadU32Front(n, body + s);
    DecodeManyTagged(tag, Le32(n) + (body + s), n, body + s);
  }

  ghost predicate Good(v: Value) {
    WellFormed(v) && Canonical(v) && Fits(v)
  }

  lemma {:induction false} PayloadsFirst(xs: seq<Value>, s: Bytes)
    requires xs != []
    ensures Concat(Payloads(xs)) + s == Payload(xs[0]) + (Concat(Payloads(xs[1..])) + s)
    ensures Payloads(xs)[1..] == Payloads(xs[1..])
  {
  }

  lemma {:induction false} ItemsStep(n: nat, cur: Bytes, v: Value, rest: Bytes, acc: seq<Value>)
    requires n > 0 && DecodeValue(cur) == Ok((v, rest))
    ensures DecodeItems(n, cur, acc) == DecodeItems(n - 1, rest, acc + [v])
  {
  }

  lemma {:induction false} ItemsFront(xs: seq<Value>, s: Bytes, acc: seq<Value>)
    requires forall i | 0 <= i < |xs| :: Good(xs[i])
    ensures DecodeItems(|xs|, Concat(Payloads(xs)) + s, acc) == Ok((acc + xs, s))
    decreases xs, 0
  {
    if xs == [] {
      assert Concat(Payloads(xs)) + s == s && acc + xs == acc;
    } else {
      var rest := Concat(Payloads(xs[1..])) + s;
      PayloadsFirst(xs, s);
      DecodeFront(xs[0], rest);
      ItemsStep(|xs|, Payload(xs[0]) + rest, xs[0], rest, acc);
      ItemsFront(xs[1..], s, acc + [xs[0]]);
      assert acc + [xs[0]] + xs[1..] == acc + xs;
    }
  }

  /** The next member's payload is above the last one taken. */
  ghost predicate Above(acc: seq<Value>, ms: seq<Value>) {
    acc != [] && ms != [] ==> Less(Payload(acc[|acc| - 1]), Payload(ms[0]))
  }

  lemma {:induction false} PayloadLess(ms: seq<Value>, a: Bytes, b: Bytes)
    requires |ms| > 1 && Ascending(Less, Payloads(ms))
    requires a == Payload(ms[0]) && b == Payload(ms[1])
    ensures Less(a, b)
  {
    PayloadsAt(ms, 1);
    AscendingFirst(Less, Payloads(ms), a, b);
  }

  lemma {:induction false} NextAbove(acc: seq<Value>, ms: seq<Value>)
    requires ms != [] && Ascending(Less, Payloads(ms))
    ensures Above(acc + [ms[0]], ms[1..])
  {
    if |ms| > 1 {
      PayloadLess(ms, Payload(ms[0]), Payload(ms[1]));
    }
  }

  lemma {:induction false} MembersStep(n: nat, cur: Bytes, v: Value, rest: Bytes, acc: seq<Value>)
    requires n > 0 && DecodeValue(cur) == Ok((v, rest))
    requires acc != [] ==> Less(Payload(acc[|acc| - 1]), Payload(v))
    ensures DecodeMembers(n, cur, acc) == DecodeMembers(n - 1, rest, acc + [v])
  {
  }

  lemma {:induction false} MembersCons(ms: seq<Value>, s: Bytes, acc: seq<Value>, rest: Bytes)
    requires ms != [] && Above(acc, ms)
    requires DecodeValue(Payload(ms[0]) + rest) == Ok((ms[0], rest))
    requires DecodeMembers(|ms| - 1, rest, acc + [ms[0]]) == Ok((acc + [ms[0]] + ms[1..], s))
    ensures DecodeMembers(|ms|, Payload(ms[0]) + rest, acc) == Ok((acc + ms, s))
  {
    hide DecodeMembers, DecodeValue, Payload;
    MembersStep(|ms|, Payload(ms[0]) + rest, ms[0], rest, acc);
    assert acc + [ms[0]] + ms[1..] == acc + ms;
  }

  lemma {:induction false} MembersFront(ms: seq<Value>, s: Bytes, acc: seq<Value>)
    requires forall i | 0 <= i < |ms| :: Good(ms[i])
    requires Ascending(Less, Payloads(ms)) && Above(acc, ms)
    ensures DecodeMembers(|ms|, Concat(Payloads(ms)) + s, acc) == Ok((acc + ms, s))
    decreases ms, 0
  {
    if ms == [] {
      assert Concat(Payloads(ms)) + s == s && acc + ms == acc;
    } else {
      var rest := Concat(Payloads(ms[1..])) + s;
      PayloadsFirst(ms, s);
      DecodeFront(ms[0], rest);
      NextAbove(acc, ms);
      AscendingTail(Less, Payloads(ms), Payloads(ms[1..]));
      MembersFront(ms[1..], s, acc + [ms[0]]);
      MembersCons(ms, s, acc, rest);
    }
  }

  lemma {:induction false} FieldsFirst(fs: seq<Pair<string>>, s: Bytes)
    requires fs != []
    ensures FieldsPayload(fs) + s ==
            Blob(ToUtf8(fs[0].key)) + (Payload(fs[0].val) + (FieldsPayload(fs[1..]) + s))
  {
  }

  lemma {:induction false} FieldsStep(n: nat, key: string, v: Value, rest: Bytes, acc: seq<Pair<string>>)
    requires n > 0 && |ToUtf8(key)| < U32 && DecodeValue(Payload(v) + rest) == Ok((v, rest))
    ensures DecodeFields(n, Blob(ToUtf8(key)) + (Payload(v) + rest), acc) ==
            DecodeFields(n - 1, rest, Insert(StrLess, acc, key, v))
  {
    ReadStrFront(key, Payload(v) + rest);
  }

  lemma {:induction false} FieldsFront(fs: seq<Pair<string>>, s: Bytes, acc: seq<Pair<string>>)
    requires forall i | 0 <= i < |fs| :: Good(fs[i].val) && |ToUtf8(fs[i].key)| < U32
    requires Sorted(StrLess, acc + fs)
    ensures DecodeFields(|fs|, FieldsPayload(fs) + s, acc) == Ok((acc + fs, s))
    decreases fs, 0
  {
    if fs == [] {
      assert FieldsPayload(fs) + s == s && acc + fs == acc;
    } else {
      var rest := FieldsPayload(fs[1..]) + s;
      FieldsFirst(fs, s);
      FieldDecodes(fs[0], rest);
      FieldsStep(|fs|, fs[0].key, fs[0].val, rest, acc);
      StrOrder();
      InsertNext(StrLess, acc, fs);
      FieldsFront(fs[1..], s, acc + [fs[0]]);
    }
  }

  lemma {:induction false} EntriesFirst(es: seq<Pair<Scalar>>, s: Bytes)
    requires es != []
    ensures EntriesPayload(es) + s ==
            ScalarPayload(es[0].key) + (Payload(es[0].val) + (EntriesPayload(es[1..]) + s))
  {
  }

  lemma {:induction false} EntriesStep(n: nat, key: Scalar, v: Value, rest: Bytes, acc: seq<Pair<Scalar>>)
    requires n > 0 && ScalarFits(key) && DecodeValue(Payload(v) + rest) == Ok((v, rest))
    ensures DecodeEntries(n, ScalarPayload(key) + (Payload(v) + rest), acc) ==
            DecodeEntries(n - 1, rest, Insert(ScalarLess, acc, key, v))
  {
    ScalarFront(key, Payload(v) + rest);
  }

  lemma {:induction false} EntriesFront(es: seq<Pair<Scalar>>, s: Bytes, acc: seq<Pair<Scalar>>)
    requires forall i | 0 <= i < |es| :: Good(es[i].val) && ScalarFits(es[i].key)
    requires Sorted(ScalarLess, acc + es)
    ensures DecodeEntries(|es|, EntriesPayload(es) + s, acc) == Ok((acc + es, s))
    decreases es, 0
  {
    if es == [] {
      assert EntriesPayload(es) + s == s && acc + es == acc;
    } else {
      var rest := EntriesPayload(es[1..]) + s;
      EntriesFirst(es, s);
      EntryDecodes(es[0], rest);
      EntriesStep(|es|, es[0].key, es[0].val, rest, acc);
      ScalarOrder();
      InsertNext(ScalarLess, acc, es);
      EntriesFront(es[1..], s, acc + [es[0]]);
    }
  }

  lemma {:induction false} ManyHash(n: nat, cur: Bytes, fs: seq<Pair<string>>, s: Bytes)
    requires DecodeFields(n, cur, []) == Ok((fs, s))
    ensures DecodeMany(TAG_HASH, n, cur) == Ok((Hash(fs), s))
  {
  }

  lemma {:induction false} ManySet(n: nat, cur: Bytes, ms: seq<Value>, s: Bytes)
    requires DecodeMembers(n, cur, []) == Ok((ms, s))
    ensures DecodeMany(TAG_SET, n, cur) == Ok((Set(ms), s))
  {
  }

  lemma {:induction false} ManyList(n: nat, cur: Bytes, xs: seq<Value>, s: Bytes)
    requires DecodeItems(n, cur, []) == Ok((xs, s))
    ensures DecodeMany(TAG_LIST, n, cur) == Ok((List(xs), s))
  {
  }

  lemma {:induction false} ManyTree(n: nat, cur: Bytes, es: seq<Pair<Scalar>>, s: Bytes)
    requires DecodeEntries(n, cur, []) == Ok((es, s))
    ensures DecodeMany(TAG_TREE, n, cur) == Ok((Tree(es), s))
  {
  }

  lemma {:induction false} HashDecodes(fs: seq<Pair<string>>, s: Bytes)
    requires Sorted(StrLess, fs) && |fs| < U32
    requires forall i | 0 <= i < |fs| :: Good(fs[i].val) && |ToUtf8(fs[i].key)| < U32
    ensures DecodeValue([TAG_HASH] + Le32(|fs|) + FieldsPayload(fs) + s) == Ok((Hash(fs), s))
    decreases fs, 1
  {
    assert [] + fs == fs;
    FieldsFront(fs, s, []);
    ManyHash(|fs|, FieldsPayload(fs) + s, fs, s);
    Framed(TAG_HASH, |fs|, FieldsPayload(fs), s, Hash(fs));
  }

  lemma {:induction false} SetDecodes(ms: seq<Value>, s: Bytes)
    requires Ascending(Less, Payloads(ms)) && |ms| < U32
    requires forall i | 0 <= i < |ms| :: Good(ms[i])
    ensures DecodeValue([TAG_SET] + Le32(|ms|) + Concat(Payloads(ms)) + s) == Ok((Set(ms), s))
    decreases ms, 1
  {
    assert [] + ms == ms;
    MembersFront(ms, s, []);
    ManySet(|ms|, Concat(Payloads(ms)) + s, ms, s);
    Framed(TAG_SET, |ms|, Concat(Payloads(ms)), s, Set(ms));
  }

  lemma {:induction false} ListDecodes(xs: seq<Value>, s: Bytes)
    requires |xs| < U32 && forall i | 0 <= i < |xs| :: Good(xs[i])
    ensures DecodeValue([TAG_LIST] + Le32(|xs|) + Concat(Payloads(xs)) + s) == Ok((List(xs), s))
    decreases xs, 1
  {
    assert [] + xs == xs;
    ItemsFront(xs, s, []);
    ManyList(|xs|, Concat(Payloads(xs)) + s, xs, s);
    Framed(TAG_LIST, |xs|, Concat(Payloads(xs)), s, List(xs));
  }

  lemma {:induction false} TreeDecodes(es: seq<Pair<Scalar>>, s: Bytes)
    requires Sorted(ScalarLess, es) && |es| < U32
    requires forall i | 0 <= i < |es| :: Good(es[i].val) && ScalarFits(es[i].key)
    ensures DecodeValue([TAG_TREE] + Le32(|es|) + EntriesPayload(es) + s) == Ok((Tree(es), s))
    decreases es, 1
  {
    assert [] + es == es;
    EntriesFront(es, s, []);
    ManyTree(|es|, EntriesPayload(es) + s, es, s);
    Framed(TAG_TREE, |es|, EntriesPayload(es), s, Tree(es));
  }

  lemma {:induction false} FieldDecodes(f: Pair<string>, rest: Bytes)
    requires Good(f.val)
    ensures DecodeValue(Payload(f.val) + rest) == Ok((f.val, rest))
    decreases f, 3
  {
    DecodeFront(f.val, rest);
  }

  lemma {:induction false} EntryDecodes(e: Pair<Scalar>, rest: Bytes)
    requires Good(e.val)
    ensures DecodeValue(Payload(e.val) + rest) == Ok((e.val, rest))
    decreases e, 3
  {
    DecodeFront(e.val, rest);
  }

  /** A canonical value whose lengths fit is read back exactly, whatever follows it. */
  lemma {:induction false} DecodeFront(v: Value, s: Bytes)
    requires Good(v)
    ensures DecodeValue(Payload(v) + s) == Ok((v, s))
    decreases v, 2
  {
    match v
    case Leaf(x) => ScalarFront(x, s);
    case Hash(fs) => HashDecodes(fs, s);
    case Set(ms) =>
      SetDecodes(ms, s);
      SortDedupSpec(Payloads(ms));
    case List(xs) => ListDecodes(xs, s);
    case Tree(es) => TreeDecodes(es, s);
  }
}
