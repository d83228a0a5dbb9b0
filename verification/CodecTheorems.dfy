/** What the decoder accepts, and the laws of the codec as a whole. */
module CodecTheorems {
  import opened ByteStrings
  import opened Utf8
  import opened Orders
  import opened Strings
  import opened Values
  import opened Codec
  import opened CodecProofs

  // ----- everything the decoder accepts is well formed, canonical, and fits -----

  lemma {:induction false} ReadU32Bound(cur: Bytes)
    requires ReadU32(cur).Ok?
    ensures ReadU32(cur).value.0 < U32
  {
    Widths();
    FromLeBound(cur[..4]);
  }

  lemma {:induction false} ReadBlobBound(cur: Bytes)
    requires ReadBlob(cur).Ok?
    ensures |ReadBlob(cur).value.0| < U32
  {
    ReadU32Bound(cur);
  }

  lemma {:induction false} ReadStrBound(cur: Bytes)
    requires ReadStr(cur).Ok?
    ensures |ToUtf8(ReadStr(cur).value.0)| < U32
  {
    ReadBlobBound(cur);
    Utf8Canonical(ReadBlob(cur).value.0);
  }

  lemma {:induction false} DecodedScalarFits(tag: byte, cur: Bytes)
    requires ScalarTag(tag) && DecodeScalar(tag, cur).Ok?
    ensures ScalarFits(DecodeScalar(tag, cur).value.0)
  {
    if tag == TAG_STRING {
      ReadStrBound(cur);
    } else if tag == TAG_BYTES {
      ReadBlobBound(cur);
    }
  }

  /** Every value decodable from at most `n` bytes satisfies `P`. */
  ghost predicate Decodable(P: Value -> bool, n: nat) {
    forall c: Bytes {:trigger DecodeValue(c)} :: |c| <= n && DecodeValue(c).Ok? ==> P(DecodeValue(c).value.0)
  }

  lemma {:induction false} ItemsAll(P: Value -> bool, n: nat, cur: Bytes, acc: seq<Value>, xs: seq<Value>, end: Bytes)
    requires Decodable(P, |cur|) && DecodeItems(n, cur, acc) == Ok((xs, end)) && forall x | x in acc :: P(x)
    ensures |xs| == |acc| + n && forall x | x in xs :: P(x)
    decreases n
  {
    hide DecodeValue, Payload, Insert;
    if n > 0 {
      var v, rest := DecodeValue(cur).value.0, DecodeValue(cur).value.1;
      assert P(v);
      ItemsAll(P, n - 1, rest, acc + [v], xs, end);
    }
  }

  lemma {:induction false} MembersAdvance(n: nat, cur: Bytes, acc: seq<Value>, ms: seq<Value>, end: Bytes)
    returns (v: Value, rest: Bytes)
    requires n > 0 && DecodeMembers(n, cur, acc) == Ok((ms, end))
    ensures DecodeValue(cur) == Ok((v, rest)) && |rest| < |cur|
    ensures acc != [] ==> Less(Payload(acc[|acc| - 1]), Payload(v))
    ensures DecodeMembers(n - 1, rest, acc + [v]) == Ok((ms, end))
  {
    v, rest := DecodeValue(cur).value.0, DecodeValue(cur).value.1;
  }

  lemma {:induction false} MembersAll(P: Value -> bool, n: nat, cur: Bytes, acc: seq<Value>, ms: seq<Value>, end: Bytes)
    requires Decodable(P, |cur|) && DecodeMembers(n, cur, acc) == Ok((ms, end)) && forall x | x in acc :: P(x)
    ensures |ms| == |acc| + n && forall x | x in ms :: P(x)
    decreases n
  {
    hide DecodeValue, Payload, Insert;
    if n > 0 {
      var v, rest := MembersAdvance(n, cur, acc, ms, end);
      assert P(v);
      MembersAll(P, n - 1, rest, acc + [v], ms, end);
    }
  }

  lemma {:induction false} PayloadsSnoc(vs: seq<Value>, v: Value)
    ensures Payloads(vs + [v]) == Payloads(vs) + [Payload(v)]
  {
    if vs == [] {
      assert vs + [v] == [v];
    } else {
      assert (vs + [v])[1..] == vs[1..] + [v];
      PayloadsSnoc(vs[1..], v);
    }
  }

  lemma {:induction false} AscendingSnoc<T(!new)>(less: (T, T) -> bool, s: seq<T>, x: T)
    requires StrictOrder(less) && Ascending(less, s) && (s != [] ==> less(s[|s| - 1], x))
    ensures Ascending(less, s + [x])
  {
    forall i | 0 <= i < |s|
      ensures less(s[i], x)
    {
      assert i < |s| - 1 ==> less(s[i], s[|s| - 1]);
    }
  }

  lemma {:induction false} MembersAscending(acc: seq<Value>, v: Value)
    requires Ascending(Less, Payloads(acc))
    requires acc != [] ==> Less(Payload(acc[|acc| - 1]), Payload(v))
    ensures Ascending(Less, Payloads(acc + [v]))
  {
    BytesOrder();
    if acc != [] {
      PayloadsAt(acc, |acc| - 1);
    }
    AscendingSnoc(Less, Payloads(acc), Payload(v));
    PayloadsSnoc(acc, v);
  }

  lemma {:induction false} AscendingAdvance(n: nat, cur: Bytes, acc: seq<Value>, ms: seq<Value>, end: Bytes)
    returns (rest: Bytes, acc': seq<Value>)
    requires n > 0 && DecodeMembers(n, cur, acc) == Ok((ms, end)) && Ascending(Less, Payloads(acc))
    ensures DecodeMembers(n - 1, rest, acc') == Ok((ms, end)) && Ascending(Less, Payloads(acc'))
  {
    hide DecodeValue, DecodeMembers, Payloads, Ascending;
    var v: Value;
    v, rest := MembersAdvance(n, cur, acc, ms, end);
    acc' := acc + [v];
    MembersAscending(acc, v);
  }

  lemma {:induction false} DecodedAscending(n: nat, cur: Bytes, acc: seq<Value>, ms: seq<Value>, end: Bytes)
    requires DecodeMembers(n, cur, acc) == Ok((ms, end)) && Ascending(Less, Payloads(acc))
    ensures Ascending(Less, Payloads(ms))
    decreases n
  {
    hide DecodeValue, Payloads, Ascending, Less, Payload;
    if n > 0 {
      var rest, acc' := AscendingAdvance(n, cur, acc, ms, end);
      DecodedAscending(n - 1, rest, acc', ms, end);
    }
  }

  lemma {:induction false} InsertElements<K(!new)>(less: (K, K) -> bool, es: seq<Pair<K>>, k: K, v: Value)
    ensures forall e | e in Insert(less, es, k, v) :: e in es || e == Pair(k, v)
    ensures |Insert(less, es, k, v)| <= |es| + 1
  {
    if es != [] {
      InsertElements(less, es[1..], k, v);
    }
  }

  lemma {:induction false} FieldsAdvance(n: nat, cur: Bytes, acc: seq<Pair<string>>, fs: seq<Pair<string>>, end: Bytes)
    returns (k: string, mid: Bytes, v: Value, rest: Bytes, acc': seq<Pair<string>>)
    requires n > 0 && DecodeFields(n, cur, acc) == Ok((fs, end))
    ensures ReadStr(cur) == Ok((k, mid)) && DecodeValue(mid) == Ok((v, rest)) && |rest| < |mid| < |cur|
    ensures acc' == Insert(StrLess, acc, k, v) && DecodeFields(n - 1, rest, acc') == Ok((fs, end))
    ensures |acc'| <= |acc| + 1 && forall f | f in acc' :: f in acc || f == Pair(k, v)
  {
    k, mid := ReadStr(cur).value.0, ReadStr(cur).value.1;
    v, rest := DecodeValue(mid).value.0, DecodeValue(mid).value.1;
    acc' := Insert(StrLess, acc, k, v);
    InsertElements(StrLess, acc, k, v);
  }

  lemma {:induction false} FieldsAll(
    P: Value -> bool, n: nat, cur: Bytes, acc: seq<Pair<string>>, fs: seq<Pair<string>>, end: Bytes)
    requires Decodable(P, |cur|) && DecodeFields(n, cur, acc) == Ok((fs, end))
    requires forall f | f in acc :: P(f.val) && |ToUtf8(f.key)| < U32
    ensures |fs| <= |acc| + n
    ensures forall f | f in fs :: P(f.val) && |ToUtf8(f.key)| < U32
    decreases n
  {
    hide DecodeValue, Payload, Insert;
    if n > 0 {
      var k, mid, v, rest, acc' := FieldsAdvance(n, cur, acc, fs, end);
      ReadStrBound(cur);
      assert P(v);
      FieldsAll(P, n - 1, rest, acc', fs, end);
    }
  }

  lemma {:induction false} EntriesAdvance(n: nat, cur: Bytes, acc: seq<Pair<Scalar>>, es: seq<Pair<Scalar>>, end: Bytes)
    returns (k: Scalar, mid: Bytes, v: Value, rest: Bytes, acc': seq<Pair<Scalar>>)
    requires n > 0 && DecodeEntries(n, cur, acc) == Ok((es, end))
    ensures DecodeValue(cur) == Ok((Leaf(k), mid)) && DecodeValue(mid) == Ok((v, rest)) && |rest| < |mid| < |cur|
    ensures acc' == Insert(ScalarLess, acc, k, v) && DecodeEntries(n - 1, rest, acc') == Ok((es, end))
    ensures |acc'| <= |acc| + 1 && forall e | e in acc' :: e in acc || e == Pair(k, v)
  {
    k, mid := DecodeValue(cur).value.0.scalar, DecodeValue(cur).value.1;
    v, rest := DecodeValue(mid).value.0, DecodeValue(mid).value.1;
    acc' := Insert(ScalarLess, acc, k, v);
    InsertElements(ScalarLess, acc, k, v);
  }

  lemma {:induction false} EntriesAll(
    P: Value -> bool, n: nat, cur: Bytes, acc: seq<Pair<Scalar>>, es: seq<Pair<Scalar>>, end: Bytes)
    requires Decodable(P, |cur|) && DecodeEntries(n, cur, acc) == Ok((es, end))
    requires forall e | e in acc :: P(e.val) && P(Leaf(e.key))
    ensures |es| <= |acc| + n
    ensures forall e | e in es :: P(e.val) && P(Leaf(e.key))
    decreases n
  {
    hide DecodeValue, Payload, Insert;
    if n > 0 {
      var k, mid, v, rest, acc' := EntriesAdvance(n, cur, acc, es, end);
      assert P(Leaf(k)) && P(v);
      EntriesAll(P, n - 1, rest, acc', es, end);
    }
  }

  lemma {:induction false} FieldsSorted(
    n: nat, cur: Bytes, acc: seq<Pair<string>>, fs: seq<Pair<string>>, end: Bytes)
    requires DecodeFields(n, cur, acc) == Ok((fs, end)) && Sorted(StrLess, acc)
    ensures Sorted(StrLess, fs)
    decreases n
  {
    hide DecodeValue, Insert, Sorted, StrLess;
    if n > 0 {
      var k, mid, v, rest, acc' := FieldsAdvance(n, cur, acc, fs, end);
      StrOrder();
      InsertSorted(StrLess, acc, k, v);
      FieldsSorted(n - 1, rest, acc', fs, end);
    }
  }

  lemma {:induction false} EntriesSorted(
    n: nat, cur: Bytes, acc: seq<Pair<Scalar>>, es: seq<Pair<Scalar>>, end: Bytes)
    requires DecodeEntries(n, cur, acc) == Ok((es, end)) && Sorted(ScalarLess, acc)
    ensures Sorted(ScalarLess, es)
    decreases n
  {
    hide DecodeValue, Insert, Sorted, ScalarLess;
    if n > 0 {
      var k, mid, v, rest, acc' := EntriesAdvance(n, cur, acc, es, end);
      ScalarOrder();
      InsertSorted(ScalarLess, acc, k, v);
      EntriesSorted(n - 1, rest, acc', es, end);
    }
  }

  lemma {:induction false} GoodHash(fs: seq<Pair<string>>)
    requires Sorted(StrLess, fs) && |fs| < U32 && forall f | f in fs :: Good(f.val) && |ToUtf8(f.key)| < U32
    ensures Good(Hash(fs))
  {
    forall i | 0 <= i < |fs| ensures Good(fs[i].val) && |ToUtf8(fs[i].key)| < U32 { assert fs[i] in fs; }
  }

  lemma {:induction false} GoodSet(ms: seq<Value>)
    requires Ascending(Less, Payloads(ms)) && |ms| < U32 && forall m | m in ms :: Good(m)
    ensures Good(Set(ms))
  {
    forall i | 0 <= i < |ms| ensures Good(ms[i]) { assert ms[i] in ms; }
  }

  lemma {:induction false} GoodList(xs: seq<Value>)
    requires |xs| < U32 && forall x | x in xs :: Good(x)
    ensures Good(List(xs))
  {
    forall i | 0 <= i < |xs| ensures Good(xs[i]) { assert xs[i] in xs; }
  }

  lemma {:induction false} GoodTree(es: seq<Pair<Scalar>>)
    requires Sorted(ScalarLess, es) && |es| < U32 && forall e | e in es :: Good(e.val) && Good(Leaf(e.key))
    ensures Good(Tree(es))
  {
    forall i | 0 <= i < |es| ensures Good(es[i].val) && Good(Leaf(es[i].key)) { assert es[i] in es; }
  }

  lemma {:induction false} ManyUnfold(cur: Bytes, v: Value, end: Bytes) returns (n: nat, body: Bytes)
    requires DecodeValue(cur) == Ok((v, end)) && !v.Leaf?
    ensures n < U32 && |body| < |cur|
    ensures v.Hash? ==> DecodeFields(n, body, []) == Ok((v.fields, end))
    ensures v.Set? ==> DecodeMembers(n, body, []) == Ok((v.members, end))
    ensures v.List? ==> DecodeItems(n, body, []) == Ok((v.items, end))
    ensures v.Tree? ==> DecodeEntries(n, body, []) == Ok((v.entries, end))
  {
    var tag, rest := cur[0], cur[1..];
    n, body := ReadU32(rest).value.0, ReadU32(rest).value.1;
    ReadU32Bound(rest);
    assert DecodeMany(tag, n, body) == Ok((v, end));
  }

  /** Everything the decoder accepts is well formed, canonical, and fits. */
  lemma {:induction false} DecodedGood(cur: Bytes, v: Value, end: Bytes)
    requires DecodeValue(cur) == Ok((v, end))
    ensures Good(v)
    decreases |cur|
  {
    if v.Leaf? {
      DecodedScalarFits(cur[0], cur[1..]);
    } else {
      var n, body := ManyUnfold(cur, v, end);
      var P := (w: Value) => Good(w);
      forall c: Bytes | |c| <= |body| && DecodeValue(c).Ok?
        ensures P(DecodeValue(c).value.0)
      {
        DecodedGood(c, DecodeValue(c).value.0, DecodeValue(c).value.1);
      }
      DecodedMany(P, n, body, v, end);
    }
  }

  lemma {:induction false} DecodedMany(P: Value -> bool, n: nat, body: Bytes, v: Value, end: Bytes)
    requires Decodable(P, |body|) && n < U32 && !v.Leaf? && forall w | P(w) :: Good(w)
    requires v.Hash? ==> DecodeFields(n, body, []) == Ok((v.fields, end))
    requires v.Set? ==> DecodeMembers(n, body, []) == Ok((v.members, end))
    requires v.List? ==> DecodeItems(n, body, []) == Ok((v.items, end))
    requires v.Tree? ==> DecodeEntries(n, body, []) == Ok((v.entries, end))
    ensures Good(v)
  {
    match v
    case Hash(fs) =>
      FieldsAll(P, n, body, [], fs, end);
      FieldsSorted(n, body, [], fs, end);
      GoodHash(fs);
    case Set(ms) =>
      MembersAll(P, n, body, [], ms, end);
      DecodedAscending(n, body, [], ms, end);
      GoodSet(ms);
    case List(xs) =>
      ItemsAll(P, n, body, [], xs, end);
      GoodList(xs);
    case Tree(es) =>
      EntriesAll(P, n, body, [], es, end);
      EntriesSorted(n, body, [], es, end);
      GoodTree(es);
  }

  // ----- the laws -----

  /**
   * Decoding the payload of any value with anything behind it gives the canonical form and
   * leaves exactly what was behind it.
   */
  lemma {:induction false} PayloadRoundTrip(v: Value, s: Bytes)
    requires WellFormed(v) && Fits(Canon(v))
    ensures DecodeValue(Payload(v) + s) == Ok((Canon(v), s))
  {
    CanonIsCanonical(v);
    CanonPayload(v);
    DecodeFront(Canon(v), s);
  }

  /** The round trip holds exactly when every length of the canonical form fits its u32. */
  lemma {:induction false} RoundTripIff(v: Value)
    requires WellFormed(v)
    ensures Decode(Encode(v)) == Ok(Canon(v)) <==> Fits(Canon(v))
  {
    assert Encode(v)[1..] == Payload(v);
    if Fits(Canon(v)) {
      PayloadRoundTrip(v, []);
      assert Payload(v) + [] == Payload(v);
    } else if Decode(Encode(v)) == Ok(Canon(v)) {
      DecodedGood(Payload(v), Canon(v), []);
    }
  }

  /** Two lists of 2^32 and 0 nulls get the same length field: the bound is needed. */
  lemma {:induction false} LengthWraps(xs: seq<Value>)
    requires |xs| == U32
    ensures Payload(List(xs))[..5] == Payload(List([]))
    ensures Decode(Encode(List(xs))) != Ok(Canon(List(xs)))
  {
    WrappedLength();
    assert Encode(List(xs))[1..] == Payload(List(xs));
    if Decode(Encode(List(xs))) == Ok(Canon(List(xs))) {
      DecodedGood(Payload(List(xs)), Canon(List(xs)), []);
    }
  }

  lemma {:induction false} WrappedLength()
    ensures Le32(U32) == Le32(0)
  {
    assert Le(U32, 4) == [0] + Le(0x100_0000, 3);
    assert Le(0x100_0000, 3) == [0] + Le(0x1_0000, 2);
    assert Le(0x1_0000, 2) == [0] + Le(0x100, 1);
  }

  /** No payload is a proper prefix of another, up to canonical form. */
  lemma {:induction false} PrefixFree(v: Value, s: Bytes, w: Value, t: Bytes)
    requires WellFormed(v) && WellFormed(w) && Fits(Canon(v)) && Fits(Canon(w))
    requires Payload(v) + s == Payload(w) + t
    ensures Canon(v) == Canon(w) && s == t
  {
    PayloadRoundTrip(v, s);
    PayloadRoundTrip(w, t);
  }

  /** Equal encodings and equal canonical forms are the same thing. */
  lemma {:induction false} EncodingCanonical(v: Value, w: Value)
    requires WellFormed(v) && WellFormed(w) && Fits(Canon(v)) && Fits(Canon(w))
    ensures Encode(v) == Encode(w) <==> Canon(v) == Canon(w)
  {
    CanonPayload(v);
    CanonPayload(w);
    if Encode(v) == Encode(w) {
      assert Encode(v)[1..] == Payload(v) && Encode(w)[1..] == Payload(w);
      PrefixFree(v, [], w, []);
    }
  }

  /** Whatever decodes is canonical, and re-encoding it is a fixed point of the round trip. */
  lemma {:induction false} DecodedIsFixedPoint(b: Bytes)
    requires Decode(b).Ok?
    ensures var v := Decode(b).value;
            WellFormed(v) && Fits(v) && Canon(v) == v && Decode(Encode(v)) == Ok(v)
  {
    var v := Decode(b).value;
    DecodedGood(b[1..], v, []);
    CanonicalIsFixed(v);
    RoundTripIff(v);
  }

  // ----- types -----

  function TagName(tag: byte): string {
    if tag == TAG_NULL then "null"
    else if tag == TAG_BOOL then "bool"
    else if tag == TAG_INT then "int"
    else if tag == TAG_FLOAT then "float"
    else if tag == TAG_STRING then "string"
    else if tag == TAG_BYTES then "bytes"
    else if tag == TAG_HASH then "hash"
    else if tag == TAG_SET then "set"
    else if tag == TAG_LIST then "list"
    else "tree"
  }

  lemma {:induction false} PayloadTag(v: Value)
    ensures Payload(v) != [] && TagName(Payload(v)[0]) == TypeName(v)
  {
  }

  lemma {:induction false} DecodedScalarTag(tag: byte, cur: Bytes)
    requires ScalarTag(tag) && DecodeScalar(tag, cur).Ok?
    ensures TypeName(Leaf(DecodeScalar(tag, cur).value.0)) == TagName(tag)
  {
  }

  lemma {:induction false} DecodedManyTag(tag: byte, n: nat, cur: Bytes)
    requires tag in {TAG_HASH, TAG_SET, TAG_LIST, TAG_TREE} && DecodeMany(tag, n, cur).Ok?
    ensures TypeName(DecodeMany(tag, n, cur).value.0) == TagName(tag)
  {
  }

  lemma {:induction false} DecodedTag(cur: Bytes)
    requires DecodeValue(cur).Ok?
    ensures TypeName(DecodeValue(cur).value.0) == TagName(cur[0])
  {
    var tag, rest := cur[0], cur[1..];
    if ScalarTag(tag) {
      DecodedScalarTag(tag, rest);
    } else {
      DecodedManyTag(tag, ReadU32(rest).value.0, ReadU32(rest).value.1);
    }
  }

  /** Fitting or not, a value that comes back at all comes back with its type. */
  lemma {:induction false} TypeSurvives(v: Value)
    ensures Decode(Encode(v)).Ok? ==> TypeName(Decode(Encode(v)).value) == TypeName(v)
  {
    assert Encode(v)[1..] == Payload(v);
    PayloadTag(v);
    if Decode(Encode(v)).Ok? {
      DecodedTag(Payload(v));
    }
  }
}
