/** The encoder and decoder as the code runs them: an output buffer and an input cursor. */
module CodecLoops {
  import opened ByteStrings
  import opened Utf8
  import opened Orders
  import opened Strings
  import opened Values
  import opened Codec
  import opened CodecTheorems

  // ----- sort, then drop equal neighbours -----

  ghost predicate Weakly<T(!new)>(less: (T, T) -> bool, s: seq<T>) {
    forall i, j | 0 <= i < j < |s| :: !less(s[j], s[i])
  }

  lemma {:induction false} InsertByWeakly<T(!new)>(less: (T, T) -> bool, x: T, s: seq<T>)
    requires StrictOrder(less) && Weakly(less, s)
    ensures Weakly(less, InsertBy(less, x, s))
  {
    if s == [] {
    } else if less(s[0], x) {
      InsertByWeakly(less, x, s[1..]);
      InsertByElements(less, x, s[1..]);
      var r := InsertBy(less, x, s[1..]);
      forall j | 0 <= j < |r|
        ensures !less(r[j], s[0])
      {
        assert r[j] in r;
        assert less(x, s[0]) ==> less(x, x);
      }
    } else {
      forall j | 0 <= j < |s|
        ensures !less(s[j], x)
      {
        assert j > 0 ==> !less(s[j], s[0]);
      }
    }
  }

  lemma {:induction false} SortByWeakly<T(!new)>(less: (T, T) -> bool, s: seq<T>)
    requires StrictOrder(less)
    ensures Weakly(less, SortBy(less, s))
  {
    if s != [] {
      SortByWeakly(less, s[1..]);
      InsertByWeakly(less, s[0], SortBy(less, s[1..]));
    }
  }

  lemma {:induction false} NextLarger<T(!new)>(less: (T, T) -> bool, sorted: seq<T>, i: nat, out: seq<T>)
    requires StrictOrder(less) && Weakly(less, sorted) && i < |sorted| && Ascending(less, out)
    requires forall y :: y in out <==> y in sorted[..i]
    requires out != [] ==> out[|out| - 1] != sorted[i]
    ensures Ascending(less, out + [sorted[i]])
  {
    var x := sorted[i];
    forall k | 0 <= k < |out|
      ensures less(out[k], x)
    {
      assert out[k] in sorted[..i];
      var j :| 0 <= j < i && sorted[j] == out[k];
      assert !less(x, sorted[j]);
      assert out[|out| - 1] in sorted[..i];
      var l :| 0 <= l < i && sorted[l] == out[|out| - 1];
      assert !less(x, sorted[l]);
    }
  }

  /** The sort is the library's; the pass removing repeats is written out. */
  method SortDedup(encoded: seq<Bytes>) returns (out: seq<Bytes>)
    ensures out == SortUnique(Less, encoded)
  {
    hide Less, SortBy, SortUnique;
    var sorted := SortBy(Less, encoded);
    BytesOrder();
    SortByWeakly(Less, encoded);
    SortByElements(Less, encoded);
    out := [];
    for i := 0 to |sorted|
      invariant Ascending(Less, out) && forall y :: y in out <==> y in sorted[..i]
    {
      assert sorted[..i + 1] == sorted[..i] + [sorted[i]];
      if out == [] || out[|out| - 1] != sorted[i] {
        NextLarger(Less, sorted, i, out);
        out := out + [sorted[i]];
      }
    }
    assert sorted[..|sorted|] == sorted;
    SortUniqueSpec(Less, encoded);
    AscendingUnique(Less, out, SortUnique(Less, encoded));
  }

  // ----- encoding -----

  lemma {:induction false} FieldsSnoc(fs: seq<Pair<string>>, f: Pair<string>)
    ensures FieldsPayload(fs + [f]) == FieldsPayload(fs) + FieldPayload(f)
  {
    hide FieldPayload;
    if fs == [] {
      assert fs + [f] == [f];
    } else {
      assert (fs + [f])[1..] == fs[1..] + [f];
      FieldsSnoc(fs[1..], f);
    }
  }

  lemma {:induction false} EntriesSnoc(es: seq<Pair<Scalar>>, e: Pair<Scalar>)
    ensures EntriesPayload(es + [e]) == EntriesPayload(es) + EntryPayload(e)
  {
    hide EntryPayload;
    if es == [] {
      assert es + [e] == [e];
    } else {
      assert (es + [e])[1..] == es[1..] + [e];
      EntriesSnoc(es[1..], e);
    }
  }

  method WriteScalar(x: Scalar, buf: Bytes) returns (out: Bytes)
    ensures out == buf + ScalarPayload(x)
  {
    match x
    case Null => out := buf + [TAG_NULL];
    case Bool(b) => out := buf + [TAG_BOOL, if b then 1 else 0];
    case Int(n) =>
      out := buf + [TAG_INT];
      out := out + Le(Unsigned(n), 8);
    case Float(bits) =>
      out := buf + [TAG_FLOAT];
      out := out + Le(bits, 8);
    case Str(s) =>
      out := buf + [TAG_STRING];
      out := out + Blob(ToUtf8(s));
    case Bin(b) =>
      out := buf + [TAG_BYTES];
      out := out + Blob(b);
  }

  method WriteValue(v: Value, buf: Bytes) returns (out: Bytes)
    ensures out == buf + Payload(v)
    decreases v, 1
  {
    match v
    case Leaf(x) => out := WriteScalar(x, buf);
    case Hash(fs) => out := WriteFields(fs, buf + [TAG_HASH] + Le32(|fs|));
    case Set(ms) =>
      var encoded := EncodeEach(ms);
      encoded := SortDedup(encoded);
      out := WriteAll(encoded, buf + [TAG_SET] + Le32(|encoded|));
    case List(xs) => out := WriteItems(xs, buf + [TAG_LIST] + Le32(|xs|));
    case Tree(es) => out := WriteEntries(es, buf + [TAG_TREE] + Le32(|es|));
  }

  method WriteFields(fs: seq<Pair<string>>, buf: Bytes) returns (out: Bytes)
    ensures out == buf + FieldsPayload(fs)
    decreases fs, 0
  {
    hide FieldPayload;
    out := buf;
    for i := 0 to |fs|
      invariant out == buf + FieldsPayload(fs[..i])
    {
      FieldsSnoc(fs[..i], fs[i]);
      assert fs[..i] + [fs[i]] == fs[..i + 1];
      out := WriteField(fs[i], out);
    }
    assert fs[..|fs|] == fs;
  }

  method WriteField(f: Pair<string>, buf: Bytes) returns (out: Bytes)
    ensures out == buf + FieldPayload(f)
    decreases f, 2
  {
    hide Payload;
    out := buf + Blob(ToUtf8(f.key));
    out := WriteValue(f.val, out);
  }

  method WriteEntry(e: Pair<Scalar>, buf: Bytes) returns (out: Bytes)
    ensures out == buf + EntryPayload(e)
    decreases e, 2
  {
    hide Payload, ScalarPayload;
    out := WriteScalar(e.key, buf);
    out := WriteValue(e.val, out);
  }

  method WriteEntries(es: seq<Pair<Scalar>>, buf: Bytes) returns (out: Bytes)
    ensures out == buf + EntriesPayload(es)
    decreases es, 0
  {
    hide EntryPayload;
    out := buf;
    for i := 0 to |es|
      invariant out == buf + EntriesPayload(es[..i])
    {
      EntriesSnoc(es[..i], es[i]);
      assert es[..i] + [es[i]] == es[..i + 1];
      out := WriteEntry(es[i], out);
    }
    assert es[..|es|] == es;
  }

  method WriteItems(xs: seq<Value>, buf: Bytes) returns (out: Bytes)
    ensures out == buf + Concat(Payloads(xs))
    decreases xs, 0
  {
    hide Payload;
    out := buf;
    for i := 0 to |xs|
      invariant out == buf + Concat(Payloads(xs[..i]))
    {
      PayloadsSnoc(xs[..i], xs[i]);
      ConcatSnoc(Payloads(xs[..i]), Payload(xs[i]));
      assert xs[..i] + [xs[i]] == xs[..i + 1];
      out := WriteValue(xs[i], out);
    }
    assert xs[..|xs|] == xs;
  }

  /** `encode_payload` of every member, each into a buffer of its own. */
  method EncodeEach(ms: seq<Value>) returns (encoded: seq<Bytes>)
    ensures encoded == Payloads(ms)
    decreases ms, 0
  {
    hide Payload;
    encoded := [];
    for i := 0 to |ms|
      invariant encoded == Payloads(ms[..i])
    {
      PayloadsSnoc(ms[..i], ms[i]);
      assert ms[..i] + [ms[i]] == ms[..i + 1];
      var one := WriteValue(ms[i], []);
      assert [] + Payload(ms[i]) == Payload(ms[i]);
      encoded := encoded + [one];
    }
    assert ms[..|ms|] == ms;
  }

  method WriteAll(parts: seq<Bytes>, buf: Bytes) returns (out: Bytes)
    ensures out == buf + Concat(parts)
  {
    out := buf;
    for i := 0 to |parts|
      invariant out == buf + Concat(parts[..i])
    {
      ConcatSnoc(parts[..i], parts[i]);
      assert parts[..i] + [parts[i]] == parts[..i + 1];
      out := out + parts[i];
    }
    assert parts[..|parts|] == parts;
  }

  method EncodeBytes(v: Value) returns (out: Bytes)
    ensures out == Encode(v)
  {
    out := WriteValue(v, [VERSION]);
  }

  // ----- decoding: what is left of the cursor comes back with the value -----

  method ReadValue(cur: Bytes) returns (r: Read<Value>)
    ensures r == DecodeValue(cur)
    decreases |cur|, 0
  {
    var head := ReadU8(cur);
    if head.Err? {
      return Err(head.error);
    }
    var (tag, rest) := head.value;
    if ScalarTag(tag) {
      var x := DecodeScalar(tag, rest);
      if x.Err? {
        return Err(x.error);
      }
      return Ok((Leaf(x.value.0), x.value.1));
    }
    if tag !in {TAG_HASH, TAG_SET, TAG_LIST, TAG_TREE} {
      return Err(UnknownTag(tag));
    }
    var count := ReadU32(rest);
    if count.Err? {
      return Err(count.error);
    }
    r := ReadMany(tag, count.value.0, count.value.1);
  }

  method ReadMany(tag: byte, n: nat, cur: Bytes) returns (r: Read<Value>)
    ensures r == DecodeMany(tag, n, cur)
    decreases |cur|, 2
  {
    hide DecodeFields, DecodeMembers, DecodeItems, DecodeEntries;
    if tag == TAG_HASH {
      var fs := ReadFields(n, cur);
      r := if fs.Err? then Err(fs.error) else Ok((Hash(fs.value.0), fs.value.1));
    } else if tag == TAG_SET {
      var ms := ReadMembers(n, cur);
      r := if ms.Err? then Err(ms.error) else Ok((Value.Set(ms.value.0), ms.value.1));
    } else if tag == TAG_LIST {
      var xs := ReadItems(n, cur);
      r := if xs.Err? then Err(xs.error) else Ok((List(xs.value.0), xs.value.1));
    } else {
      var es := ReadEntries(n, cur);
      r := if es.Err? then Err(es.error) else Ok((Tree(es.value.0), es.value.1));
    }
  }

  method ReadItems(n: nat, cur: Bytes) returns (r: Read<seq<Value>>)
    ensures r == DecodeItems(n, cur, [])
    decreases |cur|, 1
  {
    hide DecodeValue;
    var items: seq<Value>, rest := [], cur;
    for i := 0 to n
      invariant |rest| <= |cur|
      invariant DecodeItems(n - i, rest, items) == DecodeItems(n, cur, [])
    {
      var v := ReadValue(rest);
      if v.Err? {
        return Err(v.error);
      }
      items, rest := items + [v.value.0], v.value.1;
    }
    r := Ok((items, rest));
  }

  method ReadMembers(n: nat, cur: Bytes) returns (r: Read<seq<Value>>)
    ensures r == DecodeMembers(n, cur, [])
    decreases |cur|, 1
  {
    hide DecodeValue, Payload, Less;
    var members: seq<Value>, rest, last: Option<Bytes> := [], cur, None;
    for i := 0 to n
      invariant |rest| <= |cur|
      invariant DecodeMembers(n - i, rest, members) == DecodeMembers(n, cur, [])
      invariant last == if members == [] then None else Some(Payload(members[|members| - 1]))
    {
      var v := ReadValue(rest);
      if v.Err? {
        return Err(v.error);
      }
      var payload := WriteValue(v.value.0, []);
      assert [] + Payload(v.value.0) == Payload(v.value.0);
      if last.Some? && !Less(last.value, payload) {
        return Err(DuplicateSetMember);
      }
      last := Some(payload);
      members, rest := members + [v.value.0], v.value.1;
    }
    r := Ok((members, rest));
  }

  method ReadFields(n: nat, cur: Bytes) returns (r: Read<seq<Pair<string>>>)
    ensures r == DecodeFields(n, cur, [])
    decreases |cur|, 1
  {
    hide DecodeValue, ReadStr, Insert;
    var fields: seq<Pair<string>>, rest := [], cur;
    for i := 0 to n
      invariant |rest| <= |cur|
      invariant DecodeFields(n - i, rest, fields) == DecodeFields(n, cur, [])
    {
      var k := ReadStr(rest);
      if k.Err? {
        return Err(k.error);
      }
      var v := ReadValue(k.value.1);
      if v.Err? {
        return Err(v.error);
      }
      fields, rest := Insert(StrLess, fields, k.value.0, v.value.0), v.value.1;
    }
    r := Ok((fields, rest));
  }

  method ReadEntries(n: nat, cur: Bytes) returns (r: Read<seq<Pair<Scalar>>>)
    ensures r == DecodeEntries(n, cur, [])
    decreases |cur|, 1
  {
    hide DecodeValue, Insert;
    var entries: seq<Pair<Scalar>>, rest := [], cur;
    for i := 0 to n
      invariant |rest| <= |cur|
      invariant DecodeEntries(n - i, rest, entries) == DecodeEntries(n, cur, [])
    {
      var k := ReadValue(rest);
      if k.Err? {
        return Err(k.error);
      }
      if !k.value.0.Leaf? {
        return Err(UnknownTag(0xff));
      }
      var v := ReadValue(k.value.1);
      if v.Err? {
        return Err(v.error);
      }
      entries, rest := Insert(ScalarLess, entries, k.value.0.scalar, v.value.0), v.value.1;
    }
    r := Ok((entries, rest));
  }

  method DecodeBytes(b: Bytes) returns (r: Result<Value, CodecError>)
    ensures r == Decode(b)
  {
    hide DecodeValue;
    if b == [] {
      return Err(EmptyInput);
    }
    if b[0] != VERSION {
      return Err(UnsupportedVersion(b[0]));
    }
    var v := ReadValue(b[1..]);
    if v.Err? {
      return Err(v.error);
    }
    r := if v.value.1 != [] then Err(TrailingBytes) else Ok(v.value.0);
  }
}
