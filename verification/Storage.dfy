/** The key-value store: batches, ordered scans, and the in-memory backend. */
module Storage {
  import opened ByteStrings
  import opened Orders

  type Store = map<Bytes, Bytes>
  type Row = (Bytes, Bytes)

  datatype BatchOp = Put(key: Bytes, value: Bytes) | Delete(key: Bytes)

  function ApplyOp(m: Store, op: BatchOp): Store {
    match op
    case Put(k, v) => m[k := v]
    case Delete(k) => m - {k}
  }

  /** A batch takes effect in order. */
  function ApplyOps(m: Store, ops: seq<BatchOp>): Store
    decreases ops
  {
    if ops == [] then m else ApplyOps(ApplyOp(m, ops[0]), ops[1..])
  }

  lemma {:induction false} ApplyOpsConcat(m: Store, s: seq<BatchOp>, t: seq<BatchOp>)
    ensures ApplyOps(m, s + t) == ApplyOps(ApplyOps(m, s), t)
    decreases s
  {
    if s == [] {
      assert s + t == t;
    } else {
      assert (s + t)[1..] == s[1..] + t;
      ApplyOpsConcat(ApplyOp(m, s[0]), s[1..], t);
    }
  }

  // ----- the net effect of a batch -----

  /** What is written per key; `None` is a deletion. */
  type Patch = map<Bytes, Option<Bytes>>

  function Patched(m: Store, p: Patch): Store {
    map k | k in m.Keys + p.Keys && (k in p ==> p[k].Some?) :: if k in p then p[k].value else m[k]
  }

  function PatchOp(p: Patch, op: BatchOp): Patch {
    match op
    case Put(k, v) => p[k := Some(v)]
    case Delete(k) => p[k := None]
  }

  function PatchOps(p: Patch, ops: seq<BatchOp>): Patch
    decreases ops
  {
    if ops == [] then p else PatchOps(PatchOp(p, ops[0]), ops[1..])
  }

  lemma {:induction false} PatchedOp(m: Store, p: Patch, op: BatchOp)
    ensures Patched(m, PatchOp(p, op)) == ApplyOp(Patched(m, p), op)
  {
  }

  /** Applying a batch is applying its last write per key. */
  lemma {:induction false} ApplyIsPatch(m: Store, p: Patch, ops: seq<BatchOp>)
    ensures ApplyOps(Patched(m, p), ops) == Patched(m, PatchOps(p, ops))
    decreases ops
  {
    if ops != [] {
      PatchedOp(m, p, ops[0]);
      ApplyIsPatch(m, PatchOp(p, ops[0]), ops[1..]);
    }
  }

  /** Last-writer-wins operations may be replayed on their own outcome. */
  lemma {:induction false} ApplyIdempotent(m: Store, ops: seq<BatchOp>)
    ensures ApplyOps(ApplyOps(m, ops), ops) == ApplyOps(m, ops)
  {
    var p := PatchOps(map[], ops);
    ApplyIsPatch(m, map[], ops);
    assert Patched(m, map[]) == m;
    var m' := ApplyOps(m, ops);
    ApplyIsPatch(m', map[], ops);
    assert Patched(m', map[]) == m';
    assert Patched(Patched(m, p), p) == Patched(m, p);
  }

  // ----- iteration in key order -----

  lemma {:induction false} LeastExists(s: set<Bytes>)
    requires s != {}
    ensures exists k :: k in s && forall k' :: k' in s && k' != k ==> Less(k, k')
    decreases |s|
  {
    var x :| x in s;
    if s == {x} {
      assert x in s && forall k' :: k' in s && k' != x ==> Less(x, k');
    } else {
      var t := s - {x};
      assert |t| < |s|;
      assert t != {} by { assert s == t + {x}; }
      LeastExists(t);
      var y :| y in t && forall k' :: k' in t && k' != y ==> Less(y, k');
      LessTotal(x, y);
      if Less(x, y) {
        forall k' | k' in s && k' != x
          ensures Less(x, k')
        {
          if k' != y { LessTransitive(x, y, k'); }
        }
      } else {
        assert y in s && forall k' :: k' in s && k' != y ==> Less(y, k');
      }
    }
  }

  ghost function Least(s: set<Bytes>): (k: Bytes)
    requires s != {}
    ensures k in s && forall k' :: k' in s && k' != k ==> Less(k, k')
  {
    LeastExists(s);
    var k :| k in s && forall k' :: k' in s && k' != k ==> Less(k, k');
    k
  }

  /** The keys of `s` in ascending order. */
  ghost function SortedKeys(s: set<Bytes>): seq<Bytes>
    decreases |s|
  {
    if s == {} then [] else
    var k := Least(s);
    assert |s - {k}| < |s|;
    [k] + SortedKeys(s - {k})
  }

  lemma {:induction false} SortedKeysSpec(s: set<Bytes>)
    ensures Ascending(Less, SortedKeys(s))
    ensures forall k :: k in SortedKeys(s) <==> k in s
    decreases |s|
  {
    if s != {} {
      var k := Least(s);
      assert |s - {k}| < |s|;
      SortedKeysSpec(s - {k});
      AscendingCons(Less, k, SortedKeys(s - {k}));
    }
  }

  function RowsOf(m: Store, keys: seq<Bytes>): seq<Row>
    requires forall k | k in keys :: k in m
  {
    if keys == [] then [] else [(keys[0], m[keys[0]])] + RowsOf(m, keys[1..])
  }

  lemma {:induction false} RowsOfAt(m: Store, keys: seq<Bytes>)
    requires forall k | k in keys :: k in m
    ensures |RowsOf(m, keys)| == |keys|
    ensures forall i | 0 <= i < |keys| :: RowsOf(m, keys)[i] == (keys[i], m[keys[i]])
  {
    if keys != [] {
      RowsOfAt(m, keys[1..]);
    }
  }

  /** All rows of an ordered map. */
  ghost function Rows(m: Store): seq<Row> {
    SortedKeysSpec(m.Keys);
    RowsOf(m, SortedKeys(m.Keys))
  }

  ghost function PrefixKeys(m: Store, prefix: Bytes): set<Bytes> {
    set k | k in m && StartsWith(k, prefix)
  }

  /** The rows whose key has the prefix, in key order. */
  ghost function Scan(m: Store, prefix: Bytes): seq<Row> {
    SortedKeysSpec(PrefixKeys(m, prefix));
    RowsOf(m, SortedKeys(PrefixKeys(m, prefix)))
  }

  lemma {:induction false} SortedKeysCard(s: set<Bytes>)
    ensures |SortedKeys(s)| == |s|
    decreases |s|
  {
    if s != {} {
      var k := Least(s);
      assert |s - {k}| == |s| - 1;
      SortedKeysCard(s - {k});
    }
  }

  /** Any ascending listing of the same keys is the sorted one. */
  lemma {:induction false} SortedKeysUnique(s: set<Bytes>, r: seq<Bytes>)
    requires Ascending(Less, r) && forall k :: k in r <==> k in s
    ensures r == SortedKeys(s)
  {
    BytesOrder();
    SortedKeysSpec(s);
    AscendingUnique(Less, r, SortedKeys(s));
  }

  lemma {:induction false} RowsOfSnoc(m: Store, keys: seq<Bytes>, k: Bytes)
    requires k in m && forall k' | k' in keys :: k' in m
    ensures RowsOf(m, keys + [k]) == RowsOf(m, keys) + [(k, m[k])]
  {
    if keys == [] {
      assert keys + [k] == [k];
    } else {
      assert (keys + [k])[1..] == keys[1..] + [k];
      RowsOfSnoc(m, keys[1..], k);
    }
  }

  function KeepKeys(keys: seq<Bytes>, prefix: Bytes): seq<Bytes> {
    if keys == [] then []
    else (if StartsWith(keys[0], prefix) then [keys[0]] else []) + KeepKeys(keys[1..], prefix)
  }

  function KeepRows(rows: seq<Row>, prefix: Bytes): seq<Row> {
    if rows == [] then []
    else (if StartsWith(rows[0].0, prefix) then [rows[0]] else []) + KeepRows(rows[1..], prefix)
  }

  lemma {:induction false} KeepKeysSpec(keys: seq<Bytes>, prefix: Bytes)
    requires Ascending(Less, keys)
    ensures Ascending(Less, KeepKeys(keys, prefix))
    ensures forall k :: k in KeepKeys(keys, prefix) <==> k in keys && StartsWith(k, prefix)
  {
    hide Less, StartsWith;
    if keys != [] {
      KeepKeysSpec(keys[1..], prefix);
      assert forall k :: k in keys <==> k == keys[0] || k in keys[1..];
      if StartsWith(keys[0], prefix) {
        AscendingCons(Less, keys[0], KeepKeys(keys[1..], prefix));
      } else {
        assert KeepKeys(keys, prefix) == KeepKeys(keys[1..], prefix);
      }
    }
  }

  lemma {:induction false} KeepCommutes(m: Store, keys: seq<Bytes>, prefix: Bytes)
    requires forall k | k in keys :: k in m
    ensures forall k | k in KeepKeys(keys, prefix) :: k in m
    ensures RowsOf(m, KeepKeys(keys, prefix)) == KeepRows(RowsOf(m, keys), prefix)
  {
    hide StartsWith;
    if keys != [] {
      assert keys[0] in keys;
      KeepCommutes(m, keys[1..], prefix);
      var rest := KeepKeys(keys[1..], prefix);
      assert RowsOf(m, keys)[1..] == RowsOf(m, keys[1..]);
      if StartsWith(keys[0], prefix) {
        assert ([keys[0]] + rest)[1..] == rest;
      } else {
        assert [] + rest == rest;
      }
    }
  }

  /** The scan is the whole ordered map, filtered by prefix. */
  lemma {:induction false} ScanFilters(m: Store, prefix: Bytes)
    ensures Scan(m, prefix) == KeepRows(Rows(m), prefix)
  {
    hide Less, StartsWith, KeepKeys, KeepRows;
    var keys := SortedKeys(m.Keys);
    SortedKeysSpec(m.Keys);
    KeepKeysSpec(keys, prefix);
    KeepCommutes(m, keys, prefix);
    SortedKeysUnique(PrefixKeys(m, prefix), KeepKeys(keys, prefix));
  }

  // ----- the in-memory backend -----

  class MemoryStorage {
    var data: Store

    constructor ()
      ensures data == map[]
    {
      data := map[];
    }

    method Get(key: Bytes) returns (r: Option<Bytes>)
      ensures r == if key in data then Some(data[key]) else None
    {
      r := if key in data then Some(data[key]) else None;
    }

    method Commit(ops: seq<BatchOp>)
      modifies this
      ensures data == ApplyOps(old(data), ops)
    {
      for i := 0 to |ops|
        invariant ApplyOps(data, ops[i..]) == ApplyOps(old(data), ops)
      {
        data := ApplyOp(data, ops[i]);
        assert ops[i..][1..] == ops[i + 1..];
      }
    }

    /** A range scan from the prefix that stops at the first key without it. */
    method ScanPrefix(prefix: Bytes) returns (out: seq<Row>)
      ensures out == Scan(data, prefix)
    {
      out := ScanRange(data, prefix);
    }
  }

  method ScanRange(m: Store, prefix: Bytes) returns (out: seq<Row>)
    ensures out == Scan(m, prefix)
  {
    hide Less, StartsWith;
    out := [];
    ghost var seen: seq<Bytes> := [];
    var rest := set k | k in m && !Less(k, prefix);
    forall k | k in PrefixKeys(m, prefix) ensures k in rest { PrefixNotLess(k, prefix); }
    while rest != {}
      invariant rest <= m.Keys && forall k | k in rest :: !Less(k, prefix)
      invariant forall k | k in seen :: k in PrefixKeys(m, prefix)
      invariant forall k | k in PrefixKeys(m, prefix) :: k in seen || k in rest
      invariant Ascending(Less, seen)
      invariant forall k, k' | k in seen && k' in rest :: Less(k, k')
      invariant out == RowsOf(m, seen)
      decreases |rest|
    {
      LeastExists(rest);
      var k :| k in rest && forall k' :: k' in rest && k' != k ==> Less(k, k');
      if !StartsWith(k, prefix) {
        forall k' | k' in rest ensures !StartsWith(k', prefix) {
          if k' != k && StartsWith(k', prefix) { PrefixConvex(prefix, k, k'); }
        }
        break;
      }
      RowsOfSnoc(m, seen, k);
      out := out + [(k, m[k])];
      seen := seen + [k];
      rest := rest - {k};
    }
    SortedKeysUnique(PrefixKeys(m, prefix), seen);
  }

  /** A map in iteration order. */
  method InOrder(m: Store) returns (rows: seq<Row>)
    ensures rows == Rows(m) && |rows| == |m|
  {
    rows := ScanRange(m, []);
    assert PrefixKeys(m, []) == m.Keys;
    SortedKeysSpec(m.Keys);
    RowsOfAt(m, SortedKeys(m.Keys));
    SortedKeysCard(m.Keys);
  }

  method KeysInOrder(s: set<Bytes>) returns (keys: seq<Bytes>)
    ensures keys == SortedKeys(s)
  {
    hide Less;
    keys := [];
    var rest := s;
    while rest != {}
      invariant rest <= s && Ascending(Less, keys)
      invariant forall k :: k in s <==> k in keys || k in rest
      invariant forall k, k' | k in keys && k' in rest :: Less(k, k')
      decreases |rest|
    {
      LeastExists(rest);
      var k :| k in rest && forall k' :: k' in rest && k' != k ==> Less(k, k');
      keys := keys + [k];
      rest := rest - {k};
    }
    SortedKeysUnique(s, keys);
  }

  /** A scan finds nothing exactly when no key has the prefix. */
  lemma {:induction false} ScanEmpty(m: Store, prefix: Bytes)
    ensures Scan(m, prefix) == [] <==> forall k | k in m :: !StartsWith(k, prefix)
  {
    var keys := SortedKeys(PrefixKeys(m, prefix));
    SortedKeysSpec(PrefixKeys(m, prefix));
    RowsOfAt(m, keys);
    if keys != [] {
      assert keys[0] in keys;
    }
    assert forall k | k in m && StartsWith(k, prefix) :: k in PrefixKeys(m, prefix) && k in keys;
  }

  /** A map that holds just the rows with the prefix lists as the scan does. */
  lemma {:induction false} ScanIsRows(m: Store, prefix: Bytes, part: Store)
    requires forall k :: k in part <==> k in m && StartsWith(k, prefix)
    requires forall k | k in part :: part[k] == m[k]
    ensures Rows(part) == Scan(m, prefix)
  {
    assert part.Keys == PrefixKeys(m, prefix);
    var keys := SortedKeys(part.Keys);
    SortedKeysSpec(part.Keys);
    SameRows(m, part, keys);
  }

  lemma {:induction false} SameRows(m: Store, part: Store, keys: seq<Bytes>)
    requires forall k | k in keys :: k in m && k in part && m[k] == part[k]
    ensures RowsOf(m, keys) == RowsOf(part, keys)
  {
    if keys != [] {
      assert keys[0] in keys;
      SameRows(m, part, keys[1..]);
    }
  }
}
