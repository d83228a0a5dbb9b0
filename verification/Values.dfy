/** Typed values: scalars, nested structures, and the ordered maps inside them. */
module Values {
  import opened ByteStrings
  import opened Orders
  import opened Strings

  datatype Scalar =
    | Null
    | Bool(b: bool)
    | Int(n: i64)
    | Float(bits: u64)
    | Str(s: string)
    | Bin(data: Bytes)

  /** A `BTreeMap` is the sequence of its entries in iteration order. */
  datatype Value =
    | Leaf(scalar: Scalar)
    | Hash(fields: seq<Pair<string>>)
    | Set(members: seq<Value>)
    | List(items: seq<Value>)
    | Tree(entries: seq<Pair<Scalar>>)

  /** One entry of an ordered map. */
  datatype Pair<+K> = Pair(key: K, val: Value)

  function TypeName(v: Value): string {
    match v
    case Leaf(Null) => "null"
    case Leaf(Bool(_)) => "bool"
    case Leaf(Int(_)) => "int"
    case Leaf(Float(_)) => "float"
    case Leaf(Str(_)) => "string"
    case Leaf(Bin(_)) => "bytes"
    case Hash(_) => "hash"
    case Set(_) => "set"
    case List(_) => "list"
    case Tree(_) => "tree"
  }

  // ----- key orders -----

  function Rank(s: Scalar): nat {
    match s
    case Null => 0
    case Bool(_) => 1
    case Int(_) => 2
    case Float(_) => 3
    case Str(_) => 4
    case Bin(_) => 5
  }

  /** The derived order of `Scalar`: by variant, then by content. */
  predicate ScalarLess(x: Scalar, y: Scalar) {
    Rank(x) < Rank(y) ||
    match (x, y)
    case (Bool(a), Bool(b)) => !a && b
    case (Int(a), Int(b)) => a < b
    case (Float(a), Float(b)) => a < b
    case (Str(a), Str(b)) => StrLess(a, b)
    case (Bin(a), Bin(b)) => Less(a, b)
    case _ => false
  }

  lemma {:induction false} ScalarOrder()
    ensures StrictOrder(ScalarLess)
  {
    StrOrder();
    BytesOrder();
    forall x: Scalar
      ensures !ScalarLess(x, x)
    {
      assert x.Str? ==> !StrLess(x.s, x.s);
      assert x.Bin? ==> !Less(x.data, x.data);
    }
    forall x: Scalar, y: Scalar
      ensures ScalarLess(x, y) || ScalarLess(y, x) || x == y
    {
      assert x.Str? && y.Str? ==> StrLess(x.s, y.s) || StrLess(y.s, x.s) || x.s == y.s;
      assert x.Bin? && y.Bin? ==> Less(x.data, y.data) || Less(y.data, x.data) || x.data == y.data;
    }
    forall x: Scalar, y: Scalar, z: Scalar | ScalarLess(x, y) && ScalarLess(y, z)
      ensures ScalarLess(x, z)
    {
      if x.Str? && y.Str? && z.Str? {
        assert StrLess(x.s, y.s) && StrLess(y.s, z.s);
      } else if x.Bin? && y.Bin? && z.Bin? {
        assert Less(x.data, y.data) && Less(y.data, z.data);
      }
    }
  }

  // ----- ordered maps -----

  ghost predicate Sorted<K(!new)>(less: (K, K) -> bool, es: seq<Pair<K>>) {
    forall i, j | 0 <= i < j < |es| :: less(es[i].key, es[j].key)
  }

  predicate Below<K>(less: (K, K) -> bool, es: seq<Pair<K>>, k: K) {
    forall i | 0 <= i < |es| :: less(es[i].key, k)
  }

  /** `BTreeMap::insert`: in key order, replacing an equal key. */
  function Insert<K(==)>(less: (K, K) -> bool, es: seq<Pair<K>>, k: K, v: Value): seq<Pair<K>> {
    if es == [] || less(k, es[0].key) then [Pair(k, v)] + es
    else if es[0].key == k then [Pair(k, v)] + es[1..]
    else [es[0]] + Insert(less, es[1..], k, v)
  }

  lemma {:induction false} InsertEmpty<K>(less: (K, K) -> bool, k: K, v: Value)
    ensures Insert(less, [], k, v) == [Pair(k, v)]
  {
  }

  lemma {:induction false} InsertLast<K(!new)>(less: (K, K) -> bool, es: seq<Pair<K>>, k: K, v: Value)
    requires StrictOrder(less) && Below(less, es, k)
    ensures Insert(less, es, k, v) == es + [Pair(k, v)]
  {
    if es != [] {
      assert less(es[0].key, k);
      InsertLast(less, es[1..], k, v);
      assert es == [es[0]] + es[1..];
    }
  }

  /** Inserting the next entry of a sorted map puts it last. */
  lemma {:induction false} InsertNext<K(!new)>(less: (K, K) -> bool, acc: seq<Pair<K>>, es: seq<Pair<K>>)
    requires StrictOrder(less) && es != [] && Sorted(less, acc + es)
    ensures Insert(less, acc, es[0].key, es[0].val) == acc + [es[0]]
    ensures acc + [es[0]] + es[1..] == acc + es
  {
    forall i | 0 <= i < |acc|
      ensures less(acc[i].key, es[0].key)
    {
      assert (acc + es)[i] == acc[i] && (acc + es)[|acc|] == es[0];
    }
    InsertLast(less, acc, es[0].key, es[0].val);
  }

  lemma {:induction false} InsertSorted<K(!new)>(less: (K, K) -> bool, es: seq<Pair<K>>, k: K, v: Value)
    requires StrictOrder(less) && Sorted(less, es)
    ensures Sorted(less, Insert(less, es, k, v))
    ensures forall e :: e in Insert(less, es, k, v) ==> e in es || e == Pair(k, v)
    ensures |Insert(less, es, k, v)| <= |es| + 1
  {
    if es != [] && !less(k, es[0].key) && es[0].key != k {
      InsertSorted(less, es[1..], k, v);
      var r := Insert(less, es[1..], k, v);
      forall j | 0 <= j < |r|
        ensures less(es[0].key, r[j].key)
      {
        assert r[j] in es[1..] || r[j] == Pair(k, v);
      }
    } else if es != [] && less(k, es[0].key) {
      forall j | 0 <= j < |es|
        ensures less(k, es[j].key)
      {
        assert j > 0 ==> less(es[0].key, es[j].key);
      }
    }
  }

  function Find<K(==)>(es: seq<Pair<K>>, k: K): Option<Value> {
    if es == [] then None else if es[0].key == k then Some(es[0].val) else Find(es[1..], k)
  }

  /** An insertion changes the lookup of its own key and of no other. */
  lemma {:induction false} InsertFind<K>(less: (K, K) -> bool, es: seq<Pair<K>>, k: K, v: Value, k': K)
    ensures Find(Insert(less, es, k, v), k') == if k' == k then Some(v) else Find(es, k')
  {
    if es == [] || less(k, es[0].key) {
      assert ([Pair(k, v)] + es)[1..] == es;
    } else if es[0].key == k {
      assert ([Pair(k, v)] + es[1..])[1..] == es[1..];
    } else {
      var r := Insert(less, es[1..], k, v);
      assert ([es[0]] + r)[1..] == r;
      InsertFind(less, es[1..], k, v, k');
    }
  }

  /** What the Rust types guarantee of a value: its maps are in key order, keys unique. */
  ghost predicate WellFormed(v: Value) {
    match v
    case Leaf(_) => true
    case Hash(fs) => Sorted(StrLess, fs) && forall i | 0 <= i < |fs| :: WellFormed(fs[i].val)
    case Set(ms) => forall i | 0 <= i < |ms| :: WellFormed(ms[i])
    case List(xs) => forall i | 0 <= i < |xs| :: WellFormed(xs[i])
    case Tree(es) => Sorted(ScalarLess, es) && forall i | 0 <= i < |es| :: WellFormed(es[i].val)
  }
}
