/** Strictly ascending sequences over any total order. */
module Orders {
  import opened ByteStrings

  ghost predicate StrictOrder<T(!new)>(less: (T, T) -> bool) {
    && (forall x: T :: !less(x, x))
    && (forall x: T, y: T :: less(x, y) || less(y, x) || x == y)
    && (forall x: T, y: T, z: T :: less(x, y) && less(y, z) ==> less(x, z))
  }

  lemma {:induction false} BytesOrder()
    ensures StrictOrder(Less)
  {
    forall x: Bytes
      ensures !Less(x, x)
    {
      LessIrreflexive(x);
    }
    forall x: Bytes, y: Bytes
      ensures Less(x, y) || Less(y, x) || x == y
    {
      LessTotal(x, y);
    }
    forall x: Bytes, y: Bytes, z: Bytes | Less(x, y) && Less(y, z)
      ensures Less(x, z)
    {
      LessTransitive(x, y, z);
    }
  }

  ghost predicate Ascending<T(!new)>(less: (T, T) -> bool, s: seq<T>) {
    forall i, j | 0 <= i < j < |s| :: less(s[i], s[j])
  }

  lemma {:induction false} AscendingFirst<T(!new)>(less: (T, T) -> bool, s: seq<T>, a: T, b: T)
    requires |s| > 1 && Ascending(less, s) && a == s[0] && b == s[1]
    ensures less(a, b)
  {
  }

  lemma {:induction false} AscendingTail<T(!new)>(less: (T, T) -> bool, s: seq<T>, t: seq<T>)
    requires s != [] && Ascending(less, s) && t == s[1..]
    ensures Ascending(less, t)
  {
  }

  lemma {:induction false} AscendingCons<T(!new)>(less: (T, T) -> bool, x: T, s: seq<T>)
    requires Ascending(less, s) && forall y | y in s :: less(x, y)
    ensures Ascending(less, [x] + s)
  {
  }

  function InsertUnique<T(==)>(less: (T, T) -> bool, x: T, s: seq<T>): seq<T> {
    if s == [] || less(x, s[0]) then [x] + s
    else if s[0] == x then s
    else [s[0]] + InsertUnique(less, x, s[1..])
  }

  /** The outcome of a sort followed by removing equal neighbours. */
  function SortUnique<T(==)>(less: (T, T) -> bool, s: seq<T>): seq<T> {
    if s == [] then [] else InsertUnique(less, s[0], SortUnique(less, s[1..]))
  }

  lemma {:induction false} InsertUniqueSpec<T(!new)>(less: (T, T) -> bool, x: T, s: seq<T>)
    requires StrictOrder(less) && Ascending(less, s)
    ensures Ascending(less, InsertUnique(less, x, s))
    ensures forall y :: y in InsertUnique(less, x, s) <==> y in s || y == x
  {
    if s == [] {
    } else if less(x, s[0]) {
      assert forall j | 0 <= j < |s| :: less(x, s[j]);
    } else if s[0] != x {
      InsertUniqueSpec(less, x, s[1..]);
      var r := InsertUnique(less, x, s[1..]);
      forall j | 0 <= j < |r|
        ensures less(s[0], r[j])
      {
        assert r[j] in s[1..] || r[j] == x;
      }
      assert forall y :: y in s <==> y == s[0] || y in s[1..];
    }
  }

  /** Strictly ascending, and nothing gained or lost. */
  lemma {:induction false} SortUniqueSpec<T(!new)>(less: (T, T) -> bool, s: seq<T>)
    requires StrictOrder(less)
    ensures Ascending(less, SortUnique(less, s))
    ensures forall y :: y in SortUnique(less, s) <==> y in s
  {
    if s != [] {
      SortUniqueSpec(less, s[1..]);
      InsertUniqueSpec(less, s[0], SortUnique(less, s[1..]));
      assert forall y :: y in s <==> y == s[0] || y in s[1..];
    }
  }

  lemma {:induction false} HeadIsLeast<T(!new)>(less: (T, T) -> bool, s: seq<T>, t: seq<T>)
    requires StrictOrder(less) && Ascending(less, s) && Ascending(less, t) && s != [] && t != []
    requires forall y :: y in s <==> y in t
    ensures s[0] == t[0]
  {
    assert s[0] in t && t[0] in s;
    var i :| 0 <= i < |t| && t[i] == s[0];
    var j :| 0 <= j < |s| && s[j] == t[0];
  }

  lemma {:induction false} SomeElement<T>(s: seq<T>)
    requires s != []
    ensures exists y :: y in s
  {
    assert s[0] in s;
  }

  /** A strictly ascending sequence is determined by its set of elements. */
  lemma {:induction false} AscendingUnique<T(!new)>(less: (T, T) -> bool, s: seq<T>, t: seq<T>)
    requires StrictOrder(less) && Ascending(less, s) && Ascending(less, t)
    requires forall y :: y in s <==> y in t
    ensures s == t
  {
    if s == [] {
      if t != [] { SomeElement(t); }
    } else if t == [] {
      SomeElement(s);
    } else {
      HeadIsLeast(less, s, t);
      assert s[0] !in s[1..] && t[0] !in t[1..];
      assert forall y :: y in s <==> y == s[0] || y in s[1..];
      assert forall y :: y in t <==> y == t[0] || y in t[1..];
      AscendingUnique(less, s[1..], t[1..]);
      assert s == [s[0]] + s[1..] && t == [t[0]] + t[1..];
    }
  }

  lemma {:induction false} SortUniqueFixed<T(!new)>(less: (T, T) -> bool, s: seq<T>)
    requires StrictOrder(less) && Ascending(less, s)
    ensures SortUnique(less, s) == s
  {
    SortUniqueSpec(less, s);
    AscendingUnique(less, SortUnique(less, s), s);
  }

  // ----- stable sorting -----

  function InsertBy<T>(less: (T, T) -> bool, x: T, s: seq<T>): seq<T> {
    if s == [] || !less(s[0], x) then [x] + s else [s[0]] + InsertBy(less, x, s[1..])
  }

  function SortBy<T>(less: (T, T) -> bool, s: seq<T>): seq<T> {
    if s == [] then [] else InsertBy(less, s[0], SortBy(less, s[1..]))
  }

  lemma {:induction false} InsertByElements<T(!new)>(less: (T, T) -> bool, x: T, s: seq<T>)
    ensures forall y :: y in InsertBy(less, x, s) <==> y in s || y == x
    ensures |InsertBy(less, x, s)| == |s| + 1
  {
    if s != [] && less(s[0], x) {
      InsertByElements(less, x, s[1..]);
      assert forall y :: y in s <==> y == s[0] || y in s[1..];
    }
  }

  lemma {:induction false} SortByElements<T(!new)>(less: (T, T) -> bool, s: seq<T>)
    ensures forall y :: y in SortBy(less, s) <==> y in s
    ensures |SortBy(less, s)| == |s|
  {
    if s != [] {
      SortByElements(less, s[1..]);
      InsertByElements(less, s[0], SortBy(less, s[1..]));
      assert forall y :: y in s <==> y == s[0] || y in s[1..];
    }
  }

  /** Sorting what is already strictly ascending changes nothing. */
  lemma {:induction false} SortByFixed<T(!new)>(less: (T, T) -> bool, s: seq<T>)
    requires Ascending(less, s) && forall x, y :: less(x, y) ==> !less(y, x)
    ensures SortBy(less, s) == s
  {
    if s != [] {
      SortByFixed(less, s[1..]);
      assert |s| > 1 ==> less(s[0], s[1]);
      assert s == [s[0]] + s[1..];
    }
  }

  ghost predicate Distinct<T(!new)>(s: seq<T>) {
    forall i, j | 0 <= i < j < |s| :: s[i] != s[j]
  }

  ghost predicate Transitive<T(!new)>(less: (T, T) -> bool) {
    forall x: T, y: T, z: T :: less(x, y) && less(y, z) ==> less(x, z)
  }

  lemma {:induction false} InsertByAscending<T(!new)>(less: (T, T) -> bool, x: T, s: seq<T>)
    requires Transitive(less) && Ascending(less, s) && forall y | y in s :: less(x, y) || less(y, x)
    ensures Ascending(less, InsertBy(less, x, s))
  {
    if s == [] {
    } else if less(s[0], x) {
      InsertByAscending(less, x, s[1..]);
      InsertByElements(less, x, s[1..]);
      AscendingCons(less, s[0], InsertBy(less, x, s[1..]));
    } else {
      assert less(x, s[0]);
      AscendingCons(less, x, s);
    }
  }

  /** Distinct comparable elements come out strictly ascending. */
  lemma {:induction false} SortByAscending<T(!new)>(less: (T, T) -> bool, s: seq<T>)
    requires Transitive(less) && Distinct(s)
    requires forall x, y | x in s && y in s && x != y :: less(x, y) || less(y, x)
    ensures Ascending(less, SortBy(less, s))
  {
    if s != [] {
      SortByAscending(less, s[1..]);
      SortByElements(less, s[1..]);
      assert s[0] !in s[1..];
      InsertByAscending(less, s[0], SortBy(less, s[1..]));
    }
  }

  lemma {:induction false} AscendingConcat<T(!new)>(less: (T, T) -> bool, s: seq<T>, t: seq<T>)
    requires Ascending(less, s) && Ascending(less, t) && forall x, y | x in s && y in t :: less(x, y)
    ensures Ascending(less, s + t)
  {
  }

  ghost predicate Related<A, B(!new)>(rel: (A, B) -> bool, x: A) {
    exists y :: rel(x, y)
  }

  lemma {:induction false} ChooseAll<A, B(!new)>(rel: (A, B) -> bool, xs: seq<A>) returns (ys: seq<B>)
    requires forall i | 0 <= i < |xs| :: Related(rel, xs[i])
    ensures |ys| == |xs| && forall i | 0 <= i < |ys| :: rel(xs[i], ys[i])
  {
    ys := [];
    if xs != [] {
      var y :| rel(xs[0], y);
      var rest := ChooseAll(rel, xs[1..]);
      ys := [y] + rest;
    }
  }
}
