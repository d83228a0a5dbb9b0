/** Byte strings: the order of `Vec<u8>`, prefixes, and fixed-width integers. */
module ByteStrings {

  type byte = b: int | 0 <= b < 256
  type Bytes = seq<byte>

  const U32: nat := 0x1_0000_0000
  const U64: nat := 0x1_0000_0000_0000_0000
  const I64: nat := 0x8000_0000_0000_0000

  type u64 = n: int | 0 <= n < 0x1_0000_0000_0000_0000
  type i64 = n: int | -0x8000_0000_0000_0000 <= n < 0x8000_0000_0000_0000

  datatype Option<+T> = None | Some(value: T)

  datatype Result<+T, +E> = Ok(value: T) | Err(error: E) {
    predicate IsFailure() {
      Err?
    }

    function PropagateFailure<U>(): Result<U, E>
      requires Err?
    {
      Err(error)
    }

    function Extract(): T
      requires Ok?
    {
      value
    }
  }

  /** Apply `f` to each element in turn, or stop at the first error. */
  function Traverse<A, B, E>(f: A -> Result<B, E>, xs: seq<A>): Result<seq<B>, E> {
    if xs == [] then Ok([]) else
    var y :- f(xs[0]);
    var rest :- Traverse(f, xs[1..]);
    Ok([y] + rest)
  }

  lemma {:induction false} TraverseOk<A, B, E>(f: A -> Result<B, E>, xs: seq<A>, ys: seq<B>)
    requires |ys| == |xs| && forall i | 0 <= i < |xs| :: f(xs[i]) == Ok(ys[i])
    ensures Traverse(f, xs) == Ok(ys)
  {
    if xs != [] {
      TraverseOk(f, xs[1..], ys[1..]);
      assert ys == [ys[0]] + ys[1..];
    }
  }

  lemma {:induction false} TraverseErr<A, B, E>(f: A -> Result<B, E>, xs: seq<A>, i: nat)
    requires i < |xs| && f(xs[i]).Err?
    ensures Traverse(f, xs).Err?
  {
    if i > 0 {
      TraverseErr(f, xs[1..], i - 1);
    }
  }

  // ----- prefixes and lexicographic order -----

  predicate StartsWith(s: Bytes, p: Bytes) {
    |p| <= |s| && s[..|p|] == p
  }

  predicate Less(a: Bytes, b: Bytes) {
    && b != []
    && (a == [] || a[0] < b[0] || (a[0] == b[0] && Less(a[1..], b[1..])))
  }

  lemma {:induction false} LessIrreflexive(a: Bytes)
    ensures !Less(a, a)
  {
    if a != [] {
      LessIrreflexive(a[1..]);
    }
  }

  lemma {:induction false} LessTransitive(a: Bytes, b: Bytes, c: Bytes)
    requires Less(a, b) && Less(b, c)
    ensures Less(a, c)
  {
    if a != [] && a[0] == b[0] == c[0] {
      LessTransitive(a[1..], b[1..], c[1..]);
    }
  }

  lemma {:induction false} LessTotal(a: Bytes, b: Bytes)
    ensures a == b || Less(a, b) || Less(b, a)
  {
    if a != [] && b != [] && a[0] == b[0] {
      LessTotal(a[1..], b[1..]);
      assert a == [a[0]] + a[1..] && b == [b[0]] + b[1..];
    }
  }

  lemma {:induction false} LessAsymmetric(a: Bytes, b: Bytes)
    requires Less(a, b)
    ensures !Less(b, a) && a != b
  {
    if Less(b, a) {
      LessTransitive(a, b, a);
    }
    LessIrreflexive(a);
  }

  /** A key with prefix `p` never sorts before `p`, so a range scan from `p` sees it. */
  lemma {:induction false} PrefixNotLess(k: Bytes, p: Bytes)
    requires StartsWith(k, p)
    ensures !Less(k, p)
  {
    if p != [] {
      assert k[0] == p[0] by { assert k[..|p|][0] == p[0]; }
      assert k[1..][..|p| - 1] == k[..|p|][1..];
      PrefixNotLess(k[1..], p[1..]);
    }
  }

  /** Keys with prefix `p` are contiguous from `p` on, so a scan may stop at the first miss. */
  lemma {:induction false} PrefixConvex(p: Bytes, k: Bytes, k': Bytes)
    requires !Less(k, p) && Less(k, k') && StartsWith(k', p)
    ensures StartsWith(k, p)
  {
    if p != [] {
      assert k'[0] == p[0] by { assert k'[..|p|][0] == p[0]; }
      assert k'[1..][..|p| - 1] == k'[..|p|][1..];
      PrefixConvex(p[1..], k[1..], k'[1..]);
      assert k[..|p|] == [k[0]] + k[1..][..|p| - 1];
      assert p == [p[0]] + p[1..];
    }
  }

  /** Comparing two strings behind the same prefix compares what follows it. */
  lemma {:induction false} LessBehindPrefix(p: Bytes, a: Bytes, b: Bytes)
    ensures Less(p + a, p + b) == Less(a, b)
  {
    if p == [] {
      assert p + a == a && p + b == b;
    } else {
      assert (p + a)[1..] == p[1..] + a && (p + b)[1..] == p[1..] + b;
      LessBehindPrefix(p[1..], a, b);
    }
  }

  // ----- concatenation -----

  function Concat(parts: seq<Bytes>): Bytes {
    if parts == [] then [] else parts[0] + Concat(parts[1..])
  }

  lemma {:induction false} ConcatSnoc(parts: seq<Bytes>, p: Bytes)
    ensures Concat(parts + [p]) == Concat(parts) + p
  {
    if parts == [] {
      assert parts + [p] == [p];
    } else {
      assert (parts + [p])[1..] == parts[1..] + [p];
      ConcatSnoc(parts[1..], p);
    }
  }

  // ----- division -----

  lemma {:induction false} Quotient(n: nat, k: nat, q: nat, r: nat)
    requires k > 0 && n == q * k + r && r < k
    ensures n / k == q
  {
    var p := n / k;
    var d: int := q - p;
    assert n == p * k + n % k;
    assert d * k == n % k - r;
    Small(d, k, n % k - r);
  }

  lemma {:induction false} Small(d: int, k: nat, x: int)
    requires d * k == x && -(k as int) < x < k
    ensures d == 0
  {
    Grows(d, k);
  }

  lemma {:induction false} Grows(d: int, k: nat)
    ensures d >= 1 ==> d * k >= k
    ensures d <= -1 ==> d * k <= -(k as int)
  {
    if d >= 1 {
      assert d * k == k + (d - 1) * k;
    } else if d <= -1 {
      assert d * k == -(k as int) + (d + 1) * k;
    }
  }

  // ----- fixed-width integers: `as uN` truncates, then to_le_bytes / to_be_bytes -----

  function Pow256(w: nat): (r: nat)
    ensures r > 0
  {
    if w == 0 then 1 else 256 * Pow256(w - 1)
  }

  function Le(n: nat, w: nat): (r: Bytes)
    ensures |r| == w
  {
    if w == 0 then [] else [n % 256] + Le(n / 256, w - 1)
  }

  function FromLe(b: Bytes): (n: nat) {
    if b == [] then 0 else b[0] + 256 * FromLe(b[1..])
  }

  function Be(n: nat, w: nat): (r: Bytes)
    ensures |r| == w
  {
    if w == 0 then [] else Be(n / 256, w - 1) + [n % 256]
  }

  function FromBe(b: Bytes): (n: nat) {
    if b == [] then 0 else 256 * FromBe(b[..|b| - 1]) + b[|b| - 1]
  }

  lemma {:induction false} LeRoundTrip(n: nat, w: nat)
    requires n < Pow256(w)
    ensures FromLe(Le(n, w)) == n
  {
    if w > 0 {
      LeRoundTrip(n / 256, w - 1);
      assert Le(n, w)[1..] == Le(n / 256, w - 1);
    }
  }

  lemma {:induction false} FromLeBound(b: Bytes)
    ensures FromLe(b) < Pow256(|b|)
  {
    if b != [] {
      FromLeBound(b[1..]);
    }
  }

  lemma {:induction false} BeRoundTrip(n: nat, w: nat)
    requires n < Pow256(w)
    ensures FromBe(Be(n, w)) == n
  {
    if w > 0 {
      BeRoundTrip(n / 256, w - 1);
      assert Be(n, w)[..w - 1] == Be(n / 256, w - 1);
    }
  }

  lemma {:induction false} FromBeBound(b: Bytes)
    ensures FromBe(b) < Pow256(|b|)
  {
    if b != [] {
      FromBeBound(b[..|b| - 1]);
    }
  }

  lemma {:induction false} Widths()
    ensures Pow256(4) == U32 && Pow256(8) == U64
  {
  }

  function Le32(n: nat): (r: Bytes)
    ensures |r| == 4
  {
    Le(n, 4)
  }

  /** A length prefix, cast to 32 bits, and then the bytes. */
  function Blob(b: Bytes): Bytes {
    Le32(|b|) + b
  }

  lemma {:induction false} Le32RoundTrip(n: nat)
    requires n < U32
    ensures FromLe(Le32(n)) == n
  {
    Widths();
    LeRoundTrip(n, 4);
  }

  /** Two's complement, as `i64::to_le_bytes` lays it out. */
  function Unsigned(n: i64): u64 {
    if n < 0 then n + U64 else n
  }

  function Signed(n: u64): i64 {
    if n < I64 then n else n - U64
  }

  // ----- little-endian words, digit by digit -----

  function Word32(n: nat): Bytes {
    [n % 256, n / 0x100 % 256, n / 0x1_0000 % 256, n / 0x100_0000 % 256]
  }

  function Word64(n: nat): Bytes {
    Word32(n) + Word32(n / 0x1_0000_0000)
  }

  lemma {:induction false} LeFour(n: nat, w: nat)
    ensures Le(n, w + 4) == Word32(n) + Le(n / 0x1_0000_0000, w)
  {
    var a, b, c, d := n / 256, n / 256 / 256, n / 256 / 256 / 256, n / 256 / 256 / 256 / 256;
    assert Le(n, w + 4) == [n % 256] + Le(a, w + 3);
    assert Le(a, w + 3) == [a % 256] + Le(b, w + 2);
    assert Le(b, w + 2) == [b % 256] + Le(c, w + 1);
    assert Le(c, w + 1) == [c % 256] + Le(d, w);
    assert b == n / 0x1_0000 && c == n / 0x100_0000 && d == n / 0x1_0000_0000;
  }

  lemma {:induction false} Le4(n: nat)
    ensures Le(n, 4) == Word32(n)
  {
    LeFour(n, 0);
  }

  lemma {:induction false} Le8(n: nat)
    ensures Le(n, 8) == Word64(n)
  {
    LeFour(n, 4);
    LeFour(n / 0x1_0000_0000, 0);
  }
}
