/** The flat key layout of the namespace. */
module Keys {
  import opened ByteStrings
  import opened Utf8

  const ROOT: u64 := 1

  const META_NEXT_ID: Bytes := [109, 101, 116, 97, 47, 110, 101, 120, 116, 95, 105, 100]
  const META_VERSION: Bytes :=
    [109, 101, 116, 97, 47, 116, 121, 112, 101, 95, 105, 110, 100, 101, 120, 95, 118, 101, 114, 115, 105, 111, 110]
  const NODE: Bytes := [110, 111, 100, 101, 47]
  const CHILD: Bytes := [99, 104, 105, 108, 100, 47]
  const INDEX: Bytes := [105, 100, 120, 47, 116, 47]
  const SLASH: byte := 47

  function NodeKey(id: u64): Bytes {
    NODE + Be(id, 8)
  }

  function ChildPrefix(parent: u64): Bytes {
    CHILD + Be(parent, 8) + [SLASH]
  }

  function ChildKey(parent: u64, name: string): Bytes {
    ChildPrefix(parent) + ToUtf8(name)
  }

  function TypePrefix(ty: string): Bytes {
    INDEX + ToUtf8(ty) + [SLASH]
  }

  function TypeKey(ty: string, id: u64): Bytes {
    TypePrefix(ty) + Be(id, 8)
  }

  function EncodeId(id: nat): Bytes {
    Be(id, 8)
  }

  function DecodeId(b: Bytes): Option<u64> {
    if |b| != 8 then None else
    Widths();
    FromBeBound(b);
    Some(FromBe(b))
  }

  lemma {:induction false} IdRoundTrip(id: u64)
    ensures DecodeId(EncodeId(id)) == Some(id)
  {
    Widths();
    BeRoundTrip(id, 8);
  }

  lemma {:induction false} BeInjective(a: u64, b: u64)
    requires Be(a, 8) == Be(b, 8)
    ensures a == b
  {
    IdRoundTrip(a);
    IdRoundTrip(b);
  }

  /** Every kind of row the namespace keeps. */
  datatype Key =
    | KNext
    | KVersion
    | KNode(id: u64)
    | KChild(parent: u64, name: string)
    | KType(ty: string, id: u64)

  function Enc(k: Key): Bytes {
    match k
    case KNext => META_NEXT_ID
    case KVersion => META_VERSION
    case KNode(id) => NodeKey(id)
    case KChild(p, n) => ChildKey(p, n)
    case KType(ty, id) => TypeKey(ty, id)
  }

  lemma {:induction false} EncHead(k: Key)
    ensures Enc(k) != []
    ensures Enc(k)[0] == (match k case KNext => 109 case KVersion => 109 case KNode(_) => 110
                                  case KChild(_, _) => 99 case KType(_, _) => 105)
  {
  }

  lemma {:induction false} NodeKeyInjective(a: u64, b: u64)
    requires NodeKey(a) == NodeKey(b)
    ensures a == b
  {
    assert NodeKey(a)[5..] == Be(a, 8) && NodeKey(b)[5..] == Be(b, 8);
    BeInjective(a, b);
  }

  lemma {:induction false} ChildKeyInjective(p: u64, n: string, q: u64, m: string)
    requires ChildKey(p, n) == ChildKey(q, m)
    ensures p == q && n == m
  {
    assert ChildKey(p, n)[6..14] == Be(p, 8) && ChildKey(q, m)[6..14] == Be(q, 8);
    BeInjective(p, q);
    assert ChildKey(p, n)[15..] == ToUtf8(n) && ChildKey(q, m)[15..] == ToUtf8(m);
    Utf8Injective(n, m);
  }

  lemma {:induction false} TypeKeyInjective(t: string, a: u64, u: string, b: u64)
    requires TypeKey(t, a) == TypeKey(u, b)
    ensures t == u && a == b
  {
    var k := TypeKey(t, a);
    assert |k| == 15 + |ToUtf8(t)| == 15 + |ToUtf8(u)|;
    assert k[6..|k| - 9] == ToUtf8(t) && TypeKey(u, b)[6..|k| - 9] == ToUtf8(u);
    Utf8Injective(t, u);
    assert k[|k| - 8..] == Be(a, 8) && TypeKey(u, b)[|k| - 8..] == Be(b, 8);
    BeInjective(a, b);
  }

  /** Distinct rows never share a byte key. */
  lemma {:induction false} EncInjective(k: Key, l: Key)
    requires Enc(k) == Enc(l)
    ensures k == l
  {
    EncHead(k);
    EncHead(l);
    match (k, l)
    case (KNode(a), KNode(b)) => NodeKeyInjective(a, b);
    case (KChild(p, n), KChild(q, m)) => ChildKeyInjective(p, n, q, m);
    case (KType(t, a), KType(u, b)) => TypeKeyInjective(t, a, u, b);
    case _ =>
  }

  // ----- what a prefix scan selects -----

  /** A scan of one directory's children sees exactly its child rows. */
  lemma {:induction false} ChildScan(k: Key, parent: u64)
    ensures StartsWith(Enc(k), ChildPrefix(parent)) <==> k.KChild? && k.parent == parent
  {
    EncHead(k);
    var p := ChildPrefix(parent);
    assert k.KChild? ==> Enc(k)[..15] == ChildPrefix(k.parent);
    if StartsWith(Enc(k), p) {
      assert Enc(k)[0] == Enc(k)[..15][0] == p[0];
      assert ChildPrefix(k.parent)[6..14] == Be(k.parent, 8);
      assert p[6..14] == Be(parent, 8);
      BeInjective(k.parent, parent);
    }
  }

  /** Any scan under the index sees only index rows, and all rows of the type asked for. */
  lemma {:induction false} TypeScan(k: Key, ty: string)
    ensures StartsWith(Enc(k), TypePrefix(ty)) ==> k.KType?
    ensures k.KType? && k.ty == ty ==> StartsWith(Enc(k), TypePrefix(ty))
  {
    EncHead(k);
    var p := TypePrefix(ty);
    if StartsWith(Enc(k), p) {
      assert Enc(k)[0] == Enc(k)[..|p|][0] == p[0];
    }
    if k.KType? && k.ty == ty {
      assert Enc(k)[..|p|] == p;
    }
  }

  lemma {:induction false} IndexScan(k: Key)
    ensures StartsWith(Enc(k), INDEX) <==> k.KType?
  {
    EncHead(k);
    assert k.KType? ==> Enc(k)[..6] == INDEX;
    if StartsWith(Enc(k), INDEX) {
      assert Enc(k)[0] == Enc(k)[..6][0];
    }
  }

  lemma {:induction false} PrefixShort(ty: Bytes, u: Bytes, tail: Bytes)
    requires SLASH !in u && StartsWith(u + [SLASH] + tail, ty + [SLASH])
    ensures |ty| >= |u| && ty == (u + [SLASH] + tail)[..|ty|] && (u + [SLASH] + tail)[|ty|] == SLASH
  {
    var s := u + [SLASH] + tail;
    assert s[..|ty| + 1] == ty + [SLASH];
    assert s[..|ty|] == s[..|ty| + 1][..|ty|];
    assert s[|ty|] == s[..|ty| + 1][|ty|];
    assert forall i | 0 <= i < |u| :: s[i] == u[i] && u[i] in u;
  }

  /** A name without a slash is met by itself, and by itself continued up to a slash in what follows. */
  lemma {:induction false} PrefixCases(ty: Bytes, u: Bytes, tail: Bytes)
    requires SLASH !in u
    ensures StartsWith(u + [SLASH] + tail, ty + [SLASH]) <==>
            ty == u || exists j | 0 <= j < |tail| :: tail[j] == SLASH && ty == u + [SLASH] + tail[..j]
  {
    var s := u + [SLASH] + tail;
    if StartsWith(s, ty + [SLASH]) {
      PrefixShort(ty, u, tail);
      if |ty| == |u| {
        assert s[..|u|] == u;
      } else {
        var j := |ty| - |u| - 1;
        assert tail[j] == s[|ty|];
        assert s[..|ty|] == u + [SLASH] + tail[..j];
      }
    }
    if ty == u {
      assert s[..|u| + 1] == u + [SLASH];
    }
    if j :| 0 <= j < |tail| && tail[j] == SLASH && ty == u + [SLASH] + tail[..j] {
      assert s[..|ty| + 1] == ty + [SLASH];
    }
  }

  /**
   * Exactly what the index prefix of a name selects, the type of the row having no slash:
   * the rows of that type, and rows whose id continues the type to the name, up to a byte
   * that looks like a slash.
   */
  lemma {:induction false} TypeScanIff(u: string, id: u64, ty: string)
    requires SLASH !in ToUtf8(u)
    ensures StartsWith(TypeKey(u, id), TypePrefix(ty)) <==> u == ty || ContinuesTo(u, id, ty)
  {
    var k, p := TypeKey(u, id), TypePrefix(ty);
    assert k[6..] == ToUtf8(u) + [SLASH] + Be(id, 8) && p[6..] == ToUtf8(ty) + [SLASH];
    assert k[..6] == INDEX && p[..6] == INDEX;
    BehindIndex(k, p);
    PrefixCases(ToUtf8(ty), ToUtf8(u), Be(id, 8));
    if ToUtf8(ty) == ToUtf8(u) {
      Utf8Injective(ty, u);
    }
  }

  predicate ContinuesTo(u: string, id: u64, ty: string) {
    exists j | 0 <= j < 8 :: Be(id, 8)[j] == SLASH && ToUtf8(ty) == ToUtf8(u) + [SLASH] + Be(id, 8)[..j]
  }

  lemma {:induction false} BehindIndex(k: Bytes, p: Bytes)
    requires |k| >= 6 && |p| >= 6 && k[..6] == p[..6]
    ensures StartsWith(k, p) <==> StartsWith(k[6..], p[6..])
  {
    if |p| <= |k| {
      assert k[6..][..|p| - 6] == k[..|p|][6..];
      assert k[..|p|] == k[..6] + k[6..][..|p| - 6] && p == p[..6] + p[6..];
    }
  }
}
