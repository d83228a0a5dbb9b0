/** The order of strings: scalar by scalar, which is also the order of their UTF-8 bytes. */
module Strings {
  import opened ByteStrings
  import opened Utf8
  import opened Orders

  predicate StrLess(s: string, t: string) {
    && t != []
    && (s == [] || s[0] < t[0] || (s[0] == t[0] && StrLess(s[1..], t[1..])))
  }

  lemma {:induction false} StrIrreflexive(s: string)
    ensures !StrLess(s, s)
  {
    if s != [] {
      StrIrreflexive(s[1..]);
    }
  }

  lemma {:induction false} StrTotal(s: string, t: string)
    ensures s == t || StrLess(s, t) || StrLess(t, s)
  {
    if s != [] && t != [] && s[0] == t[0] {
      StrTotal(s[1..], t[1..]);
      assert s == [s[0]] + s[1..] && t == [t[0]] + t[1..];
    }
  }

  lemma {:induction false} StrTransitive(s: string, t: string, u: string)
    requires StrLess(s, t) && StrLess(t, u)
    ensures StrLess(s, u)
  {
    if s != [] && s[0] == t[0] == u[0] {
      StrTransitive(s[1..], t[1..], u[1..]);
    }
  }

  lemma {:induction false} StrOrder()
    ensures StrictOrder(StrLess)
  {
    forall s: string
      ensures !StrLess(s, s)
    {
      StrIrreflexive(s);
    }
    forall s: string, t: string
      ensures StrLess(s, t) || StrLess(t, s) || s == t
    {
      StrTotal(s, t);
    }
    forall s: string, t: string, u: string | StrLess(s, t) && StrLess(t, u)
      ensures StrLess(s, u)
    {
      StrTransitive(s, t, u);
    }
  }

  // ----- agreement with the order of bytes, which is what `str` compares -----

  /** Two byte strings differ first at index `i`, where `a` is smaller. */
  ghost predicate DiffersAt(a: Bytes, b: Bytes, i: nat) {
    i < |a| && i < |b| && a[..i] == b[..i] && a[i] < b[i]
  }

  lemma {:induction false} DiffersLess(a: Bytes, b: Bytes, i: nat)
    requires DiffersAt(a, b, i)
    ensures Less(a, b)
  {
    if i > 0 {
      assert a[0] == a[..i][0] == b[..i][0] == b[0];
      assert a[1..][..i - 1] == a[..i][1..] && b[1..][..i - 1] == b[..i][1..];
      DiffersLess(a[1..], b[1..], i - 1);
    }
  }

  lemma {:induction false} Lead(c: char)
    ensures var a := EncodeChar(c);
            && (|a| == 1 ==> a[0] < 0x80)
            && (|a| == 2 ==> 0xC0 <= a[0] < 0xE0)
            && (|a| == 3 ==> 0xE0 <= a[0] < 0xF0)
            && (|a| == 4 ==> 0xF0 <= a[0])
  {
  }

  lemma {:induction false} Pair2(c: char, d: char) returns (i: nat)
    requires c < d && |EncodeChar(c)| == |EncodeChar(d)| == 2
    ensures DiffersAt(EncodeChar(c), EncodeChar(d), i)
  {
    i := if EncodeChar(c)[0] < EncodeChar(d)[0] then 0 else 1;
  }

  lemma {:induction false} Pair3(c: char, d: char) returns (i: nat)
    requires c < d && |EncodeChar(c)| == |EncodeChar(d)| == 3
    ensures DiffersAt(EncodeChar(c), EncodeChar(d), i)
  {
    var a, b := EncodeChar(c), EncodeChar(d);
    Digits3(c as int);
    Digits3(d as int);
    i := if a[0] < b[0] then 0 else if a[1] < b[1] then 1 else 2;
  }

  lemma {:induction false} Pair4(c: char, d: char) returns (i: nat)
    requires c < d && |EncodeChar(c)| == |EncodeChar(d)| == 4
    ensures DiffersAt(EncodeChar(c), EncodeChar(d), i)
  {
    var a, b := EncodeChar(c), EncodeChar(d);
    Digits4(c as int);
    Digits4(d as int);
    i := if a[0] < b[0] then 0 else if a[1] < b[1] then 1 else if a[2] < b[2] then 2 else 3;
  }

  /** Smaller scalar values have smaller encodings, decided within the shorter one. */
  lemma {:induction false} CharLess(c: char, d: char) returns (i: nat)
    requires c < d
    ensures DiffersAt(EncodeChar(c), EncodeChar(d), i)
  {
    Lead(c);
    Lead(d);
    i := 0;
    if |EncodeChar(c)| == |EncodeChar(d)| {
      if |EncodeChar(c)| == 2 {
        i := Pair2(c, d);
      } else if |EncodeChar(c)| == 3 {
        i := Pair3(c, d);
      } else if |EncodeChar(c)| == 4 {
        i := Pair4(c, d);
      }
    }
  }

  lemma {:induction false} ByteOrder(s: string, t: string)
    requires StrLess(s, t)
    ensures Less(ToUtf8(s), ToUtf8(t))
  {
    if s == [] {
    } else if s[0] == t[0] {
      ByteOrder(s[1..], t[1..]);
      LessBehindPrefix(EncodeChar(s[0]), ToUtf8(s[1..]), ToUtf8(t[1..]));
    } else {
      var i := CharLess(s[0], t[0]);
      var a, b := EncodeChar(s[0]), EncodeChar(t[0]);
      assert ToUtf8(s)[..i] == a[..i] && ToUtf8(t)[..i] == b[..i];
      DiffersLess(ToUtf8(s), ToUtf8(t), i);
    }
  }

  /** Comparing strings and comparing their bytes give the same answer. */
  lemma {:induction false} StrLessIsByteOrder(s: string, t: string)
    ensures StrLess(s, t) <==> Less(ToUtf8(s), ToUtf8(t))
  {
    if StrLess(s, t) {
      ByteOrder(s, t);
    } else if s == t {
      LessIrreflexive(ToUtf8(s));
    } else {
      StrTotal(s, t);
      ByteOrder(t, s);
      LessAsymmetric(ToUtf8(t), ToUtf8(s));
    }
  }
}
