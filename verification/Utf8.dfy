/** UTF-8, so that the model's strings are sequences of Unicode scalar values as in Rust. */
module Utf8 {
  import opened ByteStrings

  function EncodeChar(c: char): (r: Bytes)
    ensures 1 <= |r| <= 4
  {
    var n := c as int;
    if n < 0x80 then
      [n]
    else if n < 0x800 then
      [0xC0 + n / 0x40, 0x80 + n % 0x40]
    else if n < 0x10000 then
      [0xE0 + n / 0x1000, 0x80 + n / 0x40 % 0x40, 0x80 + n % 0x40]
    else
      [0xF0 + n / 0x40000, 0x80 + n / 0x1000 % 0x40, 0x80 + n / 0x40 % 0x40, 0x80 + n % 0x40]
  }

  predicate Continuation(b: byte) {
    0x80 <= b < 0xC0
  }

  /** The scalar value at the head of `b`, rejecting overlong forms and surrogates. */
  function DecodeChar(b: Bytes): (r: Option<(char, nat)>)
    ensures r.Some? ==> 1 <= r.value.1 <= |b|
  {
    if b == [] then
      None
    else if b[0] < 0x80 then
      Some((b[0] as char, 1))
    else if 0xC0 <= b[0] < 0xE0 && |b| >= 2 && Continuation(b[1]) then
      var n := (b[0] as int - 0xC0) * 0x40 + (b[1] as int - 0x80);
      if n < 0x80 then None else Some((n as char, 2))
    else if 0xE0 <= b[0] < 0xF0 && |b| >= 3 && Continuation(b[1]) && Continuation(b[2]) then
      var n := (b[0] as int - 0xE0) * 0x1000 + (b[1] as int - 0x80) * 0x40 + (b[2] as int - 0x80);
      if n < 0x800 || 0xD800 <= n < 0xE000 then None else Some((n as char, 3))
    else if 0xF0 <= b[0] < 0xF8 && |b| >= 4 && Continuation(b[1]) && Continuation(b[2]) && Continuation(b[3]) then
      var n := (b[0] as int - 0xF0) * 0x40000 + (b[1] as int - 0x80) * 0x1000
               + (b[2] as int - 0x80) * 0x40 + (b[3] as int - 0x80);
      if n < 0x10000 || n >= 0x11_0000 then None else Some((n as char, 4))
    else
      None
  }

  /** `str::as_bytes`. */
  function ToUtf8(s: string): Bytes {
    if s == [] then [] else EncodeChar(s[0]) + ToUtf8(s[1..])
  }

  /** `str::from_utf8`. */
  function FromUtf8(b: Bytes): Option<string>
    decreases |b|
  {
    if b == [] then Some([])
    else match DecodeChar(b)
      case None => None
      case Some((c, n)) =>
        match FromUtf8(b[n..])
        case None => None
        case Some(s) => Some([c] + s)
  }

  lemma {:induction false} Digits2(n: int)
    requires 0 <= n < 0x800
    ensures n / 0x40 < 0x20 && n / 0x40 * 0x40 + n % 0x40 == n
  {
  }

  lemma {:induction false} Digits3(n: int)
    requires 0 <= n < 0x10000
    ensures n / 0x1000 < 0x10 && n / 0x1000 * 0x1000 + n / 0x40 % 0x40 * 0x40 + n % 0x40 == n
  {
    assert n / 0x1000 == n / 0x40 / 0x40;
  }

  lemma {:induction false} Digits4(n: int)
    requires 0 <= n < 0x11_0000
    ensures n / 0x40000 < 5
    ensures n / 0x40000 * 0x40000 + n / 0x1000 % 0x40 * 0x1000 + n / 0x40 % 0x40 * 0x40 + n % 0x40 == n
  {
    assert n / 0x1000 == n / 0x40 / 0x40;
    assert n / 0x40000 == n / 0x1000 / 0x40;
  }

  lemma {:induction false} CharRoundTrip(c: char, rest: Bytes)
    ensures DecodeChar(EncodeChar(c) + rest) == Some((c, |EncodeChar(c)|))
  {
    var n := c as int;
    var b := EncodeChar(c) + rest;
    assert forall i | 0 <= i < |EncodeChar(c)| :: b[i] == EncodeChar(c)[i];
    if n < 0x80 {
    } else if n < 0x800 {
      Digits2(n);
    } else if n < 0x10000 {
      Digits3(n);
    } else {
      Digits4(n);
    }
  }

  lemma {:induction false} Lead2(a: int, y: int)
    requires 0 <= y < 0x40
    ensures (a * 0x40 + y) / 0x40 == a && (a * 0x40 + y) % 0x40 == y
  {
  }

  lemma {:induction false} Lead3(a: int, y: int, z: int)
    requires 0 <= y < 0x40 && 0 <= z < 0x40
    ensures var n := a * 0x1000 + y * 0x40 + z; n / 0x1000 == a && n / 0x40 % 0x40 == y && n % 0x40 == z
  {
    Lead2(a * 0x40 + y, z);
    Lead2(a, y);
  }

  lemma {:induction false} Lead4(a: int, x: int, y: int, z: int)
    requires 0 <= x < 0x40 && 0 <= y < 0x40 && 0 <= z < 0x40
    ensures var n := a * 0x40000 + x * 0x1000 + y * 0x40 + z;
            n / 0x40000 == a && n / 0x1000 % 0x40 == x && n / 0x40 % 0x40 == y && n % 0x40 == z
  {
    Lead3(a * 0x40 + x, y, z);
    Lead2(a, x);
  }

  lemma {:induction false} CharDecodedOnce(b: Bytes)
    requires DecodeChar(b).Some?
    ensures EncodeChar(DecodeChar(b).value.0) == b[..DecodeChar(b).value.1]
  {
    if b[0] < 0x80 {
    } else if b[0] < 0xE0 {
      Lead2(b[0] as int - 0xC0, b[1] as int - 0x80);
    } else if b[0] < 0xF0 {
      Lead3(b[0] as int - 0xE0, b[1] as int - 0x80, b[2] as int - 0x80);
    } else {
      Lead4(b[0] as int - 0xF0, b[1] as int - 0x80, b[2] as int - 0x80, b[3] as int - 0x80);
    }
  }

  /** Every string survives encoding and validation. */
  lemma {:induction false} Utf8RoundTrip(s: string)
    ensures FromUtf8(ToUtf8(s)) == Some(s)
  {
    if s != [] {
      CharRoundTrip(s[0], ToUtf8(s[1..]));
      assert ToUtf8(s)[|EncodeChar(s[0])|..] == ToUtf8(s[1..]);
      Utf8RoundTrip(s[1..]);
      assert s == [s[0]] + s[1..];
    }
  }

  lemma {:induction false} Utf8CanonicalHead(b: Bytes, c: char, n: nat, s: string)
    requires DecodeChar(b) == Some((c, n)) && ToUtf8(s) == b[n..]
    ensures ToUtf8([c] + s) == b
  {
    CharDecodedOnce(b);
    assert ([c] + s)[1..] == s;
    assert b == b[..n] + b[n..];
  }

  /** Validation accepts only the encoding of the string it returns. */
  lemma {:induction false} Utf8Canonical(b: Bytes)
    requires FromUtf8(b).Some?
    ensures ToUtf8(FromUtf8(b).value) == b
    decreases |b|
  {
    if b != [] {
      var c, n := DecodeChar(b).value.0, DecodeChar(b).value.1;
      var s := FromUtf8(b[n..]).value;
      Utf8Canonical(b[n..]);
      Utf8CanonicalHead(b, c, n, s);
    }
  }

  lemma {:induction false} Utf8Injective(s: string, t: string)
    requires ToUtf8(s) == ToUtf8(t)
    ensures s == t
  {
    Utf8RoundTrip(s);
    Utf8RoundTrip(t);
  }

  lemma {:induction false} ToUtf8Concat(s: string, t: string)
    ensures ToUtf8(s + t) == ToUtf8(s) + ToUtf8(t)
  {
    if s == [] {
      assert s + t == t;
    } else {
      assert (s + t)[1..] == s[1..] + t;
      ToUtf8Concat(s[1..], t);
    }
  }
}
