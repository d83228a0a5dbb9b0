/** Decimal text of 64-bit integers: `to_string` and `str::parse::<i64>`. */
module Numbers {
  import opened ByteStrings
  import opened Texts

  /** `str::parse::<f64>`, as bits; the library's, so it comes in as a parameter. */
  type FloatParser = string -> Option<u64>

  predicate IsDigit(c: char) {
    '0' <= c <= '9'
  }

  function DigitChar(d: nat): char
    requires d < 10
  {
    ('0' as int + d) as char
  }

  function DigitValue(c: char): nat
    requires IsDigit(c)
  {
    c as int - '0' as int
  }

  function NatText(n: nat): (s: string)
    ensures s != "" && forall c | c in s :: IsDigit(c)
  {
    if n < 10 then [DigitChar(n)] else NatText(n / 10) + [DigitChar(n % 10)]
  }

  function IntText(n: int): string {
    if n < 0 then "-" + NatText(-n) else NatText(n)
  }

  predicate AllDigits(s: string) {
    forall c | c in s :: IsDigit(c)
  }

  function NatValue(s: string): (n: int)
    requires AllDigits(s)
    ensures n >= 0
  {
    if s == "" then 0 else
    assert s[|s| - 1] in s;
    NatValue(s[..|s| - 1]) * 10 + DigitValue(s[|s| - 1])
  }

  /** An optional sign and at least one digit, within range. */
  function ParseI64(s: string): Option<i64> {
    var signed := s != "" && (s[0] == '-' || s[0] == '+');
    var digits := if signed then s[1..] else s;
    if digits == "" || !AllDigits(digits) then None else
    var n := NatValue(digits);
    if signed && s[0] == '-' then (if n <= I64 then Some(-n) else None)
    else if n < I64 then Some(n) else None
  }

  lemma {:induction false} NatRoundTrip(n: nat)
    ensures NatValue(NatText(n)) == n
  {
    var s := NatText(n);
    if n >= 10 {
      assert s[..|s| - 1] == NatText(n / 10);
      NatRoundTrip(n / 10);
    } else {
      assert s[..|s| - 1] == "";
    }
  }

  lemma {:induction false} ParseIntText(n: i64)
    ensures ParseI64(IntText(n)) == Some(n)
  {
    if n < 0 {
      var m: int := -(n as int);
      NatRoundTrip(m);
      assert IntText(n)[1..] == NatText(m);
    } else {
      NatRoundTrip(n);
      assert IntText(n)[0] in IntText(n);
    }
  }

  /** Beyond the range the text of an integer does not parse. */
  lemma {:induction false} ParseBeyond(n: int)
    requires n + I64 < 0 || n >= I64
    ensures ParseI64(IntText(n)) == None
  {
    var m: nat := if n < 0 then -n else n;
    NatRoundTrip(m);
    if n < 0 {
      assert IntText(n)[1..] == NatText(m);
    } else {
      assert IntText(n)[0] in NatText(m);
    }
  }

  /** An optional minus and then digits only. */
  lemma {:induction false} IntShape(n: int)
    ensures var s := IntText(n);
            && s != "" && (s[0] == '-' || IsDigit(s[0]))
            && forall i | (if s[0] == '-' then 1 else 0) <= i < |s| :: IsDigit(s[i])
  {
    var m: nat := if n < 0 then -n else n;
    var d := NatText(m);
    assert forall i | 0 <= i < |d| :: d[i] in d;
  }

  // ----- numbers inside text -----

  predicate NumberStart(s: string) {
    s != "" && (s[0] == '-' || IsDigit(s[0]))
  }

  /** Where a number ends, and whether it has a decimal point: an optional minus, digits, a point and digits. */
  function NumberEnd(s: string): (r: (nat, bool))
    requires NumberStart(s)
    ensures 1 <= r.0 <= |s|
  {
    var sign := if s[0] == '-' then 1 else 0;
    var a := sign + Span(IsDigit, s[sign..]);
    if a < |s| && s[a] == '.' then (a + 1 + Span(IsDigit, s[a + 1..]), true) else (a, false)
  }

  /** The text of one number and nothing else. */
  predicate NumberText(s: string) {
    NumberStart(s) && NumberEnd(s).0 == |s|
  }

  lemma {:induction false} Behind(s: string, rest: string, i: nat)
    requires i <= |s|
    ensures (s + rest)[i..] == s[i..] + rest
  {
  }

  /** A number ends where its text does, before anything that cannot continue it. */
  lemma {:induction false} NumberStops(s: string, rest: string)
    requires NumberText(s) && (rest == "" || (!IsDigit(rest[0]) && rest[0] != '.'))
    ensures NumberStart(s + rest) && NumberEnd(s + rest) == NumberEnd(s)
    ensures (s + rest)[..|s|] == s && (s + rest)[|s|..] == rest
  {
    hide IsDigit, Span;
    var sign := if s[0] == '-' then 1 else 0;
    var a := sign + Span(IsDigit, s[sign..]);
    Behind(s, rest, sign);
    SpanBefore(IsDigit, s[sign..], rest);
    if a < |s| {
      Behind(s, rest, a + 1);
      SpanBefore(IsDigit, s[a + 1..], rest);
    }
  }

  /** A number has its point where the scan finds it. */
  lemma {:induction false} PointInside(s: string)
    requires NumberText(s)
    ensures NumberEnd(s).1 <==> '.' in s
  {
    var sign := if s[0] == '-' then 1 else 0;
    var a := sign + Span(IsDigit, s[sign..]);
    assert forall i | sign <= i < a :: s[i] == s[sign..][i - sign];
    if !NumberEnd(s).1 {
      assert forall i | 0 <= i < |s| :: s[i] != '.';
    }
  }

  lemma {:induction false} IntIsNumber(n: i64)
    ensures NumberText(IntText(n)) && !NumberEnd(IntText(n)).1
  {
    IntShape(n);
    hide IsDigit, IntText;
    var s := IntText(n);
    var sign := if s[0] == '-' then 1 else 0;
    SpanIs(IsDigit, s[sign..], |s| - sign);
  }

  /** Where the number ends, counted from the start of the text around it. */
  lemma {:induction false} EndFrom(s: string, start: nat, first: nat, a: nat)
    requires start < |s| && NumberStart(s[start..]) && first <= |s|
    requires first == (if s[start] == '-' then start + 1 else start)
    requires a == first + Span(IsDigit, s[first..])
    ensures start < a
    ensures NumberEnd(s[start..]) ==
            if a < |s| && s[a] == '.' then (a + 1 + Span(IsDigit, s[a + 1..]) - start, true) else (a - start, false)
  {
    hide Span, IsDigit, NumberStart, NumberEnd;
    var t := s[start..];
    Shift(s, start, first);
    EndUnfold(t, first - start, a - first);
    if a < |s| {
      Shift(s, start, a + 1);
      assert t[a - start] == s[a];
    }
  }

  lemma {:induction false} EndUnfold(t: string, sign: nat, n: nat)
    requires NumberStart(t) && sign == (if t[0] == '-' then 1 else 0) && n == Span(IsDigit, t[sign..])
    ensures sign + n > 0
    ensures NumberEnd(t) ==
            if sign + n < |t| && t[sign + n] == '.' then (sign + n + 1 + Span(IsDigit, t[sign + n + 1..]), true)
            else (sign + n, false)
  {
  }

  /** The two scanning loops, from index `start`. */
  method ScanNumberEnd(s: string, start: nat) returns (i: nat, real': bool)
    requires start < |s| && NumberStart(s[start..])
    ensures start < i <= |s| && (i - start, real') == NumberEnd(s[start..])
    ensures s[start..][..i - start] == s[start..i] && s[start..][i - start..] == s[i..]
  {
    hide IsDigit, Span, NumberStart, NumberEnd;
    var first := if s[start] == '-' then start + 1 else start;
    i := ScanWhile(IsDigit, s, first);
    EndFrom(s, start, first, i);
    real' := i < |s| && s[i] == '.';
    if real' {
      i := ScanWhile(IsDigit, s, i + 1);
    }
    Shift(s, start, i);
  }
}
