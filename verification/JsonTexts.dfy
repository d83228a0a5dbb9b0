/** The JSON dialect on every text: what strings, numbers, hex and objects mean. */
module JsonTexts {
  import opened ByteStrings
  import opened Strings
  import opened Values
  import opened Numbers
  import opened Texts
  import opened Storage
  import opened Paths
  import opened Namespace
  import opened Json
  import opened Transfer

  // ----- strings -----

  /** A character as it stands, or one behind a backslash. */
  datatype Unit = Plain(c: char) | Escaped(c: char)

  predicate Proper(us: seq<Unit>) {
    forall i | 0 <= i < |us| && us[i].Plain? :: us[i].c != '"' && us[i].c != '\\'
  }

  function Written(us: seq<Unit>): string {
    if us == [] then ""
    else (match us[0] case Plain(c) => [c] case Escaped(c) => ['\\', c]) + Written(us[1..])
  }

  /** `v` has for each unit its meaning: a line feed for an escaped n, a tab for t, the character itself otherwise. */
  predicate Means(us: seq<Unit>, v: string) {
    && |v| == |us|
    && forall i | 0 <= i < |us| ::
         v[i] as int == if us[i] == Escaped('n') then 10 else if us[i] == Escaped('t') then 9 else us[i].c as int
  }

  lemma {:induction false} MeansFirst(us: seq<Unit>, v: string)
    requires Means(us, v) && us != []
    ensures Means(us[1..], v[1..])
    ensures v[0] == (match us[0] case Plain(c) => c case Escaped(c) => Unescape(c))
  {
  }

  lemma {:induction false} StringRestReads(us: seq<Unit>, v: string, acc: string, rest: string)
    requires Proper(us) && Means(us, v)
    ensures StringRest(Written(us) + ("\"" + rest), acc) == Ok((acc + v, rest))
    decreases |us|
  {
    var s := Written(us) + ("\"" + rest);
    if us == [] {
      assert s[1..] == rest && acc + v == acc;
    } else {
      MeansFirst(us, v);
      StringRestReads(us[1..], v[1..], acc + [v[0]], rest);
      assert acc + [v[0]] + v[1..] == acc + v;
      var next := Written(us[1..]) + ("\"" + rest);
      if us[0].Plain? {
        assert s == [us[0].c] + next && s[1..] == next;
      } else {
        assert s == ['\\', us[0].c] + next && s[2..] == next;
      }
    }
  }

  lemma {:induction false} UnitsCons(u: Unit, us: seq<Unit>, v: string, c: char)
    requires Proper(us) && Means(us, v) && (u.Plain? ==> u.c != '"' && u.c != '\\')
    requires c == (match u case Plain(x) => x case Escaped(x) => Unescape(x))
    ensures Proper([u] + us) && Means([u] + us, [c] + v)
    ensures Written([u] + us) == (match u case Plain(x) => [x] case Escaped(x) => ['\\', x]) + Written(us)
  {
    assert ([u] + us)[1..] == us;
  }

  lemma {:induction false} RestStep(s: string, acc: string) returns (u: Unit, n: nat, c: char)
    requires StringRest(s, acc).Ok? && s[0] != '"'
    ensures 0 < n <= |s| && StringRest(s, acc) == StringRest(s[n..], acc + [c])
    ensures s[..n] == (match u case Plain(x) => [x] case Escaped(x) => ['\\', x])
    ensures c == (match u case Plain(x) => x case Escaped(x) => Unescape(x))
    ensures u.Plain? ==> u.c != '"' && u.c != '\\'
  {
    hide Unescape;
    u := if s[0] == '\\' then Escaped(s[1]) else Plain(s[0]);
    n := if s[0] == '\\' then 2 else 1;
    c := if s[0] == '\\' then Unescape(s[1]) else s[0];
  }

  lemma {:induction false} StringRestUnits(s: string, acc: string) returns (us: seq<Unit>, v: string)
    requires StringRest(s, acc).Ok?
    ensures Proper(us) && Means(us, v) && StringRest(s, acc).value.0 == acc + v
    ensures s == Written(us) + ("\"" + StringRest(s, acc).value.1)
    decreases |s|
  {
    hide Proper, Means, Unescape, Written;
    us, v := [], "";
    if s[0] == '"' {
      NoUnits();
      assert acc + v == acc && s == "\"" + s[1..];
    } else {
      var u, n, c := RestStep(s, acc);
      us, v := StringRestUnits(s[n..], acc + [c]);
      UnitsCons(u, us, v, c);
      assert acc + [c] + v == acc + ([c] + v);
      assert s == s[..n] + s[n..];
      us, v := [u] + us, [c] + v;
    }
  }

  lemma {:induction false} NoUnits()
    ensures Proper([]) && Means([], "") && Written([]) == ""
  {
  }

  ghost predicate IsString(s: string, v: string, rest: string) {
    exists us :: Proper(us) && Means(us, v) && s == "\"" + Written(us) + "\"" + rest
  }

  /** Exactly the texts that start with a quoted string are read as one, leaving what follows it. */
  lemma {:induction false} StringIff(s: string, v: string, rest: string)
    ensures ParseString(s) == Ok((v, rest)) <==> IsString(s, v, rest)
  {
    hide StringRest, Proper, Means, Written;
    if us :| Proper(us) && Means(us, v) && s == "\"" + Written(us) + "\"" + rest {
      assert s[1..] == Written(us) + ("\"" + rest);
      StringRestReads(us, v, "", rest);
      assert "" + v == v;
    }
    if ParseString(s) == Ok((v, rest)) {
      var us, w := StringRestUnits(s[1..], "");
      assert "" + w == w;
      assert s == "\"" + s[1..];
      assert s == "\"" + Written(us) + "\"" + rest;
    }
  }

  /** The printer escapes quotes and backslashes and nothing else. */
  lemma {:induction false} QuoteUnits(s: string)
    ensures Quote(s) == "\"" +
            Written(seq(|s|, i requires 0 <= i < |s| => if s[i] == '"' || s[i] == '\\' then Escaped(s[i]) else Plain(s[i])))
            + "\""
  {
    EscapeUnits(s);
  }

  lemma {:induction false} EscapeUnits(s: string)
    ensures Escape(s) ==
            Written(seq(|s|, i requires 0 <= i < |s| => if s[i] == '"' || s[i] == '\\' then Escaped(s[i]) else Plain(s[i])))
  {
    var us := seq(|s|, i requires 0 <= i < |s| => if s[i] == '"' || s[i] == '\\' then Escaped(s[i]) else Plain(s[i]));
    if s != "" {
      EscapeUnits(s[1..]);
      assert us[1..] ==
             seq(|s[1..]|, i requires 0 <= i < |s[1..]| =>
               if s[1..][i] == '"' || s[1..][i] == '\\' then Escaped(s[1..][i]) else Plain(s[1..][i]));
    }
  }

  // ----- integers -----

  function Zeros(k: nat): string {
    if k == 0 then "" else Zeros(k - 1) + "0"
  }

  lemma {:induction false} ZerosFirst(k: nat)
    ensures Zeros(k + 1) == "0" + Zeros(k)
  {
    if k > 0 {
      ZerosFirst(k - 1);
    }
  }

  lemma {:induction false} DigitsSnoc(s: string, c: char)
    requires AllDigits(s) && IsDigit(c)
    ensures AllDigits(s + [c]) && NatValue(s + [c]) == NatValue(s) * 10 + DigitValue(c)
  {
    var t := s + [c];
    assert t[|t| - 1] == c && t[..|t| - 1] == s;
  }

  lemma {:induction false} PaddedValue(k: nat, m: nat)
    ensures AllDigits(Zeros(k) + NatText(m)) && NatValue(Zeros(k) + NatText(m)) == m
    decreases m
  {
    hide NatValue;
    if m < 10 {
      ZerosValue(k);
      DigitsSnoc(Zeros(k), DigitChar(m));
    } else {
      PaddedValue(k, m / 10);
      DigitsSnoc(Zeros(k) + NatText(m / 10), DigitChar(m % 10));
      assert Zeros(k) + NatText(m) == Zeros(k) + NatText(m / 10) + [DigitChar(m % 10)];
    }
  }

  lemma {:induction false} ZerosValue(k: nat)
    ensures AllDigits(Zeros(k)) && NatValue(Zeros(k)) == 0
  {
    if k > 0 {
      ZerosValue(k - 1);
      DigitsSnoc(Zeros(k - 1), '0');
    }
  }

  lemma {:induction false} ValuePadded(s: string) returns (k: nat)
    requires s != "" && AllDigits(s)
    ensures s == Zeros(k) + NatText(NatValue(s))
    decreases |s|
  {
    hide NatText, NatValue, Zeros;
    var init, c := s[..|s| - 1], s[|s| - 1];
    assert IsDigit(c) by { assert c in s; }
    assert forall x | x in init :: x in s;
    assert s == init + [c];
    DigitsSnoc(init, c);
    if init == "" {
      k := OneDigit(c);
    } else {
      k := ValuePadded(init);
      k := PadMore(k, NatValue(init), c);
    }
  }

  lemma {:induction false} OneDigit(c: char) returns (k: nat)
    requires IsDigit(c)
    ensures NatValue("") == 0 && [c] == Zeros(k) + NatText(DigitValue(c))
  {
    k := 0;
  }

  lemma {:induction false} PadMore(k: nat, m: nat, c: char) returns (k': nat)
    requires IsDigit(c)
    ensures Zeros(k) + NatText(m) + [c] == Zeros(k') + NatText(m * 10 + DigitValue(c))
  {
    if m == 0 {
      k' := k + 1;
      assert NatText(0) == "0" && NatText(DigitValue(c)) == [c];
    } else {
      k' := k;
      assert NatText(m * 10 + DigitValue(c)) == NatText(m) + [c];
    }
  }

  function Size(n: int): nat {
    if n < 0 then -n else n
  }

  predicate IntegerText(s: string, sign: string, k: nat, n: int) {
    && s == sign + (Zeros(k) + NatText(Size(n)))
    && ((sign == "-" && n <= 0) || ((sign == "" || sign == "+") && n >= 0))
  }

  ghost predicate IsInteger(s: string, n: i64) {
    exists k: nat, sign: string :: IntegerText(s, sign, k, n)
  }

  lemma {:induction false} DigitsHead(k: nat, m: nat)
    ensures var d := Zeros(k) + NatText(m); d != "" && d[0] != '-' && d[0] != '+'
  {
    PaddedValue(k, m);
    var d := Zeros(k) + NatText(m);
    assert d[0] in d;
  }

  lemma {:induction false} IntegerParses(k: nat, m: nat)
    ensures var d := Zeros(k) + NatText(m);
            && ParseI64("-" + d) == (if m <= I64 then Some(0 - m) else None)
            && ParseI64("+" + d) == (if m < I64 then Some(m) else None)
            && ParseI64(d) == (if m < I64 then Some(m) else None)
  {
    hide NatText, Zeros;
    var d := Zeros(k) + NatText(m);
    DigitsHead(k, m);
    PaddedValue(k, m);
    assert ("-" + d)[1..] == d && ("+" + d)[1..] == d;
  }

  lemma {:induction false} IntegerTextParses(s: string, sign: string, k: nat, n: i64)
    requires IntegerText(s, sign, k, n)
    ensures ParseI64(s) == Some(n)
  {
    hide NatText, Zeros, ParseI64;
    var d := Zeros(k) + NatText(Size(n));
    IntegerParses(k, Size(n));
    assert sign == "" ==> s == d;
  }

  lemma {:induction false} ParsedParts(s: string, n: i64) returns (sign: string, d: string)
    requires ParseI64(s) == Some(n)
    ensures s == sign + d && d != "" && AllDigits(d) && NatValue(d) == Size(n)
    ensures (sign == "-" && n <= 0) || ((sign == "" || sign == "+") && n >= 0)
  {
    hide NatValue, AllDigits;
    if s[0] == '-' || s[0] == '+' {
      sign, d := [s[0]], s[1..];
    } else {
      sign, d := "", s;
    }
  }

  /** A 64-bit integer is an optional sign, any zeros, and its decimal text. */
  lemma {:induction false} IntegerIff(s: string, n: i64)
    ensures ParseI64(s) == Some(n) <==> IsInteger(s, n)
  {
    hide IntegerText, ParseI64;
    if k: nat, sign: string :| IntegerText(s, sign, k, n) {
      IntegerTextParses(s, sign, k, n);
    }
    if ParseI64(s) == Some(n) {
      ParsedIsText(s, n);
    }
  }

  lemma {:induction false} ParsedIsText(s: string, n: i64)
    requires ParseI64(s) == Some(n)
    ensures IsInteger(s, n)
  {
    hide NatText, Zeros, ParseI64, NatValue;
    var sign, d := ParsedParts(s, n);
    var k := ValuePadded(d);
    assert IntegerText(s, sign, k, n);
  }

  // ----- hex -----

  predicate HexOf(c: char, n: nat)
    requires n < 16
  {
    c == "0123456789abcdef"[n] || c == "0123456789ABCDEF"[n]
  }

  lemma {:induction false} HexDigitIff(c: char, n: nat)
    requires n < 16
    ensures FromHexDigit(c) == Ok(n) <==> HexOf(c, n)
    ensures HexDigit(n) == "0123456789abcdef"[n]
  {
  }

  ghost predicate IsHex(s: string, b: Bytes) {
    |s| == 2 * |b| && forall i | 0 <= i < |b| :: HexOf(s[2 * i], b[i] / 16) && HexOf(s[2 * i + 1], b[i] % 16)
  }

  /** Two hex digits a byte, of either case. */
  lemma {:induction false} HexIff(s: string, b: Bytes)
    ensures FromHex(s) == Ok(b) <==> IsHex(s, b)
    decreases |s|
  {
    hide HexOf, FromHexDigit;
    if |s| >= 2 && b != [] {
      HexDigitIff(s[0], b[0] / 16);
      HexDigitIff(s[1], b[0] % 16);
      HexIff(s[2..], b[1..]);
      HexTail(s, b);
      HexCons(s, b);
    }
  }

  lemma {:induction false} HexCons(s: string, b: Bytes)
    requires |s| >= 2 && b != []
    ensures FromHex(s) == Ok(b) <==>
            FromHexDigit(s[0]) == Ok(b[0] / 16) && FromHexDigit(s[1]) == Ok(b[0] % 16) && FromHex(s[2..]) == Ok(b[1..])
  {
    hide FromHexDigit;
    assert b == [b[0]] + b[1..];
  }

  lemma {:induction false} HexTail(s: string, b: Bytes)
    requires |s| >= 2 && b != []
    ensures IsHex(s, b) <==> HexOf(s[0], b[0] / 16) && HexOf(s[1], b[0] % 16) && IsHex(s[2..], b[1..])
  {
    hide HexOf;
    if |s| == 2 * |b| && HexOf(s[0], b[0] / 16) && HexOf(s[1], b[0] % 16) && IsHex(s[2..], b[1..]) {
      forall i | 0 <= i < |b|
        ensures HexOf(s[2 * i], b[i] / 16) && HexOf(s[2 * i + 1], b[i] % 16)
      {
        if i > 0 {
          assert HexOf(s[2..][2 * (i - 1)], b[1..][i - 1] / 16) && HexOf(s[2..][2 * (i - 1) + 1], b[1..][i - 1] % 16);
        }
      }
    }
    if IsHex(s, b) {
      forall i | 0 <= i < |b[1..]|
        ensures HexOf(s[2..][2 * i], b[1..][i] / 16) && HexOf(s[2..][2 * i + 1], b[1..][i] % 16)
      {
        assert HexOf(s[2 * (i + 1)], b[i + 1] / 16) && HexOf(s[2 * (i + 1) + 1], b[i + 1] % 16);
      }
      assert HexOf(s[2 * 0], b[0] / 16) && HexOf(s[2 * 0 + 1], b[0] % 16);
    }
  }

  /** The printer writes lower-case digits, the high half first. */
  lemma {:induction false} HexWritten(b: Bytes, i: nat)
    requires i < |b|
    ensures |HexText(b)| == 2 * |b|
    ensures HexText(b)[2 * i] == "0123456789abcdef"[b[i] / 16]
    ensures HexText(b)[2 * i + 1] == "0123456789abcdef"[b[i] % 16]
  {
    HexLength(b);
    HexDigitIff(' ', b[0] / 16);
    HexDigitIff(' ', b[0] % 16);
    if i > 0 {
      HexWritten(b[1..], i - 1);
    }
  }

  lemma {:induction false} HexLength(b: Bytes)
    ensures |HexText(b)| == 2 * |b|
  {
    if b != [] {
      HexLength(b[1..]);
    }
  }

  // ----- tree keys -----

  /** Which texts are read as which kind of key. */
  lemma {:induction false} KeyKinds(pf: FloatParser, s: string, n: i64, bits: u64, b: Bytes, t: string)
    ensures ParseKey(pf, s) == Ok(Null) <==> s == "null"
    ensures ParseKey(pf, s) == Ok(Bool(true)) <==> s == "true"
    ensures ParseKey(pf, s) == Ok(Bool(false)) <==> s == "false"
    ensures ParseKey(pf, s) == Ok(Int(n)) <==> IsInteger(s, n)
    ensures ParseKey(pf, s) == Ok(Float(bits)) <==> exists x :: s == "f:" + x && pf(x) == Some(bits)
    ensures ParseKey(pf, s) == Ok(Bin(b)) <==> exists x :: s == "b:" + x && IsHex(x, b)
    ensures ParseKey(pf, s) == Ok(Str(t)) ==> t == s
  {
    hide FromHex, IsHex, IsInteger, ParseI64;
    IntegerIff(s, n);
    WordsNoInteger(s);
    if |s| >= 2 {
      assert s == s[..2] + s[2..];
      HexIff(s[2..], b);
    }
    forall x: string | s == "f:" + x || s == "b:" + x
      ensures x == s[2..] && s[..2] == [s[0], ':'] && s[1] == ':'
    {
    }
  }

  lemma {:induction false} WordsNoInteger(s: string)
    ensures s == "null" || s == "true" || s == "false" || Starts(s, "f:") || Starts(s, "b:") ==> ParseI64(s) == None
  {
    if s == "null" || s == "true" || s == "false" || Starts(s, "f:") || Starts(s, "b:") {
      assert Starts(s, "f:") || Starts(s, "b:") ==> s[0] == s[..2][0];
      assert s[0] in s && !IsDigit(s[0]);
    }
  }

  // ----- conversion -----

  /** Each converts, to the value at its place. */
  predicate Each(pf: FloatParser, items: seq<JsonVal>, vs: seq<Value>) {
    |vs| == |items| && forall i | 0 <= i < |items| :: ToValue(pf, items[i]) == Ok(vs[i])
  }

  lemma {:induction false} EachIff(pf: FloatParser, items: seq<JsonVal>, vs: seq<Value>)
    ensures ToValues(pf, items) == Ok(vs) <==> Each(pf, items, vs)
    decreases |items|
  {
    hide ToValue;
    if items != [] && vs != [] {
      EachIff(pf, items[1..], vs[1..]);
      assert vs == [vs[0]] + vs[1..];
      EachSplit(pf, items, vs);
    }
  }

  lemma {:induction false} EachSplit(pf: FloatParser, items: seq<JsonVal>, vs: seq<Value>)
    requires items != [] && vs != []
    ensures Each(pf, items, vs) <==> ToValue(pf, items[0]) == Ok(vs[0]) && Each(pf, items[1..], vs[1..])
  {
    hide ToValue;
    if ToValue(pf, items[0]) == Ok(vs[0]) && Each(pf, items[1..], vs[1..]) {
      forall i | 0 <= i < |items|
        ensures ToValue(pf, items[i]) == Ok(vs[i])
      {
        if i > 0 {
          assert ToValue(pf, items[1..][i - 1]) == Ok(vs[1..][i - 1]);
        }
      }
    }
  }

  /** The value of the last field with the key. */
  function LastOf(fields: seq<Field>, k: string): Option<JsonVal>
    decreases |fields|
  {
    if fields == [] then None
    else
      var f := fields[|fields| - 1];
      if f.key == k then Some(f.val) else LastOf(fields[..|fields| - 1], k)
  }

  /** The value of the last field whose key reads as `k`. */
  function LastKey(pf: FloatParser, fields: seq<Field>, k: Scalar): Option<JsonVal>
    decreases |fields|
  {
    if fields == [] then None
    else
      var f := fields[|fields| - 1];
      if ParseKey(pf, f.key) == Ok(k) then Some(f.val) else LastKey(pf, fields[..|fields| - 1], k)
  }

  /** What the JSON converts to, if it is there and converts. */
  function Got(pf: FloatParser, j: Option<JsonVal>): Option<Value> {
    match j
    case None => None
    case Some(x) => if ToValue(pf, x).Ok? then Some(ToValue(pf, x).value) else None
  }

  lemma {:induction false} FieldsLast(pf: FloatParser, fields: seq<Field>, acc: seq<Pair<string>>, k: string)
    ensures ToFields(pf, fields, acc).Ok? <==> forall f | f in fields :: ToValue(pf, f.val).Ok?
    ensures ToFields(pf, fields, acc).Ok? ==>
              Find(ToFields(pf, fields, acc).value, k) ==
              if LastOf(fields, k).Some? then Got(pf, LastOf(fields, k)) else Find(acc, k)
    decreases |fields|
  {
    hide ToValue, Insert, StrLess;
    if fields != [] {
      var f := fields[0];
      if ToValue(pf, f.val).Ok? {
        var v := ToValue(pf, f.val).value;
        FieldsLast(pf, fields[1..], Insert(StrLess, acc, f.key, v), k);
        InsertFind(StrLess, acc, f.key, v, k);
        assert forall g :: g in fields <==> g == f || g in fields[1..];
        assert FieldValue(pf, f) == Ok(v);
      } else {
        assert f in fields && FieldValue(pf, f).Err?;
      }
      LastFirst(fields, k);
      LastThere(fields[1..], k);
    }
  }

  lemma {:induction false} LastFirst(fields: seq<Field>, k: string)
    requires fields != []
    ensures LastOf(fields, k) ==
            if LastOf(fields[1..], k).Some? then LastOf(fields[1..], k)
            else if fields[0].key == k then Some(fields[0].val) else None
    decreases |fields|
  {
    if |fields| > 1 {
      var init := fields[..|fields| - 1];
      LastFirst(init, k);
      assert fields[1..][..|fields| - 2] == init[1..];
    }
  }

  lemma {:induction false} LastThere(fields: seq<Field>, k: string)
    ensures LastOf(fields, k).Some? ==> exists f :: f in fields && f.val == LastOf(fields, k).value
    decreases |fields|
  {
    if fields != [] && fields[|fields| - 1].key != k {
      LastThere(fields[..|fields| - 1], k);
    } else if fields != [] {
      assert fields[|fields| - 1] in fields;
    }
  }

  lemma {:induction false} EntriesLast(pf: FloatParser, fields: seq<Field>, acc: seq<Pair<Scalar>>, k: Scalar)
    ensures ToEntries(pf, fields, acc).Ok? <==>
            forall f | f in fields :: ParseKey(pf, f.key).Ok? && ToValue(pf, f.val).Ok?
    ensures ToEntries(pf, fields, acc).Ok? ==>
              Find(ToEntries(pf, fields, acc).value, k) ==
              if LastKey(pf, fields, k).Some? then Got(pf, LastKey(pf, fields, k)) else Find(acc, k)
    decreases |fields|
  {
    hide ToValue, Insert, ScalarLess, ParseKey;
    if fields != [] {
      var f := fields[0];
      if ParseKey(pf, f.key).Ok? && ToValue(pf, f.val).Ok? {
        var x, v := ParseKey(pf, f.key).value, ToValue(pf, f.val).value;
        EntriesLast(pf, fields[1..], Insert(ScalarLess, acc, x, v), k);
        InsertFind(ScalarLess, acc, x, v, k);
        assert forall g :: g in fields <==> g == f || g in fields[1..];
        assert FieldValue(pf, f) == Ok(v);
      } else {
        assert f in fields && (ParseKey(pf, f.key).Err? || FieldValue(pf, f).Err?);
      }
      LastKeyFirst(pf, fields, k);
      LastKeyThere(pf, fields[1..], k);
    }
  }

  lemma {:induction false} LastKeyFirst(pf: FloatParser, fields: seq<Field>, k: Scalar)
    requires fields != []
    ensures LastKey(pf, fields, k) ==
            if LastKey(pf, fields[1..], k).Some? then LastKey(pf, fields[1..], k)
            else if ParseKey(pf, fields[0].key) == Ok(k) then Some(fields[0].val) else None
    decreases |fields|
  {
    hide ParseKey;
    if |fields| > 1 {
      var init := fields[..|fields| - 1];
      LastKeyFirst(pf, init, k);
      assert fields[1..][..|fields| - 2] == init[1..];
    }
  }

  lemma {:induction false} LastKeyThere(pf: FloatParser, fields: seq<Field>, k: Scalar)
    ensures LastKey(pf, fields, k).Some? ==> exists f :: f in fields && f.val == LastKey(pf, fields, k).value
    decreases |fields|
  {
    hide ParseKey;
    if fields != [] && ParseKey(pf, fields[|fields| - 1].key) != Ok(k) {
      LastKeyThere(pf, fields[..|fields| - 1], k);
    } else if fields != [] {
      assert fields[|fields| - 1] in fields;
    }
  }

  /** A hash of the fields: every value converts, and the last of equal keys counts. */
  ghost predicate HashOf(pf: FloatParser, fields: seq<Field>, r: Result<Value, NsError>) {
    if forall f | f in fields :: ToValue(pf, f.val).Ok? then
      && r.Ok? && r.value.Hash?
      && forall k :: Find(r.value.fields, k) == Got(pf, LastOf(fields, k))
    else r.Err?
  }

  ghost predicate TreeOf(pf: FloatParser, fields: seq<Field>, r: Result<Value, NsError>) {
    if forall f | f in fields :: ParseKey(pf, f.key).Ok? && ToValue(pf, f.val).Ok? then
      && r.Ok? && r.value.Tree?
      && forall k :: Find(r.value.entries, k) == Got(pf, LastKey(pf, fields, k))
    else r.Err?
  }

  /** A field that marks a special form. */
  predicate Marker(f: Field) {
    || (f.key == "__bytes" && f.val.JStr?)
    || (f.key == "__set" && f.val.JArr?)
    || (f.key == "__hash" && f.val.JObj?)
    || (f.key == "__tree" && f.val.JObj?)
  }

  lemma {:induction false} HashFields(pf: FloatParser, fields: seq<Field>, r: Result<Value, NsError>)
    requires match ToFields(pf, fields, []) case Ok(fs) => r == Ok(Hash(fs)) case Err(e) => r == Err(e)
    ensures HashOf(pf, fields, r)
  {
    hide ToFields, Find, LastOf, ToValue;
    forall k
      ensures r.Ok? ==> Find(r.value.fields, k) == Got(pf, LastOf(fields, k))
    {
      FieldsLast(pf, fields, [], k);
      FindNone(k);
    }
    FieldsLast(pf, fields, [], "");
  }

  lemma {:induction false} FindNone<K>(k: K)
    ensures Find([], k) == None
  {
  }

  lemma {:induction false} TreeFields(pf: FloatParser, fields: seq<Field>, r: Result<Value, NsError>)
    requires match ToEntries(pf, fields, []) case Ok(es) => r == Ok(Tree(es)) case Err(e) => r == Err(e)
    ensures TreeOf(pf, fields, r)
  {
    hide ToEntries, Find, LastKey, ToValue, ParseKey;
    forall k
      ensures r.Ok? ==> Find(r.value.entries, k) == Got(pf, LastKey(pf, fields, k))
    {
      EntriesLast(pf, fields, [], k);
      FindNone(k);
    }
    EntriesLast(pf, fields, [], Null);
  }

  /** What every JSON value converts to. */
  lemma {:induction false} Conversion(pf: FloatParser, n: i64, bits: u64, s: string, b: bool, items: seq<JsonVal>,
      vs: seq<Value>)
    ensures ToValue(pf, JNull) == Ok(Leaf(Null)) && ToValue(pf, JBool(b)) == Ok(Leaf(Bool(b)))
    ensures ToValue(pf, JNum(n)) == Ok(Leaf(Int(n))) && ToValue(pf, JFloat(bits)) == Ok(Leaf(Float(bits)))
    ensures ToValue(pf, JStr(s)) == Ok(Leaf(Str(s)))
    ensures ToValue(pf, JArr(items)) == Ok(List(vs)) <==> Each(pf, items, vs)
  {
    hide Each;
    EachIff(pf, items, vs);
  }

  /** What every JSON object converts to: a special form behind its marker, otherwise a hash. */
  lemma {:induction false} ObjectConversion(pf: FloatParser, fields: seq<Field>, text: string, b: Bytes,
      items: seq<JsonVal>, vs: seq<Value>)
    ensures ToValue(pf, JObj([Field("__bytes", JStr(text))])) == Ok(Leaf(Bin(b))) <==> IsHex(text, b)
    ensures ToValue(pf, JObj([Field("__set", JArr(items))])) == Ok(Value.Set(vs)) <==> Each(pf, items, vs)
    ensures HashOf(pf, fields, ToValue(pf, JObj([Field("__hash", JObj(fields))])))
    ensures TreeOf(pf, fields, ToValue(pf, JObj([Field("__tree", JObj(fields))])))
    ensures |fields| != 1 || !Marker(fields[0]) ==> HashOf(pf, fields, ToValue(pf, JObj(fields)))
  {
    hide Each, IsHex, HashOf, TreeOf, ToValue;
    BytesConversion(pf, text, b);
    SetConversion(pf, items, vs);
    HashConversion(pf, fields);
    TreeConversion(pf, fields);
    HashFields(pf, fields, ToValue(pf, JObj([Field("__hash", JObj(fields))])));
    TreeFields(pf, fields, ToValue(pf, JObj([Field("__tree", JObj(fields))])));
    if |fields| != 1 {
      ManyFields(pf, fields);
      HashFields(pf, fields, ToValue(pf, JObj(fields)));
    } else if !Marker(fields[0]) {
      OneField(pf, fields[0]);
      assert fields == [fields[0]];
      HashFields(pf, fields, ToValue(pf, JObj(fields)));
    }
  }

  lemma {:induction false} BytesConversion(pf: FloatParser, text: string, b: Bytes)
    ensures ToValue(pf, JObj([Field("__bytes", JStr(text))])) == Ok(Leaf(Bin(b))) <==> IsHex(text, b)
  {
    hide IsHex, FromHex;
    HexIff(text, b);
  }

  lemma {:induction false} SetConversion(pf: FloatParser, items: seq<JsonVal>, vs: seq<Value>)
    ensures ToValue(pf, JObj([Field("__set", JArr(items))])) == Ok(Value.Set(vs)) <==> Each(pf, items, vs)
  {
    hide Each, ToValues;
    EachIff(pf, items, vs);
  }

  lemma {:induction false} HashConversion(pf: FloatParser, fields: seq<Field>)
    ensures match ToFields(pf, fields, [])
            case Ok(fs) => ToValue(pf, JObj([Field("__hash", JObj(fields))])) == Ok(Hash(fs))
            case Err(e) => ToValue(pf, JObj([Field("__hash", JObj(fields))])) == Err(e)
  {
    hide ToFields;
  }

  lemma {:induction false} TreeConversion(pf: FloatParser, fields: seq<Field>)
    ensures match ToEntries(pf, fields, [])
            case Ok(es) => ToValue(pf, JObj([Field("__tree", JObj(fields))])) == Ok(Tree(es))
            case Err(e) => ToValue(pf, JObj([Field("__tree", JObj(fields))])) == Err(e)
  {
    hide ToEntries;
  }

  lemma {:induction false} ManyFields(pf: FloatParser, fields: seq<Field>)
    requires |fields| != 1
    ensures match ToFields(pf, fields, [])
            case Ok(fs) => ToValue(pf, JObj(fields)) == Ok(Hash(fs))
            case Err(e) => ToValue(pf, JObj(fields)) == Err(e)
  {
    hide ToFields;
  }

  lemma {:induction false} OneField(pf: FloatParser, f: Field)
    requires !Marker(f)
    ensures match ToFields(pf, [f], [])
            case Ok(fs) => ToValue(pf, JObj([f])) == Ok(Hash(fs))
            case Err(e) => ToValue(pf, JObj([f])) == Err(e)
  {
    hide FromHex, ToValues, ToEntries;
    assert [f][1..] == [];
    if ToValue(pf, f.val).Ok? {
      InsertEmpty(StrLess, f.key, ToValue(pf, f.val).value);
      assert ToFields(pf, [f][1..], [Pair(f.key, ToValue(pf, f.val).value)]) == Ok([Pair(f.key, ToValue(pf, f.val).value)]);
    }
    assert FieldValue(pf, f) == ToValue(pf, f.val);
  }

  // ----- what an import makes of a JSON value -----

  /** An object with the one field `__dir`. */
  function DirOf(c: JsonVal): JsonVal {
    JObj([Field("__dir", c)])
  }

  lemma {:induction false} OnlyDir(j: JsonVal)
    ensures IsDirJson(j) <==> exists c :: j == DirOf(c)
  {
    if IsDirJson(j) {
      assert j.fields == [j.fields[0]];
      assert j == DirOf(j.fields[0].val);
    }
  }

  /** Below the root: a directory made unless it is there, refused if its content is no object, and otherwise a value. */
  lemma {:induction false} ImportMeans(pf: FloatParser, s: Store, p: Path, j: JsonVal, fields: seq<Field>, c: JsonVal)
    requires p != []
    ensures var dir := ImportNode(pf, s, p, DirOf(JObj(fields)), false);
            match Exists(s, p)
            case Err(e) => dir == Outcome(s, Some(e))
            case Ok(true) => dir == ImportChildren(pf, s, p, fields)
            case Ok(false) =>
              var made := Commit(s, MkdirOp(p));
              dir == if made.error.Some? then made else ImportChildren(pf, made.store, p, fields)
    ensures !c.JObj? ==> ImportNode(pf, s, p, DirOf(c), false) == Outcome(s, Some(Invalid))
    ensures (forall c: JsonVal :: j != DirOf(c)) ==>
              match ToValue(pf, j)
              case Err(e) => ImportNode(pf, s, p, j, false) == Outcome(s, Some(e))
              case Ok(v) => ImportNode(pf, s, p, j, false) == Commit(s, SetOp(p, v))
  {
    hide Exists, Commit, ImportChildren, ToValue, IsDirJson;
    OnlyDir(j);
    OnlyDir(DirOf(c));
    OnlyDir(DirOf(JObj(fields)));
  }

  /** At the root: the content of a directory or of any other object, and nothing else. */
  lemma {:induction false} ImportRootMeans(pf: FloatParser, s: Store, fields: seq<Field>, j: JsonVal)
    ensures ImportNode(pf, s, [], DirOf(JObj(fields)), true) == ImportChildren(pf, s, [], fields)
    ensures (forall c: JsonVal :: JObj(fields) != DirOf(c)) ==>
              ImportNode(pf, s, [], JObj(fields), true) == ImportChildren(pf, s, [], fields)
    ensures !j.JObj? ==> ImportNode(pf, s, [], j, true) == Outcome(s, Some(Invalid))
    ensures !j.JObj? ==> ImportNode(pf, s, [], DirOf(j), true) == Outcome(s, Some(Invalid))
  {
    hide ImportChildren, IsDirJson;
    OnlyDir(j);
    OnlyDir(DirOf(j));
    OnlyDir(JObj(fields));
    OnlyDir(DirOf(JObj(fields)));
  }

  // ----- the space around a text -----

  /** Unicode white space, by code point. */
  predicate White(n: int) {
    || 9 <= n <= 13 || n == 32 || n == 0x85 || n == 0xA0 || n == 0x1680 || 0x2000 <= n <= 0x200A
    || n == 0x2028 || n == 0x2029 || n == 0x202F || n == 0x205F || n == 0x3000
  }

  lemma {:induction false} TrimStartIs(s: string) returns (a: string)
    ensures s == a + TrimStart(s) && forall i | 0 <= i < |a| :: White(a[i] as int)
    ensures TrimStart(s) != "" ==> !White(TrimStart(s)[0] as int)
  {
    if s != "" && IsWhite(s[0]) {
      a := TrimStartIs(s[1..]);
      a := [s[0]] + a;
    } else {
      a := "";
    }
  }

  lemma {:induction false} TrimBackIs(s: string) returns (b: string)
    ensures s == TrimBack(s) + b && forall i | 0 <= i < |b| :: White(b[i] as int)
    ensures TrimBack(s) != "" ==> !White(TrimBack(s)[|TrimBack(s)| - 1] as int) && TrimBack(s)[0] == s[0]
  {
    if s != "" && IsWhite(s[|s| - 1]) {
      b := TrimBackIs(s[..|s| - 1]);
      b := b + [s[|s| - 1]];
    } else {
      b := "";
    }
  }

  /** Trimming takes off the white space at both ends and no more. */
  lemma {:induction false} TrimIs(s: string) returns (a: string, b: string)
    ensures s == a + Trim(s) + b
    ensures forall i | 0 <= i < |a| :: White(a[i] as int)
    ensures forall i | 0 <= i < |b| :: White(b[i] as int)
    ensures var t := Trim(s); t != "" ==> !White(t[0] as int) && !White(t[|t| - 1] as int)
  {
    a := TrimStartIs(s);
    b := TrimBackIs(TrimStart(s));
  }
}
