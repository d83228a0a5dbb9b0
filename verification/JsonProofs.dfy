/** What the printer writes, the reader reads back. */
module JsonProofs {
  import opened ByteStrings
  import opened Values
  import opened Numbers
  import opened Texts
  import opened Namespace
  import opened Json

  // ----- the values the dialect can carry -----

  /** A string key that is not taken for a key of another kind. */
  predicate PlainKey(s: string) {
    s != "null" && s != "true" && s != "false" && !Starts(s, "f:") && !Starts(s, "b:") && ParseI64(s).None?
  }

  /** No string key of a tree value reads as a key of another kind. */
  predicate KeysSafe(v: Value)
    decreases v
  {
    match v
    case Leaf(_) => true
    case Hash(fs) => forall i | 0 <= i < |fs| :: KeysSafe(fs[i].val)
    case Set(ms) => forall i | 0 <= i < |ms| :: KeysSafe(ms[i])
    case List(xs) => forall i | 0 <= i < |xs| :: KeysSafe(xs[i])
    case Tree(es) => forall i | 0 <= i < |es| :: (es[i].key.Str? ==> PlainKey(es[i].key.s)) && KeysSafe(es[i].val)
  }

  /** A float that is printed with a point, as text that parses back to it. */
  predicate FloatBack(pf: FloatParser, ft: FloatText, bits: u64) {
    ft.finite(bits) && '.' in ft.show(bits) && pf(ft.show(bits)) == Some(bits)
  }

  predicate KeyBack(pf: FloatParser, ft: FloatText, k: Scalar) {
    match k
    case Str(s) => PlainKey(s)
    case Float(bits) => pf(ft.show(bits)) == Some(bits)
    case _ => true
  }

  /** Every float and every key in it comes back. */
  predicate Survives(pf: FloatParser, ft: FloatText, v: Value)
    decreases v
  {
    match v
    case Leaf(x) => x.Float? ==> FloatBack(pf, ft, x.bits)
    case Hash(fs) => forall i | 0 <= i < |fs| :: Survives(pf, ft, fs[i].val)
    case Set(ms) => forall i | 0 <= i < |ms| :: Survives(pf, ft, ms[i])
    case List(xs) => forall i | 0 <= i < |xs| :: Survives(pf, ft, xs[i])
    case Tree(es) => forall i | 0 <= i < |es| :: KeyBack(pf, ft, es[i].key) && Survives(pf, ft, es[i].val)
  }

  /** What `Display` promises: a finite float is printed as a decimal number. */
  ghost predicate Decimal(ft: FloatText) {
    forall bits: u64 | ft.finite(bits) :: NumberText(ft.show(bits))
  }

  /** What `parse` promises with it: what a printed float reads as is printed alike. */
  ghost predicate PrintedAlike(pf: FloatParser, ft: FloatText) {
    forall bits: u64 | pf(ft.show(bits)).Some? ::
      var back := pf(ft.show(bits)).value; ft.finite(back) == ft.finite(bits) && ft.show(back) == ft.show(bits)
  }

  // ----- hex and keys -----

  lemma {:induction false} HexDigitBack(n: nat)
    requires n < 16
    ensures FromHexDigit(HexDigit(n)) == Ok(n)
  {
  }

  lemma {:induction false} HexBack(b: Bytes)
    ensures FromHex(HexText(b)) == Ok(b)
  {
    if b != [] {
      HexDigitBack(b[0] / 16);
      HexDigitBack(b[0] % 16);
      assert HexText(b)[2..] == HexText(b[1..]);
      HexBack(b[1..]);
      assert b == [b[0]] + b[1..];
    }
  }

  lemma {:induction false} IntKeyBack(pf: FloatParser, n: i64)
    ensures ParseKey(pf, IntText(n)) == Ok(Int(n))
  {
    IntShape(n);
    ParseIntText(n);
    assert IntText(n)[..1][0] == IntText(n)[0];
  }

  lemma {:induction false} FloatKey(pf: FloatParser, text: string)
    ensures ParseKey(pf, "f:" + text) == match pf(text) case Some(bits) => Ok(Float(bits)) case None => Err(Invalid)
  {
    var s := "f:" + text;
    assert s[1] == ':' && s[..2] == "f:" && s[2..] == text;
  }

  /**
   * A tree key survives exactly when it is neither a string that reads as another kind nor
   * a float whose text parses otherwise.
   */
  lemma {:induction false} KeyRoundTripIff(pf: FloatParser, ft: FloatText, k: Scalar)
    ensures ParseKey(pf, KeyText(ft, k)) == Ok(k) <==> KeyBack(pf, ft, k)
  {
    match k
    case Float(bits) => FloatKey(pf, ft.show(bits));
    case Int(n) => IntKeyBack(pf, n);
    case Bin(b) =>
      HexBack(b);
      var s := "b:" + HexText(b);
      assert s[..2] == "b:" && s[2..] == HexText(b);
    case _ =>
  }

  // ----- reading one value -----

  /** What may follow a value inside its parent, or at the end. */
  predicate Stops(rest: string) {
    rest == "" || rest[0] == ',' || rest[0] == ']' || rest[0] == '}'
  }

  /** How a text begins that is neither blank nor taken for the end of its parent. */
  predicate Opens(text: string) {
    text != "" && !IsSpace(text[0]) && text[0] != ']' && text[0] != '}'
  }

  /** What was read and what is left, or the failure to read. */
  function Taken<T>(r: Option<T>, rest: string): Result<(T, string), NsError> {
    match r
    case Some(x) => Ok((x, rest))
    case None => Err(Invalid)
  }

  /** Reading `text` gives `r`, whatever follows; `None` when it cannot be read. */
  ghost predicate Reads(pf: FloatParser, text: string, r: Option<JsonVal>) {
    Opens(text) && forall rest: string | Stops(rest) :: ParseValue(pf, text + rest) == Taken(r, rest)
  }

  /** All of them, if none is missing. */
  function Every<T>(rs: seq<Option<T>>): Option<seq<T>> {
    if rs == [] then Some([])
    else match (rs[0], Every(rs[1..]))
      case (Some(x), Some(xs)) => Some([x] + xs)
      case _ => None
  }

  function InArray(r: Option<seq<JsonVal>>): Option<JsonVal> {
    match r case Some(js) => Some(JArr(js)) case None => None
  }

  function InObject(r: Option<seq<Field>>): Option<JsonVal> {
    match r case Some(fs) => Some(JObj(fs)) case None => None
  }

  function Keyed(key: string, r: Option<JsonVal>): Option<Field> {
    match r case Some(j) => Some(Field(key, j)) case None => None
  }

  /** An object with one field. */
  function Tagged(tag: string, r: Option<JsonVal>): Option<JsonVal> {
    match r case Some(j) => Some(JObj([Field(tag, j)])) case None => None
  }

  lemma {:induction false} NoSpace(s: string)
    requires s == "" || !IsSpace(s[0])
    ensures SkipSpace(s) == s
  {
    SpanIs(IsSpace, s, 0);
  }

  lemma {:induction false} OneSpace(s: string)
    ensures SkipSpace(" " + s) == SkipSpace(s)
  {
    assert (" " + s)[1..] == s;
  }

  lemma {:induction false} SameSkip(pf: FloatParser, s: string, t: string)
    requires SkipSpace(s) == SkipSpace(t)
    ensures ParseValue(pf, s) == ParseValue(pf, t)
  {
  }

  lemma {:induction false} WordReads(pf: FloatParser, word: string, j: JsonVal)
    requires (word == "null" && j == JNull) || (word == "true" && j == JBool(true))
        || (word == "false" && j == JBool(false))
    ensures Reads(pf, word, Some(j))
  {
    forall rest: string | Stops(rest)
      ensures ParseValue(pf, word + rest) == Ok((j, rest))
    {
      var s := word + rest;
      NoSpace(s);
      assert s[..|word|] == word && s[|word|..] == rest;
      assert s[..1][0] == s[0];
    }
  }

  /** What the text of a number reads as. */
  function NumberJson(pf: FloatParser, text: string): Option<JsonVal> {
    if '.' in text then match pf(text) case Some(bits) => Some(JFloat(bits)) case None => None
    else match ParseI64(text) case Some(n) => Some(JNum(n)) case None => None
  }

  lemma {:induction false} NumberBack(pf: FloatParser, text: string, rest: string)
    requires NumberText(text) && Stops(rest)
    ensures var s := text + rest;
            NumberStart(s) && Opens(text) && !IsSpace(s[0]) && ParseNumber(pf, s) == Taken(NumberJson(pf, text), rest)
  {
    hide NumberEnd, ParseI64;
    NumberStops(text, rest);
    PointInside(text);
  }

  lemma {:induction false} NumberDispatch(pf: FloatParser, s: string)
    requires NumberStart(s) && !IsSpace(s[0])
    ensures ParseValue(pf, s) == ParseNumber(pf, s)
  {
    hide ParseNumber, SkipSpace;
    NoSpace(s);
  }

  /** The text of a number reads as that number, or not at all. */
  lemma {:induction false} NumberReads(pf: FloatParser, text: string)
    requires NumberText(text)
    ensures Reads(pf, text, NumberJson(pf, text))
  {
    hide ParseValue, ParseNumber, NumberText, NumberJson;
    assert Opens(text) by { NumberBack(pf, text, ""); }
    forall rest: string | Stops(rest)
      ensures ParseValue(pf, text + rest) == Taken(NumberJson(pf, text), rest)
    {
      NumberBack(pf, text, rest);
      NumberDispatch(pf, text + rest);
    }
  }

  lemma {:induction false} IntReads(pf: FloatParser, n: i64)
    ensures Reads(pf, IntText(n), Some(JNum(n)))
  {
    hide Reads, IntText;
    IntIsNumber(n);
    PointInside(IntText(n));
    ParseIntText(n);
    NumberReads(pf, IntText(n));
  }

  lemma {:induction false} StringRestBack(s: string, acc: string, rest: string)
    ensures StringRest(Escape(s) + ("\"" + rest), acc) == Ok((acc + s, rest))
    decreases |s|
  {
    var t := Escape(s) + ("\"" + rest);
    if s == "" {
      assert t[1..] == rest && acc + s == acc;
    } else {
      StringRestBack(s[1..], acc + [s[0]], rest);
      assert acc + [s[0]] + s[1..] == acc + s;
      var next := Escape(s[1..]) + ("\"" + rest);
      if s[0] == '"' || s[0] == '\\' {
        assert t == ['\\', s[0]] + next;
        assert t[2..] == next;
      } else {
        assert t == [s[0]] + next;
        assert t[1..] == next;
      }
    }
  }

  lemma {:induction false} ParseStringBack(s: string, rest: string)
    ensures ParseString(Quote(s) + rest) == Ok((s, rest))
  {
    var t := Quote(s) + rest;
    assert t[1..] == Escape(s) + ("\"" + rest);
    StringRestBack(s, "", rest);
    assert "" + s == s;
  }

  lemma {:induction false} StringReads(pf: FloatParser, s: string)
    ensures Reads(pf, Quote(s), Some(JStr(s)))
  {
    forall rest: string | Stops(rest)
      ensures ParseValue(pf, Quote(s) + rest) == Ok((JStr(s), rest))
    {
      ParseStringBack(s, rest);
      NoSpace(Quote(s) + rest);
    }
  }

  // ----- arrays -----

  ghost predicate AllRead(pf: FloatParser, texts: seq<string>, rs: seq<Option<JsonVal>>) {
    |texts| == |rs| && forall i | 0 <= i < |texts| :: Reads(pf, texts[i], rs[i])
  }

  lemma {:induction false} JoinCons(parts: seq<string>, rest: string)
    requires parts != []
    ensures JoinWith(parts) + rest ==
            parts[0] + (if |parts| == 1 then rest else ", " + (JoinWith(parts[1..]) + rest))
  {
  }

  lemma {:induction false} ItemsStep(pf: FloatParser, s: string, r: Option<JsonVal>, rest: string, acc: seq<JsonVal>)
    requires ParseValue(pf, s) == Taken(r, rest) && rest != ""
    ensures r.None? ==> ParseItems(pf, s, acc) == Err(Invalid)
    ensures r.Some? && rest[0] == ',' ==> ParseItems(pf, s, acc) == ParseItems(pf, rest[1..], acc + [r.value])
    ensures r.Some? && rest[0] == ']' ==> ParseItems(pf, s, acc) == Ok((acc + [r.value], rest[1..]))
  {
    if rest[0] == ',' || rest[0] == ']' { NoSpace(rest); }
  }

  lemma {:induction false} ItemsSpace(pf: FloatParser, s: string, acc: seq<JsonVal>)
    ensures ParseItems(pf, " " + s, acc) == ParseItems(pf, s, acc)
  {
    OneSpace(s);
    SameSkip(pf, " " + s, s);
  }

  lemma {:induction false} FirstRead(pf: FloatParser, texts: seq<string>, rs: seq<Option<JsonVal>>, rest: string)
    requires AllRead(pf, texts, rs) && texts != [] && Stops(rest)
    ensures |texts| == |rs| && Opens(texts[0]) && ParseValue(pf, texts[0] + rest) == Taken(rs[0], rest)
    ensures AllRead(pf, texts[1..], rs[1..])
  {
    hide ParseValue;
    assert Reads(pf, texts[0], rs[0]);
  }

  lemma {:induction false} EveryCons<T>(rs: seq<Option<T>>, acc: seq<T>)
    requires rs != []
    ensures rs[0].None? ==> Every(rs) == None
    ensures rs[0].Some? ==> Over(acc + [rs[0].value], Every(rs[1..])) == Over(acc, Every(rs))
  {
    if rs[0].Some? && Every(rs[1..]).Some? {
      assert acc + [rs[0].value] + Every(rs[1..]).value == acc + Every(rs).value;
    }
  }

  /** What is there behind what was collected before. */
  function Over<T>(acc: seq<T>, r: Option<seq<T>>): Option<seq<T>> {
    match r case Some(xs) => Some(acc + xs) case None => None
  }

  lemma {:induction false} EveryOne<T>(rs: seq<Option<T>>, acc: seq<T>)
    requires |rs| == 1
    ensures Over(acc, Every(rs)) == if rs[0].Some? then Some(acc + [rs[0].value]) else None
  {
    assert rs[1..] == [] && Every(rs[1..]) == Some([]);
    if rs[0].Some? {
      assert [rs[0].value] + [] == [rs[0].value];
    }
  }

  lemma {:induction false} ItemsBack(pf: FloatParser, texts: seq<string>, rs: seq<Option<JsonVal>>, acc: seq<JsonVal>,
      rest: string)
    requires AllRead(pf, texts, rs) && texts != []
    ensures ParseItems(pf, JoinWith(texts) + ("]" + rest), acc) == Taken(Over(acc, Every(rs)), rest)
    decreases |texts|
  {
    hide ParseItems, ParseValue, JoinWith, AllRead, Every, Over, Opens;
    var s := JoinWith(texts) + ("]" + rest);
    JoinCons(texts, "]" + rest);
    if |texts| == 1 {
      FirstRead(pf, texts, rs, "]" + rest);
      assert ("]" + rest)[1..] == rest;
      ItemsStep(pf, s, rs[0], "]" + rest, acc);
      EveryOne(rs, acc);
    } else {
      var next := JoinWith(texts[1..]) + ("]" + rest);
      var tail := ", " + next;
      assert tail[1..] == " " + next;
      FirstRead(pf, texts, rs, tail);
      ItemsStep(pf, s, rs[0], tail, acc);
      EveryCons(rs, acc);
      OverNone(acc);
      if rs[0].Some? {
        ItemsSpace(pf, next, acc + [rs[0].value]);
        ItemsBack(pf, texts[1..], rs[1..], acc + [rs[0].value], rest);
      }
    }
  }

  lemma {:induction false} OverNone<T>(acc: seq<T>)
    ensures Over(acc, None) == None
  {
  }

  lemma {:induction false} ArrayStep(pf: FloatParser, s: string, r: Option<seq<JsonVal>>, rest: string)
    requires Opens(s) && ParseItems(pf, s, []) == Taken(r, rest)
    ensures ParseValue(pf, "[" + s) == Taken(InArray(r), rest)
  {
    hide ParseItems, SkipSpace, ParseNumber, ParseFields, ParseString;
    NoSpace("[" + s);
    assert ("[" + s)[1..] == s;
    NoSpace(s);
  }

  lemma {:induction false} EmptyArray(pf: FloatParser, rest: string)
    ensures ParseValue(pf, "[]" + rest) == Ok((JArr([]), rest))
  {
    hide SkipSpace, ParseFields, ParseNumber, ParseItems, ParseString;
    var s := "[]" + rest;
    NoSpace(s);
    assert s[1..] == "]" + rest;
    NoSpace("]" + rest);
    assert ("]" + rest)[1..] == rest;
  }

  lemma {:induction false} OverNothing<T>(r: Option<seq<T>>)
    ensures Over([], r) == r
  {
    if r.Some? {
      assert [] + r.value == r.value;
    }
  }

  /** An array reads as the array of its items, and not at all if one of them cannot be read. */
  lemma {:induction false} ArrayReads(pf: FloatParser, texts: seq<string>, rs: seq<Option<JsonVal>>)
    requires AllRead(pf, texts, rs)
    ensures Reads(pf, "[" + JoinWith(texts) + "]", InArray(Every(rs)))
  {
    hide ParseItems, ParseValue;
    forall rest: string | Stops(rest)
      ensures ParseValue(pf, "[" + JoinWith(texts) + "]" + rest) == Taken(InArray(Every(rs)), rest)
    {
      if texts == [] {
        assert "[" + JoinWith(texts) + "]" + rest == "[]" + rest;
        EmptyArray(pf, rest);
      } else {
        var s := JoinWith(texts) + ("]" + rest);
        assert "[" + JoinWith(texts) + "]" + rest == "[" + s;
        ItemsBack(pf, texts, rs, [], rest);
        OverNothing(Every(rs));
        FirstOpens(pf, texts, rs, "]" + rest);
        ArrayStep(pf, s, Every(rs), rest);
      }
    }
  }

  lemma {:induction false} FirstOpens(pf: FloatParser, texts: seq<string>, rs: seq<Option<JsonVal>>, end: string)
    requires AllRead(pf, texts, rs) && texts != []
    ensures Opens(JoinWith(texts) + end)
  {
    hide ParseValue;
    JoinCons(texts, end);
    assert Reads(pf, texts[0], rs[0]);
  }

  // ----- objects -----

  /** What is to be read of one field. */
  datatype Slot = Slot(key: string, json: Option<JsonVal>)

  function Filled(f: Slot): Option<Field> {
    Keyed(f.key, f.json)
  }

  function AllFilled(fs: seq<Slot>): (r: seq<Option<Field>>)
    ensures |r| == |fs|
  {
    if fs == [] then [] else [Filled(fs[0])] + AllFilled(fs[1..])
  }

  /** The text of a field. */
  ghost predicate FieldReads(pf: FloatParser, text: string, f: Slot) {
    exists body :: text == Member(f.key, body) && Reads(pf, body, f.json)
  }

  ghost predicate AllFieldsRead(pf: FloatParser, texts: seq<string>, fs: seq<Slot>) {
    |texts| == |fs| && forall i | 0 <= i < |texts| :: FieldReads(pf, texts[i], fs[i])
  }

  /** One field up to what follows its value. */
  lemma {:induction false} FieldStep(pf: FloatParser, key: string, body: string, r: Option<JsonVal>, rest: string,
      acc: seq<Field>)
    requires ParseValue(pf, body + rest) == Taken(r, rest) && rest != ""
    ensures r.None? ==> ParseFields(pf, Member(key, body) + rest, acc) == Err(Invalid)
    ensures r.Some? && rest[0] == ',' ==>
              ParseFields(pf, Member(key, body) + rest, acc) == ParseFields(pf, rest[1..], acc + [Field(key, r.value)])
    ensures r.Some? && rest[0] == '}' ==>
              ParseFields(pf, Member(key, body) + rest, acc) == Ok((acc + [Field(key, r.value)], rest[1..]))
  {
    hide ParseValue, SkipSpace, ParseString;
    var s := Member(key, body) + rest;
    var colon := ": " + (body + rest);
    assert s == Quote(key) + colon;
    assert s[0] == '"';
    NoSpace(s);
    ParseStringBack(key, colon);
    NoSpace(colon);
    assert colon[1..] == " " + (body + rest);
    OneSpace(body + rest);
    SameSkip(pf, " " + (body + rest), body + rest);
    if rest[0] == ',' || rest[0] == '}' { NoSpace(rest); }
  }

  lemma {:induction false} FieldsSpace(pf: FloatParser, s: string, acc: seq<Field>)
    ensures ParseFields(pf, " " + s, acc) == ParseFields(pf, s, acc)
  {
    hide ParseValue, ParseString, SkipSpace;
    OneSpace(s);
  }

  lemma {:induction false} FirstField(pf: FloatParser, texts: seq<string>, fs: seq<Slot>, rest: string)
    returns (body: string)
    requires AllFieldsRead(pf, texts, fs) && texts != [] && Stops(rest)
    ensures |texts| == |fs| && texts[0] == Member(fs[0].key, body)
    ensures ParseValue(pf, body + rest) == Taken(fs[0].json, rest)
    ensures AllFieldsRead(pf, texts[1..], fs[1..])
  {
    hide ParseValue;
    assert FieldReads(pf, texts[0], fs[0]);
    body :| texts[0] == Member(fs[0].key, body) && Reads(pf, body, fs[0].json);
  }

  lemma {:induction false} FilledCons(fs: seq<Slot>)
    requires fs != []
    ensures AllFilled(fs)[0] == Filled(fs[0]) && AllFilled(fs)[1..] == AllFilled(fs[1..])
    ensures Filled(fs[0]) == if fs[0].json.Some? then Some(Field(fs[0].key, fs[0].json.value)) else None
  {
  }

  lemma {:induction false} FieldsBack(pf: FloatParser, texts: seq<string>, fs: seq<Slot>, acc: seq<Field>,
      rest: string)
    requires AllFieldsRead(pf, texts, fs) && texts != []
    ensures ParseFields(pf, JoinWith(texts) + ("}" + rest), acc) == Taken(Over(acc, Every(AllFilled(fs))), rest)
    decreases |texts|
  {
    hide ParseFields, ParseValue, JoinWith, AllFieldsRead, Member, Every, Over, AllFilled, Filled;
    JoinCons(texts, "}" + rest);
    if |texts| == 1 {
      var tail := "}" + rest;
      assert tail[1..] == rest;
      var body := FirstField(pf, texts, fs, tail);
      FieldStep(pf, fs[0].key, body, fs[0].json, tail, acc);
      FilledCons(fs);
      EveryOne(AllFilled(fs), acc);
    } else {
      var next := JoinWith(texts[1..]) + ("}" + rest);
      var tail := ", " + next;
      assert tail[1..] == " " + next;
      var body := FirstField(pf, texts, fs, tail);
      FieldStep(pf, fs[0].key, body, fs[0].json, tail, acc);
      FilledCons(fs);
      EveryCons(AllFilled(fs), acc);
      OverNone(acc);
      if fs[0].json.Some? {
        var f := Field(fs[0].key, fs[0].json.value);
        FieldsSpace(pf, next, acc + [f]);
        FieldsBack(pf, texts[1..], fs[1..], acc + [f], rest);
      }
    }
  }

  lemma {:induction false} ObjectStep(pf: FloatParser, s: string, r: Option<seq<Field>>, rest: string)
    requires s != "" && s[0] == '"' && ParseFields(pf, s, []) == Taken(r, rest)
    ensures ParseValue(pf, "{" + s) == Taken(InObject(r), rest)
  {
    hide ParseFields, SkipSpace, ParseNumber, ParseItems, ParseString;
    NoSpace("{" + s);
    assert ("{" + s)[1..] == s;
    NoSpace(s);
  }

  lemma {:induction false} EmptyObject(pf: FloatParser, rest: string)
    ensures ParseValue(pf, "{}" + rest) == Ok((JObj([]), rest))
  {
    hide SkipSpace, ParseFields, ParseNumber, ParseItems, ParseString;
    var s := "{}" + rest;
    NoSpace(s);
    assert s[1..] == "}" + rest;
    NoSpace("}" + rest);
    assert ("}" + rest)[1..] == rest;
  }

  lemma {:induction false} FirstQuoted(pf: FloatParser, texts: seq<string>, fs: seq<Slot>, end: string)
    requires AllFieldsRead(pf, texts, fs) && texts != []
    ensures JoinWith(texts) + end != "" && (JoinWith(texts) + end)[0] == '"'
  {
    JoinCons(texts, end);
    assert FieldReads(pf, texts[0], fs[0]);
  }

  /** An object reads as the object of its fields in order, and not at all if one of them cannot be read. */
  lemma {:induction false} ObjectReads(pf: FloatParser, texts: seq<string>, fs: seq<Slot>)
    requires AllFieldsRead(pf, texts, fs)
    ensures Reads(pf, "{" + JoinWith(texts) + "}", InObject(Every(AllFilled(fs))))
  {
    hide ParseFields, ParseValue, FieldReads;
    var r := Every(AllFilled(fs));
    forall rest: string | Stops(rest)
      ensures ParseValue(pf, "{" + JoinWith(texts) + "}" + rest) == Taken(InObject(r), rest)
    {
      if texts == [] {
        assert "{" + JoinWith(texts) + "}" + rest == "{}" + rest;
        EmptyObject(pf, rest);
      } else {
        var s := JoinWith(texts) + ("}" + rest);
        assert "{" + JoinWith(texts) + "}" + rest == "{" + s;
        FieldsBack(pf, texts, fs, [], rest);
        OverNothing(r);
        FirstQuoted(pf, texts, fs, "}" + rest);
        ObjectStep(pf, s, r, rest);
      }
    }
  }

  lemma {:induction false} WrappedReads(pf: FloatParser, tag: string, body: string, r: Option<JsonVal>)
    requires Reads(pf, body, r)
    ensures Reads(pf, Wrapped(tag, body), Tagged(tag, r))
  {
    hide Reads;
    var texts, fs := [Member(tag, body)], [Slot(tag, r)];
    assert FieldReads(pf, texts[0], fs[0]);
    ObjectReads(pf, texts, fs);
    FilledCons(fs);
    OverNothing(Every(AllFilled(fs)));
    EveryOne(AllFilled(fs), []);
    assert r.Some? ==> [] + [Field(tag, r.value)] == [Field(tag, r.value)];
    assert Wrapped(tag, body) == "{" + JoinWith(texts) + "}";
  }

  lemma {:induction false} ReadsToEnd(pf: FloatParser, text: string, r: Option<JsonVal>)
    requires Reads(pf, text, r)
    ensures ParseValue(pf, text) == Taken(r, "")
  {
    hide ParseValue;
    assert text + "" == text;
  }

  /** The whole text is parsed as `r`. */
  lemma {:induction false} ReadWhole(pf: FloatParser, text: string, r: Option<JsonVal>)
    requires Reads(pf, text, r)
    ensures ParseJson(pf, text) == match r case Some(j) => Ok(j) case None => Err(Invalid)
  {
    hide ParseValue, SkipSpace, Reads;
    ReadsToEnd(pf, text, r);
    NoSpace("");
  }
}
