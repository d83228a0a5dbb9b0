/** Printing a value and reading it back. */
module JsonValues {
  import opened ByteStrings
  import opened Strings
  import opened Values
  import opened Numbers
  import opened Texts
  import opened Json
  import opened JsonProofs

  // ----- the JSON a value is printed as -----

  /** A float may come out as a number, an integer or a string, or as text that cannot be read. */
  function ScalarJson(pf: FloatParser, ft: FloatText, x: Scalar): Option<JsonVal> {
    match x
    case Null => Some(JNull)
    case Bool(b) => Some(JBool(b))
    case Int(n) => Some(JNum(n))
    case Float(bits) =>
      if ft.finite(bits) then NumberJson(pf, ft.show(bits)) else Some(JStr("float:" + NatText(bits)))
    case Str(s) => Some(JStr(s))
    case Bin(b) => Some(JObj([Field("__bytes", JStr(HexText(b)))]))
  }

  function ValueJson(pf: FloatParser, ft: FloatText, v: Value): Option<JsonVal>
    decreases v, 1
  {
    match v
    case Leaf(x) => ScalarJson(pf, ft, x)
    case Hash(fs) => Tagged("__hash", InObject(Every(AllFilled(FieldSlots(pf, ft, fs)))))
    case List(xs) => InArray(Every(ItemJsons(pf, ft, xs)))
    case Set(ms) => Tagged("__set", InArray(Every(ItemJsons(pf, ft, ms))))
    case Tree(es) => Tagged("__tree", InObject(Every(AllFilled(EntrySlots(pf, ft, es)))))
  }

  function ItemJsons(pf: FloatParser, ft: FloatText, vs: seq<Value>): (r: seq<Option<JsonVal>>)
    ensures |r| == |vs|
    decreases vs, 0
  {
    if vs == [] then [] else [ValueJson(pf, ft, vs[0])] + ItemJsons(pf, ft, vs[1..])
  }

  function FieldSlots(pf: FloatParser, ft: FloatText, fs: seq<Pair<string>>): (r: seq<Slot>)
    ensures |r| == |fs|
    decreases fs, 0
  {
    if fs == [] then [] else [FieldSlot(pf, ft, fs[0])] + FieldSlots(pf, ft, fs[1..])
  }

  function FieldSlot(pf: FloatParser, ft: FloatText, f: Pair<string>): Slot
    decreases f, 2
  {
    Slot(f.key, ValueJson(pf, ft, f.val))
  }

  function EntrySlots(pf: FloatParser, ft: FloatText, es: seq<Pair<Scalar>>): (r: seq<Slot>)
    ensures |r| == |es|
    decreases es, 0
  {
    if es == [] then [] else [EntrySlot(pf, ft, es[0])] + EntrySlots(pf, ft, es[1..])
  }

  function EntrySlot(pf: FloatParser, ft: FloatText, e: Pair<Scalar>): Slot
    decreases e, 2
  {
    Slot(KeyText(ft, e.key), ValueJson(pf, ft, e.val))
  }

  // ----- the text reads as that JSON -----

  lemma {:induction false} TightReads(pf: FloatParser, key: string, s: string)
    ensures Reads(pf, "{" + Quote(key) + ":" + Quote(s) + "}", Some(JObj([Field(key, JStr(s))])))
  {
    hide ParseValue, Quote;
    forall rest: string | Stops(rest)
      ensures ParseValue(pf, "{" + Quote(key) + ":" + Quote(s) + "}" + rest) == Ok((JObj([Field(key, JStr(s))]), rest))
    {
      TightField(pf, key, s, rest);
      assert "{" + Quote(key) + ":" + Quote(s) + "}" + rest == "{" + (Quote(key) + (":" + (Quote(s) + ("}" + rest))));
    }
  }

  /** A single string field with no space behind its colon. */
  lemma {:induction false} TightField(pf: FloatParser, key: string, s: string, rest: string)
    ensures ParseValue(pf, "{" + (Quote(key) + (":" + (Quote(s) + ("}" + rest)))))
        == Ok((JObj([Field(key, JStr(s))]), rest))
  {
    hide ParseValue, ParseString, SkipSpace;
    var close := "}" + rest;
    var body := Quote(s) + close;
    var t := Quote(key) + (":" + body);
    StringReads(pf, s);
    assert Stops(close) && ParseValue(pf, Quote(s) + close) == Ok((JStr(s), close));
    NoSpace(t);
    ParseStringBack(key, ":" + body);
    NoSpace(":" + body);
    assert (":" + body)[1..] == body;
    NoSpace(close);
    assert close[1..] == rest && [] + [Field(key, JStr(s))] == [Field(key, JStr(s))];
    assert ParseFields(pf, t, []) == Ok(([Field(key, JStr(s))], rest));
    ObjectStep(pf, t, Some([Field(key, JStr(s))]), rest);
  }

  lemma {:induction false} ScalarReads(pf: FloatParser, ft: FloatText, x: Scalar)
    requires Decimal(ft)
    ensures Reads(pf, ScalarText(ft, x), ScalarJson(pf, ft, x))
  {
    hide Reads, NumberText, NumberJson;
    match x
    case Null => WordReads(pf, "null", JNull);
    case Bool(b) => WordReads(pf, if b then "true" else "false", JBool(b));
    case Int(n) => IntReads(pf, n);
    case Float(bits) =>
      if ft.finite(bits) {
        NumberReads(pf, ft.show(bits));
      } else {
        StringReads(pf, "float:" + NatText(bits));
      }
    case Str(s) => StringReads(pf, s);
    case Bin(b) => TightReads(pf, "__bytes", HexText(b));
  }

  /** The text of any value reads as its JSON, or not at all where there is none. */
  lemma {:induction false} ValueReads(pf: FloatParser, ft: FloatText, v: Value)
    requires Decimal(ft)
    ensures Reads(pf, ValueText(ft, v), ValueJson(pf, ft, v))
    decreases v, 1
  {
    hide Reads, AllRead, AllFieldsRead, Wrapped, Tagged, InObject, InArray, Every, AllFilled, Decimal, ScalarJson,
         ScalarText;
    match v
    case Leaf(x) => ScalarReads(pf, ft, x);
    case Hash(fs) =>
      FieldsRead(pf, ft, fs);
      ObjectReads(pf, FieldTexts(ft, fs), FieldSlots(pf, ft, fs));
      WrappedReads(pf, "__hash", "{" + JoinWith(FieldTexts(ft, fs)) + "}",
                   InObject(Every(AllFilled(FieldSlots(pf, ft, fs)))));
    case List(xs) =>
      ItemsRead(pf, ft, xs);
      ArrayReads(pf, ItemTexts(ft, xs), ItemJsons(pf, ft, xs));
    case Set(ms) =>
      ItemsRead(pf, ft, ms);
      ArrayReads(pf, ItemTexts(ft, ms), ItemJsons(pf, ft, ms));
      WrappedReads(pf, "__set", "[" + JoinWith(ItemTexts(ft, ms)) + "]", InArray(Every(ItemJsons(pf, ft, ms))));
    case Tree(es) =>
      EntriesRead(pf, ft, es);
      ObjectReads(pf, EntryTexts(ft, es), EntrySlots(pf, ft, es));
      WrappedReads(pf, "__tree", "{" + JoinWith(EntryTexts(ft, es)) + "}",
                   InObject(Every(AllFilled(EntrySlots(pf, ft, es)))));
  }

  lemma {:induction false} ReadCons(pf: FloatParser, text: string, r: Option<JsonVal>, texts: seq<string>,
      rs: seq<Option<JsonVal>>)
    requires Reads(pf, text, r) && AllRead(pf, texts, rs)
    ensures AllRead(pf, [text] + texts, [r] + rs)
  {
    hide Reads;
  }

  lemma {:induction false} FieldCons(pf: FloatParser, key: string, body: string, r: Option<JsonVal>, texts: seq<string>,
      fs: seq<Slot>)
    requires Reads(pf, body, r) && AllFieldsRead(pf, texts, fs)
    ensures AllFieldsRead(pf, [Member(key, body)] + texts, [Slot(key, r)] + fs)
  {
    hide Reads, Member;
    assert FieldReads(pf, Member(key, body), Slot(key, r));
  }

  lemma {:induction false} ItemsRead(pf: FloatParser, ft: FloatText, vs: seq<Value>)
    requires Decimal(ft)
    ensures AllRead(pf, ItemTexts(ft, vs), ItemJsons(pf, ft, vs))
    decreases vs, 0
  {
    hide Reads, ValueText, ValueJson, Decimal;
    if vs != [] {
      ValueReads(pf, ft, vs[0]);
      ItemsRead(pf, ft, vs[1..]);
      ReadCons(pf, ValueText(ft, vs[0]), ValueJson(pf, ft, vs[0]), ItemTexts(ft, vs[1..]), ItemJsons(pf, ft, vs[1..]));
    }
  }

  lemma {:induction false} FieldsRead(pf: FloatParser, ft: FloatText, fs: seq<Pair<string>>)
    requires Decimal(ft)
    ensures AllFieldsRead(pf, FieldTexts(ft, fs), FieldSlots(pf, ft, fs))
    decreases fs, 0
  {
    hide Reads, ValueText, ValueJson, Member, Decimal;
    if fs != [] {
      FieldRead(pf, ft, fs[0]);
      FieldsRead(pf, ft, fs[1..]);
      FieldCons(pf, fs[0].key, ValueText(ft, fs[0].val), ValueJson(pf, ft, fs[0].val), FieldTexts(ft, fs[1..]),
          FieldSlots(pf, ft, fs[1..]));
    }
  }

  lemma {:induction false} FieldRead(pf: FloatParser, ft: FloatText, f: Pair<string>)
    requires Decimal(ft)
    ensures Reads(pf, ValueText(ft, f.val), ValueJson(pf, ft, f.val))
    decreases f, 2
  {
    ValueReads(pf, ft, f.val);
  }

  lemma {:induction false} EntriesRead(pf: FloatParser, ft: FloatText, es: seq<Pair<Scalar>>)
    requires Decimal(ft)
    ensures AllFieldsRead(pf, EntryTexts(ft, es), EntrySlots(pf, ft, es))
    decreases es, 0
  {
    hide Reads, ValueText, ValueJson, Member, KeyText, Decimal;
    if es != [] {
      EntryRead(pf, ft, es[0]);
      EntriesRead(pf, ft, es[1..]);
      FieldCons(pf, KeyText(ft, es[0].key), ValueText(ft, es[0].val), ValueJson(pf, ft, es[0].val),
                EntryTexts(ft, es[1..]), EntrySlots(pf, ft, es[1..]));
    }
  }

  lemma {:induction false} EntryRead(pf: FloatParser, ft: FloatText, e: Pair<Scalar>)
    requires Decimal(ft)
    ensures Reads(pf, ValueText(ft, e.val), ValueJson(pf, ft, e.val))
    decreases e, 2
  {
    ValueReads(pf, ft, e.val);
  }

  // ----- the JSON converts back to the value -----

  lemma {:induction false} BytesForm(pf: FloatParser, b: Bytes)
    ensures ToValue(pf, JObj([Field("__bytes", JStr(HexText(b)))])) == Ok(Leaf(Bin(b)))
  {
    HexBack(b);
  }

  lemma {:induction false} HashForm(pf: FloatParser, fields: seq<Field>, fs: seq<Pair<string>>)
    requires ToFields(pf, fields, []) == Ok(fs)
    ensures ToValue(pf, JObj([Field("__hash", JObj(fields))])) == Ok(Hash(fs))
  {
  }

  lemma {:induction false} SetForm(pf: FloatParser, items: seq<JsonVal>, ms: seq<Value>)
    requires ToValues(pf, items) == Ok(ms)
    ensures ToValue(pf, JObj([Field("__set", JArr(items))])) == Ok(Value.Set(ms))
  {
  }

  lemma {:induction false} TreeForm(pf: FloatParser, fields: seq<Field>, es: seq<Pair<Scalar>>)
    requires ToEntries(pf, fields, []) == Ok(es)
    ensures ToValue(pf, JObj([Field("__tree", JObj(fields))])) == Ok(Tree(es))
  {
  }

  /** What a scalar comes back as, if it can be read: itself, but for floats that are not printed with a point. */
  lemma {:induction false} ScalarBack(pf: FloatParser, ft: FloatText, x: Scalar)
    ensures (ScalarJson(pf, ft, x).Some? && ToValue(pf, ScalarJson(pf, ft, x).value) == Ok(Leaf(x)))
            <==> (x.Float? ==> FloatBack(pf, ft, x.bits))
  {
    hide HexText, FromHex, NatText;
    if x.Bin? {
      BytesForm(pf, x.data);
    }
  }

  /** The JSON of the parts, one by one. */
  lemma {:induction false} EverySplit<T>(rs: seq<Option<T>>, xs: seq<T>)
    requires Every(rs) == Some(xs) && rs != []
    ensures xs != [] && rs[0] == Some(xs[0]) && Every(rs[1..]) == Some(xs[1..])
  {
  }

  lemma {:induction false} EveryJoin<T>(rs: seq<Option<T>>, x: T, xs: seq<T>)
    requires rs != [] && rs[0] == Some(x) && Every(rs[1..]) == Some(xs)
    ensures Every(rs) == Some([x] + xs)
  {
  }

  lemma {:induction false} ValueBack(pf: FloatParser, ft: FloatText, v: Value)
    requires WellFormed(v) && Survives(pf, ft, v)
    ensures ValueJson(pf, ft, v).Some? && ToValue(pf, ValueJson(pf, ft, v).value) == Ok(v)
    decreases v, 1
  {
    hide Sorted, ToFields, ToEntries, ToSpecial, ScalarJson, FloatBack, KeyBack, Every, AllFilled;
    match v
    case Leaf(x) => ScalarBack(pf, ft, x);
    case Hash(fs) =>
      assert [] + fs == fs;
      var fields := FieldsBackTo(pf, ft, fs, []);
      HashForm(pf, fields, fs);
    case List(xs) => var js := AllBack(pf, ft, xs);
    case Set(ms) =>
      var js := AllBack(pf, ft, ms);
      SetForm(pf, js, ms);
    case Tree(es) =>
      assert [] + es == es;
      var fields := EntriesBackTo(pf, ft, es, []);
      TreeForm(pf, fields, es);
  }

  lemma {:induction false} AllBack(pf: FloatParser, ft: FloatText, vs: seq<Value>) returns (js: seq<JsonVal>)
    requires forall i | 0 <= i < |vs| :: WellFormed(vs[i]) && Survives(pf, ft, vs[i])
    ensures Every(ItemJsons(pf, ft, vs)) == Some(js) && ToValues(pf, js) == Ok(vs)
    decreases vs, 0
  {
    hide WellFormed, Survives, ValueJson, ToValue;
    js := [];
    if vs != [] {
      ValueBack(pf, ft, vs[0]);
      var rest := AllBack(pf, ft, vs[1..]);
      var rs := ItemJsons(pf, ft, vs);
      assert rs[1..] == ItemJsons(pf, ft, vs[1..]);
      EveryJoin(rs, rs[0].value, rest);
      js := [rs[0].value] + rest;
      assert js[1..] == rest && vs == [vs[0]] + vs[1..];
    }
  }

  lemma {:induction false} FilledJoin(slots: seq<Slot>, j: JsonVal, rest: seq<Field>)
    requires slots != [] && slots[0].json == Some(j) && Every(AllFilled(slots[1..])) == Some(rest)
    ensures Every(AllFilled(slots)) == Some([Field(slots[0].key, j)] + rest)
  {
    hide Every;
    FilledCons(slots);
    EveryJoin(AllFilled(slots), Field(slots[0].key, j), rest);
  }

  lemma {:induction false} FieldsBackTo(pf: FloatParser, ft: FloatText, fs: seq<Pair<string>>, acc: seq<Pair<string>>)
    returns (fields: seq<Field>)
    requires Sorted(StrLess, acc + fs)
    requires forall i | 0 <= i < |fs| :: WellFormed(fs[i].val) && Survives(pf, ft, fs[i].val)
    ensures Every(AllFilled(FieldSlots(pf, ft, fs))) == Some(fields) && ToFields(pf, fields, acc) == Ok(acc + fs)
    decreases fs, 0
  {
    hide Sorted, StrLess, ValueJson, ToValue, WellFormed, Survives;
    fields := [];
    if fs == [] {
      assert acc + fs == acc;
    } else {
      var j := FieldBack(pf, ft, fs[0]);
      StrOrder();
      InsertNext(StrLess, acc, fs);
      var rest := FieldsBackTo(pf, ft, fs[1..], acc + [fs[0]]);
      var slots := FieldSlots(pf, ft, fs);
      assert slots[1..] == FieldSlots(pf, ft, fs[1..]);
      FilledJoin(slots, j, rest);
      fields := [Field(fs[0].key, j)] + rest;
      assert fields[1..] == rest;
    }
  }

  lemma {:induction false} FieldBack(pf: FloatParser, ft: FloatText, f: Pair<string>) returns (j: JsonVal)
    requires WellFormed(f.val) && Survives(pf, ft, f.val)
    ensures FieldSlot(pf, ft, f) == Slot(f.key, Some(j)) && FieldValue(pf, Field(f.key, j)) == Ok(f.val)
    decreases f, 2
  {
    hide WellFormed, Survives, ValueJson, ToValue;
    ValueBack(pf, ft, f.val);
    j := ValueJson(pf, ft, f.val).value;
  }

  lemma {:induction false} EntriesBackTo(pf: FloatParser, ft: FloatText, es: seq<Pair<Scalar>>, acc: seq<Pair<Scalar>>)
    returns (fields: seq<Field>)
    requires Sorted(ScalarLess, acc + es)
    requires forall i | 0 <= i < |es| ::
               WellFormed(es[i].val) && KeyBack(pf, ft, es[i].key) && Survives(pf, ft, es[i].val)
    ensures Every(AllFilled(EntrySlots(pf, ft, es))) == Some(fields) && ToEntries(pf, fields, acc) == Ok(acc + es)
    decreases es, 0
  {
    hide Sorted, ScalarLess, ValueJson, ToValue, KeyBack, ParseKey, KeyText, WellFormed, Survives;
    fields := [];
    if es == [] {
      assert acc + es == acc;
    } else {
      var j := EntryBack(pf, ft, es[0]);
      KeyRoundTripIff(pf, ft, es[0].key);
      ScalarOrder();
      InsertNext(ScalarLess, acc, es);
      var rest := EntriesBackTo(pf, ft, es[1..], acc + [es[0]]);
      var slots := EntrySlots(pf, ft, es);
      assert slots[1..] == EntrySlots(pf, ft, es[1..]);
      FilledJoin(slots, j, rest);
      fields := [Field(KeyText(ft, es[0].key), j)] + rest;
      assert fields[1..] == rest;
    }
  }

  lemma {:induction false} EntryBack(pf: FloatParser, ft: FloatText, e: Pair<Scalar>) returns (j: JsonVal)
    requires WellFormed(e.val) && Survives(pf, ft, e.val)
    ensures EntrySlot(pf, ft, e) == Slot(KeyText(ft, e.key), Some(j))
    ensures FieldValue(pf, Field(KeyText(ft, e.key), j)) == Ok(e.val)
    decreases e, 2
  {
    hide WellFormed, Survives, ValueJson, ToValue, KeyText;
    ValueBack(pf, ft, e.val);
    j := ValueJson(pf, ft, e.val).value;
  }
}
