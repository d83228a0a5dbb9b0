/** What comes back from JSON, and exactly when it is what was sent. */
module JsonBack {
  import opened ByteStrings
  import opened Utf8
  import opened Strings
  import opened Values
  import opened Codec
  import opened CodecProofs
  import opened CodecTheorems
  import opened Numbers
  import opened Json
  import opened JsonProofs
  import opened JsonValues

  ghost predicate Plain(v: Value) {
    WellFormed(v) && KeysSafe(v)
  }

  predicate KeySafe(k: Scalar) {
    k.Str? ==> PlainKey(k.s)
  }

  /** No key text reads as a string that would read as something else. */
  lemma {:induction false} ParsedKeySafe(pf: FloatParser, s: string)
    requires ParseKey(pf, s).Ok?
    ensures KeySafe(ParseKey(pf, s).value)
  {
  }

  // ----- each kind of structure is plain when its parts are -----

  lemma {:induction false} PlainHash(fs: seq<Pair<string>>)
    requires Sorted(StrLess, fs) && forall f | f in fs :: Plain(f.val)
    ensures Plain(Hash(fs))
  {
    forall i | 0 <= i < |fs| ensures Plain(fs[i].val) { assert fs[i] in fs; }
  }

  lemma {:induction false} PlainSeq(vs: seq<Value>)
    requires forall v | v in vs :: Plain(v)
    ensures Plain(List(vs)) && Plain(Value.Set(vs))
  {
    forall i | 0 <= i < |vs| ensures Plain(vs[i]) { assert vs[i] in vs; }
  }

  lemma {:induction false} PlainTree(es: seq<Pair<Scalar>>)
    requires Sorted(ScalarLess, es) && forall e | e in es :: KeySafe(e.key) && Plain(e.val)
    ensures Plain(Tree(es))
  {
    forall i | 0 <= i < |es| ensures KeySafe(es[i].key) && Plain(es[i].val) { assert es[i] in es; }
  }

  /** Whatever JSON it came from, a converted value is in key order and its string keys are plain. */
  lemma {:induction false} ConvertedPlain(pf: FloatParser, j: JsonVal, w: Value)
    requires ToValue(pf, j) == Ok(w)
    ensures Plain(w)
    decreases j, 1
  {
    hide Plain, ToFields, ToEntries, ToSpecial, FromHex, ParseKey;
    match j
    case JArr(items) =>
      ItemsPlain(pf, items, w.items);
      PlainSeq(w.items);
    case JObj(fields) =>
      if |fields| == 1 {
        SpecialPlain(pf, fields[0], w);
      } else {
        FieldsPlain(pf, fields, [], w.fields);
        PlainHash(w.fields);
      }
    case _ => LeafPlain(w.scalar);
  }

  lemma {:induction false} LeafPlain(x: Scalar)
    ensures Plain(Leaf(x))
  {
  }

  lemma {:induction false} SpecialPlain(pf: FloatParser, f: Field, w: Value)
    requires ToSpecial(pf, f) == Ok(w)
    ensures Plain(w)
    decreases f, 3
  {
    hide Plain, ToFields, ToEntries, ToValue, ToValues, FromHex, ParseKey;
    if f.key == "__bytes" && f.val.JStr? {
      LeafPlain(w.scalar);
    } else if f.key == "__set" && f.val.JArr? {
      ItemsPlain(pf, f.val.items, w.members);
      PlainSeq(w.members);
    } else if f.key == "__hash" && f.val.JObj? {
      FieldsPlain(pf, f.val.fields, [], w.fields);
      PlainHash(w.fields);
    } else if f.key == "__tree" && f.val.JObj? {
      EntriesPlain(pf, f.val.fields, [], w.entries);
      PlainTree(w.entries);
    } else {
      ConvertedPlain(pf, f.val, w.fields[0].val);
      PlainHash(w.fields);
    }
  }

  lemma {:induction false} ItemsPlain(pf: FloatParser, items: seq<JsonVal>, ws: seq<Value>)
    requires ToValues(pf, items) == Ok(ws)
    ensures forall w | w in ws :: Plain(w)
    decreases items, 0
  {
    hide Plain, ToValue;
    if items != [] {
      ConvertedPlain(pf, items[0], ws[0]);
      ItemsPlain(pf, items[1..], ws[1..]);
    }
  }

  lemma {:induction false} FieldPlain(pf: FloatParser, f: Field, w: Value)
    requires FieldValue(pf, f) == Ok(w)
    ensures Plain(w)
    decreases f, 2
  {
    ConvertedPlain(pf, f.val, w);
  }

  lemma {:induction false} FieldsPlain(
    pf: FloatParser, fields: seq<Field>, acc: seq<Pair<string>>, fs: seq<Pair<string>>)
    requires ToFields(pf, fields, acc) == Ok(fs)
    requires Sorted(StrLess, acc) && forall f | f in acc :: Plain(f.val)
    ensures Sorted(StrLess, fs) && forall f | f in fs :: Plain(f.val)
    decreases fields, 0
  {
    hide Plain, FieldValue, Sorted, StrLess, Insert;
    if fields != [] {
      var v := FieldValue(pf, fields[0]).value;
      FieldPlain(pf, fields[0], v);
      StrOrder();
      InsertSorted(StrLess, acc, fields[0].key, v);
      FieldsPlain(pf, fields[1..], Insert(StrLess, acc, fields[0].key, v), fs);
    }
  }

  lemma {:induction false} EntriesPlain(
    pf: FloatParser, fields: seq<Field>, acc: seq<Pair<Scalar>>, es: seq<Pair<Scalar>>)
    requires ToEntries(pf, fields, acc) == Ok(es)
    requires Sorted(ScalarLess, acc) && forall e | e in acc :: KeySafe(e.key) && Plain(e.val)
    ensures Sorted(ScalarLess, es) && forall e | e in es :: KeySafe(e.key) && Plain(e.val)
    decreases fields, 0
  {
    hide Plain, FieldValue, Sorted, ScalarLess, Insert, ParseKey, KeySafe;
    if fields != [] {
      var k, v := ParseKey(pf, fields[0].key).value, FieldValue(pf, fields[0]).value;
      ParsedKeySafe(pf, fields[0].key);
      FieldPlain(pf, fields[0], v);
      ScalarOrder();
      InsertSorted(ScalarLess, acc, k, v);
      EntriesPlain(pf, fields[1..], Insert(ScalarLess, acc, k, v), es);
    }
  }

  // ----- what the JSON of a value converts to -----

  lemma {:induction false} CharsFit(s: string)
    ensures |s| <= |ToUtf8(s)|
  {
    if s != "" {
      CharsFit(s[1..]);
    }
  }

  lemma {:induction false} HexHalves(s: string)
    requires FromHex(s).Ok?
    ensures |FromHex(s).value| <= |s|
    decreases |s|
  {
    if |s| > 1 {
      HexHalves(s[2..]);
    }
  }

  lemma {:induction false} StrKeyFits(pf: FloatParser, s: string)
    requires |ToUtf8(s)| < U32 && ParseKey(pf, s).Ok?
    ensures ScalarFits(ParseKey(pf, s).value)
  {
    hide ToUtf8, FromHex, ParseI64;
    CharsFit(s);
    if Starts(s, "b:") && FromHex(s[2..]).Ok? {
      HexHalves(s[2..]);
    }
  }

  /** What a key comes back as is no longer than the key, and then comes back as it is. */
  lemma {:induction false} KeyConverted(pf: FloatParser, ft: FloatText, k: Scalar)
    requires PrintedAlike(pf, ft) && ParseKey(pf, KeyText(ft, k)).Ok?
    ensures ScalarFits(k) ==> ScalarFits(ParseKey(pf, KeyText(ft, k)).value)
    ensures KeySafe(k) ==> KeyBack(pf, ft, ParseKey(pf, KeyText(ft, k)).value)
  {
    hide ParseKey, ToUtf8, PlainKey;
    KeyRoundTripIff(pf, ft, k);
    if k.Float? {
      FloatKey(pf, ft.show(k.bits));
    } else if k.Str? && ScalarFits(k) {
      StrKeyFits(pf, k.s);
    }
  }

  ghost predicate FieldsFit(fs: seq<Pair<string>>) {
    forall f | f in fs :: |ToUtf8(f.key)| < U32 && Fits(f.val)
  }

  ghost predicate EntriesFit(es: seq<Pair<Scalar>>) {
    forall e | e in es :: ScalarFits(e.key) && Fits(e.val)
  }

  ghost predicate FieldsSurvive(pf: FloatParser, ft: FloatText, fs: seq<Pair<string>>) {
    forall f | f in fs :: Survives(pf, ft, f.val)
  }

  ghost predicate EntriesSurvive(pf: FloatParser, ft: FloatText, es: seq<Pair<Scalar>>) {
    forall e | e in es :: KeyBack(pf, ft, e.key) && Survives(pf, ft, e.val)
  }

  ghost predicate FieldsSafe(fs: seq<Pair<string>>) {
    forall f | f in fs :: KeysSafe(f.val)
  }

  ghost predicate EntriesSafe(es: seq<Pair<Scalar>>) {
    forall e | e in es :: KeySafe(e.key) && KeysSafe(e.val)
  }

  lemma {:induction false} HashParts(pf: FloatParser, ft: FloatText, fs: seq<Pair<string>>)
    ensures Fits(Hash(fs)) <==> |fs| < U32 && FieldsFit(fs)
    ensures KeysSafe(Hash(fs)) <==> FieldsSafe(fs)
    ensures Survives(pf, ft, Hash(fs)) <==> FieldsSurvive(pf, ft, fs)
  {
    hide ToUtf8;
    assert forall i | 0 <= i < |fs| :: fs[i] in fs;
  }

  lemma {:induction false} SeqParts(pf: FloatParser, ft: FloatText, vs: seq<Value>)
    ensures Fits(List(vs)) == Fits(Value.Set(vs)) == (|vs| < U32 && forall v | v in vs :: Fits(v))
    ensures KeysSafe(List(vs)) == KeysSafe(Value.Set(vs)) == forall v | v in vs :: KeysSafe(v)
    ensures Survives(pf, ft, List(vs)) == Survives(pf, ft, Value.Set(vs)) == forall v | v in vs :: Survives(pf, ft, v)
  {
    assert forall i | 0 <= i < |vs| :: vs[i] in vs;
  }

  lemma {:induction false} TreeParts(pf: FloatParser, ft: FloatText, es: seq<Pair<Scalar>>)
    ensures Fits(Tree(es)) <==> |es| < U32 && EntriesFit(es)
    ensures KeysSafe(Tree(es)) <==> EntriesSafe(es)
    ensures Survives(pf, ft, Tree(es)) <==> EntriesSurvive(pf, ft, es)
  {
    hide PlainKey, KeyBack, ScalarFits;
    assert forall i | 0 <= i < |es| :: es[i] in es;
  }

  lemma {:induction false} HashUnfold(pf: FloatParser, fields: seq<Field>, w: Value)
    requires ToValue(pf, JObj([Field("__hash", JObj(fields))])) == Ok(w)
    ensures w.Hash? && ToFields(pf, fields, []) == Ok(w.fields)
  {
  }

  lemma {:induction false} SetUnfold(pf: FloatParser, items: seq<JsonVal>, w: Value)
    requires ToValue(pf, JObj([Field("__set", JArr(items))])) == Ok(w)
    ensures w.Set? && ToValues(pf, items) == Ok(w.members)
  {
  }

  lemma {:induction false} TreeUnfold(pf: FloatParser, fields: seq<Field>, w: Value)
    requires ToValue(pf, JObj([Field("__tree", JObj(fields))])) == Ok(w)
    ensures w.Tree? && ToEntries(pf, fields, []) == Ok(w.entries)
  {
  }

  lemma {:induction false} ListUnfold(pf: FloatParser, items: seq<JsonVal>, w: Value)
    requires ToValue(pf, JArr(items)) == Ok(w)
    ensures w.List? && ToValues(pf, items) == Ok(w.items)
  {
  }

  /** A scalar comes back as a scalar that fits and then comes back as it is. */
  lemma {:induction false} ScalarConverted(pf: FloatParser, ft: FloatText, x: Scalar, j: JsonVal, w: Value)
    requires PrintedAlike(pf, ft) && ScalarJson(pf, ft, x) == Some(j) && ToValue(pf, j) == Ok(w)
    ensures (ScalarFits(x) ==> Fits(w)) && Survives(pf, ft, w)
  {
    hide ToUtf8, NatText, ParseI64, HexText;
    ScalarBack(pf, ft, x);
    if x.Float? && !ft.finite(x.bits) {
      assert j == JStr("float:" + NatText(x.bits)) && w == Leaf(Str("float:" + NatText(x.bits)));
      ShortText(x.bits);
    }
  }

  lemma {:induction false} DigitsFew(n: nat, k: nat, bound: nat)
    requires n < bound && bound == Pow10(k) && k > 0
    ensures |NatText(n)| <= k
    decreases k
  {
    if n >= 10 {
      DigitsFew(n / 10, k - 1, Pow10(k - 1));
    }
  }

  function Pow10(k: nat): nat {
    if k == 0 then 1 else 10 * Pow10(k - 1)
  }

  lemma {:induction false} Utf8Width(s: string)
    ensures |ToUtf8(s)| <= 4 * |s|
  {
    if s != "" {
      Utf8Width(s[1..]);
    }
  }

  lemma {:induction false} ShortText(bits: u64)
    ensures |ToUtf8("float:" + NatText(bits))| < U32
  {
    hide NatText;
    assert Pow10(10) == 10_000_000_000 by { assert Pow10(5) == 100_000; }
    assert Pow10(20) == 100_000_000_000_000_000_000 by {
      assert Pow10(15) == 1_000_000_000_000_000;
    }
    DigitsFew(bits, 20, Pow10(20));
    Utf8Width("float:" + NatText(bits));
  }

  /**
   * What a value comes back as is no longer than the value; and it comes back as it is when
   * sent again, if the string keys of the value are plain.
   */
  lemma {:induction false} Converted(pf: FloatParser, ft: FloatText, v: Value, j: JsonVal, w: Value)
    requires PrintedAlike(pf, ft) && ValueJson(pf, ft, v) == Some(j) && ToValue(pf, j) == Ok(w)
    ensures Fits(v) ==> Fits(w)
    ensures KeysSafe(v) ==> Survives(pf, ft, w)
    decreases v, 1
  {
    hide PrintedAlike, ToValue, ToFields, ToEntries, ToValues, ScalarJson, ToUtf8, Fits, KeysSafe, Survives, Every,
         AllFilled, FieldsFit, EntriesFit, FieldsSafe, EntriesSafe, FieldsSurvive, EntriesSurvive, ScalarFits;
    match v
    case Leaf(x) =>
      LeafFits(x);
      ScalarConverted(pf, ft, x, j, w);
    case Hash(fs) =>
      var fields := Every(AllFilled(FieldSlots(pf, ft, fs))).value;
      HashUnfold(pf, fields, w);
      NoFields(pf, ft);
      FieldsConverted(pf, ft, fs, fields, [], w.fields);
      HashParts(pf, ft, fs);
      HashParts(pf, ft, w.fields);
    case List(xs) =>
      ListUnfold(pf, Every(ItemJsons(pf, ft, xs)).value, w);
      AllConverted(pf, ft, xs, Every(ItemJsons(pf, ft, xs)).value, w.items);
      SeqParts(pf, ft, xs);
      SeqParts(pf, ft, w.items);
    case Set(ms) =>
      SetUnfold(pf, Every(ItemJsons(pf, ft, ms)).value, w);
      AllConverted(pf, ft, ms, Every(ItemJsons(pf, ft, ms)).value, w.members);
      SeqParts(pf, ft, ms);
      SeqParts(pf, ft, w.members);
    case Tree(es) =>
      var fields := Every(AllFilled(EntrySlots(pf, ft, es))).value;
      TreeUnfold(pf, fields, w);
      NoFields(pf, ft);
      EntriesConverted(pf, ft, es, fields, [], w.entries);
      TreeParts(pf, ft, es);
      TreeParts(pf, ft, w.entries);
  }

  lemma {:induction false} LeafFits(x: Scalar)
    ensures Fits(Leaf(x)) == ScalarFits(x)
  {
  }

  lemma {:induction false} NoFields(pf: FloatParser, ft: FloatText)
    ensures FieldsFit([]) && EntriesFit([]) && FieldsSurvive(pf, ft, []) && EntriesSurvive(pf, ft, [])
  {
  }

  lemma {:induction false} AllConverted(
    pf: FloatParser, ft: FloatText, vs: seq<Value>, js: seq<JsonVal>, ws: seq<Value>)
    requires PrintedAlike(pf, ft) && Every(ItemJsons(pf, ft, vs)) == Some(js) && ToValues(pf, js) == Ok(ws)
    ensures |ws| == |vs|
    ensures (forall v | v in vs :: Fits(v)) ==> forall w | w in ws :: Fits(w)
    ensures (forall v | v in vs :: KeysSafe(v)) ==> forall w | w in ws :: Survives(pf, ft, w)
    decreases vs, 0
  {
    hide PrintedAlike, ToValue, ValueJson, Fits, KeysSafe, Survives;
    if vs != [] {
      assert ItemJsons(pf, ft, vs)[1..] == ItemJsons(pf, ft, vs[1..]);
      EverySplit(ItemJsons(pf, ft, vs), js);
      Converted(pf, ft, vs[0], js[0], ws[0]);
      AllConverted(pf, ft, vs[1..], js[1..], ws[1..]);
      assert vs == [vs[0]] + vs[1..] && ws == [ws[0]] + ws[1..];
    }
  }

  lemma {:induction false} FieldConverted(pf: FloatParser, ft: FloatText, f: Pair<string>, field: Field, w: Value)
    requires PrintedAlike(pf, ft) && ValueJson(pf, ft, f.val) == Some(field.val) && FieldValue(pf, field) == Ok(w)
    ensures (Fits(f.val) ==> Fits(w)) && (KeysSafe(f.val) ==> Survives(pf, ft, w))
    decreases f, 2
  {
    hide PrintedAlike, ToValue, ValueJson, Fits, KeysSafe, Survives;
    Converted(pf, ft, f.val, field.val, w);
  }

  /** The first field of an object behind its slot. */
  lemma {:induction false} FilledSplit(slots: seq<Slot>, fields: seq<Field>)
    requires Every(AllFilled(slots)) == Some(fields) && slots != []
    ensures fields != [] && slots[0] == Slot(fields[0].key, Some(fields[0].val))
    ensures Every(AllFilled(slots[1..])) == Some(fields[1..])
  {
    hide Every;
    FilledCons(slots);
    EverySplit(AllFilled(slots), fields);
  }

  lemma {:induction false} FieldsInserted(pf: FloatParser, ft: FloatText, acc: seq<Pair<string>>, k: string, v: Value)
    ensures var acc' := Insert(StrLess, acc, k, v);
            && |acc'| <= |acc| + 1
            && (FieldsFit(acc) && |ToUtf8(k)| < U32 && Fits(v) ==> FieldsFit(acc'))
            && (FieldsSurvive(pf, ft, acc) && Survives(pf, ft, v) ==> FieldsSurvive(pf, ft, acc'))
  {
    hide Fits, Survives, ToUtf8, Insert, StrLess;
    InsertElements(StrLess, acc, k, v);
  }

  lemma {:induction false} FieldsConverted(pf: FloatParser, ft: FloatText, fs: seq<Pair<string>>, fields: seq<Field>,
      acc: seq<Pair<string>>, ws: seq<Pair<string>>)
    requires PrintedAlike(pf, ft)
    requires Every(AllFilled(FieldSlots(pf, ft, fs))) == Some(fields) && ToFields(pf, fields, acc) == Ok(ws)
    ensures |ws| <= |acc| + |fs|
    ensures FieldsFit(fs) && FieldsFit(acc) ==> FieldsFit(ws)
    ensures FieldsSafe(fs) && FieldsSurvive(pf, ft, acc) ==> FieldsSurvive(pf, ft, ws)
    decreases fs, 0
  {
    hide PrintedAlike, FieldValue, ValueJson, Fits, KeysSafe, Survives, ToUtf8, StrLess, Insert, Every, AllFilled,
         FieldsSurvive;
    if fs == [] {
      EveryNone();
    } else {
      assert FieldSlots(pf, ft, fs)[1..] == FieldSlots(pf, ft, fs[1..]);
      FilledSplit(FieldSlots(pf, ft, fs), fields);
      var k, v := fields[0].key, FieldValue(pf, fields[0]).value;
      FieldConverted(pf, ft, fs[0], fields[0], v);
      FieldsInserted(pf, ft, acc, k, v);
      FieldsConverted(pf, ft, fs[1..], fields[1..], Insert(StrLess, acc, k, v), ws);
    }
  }

  lemma {:induction false} EveryNone()
    ensures Every(AllFilled([])) == Some([])
  {
  }

  lemma {:induction false} EntryConverted(pf: FloatParser, ft: FloatText, e: Pair<Scalar>, field: Field, w: Value)
    requires PrintedAlike(pf, ft) && ValueJson(pf, ft, e.val) == Some(field.val) && FieldValue(pf, field) == Ok(w)
    ensures (Fits(e.val) ==> Fits(w)) && (KeysSafe(e.val) ==> Survives(pf, ft, w))
    decreases e, 2
  {
    hide PrintedAlike, ToValue, ValueJson, Fits, KeysSafe, Survives;
    Converted(pf, ft, e.val, field.val, w);
  }

  lemma {:induction false} EntriesInserted(pf: FloatParser, ft: FloatText, acc: seq<Pair<Scalar>>, k: Scalar, v: Value)
    ensures var acc' := Insert(ScalarLess, acc, k, v);
            && |acc'| <= |acc| + 1
            && (EntriesFit(acc) && ScalarFits(k) && Fits(v) ==> EntriesFit(acc'))
            && (EntriesSurvive(pf, ft, acc) && KeyBack(pf, ft, k) && Survives(pf, ft, v) ==>
                  EntriesSurvive(pf, ft, acc'))
  {
    hide Fits, Survives, ScalarFits, Insert, ScalarLess, KeyBack;
    InsertElements(ScalarLess, acc, k, v);
  }

  lemma {:induction false} EntriesConverted(pf: FloatParser, ft: FloatText, es: seq<Pair<Scalar>>, fields: seq<Field>,
      acc: seq<Pair<Scalar>>, ws: seq<Pair<Scalar>>)
    requires PrintedAlike(pf, ft)
    requires Every(AllFilled(EntrySlots(pf, ft, es))) == Some(fields) && ToEntries(pf, fields, acc) == Ok(ws)
    ensures |ws| <= |acc| + |es|
    ensures EntriesFit(es) && EntriesFit(acc) ==> EntriesFit(ws)
    ensures EntriesSafe(es) && EntriesSurvive(pf, ft, acc) ==> EntriesSurvive(pf, ft, ws)
    decreases es, 0
  {
    hide PrintedAlike, FieldValue, ValueJson, Fits, KeysSafe, Survives, ScalarFits, ScalarLess, Insert, ParseKey,
         KeyText, Every, AllFilled, EntriesSurvive, KeySafe, KeyBack;
    if es == [] {
      EveryNone();
    } else {
      assert EntrySlots(pf, ft, es)[1..] == EntrySlots(pf, ft, es[1..]);
      FilledSplit(EntrySlots(pf, ft, es), fields);
      var k, v := ParseKey(pf, fields[0].key).value, FieldValue(pf, fields[0]).value;
      KeyConverted(pf, ft, es[0].key);
      EntryConverted(pf, ft, es[0], fields[0], v);
      EntriesInserted(pf, ft, acc, k, v);
      EntriesConverted(pf, ft, es[1..], fields[1..], Insert(ScalarLess, acc, k, v), ws);
    }
  }

  // ----- exactly what comes back -----

  /** A float comes back from its text exactly when it is finite, printed with a point, and parsed to itself. */
  lemma {:induction false} FloatRoundTripIff(pf: FloatParser, ft: FloatText, bits: u64)
    requires Decimal(ft)
    ensures var json := ParseJson(pf, ValueText(ft, Leaf(Float(bits))));
            (json.Ok? && ToValue(pf, json.value) == Ok(Leaf(Float(bits))))
            <==> ft.finite(bits) && '.' in ft.show(bits) && pf(ft.show(bits)) == Some(bits)
  {
    hide ToValue, ParseJson, Reads, Decimal, ScalarText, ScalarJson;
    ScalarReads(pf, ft, Float(bits));
    ReadWhole(pf, ScalarText(ft, Float(bits)), ScalarJson(pf, ft, Float(bits)));
    ScalarBack(pf, ft, Float(bits));
  }

  /** Printing, parsing and converting returns a value exactly when every float and every tree key in it survives. */
  lemma {:induction false} ValueRoundTripIff(pf: FloatParser, ft: FloatText, v: Value)
    requires WellFormed(v) && Decimal(ft) && PrintedAlike(pf, ft)
    ensures var json := ParseJson(pf, ValueText(ft, v));
            (json.Ok? && ToValue(pf, json.value) == Ok(v)) <==> Survives(pf, ft, v)
  {
    hide ToValue, ValueText, ValueJson, ParseJson, Reads, WellFormed, KeysSafe, Survives, Decimal, PrintedAlike;
    ValueReads(pf, ft, v);
    ReadWhole(pf, ValueText(ft, v), ValueJson(pf, ft, v));
    if Survives(pf, ft, v) {
      ValueBack(pf, ft, v);
    }
    if ValueJson(pf, ft, v).Some? && ToValue(pf, ValueJson(pf, ft, v).value) == Ok(v) {
      ConvertedPlain(pf, ValueJson(pf, ft, v).value, v);
      Converted(pf, ft, v, ValueJson(pf, ft, v).value, v);
    }
  }

  // ----- sorting nested sets changes none of this -----

  /** Lengths fit, string keys are plain and, where `all` is set, everything survives. */
  ghost predicate Carries(pf: FloatParser, ft: FloatText, all: bool, v: Value) {
    Fits(v) && KeysSafe(v) && (all ==> Survives(pf, ft, v))
  }

  lemma {:induction false} CanonCarries(pf: FloatParser, ft: FloatText, all: bool, v: Value)
    requires Carries(pf, ft, all, v)
    ensures Carries(pf, ft, all, Canon(v))
    decreases v, 1
  {
    hide ToUtf8, PlainKey, Payload, KeyBack, FloatBack;
    match v
    case Leaf(_) =>
    case Hash(fs) =>
      forall i | 0 <= i < |fs|
        ensures CanonFields(fs)[i].key == fs[i].key && Carries(pf, ft, all, CanonFields(fs)[i].val)
      {
        CanonFieldsAt(fs, i);
        CanonCarries(pf, ft, all, fs[i].val);
      }
    case Set(ms) =>
      CanonAllCarries(pf, ft, all, v, ms);
      SetCarries(pf, ft, all, CanonAll(ms));
    case List(xs) => CanonAllCarries(pf, ft, all, v, xs);
    case Tree(es) =>
      forall i | 0 <= i < |es|
        ensures CanonEntries(es)[i].key == es[i].key && Carries(pf, ft, all, CanonEntries(es)[i].val)
      {
        CanonEntriesAt(es, i);
        CanonCarries(pf, ft, all, es[i].val);
      }
  }

  lemma {:induction false} CanonAllCarries(pf: FloatParser, ft: FloatText, all: bool, v: Value, vs: seq<Value>)
    requires (v == Value.Set(vs) || v == List(vs)) && Carries(pf, ft, all, v)
    ensures forall i | 0 <= i < |vs| :: Carries(pf, ft, all, CanonAll(vs)[i])
    decreases v, 0
  {
    forall i | 0 <= i < |vs|
      ensures Carries(pf, ft, all, CanonAll(vs)[i])
    {
      CanonAllAt(vs, i);
      CanonCarries(pf, ft, all, vs[i]);
    }
  }

  lemma {:induction false} SetCarries(pf: FloatParser, ft: FloatText, all: bool, ms: seq<Value>)
    requires |ms| < U32 && forall i | 0 <= i < |ms| :: Carries(pf, ft, all, ms[i])
    ensures Carries(pf, ft, all, Value.Set(SortMembers(ms)))
  {
    var r := SortMembers(ms);
    SortMembersElements(ms);
    SortMembersCount(ms);
    forall i | 0 <= i < |r| ensures Carries(pf, ft, all, r[i]) { assert r[i] in ms; }
  }

  lemma {:induction false} InsertMemberCount(m: Value, ms: seq<Value>)
    ensures |InsertMember(m, ms)| <= |ms| + 1
  {
    if ms != [] {
      InsertMemberCount(m, ms[1..]);
    }
  }

  lemma {:induction false} SortMembersCount(ms: seq<Value>)
    ensures |SortMembers(ms)| <= |ms|
  {
    if ms != [] {
      SortMembersCount(ms[1..]);
      InsertMemberCount(ms[0], SortMembers(ms[1..]));
    }
  }

  /** What was stored, sent and stored again reads with plain keys, and survives if they were plain before. */
  lemma {:induction false} StoredAgain(pf: FloatParser, ft: FloatText, v: Value, j: JsonVal, w: Value)
    requires PrintedAlike(pf, ft) && Fits(v) && ValueJson(pf, ft, v) == Some(j) && ToValue(pf, j) == Ok(w)
    ensures Decode(Encode(w)) == Ok(Canon(w)) && KeysSafe(Canon(w))
    ensures KeysSafe(v) ==> Survives(pf, ft, Canon(w))
  {
    hide PrintedAlike, ToValue, ValueJson, Fits, KeysSafe, Survives, Canon, Encode, Decode, WellFormed;
    Converted(pf, ft, v, j, w);
    ConvertedPlain(pf, j, w);
    CanonCarries(pf, ft, KeysSafe(v), w);
    RoundTripIff(w);
  }
}
