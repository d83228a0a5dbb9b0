/**
 * The export dialect: a printer for values and a reader for its JSON. Float text is the
 * library's and comes in as parameters.
 */
module Json {
  import opened ByteStrings
  import opened Strings
  import opened Values
  import opened Numbers
  import opened Texts
  import opened Namespace

  datatype JsonVal =
    | JNull
    | JBool(b: bool)
    | JNum(n: i64)
    | JFloat(bits: u64)
    | JStr(s: string)
    | JArr(items: seq<JsonVal>)
    | JObj(fields: seq<Field>)

  datatype Field = Field(key: string, val: JsonVal)

  /** Whether a float is finite, and its `Display` text. */
  datatype FloatText = FloatText(finite: u64 -> bool, show: u64 -> string)

  // ----- hex -----

  function HexDigit(n: nat): char
    requires n < 16
  {
    if n < 10 then ('0' as int + n) as char else ('a' as int + n - 10) as char
  }

  function HexText(b: Bytes): string {
    if b == [] then "" else [HexDigit(b[0] / 16), HexDigit(b[0] % 16)] + HexText(b[1..])
  }

  function FromHexDigit(c: char): (r: Result<nat, NsError>)
    ensures r.Ok? ==> r.value < 16
  {
    if '0' <= c <= '9' then Ok(c as int - '0' as int)
    else if 'a' <= c <= 'f' then Ok(c as int - 'a' as int + 10)
    else if 'A' <= c <= 'F' then Ok(c as int - 'A' as int + 10)
    else Err(Invalid)
  }

  /** Anything outside ASCII is no hex digit, so characters stand for the bytes the code reads. */
  function FromHex(s: string): Result<Bytes, NsError> {
    if s == "" then Ok([])
    else if |s| == 1 then Err(Invalid)
    else
      var hi :- FromHexDigit(s[0]);
      var lo :- FromHexDigit(s[1]);
      var rest :- FromHex(s[2..]);
      Ok([hi * 16 + lo] + rest)
  }

  // ----- printing -----

  function JoinWith(parts: seq<string>): string {
    if parts == [] then "" else if |parts| == 1 then parts[0] else parts[0] + ", " + JoinWith(parts[1..])
  }

  function KeyText(ft: FloatText, k: Scalar): string {
    match k
    case Null => "null"
    case Bool(b) => if b then "true" else "false"
    case Int(n) => IntText(n)
    case Float(bits) => "f:" + ft.show(bits)
    case Str(s) => s
    case Bin(b) => "b:" + HexText(b)
  }

  function ScalarText(ft: FloatText, x: Scalar): string {
    match x
    case Null => "null"
    case Bool(b) => if b then "true" else "false"
    case Int(n) => IntText(n)
    case Float(bits) => if ft.finite(bits) then ft.show(bits) else Quote("float:" + NatText(bits))
    case Str(s) => Quote(s)
    case Bin(b) => "{" + Quote("__bytes") + ":" + Quote(HexText(b)) + "}"
  }

  function Wrapped(tag: string, body: string): string {
    "{" + Quote(tag) + ": " + body + "}"
  }

  function ValueText(ft: FloatText, v: Value): string
    decreases v, 1
  {
    match v
    case Leaf(x) => ScalarText(ft, x)
    case Hash(fs) => Wrapped("__hash", "{" + JoinWith(FieldTexts(ft, fs)) + "}")
    case List(xs) => "[" + JoinWith(ItemTexts(ft, xs)) + "]"
    case Set(ms) => Wrapped("__set", "[" + JoinWith(ItemTexts(ft, ms)) + "]")
    case Tree(es) => Wrapped("__tree", "{" + JoinWith(EntryTexts(ft, es)) + "}")
  }

  function ItemTexts(ft: FloatText, vs: seq<Value>): seq<string>
    decreases vs, 0
  {
    if vs == [] then [] else [ValueText(ft, vs[0])] + ItemTexts(ft, vs[1..])
  }

  function Member(key: string, body: string): string {
    Quote(key) + ": " + body
  }

  function FieldTexts(ft: FloatText, fs: seq<Pair<string>>): seq<string>
    decreases fs, 0
  {
    if fs == [] then [] else [FieldText(ft, fs[0])] + FieldTexts(ft, fs[1..])
  }

  function FieldText(ft: FloatText, f: Pair<string>): string
    decreases f, 2
  {
    Member(f.key, ValueText(ft, f.val))
  }

  function EntryTexts(ft: FloatText, es: seq<Pair<Scalar>>): seq<string>
    decreases es, 0
  {
    if es == [] then [] else [EntryText(ft, es[0])] + EntryTexts(ft, es[1..])
  }

  function EntryText(ft: FloatText, e: Pair<Scalar>): string
    decreases e, 2
  {
    Member(KeyText(ft, e.key), ValueText(ft, e.val))
  }

  // ----- reading: each function returns what it read and the rest of the text -----

  type Read<T> = Result<(T, string), NsError>

  function SkipSpace(s: string): (r: string)
    ensures |r| <= |s|
  {
    s[Span(IsSpace, s)..]
  }

  predicate Starts(s: string, word: string) {
    |word| <= |s| && s[..|word|] == word
  }

  function Unescape(c: char): char {
    if c == 'n' then '\n' else if c == 't' then '\t' else c
  }

  /** The rest of a string, behind its opening quote. */
  function StringRest(s: string, acc: string): (r: Read<string>)
    ensures r.Ok? ==> |r.value.1| < |s|
    decreases |s|
  {
    if s == "" then Err(Invalid)
    else if s[0] == '"' then Ok((acc, s[1..]))
    else if s[0] == '\\' then
      if |s| == 1 then Err(Invalid) else StringRest(s[2..], acc + [Unescape(s[1])])
    else StringRest(s[1..], acc + [s[0]])
  }

  function ParseString(s: string): (r: Read<string>)
    ensures r.Ok? ==> |r.value.1| < |s|
  {
    if s == "" || s[0] != '"' then Err(Invalid) else StringRest(s[1..], "")
  }

  function ParseNumber(pf: FloatParser, s: string): (r: Read<JsonVal>)
    requires NumberStart(s)
    ensures r.Ok? ==> |r.value.1| < |s|
  {
    var (n, isReal) := NumberEnd(s);
    if isReal then
      match pf(s[..n])
      case None => Err(Invalid)
      case Some(bits) => Ok((JFloat(bits), s[n..]))
    else
      match ParseI64(s[..n])
      case None => Err(Invalid)
      case Some(k) => Ok((JNum(k), s[n..]))
  }

  function ParseValue(pf: FloatParser, input: string): (r: Read<JsonVal>)
    ensures r.Ok? ==> |r.value.1| < |input|
    decreases |input|, 0
  {
    var s := SkipSpace(input);
    if s == "" then Err(Invalid)
    else if s[0] == 'n' then
      if Starts(s, "null") then Ok((JNull, s[4..])) else Err(Invalid)
    else if s[0] == 't' || s[0] == 'f' then
      if Starts(s, "true") then Ok((JBool(true), s[4..]))
      else if Starts(s, "false") then Ok((JBool(false), s[5..]))
      else Err(Invalid)
    else if s[0] == '"' then
      var (str, rest) :- ParseString(s);
      Ok((JStr(str), rest))
    else if s[0] == '[' then
      var t := SkipSpace(s[1..]);
      if t != "" && t[0] == ']' then Ok((JArr([]), t[1..])) else
      var (items, rest) :- ParseItems(pf, t, []);
      Ok((JArr(items), rest))
    else if s[0] == '{' then
      var t := SkipSpace(s[1..]);
      if t != "" && t[0] == '}' then Ok((JObj([]), t[1..])) else
      var (fields, rest) :- ParseFields(pf, t, []);
      Ok((JObj(fields), rest))
    else if s[0] == '-' || IsDigit(s[0]) then ParseNumber(pf, s)
    else Err(Invalid)
  }

  function ParseItems(pf: FloatParser, s: string, acc: seq<JsonVal>): (r: Read<seq<JsonVal>>)
    ensures r.Ok? ==> |r.value.1| <= |s|
    decreases |s|, 1
  {
    var (v, rest) :- ParseValue(pf, s);
    var t := SkipSpace(rest);
    if t == "" then Err(Invalid)
    else if t[0] == ',' then ParseItems(pf, t[1..], acc + [v])
    else if t[0] == ']' then Ok((acc + [v], t[1..]))
    else Err(Invalid)
  }

  function ParseFields(pf: FloatParser, s: string, acc: seq<Field>): (r: Read<seq<Field>>)
    ensures r.Ok? ==> |r.value.1| <= |s|
    decreases |s|, 1
  {
    var (key, rest) :- ParseString(SkipSpace(s));
    var t := SkipSpace(rest);
    if t == "" || t[0] != ':' then Err(Invalid) else
    var (v, rest) :- ParseValue(pf, t[1..]);
    var u := SkipSpace(rest);
    if u == "" then Err(Invalid)
    else if u[0] == ',' then ParseFields(pf, u[1..], acc + [Field(key, v)])
    else if u[0] == '}' then Ok((acc + [Field(key, v)], u[1..]))
    else Err(Invalid)
  }

  function ParseJson(pf: FloatParser, s: string): Result<JsonVal, NsError> {
    var (v, rest) :- ParseValue(pf, s);
    if SkipSpace(rest) != "" then Err(Invalid) else Ok(v)
  }

  // ----- values -----

  function ParseKey(pf: FloatParser, s: string): Result<Scalar, NsError> {
    if s == "null" then Ok(Null)
    else if s == "true" then Ok(Bool(true))
    else if s == "false" then Ok(Bool(false))
    else if Starts(s, "f:") then
      match pf(s[2..])
      case None => Err(Invalid)
      case Some(bits) => Ok(Float(bits))
    else if Starts(s, "b:") then
      var b :- FromHex(s[2..]);
      Ok(Bin(b))
    else
      match ParseI64(s)
      case Some(n) => Ok(Int(n))
      case None => Ok(Str(s))
  }

  function ToValue(pf: FloatParser, j: JsonVal): Result<Value, NsError>
    decreases j, 1
  {
    match j
    case JNull => Ok(Leaf(Null))
    case JBool(b) => Ok(Leaf(Bool(b)))
    case JNum(n) => Ok(Leaf(Int(n)))
    case JFloat(bits) => Ok(Leaf(Float(bits)))
    case JStr(s) => Ok(Leaf(Str(s)))
    case JArr(items) =>
      var xs :- ToValues(pf, items);
      Ok(List(xs))
    case JObj(fields) =>
      if |fields| == 1 then ToSpecial(pf, fields[0])
      else
        var fs :- ToFields(pf, fields, []);
        Ok(Hash(fs))
  }

  /** An object with one field: a marker of a special form, or a hash after all. */
  function ToSpecial(pf: FloatParser, f: Field): Result<Value, NsError>
    decreases f, 3
  {
    if f.key == "__bytes" && f.val.JStr? then
      var b :- FromHex(f.val.s);
      Ok(Leaf(Bin(b)))
    else if f.key == "__set" && f.val.JArr? then
      var ms :- ToValues(pf, f.val.items);
      Ok(Value.Set(ms))
    else if f.key == "__hash" && f.val.JObj? then
      var fs :- ToFields(pf, f.val.fields, []);
      Ok(Hash(fs))
    else if f.key == "__tree" && f.val.JObj? then
      var es :- ToEntries(pf, f.val.fields, []);
      Ok(Tree(es))
    else
      var v :- ToValue(pf, f.val);
      Ok(Hash([Pair(f.key, v)]))
  }

  function ToValues(pf: FloatParser, items: seq<JsonVal>): Result<seq<Value>, NsError>
    decreases items, 0
  {
    if items == [] then Ok([]) else
    var v :- ToValue(pf, items[0]);
    var rest :- ToValues(pf, items[1..]);
    Ok([v] + rest)
  }

  function ToFields(pf: FloatParser, fields: seq<Field>, acc: seq<Pair<string>>): Result<seq<Pair<string>>, NsError>
    decreases fields, 0
  {
    if fields == [] then Ok(acc) else
    var v :- FieldValue(pf, fields[0]);
    ToFields(pf, fields[1..], Insert(StrLess, acc, fields[0].key, v))
  }

  function FieldValue(pf: FloatParser, f: Field): Result<Value, NsError>
    decreases f, 2
  {
    ToValue(pf, f.val)
  }

  function ToEntries(pf: FloatParser, fields: seq<Field>, acc: seq<Pair<Scalar>>): Result<seq<Pair<Scalar>>, NsError>
    decreases fields, 0
  {
    if fields == [] then Ok(acc) else
    var k :- ParseKey(pf, fields[0].key);
    var v :- FieldValue(pf, fields[0]);
    ToEntries(pf, fields[1..], Insert(ScalarLess, acc, k, v))
  }
}
