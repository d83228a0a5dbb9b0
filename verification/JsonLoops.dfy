/** The JSON reader on its cursor, and export and import on the database. */
module JsonLoops {
  import opened ByteStrings
  import opened Numbers
  import opened Texts
  import opened Storage
  import opened Paths
  import opened Namespace
  import opened TreeModel
  import opened Listing
  import opened Walking
  import opened Reading
  import opened Databases
  import opened Json
  import opened Transfer

  /** Text and the index of the next character. */
  class JsonParser {
    const s: string
    const pf: FloatParser
    var i: nat

    predicate Valid()
      reads this
    {
      i <= |s|
    }

    function Rest(): string
      requires Valid()
      reads this
    {
      s[i..]
    }

    constructor (s: string, pf: FloatParser)
      ensures Valid() && this.s == s && this.pf == pf && i == 0
    {
      this.s := s;
      this.pf := pf;
      i := 0;
    }

    /** The outcome is that of the function on what was left, and so is what is left now. */
    ghost predicate Did<T>(read: Read<T>, r: Result<T, NsError>)
      requires Valid()
      reads this
    {
      match read
      case Err(e) => r == Err(e)
      case Ok((v, rest)) => r == Ok(v) && Rest() == rest
    }

    method SkipWs()
      requires Valid()
      modifies this
      ensures Valid() && i >= old(i) && Rest() == SkipSpace(old(Rest()))
    {
      ghost var before := Rest();
      i := ScanWhile(IsSpace, s, i);
      assert Rest() == before[Span(IsSpace, before)..];
    }

    method At(c: char) returns (b: bool)
      requires Valid()
      ensures b <==> Rest() != "" && Rest()[0] == c
    {
      b := i < |s| && s[i] == c;
    }

    method Bump()
      requires Valid() && i < |s|
      modifies this
      ensures Valid() && i == old(i) + 1 && Rest() == old(Rest())[1..]
    {
      assert s[i..][1..] == s[i + 1..];
      i := i + 1;
    }

    method Take(n: nat)
      requires Valid() && i + n <= |s|
      modifies this
      ensures Valid() && i == old(i) + n && Rest() == old(Rest())[n..]
    {
      assert s[i..][n..] == s[i + n..];
      i := i + n;
    }

    method ReadString() returns (r: Result<string, NsError>)
      requires Valid()
      modifies this
      ensures Valid() && i >= old(i) && (r.Ok? ==> i > old(i)) && Did(ParseString(old(Rest())), r)
    {
      var quote := At('"');
      if !quote {
        return Err(Invalid);
      }
      ghost var start := ParseString(Rest());
      Bump();
      var out := "";
      while i < |s|
        invariant Valid() && i > old(i) && StringRest(Rest(), out) == start
        decreases |s| - i
      {
        var c := s[i];
        Bump();
        if c == '"' {
          return Ok(out);
        } else if c == '\\' {
          if i >= |s| {
            return Err(Invalid);
          }
          out := out + [Unescape(s[i])];
          Bump();
        } else {
          out := out + [c];
        }
      }
      r := Err(Invalid);
    }

    method ReadNumber() returns (r: Result<JsonVal, NsError>)
      requires Valid() && NumberStart(Rest())
      modifies this
      ensures Valid() && i > old(i) && Did(ParseNumber(pf, old(Rest())), r)
    {
      hide NumberEnd, ParseI64;
      var start := i;
      var end, isReal := ScanNumberEnd(s, start);
      i := end;
      if isReal {
        var bits := pf(s[start..end]);
        r := if bits.None? then Err(Invalid) else Ok(JFloat(bits.value));
      } else {
        var n := ParseI64(s[start..end]);
        r := if n.None? then Err(Invalid) else Ok(JNum(n.value));
      }
    }

    method ReadValue() returns (r: Result<JsonVal, NsError>)
      requires Valid()
      modifies this
      ensures Valid() && i >= old(i) && (r.Ok? ==> i > old(i)) && Did(ParseValue(pf, old(Rest())), r)
      decreases |s| - i, 3
    {
      hide SkipSpace, ParseString, ParseNumber, ParseItems, ParseFields;
      SkipWs();
      if i >= |s| {
        return Err(Invalid);
      }
      var c := s[i];
      if c == 'n' {
        if !Starts(s[i..], "null") {
          return Err(Invalid);
        }
        Take(4);
        r := Ok(JNull);
      } else if c == 't' || c == 'f' {
        if Starts(s[i..], "true") {
          Take(4);
          r := Ok(JBool(true));
        } else if Starts(s[i..], "false") {
          Take(5);
          r := Ok(JBool(false));
        } else {
          r := Err(Invalid);
        }
      } else if c == '"' {
        var str := ReadString();
        r := if str.Err? then Err(str.error) else Ok(JStr(str.value));
      } else if c == '[' {
        r := ReadArray();
      } else if c == '{' {
        r := ReadObject();
      } else if c == '-' || IsDigit(c) {
        r := ReadNumber();
      } else {
        r := Err(Invalid);
      }
    }

    method ReadArray() returns (r: Result<JsonVal, NsError>)
      requires Valid() && i < |s| && s[i] == '['
      modifies this
      ensures Valid() && i > old(i) && Did(ArrayAt(pf, old(Rest())), r)
      decreases |s| - i, 2
    {
      hide SkipSpace, ParseValue;
      Bump();
      SkipWs();
      var empty := At(']');
      if empty {
        Bump();
        return Ok(JArr([]));
      }
      var items: seq<JsonVal> := [];
      ghost var start := ParseItems(pf, Rest(), []);
      while true
        invariant Valid() && i > old(i) && ParseItems(pf, Rest(), items) == start
        decreases |s| - i
      {
        var v := ReadValue();
        if v.Err? {
          return Err(v.error);
        }
        SkipWs();
        var comma := At(',');
        var close := At(']');
        if !comma && !close {
          return Err(Invalid);
        }
        items := items + [v.value];
        Bump();
        if close {
          return Ok(JArr(items));
        }
      }
    }

    method ReadObject() returns (r: Result<JsonVal, NsError>)
      requires Valid() && i < |s| && s[i] == '{'
      modifies this
      ensures Valid() && i > old(i) && Did(ObjectAt(pf, old(Rest())), r)
      decreases |s| - i, 2
    {
      hide SkipSpace, ParseValue, ParseString;
      Bump();
      SkipWs();
      var empty := At('}');
      if empty {
        Bump();
        return Ok(JObj([]));
      }
      var fields: seq<Field> := [];
      ghost var start := ParseFields(pf, Rest(), []);
      while true
        invariant Valid() && i > old(i) && ParseFields(pf, Rest(), fields) == start
        decreases |s| - i
      {
        SkipWs();
        var key := ReadString();
        if key.Err? {
          return Err(key.error);
        }
        SkipWs();
        var colon := At(':');
        if !colon {
          return Err(Invalid);
        }
        Bump();
        var v := ReadValue();
        if v.Err? {
          return Err(v.error);
        }
        SkipWs();
        var comma := At(',');
        var close := At('}');
        if !comma && !close {
          return Err(Invalid);
        }
        fields := fields + [Field(key.value, v.value)];
        Bump();
        if close {
          return Ok(JObj(fields));
        }
      }
    }
  }

  /** The bracketed part of `ParseValue`. */
  function ArrayAt(pf: FloatParser, s: string): Read<JsonVal>
    requires s != "" && s[0] == '['
  {
    var t := SkipSpace(s[1..]);
    if t != "" && t[0] == ']' then Ok((JArr([]), t[1..])) else
    var (items, rest) :- ParseItems(pf, t, []);
    Ok((JArr(items), rest))
  }

  function ObjectAt(pf: FloatParser, s: string): Read<JsonVal>
    requires s != "" && s[0] == '{'
  {
    var t := SkipSpace(s[1..]);
    if t != "" && t[0] == '}' then Ok((JObj([]), t[1..])) else
    var (fields, rest) :- ParseFields(pf, t, []);
    Ok((JObj(fields), rest))
  }

  method ReadJson(pf: FloatParser, text: string) returns (r: Result<JsonVal, NsError>)
    ensures r == ParseJson(pf, text)
  {
    hide ParseValue, SkipSpace;
    var p := new JsonParser(text, pf);
    assert p.Rest() == text;
    var v := p.ReadValue();
    if v.Err? {
      return Err(v.error);
    }
    p.SkipWs();
    r := if p.i != |p.s| then Err(Invalid) else Ok(v.value);
  }

  // ----- export -----

  method ExportNode(ft: FloatText, m: Store, p: Path, ghost rows: Rows,
      ghost t: NsTree) returns (r: Result<string, NsError>)
    requires Represents(m, rows, t) && p in t.live
    ensures r == Export(ft, m, rows, t, p)
    decreases t.next - t.live[p].id, 1
  {
    hide Get, ListDir, Flat, Mirrors, ExportAll, ValueText, JoinWith, Wrapped;
    GetSpec(m, rows, t, p);
    var entry := GetEntry(m, p);
    if entry.Err? {
      return Err(entry.error);
    }
    if entry.value.ValueEntry? {
      return Ok(ValueText(ft, entry.value.value));
    }
    var names := ListChildren(m, p);
    if names.Err? {
      return Err(names.error);
    }
    ListSpec(m, rows, t, p);
    var parts := ExportNames(ft, m, p, names.value, rows, t);
    r := if parts.Err? then Err(parts.error) else Ok(Wrapped("__dir", "{" + JoinWith(parts.value) + "}"));
  }

  lemma {:induction false} ExportAllUnfolds(ft: FloatText, m: Store, rows: Rows, t: NsTree, p: Path,
      names: seq<Child>, out: seq<string>)
    requires Represents(m, rows, t) && p in t.live && names != [] && forall c | c in names :: ChildOf(t, p, c)
    ensures var child := p + [names[0].0];
            && Join(p, names[0].0) == Ok(child) && child in t.live && t.live[p].id < t.live[child].id < t.next
            && Prepend(out, ExportAll(ft, m, rows, t, p, names)) ==
               match Export(ft, m, rows, t, child)
               case Err(e) => Err(e)
               case Ok(body) => Prepend(out + [Member(names[0].0, body)], ExportAll(ft, m, rows, t, p, names[1..]))
  {
    hide Export, Flat, Mirrors, Member;
    ChildBelow(t, p, names[0]);
    var child := p + [names[0].0];
    var body, rest := Export(ft, m, rows, t, child), ExportAll(ft, m, rows, t, p, names[1..]);
    if body.Ok? && rest.Ok? {
      PrependMore(out, Member(names[0].0, body.value), rest);
    }
  }

  lemma {:induction false} ExportNothing(ft: FloatText, m: Store, rows: Rows, t: NsTree, p: Path, names: seq<Child>)
    requires Represents(m, rows, t) && p in t.live && names == []
    ensures ExportAll(ft, m, rows, t, p, names) == Ok([])
  {
  }

  method ExportNames(ft: FloatText, m: Store, p: Path, names: seq<Child>, ghost rows: Rows, ghost t: NsTree)
    returns (r: Result<seq<string>, NsError>)
    requires Represents(m, rows, t) && p in t.live && forall c | c in names :: ChildOf(t, p, c)
    ensures r == ExportAll(ft, m, rows, t, p, names)
    decreases t.next - t.live[p].id, 0
  {
    hide Represents, Export, ExportAll, Member;
    var parts: seq<string> := [];
    assert names[0..] == names;
    PrependAll(ExportAll(ft, m, rows, t, p, names));
    for i := 0 to |names|
      invariant ExportAll(ft, m, rows, t, p, names) == Prepend(parts, ExportAll(ft, m, rows, t, p, names[i..]))
    {
      var rest := names[i..];
      assert rest[0] == names[i] && rest[1..] == names[i + 1..] && names[i] in names;
      ExportAllUnfolds(ft, m, rows, t, p, rest, parts);
      var child := Join(p, names[i].0);
      var body := ExportNode(ft, m, child.value, rows, t);
      if body.Err? {
        return Err(body.error);
      }
      parts := parts + [Member(names[i].0, body.value)];
    }
    ExportNothing(ft, m, rows, t, p, names[|names|..]);
    PrependNothing(parts);
    r := Ok(parts);
  }

  // ----- import -----

  /** The store and the error after an import step. */
  ghost predicate Reached(out: Outcome, r: Result<(), NsError>, after: Store) {
    after == out.store && r == match out.error case None => Ok(()) case Some(e) => Err(e)
  }

  method ImportAt(db: Database, pf: FloatParser, p: Path, j: JsonVal, atRoot: bool) returns (r: Result<(), NsError>)
    modifies db.store
    ensures Reached(ImportNode(pf, old(db.store.data), p, j, atRoot), r, db.store.data)
    decreases j, 1
  {
    hide ImportChildren, ToValue, ApplyOps, SetValue;
    if IsDirJson(j) {
      r := ImportDirAt(db, pf, p, j.fields[0], atRoot);
    } else if atRoot {
      if !j.JObj? {
        return Err(Invalid);
      }
      r := ImportEach(db, pf, [], j.fields);
    } else {
      var v := ToValue(pf, j);
      if v.Err? {
        return Err(v.error);
      }
      r := db.Set(p, v.value);
    }
  }

  method ImportDirAt(db: Database, pf: FloatParser, p: Path, f: Field, atRoot: bool) returns (r: Result<(), NsError>)
    modifies db.store
    ensures Reached(ImportDir(pf, old(db.store.data), p, f, atRoot), r, db.store.data)
    decreases f, 3
  {
    hide ImportChildren, ApplyOps, Mkdir, Resolve;
    if !f.val.JObj? {
      return Err(Invalid);
    }
    if !atRoot && p != [] {
      var found := ResolvePath(db.store.data, p);
      if found.Err? && !found.error.NotFound? {
        return Err(found.error);
      }
      if found.Err? {
        var made := db.MakeDir(p);
        if made.Err? {
          return Err(made.error);
        }
      }
    }
    r := ImportEach(db, pf, p, f.val.fields);
  }

  method ImportEach(db: Database, pf: FloatParser, p: Path, fields: seq<Field>) returns (r: Result<(), NsError>)
    modifies db.store
    ensures Reached(ImportChildren(pf, old(db.store.data), p, fields), r, db.store.data)
    decreases fields, 0
  {
    hide ImportNode, ChildPath;
    for i := 0 to |fields|
      invariant ImportChildren(pf, db.store.data, p, fields[i..]) == ImportChildren(pf, old(db.store.data), p, fields)
    {
      assert fields[i..][1..] == fields[i + 1..];
      var child := ChildPath(p, fields[i].key);
      if child.Err? {
        return Err(PathErr(child.error));
      }
      r := ImportOne(db, pf, child.value, fields[i]);
      if r.Err? {
        return;
      }
    }
    r := Ok(());
  }

  method ImportOne(db: Database, pf: FloatParser, child: Path, f: Field) returns (r: Result<(), NsError>)
    modifies db.store
    ensures Reached(ImportField(pf, old(db.store.data), child, f), r, db.store.data)
    decreases f, 2
  {
    hide ImportNode;
    r := ImportAt(db, pf, child, f.val, false);
  }

  method ImportText(db: Database, pf: FloatParser, text: string) returns (r: Result<(), NsError>)
    modifies db.store
    ensures Reached(ImportJson(pf, old(db.store.data), text), r, db.store.data)
  {
    hide ImportNode, ParseJson, Trim;
    var j := ReadJson(pf, Trim(text));
    if j.Err? {
      return Err(j.error);
    }
    r := ImportAt(db, pf, [], j.value, true);
  }
}
