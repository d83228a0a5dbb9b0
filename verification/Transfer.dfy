/** Exporting the namespace as JSON text, and importing such text. */
module Transfer {
  import opened ByteStrings
  import opened Storage
  import opened Numbers
  import opened Paths
  import opened Namespace
  import opened TreeModel
  import opened Listing
  import opened Walking
  import opened Json

  // ----- export -----

  /** The text of a subtree; it ends because child ids are larger than their parent's. */
  ghost function Export(ft: FloatText, s: Store, rows: Rows, t: NsTree, p: Path): Result<string, NsError>
    requires Represents(s, rows, t) && p in t.live
    decreases t.next - t.live[p].id, 1, 0
  {
    GetSpec(s, rows, t, p);
    var e :- Get(s, p);
    match e
    case ValueEntry(v) => Ok(ValueText(ft, v))
    case Directory =>
      ListSpec(s, rows, t, p);
      var names :- ListDir(s, p);
      var parts :- ExportAll(ft, s, rows, t, p, names);
      Ok(Wrapped("__dir", "{" + JoinWith(parts) + "}"))
  }

  ghost function ExportAll(ft: FloatText, s: Store, rows: Rows, t: NsTree, p: Path,
      names: seq<Child>): Result<seq<string>, NsError>
    requires Represents(s, rows, t) && p in t.live
    requires forall c | c in names :: ChildOf(t, p, c)
    decreases t.next - t.live[p].id, 0, |names|
  {
    if names == [] then Ok([]) else
    ChildBelow(t, p, names[0]);
    match Join(p, names[0].0)
    case Err(e) => Err(PathErr(e))
    case Ok(child) =>
      var body :- Export(ft, s, rows, t, child);
      var rest :- ExportAll(ft, s, rows, t, p, names[1..]);
      Ok([Member(names[0].0, body)] + rest)
  }

  // ----- import -----

  /** Imports commit as they go: the store reached, and the error if one stopped them. */
  datatype Outcome = Outcome(store: Store, error: Option<NsError>)

  function Commit(s: Store, op: Op): Outcome {
    match Step(s, op)
    case Ok(s') => Outcome(s', None)
    case Err(e) => Outcome(s, Some(e))
  }

  /** At the root a child name is parsed as a path, below it is joined as a segment. */
  function ChildPath(p: Path, k: string): Result<Path, PathError> {
    if p == [] then Parse("/" + k) else Join(p, k)
  }

  predicate IsDirJson(j: JsonVal) {
    j.JObj? && |j.fields| == 1 && j.fields[0].key == "__dir"
  }

  function ImportNode(pf: FloatParser, s: Store, p: Path, j: JsonVal, atRoot: bool): Outcome
    decreases j, 1
  {
    if IsDirJson(j) then ImportDir(pf, s, p, j.fields[0], atRoot)
    else if atRoot then
      if j.JObj? then ImportChildren(pf, s, [], j.fields) else Outcome(s, Some(Invalid))
    else
      match ToValue(pf, j)
      case Err(e) => Outcome(s, Some(e))
      case Ok(v) => Commit(s, SetOp(p, v))
  }

  function ImportDir(pf: FloatParser, s: Store, p: Path, f: Field, atRoot: bool): Outcome
    decreases f, 3
  {
    if !f.val.JObj? then Outcome(s, Some(Invalid))
    else if atRoot || p == [] then ImportChildren(pf, s, p, f.val.fields)
    else
      match Exists(s, p)
      case Err(e) => Outcome(s, Some(e))
      case Ok(true) => ImportChildren(pf, s, p, f.val.fields)
      case Ok(false) =>
        var made := Commit(s, MkdirOp(p));
        if made.error.Some? then made else ImportChildren(pf, made.store, p, f.val.fields)
  }

  function ImportChildren(pf: FloatParser, s: Store, p: Path, fields: seq<Field>): Outcome
    decreases fields, 0
  {
    if fields == [] then Outcome(s, None) else
    match ChildPath(p, fields[0].key)
    case Err(e) => Outcome(s, Some(PathErr(e)))
    case Ok(child) =>
      var first := ImportField(pf, s, child, fields[0]);
      if first.error.Some? then first else ImportChildren(pf, first.store, p, fields[1..])
  }

  function ImportField(pf: FloatParser, s: Store, child: Path, f: Field): Outcome
    decreases f, 2
  {
    ImportNode(pf, s, child, f.val, false)
  }

  /** `char::is_whitespace`. */
  predicate IsWhite(c: char) {
    || '\t' <= c <= '\r' || c == ' ' || c == '\U{85}' || c == '\U{A0}' || c == '\U{1680}'
    || '\U{2000}' <= c <= '\U{200A}' || c == '\U{2028}' || c == '\U{2029}' || c == '\U{202F}'
    || c == '\U{205F}' || c == '\U{3000}'
  }

  function TrimStart(s: string): string {
    if s != "" && IsWhite(s[0]) then TrimStart(s[1..]) else s
  }

  function TrimBack(s: string): string {
    if s != "" && IsWhite(s[|s| - 1]) then TrimBack(s[..|s| - 1]) else s
  }

  function Trim(s: string): string {
    TrimBack(TrimStart(s))
  }

  function ImportJson(pf: FloatParser, s: Store, text: string): Outcome {
    match ParseJson(pf, Trim(text))
    case Err(e) => Outcome(s, Some(e))
    case Ok(j) => ImportNode(pf, s, [], j, true)
  }
}
