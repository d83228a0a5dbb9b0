/** Absolute database paths and their string form. */
module Paths {
  import opened ByteStrings

  /** Segments after the root; `[]` is the root. */
  type Path = seq<string>

  datatype PathError = EmptyPath | NotAbsolute | EmptySegment | ForbiddenSegment | InvalidUtf8

  /** What `join` demands of a segment. */
  predicate SegmentOk(seg: string) {
    seg != "" && seg != "." && seg != ".." && '/' !in seg
  }

  /** Every `DbPath` satisfies this, however it was built. */
  predicate PathOk(p: Path) {
    forall seg | seg in p :: SegmentOk(seg)
  }

  /** What `parse` demands on top. */
  predicate NoNul(p: Path) {
    forall seg | seg in p :: '\0' !in seg
  }

  function Join(p: Path, seg: string): Result<Path, PathError> {
    if seg == "" then Err(EmptySegment)
    else if seg == "." || seg == ".." || '/' in seg then Err(ForbiddenSegment)
    else Ok(p + [seg])
  }

  function Parent(p: Path): Path
    requires p != []
  {
    p[..|p| - 1]
  }

  function Name(p: Path): string
    requires p != []
  {
    p[|p| - 1]
  }

  function JoinSegments(p: Path): string {
    if p == [] then "" else if |p| == 1 then p[0] else p[0] + "/" + JoinSegments(p[1..])
  }

  function AsStr(p: Path): string {
    if p == [] then "/" else "/" + JoinSegments(p)
  }

  // ----- parsing -----

  function IndexOf(s: string, c: char): (i: nat)
    ensures i <= |s| && c !in s[..i] && (i < |s| ==> s[i] == c)
  {
    if s == "" || s[0] == c then 0 else
    var i := 1 + IndexOf(s[1..], c);
    assert s[..i] == [s[0]] + s[1..][..i - 1];
    i
  }

  /** `str::split` on one character. */
  function Split(s: string, c: char): (r: seq<string>)
    ensures r != []
    decreases |s|
  {
    var i := IndexOf(s, c);
    if i == |s| then [s] else [s[..i]] + Split(s[i + 1..], c)
  }

  /** `trim_end_matches('/')`. */
  function TrimEnd(s: string): string {
    if s != "" && s[|s| - 1] == '/' then TrimEnd(s[..|s| - 1]) else s
  }

  function CheckSegments(segs: seq<string>): Result<Path, PathError> {
    if segs == [] then Ok([])
    else if segs[0] == "" then Err(EmptySegment)
    else if segs[0] == "." || segs[0] == ".." then Err(ForbiddenSegment)
    else if '\0' in segs[0] then Err(InvalidUtf8)
    else
      var rest :- CheckSegments(segs[1..]);
      Ok([segs[0]] + rest)
  }

  function Parse(input: string): Result<Path, PathError> {
    if input == "" then Err(EmptyPath)
    else if input[0] != '/' then Err(NotAbsolute)
    else
      var trimmed := TrimEnd(input);
      if trimmed == "" then Ok([]) else CheckSegments(Split(trimmed[1..], '/'))
  }

  /** `split('/')` with empty pieces dropped, as the path matcher does. */
  function Pieces(s: string): seq<string> {
    NonEmpty(Split(s, '/'))
  }

  function NonEmpty(segs: seq<string>): seq<string> {
    if segs == [] then []
    else if segs[0] == "" then NonEmpty(segs[1..])
    else [segs[0]] + NonEmpty(segs[1..])
  }

  // ----- the string form loses nothing -----

  lemma {:induction false} IndexOfUnique(s: string, c: char, i: nat)
    requires i <= |s| && c !in s[..i] && (i < |s| ==> s[i] == c)
    ensures IndexOf(s, c) == i
  {
    var j := IndexOf(s, c);
    assert forall k | 0 <= k < i :: s[k] in s[..i];
    assert forall k | 0 <= k < j :: s[k] in s[..j];
  }

  lemma {:induction false} SplitNone(s: string, c: char)
    requires c !in s
    ensures Split(s, c) == [s]
  {
    hide IndexOf;
    assert s[..|s|] == s;
    IndexOfUnique(s, c, |s|);
  }

  lemma {:induction false} SplitFirst(a: string, c: char, b: string)
    requires c !in a
    ensures Split(a + [c] + b, c) == [a] + Split(b, c)
  {
    hide IndexOf;
    var s := a + [c] + b;
    assert s[..|a|] == a && s[|a|] == c && s[|a| + 1..] == b;
    IndexOfUnique(s, c, |a|);
  }

  lemma {:induction false} SplitJoined(p: Path)
    requires p != [] && PathOk(p)
    ensures Split(JoinSegments(p), '/') == p
  {
    hide Split;
    assert p[0] in p;
    if |p| == 1 {
      SplitNone(p[0], '/');
      assert p == [p[0]];
    } else {
      SplitFirst(p[0], '/', JoinSegments(p[1..]));
      SplitJoined(p[1..]);
      assert p == [p[0]] + p[1..];
    }
  }

  lemma {:induction false} JoinedEnds(p: Path)
    requires p != [] && PathOk(p)
    ensures var s := JoinSegments(p); s != "" && s[|s| - 1] != '/'
  {
    assert p[0] in p;
    if |p| > 1 {
      JoinedEnds(p[1..]);
    } else {
      assert p[0][|p[0]| - 1] in p[0];
    }
  }

  lemma {:induction false} CheckSegmentsSpec(p: Path)
    requires PathOk(p)
    ensures CheckSegments(p) == if NoNul(p) then Ok(p) else Err(InvalidUtf8)
  {
    if p != [] {
      assert p[0] in p;
      CheckSegmentsSpec(p[1..]);
      assert p == [p[0]] + p[1..];
      assert NoNul(p) <==> '\0' !in p[0] && NoNul(p[1..]);
    }
  }

  /** Parsing the string form returns the path, exactly when no segment holds a NUL. */
  lemma {:induction false} ParseAsStr(p: Path)
    requires PathOk(p)
    ensures Parse(AsStr(p)) == if NoNul(p) then Ok(p) else Err(InvalidUtf8)
  {
    if p == [] {
      assert TrimEnd("/") == TrimEnd("");
    } else {
      JoinedEnds(p);
      SplitJoined(p);
      CheckSegmentsSpec(p);
      assert AsStr(p)[1..] == JoinSegments(p);
    }
  }

  function Slashes(n: nat): string {
    if n == 0 then "" else Slashes(n - 1) + "/"
  }

  lemma {:induction false} TrimSlashes(s: string, n: nat)
    ensures TrimEnd(s + Slashes(n)) == TrimEnd(s)
  {
    if n == 0 {
      assert s + "" == s;
    } else {
      var t := s + Slashes(n);
      assert t[..|t| - 1] == s + Slashes(n - 1) && t[|t| - 1] == '/';
      TrimSlashes(s, n - 1);
    }
  }

  /** Slashes at the end of an input make no difference, whatever the input. */
  lemma {:induction false} ParseTrailing(input: string, n: nat)
    requires input != ""
    ensures Parse(input + Slashes(n)) == Parse(input)
  {
    hide Split, CheckSegments;
    TrimSlashes(input, n);
  }

  lemma {:induction false} AsStrInjective(p: Path, q: Path)
    requires PathOk(p) && PathOk(q) && AsStr(p) == AsStr(q)
    ensures p == q
  {
    if p != [] {
      JoinedEnds(p);
    }
    if q != [] {
      JoinedEnds(q);
    }
    if p != [] && q != [] {
      assert AsStr(p)[1..] == JoinSegments(p) && AsStr(q)[1..] == JoinSegments(q);
      SplitJoined(p);
      SplitJoined(q);
    }
  }

  lemma {:induction false} NonEmptyFixed(p: Path)
    requires PathOk(p)
    ensures NonEmpty(p) == p
  {
    if p != [] {
      assert p[0] in p;
      NonEmptyFixed(p[1..]);
    }
  }

  /** The matcher sees the segments of the path. */
  lemma {:induction false} PiecesAsStr(p: Path)
    requires PathOk(p)
    ensures Pieces(AsStr(p)) == p
  {
    if p == [] {
      IndexOfUnique("/", '/', 0);
      IndexOfUnique("", '/', 0);
      assert Split("", '/') == [""];
      assert "/"[1..] == "";
      assert Split("/", '/') == [""] + [""];
      assert NonEmpty([""]) == [];
    } else {
      var s := AsStr(p);
      IndexOfUnique(s, '/', 0);
      assert s[1..] == JoinSegments(p);
      SplitJoined(p);
      assert Split(s, '/') == [""] + p;
      assert ([""] + p)[1..] == p;
      NonEmptyFixed(p);
    }
  }

  /** Anything `parse` returns can be joined, listed and parsed again. */
  lemma {:induction false} CheckedSegments(segs: seq<string>)
    requires forall seg | seg in segs :: '/' !in seg
    ensures CheckSegments(segs).Ok? ==> CheckSegments(segs).value == segs && PathOk(segs) && NoNul(segs)
  {
    if segs != [] {
      CheckedSegments(segs[1..]);
      assert segs == [segs[0]] + segs[1..];
    }
  }

  lemma {:induction false} SplitHasNoSeparator(s: string, c: char)
    ensures forall seg | seg in Split(s, c) :: c !in seg
    decreases |s|
  {
    var i := IndexOf(s, c);
    if i == |s| {
      assert s[..i] == s;
    } else {
      SplitHasNoSeparator(s[i + 1..], c);
    }
  }

  lemma {:induction false} ParsedIsOk(input: string)
    ensures Parse(input).Ok? ==> PathOk(Parse(input).value) && NoNul(Parse(input).value)
  {
    if Parse(input).Ok? && TrimEnd(input) != "" {
      SplitHasNoSeparator(TrimEnd(input)[1..], '/');
      CheckedSegments(Split(TrimEnd(input)[1..], '/'));
    }
  }

  lemma {:induction false} SplitBack(s: string)
    ensures JoinSegments(Split(s, '/')) == s
    decreases |s|
  {
    hide IndexOf, JoinSegments;
    var i := IndexOf(s, '/');
    if i == |s| {
      JoinOne(s);
    } else {
      SplitBack(s[i + 1..]);
      JoinFirst(s[..i], Split(s[i + 1..], '/'));
      assert s == s[..i] + "/" + s[i + 1..];
    }
  }

  lemma {:induction false} JoinOne(s: string)
    ensures JoinSegments([s]) == s
  {
  }

  lemma {:induction false} JoinFirst(s: string, rest: Path)
    requires rest != []
    ensures JoinSegments([s] + rest) == s + "/" + JoinSegments(rest)
  {
    assert ([s] + rest)[1..] == rest;
  }

  lemma {:induction false} TrimmedBack(s: string) returns (n: nat)
    ensures s == TrimEnd(s) + Slashes(n)
    ensures TrimEnd(s) == "" && s != "" ==> n > 0
  {
    if s != "" && s[|s| - 1] == '/' {
      var m := TrimmedBack(s[..|s| - 1]);
      n := m + 1;
      assert s == s[..|s| - 1] + "/";
    } else {
      n := 0;
    }
  }

  lemma {:induction false} SlashFirst(n: nat)
    requires n > 0
    ensures Slashes(n) == "/" + Slashes(n - 1)
  {
    if n > 1 {
      SlashFirst(n - 1);
    }
  }

  lemma {:induction false} TrimKeepsHead(s: string)
    ensures TrimEnd(s) != "" ==> s != "" && TrimEnd(s)[0] == s[0]
  {
    if s != "" && s[|s| - 1] == '/' {
      TrimKeepsHead(s[..|s| - 1]);
    }
  }

  /** What `parse` accepts is the string form of what it returns, with any slashes behind it. */
  lemma {:induction false} ParsedText(input: string) returns (n: nat)
    requires Parse(input).Ok?
    ensures input == AsStr(Parse(input).value) + Slashes(n)
  {
    hide Split, CheckSegments, JoinSegments;
    n := TrimmedBack(input);
    var trimmed := TrimEnd(input);
    if trimmed == "" {
      SlashFirst(n);
      n := n - 1;
    } else {
      TrimKeepsHead(input);
      SplitHasNoSeparator(trimmed[1..], '/');
      CheckedSegments(Split(trimmed[1..], '/'));
      SplitBack(trimmed[1..]);
      assert trimmed == "/" + trimmed[1..];
    }
  }

  /** Exactly which texts parse, and as what. */
  lemma {:induction false} ParseIff(input: string, p: Path)
    ensures Parse(input) == Ok(p) <==> PathOk(p) && NoNul(p) && exists n: nat :: input == AsStr(p) + Slashes(n)
  {
    hide Parse, AsStr, PathOk, NoNul;
    if Parse(input) == Ok(p) {
      ParsedIsOk(input);
      var n := ParsedText(input);
    }
    if PathOk(p) && NoNul(p) && exists n: nat :: input == AsStr(p) + Slashes(n) {
      var n: nat :| input == AsStr(p) + Slashes(n);
      ParseAsStr(p);
      AsStrFilled(p);
      ParseTrailing(AsStr(p), n);
    }
  }

  lemma {:induction false} AsStrFilled(p: Path)
    ensures AsStr(p) != ""
  {
  }

  // ----- parsing as the code runs it -----

  /** What has been accepted, in front of the outcome for the rest. */
  function Accepted(segs: Path, r: Result<Path, PathError>): Result<Path, PathError> {
    match r
    case Ok(rest) => Ok(segs + rest)
    case Err(e) => Err(e)
  }

  method ParsePath(input: string) returns (r: Result<Path, PathError>)
    ensures r == Parse(input)
  {
    hide Split, TrimEnd;
    if input == "" {
      return Err(EmptyPath);
    }
    if input[0] != '/' {
      return Err(NotAbsolute);
    }
    var trimmed := TrimEnd(input);
    if trimmed == "" {
      return Ok([]);
    }
    var pieces := Split(trimmed[1..], '/');
    r := CollectSegments(pieces);
  }

  method CollectSegments(pieces: seq<string>) returns (r: Result<Path, PathError>)
    ensures r == CheckSegments(pieces)
  {
    var segs: Path := [];
    assert pieces[0..] == pieces;
    if CheckSegments(pieces).Ok? {
      assert [] + CheckSegments(pieces).value == CheckSegments(pieces).value;
    }
    for i := 0 to |pieces|
      invariant CheckSegments(pieces) == Accepted(segs, CheckSegments(pieces[i..]))
    {
      var seg := pieces[i];
      assert pieces[i..][1..] == pieces[i + 1..];
      if seg == "" {
        return Err(EmptySegment);
      }
      if seg == "." || seg == ".." {
        return Err(ForbiddenSegment);
      }
      if '\0' in seg {
        return Err(InvalidUtf8);
      }
      ghost var rest := CheckSegments(pieces[i + 1..]);
      if rest.Ok? {
        assert segs + ([seg] + rest.value) == segs + [seg] + rest.value;
      }
      segs := segs + [seg];
    }
    assert segs + [] == segs;
    r := Ok(segs);
  }
}
