/** Glob matching: the recursive matchers and what it means to match. */
module Glob {
  import opened Paths

  // ----- what a match is: one run of the text per pattern element -----

  function Flatten<T>(runs: seq<seq<T>>): seq<T> {
    if runs == [] then [] else runs[0] + Flatten(runs[1..])
  }

  /** `text` splits into one run per element of `pat`, each accepted by `ok`. */
  ghost predicate Splits<P(!new), T(!new)>(ok: (P, seq<T>) -> bool, pat: seq<P>, text: seq<T>) {
    exists runs: seq<seq<T>> :: SplitBy(ok, pat, text, runs)
  }

  ghost predicate SplitBy<P, T>(ok: (P, seq<T>) -> bool, pat: seq<P>, text: seq<T>, runs: seq<seq<T>>) {
    |runs| == |pat| && Flatten(runs) == text && forall i | 0 <= i < |pat| :: ok(pat[i], runs[i])
  }

  /** The first element takes a prefix and the others split the rest. */
  lemma {:induction false} SplitsFirst<P(!new), T(!new)>(ok: (P, seq<T>) -> bool, pat: seq<P>, text: seq<T>)
    requires pat != []
    ensures Splits(ok, pat, text) <==>
            exists i | 0 <= i <= |text| :: ok(pat[0], text[..i]) && Splits(ok, pat[1..], text[i..])
  {
    if Splits(ok, pat, text) {
      var runs :| SplitBy(ok, pat, text, runs);
      var i := |runs[0]|;
      assert text[..i] == runs[0] && text[i..] == Flatten(runs[1..]);
      assert SplitBy(ok, pat[1..], text[i..], runs[1..]);
    }
    if i :| 0 <= i <= |text| && ok(pat[0], text[..i]) && Splits(ok, pat[1..], text[i..]) {
      var rest :| SplitBy(ok, pat[1..], text[i..], rest);
      var runs := [text[..i]] + rest;
      assert runs[1..] == rest && text == text[..i] + text[i..];
      assert SplitBy(ok, pat, text, runs);
    }
  }

  lemma {:induction false} SplitsEmpty<P(!new), T(!new)>(ok: (P, seq<T>) -> bool, text: seq<T>)
    ensures Splits(ok, [], text) <==> text == []
  {
    assert text == [] ==> SplitBy(ok, [], text, []);
    forall runs: seq<seq<T>> | SplitBy(ok, [], text, runs)
      ensures text == []
    {
      assert runs == [];
    }
  }

  // ----- characters -----

  /** `*` any run, `?` one character, anything else itself. */
  predicate CharRun(p: char, run: string) {
    if p == '*' then true
    else if p == '?' then |run| == 1
    else run == [p]
  }

  function GlobRec(p: string, t: string): bool {
    if p == "" then t == ""
    else if p[0] == '*' then exists i | 0 <= i <= |t| :: GlobRec(p[1..], t[i..])
    else if p[0] == '?' then t != "" && GlobRec(p[1..], t[1..])
    else t != "" && t[0] == p[0] && GlobRec(p[1..], t[1..])
  }

  lemma {:induction false} SingleRun(ok: (char, string) -> bool, p: string, t: string)
    requires p != "" && forall run: string :: ok(p[0], run) ==> |run| == 1
    ensures (exists i | 0 <= i <= |t| :: ok(p[0], t[..i]) && Splits(ok, p[1..], t[i..])) <==>
            t != "" && ok(p[0], t[..1]) && Splits(ok, p[1..], t[1..])
  {
  }

  /** The matcher accepts exactly the texts that split along the pattern. */
  lemma {:induction false} GlobMeaning(p: string, t: string)
    ensures GlobRec(p, t) <==> Splits(CharRun, p, t)
    decreases |p|
  {
    if p == "" {
      SplitsEmpty(CharRun, t);
    } else {
      SplitsFirst(CharRun, p, t);
      if p[0] == '*' {
        forall i | 0 <= i <= |t| { GlobMeaning(p[1..], t[i..]); }
      } else {
        SingleRun(CharRun, p, t);
        if t != "" {
          GlobMeaning(p[1..], t[1..]);
          assert t[..1] == [t[0]];
        }
      }
    }
  }

  // ----- segments -----

  /** `**` any run of segments, anything else one segment matched by character. */
  predicate SegmentRun(p: string, run: seq<string>) {
    if p == "**" then true else |run| == 1 && GlobRec(p, run[0])
  }

  function MatchSegments(pat: seq<string>, path: seq<string>): bool {
    if pat == [] then path == []
    else if pat[0] == "**" then
      |pat| == 1 || exists i | 0 <= i <= |path| :: MatchSegments(pat[1..], path[i..])
    else path != [] && GlobRec(pat[0], path[0]) && MatchSegments(pat[1..], path[1..])
  }

  lemma {:induction false} SegmentsMeaning(pat: seq<string>, path: seq<string>)
    ensures MatchSegments(pat, path) <==> Splits(SegmentRun, pat, path)
    decreases |pat|
  {
    if pat == [] {
      SplitsEmpty(SegmentRun, path);
    } else {
      SplitsFirst(SegmentRun, pat, path);
      if pat[0] == "**" {
        if |pat| == 1 {
          SplitsEmpty(SegmentRun, path[|path|..]);
          assert pat[1..] == [];
        } else {
          forall i | 0 <= i <= |path| { SegmentsMeaning(pat[1..], path[i..]); }
        }
      } else if path != [] {
        SegmentsMeaning(pat[1..], path[1..]);
        assert path[..1] == [path[0]];
      }
    }
  }

  function PathGlobMatch(pattern: string, path: string): bool {
    pattern == "/**" || pattern == "**" || MatchSegments(Pieces(pattern), Pieces(path))
  }

  lemma {:induction false} StarPieces()
    ensures Pieces("/**") == ["**"] && Pieces("**") == ["**"]
  {
    IndexOfUnique("/**", '/', 0);
    IndexOfUnique("**", '/', 2);
    assert "/**"[1..] == "**" && "**"[..2] == "**";
    assert Split("**", '/') == ["**"];
    assert Split("/**", '/') == [""] + ["**"];
    assert NonEmpty(["**"]) == ["**"] + NonEmpty([]);
    assert ([""] + ["**"])[1..] == ["**"];
  }

  /** The shortcut patterns agree with the general matcher; all others are the matcher. */
  lemma {:induction false} PathGlobMeaning(pattern: string, p: Path)
    requires PathOk(p)
    ensures PathGlobMatch(pattern, AsStr(p)) <==> Splits(SegmentRun, Pieces(pattern), p)
  {
    PiecesAsStr(p);
    SegmentsMeaning(Pieces(pattern), p);
    if pattern == "/**" || pattern == "**" {
      StarPieces();
    }
  }

  // ----- the matchers as written, with their search loops -----

  method GlobMatch(p: string, t: string) returns (b: bool)
    ensures b <==> Splits(CharRun, p, t)
    decreases |p|
  {
    SplitsEmpty(CharRun, t);
    if p == "" {
      return t == "";
    }
    SplitsFirst(CharRun, p, t);
    if p[0] == '*' {
      for i := 0 to |t| + 1
        invariant forall j | 0 <= j < i :: !Splits(CharRun, p[1..], t[j..])
      {
        var hit := GlobMatch(p[1..], t[i..]);
        if hit {
          return true;
        }
      }
      return false;
    }
    SingleRun(CharRun, p, t);
    if t == "" || (p[0] != '?' && t[0] != p[0]) {
      return false;
    }
    assert t[..1] == [t[0]];
    b := GlobMatch(p[1..], t[1..]);
  }

  method MatchPath(pat: seq<string>, path: seq<string>) returns (b: bool)
    ensures b <==> Splits(SegmentRun, pat, path)
    decreases |pat|
  {
    SplitsEmpty(SegmentRun, path);
    if pat == [] {
      return path == [];
    }
    SplitsFirst(SegmentRun, pat, path);
    if pat[0] == "**" {
      if |pat| == 1 {
        SplitsEmpty(SegmentRun, path[|path|..]);
        assert pat[1..] == [];
        return true;
      }
      for i := 0 to |path| + 1
        invariant forall j | 0 <= j < i :: !Splits(SegmentRun, pat[1..], path[j..])
      {
        var hit := MatchPath(pat[1..], path[i..]);
        if hit {
          return true;
        }
      }
      return false;
    }
    if path == [] {
      return false;
    }
    var first := GlobMatch(pat[0], path[0]);
    GlobMeaning(pat[0], path[0]);
    assert path[..1] == [path[0]];
    if !first {
      return false;
    }
    b := MatchPath(pat[1..], path[1..]);
  }
}
