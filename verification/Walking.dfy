/** The depth-first walk of the namespace. */
module Walking {
  import opened ByteStrings
  import opened Strings
  import opened Orders
  import opened Storage
  import opened Paths
  import opened Namespace
  import opened TreeModel
  import opened Listing

  /** One entry pushed by the walk. */
  type Visit = (Path, Entry)

  /** Parent ids are smaller than child ids, so the distance to `next_id` shrinks on the way down. */
  ghost function Walk(s: Store, rows: Rows, t: NsTree, p: Path): Result<seq<Visit>, NsError>
    requires Represents(s, rows, t) && p in t.live
    decreases t.next - t.live[p].id, 1, 0
  {
    GetSpec(s, rows, t, p);
    var e :- Get(s, p);
    if !e.Directory? then Ok([(p, e)]) else
    ListSpec(s, rows, t, p);
    var names :- ListDir(s, p);
    var below :- WalkAll(s, rows, t, p, names);
    Ok([(p, e)] + below)
  }

  ghost function WalkAll(s: Store, rows: Rows, t: NsTree, p: Path, names: seq<Child>): Result<seq<Visit>, NsError>
    requires Represents(s, rows, t) && p in t.live
    requires forall c | c in names :: ChildOf(t, p, c)
    decreases t.next - t.live[p].id, 0, |names|
  {
    if names == [] then Ok([]) else
    ChildBelow(t, p, names[0]);
    match Join(p, names[0].0)
    case Err(e) => Err(PathErr(e))
    case Ok(child) =>
      var first :- Walk(s, rows, t, child);
      var rest :- WalkAll(s, rows, t, p, names[1..]);
      Ok(first + rest)
  }

  lemma {:induction false} ChildBelow(t: NsTree, p: Path, c: Child)
    requires WellFormedTree(t) && p in t.live && ChildOf(t, p, c)
    ensures Join(p, c.0) == Ok(p + [c.0]) && t.live[p].id < t.live[p + [c.0]].id < t.next
  {
    var q := p + [c.0];
    assert Parent(q) == p;
    assert c.0 in q;
  }

  // ----- the order of the walk -----

  /** Segment by segment. */
  predicate PathLess(p: Path, q: Path) {
    && q != []
    && (p == [] || StrLess(p[0], q[0]) || (p[0] == q[0] && PathLess(p[1..], q[1..])))
  }

  lemma {:induction false} PathLessIrreflexive(p: Path)
    ensures !PathLess(p, p)
  {
    if p != [] {
      StrIrreflexive(p[0]);
      PathLessIrreflexive(p[1..]);
    }
  }

  lemma {:induction false} PathLessBehind(p: Path, a: Path, b: Path)
    ensures PathLess(p + a, p + b) <==> PathLess(a, b)
  {
    if p == [] {
      assert p + a == a && p + b == b;
    } else {
      StrIrreflexive(p[0]);
      assert (p + a)[1..] == p[1..] + a && (p + b)[1..] == p[1..] + b;
      PathLessBehind(p[1..], a, b);
    }
  }

  predicate Extends(p: Path, q: Path) {
    |p| <= |q| && q[..|p|] == p
  }

  lemma {:induction false} ExtensionsFollow(p: Path, q: Path)
    requires Extends(p, q) && q != p
    ensures PathLess(p, q)
  {
    assert q == p + q[|p|..] && p == p + [];
    PathLessBehind(p, [], q[|p|..]);
  }

  lemma {:induction false} SiblingsApart(p: Path, q: Path, r: Path)
    requires Extends(p, q) && Extends(p, r) && |q| > |p| && |r| > |p| && StrLess(q[|p|], r[|p|])
    ensures PathLess(q, r)
  {
    assert q == p + q[|p|..] && r == p + r[|p|..];
    PathLessBehind(p, q[|p|..], r[|p|..]);
  }

  // ----- what a walk covers -----

  predicate VisitLess(a: Visit, b: Visit) {
    PathLess(a.0, b.0)
  }

  /** `out` lists the nodes at `ps`, each once with its entry, in path order. */
  ghost predicate Lists(t: NsTree, ps: set<Path>, out: seq<Visit>) {
    && Ascending(VisitLess, out)
    && forall v: Visit :: v in out <==> v.0 in ps && GetAbs(t, v.0) == Ok(v.1)
  }

  ghost predicate Readable(t: NsTree, ps: set<Path>) {
    forall p | p in ps :: GetAbs(t, p).Ok?
  }

  ghost function Under(t: NsTree, p: Path): set<Path> {
    set q | q in t.live && Extends(p, q)
  }

  lemma {:induction false} UnderRoot(t: NsTree)
    ensures Under(t, []) == t.live.Keys
  {
    assert forall q: Path :: Extends([], q);
  }

  /** Below `p`, through one of the names. */
  ghost function Through(t: NsTree, p: Path, names: seq<Child>): set<Path> {
    set q | q in t.live && |q| > |p| && Extends(p, q) && exists i | 0 <= i < |names| :: names[i].0 == q[|p|]
  }

  lemma {:induction false} ListsConcat(t: NsTree, ps: set<Path>, a: seq<Visit>, qs: set<Path>, b: seq<Visit>)
    requires Lists(t, ps, a) && Lists(t, qs, b) && forall p, q | p in ps && q in qs :: PathLess(p, q)
    ensures Lists(t, ps + qs, a + b)
  {
    AscendingConcat(VisitLess, a, b);
  }

  lemma {:induction false} ListsOne(t: NsTree, p: Path, e: Entry)
    requires GetAbs(t, p) == Ok(e)
    ensures Lists(t, {p}, [(p, e)])
  {
  }

  lemma {:induction false} ThroughFirst(t: NsTree, p: Path, names: seq<Child>)
    requires names != [] && Ascending(NameLess, names)
    ensures Through(t, p, names) == Under(t, p + [names[0].0]) + Through(t, p, names[1..])
    ensures forall q, r | q in Under(t, p + [names[0].0]) && r in Through(t, p, names[1..]) :: PathLess(q, r)
  {
    var first := p + [names[0].0];
    forall q: Path
      ensures Extends(first, q) <==> |q| > |p| && Extends(p, q) && q[|p|] == names[0].0
    {
      if |q| > |p| { assert q[..|p| + 1] == q[..|p|] + [q[|p|]]; }
    }
    assert names == [names[0]] + names[1..];
    forall q, r | q in Under(t, first) && r in Through(t, p, names[1..])
      ensures PathLess(q, r)
    {
      var i :| 0 <= i < |names[1..]| && names[1..][i].0 == r[|p|];
      assert NameLess(names[0], names[i + 1]);
      SiblingsApart(p, q, r);
    }
  }

  lemma {:induction false} ThroughChild(t: NsTree, p: Path, names: seq<Child>, q: Path)
    requires WellFormedTree(t) && forall c: Child :: c in names <==> ChildOf(t, p, c)
    requires q in t.live && Extends(p, q) && q != p
    ensures q in Through(t, p, names)
  {
    assert q == (p + [q[|p|]]) + q[|p| + 1..];
    PrefixLive(t, p + [q[|p|]], q[|p| + 1..]);
    var c: Child := (q[|p|], t.live[p + [q[|p|]]].node.Dir?);
    assert ChildOf(t, p, c) && c in names;
  }

  lemma {:induction false} UnderDir(t: NsTree, p: Path, names: seq<Child>)
    requires WellFormedTree(t) && p in t.live && forall c: Child :: c in names <==> ChildOf(t, p, c)
    ensures Under(t, p) == {p} + Through(t, p, names)
    ensures forall q | q in Through(t, p, names) :: PathLess(p, q)
  {
    forall q | q in Under(t, p) && q != p
      ensures q in Through(t, p, names)
    {
      ThroughChild(t, p, names, q);
    }
    assert Extends(p, p);
    forall q | q in Through(t, p, names)
      ensures PathLess(p, q)
    {
      ExtensionsFollow(p, q);
    }
  }

  lemma {:induction false} UnderValue(t: NsTree, p: Path)
    requires WellFormedTree(t) && p in t.live && t.live[p].node.Val?
    ensures Under(t, p) == {p}
  {
    hide WellFormedTree;
    forall q | q in t.live && Extends(p, q)
      ensures q == p
    {
      if q != p {
        NothingBelow(t, p, q);
      }
    }
    assert Extends(p, p);
  }

  lemma {:induction false} NothingBelow(t: NsTree, p: Path, q: Path)
    requires WellFormedTree(t) && p in t.live && t.live[p].node.Val? && Extends(p, q) && q != p
    ensures q !in t.live
  {
    if q in t.live {
      var child := p + [q[|p|]];
      assert Parent(child) == p && q == child + q[|p| + 1..];
      PrefixLive(t, child, q[|p| + 1..]);
    }
  }

  /** The walk of `r` covers `ps` if every node there can be read, and fails otherwise. */
  ghost predicate Covers(t: NsTree, ps: set<Path>, r: Result<seq<Visit>, NsError>) {
    (r.Ok? <==> Readable(t, ps)) && (r.Ok? ==> Lists(t, ps, r.value))
  }

  lemma {:induction false} CoversBoth(t: NsTree, ps: set<Path>, a: Result<seq<Visit>, NsError>,
                                      qs: set<Path>, b: Result<seq<Visit>, NsError>, r: Result<seq<Visit>, NsError>)
    requires Covers(t, ps, a) && Covers(t, qs, b) && forall p, q | p in ps && q in qs :: PathLess(p, q)
    requires r.Ok? <==> a.Ok? && b.Ok?
    requires r.Ok? ==> r.value == a.value + b.value
    ensures Covers(t, ps + qs, r)
  {
    if a.Ok? && b.Ok? {
      ListsConcat(t, ps, a.value, qs, b.value);
    }
  }

  /**
   * On every store that represents a tree the walk ends, and it lists every live path
   * below its start exactly once, parents first and siblings in name order.
   */
  lemma {:induction false} WalkSpec(s: Store, rows: Rows, t: NsTree, p: Path)
    requires Represents(s, rows, t) && p in t.live
    ensures Covers(t, Under(t, p), Walk(s, rows, t, p))
    decreases t.next - t.live[p].id, 1, 0
  {
    GetSpec(s, rows, t, p);
    var e := Get(s, p);
    if e.Err? {
      assert p in Under(t, p);
    } else if e.value.Directory? {
      ListSpec(s, rows, t, p);
      var names := ListDir(s, p).value;
      WalkAllSpec(s, rows, t, p, names);
      UnderDir(t, p, names);
      ListsOne(t, p, e.value);
      CoversBoth(t, {p}, Ok([(p, e.value)]), Through(t, p, names), WalkAll(s, rows, t, p, names), Walk(s, rows, t, p));
    } else {
      UnderValue(t, p);
      ListsOne(t, p, e.value);
    }
  }

  lemma {:induction false} WalkAllSpec(s: Store, rows: Rows, t: NsTree, p: Path, names: seq<Child>)
    requires Represents(s, rows, t) && p in t.live
    requires Ascending(NameLess, names) && forall c | c in names :: ChildOf(t, p, c)
    ensures Covers(t, Through(t, p, names), WalkAll(s, rows, t, p, names))
    decreases t.next - t.live[p].id, 0, |names|
  {
    if names == [] {
      assert Through(t, p, names) == {};
    } else {
      ChildBelow(t, p, names[0]);
      var child := p + [names[0].0];
      WalkSpec(s, rows, t, child);
      WalkAllSpec(s, rows, t, p, names[1..]);
      ThroughFirst(t, p, names);
      CoversBoth(t, Under(t, child), Walk(s, rows, t, child),
                 Through(t, p, names[1..]), WalkAll(s, rows, t, p, names[1..]), WalkAll(s, rows, t, p, names));
    }
  }
}
