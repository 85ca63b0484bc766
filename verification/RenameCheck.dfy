/** The RENAME handler's own test for moving a directory below itself.  It works on the paths
    that the request's look-ups have spelled out, and it compares the path of the directory
    that holds the source with the path of the target directory. */
module RenameCheck {
  import opened Namespace
  import opened NamespaceRuns
  import opened DirectoryTree

  const SLASH: char := '/'

  /** What name validation lets through: not empty, and no slash. */
  predicate Component(name: Name) {
    name != "" && SLASH !in name
  }

  predicate Components(names: seq<Name>) {
    forall i | 0 <= i < |names| :: Component(names[i])
  }

  /** The request's current path after one more LOOKUP. */
  function LookedUp(path: string, name: Name): string {
    if path == "/" then "/" + name else path + "/" + name
  }

  /** The path after PUTROOTFH and these look-ups. */
  function PathOf(names: seq<Name>): string {
    if names == [] then "/" else LookedUp(PathOf(names[..|names| - 1]), names[|names| - 1])
  }

  /** The handler's test; an empty path is one it does not know. */
  predicate Refuses(saved: string, current: string) {
    saved != "" && current != "" && Under(saved, current)
  }

  predicate Under(a: string, b: string) {
    a <= b && |a| < |b| && b[|a|] == SLASH
  }

  // ---------------------------------------------------------------------------
  // Paths as lists of names
  // ---------------------------------------------------------------------------

  /** Every name with a slash before it. */
  function Spelled(names: seq<Name>): string {
    if names == [] then "" else "/" + names[0] + Spelled(names[1..])
  }

  lemma {:induction false} SpelledMore(names: seq<Name>, name: Name)
    ensures Spelled(names + [name]) == Spelled(names) + "/" + name
  {
    if names == [] {
      assert (names + [name])[1..] == [];
    } else {
      assert (names + [name])[1..] == names[1..] + [name];
      SpelledMore(names[1..], name);
    }
  }

  lemma {:induction false} PathIsSpelled(names: seq<Name>)
    requires names != [] && Components(names)
    ensures PathOf(names) == Spelled(names) && |PathOf(names)| > 1
  {
    var front, last := names[..|names| - 1], names[|names| - 1];
    assert names == front + [last];
    assert Component(last);
    SpelledMore(front, last);
    if front != [] {
      PathIsSpelled(front);
    }
  }

  /** Nothing, or a slash and more. */
  predicate Rest(t: string) {
    t == "" || t[0] == SLASH
  }

  lemma LongerHead(a: Name, r: string, b: Name, t: string)
    requires Component(b) && Rest(r) && |a| < |b|
    ensures !Under("/" + a + r, "/" + b + t)
  {
    var u, v := "/" + a + r, "/" + b + t;
    assert v[1 + |a|] == b[|a|] && b[|a|] in b;
    assert r != "" ==> u[1 + |a|] == r[0];
  }

  lemma ShorterHead(a: Name, r: string, b: Name, t: string)
    requires Component(a) && Rest(t) && |b| < |a|
    ensures !Under("/" + a + r, "/" + b + t)
  {
    var u, v := "/" + a + r, "/" + b + t;
    assert u[1 + |b|] == a[|b|] && a[|b|] in a;
    assert t != "" ==> v[1 + |b|] == t[0];
  }

  lemma HeadAgrees(a: Name, r: string, b: Name, t: string)
    requires |a| == |b| && Under("/" + a + r, "/" + b + t)
    ensures a == b && Under(r, t)
  {
    var u, v := "/" + a + r, "/" + b + t;
    assert u == v[..|u|];
    assert a == u[1..1 + |a|] && b == v[1..1 + |b|];
    assert r == u[1 + |a|..] && t == v[1 + |b|..];
    assert t[..|r|] == r;
    assert t[|r|] == v[|u|];
  }

  lemma HeadStays(a: Name, r: string, t: string)
    requires Under(r, t)
    ensures Under("/" + a + r, "/" + a + t)
  {
    var u, v := "/" + a + r, "/" + a + t;
    assert v == "/" + a + r + t[|r|..];
    assert v[|u|] == t[|r|];
  }

  /** One spelling lies under another exactly when its names are the first of the other's. */
  lemma {:induction false} SpelledUnderIff(ps: seq<Name>, qs: seq<Name>)
    requires Components(ps) && Components(qs)
    ensures Under(Spelled(ps), Spelled(qs)) <==> ps < qs
  {
    if ps == [] || qs == [] {
      return;
    }
    assert Rest(Spelled(ps[1..])) && Rest(Spelled(qs[1..]));
    SpelledUnderIff(ps[1..], qs[1..]);
    assert ps == [ps[0]] + ps[1..] && qs == [qs[0]] + qs[1..];
    if Under(Spelled(ps), Spelled(qs)) {
      if |ps[0]| < |qs[0]| {
        LongerHead(ps[0], Spelled(ps[1..]), qs[0], Spelled(qs[1..]));
      } else if |qs[0]| < |ps[0]| {
        ShorterHead(ps[0], Spelled(ps[1..]), qs[0], Spelled(qs[1..]));
      }
      HeadAgrees(ps[0], Spelled(ps[1..]), qs[0], Spelled(qs[1..]));
    }
    if ps < qs {
      assert ps[0] == qs[0] && ps[1..] < qs[1..];
      HeadStays(ps[0], Spelled(ps[1..]), Spelled(qs[1..]));
    }
  }

  /** The handler refuses exactly when the look-ups of the target directory go on from those
      of a source directory other than the root. */
  lemma RefusesIff(ps: seq<Name>, qs: seq<Name>)
    requires Components(ps) && Components(qs)
    ensures Refuses(PathOf(ps), PathOf(qs)) <==> ps != [] && ps < qs
  {
    if ps != [] {
      PathIsSpelled(ps);
    }
    if qs != [] {
      PathIsSpelled(qs);
      assert qs[0][0] in qs[0];
      assert Spelled(qs)[1] == qs[0][0];
    }
    SpelledUnderIff(ps, qs);
  }

  // ---------------------------------------------------------------------------
  // Paths in the tree
  // ---------------------------------------------------------------------------

  datatype Place = Nowhere | At(dir: Fileid)

  /** One LOOKUP of a directory. */
  function Entered(s: Store, place: Place, name: Name): Place {
    if place.At? && Holds(s, place.dir, name) then At(s.dirents[Key(place.dir, name)].child) else Nowhere
  }

  predicate Holds(s: Store, g: Fileid, name: Name) {
    Key(g, name) in s.dirents && s.dirents[Key(g, name)].kind.Dir?
  }

  /** Where these look-ups lead from the root. */
  function Walk(s: Store, names: seq<Name>): Place {
    if names == [] then At(ROOT) else Entered(s, Walk(s, names[..|names| - 1]), names[|names| - 1])
  }

  /** What the invariant says of directories. */
  ghost predicate Forest(s: Store) {
    && IsDir(s, ROOT)
    && (forall k | k in s.dirents && s.dirents[k].kind.Dir? :: Parented(s, k, s.dirents[k].child))
    && (forall k, k' | k in s.dirents && k' in s.dirents && s.dirents[k].kind.Dir? ::
          s.dirents[k].child == s.dirents[k'].child ==> k == k')
  }

  ghost predicate Parented(s: Store, k: Key, f: Fileid) {
    IsDir(s, f) && IsDir(s, k.parent) && f != ROOT && s.inodes[f].parent == k.parent
  }

  lemma SoundIsForest(s: Store)
    requires Inv(s)
    ensures Forest(s)
  {
    forall k, k' | k in s.dirents && k' in s.dirents && s.dirents[k].kind.Dir?
      ensures s.dirents[k].child == s.dirents[k'].child ==> k == k'
    {
      if s.dirents[k].child == s.dirents[k'].child {
        DirNameUnique(s, k, k');
      }
    }
  }

  /** The last look-up of a path. */
  lemma LastStep(s: Store, names: seq<Name>, f: Fileid) returns (k: Key)
    requires Forest(s) && names != [] && Walk(s, names) == At(f)
    ensures Walk(s, names[..|names| - 1]) == At(k.parent) && k.name == names[|names| - 1]
    ensures k in s.dirents && s.dirents[k] == Dirent(f, Dir) && Parented(s, k, f)
  {
    k := Key(Walk(s, names[..|names| - 1]).dir, names[|names| - 1]);
  }

  lemma WalkEnds(s: Store, names: seq<Name>, f: Fileid)
    requires Forest(s) && Walk(s, names) == At(f)
    ensures IsDir(s, f) && (f == ROOT <==> names == [])
  {
    if names != [] {
      var k := LastStep(s, names, f);
    }
  }

  /** A directory has one path. */
  lemma {:induction false} PathUnique(s: Store, ps: seq<Name>, qs: seq<Name>, f: Fileid)
    requires Forest(s) && Walk(s, ps) == At(f) == Walk(s, qs)
    ensures ps == qs
  {
    WalkEnds(s, ps, f);
    WalkEnds(s, qs, f);
    if ps != [] {
      var k := LastStep(s, ps, f);
      var k' := LastStep(s, qs, f);
      assert k == k';
      PathUnique(s, ps[..|ps| - 1], qs[..|qs| - 1], k.parent);
      assert ps == ps[..|ps| - 1] + [k.name] && qs == qs[..|qs| - 1] + [k.name];
    }
  }

  lemma ClimbMore(s: Store, k: Key, f: Fileid, m: Fileid)
    requires Parented(s, k, f) && Below(s, k.parent, m)
    ensures Below(s, f, m)
  {
    var p :| Climbs(s, p, k.parent, m);
    assert Ascent(s, [f]);
    Joined(s, [f], p);
  }

  lemma {:induction false} PrefixClimbs(s: Store, ms: seq<Name>, m: Fileid, qs: seq<Name>, d: Fileid)
    requires Forest(s) && Walk(s, ms) == At(m) && Walk(s, qs) == At(d) && ms <= qs
    ensures Below(s, d, m)
    decreases |qs|
  {
    if ms == qs {
      WalkEnds(s, qs, d);
      assert Climbs(s, [d], d, m);
    } else {
      var k := LastStep(s, qs, d);
      PrefixClimbs(s, ms, m, qs[..|qs| - 1], k.parent);
      ClimbMore(s, k, d, m);
    }
  }

  lemma ClimbLess(s: Store, p: seq<Fileid>)
    requires Ascent(s, p) && |p| > 1
    ensures Ascent(s, p[1..]) && p[0] != ROOT && s.inodes[p[0]].parent == p[1]
  {
  }

  lemma {:induction false} ClimbIsPrefix(s: Store, ms: seq<Name>, qs: seq<Name>, p: seq<Fileid>)
    requires Forest(s) && Ascent(s, p) && Walk(s, ms) == At(p[|p| - 1]) && Walk(s, qs) == At(p[0])
    ensures ms <= qs
    decreases |p|
  {
    if |p| == 1 {
      PathUnique(s, ms, qs, p[0]);
    } else {
      ClimbLess(s, p);
      WalkEnds(s, qs, p[0]);
      var k := LastStep(s, qs, p[0]);
      ClimbIsPrefix(s, ms, qs[..|qs| - 1], p[1..]);
    }
  }

  /** One directory lies in another exactly when its path starts with the other's. */
  lemma BelowIff(s: Store, ms: seq<Name>, m: Fileid, qs: seq<Name>, d: Fileid)
    requires Forest(s) && Walk(s, ms) == At(m) && Walk(s, qs) == At(d)
    ensures Below(s, d, m) <==> ms <= qs
  {
    if ms <= qs {
      PrefixClimbs(s, ms, m, qs, d);
    }
    if Below(s, d, m) {
      var p :| Climbs(s, p, d, m);
      ClimbIsPrefix(s, ms, qs, p);
    }
  }

  // ---------------------------------------------------------------------------
  // What the check lets through and what it refuses
  // ---------------------------------------------------------------------------

  /** The names lead to the directory, and the request knows the path or does not know it. */
  predicate Tracked(s: Store, names: seq<Name>, f: Fileid, path: string) {
    Components(names) && Walk(s, names) == At(f) && (path == "" || path == PathOf(names))
  }

  /** The handler refuses a move of anything, file or directory, exactly from a directory other
      than the root into one that lies deeper in it. */
  lemma RefusedIff(s: Store, ps: seq<Name>, saved: string, qs: seq<Name>, current: string, from: Fileid, to: Fileid)
    requires Forest(s) && Tracked(s, ps, from, saved) && Tracked(s, qs, to, current)
    ensures Refuses(saved, current) <==>
              saved != "" && current != "" && from != ROOT && from != to && Below(s, to, from)
  {
    BelowIff(s, ps, from, qs, to);
    RefusesIff(ps, qs);
    WalkEnds(s, ps, from);
    if from == to {
      PathUnique(s, ps, qs, from);
    } else {
      assert ps != qs;
    }
  }

  /** Where the moved directory's path is the start of the target's. */
  lemma InsideIff(s: Store, ps: seq<Name>, src: Key, qs: seq<Name>, to: Fileid)
    requires Forest(s) && Walk(s, ps) == At(src.parent) && Walk(s, qs) == At(to)
    requires src in s.dirents && s.dirents[src].kind.Dir?
    ensures Below(s, to, s.dirents[src].child) <==> ps + [src.name] <= qs
  {
    var ms := ps + [src.name];
    assert ms[..|ms| - 1] == ps && ms[|ms| - 1] == src.name;
    BelowIff(s, ms, s.dirents[src].child, qs, to);
  }

  /** Inside the moved directory is deeper in the directory that holds it. */
  lemma InsideIsDeeper(s: Store, ps: seq<Name>, src: Key, qs: seq<Name>, to: Fileid)
    requires Forest(s) && Walk(s, ps) == At(src.parent) && Walk(s, qs) == At(to)
    requires src in s.dirents && s.dirents[src].kind.Dir? && Below(s, to, s.dirents[src].child)
    ensures Below(s, to, src.parent) && src.parent != to
  {
    InsideIff(s, ps, src, qs, to);
    assert ps == (ps + [src.name])[..|ps|] && ps == qs[..|ps|];
    BelowIff(s, ps, src.parent, qs, to);
    if src.parent == to {
      PathUnique(s, ps, qs, to);
    }
  }

  /** So a rename that gets past the handler keeps the tree unless it moves a directory below
      itself out of the root, or with a path the request does not know. */
  lemma PassedKeepsTreeIff(s: Store, ps: seq<Name>, saved: string, qs: seq<Name>, current: string, src: Key, dst: Key,
      keep: bool)
    requires Inv(s) && Tree(s) && CanRename(s, src, dst) && MovesDir(s, src, dst)
    requires Tracked(s, ps, src.parent, saved) && Tracked(s, qs, dst.parent, current) && !Refuses(saved, current)
    ensures Tree(Renamed(s, src, dst, keep)) <==>
              !(Below(s, dst.parent, s.dirents[src].child) && (src.parent == ROOT || saved == "" || current == ""))
  {
    MoveKeepsTreeIff(s, src, dst, keep);
    PassedInside(s, ps, saved, qs, current, src, dst.parent);
  }

  lemma PassedInside(s: Store, ps: seq<Name>, saved: string, qs: seq<Name>, current: string, src: Key, to: Fileid)
    requires Inv(s) && src in s.dirents && s.dirents[src].kind.Dir?
    requires Tracked(s, ps, src.parent, saved) && Tracked(s, qs, to, current) && !Refuses(saved, current)
    ensures Below(s, to, s.dirents[src].child) ==> src.parent == ROOT || saved == "" || current == ""
  {
    SoundIsForest(s);
    RefusedIff(s, ps, saved, qs, current, src.parent, to);
    if Below(s, to, s.dirents[src].child) {
      InsideIsDeeper(s, ps, src, qs, to);
    }
  }

  /** And a rename of a directory that the handler refuses would have kept the tree exactly
      when the target directory is reached from the source's directory by another name. */
  lemma RefusedKeepsTreeIff(s: Store, ps: seq<Name>, qs: seq<Name>, src: Key, dst: Key, keep: bool)
    requires Inv(s) && Tree(s) && CanRename(s, src, dst) && MovesDir(s, src, dst)
    requires Tracked(s, ps, src.parent, PathOf(ps)) && Tracked(s, qs, dst.parent, PathOf(qs))
    requires Refuses(PathOf(ps), PathOf(qs))
    ensures |ps| < |qs| && (Tree(Renamed(s, src, dst, keep)) <==> qs[|ps|] != src.name)
  {
    MoveKeepsTreeIff(s, src, dst, keep);
    RefusedInside(s, ps, qs, src, dst.parent);
  }

  lemma RefusedInside(s: Store, ps: seq<Name>, qs: seq<Name>, src: Key, to: Fileid)
    requires Inv(s) && src in s.dirents && s.dirents[src].kind.Dir?
    requires Tracked(s, ps, src.parent, PathOf(ps)) && Tracked(s, qs, to, PathOf(qs))
    requires Refuses(PathOf(ps), PathOf(qs))
    ensures |ps| < |qs| && (Below(s, to, s.dirents[src].child) <==> qs[|ps|] == src.name)
  {
    RefusesIff(ps, qs);
    SoundIsForest(s);
    InsideIff(s, ps, src, qs, to);
    Continues(ps, qs, src.name);
  }

  lemma Continues(ps: seq<Name>, qs: seq<Name>, name: Name)
    requires ps < qs
    ensures ps + [name] <= qs <==> qs[|ps|] == name
  {
    assert qs[..|ps| + 1] == ps + [qs[|ps|]];
    assert (ps + [name])[|ps|] == name;
  }

  lemma WalkToNested(s: Store)
    requires s.dirents == map[Key(ROOT, "a") := Dirent(3, Dir), Key(3, "b") := Dirent(4, Dir)]
    ensures Walk(s, ["a", "b"]) == At(4)
  {
    assert ["a"][..0] == [] && ["a", "b"][..1] == ["a"];
    assert Walk(s, ["a"]) == At(3);
  }

  lemma NestedPath()
    ensures PathOf(["a", "b"]) == "/a/b" && PathOf([]) == "/"
  {
    assert ["a"][..0] == [] && ["a", "b"][..1] == ["a"];
    assert PathOf(["a"]) == "/a";
  }

  /** A reachable state in which the handler, knowing both paths, lets `a` go to `a/b/c`. */
  lemma LoopPasses() returns (s: Store, s': Store)
    ensures Reachable(s) && Tree(s) && Reachable(s') && !Tree(s')
    ensures Step(s, Renaming(Key(ROOT, "a"), Key(4, "c"), false), s')
    ensures Tracked(s, [], ROOT, "/") && Tracked(s, ["a", "b"], 4, "/a/b") && !Refuses("/", "/a/b")
  {
    s, s' := LoopReached();
    WalkToNested(s);
    NestedPath();
    assert Components(["a", "b"]);
  }
}
