/** Is the directory graph still a tree?  The store's rename transaction never asks where
    the destination directory lies, so a run keeps every directory reachable from the root
    exactly as long as no directory is moved below itself.  Also: when deleting the row of
    an unlinked-but-open orphan is sound. */
module DirectoryTree {
  import opened Namespace
  import opened Catalogue
  import opened NamespaceRuns

  ghost predicate IsDir(s: Store, f: Fileid) {
    f in s.inodes && s.inodes[f].kind.Dir?
  }

  /** A climb through parent columns; only its last directory may be the root. */
  ghost predicate Ascent(s: Store, p: seq<Fileid>) {
    && |p| > 0
    && (forall i | 0 <= i < |p| :: IsDir(s, p[i]))
    && (forall i | 0 <= i < |p| - 1 :: p[i] != ROOT && s.inodes[p[i]].parent == p[i + 1])
  }

  ghost predicate Climbs(s: Store, p: seq<Fileid>, f: Fileid, m: Fileid) {
    Ascent(s, p) && p[0] == f && p[|p| - 1] == m
  }

  ghost predicate Below(s: Store, f: Fileid, m: Fileid) {
    exists p :: Climbs(s, p, f, m)
  }

  /** Every directory climbs to the root. */
  ghost predicate Tree(s: Store) {
    forall f | IsDir(s, f) :: Below(s, f, ROOT)
  }

  /** A directory that holds nothing is nobody's parent. */
  lemma ParentHolds(s: Store, f: Fileid)
    requires Inv(s) && IsDir(s, f) && f != ROOT
    ensures !IsEmptyDir(s.dirents, s.inodes[f].parent)
  {
    var names := Names(s.dirents, f);
    assert |names| == 1;
    var k :| k in names;
  }

  lemma EmptyOnlyAtStart(s: Store, p: seq<Fileid>, v: Fileid, i: nat)
    requires Inv(s) && Ascent(s, p) && IsEmptyDir(s.dirents, v) && 0 < i < |p|
    ensures p[i] != v
  {
    ParentHolds(s, p[i - 1]);
  }

  /** The directories and parent columns of `s'` are those of `s`, except that `v` may
      have gone and `m` may have been moved to `to`. */
  ghost predicate Reshaped(s: Store, s': Store, gone: set<Fileid>, m: Fileid, to: Fileid) {
    && (forall f :: IsDir(s', f) <==> IsDir(s, f) && f !in gone)
    && (forall f | IsDir(s', f) :: s'.inodes[f].parent == if f == m then to else s.inodes[f].parent)
  }

  lemma PathSurvives(s: Store, s': Store, gone: set<Fileid>, m: Fileid, to: Fileid, p: seq<Fileid>)
    requires Reshaped(s, s', gone, m, to) && Ascent(s, p)
    requires forall i | 0 <= i < |p| :: p[i] !in gone
    requires forall i | 0 <= i < |p| - 1 :: p[i] != m
    ensures Ascent(s', p)
  {
  }

  /** The part of a climb before it first meets `m`. */
  lemma {:induction false} UpTo(s: Store, p: seq<Fileid>, m: Fileid) returns (q: seq<Fileid>)
    requires Ascent(s, p) && m in p
    ensures Climbs(s, q, p[0], m) && q <= p
    ensures forall i | 0 <= i < |q| - 1 :: q[i] != m
  {
    if p[0] == m {
      q := [m];
    } else {
      assert Ascent(s, p[1..]);
      var r := UpTo(s, p[1..], m);
      q := [p[0]] + r;
    }
  }

  lemma Joined(s: Store, p: seq<Fileid>, q: seq<Fileid>)
    requires Ascent(s, p) && Ascent(s, q) && p[|p| - 1] != ROOT && s.inodes[p[|p| - 1]].parent == q[0]
    ensures Climbs(s, p + q, p[0], q[|q| - 1])
  {
  }

  /** The fresh climb of one directory after `m` moved to `to`. */
  lemma Reroute(s: Store, s': Store, gone: set<Fileid>, m: Fileid, to: Fileid, f: Fileid)
    requires Inv(s) && Tree(s) && Reshaped(s, s', gone, m, to) && IsDir(s', f) && IsDir(s', to) && m != ROOT
    requires forall v | v in gone :: IsEmptyDir(s.dirents, v)
    requires !Below(s, to, m) && IsDir(s', m)
    ensures Below(s', f, ROOT)
  {
    var p :| Climbs(s, p, f, ROOT);
    var q :| Climbs(s, q, to, ROOT);
    Avoids(s, s', gone, m, to, q);
    if m in p {
      var r := UpTo(s, p, m);
      StaysOut(s, s', gone, m, to, r);
      Joined(s', r, q);
    } else {
      StaysOut(s, s', gone, m, to, p);
      assert Climbs(s', p, f, ROOT);
    }
  }

  lemma StaysOut(s: Store, s': Store, gone: set<Fileid>, m: Fileid, to: Fileid, p: seq<Fileid>)
    requires Inv(s) && Reshaped(s, s', gone, m, to) && Ascent(s, p) && p[0] !in gone
    requires forall v | v in gone :: IsEmptyDir(s.dirents, v)
    requires forall i | 0 <= i < |p| - 1 :: p[i] != m
    ensures Ascent(s', p)
  {
    forall i | 0 <= i < |p| ensures p[i] !in gone {
      if i > 0 && p[i] in gone {
        EmptyOnlyAtStart(s, p, p[i], i);
      }
    }
    PathSurvives(s, s', gone, m, to, p);
  }

  /** A climb from a place not below `m` never meets `m`. */
  lemma Avoids(s: Store, s': Store, gone: set<Fileid>, m: Fileid, to: Fileid, q: seq<Fileid>)
    requires Inv(s) && Reshaped(s, s', gone, m, to) && Ascent(s, q) && q[0] == to && IsDir(s', to)
    requires forall v | v in gone :: IsEmptyDir(s.dirents, v)
    requires !Below(s, to, m)
    ensures Ascent(s', q)
  {
    if m in q {
      var r := UpTo(s, q, m);
      assert false;
    }
    StaysOut(s, s', gone, m, to, q);
  }

  /** A climb that starts on a loop stays on it. */
  lemma {:induction false} LoopTraps(s: Store, loop: seq<Fileid>, p: seq<Fileid>)
    requires Ascent(s, loop) && loop[|loop| - 1] != ROOT && s.inodes[loop[|loop| - 1]].parent == loop[0]
    requires Ascent(s, p) && p[0] in loop
    ensures p[|p| - 1] != ROOT
  {
    if |p| > 1 {
      var i :| 0 <= i < |loop| && loop[i] == p[0];
      assert p[1] == if i + 1 < |loop| then loop[i + 1] else loop[0];
      LoopTraps(s, loop, p[1..]);
    }
  }

  /** Moving `m` to a place below it cuts the loop off from the root. */
  lemma CutOff(s: Store, s': Store, gone: set<Fileid>, m: Fileid, to: Fileid)
    requires Inv(s) && Reshaped(s, s', gone, m, to) && IsDir(s', to) && IsDir(s', m) && m != ROOT
    requires forall v | v in gone :: IsEmptyDir(s.dirents, v)
    requires Below(s, to, m)
    ensures !Below(s', m, ROOT)
  {
    var p :| Climbs(s, p, to, m);
    var loop := UpTo(s, p, m);
    StaysOut(s, s', gone, m, to, loop);
    if Below(s', m, ROOT) {
      var q :| Climbs(s', q, m, ROOT);
      LoopTraps(s', loop, q);
      assert false;
    }
  }

  lemma ReshapedTree(s: Store, s': Store, gone: set<Fileid>, m: Fileid, to: Fileid)
    requires Inv(s) && Tree(s) && Reshaped(s, s', gone, m, to) && IsDir(s', to) && IsDir(s', m) && m != ROOT
    requires forall v | v in gone :: IsEmptyDir(s.dirents, v)
    ensures Tree(s') <==> !Below(s, to, m)
  {
    if Below(s, to, m) {
      CutOff(s, s', gone, m, to);
    } else {
      forall f | IsDir(s', f) ensures Below(s', f, ROOT) {
        Reroute(s, s', gone, m, to, f);
      }
    }
  }

  ghost predicate MovesDir(s: Store, src: Key, dst: Key) {
    src in s.dirents && s.dirents[src].kind.Dir? && src.parent != dst.parent
  }

  lemma RenamedReshapes(s: Store, src: Key, dst: Key, keep: bool)
    requires Inv(s) && CanRename(s, src, dst) && MovesDir(s, src, dst)
    ensures var gone := if dst in s.dirents then {s.dirents[dst].child} else {};
      && Reshaped(s, Renamed(s, src, dst, keep), gone, s.dirents[src].child, dst.parent)
      && (forall v | v in gone :: IsEmptyDir(s.dirents, v))
      && dst.parent !in gone
  {
    var s' := Renamed(s, src, dst, keep);
    var gone := if dst in s.dirents then {s.dirents[dst].child} else {};
    forall f ensures IsDir(s', f) <==> IsDir(s, f) && f !in gone {
      if f in s.inodes {
        RenamedRowStays(s, src, dst, keep, f);
      }
    }
  }

  /** Renaming a directory into another directory keeps the tree exactly when the target
      directory does not lie in the moved one. */
  lemma MoveKeepsTreeIff(s: Store, src: Key, dst: Key, keep: bool)
    requires Inv(s) && Tree(s) && CanRename(s, src, dst) && MovesDir(s, src, dst)
    ensures Tree(Renamed(s, src, dst, keep)) <==> !Below(s, dst.parent, s.dirents[src].child)
  {
    RenamedReshapes(s, src, dst, keep);
    var gone := if dst in s.dirents then {s.dirents[dst].child} else {};
    ReshapedTree(s, Renamed(s, src, dst, keep), gone, s.dirents[src].child, dst.parent);
  }

  // ---------------------------------------------------------------------------
  // Whole runs
  // ---------------------------------------------------------------------------

  /** No directory moved (the root's own parent column is never followed). */
  ghost predicate Unmoved(s: Store, s': Store, gone: set<Fileid>) {
    ROOT in s.inodes && Reshaped(s, s', gone, ROOT, s.inodes[ROOT].parent)
  }

  lemma UnmovedTree(s: Store, s': Store, gone: set<Fileid>)
    requires Inv(s) && Tree(s) && Unmoved(s, s', gone) && ROOT !in gone
    requires forall v | v in gone :: IsEmptyDir(s.dirents, v)
    ensures Tree(s')
  {
    forall f | IsDir(s', f) ensures Below(s', f, ROOT) {
      var p :| Climbs(s, p, f, ROOT);
      StaysOut(s, s', gone, ROOT, s.inodes[ROOT].parent, p);
      assert Climbs(s', p, f, ROOT);
    }
  }

  lemma CreatedDirs(s: Store, k: Key, fid: Fileid, kind: Kind, ds: set<DsId>, f: Fileid)
    requires CanCreate(s, k, fid) && s.inodes.Keys <= s.used
    ensures var s' := Created(s, k, fid, kind, ds);
      && (IsDir(s, f) ==> IsDir(s', f) && s'.inodes[f].parent == s.inodes[f].parent)
      && (IsDir(s', f) && f != fid ==> IsDir(s, f))
      && s'.inodes[fid].parent == k.parent
  {
  }

  lemma CreatedClimb(s: Store, k: Key, fid: Fileid, kind: Kind, ds: set<DsId>, p: seq<Fileid>)
    requires CanCreate(s, k, fid) && s.inodes.Keys <= s.used && Ascent(s, p)
    ensures Ascent(Created(s, k, fid, kind, ds), p)
  {
    var s' := Created(s, k, fid, kind, ds);
    forall i | 0 <= i < |p| ensures IsDir(s', p[i]) && s'.inodes[p[i]].parent == s.inodes[p[i]].parent {
      CreatedDirs(s, k, fid, kind, ds, p[i]);
    }
  }

  lemma CreatedTree(s: Store, k: Key, fid: Fileid, kind: Kind, ds: set<DsId>)
    requires CanCreate(s, k, fid) && s.inodes.Keys <= s.used && Tree(s) && fid != ROOT
    ensures Tree(Created(s, k, fid, kind, ds))
  {
    var s' := Created(s, k, fid, kind, ds);
    forall f | IsDir(s', f) ensures Below(s', f, ROOT) {
      CreatedDirs(s, k, fid, kind, ds, f);
      var g := if f == fid then k.parent else f;
      assert IsDir(s, g);
      var p :| Climbs(s, p, g, ROOT);
      CreatedClimb(s, k, fid, kind, ds, p);
      if f == fid {
        assert Ascent(s', [fid]);
        Joined(s', [fid], p);
      } else {
        assert Climbs(s', p, f, ROOT);
      }
    }
  }

  lemma UnlinkedUnmoved(s: Store, k: Key, rows: seq<GcRow>, gone: set<Fileid>)
    requires NamesResolve(s) && CanUnlink(s, k)
    requires gone == if s.dirents[k].kind.Dir? then {s.dirents[k].child} else {}
    ensures Unmoved(s, Unlinked(s, k, rows), gone)
  {
  }

  lemma UnlinkedTree(s: Store, k: Key, rows: seq<GcRow>)
    requires Inv(s) && Tree(s) && CanUnlink(s, k)
    ensures Tree(Unlinked(s, k, rows))
  {
    var gone := if s.dirents[k].kind.Dir? then {s.dirents[k].child} else {};
    UnlinkedUnmoved(s, k, rows, gone);
    UnmovedTree(s, Unlinked(s, k, rows), gone);
  }

  lemma RenamedStill(s: Store, src: Key, dst: Key, keep: bool, f: Fileid)
    requires Inv(s) && CanRename(s, src, dst) && !MovesDir(s, src, dst)
    ensures var gone := if dst in s.dirents && s.dirents[dst].kind.Dir? then {s.dirents[dst].child} else {};
      var s' := Renamed(s, src, dst, keep);
      && (IsDir(s', f) <==> IsDir(s, f) && f !in gone)
      && (IsDir(s', f) ==> s'.inodes[f].parent == s.inodes[f].parent)
  {
    if f in s.inodes {
      RenamedRowStays(s, src, dst, keep, f);
    }
  }

  lemma RenamedUnmoved(s: Store, src: Key, dst: Key, keep: bool, gone: set<Fileid>)
    requires Inv(s) && CanRename(s, src, dst) && !MovesDir(s, src, dst)
    requires gone == if dst in s.dirents && s.dirents[dst].kind.Dir? then {s.dirents[dst].child} else {}
    ensures Unmoved(s, Renamed(s, src, dst, keep), gone)
  {
    var s' := Renamed(s, src, dst, keep);
    forall f
      ensures IsDir(s', f) <==> IsDir(s, f) && f !in gone
      ensures IsDir(s', f) ==> s'.inodes[f].parent == s.inodes[f].parent
    {
      RenamedStill(s, src, dst, keep, f);
    }
  }

  lemma RenamedInPlaceTree(s: Store, src: Key, dst: Key, keep: bool)
    requires Inv(s) && Tree(s) && CanRename(s, src, dst) && !MovesDir(s, src, dst)
    ensures Tree(Renamed(s, src, dst, keep))
  {
    var gone := if dst in s.dirents && s.dirents[dst].kind.Dir? then {s.dirents[dst].child} else {};
    RenamedUnmoved(s, src, dst, keep, gone);
    UnmovedTree(s, Renamed(s, src, dst, keep), gone);
  }

  /** The one way to lose a directory: moving it below itself. */
  ghost predicate Loops(s: Store, op: Op) {
    && op.Renaming? && MovesDir(s, op.src, op.dst)
    && Below(s, op.dst.parent, s.dirents[op.src].child)
  }

  lemma StepKeepsTreeIff(s: Store, op: Op, s': Store)
    requires Inv(s) && Tree(s) && Step(s, op, s')
    ensures Tree(s') <==> !Loops(s, op)
  {
    match op
    case Creating(k, fid, kind, ds) => CreatedTree(s, k, fid, kind, ds);
    case Linking(k, target) =>
      assert Unmoved(s, s', {});
      UnmovedTree(s, s', {});
    case Unlinking(k, rows) => UnlinkedTree(s, k, rows);
    case Renaming(src, dst, keep) =>
      if MovesDir(s, src, dst) {
        MoveKeepsTreeIff(s, src, dst, keep);
      } else {
        RenamedInPlaceTree(s, src, dst, keep);
      }
  }

  lemma {:induction false} RunKeepsTree(trace: seq<Store>, ops: seq<Op>, i: nat)
    requires Run(trace, ops) && trace[0] == Bootstrap() && i < |trace|
    requires forall j | 0 <= j < i :: !Loops(trace[j], ops[j])
    ensures Tree(trace[i])
    ensures i < |ops| && Loops(trace[i], ops[i]) ==> !Tree(trace[i + 1])
  {
    if i == 0 {
      assert Climbs(trace[0], [ROOT], ROOT, ROOT);
    } else {
      RunKeepsTree(trace, ops, i - 1);
      RunKeepsInv(trace, ops, i - 1);
      StepKeepsTreeIff(trace[i - 1], ops[i - 1], trace[i]);
    }
    if i < |ops| {
      RunKeepsInv(trace, ops, i);
      StepKeepsTreeIff(trace[i], ops[i], trace[i + 1]);
    }
  }

  lemma NestedBelow(s: Store)
    requires NamesResolve(s) && OneNamePerDir(s)
    requires s.dirents == map[Key(ROOT, "a") := Dirent(3, Dir), Key(3, "b") := Dirent(4, Dir)]
    ensures Below(s, 4, 3) && IsDir(s, 4)
  {
    assert Key(3, "b") in s.dirents && Key(ROOT, "a") in s.dirents;
    assert Climbs(s, [4, 3], 4, 3);
  }

  lemma LoopAhead(s: Store)
    requires Inv(s) && Tree(s)
    requires s.dirents == map[Key(ROOT, "a") := Dirent(3, Dir), Key(3, "b") := Dirent(4, Dir)]
    ensures CanRename(s, Key(ROOT, "a"), Key(4, "c"))
    ensures !Tree(Renamed(s, Key(ROOT, "a"), Key(4, "c"), false))
  {
    NestedBelow(s);
    MoveKeepsTreeIff(s, Key(ROOT, "a"), Key(4, "c"), false);
  }

  /** A state with one child directory "a" of the root, and one with "a/b". */
  lemma OneDir() returns (s: Store)
    ensures Reachable(s) && Inv(s) && Tree(s)
    ensures s.dirents == map[Key(ROOT, "a") := Dirent(3, Dir)] && s.used == {ROOT, 3}
  {
    var s0 := Bootstrap();
    ReachableStart();
    s := Created(s0, Key(ROOT, "a"), 3, Dir, {});
    ReachableStep(s0, Creating(Key(ROOT, "a"), 3, Dir, {}), s);
    assert Climbs(s0, [ROOT], ROOT, ROOT);
    CreatedTree(s0, Key(ROOT, "a"), 3, Dir, {});
  }

  lemma NestedDirs() returns (s: Store)
    ensures Reachable(s) && Inv(s) && Tree(s)
    ensures s.dirents == map[Key(ROOT, "a") := Dirent(3, Dir), Key(3, "b") := Dirent(4, Dir)]
  {
    var s1 := OneDir();
    assert Key(ROOT, "a") in s1.dirents;
    s := Created(s1, Key(3, "b"), 4, Dir, {});
    ReachableStep(s1, Creating(Key(3, "b"), 4, Dir, {}), s);
    CreatedTree(s1, Key(3, "b"), 4, Dir, {});
  }

  /** The store accepts a run that loses a directory: mkdir a, mkdir a/b, rename a to a/b/c. */
  lemma LoopReached() returns (s: Store, s': Store)
    ensures Reachable(s) && Tree(s) && Reachable(s') && !Tree(s')
    ensures Step(s, Renaming(Key(ROOT, "a"), Key(4, "c"), false), s')
    ensures s.dirents == map[Key(ROOT, "a") := Dirent(3, Dir), Key(3, "b") := Dirent(4, Dir)]
  {
    s := NestedDirs();
    LoopAhead(s);
    s' := Renamed(s, Key(ROOT, "a"), Key(4, "c"), false);
    ReachableStep(s, Renaming(Key(ROOT, "a"), Key(4, "c"), false), s');
  }

  // ---------------------------------------------------------------------------
  // Finalizing an orphan
  // ---------------------------------------------------------------------------

  /** After the last close of an orphan: queue its objects, drop its stripe rows and
      delete its row, with no look at the link count. */
  function Finalized(s: Store, f: Fileid, rows: seq<GcRow>): Store {
    s.(inodes := s.inodes - {f}, stripes := s.stripes - {f}, gc := s.gc + rows)
  }

  lemma FinalizedResolves(s: Store, f: Fileid, rows: seq<GcRow>)
    requires NamesResolve(s) && f in s.inodes && !s.inodes[f].kind.Dir?
    requires forall k | k in s.dirents :: s.dirents[k].child != f
    ensures NamesResolve(Finalized(s, f, rows))
  {
  }

  lemma FinalizedCounts(s: Store, f: Fileid, rows: seq<GcRow>)
    requires CountsExact(s)
    ensures CountsExact(Finalized(s, f, rows))
  {
  }

  lemma FinalizedOneName(s: Store, f: Fileid, rows: seq<GcRow>)
    requires OneNamePerDir(s)
    ensures OneNamePerDir(Finalized(s, f, rows))
  {
  }

  lemma FinalizedSound(s: Store, f: Fileid, rows: seq<GcRow>)
    requires Inv(s) && f in s.inodes && !s.inodes[f].kind.Dir?
    requires forall k | k in s.dirents :: s.dirents[k].child != f
    ensures Inv(Finalized(s, f, rows))
  {
    var s' := Finalized(s, f, rows);
    FinalizedResolves(s, f, rows);
    FinalizedCounts(s, f, rows);
    FinalizedOneName(s, f, rows);
  }

  /** Sound exactly when nothing names the row, which its link count would have told. */
  lemma FinalizeSoundIff(s: Store, f: Fileid, rows: seq<GcRow>)
    requires Inv(s) && f in s.inodes && !s.inodes[f].kind.Dir?
    ensures Inv(Finalized(s, f, rows)) <==> s.inodes[f].nlink == 0
  {
    var names := Names(s.dirents, f);
    assert s.inodes[f].nlink == |names|;
    if names == {} {
      forall k | k in s.dirents ensures s.dirents[k].child != f {
        assert s.dirents[k].child == f ==> k in names;
      }
      FinalizedSound(s, f, rows);
    } else {
      var k :| k in names;
      assert Finalized(s, f, rows).dirents[k].child == f;
    }
  }

  /** A displaced regular file kept open survives without a name. */
  lemma OrphanKept(s: Store, src: Key, dst: Key)
    requires NamesResolve(s) && CanRename(s, src, dst) && dst in s.dirents && s.dirents[dst].kind.Reg?
    requires Names(Renamed(s, src, dst, true).dirents, s.dirents[dst].child) == {}
    ensures var v := s.dirents[dst].child; var s' := Renamed(s, src, dst, true);
      v in s'.inodes && s'.inodes[v].orphan && s'.inodes[v].kind.Reg?
  {
  }

  lemma Revived(s: Store, f: Fileid, k: Key)
    requires Inv(s) && CanLink(s, k, f) && s.inodes[f].orphan
    ensures var s' := Linked(s, k, f); f in s'.inodes && s'.inodes[f].orphan && !Inv(Finalized(s', f, []))
  {
    LinkedKeepsInv(s, k, f);
    var s' := Linked(s, k, f);
    assert k in Names(s'.dirents, f);
    FinalizeSoundIff(s', f, []);
  }

  lemma OneFile() returns (s: Store)
    ensures Reachable(s) && Inv(s)
    ensures s.dirents == map[Key(ROOT, "a") := Dirent(3, Reg)] && s.used == {ROOT, 3}
  {
    var s0 := Bootstrap();
    ReachableStart();
    s := Created(s0, Key(ROOT, "a"), 3, Reg, {});
    ReachableStep(s0, Creating(Key(ROOT, "a"), 3, Reg, {}), s);
  }

  lemma TwoFiles() returns (s: Store)
    ensures Reachable(s) && Inv(s)
    ensures s.dirents == map[Key(ROOT, "a") := Dirent(3, Reg), Key(ROOT, "b") := Dirent(4, Reg)]
  {
    var s1 := OneFile();
    s := Created(s1, Key(ROOT, "b"), 4, Reg, {});
    ReachableStep(s1, Creating(Key(ROOT, "b"), 4, Reg, {}), s);
  }

  lemma Overwritten(s: Store, a: Key, b: Key)
    requires NamesResolve(s) && a != b && a.parent == ROOT == b.parent
    requires s.dirents == map[a := Dirent(3, Reg), b := Dirent(4, Reg)]
    ensures CanRename(s, b, a)
    ensures var s' := Renamed(s, b, a, true);
      s'.dirents == map[a := Dirent(4, Reg)] && 3 in s'.inodes && s'.inodes[3].orphan && s'.inodes[3].kind.Reg?
  {
    assert a in s.dirents && b in s.dirents;
    var s' := Renamed(s, b, a, true);
    assert s'.dirents == map[a := Dirent(4, Reg)];
    assert Names(s'.dirents, 3) == {};
    OrphanKept(s, b, a);
  }

  lemma OneOrphan() returns (s: Store)
    ensures Reachable(s) && Inv(s) && CanLink(s, Key(ROOT, "c"), 3) && s.inodes[3].orphan
  {
    var a, b := Key(ROOT, "a"), Key(ROOT, "b");
    var s2 := TwoFiles();
    Overwritten(s2, a, b);
    s := Renamed(s2, b, a, true);
    ReachableStep(s2, Renaming(b, a, true), s);
  }

  /** A link to an orphan is accepted and revives it, so finalizing can come too late. */
  lemma RevivedOrphanReached() returns (s: Store)
    ensures Reachable(s) && 3 in s.inodes && s.inodes[3].orphan && !Inv(Finalized(s, 3, []))
  {
    var s3 := OneOrphan();
    s := Linked(s3, Key(ROOT, "c"), 3);
    ReachableStep(s3, Linking(Key(ROOT, "c"), 3), s);
    Revived(s3, 3, Key(ROOT, "c"));
  }
}
