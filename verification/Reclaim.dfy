/** Reclaiming data-server objects: every object a data server holds for some file is
    either referenced by the stripe map of a live file or covered by exactly one queued GC
    row.  Which operations keep this, exactly. */
module Reclaim {
  import opened Namespace
  import opened Catalogue
  import opened NamespaceRuns

  /** `held` is the ground truth: which data server still holds part of which file; `swept`
      are the queued rows whose objects have been destroyed. */
  datatype World = World(store: Store, held: set<GcRow>, swept: set<GcRow>)

  function StripeSet(s: Store, f: Fileid): set<DsId> {
    if f in s.stripes then s.stripes[f] else {}
  }

  /** Referenced by the stripe map of a file that exists. */
  predicate Live(s: Store, r: GcRow) {
    r.fileid in s.inodes && r.ds in StripeSet(s, r.fileid)
  }

  function Queued(s: Store, r: GcRow): nat {
    multiset(s.gc)[r]
  }

  /** A held object has one live reference or one queued row, never both and never
      neither; nothing else is referenced or queued, but for a row just worked off. */
  ghost predicate CoveredAt(w: World, r: GcRow) {
    if r in w.held then Queued(w.store, r) == (if Live(w.store, r) then 0 else 1) && r !in w.swept
    else !Live(w.store, r) && Queued(w.store, r) == (if r in w.swept then 1 else 0)
  }

  /** Only files that are gone have queued rows. */
  ghost predicate QueuedGone(s: Store) {
    forall r | r in s.gc :: r.fileid in s.used && r.fileid !in s.inodes
  }

  ghost predicate Covered(w: World) {
    && (forall r :: CoveredAt(w, r))
    && QueuedGone(w.store)
    && (forall r | r in w.held + w.swept :: r.fileid in w.store.used)
    && w.store.stripes.Keys <= w.store.used
    && (forall f | f in w.store.inodes && !w.store.inodes[f].kind.Reg? :: StripeSet(w.store, f) == {})
  }

  /** One row for each data server of the file and no other row. */
  ghost predicate OneRowEach(rows: seq<GcRow>, f: Fileid, ds: set<DsId>) {
    forall r :: RightAt(rows, f, ds, r)
  }

  ghost predicate RightAt(rows: seq<GcRow>, f: Fileid, ds: set<DsId>, r: GcRow) {
    multiset(rows)[r] == if r.fileid == f && r.ds in ds then 1 else 0
  }

  ghost predicate LastName?(s: Store, k: Key)
    requires k in s.dirents
  {
    s.dirents[k].kind.Dir? || Names(s.dirents - {k}, s.dirents[k].child) == {}
  }

  lemma QueuedMore(s: Store, rows: seq<GcRow>, r: GcRow)
    ensures multiset(s.gc + rows)[r] == Queued(s, r) + multiset(rows)[r]
  {
  }

  lemma UnlinkedLive(s: Store, k: Key, rows: seq<GcRow>, r: GcRow)
    requires Inv(s) && CanUnlink(s, k)
    ensures Live(Unlinked(s, k, rows), r) <==>
              Live(s, r) && !(LastName?(s, k) && r.fileid == s.dirents[k].child)
    ensures Queued(Unlinked(s, k, rows), r) == Queued(s, r) + (if LastName?(s, k) then multiset(rows)[r] else 0)
  {
    QueuedMore(s, rows, r);
  }

  /** A final unlink keeps the coverage exactly when its fused rows are one per data
      server of the file; a non-final one always does. */
  lemma UnlinkedCoversIff(w: World, k: Key, rows: seq<GcRow>)
    requires Inv(w.store) && Covered(w) && CanUnlink(w.store, k)
    ensures Covered(w.(store := Unlinked(w.store, k, rows))) <==>
      (LastName?(w.store, k) ==> OneRowEach(rows, w.store.dirents[k].child,
          StripeSet(w.store, w.store.dirents[k].child)))
  {
    var s, f := w.store, w.store.dirents[k].child;
    var w' := w.(store := Unlinked(s, k, rows));
    forall r ensures CoveredAt(w', r) <==> (LastName?(s, k) ==> RightAt(rows, f, StripeSet(s, f), r)) {
      assert CoveredAt(w, r);
      UnlinkedAt(w, k, rows, r);
    }
    if forall r :: CoveredAt(w', r) {
      UnlinkedRest(w, k, rows);
    }
  }

  lemma UnlinkedAt(w: World, k: Key, rows: seq<GcRow>, r: GcRow)
    requires Inv(w.store) && CoveredAt(w, r) && CanUnlink(w.store, k)
    ensures var f := w.store.dirents[k].child;
      CoveredAt(w.(store := Unlinked(w.store, k, rows)), r) <==>
        (LastName?(w.store, k) ==> RightAt(rows, f, StripeSet(w.store, f), r))
  {
    UnlinkedLive(w.store, k, rows, r);
  }

  lemma UnlinkedRest(w: World, k: Key, rows: seq<GcRow>)
    requires Covered(w) && k in w.store.dirents && NamesResolve(w.store) && w.store.inodes.Keys <= w.store.used
    requires forall r :: CoveredAt(w.(store := Unlinked(w.store, k, rows)), r)
    requires LastName?(w.store, k) ==>
               OneRowEach(rows, w.store.dirents[k].child, StripeSet(w.store, w.store.dirents[k].child))
    ensures Covered(w.(store := Unlinked(w.store, k, rows)))
  {
    UnlinkedStripes(w.store, k, rows);
    UnlinkedQueue(w.store, k, rows);
  }

  lemma UnlinkedQueue(s: Store, k: Key, rows: seq<GcRow>)
    requires QueuedGone(s) && k in s.dirents && s.dirents[k].child in s.inodes && s.inodes.Keys <= s.used
    requires LastName?(s, k) ==> OneRowEach(rows, s.dirents[k].child, StripeSet(s, s.dirents[k].child))
    ensures QueuedGone(Unlinked(s, k, rows))
  {
    var s' := Unlinked(s, k, rows);
    forall r | r in s'.gc ensures r.fileid in s'.used && r.fileid !in s'.inodes {
      if r !in s.gc {
        assert r in rows && multiset(rows)[r] > 0;
        assert RightAt(rows, s.dirents[k].child, StripeSet(s, s.dirents[k].child), r);
      }
    }
  }

  lemma UnlinkedStripes(s: Store, k: Key, rows: seq<GcRow>)
    requires k in s.dirents
    requires forall f | f in s.inodes && !s.inodes[f].kind.Reg? :: StripeSet(s, f) == {}
    ensures var s' := Unlinked(s, k, rows);
      && s'.used == s.used && s'.stripes.Keys <= s.stripes.Keys
      && (forall f | f in s'.inodes && !s'.inodes[f].kind.Reg? :: StripeSet(s', f) == {})
  {
  }

  /** The rename will take the displaced object's row away: a directory, or an object
      with no other name that is not kept as an open orphan. */
  ghost predicate Drops(s: Store, dst: Key, keep: bool) {
    && dst in s.dirents
    && (s.dirents[dst].kind.Dir? ||
        (Names(s.dirents, s.dirents[dst].child) == {dst} && !(keep && s.dirents[dst].kind.Reg?)))
  }

  lemma RenamedLive(s: Store, src: Key, dst: Key, keep: bool, r: GcRow)
    requires Inv(s) && CanRename(s, src, dst)
    ensures Live(Renamed(s, src, dst, keep), r) <==>
              Live(s, r) && !(Drops(s, dst, keep) && r.fileid == s.dirents[dst].child)
  {
    if r.fileid in s.inodes {
      RenamedRowStays(s, src, dst, keep, r.fileid);
      RenamedNames(s.dirents, src, dst, r.fileid);
      if dst in s.dirents {
        LastName(s.dirents, dst);
      }
    }
  }

  /** The rename transaction touches neither stripe rows nor the queue, so it keeps the
      coverage exactly when the object it drops holds no data-server objects. */
  lemma RenamedCoversIff(w: World, src: Key, dst: Key, keep: bool)
    requires Inv(w.store) && Covered(w) && CanRename(w.store, src, dst)
    ensures Covered(w.(store := Renamed(w.store, src, dst, keep))) <==>
      (Drops(w.store, dst, keep) ==> StripeSet(w.store, w.store.dirents[dst].child) == {})
  {
    var s := w.store;
    var w' := w.(store := Renamed(s, src, dst, keep));
    forall r ensures CoveredAt(w', r) <==>
      !(Live(s, r) && Drops(s, dst, keep) && r.fileid == s.dirents[dst].child)
    {
      RenamedLive(s, src, dst, keep, r);
      assert CoveredAt(w, r);
    }
    RenamedStripes(s, src, dst, keep);
    if Drops(s, dst, keep) {
      var v := s.dirents[dst].child;
      if d :| d in StripeSet(s, v) {
        assert Live(s, GcRow(v, d));
      }
    }
  }

  lemma RenamedStripes(s: Store, src: Key, dst: Key, keep: bool)
    requires Inv(s) && CanRename(s, src, dst)
    requires forall f | f in s.inodes && !s.inodes[f].kind.Reg? :: StripeSet(s, f) == {}
    ensures var s' := Renamed(s, src, dst, keep);
      forall f | f in s'.inodes && !s'.inodes[f].kind.Reg? :: StripeSet(s', f) == {}
  {
    var s' := Renamed(s, src, dst, keep);
    forall f | f in s'.inodes && !s'.inodes[f].kind.Reg? ensures StripeSet(s', f) == {} {
      RenamedRowStays(s, src, dst, keep, f);
    }
  }

  /** The objects a create leaves on the data servers. */
  ghost function NewlyHeld(fid: Fileid, kind: Kind, ds: set<DsId>): set<GcRow> {
    if kind.Reg? then set d | d in ds :: GcRow(fid, d) else {}
  }

  lemma CreatedCovers(w: World, k: Key, fid: Fileid, kind: Kind, ds: set<DsId>)
    requires Inv(w.store) && Covered(w) && CanCreate(w.store, k, fid)
    ensures Covered(w.(store := Created(w.store, k, fid, kind, ds), held := w.held + NewlyHeld(fid, kind, ds)))
  {
    var s := w.store;
    var w' := w.(store := Created(s, k, fid, kind, ds), held := w.held + NewlyHeld(fid, kind, ds));
    forall r ensures CoveredAt(w', r) {
      assert CoveredAt(w, r);
      CreatedLive(s, k, fid, kind, ds, r);
    }
    CreatedStripes(s, k, fid, kind, ds);
  }

  lemma CreatedLive(s: Store, k: Key, fid: Fileid, kind: Kind, ds: set<DsId>, r: GcRow)
    requires s.inodes.Keys <= s.used && CanCreate(s, k, fid) && fid !in s.stripes
    ensures Live(Created(s, k, fid, kind, ds), r) <==> Live(s, r) || r in NewlyHeld(fid, kind, ds)
    ensures r in NewlyHeld(fid, kind, ds) ==> r.fileid == fid
  {
  }

  lemma CreatedStripes(s: Store, k: Key, fid: Fileid, kind: Kind, ds: set<DsId>)
    requires s.inodes.Keys <= s.used && CanCreate(s, k, fid) && fid !in s.stripes
    requires forall f | f in s.inodes && !s.inodes[f].kind.Reg? :: StripeSet(s, f) == {}
    ensures var s' := Created(s, k, fid, kind, ds);
      forall f | f in s'.inodes && !s'.inodes[f].kind.Reg? :: StripeSet(s', f) == {}
  {
  }

  lemma LinkedCovers(w: World, k: Key, target: Fileid)
    requires Covered(w) && CanLink(w.store, k, target)
    ensures Covered(w.(store := Linked(w.store, k, target)))
  {
    var w' := w.(store := Linked(w.store, k, target));
    forall r ensures CoveredAt(w', r) {
      assert CoveredAt(w, r);
    }
  }

  /** The GC worker destroys the object of a queued row (or finds it gone). */
  ghost predicate Destroys(w: World, i: nat, w': World) {
    i < |w.store.gc| && w' == w.(held := w.held - {w.store.gc[i]}, swept := w.swept + {w.store.gc[i]})
  }

  /** It takes the row off the queue, and with it any stripe map of the file that is left. */
  function TakenOff(w: World, i: nat): World
    requires i < |w.store.gc|
  {
    var r := w.store.gc[i];
    w.(store := w.store.(gc := Without(w.store.gc, i), stripes := w.store.stripes - {r.fileid}), swept := w.swept - {r})
  }

  function Without(gc: seq<GcRow>, i: nat): seq<GcRow>
    requires i < |gc|
  {
    gc[..i] + gc[i + 1..]
  }

  lemma WithoutOne(gc: seq<GcRow>, i: nat)
    requires i < |gc|
    ensures multiset(gc) == multiset(Without(gc, i)) + multiset{gc[i]}
    ensures forall r | r in Without(gc, i) :: r in gc
  {
    assert gc == gc[..i] + [gc[i]] + gc[i + 1..];
  }

  lemma DestroyCovers(w: World, i: nat, w': World)
    requires Covered(w) && Destroys(w, i, w')
    ensures Covered(w')
  {
    var x := w.store.gc[i];
    assert CoveredAt(w, x) && multiset(w.store.gc)[x] > 0;
    forall r ensures CoveredAt(w', r) {
      assert CoveredAt(w, r);
    }
  }

  lemma TakenOffAt(w: World, i: nat, r: GcRow)
    requires i < |w.store.gc| && CoveredAt(w, r)
    requires CoveredAt(w, w.store.gc[i]) && w.store.gc[i].fileid !in w.store.inodes
    ensures CoveredAt(TakenOff(w, i), r) <==> !(r == w.store.gc[i] && r in w.held)
  {
    WithoutOne(w.store.gc, i);
    assert multiset(w.store.gc)[w.store.gc[i]] > 0;
  }

  /** Taking a row off the queue keeps the coverage if and only if its object is gone. */
  lemma TakenOffCoversIff(w: World, i: nat)
    requires Covered(w) && i < |w.store.gc|
    ensures Covered(TakenOff(w, i)) <==> w.store.gc[i] !in w.held
  {
    var x := w.store.gc[i];
    assert x in w.store.gc && CoveredAt(w, x);
    forall r ensures CoveredAt(TakenOff(w, i), r) <==> !(r == x && r in w.held) {
      assert CoveredAt(w, r);
      TakenOffAt(w, i, r);
    }
    WithoutOne(w.store.gc, i);
  }

  // ---------------------------------------------------------------------------
  // Rows planned from an old snapshot
  // ---------------------------------------------------------------------------

  /** What op_remove derives from the state it reads: the child, its link count and, for
      the last link of a regular file, one row per data server of its stripe map. */
  ghost predicate RemovePlanned(s: Store, k: Key, p: RemovePlan) {
    && Names?(s, k, p.child) && p.child in s.inodes
    && p.kind == s.inodes[p.child].kind && p.nlink == s.inodes[p.child].nlink
    && (if p.kind.Reg? && p.nlink <= 1 then OneRowEach(p.rows, p.child, StripeSet(s, p.child)) else p.rows == [])
  }

  /** The stripe map of a file stays what it was created with for as long as it lives. */
  ghost predicate StripesKept(s: Store, f: Fileid, ds: set<DsId>) {
    f in s.used && (f in s.inodes ==> StripeSet(s, f) == ds)
  }

  lemma StepStripes(s: Store, op: Op, s': Store, f: Fileid, ds: set<DsId>)
    requires s.inodes.Keys <= s.used && Step(s, op, s') && StripesKept(s, f, ds)
    ensures StripesKept(s', f, ds)
  {
  }

  // ---------------------------------------------------------------------------
  // Namespace operations and the GC worker
  // ---------------------------------------------------------------------------

  /** `mounted` are the data servers mounted on the host of the worker.  A row of any other
      data server is dropped from the queue. */
  datatype Event =
    | Namespace(op: Op)
    | Destroy(i: nat, mounted: set<DsId>)
    | Dequeue(i: nat)
    | Drop(i: nat, mounted: set<DsId>)

  /** The operations that lose nothing: final unlinks whose GC rows are those of the stripe
      map, and renames that drop no striped file. */
  ghost predicate Tidy(s: Store, op: Op) {
    match op
    case Unlinking(k, rows) =>
      k in s.dirents && LastName?(s, k) ==>
        OneRowEach(rows, s.dirents[k].child, StripeSet(s, s.dirents[k].child))
    case Renaming(src, dst, keep) =>
      Drops(s, dst, keep) ==> StripeSet(s, s.dirents[dst].child) == {}
    case _ => true
  }

  ghost predicate Happens(w: World, e: Event, w': World) {
    match e
    case Destroy(i, mounted) => i < |w.store.gc| && w.store.gc[i].ds in mounted && Destroys(w, i, w')
    case Dequeue(i) => i < |w.store.gc| && w.store.gc[i] in w.swept && w' == TakenOff(w, i)
    case Drop(i, mounted) => i < |w.store.gc| && w.store.gc[i].ds !in mounted && w' == TakenOff(w, i)
    case Namespace(op) =>
      && Step(w.store, op, w'.store)
      && w'.held == w.held + (if op.Creating? then NewlyHeld(op.fid, op.kind, op.ds) else {}) && w'.swept == w.swept
  }

  lemma EventKeepsInv(w: World, e: Event, w': World)
    requires Inv(w.store) && Happens(w, e, w')
    ensures Inv(w'.store)
  {
    if e.Namespace? {
      StepKeepsInv(w.store, e.op, w'.store);
    }
  }

  /** And of the worker's steps all but the drop of a row whose object is still there. */
  ghost predicate TidyEvent(w: World, e: Event) {
    match e
    case Namespace(op) => Tidy(w.store, op)
    case Drop(i, _) => i < |w.store.gc| && w.store.gc[i] !in w.held
    case _ => true
  }

  lemma EventCoversIff(w: World, e: Event, w': World)
    requires Inv(w.store) && Covered(w) && Happens(w, e, w')
    ensures Covered(w') <==> TidyEvent(w, e)
  {
    match e
    case Destroy(i, _) => DestroyCovers(w, i, w');
    case Dequeue(i) =>
      assert CoveredAt(w, w.store.gc[i]);
      TakenOffCoversIff(w, i);
    case Drop(i, _) => TakenOffCoversIff(w, i);
    case Namespace(op) =>
      var held := w.held + (if op.Creating? then NewlyHeld(op.fid, op.kind, op.ds) else {});
      match op
      case Creating(k, fid, kind, ds) =>
        assert w' == w.(store := Created(w.store, k, fid, kind, ds), held := held);
        CreatedCovers(w, k, fid, kind, ds);
      case Linking(k, target) =>
        assert w' == w.(store := Linked(w.store, k, target));
        LinkedCovers(w, k, target);
      case Unlinking(k, rows) =>
        assert w' == w.(store := Unlinked(w.store, k, rows));
        UnlinkedCoversIff(w, k, rows);
      case Renaming(src, dst, keep) =>
        assert w' == w.(store := Renamed(w.store, src, dst, keep));
        RenamedCoversIff(w, src, dst, keep);
  }

  lemma StartCovered()
    ensures Inv(Bootstrap()) && Covered(World(Bootstrap(), {}, {}))
  {
    BootstrapHolds();
  }

  lemma StripedFile() returns (w: World)
    ensures Inv(w.store) && Covered(w) && Happens(World(Bootstrap(), {}, {}),
              Namespace(Creating(Key(ROOT, "a"), 3, Reg, {7})), w)
    ensures w.store.dirents == map[Key(ROOT, "a") := Dirent(3, Reg)] && w.store.used == {ROOT, 3}
    ensures w.store.stripes == map[3 := {7}] && w.store.gc == [] && w.held == {GcRow(3, 7)}
  {
    var w0 := World(Bootstrap(), {}, {});
    StartCovered();
    w := w0.(store := Created(w0.store, Key(ROOT, "a"), 3, Reg, {7}), held := w0.held + NewlyHeld(3, Reg, {7}));
    CreatedCovers(w0, Key(ROOT, "a"), 3, Reg, {7});
    CreatedKeepsInv(w0.store, Key(ROOT, "a"), 3, Reg, {7});
    FirstFile();
  }

  lemma FirstFile()
    ensures var s := Created(Bootstrap(), Key(ROOT, "a"), 3, Reg, {7});
      && s.dirents == map[Key(ROOT, "a") := Dirent(3, Reg)] && s.used == {ROOT, 3}
      && s.stripes == map[3 := {7}] && s.gc == []
    ensures {} + NewlyHeld(3, Reg, {7}) == {GcRow(3, 7)}
  {
  }

  lemma OnlyName(d: Dirents, k: Key)
    requires d == map[k := Dirent(3, Reg)]
    ensures Names(d, 3) == {k} && Names(d - {k}, 3) == {}
  {
    assert k in Names(d, 3);
  }

  /** Unlinking the only name of the striped file queues its one object. */
  lemma OneRowQueued(s: Store, k: Key)
    requires s.dirents == map[k := Dirent(3, Reg)] && s.gc == []
    ensures CanUnlink(s, k) && LastName?(s, k) && Unlinked(s, k, [GcRow(3, 7)]).gc == [GcRow(3, 7)]
  {
    OnlyName(s.dirents, k);
  }

  /** Create a striped "a" and remove it with the right GC row; the worker runs where data
      server 7 is not mounted: the row is dropped and the object stays for good. */
  lemma UnmountedLeak() returns (w: World, w': World, w'': World)
    ensures Covered(w) && Covered(w') && !Covered(w'')
    ensures Happens(w, Namespace(Unlinking(Key(ROOT, "a"), [GcRow(3, 7)])), w') && Happens(w', Drop(0, {}), w'')
    ensures GcRow(3, 7) in w''.held && w''.store.gc == []
  {
    w := StripedFile();
    OneRowQueued(w.store, Key(ROOT, "a"));
    w' := w.(store := Unlinked(w.store, Key(ROOT, "a"), [GcRow(3, 7)]));
    EventCoversIff(w, Namespace(Unlinking(Key(ROOT, "a"), [GcRow(3, 7)])), w');
    w'' := TakenOff(w', 0);
    TakenOffCoversIff(w', 0);
  }

  /** Create a striped "a", create "b", rename "b" over "a": in the committed state the
      object of "a" on data server 7 is neither referenced nor queued. */
  lemma LostObject() returns (w: World, w': World)
    ensures Covered(w) && Happens(w, Namespace(Renaming(Key(ROOT, "b"), Key(ROOT, "a"), false)), w') && !Covered(w')
  {
    var a, b := Key(ROOT, "a"), Key(ROOT, "b");
    var w1 := StripedFile();
    w := w1.(store := Created(w1.store, b, 4, Reg, {}));
    assert NewlyHeld(4, Reg, {}) == {} && w1.held + {} == w1.held;
    CreatedCovers(w1, b, 4, Reg, {});
    CreatedKeepsInv(w1.store, b, 4, Reg, {});
    w' := w.(store := Renamed(w.store, b, a, false));
    DropsA(w.store, a, b);
    RenamedCoversIff(w, b, a, false);
  }

  lemma DropsA(s: Store, a: Key, b: Key)
    requires NamesResolve(s) && a != b && a.parent == ROOT == b.parent
    requires s.dirents == map[a := Dirent(3, Reg), b := Dirent(4, Reg)]
    ensures Drops(s, a, false) && CanRename(s, b, a)
  {
    assert Names(s.dirents, 3) == {a};
  }
}
