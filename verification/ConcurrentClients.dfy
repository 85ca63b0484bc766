/** Many clients at once.  A remove or rename first reads the rows it needs, one by one and
    without a lock, and much later sends one guarded transaction; a layout request on a file
    without a stripe map places it and writes the map, with no guard.  Any number of calls
    may be between the two, and creates, links and the GC worker go on meanwhile.  Every
    such interleaving is a run of atomic operations on the names and inodes, and the
    transactions after which some data-server object is neither referenced nor queued
    exactly once are named exactly. */
module ConcurrentClients {
  import opened Namespace
  import opened Catalogue
  import opened NamespaceRuns
  import R = Reclaim

  /** A call between its reads and its transaction. */
  datatype Call =
    | Removing(k: Key, gone: RemovePlan)
    | Moving(src: Key, dst: Key, move: RenamePlan)
    | Placing(file: Fileid, ds: set<DsId>)

  datatype System = System(world: R.World, calls: map<nat, Call>)

  datatype Event =
    | Reads(c: nat, call: Call)
    | Commits(c: nat, st: Status)
    | Atomic(op: Op)               // a create or a link
    | Work(step: R.Event)          // the GC worker destroys, dequeues or drops

  /** What a call can know.  Its rows were read at different times, so all that is certain
      is that each object it names once existed with that type (and that the GC rows a remove
      carries are rows of its child). */
  ghost predicate Could(s: Store, call: Call) {
    match call
    case Removing(k, p) => Settled(s, p.child, p.kind) && forall r | r in p.rows :: r.fileid == p.child
    case Placing(f, ds) => Settled(s, f, Reg)
    case Moving(src, dst, p) =>
      && src != dst && Settled(s, dst.parent, Dir) && Settled(s, p.fid, p.kind) && PlanSane(s, p)
      && (p.victim.Victim? ==> Settled(s, p.victim.fid, p.victim.kind))
  }

  /** The GC rows a remove carries are those of the child's stripe map, if the child is
      still there. */
  ghost predicate RowsRight(s: Store, p: RemovePlan) {
    p.child in s.inodes ==>
      if p.kind.Reg? && p.nlink <= 1 then R.OneRowEach(p.rows, p.child, R.StripeSet(s, p.child)) else p.rows == []
  }

  /** In particular a call may know what one undisturbed look at the tables shows. */
  lemma SnapshotsCould(s: Store)
    requires Inv(s)
    ensures forall k, p :: R.RemovePlanned(s, k, p) ==> Could(s, Removing(k, p)) && RowsRight(s, p)
    ensures forall src, dst, keep, p :: Movable(s, src, dst) && PlanMade(s, src, dst, keep, p) ==>
              Could(s, Moving(src, dst, p))
  {
    forall k, p | R.RemovePlanned(s, k, p) ensures Could(s, Removing(k, p)) {
      forall r | r in p.rows ensures r.fileid == p.child {
        assert multiset(p.rows)[r] > 0;
        assert R.RightAt(p.rows, p.child, R.StripeSet(s, p.child), r);
      }
    }
    forall src, dst, keep, p | Movable(s, src, dst) && PlanMade(s, src, dst, keep, p)
        ensures Could(s, Moving(src, dst, p)) {
      PlanSettled(s, src, dst, keep, p);
    }
  }

  ghost predicate Outcome(s: Store, call: Call, st: Status, s': Store) {
    match call
    case Removing(k, p) => RemoveOutcome(s, k, p, st, s')
    case Moving(src, dst, p) => RenameOutcome(s, src, dst, p, st, s')
    case Placing(f, ds) => st == Ok && s' == s.(stripes := s.stripes[f := ds])
  }

  /** The objects a call's transaction leaves on the data servers. */
  ghost function Placed(call: Call): set<GcRow> {
    if call.Placing? then R.NewlyHeld(call.file, Reg, call.ds) else {}
  }

  ghost predicate Happens(y: System, e: Event, y': System) {
    match e
    case Reads(c, call) => c !in y.calls && Could(y.world.store, call) && y' == y.(calls := y.calls[c := call])
    case Commits(c, st) =>
      && c in y.calls && Outcome(y.world.store, y.calls[c], st, y'.world.store)
      && y'.world.held == y.world.held + Placed(y.calls[c]) && y'.world.swept == y.world.swept
      && y'.calls == y.calls - {c}
    case Atomic(op) =>
      (op.Creating? || op.Linking?) && R.Happens(y.world, R.Namespace(op), y'.world) && y'.calls == y.calls
    case Work(step) => !step.Namespace? && R.Happens(y.world, step, y'.world) && y'.calls == y.calls
  }

  /** The atomic operation a remove or rename stands for. */
  function OpOf(call: Call): Op
    requires !call.Placing?
  {
    match call
    case Removing(k, p) => Unlinking(k, p.rows)
    case Moving(src, dst, p) => Renaming(src, dst, KeepsOrphan(p))
  }

  // ---------------------------------------------------------------------------
  // Every interleaving is a run of atomic operations
  // ---------------------------------------------------------------------------

  ghost predicate SystemInv(y: System) {
    && Inv(y.world.store) && R.QueuedGone(y.world.store)
    && forall c | c in y.calls :: Could(y.world.store, y.calls[c])
  }

  /** Same names and inodes. */
  ghost predicate SameTables(s: Store, s': Store) {
    s' == s.(gc := s'.gc, stripes := s'.stripes)
  }

  /** A transaction is its atomic operation on the state it finds, or nothing at all. */
  lemma CommitIsAtomic(s: Store, call: Call, st: Status, s': Store)
    requires Outcome(s, call, st, s') && !call.Placing?
    ensures s' == s || (st == Ok && Step(s, OpOf(call), s'))
  {
  }

  lemma CouldStays(s: Store, op: Op, s': Store, call: Call)
    requires s.inodes.Keys <= s.used && Step(s, op, s') && Could(s, call)
    ensures Could(s', call)
  {
    if call.Removing? {
      StepSettled(s, op, s', call.gone.child, call.gone.kind);
    } else if call.Placing? {
      StepSettled(s, op, s', call.file, Reg);
    } else {
      var p := call.move;
      StepSettled(s, op, s', call.dst.parent, Dir);
      StepSettled(s, op, s', p.fid, p.kind);
      if p.victim.Victim? {
        StepSettled(s, op, s', p.victim.fid, p.victim.kind);
      }
    }
  }

  /** Fileids are never reused. */
  lemma StaysGone(s: Store, op: Op, s': Store, f: Fileid)
    requires Step(s, op, s') && f in s.used && f !in s.inodes
    ensures f !in s'.inodes
  {
  }

  lemma QueueOnly(s: Store, s': Store, call: Call)
    requires SameTables(s, s')
    ensures Inv(s) ==> Inv(s')
    ensures Could(s, call) ==> Could(s', call)
  {
  }

  /** The tables move by one atomic operation or not at all. */
  ghost predicate Moves(s: Store, s': Store) {
    SameTables(s, s') || exists op :: Step(s, op, s')
  }

  lemma MovesKeeps(s: Store, s': Store, call: Call)
    requires Inv(s) && Moves(s, s')
    ensures Inv(s')
    ensures Could(s, call) ==> Could(s', call)
  {
    if SameTables(s, s') {
      QueueOnly(s, s', call);
    } else {
      var op :| Step(s, op, s');
      StepKeepsInv(s, op, s');
      if Could(s, call) {
        CouldStays(s, op, s', call);
      }
    }
  }

  lemma EventMoves(y: System, e: Event, y': System)
    requires Happens(y, e, y')
    ensures Moves(y.world.store, y'.world.store)
  {
    var s, s' := y.world.store, y'.world.store;
    match e
    case Reads(_, _) =>
    case Commits(c, st) =>
      if !y.calls[c].Placing? {
        CommitIsAtomic(s, y.calls[c], st, s');
      }
    case Atomic(op) =>
      assert Step(s, op, s');
    case Work(_) =>
  }

  lemma StepKeepsQueued(s: Store, op: Op, s': Store)
    requires R.QueuedGone(s) && Step(s, op, s')
    requires op.Unlinking? ==> forall r | r in op.rows :: r.fileid == s.dirents[op.k].child && r.fileid in s.used
    ensures R.QueuedGone(s')
  {
  }

  lemma CommitKeepsQueued(s: Store, call: Call, st: Status, s': Store)
    requires R.QueuedGone(s) && Could(s, call) && Outcome(s, call, st, s') && !call.Placing?
    ensures R.QueuedGone(s')
  {
    if s' != s {
      CommitIsAtomic(s, call, st, s');
      StepKeepsQueued(s, OpOf(call), s');
    }
  }

  lemma WorkKeepsQueued(w: R.World, step: R.Event, w': R.World)
    requires R.QueuedGone(w.store) && R.Happens(w, step, w') && !step.Namespace?
    ensures R.QueuedGone(w'.store)
  {
    if !step.Destroy? {
      R.WithoutOne(w.store.gc, step.i);
    }
  }

  lemma EventKeepsQueued(y: System, e: Event, y': System)
    requires SystemInv(y) && Happens(y, e, y')
    ensures R.QueuedGone(y'.world.store)
  {
    var s, s' := y.world.store, y'.world.store;
    match e
    case Reads(_, _) =>
    case Commits(c, st) =>
      if !y.calls[c].Placing? {
        CommitKeepsQueued(s, y.calls[c], st, s');
      }
    case Atomic(op) => StepKeepsQueued(s, op, s');
    case Work(step) => WorkKeepsQueued(y.world, step, y'.world);
  }

  lemma EventKeepsInv(y: System, e: Event, y': System)
    requires SystemInv(y) && Happens(y, e, y')
    ensures SystemInv(y')
  {
    EventMoves(y, e, y');
    EventKeepsQueued(y, e, y');
    forall c | c in y'.calls ensures Could(y'.world.store, y'.calls[c]) {
      MovesKeeps(y.world.store, y'.world.store, y'.calls[c]);
    }
    MovesKeeps(y.world.store, y'.world.store, Removing(Key(0, ""), RemovePlan(0, Dir, 0, [])));
  }

  ghost function Start(): System {
    System(R.World(Bootstrap(), {}, {}), map[])
  }

  ghost predicate Run(trace: seq<System>, events: seq<Event>) {
    && |trace| == |events| + 1 && trace[0] == Start()
    && forall i | 0 <= i < |events| :: Turn(trace, events, i)
  }

  ghost predicate Turn(trace: seq<System>, events: seq<Event>, i: nat)
    requires |trace| == |events| + 1 && i < |events|
  {
    Happens(trace[i], events[i], trace[i + 1])
  }

  lemma StartHolds()
    ensures SystemInv(Start())
  {
    BootstrapHolds();
  }

  lemma {:induction false} RunKeepsInv(trace: seq<System>, events: seq<Event>, i: nat)
    requires Run(trace, events) && i < |trace|
    ensures SystemInv(trace[i])
  {
    if i == 0 {
      StartHolds();
    } else {
      RunKeepsInv(trace, events, i - 1);
      assert Turn(trace, events, i - 1);
      EventKeepsInv(trace[i - 1], events[i - 1], trace[i]);
    }
  }

  /** However the clients interleave: the tables are sound in every state, every call's plan
      still meets what its transaction asks for, and each event is one atomic operation on
      the tables or leaves them alone. */
  lemma EveryRunIsAtomic(trace: seq<System>, events: seq<Event>, i: nat)
    requires Run(trace, events) && i < |events|
    ensures SystemInv(trace[i]) && SystemInv(trace[i + 1])
    ensures Moves(trace[i].world.store, trace[i + 1].world.store)
  {
    RunKeepsInv(trace, events, i);
    RunKeepsInv(trace, events, i + 1);
    assert Turn(trace, events, i);
    EventMoves(trace[i], events[i], trace[i + 1]);
  }

  /** A rename that went through moved exactly the object that was read under the source
      name, over exactly the object read under the destination name. */
  lemma MovedWhatWasRead(trace: seq<System>, events: seq<Event>, i: nat)
    requires Run(trace, events) && i < |events| && events[i].Commits? && events[i].st == Ok
    requires events[i].c in trace[i].calls && trace[i].calls[events[i].c].Moving?
    ensures var call, s, s' := trace[i].calls[events[i].c], trace[i].world.store, trace[i + 1].world.store;
      && Names?(s, call.src, call.move.fid) && Names?(s', call.dst, call.move.fid) && call.src !in s'.dirents
      && (call.move.victim.Victim? <==> call.dst in s.dirents)
      && (call.move.victim.Victim? ==> Names?(s, call.dst, call.move.victim.fid))
      && forall k | k != call.src && k != call.dst :: (k in s'.dirents <==> k in s.dirents)
          && (k in s.dirents ==> s'.dirents[k] == s.dirents[k])
  {
    var call := trace[i].calls[events[i].c];
    assert Turn(trace, events, i);
    assert RenameOutcome(trace[i].world.store, call.src, call.dst, call.move, Ok, trace[i + 1].world.store);
  }

  /** A remove that was answered OK has left no such name, unless what it was to remove was a
      directory that was gone already; what it took away is what was read; and it was refused
      only because something had changed. */
  lemma RemovedWhatWasRead(trace: seq<System>, events: seq<Event>, i: nat)
    requires Run(trace, events) && i < |events| && events[i].Commits?
    requires events[i].c in trace[i].calls && trace[i].calls[events[i].c].Removing?
    ensures var call, st := trace[i].calls[events[i].c], events[i].st;
      var k, p, s, s' := call.k, call.gone, trace[i].world.store, trace[i + 1].world.store;
      && st in {Ok, Stale, NotEmpty}
      && (st == Ok && k in s'.dirents ==> p.kind.Dir? && p.child !in s.inodes)
      && (k in s.dirents && k !in s'.dirents ==> st == Ok && s.dirents[k].child == p.child)
      && (st == NotEmpty ==> p.kind.Dir? && exists k' | k' in s.dirents :: k'.parent == p.child)
      && (st == Stale ==> k in s.dirents)
      && (st == Stale && s.dirents[k].child == p.child ==>
            !p.kind.Dir? && p.child in s.inodes && (p.nlink <= 1) != (s.inodes[p.child].nlink == 1))
      && (forall k' | k' != k :: k' in s'.dirents <==> k' in s.dirents)
      && (forall k' | k' in s'.dirents :: k' in s.dirents && s'.dirents[k'] == s.dirents[k'])
  {
    var call := trace[i].calls[events[i].c];
    RunKeepsInv(trace, events, i);
    assert Turn(trace, events, i) && Could(trace[i].world.store, call);
    RemoveMeans(trace[i].world.store, call.k, call.gone, events[i].st, trace[i + 1].world.store);
  }

  /** And a rename was refused only because something had changed. */
  lemma RefusedForAChange(trace: seq<System>, events: seq<Event>, i: nat)
    requires Run(trace, events) && i < |events| && events[i].Commits?
    requires events[i].c in trace[i].calls && trace[i].calls[events[i].c].Moving?
    ensures var call, st, s := trace[i].calls[events[i].c], events[i].st, trace[i].world.store;
      var src, dst, p := call.src, call.dst, call.move;
      && (st == Delay ==> p.victim.Victim? && p.victim.kind.Dir? && p.victim.fid !in s.inodes)
      && (st == NotEmpty ==>
            p.victim.Victim? && p.victim.kind.Dir? && exists k | k in s.dirents :: k.parent == p.victim.fid)
      && (st == Stale && src in s.dirents && s.dirents[src].child == p.fid && p.victim.NoVictim? ==>
            dst in s.dirents || dst.parent !in s.inodes)
      && (st == Stale && src in s.dirents && s.dirents[src].child == p.fid && p.victim.Victim?
          && dst in s.dirents && s.dirents[dst].child == p.victim.fid ==>
            !p.victim.kind.Dir? && p.victim.fid in s.inodes
            && s.inodes[p.victim.fid].nlink != if p.victim.delete then 1 else p.victim.left + 1)
  {
    var call := trace[i].calls[events[i].c];
    RunKeepsInv(trace, events, i);
    assert Turn(trace, events, i) && Could(trace[i].world.store, call);
    RenameMeans(trace[i].world.store, call.src, call.dst, call.move, events[i].st, trace[i + 1].world.store);
  }

  // ---------------------------------------------------------------------------
  // No object is left uncovered
  // ---------------------------------------------------------------------------

  /** What breaks the coverage, told from the state before: a rename that takes away a striped
      file, a final remove whose GC rows are not those of the stripe map, a placement that
      comes after another one or after the file is gone, and the drop of a row whose object is
      still there. */
  ghost predicate Untidy(y: System, e: Event) {
    match e
    case Commits(c, st) => st == Ok && c in y.calls && UntidyCall(y.world, y.calls[c])
    case Work(step) => !R.TidyEvent(y.world, step)
    case _ => false
  }

  ghost predicate UntidyCall(w: R.World, call: Call) {
    var s := w.store;
    match call
    case Removing(k, p) =>
      Names?(s, k, p.child) && R.LastName?(s, k) && !R.OneRowEach(p.rows, p.child, R.StripeSet(s, p.child))
    case Moving(src, dst, p) =>
      R.Drops(s, dst, KeepsOrphan(p)) && R.StripeSet(s, s.dirents[dst].child) != {}
    case Placing(f, ds) => !InTime(w, f, ds)
  }

  /** The placement finds the file alive with no map it would overwrite, or gone with all of
      its objects queued and none of them destroyed yet. */
  ghost predicate InTime(w: R.World, f: Fileid, ds: set<DsId>) {
    if f in w.store.inodes
    then R.StripeSet(w.store, f) <= ds && forall d | d in ds :: R.Queued(w.store, GcRow(f, d)) == 0
    else forall d | d in ds :: R.Queued(w.store, GcRow(f, d)) == 1 && GcRow(f, d) !in w.swept
  }

  ghost function PlacedIn(w: R.World, f: Fileid, ds: set<DsId>): R.World {
    w.(store := w.store.(stripes := w.store.stripes[f := ds]), held := w.held + R.NewlyHeld(f, Reg, ds))
  }

  /** One object of the file after the placement. */
  ghost predicate FineAt(w: R.World, f: Fileid, ds: set<DsId>, d: DsId) {
    if d in ds
    then R.Queued(w.store, GcRow(f, d)) == (if f in w.store.inodes then 0 else 1) && GcRow(f, d) !in w.swept
    else !(f in w.store.inodes && d in R.StripeSet(w.store, f))
  }

  lemma PlacedAt(w: R.World, f: Fileid, ds: set<DsId>, r: GcRow)
    requires R.CoveredAt(w, r)
    ensures R.CoveredAt(PlacedIn(w, f, ds), r) <==> (r.fileid == f ==> FineAt(w, f, ds, r.ds))
  {
  }

  lemma PlacingCoversIff(w: R.World, f: Fileid, ds: set<DsId>)
    requires R.Covered(w) && Settled(w.store, f, Reg)
    ensures R.Covered(PlacedIn(w, f, ds)) <==> InTime(w, f, ds)
  {
    forall r ensures R.CoveredAt(PlacedIn(w, f, ds), r) <==> (r.fileid == f ==> FineAt(w, f, ds, r.ds)) {
      assert R.CoveredAt(w, r);
      PlacedAt(w, f, ds, r);
    }
    if InTime(w, f, ds) {
      forall d ensures FineAt(w, f, ds, d) {
        assert R.CoveredAt(w, GcRow(f, d));
      }
    } else if d :| d in ds && !FineAt(w, f, ds, d) {
      assert !R.CoveredAt(PlacedIn(w, f, ds), GcRow(f, d));
    } else {
      var d :| d in R.StripeSet(w.store, f) && d !in ds;
      assert !R.CoveredAt(PlacedIn(w, f, ds), GcRow(f, d));
    }
  }

  lemma EventCoversIff(y: System, e: Event, y': System)
    requires SystemInv(y) && R.Covered(y.world) && Happens(y, e, y')
    ensures R.Covered(y'.world) <==> !Untidy(y, e)
  {
    match e
    case Reads(_, _) =>
    case Atomic(op) => R.EventCoversIff(y.world, R.Namespace(op), y'.world);
    case Work(step) => R.EventCoversIff(y.world, step, y'.world);
    case Commits(c, st) =>
      if y.calls[c].Placing? {
        PlacingCoversIff(y.world, y.calls[c].file, y.calls[c].ds);
      } else {
        CommitCoversIff(y, c, st, y');
      }
  }

  lemma CommitCoversIff(y: System, c: nat, st: Status, y': System)
    requires SystemInv(y) && R.Covered(y.world) && Happens(y, Commits(c, st), y') && !y.calls[c].Placing?
    ensures R.Covered(y'.world) <==> !Untidy(y, Commits(c, st))
  {
    var s, s', call := y.world.store, y'.world.store, y.calls[c];
    CommitIsAtomic(s, call, st, s');
    if st == Ok && (call.Moving? || Names?(s, call.k, call.gone.child)) {
      R.EventCoversIff(y.world, R.Namespace(OpOf(call)), y'.world);
    } else {
      assert y'.world == y.world;
    }
  }

  lemma TurnCoversIff(trace: seq<System>, events: seq<Event>, i: nat)
    requires Run(trace, events) && i < |events| && R.Covered(trace[i].world)
    ensures R.Covered(trace[i + 1].world) <==> !Untidy(trace[i], events[i])
  {
    RunKeepsInv(trace, events, i);
    assert Turn(trace, events, i);
    EventCoversIff(trace[i], events[i], trace[i + 1]);
  }

  /** However removes, renames, placements, creates, links and sweeps interleave, and however
      old the plans: every data-server object is referenced by a live file or queued exactly
      once, up to the first untidy event, and not right after it. */
  lemma {:induction false} EveryRunCovers(trace: seq<System>, events: seq<Event>, i: nat)
    requires Run(trace, events) && i < |trace|
    requires forall j | 0 <= j < i :: !Untidy(trace[j], events[j])
    ensures R.Covered(trace[i].world)
    ensures i < |events| && Untidy(trace[i], events[i]) ==> !R.Covered(trace[i + 1].world)
  {
    if i == 0 {
      R.StartCovered();
    } else {
      EveryRunCovers(trace, events, i - 1);
      TurnCoversIff(trace, events, i - 1);
    }
    if i < |events| {
      TurnCoversIff(trace, events, i);
    }
  }

  // ---------------------------------------------------------------------------
  // When an accepted remove is tidy
  // ---------------------------------------------------------------------------

  /** The guards of a remove only let it through while its rows are right. */
  lemma RemoveIsTidy(s: Store, k: Key, p: RemovePlan, s': Store)
    requires Inv(s) && Settled(s, p.child, p.kind) && RowsRight(s, p)
    requires RemoveOutcome(s, k, p, Ok, s') && Names?(s, k, p.child)
    requires forall f | f in s.inodes && !s.inodes[f].kind.Reg? :: R.StripeSet(s, f) == {}
    ensures R.LastName?(s, k) ==> R.OneRowEach(p.rows, p.child, R.StripeSet(s, p.child))
  {
    NameLinks(s, k);
    assert p.rows == [] ==> R.OneRowEach(p.rows, p.child, {});
  }

  lemma RowsStayRight(s: Store, op: Op, s': Store, p: RemovePlan)
    requires s.inodes.Keys <= s.used && Step(s, op, s') && p.child in s.used && RowsRight(s, p)
    ensures RowsRight(s', p)
  {
    if p.child in s.inodes {
      R.StepStripes(s, op, s', p.child, R.StripeSet(s, p.child));
    } else {
      StaysGone(s, op, s', p.child);
    }
  }

  /** The event writes the stripe map of the file. */
  ghost predicate Places(y: System, e: Event, f: Fileid) {
    e.Commits? && e.c in y.calls && y.calls[e.c].Placing? && y.calls[e.c].file == f
  }

  lemma EventRowsRight(y: System, e: Event, y': System, p: RemovePlan)
    requires y.world.store.inodes.Keys <= y.world.store.used && R.QueuedGone(y.world.store) && Happens(y, e, y')
    requires p.child in y.world.store.used && RowsRight(y.world.store, p) && !Places(y, e, p.child)
    ensures p.child in y'.world.store.used && RowsRight(y'.world.store, p)
  {
    var s, s' := y.world.store, y'.world.store;
    match e
    case Reads(_, _) =>
    case Work(_) =>
    case Atomic(op) => RowsStayRight(s, op, s', p);
    case Commits(c, st) =>
      if !y.calls[c].Placing? {
        CommitIsAtomic(s, y.calls[c], st, s');
        if s' != s {
          RowsStayRight(s, OpOf(y.calls[c]), s', p);
        }
      }
  }

  ghost predicate Knows(y: System, p: RemovePlan) {
    p.child in y.world.store.used && RowsRight(y.world.store, p)
  }

  lemma RunRowsRight(trace: seq<System>, events: seq<Event>, i: nat, p: RemovePlan)
    requires Run(trace, events) && i < |events| && Knows(trace[i], p) && !Places(trace[i], events[i], p.child)
    ensures Knows(trace[i + 1], p)
  {
    RunKeepsInv(trace, events, i);
    assert Turn(trace, events, i);
    EventRowsRight(trace[i], events[i], trace[i + 1], p);
  }

  lemma {:induction false} RowsRightUntilPlaced(trace: seq<System>, events: seq<Event>, i: nat, j: nat, p: RemovePlan)
    requires Run(trace, events) && i <= j < |trace| && Knows(trace[i], p)
    requires forall k | i <= k < j :: !Places(trace[k], events[k], p.child)
    ensures Knows(trace[j], p)
    decreases j
  {
    if i < j {
      RowsRightUntilPlaced(trace, events, i, j - 1, p);
      RunRowsRight(trace, events, j - 1, p);
    }
  }

  /** A remove whose rows were right when it read them is tidy at any later time, whatever
      other removes, links, renames and sweeps did meanwhile, unless the file was placed in
      between. */
  lemma RemoveTidyUnlessPlaced(trace: seq<System>, events: seq<Event>, i: nat, j: nat)
    requires Run(trace, events) && i < j < |events| && events[i].Reads? && events[i].call.Removing?
    requires RowsRight(trace[i].world.store, events[i].call.gone)
    requires events[j].Commits? && events[j].c in trace[j].calls && trace[j].calls[events[j].c] == events[i].call
    requires forall k | i <= k < j :: !Places(trace[k], events[k], events[i].call.gone.child)
    requires R.Covered(trace[j].world)
    ensures !Untidy(trace[j], events[j])
  {
    var p := events[i].call.gone;
    assert Turn(trace, events, i) && Turn(trace, events, j);
    RowsRightUntilPlaced(trace, events, i, j, p);
    RunKeepsInv(trace, events, j);
    var s := trace[j].world.store;
    if events[j].st == Ok && Names?(s, events[i].call.k, p.child) {
      RemoveIsTidy(s, events[i].call.k, p, trace[j + 1].world.store);
    }
  }

  /** A call in flight was read at some earlier event. */
  lemma {:induction false} CallWasRead(trace: seq<System>, events: seq<Event>, j: nat, c: nat) returns (i: nat)
    requires Run(trace, events) && j < |trace| && c in trace[j].calls
    ensures i < j && events[i] == Reads(c, trace[j].calls[c])
  {
    assert j > 0 && Turn(trace, events, j - 1);
    if events[j - 1] == Reads(c, trace[j].calls[c]) {
      i := j - 1;
    } else {
      i := CallWasRead(trace, events, j - 1, c);
    }
  }

  /** A careful run: removes read the rows of the stripe map, nothing is placed after its
      creation, no rename takes away a striped file, and every data server with a queued row
      is mounted where the worker runs. */
  ghost predicate Careful(trace: seq<System>, events: seq<Event>)
    requires Run(trace, events)
  {
    forall i | 0 <= i < |events| ::
      && (events[i].Reads? ==>
            && !events[i].call.Placing?
            && (events[i].call.Removing? ==> RowsRight(trace[i].world.store, events[i].call.gone)))
      && (events[i].Commits? && events[i].c in trace[i].calls && trace[i].calls[events[i].c].Moving? ==>
            !Untidy(trace[i], events[i]))
      && (events[i].Work? && (events[i].step.Destroy? || events[i].step.Drop?) ==>
            forall r | r in trace[i].world.store.gc :: r.ds in events[i].step.mounted)
  }

  lemma CarefulIsTidy(trace: seq<System>, events: seq<Event>, j: nat)
    requires Run(trace, events) && Careful(trace, events) && j < |events| && R.Covered(trace[j].world)
    ensures !Untidy(trace[j], events[j])
  {
    if events[j].Work? {
      assert Turn(trace, events, j);
    } else if Untidy(trace[j], events[j]) {
      var c := events[j].c;
      var i := CallWasRead(trace, events, j, c);
      if trace[j].calls[c].Removing? {
        forall k | i <= k < j ensures !Places(trace[k], events[k], trace[j].calls[c].gone.child) {
          if Places(trace[k], events[k], trace[j].calls[c].gone.child) {
            var h := CallWasRead(trace, events, k, events[k].c);
          }
        }
        RemoveTidyUnlessPlaced(trace, events, i, j);
      }
    }
  }

  /** In every careful run every data-server object is covered in every state. */
  lemma {:induction false} CarefulRunCovers(trace: seq<System>, events: seq<Event>, i: nat)
    requires Run(trace, events) && Careful(trace, events) && i < |trace|
    ensures R.Covered(trace[i].world) && forall j | 0 <= j < i :: !Untidy(trace[j], events[j])
  {
    if i > 0 {
      CarefulRunCovers(trace, events, i - 1);
      CarefulIsTidy(trace, events, i - 1);
    }
    EveryRunCovers(trace, events, i);
  }

  // ---------------------------------------------------------------------------
  // A placement that comes too late
  // ---------------------------------------------------------------------------

  const A: Key := Key(ROOT, "a")
  const UNPLACED: RemovePlan := RemovePlan(3, Reg, 1, [])

  /** One regular file without a stripe map. */
  lemma OnlyA() returns (s: Store)
    ensures s == Created(Bootstrap(), A, 3, Reg, {}) && CanCreate(Bootstrap(), A, 3)
    ensures s.dirents == map[A := Dirent(3, Reg)] && Settled(s, 3, Reg)
    ensures s.stripes == map[] && s.gc == []
  {
    BootstrapHolds();
    s := Created(Bootstrap(), A, 3, Reg, {});
  }

  lemma OneName(d: Dirents)
    requires d == map[A := Dirent(3, Reg)]
    ensures Names(d, 3) == {A} && Names(d - {A}, 3) == {}
  {
    assert A in Names(d, 3);
  }

  lemma RemoveAccepted(s: Store)
    requires s.dirents == map[A := Dirent(3, Reg)]
    ensures RemoveOutcome(s, A, UNPLACED, Ok, Unlinked(s, A, []))
  {
    OneName(s.dirents);
  }

  const ONE: map<nat, Call> := map[1 := Removing(A, UNPLACED)]
  const BOTH: map<nat, Call> := map[1 := Removing(A, UNPLACED), 2 := Placing(3, {7})]

  lemma RaceBegins(s: Store)
    requires s == Created(Bootstrap(), A, 3, Reg, {}) && CanCreate(Bootstrap(), A, 3) && Settled(s, 3, Reg)
    ensures Happens(Start(), Atomic(Creating(A, 3, Reg, {})), System(R.World(s, {}, {}), map[]))
    ensures Happens(System(R.World(s, {}, {}), map[]), Reads(1, Removing(A, UNPLACED)), System(R.World(s, {}, {}), ONE))
    ensures Happens(System(R.World(s, {}, {}), ONE), Reads(2, Placing(3, {7})), System(R.World(s, {}, {}), BOTH))
  {
    assert R.NewlyHeld(3, Reg, {}) == {};
    assert BOTH == ONE[2 := Placing(3, {7})];
  }

  lemma RaceEnds(s: Store, s': Store, held: set<GcRow>)
    requires s' == s.(stripes := s.stripes[3 := {7}]) && held == R.NewlyHeld(3, Reg, {7})
    requires s.dirents == map[A := Dirent(3, Reg)]
    ensures Happens(System(R.World(s, {}, {}), BOTH), Commits(2, Ok), System(R.World(s', held, {}), ONE))
    ensures Happens(System(R.World(s', held, {}), ONE), Commits(1, Ok),
              System(R.World(Unlinked(s', A, []), held, {}), map[]))
  {
    assert BOTH - {2} == ONE;
    assert ONE - {1} == map[];
    RemoveAccepted(s');
  }

  lemma RunMore(trace: seq<System>, events: seq<Event>, e: Event, y: System)
    requires Run(trace, events) && Happens(trace[|events|], e, y)
    ensures Run(trace + [y], events + [e])
  {
    var trace', events' := trace + [y], events + [e];
    forall i | 0 <= i < |events'| ensures Turn(trace', events', i) {
      assert i < |events| ==> Turn(trace, events, i);
    }
  }

  lemma RaceOpens(s: Store) returns (trace: seq<System>, events: seq<Event>)
    requires s == Created(Bootstrap(), A, 3, Reg, {}) && CanCreate(Bootstrap(), A, 3) && Settled(s, 3, Reg)
    ensures events ==
              [Atomic(Creating(A, 3, Reg, {})), Reads(1, Removing(A, UNPLACED)), Reads(2, Placing(3, {7}))]
    ensures Run(trace, events) && trace[1].world.store == s && trace[3] == System(R.World(s, {}, {}), BOTH)
  {
    var y1, y2 := System(R.World(s, {}, {}), map[]), System(R.World(s, {}, {}), ONE);
    RaceBegins(s);
    trace, events := [Start()], [];
    RunMore(trace, events, Atomic(Creating(A, 3, Reg, {})), y1);
    trace, events := trace + [y1], events + [Atomic(Creating(A, 3, Reg, {}))];
    RunMore(trace, events, Reads(1, Removing(A, UNPLACED)), y2);
    trace, events := trace + [y2], events + [Reads(1, Removing(A, UNPLACED))];
    RunMore(trace, events, Reads(2, Placing(3, {7})), System(R.World(s, {}, {}), BOTH));
    trace, events := trace + [System(R.World(s, {}, {}), BOTH)], events + [Reads(2, Placing(3, {7}))];
  }

  /** The remove of a file read its (missing) stripe map; a layout request placed the file
      on data server 7; the remove is accepted with no GC row and takes the map along.  Nothing
      references or queues the object any more. */
  lemma PlacementRace() returns (trace: seq<System>, events: seq<Event>)
    ensures Run(trace, events) && |events| == 5
    ensures events == [Atomic(Creating(A, 3, Reg, {})), Reads(1, Removing(A, UNPLACED)), Reads(2, Placing(3, {7})),
                       Commits(2, Ok), Commits(1, Ok)]
    ensures RowsRight(trace[1].world.store, UNPLACED) && !R.Covered(trace[5].world)
  {
    var s := OnlyA();
    var s' := s.(stripes := s.stripes[3 := {7}]);
    var held := R.NewlyHeld(3, Reg, {7});
    var y4, y5 := System(R.World(s', held, {}), ONE), System(R.World(Unlinked(s', A, []), held, {}), map[]);
    trace, events := RaceOpens(s);
    RaceEnds(s, s', held);
    UncoveredAtSeven(s');
    RunMore(trace, events, Commits(2, Ok), y4);
    RunMore(trace + [y4], events + [Commits(2, Ok)], Commits(1, Ok), y5);
    trace, events := trace + [y4] + [y5], events + [Commits(2, Ok)] + [Commits(1, Ok)];
  }

  lemma UncoveredAtSeven(s: Store)
    requires s.dirents == map[A := Dirent(3, Reg)] && s.gc == []
    ensures !R.Covered(R.World(Unlinked(s, A, []), R.NewlyHeld(3, Reg, {7}), {}))
  {
    OneName(s.dirents);
    assert GcRow(3, 7) in R.NewlyHeld(3, Reg, {7});
    assert !R.CoveredAt(R.World(Unlinked(s, A, []), R.NewlyHeld(3, Reg, {7}), {}), GcRow(3, 7));
  }
}
