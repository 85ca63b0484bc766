/** Whole runs of atomic namespace operations: what every committed state satisfies, and
    what a plan may still rely on after other transactions have committed. */
module NamespaceRuns {
  import opened Namespace
  import opened Catalogue

  datatype Op =
    | Creating(k: Key, fid: Fileid, kind: Kind, ds: set<DsId>)
    | Linking(k: Key, target: Fileid)
    | Unlinking(k: Key, rows: seq<GcRow>)
    | Renaming(src: Key, dst: Key, keepOrphan: bool)

  ghost predicate Step(s: Store, op: Op, s': Store) {
    match op
    case Creating(k, fid, kind, ds) => CanCreate(s, k, fid) && s' == Created(s, k, fid, kind, ds)
    case Linking(k, target) => CanLink(s, k, target) && s' == Linked(s, k, target)
    case Unlinking(k, rows) => CanUnlink(s, k) && s' == Unlinked(s, k, rows)
    case Renaming(src, dst, keep) => CanRename(s, src, dst) && s' == Renamed(s, src, dst, keep)
  }

  ghost predicate Run(trace: seq<Store>, ops: seq<Op>) {
    && |trace| == |ops| + 1
    && forall i | 0 <= i < |ops| :: Step(trace[i], ops[i], trace[i + 1])
  }

  lemma StepKeepsInv(s: Store, op: Op, s': Store)
    requires Inv(s) && Step(s, op, s')
    ensures Inv(s')
  {
    match op
    case Creating(k, fid, kind, ds) => CreatedKeepsInv(s, k, fid, kind, ds);
    case Linking(k, target) => LinkedKeepsInv(s, k, target);
    case Unlinking(k, rows) => UnlinkedKeepsInv(s, k, rows);
    case Renaming(src, dst, keep) => RenamedKeepsInv(s, src, dst, keep);
  }

  /** Link counts are exact and no dirent dangles in every state of every run. */
  lemma {:induction false} RunKeepsInv(trace: seq<Store>, ops: seq<Op>, i: nat)
    requires Run(trace, ops) && trace[0] == Bootstrap() && i < |trace|
    ensures Inv(trace[i])
  {
    if i == 0 {
      BootstrapHolds();
    } else {
      RunKeepsInv(trace, ops, i - 1);
      StepKeepsInv(trace[i - 1], ops[i - 1], trace[i]);
    }
  }

  ghost predicate Reachable(s: Store) {
    exists trace: seq<Store>, ops :: Run(trace, ops) && trace[0] == Bootstrap() && trace[|ops|] == s
  }

  lemma ReachableHolds(s: Store)
    requires Reachable(s)
    ensures Inv(s)
  {
    var trace: seq<Store>, ops :| Run(trace, ops) && trace[0] == Bootstrap() && trace[|ops|] == s;
    RunKeepsInv(trace, ops, |ops|);
  }

  lemma ReachableStart()
    ensures Reachable(Bootstrap())
  {
    assert Run([Bootstrap()], []);
  }

  lemma ReachableStep(s: Store, op: Op, s': Store)
    requires Reachable(s) && Step(s, op, s')
    ensures Reachable(s') && Inv(s')
  {
    var trace: seq<Store>, ops :| Run(trace, ops) && trace[0] == Bootstrap() && trace[|ops|] == s;
    var trace', ops' := trace + [s'], ops + [op];
    assert Run(trace', ops') && trace'[0] == Bootstrap() && trace'[|ops'|] == s';
    ReachableHolds(s');
  }

  // ---------------------------------------------------------------------------
  // What a snapshot may rely on later
  // ---------------------------------------------------------------------------

  /** Of an object that once existed: it has kept its type, or is gone for good. */
  ghost predicate Settled(s: Store, f: Fileid, kind: Kind) {
    f in s.used && KindAgrees(s, f, kind)
  }

  lemma StepSettled(s: Store, op: Op, s': Store, f: Fileid, kind: Kind)
    requires Step(s, op, s') && Settled(s, f, kind)
    ensures Settled(s', f, kind)
  {
  }

  lemma PlanSettled(s: Store, src: Key, dst: Key, keep: bool, p: RenamePlan)
    requires Inv(s) && Movable(s, src, dst) && PlanMade(s, src, dst, keep, p)
    ensures Settled(s, p.fid, p.kind) && Settled(s, dst.parent, Dir)
    ensures p.victim.Victim? ==> Settled(s, p.victim.fid, p.victim.kind)
  {
    assert p.victim.Victim? ==> Names?(s, dst, p.victim.fid);
  }
}
