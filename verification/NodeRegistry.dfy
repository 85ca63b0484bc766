/** The node registry: boot-epoch fenced registration, heartbeat and deregistration, the
    stale scan, and the watchdog's verdict on its partner. */
module NodeRegistry {

  datatype Row = Row(epoch: nat, heartbeat: nat)

  type Rows = map<nat, Row>

  datatype Status = Ok | Exists | NotFound | Stale

  // ---------------------------------------------------------------------------
  // The registry and its transactions
  // ---------------------------------------------------------------------------

  class Registry {
    var rows: Rows

    constructor ()
      ensures rows == map[]
    {
      rows := map[];
    }

    /** Written only over nothing or over an older incarnation. */
    method Register(id: nat, epoch: nat, now: nat) returns (st: Status)
      modifies this
      ensures st in {Ok, Exists}
      ensures st == Ok <==> id !in old(rows) || old(rows)[id].epoch < epoch
      ensures rows == Next(old(rows), Step.Register(id, epoch, now))
                && st == Answer(old(rows), Step.Register(id, epoch, now))
      ensures rows == if st == Ok then old(rows)[id := Row(epoch, now)] else old(rows)
    {
      if id in rows && rows[id].epoch >= epoch {
        return Exists;
      }
      rows := rows[id := Row(epoch, now)];
      return Ok;
    }

    /** Refreshes the time stamp of this very incarnation's row. */
    method Heartbeat(id: nat, epoch: nat, now: nat) returns (st: Status)
      modifies this
      ensures st in {Ok, NotFound, Stale}
      ensures st == NotFound <==> id !in old(rows)
      ensures rows == Next(old(rows), Step.Heartbeat(id, epoch, now))
                && st == Answer(old(rows), Step.Heartbeat(id, epoch, now))
      ensures st == Stale <==> id in old(rows) && old(rows)[id].epoch != epoch
      ensures rows == if st == Ok then old(rows)[id := Row(epoch, now)] else old(rows)
    {
      if id !in rows { return NotFound; }
      if rows[id].epoch != epoch { return Stale; }
      rows := rows[id := rows[id].(heartbeat := now)];
      return Ok;
    }

    /** Deletes this very incarnation's row; one already gone is a retried shutdown. */
    method Deregister(id: nat, epoch: nat) returns (st: Status)
      modifies this
      ensures st in {Ok, Stale}
      ensures rows == Next(old(rows), Step.Deregister(id, epoch)) && st == Answer(old(rows), Step.Deregister(id, epoch))
      ensures st == Stale <==> id in old(rows) && old(rows)[id].epoch != epoch
      ensures rows == if st == Ok then old(rows) - {id} else old(rows)
    {
      if id !in rows { return Ok; }
      if rows[id].epoch != epoch { return Stale; }
      rows := rows - {id};
      return Ok;
    }

    /** Every row stamped before the threshold. */
    method ScanStale(threshold: nat) returns (ids: set<nat>)
      ensures forall id :: id in ids <==> id in rows && rows[id].heartbeat < threshold
    {
      ids := {};
      var rest := rows.Keys;
      while rest != {}
        invariant rest <= rows.Keys
        invariant forall id :: id in ids <==> id in rows && id !in rest && rows[id].heartbeat < threshold
        decreases |rest|
      {
        var id :| id in rest;
        if rows[id].heartbeat < threshold {
          ids := ids + {id};
        }
        rest := rest - {id};
      }
    }
  }

  // ---------------------------------------------------------------------------
  // Runs
  // ---------------------------------------------------------------------------

  datatype Step = Register(id: nat, epoch: nat, now: nat) | Heartbeat(id: nat, epoch: nat, now: nat)
      | Deregister(id: nat, epoch: nat)

  function Next(rows: Rows, s: Step): Rows {
    match s
    case Register(id, epoch, now) =>
      if id in rows && rows[id].epoch >= epoch then rows else rows[id := Row(epoch, now)]
    case Heartbeat(id, epoch, now) =>
      if id in rows && rows[id].epoch == epoch then rows[id := Row(epoch, now)] else rows
    case Deregister(id, epoch) =>
      if id in rows && rows[id].epoch == epoch then rows - {id} else rows
  }

  /** What the incarnation that asked for the step is told. */
  function Answer(rows: Rows, s: Step): Status {
    match s
    case Register(id, epoch, _) => if id in rows && rows[id].epoch >= epoch then Exists else Ok
    case Heartbeat(id, epoch, _) =>
      if id !in rows then NotFound else if rows[id].epoch == epoch then Ok else Stale
    case Deregister(id, epoch) => if id in rows && rows[id].epoch != epoch then Stale else Ok
  }

  ghost predicate Run(trace: seq<Rows>, steps: seq<Step>) {
    && |trace| == |steps| + 1
    && forall i | 0 <= i < |steps| :: trace[i + 1] == Next(trace[i], steps[i])
  }

  /** While a row persists its epoch never goes down. */
  lemma {:induction false} EpochsGrow(trace: seq<Rows>, steps: seq<Step>, id: nat, i: nat, j: nat)
    requires Run(trace, steps) && i <= j < |trace|
    requires forall k | i <= k <= j :: id in trace[k]
    ensures trace[i][id].epoch <= trace[j][id].epoch
    decreases j
  {
    if i < j {
      EpochsGrow(trace, steps, id, i, j - 1);
    }
  }

  /** The incarnation that acts on a row, if the row changes at all, is the one whose epoch
      it carries afterwards (or carried until it was deleted). */
  lemma OnlyTheOwnerActs(rows: Rows, s: Step, id: nat)
    requires id in rows && (id !in Next(rows, s) || Next(rows, s)[id] != rows[id])
    ensures s.id == id
    ensures s.Register? ==> s.epoch > rows[id].epoch
    ensures !s.Register? ==> s.epoch == rows[id].epoch
  {
  }

  /** Once superseded, an old incarnation can neither refresh nor delete the row, for as
      long as the row persists, and is told that it is stale. */
  lemma SupersededIsFenced(trace: seq<Rows>, steps: seq<Step>, id: nat, i: nat, j: nat, gone: nat)
    requires Run(trace, steps) && i <= j < |steps|
    requires forall k | i <= k <= j :: id in trace[k]
    requires gone < trace[i][id].epoch
    requires steps[j] == Deregister(id, gone) || (steps[j].Heartbeat? && steps[j].id == id && steps[j].epoch == gone)
    ensures trace[j + 1] == trace[j] && Answer(trace[j], steps[j]) == Stale
  {
    EpochsGrow(trace, steps, id, i, j);
  }

  // ---------------------------------------------------------------------------
  // The watchdog
  // ---------------------------------------------------------------------------

  const FLOOR_NS: nat := 1577836800000000000
  const MS: nat := 1000000
  const STALE_NS: nat := 15000 * MS
  const DEADLINE_NS: nat := 10000 * MS
  const INTERVAL_NS: nat := 5000 * MS

  /** A stamp that can come from a realtime clock. */
  predicate Plausible(heartbeat: nat) {
    heartbeat >= FLOOR_NS
  }

  function Threshold(now: nat): nat {
    if now > STALE_NS then now - STALE_NS else 0
  }

  /** One observation: the partner's row is stale and stamped in realtime. */
  method PartnerIsStale(registry: Registry, partner: nat, now: nat) returns (stale: bool)
    ensures stale <==> partner in registry.rows && DeclaredStale(registry.rows[partner].heartbeat, now)
    // Fifteen seconds without a stamp, and a stamp from 2020 or later.
    ensures stale <==>
              && partner in registry.rows
              && 1_577_836_800_000_000_000 <= registry.rows[partner].heartbeat < now - 15_000_000_000
  {
    var ids := registry.ScanStale(Threshold(now));
    stale := partner in ids && Plausible(registry.rows[partner].heartbeat);
  }

  predicate DeclaredStale(heartbeat: nat, now: nat) {
    heartbeat < Threshold(now) && Plausible(heartbeat)
  }

  /** A row below the realtime floor never leads to a promotion. */
  lemma IndeterminateIsNotStale(heartbeat: nat, now: nat)
    requires heartbeat < FLOOR_NS
    ensures !DeclaredStale(heartbeat, now)
  {
  }

  /** The times at which a live node stamps its row: it registers, starts its heartbeat
      within the startup deadline, and then beats at every interval. */
  ghost predicate Schedule(stamps: seq<nat>) {
    && |stamps| > 0 && Plausible(stamps[0])
    && forall i | 0 < i < |stamps| :: stamps[i - 1] <= stamps[i] <= stamps[i - 1] + Gap(i - 1)
  }

  /** How long stamp `i` may have to last. */
  function Gap(i: nat): nat {
    if i == 0 then DEADLINE_NS else INTERVAL_NS
  }

  /** At time `t` the row carries stamp `k`, and the next one is not overdue. */
  ghost predicate Carries(stamps: seq<nat>, t: nat, k: nat) {
    && k < |stamps| && stamps[k] <= t <= stamps[k] + Gap(k)
    && (k + 1 < |stamps| ==> t < stamps[k + 1])
  }

  /** No schedule of a live node lets a watchdog whose clock is `ahead` of the node's
      declare it stale. */
  ghost predicate NeverStale(ahead: int) {
    forall stamps, t: nat, k: nat | Schedule(stamps) && Carries(stamps, t, k) && t + ahead >= 0 ::
      !DeclaredStale(stamps[k], t + ahead)
  }

  /** The tolerated clock difference is exactly the threshold minus the startup deadline. */
  lemma NeverStaleIff(ahead: int)
    ensures NeverStale(ahead) <==> ahead <= STALE_NS - DEADLINE_NS
    ensures NeverStale(ahead) <==> ahead <= 5_000_000_000
  {
    if ahead > STALE_NS - DEADLINE_NS {
      var stamps := [FLOOR_NS];
      var t := FLOOR_NS + DEADLINE_NS;
      assert Schedule(stamps) && Carries(stamps, t, 0);
      assert DeclaredStale(stamps[0], t + ahead);
    }
  }
}
