/** Open and share state.  An OPEN publishes its record, drops the lock while the durable
    row is written, and then commits or rolls back; while the write is in flight the record
    is visible to others but frozen.  Share bits are sets of bit positions. */
module OpenState {

  type Bits = set<nat>

  const ACCESS_BOTH: Bits := {0, 1}
  const OWNER_MAX: nat := 128
  const SEQID_MAX: nat := 0xFFFF_FFFF

  datatype Record = Record(client: nat, owner: seq<char>, file: nat, seqid: nat, access: Bits, deny: Bits,
      pending: bool)

  /** Open records by stateid. */
  type Opens = map<nat, Record>

  datatype Status = Ok | Inval | Delay | ShareDenied | BadStateid | OldStateid

  /** What an OPEN must remember across its durable write. */
  datatype Ticket = NoTicket | Fresh(sid: nat) | Upgrade(sid: nat, seqid: nat, prev: Record)

  // ---------------------------------------------------------------------------
  // Share reservations
  // ---------------------------------------------------------------------------

  predicate Clash(access: Bits, deny: Bits, r: Record) {
    access * r.deny != {} || r.access * deny != {}
  }

  ghost predicate Conflict(t: Opens, file: nat, skip: set<nat>, access: Bits, deny: Bits) {
    exists y | y in t && y !in skip :: t[y].file == file && Clash(access, deny, t[y])
  }

  /** No two opens of a file where one's access meets the other's deny. */
  ghost predicate Shares(t: Opens) {
    forall x, y | x in t && y in t && x != y && t[x].file == t[y].file :: t[x].access * t[y].deny == {}
  }

  predicate SameOwner(r: Record, q: Record) {
    r.client == q.client && r.owner == q.owner && r.file == q.file
  }

  ghost predicate OnePerOwner(t: Opens) {
    forall x, y | x in t && y in t && x != y :: !SameOwner(t[x], t[y])
  }

  ghost predicate Sound(t: Opens) {
    Shares(t) && OnePerOwner(t)
  }

  /** The value 0 is reserved: the largest seqid wraps to 1. */
  function Bumped(seqid: nat): nat {
    if seqid == SEQID_MAX then 1 else seqid + 1
  }

  function Upgraded(r: Record, access: Bits, deny: Bits, durable: bool): Record {
    r.(seqid := Bumped(r.seqid), access := r.access + access, deny := r.deny + deny, pending := durable)
  }

  function Downgraded(r: Record, access: Bits, deny: Bits): Record {
    r.(seqid := (r.seqid + 1) % (SEQID_MAX + 1), access := access, deny := deny)
  }

  lemma FreshKeepsSound(t: Opens, sid: nat, r: Record)
    requires Sound(t) && sid !in t && !Conflict(t, r.file, {}, r.access, r.deny)
    requires forall x | x in t :: !SameOwner(t[x], r)
    ensures Sound(t[sid := r])
  {
  }

  lemma UpgradeKeepsSound(t: Opens, sid: nat, access: Bits, deny: Bits, durable: bool)
    requires Sound(t) && sid in t
    requires !Conflict(t, t[sid].file, {sid}, t[sid].access + access, t[sid].deny + deny)
    ensures Sound(t[sid := Upgraded(t[sid], access, deny, durable)])
  {
  }

  /** A new open is refused exactly when it would break the reservations. */
  lemma FreshRefusedIff(t: Opens, sid: nat, r: Record)
    requires Shares(t) && sid !in t
    ensures Conflict(t, r.file, {}, r.access, r.deny) <==> !Shares(t[sid := r])
  {
    var t' := t[sid := r];
    if y :| y in t && t[y].file == r.file && Clash(r.access, r.deny, t[y]) {
      assert t'[sid].access * t'[y].deny != {} || t'[y].access * t'[sid].deny != {};
    }
  }

  /** And so is an OPEN by the owner of a record, for the bits it would end with. */
  lemma ReopenRefusedIff(t: Opens, sid: nat, access: Bits, deny: Bits, durable: bool)
    requires Shares(t) && sid in t
    ensures Conflict(t, t[sid].file, {sid}, t[sid].access + access, t[sid].deny + deny) <==>
              !Shares(t[sid := Upgraded(t[sid], access, deny, durable)])
  {
    var t' := t[sid := Upgraded(t[sid], access, deny, durable)];
    if y :| y in t && y != sid && t[y].file == t[sid].file && Clash(t'[sid].access, t'[sid].deny, t[y]) {
      assert t'[sid].access * t'[y].deny != {} || t'[y].access * t'[sid].deny != {};
    }
  }

  /** Bits only shrink: nothing new can clash. */
  lemma ShrinkKeepsSound(t: Opens, sid: nat, r: Record)
    requires Sound(t) && sid in t && SameOwner(r, t[sid]) && r.access <= t[sid].access && r.deny <= t[sid].deny
    ensures Sound(t[sid := r])
  {
  }

  lemma RemoveKeepsSound(t: Opens, gone: set<nat>)
    requires Sound(t)
    ensures Sound(t - gone)
  {
  }

  /** OPEN_DOWNGRADE checks that the access shrinks but stores any deny it is given: it
      keeps the reservations exactly when the new deny meets no other open's access. */
  lemma DowngradeSoundIff(t: Opens, sid: nat, access: Bits, deny: Bits)
    requires Sound(t) && sid in t && access <= t[sid].access
    ensures Sound(t[sid := Downgraded(t[sid], access, deny)]) <==>
      forall y | y in t && y != sid && t[y].file == t[sid].file :: t[y].access * deny == {}
  {
    var t' := t[sid := Downgraded(t[sid], access, deny)];
    if y :| y in t && y != sid && t[y].file == t[sid].file && t[y].access * deny != {} {
      assert t'[y].access * t'[sid].deny != {};
    }
  }

  /** Two readers share a file; one "downgrades" to deny reading. */
  lemma DowngradeBreaksShares()
    ensures var r := Record(1, "a", 7, 1, {0}, {}, false);
      var t: Opens := map[1 := r, 2 := r.(owner := "b")];
      Sound(t) && !Sound(t[1 := Downgraded(t[1], {0}, {0})])
  {
    var r := Record(1, "a", 7, 1, {0}, {}, false);
    var t: Opens := map[1 := r, 2 := r.(owner := "b")];
    assert t[1].owner[0] != t[2].owner[0];
    DowngradeSoundIff(t, 1, {0}, {0});
    assert 0 in t[2].access * {0};
  }

  // ---------------------------------------------------------------------------
  // Runs: the window of a durable write
  // ---------------------------------------------------------------------------

  datatype Step =
    | OpenFresh(sid: nat, r: Record)
    | OpenAgain(sid: nat, access: Bits, deny: Bits, durable: bool)
    | Commit(sid: nat)
    | Rollback(sid: nat, prev: Record)
    | Unwind(sid: nat)
    | Close(sid: nat)
    | Downgrade(sid: nat, access: Bits, deny: Bits)
    | Revoke(gone: set<nat>)

  ghost function OfClient(t: Opens, client: nat): set<nat> {
    set x | x in t && t[x].client == client
  }

  ghost predicate Enabled(t: Opens, s: Step) {
    match s
    case OpenFresh(sid, r) =>
      && sid !in t && !Conflict(t, r.file, {}, r.access, r.deny)
      && (forall x | x in t :: !SameOwner(t[x], r))
    case OpenAgain(sid, access, deny, durable) =>
      && sid in t && !t[sid].pending
      && !Conflict(t, t[sid].file, {sid}, t[sid].access + access, t[sid].deny + deny)
    case Commit(sid) => sid in t && t[sid].pending
    case Rollback(sid, prev) =>
      && sid in t && t[sid].pending && t[sid].seqid == Bumped(prev.seqid)
      && SameOwner(prev, t[sid]) && prev.access <= t[sid].access && prev.deny <= t[sid].deny && !prev.pending
    case Unwind(sid) => sid in t && t[sid].pending
    case Close(sid) => sid in t && !t[sid].pending
    case Downgrade(sid, access, deny) => sid in t && !t[sid].pending && access <= t[sid].access
    case Revoke(_) => true
  }

  ghost function Next(t: Opens, s: Step): Opens
    requires Enabled(t, s)
  {
    match s
    case OpenFresh(sid, r) => t[sid := r]
    case OpenAgain(sid, access, deny, durable) => t[sid := Upgraded(t[sid], access, deny, durable)]
    case Commit(sid) => t[sid := t[sid].(pending := false)]
    case Rollback(sid, prev) => t[sid := prev]
    case Unwind(sid) => t - {sid}
    case Close(sid) => t - {sid}
    case Downgrade(sid, access, deny) => t[sid := Downgraded(t[sid], access, deny)]
    case Revoke(gone) => t - gone
  }

  /** The one step that can break the reservations, and exactly when. */
  ghost predicate Unchecked(t: Opens, s: Step) {
    && s.Downgrade? && s.sid in t
    && exists y | y in t && y != s.sid && t[y].file == t[s.sid].file :: t[y].access * s.deny != {}
  }

  lemma StepSoundIff(t: Opens, s: Step)
    requires Sound(t) && Enabled(t, s)
    ensures Sound(Next(t, s)) <==> !Unchecked(t, s)
  {
    match s
    case OpenFresh(sid, r) => FreshKeepsSound(t, sid, r);
    case OpenAgain(sid, access, deny, durable) => UpgradeKeepsSound(t, sid, access, deny, durable);
    case Commit(sid) => ShrinkKeepsSound(t, sid, t[sid].(pending := false));
    case Rollback(sid, prev) => ShrinkKeepsSound(t, sid, prev);
    case Unwind(sid) => RemoveKeepsSound(t, {sid});
    case Close(sid) => RemoveKeepsSound(t, {sid});
    case Downgrade(sid, access, deny) => DowngradeSoundIff(t, sid, access, deny);
    case Revoke(gone) => RemoveKeepsSound(t, gone);
  }

  ghost predicate Run(trace: seq<Opens>, steps: seq<Step>) {
    && |trace| == |steps| + 1
    && forall i | 0 <= i < |steps| :: Enabled(trace[i], steps[i]) && trace[i + 1] == Next(trace[i], steps[i])
  }

  /** In every run the reservations hold, pending records included, until a downgrade
      denies what another open has. */
  lemma {:induction false} RunSound(trace: seq<Opens>, steps: seq<Step>, i: nat)
    requires Run(trace, steps) && trace[0] == map[] && i < |trace|
    requires forall j | 0 <= j < i :: !Unchecked(trace[j], steps[j])
    ensures Sound(trace[i])
    ensures i < |steps| && Unchecked(trace[i], steps[i]) ==> !Sound(trace[i + 1])
  {
    if i > 0 {
      RunSound(trace, steps, i - 1);
      StepSoundIff(trace[i - 1], steps[i - 1]);
    }
    if i < |steps| {
      StepSoundIff(trace[i], steps[i]);
    }
  }

  /** The steps by which the OPEN that owns the pending record ends. */
  predicate Ends(s: Step, sid: nat) {
    (s.Commit? || s.Rollback? || s.Unwind?) && s.sid == sid
  }

  predicate Reuses(s: Step, sid: nat) {
    s.OpenFresh? && s.sid == sid
  }

  /** Until its own OPEN ends, a pending record is not touched; it can only be revoked. */
  lemma {:induction false} PendingFrozen(trace: seq<Opens>, steps: seq<Step>, i: nat, j: nat, sid: nat)
    requires Run(trace, steps) && i <= j < |trace| && sid in trace[i] && trace[i][sid].pending
    requires forall k | i <= k < j :: !Ends(steps[k], sid) && !Reuses(steps[k], sid)
    ensures sid in trace[j] ==> trace[j][sid] == trace[i][sid]
    decreases j
  {
    if i < j {
      PendingFrozen(trace, steps, i, j - 1, sid);
    }
  }

  /** A failed durable write restores exactly the record from before the OPEN, whatever
      other opens, closes, downgrades and revocations ran meanwhile. */
  lemma RollbackRestores(trace: seq<Opens>, steps: seq<Step>, i: nat, j: nat, sid: nat)
    requires Run(trace, steps) && i < j < |steps| && steps[i].OpenAgain? && steps[i].sid == sid && steps[i].durable
    requires forall k | i < k < j :: !Ends(steps[k], sid) && !Reuses(steps[k], sid)
    requires sid in trace[j]
    ensures Enabled(trace[j], Rollback(sid, trace[i][sid]))
    ensures Next(trace[j], Rollback(sid, trace[i][sid]))[sid] == trace[i][sid]
  {
    PendingFrozen(trace, steps, i + 1, j, sid);
  }

  // ---------------------------------------------------------------------------
  // The table
  // ---------------------------------------------------------------------------

  /** A presented stateid seqid against the stored one; 0 stands for "the current one". */
  function SeqidCheck(current: nat, presented: nat): Status {
    if presented == 0 || presented == current then Ok
    else if presented < current then OldStateid
    else BadStateid
  }

  predicate Mine(r: Record, client: nat, owner: seq<char>, file: nat) {
    r.client == client && r.owner == owner && r.file == file
  }

  /** What an OPEN by the owner of a record is answered. */
  ghost function AgainAnswer(t: Opens, sid: nat, access: Bits, deny: Bits): Status
    requires sid in t
  {
    if t[sid].pending then Delay
    else if Conflict(t, t[sid].file, {sid}, t[sid].access + access, t[sid].deny + deny) then ShareDenied
    else Ok
  }

  /** What stands in the way of a CLOSE or an OPEN_DOWNGRADE. */
  function Presented(t: Opens, client: nat, sid: nat, seqid: nat): Status {
    if sid !in t || t[sid].client != client then BadStateid
    else if t[sid].pending then Delay
    else SeqidCheck(t[sid].seqid, seqid)
  }

  class OpenTable {
    const durable: bool
    var opens: Opens
    var nextSid: nat

    ghost predicate Valid()
      reads this
    {
      OnePerOwner(opens) && forall x | x in opens :: x < nextSid
    }

    constructor (durable: bool)
      ensures Valid() && opens == map[] && this.durable == durable
    {
      this.durable := durable;
      opens, nextSid := map[], 0;
    }

    /** Walk the records of the file for a clash, passing over one of them. */
    method ShareConflict(file: nat, skip: set<nat>, access: Bits, deny: Bits) returns (clash: bool)
      ensures clash <==> Conflict(opens, file, skip, access, deny)
    {
      var rest := opens.Keys - skip;
      while rest != {}
        invariant rest <= opens.Keys - skip
        invariant forall y | y in opens && y !in skip && y !in rest ::
                    !(opens[y].file == file && Clash(access, deny, opens[y]))
        decreases |rest|
      {
        var y :| y in rest;
        if opens[y].file == file && Clash(access, deny, opens[y]) {
          return true;
        }
        rest := rest - {y};
      }
      return false;
    }

    method FindOwner(client: nat, owner: seq<char>, file: nat) returns (found: bool, sid: nat)
      ensures found ==> sid in opens && Mine(opens[sid], client, owner, file)
      ensures !found ==> forall x | x in opens :: !Mine(opens[x], client, owner, file)
    {
      var rest := opens.Keys;
      while rest != {}
        invariant rest <= opens.Keys
        invariant forall x | x in opens && x !in rest :: !Mine(opens[x], client, owner, file)
        decreases |rest|
      {
        var x :| x in rest;
        if Mine(opens[x], client, owner, file) {
          return true, x;
        }
        rest := rest - {x};
      }
      return false, 0;
    }

    /** The first half of an OPEN.  Without a durable table it is complete; with one the
        record is published pending and the ticket says how to end. */
    method Open(client: nat, owner: seq<char>, file: nat, access: Bits, deny: Bits)
      returns (st: Status, sid: nat, ticket: Ticket)
      requires Valid()
      modifies this
      ensures Valid()
      ensures st != Ok ==> opens == old(opens) && ticket == NoTicket
      ensures st == Inval <==> access * {0, 1} == {} || |owner| > 128
      ensures st == Ok ==> sid in opens && Mine(opens[sid], client, owner, file)
      ensures st == Ok ==> access <= opens[sid].access && deny <= opens[sid].deny
      ensures st == Ok && sid !in old(opens) ==>
        var r := Record(client, owner, file, 1, access, deny, durable);
        Enabled(old(opens), OpenFresh(sid, r)) && opens == Next(old(opens), OpenFresh(sid, r))
      ensures st == Ok && sid in old(opens) ==>
        var s := OpenAgain(sid, access, deny, durable); Enabled(old(opens), s) && opens == Next(old(opens), s)
      ensures st == Ok && durable ==>
        ticket == if sid in old(opens) then Upgrade(sid, opens[sid].seqid, old(opens)[sid]) else Fresh(sid)
      ensures st != Inval && (forall x | x in old(opens) :: !Mine(old(opens)[x], client, owner, file)) ==>
        st == if Conflict(old(opens), file, {}, access, deny) then ShareDenied else Ok
      ensures st != Inval ==> forall x | x in old(opens) && Mine(old(opens)[x], client, owner, file) ::
        st == AgainAnswer(old(opens), x, access, deny) && (st == Ok ==> sid == x)
      // Told from the records: a first OPEN by this owner,
      ensures st != Inval && (forall x | x in old(opens) :: !Mine(old(opens)[x], client, owner, file)) ==>
        && st in {Ok, ShareDenied}
        && (st == ShareDenied <==>
              exists y ::
                && y in old(opens) && old(opens)[y].file == file
                && (access * old(opens)[y].deny != {} || old(opens)[y].access * deny != {}))
        && (st == Ok ==> sid !in old(opens))
        && (st == Ok ==> opens == old(opens)[sid := Record(client, owner, file, 1, access, deny, durable)])
      // and one that finds a record of its own.
      ensures st != Inval ==> forall x | x in old(opens) && Mine(old(opens)[x], client, owner, file) ::
        && st in {Ok, ShareDenied, Delay} && (st == Delay <==> old(opens)[x].pending)
        && (st == ShareDenied <==>
              && !old(opens)[x].pending
              && exists y ::
                   && y in old(opens) && y != x && old(opens)[y].file == file
                   && ((old(opens)[x].access + access) * old(opens)[y].deny != {}
                       || old(opens)[y].access * (old(opens)[x].deny + deny) != {}))
        && (st == Ok ==> opens == old(opens)[x := old(opens)[x].(
              seqid := if old(opens)[x].seqid == 0xFFFF_FFFF then 1 else old(opens)[x].seqid + 1,
              access := old(opens)[x].access + access, deny := old(opens)[x].deny + deny, pending := durable)])
    {
      if access * ACCESS_BOTH == {} || |owner| > OWNER_MAX {
        return Inval, 0, NoTicket;
      }
      var found: bool;
      found, sid := FindOwner(client, owner, file);
      if found {
        st, ticket := Reopen(sid, access, deny);
      } else {
        st, sid, ticket := OpenFirst(client, owner, file, access, deny);
      }
    }

    /** OPEN by an owner that has a record of the file: the bits are added to it. */
    method Reopen(x: nat, access: Bits, deny: Bits) returns (st: Status, ticket: Ticket)
      requires Valid() && x in opens
      modifies this
      ensures Valid()
      ensures st == AgainAnswer(old(opens), x, access, deny)
      ensures st == ShareDenied <==>
                && !old(opens)[x].pending
                && exists y ::
                     && y in old(opens) && y != x && old(opens)[y].file == old(opens)[x].file
                     && ((old(opens)[x].access + access) * old(opens)[y].deny != {}
                         || old(opens)[y].access * (old(opens)[x].deny + deny) != {})
      ensures st != Ok ==> opens == old(opens) && ticket == NoTicket
      ensures st == Ok ==> opens == old(opens)[x := Upgraded(old(opens)[x], access, deny, durable)]
      ensures st == Ok ==> ticket == if durable then Upgrade(x, opens[x].seqid, old(opens)[x]) else NoTicket
    {
      var r := opens[x];
      if r.pending {
        return Delay, NoTicket;
      }
      var clash := ShareConflict(r.file, {x}, r.access + access, r.deny + deny);
      if clash {
        return ShareDenied, NoTicket;
      }
      opens := opens[x := Upgraded(r, access, deny, durable)];
      return Ok, if durable then Upgrade(x, opens[x].seqid, r) else NoTicket;
    }

    /** The first OPEN of the file by an owner. */
    method OpenFirst(client: nat, owner: seq<char>, file: nat, access: Bits, deny: Bits)
      returns (st: Status, sid: nat, ticket: Ticket)
      requires Valid() && forall x | x in opens :: !Mine(opens[x], client, owner, file)
      modifies this
      ensures Valid()
      ensures st == if Conflict(old(opens), file, {}, access, deny) then ShareDenied else Ok
      ensures st == ShareDenied <==>
                exists y ::
                  && y in old(opens) && old(opens)[y].file == file
                  && (access * old(opens)[y].deny != {} || old(opens)[y].access * deny != {})
      ensures st != Ok ==> opens == old(opens) && ticket == NoTicket
      ensures st == Ok ==> sid !in old(opens)
      ensures st == Ok ==> opens == old(opens)[sid := Record(client, owner, file, 1, access, deny, durable)]
      ensures st == Ok ==> ticket == if durable then Fresh(sid) else NoTicket
    {
      var clash := ShareConflict(file, {}, access, deny);
      if clash {
        return ShareDenied, 0, NoTicket;
      }
      sid := nextSid;
      nextSid := nextSid + 1;
      opens := opens[sid := Record(client, owner, file, 1, access, deny, durable)];
      return Ok, sid, if durable then Fresh(sid) else NoTicket;
    }

    /** The second half: commit, roll back an upgrade, or unwind a fresh record.  A record
        revoked meanwhile stays gone and the OPEN is retried. */
    method Finish(ticket: Ticket, persisted: bool) returns (st: Status)
      requires Valid() && !ticket.NoTicket?
      modifies this`opens
      ensures Valid()
      ensures st in {Ok, Delay} && (st == Ok <==> ticket.sid in old(opens) && persisted)
      ensures ticket.sid !in old(opens) ==> opens == old(opens)
      ensures st == Ok ==> opens == old(opens)[ticket.sid := old(opens)[ticket.sid].(pending := false)]
      ensures st == Delay && ticket.Fresh? ==> opens == old(opens) - {ticket.sid}
      // A record that still carries the seqid of this OPEN goes back to what it was.
      ensures st == Delay && ticket.Upgrade? && ticket.sid in old(opens) ==>
                opens == old(opens)[ticket.sid :=
                  if old(opens)[ticket.sid].seqid != ticket.seqid then old(opens)[ticket.sid].(pending := false)
                  else old(opens)[ticket.sid].(seqid := ticket.prev.seqid, access := ticket.prev.access,
                                               deny := ticket.prev.deny, pending := false)]
      ensures st == Delay && ticket.Upgrade? && ticket.sid in old(opens)
                && Enabled(old(opens), Rollback(ticket.sid, ticket.prev)) ==>
                ticket.seqid == old(opens)[ticket.sid].seqid ==>
                    opens == Next(old(opens), Rollback(ticket.sid, ticket.prev))
    {
      var sid := ticket.sid;
      if sid !in opens {
        return Delay;
      }
      if persisted {
        opens := opens[sid := opens[sid].(pending := false)];
        return Ok;
      }
      match ticket {
        case Fresh(_) =>
          opens := opens - {sid};
        case Upgrade(_, seqid, prev) =>
          var cur := opens[sid];
          if cur.seqid == seqid {
            cur := cur.(seqid := prev.seqid, access := prev.access, deny := prev.deny);
          }
          opens := opens[sid := cur.(pending := false)];
      }
      return Delay;
    }

    method Close(client: nat, sid: nat, seqid: nat) returns (st: Status)
      requires Valid()
      modifies this`opens
      ensures Valid()
      ensures st == Presented(old(opens), client, sid, seqid)
      ensures st == Ok <==>
                sid in old(opens) && old(opens)[sid].client == client && !old(opens)[sid].pending
                && seqid in {0, old(opens)[sid].seqid}
      ensures st == Delay <==> sid in old(opens) && old(opens)[sid].client == client && old(opens)[sid].pending
      ensures st == OldStateid <==>
                sid in old(opens) && old(opens)[sid].client == client && !old(opens)[sid].pending
                && 0 < seqid < old(opens)[sid].seqid
      ensures st in {Ok, Delay, OldStateid, BadStateid}
      ensures st == Ok ==> opens == old(opens) - {sid}
      ensures st == Ok ==> Enabled(old(opens), Step.Close(sid)) && opens == Next(old(opens), Step.Close(sid))
      ensures st != Ok ==> opens == old(opens)
    {
      if sid !in opens || opens[sid].client != client {
        return BadStateid;
      }
      if opens[sid].pending {
        return Delay;
      }
      st := SeqidCheck(opens[sid].seqid, seqid);
      if st == Ok {
        opens := opens - {sid};
      }
    }

    method Downgrade(client: nat, sid: nat, seqid: nat, access: Bits, deny: Bits) returns (st: Status)
      requires Valid()
      modifies this`opens
      ensures Valid()
      ensures st == Ok ==> var s := Step.Downgrade(sid, access, deny);
                Enabled(old(opens), s) && opens == Next(old(opens), s)
      ensures st != Ok ==> opens == old(opens)
      ensures Presented(old(opens), client, sid, seqid) != Ok ==> st == Presented(old(opens), client, sid, seqid)
      ensures Presented(old(opens), client, sid, seqid) == Ok ==>
                st == if access <= old(opens)[sid].access then Ok else Inval
      ensures st in {Ok, Inval} <==>
                sid in old(opens) && old(opens)[sid].client == client && !old(opens)[sid].pending
                && seqid in {0, old(opens)[sid].seqid}
      ensures st == Delay <==> sid in old(opens) && old(opens)[sid].client == client && old(opens)[sid].pending
      ensures st == OldStateid <==>
                sid in old(opens) && old(opens)[sid].client == client && !old(opens)[sid].pending
                && 0 < seqid < old(opens)[sid].seqid
      ensures st in {Ok, Inval, Delay, OldStateid, BadStateid}
      ensures st == Ok ==> opens == old(opens)[sid := old(opens)[sid].(
                seqid := (old(opens)[sid].seqid + 1) % 0x1_0000_0000, access := access, deny := deny)]
    {
      if sid !in opens || opens[sid].client != client {
        return BadStateid;
      }
      if opens[sid].pending {
        return Delay;
      }
      st := SeqidCheck(opens[sid].seqid, seqid);
      if st != Ok {
        return;
      }
      if !(access <= opens[sid].access) {
        return Inval;
      }
      opens := opens[sid := Downgraded(opens[sid], access, deny)];
    }

    /** Client teardown or expiry: every record of the client goes, pending or not. */
    method RevokeClient(client: nat)
      requires Valid()
      modifies this`opens
      ensures Valid()
      ensures opens == Next(old(opens), Revoke(OfClient(old(opens), client)))
      ensures forall x :: x in opens <==> x in old(opens) && old(opens)[x].client != client
      ensures forall x | x in opens :: opens[x] == old(opens)[x]
    {
      ClearClient(client);
    }

    /** The walk over all records. */
    method ClearClient(client: nat)
      modifies this`opens
      ensures opens == old(opens) - OfClient(old(opens), client)
    {
      var rest := opens.Keys;
      while rest != {}
        invariant rest <= old(opens).Keys
        invariant opens == old(opens) - (OfClient(old(opens), client) - rest)
        decreases |rest|
      {
        var x :| x in rest;
        if x in opens && opens[x].client == client {
          opens := opens - {x};
        }
        rest := rest - {x};
      }
    }
  }
}
