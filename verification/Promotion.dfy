/** One node's promotion, run without interference: the owner compare-and-swap of the
    partition table, the takeover loop, and the promotion with its rollback. */
module Promotion {

  type NodeId = nat
  type Part = nat
  type Owners = map<Part, NodeId>

  datatype Role = Standby | Promoting | Primary

  datatype Status = Ok | NotFound | Stale | Io | Perm | LoadFailed

  class PartitionTable {
    var owner: Owners

    constructor (owner: Owners)
      ensures this.owner == owner
    {
      this.owner := owner;
    }

    /** A partition is claimed once: an insert-only put refuses a claimed one. */
    method Claim(x: Part, n: NodeId) returns (st: Status)
      modifies this
      ensures st == (if x in old(owner) then Stale else Ok)
      ensures owner == if st == Ok then old(owner)[x := n] else old(owner)
    {
      if x in owner { return Stale; }
      owner := owner[x := n];
      return Ok;
    }

    /** `up` says whether the store answers at all. */
    method Cas(x: Part, expected: NodeId, n: NodeId, up: bool) returns (st: Status)
      modifies this
      ensures st == Ok <==> up && x in old(owner) && old(owner)[x] == expected
      ensures st == Io <==> !up
      ensures st == NotFound <==> up && x !in old(owner)
      ensures st == Stale <==> up && x in old(owner) && old(owner)[x] != expected
      ensures st in {Ok, Io, NotFound, Stale}
      ensures owner == if st == Ok then old(owner)[x := n] else old(owner)
    {
      if !up { return Io; }
      if x !in owner { return NotFound; }
      if owner[x] != expected { return Stale; }
      owner := owner[x := n];
      return Ok;
    }
  }

  function OwnedBy(o: Owners, n: NodeId): set<Part> {
    set x | x in o && o[x] == n
  }

  /** `o` with the partitions of `xs` given to `n`. */
  function Given(o: Owners, xs: set<Part>, n: NodeId): Owners {
    map x | x in o :: if x in xs then n else o[x]
  }

  lemma GivenMore(o: Owners, xs: set<Part>, x: Part, n: NodeId)
    requires x in o
    ensures Given(o, xs + {x}, n) == Given(o, xs, n)[x := n]
  {
  }

  /** What can move: given to `from` by the view and by the store, and reachable. */
  ghost function Movable(view: Owners, owner: Owners, from: NodeId, up: set<Part>): set<Part> {
    OwnedBy(view, from) * OwnedBy(owner, from) * up
  }

  class Promoter {
    const self: NodeId
    const partner: NodeId
    var role: Role
    var view: Owners

    constructor (self: NodeId, partner: NodeId, view: Owners)
      requires self != partner
      ensures this.self == self && this.partner == partner && role == Standby && this.view == view
    {
      this.self, this.partner, role, this.view := self, partner, Standby, view;
    }

    /** Store first, view second: move one entry between two owners. */
    method Transfer(table: PartitionTable, x: Part, from: NodeId, to: NodeId, up: bool) returns (st: Status)
      modifies table, this`view
      ensures st == Ok <==>
                up && x in OwnedBy(old(view), from) && x in OwnedBy(old(table.owner), from)
      ensures st == Io <==> !up && x in old(view) && old(view)[x] == from
      ensures st == NotFound <==> x !in old(view) || (up && old(view)[x] == from && x !in old(table.owner))
      ensures st in {Ok, Io, Stale, NotFound}
      ensures st == Ok ==> view == old(view)[x := to] && table.owner == old(table.owner)[x := to]
      ensures st != Ok ==> view == old(view) && table.owner == old(table.owner)
    {
      if x !in view { return NotFound; }
      if view[x] != from { return Stale; }
      st := table.Cas(x, from, to, up);
      if st == Ok {
        view := view[x := to];
      }
    }

    /** Move the given partitions, one transfer each; which of them moved, and whether the
        store failed to answer for any that the view still gives to `from`. */
    method MoveAll(table: PartitionTable, parts: set<Part>, from: NodeId, to: NodeId, up: set<Part>)
      returns (moved: set<Part>, broken: bool)
      modifies table, this`view
      ensures moved == parts * Movable(old(view), old(table.owner), from, up)
      ensures view == Given(old(view), moved, to) && table.owner == Given(old(table.owner), moved, to)
      ensures broken <==> exists x :: x in parts && x in OwnedBy(old(view), from) && x !in up
    {
      moved, broken := {}, false;
      var todo := parts;
      NothingGiven(view, to);
      NothingGiven(table.owner, to);
      while todo != {}
        invariant todo <= parts
        invariant forall x :: x in moved <==>
                    x in parts && x !in todo && x in Movable(old(view), old(table.owner), from, up)
        invariant view == Given(old(view), moved, to) && table.owner == Given(old(table.owner), moved, to)
        invariant broken <==> exists x :: x in parts && x !in todo && x in OwnedBy(old(view), from) && x !in up
        decreases |todo|
      {
        var x :| x in todo;
        var s := Transfer(table, x, from, to, x in up);
        if s == Ok {
          GivenMore(old(view), moved, x, to);
          GivenMore(old(table.owner), moved, x, to);
          moved := moved + {x};
        } else if s != Stale && s != NotFound {
          broken := true;
        }
        todo := todo - {x};
      }
    }

    /** Take every partition of the partner that the store still records as its own. */
    method TakeOver(table: PartitionTable, up: set<Part>) returns (st: Status, taken: set<Part>)
      modifies table, this`view
      ensures taken == OwnedBy(old(view), partner) * OwnedBy(old(table.owner), partner) * up
      ensures view == Given(old(view), taken, self) && table.owner == Given(old(table.owner), taken, self)
      ensures st == Ok <==> taken != {} || OwnedBy(old(view), partner) == {}
      ensures st == Io <==> st != Ok && !(OwnedBy(old(view), partner) <= up)
      ensures st == Stale <==> st != Ok && OwnedBy(old(view), partner) <= up
    {
      var owned := OwnedBy(view, partner);
      var broken: bool;
      taken, broken := MoveAll(table, owned, partner, self, up);
      if taken != {} || owned == {} {
        return Ok, taken;
      }
      return if broken then Io else Stale, taken;
    }

    /** Give back what this node holds of the partitions recorded before the takeover, as far
        as the store answers; failures are not looked at. */
    method RollBack(table: PartitionTable, planned: set<Part>, up: set<Part>)
      modifies table, this`view
      ensures var back := planned * OwnedBy(old(view), self) * OwnedBy(old(table.owner), self) * up;
        view == Given(old(view), back, partner) && table.owner == Given(old(table.owner), back, partner)
    {
      ghost var back := planned * OwnedBy(view, self) * OwnedBy(table.owner, self) * up;
      var moved, _ := MoveAll(table, planned, self, partner, up);
      assert moved == back;
    }

    /** The promotion: refused unless standby; a takeover that gains nothing and a failed
        recovery load both end in standby. */
    method Promote(table: PartitionTable, healthy: bool, up: set<Part>, loads: bool, upAgain: set<Part>)
      returns (st: Status)
      requires self != partner
      modifies table, this
      ensures st == Perm <==> old(role) != Standby || !healthy
      ensures st == Perm ==> role == old(role) && view == old(view) && table.owner == old(table.owner)
      ensures st == Ok ==> role == Primary
      ensures st == Ok ==> var taken := OwnedBy(old(view), partner) * OwnedBy(old(table.owner), partner) * up;
                && (taken != {} || OwnedBy(old(view), partner) == {})
                && view == Given(old(view), taken, self) && table.owner == Given(old(table.owner), taken, self)
      ensures st in {Stale, Io} ==> role == Standby && view == old(view) && table.owner == old(table.owner)
      ensures st == LoadFailed ==> role == Standby
      ensures st in {Ok, Perm, Stale, Io, LoadFailed}
      // Each of them exactly when: something was gained or there was nothing to gain, and then the
      // recovery load decides; else the store decides between a lost race and a failure.
      ensures var owned := OwnedBy(old(view), partner);
        var gains := owned * OwnedBy(old(table.owner), partner) * up != {} || owned == {};
        && (st == Ok <==> old(role) == Standby && healthy && gains && loads)
        && (st == LoadFailed <==> old(role) == Standby && healthy && gains && !loads)
        && (st == Stale <==> old(role) == Standby && healthy && !gains && owned <= up)
        && (st == Io <==> old(role) == Standby && healthy && !gains && !(owned <= up))
      // After a failed recovery load it keeps exactly what it took and could not give back.
      ensures st == LoadFailed ==>
                var kept := OwnedBy(old(view), partner) * OwnedBy(old(table.owner), partner) * up - upAgain;
                view == Given(old(view), kept, self) && table.owner == Given(old(table.owner), kept, self)
      // So a rollback for which the store answers for everything taken leaves no trace.
      ensures st == LoadFailed && OwnedBy(old(view), partner) * OwnedBy(old(table.owner), partner) * up <= upAgain ==>
                view == old(view) && table.owner == old(table.owner)
    {
      if role != Standby {
        return Perm;
      }
      role := Promoting;
      if !healthy {
        role := Standby;
        return Perm;
      }
      var planned := OwnedBy(view, partner);
      ghost var view0, owner0 := view, table.owner;
      var s, taken := TakeOver(table, up);
      NothingGiven(view0, self);
      NothingGiven(owner0, self);
      if s != Ok {
        role := Standby;
        return s;
      }
      if !loads {
        ghost var view1, owner1 := view, table.owner;
        RollBack(table, planned, upAgain);
        HandedBack(view0, owner0, planned, taken, upAgain, self, partner);
        if taken <= upAgain {
          NothingKept(view0, taken, upAgain, self);
          NothingKept(owner0, taken, upAgain, self);
        }
        role := Standby;
        return LoadFailed;
      }
      role := Primary;
      return Ok;
    }
  }

  lemma NothingGiven(o: Owners, n: NodeId)
    ensures Given(o, {}, n) == o
  {
  }

  /** Giving back what one holds of the recorded partitions undoes the takeover, but for what
      the store does not answer for. */
  lemma HandedBack(view: Owners, owner: Owners, planned: set<Part>, taken: set<Part>, up: set<Part>,
                   self: NodeId, partner: NodeId)
    requires self != partner && planned == OwnedBy(view, partner) && taken <= planned * OwnedBy(owner, partner)
    ensures var view', owner' := Given(view, taken, self), Given(owner, taken, self);
      var back := planned * OwnedBy(view', self) * OwnedBy(owner', self) * up;
      Given(view', back, partner) == Given(view, taken - up, self)
      && Given(owner', back, partner) == Given(owner, taken - up, self)
  {
    var view', owner' := Given(view, taken, self), Given(owner, taken, self);
    assert planned * OwnedBy(view', self) * OwnedBy(owner', self) * up == taken * up;
  }

  /** So a rollback during which the store answers for everything leaves no trace. */
  lemma NothingKept(o: Owners, taken: set<Part>, up: set<Part>, n: NodeId)
    requires taken <= up
    ensures Given(o, taken - up, n) == o
  {
  }
}
