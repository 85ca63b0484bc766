/** The promotion of one node without interference is a run of the steps of module Failover,
    and ends where that run ends. */
module PromotionRuns {
  import P = Promotion
  import F = Failover

  type Owners = P.Owners
  type Part = P.Part
  type NodeId = P.NodeId

  /** Steps of one world to the next. */
  ghost predicate Path(trace: seq<F.World>, steps: seq<F.Step>, p: NodeId) {
    && |trace| == |steps| + 1
    && forall i | 0 <= i < |steps| :: F.Goes(trace, steps, p, i)
  }

  ghost predicate Ends(trace: seq<F.World>, steps: seq<F.Step>, p: NodeId, n: NodeId, from: F.World, to: F.World) {
    && Path(trace, steps, p) && trace[0] == from && trace[|steps|] == to
    && forall s | s in steps :: s.n == n
  }

  lemma Further(trace: seq<F.World>, steps: seq<F.Step>, p: NodeId, n: NodeId, from: F.World, to: F.World,
      s: F.Step, w: F.World)
    requires Ends(trace, steps, p, n, from, to) && s.n == n && F.Leads(to, p, s, w)
    ensures Ends(trace + [w], steps + [s], p, n, from, w)
  {
    var trace', steps' := trace + [w], steps + [s];
    forall i | 0 <= i < |steps'| ensures F.Goes(trace', steps', p, i) {
      assert i < |steps| ==> F.Goes(trace, steps, p, i);
    }
  }

  /** What the promotion starts from, and the parties to it. */
  datatype Case = Case(view: Owners, owner: Owners, p: NodeId, n: NodeId, up: set<Part>, upAgain: set<Part>)

  function Owned(c: Case): set<Part> {
    P.OwnedBy(c.view, c.p)
  }

  function Taken(c: Case): set<Part> {
    Owned(c) * P.OwnedBy(c.owner, c.p) * c.up
  }

  /** The world in which the node has taken or kept exactly these partitions. */
  function Holding(c: Case, phase: F.Phase, todo: set<Part>, held: set<Part>, broken: bool, graced: bool,
      outcome: F.Outcome): F.World
  {
    F.World(P.Given(c.owner, held, c.n),
            map[c.n := F.Node(phase, P.Given(c.view, held, c.n), Owned(c), Owned(c), todo, held, held, broken, graced,
                              outcome)])
  }

  lemma SameOwned(o: Owners, n: NodeId)
    ensures F.OwnedBy(o, n) == P.OwnedBy(o, n)
  {
  }

  lemma Overwrite(n: NodeId, a: F.Node, b: F.Node)
    ensures map[n := a][n := b] == map[n := b]
  {
  }

  lemma GivenOne(o: Owners, held: set<Part>, x: Part, n: NodeId)
    requires x in o
    ensures P.Given(o, held, n)[x := n] == P.Given(o, held + {x}, n)
  {
  }

  lemma TakenBack(o: Owners, held: set<Part>, x: Part, n: NodeId, p: NodeId)
    requires x in o && o[x] == p
    ensures P.Given(o, held, n)[x := p] == P.Given(o, held - {x}, n)
  {
  }

  // ---------------------------------------------------------------------------
  // Taking
  // ---------------------------------------------------------------------------

  /** With `todo` still to come. */
  function Midst(c: Case, todo: set<Part>): F.World {
    Holding(c, F.Taking, todo, Taken(c) - todo, !(Owned(c) - todo <= c.up), false, F.NoOutcome)
  }

  lemma Unreachable(c: Case, todo: set<Part>, x: Part)
    requires c.n != c.p && x in todo && todo <= Owned(c) && x !in c.up
    ensures F.Leads(Midst(c, todo), c.p, F.SwapFails(c.n, x), Midst(c, todo - {x}))
  {
    assert Taken(c) - (todo - {x}) == Taken(c) - todo;
    assert x in Owned(c) - (todo - {x});
    Overwrite(c.n, Midst(c, todo).nodes[c.n], Midst(c, todo - {x}).nodes[c.n]);
  }

  lemma BrokenStays(c: Case, todo: set<Part>, x: Part)
    requires x in c.up
    ensures Owned(c) - (todo - {x}) <= c.up <==> Owned(c) - todo <= c.up
  {
    if Owned(c) - todo <= c.up {
      forall y | y in Owned(c) - (todo - {x}) ensures y in c.up {
        assert y == x || y in Owned(c) - todo;
      }
    }
    assert Owned(c) - todo <= Owned(c) - (todo - {x});
  }

  lemma Lost(c: Case, todo: set<Part>, x: Part)
    requires c.n != c.p && x in todo && todo <= Owned(c) && x in c.up && x !in P.OwnedBy(c.owner, c.p)
    ensures F.Leads(Midst(c, todo), c.p, F.Swap(c.n, x), Midst(c, todo - {x}))
  {
    assert Taken(c) - (todo - {x}) == Taken(c) - todo;
    BrokenStays(c, todo, x);
    assert !F.Owns(Midst(c, todo).store, x, c.p);
    Overwrite(c.n, Midst(c, todo).nodes[c.n], Midst(c, todo - {x}).nodes[c.n]);
  }

  /** Between the swap and the change of the map. */
  function Between(c: Case, todo: set<Part>, x: Part): F.World {
    var nd := Midst(c, todo).nodes[c.n];
    F.World(P.Given(c.owner, Taken(c) - (todo - {x}), c.n),
            map[c.n := nd.(phase := F.Flipping(x), todo := todo - {x}, swapped := Taken(c) - (todo - {x}))])
  }

  lemma Won(c: Case, todo: set<Part>, x: Part)
    requires c.n != c.p && x in todo && todo <= Owned(c) && x in Taken(c)
    ensures F.Leads(Midst(c, todo), c.p, F.Swap(c.n, x), Between(c, todo, x))
  {
    assert Taken(c) - (todo - {x}) == Taken(c) - todo + {x};
    GivenOne(c.owner, Taken(c) - todo, x, c.n);
    assert F.Owns(Midst(c, todo).store, x, c.p) && F.Owns(Midst(c, todo).nodes[c.n].view, x, c.p);
    Overwrite(c.n, Midst(c, todo).nodes[c.n], Between(c, todo, x).nodes[c.n]);
  }

  lemma Flipped(c: Case, todo: set<Part>, x: Part)
    requires c.n != c.p && x in todo && todo <= Owned(c) && x in Taken(c)
    ensures F.Leads(Between(c, todo, x), c.p, F.Flip(c.n), Midst(c, todo - {x}))
  {
    assert Taken(c) - (todo - {x}) == Taken(c) - todo + {x};
    GivenOne(c.view, Taken(c) - todo, x, c.n);
    BrokenStays(c, todo, x);
    assert F.Owns(Between(c, todo, x).nodes[c.n].view, x, c.p);
    Overwrite(c.n, Between(c, todo, x).nodes[c.n], Midst(c, todo - {x}).nodes[c.n]);
  }

  /** One turn of the takeover loop. */
  lemma TakeOne(c: Case, todo: set<Part>, x: Part, from: F.World, trace: seq<F.World>, steps: seq<F.Step>)
    returns (trace': seq<F.World>, steps': seq<F.Step>)
    requires c.n != c.p && x in todo && todo <= Owned(c) && Ends(trace, steps, c.p, c.n, from, Midst(c, todo))
    ensures Ends(trace', steps', c.p, c.n, from, Midst(c, todo - {x}))
  {
    if x !in c.up {
      Unreachable(c, todo, x);
      Further(trace, steps, c.p, c.n, from, Midst(c, todo), F.SwapFails(c.n, x), Midst(c, todo - {x}));
      trace', steps' := trace + [Midst(c, todo - {x})], steps + [F.SwapFails(c.n, x)];
    } else if x !in P.OwnedBy(c.owner, c.p) {
      Lost(c, todo, x);
      Further(trace, steps, c.p, c.n, from, Midst(c, todo), F.Swap(c.n, x), Midst(c, todo - {x}));
      trace', steps' := trace + [Midst(c, todo - {x})], steps + [F.Swap(c.n, x)];
    } else {
      Won(c, todo, x);
      Flipped(c, todo, x);
      var mid := Between(c, todo, x);
      Further(trace, steps, c.p, c.n, from, Midst(c, todo), F.Swap(c.n, x), mid);
      Further(trace + [mid], steps + [F.Swap(c.n, x)], c.p, c.n, from, mid, F.Flip(c.n), Midst(c, todo - {x}));
      trace', steps' := trace + [mid] + [Midst(c, todo - {x})], steps + [F.Swap(c.n, x)] + [F.Flip(c.n)];
    }
  }

  lemma {:induction false} TakeAll(c: Case, todo: set<Part>, from: F.World, trace: seq<F.World>, steps: seq<F.Step>)
    returns (trace': seq<F.World>, steps': seq<F.Step>)
    requires c.n != c.p && todo <= Owned(c) && Ends(trace, steps, c.p, c.n, from, Midst(c, todo))
    ensures Ends(trace', steps', c.p, c.n, from, Midst(c, {}))
    decreases |todo|
  {
    if todo == {} {
      trace', steps' := trace, steps;
    } else {
      var x :| x in todo;
      trace', steps' := TakeOne(c, todo, x, from, trace, steps);
      trace', steps' := TakeAll(c, todo - {x}, from, trace', steps');
    }
  }

  // ---------------------------------------------------------------------------
  // Giving back
  // ---------------------------------------------------------------------------

  /** What is still held with `todo` still to return. */
  function Kept(c: Case, todo: set<Part>): set<Part> {
    Taken(c) - (c.upAgain - todo)
  }

  function Returning(c: Case, todo: set<Part>): F.World {
    Holding(c, F.Undoing, todo, Kept(c, todo), !(Owned(c) <= c.up), false, F.NoOutcome)
  }

  lemma NotReturned(c: Case, todo: set<Part>, x: Part)
    requires c.n != c.p && x in todo && todo <= Owned(c) && x !in c.upAgain
    ensures F.Leads(Returning(c, todo), c.p, F.UnswapFails(c.n, x), Returning(c, todo - {x}))
  {
    assert Kept(c, todo - {x}) == Kept(c, todo);
    Overwrite(c.n, Returning(c, todo).nodes[c.n], Returning(c, todo - {x}).nodes[c.n]);
  }

  lemma NotOurs(c: Case, todo: set<Part>, x: Part)
    requires c.n != c.p && x in todo && todo <= Owned(c) && x !in Taken(c)
    ensures F.Leads(Returning(c, todo), c.p, F.Unswap(c.n, x), Returning(c, todo - {x}))
  {
    assert Kept(c, todo - {x}) == Kept(c, todo);
    assert !F.Owns(Returning(c, todo).nodes[c.n].view, x, c.n);
    Overwrite(c.n, Returning(c, todo).nodes[c.n], Returning(c, todo - {x}).nodes[c.n]);
  }

  function HalfReturned(c: Case, todo: set<Part>, x: Part): F.World {
    var nd := Returning(c, todo).nodes[c.n];
    F.World(P.Given(c.owner, Kept(c, todo) - {x}, c.n),
            map[c.n := nd.(phase := F.Unflipping(x), todo := todo - {x}, swapped := Kept(c, todo) - {x})])
  }

  lemma GivenBack(c: Case, todo: set<Part>, x: Part)
    requires c.n != c.p && x in todo && todo <= Owned(c) && x in Taken(c)
    ensures F.Leads(Returning(c, todo), c.p, F.Unswap(c.n, x), HalfReturned(c, todo, x))
  {
    TakenBack(c.owner, Kept(c, todo), x, c.n, c.p);
    assert F.Owns(Returning(c, todo).store, x, c.n) && F.Owns(Returning(c, todo).nodes[c.n].view, x, c.n);
    Overwrite(c.n, Returning(c, todo).nodes[c.n], HalfReturned(c, todo, x).nodes[c.n]);
  }

  lemma Unflipped(c: Case, todo: set<Part>, x: Part)
    requires c.n != c.p && x in todo && todo <= Owned(c) && x in Taken(c) * c.upAgain
    ensures F.Leads(HalfReturned(c, todo, x), c.p, F.Unflip(c.n), Returning(c, todo - {x}))
  {
    assert Kept(c, todo - {x}) == Kept(c, todo) - {x};
    TakenBack(c.view, Kept(c, todo), x, c.n, c.p);
    assert F.Owns(HalfReturned(c, todo, x).nodes[c.n].view, x, c.n);
    Overwrite(c.n, HalfReturned(c, todo, x).nodes[c.n], Returning(c, todo - {x}).nodes[c.n]);
  }

  /** One turn of the rollback loop. */
  lemma ReturnOne(c: Case, todo: set<Part>, x: Part, from: F.World, trace: seq<F.World>, steps: seq<F.Step>)
    returns (trace': seq<F.World>, steps': seq<F.Step>)
    requires c.n != c.p && x in todo && todo <= Owned(c) && Ends(trace, steps, c.p, c.n, from, Returning(c, todo))
    ensures Ends(trace', steps', c.p, c.n, from, Returning(c, todo - {x}))
  {
    var w, w' := Returning(c, todo), Returning(c, todo - {x});
    if x !in c.upAgain {
      NotReturned(c, todo, x);
      Further(trace, steps, c.p, c.n, from, w, F.UnswapFails(c.n, x), w');
      trace', steps' := trace + [w'], steps + [F.UnswapFails(c.n, x)];
    } else if x !in Taken(c) {
      NotOurs(c, todo, x);
      Further(trace, steps, c.p, c.n, from, w, F.Unswap(c.n, x), w');
      trace', steps' := trace + [w'], steps + [F.Unswap(c.n, x)];
    } else {
      GivenBack(c, todo, x);
      Unflipped(c, todo, x);
      var mid := HalfReturned(c, todo, x);
      Further(trace, steps, c.p, c.n, from, w, F.Unswap(c.n, x), mid);
      Further(trace + [mid], steps + [F.Unswap(c.n, x)], c.p, c.n, from, mid, F.Unflip(c.n), w');
      trace', steps' := trace + [mid] + [w'], steps + [F.Unswap(c.n, x)] + [F.Unflip(c.n)];
    }
  }

  lemma {:induction false} ReturnAll(c: Case, todo: set<Part>, from: F.World, trace: seq<F.World>,
      steps: seq<F.Step>)
    returns (trace': seq<F.World>, steps': seq<F.Step>)
    requires c.n != c.p && todo <= Owned(c) && Ends(trace, steps, c.p, c.n, from, Returning(c, todo))
    ensures Ends(trace', steps', c.p, c.n, from, Returning(c, {}))
    decreases |todo|
  {
    if todo == {} {
      trace', steps' := trace, steps;
    } else {
      var x :| x in todo;
      trace', steps' := ReturnOne(c, todo, x, from, trace, steps);
      trace', steps' := ReturnAll(c, todo - {x}, from, trace', steps');
    }
  }

  // ---------------------------------------------------------------------------
  // The whole promotion
  // ---------------------------------------------------------------------------

  function Standing(c: Case): F.World {
    F.World(c.owner, map[c.n := F.Node(F.Idle, c.view, {}, {}, {}, {}, {}, false, false, F.NoOutcome)])
  }

  function Listed(c: Case): F.World {
    F.World(c.owner, map[c.n := F.Node(F.Listing, c.view, Owned(c), {}, {}, {}, {}, false, false, F.NoOutcome)])
  }

  lemma Opening(c: Case) returns (trace: seq<F.World>, steps: seq<F.Step>)
    requires c.n != c.p
    ensures Ends(trace, steps, c.p, c.n, Standing(c), Midst(c, Owned(c)))
  {
    SameOwned(c.view, c.p);
    Overwrite(c.n, Standing(c).nodes[c.n], Listed(c).nodes[c.n]);
    assert F.Leads(Standing(c), c.p, F.Begin(c.n), Listed(c));
    Untouched(c);
    Overwrite(c.n, Listed(c).nodes[c.n], Midst(c, Owned(c)).nodes[c.n]);
    assert F.Leads(Listed(c), c.p, F.List(c.n), Midst(c, Owned(c)));
    trace, steps := [Standing(c)], [];
    Further(trace, steps, c.p, c.n, Standing(c), Standing(c), F.Begin(c.n), Listed(c));
    trace, steps := trace + [Listed(c)], steps + [F.Begin(c.n)];
    Further(trace, steps, c.p, c.n, Standing(c), Listed(c), F.List(c.n), Midst(c, Owned(c)));
    trace, steps := trace + [Midst(c, Owned(c))], steps + [F.List(c.n)];
  }

  lemma Untouched(c: Case)
    ensures Taken(c) - Owned(c) == {} && Owned(c) - Owned(c) <= c.up
    ensures P.Given(c.view, {}, c.n) == c.view && P.Given(c.owner, {}, c.n) == c.owner
  {
  }

  predicate Gains(c: Case) {
    Taken(c) != {} || Owned(c) == {}
  }

  /** Where the promotion ends. */
  function Finish(c: Case, loads: bool): F.World {
    var broken := !(Owned(c) <= c.up);
    if !Gains(c) then Holding(c, F.Idle, {}, {}, broken, false, if broken then F.StoreFailed else F.LostRace)
    else if loads then Holding(c, F.Primary, {}, Taken(c), broken, true, F.Won)
    else Holding(c, F.Idle, {}, Taken(c) - c.upAgain, broken, false, F.LoadFailed)
  }

  function Loading(c: Case): F.World {
    Holding(c, F.Loading, {}, Taken(c), !(Owned(c) <= c.up), false, F.NoOutcome)
  }

  lemma TakingEnds(c: Case)
    requires c.n != c.p
    ensures F.Leads(Midst(c, {}), c.p, F.EndTaking(c.n), if Gains(c) then Loading(c) else Finish(c, true))
  {
    assert Taken(c) - {} == Taken(c) && Owned(c) - {} == Owned(c);
    var w := if Gains(c) then Loading(c) else Finish(c, true);
    Overwrite(c.n, Midst(c, {}).nodes[c.n], w.nodes[c.n]);
  }

  function Graced(c: Case, phase: F.Phase, graced: bool): F.World {
    Holding(c, phase, {}, Taken(c), !(Owned(c) <= c.up), graced, F.NoOutcome)
  }

  lemma ServingSteps(c: Case)
    requires c.n != c.p && Gains(c)
    ensures F.Leads(Loading(c), c.p, F.Load(c.n, true), Graced(c, F.Entering, false))
    ensures F.Leads(Graced(c, F.Entering, false), c.p, F.Enter(c.n), Graced(c, F.Publishing, true))
    ensures F.Leads(Graced(c, F.Publishing, true), c.p, F.Publish(c.n), Finish(c, true))
  {
    Overwrite(c.n, Loading(c).nodes[c.n], Graced(c, F.Entering, false).nodes[c.n]);
    Overwrite(c.n, Graced(c, F.Entering, false).nodes[c.n], Graced(c, F.Publishing, true).nodes[c.n]);
    Overwrite(c.n, Graced(c, F.Publishing, true).nodes[c.n], Finish(c, true).nodes[c.n]);
  }

  lemma Serving(c: Case, from: F.World, trace: seq<F.World>, steps: seq<F.Step>)
    returns (trace': seq<F.World>, steps': seq<F.Step>)
    requires c.n != c.p && Gains(c) && Ends(trace, steps, c.p, c.n, from, Loading(c))
    ensures Ends(trace', steps', c.p, c.n, from, Finish(c, true))
  {
    var a, b := Graced(c, F.Entering, false), Graced(c, F.Publishing, true);
    ServingSteps(c);
    Further(trace, steps, c.p, c.n, from, Loading(c), F.Load(c.n, true), a);
    trace', steps' := trace + [a], steps + [F.Load(c.n, true)];
    Further(trace', steps', c.p, c.n, from, a, F.Enter(c.n), b);
    trace', steps' := trace' + [b], steps' + [F.Enter(c.n)];
    Further(trace', steps', c.p, c.n, from, b, F.Publish(c.n), Finish(c, true));
    trace', steps' := trace' + [Finish(c, true)], steps' + [F.Publish(c.n)];
  }

  lemma RollingBack(c: Case, from: F.World, trace: seq<F.World>, steps: seq<F.Step>)
    returns (trace': seq<F.World>, steps': seq<F.Step>)
    requires c.n != c.p && Gains(c) && Ends(trace, steps, c.p, c.n, from, Loading(c))
    ensures Ends(trace', steps', c.p, c.n, from, Finish(c, false))
  {
    var w := Returning(c, Owned(c));
    assert Kept(c, Owned(c)) == Taken(c);
    Overwrite(c.n, Loading(c).nodes[c.n], w.nodes[c.n]);
    assert F.Leads(Loading(c), c.p, F.Load(c.n, false), w);
    Further(trace, steps, c.p, c.n, from, Loading(c), F.Load(c.n, false), w);
    trace', steps' := ReturnAll(c, Owned(c), from, trace + [w], steps + [F.Load(c.n, false)]);
    assert Kept(c, {}) == Taken(c) - c.upAgain;
    Overwrite(c.n, Returning(c, {}).nodes[c.n], Finish(c, false).nodes[c.n]);
    assert F.Leads(Returning(c, {}), c.p, F.EndUndoing(c.n), Finish(c, false));
    Further(trace', steps', c.p, c.n, from, Returning(c, {}), F.EndUndoing(c.n), Finish(c, false));
    trace', steps' := trace' + [Finish(c, false)], steps' + [F.EndUndoing(c.n)];
  }

  /** A promotion nobody interferes with, step by step. */
  lemma Steps(c: Case, loads: bool) returns (trace: seq<F.World>, steps: seq<F.Step>)
    requires c.n != c.p
    ensures Ends(trace, steps, c.p, c.n, Standing(c), Finish(c, loads))
  {
    trace, steps := Opening(c);
    trace, steps := TakeAll(c, Owned(c), Standing(c), trace, steps);
    TakingEnds(c);
    var w := if Gains(c) then Loading(c) else Finish(c, true);
    Further(trace, steps, c.p, c.n, Standing(c), Midst(c, {}), F.EndTaking(c.n), w);
    trace, steps := trace + [w], steps + [F.EndTaking(c.n)];
    if Gains(c) && loads {
      trace, steps := Serving(c, Standing(c), trace, steps);
    } else if Gains(c) {
      trace, steps := RollingBack(c, Standing(c), trace, steps);
    }
  }

  /** The outcome a status stands for. */
  function OutcomeOf(st: P.Status): F.Outcome {
    match st
    case Ok => F.Won
    case Stale => F.LostRace
    case Io => F.StoreFailed
    case LoadFailed => F.LoadFailed
    case _ => F.NoOutcome
  }

  /** The promotion of a healthy standby as the code runs it is such a run: it answers with the
      outcome of the run, and leaves view, store and role where the run leaves them. */
  method PromoteInSteps(node: P.Promoter, table: P.PartitionTable, up: set<Part>, loads: bool, upAgain: set<Part>)
    returns (st: P.Status, ghost trace: seq<F.World>, ghost steps: seq<F.Step>)
    requires node.self != node.partner && node.role == P.Standby
    modifies table, node
    ensures Path(trace, steps, node.partner) && forall s | s in steps :: s.n == node.self
    ensures trace[0] == Standing(Case(old(node.view), old(table.owner), node.partner, node.self, up, upAgain))
    ensures var w := trace[|steps|];
      && node.self in w.nodes && w.store == table.owner && w.nodes[node.self].view == node.view
      && w.nodes[node.self].outcome == OutcomeOf(st)
      && (node.role == P.Primary <==> w.nodes[node.self].phase == F.Primary)
      && (node.role == P.Standby <==> w.nodes[node.self].phase == F.Idle)
  {
    ghost var c := Case(node.view, table.owner, node.partner, node.self, up, upAgain);
    st := node.Promote(table, true, up, loads, upAgain);
    trace, steps := Steps(c, loads);
    Untouched(c);
  }
}
