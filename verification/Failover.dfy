/** Promotion of standbys against one dead partner: every partition row is taken by a
    compare-and-swap in the shared store before the node's own map follows, and a node is
    published only after takeover, recovery load and grace.  Any number of standbys run at
    once; each store or map access is a step of its own, and a map refresh may come in
    between. */
module Failover {

  type NodeId = nat
  type Part = nat

  datatype Phase =
    | Idle                      // STANDBY
    | Listing                   // PROMOTING: the partitions to return on failure are noted
    | Taking                    // the next partition of `todo`
    | Flipping(part: Part)      // its row is ours in the store, the map is not yet
    | Loading                   // recovery clients
    | Undoing                   // rollback: the next partition of `todo`
    | Unflipping(part: Part)    // its row is the partner's again, the map is not yet
    | Entering                  // grace
    | Publishing
    | Primary

  datatype Outcome = NoOutcome | Won | LostRace | StoreFailed | LoadFailed

  datatype Node = Node(
    phase: Phase,
    view: map<Part, NodeId>,    // the node's own view of ownership
    planned: set<Part>,         // the partner's partitions when the promotion began
    listed: set<Part>,          // and when the takeover began
    todo: set<Part>,
    swapped: set<Part>,         // won by this node's own compare-and-swap
    flipped: set<Part>,         // taken in the map
    broken: bool,               // some compare-and-swap could not be decided
    graced: bool,
    outcome: Outcome)

  datatype World = World(store: map<Part, NodeId>, nodes: map<NodeId, Node>)

  datatype Step =
    | Begin(n: NodeId)
    | List(n: NodeId)
    | Swap(n: NodeId, part: Part)
    | SwapFails(n: NodeId, part: Part)
    | Flip(n: NodeId)
    | EndTaking(n: NodeId)
    | Load(n: NodeId, ok: bool)
    | Unswap(n: NodeId, part: Part)
    | UnswapFails(n: NodeId, part: Part)
    | Unflip(n: NodeId)
    | EndUndoing(n: NodeId)
    | Enter(n: NodeId)
    | Publish(n: NodeId)
    | Refresh(n: NodeId)        // the node re-reads the partition map

  predicate Enabled(w: World, p: NodeId, s: Step) {
    && s.n in w.nodes && s.n != p
    && var nd := w.nodes[s.n];
       match s
       case Begin(_) => nd.phase == Idle
       case List(_) => nd.phase == Listing
       case Swap(_, x) => nd.phase == Taking && x in nd.todo
       case SwapFails(_, x) => nd.phase == Taking && x in nd.todo && x in nd.view && nd.view[x] == p
       case Flip(_) => nd.phase.Flipping?
       case EndTaking(_) => nd.phase == Taking && nd.todo == {}
       case Load(_, _) => nd.phase == Loading
       case Unswap(_, x) => nd.phase == Undoing && x in nd.todo
       case UnswapFails(_, x) => nd.phase == Undoing && x in nd.todo
       case Unflip(_) => nd.phase.Unflipping?
       case EndUndoing(_) => nd.phase == Undoing && nd.todo == {}
       case Enter(_) => nd.phase == Entering
       case Publish(_) => nd.phase == Publishing
       case Refresh(_) => true
  }

  predicate Owns(m: map<Part, NodeId>, x: Part, n: NodeId) {
    x in m && m[x] == n
  }

  function OwnedBy(view: map<Part, NodeId>, n: NodeId): set<Part> {
    set x | x in view && view[x] == n
  }

  /** The node after its step, given the store before it. */
  function NextNode(store: map<Part, NodeId>, p: NodeId, nd: Node, s: Step): Node {
    match s
    case Begin(_) =>
      nd.(phase := Listing, planned := OwnedBy(nd.view, p), listed := {}, todo := {}, swapped := {}, flipped := {},
          broken := false, graced := false, outcome := NoOutcome)
    case List(_) =>
      var owned := OwnedBy(nd.view, p);
      nd.(phase := Taking, listed := owned, todo := owned)
    case Swap(n, x) =>
      if Owns(nd.view, x, p) && Owns(store, x, p)
      then nd.(phase := Flipping(x), todo := nd.todo - {x}, swapped := nd.swapped + {x})
      else nd.(todo := nd.todo - {x})
    case SwapFails(_, x) => nd.(todo := nd.todo - {x}, broken := true)
    case Flip(n) =>
      if nd.phase.Flipping? && Owns(nd.view, nd.phase.part, p)
      then nd.(phase := Taking, view := nd.view[nd.phase.part := n], flipped := nd.flipped + {nd.phase.part})
      else nd.(phase := Taking)
    case EndTaking(_) =>
      if nd.flipped != {} || nd.listed == {} then nd.(phase := Loading)
      else nd.(phase := Idle, outcome := if nd.broken then StoreFailed else LostRace)
    case Load(_, ok) =>
      if ok then nd.(phase := Entering) else nd.(phase := Undoing, todo := nd.planned)
    case Unswap(n, x) =>
      if Owns(nd.view, x, n) && Owns(store, x, n)
      then nd.(phase := Unflipping(x), todo := nd.todo - {x}, swapped := nd.swapped - {x})
      else nd.(todo := nd.todo - {x})
    case UnswapFails(_, x) => nd.(todo := nd.todo - {x})
    case Unflip(n) =>
      if nd.phase.Unflipping? && Owns(nd.view, nd.phase.part, n)
      then nd.(phase := Undoing, view := nd.view[nd.phase.part := p], flipped := nd.flipped - {nd.phase.part})
      else nd.(phase := Undoing)
    case EndUndoing(_) => nd.(phase := Idle, outcome := LoadFailed)
    case Enter(_) => nd.(phase := Publishing, graced := true)
    case Publish(_) => nd.(phase := Primary, outcome := Won)
    case Refresh(_) => nd.(view := store)
  }

  /** The compare-and-swaps are the only writes to the store. */
  function NextStore(w: World, p: NodeId, s: Step): map<Part, NodeId>
    requires Enabled(w, p, s)
  {
    match s
    case Swap(n, x) =>
      if Owns(w.nodes[n].view, x, p) && Owns(w.store, x, p) then w.store[x := n] else w.store
    case Unswap(n, x) =>
      if Owns(w.nodes[n].view, x, n) && Owns(w.store, x, n) then w.store[x := p] else w.store
    case _ => w.store
  }

  function Next(w: World, p: NodeId, s: Step): World
    requires Enabled(w, p, s)
  {
    World(NextStore(w, p, s), w.nodes[s.n := NextNode(w.store, p, w.nodes[s.n], s)])
  }

  // ---------------------------------------------------------------------------
  // What every run keeps
  // ---------------------------------------------------------------------------

  /** Phases of a promotion that has not begun to give anything back. */
  predicate Forward(ph: Phase) {
    ph.Flipping? || ph in {Listing, Taking, Loading, Entering, Publishing, Primary}
  }

  ghost predicate NodeInv(nd: Node) {
    && (nd.phase.Flipping? ==> nd.phase.part in nd.swapped)
    && (Forward(nd.phase) ==> nd.flipped <= nd.swapped)
    && (nd.phase == Listing ==> nd.swapped == {})
    && (nd.phase in {Loading, Entering, Publishing, Primary} ==> nd.flipped != {} || nd.listed == {})
    && (nd.phase in {Publishing, Primary} ==> nd.graced)
    && (nd.outcome == LostRace || nd.outcome == StoreFailed ==> nd.phase == Idle && nd.flipped == {})
    && (nd.outcome == Won ==> nd.phase == Primary)
  }

  /** The store gives the node what it swapped, and the node's own view claims nothing the
      store does not give it, except in the instant of handing a partition back. */
  ghost predicate Backed(w: World, n: NodeId)
    requires n in w.nodes
  {
    && (forall x | x in w.nodes[n].swapped :: Owns(w.store, x, n))
    && (forall x | Owns(w.nodes[n].view, x, n) :: Owns(w.store, x, n) || w.nodes[n].phase == Unflipping(x))
  }

  ghost predicate Inv(w: World) {
    forall n | n in w.nodes :: NodeInv(w.nodes[n]) && Backed(w, n)
  }

  lemma NodeStep(w: World, p: NodeId, s: Step)
    requires Enabled(w, p, s) && NodeInv(w.nodes[s.n])
    ensures NodeInv(NextNode(w.store, p, w.nodes[s.n], s))
  {
  }

  lemma OwnBacking(w: World, p: NodeId, s: Step)
    requires Enabled(w, p, s) && NodeInv(w.nodes[s.n]) && Backed(w, s.n)
    ensures Backed(Next(w, p, s), s.n)
  {
  }

  /** A step of another node takes nothing away: it only swaps what is the partner's. */
  lemma OthersBacking(w: World, p: NodeId, s: Step, m: NodeId)
    requires Enabled(w, p, s) && m in w.nodes && m != s.n && m != p && Backed(w, m)
    ensures Backed(Next(w, p, s), m)
  {
  }

  lemma StepKeepsInv(w: World, p: NodeId, s: Step)
    requires Enabled(w, p, s) && Inv(w) && p !in w.nodes
    ensures Inv(Next(w, p, s)) && p !in Next(w, p, s).nodes
  {
    var w' := Next(w, p, s);
    NodeStep(w, p, s);
    OwnBacking(w, p, s);
    forall m | m in w'.nodes ensures NodeInv(w'.nodes[m]) && Backed(w', m) {
      if m != s.n {
        OthersBacking(w, p, s, m);
      }
    }
  }

  /** Every node a standby whose view claims only what the store gives it; the partner is
      dead and takes no steps. */
  ghost predicate Start(w: World, p: NodeId) {
    && p !in w.nodes
    && forall n | n in w.nodes ::
         && w.nodes[n].phase == Idle && w.nodes[n].outcome == NoOutcome && w.nodes[n].swapped == {}
         && (forall x | Owns(w.nodes[n].view, x, n) :: Owns(w.store, x, n))
  }

  ghost predicate Run(trace: seq<World>, steps: seq<Step>, p: NodeId) {
    && |trace| == |steps| + 1 && Start(trace[0], p)
    && forall i | 0 <= i < |steps| :: Goes(trace, steps, p, i)
  }

  ghost predicate Goes(trace: seq<World>, steps: seq<Step>, p: NodeId, i: nat)
    requires i < |steps| == |trace| - 1
  {
    Leads(trace[i], p, steps[i], trace[i + 1])
  }

  ghost predicate Leads(w: World, p: NodeId, s: Step, w': World) {
    Enabled(w, p, s) && w' == Next(w, p, s)
  }

  /** A step leaves the other nodes alone. */
  lemma OthersStay(trace: seq<World>, steps: seq<Step>, p: NodeId, i: nat, n: NodeId)
    requires Run(trace, steps, p) && i < |steps|
    ensures n in trace[i].nodes <==> n in trace[i + 1].nodes
    ensures n in trace[i].nodes && steps[i].n != n ==> trace[i + 1].nodes[n] == trace[i].nodes[n]
  {
    assert Goes(trace, steps, p, i);
  }

  lemma {:induction false} RunKeepsInv(trace: seq<World>, steps: seq<Step>, p: NodeId, i: nat)
    requires Run(trace, steps, p) && i < |trace|
    ensures Inv(trace[i]) && p !in trace[i].nodes
  {
    if i > 0 {
      RunKeepsInv(trace, steps, p, i - 1);
      assert Goes(trace, steps, p, i - 1);
      StepKeepsInv(trace[i - 1], p, steps[i - 1]);
    }
  }

  /** In every run each partition is held by at most one of the standbys, by store record
      and by their own views alike. */
  lemma AtMostOneWinner(trace: seq<World>, steps: seq<Step>, p: NodeId, i: nat, n: NodeId, m: NodeId, x: Part)
    requires Run(trace, steps, p) && i < |trace| && n in trace[i].nodes && m in trace[i].nodes && n != m
    ensures !(x in trace[i].nodes[n].swapped && x in trace[i].nodes[m].swapped)
    ensures Owns(trace[i].nodes[n].view, x, n) && Owns(trace[i].nodes[m].view, x, m) ==>
              trace[i].nodes[n].phase == Unflipping(x) || trace[i].nodes[m].phase == Unflipping(x)
  {
    RunKeepsInv(trace, steps, p, i);
    assert Backed(trace[i], n) && Backed(trace[i], m);
  }

  // ---------------------------------------------------------------------------
  // How a node came to its phase
  // ---------------------------------------------------------------------------

  lemma RefreshStays(trace: seq<World>, steps: seq<Step>, p: NodeId, i: nat)
    requires Run(trace, steps, p) && i < |steps| && steps[i].Refresh?
    ensures var n := steps[i].n;
      n in trace[i].nodes && n in trace[i + 1].nodes && trace[i + 1].nodes[n].phase == trace[i].nodes[n].phase
  {
    assert Goes(trace, steps, p, i);
  }

  /** The step of the node itself that brought it into its phase; since then it has at most
      refreshed its map. */
  lemma {:induction false} PhaseSince(trace: seq<World>, steps: seq<Step>, p: NodeId, i: nat, n: NodeId)
    returns (j: nat)
    requires Run(trace, steps, p) && i < |trace| && n in trace[i].nodes && trace[i].nodes[n].phase != Idle
    ensures j < i && steps[j].n == n && !steps[j].Refresh? && n in trace[j].nodes && n in trace[j + 1].nodes
    ensures trace[j + 1].nodes[n].phase == trace[i].nodes[n].phase
    ensures OnlyRefreshes(steps, j + 1, i, n)
  {
    OthersStay(trace, steps, p, i - 1, n);
    if steps[i - 1].n == n && !steps[i - 1].Refresh? {
      j := i - 1;
    } else {
      if steps[i - 1].n == n {
        RefreshStays(trace, steps, p, i - 1);
      }
      j := PhaseSince(trace, steps, p, i - 1, n);
    }
  }

  /** From step `i` to step `j` the node does nothing but refresh its map. */
  ghost predicate OnlyRefreshes(steps: seq<Step>, i: nat, j: nat, n: NodeId)
    requires j <= |steps|
  {
    forall k | i <= k < j && steps[k].n == n :: steps[k].Refresh?
  }

  ghost predicate NoBegin(steps: seq<Step>, i: nat, j: nat, n: NodeId)
    requires j <= |steps|
  {
    forall k | i <= k < j :: steps[k] != Begin(n)
  }

  /** The phases up to the end of the takeover. */
  predicate Early(ph: Phase) {
    ph == Listing || ph == Taking || ph.Flipping?
  }

  lemma WasEarly(w: World, p: NodeId, s: Step)
    requires Enabled(w, p, s) && !s.Begin? && Early(Next(w, p, s).nodes[s.n].phase)
    ensures Early(w.nodes[s.n].phase)
  {
  }

  lemma {:induction false} TakingBegan(trace: seq<World>, steps: seq<Step>, p: NodeId, i: nat, n: NodeId)
    returns (j: nat)
    requires Run(trace, steps, p) && i < |trace| && n in trace[i].nodes
    requires Early(trace[i].nodes[n].phase)
    ensures j < i && steps[j] == Begin(n) && NoBegin(steps, j + 1, i, n)
  {
    OthersStay(trace, steps, p, i - 1, n);
    if steps[i - 1] == Begin(n) {
      j := i - 1;
    } else {
      if steps[i - 1].n == n {
        assert Goes(trace, steps, p, i - 1);
        WasEarly(trace[i - 1], p, steps[i - 1]);
      }
      j := TakingBegan(trace, steps, p, i - 1, n);
    }
  }

  /** The phases after the takeover follow one another. */
  predicate Late(ph: Phase) {
    ph in {Loading, Entering, Publishing, Primary}
  }

  function PhaseBefore(ph: Phase): Phase
    requires Late(ph)
  {
    match ph
    case Loading => Taking
    case Entering => Loading
    case Publishing => Entering
    case _ => Publishing
  }

  function StepInto(ph: Phase, n: NodeId): Step
    requires Late(ph)
  {
    match ph
    case Loading => EndTaking(n)
    case Entering => Load(n, true)
    case Publishing => Enter(n)
    case _ => Publish(n)
  }

  lemma CameFrom(w: World, p: NodeId, s: Step)
    requires Enabled(w, p, s) && !s.Refresh? && Late(Next(w, p, s).nodes[s.n].phase)
    ensures var ph := Next(w, p, s).nodes[s.n].phase;
      s == StepInto(ph, s.n) && w.nodes[s.n].phase == PhaseBefore(ph)
  {
  }

  lemma ReachedBy(trace: seq<World>, steps: seq<Step>, p: NodeId, i: nat, n: NodeId) returns (j: nat)
    requires Run(trace, steps, p) && i < |trace| && n in trace[i].nodes && Late(trace[i].nodes[n].phase)
    ensures j < i && steps[j] == StepInto(trace[i].nodes[n].phase, n) && NoBegin(steps, j, i, n)
    ensures n in trace[j].nodes && trace[j].nodes[n].phase == PhaseBefore(trace[i].nodes[n].phase)
  {
    j := PhaseSince(trace, steps, p, i, n);
    assert Goes(trace, steps, p, j);
    CameFrom(trace[j], p, steps[j]);
  }

  /** The steps of a completed promotion, in order. */
  ghost predicate Promoted(steps: seq<Step>, n: NodeId, a: nat, b: nat, c: nat, d: nat, e: nat) {
    && a < b < c < d < e < |steps|
    && steps[a] == Begin(n) && steps[b] == EndTaking(n) && steps[c] == Load(n, true)
    && steps[d] == Enter(n) && steps[e] == Publish(n)
  }

  /** A published primary has been through takeover, recovery load and grace, in this order
      and in this promotion. */
  lemma PrimaryHistory(trace: seq<World>, steps: seq<Step>, p: NodeId, i: nat, n: NodeId)
    returns (a: nat, b: nat, c: nat, d: nat, e: nat)
    requires Run(trace, steps, p) && i < |trace| && n in trace[i].nodes && trace[i].nodes[n].phase == Primary
    ensures Promoted(steps, n, a, b, c, d, e) && e < i && NoBegin(steps, a + 1, i, n)
  {
    e := ReachedBy(trace, steps, p, i, n);
    d := ReachedBy(trace, steps, p, e, n);
    c := ReachedBy(trace, steps, p, d, n);
    b := ReachedBy(trace, steps, p, c, n);
    a := TakingBegan(trace, steps, p, b, n);
  }

  /** And the store gives it every partition it took. */
  lemma PrimaryIsReady(trace: seq<World>, steps: seq<Step>, p: NodeId, i: nat, n: NodeId)
    requires Run(trace, steps, p) && i < |trace| && n in trace[i].nodes && trace[i].nodes[n].phase == Primary
    ensures exists a: nat, b: nat, c: nat, d: nat, e: nat :: Promoted(steps, n, a, b, c, d, e) && e < i
              && NoBegin(steps, a + 1, i, n)
    ensures var nd := trace[i].nodes[n];
      (nd.flipped != {} || nd.listed == {}) && forall x | x in nd.flipped :: Owns(trace[i].store, x, n)
  {
    RunKeepsInv(trace, steps, p, i);
    assert NodeInv(trace[i].nodes[n]) && Backed(trace[i], n);
    var a, b, c, d, e := PrimaryHistory(trace, steps, p, i, n);
  }

  // ---------------------------------------------------------------------------
  // A map refresh between the swap and the flip
  // ---------------------------------------------------------------------------

  lemma PendingStep(w: World, p: NodeId, s: Step, n: NodeId, x: Part)
    requires Enabled(w, p, s) && n in w.nodes && n != p && w.nodes[n].phase == Flipping(x)
    requires x in w.nodes[n].swapped && Backed(w, n) && (s.n == n ==> s.Refresh?)
    ensures var nd := Next(w, p, s).nodes[n];
      nd.phase == Flipping(x) && (Owns(nd.view, x, p) <==> Owns(w.nodes[n].view, x, p) && s != Refresh(n))
  {
  }

  /** The node refreshed its map at no step strictly between `i` and `j`. */
  ghost predicate NoRefresh(steps: seq<Step>, i: nat, j: nat, n: NodeId)
    requires j <= |steps|
    decreases j
  {
    j <= i + 1 || (NoRefresh(steps, i, j - 1, n) && steps[j - 1] != Refresh(n))
  }

  lemma SwapPends(w: World, p: NodeId, n: NodeId, x: Part)
    requires Enabled(w, p, Swap(n, x)) && Owns(w.nodes[n].view, x, p) && Owns(w.store, x, p)
    ensures var w' := Next(w, p, Swap(n, x));
      n in w'.nodes && w'.nodes[n].phase == Flipping(x) && Owns(w'.nodes[n].view, x, p)
  {
  }

  /** From the swap on, and until its own next step, the node stays about to flip; its view
      of the partition is the partner's exactly until it refreshes. */
  lemma {:induction false} FlipPending(trace: seq<World>, steps: seq<Step>, p: NodeId, i: nat, j: nat, n: NodeId,
      x: Part)
    requires Run(trace, steps, p) && i < j < |trace| && steps[i] == Swap(n, x) && n in trace[i].nodes
    requires Owns(trace[i].nodes[n].view, x, p) && Owns(trace[i].store, x, p)
    requires forall k | i < k < j :: steps[k].n == n ==> steps[k].Refresh?
    ensures n in trace[j].nodes && trace[j].nodes[n].phase == Flipping(x)
    ensures Owns(trace[j].nodes[n].view, x, p) <==> NoRefresh(steps, i, j, n)
    decreases j
  {
    if j > i + 1 {
      FlipPending(trace, steps, p, i, j - 1, n, x);
      RunKeepsInv(trace, steps, p, j - 1);
      assert NodeInv(trace[j - 1].nodes[n]) && Backed(trace[j - 1], n);
      assert Goes(trace, steps, p, j - 1);
      PendingStep(trace[j - 1], p, steps[j - 1], n, x);
    } else {
      assert Goes(trace, steps, p, i);
      SwapPends(trace[i], p, n, x);
    }
  }

  /** So a partition won in the store is counted as taken exactly when the node did not
      refresh its map in between. */
  lemma FlipCountsIff(trace: seq<World>, steps: seq<Step>, p: NodeId, i: nat, j: nat, n: NodeId, x: Part)
    requires Run(trace, steps, p) && i < j < |steps| && steps[i] == Swap(n, x) && steps[j] == Flip(n)
              && n in trace[i].nodes
    requires Owns(trace[i].nodes[n].view, x, p) && Owns(trace[i].store, x, p)
    requires forall k | i < k < j :: steps[k].n == n ==> steps[k].Refresh?
    requires n in trace[j].nodes && x !in trace[j].nodes[n].flipped
    ensures n in trace[j + 1].nodes && (x in trace[j + 1].nodes[n].flipped <==> NoRefresh(steps, i, j, n))
  {
    FlipPending(trace, steps, p, i, j, n, x);
    assert Goes(trace, steps, p, j);
  }

  // ---------------------------------------------------------------------------
  // What a promotion that lost has taken
  // ---------------------------------------------------------------------------

  /** In its current promotion the node refreshed its map while a partition it had won in the
      store awaited the change in the map. */
  ghost predicate Blurred(trace: seq<World>, steps: seq<Step>, n: NodeId, i: nat)
    requires i < |trace| == |steps| + 1
  {
    && i > 0 && steps[i - 1] != Begin(n)
    && (Blurred(trace, steps, n, i - 1) || RefreshedFlipping(trace, steps, n, i - 1))
  }

  ghost predicate RefreshedFlipping(trace: seq<World>, steps: seq<Step>, n: NodeId, b: nat)
    requires b < |steps| < |trace|
  {
    steps[b] == Refresh(n) && n in trace[b].nodes && trace[b].nodes[n].phase.Flipping?
  }

  /** A node awaits a change in the map exactly after winning the partition in the store. */
  lemma FlippingIsWon(trace: seq<World>, steps: seq<Step>, p: NodeId, b: nat, n: NodeId) returns (a: nat)
    requires Run(trace, steps, p) && b < |trace| && n in trace[b].nodes && trace[b].nodes[n].phase.Flipping?
    ensures var x := trace[b].nodes[n].phase.part;
      && a < b && steps[a] == Swap(n, x) && OnlyRefreshes(steps, a + 1, b, n)
      && n in trace[a].nodes && Owns(trace[a].nodes[n].view, x, p) && Owns(trace[a].store, x, p)
  {
    a := PhaseSince(trace, steps, p, b, n);
    assert Goes(trace, steps, p, a);
  }

  lemma {:induction false} BlurredSince(trace: seq<World>, steps: seq<Step>, n: NodeId, i: nat) returns (b: nat)
    requires i < |trace| == |steps| + 1 && Blurred(trace, steps, n, i)
    ensures b < i && RefreshedFlipping(trace, steps, n, b) && NoBegin(steps, b, i, n)
  {
    if RefreshedFlipping(trace, steps, n, i - 1) {
      b := i - 1;
    } else {
      b := BlurredSince(trace, steps, n, i - 1);
    }
  }

  lemma {:induction false} StaysBlurred(trace: seq<World>, steps: seq<Step>, n: NodeId, b: nat, i: nat)
    requires b < i < |trace| == |steps| + 1 && RefreshedFlipping(trace, steps, n, b) && NoBegin(steps, b, i, n)
    ensures Blurred(trace, steps, n, i)
  {
    if b + 1 < i {
      StaysBlurred(trace, steps, n, b, i - 1);
    }
  }

  /** Step `a` won a partition in the store, and before it got into the map step `b` refreshed
      the map. */
  ghost predicate Overtakes(trace: seq<World>, steps: seq<Step>, p: NodeId, n: NodeId, a: nat, b: nat) {
    && a < b < |steps| < |trace| && steps[a].Swap? && steps[a].n == n && steps[b] == Refresh(n)
    && n in trace[a].nodes && Owns(trace[a].nodes[n].view, steps[a].part, p) && Owns(trace[a].store, steps[a].part, p)
    && OnlyRefreshes(steps, a + 1, b, n)
  }

  lemma BlurredIff(trace: seq<World>, steps: seq<Step>, p: NodeId, n: NodeId, i: nat)
    requires Run(trace, steps, p) && i < |trace|
    ensures Blurred(trace, steps, n, i) <==>
              exists a: nat, b: nat :: Overtakes(trace, steps, p, n, a, b) && b < i && NoBegin(steps, b, i, n)
  {
    if Blurred(trace, steps, n, i) {
      var b := BlurredSince(trace, steps, n, i);
      var a := FlippingIsWon(trace, steps, p, b, n);
      assert Overtakes(trace, steps, p, n, a, b);
    }
    if a: nat, b: nat :| Overtakes(trace, steps, p, n, a, b) && b < i && NoBegin(steps, b, i, n) {
      FlipPending(trace, steps, p, a, b, n, steps[a].part);
      StaysBlurred(trace, steps, n, b, i);
    }
  }

  /** Everything won so far is in the map, but for the partition about to get there. */
  ghost predicate InStep(nd: Node, p: NodeId) {
    if nd.phase.Flipping?
    then nd.swapped == nd.flipped + {nd.phase.part} && nd.phase.part !in nd.flipped && Owns(nd.view, nd.phase.part, p)
    else nd.swapped == nd.flipped
  }

  /** Something won in the store will not get into the map. */
  ghost predicate LeftBehind(nd: Node, p: NodeId, x: Part) {
    && x in nd.swapped && x !in nd.flipped && x !in nd.todo
    && (nd.phase == Flipping(x) ==> !Owns(nd.view, x, p))
  }

  /** A promotion under way, or lost. */
  predicate Counting(nd: Node) {
    Forward(nd.phase) || nd.outcome == LostRace || nd.outcome == StoreFailed
  }

  lemma OwnStepCounts(w: World, p: NodeId, s: Step)
    requires Enabled(w, p, s) && NodeInv(w.nodes[s.n]) && Backed(w, s.n) && Counting(Next(w, p, s).nodes[s.n])
    requires !s.Begin? ==> Counting(w.nodes[s.n]) && w.nodes[s.n].todo !! w.nodes[s.n].swapped
    ensures var nd, nd' := w.nodes[s.n], Next(w, p, s).nodes[s.n];
      && nd'.todo !! nd'.swapped
      && (s.Begin? || (InStep(nd, p) && !(s.Refresh? && nd.phase.Flipping?)) ==> InStep(nd', p))
      && (!s.Begin? && s.Refresh? && nd.phase.Flipping? && InStep(nd, p) ==> LeftBehind(nd', p, nd.phase.part))
      && (!s.Begin? ==> forall x | LeftBehind(nd, p, x) :: LeftBehind(nd', p, x))
  {
  }

  ghost predicate Accounts(nd: Node, p: NodeId, blurred: bool) {
    nd.todo !! nd.swapped && if blurred then exists x :: LeftBehind(nd, p, x) else InStep(nd, p)
  }

  /** A node that is counting was counting before its step, unless it has just begun. */
  lemma WasCounting(w: World, p: NodeId, s: Step)
    requires Enabled(w, p, s) && NodeInv(w.nodes[s.n]) && Counting(Next(w, p, s).nodes[s.n]) && !s.Begin?
    ensures Counting(w.nodes[s.n])
  {
  }

  lemma StepAccounts(w: World, p: NodeId, s: Step, blurred: bool)
    requires Enabled(w, p, s) && NodeInv(w.nodes[s.n]) && Backed(w, s.n) && Counting(Next(w, p, s).nodes[s.n])
    requires !s.Begin? ==> Counting(w.nodes[s.n]) && Accounts(w.nodes[s.n], p, blurred)
    ensures Accounts(Next(w, p, s).nodes[s.n], p,
              !s.Begin? && (blurred || (s.Refresh? && w.nodes[s.n].phase.Flipping?)))
  {
    OwnStepCounts(w, p, s);
  }

  lemma {:induction false} RunAccounts(trace: seq<World>, steps: seq<Step>, p: NodeId, i: nat, n: NodeId)
    requires Run(trace, steps, p) && i < |trace| && n in trace[i].nodes && Counting(trace[i].nodes[n])
    ensures Accounts(trace[i].nodes[n], p, Blurred(trace, steps, n, i))
  {
    if i > 0 {
      var w, s := trace[i - 1], steps[i - 1];
      RunKeepsInv(trace, steps, p, i - 1);
      OthersStay(trace, steps, p, i - 1, n);
      assert NodeInv(w.nodes[n]) && Backed(w, n);
      if s.n != n {
        RunAccounts(trace, steps, p, i - 1, n);
      } else {
        if !s.Begin? {
          assert Goes(trace, steps, p, i - 1);
          WasCounting(w, p, s);
          RunAccounts(trace, steps, p, i - 1, n);
        }
        assert Goes(trace, steps, p, i - 1);
        StepAccounts(w, p, s, Blurred(trace, steps, n, i - 1));
      }
    }
  }

  /** A promotion that reports a lost race or a failed store is back in standby.  It has won
      nothing in the store if and only if in this promotion no refresh of its map came between
      winning a partition in the store and the change in the map. */
  lemma LoserTookNothingIff(trace: seq<World>, steps: seq<Step>, p: NodeId, i: nat, n: NodeId)
    requires Run(trace, steps, p) && i < |trace| && n in trace[i].nodes
    requires trace[i].nodes[n].outcome in {LostRace, StoreFailed}
    ensures trace[i].nodes[n].phase == Idle
    ensures trace[i].nodes[n].swapped == {} <==>
              !exists a: nat, b: nat :: Overtakes(trace, steps, p, n, a, b) && b < i && NoBegin(steps, b, i, n)
  {
    BlurredIff(trace, steps, p, n, i);
    RunKeepsInv(trace, steps, p, i);
    RunAccounts(trace, steps, p, i, n);
    assert NodeInv(trace[i].nodes[n]);
  }

  // ---------------------------------------------------------------------------
  // What a promotion whose recovery load failed still has
  // ---------------------------------------------------------------------------

  /** In its current promotion the node won the partition in the store. */
  ghost predicate Gained(trace: seq<World>, steps: seq<Step>, p: NodeId, n: NodeId, x: Part, i: nat)
    requires i < |trace| == |steps| + 1
  {
    && i > 0 && steps[i - 1] != Begin(n)
    && (Gained(trace, steps, p, n, x, i - 1) || Wins(trace[i - 1], p, steps[i - 1], n, x))
  }

  predicate Wins(w: World, p: NodeId, s: Step, n: NodeId, x: Part) {
    s == Swap(n, x) && n in w.nodes && Owns(w.nodes[n].view, x, p) && Owns(w.store, x, p)
  }

  /** In its current promotion the compare-and-swap that was to return the partition could not
      be decided. */
  ghost predicate Withheld(steps: seq<Step>, n: NodeId, x: Part, i: nat)
    requires i <= |steps|
  {
    i > 0 && steps[i - 1] != Begin(n) && (Withheld(steps, n, x, i - 1) || steps[i - 1] == UnswapFails(n, x))
  }

  predicate Returning(ph: Phase) {
    ph == Undoing || ph.Unflipping?
  }

  /** The node's map shows it what it won, but for the partition about to get there. */
  ghost predicate Shown(nd: Node, p: NodeId, n: NodeId, x: Part) {
    && (x in nd.swapped ==> Owns(nd.view, x, n) || (nd.phase == Flipping(x) && Owns(nd.view, x, p)))
    && (nd.phase == Unflipping(x) ==> x !in nd.swapped)
  }

  ghost predicate Books(nd: Node, x: Part, gained: bool, withheld: bool) {
    && (x in nd.swapped ==> gained)
    && (Forward(nd.phase) ==> (gained ==> x in nd.swapped) && !withheld)
    && (Returning(nd.phase) ==> nd.todo <= nd.planned && (withheld ==> x !in nd.todo))
    && (Returning(nd.phase) && gained ==> (x in nd.swapped <==> x in nd.todo || x !in nd.planned || withheld))
    && (nd.outcome == LoadFailed ==> nd.phase == Idle)
    && (nd.outcome == LoadFailed && gained ==> (x in nd.swapped <==> x !in nd.planned || withheld))
  }

  lemma StepShows(w: World, p: NodeId, s: Step, x: Part)
    requires Enabled(w, p, s) && NodeInv(w.nodes[s.n]) && Backed(w, s.n) && Shown(w.nodes[s.n], p, s.n, x)
    ensures Shown(NextNode(w.store, p, w.nodes[s.n], s), p, s.n, x)
  {
  }

  lemma StepBooks(w: World, p: NodeId, s: Step, x: Part, gained: bool, withheld: bool)
    requires Enabled(w, p, s) && NodeInv(w.nodes[s.n]) && Backed(w, s.n)
    requires Shown(w.nodes[s.n], p, s.n, x) && Books(w.nodes[s.n], x, gained, withheld)
    ensures Books(NextNode(w.store, p, w.nodes[s.n], s), x, !s.Begin? && (gained || Wins(w, p, s, s.n, x)),
              !s.Begin? && (withheld || s == UnswapFails(s.n, x)))
  {
  }

  /** What was given back stays given back until the next promotion. */
  lemma StaysReturned(w: World, p: NodeId, s: Step, n: NodeId, x: Part)
    requires Enabled(w, p, s) && n in w.nodes && n != p && Backed(w, n)
    requires !Owns(w.store, x, n) && !Wins(w, p, s, n, x)
    ensures !Owns(NextStore(w, p, s), x, n)
  {
  }

  lemma OwnReturned(w: World, p: NodeId, s: Step, x: Part)
    requires Enabled(w, p, s) && x in w.nodes[s.n].swapped && !s.Begin?
    requires x !in NextNode(w.store, p, w.nodes[s.n], s).swapped
    ensures !Owns(NextStore(w, p, s), x, s.n)
  {
  }

  lemma {:induction false} RunShows(trace: seq<World>, steps: seq<Step>, p: NodeId, i: nat, n: NodeId, x: Part)
    requires Run(trace, steps, p) && i < |trace| && n in trace[i].nodes
    ensures Shown(trace[i].nodes[n], p, n, x)
  {
    if i > 0 {
      var w, s := trace[i - 1], steps[i - 1];
      RunKeepsInv(trace, steps, p, i - 1);
      OthersStay(trace, steps, p, i - 1, n);
      assert NodeInv(w.nodes[n]) && Backed(w, n);
      RunShows(trace, steps, p, i - 1, n, x);
      if s.n == n {
        assert Goes(trace, steps, p, i - 1);
        StepShows(w, p, s, x);
      }
    }
  }

  lemma {:induction false} RunBooks(trace: seq<World>, steps: seq<Step>, p: NodeId, i: nat, n: NodeId, x: Part)
    requires Run(trace, steps, p) && i < |trace| && n in trace[i].nodes
    ensures Books(trace[i].nodes[n], x, Gained(trace, steps, p, n, x, i), Withheld(steps, n, x, i))
  {
    if i > 0 {
      var w, s := trace[i - 1], steps[i - 1];
      RunKeepsInv(trace, steps, p, i - 1);
      OthersStay(trace, steps, p, i - 1, n);
      assert NodeInv(w.nodes[n]) && Backed(w, n);
      RunShows(trace, steps, p, i - 1, n, x);
      RunBooks(trace, steps, p, i - 1, n, x);
      if s.n == n {
        assert Goes(trace, steps, p, i - 1);
        StepBooks(w, p, s, x, Gained(trace, steps, p, n, x, i - 1), Withheld(steps, n, x, i - 1));
      }
    }
  }

  /** Of what it won in this promotion, the store gives a node what it has not returned. */
  lemma {:induction false} RunReturned(trace: seq<World>, steps: seq<Step>, p: NodeId, i: nat, n: NodeId, x: Part)
    requires Run(trace, steps, p) && i < |trace| && n in trace[i].nodes && Gained(trace, steps, p, n, x, i)
    ensures Owns(trace[i].store, x, n) <==> x in trace[i].nodes[n].swapped
  {
    RunKeepsInv(trace, steps, p, i);
    assert n != p && Backed(trace[i], n);
    var w, s := trace[i - 1], steps[i - 1];
    RunKeepsInv(trace, steps, p, i - 1);
    OthersStay(trace, steps, p, i - 1, n);
    assert Backed(w, n) && Goes(trace, steps, p, i - 1);
    if Gained(trace, steps, p, n, x, i - 1) {
      RunReturned(trace, steps, p, i - 1, n, x);
      if x in w.nodes[n].swapped {
        if s.n == n && x !in trace[i].nodes[n].swapped {
          OwnReturned(w, p, s, x);
        }
      } else if !Wins(w, p, s, n, x) {
        StaysReturned(w, p, s, n, x);
      }
    }
  }

  lemma PlannedStays(w: World, p: NodeId, s: Step, n: NodeId)
    requires Enabled(w, p, s) && n in w.nodes && s != Begin(n)
    ensures Next(w, p, s).nodes[n].planned == w.nodes[n].planned
  {
  }

  /** What the node's map showed as the partner's when the promotion began is the list for the
      rollback until the next promotion. */
  lemma {:induction false} PlannedSince(trace: seq<World>, steps: seq<Step>, p: NodeId, j: nat, i: nat, n: NodeId)
    requires Run(trace, steps, p) && j < i < |trace| && steps[j] == Begin(n) && NoBegin(steps, j + 1, i, n)
    ensures n in trace[i].nodes && n in trace[j].nodes
    ensures trace[i].nodes[n].planned == OwnedBy(trace[j].nodes[n].view, p)
    decreases i
  {
    if j + 1 < i {
      PlannedSince(trace, steps, p, j, i - 1, n);
      assert Goes(trace, steps, p, i - 1);
      PlannedStays(trace[i - 1], p, steps[i - 1], n);
    } else {
      assert Goes(trace, steps, p, j);
    }
  }

  /** A promotion whose recovery load failed is back in standby.  Of the partitions it won it
      still has, in the store, exactly those its map did not show as the partner's when the
      promotion began, and those whose return the store could not decide. */
  lemma LoadFailedKeepsIff(trace: seq<World>, steps: seq<Step>, p: NodeId, j: nat, i: nat, n: NodeId, x: Part)
    requires Run(trace, steps, p) && j < i < |trace| && steps[j] == Begin(n) && NoBegin(steps, j + 1, i, n)
    requires n in trace[i].nodes && trace[i].nodes[n].outcome == LoadFailed && Gained(trace, steps, p, n, x, i)
    ensures trace[i].nodes[n].phase == Idle && n in trace[j].nodes
    ensures Owns(trace[i].store, x, n) <==> !Owns(trace[j].nodes[n].view, x, p) || Withheld(steps, n, x, i)
  {
    RunBooks(trace, steps, p, i, n, x);
    RunReturned(trace, steps, p, i, n, x);
    PlannedSince(trace, steps, p, j, i, n);
  }

  /** In its current promotion the node refreshed its map between the two looks at it. */
  ghost predicate LookedTwice(trace: seq<World>, steps: seq<Step>, n: NodeId, i: nat)
    requires i < |trace| == |steps| + 1
  {
    && i > 0 && steps[i - 1] != Begin(n)
    && (LookedTwice(trace, steps, n, i - 1)
        || (steps[i - 1] == Refresh(n) && n in trace[i - 1].nodes && trace[i - 1].nodes[n].phase == Listing))
  }

  /** The two looks at the map agree. */
  ghost predicate Agrees(nd: Node, p: NodeId) {
    if nd.phase == Listing then nd.planned == OwnedBy(nd.view, p)
    else nd.phase != Idle || nd.outcome != NoOutcome ==> nd.planned == nd.listed
  }

  ghost predicate FromList(nd: Node, x: Part, gained: bool) {
    (Early(nd.phase) ==> nd.todo <= nd.listed) && (gained ==> x in nd.listed)
  }

  lemma StepAgrees(w: World, p: NodeId, s: Step)
    requires Enabled(w, p, s) && (s.Begin? || Agrees(w.nodes[s.n], p))
    requires !(s.Refresh? && w.nodes[s.n].phase == Listing)
    ensures Agrees(NextNode(w.store, p, w.nodes[s.n], s), p)
  {
  }

  lemma {:induction false} RunAgrees(trace: seq<World>, steps: seq<Step>, p: NodeId, i: nat, n: NodeId)
    requires Run(trace, steps, p) && i < |trace| && n in trace[i].nodes && !LookedTwice(trace, steps, n, i)
    ensures Agrees(trace[i].nodes[n], p)
  {
    if i > 0 {
      OthersStay(trace, steps, p, i - 1, n);
      if steps[i - 1] != Begin(n) {
        RunAgrees(trace, steps, p, i - 1, n);
      }
      if steps[i - 1].n == n {
        assert Goes(trace, steps, p, i - 1);
        StepAgrees(trace[i - 1], p, steps[i - 1]);
      }
    }
  }

  lemma StepFromList(w: World, p: NodeId, s: Step, x: Part, gained: bool)
    requires Enabled(w, p, s) && FromList(w.nodes[s.n], x, gained)
    requires w.nodes[s.n].phase == Listing ==> !gained
    ensures FromList(NextNode(w.store, p, w.nodes[s.n], s), x, !s.Begin? && (gained || Wins(w, p, s, s.n, x)))
  {
  }

  lemma {:induction false} RunFromList(trace: seq<World>, steps: seq<Step>, p: NodeId, i: nat, n: NodeId, x: Part)
    requires Run(trace, steps, p) && i < |trace| && n in trace[i].nodes
    ensures FromList(trace[i].nodes[n], x, Gained(trace, steps, p, n, x, i))
  {
    if i > 0 {
      OthersStay(trace, steps, p, i - 1, n);
      RunFromList(trace, steps, p, i - 1, n, x);
      if steps[i - 1].n == n {
        RunKeepsInv(trace, steps, p, i - 1);
        RunBooks(trace, steps, p, i - 1, n, x);
        assert NodeInv(trace[i - 1].nodes[n]) && Goes(trace, steps, p, i - 1);
        StepFromList(trace[i - 1], p, steps[i - 1], x, Gained(trace, steps, p, n, x, i - 1));
      }
    }
  }

  /** So when no refresh came between the two looks at the map, everything won is returned
      for which the store answered. */
  lemma UndisturbedReturns(trace: seq<World>, steps: seq<Step>, p: NodeId, i: nat, n: NodeId, x: Part)
    requires Run(trace, steps, p) && i < |trace| && n in trace[i].nodes
    requires trace[i].nodes[n].outcome == LoadFailed && Gained(trace, steps, p, n, x, i)
    requires !LookedTwice(trace, steps, n, i)
    ensures Owns(trace[i].store, x, n) <==> Withheld(steps, n, x, i)
  {
    RunAgrees(trace, steps, p, i, n);
    RunFromList(trace, steps, p, i, n, x);
    RunBooks(trace, steps, p, i, n, x);
    RunReturned(trace, steps, p, i, n, x);
  }

  // ---------------------------------------------------------------------------
  // Two runs
  // ---------------------------------------------------------------------------

  function Alone(owner: NodeId, nd: Node): World {
    World(map[7 := owner], map[1 := nd])
  }

  function Standby(view: map<Part, NodeId>): Node {
    Node(Idle, view, {}, {}, {}, {}, {}, false, false, NoOutcome)
  }

  /** Node 1 on its way with partition 7. */
  function Midway(phase: Phase, planned: set<Part>, view: map<Part, NodeId>, todo: set<Part>, swapped: set<Part>,
      flipped: set<Part>): Node
  {
    Node(phase, view, planned, {7}, todo, swapped, flipped, false, false, NoOutcome)
  }

  lemma Overwrite(a: Node, b: Node)
    ensures map[1 := a][1 := b] == map[1 := b]
  {
  }

  function Noting(planned: set<Part>, view: map<Part, NodeId>): Node {
    Node(Listing, view, planned, {}, {}, {}, {}, false, false, NoOutcome)
  }

  lemma Listed(planned: set<Part>)
    ensures Leads(Alone(9, Noting(planned, map[7 := 9])), 9, List(1),
              Alone(9, Midway(Taking, planned, map[7 := 9], {7}, {}, {})))
  {
    assert OwnedBy(map[7 := 9], 9) == {7};
    Overwrite(Noting(planned, map[7 := 9]), Midway(Taking, planned, map[7 := 9], {7}, {}, {}));
  }

  lemma Swapped(planned: set<Part>)
    ensures Leads(Alone(9, Midway(Taking, planned, map[7 := 9], {7}, {}, {})), 9, Swap(1, 7),
              Alone(1, Midway(Flipping(7), planned, map[7 := 9], {}, {7}, {})))
  {
    assert {7} - {7} == {} && {} + {7} == {7} && map[7 := 9][7 := 1] == map[7 := 1];
    Overwrite(Midway(Taking, planned, map[7 := 9], {7}, {}, {}),
              Midway(Flipping(7), planned, map[7 := 9], {}, {7}, {}));
  }

  lemma RefreshAndFlip()
    ensures Leads(Alone(1, Midway(Flipping(7), {7}, map[7 := 9], {}, {7}, {})), 9, Refresh(1),
              Alone(1, Midway(Flipping(7), {7}, map[7 := 1], {}, {7}, {})))
    ensures Leads(Alone(1, Midway(Flipping(7), {7}, map[7 := 1], {}, {7}, {})), 9, Flip(1),
              Alone(1, Midway(Taking, {7}, map[7 := 1], {}, {7}, {})))
  {
    Overwrite(Midway(Flipping(7), {7}, map[7 := 9], {}, {7}, {}), Midway(Flipping(7), {7}, map[7 := 1], {}, {7}, {}));
    Overwrite(Midway(Flipping(7), {7}, map[7 := 1], {}, {7}, {}), Midway(Taking, {7}, map[7 := 1], {}, {7}, {}));
  }

  lemma Begun(view: map<Part, NodeId>)
    ensures Leads(Alone(9, Standby(view)), 9, Begin(1), Alone(9, Noting(OwnedBy(view, 9), view)))
  {
    Overwrite(Standby(view), Noting(OwnedBy(view, 9), view));
  }

  /** One more step at the end of a run. */
  lemma Further(trace: seq<World>, steps: seq<Step>, s: Step, w: World)
    requires Run(trace, steps, 9) && Leads(trace[|steps|], 9, s, w)
    ensures Run(trace + [w], steps + [s], 9)
  {
    var trace', steps' := trace + [w], steps + [s];
    forall i | 0 <= i < |steps'| ensures Goes(trace', steps', 9, i) {
      assert i < |steps| ==> Goes(trace, steps, 9, i);
    }
  }

  lemma Opening(view: map<Part, NodeId>) returns (trace: seq<World>, steps: seq<Step>)
    requires 7 in view ==> view[7] == 9
    requires view.Keys <= {7}
    ensures Run(trace, steps, 9) && |steps| == 1 && trace[0].store == map[7 := 9]
    ensures trace[1] == Alone(9, Noting(OwnedBy(view, 9), view))
  {
    Begun(view);
    assert Start(Alone(9, Standby(view)), 9);
    trace, steps := [Alone(9, Standby(view))], [];
    Further(trace, steps, Begin(1), Alone(9, Noting(OwnedBy(view, 9), view)));
    trace, steps := trace + [Alone(9, Noting(OwnedBy(view, 9), view))], steps + [Begin(1)];
  }

  lemma Onward(trace: seq<World>, steps: seq<Step>, planned: set<Part>)
    returns (trace': seq<World>, steps': seq<Step>)
    requires Run(trace, steps, 9) && trace[|steps|] == Alone(9, Noting(planned, map[7 := 9]))
    ensures Run(trace', steps', 9) && |steps'| == |steps| + 2 && trace'[0] == trace[0]
    ensures trace'[|steps'|] == Alone(1, Midway(Flipping(7), planned, map[7 := 9], {}, {7}, {}))
  {
    Listed(planned);
    var w := Alone(9, Midway(Taking, planned, map[7 := 9], {7}, {}, {}));
    Further(trace, steps, List(1), w);
    Swapped(planned);
    var w' := Alone(1, Midway(Flipping(7), planned, map[7 := 9], {}, {7}, {}));
    Further(trace + [w], steps + [List(1)], Swap(1, 7), w');
    trace', steps' := trace + [w] + [w'], steps + [List(1)] + [Swap(1, 7)];
  }

  lemma LosesWhatItWon()
    ensures Leads(Alone(1, Midway(Taking, {7}, map[7 := 1], {}, {7}, {})), 9, EndTaking(1),
              Alone(1, Midway(Idle, {7}, map[7 := 1], {}, {7}, {}).(outcome := LostRace)))
  {
    Overwrite(Midway(Taking, {7}, map[7 := 1], {}, {7}, {}),
              Midway(Idle, {7}, map[7 := 1], {}, {7}, {}).(outcome := LostRace));
  }

  /** A promotion that won its only partition in the store, yet reports a lost race: the
      map was refreshed between the swap and the flip. */
  lemma WinnerStandsBy() returns (trace: seq<World>, steps: seq<Step>)
    ensures Run(trace, steps, 9) && |steps| == 6 && 1 in trace[6].nodes
    ensures trace[6].nodes[1].outcome == LostRace && trace[6].nodes[1].phase == Idle
    ensures Owns(trace[6].store, 7, 1)
  {
    trace, steps := Opening(map[7 := 9]);
    assert OwnedBy(map[7 := 9], 9) == {7};
    trace, steps := Onward(trace, steps, {7});
    RefreshAndFlip();
    LosesWhatItWon();
    var w := Alone(1, Midway(Flipping(7), {7}, map[7 := 1], {}, {7}, {}));
    var w' := Alone(1, Midway(Taking, {7}, map[7 := 1], {}, {7}, {}));
    var w'' := Alone(1, Midway(Idle, {7}, map[7 := 1], {}, {7}, {}).(outcome := LostRace));
    Further(trace, steps, Refresh(1), w);
    Further(trace + [w], steps + [Refresh(1)], Flip(1), w');
    Further(trace + [w] + [w'], steps + [Refresh(1)] + [Flip(1)], EndTaking(1), w'');
    trace, steps := trace + [w] + [w'] + [w''], steps + [Refresh(1)] + [Flip(1)] + [EndTaking(1)];
  }

  lemma SeenLate()
    ensures OwnedBy(map[], 9) == {}
    ensures Leads(Alone(9, Noting({}, map[])), 9, Refresh(1), Alone(9, Noting({}, map[7 := 9])))
  {
    Overwrite(Noting({}, map[]), Noting({}, map[7 := 9]));
  }

  lemma FlippedOnly()
    ensures Leads(Alone(1, Midway(Flipping(7), {}, map[7 := 9], {}, {7}, {})), 9, Flip(1),
              Alone(1, Midway(Taking, {}, map[7 := 1], {}, {7}, {7})))
  {
    assert map[7 := 9][7 := 1] == map[7 := 1] && {} + {7} == {7};
    Overwrite(Midway(Flipping(7), {}, map[7 := 9], {}, {7}, {}), Midway(Taking, {}, map[7 := 1], {}, {7}, {7}));
  }

  lemma NothingToReturn()
    ensures Leads(Alone(1, Midway(Taking, {}, map[7 := 1], {}, {7}, {7})), 9, EndTaking(1),
              Alone(1, Midway(Loading, {}, map[7 := 1], {}, {7}, {7})))
    ensures Leads(Alone(1, Midway(Loading, {}, map[7 := 1], {}, {7}, {7})), 9, Load(1, false),
              Alone(1, Midway(Undoing, {}, map[7 := 1], {}, {7}, {7})))
    ensures Leads(Alone(1, Midway(Undoing, {}, map[7 := 1], {}, {7}, {7})), 9, EndUndoing(1),
              Alone(1, Midway(Idle, {}, map[7 := 1], {}, {7}, {7}).(outcome := LoadFailed)))
  {
    Overwrite(Midway(Taking, {}, map[7 := 1], {}, {7}, {7}), Midway(Loading, {}, map[7 := 1], {}, {7}, {7}));
    Overwrite(Midway(Loading, {}, map[7 := 1], {}, {7}, {7}), Midway(Undoing, {}, map[7 := 1], {}, {7}, {7}));
    Overwrite(Midway(Undoing, {}, map[7 := 1], {}, {7}, {7}),
              Midway(Idle, {}, map[7 := 1], {}, {7}, {7}).(outcome := LoadFailed));
  }

  lemma TakenLate() returns (trace: seq<World>, steps: seq<Step>)
    ensures Run(trace, steps, 9) && |steps| == 5 && Owns(trace[0].store, 7, 9)
    ensures trace[5] == Alone(1, Midway(Taking, {}, map[7 := 1], {}, {7}, {7}))
  {
    trace, steps := Opening(map[]);
    SeenLate();
    var w := Alone(9, Noting({}, map[7 := 9]));
    Further(trace, steps, Refresh(1), w);
    trace, steps := Onward(trace + [w], steps + [Refresh(1)], {});
    FlippedOnly();
    var w' := Alone(1, Midway(Taking, {}, map[7 := 1], {}, {7}, {7}));
    Further(trace, steps, Flip(1), w');
    trace, steps := trace + [w'], steps + [Flip(1)];
  }

  /** The map learns of a partition after the list for the rollback was made and before the
      takeover: the partition is taken, the recovery load fails, and the rollback ends without
      returning it. */
  lemma NeverReturned() returns (trace: seq<World>, steps: seq<Step>)
    ensures Run(trace, steps, 9) && |steps| == 8 && 1 in trace[8].nodes
    ensures trace[8].nodes[1].outcome == LoadFailed && trace[8].nodes[1].phase == Idle
    ensures Owns(trace[0].store, 7, 9) && Owns(trace[8].store, 7, 1)
  {
    trace, steps := TakenLate();
    NothingToReturn();
    var w := Alone(1, Midway(Loading, {}, map[7 := 1], {}, {7}, {7}));
    var w' := Alone(1, Midway(Undoing, {}, map[7 := 1], {}, {7}, {7}));
    var w'' := Alone(1, Midway(Idle, {}, map[7 := 1], {}, {7}, {7}).(outcome := LoadFailed));
    Further(trace, steps, EndTaking(1), w);
    Further(trace + [w], steps + [EndTaking(1)], Load(1, false), w');
    Further(trace + [w] + [w'], steps + [EndTaking(1)] + [Load(1, false)], EndUndoing(1), w'');
    trace, steps := trace + [w] + [w'] + [w''], steps + [EndTaking(1)] + [Load(1, false)] + [EndUndoing(1)];
  }
}
