/** Hard links across two nodes: the directory's node journals, asks the inode's node for
    one more link, and then writes an external dirent.  Every write is a step of its own.
    Messages may be lost, late or repeated; a handler never checks whether it has served a
    transaction before, and commit and abort messages do nothing. */
module HardLink {

  type Txn = nat

  // ---------------------------------------------------------------------------
  // The coordinator, call by call
  // ---------------------------------------------------------------------------

  datatype Status = Ok | Failed
  datatype Journal = Prepared | Committed
  datatype Name = Name(parent: nat, name: string)

  /** What the calls an initiate makes will answer. */
  datatype Replies = Replies(
    begun: Status,       // allocation and journal write
    increment: Status,   // the request to the inode's node
    cleanup: Status,     // the begin of the transaction that clears the journal after a failure
    cleared: bool,       // whether that transaction's delete was committed
    dirent: Status,      // the external dirent
    record: Status,      // the COMMITTED record, a write of its own
    swept: Status)       // the final journal cleanup

  class Coordinator {
    var journal: map<Txn, Journal>
    var dirents: map<Name, nat>

    constructor ()
      ensures journal == map[] && dirents == map[]
    {
      journal, dirents := map[], map[];
    }

    method Initiate(t: Txn, name: Name, target: nat, r: Replies) returns (st: Status)
      requires t !in journal
      modifies this
      // The name is created exactly when the increment was acknowledged and its write went through.
      ensures dirents == if r.begun == Ok && r.increment == Ok && r.dirent == Ok then old(dirents)[name := target]
                         else old(dirents)
      // The status of a failed increment is lost: success is reported whenever the journal
      // could be cleaned up.  And failure is reported for a name that exists when its record failed.
      ensures st == Ok <==>
                r.begun == Ok && (if r.increment == Ok then r.dirent == Ok && r.record == Ok else r.cleanup == Ok)
      // What recovery finds: nothing, PREPARED with or without the name, or COMMITTED.
      ensures journal ==
        if r.begun != Ok then old(journal)
        else if r.increment != Ok then
          (if r.cleanup == Ok && r.cleared then old(journal) else old(journal)[t := Prepared])
        else if r.dirent != Ok || r.record != Ok then old(journal)[t := Prepared]
        else if r.swept == Ok then old(journal) else old(journal)[t := Committed]
    {
      if r.begun != Ok { return Failed; }
      journal := journal[t := Prepared];
      st := r.increment;
      if st != Ok {
        st := r.cleanup;
        if st == Ok && r.cleared {
          journal := journal - {t};
        }
        return st;
      }
      if r.dirent != Ok { return Failed; }
      dirents := dirents[name := target];
      if r.record != Ok { return Failed; }
      journal := journal[t := Committed];
      if r.swept == Ok {
        journal := journal - {t};
      }
      return Ok;
    }
  }

  /** The journal does not tell whether the name exists: PREPARED stands with it and without. */
  method PreparedEitherWay(name: Name, target: nat)
    returns (with: Coordinator, without: Coordinator, a: Status, b: Status)
    ensures a == b == Failed && with.journal == without.journal == map[1 := Prepared]
    ensures with.dirents == map[name := target] && without.dirents == map[]
  {
    with := new Coordinator();
    a := with.Initiate(1, name, target, Replies(Ok, Ok, Ok, true, Ok, Failed, Ok));
    without := new Coordinator();
    b := without.Initiate(1, name, target, Replies(Ok, Ok, Ok, true, Failed, Ok, Ok));
  }

  // ---------------------------------------------------------------------------
  // Both nodes, with the atomic increment on the inode's node
  // ---------------------------------------------------------------------------

  datatype Phase = Waiting | Voted | Linked | GivenUp

  /** The target's link count and local names, the transactions with an external dirent,
      those whose request has been served, and how often one was served again. */
  datatype World = World(nlink: nat, local: nat, phases: map<Txn, Phase>, linked: set<Txn>, served: set<Txn>,
      again: nat)

  datatype Step =
    | Start(t: Txn)
    | Serve(t: Txn)            // the request arrives, for the first time or again
    | Acknowledge(t: Txn)      // its reply reaches the coordinator
    | GiveUp(t: Txn)           // lost reply, or refused
    | WriteDirent(t: Txn)
    | Message(t: Txn)          // a commit or abort message arrives
    | LocalLink
    | LocalUnlink

  predicate Enabled(w: World, s: Step) {
    match s
    case Start(t) => t !in w.phases
    case Serve(t) => t in w.phases
    case Acknowledge(t) => t in w.phases && w.phases[t] == Waiting && t in w.served
    case GiveUp(t) => t in w.phases && w.phases[t] == Waiting
    case WriteDirent(t) => t in w.phases && w.phases[t] == Voted
    case Message(t) => true
    case LocalLink => true
    case LocalUnlink => w.local > 0 && w.nlink > 0
  }

  function Next(w: World, s: Step): World
    requires Enabled(w, s)
  {
    match s
    case Start(t) => w.(phases := w.phases[t := Waiting])
    case Serve(t) =>
      w.(nlink := w.nlink + 1, served := w.served + {t}, again := if t in w.served then w.again + 1 else w.again)
    case Acknowledge(t) => w.(phases := w.phases[t := Voted])
    case GiveUp(t) => w.(phases := w.phases[t := GivenUp])
    case WriteDirent(t) => w.(phases := w.phases[t := Linked], linked := w.linked + {t})
    case Message(_) => w
    case LocalLink => w.(nlink := w.nlink + 1, local := w.local + 1)
    case LocalUnlink => w.(nlink := w.nlink - 1, local := w.local - 1)
  }

  ghost predicate Inv(w: World) {
    && w.nlink == w.local + |w.served| + w.again
    && w.linked <= w.served
    && (forall t | t in w.phases && w.phases[t] in {Voted, Linked} :: t in w.served)
    && (forall t | t in w.linked :: t in w.phases && w.phases[t] == Linked)
  }

  lemma StepKeepsInv(w: World, s: Step)
    requires Inv(w) && Enabled(w, s)
    ensures Inv(Next(w, s))
  {
    if s.Serve? && s.t in w.served {
      assert w.served + {s.t} == w.served;
    }
  }

  ghost predicate Run(trace: seq<World>, steps: seq<Step>) {
    && |trace| == |steps| + 1
    && trace[0] == World(trace[0].local, trace[0].local, map[], {}, {}, 0)
    && forall i | 0 <= i < |steps| :: Enabled(trace[i], steps[i]) && trace[i + 1] == Next(trace[i], steps[i])
  }

  lemma {:induction false} RunKeepsInv(trace: seq<World>, steps: seq<Step>, i: nat)
    requires Run(trace, steps) && i < |trace|
    ensures Inv(trace[i])
  {
    if i > 0 {
      RunKeepsInv(trace, steps, i - 1);
      StepKeepsInv(trace[i - 1], steps[i - 1]);
    }
  }

  lemma SubsetCount(a: set<Txn>, b: set<Txn>)
    requires a <= b
    ensures |a| <= |b| && (|a| == |b| <==> a == b)
  {
    assert b == a + (b - a);
  }

  /** Whatever is lost, late or repeated: no name, local or external, is ever without its
      link.  The count is exact precisely when no request was served twice and every
      served transaction has its external dirent. */
  lemma LinksNeverShort(trace: seq<World>, steps: seq<Step>, i: nat)
    requires Run(trace, steps) && i < |trace|
    ensures var w := trace[i];
      && w.nlink >= w.local + |w.linked|
      && (w.nlink == w.local + |w.linked| <==> w.again == 0 && w.served == w.linked)
  {
    RunKeepsInv(trace, steps, i);
    SubsetCount(trace[i].linked, trace[i].served);
  }

  lemma {:induction false} ServedIff(trace: seq<World>, steps: seq<Step>, i: nat, t: Txn)
    requires Run(trace, steps) && i < |trace|
    ensures t in trace[i].served <==> exists a :: 0 <= a < i && steps[a] == Serve(t)
  {
    if i > 0 {
      ServedIff(trace, steps, i - 1, t);
      assert trace[i] == Next(trace[i - 1], steps[i - 1]);
    }
  }

  /** Nothing holds a local link or unlink up, nor a request, a reply that is on its way, or the
      dirent of a transaction that was acknowledged. */
  lemma NothingHoldsUp(w: World, t: Txn)
    requires Inv(w)
    ensures Enabled(w, LocalLink) && (w.local > 0 ==> Enabled(w, LocalUnlink)) && Enabled(w, Message(t))
    ensures if t !in w.phases then Enabled(w, Start(t)) else Enabled(w, Serve(t))
    ensures t in w.phases && w.phases[t] == Waiting ==>
              Enabled(w, GiveUp(t)) && (t in w.served ==> Enabled(w, Acknowledge(t)))
    ensures t in w.phases && w.phases[t] == Voted ==> Enabled(w, WriteDirent(t))
  {
  }

  /** A name exists from the write of its dirent on, and that comes after its request was served
      and acknowledged. */
  lemma {:induction false} LinkedIff(trace: seq<World>, steps: seq<Step>, i: nat, t: Txn)
    requires Run(trace, steps) && i < |trace|
    ensures t in trace[i].linked <==> exists a :: 0 <= a < i && steps[a] == WriteDirent(t)
  {
    if i > 0 {
      LinkedIff(trace, steps, i - 1, t);
      assert trace[i] == Next(trace[i - 1], steps[i - 1]);
    }
  }

  /** Some request was served twice among the first `i` steps. */
  ghost predicate Repeated(steps: seq<Step>, i: nat)
    requires i <= |steps|
  {
    exists a, b :: 0 <= a < b < i && steps[a].Serve? && steps[b] == steps[a]
  }

  lemma {:induction false} AgainIff(trace: seq<World>, steps: seq<Step>, i: nat)
    requires Run(trace, steps) && i < |trace|
    ensures trace[i].again > 0 <==> Repeated(steps, i)
  {
    if i > 0 {
      AgainIff(trace, steps, i - 1);
      assert trace[i] == Next(trace[i - 1], steps[i - 1]);
      if steps[i - 1].Serve? {
        ServedIff(trace, steps, i - 1, steps[i - 1].t);
      }
    }
  }

  /** The link count moves once per transaction if and only if no request is served twice:
      the handler does not notice a repeat. */
  lemma OncePerTransactionIff(trace: seq<World>, steps: seq<Step>, i: nat)
    requires Run(trace, steps) && i < |trace|
    ensures trace[i].nlink == trace[i].local + |trace[i].served| <==> !Repeated(steps, i)
    ensures forall t :: t in trace[i].served <==> exists a :: 0 <= a < i && steps[a] == Serve(t)
  {
    RunKeepsInv(trace, steps, i);
    AgainIff(trace, steps, i);
    forall t ensures t in trace[i].served <==> exists a :: 0 <= a < i && steps[a] == Serve(t) {
      ServedIff(trace, steps, i, t);
    }
  }

  /** A lost reply leaks the link for good: served, given up, and a later abort message
      does nothing. */
  lemma LostReplyLeaks() returns (trace: seq<World>, steps: seq<Step>)
    ensures Run(trace, steps) && steps == [Start(1), Serve(1), GiveUp(1), Message(1)]
    ensures trace[4].nlink == 2 && trace[4].local == 1 && trace[4].linked == {}
  {
    steps := [Start(1), Serve(1), GiveUp(1), Message(1)];
    var w0 := World(1, 1, map[], {}, {}, 0);
    var w1 := Next(w0, Start(1));
    var w2 := Next(w1, Serve(1));
    var w3 := Next(w2, GiveUp(1));
    trace := [w0, w1, w2, w3, Next(w3, Message(1))];
  }

  // ---------------------------------------------------------------------------
  // The prepare handler: read the row, write the whole row, write the anchor
  // ---------------------------------------------------------------------------

  /** `readers` are prepares between their read and their write, with the count they read;
      `raised` those that have written the row and not yet the anchor; `voted` counts the
      prepares that voted to commit. */
  datatype Target = Target(nlink: nat, local: nat, voted: nat, readers: map<nat, nat>, raised: set<nat>)

  /** An anchor that cannot be written ends in a vote to abort; the row stays as it is. */
  datatype Act = ReadRow(h: nat) | PutRow(h: nat) | Anchor(h: nat, ok: bool) | Link | Unlink

  predicate Can(x: Target, a: Act) {
    match a
    case ReadRow(h) => h !in x.readers && h !in x.raised
    case PutRow(h) => h in x.readers && h !in x.raised
    case Anchor(h, _) => h in x.raised
    case Link => true
    case Unlink => x.local > 0 && x.nlink > 0
  }

  function Do(x: Target, a: Act): Target
    requires Can(x, a)
  {
    match a
    case ReadRow(h) => x.(readers := x.readers[h := x.nlink])
    case PutRow(h) => x.(nlink := x.readers[h] + 1, readers := x.readers - {h}, raised := x.raised + {h})
    case Anchor(h, ok) => x.(voted := if ok then x.voted + 1 else x.voted, raised := x.raised - {h})
    case Link => x.(nlink := x.nlink + 1, local := x.local + 1)
    case Unlink => x.(nlink := x.nlink - 1, local := x.local - 1)
  }

  /** The names that need a link: local ones, and one per vote given or still possible. */
  function Names(x: Target): nat {
    x.local + x.voted + |x.raised|
  }

  ghost predicate Counted(x: Target) {
    x.nlink == Names(x)
  }

  ghost predicate Acted(trace: seq<Target>, acts: seq<Act>) {
    && |trace| == |acts| + 1 && trace[0].readers == map[] && trace[0].raised == {} && Counted(trace[0])
    && forall i | 0 <= i < |acts| :: Can(trace[i], acts[i]) && trace[i + 1] == Do(trace[i], acts[i])
  }

  lemma NothingHoldsActsUp(x: Target, h: nat)
    ensures Can(x, Link) && (x.local > 0 && x.nlink >= Names(x) ==> Can(x, Unlink))
    ensures h !in x.readers && h !in x.raised ==> Can(x, ReadRow(h))
    ensures h in x.readers && h !in x.raised ==> Can(x, PutRow(h))
    ensures h in x.raised ==> Can(x, Anchor(h, true)) && Can(x, Anchor(h, false))
  {
  }

  /** How one act changes the names. */
  lemma NamesMove(x: Target, a: Act)
    requires Can(x, a)
    ensures Names(Do(x, a)) == Names(x) + (match a
                                           case ReadRow(_) => 0
                                           case PutRow(_) => 1
                                           case Anchor(_, ok) => if ok then 0 else -1
                                           case Link => 1
                                           case Unlink => -1)
  {
  }

  /** When the prepare that is about to write read the row. */
  ghost function ReadAt(trace: seq<Target>, acts: seq<Act>, b: nat, h: nat): nat
    requires Acted(trace, acts) && b < |trace| && h in trace[b].readers
    ensures var a := ReadAt(trace, acts, b, h);
      && a < b && acts[a] == ReadRow(h) && trace[b].readers[h] == trace[a].nlink
      && forall k | a < k < b :: acts[k] != ReadRow(h) && acts[k] != PutRow(h)
  {
    assert b > 0;
    if acts[b - 1] == ReadRow(h) then b - 1 else ReadAt(trace, acts, b - 1, h)
  }

  /** How many names came (or went) between a prepare's read and its write. */
  ghost function Gained(trace: seq<Target>, acts: seq<Act>, b: nat): int
    requires Acted(trace, acts) && b < |acts| && acts[b].PutRow?
  {
    Names(trace[b]) - Names(trace[ReadAt(trace, acts, b, acts[b].h)])
  }

  /** A write before which names came or went since its read, or an anchor that fails. */
  ghost predicate Miscounts(trace: seq<Target>, acts: seq<Act>, i: nat)
    requires Acted(trace, acts) && i < |acts|
  {
    (acts[i].PutRow? && Gained(trace, acts, i) != 0) || (acts[i].Anchor? && !acts[i].ok)
  }

  lemma StepCountsIff(trace: seq<Target>, acts: seq<Act>, i: nat)
    requires Acted(trace, acts) && i < |acts| && Counted(trace[i])
    requires acts[i].PutRow? ==> Counted(trace[ReadAt(trace, acts, i, acts[i].h)])
    ensures Counted(trace[i + 1]) <==> !Miscounts(trace, acts, i)
  {
    NamesMove(trace[i], acts[i]);
  }

  /** In every run the count is exact up to the first such act, and not right after it. */
  lemma {:induction false} RunCounts(trace: seq<Target>, acts: seq<Act>, i: nat)
    requires Acted(trace, acts) && i < |trace|
    requires forall j | 0 <= j < i :: !Miscounts(trace, acts, j)
    ensures Counted(trace[i])
    ensures i < |acts| && Miscounts(trace, acts, i) ==> !Counted(trace[i + 1])
  {
    if i > 0 {
      RunCounts(trace, acts, i - 1);
      if acts[i - 1].PutRow? {
        RunCounts(trace, acts, ReadAt(trace, acts, i - 1, acts[i - 1].h));
      }
      StepCountsIff(trace, acts, i - 1);
    }
    if i < |acts| {
      if acts[i].PutRow? {
        RunCounts(trace, acts, ReadAt(trace, acts, i, acts[i].h));
      }
      StepCountsIff(trace, acts, i);
    }
  }

  /** No name is without its link as long as no write comes after more names than its read saw;
      failed anchors do no harm here. */
  lemma {:induction false} RunNeverShort(trace: seq<Target>, acts: seq<Act>, i: nat)
    requires Acted(trace, acts) && i < |trace|
    requires forall j | 0 <= j < i && acts[j].PutRow? :: Gained(trace, acts, j) <= 0
    ensures trace[i].nlink >= Names(trace[i])
  {
    if i > 0 {
      RunNeverShort(trace, acts, i - 1);
      if acts[i - 1].PutRow? {
        RunNeverShort(trace, acts, ReadAt(trace, acts, i - 1, acts[i - 1].h));
      }
      NamesMove(trace[i - 1], acts[i - 1]);
    }
  }

  /** And exactly so after a write whose read found the count exact. */
  lemma PutShortIff(trace: seq<Target>, acts: seq<Act>, b: nat)
    requires Acted(trace, acts) && b < |acts| && acts[b].PutRow?
    requires Counted(trace[ReadAt(trace, acts, b, acts[b].h)])
    ensures trace[b + 1].nlink >= Names(trace[b + 1]) <==> Gained(trace, acts, b) <= 0
  {
    NamesMove(trace[b], acts[b]);
  }

  /** Nobody else writes the row between a prepare's read and its write. */
  ghost predicate Undisturbed(acts: seq<Act>, a: nat, b: nat)
    requires b <= |acts|
  {
    forall k | a < k < b :: acts[k].ReadRow? || acts[k].Anchor?
  }

  lemma {:induction false} QuietNames(trace: seq<Target>, acts: seq<Act>, a: nat, b: nat)
    requires Acted(trace, acts) && a < b < |trace| && acts[a].ReadRow? && Undisturbed(acts, a, b)
    requires forall k | a < k < b && acts[k].Anchor? :: acts[k].ok
    ensures Names(trace[b]) == Names(trace[a])
    decreases b
  {
    if a + 1 < b {
      QuietNames(trace, acts, a, b - 1);
    }
    NamesMove(trace[b - 1], acts[b - 1]);
  }

  /** So with no other write in between and no failed anchor the count is exact in every state. */
  lemma RunUndisturbed(trace: seq<Target>, acts: seq<Act>, i: nat)
    requires Acted(trace, acts) && i < |trace|
    requires forall b | 0 <= b < i && acts[b].PutRow? :: Undisturbed(acts, ReadAt(trace, acts, b, acts[b].h), b)
    requires forall b | 0 <= b < i && acts[b].Anchor? :: acts[b].ok
    ensures Counted(trace[i])
  {
    forall j | 0 <= j < i ensures !Miscounts(trace, acts, j) {
      if acts[j].PutRow? {
        QuietNames(trace, acts, ReadAt(trace, acts, j, acts[j].h), j);
      }
    }
    RunCounts(trace, acts, i);
  }

  /** One prepare, undisturbed, whose anchor cannot be written: it votes to abort and leaves the
      link count raised. */
  lemma FailedAnchor() returns (trace: seq<Target>, acts: seq<Act>)
    ensures Acted(trace, acts) && acts == [ReadRow(1), PutRow(1), Anchor(1, false)]
    ensures trace[3].nlink == 2 && Names(trace[3]) == 1 && trace[3].voted == 0
  {
    acts := [ReadRow(1), PutRow(1), Anchor(1, false)];
    trace := [Target(1, 1, 0, map[], {}), Target(1, 1, 0, map[1 := 1], {}), Target(2, 1, 0, map[], {1}),
              Target(2, 1, 0, map[], {})];
    assert map[1 := 1] - {1} == map[];
  }

  const ONE_LEFT: map<nat, nat> := map[2 := 1]
  const BOTH_READ: map<nat, nat> := map[1 := 1, 2 := 1]

  lemma BothRead()
    ensures Do(Target(1, 1, 0, map[], {}), ReadRow(1)) == Target(1, 1, 0, map[1 := 1], {})
    ensures Do(Target(1, 1, 0, map[1 := 1], {}), ReadRow(2)) == Target(1, 1, 0, BOTH_READ, {})
  {
  }

  lemma FirstWrites()
    ensures Do(Target(1, 1, 0, BOTH_READ, {}), PutRow(1)) == Target(2, 1, 0, ONE_LEFT, {1})
    ensures Do(Target(2, 1, 0, ONE_LEFT, {1}), Anchor(1, true)) == Target(2, 1, 1, ONE_LEFT, {})
  {
    assert BOTH_READ - {1} == ONE_LEFT;
  }

  lemma SecondWrites()
    ensures Do(Target(2, 1, 1, ONE_LEFT, {}), PutRow(2)) == Target(2, 1, 1, map[], {2})
    ensures Do(Target(2, 1, 1, map[], {2}), Anchor(2, true)) == Target(2, 1, 2, map[], {})
  {
    assert ONE_LEFT - {2} == map[];
  }

  /** Two prepares that overlap: both vote to commit, one link is lost. */
  lemma LostUpdate() returns (trace: seq<Target>, acts: seq<Act>)
    ensures Acted(trace, acts)
    ensures acts == [ReadRow(1), ReadRow(2), PutRow(1), Anchor(1, true), PutRow(2), Anchor(2, true)]
    ensures trace[6].nlink == 2 && Names(trace[6]) == 3 && trace[6].voted == 2
  {
    BothRead();
    FirstWrites();
    SecondWrites();
    acts := [ReadRow(1), ReadRow(2), PutRow(1), Anchor(1, true), PutRow(2), Anchor(2, true)];
    trace := [Target(1, 1, 0, map[], {}), Target(1, 1, 0, map[1 := 1], {}), Target(1, 1, 0, BOTH_READ, {}),
              Target(2, 1, 0, ONE_LEFT, {1}), Target(2, 1, 1, ONE_LEFT, {}), Target(2, 1, 1, map[], {2}),
              Target(2, 1, 2, map[], {})];
  }
}
