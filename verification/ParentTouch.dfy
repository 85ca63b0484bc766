/** Deferred parent attributes: per directory, increments of the change counter are kept in
    an in-memory bucket and flushed later, outside the lock, by a flusher that can fail.
    Every locked region of the aggregator is one step; a flush is a step that takes a delta
    away and a later step that lands or fails.

    The bucket is meant to satisfy logical = persisted + in flight + pending.  The steps
    that break it are named exactly, by what happened since a seed was read or a bucket was
    detached, and a run that takes none of them keeps it. */
module ParentTouch {

  datatype Bucket = Bucket(logical: nat, pending: nat, pins: nat)

  /** A delta outside the lock: a plain flush, or a whole bucket evicted to make room. */
  datatype Flight = Flush(delta: nat) | Eviction(victim: Bucket)

  function Delta(f: Flight): nat {
    match f
    case Flush(delta) => delta
    case Eviction(victim) => victim.pending
  }

  // ---------------------------------------------------------------------------
  // The hash chain of one directory, newest bucket first; lookups see the first one
  // ---------------------------------------------------------------------------

  function Unpinned(b: Bucket): Bucket {
    if b.pins > 0 then b.(pins := b.pins - 1) else b
  }

  function Pin(c: seq<Bucket>, seed: nat): seq<Bucket>
    requires c != []
  {
    c[0 := c[0].(logical := if seed > c[0].logical then seed else c[0].logical, pins := c[0].pins + 1)]
  }

  function Insert(c: seq<Bucket>, seed: nat): seq<Bucket> {
    [Bucket(seed, 0, 1)] + c
  }

  function Commit(c: seq<Bucket>): seq<Bucket>
    requires c != []
  {
    c[0 := Unpinned(c[0]).(logical := c[0].logical + 1, pending := c[0].pending + 1)]
  }

  function Abort(c: seq<Bucket>): seq<Bucket> {
    if c == [] then c
    else
      var b := Unpinned(c[0]);
      if b.pins == 0 && b.pending == 0 then c[1..] else c[0 := b]
  }

  function Fold(c: seq<Bucket>): seq<Bucket> {
    if c == [] then c else c[0 := c[0].(logical := c[0].logical + 1)]
  }

  function Take(c: seq<Bucket>, i: nat): seq<Bucket>
    requires i < |c|
  {
    c[i := c[i].(pending := 0)]
  }

  function Remove(c: seq<Bucket>, i: nat): seq<Bucket>
    requires i < |c|
  {
    c[..i] + c[i + 1..]
  }

  /** A failed flush adds its delta back, if there is a bucket to add it to. */
  function Restore(c: seq<Bucket>, delta: nat): seq<Bucket> {
    if c == [] then c else c[0 := c[0].(pending := c[0].pending + delta)]
  }

  /** A failed eviction puts the bucket back, or merges it into one built meanwhile. */
  function Reinsert(c: seq<Bucket>, v: Bucket): seq<Bucket> {
    if c == [] then [v]
    else c[0 := c[0].(pending := c[0].pending + v.pending,
                      logical := if v.logical > c[0].logical then v.logical else c[0].logical)]
  }

  // ---------------------------------------------------------------------------
  // One directory: its row, its chain, its flights
  // ---------------------------------------------------------------------------

  /** `prepared` counts preparations not yet committed or aborted; `truth` counts every
      mutation so far on top of the first persisted value. */
  datatype Dir = Dir(persisted: nat, chain: seq<Bucket>, flights: seq<Flight>, prepared: nat, truth: nat)

  datatype Step =
    | Pinning(seed: nat)      // prepare that finds a bucket
    | Inserting(seed: nat)    // prepare that makes one, at once or after an inline flush
    | Committing
    | Aborting
    | SyncBump                // a synchronous commit and its note
    | Taking(i: nat)          // a flush moves the pending delta out
    | Detaching(i: nat)       // a dirty unpinned bucket is evicted and flushed inline
    | Discarding(i: nat)      // a clean unpinned bucket is evicted or dropped
    | Landing(j: nat)
    | Failing(j: nat)

  /** Seeds were read earlier through the overlay, so they never exceed the truth. */
  predicate Enabled(d: Dir, s: Step) {
    match s
    case Pinning(seed) => d.chain != [] && seed <= d.truth
    case Inserting(seed) => seed <= d.truth
    case Committing => d.prepared > 0 && d.chain != []
    case Aborting => d.prepared > 0
    case SyncBump => true
    case Taking(i) => i < |d.chain| && d.chain[i].pending > 0
    case Detaching(i) => i < |d.chain| && d.chain[i].pins == 0 && d.chain[i].pending > 0
    case Discarding(i) => i < |d.chain| && d.chain[i].pins == 0 && d.chain[i].pending == 0
    case Landing(j) => j < |d.flights|
    case Failing(j) => j < |d.flights|
  }

  function Without(fs: seq<Flight>, j: nat): seq<Flight>
    requires j < |fs|
  {
    fs[..j] + fs[j + 1..]
  }

  function Next(d: Dir, s: Step): Dir
    requires Enabled(d, s)
  {
    match s
    case Pinning(seed) => d.(chain := Pin(d.chain, seed), prepared := d.prepared + 1)
    case Inserting(seed) => d.(chain := Insert(d.chain, seed), prepared := d.prepared + 1)
    case Committing => d.(chain := Commit(d.chain), prepared := d.prepared - 1, truth := d.truth + 1)
    case Aborting => d.(chain := Abort(d.chain), prepared := d.prepared - 1)
    case SyncBump => d.(persisted := d.persisted + 1, chain := Fold(d.chain), truth := d.truth + 1)
    case Taking(i) => d.(chain := Take(d.chain, i), flights := d.flights + [Flush(d.chain[i].pending)])
    case Detaching(i) => d.(chain := Remove(d.chain, i), flights := d.flights + [Eviction(d.chain[i])])
    case Discarding(i) => d.(chain := Remove(d.chain, i))
    case Landing(j) => d.(persisted := d.persisted + Delta(d.flights[j]), flights := Without(d.flights, j))
    case Failing(j) =>
      var c := match d.flights[j]
               case Flush(delta) => Restore(d.chain, delta)
               case Eviction(v) => Reinsert(d.chain, v);
      d.(chain := c, flights := Without(d.flights, j))
  }

  function InFlight(fs: seq<Flight>): nat {
    if fs == [] then 0 else Delta(fs[0]) + InFlight(fs[1..])
  }

  function Pending(c: seq<Bucket>): nat {
    if c == [] then 0 else c[0].pending + Pending(c[1..])
  }

  function Pins(c: seq<Bucket>): nat {
    if c == [] then 0 else c[0].pins + Pins(c[1..])
  }

  /** Nothing is lost, there is one bucket at most, and it shows the true value. */
  ghost predicate Exact(d: Dir) {
    && d.truth == d.persisted + InFlight(d.flights) + Pending(d.chain)
    && |d.chain| <= 1
    && (d.chain != [] ==> d.chain[0].logical == d.truth)
  }

  /** Flights carry something, and nothing shows more than the truth. */
  ghost predicate Sane(d: Dir) {
    && (forall f | f in d.flights :: Delta(f) > 0)
    && (forall b | b in d.chain :: b.logical <= d.truth)
    && (forall f | f in d.flights && f.Eviction? :: f.victim.logical <= d.truth)
  }

  /** The steps that break exactness, told from the state before them: building a bucket
      when there is one or from a seed that misses deltas in flight (or later updates), a
      plain flush that fails with no bucket to go back to, and an evicted bucket put back
      after the directory moved on. */
  predicate Harmful(d: Dir, s: Step)
    requires Enabled(d, s)
  {
    match s
    case Inserting(seed) => d.chain != [] || seed != d.persisted + InFlight(d.flights)
    case Failing(j) =>
      d.chain == [] && (match d.flights[j]
                        case Flush(_) => true
                        case Eviction(v) => v.logical != d.persisted + InFlight(d.flights))
    case _ => false
  }

  lemma {:induction false} InFlightAppend(fs: seq<Flight>, f: Flight)
    ensures InFlight(fs + [f]) == InFlight(fs) + Delta(f)
  {
    if fs == [] {
      assert fs + [f] == [f] && [f][1..] == [];
    } else {
      assert (fs + [f])[1..] == fs[1..] + [f];
      InFlightAppend(fs[1..], f);
    }
  }

  lemma {:induction false} InFlightWithout(fs: seq<Flight>, j: nat)
    requires j < |fs|
    ensures InFlight(fs) == InFlight(Without(fs, j)) + Delta(fs[j])
  {
    if j == 0 {
      assert Without(fs, 0) == fs[1..];
    } else {
      assert Without(fs, j)[1..] == Without(fs[1..], j - 1);
      InFlightWithout(fs[1..], j - 1);
    }
  }

  lemma PendingOne(b: Bucket)
    ensures Pending([b]) == b.pending && Pins([b]) == b.pins
  {
    assert [b][1..] == [];
  }

  lemma OneBucket(d: Dir)
    requires Exact(d) && d.chain != []
    ensures d.chain == [d.chain[0]] && Pending(d.chain) == d.chain[0].pending
  {
    PendingOne(d.chain[0]);
  }

  lemma OtherStepsExact(d: Dir, s: Step)
    requires Exact(d) && Enabled(d, s) && !s.Failing? && !s.Inserting?
    ensures Exact(Next(d, s))
  {
    var d' := Next(d, s);
    if d.chain != [] {
      OneBucket(d);
    }
    if |d'.chain| == 1 {
      assert d'.chain == [d'.chain[0]];
      PendingOne(d'.chain[0]);
    }
    match s
    case Taking(i) => InFlightAppend(d.flights, Flush(d.chain[i].pending));
    case Detaching(i) => InFlightAppend(d.flights, Eviction(d.chain[i]));
    case Landing(j) => InFlightWithout(d.flights, j);
    case _ =>
  }

  lemma InsertingExactIff(d: Dir, seed: nat)
    requires Exact(d) && Enabled(d, Inserting(seed))
    ensures Exact(Next(d, Inserting(seed))) <==> !Harmful(d, Inserting(seed))
  {
    var d' := Next(d, Inserting(seed));
    if d.chain == [] {
      assert d'.chain == [d'.chain[0]];
      PendingOne(d'.chain[0]);
    }
  }

  lemma FailingExactIff(d: Dir, j: nat)
    requires Exact(d) && Sane(d) && Enabled(d, Failing(j))
    ensures Exact(Next(d, Failing(j))) <==> !Harmful(d, Failing(j))
  {
    var d' := Next(d, Failing(j));
    InFlightWithout(d.flights, j);
    assert Delta(d.flights[j]) > 0;
    if d.chain != [] {
      OneBucket(d);
    }
    if |d'.chain| == 1 {
      assert d'.chain == [d'.chain[0]];
      PendingOne(d'.chain[0]);
    }
  }

  /** From an exact state, a step leads to an exact state exactly when it is harmless. */
  lemma StepExactIff(d: Dir, s: Step)
    requires Exact(d) && Sane(d) && Enabled(d, s)
    ensures Exact(Next(d, s)) <==> !Harmful(d, s)
  {
    match s
    case Inserting(seed) => InsertingExactIff(d, seed);
    case Failing(j) => FailingExactIff(d, j);
    case _ => OtherStepsExact(d, s);
  }

  lemma StepSane(d: Dir, s: Step)
    requires Sane(d) && Enabled(d, s)
    ensures Sane(Next(d, s)) && Next(d, s).truth >= d.truth
  {
    var d' := Next(d, s);
    match s
    case Failing(j) =>
      assert d.flights[j] in d.flights;
      forall b | b in d'.chain ensures b.logical <= d'.truth {
        assert d.chain != [] ==> d.chain[0] in d.chain;
      }
    case Detaching(i) => assert d.chain[i] in d.chain;
    case _ =>
      assert d.chain != [] ==> d.chain[0] in d.chain;
  }

  // ---------------------------------------------------------------------------
  // A pinned bucket stays
  // ---------------------------------------------------------------------------

  lemma {:induction false} PinsUpdate(c: seq<Bucket>, i: nat, b: Bucket)
    requires i < |c|
    ensures Pins(c[i := b]) + c[i].pins == Pins(c) + b.pins
  {
    if i == 0 {
      assert c[0 := b][1..] == c[1..];
    } else {
      assert c[i := b][1..] == c[1..][i - 1 := b];
      PinsUpdate(c[1..], i - 1, b);
    }
  }

  lemma {:induction false} PinsRemove(c: seq<Bucket>, i: nat)
    requires i < |c|
    ensures Pins(c) == Pins(Remove(c, i)) + c[i].pins
  {
    if i == 0 {
      assert Remove(c, 0) == c[1..];
    } else {
      assert Remove(c, i)[1..] == Remove(c[1..], i - 1);
      PinsRemove(c[1..], i - 1);
    }
  }

  /** Every outstanding preparation is backed by a pin. */
  lemma StepKeepsPins(d: Dir, s: Step)
    requires Enabled(d, s) && d.prepared <= Pins(d.chain)
    ensures Next(d, s).prepared <= Pins(Next(d, s).chain)
  {
    var c, c' := d.chain, Next(d, s).chain;
    match s
    case Pinning(seed) => PinsUpdate(c, 0, c'[0]);
    case Inserting(seed) => assert c'[1..] == c;
    case Committing => PinsUpdate(c, 0, c'[0]);
    case Aborting =>
      if c != [] {
        PinsUpdate(c, 0, Unpinned(c[0]));
      }
    case SyncBump =>
      if c != [] {
        PinsUpdate(c, 0, c'[0]);
      }
    case Taking(i) => PinsUpdate(c, i, c'[i]);
    case Detaching(i) => PinsRemove(c, i);
    case Discarding(i) => PinsRemove(c, i);
    case Landing(j) =>
    case Failing(j) =>
      if c != [] {
        PinsUpdate(c, 0, c'[0]);
      }
  }

  // ---------------------------------------------------------------------------
  // Whole runs
  // ---------------------------------------------------------------------------

  function Start(persisted: nat): Dir {
    Dir(persisted, [], [], 0, persisted)
  }

  ghost predicate Run(trace: seq<Dir>, steps: seq<Step>) {
    && |trace| == |steps| + 1
    && trace[0] == Start(trace[0].persisted)
    && forall i | 0 <= i < |steps| :: Enabled(trace[i], steps[i]) && trace[i + 1] == Next(trace[i], steps[i])
  }

  /** In every run a commit or abort after a successful prepare finds a bucket, however the
      preparations, flushes and evictions interleave. */
  lemma {:induction false} PreparedIsPinned(trace: seq<Dir>, steps: seq<Step>, i: nat)
    requires Run(trace, steps) && i < |trace|
    ensures trace[i].prepared <= Pins(trace[i].chain)
    ensures trace[i].prepared > 0 ==> trace[i].chain != []
  {
    if i > 0 {
      PreparedIsPinned(trace, steps, i - 1);
      StepKeepsPins(trace[i - 1], steps[i - 1]);
    }
  }

  lemma {:induction false} HarmlessIsExact(trace: seq<Dir>, steps: seq<Step>, i: nat)
    requires Run(trace, steps) && i < |trace|
    requires forall j | 0 <= j < i :: !Harmful(trace[j], steps[j])
    ensures Exact(trace[i]) && Sane(trace[i])
  {
    if i > 0 {
      HarmlessIsExact(trace, steps, i - 1);
      StepExactIff(trace[i - 1], steps[i - 1]);
      StepSane(trace[i - 1], steps[i - 1]);
    }
  }

  // ---------------------------------------------------------------------------
  // Harm told from what happened
  // ---------------------------------------------------------------------------

  /** What a reader sees: the row, raised by the bucket. */
  function Shown(d: Dir): nat {
    if d.chain != [] && d.chain[0].logical > d.persisted then d.chain[0].logical else d.persisted
  }

  /** `asked[i]` is when the seed of the prepare at step `i` was read. */
  ghost predicate Seeded(trace: seq<Dir>, steps: seq<Step>, asked: seq<nat>)
    requires Run(trace, steps)
  {
    && |asked| == |steps|
    && forall i | 0 <= i < |steps| && (steps[i].Pinning? || steps[i].Inserting?) ::
         asked[i] <= i && steps[i].seed == Shown(trace[asked[i]])
  }

  /** A mutation of the directory takes effect. */
  predicate Mutates(s: Step) {
    s.Committing? || s.SyncBump?
  }

  ghost predicate Mutated(steps: seq<Step>, i: nat, j: nat)
    requires j <= |steps|
  {
    exists k :: i <= k < j && Mutates(steps[k])
  }

  lemma {:induction false} TruthMovesIff(trace: seq<Dir>, steps: seq<Step>, i: nat, j: nat)
    requires Run(trace, steps) && i <= j < |trace|
    ensures trace[i].truth <= trace[j].truth
    ensures trace[i].truth < trace[j].truth <==> Mutated(steps, i, j)
    decreases j
  {
    if i < j {
      TruthMovesIff(trace, steps, i, j - 1);
      assert trace[j] == Next(trace[j - 1], steps[j - 1]);
      if Mutates(steps[j - 1]) {
        assert Mutated(steps, i, j);
      }
    }
  }

  /** Where flight `f` was before the step. */
  function Earlier(s: Step, f: nat): nat {
    if (s.Landing? || s.Failing?) && f >= s.j then f + 1 else f
  }

  predicate Departs(s: Step) {
    s.Taking? || s.Detaching?
  }

  /** The flight that a departing step sends off. */
  function Sent(d: Dir, s: Step): Flight
    requires Departs(s) && s.i < |d.chain|
  {
    if s.Taking? then Flush(d.chain[s.i].pending) else Eviction(d.chain[s.i])
  }

  lemma FlightFrom(d: Dir, s: Step, f: nat)
    requires Enabled(d, s) && f < |Next(d, s).flights|
    ensures if Departs(s) && f == |Next(d, s).flights| - 1 then s.i < |d.chain| && Next(d, s).flights[f] == Sent(d, s)
            else Earlier(s, f) < |d.flights| && Next(d, s).flights[f] == d.flights[Earlier(s, f)]
  {
  }

  /** The step at which flight `f` of state `i` left its bucket. */
  ghost function Departed(trace: seq<Dir>, steps: seq<Step>, i: nat, f: nat): nat
    requires Run(trace, steps) && i < |trace| && f < |trace[i].flights|
  {
    if i == 0 then 0
    else
      FlightFrom(trace[i - 1], steps[i - 1], f);
      if Departs(steps[i - 1]) && f == |trace[i].flights| - 1 then i - 1
      else Departed(trace, steps, i - 1, Earlier(steps[i - 1], f))
  }

  lemma {:induction false} Departure(trace: seq<Dir>, steps: seq<Step>, i: nat, f: nat)
    requires Run(trace, steps) && i < |trace| && f < |trace[i].flights|
    ensures var a := Departed(trace, steps, i, f);
      && a < i && Departs(steps[a]) && steps[a].i < |trace[a].chain|
      && trace[i].flights[f] == Sent(trace[a], steps[a])
  {
    assert i > 0;
    FlightFrom(trace[i - 1], steps[i - 1], f);
    if !(Departs(steps[i - 1]) && f == |trace[i].flights| - 1) {
      Departure(trace, steps, i - 1, Earlier(steps[i - 1], f));
    }
  }

  /** The harmful steps, told from what happened: building a bucket when there is one, or from
      a seed that was read without a bucket while a delta was in flight, or after which a
      mutation took effect; a plain flush that fails with no bucket to go back to; and an
      evicted bucket put back alone after a mutation took effect. */
  ghost predicate Unsafe(trace: seq<Dir>, steps: seq<Step>, asked: seq<nat>, i: nat)
    requires Run(trace, steps) && Seeded(trace, steps, asked) && i < |steps|
  {
    match steps[i]
    case Inserting(_) =>
      || trace[i].chain != []
      || (trace[asked[i]].chain == [] && trace[asked[i]].flights != [])
      || Mutated(steps, asked[i], i)
    case Failing(f) =>
      trace[i].chain == [] && (trace[i].flights[f].Flush? || Mutated(steps, Departed(trace, steps, i, f), i))
    case _ => false
  }

  lemma SomethingInFlight(d: Dir)
    requires Sane(d)
    ensures InFlight(d.flights) == 0 <==> d.flights == []
  {
    if d.flights != [] {
      assert d.flights[0] in d.flights;
    }
  }

  lemma SeedIsTrueIff(trace: seq<Dir>, steps: seq<Step>, a: nat, i: nat)
    requires Run(trace, steps) && a <= i < |trace| && Exact(trace[a]) && Sane(trace[a])
    ensures Shown(trace[a]) == trace[i].truth <==>
              !(trace[a].chain == [] && trace[a].flights != []) && !Mutated(steps, a, i)
  {
    TruthMovesIff(trace, steps, a, i);
    SomethingInFlight(trace[a]);
    if trace[a].chain != [] {
      assert trace[a].chain == [trace[a].chain[0]];
    }
  }

  lemma UnsafeIff(trace: seq<Dir>, steps: seq<Step>, asked: seq<nat>, i: nat)
    requires Run(trace, steps) && Seeded(trace, steps, asked) && i < |steps|
    requires forall j | 0 <= j < i :: !Harmful(trace[j], steps[j])
    ensures Harmful(trace[i], steps[i]) <==> Unsafe(trace, steps, asked, i)
  {
    HarmlessIsExact(trace, steps, i);
    if steps[i].Inserting? {
      HarmlessIsExact(trace, steps, asked[i]);
      SeedIsTrueIff(trace, steps, asked[i], i);
    } else if steps[i].Failing? && trace[i].chain == [] && trace[i].flights[steps[i].j].Eviction? {
      var a := Departed(trace, steps, i, steps[i].j);
      Departure(trace, steps, i, steps[i].j);
      HarmlessIsExact(trace, steps, a);
      TruthMovesIff(trace, steps, a, i);
      assert trace[a].chain == [trace[a].chain[0]];
    }
  }

  lemma SafeStep(trace: seq<Dir>, steps: seq<Step>, asked: seq<nat>, i: nat)
    requires Run(trace, steps) && Seeded(trace, steps, asked) && i < |steps|
    requires !Unsafe(trace, steps, asked, i) && forall j | 0 <= j < i :: !Harmful(trace[j], steps[j])
    ensures !Harmful(trace[i], steps[i])
  {
    UnsafeIff(trace, steps, asked, i);
  }

  lemma SafeIsHarmless(trace: seq<Dir>, steps: seq<Step>, asked: seq<nat>, i: nat)
    requires Run(trace, steps) && Seeded(trace, steps, asked) && i <= |steps|
    requires forall j | 0 <= j < i :: !Unsafe(trace, steps, asked, j)
    ensures forall j | 0 <= j < i :: !Harmful(trace[j], steps[j])
  {
    var k := 0;
    while k < i
      invariant k <= i && forall j | 0 <= j < k :: !Harmful(trace[j], steps[j])
    {
      SafeStep(trace, steps, asked, k);
      k := k + 1;
    }
  }

  /** In every run logical = persisted + in flight + pending up to the first unsafe step, and
      not right after it. */
  lemma RunExact(trace: seq<Dir>, steps: seq<Step>, asked: seq<nat>, i: nat)
    requires Run(trace, steps) && Seeded(trace, steps, asked) && i < |trace|
    requires forall j | 0 <= j < i :: !Unsafe(trace, steps, asked, j)
    ensures Exact(trace[i]) && Sane(trace[i])
    ensures i < |steps| && Unsafe(trace, steps, asked, i) ==> !Exact(trace[i + 1])
  {
    SafeIsHarmless(trace, steps, asked, i);
    HarmlessIsExact(trace, steps, i);
    if i < |steps| {
      UnsafeIff(trace, steps, asked, i);
      StepExactIff(trace[i], steps[i]);
    }
  }

  /** The change value a commit reports as "before"; "after" is one more. */
  function Before(d: Dir): nat
    requires d.chain != []
  {
    d.chain[0].logical
  }

  /** The pairs handed out by a safe run strictly increase, so no two deferred mutations of a
      directory share one. */
  lemma PairsIncrease(trace: seq<Dir>, steps: seq<Step>, asked: seq<nat>, i: nat, j: nat)
    requires Run(trace, steps) && Seeded(trace, steps, asked)
    requires i < j < |steps| && steps[i].Committing? && steps[j].Committing?
    requires forall k | 0 <= k < j :: !Unsafe(trace, steps, asked, k)
    ensures Before(trace[i]) + 1 <= Before(trace[j])
    ensures Before(trace[j]) == trace[j].truth
  {
    RunExact(trace, steps, asked, i);
    RunExact(trace, steps, asked, j);
    assert trace[i + 1] == Next(trace[i], steps[i]);
    TruthMovesIff(trace, steps, i + 1, j);
  }

  /** Prepare, commit, and the delta taken out by a flusher. */
  lemma FirstHalf()
    ensures Next(Start(5), Inserting(5)) == Dir(5, [Bucket(5, 0, 1)], [], 1, 5)
    ensures Next(Dir(5, [Bucket(5, 0, 1)], [], 1, 5), Committing) == Dir(5, [Bucket(6, 1, 0)], [], 0, 6)
  {
  }

  lemma Taken()
    ensures Next(Dir(5, [Bucket(6, 1, 0)], [], 0, 6), Taking(0)) == Dir(5, [Bucket(6, 0, 0)], [Flush(1)], 0, 6)
  {
  }

  lemma SecondHalf()
    ensures Next(Dir(5, [Bucket(6, 0, 0)], [Flush(1)], 0, 6), Discarding(0)) == Dir(5, [], [Flush(1)], 0, 6)
    ensures Next(Dir(5, [], [Flush(1)], 0, 6), Inserting(5)) == Dir(5, [Bucket(5, 0, 1)], [Flush(1)], 1, 6)
    ensures Harmful(Dir(5, [], [Flush(1)], 0, 6), Inserting(5))
  {
    InFlightAppend([], Flush(1));
    assert [] + [Flush(1)] == [Flush(1)];
  }

  /** One harmful step is enough: a flush takes the delta out, the bucket now looks clean
      and is evicted, and the next prepare seeds from the row before the flush lands.  Two
      mutations get the pair (5, 6). */
  lemma SharedPair() returns (trace: seq<Dir>, steps: seq<Step>)
    ensures Run(trace, steps) && |steps| == 6 && steps[1] == steps[5] == Committing
    ensures trace[1].chain != [] && trace[5].chain != [] && Before(trace[1]) == 5 == Before(trace[5])
    ensures Seeded(trace, steps, [0, 0, 0, 0, 4, 0]) && Unsafe(trace, steps, [0, 0, 0, 0, 4, 0], 4)
  {
    FirstHalf();
    Taken();
    SecondHalf();
    steps := [Inserting(5), Committing, Taking(0), Discarding(0), Inserting(5), Committing];
    var last := Dir(5, [Bucket(5, 0, 1)], [Flush(1)], 1, 6);
    trace := [Start(5), Dir(5, [Bucket(5, 0, 1)], [], 1, 5), Dir(5, [Bucket(6, 1, 0)], [], 0, 6),
              Dir(5, [Bucket(6, 0, 0)], [Flush(1)], 0, 6), Dir(5, [], [Flush(1)], 0, 6), last, Next(last, Committing)];
  }

  // ---------------------------------------------------------------------------
  // The aggregator
  // ---------------------------------------------------------------------------

  datatype Room = Free | FlushFirst(dir: nat, victim: Bucket) | Full

  type Chains = map<nat, seq<Bucket>>

  function ChainOf(chains: Chains, d: nat): seq<Bucket> {
    if d in chains then chains[d] else []
  }

  predicate Idle(b: Bucket) {
    b.pins == 0 && b.pending == 0
  }

  /** The second chain is the first with some idle buckets thrown away, one by one. */
  ghost predicate Evicted(was: seq<Bucket>, now: seq<Bucket>)
    decreases |was| - |now|
  {
    was == now || (|now| < |was| && exists mid, i :: EvictsOne(mid, i, now) && Evicted(was, mid))
  }

  ghost predicate EvictsOne(mid: seq<Bucket>, i: nat, now: seq<Bucket>) {
    i < |mid| && Idle(mid[i]) && now == Remove(mid, i)
  }

  ghost predicate AllEvicted(was: Chains, now: Chains) {
    forall e: nat :: Evicted(ChainOf(was, e), ChainOf(now, e))
  }

  lemma {:induction false} EvictedShrinks(was: seq<Bucket>, now: seq<Bucket>)
    requires Evicted(was, now)
    ensures |now| <= |was|
  {
  }

  lemma EvictMore(was: Chains, mid: Chains, d: nat, i: nat)
    requires AllEvicted(was, mid) && d in mid && i < |mid[d]| && Idle(mid[d][i])
    ensures AllEvicted(was, mid[d := Remove(mid[d], i)])
  {
    var now := mid[d := Remove(mid[d], i)];
    forall e: nat ensures Evicted(ChainOf(was, e), ChainOf(now, e)) {
      assert Evicted(ChainOf(was, e), ChainOf(mid, e));
      if e == d {
        EvictedShrinks(ChainOf(was, d), mid[d]);
        assert EvictsOne(mid[d], i, now[d]);
      }
    }
  }

  /** A run of steps from one state of a directory to another. */
  ghost predicate Leads(d: Dir, ss: seq<Step>, d': Dir) {
    if ss == [] then d == d'
    else
      var front, last := ss[..|ss| - 1], ss[|ss| - 1];
      exists m :: Leads(d, front, m) && Enabled(m, last) && d' == Next(m, last)
  }

  /** Throwing idle buckets away is a run of the state machine. */
  lemma {:induction false} EvictedLeads(d: Dir, now: seq<Bucket>) returns (ss: seq<Step>)
    requires Evicted(d.chain, now)
    ensures Leads(d, ss, d.(chain := now)) && forall s | s in ss :: s.Discarding?
    decreases |d.chain| - |now|
  {
    if d.chain == now {
      ss := [];
    } else {
      var mid, i :| EvictsOne(mid, i, now) && Evicted(d.chain, mid);
      EvictedShrinks(d.chain, mid);
      var front := EvictedLeads(d, mid);
      ss := front + [Discarding(i)];
      assert ss[..|ss| - 1] == front;
      assert Enabled(d.(chain := mid), Discarding(i));
    }
  }

  /** How many buckets there are. */
  ghost function Total(chains: Chains): nat
    decreases chains.Keys
  {
    if chains == map[] then 0
    else
      var d :| d in chains;
      |chains[d]| + Total(chains - {d})
  }

  lemma {:induction false} TotalOut(chains: Chains, d: nat)
    requires d in chains
    ensures Total(chains) == |chains[d]| + Total(chains - {d})
    decreases chains.Keys
  {
    var e :| e in chains && Total(chains) == |chains[e]| + Total(chains - {e});
    if e != d {
      TotalOut(chains - {e}, d);
      TotalOut(chains - {d}, e);
      assert chains - {e} - {d} == chains - {d} - {e};
    }
  }

  lemma TotalSet(chains: Chains, d: nat, c: seq<Bucket>)
    ensures Total(chains[d := c]) + |ChainOf(chains, d)| == Total(chains) + |c|
  {
    TotalOut(chains[d := c], d);
    assert chains[d := c] - {d} == chains - {d};
    if d in chains {
      TotalOut(chains, d);
    } else {
      assert chains - {d} == chains;
    }
  }

  /** Every bucket is pinned or has something to flush. */
  ghost predicate NoneIdle(chains: Chains) {
    forall d, b | d in chains && b in chains[d] :: b.pins > 0 || b.pending > 0
  }

  lemma NoneIdleWithout(chains: Chains, d: nat, i: nat)
    requires d in chains && i < |chains[d]|
    requires forall e, j | e in chains && 0 <= j < |chains[e]| :: !Idle(chains[e][j])
    ensures NoneIdle(chains) && NoneIdle(chains[d := Remove(chains[d], i)])
  {
  }

  /** What each locked region does to a directory's chain is a step of its state machine. */
  lemma RegionsAreSteps(d: Dir)
    ensures forall seed: nat | seed <= d.truth && d.chain != [] ::
              Enabled(d, Pinning(seed)) && Next(d, Pinning(seed)).chain == Pin(d.chain, seed)
    ensures forall seed: nat | seed <= d.truth ::
              Enabled(d, Inserting(seed)) && Next(d, Inserting(seed)).chain == Insert(d.chain, seed)
    ensures d.prepared > 0 && d.chain != [] ==>
              Enabled(d, Committing) && Next(d, Committing).chain == Commit(d.chain)
    ensures d.prepared > 0 ==> Enabled(d, Aborting) && Next(d, Aborting).chain == Abort(d.chain)
    ensures Enabled(d, SyncBump) && Next(d, SyncBump).chain == Fold(d.chain)
    ensures forall i | 0 <= i < |d.chain| && d.chain[i].pending > 0 ::
              Enabled(d, Taking(i)) && Next(d, Taking(i)).chain == Take(d.chain, i)
    ensures forall i | 0 <= i < |d.chain| && d.chain[i].pins == 0 && d.chain[i].pending > 0 ::
              Enabled(d, Detaching(i)) && Next(d, Detaching(i)).chain == Remove(d.chain, i)
    ensures forall i | 0 <= i < |d.chain| && d.chain[i].pins == 0 && d.chain[i].pending == 0 ::
              Enabled(d, Discarding(i)) && Next(d, Discarding(i)).chain == Remove(d.chain, i)
    ensures forall j | 0 <= j < |d.flights| :: Enabled(d, Landing(j)) && Next(d, Landing(j)).chain == d.chain
    ensures forall j, delta | 0 <= j < |d.flights| && d.flights[j] == Flush(delta) ::
              Enabled(d, Failing(j)) && Next(d, Failing(j)).chain == Restore(d.chain, delta)
    ensures forall j, v | 0 <= j < |d.flights| && d.flights[j] == Eviction(v) ::
              Enabled(d, Failing(j)) && Next(d, Failing(j)).chain == Reinsert(d.chain, v)
  {
  }

  /** One shard.  Each method is one locked region and acts on one directory's chain as the
      state machine above does; making room may take idle buckets of any directory. */
  class Shard {
    const capacity: nat
    var chains: Chains
    var count: nat

    /** The entry count is the number of buckets, and room for some is there. */
    ghost predicate Valid()
      reads this
    {
      capacity > 0 && count == Total(chains)
    }

    constructor (capacity: nat)
      ensures Valid() && chains == map[] && count == 0 && this.capacity == if capacity < 4 then 4 else capacity
    {
      this.capacity := if capacity < 4 then 4 else capacity;
      chains, count := map[], 0;
    }

    /** Evict idle buckets until there is room; failing that, detach a dirty unpinned
        bucket for the caller to flush; failing that, give up. */
    method MakeRoom() returns (r: Room)
      requires Valid()
      modifies this
      ensures Valid()
      ensures r.Free? ==> Total(chains) < capacity
      ensures Total(chains) <= Total(old(chains))
      // With room to spare nothing is touched; else one bucket at a time goes, until one fits.
      ensures Total(old(chains)) < capacity ==> r == Free && chains == old(chains)
      ensures Total(old(chains)) >= capacity && r.Free? ==> Total(chains) == capacity - 1
      // A dirty bucket is detached, or none is found, only from a full shard without an idle one.
      ensures r.FlushFirst? ==> Total(chains) >= capacity - 1
      ensures r.Full? ==> Total(chains) >= capacity
      ensures !r.Free? ==> NoneIdle(chains)
      ensures r.Free? || r.Full? ==> AllEvicted(old(chains), chains)
      ensures r.Full? ==> forall d, i | d in chains && 0 <= i < |chains[d]| :: chains[d][i].pins > 0
      ensures r.FlushFirst? ==> r.victim.pins == 0 && r.victim.pending > 0
      ensures r.FlushFirst? ==> exists was: Chains, i :: Detached(old(chains), was, chains, r.dir, r.victim, i)
    {
      while count >= capacity
        invariant Valid() && AllEvicted(old(chains), chains) && Total(chains) <= Total(old(chains))
        invariant Total(old(chains)) < capacity ==> chains == old(chains)
        invariant Total(old(chains)) >= capacity ==> Total(chains) >= capacity - 1
        decreases count
      {
        if d, i :| d in chains && 0 <= i < |chains[d]| && Idle(chains[d][i]) {
          EvictMore(old(chains), chains, d, i);
          TotalSet(chains, d, Remove(chains[d], i));
          chains := chains[d := Remove(chains[d], i)];
          count := count - 1;
        } else if d, i :| d in chains && 0 <= i < |chains[d]| && chains[d][i].pins == 0 {
          r := FlushFirst(d, chains[d][i]);
          ghost var was := chains;
          NoneIdleWithout(chains, d, i);
          TotalSet(chains, d, Remove(chains[d], i));
          chains := chains[d := Remove(chains[d], i)];
          count := count - 1;
          assert Detached(old(chains), was, chains, r.dir, r.victim, i);
          return;
        } else {
          return Full;
        }
      }
      return Free;
    }

    /** A prepare that found no bucket, at first or again after its inline flush. */
    method PrepareNew(d: nat, seed: nat) returns (r: Room)
      requires Valid()
      modifies this
      ensures Valid()
      ensures r.Free? ==> Total(chains) <= capacity
      ensures r.Free? ==> exists c :: Evicted(old(ChainOf(chains, d)), c) && ChainOf(chains, d) == Insert(c, seed)
      ensures r.Free? ==> forall e: nat | e != d :: Evicted(old(ChainOf(chains, e)), ChainOf(chains, e))
      ensures r.Full? ==> AllEvicted(old(chains), chains)
      ensures r.FlushFirst? ==> exists was: Chains, i :: Detached(old(chains), was, chains, r.dir, r.victim, i)
      ensures Total(old(chains)) < capacity ==>
                r == Free && chains == old(chains)[d := Insert(old(ChainOf(chains, d)), seed)]
      ensures r.FlushFirst? ==> r.victim.pins == 0 && r.victim.pending > 0
      ensures !r.Free? ==> NoneIdle(chains)
      ensures r.Full? ==> forall e, b | e in chains && b in chains[e] :: b.pins > 0
    {
      r := MakeRoom();
      if r.Free? {
        assert Evicted(old(ChainOf(chains, d)), ChainOf(chains, d));
        TotalSet(chains, d, Insert(ChainOf(chains, d), seed));
        chains := chains[d := Insert(ChainOf(chains, d), seed)];
        count := count + 1;
      }
    }

    method Prepare(d: nat, seed: nat) returns (r: Room)
      requires Valid()
      modifies this
      ensures Valid()
      ensures old(ChainOf(chains, d)) != [] ==> r == Free && chains == old(chains)[d := Pin(old(ChainOf(chains, d)),
                seed)]
      ensures old(ChainOf(chains, d)) == [] && r.Free? ==> ChainOf(chains, d) == Insert([], seed)
      ensures r.Free? ==> forall e: nat | e != d :: Evicted(old(ChainOf(chains, e)), ChainOf(chains, e))
      ensures r.Full? ==> AllEvicted(old(chains), chains)
      ensures r.FlushFirst? ==> exists was: Chains, i :: Detached(old(chains), was, chains, r.dir, r.victim, i)
      // A directory without a bucket gets one whenever there is room, and nothing else changes.
      ensures old(ChainOf(chains, d)) == [] && Total(old(chains)) < capacity ==>
                r == Free && chains == old(chains)[d := [Bucket(seed, 0, 1)]]
      // It is refused only by a full shard in which every bucket is pinned.
      ensures r.Full? ==> forall e, b | e in chains && b in chains[e] :: b.pins > 0
      ensures r.FlushFirst? ==> r.victim.pins == 0 && r.victim.pending > 0 && NoneIdle(chains)
    {
      if ChainOf(chains, d) != [] {
        TotalSet(chains, d, Pin(chains[d], seed));
        chains := chains[d := Pin(chains[d], seed)];
        return Free;
      }
      r := PrepareNew(d, seed);
      assert Insert([], seed) == [Bucket(seed, 0, 1)];
    }

    /** The inline flush of a detached bucket came back. */
    method FinishEviction(d: nat, victim: Bucket, landed: bool)
      requires Valid()
      modifies this
      ensures Valid()
      ensures chains == if landed then old(chains) else old(chains)[d := Reinsert(old(ChainOf(chains, d)), victim)]
    {
      if !landed {
        if ChainOf(chains, d) == [] {
          count := count + 1;
        }
        TotalSet(chains, d, Reinsert(ChainOf(chains, d), victim));
        chains := chains[d := Reinsert(ChainOf(chains, d), victim)];
      }
    }

    method CommitPrepared(d: nat) returns (found: bool, before: nat, after: nat)
      requires Valid()
      modifies this
      ensures Valid()
      ensures found <==> old(ChainOf(chains, d)) != []
      ensures found ==> chains == old(chains)[d := Commit(old(ChainOf(chains, d)))]
      ensures found ==>
                before == old(ChainOf(chains, d))[0].logical && after == before + 1 == ChainOf(chains, d)[0].logical
      ensures !found ==> chains == old(chains) && before == after == 0
    {
      found := ChainOf(chains, d) != [];
      before, after := 0, 0;
      if found {
        TotalSet(chains, d, Commit(chains[d]));
        chains := chains[d := Commit(chains[d])];
        before, after := chains[d][0].logical - 1, chains[d][0].logical;
      }
    }

    method AbortPrepared(d: nat)
      requires Valid()
      modifies this
      ensures Valid()
      ensures chains == if d in old(chains) then old(chains)[d := Abort(old(chains)[d])] else old(chains)
    {
      if d in chains {
        TotalSet(chains, d, Abort(chains[d]));
        if |Abort(chains[d])| < |chains[d]| {
          count := count - 1;
        }
        chains := chains[d := Abort(chains[d])];
      }
    }

    method NoteSyncBump(d: nat)
      requires Valid()
      modifies this
      ensures Valid()
      ensures chains == if d in old(chains) then old(chains)[d := Fold(old(chains)[d])] else old(chains)
    {
      if d in chains {
        TotalSet(chains, d, Fold(chains[d]));
        chains := chains[d := Fold(chains[d])];
      }
    }

    /** The attribute a reader sees: never below the row, raised by the bucket. */
    method Overlay(d: nat, row: nat) returns (change: nat)
      ensures change >= row
      ensures ChainOf(chains, d) == [] ==> change == row
      ensures ChainOf(chains, d) != [] ==> change >= ChainOf(chains, d)[0].logical
      ensures change == row || (ChainOf(chains, d) != [] && change == ChainOf(chains, d)[0].logical)
    {
      change := row;
      if ChainOf(chains, d) != [] && chains[d][0].logical > row {
        change := chains[d][0].logical;
      }
    }

    /** The first half of a forced flush: what to persist, if anything. */
    method TakeFlush(d: nat) returns (hit: bool, delta: nat)
      requires Valid()
      modifies this
      ensures Valid()
      ensures hit <==> old(ChainOf(chains, d)) != []
      ensures delta == if hit then old(ChainOf(chains, d))[0].pending else 0
      ensures chains == if delta > 0 then old(chains)[d := Take(old(ChainOf(chains, d)), 0)] else old(chains)
    {
      hit, delta := ChainOf(chains, d) != [], 0;
      if hit && chains[d][0].pending > 0 {
        delta := chains[d][0].pending;
        TotalSet(chains, d, Take(chains[d], 0));
        chains := chains[d := Take(chains[d], 0)];
      }
    }

    /** The second half when the flush failed. */
    method FailFlush(d: nat, delta: nat)
      requires Valid()
      modifies this
      ensures Valid()
      ensures chains == if d in old(chains) then old(chains)[d := Restore(old(chains)[d], delta)] else old(chains)
    {
      if d in chains {
        TotalSet(chains, d, Restore(chains[d], delta));
        chains := chains[d := Restore(chains[d], delta)];
      }
    }

    /** The last part of flush-and-drop: a bucket still idle goes. */
    method Drop(d: nat)
      requires Valid()
      modifies this
      ensures Valid()
      ensures var c := old(ChainOf(chains, d));
        chains == if c != [] && Idle(c[0]) then old(chains)[d := Remove(c, 0)] else old(chains)
    {
      if ChainOf(chains, d) != [] && Idle(chains[d][0]) {
        TotalSet(chains, d, Remove(chains[d], 0));
        chains := chains[d := Remove(chains[d], 0)];
        count := count - 1;
      }
    }
  }

  /** After some idle buckets went, one dirty unpinned bucket was taken off its chain. */
  ghost predicate Detached(was: Chains, mid: Chains, now: Chains, d: nat, victim: Bucket, i: nat) {
    && AllEvicted(was, mid)
    && d in mid && i < |mid[d]| && mid[d][i] == victim && now == mid[d := Remove(mid[d], i)]
  }
}
