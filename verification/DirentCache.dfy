/** The name cache and its generation-guarded negative entries.  Readers snapshot the
    generation, look the name up in the store and insert "not found" only if no
    invalidation happened since; writers commit, bump the generation, and then drop the
    entry.  A cached "not found" for a name that exists is always about to be dropped. */
module DirentCache {

  datatype Entry = Negative(at: nat) | Positive(child: nat, at: nat)

  datatype Key = Key(parent: nat, name: string)

  datatype Hit = Miss | Absent | Found(child: nat)

  // ---------------------------------------------------------------------------
  // The cache
  // ---------------------------------------------------------------------------

  lemma Dropping(m: map<Key, Entry>, k: Key)
    ensures |m - {k}| == if k in m then |m| - 1 else |m|
  {
    assert (m - {k}).Keys == m.Keys - {k};
  }

  lemma Putting(m: map<Key, Entry>, k: Key, e: Entry)
    ensures |m[k := e]| == if k in m then |m| else |m| + 1
  {
    assert m[k := e].Keys == m.Keys + {k};
  }

  class Cache {
    const capacity: nat
    const negTtl: nat
    const posTtl: nat
    var entries: map<Key, Entry>
    var generation: nat

    ghost predicate Valid()
      reads this
    {
      capacity > 0 && |entries| <= capacity
    }

    constructor (capacity: nat, negTtl: nat, posTtl: nat)
      requires capacity > 0
      ensures Valid() && entries == map[] && generation == 0
      ensures this.capacity == capacity && this.negTtl == negTtl && this.posTtl == posTtl
    {
      this.capacity, this.negTtl, this.posTtl := capacity, negTtl, posTtl;
      entries, generation := map[], 0;
    }

    predicate Expired(e: Entry, now: nat) {
      match e
      case Negative(at) => now - at > negTtl
      case Positive(_, at) => posTtl != 0 && now - at > posTtl
    }

    /** An expired entry is dropped and reads as a miss. */
    method Get(k: Key, now: nat) returns (h: Hit)
      requires Valid()
      modifies this`entries
      ensures Valid()
      ensures h == Miss <==> k !in old(entries) || Expired(old(entries)[k], now)
      // In time: a negative entry lasts its whole span, and so does a positive one, unless that
      // span is zero, which means for ever.
      ensures k in old(entries) ==>
                (h == Miss <==> if old(entries)[k].Negative? then now - old(entries)[k].at > negTtl
                                else posTtl != 0 && now - old(entries)[k].at > posTtl)
      ensures h == Absent ==> old(entries)[k].Negative?
      ensures h.Found? ==> old(entries)[k].Positive? && h.child == old(entries)[k].child
      ensures entries == if k in old(entries) && Expired(old(entries)[k], now) then old(entries) - {k} else old(entries)
    {
      if k !in entries {
        return Miss;
      }
      if Expired(entries[k], now) {
        entries := entries - {k};
        return Miss;
      }
      match entries[k] {
        case Negative(_) => return Absent;
        case Positive(child, _) => return Found(child);
      }
    }

    /** Set the entry, evicting some other one when the cache is full. */
    method Store(k: Key, e: Entry)
      requires Valid()
      modifies this`entries
      ensures Valid()
      ensures k in entries && entries[k] == e
      ensures forall j | j in entries && j != k :: j in old(entries) && entries[j] == old(entries)[j]
      ensures k in old(entries) || |old(entries)| < capacity ==> entries == old(entries)[k := e]
      ensures k !in old(entries) && |old(entries)| == capacity ==>
                exists victim | victim in old(entries) :: entries == (old(entries) - {victim})[k := e]
    {
      if k !in entries && |entries| >= capacity {
        var victim :| victim in entries;
        Dropping(entries, victim);
        entries := entries - {victim};
      }
      Putting(entries, k, e);
      entries := entries[k := e];
    }

    method PutPositive(k: Key, child: nat, now: nat) returns (ok: bool)
      requires Valid()
      modifies this`entries
      ensures Valid()
      ensures ok <==> child != 0
      ensures ok ==> k in entries && entries[k] == Positive(child, now)
      ensures !ok ==> entries == old(entries)
      ensures forall j | j in entries && j != k :: j in old(entries) && entries[j] == old(entries)[j]
      ensures forall s: State, r: nat | ok && Enabled(s, PutFound(r)) && s.readers[r].child == child ::
                Next(s, PutFound(r)).cached == Seen(entries, k)
    {
      ok := child != 0;
      if ok {
        Store(k, Positive(child, now));
      }
    }

    /** Check of the generation and insert, in one locked region. */
    method PutNegativeIfUnchanged(k: Key, snapshot: nat, now: nat) returns (ok: bool)
      requires Valid()
      modifies this`entries
      ensures Valid()
      ensures ok <==> generation == snapshot
      ensures ok ==> k in entries && entries[k] == Negative(now)
      ensures !ok ==> entries == old(entries)
      ensures forall j | j in entries && j != k :: j in old(entries) && entries[j] == old(entries)[j]
      ensures forall s: State, r: nat | Enabled(s, PutNegative(r)) && s.cached == Seen(old(entries), k)
                && s.gen == generation && s.readers[r].gen == snapshot ::
                Next(s, PutNegative(r)).cached == Seen(entries, k)
    {
      ok := generation == snapshot;
      if ok {
        Store(k, Negative(now));
      }
    }

    /** An invalidation is two regions: the bump, and then the removal. */
    method Bump()
      modifies this`generation
      ensures generation == old(generation) + 1
      ensures forall s: State, w: nat | Enabled(s, BumpGen(w)) && s.gen == old(generation) ::
                Next(s, BumpGen(w)).gen == generation
    {
      generation := generation + 1;
    }

    /** Remove one entry. */
    method Drop(k: Key)
      requires Valid()
      modifies this`entries
      ensures Valid()
      ensures entries == old(entries) - {k}
      ensures forall s: State, w: nat | Enabled(s, DropEntry(w)) :: Next(s, DropEntry(w)).cached == Seen(entries, k)
    {
      Dropping(entries, k);
      entries := entries - {k};
    }

    /** Remove all entries of a directory. */
    method DropParent(parent: nat)
      requires Valid()
      modifies this`entries
      ensures Valid()
      ensures entries == map k | k in old(entries) && k.parent != parent :: old(entries)[k]
    {
      var rest := entries.Keys;
      while rest != {}
        invariant Valid() && rest <= old(entries).Keys
        invariant entries == map k | k in old(entries) && (k.parent != parent || k in rest) :: old(entries)[k]
        decreases |rest|
      {
        var k :| k in rest;
        if k.parent == parent {
          Dropping(entries, k);
          entries := entries - {k};
        }
        rest := rest - {k};
      }
    }
  }

  // ---------------------------------------------------------------------------
  // One name: readers and writers interleaved
  // ---------------------------------------------------------------------------

  /** What the cache says about one name, its age aside; the calls of the cache move it as the
      steps below do. */
  function Seen(entries: map<Key, Entry>, k: Key): Cached {
    if k !in entries then Nothing
    else match entries[k]
         case Negative(_) => NotFound
         case Positive(child, _) => Present(child)
  }

  datatype Reader = HasGen(gen: nat) | SawAbsent(gen: nat) | SawPresent(child: nat)
  datatype Phase = Committed | Bumped
  datatype Writer = Writer(creator: bool, phase: Phase)
  datatype Answer = Gone | There(child: nat)

  /** The store's answer, what the cache says, the generation, and everybody on the way. */
  datatype State = State(
    answer: Answer,
    cached: Cached,
    gen: nat,
    readers: map<nat, Reader>,
    writers: map<nat, Writer>)

  datatype Cached = Nothing | NotFound | Present(child: nat)

  datatype Step =
    | ReadGen(r: nat)
    | Lookup(r: nat)
    | PutNegative(r: nat)
    | PutFound(r: nat)
    | CommitCreate(w: nat, child: nat)
    | CommitRemove(w: nat)
    | CommitReplace(w: nat, child: nat)   // a rename over the name
    | BumpGen(w: nat)
    | DropEntry(w: nat)
    | OtherBump              // an invalidation of some other name
    | Evict

  predicate Enabled(s: State, t: Step) {
    match t
    case ReadGen(r) => r !in s.readers
    case Lookup(r) => r in s.readers && s.readers[r].HasGen?
    case PutNegative(r) => r in s.readers && s.readers[r].SawAbsent?
    case PutFound(r) => r in s.readers && s.readers[r].SawPresent?
    case CommitCreate(w, _) => s.answer.Gone? && w !in s.writers
    case CommitRemove(w) => s.answer.There? && w !in s.writers
    case CommitReplace(w, _) => s.answer.There? && w !in s.writers
    case BumpGen(w) => w in s.writers && s.writers[w].phase == Committed
    case DropEntry(w) => w in s.writers && s.writers[w].phase == Bumped
    case OtherBump => true
    case Evict => true
  }

  /** Readers start when they like, other names are invalidated and entries evicted at any time,
      and whoever has begun can go on. */
  lemma NothingHoldsUp(s: State, c: nat, child: nat)
    ensures Enabled(s, OtherBump) && Enabled(s, Evict)
    ensures if c !in s.readers then Enabled(s, ReadGen(c))
            else Enabled(s, Lookup(c)) || Enabled(s, PutNegative(c)) || Enabled(s, PutFound(c))
    ensures c in s.writers ==> Enabled(s, BumpGen(c)) || Enabled(s, DropEntry(c))
    ensures c !in s.writers && s.answer.Gone? ==> Enabled(s, CommitCreate(c, child))
    ensures c !in s.writers && s.answer.There? ==> Enabled(s, CommitRemove(c)) && Enabled(s, CommitReplace(c, child))
  {
  }

  function Next(s: State, t: Step): State
    requires Enabled(s, t)
  {
    match t
    case ReadGen(r) => s.(readers := s.readers[r := HasGen(s.gen)])
    case Lookup(r) =>
      s.(readers := s.readers[r := match s.answer
                                   case There(child) => SawPresent(child)
                                   case Gone => SawAbsent(s.readers[r].gen)])
    case PutNegative(r) =>
      s.(cached := if s.gen == s.readers[r].gen then NotFound else s.cached, readers := s.readers - {r})
    case PutFound(r) => s.(cached := Present(s.readers[r].child), readers := s.readers - {r})
    case CommitCreate(w, child) => s.(answer := There(child), writers := s.writers[w := Writer(true, Committed)])
    case CommitRemove(w) => s.(answer := Gone, writers := s.writers[w := Writer(false, Committed)])
    case CommitReplace(w, child) => s.(answer := There(child), writers := s.writers[w := Writer(false, Committed)])
    case BumpGen(w) => s.(gen := s.gen + 1, writers := s.writers[w := s.writers[w].(phase := Bumped)])
    case DropEntry(w) => s.(cached := Nothing, writers := s.writers - {w})
    case OtherBump => s.(gen := s.gen + 1)
    case Evict => s.(cached := Nothing)
  }

  /** Some creator has committed and not yet dropped the entry. */
  ghost predicate CreatorPending(s: State) {
    exists w | w in s.writers :: s.writers[w].creator
  }

  /** Some creator has committed and not yet bumped the generation. */
  ghost predicate CreatorUnbumped(s: State) {
    exists w | w in s.writers :: s.writers[w].creator && s.writers[w].phase == Committed
  }

  ghost predicate Inv(s: State) {
    && (s.answer.There? && s.cached == NotFound ==> CreatorPending(s))
    && (forall r | r in s.readers && !s.readers[r].SawPresent? :: s.readers[r].gen <= s.gen)
    && (forall r | r in s.readers && s.readers[r].SawAbsent? && s.readers[r].gen == s.gen && s.answer.There? ::
        CreatorUnbumped(s))
  }

  lemma StepKeepsInv(s: State, t: Step)
    requires Inv(s) && Enabled(s, t)
    ensures Inv(Next(s, t))
  {
    var s' := Next(s, t);
    match t
    case CommitCreate(w, _) => assert s'.writers[w].creator;
    case BumpGen(w) =>
      if CreatorPending(s) {
        var v :| v in s.writers && s.writers[v].creator;
        assert s'.writers[v].creator;
      }
    case DropEntry(w) => KeepsUnbumped(s, w);
    case CommitReplace(w, _) =>
      if v :| v in s.writers && s.writers[v].creator {
        assert s'.writers[v].creator;
      }
      if v :| v in s.writers && s.writers[v].creator && s.writers[v].phase == Committed {
        assert s'.writers[v] == s.writers[v];
      }
    case _ =>
  }

  lemma KeepsUnbumped(s: State, w: nat)
    requires w in s.writers && s.writers[w].phase == Bumped
    ensures CreatorUnbumped(s) ==> CreatorUnbumped(Next(s, DropEntry(w)))
  {
    if CreatorUnbumped(s) {
      var v :| v in s.writers && s.writers[v].creator && s.writers[v].phase == Committed;
      assert v in Next(s, DropEntry(w)).writers;
    }
  }

  ghost predicate Run(trace: seq<State>, steps: seq<Step>) {
    && |trace| == |steps| + 1
    && trace[0].cached == Nothing && trace[0].readers == map[] && trace[0].writers == map[]
    && forall i | 0 <= i < |steps| :: Enabled(trace[i], steps[i]) && trace[i + 1] == Next(trace[i], steps[i])
  }

  /** In every run: a cached "not found" for a name that exists means that a creator is
      still between its commit and its removal of the entry. */
  lemma {:induction false} NegativesAreNotStale(trace: seq<State>, steps: seq<Step>, i: nat)
    requires Run(trace, steps) && i < |trace|
    ensures Inv(trace[i])
    ensures trace[i].answer.There? && trace[i].cached == NotFound ==> CreatorPending(trace[i])
  {
    if i > 0 {
      NegativesAreNotStale(trace, steps, i - 1);
      StepKeepsInv(trace[i - 1], steps[i - 1]);
    }
  }

  /** So once every creator has finished its invalidation, nothing stale remains. */
  lemma QuietMeansFresh(trace: seq<State>, steps: seq<Step>, i: nat)
    requires Run(trace, steps) && i < |trace| && trace[i].writers == map[]
    ensures trace[i].cached == NotFound ==> trace[i].answer.Gone?
  {
    NegativesAreNotStale(trace, steps, i);
  }

  // ---------------------------------------------------------------------------
  // Positive entries
  // ---------------------------------------------------------------------------

  /** Somebody who removed or replaced the name has not yet dropped the entry. */
  ghost predicate RemoverPending(s: State) {
    exists w | w in s.writers :: !s.writers[w].creator
  }

  /** A cached positive that is not the store's answer is about to be dropped. */
  ghost predicate Fresh(s: State) {
    s.cached.Present? && s.answer != There(s.cached.child) ==> RemoverPending(s)
  }

  /** An insert of a child that is no longer the store's answer, with nobody left to drop it:
      positive inserts have no guard. */
  ghost predicate TooLate(s: State, t: Step) {
    && t.PutFound? && t.r in s.readers && s.readers[t.r].SawPresent?
    && s.answer != There(s.readers[t.r].child) && !RemoverPending(s)
  }

  /** Only such an insert leaves a stale positive behind, and it always does. */
  lemma StepFreshIff(s: State, t: Step)
    requires Fresh(s) && Enabled(s, t)
    ensures Fresh(Next(s, t)) <==> !TooLate(s, t)
  {
    var s' := Next(s, t);
    if t.CommitRemove? || t.CommitReplace? {
      assert !s'.writers[t.w].creator;
    } else if (t.BumpGen? || t.CommitCreate?) && RemoverPending(s) {
      var v :| v in s.writers && !s.writers[v].creator;
      assert !s'.writers[v].creator;
    }
  }

  /** The look-up that a reader with a positive answer made. */
  lemma {:induction false} LookedUp(trace: seq<State>, steps: seq<Step>, b: nat, r: nat) returns (a: nat)
    requires Run(trace, steps) && b < |trace| && r in trace[b].readers && trace[b].readers[r].SawPresent?
    ensures a < b && steps[a] == Lookup(r) && trace[a].answer == There(trace[b].readers[r].child)
    ensures forall k | a < k < b :: steps[k] != Lookup(r)
  {
    if steps[b - 1] == Lookup(r) {
      a := b - 1;
    } else {
      a := LookedUp(trace, steps, b - 1, r);
    }
  }

  /** The name is removed, or given to another object. */
  predicate Removes(t: Step, w: nat) {
    (t.CommitRemove? || t.CommitReplace?) && t.w == w
  }

  /** An answer that has changed was removed or replaced in between. */
  lemma {:induction false} WasRemoved(trace: seq<State>, steps: seq<Step>, a: nat, b: nat) returns (c: nat, w: nat)
    requires Run(trace, steps) && a <= b < |trace| && trace[a].answer.There? && trace[b].answer != trace[a].answer
    ensures a <= c < b && Removes(steps[c], w)
    decreases b
  {
    if trace[b - 1].answer == trace[a].answer {
      c, w := b - 1, steps[b - 1].w;
    } else {
      c, w := WasRemoved(trace, steps, a, b - 1);
    }
  }

  /** A remover is pending until it drops the entry. */
  lemma {:induction false} PendingOrDropped(trace: seq<State>, steps: seq<Step>, c: nat, b: nat, w: nat)
    requires Run(trace, steps) && c < b < |trace| && Removes(steps[c], w)
    ensures (w in trace[b].writers && !trace[b].writers[w].creator) || exists d :: c < d < b && steps[d] == DropEntry(w)
    decreases b
  {
    if c + 1 < b {
      PendingOrDropped(trace, steps, c, b - 1, w);
    }
  }

  /** A whole removal, from commit to dropped entry, between two steps. */
  ghost predicate Overtaken(steps: seq<Step>, a: nat, b: nat) {
    exists w, c, d :: a < c < d < b <= |steps| && Removes(steps[c], w) && steps[d] == DropEntry(w)
  }

  /** An insert that comes too late was overtaken by a whole removal since its look-up. */
  lemma TooLateIsOvertaken(trace: seq<State>, steps: seq<Step>, b: nat) returns (a: nat)
    requires Run(trace, steps) && b < |steps| && TooLate(trace[b], steps[b])
    ensures a < b && steps[a] == Lookup(steps[b].r) && (forall k | a < k < b :: steps[k] != Lookup(steps[b].r))
    ensures Overtaken(steps, a, b)
  {
    a := LookedUp(trace, steps, b, steps[b].r);
    var c, w := WasRemoved(trace, steps, a, b);
    PendingOrDropped(trace, steps, c, b, w);
    var d :| c < d < b && steps[d] == DropEntry(w);
  }

  /** In every run positive entries are fresh up to the first insert that comes too late, and
      not right after it. */
  lemma {:induction false} PositivesFresh(trace: seq<State>, steps: seq<Step>, i: nat)
    requires Run(trace, steps) && i < |trace| && forall j | 0 <= j < i :: !TooLate(trace[j], steps[j])
    ensures Fresh(trace[i])
    ensures i < |steps| && TooLate(trace[i], steps[i]) ==> !Fresh(trace[i + 1])
  {
    if i > 0 {
      PositivesFresh(trace, steps, i - 1);
      StepFreshIff(trace[i - 1], steps[i - 1]);
    }
    if i < |steps| {
      StepFreshIff(trace[i], steps[i]);
    }
  }

  /** A reader's look-up and the insert that follows from it. */
  ghost predicate Inserts(steps: seq<Step>, a: nat, b: nat) {
    && a < b < |steps| && steps[b].PutFound? && steps[a] == Lookup(steps[b].r)
    && forall k | a < k < b :: steps[k] != Lookup(steps[b].r)
  }

  /** So no stale positive outlives its remover in a run in which no whole removal falls
      between a reader's look-up and its insert. */
  lemma PositivesFreshUnlessOvertaken(trace: seq<State>, steps: seq<Step>, i: nat)
    requires Run(trace, steps) && i < |trace|
    requires forall a: nat, b: nat | Inserts(steps, a, b) && b < i :: !Overtaken(steps, a, b)
    ensures Fresh(trace[i])
  {
    forall j | 0 <= j < i ensures !TooLate(trace[j], steps[j]) {
      if TooLate(trace[j], steps[j]) {
        var a := TooLateIsOvertaken(trace, steps, j);
        assert Inserts(steps, a, j);
      }
    }
    PositivesFresh(trace, steps, i);
  }

  /** It does happen: a reader that saw the name before it was removed inserts it after the
      remover's invalidation has come and gone. */
  lemma PositivesCanGoStale() returns (trace: seq<State>, steps: seq<Step>)
    ensures Run(trace, steps) && |steps| == 6
    ensures trace[6].cached == Present(5) && trace[6].answer == Gone && trace[6].writers == map[]
  {
    var s0 := State(There(5), Nothing, 0, map[], map[]);
    steps := [ReadGen(1), Lookup(1), CommitRemove(7), BumpGen(7), DropEntry(7), PutFound(1)];
    var s1 := Next(s0, ReadGen(1));
    var s2 := Next(s1, Lookup(1));
    var s3 := Next(s2, CommitRemove(7));
    var s4 := Next(s3, BumpGen(7));
    var s5 := Next(s4, DropEntry(7));
    var s6 := Next(s5, PutFound(1));
    trace := [s0, s1, s2, s3, s4, s5, s6];
  }
}
