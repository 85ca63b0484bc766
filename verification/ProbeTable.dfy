/** The open-addressing hash table of the in-memory catalogue image: linear probing, growth
    at three quarters load, and deletion that re-inserts the run of slots behind the hole.
    Proved to behave as a finite map for every hash function. */
module ProbeTable {

  datatype Slot<K, V> = Empty | Full(key: K, value: V)

  type Slots<K, V> = seq<Slot<K, V>>

  function Home<K>(hash: K -> nat, n: nat, k: K): nat
    requires n > 0
    ensures Home(hash, n, k) < n
  {
    hash(k) % n
  }

  /** The i-th slot of a probe sequence that starts at `h`. */
  function At(h: nat, i: nat, n: nat): nat
    requires h < n && i < n
    ensures At(h, i, n) < n
  {
    if h + i < n then h + i else h + i - n
  }

  /** Once around is the remainder. */
  lemma AtIsRemainder(h: nat, i: nat, n: nat)
    requires h < n && i < n
    ensures At(h, i, n) == (h + i) % n
  {
    Quotient(h + i, n);
  }

  lemma Quotient(x: nat, n: nat)
    requires x < 2 * n
    ensures x % n == if x < n then x else x - n
  {
    var q := x / n;
    assert x == q * n + x % n;
    AtMostTwice(q, n);
  }

  lemma AtMostTwice(q: nat, n: nat)
    requires q * n < 2 * n
    ensures q == 0 || q == 1
  {
    assert q >= 2 ==> (q - 2) * n >= 0;
  }

  /** How many probes from `h` to `p`. */
  function Off(h: nat, p: nat, n: nat): nat
    requires h < n && p < n
    ensures Off(h, p, n) < n && At(h, Off(h, p, n), n) == p
  {
    if p >= h then p - h else p - h + n
  }

  /** `i` comes strictly before `p` on the way from `h`, around the end if need be. */
  predicate Before(h: nat, p: nat, i: nat) {
    if h <= p then h <= i < p else i >= h || i < p
  }

  // ---------------------------------------------------------------------------
  // What a table stands for
  // ---------------------------------------------------------------------------

  ghost predicate Distinct<K, V>(t: Slots<K, V>) {
    forall p, q | 0 <= p < q < |t| && t[p].Full? && t[q].Full? :: t[p].key != t[q].key
  }

  /** No empty slot between an entry's home and the entry. */
  ghost predicate Reached<K, V>(hash: K -> nat, t: Slots<K, V>, p: nat)
    requires p < |t| && t[p].Full?
  {
    forall i: nat | i < |t| && Before(Home(hash, |t|, t[p].key), p, i) :: t[i].Full?
  }

  ghost predicate Chained<K, V>(hash: K -> nat, t: Slots<K, V>) {
    && |t| > 0 && Distinct(t)
    && forall p: nat | p < |t| && t[p].Full? :: Reached(hash, t, p)
  }

  ghost function Model<K, V>(t: Slots<K, V>): map<K, V>
    requires Distinct(t)
  {
    map p | 0 <= p < |t| && t[p].Full? :: t[p].key := t[p].value
  }

  ghost predicate Holds<K, V>(t: Slots<K, V>, k: K) {
    exists p :: 0 <= p < |t| && t[p].Full? && t[p].key == k
  }

  /** Where a probe for `k` ends: everything before is full of other keys, and here is the
      key or nothing. */
  ghost predicate Probed<K, V>(hash: K -> nat, t: Slots<K, V>, k: K, p: nat) {
    && |t| > 0 && p < |t|
    && (forall i: nat | i < |t| && Before(Home(hash, |t|, k), p, i) :: t[i].Full? && t[i].key != k)
    && (t[p].Full? ==> t[p].key == k)
  }

  /** In a chained table a probe that ends on an empty slot means the key is absent. */
  lemma ProbeDecides<K, V>(hash: K -> nat, t: Slots<K, V>, k: K, p: nat)
    requires Chained(hash, t) && Probed(hash, t, k, p)
    ensures Holds(t, k) <==> t[p].Full?
  {
    if Holds(t, k) {
      var q: nat :| q < |t| && t[q].Full? && t[q].key == k;
      assert Reached(hash, t, q);
    }
  }

  lemma StoreKeepsChained<K, V>(hash: K -> nat, t: Slots<K, V>, k: K, v: V, p: nat)
    requires Chained(hash, t) && Probed(hash, t, k, p)
    ensures Chained(hash, t[p := Full(k, v)])
    ensures Model(t[p := Full(k, v)]) == Model(t)[k := v]
  {
    var t' := t[p := Full(k, v)];
    ProbeDecides(hash, t, k, p);
    assert Distinct(t');
    forall q: nat | q < |t'| && t'[q].Full? ensures Reached(hash, t', q) {
      if q != p {
        assert Reached(hash, t, q);
      }
    }
    StoreModel(t, k, v, p);
  }

  lemma StoreModel<K, V>(t: Slots<K, V>, k: K, v: V, p: nat)
    requires Distinct(t) && p < |t| && Distinct(t[p := Full(k, v)])
    requires t[p].Full? ==> t[p].key == k
    ensures Model(t[p := Full(k, v)]) == Model(t)[k := v]
  {
    var t' := t[p := Full(k, v)];
    assert t'[p].Full? && t'[p].key == k;
    forall q | 0 <= q < |t| && q != p ensures t'[q] == t[q] {
    }
  }

  // ---------------------------------------------------------------------------
  // Deletion: closing the hole
  // ---------------------------------------------------------------------------

  /** Slots [j, e) behind the hole are yet to be re-inserted and slot e is empty.  Every
      other entry is reached; an entry yet to be re-inserted has its home inside the run,
      or so far on that the way there passes the end of the table and the hole. */
  ghost predicate Healing<K, V>(hash: K -> nat, t: Slots<K, V>, pos: nat, j: nat, e: nat) {
    && pos < |t| && 1 <= j <= e < |t| && Distinct(t)
    && t[At(pos, e, |t|)].Empty?
    && RunAwaits(hash, t, pos, j, e) && RestReached(hash, t, pos, j, e)
  }

  ghost predicate RunAwaits<K, V>(hash: K -> nat, t: Slots<K, V>, pos: nat, j: nat, e: nat)
    requires pos < |t|
  {
    forall p: nat | p < |t| && j <= Off(pos, p, |t|) < e :: t[p].Full? && Awaits(hash, t, pos, e, p)
  }

  ghost predicate RestReached<K, V>(hash: K -> nat, t: Slots<K, V>, pos: nat, j: nat, e: nat)
    requires pos < |t|
  {
    forall p: nat | p < |t| && t[p].Full? && !(j <= Off(pos, p, |t|) < e) :: Reached(hash, t, p)
  }

  ghost predicate Awaits<K, V>(hash: K -> nat, t: Slots<K, V>, pos: nat, e: nat, p: nat)
    requires pos < |t| && p < |t| && t[p].Full?
  {
    var h := Off(pos, Home(hash, |t|, t[p].key), |t|);
    && (h <= Off(pos, p, |t|) || h > e)
    && (h > e ==> forall i: nat | i < |t| && Off(pos, i, |t|) >= h :: t[i].Full?)
  }

  lemma HoleOpens<K, V>(hash: K -> nat, t: Slots<K, V>, pos: nat, e: nat)
    requires Chained(hash, t) && pos < |t| && t[pos].Full? && 1 <= e < |t| && t[At(pos, e, |t|)].Empty?
    requires forall p: nat | p < |t| && 1 <= Off(pos, p, |t|) < e :: t[p].Full?
    ensures Healing(hash, t[pos := Empty], pos, 1, e)
  {
    var t', hole := t[pos := Empty], At(pos, e, |t|);
    forall p: nat | p < |t| && t'[p].Full?
      ensures 1 <= Off(pos, p, |t|) < e ==> Awaits(hash, t', pos, e, p)
      ensures !(1 <= Off(pos, p, |t|) < e) ==> Reached(hash, t', p)
    {
      assert Reached(hash, t, p);
      assert !Before(Home(hash, |t|, t[p].key), p, hole);
    }
  }

  /** Re-inserting one entry lands no further back than where it was, so the rest of the
      run and the empty slot behind it stay as they are. */
  lemma LandsInside<K, V>(hash: K -> nat, t: Slots<K, V>, pos: nat, j: nat, e: nat, r: nat)
    requires Healing(hash, t, pos, j, e) && j < e
    requires var q := At(pos, j, |t|); Probed(hash, t[q := Empty], t[q].key, r)
    ensures Off(pos, r, |t|) <= j && t[At(pos, j, |t|) := Empty][r].Empty?
  {
    var q := At(pos, j, |t|);
    assert Off(pos, q, |t|) == j;
    assert Awaits(hash, t, pos, e, q);
    assert !Before(Home(hash, |t|, t[q].key), r, q);
  }

  /** An entry behind the one being moved keeps waiting. */
  lemma StillAwaits<K, V>(hash: K -> nat, t: Slots<K, V>, pos: nat, j: nat, e: nat, r: nat, p: nat)
    requires Healing(hash, t, pos, j, e) && j < e && p < |t| && j < Off(pos, p, |t|) < e
    requires r < |t| && Off(pos, r, |t|) <= j
    ensures var q := At(pos, j, |t|); var t' := t[q := Empty][r := t[q]];
      t'[p] == t[p] && t'[p].Full? && Awaits(hash, t', pos, e, p)
  {
    assert Awaits(hash, t, pos, e, p);
  }

  /** An entry elsewhere is still reached: its way cannot pass both the moved slot and the
      empty one. */
  lemma StillReached<K, V>(hash: K -> nat, t: Slots<K, V>, pos: nat, j: nat, e: nat, r: nat, p: nat)
    requires Healing(hash, t, pos, j, e) && j < e && p < |t| && t[p].Full? && !(j <= Off(pos, p, |t|) < e)
    requires r < |t| && p != r && t[At(pos, j, |t|)].Full?
    ensures var q := At(pos, j, |t|); var t' := t[q := Empty][r := t[q]];
      t'[p] == t[p] && Reached(hash, t', p)
  {
    var h := Home(hash, |t|, t[p].key);
    assert Reached(hash, t, p);
    assert !Before(h, p, At(pos, e, |t|));
    assert !Before(h, p, At(pos, j, |t|));
  }

  lemma LandedReached<K, V>(hash: K -> nat, t: Slots<K, V>, q: nat, r: nat)
    requires q < |t| && t[q].Full? && Probed(hash, t[q := Empty], t[q].key, r)
    ensures Reached(hash, t[q := Empty][r := t[q]], r)
  {
  }

  lemma RunStillAwaits<K, V>(hash: K -> nat, t: Slots<K, V>, pos: nat, j: nat, e: nat, r: nat)
    requires Healing(hash, t, pos, j, e) && j < e && r < |t| && Off(pos, r, |t|) <= j
    ensures var q := At(pos, j, |t|); RunAwaits(hash, t[q := Empty][r := t[q]], pos, j + 1, e)
  {
    var t' := t[At(pos, j, |t|) := Empty][r := t[At(pos, j, |t|)]];
    forall p: nat | p < |t| && j < Off(pos, p, |t|) < e ensures t'[p].Full? && Awaits(hash, t', pos, e, p) {
      StillAwaits(hash, t, pos, j, e, r, p);
    }
  }

  lemma RestStillReached<K, V>(hash: K -> nat, t: Slots<K, V>, pos: nat, j: nat, e: nat, r: nat)
    requires Healing(hash, t, pos, j, e) && j < e
    requires var q := At(pos, j, |t|); t[q].Full? && Probed(hash, t[q := Empty], t[q].key, r)
    ensures var q := At(pos, j, |t|); RestReached(hash, t[q := Empty][r := t[q]], pos, j + 1, e)
  {
    var q := At(pos, j, |t|);
    var t' := t[q := Empty][r := t[q]];
    LandedReached(hash, t, q, r);
    forall p: nat | p < |t| && t'[p].Full? && !(j < Off(pos, p, |t|) < e) ensures Reached(hash, t', p) {
      if p != r {
        StillReached(hash, t, pos, j, e, r, p);
      }
    }
  }

  lemma HealStep<K, V>(hash: K -> nat, t: Slots<K, V>, pos: nat, j: nat, e: nat, r: nat)
    requires Healing(hash, t, pos, j, e) && j < e
    requires var q := At(pos, j, |t|); t[q].Full? && Probed(hash, t[q := Empty], t[q].key, r)
    ensures var q := At(pos, j, |t|);
      && Healing(hash, t[q := Empty][r := t[q]], pos, j + 1, e)
      && Model(t[q := Empty][r := t[q]]) == Model(t)
  {
    LandsInside(hash, t, pos, j, e, r);
    var q := At(pos, j, |t|);
    MovedDistinct(t, q, r);
    RunStillAwaits(hash, t, pos, j, e, r);
    RestStillReached(hash, t, pos, j, e, r);
    MovedModel(t, q, r);
  }

  lemma MovedDistinct<K, V>(t: Slots<K, V>, q: nat, r: nat)
    requires Distinct(t) && q < |t| && r < |t| && t[q].Full? && (r == q || t[r].Empty?)
    ensures Distinct(t[q := Empty][r := t[q]])
  {
  }

  lemma MovedModel<K, V>(t: Slots<K, V>, q: nat, r: nat)
    requires Distinct(t) && q < |t| && r < |t| && t[q].Full? && (r == q || t[r].Empty?)
    requires Distinct(t[q := Empty][r := t[q]])
    ensures Model(t[q := Empty][r := t[q]]) == Model(t)
  {
    var t' := t[q := Empty][r := t[q]];
    assert t'[r] == t[q];
    assert forall p | 0 <= p < |t| && p != q && p != r :: t'[p] == t[p];
  }

  lemma HoleModel<K, V>(t: Slots<K, V>, p: nat)
    requires Distinct(t) && p < |t| && t[p].Full?
    ensures Distinct(t[p := Empty]) && Model(t[p := Empty]) == Model(t) - {t[p].key}
  {
    var t' := t[p := Empty];
    assert forall q | 0 <= q < |t| && q != p :: t'[q] == t[q];
  }

  lemma Healed<K, V>(hash: K -> nat, t: Slots<K, V>, pos: nat, e: nat)
    requires Healing(hash, t, pos, e, e)
    ensures Chained(hash, t)
  {
  }

  // ---------------------------------------------------------------------------
  // Counting
  // ---------------------------------------------------------------------------

  ghost function FullCount<K, V>(t: Slots<K, V>): nat {
    if t == [] then 0 else (if t[0].Full? then 1 else 0) + FullCount(t[1..])
  }

  ghost predicate HasEmpty<K, V>(t: Slots<K, V>) {
    exists p :: 0 <= p < |t| && t[p].Empty?
  }

  lemma {:induction false} RoomLeft<K, V>(t: Slots<K, V>)
    ensures FullCount(t) <= |t|
    ensures FullCount(t) < |t| ==> HasEmpty(t)
  {
    if t != [] {
      RoomLeft(t[1..]);
      if t[0].Full? && FullCount(t) < |t| {
        var p :| 0 <= p < |t[1..]| && t[1..][p].Empty?;
        assert t[p + 1].Empty?;
      }
    }
  }

  lemma {:induction false} CountStore<K, V>(t: Slots<K, V>, p: nat, s: Slot<K, V>)
    requires p < |t|
    ensures FullCount(t[p := s]) + (if t[p].Full? then 1 else 0) == FullCount(t) + (if s.Full? then 1 else 0)
  {
    var t' := t[p := s];
    if p == 0 {
      assert t'[1..] == t[1..];
    } else {
      assert t'[1..] == t[1..][p - 1 := s];
      CountStore(t[1..], p - 1, s);
    }
  }

  lemma {:induction false} CountEmpty<K, V>(t: Slots<K, V>)
    requires forall p | 0 <= p < |t| :: t[p].Empty?
    ensures FullCount(t) == 0
  {
    if t != [] {
      CountEmpty(t[1..]);
    }
  }

  /** The first empty slot behind a full one. */
  lemma FirstHole<K, V>(t: Slots<K, V>, pos: nat) returns (e: nat)
    requires pos < |t| && t[pos].Full? && FullCount(t) < |t|
    ensures 1 <= e < |t| && t[At(pos, e, |t|)].Empty?
    ensures forall p: nat | p < |t| && 1 <= Off(pos, p, |t|) < e :: t[p].Full?
  {
    RoomLeft(t);
    var x: nat :| x < |t| && t[x].Empty?;
    e := 1;
    while t[At(pos, e, |t|)].Full?
      invariant 1 <= e <= Off(pos, x, |t|)
      invariant forall p: nat | p < |t| && 1 <= Off(pos, p, |t|) < e :: t[p].Full?
      decreases |t| - e
    {
      e := e + 1;
    }
  }

  lemma SnocModel<K, V>(t: Slots<K, V>, i: nat)
    requires Distinct(t) && i < |t|
    ensures Distinct(t[..i]) && Distinct(t[..i + 1])
    ensures Model(t[..i + 1]) == if t[i].Full? then Model(t[..i])[t[i].key := t[i].value] else Model(t[..i])
    ensures t[i].Full? ==> t[i].key !in Model(t[..i])
  {
    var a, c := t[..i], t[..i + 1];
    assert c[i] == t[i];
    assert forall p | 0 <= p < i :: a[p] == c[p];
  }

  lemma HoldsModel<K, V>(t: Slots<K, V>, k: K)
    requires Distinct(t)
    ensures Holds(t, k) <==> k in Model(t)
  {
  }

  // ---------------------------------------------------------------------------
  // The table
  // ---------------------------------------------------------------------------

  datatype Option<T> = None | Some(value: T)

  /** Walk the probe sequence to the key or to the first empty slot. */
  method Probe<K(==), V>(hash: K -> nat, slots: array<Slot<K, V>>, k: K) returns (p: nat)
    requires HasEmpty(slots[..])
    ensures Probed(hash, slots[..], k, p)
  {
    ghost var x: nat :| x < slots.Length && slots[x].Empty?;
    var n := slots.Length;
    var h := Home(hash, n, k);
    var i := 0;
    while i < n
      invariant i <= Off(h, x, n)
      invariant forall i' | 0 <= i' < i :: slots[At(h, i', n)].Full? && slots[At(h, i', n)].key != k
    {
      p := At(h, i, n);
      if slots[p].Empty? || slots[p].key == k {
        forall q: nat | q < n && Before(h, p, q) ensures slots[q].Full? && slots[q].key != k {
          assert q == At(h, Off(h, q, n), n);
        }
        return;
      }
      i := i + 1;
    }
    assert false;
  }

  /** Put without the load check, into whichever array is being filled. */
  method Store<K(==), V>(hash: K -> nat, slots: array<Slot<K, V>>, k: K, v: V) returns (p: nat, added: bool)
    requires HasEmpty(slots[..])
    modifies slots
    ensures Probed(hash, old(slots[..]), k, p) && slots[..] == old(slots[..])[p := Full(k, v)]
    ensures added <==> old(slots[..])[p].Empty?
  {
    p := Probe(hash, slots, k);
    added := slots[p].Empty?;
    slots[p] := Full(k, v);
  }

  /** Take the j-th entry behind the hole out and put it again.  The count goes down and up
      by one, which is why the load check of that put never fires. */
  method Reput<K(==), V>(hash: K -> nat, slots: array<Slot<K, V>>, pos: nat, j: nat, ghost e: nat)
    requires Healing(hash, slots[..], pos, j, e) && j < e
    modifies slots
    ensures Healing(hash, slots[..], pos, j + 1, e)
    ensures Model(slots[..]) == old(Model(slots[..]))
    ensures FullCount(slots[..]) == old(FullCount(slots[..]))
  {
    var q := At(pos, j, slots.Length);
    ghost var t := slots[..];
    assert Off(pos, q, |t|) == j;
    var moved := slots[q];
    slots[q] := Empty;
    ghost var t1 := slots[..];
    assert t1 == t[q := Empty] && t1[q].Empty?;
    var r, _ := Store(hash, slots, moved.key, moved.value);
    HealStep(hash, t, pos, j, e, r);
    LandsInside(hash, t, pos, j, e, r);
    CountStore(t, q, Empty);
    CountStore(t1, r, moved);
  }

  /** The run behind the hole, up to the first empty slot. */
  method CloseHole<K(==), V>(hash: K -> nat, slots: array<Slot<K, V>>, pos: nat, ghost e: nat)
    requires Healing(hash, slots[..], pos, 1, e)
    modifies slots
    ensures Chained(hash, slots[..])
    ensures Model(slots[..]) == old(Model(slots[..])) && FullCount(slots[..]) == old(FullCount(slots[..]))
  {
    var j := 1;
    while j < slots.Length && slots[At(pos, j, slots.Length)].Full?
      invariant j <= e && Healing(hash, slots[..], pos, j, e)
      invariant Model(slots[..]) == old(Model(slots[..])) && FullCount(slots[..]) == old(FullCount(slots[..]))
    {
      Reput(hash, slots, pos, j, e);
      j := j + 1;
    }
    StopsAtHole(hash, slots[..], pos, j, e);
    Healed(hash, slots[..], pos, e);
  }

  lemma StopsAtHole<K, V>(hash: K -> nat, t: Slots<K, V>, pos: nat, j: nat, e: nat)
    requires Healing(hash, t, pos, j, e) && t[At(pos, j, |t|)].Empty?
    ensures j == e
  {
    assert Off(pos, At(pos, j, |t|), |t|) == j;
  }

  method RemoveAt<K(==), V>(hash: K -> nat, slots: array<Slot<K, V>>, pos: nat)
    requires Chained(hash, slots[..]) && FullCount(slots[..]) < slots.Length && pos < slots.Length && slots[pos].Full?
    modifies slots
    ensures Chained(hash, slots[..])
    ensures Model(slots[..]) == old(Model(slots[..])) - {old(slots[pos].key)}
    ensures FullCount(slots[..]) + 1 == old(FullCount(slots[..]))
  {
    ghost var t := slots[..];
    ghost var e := FirstHole(t, pos);
    HoleOpens(hash, t, pos, e);
    HoleModel(t, pos);
    CountStore(t, pos, Empty);
    slots[pos] := Empty;
    assert slots[..] == t[pos := Empty];
    CloseHole(hash, slots, pos, e);
  }

  /** Put an entry of the old slots into the new ones. */
  method PutAgain<K(==), V>(hash: K -> nat, b: array<Slot<K, V>>, x: Slot<K, V>, c: nat) returns (c': nat)
    requires x.Full? && Chained(hash, b[..]) && c == FullCount(b[..]) && c < b.Length
    modifies b
    ensures Chained(hash, b[..]) && c' == FullCount(b[..]) && c' <= c + 1
    ensures Model(b[..]) == old(Model(b[..]))[x.key := x.value]
  {
    ghost var u := b[..];
    RoomLeft(u);
    var p, added := Store(hash, b, x.key, x.value);
    StoreKeepsChained(hash, u, x.key, x.value, p);
    CountStore(u, p, b[p]);
    c' := if added then c + 1 else c;
  }

  /** Twice the slots, and every entry in them again. */
  method Rehash<K(==), V>(hash: K -> nat, a: array<Slot<K, V>>) returns (b: array<Slot<K, V>>, c: nat)
    requires Chained(hash, a[..])
    ensures fresh(b) && b.Length == 2 * a.Length && Chained(hash, b[..]) && Model(b[..]) == Model(a[..])
    ensures c == FullCount(b[..]) && c <= a.Length
  {
    ghost var t := a[..];
    b := new Slot<K, V>[2 * a.Length](_ => Empty);
    CountEmpty(b[..]);
    c := 0;
    var i := 0;
    while i < a.Length
      invariant i <= a.Length && c <= i && c == FullCount(b[..]) && a[..] == t
      invariant Chained(hash, b[..]) && Distinct(t[..i])
      invariant Model(b[..]) == Model(t[..i])
    {
      SnocModel(t, i);
      if a[i].Full? {
        c := PutAgain(hash, b, a[i], c);
      }
      i := i + 1;
    }
    assert t[..i] == t;
  }

  class ProbeTable<K(==), V> {
    const hash: K -> nat
    var slots: array<Slot<K, V>>
    var count: nat

    ghost predicate Valid()
      reads this, slots
    {
      && slots.Length >= 4
      && Chained(hash, slots[..])
      && count == FullCount(slots[..])
      && 4 * count < 3 * slots.Length + 4
    }

    ghost function Contents(): map<K, V>
      requires Valid()
      reads this, slots
    {
      Model(slots[..])
    }

    constructor (hash: K -> nat, cap: nat)
      requires cap >= 4
      ensures Valid() && Contents() == map[] && fresh(slots) && this.hash == hash
    {
      this.hash := hash;
      slots := new Slot<K, V>[cap](_ => Empty);
      count := 0;
      new;
      CountEmpty(slots[..]);
    }

    method Find(k: K) returns (r: Option<V>)
      requires Valid()
      ensures r == if k in Contents() then Some(Contents()[k]) else None
    {
      RoomLeft(slots[..]);
      var p := Probe(hash, slots, k);
      ProbeDecides(hash, slots[..], k, p);
      HoldsModel(slots[..], k);
      r := if slots[p].Full? then Some(slots[p].value) else None;
    }

    method Put(k: K, v: V)
      requires Valid()
      modifies this, slots
      ensures Valid() && Contents() == old(Contents())[k := v]
      ensures slots == old(slots) || fresh(slots)
      // Growth to twice the slots, exactly at three quarters load.
      ensures 4 * old(count) < 3 * old(slots.Length) ==> slots == old(slots)
      ensures 4 * old(count) >= 3 * old(slots.Length) ==> slots.Length == 2 * old(slots.Length)
    {
      if 4 * count >= 3 * slots.Length {
        Grow();
      }
      ghost var t := slots[..];
      RoomLeft(t);
      var p, added := Store(hash, slots, k, v);
      StoreKeepsChained(hash, t, k, v, p);
      CountStore(t, p, Full(k, v));
      if added {
        count := count + 1;
      }
    }

    /** Twice the slots, every entry put again. */
    method Grow()
      requires Valid()
      modifies this
      ensures Valid() && Contents() == old(Contents()) && fresh(slots)
      ensures 4 * count < 3 * slots.Length && slots.Length == 2 * old(slots.Length)
    {
      var bigger, c := Rehash(hash, slots);
      slots, count := bigger, c;
    }

    /** Empty the slot, then put the entries of the run behind it again one by one. */
    method Delete(k: K)
      requires Valid()
      modifies this`count, slots
      ensures Valid() && Contents() == old(Contents()) - {k}
    {
      ghost var t := slots[..];
      RoomLeft(t);
      var pos := Probe(hash, slots, k);
      ProbeDecides(hash, t, k, pos);
      HoldsModel(t, k);
      if slots[pos].Empty? {
        return;
      }
      RemoveAt(hash, slots, pos);
      count := count - 1;
    }
  }
}
