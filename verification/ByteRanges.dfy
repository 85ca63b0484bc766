/** The byte ranges one lock owner holds on a file: range lists with their split, trim and
    remove surgery, and the per-byte map they stand for.  Offsets and lengths are unsigned
    64-bit; the largest one doubles as "to the end of the file". */
module ByteRanges {

  const MAX: nat := 0xFFFF_FFFF_FFFF_FFFF

  datatype Mode = Read | Write
  datatype Held = Free | Locked(mode: Mode)
  datatype Range = Range(offset: nat, length: nat, mode: Mode)

  /** Exclusive end of a range, capped at MAX. */
  function End(offset: nat, length: nat): nat {
    if length == MAX || offset + length > MAX then MAX else offset + length
  }

  predicate Overlap(o1: nat, l1: nat, o2: nat, l2: nat) {
    o1 < End(o2, l2) && o2 < End(o1, l1)
  }

  predicate Covers(r: Range, b: nat) {
    r.offset <= b < End(r.offset, r.length)
  }

  predicate Wf(r: Range) {
    r.offset <= MAX && 1 <= r.length <= MAX
  }

  /** What the list says about one byte. */
  ghost function ModeAt(rs: seq<Range>, b: nat): Held {
    if rs == [] then Free
    else if Covers(rs[0], b) then Locked(rs[0].mode)
    else ModeAt(rs[1..], b)
  }

  /** No byte is in two ranges of one owner. */
  ghost predicate Disjoint(rs: seq<Range>) {
    rs == [] || (Disjoint(rs[1..]) && forall b | Covers(rs[0], b) :: ModeAt(rs[1..], b) == Free)
  }

  ghost predicate AllWf(rs: seq<Range>) {
    forall r | r in rs :: Wf(r)
  }

  // ---------------------------------------------------------------------------
  // Overlap, and the one byte the ranges cannot express
  // ---------------------------------------------------------------------------

  /** Overlap is exactly "some byte is in both". */
  lemma OverlapIsShared(r: Range, q: Range)
    requires Wf(r) && Wf(q)
    ensures Overlap(r.offset, r.length, q.offset, q.length) <==> exists b :: Covers(r, b) && Covers(q, b)
  {
    if Overlap(r.offset, r.length, q.offset, q.length) {
      var b := if r.offset < q.offset then q.offset else r.offset;
      assert Covers(r, b) && Covers(q, b);
    }
  }

  /** What a client means by a range: a to-EOF range has no last byte. */
  predicate Meant(offset: nat, length: nat, b: nat) {
    offset <= b <= MAX && (length == MAX || offset + length > MAX || b < offset + length)
  }

  /** Every byte but the very last is covered as meant; the last one never is. */
  lemma CoversAsMeantIff(r: Range, b: nat)
    requires Wf(r)
    ensures Covers(r, b) <==> Meant(r.offset, r.length, b) && b < MAX
  {
  }

  /** Two ranges that were meant to share a byte are seen to overlap exactly when neither
      starts at the last byte. */
  lemma OverlapAsMeantIff(r: Range, q: Range, b: nat)
    requires Wf(r) && Wf(q) && Meant(r.offset, r.length, b) && Meant(q.offset, q.length, b)
    ensures Overlap(r.offset, r.length, q.offset, q.length) <==> r.offset < MAX && q.offset < MAX
  {
  }

  // ---------------------------------------------------------------------------
  // Carving
  // ---------------------------------------------------------------------------

  /** What is left of one range when [lo, hi) is taken out. */
  function CarveOne(r: Range, lo: nat, hi: nat): seq<Range> {
    var end := End(r.offset, r.length);
    var head := if r.offset < lo then [r.(length := lo - r.offset)] else [];
    var tail := if end > hi then [Range(hi, if end == MAX then MAX else end - hi, r.mode)] else [];
    if end <= lo || r.offset >= hi then [r] else head + tail
  }

  function CarveAll(rs: seq<Range>, lo: nat, hi: nat): seq<Range> {
    if rs == [] then [] else CarveOne(rs[0], lo, hi) + CarveAll(rs[1..], lo, hi)
  }

  lemma {:induction false} ModeAtConcat(a: seq<Range>, c: seq<Range>, b: nat)
    ensures ModeAt(a + c, b) == if ModeAt(a, b) == Free then ModeAt(c, b) else ModeAt(a, b)
  {
    if a == [] {
      assert a + c == c;
    } else {
      assert (a + c)[1..] == a[1..] + c;
      ModeAtConcat(a[1..], c, b);
    }
  }

  lemma {:induction false} DisjointConcat(a: seq<Range>, c: seq<Range>)
    requires Disjoint(a) && Disjoint(c)
    requires forall b :: ModeAt(a, b) == Free || ModeAt(c, b) == Free
    ensures Disjoint(a + c)
  {
    if a == [] {
      assert a + c == c;
    } else {
      assert (a + c)[1..] == a[1..] + c;
      forall b | Covers(a[0], b) ensures ModeAt(a[1..] + c, b) == Free {
        assert ModeAt(a, b) != Free;
        ModeAtConcat(a[1..], c, b);
      }
      forall b ensures ModeAt(a[1..], b) == Free || ModeAt(c, b) == Free {
        assert ModeAt(a, b) == Free || ModeAt(c, b) == Free;
        assert ModeAt(a[1..], b) != Free ==> ModeAt(a, b) != Free;
      }
      DisjointConcat(a[1..], c);
    }
  }

  lemma SmallLists(r: Range, q: Range, b: nat)
    ensures ModeAt([r], b) == (if Covers(r, b) then Locked(r.mode) else Free)
    ensures ModeAt([r, q], b) == (if Covers(r, b) then Locked(r.mode) else ModeAt([q], b))
    ensures Disjoint([r])
    ensures (forall c :: !(Covers(r, c) && Covers(q, c))) ==> Disjoint([r, q])
  {
    assert [r][1..] == [] && [q][1..] == [] && [r, q][1..] == [q];
    assert Disjoint([]) && Disjoint([q]);
    assert forall c :: ModeAt([q], c) == (if Covers(q, c) then Locked(q.mode) else Free);
  }

  lemma CarveOneBytes(r: Range, lo: nat, hi: nat, b: nat)
    requires Wf(r) && lo <= hi <= MAX
    ensures ModeAt(CarveOne(r, lo, hi), b) == if lo <= b < hi then Free else ModeAt([r], b)
  {
    var c := CarveOne(r, lo, hi);
    SmallLists(r, r, b);
    if |c| == 2 {
      SmallLists(c[0], c[1], b);
      SmallLists(c[1], c[1], b);
      assert c == [c[0], c[1]];
    } else if |c| == 1 {
      SmallLists(c[0], c[0], b);
      assert c == [c[0]];
    }
  }

  lemma CarveOneShape(r: Range, lo: nat, hi: nat)
    requires Wf(r) && lo <= hi <= MAX
    ensures Disjoint(CarveOne(r, lo, hi)) && AllWf(CarveOne(r, lo, hi))
  {
    var c := CarveOne(r, lo, hi);
    if |c| == 2 {
      SmallLists(c[0], c[1], 0);
      assert c == [c[0], c[1]];
    } else if |c| == 1 {
      SmallLists(c[0], c[0], 0);
      assert c == [c[0]];
    }
  }

  /** Carving frees exactly the bytes carved out. */
  lemma {:induction false} CarvedBytes(rs: seq<Range>, lo: nat, hi: nat, b: nat)
    requires AllWf(rs) && lo <= hi <= MAX
    ensures ModeAt(CarveAll(rs, lo, hi), b) == if lo <= b < hi then Free else ModeAt(rs, b)
  {
    if rs != [] {
      CarvedBytes(rs[1..], lo, hi, b);
      CarveOneBytes(rs[0], lo, hi, b);
      ModeAtConcat(CarveOne(rs[0], lo, hi), CarveAll(rs[1..], lo, hi), b);
    }
  }

  lemma {:induction false} CarvedShape(rs: seq<Range>, lo: nat, hi: nat)
    requires AllWf(rs) && Disjoint(rs) && lo <= hi <= MAX
    ensures AllWf(CarveAll(rs, lo, hi)) && Disjoint(CarveAll(rs, lo, hi))
  {
    if rs != [] {
      CarvedShape(rs[1..], lo, hi);
      CarveOneShape(rs[0], lo, hi);
      forall b ensures ModeAt(CarveOne(rs[0], lo, hi), b) == Free || ModeAt(CarveAll(rs[1..], lo, hi), b) == Free {
        CarveOneBytes(rs[0], lo, hi, b);
        CarvedBytes(rs[1..], lo, hi, b);
      }
      DisjointConcat(CarveOne(rs[0], lo, hi), CarveAll(rs[1..], lo, hi));
    }
  }

  /** Once some range covers all of [lo, hi), carving leaves the ranges after it alone. */
  lemma {:induction false} NothingLeft(r: Range, rs: seq<Range>, lo: nat, hi: nat)
    requires Wf(r) && AllWf(rs) && lo <= hi <= MAX && r.offset < lo && End(r.offset, r.length) > hi
    requires forall b | Covers(r, b) :: ModeAt(rs, b) == Free
    ensures CarveAll(rs, lo, hi) == rs
    decreases |rs|
  {
    if rs != [] {
      forall b | Covers(r, b) ensures ModeAt(rs[1..], b) == Free {
        assert ModeAt(rs, b) == Free;
      }
      NothingLeft(r, rs[1..], lo, hi);
      var q := rs[0];
      assert Wf(q);
      if !(End(q.offset, q.length) <= lo || q.offset >= hi) {
        var b := if q.offset < lo then lo else q.offset;
        assert Covers(r, b);
        assert false;
      }
    }
  }

  lemma Assoc(a: seq<Range>, c: seq<Range>, d: seq<Range>)
    ensures a + (c + d) == (a + c) + d
  {
  }

  /** One node of the walk: skipped, split (then the walk stops), removed or trimmed. */
  method CarveNode(r: Range, lo: nat, hi: nat) returns (left: seq<Range>, split: bool)
    requires lo <= hi <= MAX
    ensures left == CarveOne(r, lo, hi)
    ensures split <==> r.offset < lo && End(r.offset, r.length) > hi
  {
    var end := End(r.offset, r.length);
    split := false;
    if end <= lo || r.offset >= hi {
      left := [r];
    } else if r.offset < lo && end > hi {
      left := [r.(length := lo - r.offset), Range(hi, if end == MAX then MAX else end - hi, r.mode)];
      split := true;
    } else if r.offset >= lo && end <= hi {
      left := [];
    } else if r.offset < lo {
      left := [r.(length := lo - r.offset)];
    } else {
      left := [Range(hi, if end == MAX then MAX else end - hi, r.mode)];
    }
  }

  /** The walk over the list: `done` is what the cursor has passed, `rest` what it has yet
      to visit. */
  method Carve(ranges: seq<Range>, lo: nat, hi: nat) returns (out: seq<Range>)
    requires AllWf(ranges) && Disjoint(ranges) && lo <= hi <= MAX
    ensures out == CarveAll(ranges, lo, hi)
  {
    var done: seq<Range>, rest := [], ranges;
    while rest != []
      invariant AllWf(rest) && Disjoint(rest)
      invariant CarveAll(ranges, lo, hi) == done + CarveAll(rest, lo, hi)
      decreases |rest|
    {
      var left, split := CarveNode(rest[0], lo, hi);
      Assoc(done, left, CarveAll(rest[1..], lo, hi));
      done := done + left;
      if split {
        NothingLeft(rest[0], rest[1..], lo, hi);
        return done + rest[1..];
      }
      rest := rest[1..];
    }
    return done;
  }
}
