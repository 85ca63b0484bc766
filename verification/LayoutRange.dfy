/** Layout byte ranges: the saturating union under which a layout stateid's row is renewed.
    A length of MAX means "to the end of the file"; a zero length is empty. */
module LayoutRange {

  const MAX: nat := 0xFFFF_FFFF_FFFF_FFFF

  datatype Range = Range(off: nat, len: nat)

  predicate Wf(r: Range) {
    r.off <= MAX && r.len <= MAX
  }

  /** The bytes a client may touch under the range. */
  predicate In(r: Range, b: nat) {
    r.len > 0 && r.off <= b <= MAX && (r.len == MAX || b < r.off + r.len)
  }

  /** End offset, saturating at MAX. */
  function End(r: Range): nat {
    if r.len == MAX || r.len + r.off > MAX then MAX else r.off + r.len
  }

  function Union(a: Range, b: Range): Range
    requires Wf(a) && Wf(b)
  {
    if a.len == 0 then b
    else if b.len == 0 then a
    else
      var off := if a.off < b.off then a.off else b.off;
      if a.len == MAX || b.len == MAX then Range(off, MAX)
      else
        var end := if End(a) > End(b) then End(a) else End(b);
        if end == MAX then Range(off, MAX) else Range(off, end - off)
  }

  /** Nothing granted is lost. */
  lemma UnionCovers(a: Range, b: Range, x: nat)
    requires Wf(a) && Wf(b) && (In(a, x) || In(b, x))
    ensures Wf(Union(a, b)) && In(Union(a, b), x)
  {
  }

  /** And nothing outside the convex hull is added, unless the end saturates to EOF. */
  lemma UnionIsHull(a: Range, b: Range, x: nat)
    requires Wf(a) && Wf(b) && a.len > 0 && b.len > 0 && x <= MAX
    ensures var lo := if a.off < b.off then a.off else b.off;
      var hi := if End(a) > End(b) then End(a) else End(b);
      In(Union(a, b), x) <==> lo <= x && (x < hi || hi == MAX)
  {
  }

  // ---------------------------------------------------------------------------
  // Any number of grants, in any order
  // ---------------------------------------------------------------------------

  ghost predicate AllWf(rs: seq<Range>) {
    forall r | r in rs :: Wf(r)
  }

  /** The row after the first grant and its renewals. */
  function Folded(rs: seq<Range>): (u: Range)
    requires AllWf(rs)
    ensures Wf(u)
  {
    if rs == [] then Range(0, 0) else Union(Folded(rs[..|rs| - 1]), rs[|rs| - 1])
  }

  lemma {:induction false} FoldedCovers(rs: seq<Range>, i: nat, x: nat)
    requires AllWf(rs) && i < |rs| && In(rs[i], x)
    ensures In(Folded(rs), x)
  {
    var front, last := rs[..|rs| - 1], rs[|rs| - 1];
    if i < |rs| - 1 {
      FoldedCovers(front, i, x);
    }
    UnionCovers(Folded(front), last, x);
  }

  /** A range with its saturated end written as the EOF length; empty ranges are one. */
  function Normal(r: Range): Range {
    if r.len == 0 then Range(0, 0) else if End(r) == MAX then Range(r.off, MAX) else r
  }

  /** `u` is the hull of the non-empty ranges: it starts where the first of them starts and
      ends where the last of them ends. */
  ghost predicate IsHull(rs: multiset<Range>, u: Range) {
    if forall r | r in rs :: r.len == 0 then u.len == 0
    else
      && u.len > 0
      && (forall r | r in rs && r.len > 0 :: u.off <= r.off && End(r) <= End(u))
      && (exists r | r in rs :: r.len > 0 && r.off == u.off)
      && (exists r | r in rs :: r.len > 0 && End(r) == End(u))
  }

  lemma UnionEnds(a: Range, b: Range)
    requires Wf(a) && Wf(b) && a.len > 0 && b.len > 0
    ensures var u := Union(a, b);
      && u.len > 0
      && u.off == (if a.off < b.off then a.off else b.off)
      && End(u) == (if End(a) > End(b) then End(a) else End(b))
  {
  }

  lemma {:induction false} FoldedIsHull(rs: seq<Range>)
    requires AllWf(rs)
    ensures IsHull(multiset(rs), Folded(rs))
  {
    if rs != [] {
      var front, last := rs[..|rs| - 1], rs[|rs| - 1];
      assert rs == front + [last];
      FoldedIsHull(front);
      HullStep(multiset(front), Folded(front), last);
    }
  }

  lemma HullStep(m: multiset<Range>, u: Range, r: Range)
    requires IsHull(m, u) && Wf(u) && Wf(r)
    ensures IsHull(m + multiset{r}, Union(u, r))
  {
    var m' := m + multiset{r};
    if r.len == 0 {
      if q :| q in m && q.len > 0 {
        assert q in m';
      }
    } else {
      assert r in m';
      if u.len > 0 {
        UnionEnds(u, r);
        var a :| a in m && a.len > 0 && a.off == u.off;
        var b :| b in m && b.len > 0 && End(b) == End(u);
        assert a in m' && b in m';
      }
    }
  }

  lemma HullUnique(m: multiset<Range>, u: Range, v: Range)
    requires IsHull(m, u) && IsHull(m, v) && Wf(u) && Wf(v)
    ensures Normal(u) == Normal(v)
  {
  }

  /** The order in which the grants of a stateid are renewed does not matter. */
  lemma OrderDoesNotMatter(rs: seq<Range>, qs: seq<Range>)
    requires AllWf(rs) && AllWf(qs) && multiset(rs) == multiset(qs)
    ensures Normal(Folded(rs)) == Normal(Folded(qs))
  {
    FoldedIsHull(rs);
    FoldedIsHull(qs);
    HullUnique(multiset(rs), Folded(rs), Folded(qs));
  }

  // ---------------------------------------------------------------------------
  // Intersection
  // ---------------------------------------------------------------------------

  datatype Option<T> = None | Some(value: T)

  function Intersect(a: Range, b: Range): Option<Range>
    requires Wf(a) && Wf(b)
  {
    var lo := if a.off > b.off then a.off else b.off;
    var hi := if End(a) < End(b) then End(a) else End(b);
    if lo >= hi then None else Some(Range(lo, if hi == MAX then MAX else hi - lo))
  }

  /** The intersection is found exactly when some byte below the very last is shared, and
      is then exactly the shared bytes. */
  lemma IntersectIsShared(a: Range, b: Range)
    requires Wf(a) && Wf(b)
    ensures Intersect(a, b).Some? <==> exists x: nat :: x < MAX && In(a, x) && In(b, x)
    ensures forall x: nat | Intersect(a, b).Some? && x < MAX :: In(Intersect(a, b).value, x) <==> In(a, x) && In(b, x)
  {
    if Intersect(a, b).Some? {
      var lo := if a.off > b.off then a.off else b.off;
      assert lo < MAX && In(a, lo) && In(b, lo);
    }
  }
}
