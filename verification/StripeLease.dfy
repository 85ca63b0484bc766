/** Byte-range leases per stripe: cutting a logical range into stripe slices, the lease
    table with its lazy expiry, and the conflict-free prefix of a range. */
module StripeLease {

  const U32_MAX: nat := 0xFFFF_FFFF
  const U64_MAX: nat := 0xFFFF_FFFF_FFFF_FFFF

  datatype Slice = Slice(index: nat, off: nat, len: nat)

  // ---------------------------------------------------------------------------
  // Slices of a range, without any bound
  // ---------------------------------------------------------------------------

  /** The slices of `len` bytes that start at `off` in stripe `index`. */
  function Slices(index: nat, off: nat, len: nat, unit: nat): seq<Slice>
    requires off < unit
    decreases len
  {
    if len == 0 then []
    else if off + len <= unit then [Slice(index, off, len)]
    else [Slice(index, off, unit - off)] + Slices(index + 1, 0, len - (unit - off), unit)
  }

  /** Where a slice starts in the file. */
  function Start(s: Slice, unit: nat): nat {
    s.index * unit + s.off
  }

  function Total(ss: seq<Slice>): nat {
    if ss == [] then 0 else ss[0].len + Total(ss[1..])
  }

  lemma {:induction false} SlicesTotal(index: nat, off: nat, len: nat, unit: nat)
    requires off < unit
    ensures Total(Slices(index, off, len, unit)) == len
    decreases len
  {
    var ss := Slices(index, off, len, unit);
    if len > 0 && off + len > unit {
      SlicesTotal(index + 1, 0, len - (unit - off), unit);
      assert ss[1..] == Slices(index + 1, 0, len - (unit - off), unit);
    } else if len > 0 {
      assert ss[1..] == [];
    }
  }

  /** Each slice lies within one stripe, stripes are consecutive, and each slice starts
      where the bytes of those before it end. */
  lemma {:induction false} SlicesPartition(index: nat, off: nat, len: nat, unit: nat, i: nat)
    requires off < unit && i < |Slices(index, off, len, unit)|
    ensures var ss := Slices(index, off, len, unit);
      && ss[i].index == index + i && ss[i].len > 0 && ss[i].off + ss[i].len <= unit
      && Start(ss[i], unit) == index * unit + off + Total(ss[..i])
    decreases len
  {
    var ss := Slices(index, off, len, unit);
    if i > 0 {
      var rest := Slices(index + 1, 0, len - (unit - off), unit);
      assert ss[1..] == rest && ss[i] == rest[i - 1];
      SlicesPartition(index + 1, 0, len - (unit - off), unit, i - 1);
      assert ss[..i][1..] == rest[..i - 1] && ss[..i][0] == ss[0];
      assert (index + 1) * unit == index * unit + unit;
    } else {
      assert ss[..0] == [];
    }
  }

  lemma MulMono(a: nat, b: nat, d: nat)
    requires a <= b
    ensures a * d <= b * d
  {
  }

  lemma DivUnique(x: nat, d: nat, q: nat, r: nat)
    requires x == q * d + r && r < d
    ensures x / d == q
  {
    var p := x / d;
    assert p * d <= x < p * d + d;
    assert (p + 1) * d == p * d + d && (q + 1) * d == q * d + d;
    if p < q {
      MulMono(p + 1, q, d);
    } else if p > q {
      MulMono(q + 1, p, d);
    }
  }

  /** How many stripes the range touches: from the stripe of its first byte to the stripe
      of its last. */
  function Touched(offset: nat, length: nat, unit: nat): int
    requires unit > 0 && length > 0
  {
    (offset + length - 1) / unit - offset / unit + 1
  }

  lemma TouchedInStripe(offset: nat, length: nat, unit: nat)
    requires unit > 0 && length > 0
    ensures Touched(offset, length, unit) == (offset % unit + length - 1) / unit + 1
  {
    var q, r := offset / unit, offset % unit;
    var m := r + length - 1;
    assert (q + m / unit) * unit == q * unit + (m / unit) * unit;
    DivUnique(offset + length - 1, unit, q + m / unit, m % unit);
  }

  lemma {:induction false} SlicesReach(index: nat, off: nat, len: nat, unit: nat)
    requires off < unit && len > 0
    ensures var c := |Slices(index, off, len, unit)|; c >= 1 && (c - 1) * unit < off + len <= c * unit
    decreases len
  {
    if off + len > unit {
      SlicesReach(index + 1, 0, len - (unit - off), unit);
      OneMore(|Slices(index + 1, 0, len - (unit - off), unit)|, unit);
    }
  }

  lemma OneMore(c: nat, d: nat)
    requires c >= 1
    ensures c * d == (c - 1) * d + d && (c + 1) * d == c * d + d
  {
  }

  lemma SlicesCount(index: nat, off: nat, len: nat, unit: nat)
    requires off < unit && len > 0
    ensures |Slices(index, off, len, unit)| == (off + len - 1) / unit + 1
  {
    var c := |Slices(index, off, len, unit)|;
    SlicesReach(index, off, len, unit);
    OneMore(c, unit);
    DivUnique(off + len - 1, unit, c - 1, off + len - 1 - (c - 1) * unit);
  }

  function SlicesOf(offset: nat, length: nat, unit: nat): seq<Slice>
    requires unit > 0
  {
    Slices(offset / unit, offset % unit, length, unit)
  }

  lemma TouchedIsCount(offset: nat, length: nat, unit: nat)
    requires unit > 0 && length > 0
    ensures |SlicesOf(offset, length, unit)| == Touched(offset, length, unit)
  {
    TouchedInStripe(offset, length, unit);
    SlicesCount(offset / unit, offset % unit, length, unit);
  }

  /** The slices of a range cover it from its first byte on, without gap or overlap. */
  lemma SliceStarts(offset: nat, length: nat, unit: nat, i: nat)
    requires unit > 0 && i < |SlicesOf(offset, length, unit)|
    ensures var ss := SlicesOf(offset, length, unit);
      && Start(ss[i], unit) == offset + Total(ss[..i])
      && ss[i].len > 0 && ss[i].off + ss[i].len <= unit && ss[i].index == offset / unit + i
  {
    DivMod(offset, unit);
    SlicesPartition(offset / unit, offset % unit, length, unit, i);
  }

  lemma DivMod(x: nat, d: nat)
    requires d > 0
    ensures x == (x / d) * d + x % d
  {
  }

  lemma SlicesAddUp(offset: nat, length: nat, unit: nat)
    requires unit > 0
    ensures Total(SlicesOf(offset, length, unit)) == length
  {
    SlicesTotal(offset / unit, offset % unit, length, unit);
  }

  // ---------------------------------------------------------------------------
  // Filling the caller's buffer
  // ---------------------------------------------------------------------------

  datatype SliceResult = Cut(count: nat) | Inval | NoSpace

  predicate Arguments(offset: nat, length: nat, unit: nat, max: nat) {
    unit > 0 && max > 0 && length > 0 && length != U64_MAX && offset / unit <= U32_MAX
  }

  /** How many stripe indexes there are from the first one on. */
  function Indexes(offset: nat, unit: nat): int
    requires unit > 0
  {
    U32_MAX + 1 - offset / unit
  }

  predicate OutOfSpace(ss: seq<Slice>, indexes: int, room: nat) {
    |ss| > room && indexes > room
  }

  predicate OutOfIndexes(ss: seq<Slice>, indexes: int, room: nat) {
    |ss| > indexes && indexes <= room
  }

  lemma NextSlice(done: seq<Slice>, index: nat, off: nat, len: nat, unit: nat)
    requires off < unit && len > 0
    ensures var n := if off + len <= unit then len else unit - off;
      done + Slices(index, off, len, unit) == (done + [Slice(index, off, n)]) + Slices(index + 1, 0, len - n, unit)
  {
  }

  /** One stripe at a time, until the bytes, the buffer or the indexes run out. */
  method Fill(first: nat, off0: nat, length: nat, unit: nat, out: array<Slice>) returns (r: SliceResult)
    requires off0 < unit && first <= U32_MAX && length > 0
    modifies out
    ensures var ss := Slices(first, off0, length, unit);
      && (r == NoSpace <==> OutOfSpace(ss, U32_MAX + 1 - first, out.Length))
      && (r == Inval <==> OutOfIndexes(ss, U32_MAX + 1 - first, out.Length))
      && (r.Cut? ==> r.count == |ss| <= out.Length && out[..|ss|] == ss)
  {
    ghost var all := Slices(first, off0, length, unit);
    var idx: nat, off: nat, remaining: nat, count: nat := first, off0, length, 0;
    while remaining > 0
      invariant count <= out.Length && off < unit
      invariant all == out[..count] + Slices(idx, off, remaining, unit)
      invariant remaining > 0 ==> idx == first + count <= U32_MAX
      invariant remaining == 0 ==> first + count <= U32_MAX + 1
      decreases remaining
    {
      if count == out.Length {
        return NoSpace;
      }
      var len := unit - off;
      if len > remaining {
        len := remaining;
      }
      NextSlice(out[..count], idx, off, remaining, unit);
      out[count] := Slice(idx, off, len);
      assert out[..count + 1] == out[..count] + [Slice(idx, off, len)];
      count := count + 1;
      remaining := remaining - len;
      off := 0;
      if remaining > 0 {
        if idx == U32_MAX {
          return Inval;
        }
        idx := idx + 1;
      }
    }
    return Cut(count);
  }

  /** Cutting a range: refused for bad arguments or when the stripe indexes run out, no
      space exactly when more stripes are touched than the buffer holds (and the buffer is
      what runs out first), else exactly the slices of the range. */
  method CutRange(offset: nat, length: nat, unit: nat, out: array<Slice>) returns (r: SliceResult)
    requires offset <= U64_MAX && length <= U64_MAX && unit <= U32_MAX
    modifies out
    ensures r == NoSpace <==> (Arguments(offset, length, unit, out.Length)
              && OutOfSpace(SlicesOf(offset, length, unit), Indexes(offset, unit), out.Length))
    ensures r == Inval <==> (!Arguments(offset, length, unit, out.Length)
              || OutOfIndexes(SlicesOf(offset, length, unit), Indexes(offset, unit), out.Length))
    // In numbers: the stripes from the one of the first byte to the one of the last, those below
    // 2^32, and the room in the buffer.
    ensures unit == 0 || out.Length == 0 || length == 0 || length == 0xFFFF_FFFF_FFFF_FFFF ==> r == Inval
    ensures unit > 0 && out.Length > 0 && 0 < length < 0xFFFF_FFFF_FFFF_FFFF ==>
              var stripes := (offset + length - 1) / unit - offset / unit + 1;
              var indexes := 0x1_0000_0000 - offset / unit;
              && (r.Cut? <==> indexes > 0 && stripes <= indexes && stripes <= out.Length)
              && (r == NoSpace <==> indexes > out.Length && stripes > out.Length)
              && (r.Cut? ==> r.count == stripes)
    ensures r.Cut? ==> r.count <= out.Length && out[..r.count] == SlicesOf(offset, length, unit)
  {
    if unit == 0 || out.Length == 0 || length == 0 || length == U64_MAX {
      return Inval;
    }
    var first, off := Locate(offset, unit);
    if first > U32_MAX {
      return Inval;
    }
    TouchedIsCount(offset, length, unit);
    r := Fill(first, off, length, unit, out);
  }

  method Locate(offset: nat, unit: nat) returns (first: nat, off: nat)
    requires unit > 0
    ensures first == offset / unit && off == offset % unit && off < unit
  {
    first, off := offset / unit, offset % unit;
  }

  // ---------------------------------------------------------------------------
  // The lease table
  // ---------------------------------------------------------------------------

  datatype Lease = Lease(file: nat, client: nat, stripe: nat, off: nat, len: nat, expiry: nat)

  function RangeEnd(off: nat, len: nat): nat {
    if off + len > U64_MAX then U64_MAX else off + len
  }

  predicate Overlap(o1: nat, l1: nat, o2: nat, l2: nat) {
    o1 < RangeEnd(o2, l2) && o2 < RangeEnd(o1, l1)
  }

  /** Another client's lease on the stripe that is in the way. */
  predicate Blocks(e: Lease, file: nat, client: nat, s: Slice) {
    e.file == file && e.stripe == s.index && e.client != client && Overlap(e.off, e.len, s.off, s.len)
  }

  /** The leases still running at `now`. */
  ghost function Running(es: seq<Lease>, now: nat): seq<Lease> {
    if es == [] then [] else (if es[0].expiry <= now then [] else [es[0]]) + Running(es[1..], now)
  }

  lemma {:induction false} RunningMembers(es: seq<Lease>, now: nat)
    ensures forall e :: e in Running(es, now) <==> e in es && e.expiry > now
  {
    if es != [] {
      RunningMembers(es[1..], now);
      assert es == [es[0]] + es[1..];
    }
  }

  /** Somebody else holds an unexpired lease on part of the slice. */
  ghost predicate Blocked(es: seq<Lease>, file: nat, client: nat, s: Slice, now: nat) {
    s.len > 0 && exists e | e in es :: e.expiry > now && Blocks(e, file, client, s)
  }

  /** Byte `b` is in the range; the very last one never is. */
  predicate HasByte(off: nat, len: nat, b: nat) {
    off <= b < off + len && b < U64_MAX
  }

  /** Two ranges with something in them overlap exactly when they share a byte. */
  lemma OverlapIsShared(o1: nat, l1: nat, o2: nat, l2: nat)
    requires l1 > 0 && l2 > 0
    ensures Overlap(o1, l1, o2, l2) <==>
              exists b: nat :: HasByte(o1, l1, b) && HasByte(o2, l2, b)
  {
    if Overlap(o1, l1, o2, l2) {
      var b := if o1 < o2 then o2 else o1;
      assert HasByte(o1, l1, b) && HasByte(o2, l2, b);
    }
  }

  /** Blocked is a slice of which another client's running lease on the stripe has a byte. */
  lemma BlockedIff(es: seq<Lease>, file: nat, client: nat, s: Slice, now: nat)
    requires forall e | e in es :: e.len > 0
    ensures Blocked(es, file, client, s, now) <==>
              exists e, b: nat ::
                && e in es && e.expiry > now && e.file == file && e.stripe == s.index && e.client != client
                && HasByte(e.off, e.len, b) && HasByte(s.off, s.len, b)
  {
    if s.len > 0 {
      forall e | e in es
        ensures Overlap(e.off, e.len, s.off, s.len) <==>
                  exists b: nat :: HasByte(e.off, e.len, b) && HasByte(s.off, s.len, b)
      {
        OverlapIsShared(e.off, e.len, s.off, s.len);
      }
    }
  }

  class LeaseTable {
    var leases: seq<Lease>

    /** No lease is empty. */
    ghost predicate Valid()
      reads this
    {
      forall e | e in leases :: e.len > 0
    }

    constructor ()
      ensures leases == [] && Valid()
    {
      leases := [];
    }

    /** Unlink what has expired, in one walk. */
    method Evict(now: nat)
      modifies this
      ensures leases == Running(old(leases), now)
      ensures forall e :: e in leases <==> e in old(leases) && e.expiry > now
    {
      RunningMembers(leases, now);
      var done: seq<Lease>, rest := [], leases;
      while rest != []
        invariant Running(leases, now) == done + Running(rest, now)
        decreases |rest|
      {
        var piece := if rest[0].expiry <= now then [] else [rest[0]];
        assert done + (piece + Running(rest[1..], now)) == (done + piece) + Running(rest[1..], now);
        done, rest := done + piece, rest[1..];
      }
      leases := done;
    }

    method CheckConflict(file: nat, client: nat, s: Slice, now: nat) returns (conflict: bool)
      modifies this
      ensures old(Valid()) ==> Valid()
      ensures conflict <==> Blocked(old(leases), file, client, s, now)
      // A running lease of another client has a byte of the slice.
      ensures old(Valid()) ==> (conflict <==>
                exists e, b: nat ::
                  && e in old(leases) && e.expiry > now && e.file == file && e.stripe == s.index && e.client != client
                  && HasByte(e.off, e.len, b) && HasByte(s.off, s.len, b))
      ensures leases == if s.len == 0 then old(leases) else Running(old(leases), now)
    {
      if Valid() {
        BlockedIff(leases, file, client, s, now);
      }
      if s.len == 0 {
        return false;
      }
      RunningMembers(leases, now);
      Evict(now);
      var i := 0;
      while i < |leases|
        invariant i <= |leases| && leases == Running(old(leases), now)
        invariant forall j | 0 <= j < i :: !Blocks(leases[j], file, client, s)
      {
        if Blocks(leases[i], file, client, s) {
          assert leases[i] in leases;
          return true;
        }
        i := i + 1;
      }
      return false;
    }

    /** Refresh the lease with the same start, or add one; conflicts are the caller's to
        check. */
    method Acquire(file: nat, client: nat, stripe: nat, off: nat, len: nat, now: nat, durationMs: nat)
      returns (ok: bool)
      modifies this
      ensures ok <==> durationMs > 0 && len > 0
      ensures !ok ==> leases == old(leases)
      ensures ok ==> Lease(file, client, stripe, off, len, now + durationMs * 1000000) in leases
      ensures ok ==> forall e :: e in leases ==>
                e == Lease(file, client, stripe, off, len, now + durationMs * 1000000)
                    || (e in old(leases) && e.expiry > now)
      ensures ok ==> forall e | e in old(leases) && e.expiry > now
                  && !(e.file == file && e.client == client && e.stripe == stripe && e.off == off) :: e in leases
      // A running lease with that start is refreshed, not doubled.
      ensures ok ==>
                |leases| == |Running(old(leases), now)| +
                            if exists e | e in old(leases) :: e.expiry > now && e.file == file && e.client == client
                                                              && e.stripe == stripe && e.off == off then 0 else 1
      ensures old(Valid()) ==> Valid()
    {
      if durationMs == 0 || len == 0 {
        return false;
      }
      var fresh' := Lease(file, client, stripe, off, len, now + durationMs * 1000000);
      RunningMembers(leases, now);
      Evict(now);
      var i := 0;
      while i < |leases|
        invariant i <= |leases| && leases == Running(old(leases), now)
        invariant forall j | 0 <= j < i :: !SameStart(leases[j], file, client, stripe, off)
      {
        if SameStart(leases[i], file, client, stripe, off) {
          assert leases[i] in leases;
          Swapped(leases, i, fresh');
          leases := leases[i := fresh'];
          return true;
        }
        i := i + 1;
      }
      leases := [fresh'] + leases;
      return true;
    }

    /** Release the lease with that start, if any. */
    method Release(file: nat, client: nat, stripe: nat, off: nat)
      modifies this
      ensures exists i :: 0 <= i <= |old(leases)| && Dropped(old(leases), leases, i)
                && (i < |old(leases)| ==> SameStart(old(leases)[i], file, client, stripe, off))
                && (forall j | 0 <= j < i :: !SameStart(old(leases)[j], file, client, stripe, off))
      ensures |leases| == |old(leases)| -
                if exists e | e in old(leases) ::
                     e.file == file && e.client == client && e.stripe == stripe && e.off == off then 1 else 0
      ensures forall e | e in old(leases)
                  && !(e.file == file && e.client == client && e.stripe == stripe && e.off == off) :: e in leases
      ensures forall e | e in leases :: e in old(leases)
      ensures old(Valid()) ==> Valid()
    {
      var i := 0;
      while i < |leases| && !SameStart(leases[i], file, client, stripe, off)
        invariant i <= |leases| && leases == old(leases)
        invariant forall j | 0 <= j < i :: !SameStart(leases[j], file, client, stripe, off)
      {
        i := i + 1;
      }
      if i < |leases| {
        leases := leases[..i] + leases[i + 1..];
      }
      assert Dropped(old(leases), leases, i);
    }

    /** The conflict-free prefix of a range: the bytes of the longest run of leading slices
        nobody else holds, each judged at the moment it is checked. */
    method FreePrefix(slices: seq<Slice>, unit: nat, offset: nat, length: nat, file: nat, client: nat, clock: seq<nat>)
      returns (free: nat, ghost k: nat)
      requires unit > 0 && length > 0 && slices == SlicesOf(offset, length, unit)
      requires |clock| >= |slices| && forall i, j | 0 <= i <= j < |clock| :: clock[i] <= clock[j]
      modifies this
      ensures k <= |slices| && free == Total(slices[..k])
      ensures forall i | 0 <= i < k :: !Blocked(old(leases), file, client, slices[i], clock[i])
      ensures k < |slices| ==> Blocked(old(leases), file, client, slices[k], clock[k])
      ensures k == |slices| ==> free == length
      ensures old(Valid()) ==> Valid()
    {
      k := 0;
      var i := 0;
      SlicesAddUp(offset, length, unit);
      while i < |slices|
        invariant i == k <= |slices|
        invariant forall j | 0 <= j < i :: !Blocked(old(leases), file, client, slices[j], clock[j])
        invariant forall e :: e in leases ==> e in old(leases)
        invariant forall e :: e in old(leases) && e !in leases ==> i > 0 && e.expiry <= clock[i - 1]
      {
        ghost var before := leases;
        RunningMembers(before, clock[i]);
        var conflict := CheckConflict(file, client, slices[i], clock[i]);
        assert Blocked(before, file, client, slices[i], clock[i]) <==>
            Blocked(old(leases), file, client, slices[i], clock[i]);
        if conflict {
          SliceStarts(offset, length, unit, i);
          var start := slices[i].index * unit + slices[i].off;
          if start <= offset {
            return 0, k;
          }
          return start - offset, k;
        }
        i, k := i + 1, k + 1;
      }
      assert slices[..k] == slices;
      return length, k;
    }
  }

  predicate SameStart(e: Lease, file: nat, client: nat, stripe: nat, off: nat) {
    e.file == file && e.client == client && e.stripe == stripe && e.off == off
  }

  ghost predicate Dropped(was: seq<Lease>, now: seq<Lease>, i: nat) {
    i <= |was| && now == if i < |was| then was[..i] + was[i + 1..] else was
  }

  lemma Swapped(es: seq<Lease>, i: nat, e: Lease)
    requires i < |es|
    ensures e in es[i := e]
    ensures forall o :: o in es[i := e] ==> o == e || o in es
    ensures forall o :: o in es && o != es[i] ==> o in es[i := e]
  {
    var t := es[i := e];
    assert t[i] == e;
    forall o | o in es && o != es[i] ensures o in t {
      var j :| 0 <= j < |es| && es[j] == o;
      assert t[j] == o;
    }
  }
}
