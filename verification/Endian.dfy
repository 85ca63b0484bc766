/** Big-endian integers on the wire: the fixed-width put and get helpers, what they have to
    do with base 256, and that comparing bytes compares unsigned values. */
module Endian {

  newtype Byte = x: int | 0 <= x < 256

  const U16: int := 0x1_0000
  const U32: int := 0x1_0000_0000
  const U64: int := 0x1_0000_0000_0000_0000
  const I64: int := 0x8000_0000_0000_0000

  function PutU16(v: nat): (r: seq<Byte>)
    requires v < U16
    ensures |r| == 2
  {
    [(v / 256) as Byte, (v % 256) as Byte]
  }

  function GetU16(s: seq<Byte>): (v: nat)
    requires |s| == 2
    ensures v < U16
  {
    s[0] as nat * 256 + s[1] as nat
  }

  /** A 32-bit value is its high half and its low half. */
  function PutU32(v: nat): (r: seq<Byte>)
    requires v < U32
    ensures |r| == 4
  {
    PutU16(v / U16) + PutU16(v % U16)
  }

  function GetU32(s: seq<Byte>): (v: nat)
    requires |s| == 4
    ensures v < U32
  {
    GetU16(s[..2]) * U16 + GetU16(s[2..])
  }

  /** A 64-bit value is its high half and its low half. */
  function PutU64(v: nat): (r: seq<Byte>)
    requires v < U64
    ensures |r| == 8
  {
    PutU32(v / U32) + PutU32(v % U32)
  }

  function GetU64(s: seq<Byte>): (v: nat)
    requires |s| == 8
    ensures v < U64
  {
    GetU32(s[..4]) * U32 + GetU32(s[4..])
  }

  /** Signed values travel in two's complement. */
  function PutI64(v: int): (r: seq<Byte>)
    requires -I64 <= v < I64
    ensures |r| == 8
  {
    PutU64(if v < 0 then v + U64 else v)
  }

  function GetI64(s: seq<Byte>): (v: int)
    requires |s| == 8
    ensures -I64 <= v < I64
  {
    var u := GetU64(s);
    if u >= I64 then u - U64 else u
  }

  lemma U32RoundTrip(v: nat)
    requires v < U32
    ensures GetU32(PutU32(v)) == v
  {
    assert PutU32(v)[..2] == PutU16(v / U16) && PutU32(v)[2..] == PutU16(v % U16);
  }

  lemma U32Surjective(s: seq<Byte>)
    requires |s| == 4
    ensures PutU32(GetU32(s)) == s
  {
    assert GetU32(s) / U16 == GetU16(s[..2]) && GetU32(s) % U16 == GetU16(s[2..]);
    assert s == s[..2] + s[2..];
  }

  lemma U64RoundTrip(v: nat)
    requires v < U64
    ensures GetU64(PutU64(v)) == v
  {
    U32RoundTrip(v / U32);
    U32RoundTrip(v % U32);
    assert PutU64(v)[..4] == PutU32(v / U32) && PutU64(v)[4..] == PutU32(v % U32);
  }

  lemma U64Surjective(s: seq<Byte>)
    requires |s| == 8
    ensures PutU64(GetU64(s)) == s
  {
    U32Surjective(s[..4]);
    U32Surjective(s[4..]);
    assert GetU64(s) / U32 == GetU32(s[..4]) && GetU64(s) % U32 == GetU32(s[4..]);
    assert s == s[..4] + s[4..];
  }

  lemma I64RoundTrip(v: int)
    requires -I64 <= v < I64
    ensures GetI64(PutI64(v)) == v
  {
    U64RoundTrip(if v < 0 then v + U64 else v);
  }

  // ---------------------------------------------------------------------------
  // Order
  // ---------------------------------------------------------------------------

  /** memcmp on equally long buffers. */
  ghost predicate Less(a: seq<Byte>, b: seq<Byte>) {
    exists i :: 0 <= i < |a| && i < |b| && a[..i] == b[..i] && a[i] < b[i]
  }

  lemma NotBothLess(a: seq<Byte>, b: seq<Byte>)
    requires Less(a, b)
    ensures !Less(b, a) && a != b
  {
    var i :| 0 <= i < |a| && i < |b| && a[..i] == b[..i] && a[i] < b[i];
    forall j | 0 <= j < |b| && j < |a| && b[..j] == a[..j] ensures !(b[j] < a[j]) {
      assert j < i ==> b[..i][j] == a[..i][j];
    }
  }

  lemma LessHead(a: seq<Byte>, b: seq<Byte>, c: seq<Byte>, d: seq<Byte>)
    requires |a| == |c| && Less(a, c)
    ensures Less(a + b, c + d)
  {
    var i :| 0 <= i < |a| && i < |c| && a[..i] == c[..i] && a[i] < c[i];
    assert (a + b)[..i] == a[..i] && (c + d)[..i] == c[..i];
  }

  lemma LessTail(a: seq<Byte>, b: seq<Byte>, d: seq<Byte>)
    requires Less(b, d)
    ensures Less(a + b, a + d)
  {
    var i :| 0 <= i < |b| && i < |d| && b[..i] == d[..i] && b[i] < d[i];
    assert (a + b)[..|a| + i] == a + b[..i] && (a + d)[..|a| + i] == a + d[..i];
    assert (a + b)[|a| + i] < (a + d)[|a| + i];
  }

  lemma U16Less(v: nat, w: nat)
    requires v < w < U16
    ensures Less(PutU16(v), PutU16(w))
  {
    var i := if v / 256 != w / 256 then 0 else 1;
    assert PutU16(v)[..i] == PutU16(w)[..i] && PutU16(v)[i] < PutU16(w)[i];
  }

  lemma U32Less(v: nat, w: nat)
    requires v < w < U32
    ensures Less(PutU32(v), PutU32(w))
  {
    if v / U16 < w / U16 {
      U16Less(v / U16, w / U16);
      LessHead(PutU16(v / U16), PutU16(v % U16), PutU16(w / U16), PutU16(w % U16));
    } else {
      U16Less(v % U16, w % U16);
      LessTail(PutU16(v / U16), PutU16(v % U16), PutU16(w % U16));
    }
  }

  /** Halves compare high before low. */
  lemma HalvesLess(vh: nat, vl: nat, wh: nat, wl: nat)
    requires vh < U32 && vl < U32 && wh < U32 && wl < U32
    requires vh < wh || (vh == wh && vl < wl)
    ensures Less(PutU32(vh) + PutU32(vl), PutU32(wh) + PutU32(wl))
  {
    if vh < wh {
      U32Less(vh, wh);
      LessHead(PutU32(vh), PutU32(vl), PutU32(wh), PutU32(wl));
    } else {
      U32Less(vl, wl);
      LessTail(PutU32(vh), PutU32(vl), PutU32(wl));
    }
  }

  lemma U64Less(v: nat, w: nat)
    requires v < w < U64
    ensures Less(PutU64(v), PutU64(w))
  {
    HalvesLess(v / U32, v % U32, w / U32, w % U32);
  }

  /** Keys sort as numbers do. */
  lemma U64OrderIff(v: nat, w: nat)
    requires v < U64 && w < U64
    ensures Less(PutU64(v), PutU64(w)) <==> v < w
  {
    if v < w {
      U64Less(v, w);
    } else if w < v {
      U64Less(w, v);
      NotBothLess(PutU64(w), PutU64(v));
    } else if Less(PutU64(v), PutU64(w)) {
      NotBothLess(PutU64(v), PutU64(w));
    }
  }
}
