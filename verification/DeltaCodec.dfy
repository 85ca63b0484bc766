/** The replication delta stream: a growing builder that appends records, and a parser that
    hands them to a callback.  Parsing undoes building, and a buffer is accepted exactly
    when it is a sequence of whole records. */
module DeltaCodec {
  import opened Endian

  const HEADER: nat := 25
  const INIT_CAP: nat := 4096

  datatype Record = Record(kind: Byte, stream: nat, seqno: nat, timestamp: nat, payload: seq<Byte>)

  predicate Fits(r: Record) {
    r.stream < U32 && r.seqno < U64 && r.timestamp < U64 && |r.payload| < U32
  }

  function Header(r: Record): (h: seq<Byte>)
    requires Fits(r)
    ensures |h| == HEADER
  {
    [r.kind] + PutU32(r.stream) + PutU64(r.seqno) + PutU64(r.timestamp) + PutU32(|r.payload|)
  }

  function Encode(r: Record): (b: seq<Byte>)
    requires Fits(r)
  {
    Header(r) + r.payload
  }

  ghost predicate AllFit(rs: seq<Record>) {
    forall r | r in rs :: Fits(r)
  }

  ghost function Serialized(rs: seq<Record>): seq<Byte>
    requires AllFit(rs)
  {
    if rs == [] then [] else Encode(rs[0]) + Serialized(rs[1..])
  }

  // ---------------------------------------------------------------------------
  // One record
  // ---------------------------------------------------------------------------

  /** The length field of a header. */
  function PayloadLength(b: seq<Byte>): nat
    requires |b| >= HEADER
  {
    GetU32(b[21..25])
  }

  function Decode(b: seq<Byte>): (r: Record)
    requires |b| >= HEADER && |b| >= HEADER + PayloadLength(b)
    ensures Fits(r) && |r.payload| == PayloadLength(b)
  {
    Record(b[0], GetU32(b[1..5]), GetU64(b[5..13]), GetU64(b[13..21]), b[HEADER..HEADER + PayloadLength(b)])
  }

  lemma HeaderFields(r: Record, rest: seq<Byte>)
    requires Fits(r)
    ensures var b := Header(r) + rest;
      && b[0] == r.kind && b[1..5] == PutU32(r.stream) && b[5..13] == PutU64(r.seqno)
      && b[13..21] == PutU64(r.timestamp) && b[21..25] == PutU32(|r.payload|)
  {
  }

  /** Decoding reads back what was encoded, whatever follows it. */
  lemma DecodeEncode(r: Record, rest: seq<Byte>)
    requires Fits(r)
    ensures var b := Encode(r) + rest;
      && PayloadLength(b) == |r.payload| && |b| >= HEADER + PayloadLength(b) && Decode(b) == r
  {
    var b := Encode(r) + rest;
    assert b == Header(r) + (r.payload + rest);
    HeaderFields(r, r.payload + rest);
    U32RoundTrip(r.stream);
    U64RoundTrip(r.seqno);
    U64RoundTrip(r.timestamp);
    U32RoundTrip(|r.payload|);
    assert b[HEADER..HEADER + |r.payload|] == r.payload;
  }

  /** Encoding writes back exactly the bytes that were decoded. */
  lemma EncodeDecode(b: seq<Byte>)
    requires |b| >= HEADER && |b| >= HEADER + PayloadLength(b)
    ensures Encode(Decode(b)) == b[..HEADER + PayloadLength(b)]
  {
    U32Surjective(b[1..5]);
    U64Surjective(b[5..13]);
    U64Surjective(b[13..21]);
    U32Surjective(b[21..25]);
    var n := HEADER + PayloadLength(b);
    assert [b[0]] + b[1..5] + b[5..13] + b[13..21] + b[21..25] + b[25..n] == b[..n];
  }

  // ---------------------------------------------------------------------------
  // Streams of records
  // ---------------------------------------------------------------------------

  lemma {:induction false} SerializedAppend(rs: seq<Record>, r: Record)
    requires AllFit(rs) && Fits(r)
    ensures AllFit(rs + [r]) && Serialized(rs + [r]) == Serialized(rs) + Encode(r)
  {
    if rs == [] {
      assert [r][1..] == [];
      assert rs + [r] == [r];
    } else {
      assert (rs + [r])[1..] == rs[1..] + [r];
      SerializedAppend(rs[1..], r);
    }
  }

  /** No encoding is a proper beginning of another: a stream that starts another stream is
      made of its first records. */
  lemma {:induction false} PrefixCode(a: seq<Record>, b: seq<Record>)
    requires AllFit(a) && AllFit(b) && Serialized(a) <= Serialized(b)
    ensures a <= b
  {
    if a != [] {
      assert |Serialized(a)| >= HEADER && b != [];
      SameRecord(a[0], Serialized(a[1..]), b[0], Serialized(b[1..]));
      PrefixCode(a[1..], b[1..]);
      assert a == [a[0]] + a[1..] && b == [b[0]] + b[1..];
    }
  }

  /** Streams of which one starts the other begin with the same record. */
  lemma SameRecord(x: Record, s: seq<Byte>, y: Record, t: seq<Byte>)
    requires Fits(x) && Fits(y) && Encode(x) + s <= Encode(y) + t
    ensures x == y && s <= t
  {
    DecodeEncode(x, s);
    DecodeEncode(y, t);
    SameHead(Encode(x) + s, Encode(y) + t);
    SameTail(Encode(x), s, t);
  }

  lemma SameTail(e: seq<Byte>, s: seq<Byte>, t: seq<Byte>)
    requires e + s <= e + t
    ensures s <= t
  {
    assert s == (e + s)[|e|..] && t == (e + t)[|e|..];
  }

  /** What is decoded depends only on the record's own bytes. */
  lemma SameHead(a: seq<Byte>, b: seq<Byte>)
    requires |a| >= HEADER && |a| >= HEADER + PayloadLength(a) && a <= b
    ensures |b| >= HEADER + PayloadLength(b) && PayloadLength(a) == PayloadLength(b) && Decode(a) == Decode(b)
  {
    assert forall i, j | 0 <= i <= j <= |a| :: a[i..j] == b[i..j];
  }

  // ---------------------------------------------------------------------------
  // The builder
  // ---------------------------------------------------------------------------

  /** Copy bytes into a buffer. */
  method Blit(dst: array<Byte>, at: nat, bytes: seq<Byte>)
    requires at + |bytes| <= dst.Length
    modifies dst
    ensures dst[..at + |bytes|] == old(dst[..at]) + bytes
  {
    var i := 0;
    while i < |bytes|
      invariant i <= |bytes| && dst[..at + i] == old(dst[..at]) + bytes[..i]
    {
      dst[at + i] := bytes[i];
      i := i + 1;
    }
  }

  class Builder {
    var buf: array<Byte>
    var len: nat
    var count: nat
    ghost var records: seq<Record>

    ghost predicate Valid()
      reads this, buf
    {
      && len <= buf.Length && AllFit(records)
      && buf[..len] == Serialized(records) && count == |records|
    }

    constructor ()
      ensures Valid() && records == [] && fresh(buf)
    {
      buf := new Byte[0];
      len, count, records := 0, 0, [];
    }

    /** Double the buffer until `need` more bytes fit. */
    method Ensure(need: nat)
      requires Valid()
      modifies this`buf
      ensures Valid() && len + need <= buf.Length
      ensures buf == old(buf) || fresh(buf)
      // Not before it is needed, and then to less than twice what is.
      ensures len + need <= old(buf.Length) ==> buf == old(buf)
      ensures len + need > old(buf.Length) ==> buf.Length == 4096 || buf.Length < 2 * (len + need)
    {
      if len + need <= buf.Length {
        return;
      }
      var cap := if buf.Length == 0 then INIT_CAP else buf.Length;
      while cap < len + need
        invariant cap > 0 && (cap == INIT_CAP || cap < 2 * (len + need))
      {
        cap := cap * 2;
      }
      var bigger := new Byte[cap](i => 0);
      Blit(bigger, 0, buf[..len]);
      buf := bigger;
    }

    method Append(r: Record)
      requires Valid() && Fits(r)
      modifies this, buf
      ensures Valid() && records == old(records) + [r]
      ensures buf == old(buf) || fresh(buf)
    {
      var bytes := Encode(r);
      Ensure(|bytes|);
      SerializedAppend(records, r);
      Blit(buf, len, bytes);
      len, count, records := len + |bytes|, count + 1, records + [r];
    }
  }

  // ---------------------------------------------------------------------------
  // The parser
  // ---------------------------------------------------------------------------

  /** `wanted` is how many records the callback takes before it asks to stop (at least one
      is delivered before it can).  Delivered records are always whole ones from the start
      of the buffer. */
  method Deserialize(b: seq<Byte>, wanted: nat) returns (ok: bool, rs: seq<Record>)
    requires wanted >= 1
    ensures AllFit(rs) && |rs| <= wanted && Serialized(rs) <= b
    ensures ok && |rs| < wanted ==> Serialized(rs) == b
    ensures |rs| == wanted ==> ok
    ensures !ok ==> !exists whole: seq<Record> :: AllFit(whole) && Serialized(whole) == b
  {
    rs := [];
    var pos := 0;
    while pos + HEADER <= |b|
      invariant AllFit(rs) && |rs| < wanted && pos <= |b| && b[..pos] == Serialized(rs)
      decreases |b| - pos
    {
      var rest := b[pos..];
      if pos + HEADER + PayloadLength(rest) > |b| {
        CutIsRejected(b, pos, rs);
        return false, rs;
      }
      var r := Decode(rest);
      EncodeDecode(rest);
      SerializedAppend(rs, r);
      var next := pos + HEADER + PayloadLength(rest);
      assert b[..next] == b[..pos] + rest[..next - pos];
      rs, pos := rs + [r], next;
      if |rs| == wanted {
        return true, rs;
      }
    }
    ok := pos == |b|;
    if !ok {
      CutIsRejected(b, pos, rs);
    }
  }

  /** Leftover bytes that hold no whole record: no record sequence serialises to this. */
  lemma CutIsRejected(b: seq<Byte>, pos: nat, rs: seq<Record>)
    requires AllFit(rs) && pos < |b| && b[..pos] == Serialized(rs)
    requires pos + HEADER > |b| || pos + HEADER + PayloadLength(b[pos..]) > |b|
    ensures !exists whole: seq<Record> :: AllFit(whole) && Serialized(whole) == b
  {
    if whole: seq<Record> :| AllFit(whole) && Serialized(whole) == b {
      PrefixCode(rs, whole);
      SerializedSplit(whole, |rs|);
      assert whole[..|rs|] == rs;
      var rest := whole[|rs|..];
      assert b[pos..] == Serialized(rest);
      if rest != [] {
        DecodeEncode(rest[0], Serialized(rest[1..]));
      }
    }
  }

  lemma {:induction false} SerializedSplit(rs: seq<Record>, k: nat)
    requires AllFit(rs) && k <= |rs|
    ensures AllFit(rs[..k]) && AllFit(rs[k..])
    ensures Serialized(rs) == Serialized(rs[..k]) + Serialized(rs[k..])
  {
    if k > 0 {
      SerializedSplit(rs[1..], k - 1);
      assert rs[1..][..k - 1] == rs[1..k] && rs[1..][k - 1..] == rs[k..];
      assert rs[..k][1..] == rs[1..k] && rs[..k][0] == rs[0];
    } else {
      assert rs[..0] == [] && rs[0..] == rs;
    }
  }

  lemma UniqueDecoding(a: seq<Record>, b: seq<Record>)
    requires AllFit(a) && AllFit(b) && Serialized(a) == Serialized(b)
    ensures a == b
  {
    PrefixCode(a, b);
    PrefixCode(b, a);
  }

  /** A stream cut short is a stream again exactly when the cut is between records. */
  lemma CutAcceptedIff(rs: seq<Record>, m: nat)
    requires AllFit(rs) && m <= |Serialized(rs)|
    ensures (exists whole: seq<Record> :: AllFit(whole) && Serialized(whole) == Serialized(rs)[..m])
       <==> (exists k :: 0 <= k <= |rs| && AllFit(rs[..k]) && m == |Serialized(rs[..k])|)
  {
    if whole: seq<Record> :| AllFit(whole) && Serialized(whole) == Serialized(rs)[..m] {
      PrefixCode(whole, rs);
      PrefixIsFront(whole, rs);
    }
    if k :| 0 <= k <= |rs| && AllFit(rs[..k]) && m == |Serialized(rs[..k])| {
      FrontIsCut(rs, k);
    }
  }

  lemma PrefixIsFront<T>(a: seq<T>, b: seq<T>)
    requires a <= b
    ensures b[..|a|] == a
  {
  }

  lemma FrontIsCut(rs: seq<Record>, k: nat)
    requires k <= |rs| && AllFit(rs) && AllFit(rs[..k])
    ensures |Serialized(rs[..k])| <= |Serialized(rs)|
    ensures Serialized(rs[..k]) == Serialized(rs)[..|Serialized(rs[..k])|]
  {
    SerializedSplit(rs, k);
  }

  /** What was built is what is read back. */
  method ReadBack(b: Builder) returns (ok: bool, rs: seq<Record>)
    requires b.Valid()
    ensures ok && rs == b.records
  {
    ok, rs := Deserialize(b.buf[..b.len], b.count + 1);
    PrefixCode(rs, b.records);
    UniqueDecoding(rs, b.records);
  }
}
