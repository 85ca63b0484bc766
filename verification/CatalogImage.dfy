/** The in-memory catalogue image: two probe tables and, per stream, the high-water mark
    and gap flag that decide whether the image may be trusted.  Applying a stream of deltas
    is folding them over plain maps. */
module CatalogImage {
  import opened Endian
  import opened DeltaCodec
  import opened ProbeTable

  const STREAMS: nat := 16
  const MAX_NAME: nat := 255
  const UPSERT_SIZE: nat := 133

  type Name = seq<Byte>

  /** An inode row: all its columns when the payload has the full size, else its fileid. */
  datatype Inode = Columns(bytes: seq<Byte>) | OnlyFileid
  datatype Entry = Entry(child: nat, kind: Byte)
  datatype EntryKey = EntryKey(parent: nat, name: Name)

  /** What one record asks for. */
  datatype Change =
    | PutInode(fileid: nat, inode: Inode)
    | DropInode(fileid: nat)
    | PutEntry(key: EntryKey, entry: Entry)
    | DropEntry(key: EntryKey)
    | Nothing
    | Malformed

  /** Names arrive without a terminator, are cut at the longest name, and end at a zero
      byte as strings do. */
  function CString(b: seq<Byte>): Name {
    if b == [] || b[0] == 0 then [] else [b[0]] + CString(b[1..])
  }

  function NameIn(payload: seq<Byte>): Name
    requires |payload| > 17
  {
    var b := payload[17..];
    CString(if |b| > MAX_NAME then b[..MAX_NAME] else b)
  }

  function Meaning(r: Record): Change {
    var p := r.payload;
    if r.kind == 1 then
      if |p| < 8 || GetU64(p[..8]) == 0 then Malformed
      else PutInode(GetU64(p[..8]), if |p| == UPSERT_SIZE then Columns(p[8..]) else OnlyFileid)
    else if r.kind == 2 then
      if |p| < 8 || GetU64(p[..8]) == 0 then Malformed else DropInode(GetU64(p[..8]))
    else if r.kind == 3 then
      if |p| <= 17 || NameIn(p) == [] then Malformed
      else PutEntry(EntryKey(GetU64(p[..8]), NameIn(p)), Entry(GetU64(p[8..16]), p[16]))
    else if r.kind == 4 then
      if |p| <= 17 then Malformed else DropEntry(EntryKey(GetU64(p[..8]), NameIn(p)))
    else Nothing
  }

  // ---------------------------------------------------------------------------
  // The reference: plain maps
  // ---------------------------------------------------------------------------

  datatype Plain = Plain(inodes: map<nat, Inode>, entries: map<EntryKey, Entry>)

  function Changed(m: Plain, c: Change): Plain {
    match c
    case PutInode(f, inode) => m.(inodes := m.inodes[f := inode])
    case DropInode(f) => m.(inodes := m.inodes - {f})
    case PutEntry(k, e) => m.(entries := m.entries[k := e])
    case DropEntry(k) => m.(entries := m.entries - {k})
    case _ => m
  }

  function Folded(rs: seq<Record>): Plain {
    if rs == [] then Plain(map[], map[]) else Changed(Folded(rs[..|rs| - 1]), Meaning(rs[|rs| - 1]))
  }

  // ---------------------------------------------------------------------------
  // What the store emits is what the image does
  // ---------------------------------------------------------------------------

  /** The payload of both kinds of name records. */
  function EntryPayload(parent: nat, child: nat, kind: Byte, name: Name): seq<Byte>
    requires parent < U64 && child < U64
  {
    PutU64(parent) + PutU64(child) + [kind] + name
  }

  /** A name as the store keeps it. */
  predicate Proper(name: Name) {
    1 <= |name| <= 255 && forall i | 0 <= i < |name| :: name[i] != 0
  }

  lemma {:induction false} WholeString(b: seq<Byte>)
    requires forall i | 0 <= i < |b| :: b[i] != 0
    ensures CString(b) == b
  {
    if b != [] {
      WholeString(b[1..]);
    }
  }

  lemma EntryFields(parent: nat, child: nat, kind: Byte, name: Name)
    requires parent < U64 && child < U64 && Proper(name)
    ensures var p := EntryPayload(parent, child, kind, name);
      && |p| == 17 + |name| && p[..8] == PutU64(parent) && p[8..16] == PutU64(child) && p[16] == kind && p[17..] == name
  {
  }

  /** A record about a name is read as it was meant: a put as that entry, a delete as that
      name's removal. */
  lemma EntryMeaning(r: Record, parent: nat, child: nat, kind: Byte, name: Name)
    requires parent < U64 && child < U64 && Proper(name) && r.payload == EntryPayload(parent, child, kind, name)
    ensures r.kind == 3 ==> Meaning(r) == PutEntry(EntryKey(parent, name), Entry(child, kind))
    ensures r.kind == 4 ==> Meaning(r) == DropEntry(EntryKey(parent, name))
  {
    EntryFields(parent, child, kind, name);
    U64RoundTrip(parent);
    U64RoundTrip(child);
    WholeString(name);
  }

  /** Which records say nothing: an inode record without a fileid, a put without a name, and a
      name record cut short. */
  lemma MalformedIff(r: Record)
    ensures r.kind in {1, 2} ==> (Meaning(r).Malformed? <==> |r.payload| < 8 || GetU64(r.payload[..8]) == 0)
    ensures r.kind == 3 ==> (Meaning(r).Malformed? <==> |r.payload| <= 17 || r.payload[17] == 0)
    ensures r.kind == 4 ==> (Meaning(r).Malformed? <==> |r.payload| <= 17)
    ensures r.kind !in {1, 2, 3, 4} ==> !Meaning(r).Malformed?
  {
  }

  /** And a record about an inode: its fileid, and its columns when they are all there. */
  lemma InodeMeaning(r: Record, fileid: nat, columns: seq<Byte>)
    requires 0 < fileid < U64 && r.payload == PutU64(fileid) + columns
    ensures r.kind == 1 ==> Meaning(r) == PutInode(fileid, if |columns| == 125 then Columns(columns) else OnlyFileid)
    ensures r.kind == 2 ==> Meaning(r) == DropInode(fileid)
  {
    assert r.payload[..8] == PutU64(fileid) && r.payload[8..] == columns;
    U64RoundTrip(fileid);
  }

  lemma FoldedTwo(rs: seq<Record>, a: Record, b: Record)
    ensures Folded(rs + [a]) == Changed(Folded(rs), Meaning(a))
    ensures Folded(rs + [a, b]) == Changed(Changed(Folded(rs), Meaning(a)), Meaning(b))
  {
    assert (rs + [a])[..|rs|] == rs;
    assert (rs + [a, b])[..|rs| + 1] == rs + [a];
  }

  /** The two records of a rename, a delete and then a put, move the name in the image: the
      source is gone, the destination stands for the object, and nothing else changes. */
  lemma RenameReplays(rs: seq<Record>, del: Record, put: Record, src: EntryKey, dst: EntryKey, child: nat, kind: Byte)
    requires src.parent < U64 && dst.parent < U64 && child < U64 && Proper(src.name) && Proper(dst.name) && src != dst
    requires del.kind == 4 && del.payload == EntryPayload(src.parent, child, kind, src.name)
    requires put.kind == 3 && put.payload == EntryPayload(dst.parent, child, kind, dst.name)
    ensures var m, m' := Folded(rs), Folded(rs + [del, put]);
      && src !in m'.entries && dst in m'.entries && m'.entries[dst] == Entry(child, kind)
      && (forall k | k != src && k != dst :: k in m'.entries <==> k in m.entries)
      && (forall k | k != src && k != dst && k in m.entries :: m'.entries[k] == m.entries[k])
      && m'.inodes == m.inodes
  {
    FoldedTwo(rs, del, put);
    EntryMeaning(del, src.parent, child, kind, src.name);
    EntryMeaning(put, dst.parent, child, kind, dst.name);
    Moved(Folded(rs), src, dst, Entry(child, kind));
  }

  lemma Moved(m: Plain, src: EntryKey, dst: EntryKey, e: Entry)
    requires src != dst
    ensures var m' := Changed(Changed(m, DropEntry(src)), PutEntry(dst, e));
      && src !in m'.entries && dst in m'.entries && m'.entries[dst] == e
      && (forall k | k != src && k != dst :: k in m'.entries <==> k in m.entries)
      && (forall k | k != src && k != dst && k in m.entries :: m'.entries[k] == m.entries[k])
      && m'.inodes == m.inodes
  {
  }

  /** A record about an inode sets or drops that inode in the image, and nothing else. */
  lemma InodeReplays(rs: seq<Record>, r: Record, fileid: nat, columns: seq<Byte>)
    requires 0 < fileid < U64 && |columns| == 125 && r.payload == PutU64(fileid) + columns && r.kind in {1, 2}
    ensures var m, m' := Folded(rs), Folded(rs + [r]);
      && (r.kind == 1 ==> fileid in m'.inodes && m'.inodes[fileid] == Columns(columns))
      && (r.kind == 2 ==> fileid !in m'.inodes)
      && (forall f | f != fileid :: f in m'.inodes <==> f in m.inodes)
      && (forall f | f != fileid && f in m.inodes :: m'.inodes[f] == m.inodes[f])
      && m'.entries == m.entries
  {
    FoldedTwo(rs, r, r);
    InodeMeaning(r, fileid, columns);
  }

  // ---------------------------------------------------------------------------
  // Stream marks
  // ---------------------------------------------------------------------------

  datatype Mark = Mark(high: nat, expected: nat, gap: bool)

  /** The bookkeeping of one applied record; the expected number wraps as 64-bit does. */
  function Marked(m: Mark, seqno: nat): Mark {
    Mark(if seqno > m.high then seqno else m.high,
         (seqno + 1) % U64,
         m.gap || (m.expected == 0 && seqno != 1) || (m.expected != 0 && seqno != m.expected))
  }

  function MarkOf(seqnos: seq<nat>): Mark {
    if seqnos == [] then Mark(0, 0, false) else Marked(MarkOf(seqnos[..|seqnos| - 1]), seqnos[|seqnos| - 1])
  }

  lemma {:induction false} HighBounds(seqnos: seq<nat>, i: nat)
    requires i < |seqnos|
    ensures seqnos[i] <= MarkOf(seqnos).high
    decreases |seqnos|
  {
    var n := |seqnos| - 1;
    if i < n {
      HighBounds(seqnos[..n], i);
    }
  }

  lemma {:induction false} HighAttained(seqnos: seq<nat>) returns (i: nat)
    requires MarkOf(seqnos).high > 0
    ensures i < |seqnos| && seqnos[i] == MarkOf(seqnos).high
  {
    var n := |seqnos| - 1;
    if seqnos[n] > MarkOf(seqnos[..n]).high {
      i := n;
    } else {
      i := HighAttained(seqnos[..n]);
    }
  }

  /** The high-water mark is the largest number applied. */
  lemma HighIsMax(seqnos: seq<nat>)
    ensures forall s | s in seqnos :: s <= MarkOf(seqnos).high
    ensures seqnos != [] ==> MarkOf(seqnos).high in seqnos || MarkOf(seqnos).high == 0
  {
    forall s | s in seqnos ensures s <= MarkOf(seqnos).high {
      var i :| 0 <= i < |seqnos| && seqnos[i] == s;
      HighBounds(seqnos, i);
    }
    if MarkOf(seqnos).high > 0 {
      var i := HighAttained(seqnos);
    }
  }

  /** The numbers 1, 2, 3, ... round and round below 2^64. */
  function Nth(i: nat): nat {
    i % (U64 - 1) + 1
  }

  lemma NthIsNext(i: nat)
    requires i < 0xFFFF_FFFF_FFFF_FFFF
    ensures Nth(i) == i + 1
  {
  }

  lemma NthNext(i: nat)
    requires i > 0
    ensures var e := (Nth(i - 1) + 1) % U64; Nth(i) == if e == 0 then 1 else e
  {
  }

  /** No gap is seen exactly when the numbers applied are 1, 2, 3, ... in this order. */
  lemma {:induction false} NoGapIff(seqnos: seq<nat>)
    ensures !MarkOf(seqnos).gap <==> forall i | 0 <= i < |seqnos| :: seqnos[i] == Nth(i)
    ensures seqnos != [] ==> MarkOf(seqnos).expected == (seqnos[|seqnos| - 1] + 1) % U64
  {
    if seqnos != [] {
      var n := |seqnos| - 1;
      NoGapIff(seqnos[..n]);
      if n > 0 {
        NthNext(n);
      }
      assert forall i | 0 <= i < n :: seqnos[..n][i] == seqnos[i];
    }
  }

  /** As long as there is no gap the high-water mark counts what was applied, up to the
      largest 64-bit number. */
  lemma {:induction false} HighCounts(seqnos: seq<nat>)
    requires forall i | 0 <= i < |seqnos| :: seqnos[i] == Nth(i)
    ensures MarkOf(seqnos).high == if |seqnos| < U64 then |seqnos| else U64 - 1
  {
    if seqnos != [] {
      HighCounts(seqnos[..|seqnos| - 1]);
    }
  }

  /** A complete image has applied every number up to the authority's, in order. */
  lemma CompleteMeansAll(seqnos: seq<nat>, authority: nat)
    requires authority < U64
    ensures !MarkOf(seqnos).gap && MarkOf(seqnos).high >= authority <==>
      |seqnos| >= authority && forall i | 0 <= i < |seqnos| :: seqnos[i] == Nth(i)
  {
    NoGapIff(seqnos);
    if !MarkOf(seqnos).gap {
      HighCounts(seqnos);
    }
  }

  // ---------------------------------------------------------------------------
  // The image
  // ---------------------------------------------------------------------------

  /** The numbers the records of one stream carried. */
  function Seqnos(rs: seq<Record>, stream: nat): seq<nat> {
    if rs == [] then []
    else
      var front, last := Seqnos(rs[..|rs| - 1], stream), rs[|rs| - 1];
      if last.stream == stream then front + [last.seqno] else front
  }

  class Image {
    var inodes: ProbeTable<nat, Inode>
    var entries: ProbeTable<EntryKey, Entry>
    var marks: seq<Mark>
    /** Every record applied so far. */
    ghost var applied: seq<Record>

    ghost predicate Valid()
      reads this, inodes, inodes.slots, entries, entries.slots
    {
      && inodes.Valid() && entries.Valid() && |marks| == STREAMS
      && Plain(inodes.Contents(), entries.Contents()) == Folded(applied)
      && forall i | 0 <= i < STREAMS :: marks[i] == MarkOf(Seqnos(applied, i))
    }

    constructor (hashInode: nat -> nat, hashEntry: EntryKey -> nat)
      ensures Valid() && applied == []
      ensures fresh(inodes) && fresh(inodes.slots) && fresh(entries) && fresh(entries.slots)
    {
      inodes := new ProbeTable(hashInode, 1024);
      entries := new ProbeTable(hashEntry, 2048);
      marks := seq(STREAMS, _ => Mark(0, 0, false));
      applied := [];
    }

    method Change(c: Change)
      requires inodes.Valid() && entries.Valid()
      modifies inodes, inodes.slots, entries, entries.slots
      ensures inodes.Valid() && entries.Valid()
      ensures Plain(inodes.Contents(), entries.Contents()) ==
                Changed(old(Plain(inodes.Contents(), entries.Contents())), c)
      ensures inodes.slots == old(inodes.slots) || fresh(inodes.slots)
      ensures entries.slots == old(entries.slots) || fresh(entries.slots)
    {
      match c {
        case PutInode(f, inode) => inodes.Put(f, inode);
        case DropInode(f) => inodes.Delete(f);
        case PutEntry(k, e) => entries.Put(k, e);
        case DropEntry(k) => entries.Delete(k);
        case _ =>
      }
    }

    /** One record: refused as malformed, or applied and marked. */
    method Apply(r: Record) returns (ok: bool)
      requires Valid()
      modifies this, inodes, inodes.slots, entries, entries.slots
      ensures Valid()
      ensures ok <==> !Meaning(r).Malformed?
      // Refused: an inode record without a fileid, a put without a name, and a name record cut short.
      ensures r.kind in {1, 2} ==> (ok <==> |r.payload| >= 8 && GetU64(r.payload[..8]) != 0)
      ensures r.kind == 3 ==> (ok <==> |r.payload| > 17 && r.payload[17] != 0)
      ensures r.kind == 4 ==> (ok <==> |r.payload| > 17)
      ensures r.kind !in {1, 2, 3, 4} ==> ok
      ensures applied == if ok then old(applied) + [r] else old(applied)
      ensures inodes == old(inodes) && entries == old(entries)
    {
      var c := Meaning(r);
      MalformedIff(r);
      if c.Malformed? {
        return false;
      }
      FoldedAppend(applied, r);
      Commit(r, c);
      ok := true;
    }

    method Commit(r: Record, c: Change)
      requires Valid()
      requires Folded(applied + [r]) == Changed(Folded(applied), c)
      modifies this, inodes, inodes.slots, entries, entries.slots
      ensures Valid() && applied == old(applied) + [r]
      ensures inodes == old(inodes) && entries == old(entries)
    {
      Change(c);
      Note(r);
    }

    method Note(r: Record)
      requires |marks| == STREAMS && forall i | 0 <= i < STREAMS :: marks[i] == MarkOf(Seqnos(applied, i))
      modifies this`marks, this`applied
      ensures applied == old(applied) + [r]
      ensures |marks| == STREAMS && forall i | 0 <= i < STREAMS :: marks[i] == MarkOf(Seqnos(applied, i))
    {
      MarksAppend(applied, r);
      if r.stream < STREAMS {
        marks := marks[r.stream := Marked(marks[r.stream], r.seqno)];
      }
      applied := applied + [r];
    }

    /** Complete: nothing missing, nothing out of order, caught up. */
    method IsComplete(stream: nat, authority: nat) returns (complete: bool)
      requires Valid() && authority < U64
      ensures complete <==> stream < 16 && var s := Seqnos(applied, stream);
                |s| >= authority && forall i | 0 <= i < |s| :: s[i] == Nth(i)
    {
      if stream >= STREAMS { return false; }
      complete := !marks[stream].gap && marks[stream].high >= authority;
      CompleteMeansAll(Seqnos(applied, stream), authority);
    }
  }

  lemma FoldedAppend(rs: seq<Record>, r: Record)
    ensures Folded(rs + [r]) == Changed(Folded(rs), Meaning(r))
  {
    assert (rs + [r])[..|rs|] == rs;
  }

  lemma MarksAppend(rs: seq<Record>, r: Record)
    ensures forall i: nat :: MarkOf(Seqnos(rs + [r], i)) ==
              if i == r.stream then Marked(MarkOf(Seqnos(rs, i)), r.seqno) else MarkOf(Seqnos(rs, i))
  {
    assert (rs + [r])[..|rs|] == rs;
    var s := Seqnos(rs, r.stream);
    assert (s + [r.seqno])[..|s|] == s;
  }
}
