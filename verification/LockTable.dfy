/** The byte-range lock manager: one owner state per (file, client, lock owner), each with
    a stateid and a list of ranges.  LOCK replaces, splits and upgrades the owner's own
    ranges, LOCKU punches holes, and no byte is write-locked by one owner while another
    holds it. */
module LockTable {
  import opened ByteRanges

  const OWNER_MAX: nat := 128
  const SEQID_WRAP: nat := 0x1_0000_0000

  datatype LockType = ReadLt | WriteLt | ReadwLt | WritewLt | OtherLt

  datatype OwnerKey = OwnerKey(client: nat, owner: seq<char>)

  datatype OwnerState = OwnerState(file: nat, key: OwnerKey, sid: nat, seqid: nat, ranges: seq<Range>)

  datatype Status = Ok | Inval | Denied | BadStateid | OldStateid | LocksHeld

  /** The wire's two ways to name a locker. */
  datatype Locker = NewOwner(key: OwnerKey) | Existing(sid: nat, seqid: nat)

  datatype Option<T> = None | Some(value: T)

  /** The range in the way, and whose it is. */
  datatype Conflict = Conflict(range: Range, key: OwnerKey)

  function Length(length: nat): nat {
    if length == 0 then MAX else length
  }

  function Clip(k: OwnerKey): (r: OwnerKey)
    ensures r.client == k.client && r.owner <= k.owner && (|r.owner| == |k.owner| < 128 || |r.owner| == 128)
  {
    if |k.owner| > OWNER_MAX then k.(owner := k.owner[..OWNER_MAX]) else k
  }

  /** The bytes a request names: a length of zero or of all ones reaches to the end, and the
      last byte cannot be named. */
  predicate Asked(offset: nat, length: nat, b: nat) {
    offset <= b < MAX && (length == 0 || length == MAX || b < offset + length)
  }

  lemma AskedIsSpan(offset: nat, length: nat, b: nat)
    requires offset <= MAX && length <= MAX
    ensures Asked(offset, length, b) <==> offset <= b < End(offset, Length(length))
  {
  }

  // ---------------------------------------------------------------------------
  // The table as a map from stateid and byte to lock mode
  // ---------------------------------------------------------------------------

  ghost function HeldBy(owners: seq<OwnerState>, sid: nat, b: nat): Held {
    if owners == [] then Free
    else if owners[0].sid == sid then ModeAt(owners[0].ranges, b)
    else HeldBy(owners[1..], sid, b)
  }

  ghost predicate Distinct(owners: seq<OwnerState>) {
    forall i, j | 0 <= i < j < |owners| ::
      && owners[i].sid != owners[j].sid
      && !(owners[i].file == owners[j].file && owners[i].key == owners[j].key)
  }

  ghost predicate AllGood(owners: seq<OwnerState>) {
    forall i | 0 <= i < |owners| :: AllWf(owners[i].ranges) && Disjoint(owners[i].ranges)
  }

  ghost predicate Compatible(p: seq<Range>, q: seq<Range>) {
    forall b :: ModeAt(p, b) == Locked(Write) ==> ModeAt(q, b) == Free
  }

  /** No byte of a file is write-locked by one owner while another owner holds it. */
  ghost predicate Exclusive(owners: seq<OwnerState>) {
    forall i, j | 0 <= i < |owners| && 0 <= j < |owners| && i != j && owners[i].file == owners[j].file ::
      Compatible(owners[i].ranges, owners[j].ranges)
  }

  ghost predicate Sound(owners: seq<OwnerState>) {
    Distinct(owners) && AllGood(owners) && Exclusive(owners)
  }

  /** A range held by another owner of the file in a clashing mode. */
  predicate Clash(os: OwnerState, q: Range, file: nat, key: OwnerKey, read: bool, offset: nat, length: nat) {
    os.file == file && os.key != key && Overlap(q.offset, q.length, offset, length) && !(q.mode.Read? && read)
  }

  ghost predicate InTheWay(owners: seq<OwnerState>, file: nat, key: OwnerKey, read: bool, offset: nat, length: nat) {
    exists i, j :: 0 <= i < |owners| && 0 <= j < |owners[i].ranges|
                && Clash(owners[i], owners[i].ranges[j], file, key, read, offset, length)
  }

  lemma {:induction false} HeldByAt(owners: seq<OwnerState>, i: nat, b: nat)
    requires i < |owners| && forall j | 0 <= j < i :: owners[j].sid != owners[i].sid
    ensures HeldBy(owners, owners[i].sid, b) == ModeAt(owners[i].ranges, b)
  {
    if i > 0 {
      assert owners[1..][i - 1] == owners[i];
      HeldByAt(owners[1..], i - 1, b);
    }
  }

  lemma {:induction false} HeldByUpdate(owners: seq<OwnerState>, i: nat, os: OwnerState, sid: nat, b: nat)
    requires i < |owners| && os.sid == owners[i].sid
    requires forall j | 0 <= j < i :: owners[j].sid != os.sid
    ensures HeldBy(owners[i := os], sid, b) ==
              if sid == os.sid then ModeAt(os.ranges, b) else HeldBy(owners, sid, b)
  {
    var owners' := owners[i := os];
    if i > 0 {
      assert owners'[1..] == owners[1..][i - 1 := os];
      HeldByUpdate(owners[1..], i - 1, os, sid, b);
    } else {
      assert owners'[1..] == owners[1..];
    }
  }

  /** A byte a sound list holds is in one of its ranges. */
  lemma {:induction false} HolderOf(rs: seq<Range>, b: nat) returns (j: nat)
    requires ModeAt(rs, b) != Free
    ensures j < |rs| && Covers(rs[j], b) && ModeAt(rs, b) == Locked(rs[j].mode)
  {
    if Covers(rs[0], b) {
      j := 0;
    } else {
      j := HolderOf(rs[1..], b);
      j := j + 1;
    }
  }

  // ---------------------------------------------------------------------------
  // Granting and carving keep the table sound
  // ---------------------------------------------------------------------------

  function Carved(os: OwnerState, offset: nat, length: nat): OwnerState {
    os.(ranges := CarveAll(os.ranges, offset, End(offset, length)), seqid := (os.seqid + 1) % SEQID_WRAP)
  }

  function Granted(os: OwnerState, r: Range): OwnerState {
    var c := Carved(os, r.offset, r.length);
    c.(ranges := [r] + c.ranges)
  }

  lemma CarvedHolds(os: OwnerState, offset: nat, length: nat, b: nat)
    requires AllWf(os.ranges) && Disjoint(os.ranges) && offset <= MAX && length >= 1
    ensures ModeAt(Carved(os, offset, length).ranges, b) ==
              if offset <= b < End(offset, length) then Free else ModeAt(os.ranges, b)
  {
    CarvedBytes(os.ranges, offset, End(offset, length), b);
  }

  lemma GrantedHolds(os: OwnerState, r: Range, b: nat)
    requires AllWf(os.ranges) && Disjoint(os.ranges) && Wf(r)
    ensures ModeAt(Granted(os, r).ranges, b) == if Covers(r, b) then Locked(r.mode) else ModeAt(os.ranges, b)
  {
    CarvedHolds(os, r.offset, r.length, b);
    var g := Granted(os, r).ranges;
    assert g[1..] == Carved(os, r.offset, r.length).ranges;
  }

  lemma GrantedShape(os: OwnerState, r: Range)
    requires AllWf(os.ranges) && Disjoint(os.ranges) && Wf(r)
    ensures AllWf(Granted(os, r).ranges) && Disjoint(Granted(os, r).ranges)
  {
    CarvedShape(os.ranges, r.offset, End(r.offset, r.length));
    var g := Granted(os, r).ranges;
    assert g[1..] == Carved(os, r.offset, r.length).ranges;
    forall b | Covers(r, b) ensures ModeAt(g[1..], b) == Free {
      CarvedHolds(os, r.offset, r.length, b);
    }
  }

  /** A range nobody is in the way of is compatible with every other owner's ranges. */
  lemma FreeOfOthers(owners: seq<OwnerState>, i: nat, r: Range, j: nat, b: nat)
    requires Sound(owners) && i < |owners| && j < |owners| && i != j && owners[i].file == owners[j].file && Wf(r)
    requires !InTheWay(owners, owners[i].file, owners[i].key, r.mode.Read?, r.offset, r.length)
    requires Covers(r, b) && ModeAt(owners[j].ranges, b) != Free
    ensures r.mode == Read && ModeAt(owners[j].ranges, b) == Locked(Read)
  {
    var k := HolderOf(owners[j].ranges, b);
    var q := owners[j].ranges[k];
    assert Wf(q);
    OverlapIsShared(q, r);
    assert owners[j].key != owners[i].key;
    assert !Clash(owners[j], q, owners[i].file, owners[i].key, r.mode.Read?, r.offset, r.length);
  }

  /** Any change to one owner that adds only bytes nobody is in the way of, in a mode
      nobody clashes with, keeps the table sound. */
  lemma ReplaceKeepsSound(owners: seq<OwnerState>, i: nat, os: OwnerState)
    requires Sound(owners) && i < |owners|
    requires os.sid == owners[i].sid && os.file == owners[i].file && os.key == owners[i].key
    requires AllWf(os.ranges) && Disjoint(os.ranges)
    requires forall j | 0 <= j < |owners| && j != i && owners[j].file == os.file ::
               Compatible(os.ranges, owners[j].ranges) && Compatible(owners[j].ranges, os.ranges)
    ensures Sound(owners[i := os])
  {
  }

  lemma GrantKeepsSound(owners: seq<OwnerState>, i: nat, r: Range)
    requires Sound(owners) && i < |owners| && Wf(r)
    requires !InTheWay(owners, owners[i].file, owners[i].key, r.mode.Read?, r.offset, r.length)
    ensures Sound(owners[i := Granted(owners[i], r)])
  {
    var os := Granted(owners[i], r);
    GrantedShape(owners[i], r);
    forall j | 0 <= j < |owners| && j != i && owners[j].file == os.file
      ensures Compatible(os.ranges, owners[j].ranges) && Compatible(owners[j].ranges, os.ranges)
    {
      assert Compatible(owners[i].ranges, owners[j].ranges) && Compatible(owners[j].ranges, owners[i].ranges);
      forall b ensures ModeAt(os.ranges, b) == Locked(Write) ==> ModeAt(owners[j].ranges, b) == Free
               ensures ModeAt(owners[j].ranges, b) == Locked(Write) ==> ModeAt(os.ranges, b) == Free {
        GrantedHolds(owners[i], r, b);
        if Covers(r, b) && ModeAt(owners[j].ranges, b) != Free {
          FreeOfOthers(owners, i, r, j, b);
        }
      }
    }
    ReplaceKeepsSound(owners, i, os);
  }

  lemma CarveKeepsSound(owners: seq<OwnerState>, i: nat, offset: nat, length: nat)
    requires Sound(owners) && i < |owners| && offset <= MAX && length >= 1
    ensures Sound(owners[i := Carved(owners[i], offset, length)])
  {
    var os := Carved(owners[i], offset, length);
    CarvedShape(owners[i].ranges, offset, End(offset, length));
    forall j | 0 <= j < |owners| && j != i && owners[j].file == os.file
      ensures Compatible(os.ranges, owners[j].ranges) && Compatible(owners[j].ranges, os.ranges)
    {
      assert Compatible(owners[i].ranges, owners[j].ranges) && Compatible(owners[j].ranges, owners[i].ranges);
      forall b ensures ModeAt(os.ranges, b) == Free || ModeAt(os.ranges, b) == ModeAt(owners[i].ranges, b) {
        CarvedHolds(owners[i], offset, length, b);
      }
    }
    ReplaceKeepsSound(owners, i, os);
  }

  lemma NewcomerKeepsSound(owners: seq<OwnerState>, os: OwnerState)
    requires Sound(owners) && os.ranges == []
    requires forall i | 0 <= i < |owners| ::
               owners[i].sid != os.sid && !(owners[i].file == os.file && owners[i].key == os.key)
    ensures Sound([os] + owners)
  {
    var owners' := [os] + owners;
    forall i, j | 0 <= i < |owners'| && 0 <= j < |owners'| && i != j && owners'[i].file == owners'[j].file
      ensures Compatible(owners'[i].ranges, owners'[j].ranges)
    {
      if i > 0 && j > 0 {
        assert Compatible(owners[i - 1].ranges, owners[j - 1].ranges);
      }
    }
  }

  lemma NewcomerHolds(owners: seq<OwnerState>, os: OwnerState, sid: nat, b: nat)
    requires os.ranges == []
    requires forall i | 0 <= i < |owners| :: owners[i].sid != os.sid
    ensures HeldBy([os] + owners, sid, b) == HeldBy(owners, sid, b)
  {
    assert ([os] + owners)[1..] == owners;
    if sid == os.sid {
      NobodyHolds(owners, sid, b);
    }
  }

  lemma {:induction false} NobodyHolds(owners: seq<OwnerState>, sid: nat, b: nat)
    requires forall i | 0 <= i < |owners| :: owners[i].sid != sid
    ensures HeldBy(owners, sid, b) == Free
  {
    if owners != [] {
      NobodyHolds(owners[1..], sid, b);
    }
  }

  /** Somebody is in the way exactly when another owner of the file holds one of the bytes: any
      byte it holds stops a writer, and a byte it writes stops a reader. */
  lemma InTheWayIff(owners: seq<OwnerState>, file: nat, key: OwnerKey, read: bool, offset: nat, length: nat)
    requires AllGood(owners) && offset <= MAX && 1 <= length <= MAX
    ensures InTheWay(owners, file, key, read, offset, length) <==>
              exists i: nat, b: nat :: HeldByOther(owners, i, file, key, read, b) && offset <= b < End(offset, length)
  {
    var r := Range(offset, length, if read then Read else Write);
    if InTheWay(owners, file, key, read, offset, length) {
      var i, j :| 0 <= i < |owners| && 0 <= j < |owners[i].ranges|
                && Clash(owners[i], owners[i].ranges[j], file, key, read, offset, length);
      var q := owners[i].ranges[j];
      OverlapIsShared(q, r);
      var b :| Covers(q, b) && Covers(r, b);
      RangeHolds(owners[i].ranges, j, b);
      assert q.mode == Read || q.mode == Write;
      assert HeldByOther(owners, i, file, key, read, b);
    }
    if i: nat, b: nat :| HeldByOther(owners, i, file, key, read, b) && offset <= b < End(offset, length) {
      var j := HolderOf(owners[i].ranges, b);
      OverlapIsShared(owners[i].ranges[j], r);
      assert Clash(owners[i], owners[i].ranges[j], file, key, read, offset, length);
    }
  }

  ghost predicate HeldByOther(owners: seq<OwnerState>, i: nat, file: nat, key: OwnerKey, read: bool, b: nat) {
    && i < |owners| && owners[i].file == file && owners[i].key != key
    && (ModeAt(owners[i].ranges, b) == Locked(Write) || (!read && ModeAt(owners[i].ranges, b) == Locked(Read)))
  }

  // ---------------------------------------------------------------------------
  // The lock table
  // ---------------------------------------------------------------------------

  /** From `was` to `now`, the bytes [lo, hi) of one stateid became `held` and nothing else
      changed. */
  ghost predicate Became(was: seq<OwnerState>, now: seq<OwnerState>, sid: nat, lo: nat, hi: nat, held: Held) {
    forall s: nat, b: nat :: HeldBy(now, s, b) == if s == sid && lo <= b < hi then held else HeldBy(was, s, b)
  }

  ghost predicate SameHeld(was: seq<OwnerState>, now: seq<OwnerState>) {
    forall s: nat, b: nat :: HeldBy(now, s, b) == HeldBy(was, s, b)
  }

  lemma GrantBecame(owners: seq<OwnerState>, i: nat, r: Range)
    requires Sound(owners) && i < |owners| && Wf(r)
    ensures Became(owners, owners[i := Granted(owners[i], r)], owners[i].sid, r.offset, End(r.offset, r.length),
              Locked(r.mode))
  {
    var os := owners[i];
    var now := owners[i := Granted(os, r)];
    forall s: nat, b: nat
      ensures HeldBy(now, s, b) ==
                if s == os.sid && r.offset <= b < End(r.offset, r.length) then Locked(r.mode) else HeldBy(owners, s, b)
    {
      GrantedHolds(os, r, b);
      HeldByUpdate(owners, i, Granted(os, r), s, b);
      HeldByAt(owners, i, b);
    }
  }

  lemma CarveBecame(owners: seq<OwnerState>, i: nat, offset: nat, length: nat)
    requires Sound(owners) && i < |owners| && offset <= MAX && length >= 1
    ensures Became(owners, owners[i := Carved(owners[i], offset, length)], owners[i].sid, offset,
              End(offset, length), Free)
  {
    var os := owners[i];
    var now := owners[i := Carved(os, offset, length)];
    forall s: nat, b: nat
      ensures HeldBy(now, s, b) ==
                if s == os.sid && offset <= b < End(offset, length) then Free else HeldBy(owners, s, b)
    {
      CarvedHolds(os, offset, length, b);
      HeldByUpdate(owners, i, Carved(os, offset, length), s, b);
      HeldByAt(owners, i, b);
    }
  }

  lemma NewcomerSame(owners: seq<OwnerState>, os: OwnerState)
    requires os.ranges == [] && forall i | 0 <= i < |owners| :: owners[i].sid != os.sid
    ensures SameHeld(owners, [os] + owners)
  {
    forall s: nat, b: nat ensures HeldBy([os] + owners, s, b) == HeldBy(owners, s, b) {
      NewcomerHolds(owners, os, s, b);
    }
  }

  lemma DropSame(owners: seq<OwnerState>, i: nat)
    requires i < |owners| && owners[i].ranges == [] && Distinct(owners)
    ensures SameHeld(owners, owners[..i] + owners[i + 1..])
  {
    forall s: nat, b: nat ensures HeldBy(owners[..i] + owners[i + 1..], s, b) == HeldBy(owners, s, b) {
      DropEmptyHolds(owners, i, s, b);
    }
  }

  lemma BecameAfter(was: seq<OwnerState>, mid: seq<OwnerState>, now: seq<OwnerState>, sid: nat, lo: nat, hi: nat,
      held: Held)
    requires SameHeld(was, mid) && Became(mid, now, sid, lo, hi, held)
    ensures Became(was, now, sid, lo, hi, held)
  {
  }

  /** Seqid 0 stands for "the current one". */
  function SeqidCheck(current: nat, presented: nat): Status {
    if presented == 0 || presented == current then Ok
    else if presented < current then OldStateid
    else BadStateid
  }

  ghost predicate HasSid(owners: seq<OwnerState>, sid: nat) {
    exists i :: 0 <= i < |owners| && owners[i].sid == sid
  }

  /** The reported conflict is a real one. */
  ghost predicate Names(owners: seq<OwnerState>, c: Conflict, file: nat, key: OwnerKey, read: bool, offset: nat,
      length: nat) {
    exists i, j :: 0 <= i < |owners| && 0 <= j < |owners[i].ranges|
                && Clash(owners[i], owners[i].ranges[j], file, key, read, offset, length)
                && c == Conflict(owners[i].ranges[j], owners[i].key)
  }

  /** The stateid belongs to the locker the request named. */
  ghost predicate Answers(owners: seq<OwnerState>, sid: nat, file: nat, who: Locker) {
    exists i :: 0 <= i < |owners| && owners[i].sid == sid && owners[i].file == file
             && match who
                case NewOwner(key) => owners[i].key == Clip(key)
                case Existing(presented, _) => sid == presented
  }

  /** The state a stateid names. */
  ghost function LookUp(owners: seq<OwnerState>, sid: nat): Option<OwnerState> {
    if owners == [] then None
    else if owners[0].sid == sid then Some(owners[0])
    else LookUp(owners[1..], sid)
  }

  ghost function SeqidOf(owners: seq<OwnerState>, sid: nat): nat {
    match LookUp(owners, sid)
    case None => 0
    case Some(os) => os.seqid
  }

  /** The one stateid moved on by one seqid; every other state is untouched. */
  ghost predicate Bumped(was: seq<OwnerState>, now: seq<OwnerState>, sid: nat) {
    && (forall s: nat | s != sid :: LookUp(now, s) == LookUp(was, s))
    && SeqidOf(now, sid) == (SeqidOf(was, sid) + 1) % SEQID_WRAP
  }

  lemma {:induction false} LookUpUpdate(owners: seq<OwnerState>, i: nat, os: OwnerState, sid: nat)
    requires i < |owners| && os.sid == owners[i].sid
    requires forall j | 0 <= j < i :: owners[j].sid != os.sid
    ensures LookUp(owners[i := os], sid) == if sid == os.sid then Some(os) else LookUp(owners, sid)
    ensures sid == os.sid ==> LookUp(owners, sid) == Some(owners[i])
  {
    if i > 0 {
      assert owners[i := os][1..] == owners[1..][i - 1 := os];
      LookUpUpdate(owners[1..], i - 1, os, sid);
    } else {
      assert owners[0 := os][1..] == owners[1..];
    }
  }

  lemma UpdateBumps(owners: seq<OwnerState>, i: nat, os: OwnerState)
    requires i < |owners| && os.sid == owners[i].sid && Distinct(owners)
    requires os.seqid == (owners[i].seqid + 1) % SEQID_WRAP
    ensures Bumped(owners, owners[i := os], os.sid)
  {
    forall sid: nat
      ensures LookUp(owners[i := os], sid) == if sid == os.sid then Some(os) else LookUp(owners, sid)
      ensures sid == os.sid ==> LookUp(owners, sid) == Some(owners[i])
    {
      LookUpUpdate(owners, i, os, sid);
    }
  }

  /** A newcomer starts at seqid 0, which is what an unknown stateid counts as. */
  lemma NewcomerBumps(owners: seq<OwnerState>, os: OwnerState, now: seq<OwnerState>)
    requires os.seqid == 0 && forall i | 0 <= i < |owners| :: owners[i].sid != os.sid
    requires Bumped([os] + owners, now, os.sid)
    ensures Bumped(owners, now, os.sid)
  {
    assert ([os] + owners)[1..] == owners;
    NotThere(owners, os.sid);
  }

  lemma {:induction false} NotThere(owners: seq<OwnerState>, sid: nat)
    requires forall i | 0 <= i < |owners| :: owners[i].sid != sid
    ensures LookUp(owners, sid) == None
  {
    if owners != [] {
      NotThere(owners[1..], sid);
    }
  }

  /** What a LOCK that names a stateid is answered. */
  ghost function ExistingAnswer(owners: seq<OwnerState>, i: nat, file: nat, seqid: nat, read: bool, offset: nat,
      length: nat): Status
    requires i < |owners|
  {
    if owners[i].file != file then BadStateid
    else if SeqidCheck(owners[i].seqid, seqid) != Ok then SeqidCheck(owners[i].seqid, seqid)
    else if InTheWay(owners, file, owners[i].key, read, offset, length) then Denied
    else Ok
  }

  class LockTable {
    var owners: seq<OwnerState>
    var nextSid: nat

    ghost predicate Valid()
      reads this
    {
      Sound(owners) && forall i | 0 <= i < |owners| :: owners[i].sid < nextSid
    }

    constructor (seed: nat)
      ensures Valid() && owners == []
    {
      owners, nextSid := [], seed;
    }

    method FindSid(sid: nat) returns (i: nat)
      ensures i <= |owners|
      ensures i < |owners| ==> owners[i].sid == sid
      ensures forall j | 0 <= j < i :: owners[j].sid != sid
    {
      i := 0;
      while i < |owners| && owners[i].sid != sid
        invariant i <= |owners|
        invariant forall j | 0 <= j < i :: owners[j].sid != sid
      {
        i := i + 1;
      }
    }

    method FindOwner(file: nat, key: OwnerKey) returns (i: nat)
      ensures i <= |owners|
      ensures i < |owners| ==> owners[i].file == file && owners[i].key == key
      ensures i == |owners| ==> forall j | 0 <= j < i :: !(owners[j].file == file && owners[j].key == key)
    {
      i := 0;
      while i < |owners| && !(owners[i].file == file && owners[i].key == key)
        invariant i <= |owners|
        invariant forall j | 0 <= j < i :: !(owners[j].file == file && owners[j].key == key)
      {
        i := i + 1;
      }
    }

    /** The first range of another owner in the way, if any. */
    method ScanConflict(file: nat, key: OwnerKey, read: bool, offset: nat, length: nat) returns (c: Option<Conflict>)
      ensures c.Some? <==> InTheWay(owners, file, key, read, offset, length)
      ensures c.Some? ==> Names(owners, c.value, file, key, read, offset, length)
    {
      var i := 0;
      while i < |owners|
        invariant i <= |owners|
        invariant forall i', j | 0 <= i' < i && 0 <= j < |owners[i'].ranges| ::
                    !Clash(owners[i'], owners[i'].ranges[j], file, key, read, offset, length)
      {
        var os := owners[i];
        if os.file == file && os.key != key {
          var j := 0;
          while j < |os.ranges|
            invariant j <= |os.ranges|
            invariant forall j' | 0 <= j' < j :: !Clash(os, os.ranges[j'], file, key, read, offset, length)
          {
            var q := os.ranges[j];
            if Overlap(q.offset, q.length, offset, length) && !(q.mode.Read? && read) {
              assert Clash(owners[i], owners[i].ranges[j], file, key, read, offset, length);
              return Some(Conflict(q, os.key));
            }
            j := j + 1;
          }
        }
        i := i + 1;
      }
      return None;
    }

    /** LOCK.  On success exactly the requested bytes of the granted stateid change, to the mode
        of the lock type; it is denied exactly when another owner of the file holds one of them
        in a mode that does not go with it. */
    method Acquire(file: nat, ty: LockType, offset: nat, length: nat, who: Locker)
      returns (st: Status, sid: nat, conflict: Option<Conflict>)
      requires Valid() && offset <= MAX && length <= MAX
      modifies this
      ensures Valid()
      ensures st != Ok ==> owners == old(owners)
      ensures st == Ok ==> Answers(owners, sid, file, who)
      ensures st == Ok ==> SeqidOf(owners, sid) == (SeqidOf(old(owners), sid) + 1) % 0x1_0000_0000
      ensures st == Ok ==> forall s: nat | s != sid :: LookUp(owners, s) == LookUp(old(owners), s)
      ensures st == Ok && (ty.WriteLt? || ty.WritewLt?) ==> forall s: nat, b: nat ::
                HeldBy(owners, s, b) ==
                  if s == sid && Asked(offset, length, b) then Locked(Write) else HeldBy(old(owners), s, b)
      ensures st == Ok && (ty.ReadLt? || ty.ReadwLt?) ==> forall s: nat, b: nat ::
                HeldBy(owners, s, b) ==
                  if s == sid && Asked(offset, length, b) then Locked(Read) else HeldBy(old(owners), s, b)
      ensures st == Inval <==> ty.OtherLt?
      // Denied by the bytes other owners of the file hold.
      ensures who.NewOwner? && !ty.OtherLt? ==>
                st in {Ok, Denied} && (st == Denied <==> Barred(old(owners), file, Clip(who.key), ty, offset, length))
      ensures who.Existing? && st in {Ok, Denied} ==>
                forall i | 0 <= i < |old(owners)| && old(owners)[i].sid == who.sid ::
                  st == Denied <==> Barred(old(owners), file, old(owners)[i].key, ty, offset, length)
      // And the range it reports is one of those in the way.
      ensures st == Denied <==> conflict.Some?
      ensures who.NewOwner? && st == Denied ==>
                Names(old(owners), conflict.value, file, Clip(who.key), Reads(ty), offset, Length(length))
      ensures who.Existing? && st == Denied ==>
                forall i | 0 <= i < |old(owners)| && old(owners)[i].sid == who.sid ::
                  Names(old(owners), conflict.value, file, old(owners)[i].key, Reads(ty), offset, Length(length))
      // A named stateid must be known, of this file, and presented with its current seqid or none.
      ensures who.Existing? && !HasSid(old(owners), who.sid) && !ty.OtherLt? ==> st == BadStateid
      ensures who.Existing? && !ty.OtherLt? ==>
                forall i | 0 <= i < |old(owners)| && old(owners)[i].sid == who.sid ::
                  && (st in {Ok, Denied} <==> old(owners)[i].file == file && who.seqid in {0, old(owners)[i].seqid})
                  && (st == OldStateid <==> old(owners)[i].file == file && 0 < who.seqid < old(owners)[i].seqid)
                  && (st == BadStateid <==> old(owners)[i].file != file || who.seqid > old(owners)[i].seqid)
    {
      st, sid, conflict := Lock(file, ty, offset, length, who);
      if st == Ok {
        LockedBytes(old(owners), owners, sid, ty, offset, length);
      }
      if !ty.OtherLt? {
        if who.NewOwner? {
          BarredIff(old(owners), file, Clip(who.key), ty, offset, length);
        } else {
          forall i | 0 <= i < |old(owners)| && old(owners)[i].sid == who.sid
            ensures InTheWay(old(owners), file, old(owners)[i].key, Reads(ty), offset, Length(length)) <==>
                      Barred(old(owners), file, old(owners)[i].key, ty, offset, length)
          {
            BarredIff(old(owners), file, old(owners)[i].key, ty, offset, length);
          }
        }
      }
    }

    /** One pass through the table. */
    method Lock(file: nat, ty: LockType, offset: nat, length: nat, who: Locker)
      returns (st: Status, sid: nat, conflict: Option<Conflict>)
      requires Valid() && offset <= MAX && length <= MAX
      modifies this
      ensures Valid()
      ensures st != Ok ==> owners == old(owners)
      ensures st == Ok ==> Answers(owners, sid, file, who)
      ensures st == Ok ==> Became(old(owners), owners, sid, offset, End(offset, Length(length)), Locked(ModeOf(ty)))
      ensures st == Denied <==> conflict.Some?
      ensures st == Ok ==> Bumped(old(owners), owners, sid)
      ensures who.NewOwner? && !ty.OtherLt? ==>
                (st == Denied <==> InTheWay(old(owners), file, Clip(who.key), Reads(ty), offset, Length(length)))
                && st in {Ok, Denied}
      ensures who.NewOwner? && st == Denied ==>
                Names(old(owners), conflict.value, file, Clip(who.key), Reads(ty), offset, Length(length))
      ensures who.Existing? && st == Denied ==>
                forall i | 0 <= i < |old(owners)| && old(owners)[i].sid == who.sid ::
                  Names(old(owners), conflict.value, file, old(owners)[i].key, Reads(ty), offset, Length(length))
      ensures who.Existing? && !HasSid(old(owners), who.sid) && !ty.OtherLt? ==> st == BadStateid
      ensures who.Existing? && !ty.OtherLt? ==>
                forall i | 0 <= i < |old(owners)| && old(owners)[i].sid == who.sid ::
                  st == ExistingAnswer(old(owners), i, file, who.seqid, Reads(ty), offset, Length(length))
      ensures st == Inval <==> ty.OtherLt?
    {
      conflict, sid := None, 0;
      var mode := ModeOf(ty);
      var len := Length(length);
      if ty.OtherLt? {
        return Inval, 0, None;
      }
      var i: nat;
      var key: OwnerKey;
      match who {
        case NewOwner(k) =>
          key := Clip(k);
          i := FindOwner(file, key);
        case Existing(presented, seqid) =>
          i := FindSid(presented);
          if i == |owners| || owners[i].file != file {
            return BadStateid, 0, None;
          }
          var sq := SeqidCheck(owners[i].seqid, seqid);
          if sq != Ok {
            return sq, 0, None;
          }
          key := owners[i].key;
      }
      conflict := ScanConflict(file, key, mode.Read?, offset, len);
      if conflict.Some? {
        return Denied, 0, conflict;
      }
      if i == |owners| {
        AddOwner(file, key);
        NewcomerInNobodysWay(old(owners), owners[0], file, key, mode.Read?, offset, len);
        i := 0;
      }
      sid := owners[i].sid;
      ghost var mid := owners;
      Grant(i, Range(offset, len, mode));
      BecameAfter(old(owners), mid, owners, sid, offset, End(offset, len), Locked(mode));
      if mid != old(owners) {
        NewcomerBumps(old(owners), mid[0], owners);
      }
      assert owners[i].sid == sid;
      st := Ok;
    }

    /** A new owner state, at the head of the chain, holding nothing. */
    method AddOwner(file: nat, key: OwnerKey)
      requires Valid() && forall j | 0 <= j < |owners| :: !(owners[j].file == file && owners[j].key == key)
      modifies this
      ensures Valid() && owners == [OwnerState(file, key, old(nextSid), 0, [])] + old(owners)
      ensures SameHeld(old(owners), owners)
    {
      var os := OwnerState(file, key, nextSid, 0, []);
      NewcomerKeepsSound(owners, os);
      NewcomerSame(owners, os);
      owners := [os] + owners;
      nextSid := nextSid + 1;
    }

    method Grant(i: nat, r: Range)
      requires Valid() && i < |owners| && Wf(r)
      requires !InTheWay(owners, owners[i].file, owners[i].key, r.mode.Read?, r.offset, r.length)
      modifies this`owners
      ensures Valid() && owners == old(owners)[i := Granted(old(owners)[i], r)]
      ensures Bumped(old(owners), owners, old(owners)[i].sid)
      ensures Became(old(owners), owners, old(owners)[i].sid, r.offset, End(r.offset, r.length), Locked(r.mode))
    {
      GrantKeepsSound(owners, i, r);
      GrantBecame(owners, i, r);
      var os := Splice(owners[i], r);
      UpdateBumps(owners, i, os);
      owners := owners[i := os];
    }

    /** LOCKT: would this owner be refused? */
    method Test(file: nat, ty: LockType, offset: nat, length: nat, key: OwnerKey)
      returns (st: Status, conflict: Option<Conflict>)
      requires Valid()
      ensures st == Denied <==> InTheWay(owners, file, Clip(key), Reads(ty), offset, Length(length))
      ensures st in {Ok, Denied} && (st == Denied <==> conflict.Some?)
      ensures st == Denied ==> Names(owners, conflict.value, file, Clip(key), Reads(ty), offset, Length(length))
      // By the bytes other owners of the file hold.
      ensures offset <= MAX && length <= MAX && !ty.OtherLt? ==>
                (st == Denied <==> Barred(owners, file, Clip(key), ty, offset, length))
    {
      if offset <= MAX && length <= MAX && !ty.OtherLt? {
        BarredIff(owners, file, Clip(key), ty, offset, length);
      }
      conflict := ScanConflict(file, Clip(key), Reads(ty), offset, Length(length));
      st := if conflict.Some? then Denied else Ok;
    }

    /** LOCKU: exactly the named bytes of the stateid are freed, holes included. */
    method Release(sid: nat, seqid: nat, offset: nat, length: nat) returns (st: Status)
      requires Valid() && offset <= MAX && length <= MAX
      modifies this`owners
      ensures Valid()
      ensures st != Ok ==> owners == old(owners)
      ensures !HasSid(old(owners), sid) ==> st == BadStateid
      ensures forall i | 0 <= i < |old(owners)| && old(owners)[i].sid == sid ::
                st == SeqidCheck(old(owners)[i].seqid, seqid)
      ensures forall i | 0 <= i < |old(owners)| && old(owners)[i].sid == sid ::
                && (st == Ok <==> seqid in {0, old(owners)[i].seqid})
                && (st == OldStateid <==> 0 < seqid < old(owners)[i].seqid)
      ensures st in {Ok, BadStateid, OldStateid}
      ensures st == Ok ==> forall s: nat, b: nat ::
                HeldBy(owners, s, b) == if s == sid && Asked(offset, length, b) then Free else HeldBy(old(owners), s, b)
      ensures st == Ok ==> SeqidOf(owners, sid) == (SeqidOf(old(owners), sid) + 1) % 0x1_0000_0000
      ensures st == Ok ==> forall s: nat | s != sid :: LookUp(owners, s) == LookUp(old(owners), s)
    {
      var i := FindSid(sid);
      if i == |owners| {
        return BadStateid;
      }
      var os := owners[i];
      var sq := SeqidCheck(os.seqid, seqid);
      if sq != Ok {
        return sq;
      }
      var len := Length(length);
      CarveKeepsSound(owners, i, offset, len);
      CarveBecame(owners, i, offset, len);
      var left := Carve(os.ranges, offset, End(offset, len));
      os := os.(ranges := left, seqid := (os.seqid + 1) % SEQID_WRAP);
      UpdateBumps(owners, i, os);
      FreedBytes(owners, owners[i := os], sid, offset, length);
      owners := owners[i := os];
      return Ok;
    }

    /** FREE_STATEID: refused exactly while the state still lists ranges. */
    method FreeStateid(sid: nat) returns (st: Status)
      requires Valid()
      modifies this`owners
      ensures Valid()
      ensures st == BadStateid <==> !HasSid(old(owners), sid)
      ensures st != Ok ==> owners == old(owners)
      ensures st == Ok ==> !HasSid(owners, sid) && forall s: nat | s != sid ::
                LookUp(owners, s) == LookUp(old(owners), s)
      ensures SameHeld(old(owners), owners)
      ensures forall i | 0 <= i < |old(owners)| && old(owners)[i].sid == sid ::
                st == if old(owners)[i].ranges == [] then Ok else LocksHeld
    {
      var i := FindSid(sid);
      if i == |owners| {
        return BadStateid;
      }
      if owners[i].ranges != [] {
        return LocksHeld;
      }
      DropSame(owners, i);
      DropLookUp(owners, i);
      DropKeepsSound(owners, i);
      owners := owners[..i] + owners[i + 1..];
      return Ok;
    }

    /** Client expiry: every state of the client is unlinked. */
    method ReleaseClient(client: nat)
      requires Valid()
      modifies this`owners
      ensures Valid()
      ensures forall os :: os in owners <==> os in old(owners) && os.key.client != client
    {
      OthersSound(owners, client);
      OthersMembers(owners, client);
      owners := Unlink(owners, client);
    }
  }

  /** Another owner of the file holds the byte. */
  ghost predicate OtherHolds(owners: seq<OwnerState>, file: nat, me: OwnerKey, b: nat) {
    exists i :: 0 <= i < |owners| && owners[i].file == file && owners[i].key != me
             && ModeAt(owners[i].ranges, b) != Free
  }

  /** Another owner of the file holds the byte for writing. */
  ghost predicate OtherWrites(owners: seq<OwnerState>, file: nat, me: OwnerKey, b: nat) {
    exists i :: 0 <= i < |owners| && owners[i].file == file && owners[i].key != me
             && ModeAt(owners[i].ranges, b) == Locked(Write)
  }

  /** What a lock of this type runs into: for writing any held byte, for reading a written one. */
  ghost predicate Barred(owners: seq<OwnerState>, file: nat, me: OwnerKey, ty: LockType, offset: nat, length: nat) {
    exists b: nat :: Asked(offset, length, b) &&
      match ty
      case WriteLt => OtherHolds(owners, file, me, b)
      case WritewLt => OtherHolds(owners, file, me, b)
      case ReadLt => OtherWrites(owners, file, me, b)
      case ReadwLt => OtherWrites(owners, file, me, b)
      case OtherLt => false
  }

  lemma BarredIff(owners: seq<OwnerState>, file: nat, me: OwnerKey, ty: LockType, offset: nat, length: nat)
    requires AllGood(owners) && offset <= MAX && length <= MAX && !ty.OtherLt?
    ensures InTheWay(owners, file, me, Reads(ty), offset, Length(length)) <==>
              Barred(owners, file, me, ty, offset, length)
  {
    InTheWayIff(owners, file, me, Reads(ty), offset, Length(length));
    if InTheWay(owners, file, me, Reads(ty), offset, Length(length)) {
      var i: nat, b: nat :| HeldByOther(owners, i, file, me, Reads(ty), b)
                         && offset <= b < End(offset, Length(length));
      AskedIsSpan(offset, length, b);
      HeldIsHeld(owners, i, file, me, Reads(ty), b);
    }
    if b: nat :| Asked(offset, length, b) && OtherHolds(owners, file, me, b) && (ty.WriteLt? || ty.WritewLt?) {
      AskedIsSpan(offset, length, b);
      var i :| 0 <= i < |owners| && owners[i].file == file && owners[i].key != me
            && ModeAt(owners[i].ranges, b) != Free;
      ModeIsOne(ModeAt(owners[i].ranges, b));
      assert HeldByOther(owners, i, file, me, Reads(ty), b);
    }
    if b: nat :| Asked(offset, length, b) && OtherWrites(owners, file, me, b) && (ty.ReadLt? || ty.ReadwLt?) {
      AskedIsSpan(offset, length, b);
      var i :| 0 <= i < |owners| && owners[i].file == file && owners[i].key != me
            && ModeAt(owners[i].ranges, b) == Locked(Write);
      assert HeldByOther(owners, i, file, me, Reads(ty), b);
    }
  }

  lemma ModeIsOne(h: Held)
    ensures h == Free || h == Locked(Read) || h == Locked(Write)
  {
    if h.Locked? {
      assert h.mode == Read || h.mode == Write;
    }
  }

  lemma HeldIsHeld(owners: seq<OwnerState>, i: nat, file: nat, me: OwnerKey, read: bool, b: nat)
    requires HeldByOther(owners, i, file, me, read, b)
    ensures read ==> OtherWrites(owners, file, me, b)
    ensures OtherHolds(owners, file, me, b)
  {
  }

  lemma LockedBytes(was: seq<OwnerState>, now: seq<OwnerState>, sid: nat, ty: LockType, offset: nat, length: nat)
    requires offset <= MAX && length <= MAX && !ty.OtherLt?
    requires Became(was, now, sid, offset, End(offset, Length(length)), Locked(ModeOf(ty)))
    ensures ty.WriteLt? || ty.WritewLt? ==> forall s: nat, b: nat ::
              HeldBy(now, s, b) == if s == sid && Asked(offset, length, b) then Locked(Write) else HeldBy(was, s, b)
    ensures ty.ReadLt? || ty.ReadwLt? ==> forall s: nat, b: nat ::
              HeldBy(now, s, b) == if s == sid && Asked(offset, length, b) then Locked(Read) else HeldBy(was, s, b)
  {
    forall s: nat, b: nat
      ensures HeldBy(now, s, b) ==
                if s == sid && Asked(offset, length, b) then Locked(ModeOf(ty)) else HeldBy(was, s, b)
    {
      AskedIsSpan(offset, length, b);
    }
  }

  lemma FreedBytes(was: seq<OwnerState>, now: seq<OwnerState>, sid: nat, offset: nat, length: nat)
    requires offset <= MAX && length <= MAX && Became(was, now, sid, offset, End(offset, Length(length)), Free)
    ensures forall s: nat, b: nat ::
              HeldBy(now, s, b) == if s == sid && Asked(offset, length, b) then Free else HeldBy(was, s, b)
  {
    forall s: nat, b: nat
      ensures HeldBy(now, s, b) == if s == sid && Asked(offset, length, b) then Free else HeldBy(was, s, b)
    {
      AskedIsSpan(offset, length, b);
    }
  }

  ghost function OthersOf(owners: seq<OwnerState>, client: nat): seq<OwnerState> {
    if owners == [] then []
    else (if owners[0].key.client == client then [] else [owners[0]]) + OthersOf(owners[1..], client)
  }

  /** The owner's list with the new range carved in. */
  method Splice(os: OwnerState, r: Range) returns (os': OwnerState)
    requires AllWf(os.ranges) && Disjoint(os.ranges) && r.offset <= MAX && r.length >= 1
    ensures os' == Granted(os, r)
  {
    var left := Carve(os.ranges, r.offset, End(r.offset, r.length));
    os' := os.(ranges := [r] + left, seqid := (os.seqid + 1) % SEQID_WRAP);
  }

  /** One walk over the chain. */
  method Unlink(owners: seq<OwnerState>, client: nat) returns (done: seq<OwnerState>)
    ensures done == OthersOf(owners, client)
  {
    done := [];
    var rest := owners;
    while rest != []
      invariant OthersOf(owners, client) == done + OthersOf(rest, client)
      decreases |rest|
    {
      var piece := if rest[0].key.client == client then [] else [rest[0]];
      assert done + (piece + OthersOf(rest[1..], client)) == (done + piece) + OthersOf(rest[1..], client);
      done := done + piece;
      rest := rest[1..];
    }
  }

  lemma {:induction false} OthersMembers(owners: seq<OwnerState>, client: nat)
    ensures forall os :: os in OthersOf(owners, client) <==> os in owners && os.key.client != client
  {
    if owners != [] {
      OthersMembers(owners[1..], client);
      assert owners == [owners[0]] + owners[1..];
    }
  }

  lemma SuffixSound(owners: seq<OwnerState>)
    requires Sound(owners) && owners != []
    ensures Sound(owners[1..])
  {
    DropKeepsSound(owners, 0);
    assert owners[..0] + owners[1..] == owners[1..];
  }

  /** Dropping a client keeps the table sound. */
  lemma {:induction false} OthersSound(owners: seq<OwnerState>, client: nat)
    requires Sound(owners)
    ensures Sound(OthersOf(owners, client))
  {
    if owners != [] {
      SuffixSound(owners);
      OthersSound(owners[1..], client);
      OthersMembers(owners[1..], client);
      if owners[0].key.client != client {
        PutBack(owners, OthersOf(owners[1..], client));
      } else {
        assert OthersOf(owners, client) == OthersOf(owners[1..], client);
      }
    }
  }

  /** How the first owner of a sound chain relates to any other one. */
  ghost predicate Fits(a: OwnerState, c: OwnerState) {
    && a.sid != c.sid && !(a.file == c.file && a.key == c.key)
    && (a.file == c.file ==> Compatible(a.ranges, c.ranges) && Compatible(c.ranges, a.ranges))
  }

  lemma FirstFits(owners: seq<OwnerState>, c: OwnerState)
    requires Sound(owners) && owners != [] && c in owners[1..]
    ensures Fits(owners[0], c)
  {
    var k :| 0 <= k < |owners[1..]| && owners[1..][k] == c;
    assert owners[k + 1] == c;
  }

  lemma PutBack(owners: seq<OwnerState>, kept: seq<OwnerState>)
    requires Sound(owners) && owners != [] && Sound(kept)
    requires forall c | c in kept :: c in owners[1..]
    ensures Sound([owners[0]] + kept)
  {
    var first := owners[0];
    assert AllWf(first.ranges) && Disjoint(first.ranges);
    forall j | 0 <= j < |kept| ensures Fits(first, kept[j]) {
      FirstFits(owners, kept[j]);
    }
    Prepend(first, kept);
  }

  lemma Prepend(first: OwnerState, kept: seq<OwnerState>)
    requires Sound(kept) && AllWf(first.ranges) && Disjoint(first.ranges)
    requires forall j | 0 <= j < |kept| :: Fits(first, kept[j])
    ensures Sound([first] + kept)
  {
    var all := [first] + kept;
    assert forall j | 0 < j < |all| :: all[j] == kept[j - 1];
  }

  // ---------------------------------------------------------------------------
  // The last byte
  // ---------------------------------------------------------------------------

  /** Two owners of a file never both mean a byte in clashing modes, unless it is the very
      last one, which the table cannot express. */
  lemma ClashOnlyAtLastByte(owners: seq<OwnerState>, i: nat, j: nat, k: nat, l: nat, b: nat)
    requires Sound(owners) && i < |owners| && j < |owners| && i != j && owners[i].file == owners[j].file
    requires k < |owners[i].ranges| && l < |owners[j].ranges|
    requires owners[i].ranges[k].mode == Write
    requires Meant(owners[i].ranges[k].offset, owners[i].ranges[k].length, b)
    requires Meant(owners[j].ranges[l].offset, owners[j].ranges[l].length, b)
    ensures b == MAX
  {
    assert Compatible(owners[i].ranges, owners[j].ranges);
    if b < MAX {
      RangeHolds(owners[i].ranges, k, b);
      RangeHolds(owners[j].ranges, l, b);
    }
  }

  lemma {:induction false} RangeHolds(rs: seq<Range>, k: nat, b: nat)
    requires AllWf(rs) && Disjoint(rs) && k < |rs| && Covers(rs[k], b)
    ensures ModeAt(rs, b) == Locked(rs[k].mode)
  {
    if k > 0 {
      assert rs[1..][k - 1] == rs[k];
      RangeHolds(rs[1..], k - 1, b);
    }
  }

  /** And there it does happen: a write lock on the last byte stops nobody. */
  lemma LastByteShared(file: nat, k1: OwnerKey, k2: OwnerKey)
    requires k1 != k2
    ensures var r := Range(MAX, 1, Write);
      var owners := [OwnerState(file, k1, 1, 1, [r]), OwnerState(file, k2, 2, 1, [r])];
      && Meant(r.offset, r.length, MAX)
      && !InTheWay(owners[..1], file, k2, false, MAX, 1)
      && Sound(owners)
  {
    var r := Range(MAX, 1, Write);
    SmallLists(r, r, 0);
    forall b: nat ensures ModeAt([r], b) == Free {
      SmallLists(r, r, b);
    }
  }

  /** Unlocking the whole file empties the list, so that FREE_STATEID succeeds, exactly
      when the owner locked nothing that starts at the last byte. */
  lemma {:induction false} UnlockAllIff(rs: seq<Range>)
    requires AllWf(rs)
    ensures CarveAll(rs, 0, MAX) == [] <==> forall r | r in rs :: r.offset < MAX
  {
    if rs != [] {
      UnlockAllIff(rs[1..]);
      assert rs == [rs[0]] + rs[1..];
      assert Wf(rs[0]);
      assert CarveOne(rs[0], 0, MAX) == [] <==> rs[0].offset < MAX;
    }
  }

  function ModeOf(ty: LockType): Mode {
    if Reads(ty) then Read else Write
  }

  predicate Reads(ty: LockType) {
    ty.ReadLt? || ty.ReadwLt?
  }

  lemma NewcomerInNobodysWay(owners: seq<OwnerState>, os: OwnerState,
                             file: nat, key: OwnerKey, read: bool, offset: nat, length: nat)
    requires os.ranges == []
    ensures InTheWay([os] + owners, file, key, read, offset, length) <==>
              InTheWay(owners, file, key, read, offset, length)
  {
    var owners' := [os] + owners;
    if InTheWay(owners, file, key, read, offset, length) {
      var i, j :| 0 <= i < |owners| && 0 <= j < |owners[i].ranges|
                && Clash(owners[i], owners[i].ranges[j], file, key, read, offset, length);
      assert owners'[i + 1] == owners[i];
    }
    if InTheWay(owners', file, key, read, offset, length) {
      var i, j :| 0 <= i < |owners'| && 0 <= j < |owners'[i].ranges|
                && Clash(owners'[i], owners'[i].ranges[j], file, key, read, offset, length);
      assert owners'[i] == owners[i - 1];
    }
  }

  lemma {:induction false} DropEmptyHolds(owners: seq<OwnerState>, i: nat, sid: nat, b: nat)
    requires i < |owners| && owners[i].ranges == [] && Distinct(owners)
    ensures HeldBy(owners[..i] + owners[i + 1..], sid, b) == HeldBy(owners, sid, b)
  {
    var owners' := owners[..i] + owners[i + 1..];
    if i == 0 {
      assert owners' == owners[1..];
      if owners[0].sid == sid {
        NobodyHolds(owners[1..], sid, b);
      }
    } else {
      assert owners'[1..] == owners[1..][..i - 1] + owners[1..][i..];
      DropEmptyHolds(owners[1..], i - 1, sid, b);
    }
  }

  lemma {:induction false} DropLookUp(owners: seq<OwnerState>, i: nat)
    requires i < |owners| && Distinct(owners)
    ensures forall s: nat | s != owners[i].sid :: LookUp(owners[..i] + owners[i + 1..], s) == LookUp(owners, s)
  {
    var owners' := owners[..i] + owners[i + 1..];
    if i == 0 {
      assert owners' == owners[1..];
    } else {
      assert owners'[1..] == owners[1..][..i - 1] + owners[1..][i..];
      DropLookUp(owners[1..], i - 1);
    }
  }

  lemma DropKeepsSound(owners: seq<OwnerState>, i: nat)
    requires Sound(owners) && i < |owners|
    ensures Sound(owners[..i] + owners[i + 1..])
  {
    var owners' := owners[..i] + owners[i + 1..];
    assert forall j | 0 <= j < |owners'| :: owners'[j] == owners[if j < i then j else j + 1];
  }
}
