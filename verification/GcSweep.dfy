/** Reclaiming a file's data-server objects: the sweep hint packed into a queue row, the
    list of data servers without repeats, and the three sweeps that act on a hint. */
module GcSweep {

  const MAX_STRIPES: nat := 1024
  const MAX_MIRRORS: nat := 4
  const FH_MAX: nat := 128
  const SLOT_FLAG: nat := 0x8000_0000
  const FIELD: nat := 0x800_0000
  const U32: nat := 0x1_0000_0000

  // ---------------------------------------------------------------------------
  // The hint: four bits of mirrors, then stripes, then the slot flag
  // ---------------------------------------------------------------------------

  datatype Hint = Legacy | Geometry(stripes: nat, mirrors: nat) | Slot(stripe: nat, mirror: nat)

  /** What fits the fields; a geometry of no stripes and no mirrors is no geometry. */
  predicate Encodable(h: Hint) {
    match h
    case Legacy => true
    case Geometry(sc, mc) => sc < FIELD && mc < 16 && (sc > 0 || mc > 0)
    case Slot(s, m) => s < FIELD && m < 16
  }

  function Encode(h: Hint): (w: nat)
    requires Encodable(h)
    ensures w < U32
  {
    match h
    case Legacy => 0
    case Geometry(sc, mc) => sc * 16 + mc
    case Slot(s, m) => SLOT_FLAG + s * 16 + m
  }

  function StripeField(w: nat): nat {
    w / 16 % FIELD
  }

  function MirrorField(w: nat): nat {
    w % 16
  }

  /** How the worker reads a hint. */
  function Decode(w: nat): Hint
    requires w < U32
  {
    if w >= SLOT_FLAG then Slot(StripeField(w), MirrorField(w))
    else if w != 0 then Geometry(StripeField(w), MirrorField(w))
    else Legacy
  }

  /** The three kinds of hint are told apart and decode to what was encoded. */
  lemma HintRoundTrip(h: Hint)
    requires Encodable(h)
    ensures Decode(Encode(h)) == h
  {
  }

  /** And every word means something: nothing is decoded from two words. */
  lemma HintUnique(w: nat)
    requires w < U32
    ensures Encodable(Decode(w)) && Encode(Decode(w)) == w
  {
  }

  // ---------------------------------------------------------------------------
  // Data servers without repeats
  // ---------------------------------------------------------------------------

  datatype Entry = Entry(ds: nat, fh: seq<nat>)

  datatype Ids = Listed(ids: seq<nat>) | Inval

  /** The data servers in the order in which each is first seen. */
  function FirstSeen(es: seq<Entry>): seq<nat> {
    if es == [] then []
    else
      var front, ds := FirstSeen(es[..|es| - 1]), es[|es| - 1].ds;
      if ds in front then front else front + [ds]
  }

  predicate Phantom(e: Entry) {
    e.ds == 0 && e.fh == []
  }

  ghost predicate NoRepeats(ids: seq<nat>) {
    forall i, j | 0 <= i < j < |ids| :: ids[i] != ids[j]
  }

  /** Each data server once, none left out, none made up. */
  lemma {:induction false} FirstSeenLists(es: seq<Entry>)
    ensures NoRepeats(FirstSeen(es))
    ensures forall d :: d in FirstSeen(es) <==> exists e :: e in es && e.ds == d
  {
    if es != [] {
      var front, last := es[..|es| - 1], es[|es| - 1];
      FirstSeenLists(front);
      assert es == front + [last];
      forall d ensures d in FirstSeen(es) <==> exists e :: e in es && e.ds == d {
        if e :| e in es && e.ds == d {
          assert e in front || e == last;
        }
        if d == last.ds {
          assert last in es;
        }
      }
    }
  }

  /** A data server that is first seen earlier is listed earlier. */
  lemma {:induction false} FirstSeenOrder(es: seq<Entry>, n: nat)
    requires n <= |es|
    ensures FirstSeen(es[..n]) <= FirstSeen(es)
    decreases |es| - n
  {
    if n < |es| {
      FirstSeenOrder(es, n + 1);
      assert es[..n + 1][..n] == es[..n];
    } else {
      assert es[..n] == es;
    }
  }

  method Seen(ids: seq<nat>, ds: nat) returns (seen: bool)
    ensures seen <==> ds in ids
  {
    var i := 0;
    while i < |ids|
      invariant i <= |ids| && ds !in ids[..i]
    {
      if ids[i] == ds {
        return true;
      }
      i := i + 1;
    }
    return false;
  }

  /** The list of a layout's data servers; refused exactly for a phantom entry or too many. */
  method FromEntries(es: seq<Entry>) returns (r: Ids)
    ensures r == Inval <==> |es| > MAX_STRIPES * MAX_MIRRORS || exists e :: e in es && Phantom(e)
    ensures r == Inval <==> |es| > 4096 || exists e :: e in es && e.ds == 0 && e.fh == []
    ensures r.Listed? ==> r.ids == FirstSeen(es)
  {
    if |es| > MAX_STRIPES * MAX_MIRRORS {
      return Inval;
    }
    var ids, i := [], 0;
    while i < |es|
      invariant i <= |es| && ids == FirstSeen(es[..i]) && forall e | e in es[..i] :: !Phantom(e)
    {
      assert es[..i + 1][..i] == es[..i] && es[..i + 1] == es[..i] + [es[i]];
      if Phantom(es[i]) {
        assert es[i] in es;
        return Inval;
      }
      var seen := Seen(ids, es[i].ds);
      if !seen {
        ids := ids + [es[i].ds];
      }
      i := i + 1;
    }
    assert es[..i] == es;
    return Listed(ids);
  }

  /** The first entry of a data server. */
  function FirstFor(es: seq<Entry>, ds: nat): Entry
    requires exists e | e in es :: e.ds == ds
  {
    if es[0].ds == ds then es[0] else FirstFor(es[1..], ds)
  }

  lemma {:induction false} FirstForAt(es: seq<Entry>, i: nat)
    requires i < |es| && forall j | 0 <= j < i :: es[j].ds != es[i].ds
    ensures es[i] in es && FirstFor(es, es[i].ds) == es[i]
  {
    if i > 0 {
      FirstForAt(es[1..], i - 1);
      assert es[0].ds != es[i].ds;
    }
  }

  /** A handle cut to its maximum. */
  function Cut(e: Entry): Entry {
    if |e.fh| > FH_MAX then e.(fh := e.fh[..FH_MAX]) else e
  }

  lemma NewServer(es: seq<Entry>, i: nat)
    requires i < |es| && es[i].ds !in FirstSeen(es[..i])
    ensures es[i] in es && FirstFor(es, es[i].ds) == es[i]
  {
    FirstSeenLists(es[..i]);
    forall j | 0 <= j < i ensures es[j].ds != es[i].ds {
      assert es[..i][j] in es[..i];
    }
    FirstForAt(es, i);
  }

  /** The rows of a final unlink: one per data server in first-seen order, with the handle of
      its first entry; phantom entries are kept. */
  method CollectUnique(es: seq<Entry>, sc: nat, mc: nat) returns (ok: bool, out: seq<Entry>)
    requires |es| == sc * mc
    ensures ok <==> 1 <= sc <= MAX_STRIPES && 1 <= mc <= MAX_MIRRORS
    ensures !ok ==> out == []
    ensures ok ==> |out| == |FirstSeen(es)|
    ensures ok ==> forall i | 0 <= i < |out| :: out[i].ds == FirstSeen(es)[i]
    ensures ok ==> forall i | 0 <= i < |out| ::
              (exists e | e in es :: e.ds == out[i].ds) && out[i] == Cut(FirstFor(es, out[i].ds))
    ensures ok ==> forall i | 0 <= i < |out| ::
              var fh := FirstFor(es, out[i].ds).fh; out[i].fh == if |fh| <= 128 then fh else fh[..128]
  {
    out := [];
    ok := 1 <= sc <= MAX_STRIPES && 1 <= mc <= MAX_MIRRORS;
    if !ok {
      return;
    }
    var ids, i := [], 0;
    while i < |es|
      invariant i <= |es| && ids == FirstSeen(es[..i]) && |out| == |ids|
      invariant forall k | 0 <= k < |out| :: out[k].ds == ids[k]
      invariant forall k | 0 <= k < |out| ::
                  (exists e | e in es :: e.ds == out[k].ds) && out[k] == Cut(FirstFor(es, out[k].ds))
    {
      assert es[..i + 1][..i] == es[..i];
      var seen := Seen(ids, es[i].ds);
      if !seen {
        NewServer(es, i);
        ids := ids + [es[i].ds];
        out := out + [Cut(es[i])];
      }
      i := i + 1;
    }
    assert es[..i] == es;
  }

  // ---------------------------------------------------------------------------
  // Sweeping
  // ---------------------------------------------------------------------------

  /** One backing file on a data server. */
  datatype Object = Object(ds: nat, file: nat, stripe: nat, mirror: nat)

  type Slots = set<(nat, nat)>

  datatype Status = Ok | NotMounted | IoError

  /** The objects of a file on one data server in the first `sc` stripes and `mc` mirrors. */
  ghost predicate InGeometry(o: Object, ds: nat, file: nat, sc: nat, mc: nat) {
    o.ds == ds && o.file == file && o.stripe < sc && o.mirror < mc
  }

  ghost function Swept(objects: set<Object>, ds: nat, file: nat, sc: nat, mc: nat): set<Object> {
    set o | o in objects && !InGeometry(o, ds, file, sc, mc)
  }

  function Clamped(n: nat, max: nat): nat {
    if n == 0 || n > max then max else n
  }

  class Servers {
    /** The data servers mounted on the host of the worker. */
    const mounted: set<nat>
    var objects: set<Object>

    constructor (mounted: set<nat>, objects: set<Object>)
      ensures this.mounted == mounted && this.objects == objects
    {
      this.mounted, this.objects := mounted, objects;
    }

    /** Unlink one slot; unlinking a slot of `bad` fails. */
    method Unlink(ds: nat, file: nat, s: nat, m: nat, bad: Slots) returns (st: Status, existed: bool)
      modifies this`objects
      ensures st == if ds !in mounted then NotMounted else if (s, m) in bad then IoError else Ok
      ensures objects == if st == Ok then old(objects) - {Object(ds, file, s, m)} else old(objects)
      ensures existed <==> st == Ok && Object(ds, file, s, m) in old(objects)
    {
      if ds !in mounted {
        return NotMounted, false;
      }
      if (s, m) in bad {
        return IoError, false;
      }
      existed := Object(ds, file, s, m) in objects;
      objects := objects - {Object(ds, file, s, m)};
      return Ok, existed;
    }

    /** Every slot of the geometry, present or not. */
    method SweepGeometry(ds: nat, file: nat, sc0: nat, mc0: nat, bad: Slots) returns (st: Status)
      modifies this`objects
      ensures var sc, mc := Clamped(sc0, MAX_STRIPES), Clamped(mc0, MAX_MIRRORS);
        && (st == NotMounted <==> ds !in mounted)
        && (st == Ok <==> ds in mounted && forall s, m | 0 <= s < sc && 0 <= m < mc :: (s, m) !in bad)
        && (st == NotMounted ==> objects == old(objects))
        && (st == Ok ==> objects == Swept(old(objects), ds, file, sc, mc))
        && Swept(old(objects), ds, file, sc, mc) <= objects <= old(objects)
    {
      var sc, mc := Clamped(sc0, MAX_STRIPES), Clamped(mc0, MAX_MIRRORS);
      var s := 0;
      while s < sc
        invariant s <= sc && objects == Swept(old(objects), ds, file, s, mc)
        invariant forall s', m | 0 <= s' < s && 0 <= m < mc :: (s', m) !in bad
        invariant s > 0 ==> ds in mounted
      {
        ghost var before := objects;
        var m := 0;
        while m < mc
          invariant m <= mc && forall m' | 0 <= m' < m :: (s, m') !in bad
          invariant m > 0 ==> ds in mounted
          invariant forall o :: o in objects <==>
                      o in before && !(o.ds == ds && o.file == file && o.stripe == s && o.mirror < m)
        {
          var r, _ := Unlink(ds, file, s, m, bad);
          if r != Ok {
            return r;
          }
          m := m + 1;
        }
        s := s + 1;
      }
      return Ok;
    }

    /** Exactly one slot. */
    method SweepSlot(ds: nat, file: nat, s: nat, m: nat, bad: Slots) returns (st: Status)
      modifies this`objects
      ensures st == if ds !in mounted then NotMounted else if (s, m) in bad then IoError else Ok
      ensures objects == if st == Ok then old(objects) - {Object(ds, file, s, m)} else old(objects)
    {
      var existed: bool;
      st, existed := Unlink(ds, file, s, m, bad);
    }

    /** Stripe by stripe, mirror by mirror, stopping at the first absent one: what goes is
        exactly the dense part. */
    method SweepDense(ds: nat, file: nat, bad: Slots) returns (st: Status)
      modifies this`objects
      ensures st == Ok ==> forall o :: o in objects <==> o in old(objects) && !Dense(old(objects), ds, file, o)
      ensures st == NotMounted <==> ds !in mounted
      ensures st == NotMounted ==> objects == old(objects)
      ensures ds in mounted && bad == {} ==> st == Ok
      ensures objects <= old(objects) && forall o | o in old(objects) && !Dense(old(objects), ds, file, o) ::
                o in objects
    {
      var s := 0;
      while s < MAX_STRIPES
        invariant s <= MAX_STRIPES
        invariant s > 0 ==> ds in mounted
        invariant forall s' | 0 <= s' < s :: Object(ds, file, s', 0) in old(objects)
        invariant forall o :: o in objects <==> o in old(objects) && !(Dense(old(objects), ds, file, o) && o.stripe < s)
      {
        ghost var before := objects;
        var had, m := false, 0;
        while m < MAX_MIRRORS
          invariant m <= MAX_MIRRORS && (had <==> m > 0) && (m > 0 ==> ds in mounted)
          invariant forall m' | 0 <= m' < m :: Object(ds, file, s, m') in old(objects)
          invariant forall o :: o in objects <==>
                      o in before && !(o.ds == ds && o.file == file && o.stripe == s && o.mirror < m)
        {
          var r, existed := Unlink(ds, file, s, m, bad);
          if r != Ok {
            return r;
          }
          if !existed {
            break;
          }
          had := true;
          m := m + 1;
        }
        if !had {
          break;
        }
        s := s + 1;
      }
      return Ok;
    }

    /** The sweep a queue row asks for. */
    method Process(ds: nat, file: nat, hint: nat, bad: Slots) returns (st: Status)
      requires hint < U32
      modifies this`objects
      // The top bit marks a slot; below it are the stripes, and in the last four bits the mirrors.
      ensures hint >= 0x8000_0000 && st == Ok ==>
                objects == old(objects) - {Object(ds, file, hint / 16 % 0x800_0000, hint % 16)}
      // A geometry of none, or of more than can be, is the largest one.
      ensures 0 < hint < 0x8000_0000 && st == Ok ==>
                objects == Swept(old(objects), ds, file, Clamped(StripeField(hint), MAX_STRIPES),
                    Clamped(MirrorField(hint), MAX_MIRRORS))
      ensures 0 < hint < 0x8000_0000 && st == Ok ==> forall o :: o in objects <==>
                && o in old(objects)
                && !(o.ds == ds && o.file == file
                     && o.stripe < (if 1 <= hint / 16 % 0x800_0000 <= 1024 then hint / 16 % 0x800_0000 else 1024)
                     && o.mirror < (if 1 <= hint % 16 <= 4 then hint % 16 else 4))
      ensures hint == 0 && st == Ok ==>
                forall o :: o in objects <==> o in old(objects) && !Dense(old(objects), ds, file, o)
      ensures hint >= 0x8000_0000 && ds in mounted ==>
                (st == Ok <==> (hint / 16 % 0x800_0000, hint % 16) !in bad)
      ensures 0 < hint < 0x8000_0000 && ds in mounted ==>
                (st == Ok <==> forall s, m | 0 <= s < Clamped(StripeField(hint), MAX_STRIPES)
                                             && 0 <= m < Clamped(MirrorField(hint), MAX_MIRRORS) :: (s, m) !in bad)
      ensures st == NotMounted <==> ds !in mounted
      ensures st == NotMounted ==> objects == old(objects)
      ensures st == IoError ==> bad != {}
      ensures ds in mounted && bad == {} ==> st == Ok
      ensures objects <= old(objects) && forall o | o in old(objects) && !(o.ds == ds && o.file == file) :: o in objects
    {
      if hint >= SLOT_FLAG {
        st := SweepSlot(ds, file, StripeField(hint), MirrorField(hint), bad);
      } else if hint != 0 {
        st := SweepGeometry(ds, file, StripeField(hint), MirrorField(hint), bad);
      } else {
        st := SweepDense(ds, file, bad);
      }
    }

    /** A queue row worked off: it is dequeued unless an unlink failed.  So a row of a data
        server that is not mounted here is dropped with nothing destroyed. */
    method WorkOff(ds: nat, file: nat, hint: nat, bad: Slots) returns (dequeued: bool)
      requires hint < U32
      modifies this`objects
      ensures ds !in mounted ==> dequeued && objects == old(objects)
      ensures ds in mounted && bad == {} ==> dequeued
      ensures hint >= 0x8000_0000 && ds in mounted ==>
                (dequeued <==> (hint / 16 % 0x800_0000, hint % 16) !in bad)
      ensures hint >= 0x8000_0000 && ds in mounted && dequeued ==>
                objects == old(objects) - {Object(ds, file, hint / 16 % 0x800_0000, hint % 16)}
      ensures hint == 0 && ds in mounted && dequeued ==>
                forall o :: o in objects <==> o in old(objects) && !Dense(old(objects), ds, file, o)
      ensures !dequeued ==> ds in mounted && bad != {}
      ensures 0 < hint < 0x8000_0000 && ds in mounted ==>
                (dequeued <==> forall s, m | 0 <= s < Clamped(StripeField(hint), MAX_STRIPES)
                                             && 0 <= m < Clamped(MirrorField(hint), MAX_MIRRORS) :: (s, m) !in bad)
      ensures 0 < hint < SLOT_FLAG && dequeued && ds in mounted ==>
                objects == Swept(old(objects), ds, file, Clamped(StripeField(hint), MAX_STRIPES),
                    Clamped(MirrorField(hint), MAX_MIRRORS))
    {
      var st := Process(ds, file, hint, bad);
      dequeued := st != IoError;
    }
  }

  /** Reached by the dense sweep: every earlier stripe has its first mirror, and so has this
      one every mirror up to here. */
  ghost predicate Dense(objects: set<Object>, ds: nat, file: nat, o: Object) {
    && o.ds == ds && o.file == file && o.stripe < MAX_STRIPES && o.mirror < MAX_MIRRORS
    && (forall s | 0 <= s < o.stripe :: Object(ds, file, s, 0) in objects)
    && (forall m | 0 <= m <= o.mirror :: Object(ds, file, o.stripe, m) in objects)
  }

  // ---------------------------------------------------------------------------
  // Whole files
  // ---------------------------------------------------------------------------

  /** Mirror `m` of stripe `s` lives on the data server of entry s * mc + m. */
  ghost predicate OnServer(es: seq<Entry>, sc: nat, mc: nat, ds: nat, s: nat, m: nat) {
    s < sc && m < mc && s * mc + m < |es| && es[s * mc + m].ds == ds
  }

  /** The objects of a file are exactly the slots of its stripe map. */
  ghost predicate Stored(objects: set<Object>, file: nat, es: seq<Entry>, sc: nat, mc: nat) {
    && |es| == sc * mc && 1 <= sc <= MAX_STRIPES && 1 <= mc <= MAX_MIRRORS
    && forall o: Object | o.file == file :: o in objects <==> OnServer(es, sc, mc, o.ds, o.stripe, o.mirror)
  }

  /** Some of the slots of its stripe map: the rest has gone already or was never written. */
  ghost predicate Placed(objects: set<Object>, file: nat, es: seq<Entry>, sc: nat, mc: nat) {
    && |es| == sc * mc && 1 <= sc <= MAX_STRIPES && 1 <= mc <= MAX_MIRRORS
    && forall o | o in objects && o.file == file :: OnServer(es, sc, mc, o.ds, o.stripe, o.mirror)
  }

  lemma GeometryHint(sc: nat, mc: nat)
    requires 1 <= sc <= MAX_STRIPES && 1 <= mc <= MAX_MIRRORS
    ensures Encodable(Geometry(sc, mc))
    ensures var w := Encode(Geometry(sc, mc));
      && 0 < w < SLOT_FLAG
      && Clamped(StripeField(w), MAX_STRIPES) == sc && Clamped(MirrorField(w), MAX_MIRRORS) == mc
  {
    HintRoundTrip(Geometry(sc, mc));
  }

  /** A final unlink reclaimed: one geometry row per data server of the stripe map, each
      worked off once, takes every object of the file and nothing else, but for those on data
      servers that are not mounted where the worker runs. */
  method ReclaimFile(servers: Servers, file: nat, es: seq<Entry>, sc: nat, mc: nat)
    requires Placed(servers.objects, file, es, sc, mc)
    modifies servers`objects
    ensures servers.objects == set o | o in old(servers.objects) && (o.file != file || o.ds !in servers.mounted)
  {
    var ok, rows := CollectUnique(es, sc, mc);
    GeometryHint(sc, mc);
    var i := 0;
    while i < |rows|
      invariant i <= |rows|
      invariant forall o :: o in servers.objects <==>
                  && o in old(servers.objects)
                  && !(o.file == file && o.ds in FirstSeen(es)[..i] && o.ds in servers.mounted)
    {
      var dequeued := servers.WorkOff(rows[i].ds, file, Encode(Geometry(sc, mc)), {});
      assert FirstSeen(es)[..i + 1] == FirstSeen(es)[..i] + [rows[i].ds];
      i := i + 1;
    }
    FirstSeenLists(es);
    assert FirstSeen(es)[..i] == FirstSeen(es);
    forall o | o in old(servers.objects) && o.file == file ensures o.ds in FirstSeen(es)[..i] {
      assert es[o.stripe * mc + o.mirror] in es;
    }
  }

  /** A stripe map is dense on a data server when below each of its slots there the first
      mirror of every earlier stripe and every earlier mirror of the stripe are there too. */
  ghost predicate DenseLayout(es: seq<Entry>, sc: nat, mc: nat, ds: nat) {
    forall s: nat, m: nat | OnServer(es, sc, mc, ds, s, m) ::
      && (forall s': nat | s' < s :: OnServer(es, sc, mc, ds, s', 0))
      && (forall m': nat | m' <= m :: OnServer(es, sc, mc, ds, s, m'))
  }

  lemma DenseObjects(objects: set<Object>, file: nat, es: seq<Entry>, sc: nat, mc: nat, ds: nat)
    requires Stored(objects, file, es, sc, mc)
    ensures (forall o | o in objects && o.ds == ds && o.file == file :: Dense(objects, ds, file, o))
       <==> DenseLayout(es, sc, mc, ds)
  {
    if DenseLayout(es, sc, mc, ds) {
      forall o | o in objects && o.ds == ds && o.file == file ensures Dense(objects, ds, file, o) {
        assert OnServer(es, sc, mc, ds, o.stripe, o.mirror);
      }
    }
    if forall o | o in objects && o.ds == ds && o.file == file :: Dense(objects, ds, file, o) {
      forall s: nat, m: nat | OnServer(es, sc, mc, ds, s, m)
        ensures forall s': nat | s' < s :: OnServer(es, sc, mc, ds, s', 0)
        ensures forall m': nat | m' <= m :: OnServer(es, sc, mc, ds, s, m')
      {
        assert Dense(objects, ds, file, Object(ds, file, s, m));
        forall s': nat | s' < s ensures OnServer(es, sc, mc, ds, s', 0) {
          assert Object(ds, file, s', 0) in objects;
        }
        forall m': nat | m' <= m ensures OnServer(es, sc, mc, ds, s, m') {
          assert Object(ds, file, s, m') in objects;
        }
      }
    }
  }

  /** A row without a geometry takes all objects of the file from its data server if and only
      if the stripe map is dense there; from one that is not mounted it takes nothing. */
  method ReclaimLegacy(servers: Servers, file: nat, ds: nat, ghost es: seq<Entry>, ghost sc: nat, ghost mc: nat)
    requires Stored(servers.objects, file, es, sc, mc)
    modifies servers`objects
    ensures ds in servers.mounted ==>
              ((forall o | o in servers.objects :: !(o.file == file && o.ds == ds)) <==> DenseLayout(es, sc, mc, ds))
    ensures ds !in servers.mounted ==> servers.objects == old(servers.objects)
  {
    DenseObjects(servers.objects, file, es, sc, mc, ds);
    var st := servers.Process(ds, file, 0, {});
  }

  /** A file of one stripe and one mirror is dense on every data server. */
  lemma OneByOneIsDense(es: seq<Entry>, ds: nat)
    requires |es| == 1
    ensures DenseLayout(es, 1, 1, ds)
  {
  }

  /** Two stripes on two data servers: the second is not dense on its own. */
  lemma WideIsNotDense(a: Entry, b: Entry)
    requires a.ds != b.ds
    ensures !DenseLayout([a, b], 2, 1, b.ds)
  {
    assert OnServer([a, b], 2, 1, b.ds, 1, 0);
    assert !OnServer([a, b], 2, 1, b.ds, 0, 0);
  }
}
