/** The persisted layout row of a stateid under renewals, and the recall scan that relies on
    it: a scan that skips rows disjoint from the request misses no conflicting holder as
    long as every row covers everything granted under it. */
module LayoutRecall {
  import opened LayoutRange

  datatype Mode = Read | Rw | Any

  predicate Writes(m: Mode) {
    m == Rw || m == Any
  }

  predicate ModesConflict(holder: Mode, requester: Mode) {
    Writes(holder) || Writes(requester)
  }

  // ---------------------------------------------------------------------------
  // One stateid: renewals race with first grants
  // ---------------------------------------------------------------------------

  /** The grant path hands out read or read-write layouts. */
  datatype Grant = Grant(range: Range, mode: Mode, seqid: nat)

  datatype Row = Row(range: Range, mode: Mode, seqid: nat)

  predicate Grantable(g: Grant) {
    Wf(g.range) && g.mode != Any
  }

  /** `waiting` are grants whose transaction found no row and that will insert one in a
      transaction of their own; `granted` are those that have completed. */
  datatype Layout = Layout(row: Option<Row>, waiting: seq<Grant>, granted: seq<Grant>)

  function Renewed(row: Row, g: Grant): Row
    requires Wf(row.range) && Wf(g.range)
  {
    Row(Union(row.range, g.range), if row.mode == Rw || g.mode == Rw then Rw else g.mode,
        if row.seqid > g.seqid then row.seqid else g.seqid)
  }

  datatype Step = Renew(g: Grant) | Miss(g: Grant) | Insert(i: nat) | Return

  predicate Enabled(l: Layout, s: Step) {
    match s
    case Renew(g) => l.row.Some? && Grantable(g)
    case Miss(g) => l.row.None? && Grantable(g)
    case Insert(i) => i < |l.waiting|
    case Return => true
  }

  /** Grants come as they like, a grant that found no row may insert one at any time, and so may
      the layout be returned. */
  lemma NothingHoldsUp(l: Layout, g: Grant)
    requires Grantable(g)
    ensures if l.row.Some? then Enabled(l, Renew(g)) else Enabled(l, Miss(g))
    ensures forall i | 0 <= i < |l.waiting| :: Enabled(l, Insert(i))
    ensures Enabled(l, Return)
  {
  }

  function Next(l: Layout, s: Step): Layout
    requires Enabled(l, s) && (l.row.Some? ==> Wf(l.row.value.range))
  {
    match s
    case Renew(g) => l.(row := Some(Renewed(l.row.value, g)), granted := l.granted + [g])
    case Miss(g) => l.(waiting := l.waiting + [g])
    case Insert(i) =>
      var g := l.waiting[i];
      Layout(Some(Row(g.range, g.mode, g.seqid)), l.waiting[..i] + l.waiting[i + 1..], l.granted + [g])
    case Return => Layout(None, l.waiting, [])
  }

  /** The range reaches from no later to no earlier, ends read as the code reads them. */
  predicate Spans(u: Range, r: Range) {
    r.len == 0 || (u.len > 0 && u.off <= r.off && End(r) <= End(u))
  }

  /** The row speaks for the grant: its range, its write intent, and its seqid. */
  ghost predicate Speaks(row: Row, g: Grant) {
    Spans(row.range, g.range) && (Writes(g.mode) ==> Writes(row.mode)) && g.seqid <= row.seqid
  }

  /** Which is to say that no byte is missing, but for the very last one, which a recall never
      looks at. */
  lemma SpansBytes(u: Range, r: Range)
    requires Wf(u) && Wf(r)
    ensures Spans(u, r) ==> forall x: nat | x < MAX && In(r, x) :: In(u, x)
    ensures !Spans(u, r) ==> exists x: nat :: In(r, x) && !In(u, x)
  {
    if !Spans(u, r) {
      var x := if u.len == 0 || r.off < u.off || r.off > End(u) then r.off else End(u);
      assert In(r, x) && !In(u, x);
    }
  }

  /** The ranges of some grants. */
  ghost function Ranges(gs: seq<Grant>): multiset<Range> {
    multiset(seq(|gs|, i requires 0 <= i < |gs| => gs[i].range))
  }

  lemma RangesMore(gs: seq<Grant>, g: Grant)
    ensures Ranges(gs + [g]) == Ranges(gs) + multiset{g.range}
  {
    var rs := seq(|gs|, i requires 0 <= i < |gs| => gs[i].range);
    assert seq(|gs + [g]|, i requires 0 <= i < |gs + [g]| => (gs + [g])[i].range) == rs + [g.range];
  }

  lemma RangesAre(gs: seq<Grant>, r: Range)
    ensures r in Ranges(gs) <==> exists g | g in gs :: g.range == r
  {
    var rs := seq(|gs|, i requires 0 <= i < |gs| => gs[i].range);
    if r in rs {
      var i :| 0 <= i < |rs| && rs[i] == r;
      assert gs[i] in gs;
    }
    if g :| g in gs && g.range == r {
      var i :| 0 <= i < |gs| && gs[i] == g;
      assert rs[i] == r;
    }
  }

  /** The row says no more than its grants do: the hull of their ranges, write intent only if
      one of them has it, and the largest seqid. */
  ghost predicate Tight(row: Row, gs: seq<Grant>) {
    && IsHull(Ranges(gs), row.range)
    && (Writes(row.mode) ==> exists g | g in gs :: Writes(g.mode))
    && (exists g | g in gs :: g.seqid == row.seqid)
  }

  ghost predicate AllGrantable(gs: seq<Grant>) {
    forall g | g in gs :: Grantable(g)
  }

  ghost predicate SpeaksForAll(row: Row, gs: seq<Grant>) {
    forall g | g in gs :: Speaks(row, g)
  }

  ghost predicate Sound(l: Layout) {
    && AllGrantable(l.waiting) && AllGrantable(l.granted)
    && (l.row.None? ==> l.granted == [])
    && (l.row.Some? ==> Wf(l.row.value.range) && l.row.value.mode != Any && Tight(l.row.value, l.granted)
                        && SpeaksForAll(l.row.value, l.granted))
  }

  /** A renewal keeps what the row speaks for and covers, every byte of it. */
  lemma RenewSpeaks(row: Row, g: Grant, h: Grant)
    requires Wf(row.range) && row.mode != Any && Grantable(g) && Wf(h.range) && (Speaks(row, h) || h == g)
    ensures Speaks(Renewed(row, g), h)
  {
  }

  lemma RenewTight(row: Row, gs: seq<Grant>, g: Grant)
    requires Wf(row.range) && row.mode != Any && Grantable(g) && Tight(row, gs)
    ensures Tight(Renewed(row, g), gs + [g])
  {
    RangesMore(gs, g);
    HullStep(Ranges(gs), row.range, g.range);
    assert forall h | h in gs :: h in gs + [g];
    assert g in gs + [g];
  }

  function RowOf(g: Grant): Row {
    Row(g.range, g.mode, g.seqid)
  }

  /** The insert finds a row after all, and that row is not within the one it writes: a
      comparison the inserting transaction could make. */
  predicate Overwrites(l: Layout, s: Step) {
    && s.Insert? && s.i < |l.waiting| && l.row.Some?
    && var row, g := l.row.value, l.waiting[s.i];
       !(Spans(g.range, row.range) && (Writes(row.mode) ==> Writes(g.mode)) && row.seqid <= g.seqid)
  }

  lemma InsertTight(gs: seq<Grant>, g: Grant)
    requires Grantable(g) && AllGrantable(gs) && SpeaksForAll(RowOf(g), gs)
    ensures Tight(RowOf(g), gs + [g])
  {
    RangesMore(gs, g);
    assert g in gs + [g];
    assert g.range in Ranges(gs + [g]);
    forall r | r in Ranges(gs + [g]) ensures Spans(g.range, r) {
      RangesAre(gs, r);
    }
  }

  /** Nothing is lost when the row is within the new one, since it speaks for everything. */
  lemma WithinSpeaks(row: Row, g: Grant, h: Grant)
    requires Speaks(row, h) && Speaks(RowOf(g), Grant(row.range, row.mode, row.seqid))
    ensures Speaks(RowOf(g), h)
  {
  }

  /** And something is when it is not, since the row says no more than its grants. */
  lemma OverwriteLoses(row: Row, gs: seq<Grant>, g: Grant)
    requires Tight(row, gs) && !Speaks(RowOf(g), Grant(row.range, row.mode, row.seqid))
    ensures exists h | h in gs :: !Speaks(RowOf(g), h)
  {
    if !Spans(g.range, row.range) {
      var r :| r in Ranges(gs) && r.len > 0 && !Spans(g.range, r);
      RangesAre(gs, r);
    }
  }

  lemma RenewSound(l: Layout, g: Grant)
    requires Sound(l) && l.row.Some? && Grantable(g)
    ensures Sound(Next(l, Renew(g)))
  {
    RenewTight(l.row.value, l.granted, g);
    RenewSpeaksForAll(l.row.value, l.granted, g);
    RenewedIsWf(l.row.value, g);
  }

  lemma RenewSpeaksForAll(row: Row, gs: seq<Grant>, g: Grant)
    requires Wf(row.range) && row.mode != Any && Grantable(g)
    requires AllGrantable(gs) && SpeaksForAll(row, gs)
    ensures AllGrantable(gs + [g]) && SpeaksForAll(Renewed(row, g), gs + [g])
  {
    forall h | h in gs + [g] ensures Speaks(Renewed(row, g), h) {
      assert h == g || h in gs;
      RenewSpeaks(row, g, h);
    }
  }

  lemma RenewedIsWf(row: Row, g: Grant)
    requires Wf(row.range) && row.mode != Any && Grantable(g)
    ensures Wf(Renewed(row, g).range) && Renewed(row, g).mode != Any
  {
  }

  lemma GrantableMove(waiting: seq<Grant>, i: nat, granted: seq<Grant>)
    requires i < |waiting| && AllGrantable(waiting) && AllGrantable(granted)
    ensures Grantable(waiting[i])
    ensures AllGrantable(waiting[..i] + waiting[i + 1..]) && AllGrantable(granted + [waiting[i]])
  {
    assert waiting[i] in waiting;
  }

  lemma InsertSpeaks(gs: seq<Grant>, g: Grant)
    requires Grantable(g) && SpeaksForAll(RowOf(g), gs)
    ensures SpeaksForAll(RowOf(g), gs + [g])
  {
  }

  lemma InsertSound(l: Layout, i: nat)
    requires Sound(l) && i < |l.waiting| && !Overwrites(l, Insert(i))
    ensures Sound(Next(l, Insert(i)))
  {
    var g := l.waiting[i];
    GrantableMove(l.waiting, i, l.granted);
    if l.row.Some? {
      WithinSpeaksForAll(l.row.value, l.granted, g);
    }
    InsertSpeaks(l.granted, g);
    InsertTight(l.granted, g);
  }

  lemma WithinSpeaksForAll(row: Row, gs: seq<Grant>, g: Grant)
    requires SpeaksForAll(row, gs) && Speaks(RowOf(g), Grant(row.range, row.mode, row.seqid))
    ensures SpeaksForAll(RowOf(g), gs)
  {
    forall h | h in gs ensures Speaks(RowOf(g), h) {
      WithinSpeaks(row, g, h);
    }
  }

  lemma InsertLoses(l: Layout, i: nat)
    requires Sound(l) && i < |l.waiting| && Overwrites(l, Insert(i))
    ensures !Sound(Next(l, Insert(i)))
  {
    var g := l.waiting[i];
    OverwriteLoses(l.row.value, l.granted, g);
    var h :| h in l.granted && !Speaks(RowOf(g), h);
    assert h in Next(l, Insert(i)).granted;
  }

  /** Of all steps only such an insert breaks the row, and it always does. */
  lemma StepSoundIff(l: Layout, s: Step)
    requires Sound(l) && Enabled(l, s)
    ensures Sound(Next(l, s)) <==> !Overwrites(l, s)
  {
    match s
    case Renew(g) => RenewSound(l, g);
    case Miss(g) =>
    case Insert(i) =>
      if Overwrites(l, s) {
        InsertLoses(l, i);
      } else {
        InsertSound(l, i);
      }
    case Return =>
  }

  /** Renewals of a row that exists never lower its seqid. */
  lemma SeqidGrows(l: Layout, s: Step)
    requires Sound(l) && Enabled(l, s) && s.Renew?
    ensures Next(l, s).row.value.seqid >= l.row.value.seqid && Next(l, s).row.value.seqid >= s.g.seqid
  {
  }

  ghost predicate Run(trace: seq<Layout>, steps: seq<Step>) {
    && |trace| == |steps| + 1 && trace[0] == Layout(None, [], [])
    && forall i | 0 <= i < |steps| ::
         && (trace[i].row.Some? ==> Wf(trace[i].row.value.range))
         && Enabled(trace[i], steps[i]) && trace[i + 1] == Next(trace[i], steps[i])
  }

  /** However grants are ordered, the row speaks for all of them until an insert overwrites a
      row that is not within its own. */
  lemma {:induction false} RunSound(trace: seq<Layout>, steps: seq<Step>, i: nat)
    requires Run(trace, steps) && i < |trace| && forall j | 0 <= j < i :: !Overwrites(trace[j], steps[j])
    ensures Sound(trace[i])
    ensures i < |steps| && Overwrites(trace[i], steps[i]) ==> !Sound(trace[i + 1])
  {
    if i > 0 {
      RunSound(trace, steps, i - 1);
      StepSoundIff(trace[i - 1], steps[i - 1]);
    }
    if i < |steps| {
      StepSoundIff(trace[i], steps[i]);
    }
  }

  /** The insert takes away a byte of the row it finds. */
  ghost predicate Shrinks(l: Layout, s: Step) {
    && s.Insert? && s.i < |l.waiting| && l.row.Some?
    && exists x: nat :: In(l.row.value.range, x) && !In(l.waiting[s.i].range, x)
  }

  ghost predicate CoversAll(l: Layout) {
    forall g | g in l.granted :: l.row.Some? && forall x: nat | In(g.range, x) :: In(l.row.value.range, x)
  }

  lemma StepCoversAll(l: Layout, s: Step)
    requires l.row.Some? ==> Wf(l.row.value.range)
    requires CoversAll(l) && Enabled(l, s) && !Shrinks(l, s)
    ensures CoversAll(Next(l, s))
  {
    if s.Renew? {
      forall g, x: nat | g in Next(l, s).granted && In(g.range, x) ensures In(Next(l, s).row.value.range, x) {
        UnionCovers(l.row.value.range, s.g.range, x);
      }
    }
  }

  /** And as long as no insert takes a byte away, every granted byte is covered, the very last
      one included. */
  lemma {:induction false} RunCoversAll(trace: seq<Layout>, steps: seq<Step>, i: nat)
    requires Run(trace, steps) && i < |trace| && forall j | 0 <= j < i :: !Shrinks(trace[j], steps[j])
    ensures CoversAll(trace[i])
  {
    if i > 0 {
      RunCoversAll(trace, steps, i - 1);
      StepCoversAll(trace[i - 1], steps[i - 1]);
    }
  }

  const FIRST: Grant := Grant(Range(0, 10), Rw, 1)
  const SECOND: Grant := Grant(Range(100, 10), Rw, 2)
  const ONE_GRANTED: Layout := Layout(Some(RowOf(FIRST)), [SECOND], [FIRST])

  lemma TwoMisses()
    ensures Next(Next(Next(Layout(None, [], []), Miss(FIRST)), Miss(SECOND)), Insert(0)) == ONE_GRANTED
  {
    var two := Layout(None, [FIRST, SECOND], []);
    assert Next(Next(Layout(None, [], []), Miss(FIRST)), Miss(SECOND)) == two;
    assert [FIRST, SECOND][..0] + [FIRST, SECOND][1..] == [SECOND];
  }

  lemma OneIsSound()
    ensures Sound(ONE_GRANTED)
  {
    InsertTight([], FIRST);
    assert [] + [FIRST] == [FIRST];
  }

  /** Two first grants both find no row; the second insert loses the first one's range. */
  lemma LostRange()
    ensures Next(Next(Next(Layout(None, [], []), Miss(FIRST)), Miss(SECOND)), Insert(0)) == ONE_GRANTED
    ensures Sound(ONE_GRANTED) && Overwrites(ONE_GRANTED, Insert(0)) && !Sound(Next(ONE_GRANTED, Insert(0)))
  {
    TwoMisses();
    OneIsSound();
    InsertLoses(ONE_GRANTED, 0);
  }

  // ---------------------------------------------------------------------------
  // The recall scan
  // ---------------------------------------------------------------------------

  datatype Holding = Holding(client: nat, seqid: nat, mode: Mode, range: Range)

  datatype Recall = Recall(client: nat, seqid: nat, range: Range)

  datatype Request = Request(client: nat, mode: Mode, range: Range)

  /** Another client's row that conflicts with the request. */
  predicate Conflicts(h: Holding, q: Request)
    requires Wf(h.range) && Wf(q.range)
  {
    h.client != q.client && ModesConflict(h.mode, q.mode) && Intersect(q.range, h.range).Some?
  }

  ghost predicate AllRowsWf(rows: seq<Holding>) {
    forall h | h in rows :: Wf(h.range)
  }

  ghost function ConflictClients(rows: seq<Holding>, q: Request): set<nat>
    requires AllRowsWf(rows) && Wf(q.range)
  {
    set h | h in rows && Conflicts(h, q) :: h.client
  }

  /** A row conflicts exactly when it is another client's, one of the two is not for reading,
      and they share a byte below the very last one. */
  lemma ConflictsIff(h: Holding, q: Request)
    requires Wf(h.range) && Wf(q.range)
    ensures Conflicts(h, q) <==>
              && h.client != q.client && !(h.mode == Read && q.mode == Read)
              && exists x: nat :: x < MAX && In(q.range, x) && In(h.range, x)
  {
    IntersectIsShared(q.range, h.range);
  }

  /** A client that may touch a byte (below the last) that the request is about, in a
      conflicting mode, is among the conflict clients when its row speaks for its grant. */
  lemma NeverMissed(rows: seq<Holding>, q: Request, h: Holding, g: Grant, x: nat)
    requires AllRowsWf(rows) && Wf(q.range) && h in rows && h.client != q.client && Wf(g.range)
    requires Speaks(Row(h.range, h.mode, h.seqid), g)
    requires x < MAX && In(g.range, x) && In(q.range, x) && !(g.mode == Read && q.mode == Read)
    ensures h.client in ConflictClients(rows, q)
  {
    SpansBytes(h.range, g.range);
    IntersectIsShared(q.range, h.range);
  }

  ghost function ClientsOf(rs: seq<Recall>): set<nat> {
    set r | r in rs :: r.client
  }

  ghost predicate OnePerClient(rs: seq<Recall>) {
    forall i, j | 0 <= i < j < |rs| :: rs[i].client != rs[j].client
  }

  /** The recall came from a conflicting row and carries its intersection. */
  ghost predicate Comes(r: Recall, rows: seq<Holding>, q: Request)
    requires AllRowsWf(rows) && Wf(q.range)
  {
    exists h | h in rows ::
      Conflicts(h, q) && r.client == h.client && r.seqid == h.seqid && Some(r.range) == Intersect(q.range, h.range)
  }

  lemma {:induction false} CountClients(rs: seq<Recall>)
    requires OnePerClient(rs)
    ensures |ClientsOf(rs)| == |rs|
  {
    if rs != [] {
      var front, last := rs[..|rs| - 1], rs[|rs| - 1];
      CountClients(front);
      assert rs == front + [last];
      assert ClientsOf(rs) == ClientsOf(front) + {last.client};
      assert last.client !in ClientsOf(front);
    }
  }

  ghost predicate Newest(rs: seq<Recall>, rows: seq<Holding>, q: Request)
    requires AllRowsWf(rows) && Wf(q.range)
  {
    forall r, h | r in rs && h in rows && Conflicts(h, q) && r.client == h.client :: h.seqid <= r.seqid
  }

  method FindClient(rs: seq<Recall>, client: nat) returns (k: nat)
    ensures k <= |rs| && (k < |rs| ==> rs[k].client == client)
    ensures k == |rs| ==> client !in ClientsOf(rs)
  {
    k := 0;
    while k < |rs| && rs[k].client != client
      invariant k <= |rs| && forall j | 0 <= j < k :: rs[j].client != client
    {
      k := k + 1;
    }
  }

  /** What the list says about the rows scanned so far. */
  ghost predicate Scanned(rs: seq<Recall>, rows: seq<Holding>, q: Request)
    requires AllRowsWf(rows) && Wf(q.range)
  {
    && OnePerClient(rs) && Newest(rs, rows, q)
    && (forall r | r in rs :: Comes(r, rows, q))
    && ClientsOf(rs) == ConflictClients(rows, q)
  }

  lemma Skipped(rs: seq<Recall>, rows: seq<Holding>, h: Holding, q: Request)
    requires AllRowsWf(rows) && Wf(q.range) && Wf(h.range) && Scanned(rs, rows, q) && !Conflicts(h, q)
    ensures AllRowsWf(rows + [h]) && Scanned(rs, rows + [h], q)
  {
    Widen(rs, rows, h, q);
  }

  /** What a conflicting row is recalled by. */
  function RecallOf(h: Holding, q: Request): Recall
    requires Wf(q.range) && Wf(h.range) && Conflicts(h, q)
  {
    Recall(h.client, h.seqid, Intersect(q.range, h.range).value)
  }

  lemma AdmitNew(rs: seq<Recall>, rows: seq<Holding>, h: Holding, q: Request)
    requires AllRowsWf(rows) && Wf(q.range) && Wf(h.range) && Scanned(rs, rows, q) && Conflicts(h, q)
    requires h.client !in ClientsOf(rs)
    ensures AllRowsWf(rows + [h]) && Scanned(rs + [RecallOf(h, q)], rows + [h], q)
  {
    Widen(rs, rows, h, q);
    assert h in rows + [h];
    Appended(rs, RecallOf(h, q));
    assert forall o | o in rs :: o.client in ClientsOf(rs);
  }

  lemma AdmitNewer(rs: seq<Recall>, rows: seq<Holding>, h: Holding, q: Request, k: nat)
    requires AllRowsWf(rows) && Wf(q.range) && Wf(h.range) && Scanned(rs, rows, q) && Conflicts(h, q)
    requires k < |rs| && rs[k].client == h.client && h.seqid > rs[k].seqid
    ensures AllRowsWf(rows + [h]) && Scanned(rs[k := RecallOf(h, q)], rows + [h], q)
  {
    var r := RecallOf(h, q);
    Widen(rs, rows, h, q);
    assert h in rows + [h];
    SameRecall(rs, k, h.client);
    assert rs[k] in rs;
    Replaced(rs, k, r);
    assert forall o | o in rs[k := r] :: o == r || o in rs;
  }

  lemma AdmitOlder(rs: seq<Recall>, rows: seq<Holding>, h: Holding, q: Request, k: nat)
    requires AllRowsWf(rows) && Wf(q.range) && Wf(h.range) && Scanned(rs, rows, q) && Conflicts(h, q)
    requires k < |rs| && rs[k].client == h.client && h.seqid <= rs[k].seqid
    ensures AllRowsWf(rows + [h]) && Scanned(rs, rows + [h], q)
  {
    Widen(rs, rows, h, q);
    SameRecall(rs, k, h.client);
    assert rs[k] in rs;
  }

  /** A conflicting row: a new client is appended, a known one keeps its newest row. */
  method Admit(rs: seq<Recall>, ghost rows: seq<Holding>, h: Holding, q: Request) returns (out: seq<Recall>)
    requires AllRowsWf(rows) && Wf(q.range) && Wf(h.range) && Scanned(rs, rows, q) && Conflicts(h, q)
    ensures AllRowsWf(rows + [h]) && Scanned(out, rows + [h], q) && |out| <= |rs| + 1
  {
    var k := FindClient(rs, h.client);
    if k == |rs| {
      AdmitNew(rs, rows, h, q);
      return rs + [RecallOf(h, q)];
    }
    if h.seqid > rs[k].seqid {
      AdmitNewer(rs, rows, h, q, k);
      return rs[k := RecallOf(h, q)];
    }
    AdmitOlder(rs, rows, h, q, k);
    return rs;
  }

  /** The scan over a file's rows, with room for `capacity` holders. */
  method Collect(rows: seq<Holding>, q: Request, capacity: nat) returns (rs: seq<Recall>)
    requires AllRowsWf(rows) && Wf(q.range)
    ensures OnePerClient(rs) && |rs| <= capacity
    ensures forall r | r in rs :: Comes(r, rows, q)
    // Every conflicting client is recalled exactly when there is room for all of them.
    ensures ClientsOf(rs) == ConflictClients(rows, q) <==> |ConflictClients(rows, q)| <= capacity
    // A client with several rows is recalled by its newest one, unless the scan ran out of room.
    ensures |rs| < capacity ==> Newest(rs, rows, q)
    // Told from modes and bytes: with room left, exactly the conflicting clients are recalled.
    ensures |rs| < capacity ==> forall h, x: nat | h in rows && h.client != q.client
              && !(h.mode == Read && q.mode == Read) && x < MAX && In(q.range, x) && In(h.range, x) ::
                h.client in ClientsOf(rs)
    ensures forall r | r in rs :: r.client != q.client && exists h | h in rows ::
              && h.client == r.client && h.seqid == r.seqid && !(h.mode == Read && q.mode == Read)
              && forall x: nat | x < MAX :: In(r.range, x) <==> In(q.range, x) && In(h.range, x)
  {
    rs := [];
    var i := 0;
    while i < |rows|
      invariant i <= |rows| && |rs| <= capacity && Scanned(rs, rows[..i], q)
    {
      var h := rows[i];
      assert rows[..i + 1] == rows[..i] + [h];
      if h.client != q.client && ModesConflict(h.mode, q.mode) {
        if |rs| >= capacity {
          Stopped(rs, rows, i, q);
          ScanMeans(rs, rows, q);
          return;
        }
        if Intersect(q.range, h.range).Some? {
          rs := Admit(rs, rows[..i], h, q);
        } else {
          Skipped(rs, rows[..i], h, q);
        }
      } else {
        Skipped(rs, rows[..i], h, q);
      }
      i := i + 1;
    }
    assert rows[..i] == rows;
    CountClients(rs);
    ScanMeans(rs, rows, q);
    AllMeant(rows, q);
  }

  /** What each recall stands for. */
  lemma ScanMeans(rs: seq<Recall>, rows: seq<Holding>, q: Request)
    requires AllRowsWf(rows) && Wf(q.range) && forall r | r in rs :: Comes(r, rows, q)
    ensures forall r | r in rs :: r.client != q.client && exists h | h in rows ::
              && h.client == r.client && h.seqid == r.seqid && !(h.mode == Read && q.mode == Read)
              && forall x: nat | x < MAX :: In(r.range, x) <==> In(q.range, x) && In(h.range, x)
  {
    forall r | r in rs
      ensures r.client != q.client && exists h | h in rows ::
                && h.client == r.client && h.seqid == r.seqid && !(h.mode == Read && q.mode == Read)
                && forall x: nat | x < MAX :: In(r.range, x) <==> In(q.range, x) && In(h.range, x)
    {
      var h :| h in rows && Conflicts(h, q) && r.client == h.client && r.seqid == h.seqid
            && Some(r.range) == Intersect(q.range, h.range);
      ConflictsIff(h, q);
      IntersectIsShared(q.range, h.range);
    }
  }

  lemma AllMeant(rows: seq<Holding>, q: Request)
    requires AllRowsWf(rows) && Wf(q.range)
    ensures forall h, x: nat | h in rows && h.client != q.client
              && !(h.mode == Read && q.mode == Read) && x < MAX && In(q.range, x) && In(h.range, x) ::
                h.client in ConflictClients(rows, q)
  {
    forall h, x: nat | h in rows && h.client != q.client
        && !(h.mode == Read && q.mode == Read) && x < MAX && In(q.range, x) && In(h.range, x)
      ensures h.client in ConflictClients(rows, q)
    {
      ConflictsIff(h, q);
    }
  }

  /** From grant to recall: whatever was granted under a stateid in a run without overwriting
      inserts, a request by another client for any byte of it (but the very last) in a
      conflicting mode recalls its holder, when the scan has room for all that conflict. */
  method RecallReaches(ghost trace: seq<Layout>, ghost steps: seq<Step>, ghost i: nat, ghost client: nat,
                       rows: seq<Holding>, q: Request, capacity: nat)
    returns (rs: seq<Recall>)
    requires Run(trace, steps) && i < |trace| && forall j | 0 <= j < i :: !Overwrites(trace[j], steps[j])
    requires AllRowsWf(rows) && Wf(q.range) && client != q.client && |ConflictClients(rows, q)| <= capacity
    requires trace[i].row.Some? ==>
               var row := trace[i].row.value; Holding(client, row.seqid, row.mode, row.range) in rows
    ensures forall g, x: nat | g in trace[i].granted && x < MAX && In(g.range, x) && In(q.range, x)
                               && !(g.mode == Read && q.mode == Read) :: client in ClientsOf(rs)
  {
    rs := Collect(rows, q, capacity);
    RunSound(trace, steps, i);
    forall g, x: nat | g in trace[i].granted && x < MAX && In(g.range, x) && In(q.range, x)
        && !(g.mode == Read && q.mode == Read)
      ensures client in ClientsOf(rs)
    {
      var row := trace[i].row.value;
      NeverMissed(rows, q, Holding(client, row.seqid, row.mode, row.range), g, x);
    }
  }

  lemma Widen(rs: seq<Recall>, rows: seq<Holding>, h: Holding, q: Request)
    requires AllRowsWf(rows) && Wf(q.range) && Wf(h.range)
    requires forall r | r in rs :: Comes(r, rows, q)
    ensures AllRowsWf(rows + [h]) && forall r | r in rs :: Comes(r, rows + [h], q)
    ensures ConflictClients(rows + [h], q) == ConflictClients(rows, q) + (if Conflicts(h, q) then {h.client} else {})
  {
    forall r | r in rs ensures Comes(r, rows + [h], q) {
      var o :| o in rows && Conflicts(o, q) && r.client == o.client && r.seqid == o.seqid
            && Some(r.range) == Intersect(q.range, o.range);
      assert o in rows + [h];
    }
  }

  lemma Appended(rs: seq<Recall>, r: Recall)
    requires OnePerClient(rs) && r.client !in ClientsOf(rs)
    ensures OnePerClient(rs + [r]) && ClientsOf(rs + [r]) == ClientsOf(rs) + {r.client}
  {
    assert forall i | 0 <= i < |rs| :: rs[i].client in ClientsOf(rs);
  }

  lemma Replaced(rs: seq<Recall>, k: nat, r: Recall)
    requires OnePerClient(rs) && k < |rs| && rs[k].client == r.client
    ensures OnePerClient(rs[k := r]) && ClientsOf(rs[k := r]) == ClientsOf(rs)
  {
    var rs' := rs[k := r];
    assert rs'[k] in rs' && rs[k] in rs;
    forall c | c in ClientsOf(rs) ensures c in ClientsOf(rs') {
      var o :| o in rs && o.client == c;
      var i :| 0 <= i < |rs| && rs[i] == o;
      assert rs'[i] in rs';
    }
  }

  lemma SameRecall(rs: seq<Recall>, k: nat, client: nat)
    requires OnePerClient(rs) && k < |rs| && rs[k].client == client
    ensures forall r | r in rs && r.client == client :: r == rs[k]
  {
  }

  /** The scan stopped early with a full list. */
  lemma Stopped(rs: seq<Recall>, rows: seq<Holding>, i: nat, q: Request)
    requires AllRowsWf(rows) && Wf(q.range) && i <= |rows| && OnePerClient(rs)
    requires forall r | r in rs :: Comes(r, rows[..i], q)
    ensures forall r | r in rs :: Comes(r, rows, q)
    ensures ClientsOf(rs) == ConflictClients(rows, q) <==> |ConflictClients(rows, q)| <= |rs|
  {
    forall r | r in rs ensures Comes(r, rows, q) && r.client in ConflictClients(rows, q) {
      var o :| o in rows[..i] && Conflicts(o, q) && r.client == o.client && r.seqid == o.seqid
            && Some(r.range) == Intersect(q.range, o.range);
      assert o in rows;
    }
    CountClients(rs);
    SubsetCount(ClientsOf(rs), ConflictClients(rows, q));
  }

  lemma SubsetCount(a: set<nat>, b: set<nat>)
    requires a <= b
    ensures a == b <==> |b| <= |a|
  {
    assert |b| == |a| + |b - a| by {
      assert b == a + (b - a);
    }
  }
}
