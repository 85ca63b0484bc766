/** Paged directory listing: the backend delivers rows above a cookie in cookie order, up to
    one more than a page can hold, and the page callback hides some rows and stops at the
    entry ceiling or the byte budget.  Paging to the end delivers every entry that is there
    throughout exactly once, if and only if the backend's limit does not cut the last listing
    short of a visible row on a page that nothing stopped. */
module Readdir {

  const PAGE_MAX: nat := 256
  const FRAMING: nat := 16

  /** `hidden` rows are skipped by the callback: empty names, hidden junctions, inodes whose
      creation is still pending. */
  datatype Row = Row(cookie: nat, hidden: bool, nameLength: nat)

  /** A directory: its rows by cookie. */
  type Directory = map<nat, Row>

  datatype Budget = Budget(total: nat, names: nat, attrs: nat)

  predicate Ascending(rows: seq<Row>) {
    forall i, j | 0 <= i < j < |rows| :: rows[i].cookie < rows[j].cookie
  }

  /** The rows of the directory above the cookie, in cookie order. */
  ghost predicate Lists(rows: seq<Row>, dir: Directory, cookie: nat) {
    && Ascending(rows)
    && (forall r | r in rows :: r.cookie > cookie && r.cookie in dir && dir[r.cookie] == r)
    && (forall r | r in rows && r.nameLength == 0 :: r.hidden)
    && (forall x | x in dir && x > cookie :: dir[x] in rows)
  }

  ghost predicate WellKeyed(dir: Directory) {
    forall x | x in dir :: dir[x].cookie == x
  }

  function Padded(n: nat): nat {
    (n + 3) / 4 * 4
  }

  /** The next multiple of four. */
  lemma PaddedIsNext(n: nat)
    ensures n <= Padded(n) < n + 4 && Padded(n) % 4 == 0
  {
  }

  /** The visible rows among the first `n`. */
  ghost function Visible(rows: seq<Row>): seq<Row> {
    if rows == [] then []
    else
      var front, last := Visible(rows[..|rows| - 1]), rows[|rows| - 1];
      if last.hidden then front else front + [last]
  }

  lemma {:induction false} VisibleMembers(rows: seq<Row>)
    requires Ascending(rows)
    ensures Ascending(Visible(rows))
    ensures forall r :: r in Visible(rows) <==> r in rows && !r.hidden
  {
    if rows != [] {
      var front, last := rows[..|rows| - 1], rows[|rows| - 1];
      VisibleMembers(front);
      assert rows == front + [last];
      forall r | r in Visible(front) ensures r.cookie < last.cookie {
        assert r in front;
      }
    }
  }

  lemma VisibleStep(rows: seq<Row>, i: nat)
    requires i < |rows|
    ensures Visible(rows[..i + 1]) == if rows[i].hidden then Visible(rows[..i]) else Visible(rows[..i]) + [rows[i]]
  {
    assert rows[..i + 1][..i] == rows[..i];
  }

  function Size(r: Row, attrs: nat): nat {
    FRAMING + Padded(r.nameLength) + attrs
  }

  /** Estimated bytes of some entries, with and without their attributes. */
  function Bytes(page: seq<Row>, attrs: nat): nat {
    if page == [] then 0 else Bytes(page[..|page| - 1], attrs) + Size(page[|page| - 1], attrs)
  }

  lemma BytesMore(page: seq<Row>, r: Row, attrs: nat)
    ensures Bytes(page + [r], attrs) == Bytes(page, attrs) + Size(r, attrs)
  {
    assert (page + [r])[..|page|] == page;
  }

  /** An entry takes sixteen bytes, its name padded, and its attributes. */
  lemma BytesInAll(page: seq<Row>, r: Row, attrs: nat)
    ensures Bytes([], attrs) == 0 && Bytes(page + [r], attrs) == Bytes(page, attrs) + 16 + Padded(r.nameLength) + attrs
  {
    BytesMore(page, r, attrs);
  }

  /** No room for one more entry: the ceiling, or one of the byte budgets (which never stop
      the first entry). */
  predicate NoRoom(count: nat, used: nat, names: nat, b: Budget) {
    count >= PAGE_MAX || (count >= 1 && (used > b.total || (b.names > 0 && names > b.names)))
  }

  predicate Stops(page: seq<Row>, r: Row, b: Budget) {
    NoRoom(|page|, Bytes(page + [r], b.attrs), Bytes(page + [r], 0), b)
  }

  /** How many rows the backend delivers. */
  function Limit(rows: seq<Row>): nat {
    if |rows| <= PAGE_MAX + 1 then |rows| else PAGE_MAX + 1
  }

  /** The page is full at row `k`: a visible row the backend delivers and there is no room for. */
  ghost predicate FullAt(rows: seq<Row>, b: Budget, k: nat) {
    k < Limit(rows) && !rows[k].hidden && Stops(Visible(rows[..k]), rows[k], b)
  }

  ghost predicate NeverFull(rows: seq<Row>, b: Budget) {
    forall k: nat :: !FullAt(rows, b, k)
  }

  /** The page of a listing: its visible rows up to where it is first full, or all that the
      backend delivers; and then, and only then, the end of the directory is reported. */
  ghost predicate IsPage(rows: seq<Row>, b: Budget, page: seq<Row>, eof: bool, n: nat) {
    && n <= Limit(rows) && page == Visible(rows[..n])
    && (eof <==> NeverFull(rows, b))
    && (if eof then n == Limit(rows) else FullAt(rows, b, n) && forall k: nat | k < n :: !FullAt(rows, b, k))
  }

  /** The page after the first `i` rows, with its two byte counts. */
  ghost predicate SoFar(rows: seq<Row>, b: Budget, i: nat, page: seq<Row>, used: nat, names: nat) {
    && i <= Limit(rows) && page == Visible(rows[..i]) && |page| <= PAGE_MAX
    && used == Bytes(page, b.attrs) && names == Bytes(page, 0)
    && (forall k: nat | k < i :: !FullAt(rows, b, k))
  }

  lemma Skips(rows: seq<Row>, b: Budget, i: nat, page: seq<Row>, used: nat, names: nat)
    requires SoFar(rows, b, i, page, used, names) && i < Limit(rows) && rows[i].hidden
    ensures SoFar(rows, b, i + 1, page, used, names)
  {
    VisibleStep(rows, i);
  }

  lemma Meets(rows: seq<Row>, b: Budget, i: nat, page: seq<Row>, used: nat, names: nat)
    requires SoFar(rows, b, i, page, used, names) && i < Limit(rows) && !rows[i].hidden
    ensures FullAt(rows, b, i) <==> NoRoom(|page|, used + Size(rows[i], b.attrs), names + Size(rows[i], 0), b)
  {
    BytesMore(page, rows[i], b.attrs);
    BytesMore(page, rows[i], 0);
  }

  lemma Takes(rows: seq<Row>, b: Budget, i: nat, page: seq<Row>, used: nat, names: nat)
    requires SoFar(rows, b, i, page, used, names) && i < Limit(rows) && !rows[i].hidden && !FullAt(rows, b, i)
    ensures SoFar(rows, b, i + 1, page + [rows[i]], used + Size(rows[i], b.attrs), names + Size(rows[i], 0))
  {
    VisibleStep(rows, i);
    BytesMore(page, rows[i], b.attrs);
    BytesMore(page, rows[i], 0);
  }

  /** One page over the rows above the cookie. */
  method ReadPage(rows: seq<Row>, b: Budget) returns (page: seq<Row>, eof: bool, ghost n: nat)
    ensures IsPage(rows, b, page, eof, n) && |page| <= PAGE_MAX && (!eof ==> page != [])
    // A page of more than one entry keeps within the budgets, and one more would not.
    ensures |page| <= 256
    ensures |page| > 1 ==> Bytes(page, b.attrs) <= b.total && (b.names > 0 ==> Bytes(page, 0) <= b.names)
    ensures !eof ==> n < |rows| && !rows[n].hidden
    ensures !eof && |page| < 256 ==>
              Bytes(page + [rows[n]], b.attrs) > b.total || (b.names > 0 && Bytes(page + [rows[n]], 0) > b.names)
  {
    page := [];
    var used: nat, names: nat, i: nat := 0, 0, 0;
    while i < |rows| && i < PAGE_MAX + 1
      invariant SoFar(rows, b, i, page, used, names)
      invariant |page| > 1 ==> used <= b.total && (b.names > 0 ==> names <= b.names)
    {
      if rows[i].hidden {
        Skips(rows, b, i, page, used, names);
      } else {
        Meets(rows, b, i, page, used, names);
        if NoRoom(|page|, used + Size(rows[i], b.attrs), names + Size(rows[i], 0), b) {
          return page, false, i;
        }
        Takes(rows, b, i, page, used, names);
        page, used, names := page + [rows[i]], used + Size(rows[i], b.attrs), names + Size(rows[i], 0);
      }
      i := i + 1;
    }
    return page, true, i;
  }

  /** What a page promises about the directory it was read from. */
  ghost predicate Covers(page: seq<Row>, eof: bool, dir: Directory, cookie: nat) {
    && Ascending(page)
    && (forall r | r in page :: r.cookie > cookie && r.cookie in dir && dir[r.cookie] == r && !r.hidden)
    && (!eof ==> page != [])
    && (forall x | x in dir && x > cookie && !dir[x].hidden && (page != [] && x <= page[|page| - 1].cookie) ::
        dir[x] in page)
  }

  /** End of directory was reported although a visible row lies beyond the delivered ones. */
  ghost predicate EndsEarly(page: seq<Row>, eof: bool, dir: Directory, cookie: nat) {
    eof && exists x | x in dir && x > cookie && !dir[x].hidden :: dir[x] !in page
  }

  /** What comes no later than a row of the front is in the front. */
  lemma NoLater(rows: seq<Row>, n: nat, r: Row, last: Row)
    requires n <= |rows| && Ascending(rows) && r in rows && last in rows[..n] && r.cookie <= last.cookie
    ensures r in rows[..n]
  {
    var k :| 0 <= k < |rows| && rows[k] == r;
    var m :| 0 <= m < n && rows[..n][m] == last;
    assert k <= m;
    assert rows[..n][k] == r;
  }

  lemma FrontIsListed(rows: seq<Row>, n: nat, dir: Directory, cookie: nat, r: Row)
    requires n <= |rows| && Lists(rows, dir, cookie) && r in rows[..n]
    ensures r.cookie > cookie && r.cookie in dir && dir[r.cookie] == r
  {
    assert r in rows;
  }

  lemma FullIsNotEmpty(rows: seq<Row>, b: Budget, n: nat)
    requires FullAt(rows, b, n)
    ensures Visible(rows[..n]) != []
  {
  }

  lemma VisibleCovers(rows: seq<Row>, n: nat, eof: bool, dir: Directory, cookie: nat)
    requires n <= |rows| && WellKeyed(dir) && Lists(rows, dir, cookie) && (!eof ==> Visible(rows[..n]) != [])
    ensures Covers(Visible(rows[..n]), eof, dir, cookie)
  {
    var page := Visible(rows[..n]);
    VisibleMembers(rows[..n]);
    forall r | r in page ensures r.cookie > cookie && r.cookie in dir && dir[r.cookie] == r && !r.hidden {
      FrontIsListed(rows, n, dir, cookie, r);
    }
    forall x | x in dir && x > cookie && !dir[x].hidden && (page != [] && x <= page[|page| - 1].cookie)
      ensures dir[x] in page
    {
      NoLater(rows, n, dir[x], page[|page| - 1]);
    }
  }

  lemma PageCovers(rows: seq<Row>, b: Budget, page: seq<Row>, eof: bool, n: nat, dir: Directory, cookie: nat)
    requires WellKeyed(dir) && Lists(rows, dir, cookie) && IsPage(rows, b, page, eof, n)
    ensures Covers(page, eof, dir, cookie)
  {
    if !eof {
      FullIsNotEmpty(rows, b, n);
    }
    VisibleCovers(rows, n, eof, dir, cookie);
  }

  /** A visible row beyond what the backend delivers. */
  ghost predicate CutShort(rows: seq<Row>) {
    exists k :: PAGE_MAX + 1 <= k < |rows| && !rows[k].hidden
  }

  /** Told from the listing and the budget: nothing fills the page, and the backend's limit
      cuts off a visible row. */
  ghost predicate Early(rows: seq<Row>, b: Budget) {
    NeverFull(rows, b) && CutShort(rows)
  }

  /** A page ends early exactly then. */
  lemma EndsEarlyIff(rows: seq<Row>, b: Budget, page: seq<Row>, eof: bool, n: nat, dir: Directory, cookie: nat)
    requires WellKeyed(dir) && Lists(rows, dir, cookie) && IsPage(rows, b, page, eof, n)
    ensures EndsEarly(page, eof, dir, cookie) <==> Early(rows, b)
  {
    VisibleMembers(rows[..n]);
    if eof {
      forall x | x in dir && x > cookie && !dir[x].hidden
        ensures dir[x] in page <==> exists k :: 0 <= k < n && rows[k] == dir[x]
      {
      }
      if k :| PAGE_MAX + 1 <= k < |rows| && !rows[k].hidden {
        var x := rows[k].cookie;
        assert rows[k] in rows;
        assert forall i | 0 <= i < n :: rows[i] != rows[k];
      }
    }
  }

  /** A listing for which some budget makes the page end early, and only such a one: it hides
      a row among those the backend delivers and has a visible one beyond. */
  ghost predicate Risky(rows: seq<Row>) {
    CutShort(rows) && exists h :: 0 <= h < Limit(rows) && rows[h].hidden
  }

  lemma EarlyForSomeBudgetIff(rows: seq<Row>)
    ensures (exists b :: Early(rows, b)) <==> Risky(rows)
  {
    if Risky(rows) {
      var b := Budget(Bytes(Visible(rows[..Limit(rows)]), 0), 0, 0);
      forall k: nat | k < Limit(rows) && !rows[k].hidden ensures !FullAt(rows, b, k) {
        VisibleStep(rows, k);
        BytesGrow(rows, k + 1, Limit(rows));
        RoomUnlessAllVisible(rows, k);
      }
      assert Early(rows, b);
    }
    if b :| Early(rows, b) {
      if forall h | 0 <= h < Limit(rows) :: !rows[h].hidden {
        AllVisible(rows, PAGE_MAX);
        assert FullAt(rows, b, PAGE_MAX);
      }
    }
  }

  lemma BytesStep(rows: seq<Row>, k: nat)
    requires k < |rows|
    ensures Bytes(Visible(rows[..k]), 0) <= Bytes(Visible(rows[..k + 1]), 0)
  {
    VisibleStep(rows, k);
    BytesMore(Visible(rows[..k]), rows[k], 0);
  }

  lemma {:induction false} BytesGrow(rows: seq<Row>, i: nat, j: nat)
    requires i <= j <= |rows|
    ensures Bytes(Visible(rows[..i]), 0) <= Bytes(Visible(rows[..j]), 0)
    decreases j
  {
    if i < j {
      BytesGrow(rows, i, j - 1);
      BytesStep(rows, j - 1);
    }
  }

  lemma {:induction false} AllVisible(rows: seq<Row>, k: nat)
    requires k <= |rows| && forall h | 0 <= h < k :: !rows[h].hidden
    ensures |Visible(rows[..k])| == k
  {
    if k > 0 {
      AllVisible(rows, k - 1);
      VisibleStep(rows, k - 1);
    }
  }

  /** The ceiling is met at a row the backend delivers only if all rows before it are visible. */
  lemma RoomUnlessAllVisible(rows: seq<Row>, k: nat)
    requires Risky(rows) && k < Limit(rows) && !rows[k].hidden
    ensures |Visible(rows[..k])| < PAGE_MAX
  {
    var h :| 0 <= h < Limit(rows) && rows[h].hidden;
    VisibleAtMost(rows, k);
    if h < k {
      assert exists i :: 0 <= i < k && rows[i].hidden;
    } else {
      assert k < h <= PAGE_MAX;
    }
  }

  lemma {:induction false} VisibleAtMost(rows: seq<Row>, k: nat)
    requires k <= |rows|
    ensures |Visible(rows[..k])| <= k
    ensures (exists h :: 0 <= h < k && rows[h].hidden) ==> |Visible(rows[..k])| < k
  {
    if k > 0 {
      VisibleAtMost(rows, k - 1);
      VisibleStep(rows, k - 1);
    }
  }

  /** A hidden row followed by 257 visible ones with names of one byte. */
  function LongListing(): seq<Row> {
    seq(PAGE_MAX + 2, i requires 0 <= i < PAGE_MAX + 2 => Row(i + 3, i == 0, 1))
  }

  /** The largest reply, with 64 bytes of attributes per entry. */
  const LARGEST: Budget := Budget(253952, 0, 64)

  function AsDirectory(rows: seq<Row>): Directory {
    if rows == [] then map[] else AsDirectory(rows[..|rows| - 1])[rows[|rows| - 1].cookie := rows[|rows| - 1]]
  }

  lemma {:induction false} AsDirectoryLists(rows: seq<Row>)
    requires Ascending(rows) && forall r | r in rows :: r.cookie > 0 && (r.nameLength == 0 ==> r.hidden)
    ensures Lists(rows, AsDirectory(rows), 0) && WellKeyed(AsDirectory(rows))
  {
    if rows != [] {
      var front, last := rows[..|rows| - 1], rows[|rows| - 1];
      AsDirectoryLists(front);
      assert rows == front + [last];
      forall r | r in front ensures r.cookie != last.cookie {
      }
    }
  }

  lemma LongListingFits(k: nat)
    requires 0 < k <= PAGE_MAX
    ensures !FullAt(LongListing(), LARGEST, k)
  {
    var rows := LongListing();
    assert rows[0].hidden;
    VisibleAtMost(rows, k);
    VisibleMembersOf(rows[..k]);
    var page := Visible(rows[..k]) + [rows[k]];
    forall r | r in page ensures r.nameLength == 1 {
      assert r in rows[..k] || r == rows[k];
    }
    SmallBytes(page);
  }

  /** With the largest budget, whatever page is read from the long listing reports the end of the
      directory and leaves its last entry out. */
  lemma EarlyEnd(page: seq<Row>, eof: bool, n: nat)
    requires IsPage(LongListing(), LARGEST, page, eof, n)
    ensures eof && EndsEarly(page, eof, AsDirectory(LongListing()), 0)
  {
    var rows, b := LongListing(), LARGEST;
    forall k: nat | k < Limit(rows) && !rows[k].hidden ensures !FullAt(rows, b, k) {
      LongListingFits(k);
    }
    AsDirectoryLists(rows);
    assert !rows[PAGE_MAX + 1].hidden;
    EndsEarlyIff(rows, b, page, eof, n, AsDirectory(rows), 0);
  }

  lemma {:induction false} VisibleMembersOf(rows: seq<Row>)
    ensures forall r | r in Visible(rows) :: r in rows
  {
    if rows != [] {
      VisibleMembersOf(rows[..|rows| - 1]);
    }
  }

  lemma {:induction false} SmallBytes(page: seq<Row>)
    requires forall r | r in page :: r.nameLength == 1
    ensures Bytes(page, 64) == 84 * |page| && Bytes(page, 0) == 20 * |page|
  {
    if page != [] {
      SmallBytes(page[..|page| - 1]);
      assert page[|page| - 1] in page;
    }
  }

  // ---------------------------------------------------------------------------
  // Paging to the end
  // ---------------------------------------------------------------------------

  /** One call: the directory at that time, the rows above the resume cookie, and the page. */
  datatype Call = Call(dir: Directory, cookie: nat, rows: seq<Row>, b: Budget, page: seq<Row>, n: nat)

  /** The call answers as ReadPage does. */
  ghost predicate Answers(c: Call, eof: bool) {
    && WellKeyed(c.dir) && Lists(c.rows, c.dir, c.cookie)
    && IsPage(c.rows, c.b, c.page, eof, c.n) && (!eof ==> c.page != [])
  }

  /** A client pages from the start until a page reports the end, resuming after the last
      cookie delivered; the directory may change between calls. */
  ghost predicate Paged(cs: seq<Call>) {
    && |cs| > 0 && cs[0].cookie == 0
    && (forall i | 0 <= i < |cs| :: Turn(cs, i))
  }

  ghost predicate Turn(cs: seq<Call>, i: nat)
    requires i < |cs|
  {
    && Answers(cs[i], i == |cs| - 1)
    && (i < |cs| - 1 ==> cs[i + 1].cookie == cs[i].page[|cs[i].page| - 1].cookie)
  }

  lemma CallCovers(cs: seq<Call>, i: nat)
    requires Paged(cs) && i < |cs|
    ensures Covers(cs[i].page, i == |cs| - 1, cs[i].dir, cs[i].cookie)
  {
    assert Turn(cs, i);
    PageCovers(cs[i].rows, cs[i].b, cs[i].page, i == |cs| - 1, cs[i].n, cs[i].dir, cs[i].cookie);
  }

  /** Every page but the last moves the resume cookie past all it delivered. */
  lemma PageAdvances(cs: seq<Call>, i: nat)
    requires Paged(cs) && i < |cs| - 1
    ensures cs[i].cookie < cs[i + 1].cookie
    ensures forall r | r in cs[i].page :: r.cookie <= cs[i + 1].cookie
  {
    CallCovers(cs, i);
    assert Turn(cs, i);
    assert cs[i].page[|cs[i].page| - 1] in cs[i].page;
  }

  lemma {:induction false} ResumeGrows(cs: seq<Call>, i: nat, j: nat)
    requires Paged(cs) && i <= j < |cs|
    ensures cs[i].cookie <= cs[j].cookie
    decreases j
  {
    if i < j {
      ResumeGrows(cs, i, j - 1);
      PageAdvances(cs, j - 1);
    }
  }

  /** No cookie is delivered on two pages, however the paging ends. */
  lemma NothingTwice(cs: seq<Call>, i: nat, j: nat, r: Row, q: Row)
    requires Paged(cs) && i < j < |cs| && r in cs[i].page && q in cs[j].page
    ensures r.cookie < q.cookie
  {
    PageAdvances(cs, i);
    ResumeGrows(cs, i + 1, j);
    CallCovers(cs, j);
  }

  /** An entry that is there, visible, at every call. */
  ghost predicate Stays(cs: seq<Call>, x: nat) {
    forall i | 0 <= i < |cs| :: x in cs[i].dir && !cs[i].dir[x].hidden
  }

  ghost predicate Delivered(cs: seq<Call>, x: nat, i: nat) {
    i < |cs| && exists r | r in cs[i].page :: r.cookie == x
  }

  lemma LastIsEarlyIff(cs: seq<Call>)
    requires Paged(cs)
    ensures var c := cs[|cs| - 1]; EndsEarly(c.page, true, c.dir, c.cookie) <==> Early(c.rows, c.b)
  {
    var c := cs[|cs| - 1];
    assert Turn(cs, |cs| - 1);
    EndsEarlyIff(c.rows, c.b, c.page, true, c.n, c.dir, c.cookie);
  }

  /** Unless the last listing is cut short, an entry that stays is delivered on some page,
      even when the entry of a resume cookie was removed meanwhile. */
  lemma {:induction false} NothingMissed(cs: seq<Call>, x: nat, k: nat)
    requires Paged(cs) && k < |cs| && x > cs[k].cookie && Stays(cs, x)
    requires !Early(cs[|cs| - 1].rows, cs[|cs| - 1].b)
    ensures exists i: nat :: k <= i && Delivered(cs, x, i)
    decreases |cs| - k
  {
    var c := cs[k];
    CallCovers(cs, k);
    assert Turn(cs, k);
    if k == |cs| - 1 {
      LastIsEarlyIff(cs);
      assert c.dir[x] in c.page;
      assert Delivered(cs, x, k);
    } else if x <= c.page[|c.page| - 1].cookie {
      assert c.dir[x] in c.page;
      assert Delivered(cs, x, k);
    } else {
      NothingMissed(cs, x, k + 1);
    }
  }

  /** Every entry present throughout is delivered on exactly one page, unless the last
      listing is cut short. */
  lemma ExactlyOnce(cs: seq<Call>, x: nat)
    requires Paged(cs) && x > 0 && Stays(cs, x) && !Early(cs[|cs| - 1].rows, cs[|cs| - 1].b)
    ensures exists i: nat :: Delivered(cs, x, i)
    ensures forall i: nat, j: nat | Delivered(cs, x, i) && Delivered(cs, x, j) :: i == j
  {
    NothingMissed(cs, x, 0);
    forall i: nat, j: nat | i < j && Delivered(cs, x, i) && Delivered(cs, x, j) ensures false {
      var r :| r in cs[i].page && r.cookie == x;
      var q :| q in cs[j].page && q.cookie == x;
      NothingTwice(cs, i, j, r, q);
    }
  }

  /** In particular when the last listing is short or hides nothing within the limit. */
  lemma ExactlyOnceUnlessRisky(cs: seq<Call>, x: nat)
    requires Paged(cs) && x > 0 && Stays(cs, x) && !Risky(cs[|cs| - 1].rows)
    ensures exists i: nat :: Delivered(cs, x, i)
    ensures forall i: nat, j: nat | Delivered(cs, x, i) && Delivered(cs, x, j) :: i == j
  {
    EarlyForSomeBudgetIff(cs[|cs| - 1].rows);
    ExactlyOnce(cs, x);
  }

  /** The condition is exact: of a directory nobody changes, every visible entry is delivered
      if and only if the last listing is not cut short. */
  lemma QuietPagingIff(cs: seq<Call>, dir: Directory)
    requires Paged(cs) && forall i | 0 <= i < |cs| :: cs[i].dir == dir
    ensures (forall x | x in dir && x > 0 && !dir[x].hidden :: exists i: nat :: Delivered(cs, x, i))
       <==> !Early(cs[|cs| - 1].rows, cs[|cs| - 1].b)
  {
    var last := |cs| - 1;
    if Early(cs[last].rows, cs[last].b) {
      LastIsEarlyIff(cs);
      var x :| x in dir && x > cs[last].cookie && !dir[x].hidden && dir[x] !in cs[last].page;
      forall i: nat ensures !Delivered(cs, x, i) {
        if i < |cs| {
          CallCovers(cs, i);
          if i < last {
            PageAdvances(cs, i);
            ResumeGrows(cs, i + 1, last);
          }
        }
      }
    } else {
      forall x | x in dir && x > 0 && !dir[x].hidden ensures exists i: nat :: Delivered(cs, x, i) {
        NothingMissed(cs, x, 0);
      }
    }
  }
}
