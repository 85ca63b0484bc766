/** The namespace tables of the catalogue (inode, dirent, stripe and GC rows) as one
    value, the atomic namespace operations as reference transitions on it, and what
    every run of those operations keeps.

    A reference transition edits the name table and then recounts every link from the
    names (`Settle`); it never looks at a stored link count.  The transactions of the
    store, which only ever bump counters, are proved equal to these transitions in
    module Catalogue. */
module Namespace {

  type Fileid = nat
  type Name = string
  type DsId = nat

  const ROOT: Fileid := 2

  datatype Kind = Dir | Reg | Other
  datatype Inode = Inode(kind: Kind, nlink: nat, orphan: bool, parent: Fileid)
  datatype Key = Key(parent: Fileid, name: Name)
  datatype Dirent = Dirent(child: Fileid, kind: Kind)
  datatype GcRow = GcRow(fileid: Fileid, ds: DsId)

  type Inodes = map<Fileid, Inode>
  type Dirents = map<Key, Dirent>

  /** `used` holds every fileid ever given to a create: fileids come from monotonic
      batches and are never reused. */
  datatype Store = Store(
    inodes: Inodes,
    dirents: Dirents,
    stripes: map<Fileid, set<DsId>>,
    gc: seq<GcRow>,
    used: set<Fileid>)

  // ---------------------------------------------------------------------------
  // Link counts as a function of the names alone
  // ---------------------------------------------------------------------------

  ghost function Names(d: Dirents, f: Fileid): set<Key> {
    set k | k in d && d[k].child == f
  }

  ghost function Subdirs(d: Dirents, p: Fileid): set<Key> {
    set k | k in d && k.parent == p && d[k].kind.Dir?
  }

  /** A directory counts itself, its "." and one ".." per child directory; any other
      object counts its names. */
  ghost function LinkCount(d: Dirents, f: Fileid, kind: Kind): nat {
    if kind.Dir? then 2 + |Subdirs(d, f)| else |Names(d, f)|
  }

  /** What one dirent adds to the link count of `f`. */
  function Share(k: Key, e: Dirent, f: Fileid, kind: Kind): nat {
    if kind.Dir? then (if k.parent == f && e.kind.Dir? then 1 else 0)
    else (if e.child == f then 1 else 0)
  }

  /** Every row with its link count recounted from the names. */
  ghost function Settle(inodes: Inodes, d: Dirents): Inodes {
    map f | f in inodes :: inodes[f].(nlink := LinkCount(d, f, inodes[f].kind))
  }

  lemma NamesPut(d: Dirents, k: Key, e: Dirent, f: Fileid)
    requires k !in d
    ensures |Names(d[k := e], f)| == |Names(d, f)| + (if e.child == f then 1 else 0)
  {
    if e.child == f {
      assert Names(d[k := e], f) == Names(d, f) + {k};
    } else {
      assert Names(d[k := e], f) == Names(d, f);
    }
  }

  lemma SubdirsPut(d: Dirents, k: Key, e: Dirent, f: Fileid)
    requires k !in d
    ensures |Subdirs(d[k := e], f)| == |Subdirs(d, f)| + (if k.parent == f && e.kind.Dir? then 1 else 0)
  {
    if k.parent == f && e.kind.Dir? {
      assert Subdirs(d[k := e], f) == Subdirs(d, f) + {k};
    } else {
      assert Subdirs(d[k := e], f) == Subdirs(d, f);
    }
  }

  lemma NamesDel(d: Dirents, k: Key, f: Fileid)
    requires k in d
    ensures |Names(d, f)| == |Names(d - {k}, f)| + (if d[k].child == f then 1 else 0)
  {
    assert d == (d - {k})[k := d[k]];
    NamesPut(d - {k}, k, d[k], f);
  }

  lemma LinkCountPut(d: Dirents, k: Key, e: Dirent, f: Fileid, kind: Kind)
    requires k !in d
    ensures LinkCount(d[k := e], f, kind) == LinkCount(d, f, kind) + Share(k, e, f, kind)
  {
    NamesPut(d, k, e, f);
    SubdirsPut(d, k, e, f);
  }

  lemma LinkCountDel(d: Dirents, k: Key, f: Fileid, kind: Kind)
    requires k in d
    ensures LinkCount(d, f, kind) == LinkCount(d - {k}, f, kind) + Share(k, d[k], f, kind)
  {
    assert d == (d - {k})[k := d[k]];
    LinkCountPut(d - {k}, k, d[k], f, kind);
  }

  // ---------------------------------------------------------------------------
  // The invariant
  // ---------------------------------------------------------------------------

  /** No dirent has a missing parent or child, its type column is the child's type,
      and the root has no name. */
  ghost predicate NamesResolve(s: Store) {
    && ROOT in s.inodes && s.inodes[ROOT].kind.Dir?
    && forall k | k in s.dirents ::
         && k.parent in s.inodes && s.inodes[k.parent].kind.Dir?
         && s.dirents[k].child in s.inodes && s.dirents[k].child != ROOT
         && s.dirents[k].kind == s.inodes[s.dirents[k].child].kind
  }

  /** Every stored link count is the count of the names, and only an unlinked-but-open
      orphan has none. */
  ghost predicate CountsExact(s: Store) {
    forall f | f in s.inodes ::
      && s.inodes[f].nlink == LinkCount(s.dirents, f, s.inodes[f].kind)
      && (s.inodes[f].nlink == 0 ==> s.inodes[f].orphan)
  }

  /** Every directory but the root has exactly one name, in the directory its parent
      column records. */
  ghost predicate OneNamePerDir(s: Store) {
    && (forall f | f in s.inodes && s.inodes[f].kind.Dir? && f != ROOT :: |Names(s.dirents, f)| == 1)
    && (forall k | k in s.dirents && s.dirents[k].kind.Dir? && s.dirents[k].child in s.inodes ::
          s.inodes[s.dirents[k].child].parent == k.parent)
  }

  ghost predicate Inv(s: Store) {
    && NamesResolve(s)
    && CountsExact(s)
    && OneNamePerDir(s)
    && s.inodes.Keys <= s.used
  }

  ghost predicate IsEmptyDir(d: Dirents, p: Fileid) {
    forall k | k in d :: k.parent != p
  }

  /** The store right after bootstrap: the root row with link count 2. */
  function Bootstrap(): Store {
    Store(map[ROOT := Inode(Dir, 2, false, 0)], map[], map[], [], {ROOT})
  }

  lemma BootstrapHolds()
    ensures Inv(Bootstrap())
  {
    assert Subdirs(map[], ROOT) == {};
  }

  // ---------------------------------------------------------------------------
  // Reference transitions
  // ---------------------------------------------------------------------------

  ghost predicate CanCreate(s: Store, k: Key, fid: Fileid) {
    k !in s.dirents && k.parent in s.inodes && s.inodes[k.parent].kind.Dir? && fid !in s.used
  }

  ghost function Created(s: Store, k: Key, fid: Fileid, kind: Kind, ds: set<DsId>): Store {
    var d := s.dirents[k := Dirent(fid, kind)];
    Store(Settle(s.inodes[fid := Inode(kind, 0, false, k.parent)], d), d,
          if kind.Reg? && ds != {} then s.stripes[fid := ds] else s.stripes,
          s.gc, s.used + {fid})
  }

  ghost predicate CanLink(s: Store, k: Key, target: Fileid) {
    && k !in s.dirents && k.parent in s.inodes && s.inodes[k.parent].kind.Dir?
    && target in s.inodes && !s.inodes[target].kind.Dir?
  }

  ghost function Linked(s: Store, k: Key, target: Fileid): Store
    requires target in s.inodes
  {
    var d := s.dirents[k := Dirent(target, s.inodes[target].kind)];
    s.(inodes := Settle(s.inodes, d), dirents := d)
  }

  /** The object a name stands for, is it removable? */
  ghost predicate CanUnlink(s: Store, k: Key) {
    k in s.dirents && (s.dirents[k].kind.Dir? ==> IsEmptyDir(s.dirents, s.dirents[k].child))
  }

  /** The name goes; the object goes with it when it was a directory or had no other
      name, and then takes its stripe map along and leaves `rows` in the GC queue. */
  ghost function Unlinked(s: Store, k: Key, rows: seq<GcRow>): Store
    requires k in s.dirents
  {
    var d := s.dirents - {k};
    var child := s.dirents[k].child;
    if s.dirents[k].kind.Dir? || Names(d, child) == {} then
      Store(Settle(s.inodes - {child}, d), d, s.stripes - {child}, s.gc + rows, s.used)
    else
      s.(inodes := Settle(s.inodes, d), dirents := d)
  }

  /** POSIX rename is possible: the source exists, the destination is another object,
      and a displaced destination has the source's directory-ness and is empty. */
  ghost predicate CanRename(s: Store, src: Key, dst: Key) {
    && src in s.dirents && src != dst
    && dst.parent in s.inodes && s.inodes[dst.parent].kind.Dir?
    && (dst in s.dirents ==>
          && s.dirents[dst].child != s.dirents[src].child
          && (s.dirents[dst].kind.Dir? <==> s.dirents[src].kind.Dir?)
          && (s.dirents[dst].kind.Dir? ==> IsEmptyDir(s.dirents, s.dirents[dst].child)))
  }

  /** The source name moves over the destination name; a displaced object with no name
      left goes, unless it is a regular file kept as an open orphan. */
  ghost function Renamed(s: Store, src: Key, dst: Key, keepOrphan: bool): Store
    requires src in s.dirents
  {
    var d := (s.dirents - {src})[dst := s.dirents[src]];
    var moved := s.dirents[src].child;
    var rows := if moved in s.inodes && src.parent != dst.parent
                then s.inodes[moved := s.inodes[moved].(parent := dst.parent)] else s.inodes;
    s.(inodes := Settle(Displaced(s, dst, d, rows, keepOrphan), d), dirents := d)
  }

  ghost function Displaced(s: Store, dst: Key, d: Dirents, rows: Inodes, keepOrphan: bool): Inodes {
    if dst !in s.dirents || s.dirents[dst].child !in rows then rows
    else
      var victim := s.dirents[dst].child;
      if s.dirents[dst].kind.Dir? then rows - {victim}
      else if Names(d, victim) != {} then rows
      else if keepOrphan && s.dirents[dst].kind.Reg? then rows[victim := rows[victim].(orphan := true)]
      else rows - {victim}
  }

  // ---------------------------------------------------------------------------
  // Every transition keeps the invariant
  // ---------------------------------------------------------------------------

  lemma CreatedResolves(s: Store, k: Key, fid: Fileid, kind: Kind, ds: set<DsId>)
    requires NamesResolve(s) && s.inodes.Keys <= s.used && CanCreate(s, k, fid)
    ensures NamesResolve(Created(s, k, fid, kind, ds))
  {
  }

  lemma CreatedCounts(s: Store, k: Key, fid: Fileid, kind: Kind, ds: set<DsId>)
    requires Inv(s) && CanCreate(s, k, fid)
    ensures CountsExact(Created(s, k, fid, kind, ds))
  {
    var s' := Created(s, k, fid, kind, ds);
    forall f | f in s'.inodes ensures s'.inodes[f].nlink == 0 ==> s'.inodes[f].orphan {
      LinkCountPut(s.dirents, k, Dirent(fid, kind), f, s'.inodes[f].kind);
    }
  }

  lemma CreatedDirNames(s: Store, k: Key, fid: Fileid, kind: Kind, ds: set<DsId>)
    requires Inv(s) && CanCreate(s, k, fid)
    ensures OneNamePerDir(Created(s, k, fid, kind, ds))
  {
    var s' := Created(s, k, fid, kind, ds);
    forall f | f in s'.inodes && s'.inodes[f].kind.Dir? && f != ROOT ensures |Names(s'.dirents, f)| == 1 {
      NamesPut(s.dirents, k, Dirent(fid, kind), f);
      assert f == fid ==> Names(s.dirents, f) == {};
    }
  }

  lemma CreatedKeepsInv(s: Store, k: Key, fid: Fileid, kind: Kind, ds: set<DsId>)
    requires Inv(s) && CanCreate(s, k, fid)
    ensures Inv(Created(s, k, fid, kind, ds))
  {
    CreatedResolves(s, k, fid, kind, ds);
    CreatedCounts(s, k, fid, kind, ds);
    CreatedDirNames(s, k, fid, kind, ds);
  }

  lemma LinkedCounts(s: Store, k: Key, target: Fileid)
    requires Inv(s) && CanLink(s, k, target)
    ensures CountsExact(Linked(s, k, target))
  {
    var s' := Linked(s, k, target);
    forall f | f in s'.inodes ensures s'.inodes[f].nlink == 0 ==> s'.inodes[f].orphan {
      LinkCountPut(s.dirents, k, s'.dirents[k], f, s'.inodes[f].kind);
    }
  }

  lemma LinkedDirNames(s: Store, k: Key, target: Fileid)
    requires OneNamePerDir(s) && CanLink(s, k, target)
    ensures OneNamePerDir(Linked(s, k, target))
  {
    var s' := Linked(s, k, target);
    forall f | f in s'.inodes && s'.inodes[f].kind.Dir? && f != ROOT ensures |Names(s'.dirents, f)| == 1 {
      NamesPut(s.dirents, k, s'.dirents[k], f);
    }
  }

  lemma LinkedKeepsInv(s: Store, k: Key, target: Fileid)
    requires Inv(s) && CanLink(s, k, target)
    ensures Inv(Linked(s, k, target))
  {
    LinkedCounts(s, k, target);
    LinkedDirNames(s, k, target);
  }

  lemma OtherNameStays(s: Store, k: Key, k': Key)
    requires NamesResolve(s) && OneNamePerDir(s) && CanUnlink(s, k) && k' in s.dirents && k' != k
    requires s.dirents[k].kind.Dir? || Names(s.dirents - {k}, s.dirents[k].child) == {}
    ensures s.dirents[k'].child != s.dirents[k].child && k'.parent != s.dirents[k].child
  {
    var child := s.dirents[k].child;
    NamesDel(s.dirents, k, child);
    assert s.dirents[k'].child == child ==> k' in Names(s.dirents - {k}, child);
  }

  lemma UnlinkedResolves(s: Store, k: Key, rows: seq<GcRow>)
    requires NamesResolve(s) && OneNamePerDir(s) && CanUnlink(s, k)
    ensures NamesResolve(Unlinked(s, k, rows))
  {
    if s.dirents[k].kind.Dir? || Names(s.dirents - {k}, s.dirents[k].child) == {} {
      forall k' | k' in s.dirents && k' != k
        ensures s.dirents[k'].child != s.dirents[k].child && k'.parent != s.dirents[k].child
      {
        OtherNameStays(s, k, k');
      }
    }
  }

  lemma UnlinkedCounts(s: Store, k: Key, rows: seq<GcRow>)
    requires Inv(s) && CanUnlink(s, k)
    ensures CountsExact(Unlinked(s, k, rows))
  {
    var s' := Unlinked(s, k, rows);
    forall f | f in s'.inodes ensures s'.inodes[f].nlink == 0 ==> s'.inodes[f].orphan {
      LinkCountDel(s.dirents, k, f, s'.inodes[f].kind);
    }
  }

  lemma UnlinkedDirNames(s: Store, k: Key, rows: seq<GcRow>)
    requires Inv(s) && CanUnlink(s, k)
    ensures OneNamePerDir(Unlinked(s, k, rows))
  {
    var s' := Unlinked(s, k, rows);
    forall f | f in s'.inodes && s'.inodes[f].kind.Dir? && f != ROOT ensures |Names(s'.dirents, f)| == 1 {
      NamesDel(s.dirents, k, f);
    }
  }

  lemma UnlinkedKeepsInv(s: Store, k: Key, rows: seq<GcRow>)
    requires Inv(s) && CanUnlink(s, k)
    ensures Inv(Unlinked(s, k, rows))
  {
    UnlinkedResolves(s, k, rows);
    UnlinkedCounts(s, k, rows);
    UnlinkedDirNames(s, k, rows);
  }

  /** How a rename changes the names of an object. */
  lemma RenamedNames(d: Dirents, src: Key, dst: Key, f: Fileid)
    requires src in d && src != dst
    ensures |Names((d - {src})[dst := d[src]], f)| == |Names(d, f)| - (if dst in d && d[dst].child == f then 1 else 0)
  {
    var d0 := d - {src};
    NamesDel(d, src, f);
    if dst in d {
      NamesDel(d0, dst, f);
      NamesPut(d0 - {dst}, dst, d[src], f);
      assert d0[dst := d[src]] == (d0 - {dst})[dst := d[src]];
    } else {
      NamesPut(d0, dst, d[src], f);
    }
  }

  /** A row goes only with its last name, or when it is the displaced empty directory. */
  lemma RenamedRowStays(s: Store, src: Key, dst: Key, keepOrphan: bool, f: Fileid)
    requires NamesResolve(s) && CanRename(s, src, dst) && f in s.inodes
    ensures var s' := Renamed(s, src, dst, keepOrphan);
      && (f in s'.inodes ==> s'.inodes[f].kind == s.inodes[f].kind)
      && (f !in s'.inodes <==>
            && dst in s.dirents && f == s.dirents[dst].child
            && (s.dirents[dst].kind.Dir? || (Names(s'.dirents, f) == {} && !(keepOrphan && s.dirents[dst].kind.Reg?))))
  {
  }

  /** What a rename does to the other columns of a row that stays: whatever moved across
      directories records its new parent, and only a displaced file that lost its last name is
      marked an orphan. */
  lemma RenamedColumns(s: Store, src: Key, dst: Key, keepOrphan: bool, f: Fileid)
    requires NamesResolve(s) && CanRename(s, src, dst) && f in Renamed(s, src, dst, keepOrphan).inodes
    ensures f in s.inodes
    ensures var s' := Renamed(s, src, dst, keepOrphan);
      && s'.inodes[f].parent ==
           (if f == s.dirents[src].child && src.parent != dst.parent then dst.parent else s.inodes[f].parent)
      && (s'.inodes[f].orphan <==>
            s.inodes[f].orphan || (dst in s.dirents && f == s.dirents[dst].child && Names(s'.dirents, f) == {}))
  {
  }

  /** And an unlink touches no column of a row that stays, but the link count. */
  lemma UnlinkedColumns(s: Store, k: Key, rows: seq<GcRow>, f: Fileid)
    requires NamesResolve(s) && CanUnlink(s, k) && f in s.inodes
    ensures var s' := Unlinked(s, k, rows);
      && (f !in s'.inodes <==> f == s.dirents[k].child && (s.dirents[k].kind.Dir? || Names(s'.dirents, f) == {}))
      && (f in s'.inodes ==> s'.inodes[f].(nlink := s.inodes[f].nlink) == s.inodes[f])
      && s'.dirents == s.dirents - {k} && s'.used == s.used
      && (forall g | g != s.dirents[k].child :: g in s'.stripes <==> g in s.stripes)
      && (forall g | g != s.dirents[k].child && g in s.stripes :: s'.stripes[g] == s.stripes[g])
      && s'.gc == (if s.dirents[k].child in s'.inodes then s.gc else s.gc + rows)
  {
  }

  lemma RenamedNameResolves(s: Store, src: Key, dst: Key, keepOrphan: bool, k: Key)
    requires Inv(s) && CanRename(s, src, dst)
    requires k in Renamed(s, src, dst, keepOrphan).dirents
    ensures var s' := Renamed(s, src, dst, keepOrphan);
      && k.parent in s'.inodes && s'.inodes[k.parent].kind.Dir?
      && s'.dirents[k].child in s'.inodes && s'.dirents[k].child != ROOT
      && s'.dirents[k].kind == s'.inodes[s'.dirents[k].child].kind
  {
    var s' := Renamed(s, src, dst, keepOrphan);
    var e := s'.dirents[k];
    var was := if k == dst then src else k;
    assert was in s.dirents && s.dirents[was] == e;
    assert k in Names(s'.dirents, e.child);
    RenamedRowStays(s, src, dst, keepOrphan, e.child);
    RenamedRowStays(s, src, dst, keepOrphan, k.parent);
    if dst in s.dirents && s.dirents[dst].kind.Dir? && e.child == s.dirents[dst].child {
      DirNameUnique(s, dst, was);
    }
  }

  lemma RenamedResolves(s: Store, src: Key, dst: Key, keepOrphan: bool)
    requires Inv(s) && CanRename(s, src, dst)
    ensures NamesResolve(Renamed(s, src, dst, keepOrphan))
  {
    var s' := Renamed(s, src, dst, keepOrphan);
    RenamedRowStays(s, src, dst, keepOrphan, ROOT);
    forall k | k in s'.dirents
      ensures k.parent in s'.inodes && s'.inodes[k.parent].kind.Dir?
      ensures s'.dirents[k].child in s'.inodes && s'.dirents[k].child != ROOT
      ensures s'.dirents[k].kind == s'.inodes[s'.dirents[k].child].kind
    {
      RenamedNameResolves(s, src, dst, keepOrphan, k);
    }
  }

  lemma RenamedCounts(s: Store, src: Key, dst: Key, keepOrphan: bool)
    requires Inv(s) && CanRename(s, src, dst)
    ensures CountsExact(Renamed(s, src, dst, keepOrphan))
  {
    var s' := Renamed(s, src, dst, keepOrphan);
    forall f | f in s'.inodes ensures s'.inodes[f].nlink == 0 ==> s'.inodes[f].orphan {
      RenamedNames(s.dirents, src, dst, f);
    }
  }

  lemma OnlyOne<T>(names: set<T>, k: T, k': T)
    requires |names| == 1 && k in names && k' in names
    ensures k == k'
  {
    assert |names - {k}| == 0;
  }

  lemma DirNameUnique(s: Store, k: Key, k': Key)
    requires Inv(s) && k in s.dirents && k' in s.dirents && s.dirents[k].kind.Dir?
    requires s.dirents[k].child == s.dirents[k'].child
    ensures k == k'
  {
    var names := Names(s.dirents, s.dirents[k].child);
    assert k in names && k' in names;
    OnlyOne(names, k, k');
  }

  lemma RenamedDirParent(s: Store, src: Key, dst: Key, keepOrphan: bool, k: Key)
    requires Inv(s) && CanRename(s, src, dst)
    requires k in Renamed(s, src, dst, keepOrphan).dirents
    requires var s' := Renamed(s, src, dst, keepOrphan); s'.dirents[k].kind.Dir? && s'.dirents[k].child in s'.inodes
    ensures var s' := Renamed(s, src, dst, keepOrphan); s'.inodes[s'.dirents[k].child].parent == k.parent
  {
    if k != dst && s.dirents[k].child == s.dirents[src].child {
      DirNameUnique(s, k, src);
    }
  }

  lemma RenamedDirNames(s: Store, src: Key, dst: Key, keepOrphan: bool)
    requires Inv(s) && CanRename(s, src, dst)
    ensures OneNamePerDir(Renamed(s, src, dst, keepOrphan))
  {
    var s' := Renamed(s, src, dst, keepOrphan);
    forall f | f in s'.inodes && s'.inodes[f].kind.Dir? && f != ROOT ensures |Names(s'.dirents, f)| == 1 {
      RenamedNames(s.dirents, src, dst, f);
      RenamedRowStays(s, src, dst, keepOrphan, f);
    }
    forall k | k in s'.dirents && s'.dirents[k].kind.Dir? && s'.dirents[k].child in s'.inodes
      ensures s'.inodes[s'.dirents[k].child].parent == k.parent
    {
      RenamedDirParent(s, src, dst, keepOrphan, k);
    }
  }

  lemma RenamedKeepsInv(s: Store, src: Key, dst: Key, keepOrphan: bool)
    requires Inv(s) && CanRename(s, src, dst)
    ensures Inv(Renamed(s, src, dst, keepOrphan))
  {
    RenamedResolves(s, src, dst, keepOrphan);
    RenamedCounts(s, src, dst, keepOrphan);
    RenamedDirNames(s, src, dst, keepOrphan);
  }
}
