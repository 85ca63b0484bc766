/** The namespace transactions of the catalogue store: create, link, guarded remove (with
    its fused GC rows) and guarded rename.  Each method is one transaction.  It works from
    a plan its caller read in some earlier state, re-validates that plan row by row, and
    then bumps counters in place; it is proved to act as the reference transition of
    module Namespace on the state it finds, or to change nothing. */
module Catalogue {
  import opened Namespace

  datatype Status = Ok | Exists | NotFound | NotDir | IsDir | NotEmpty | Stale | Delay | Io

  /** What a remove was derived from: the child the name stood for when it was read. */
  datatype RemovePlan = RemovePlan(child: Fileid, kind: Kind, nlink: nat, rows: seq<GcRow>)

  datatype RemoveGuard = Gone | Full | Moved | Go(final: bool)

  /** The object a rename displaces: `left` is the link count it is to end with, and
      `delete` says that its row goes. */
  datatype Victim = NoVictim | Victim(fid: Fileid, kind: Kind, left: nat, delete: bool)

  datatype RenamePlan = RenamePlan(fid: Fileid, kind: Kind, victim: Victim)

  datatype Resolved = Refused(status: Status) | SameFile | Planned(plan: RenamePlan)

  datatype RenameGuard = VictimGone | VictimFull | Refuse | Proceed

  /** An interpreted link-count update of one row. */
  function Bump(rows: Inodes, f: Fileid, delta: int): Inodes
    requires f in rows && rows[f].nlink + delta >= 0
  {
    rows[f := rows[f].(nlink := rows[f].nlink + delta)]
  }

  /** A parent's link count moves only when a subdirectory comes or goes. */
  function ParentUpdate(rows: Inodes, f: Fileid, delta: int): Inodes
    requires f in rows && rows[f].nlink + delta >= 0
  {
    if delta == 0 then rows else Bump(rows, f, delta)
  }

  /** The type of an object never changes, so a plan can only be wrong about which
      objects are still there and about their names. */
  predicate KindAgrees(s: Store, f: Fileid, kind: Kind) {
    f in s.inodes ==> s.inodes[f].kind == kind
  }

  /** What every plan is like, whatever has happened since it was made. */
  ghost predicate PlanSane(s: Store, p: RenamePlan) {
    && KindAgrees(s, p.fid, p.kind)
    && (p.victim.Victim? ==>
          && KindAgrees(s, p.victim.fid, p.victim.kind)
          && p.victim.fid != p.fid
          && (p.victim.kind.Dir? <==> p.kind.Dir?)
          && (p.victim.kind.Dir? ==> p.victim.delete)
          && (!p.victim.delete && p.victim.left == 0 ==> p.victim.kind.Reg?))
  }

  class Catalogue {
    var inodes: Inodes
    var dirents: Dirents
    var stripes: map<Fileid, set<DsId>>
    var gc: seq<GcRow>
    var used: set<Fileid>

    ghost function State(): Store
      reads this
    {
      Store(inodes, dirents, stripes, gc, used)
    }

    constructor ()
      ensures State() == Bootstrap() && Inv(State())
    {
      inodes, dirents, stripes, gc, used := map[ROOT := Inode(Dir, 2, false, 0)], map[], map[], [], {ROOT};
      new;
      BootstrapHolds();
    }

    /** A parent that is not a directory is refused by the protocol layer before the
        transaction; a parent that has gone meanwhile is an I/O error here. */
    method Create(k: Key, fid: Fileid, kind: Kind, ds: set<DsId>) returns (st: Status)
      requires Inv(State()) && fid !in used && KindAgrees(State(), k.parent, Dir)
      modifies this
      ensures Inv(State())
      ensures st == Ok <==> CanCreate(old(State()), k, fid)
      ensures st == Exists <==> k in old(dirents)
      ensures st == Io <==> k !in old(dirents) && k.parent !in old(inodes)
      ensures st in {Ok, Exists, Io}
      ensures State() == if st == Ok then Created(old(State()), k, fid, kind, ds) else old(State())
    {
      if k in dirents { return Exists; }
      if k.parent !in inodes { return Io; }
      ghost var s := State();
      CreatedIsWritten(s, k, fid, kind, ds);
      CreatedKeepsInv(s, k, fid, kind, ds);
      WriteNew(k, fid, kind, ds);
      return Ok;
    }

    /** The writes of a create: the name, its row, the parent's row and the stripe map. */
    method WriteNew(k: Key, fid: Fileid, kind: Kind, ds: set<DsId>)
      requires k.parent in inodes
      modifies this
      ensures State() == WithNew(old(State()), k, fid, kind, ds)
    {
      dirents := dirents[k := Dirent(fid, kind)];
      inodes := inodes[fid := Inode(kind, if kind.Dir? then 2 else 1, false, k.parent)];
      inodes := ParentUpdate(inodes, k.parent, if kind.Dir? then 1 else 0);
      if kind.Reg? && ds != {} {
        stripes := stripes[fid := ds];
      }
      used := used + {fid};
    }

    method Link(k: Key, target: Fileid) returns (st: Status)
      requires Inv(State())
      modifies this
      ensures Inv(State())
      ensures st == Ok <==> CanLink(old(State()), k, target)
      ensures st == NotFound <==> k.parent !in old(inodes) || target !in old(inodes)
      ensures st == NotDir ==> !old(inodes)[k.parent].kind.Dir?
      ensures st == IsDir ==> old(inodes)[target].kind.Dir?
      ensures st == Exists ==> k in old(dirents)
      ensures st in {Ok, NotFound, NotDir, IsDir, Exists}
      ensures State() == if st == Ok then Linked(old(State()), k, target) else old(State())
    {
      if k.parent !in inodes || target !in inodes { return NotFound; }
      if !inodes[k.parent].kind.Dir? { return NotDir; }
      if inodes[target].kind.Dir? { return IsDir; }
      if k in dirents { return Exists; }
      ghost var s := State();
      LinkedIsBumped(s, k, target);
      LinkedKeepsInv(s, k, target);
      dirents := dirents[k := Dirent(target, inodes[target].kind)];
      inodes := Bump(inodes, target, 1);
      return Ok;
    }

    /** The guards of a remove, in the order the transaction meets them: the directory
        guard, the name, and the link-count shape. */
    method GuardRemove(k: Key, p: RemovePlan) returns (g: RemoveGuard)
      requires Inv(State()) && KindAgrees(State(), p.child, p.kind)
      ensures g == Full <==> FullDir(State(), p)
      ensures g == Moved <==> StaleRemove(State(), k, p)
      ensures g.Go? ==> Names?(State(), k, p.child) && CanUnlink(State(), k)
      ensures g.Go? ==> (g.final <==> p.kind.Dir? || Names(dirents - {k}, p.child) == {})
      ensures g == Gone ==> k !in dirents || (p.kind.Dir? && p.child !in inodes)
      ensures g == Moved ==> k in dirents
      ensures g == Moved && dirents[k].child == p.child ==>
                !p.kind.Dir? && p.child in inodes && (p.nlink <= 1) != (inodes[p.child].nlink == 1)
    {
      if p.kind.Dir? {
        if p.child !in inodes {
          return Gone;
        }
        if exists k' | k' in dirents :: k'.parent == p.child {
          return Full;
        }
      }
      if k !in dirents {
        return Gone;
      }
      if dirents[k].child != p.child {
        return Moved;
      }
      var final := p.kind.Dir? || p.nlink <= 1;
      NameLinks(State(), k);
      if !p.kind.Dir? && final != (inodes[p.child].nlink == 1) {
        return Moved;
      }
      return Go(final);
    }

    /** The writes of a remove whose guards all passed.  Callers supply GC rows only for a last
        link, which the guards then insist on. */
    method CommitRemove(k: Key, p: RemovePlan, final: bool)
      requires NamesResolve(State()) && CountsExact(State())
      requires Names?(State(), k, p.child) && CanUnlink(State(), k)
      requires KindAgrees(State(), p.child, p.kind)
      requires final <==> p.kind.Dir? || Names(dirents - {k}, p.child) == {}
      modifies this
      ensures State() == Unlinked(old(State()), k, p.rows)
    {
      UnlinkedIsWritten(State(), k, p, final);
      dirents := dirents - {k};
      if final {
        inodes := inodes - {p.child};
        stripes := stripes - {p.child};
        gc := gc + p.rows;
      } else {
        inodes := Bump(inodes, p.child, -1);
      }
      inodes := ParentUpdate(inodes, k.parent, if p.kind.Dir? then -1 else 0);
    }

    /** The guarded remove of one name: the atomic remove of the live name, or nothing. */
    method Remove(k: Key, p: RemovePlan) returns (st: Status)
      requires Inv(State()) && KindAgrees(State(), p.child, p.kind)
      modifies this
      ensures Inv(State())
      ensures RemoveOutcome(old(State()), k, p, st, State())
      // Answered OK, the name is gone, unless it is the planned directory that is gone already.
      ensures st == Ok && k in dirents ==> p.kind.Dir? && p.child !in old(inodes)
      // A name that stands for something else by now is not passed over.
      ensures k in old(dirents) && old(dirents)[k].child != p.child && (p.kind.Dir? ==> p.child in old(inodes)) ==>
                st in {Stale, NotEmpty} && (!p.kind.Dir? ==> st == Stale)
      // And refused is only what has changed.
      ensures st == NotEmpty <==>
                p.kind.Dir? && p.child in old(inodes) && exists k' | k' in old(dirents) :: k'.parent == p.child
      ensures st == Stale ==> k in old(dirents)
      ensures st == Stale && old(dirents)[k].child == p.child ==>
                !p.kind.Dir? && p.child in old(inodes) && (p.nlink <= 1) != (old(inodes)[p.child].nlink == 1)
      ensures k in old(dirents) && k !in dirents ==> old(dirents)[k].child == p.child
    {
      var g := GuardRemove(k, p);
      match g {
        case Gone => return Ok;
        case Full => return NotEmpty;
        case Moved => return Stale;
        case Go(final) =>
          UnlinkedKeepsInv(State(), k, p.rows);
          CommitRemove(k, p, final);
          return Ok;
      }
    }

    /** Look the name up and remove what it stands for, undisturbed: never stale. */
    method RemoveByName(k: Key) returns (st: Status)
      requires Inv(State())
      modifies this
      ensures Inv(State())
      ensures CanUnlink(old(State()), k) ==> st == Ok && State() == Unlinked(old(State()), k, [])
      ensures !CanUnlink(old(State()), k) ==> State() == old(State())
      ensures st == NotFound <==> k !in old(dirents)
      ensures st == NotEmpty <==> k in old(dirents) && !CanUnlink(old(State()), k)
      ensures st in {Ok, NotFound, NotEmpty}
      ensures st == Ok ==> dirents == old(dirents) - {k}
      ensures st == NotEmpty ==> exists k' | k' in old(dirents) :: k'.parent == old(dirents)[k].child
    {
      if k !in dirents { return NotFound; }
      var f := dirents[k].child;
      NameLinks(State(), k);
      st := Remove(k, RemovePlan(f, inodes[f].kind, inodes[f].nlink, []));
    }

    /** The guards of a rename. */
    method GuardRename(src: Key, dst: Key, p: RenamePlan) returns (g: RenameGuard)
      requires Inv(State()) && PlanSane(State(), p) && src != dst && KindAgrees(State(), dst.parent, Dir)
      ensures g == VictimGone <==> GoneVictim(State(), p)
      ensures g == VictimFull <==> FullVictim(State(), p)
      ensures g == Proceed <==> RenameFits(State(), src, dst, p)
    {
      if p.victim.Victim? && p.victim.kind.Dir? {
        if p.victim.fid !in inodes {
          return VictimGone;
        }
        if exists k | k in dirents :: k.parent == p.victim.fid {
          return VictimFull;
        }
      }
      if src !in dirents || dirents[src].child != p.fid {
        return Refuse;
      }
      if p.victim.NoVictim? {
        return if dst in dirents || dst.parent !in inodes then Refuse else Proceed;
      }
      if dst !in dirents || dirents[dst].child != p.victim.fid {
        return Refuse;
      }
      NameLinks(State(), dst);
      var live := inodes[p.victim.fid].nlink;
      return if p.victim.kind.Dir? || live == (if p.victim.delete then 1 else p.victim.left + 1)
             then Proceed else Refuse;
    }

    /** The writes of a rename whose guards all passed. */
    method CommitRename(src: Key, dst: Key, p: RenamePlan)
      requires NamesResolve(State()) && CountsExact(State()) && PlanSane(State(), p)
      requires src != dst && KindAgrees(State(), dst.parent, Dir) && RenameFits(State(), src, dst, p)
      modifies this
      ensures State() == Renamed(old(State()), src, dst, KeepsOrphan(p))
    {
      RenamedIsBumped(State(), src, dst, p);
      FitsToWrite(State(), src, dst, p);
      dirents := (dirents - {src})[dst := Dirent(p.fid, p.kind)];
      WriteInodes(src, dst, p);
    }

    /** The inode rows: first the parents, then the moved row, then the displaced one. */
    method WriteInodes(src: Key, dst: Key, p: RenamePlan)
      requires Writable(inodes, src, dst, p)
      modifies this`inodes
      ensures p.fid in Recounted(old(inodes), src, dst, p)
      ensures inodes == TouchedUp(Recounted(old(inodes), src, dst, p), src, dst, p)
    {
      ghost var rows := inodes;
      WriteParents(src, dst, p);
      inodes := Reparented(inodes, src, dst, p.fid);
      if p.victim.Victim? {
        WriteVictim(p);
        if !p.victim.kind.Dir? {
          VictimLast(rows, src, dst, p.fid, p.victim.fid);
        }
      }
    }

    /** A directory's ".." link moves with it, and a replaced directory's link leaves the
        parent that held it; on a same-directory rename only one parent row is written. */
    method WriteParents(src: Key, dst: Key, p: RenamePlan)
      requires src.parent in inodes && dst.parent in inodes && inodes[src.parent].nlink >= 1
      requires p.victim.Victim? ==> (p.victim.kind.Dir? <==> p.kind.Dir?)
      modifies this`inodes
      ensures inodes ==
        if !p.kind.Dir? then old(inodes)
        else if p.victim.Victim? then Bump(old(inodes), src.parent, -1)
        else if src.parent != dst.parent then Bump(Bump(old(inodes), src.parent, -1), dst.parent, 1)
        else old(inodes)
    {
      var cross := src.parent != dst.parent;
      var toDir := p.victim.Victim? && p.victim.kind.Dir?;
      var sp, dp := 0, 0;
      if cross && p.kind.Dir? {
        sp, dp := sp - 1, dp + 1;
      }
      if toDir {
        if cross {
          dp := dp - 1;
        } else {
          sp := sp - 1;
        }
      }
      inodes := ParentUpdate(inodes, src.parent, sp);
      if cross {
        inodes := ParentUpdate(inodes, dst.parent, dp);
      }
    }

    method WriteVictim(p: RenamePlan)
      requires p.victim.Victim? && p.victim.fid in inodes && inodes[p.victim.fid].nlink >= 1
      modifies this`inodes
      ensures p.victim.delete ==> inodes == old(inodes) - {p.victim.fid}
      ensures !p.victim.delete ==>
        inodes == var m := Bump(old(inodes), p.victim.fid, -1);
                  if p.victim.left == 0 then m[p.victim.fid := m[p.victim.fid].(orphan := true)] else m
    {
      var v := p.victim.fid;
      if p.victim.delete {
        inodes := inodes - {v};
      } else {
        inodes := Bump(inodes, v, -1);
        if p.victim.left == 0 {
          inodes := inodes[v := inodes[v].(orphan := true)];
        }
      }
    }

    /** The guarded rename of one name from a plan made earlier: the atomic rename of the
        live names, or nothing. */
    method RenamePlanned(src: Key, dst: Key, p: RenamePlan) returns (st: Status)
      requires Inv(State()) && PlanSane(State(), p) && src != dst && KindAgrees(State(), dst.parent, Dir)
      modifies this
      ensures Inv(State())
      ensures RenameOutcome(old(State()), src, dst, p, st, State())
      // Answered OK, what was read under the source name stands under the destination name, and
      // records the directory it is in.
      ensures st == Ok ==> src in old(dirents) && src !in dirents && dst in dirents
      ensures st == Ok ==> dirents[dst] == old(dirents)[src] == Dirent(p.fid, p.kind)
      ensures st == Ok && src.parent != dst.parent ==> p.fid in inodes && inodes[p.fid].parent == dst.parent
      ensures stripes == old(stripes) && gc == old(gc) && used == old(used)
      // And refused is only what has changed.
      ensures st == Delay <==> p.victim.Victim? && p.victim.kind.Dir? && p.victim.fid !in old(inodes)
      ensures st == NotEmpty <==>
                && p.victim.Victim? && p.victim.kind.Dir? && p.victim.fid in old(inodes)
                && exists k | k in old(dirents) :: k.parent == p.victim.fid
      ensures st == Stale && src in old(dirents) && old(dirents)[src].child == p.fid && p.victim.NoVictim? ==>
                dst in old(dirents) || dst.parent !in old(inodes)
      ensures st == Stale && src in old(dirents) && old(dirents)[src].child == p.fid && p.victim.Victim?
              && dst in old(dirents) && old(dirents)[dst].child == p.victim.fid ==>
                !p.victim.kind.Dir? && p.victim.fid in old(inodes)
                && old(inodes)[p.victim.fid].nlink != if p.victim.delete then 1 else p.victim.left + 1
    {
      var g := GuardRename(src, dst, p);
      match g {
        case VictimGone => st := Delay;
        case VictimFull => st := NotEmpty;
        case Refuse => st := Stale;
        case Proceed =>
          FitIsRenamable(State(), src, dst, p);
          RenamedKeepsInv(State(), src, dst, KeepsOrphan(p));
          CommitRename(src, dst, p);
          st := Ok;
      }
      RenameMeans(old(State()), src, dst, p, st, State());
    }

    /** The reads before a rename: which plan, or why none. */
    method ResolveRename(src: Key, dst: Key, keepOrphan: bool) returns (r: Resolved)
      requires Inv(State())
      ensures r.Planned? <==> Movable(State(), src, dst)
      ensures r.Planned? ==> PlanMade(State(), src, dst, keepOrphan, r.plan)
      ensures r.SameFile? <==> src in dirents && Names?(State(), dst, dirents[src].child)
      ensures r == Refused(IsDir) <==> FileOverDir(State(), src, dst)
      ensures r == Refused(NotFound) ==> src !in dirents || dst.parent !in inodes
      ensures src in dirents && dst.parent !in inodes ==> r == Refused(NotFound)
      ensures r == Refused(NotDir) ==>
                NotADir(State(), src.parent) || NotADir(State(), dst.parent) || DirOverFile(State(), src, dst)
      ensures r.Refused? ==> r.status in {NotFound, NotDir, IsDir}
    {
      if src.parent !in inodes { return Refused(NotFound); }
      if !inodes[src.parent].kind.Dir? { return Refused(NotDir); }
      if src.parent != dst.parent {
        if dst.parent !in inodes { return Refused(NotFound); }
        if !inodes[dst.parent].kind.Dir? { return Refused(NotDir); }
      }
      if src !in dirents { return Refused(NotFound); }
      r := ReadVictim(src, dst, keepOrphan);
    }

    /** The reads of the destination name: type compatibility, the same-file no-op and the
        displaced object's link accounting. */
    method ReadVictim(src: Key, dst: Key, keepOrphan: bool) returns (r: Resolved)
      requires NamesResolve(State()) && CountsExact(State()) && src in dirents && KindAgrees(State(), dst.parent, Dir)
      requires dst.parent in inodes
      ensures r.Planned? <==> Movable(State(), src, dst)
      ensures r.Planned? ==> PlanMade(State(), src, dst, keepOrphan, r.plan)
      ensures r.SameFile? <==> Names?(State(), dst, dirents[src].child)
      ensures r == Refused(IsDir) <==> FileOverDir(State(), src, dst)
      ensures r == Refused(NotDir) <==> DirOverFile(State(), src, dst)
      ensures r.Refused? ==> r.status in {NotDir, IsDir}
    {
      var fid, kind := dirents[src].child, dirents[src].kind;
      if dst !in dirents {
        return Planned(RenamePlan(fid, kind, NoVictim));
      }
      var v, vkind := dirents[dst].child, dirents[dst].kind;
      if v == fid { return SameFile; }
      if kind.Dir? && !vkind.Dir? { return Refused(NotDir); }
      if !kind.Dir? && vkind.Dir? { return Refused(IsDir); }
      if vkind.Dir? {
        return Planned(RenamePlan(fid, kind, Victim(v, vkind, 0, true)));
      }
      var left := if inodes[v].nlink > 0 then inodes[v].nlink - 1 else 0;
      var delete := left == 0 && !(keepOrphan && vkind.Reg?);
      FilePlanMade(State(), src, dst, keepOrphan, RenamePlan(fid, kind, Victim(v, vkind, left, delete)));
      return Planned(RenamePlan(fid, kind, Victim(v, vkind, left, delete)));
    }

    /** An attempt nobody interferes with: POSIX rename, and never a request to retry. */
    method Rename(src: Key, dst: Key, keepOrphan: bool) returns (st: Status)
      requires Inv(State())
      modifies this
      ensures Inv(State())
      ensures CanRename(old(State()), src, dst) ==> st == Ok && State() == Renamed(old(State()), src, dst, keepOrphan)
      ensures !CanRename(old(State()), src, dst) ==> State() == old(State())
      ensures st == Ok && !CanRename(old(State()), src, dst) ==>
                src in old(dirents) && Names?(old(State()), dst, old(dirents)[src].child)
      ensures st == NotEmpty <==> Movable(old(State()), src, dst) && !CanRename(old(State()), src, dst)
      ensures st == IsDir <==> FileOverDir(old(State()), src, dst)
      ensures st == NotFound ==> src !in old(dirents) || dst.parent !in old(inodes)
      ensures st in {Ok, NotFound, NotDir, IsDir, NotEmpty}
      // The same, told from the tables.
      ensures st == Ok ==> src in old(dirents) && dst in dirents && dirents[dst].child == old(dirents)[src].child
      ensures st == Ok && src in dirents ==> dst in old(dirents) && dirents == old(dirents)
      ensures st == NotEmpty ==>
                dst in old(dirents) && exists k | k in old(dirents) :: k.parent == old(dirents)[dst].child
      ensures st == IsDir ==> src in old(dirents) && dst in old(dirents)
      ensures st == IsDir ==> !old(dirents)[src].kind.Dir? && old(dirents)[dst].kind.Dir?
      ensures st == NotDir ==>
                (src.parent in old(inodes) && !old(inodes)[src.parent].kind.Dir?)
                || (dst.parent in old(inodes) && !old(inodes)[dst.parent].kind.Dir?)
                || (src in old(dirents) && dst in old(dirents)
                    && old(dirents)[src].kind.Dir? && !old(dirents)[dst].kind.Dir?)
    {
      var r := ResolveRename(src, dst, keepOrphan);
      match r {
        case Refused(status) => return status;
        case SameFile => return Ok;
        case Planned(p) =>
          FlagOnlyForLastName(State(), src, dst, keepOrphan, p);
          st := RenamePlanned(src, dst, p);
      }
    }
  }

  predicate FileOverDir(s: Store, src: Key, dst: Key) {
    src in s.dirents && dst in s.dirents && !s.dirents[src].kind.Dir? && s.dirents[dst].kind.Dir?
  }

  predicate DirOverFile(s: Store, src: Key, dst: Key) {
    src in s.dirents && dst in s.dirents && s.dirents[src].kind.Dir? && !s.dirents[dst].kind.Dir?
  }

  predicate NotADir(s: Store, f: Fileid) {
    f in s.inodes && !s.inodes[f].kind.Dir?
  }

  ghost predicate FullDir(s: Store, p: RemovePlan) {
    p.child in s.inodes && p.kind.Dir? && !IsEmptyDir(s.dirents, p.child)
  }

  predicate Names?(s: Store, k: Key, f: Fileid) {
    k in s.dirents && s.dirents[k].child == f
  }

  /** The plan no longer fits: the name now stands for something else (and the planned
      child is not a directory that has gone or filled up), or the planned file gained or
      lost its last other name. */
  ghost predicate StaleRemove(s: Store, k: Key, p: RemovePlan) {
    && k in s.dirents
    && (p.kind.Dir? ==> p.child in s.inodes && IsEmptyDir(s.dirents, p.child))
    && (s.dirents[k].child != p.child ||
        (!p.kind.Dir? && (p.nlink <= 1) != (Names(s.dirents, p.child) == {k})))
  }

  ghost predicate GoneVictim(s: Store, p: RenamePlan) {
    p.victim.Victim? && p.victim.kind.Dir? && p.victim.fid !in s.inodes
  }

  ghost predicate FullVictim(s: Store, p: RenamePlan) {
    p.victim.Victim? && p.victim.kind.Dir? && p.victim.fid in s.inodes && !IsEmptyDir(s.dirents, p.victim.fid)
  }

  /** Both names still stand for what they stood for, and the displaced object has as
      many names as the plan reckoned with. */
  ghost predicate RenameFits(s: Store, src: Key, dst: Key, p: RenamePlan) {
    && Names?(s, src, p.fid)
    && match p.victim
       case NoVictim => dst !in s.dirents && dst.parent in s.inodes
       case Victim(v, kind, left, delete) =>
         && Names?(s, dst, v)
         && (if kind.Dir? then IsEmptyDir(s.dirents, v)
             else |Names(s.dirents, v)| == if delete then 1 else left + 1)
  }

  /** What a guarded remove answers, and the state it leaves. */
  ghost predicate RemoveOutcome(s: Store, k: Key, p: RemovePlan, st: Status, s': Store) {
    && st in {Ok, NotEmpty, Stale}
    && (st == NotEmpty <==> FullDir(s, p))
    && (st == Stale <==> StaleRemove(s, k, p))
    && (if st == Ok && Names?(s, k, p.child) then CanUnlink(s, k) && s' == Unlinked(s, k, p.rows) else s' == s)
  }

  /** What a guarded rename answers, and the state it leaves. */
  ghost predicate RenameOutcome(s: Store, src: Key, dst: Key, p: RenamePlan, st: Status, s': Store) {
    && st in {Ok, NotEmpty, Delay, Stale}
    && (st == Ok <==> RenameFits(s, src, dst, p))
    && (st == NotEmpty <==> FullVictim(s, p))
    && (st == Delay <==> GoneVictim(s, p))
    && (if st == Ok then CanRename(s, src, dst) && s' == Renamed(s, src, dst, KeepsOrphan(p)) else s' == s)
  }

  /** What the answers of a guarded remove tell about the tables. */
  lemma RemoveMeans(s: Store, k: Key, p: RemovePlan, st: Status, s': Store)
    requires Inv(s) && KindAgrees(s, p.child, p.kind) && RemoveOutcome(s, k, p, st, s')
    ensures st == Ok && k in s'.dirents ==> p.kind.Dir? && p.child !in s.inodes
    ensures k in s.dirents && s.dirents[k].child != p.child && (p.kind.Dir? ==> p.child in s.inodes) ==>
              st in {Stale, NotEmpty} && (!p.kind.Dir? ==> st == Stale)
    ensures st == NotEmpty <==>
              p.kind.Dir? && p.child in s.inodes && exists k' | k' in s.dirents :: k'.parent == p.child
    ensures st == Stale ==> k in s.dirents
    ensures st == Stale && s.dirents[k].child == p.child ==>
              !p.kind.Dir? && p.child in s.inodes && (p.nlink <= 1) != (s.inodes[p.child].nlink == 1)
    ensures k in s.dirents && k !in s'.dirents ==> st == Ok && s.dirents[k].child == p.child
    ensures forall k' | k' != k :: k' in s'.dirents <==> k' in s.dirents
    ensures forall k' | k' in s'.dirents :: k' in s.dirents && s'.dirents[k'] == s.dirents[k']
  {
    if k in s.dirents {
      NameLinks(s, k);
    }
  }

  /** What the answers of a guarded rename tell about the tables. */
  lemma RenameMeans(s: Store, src: Key, dst: Key, p: RenamePlan, st: Status, s': Store)
    requires Inv(s) && PlanSane(s, p) && src != dst && KindAgrees(s, dst.parent, Dir)
    requires RenameOutcome(s, src, dst, p, st, s')
    ensures st == Ok ==> src in s.dirents && src !in s'.dirents && dst in s'.dirents
    ensures st == Ok ==> s'.dirents[dst] == s.dirents[src] == Dirent(p.fid, p.kind)
    ensures st == Ok && src.parent != dst.parent ==> p.fid in s'.inodes && s'.inodes[p.fid].parent == dst.parent
    ensures s'.stripes == s.stripes && s'.gc == s.gc && s'.used == s.used
    ensures st == Delay <==> p.victim.Victim? && p.victim.kind.Dir? && p.victim.fid !in s.inodes
    ensures st == NotEmpty <==>
              && p.victim.Victim? && p.victim.kind.Dir? && p.victim.fid in s.inodes
              && exists k | k in s.dirents :: k.parent == p.victim.fid
    ensures st == Stale && src in s.dirents && s.dirents[src].child == p.fid && p.victim.NoVictim? ==>
              dst in s.dirents || dst.parent !in s.inodes
    ensures st == Stale && src in s.dirents && s.dirents[src].child == p.fid && p.victim.Victim?
            && dst in s.dirents && s.dirents[dst].child == p.victim.fid ==>
              !p.victim.kind.Dir? && p.victim.fid in s.inodes
              && s.inodes[p.victim.fid].nlink != if p.victim.delete then 1 else p.victim.left + 1
  {
    if st == Ok {
      FitIsRenamable(s, src, dst, p);
      RenamedRowStays(s, src, dst, KeepsOrphan(p), p.fid);
      RenamedColumns(s, src, dst, KeepsOrphan(p), p.fid);
    } else if st == Stale && Names?(s, src, p.fid) && p.victim.Victim? && Names?(s, dst, p.victim.fid) {
      NameLinks(s, dst);
    }
  }

  predicate KeepsOrphan(p: RenamePlan) {
    p.victim.Victim? && !p.victim.delete
  }

  /** A rename the reads before it do not refuse. */
  ghost predicate Movable(s: Store, src: Key, dst: Key) {
    && src in s.dirents && src != dst
    && dst.parent in s.inodes && s.inodes[dst.parent].kind.Dir?
    && (dst in s.dirents ==>
          && s.dirents[dst].child != s.dirents[src].child
          && (s.dirents[dst].kind.Dir? <==> s.dirents[src].kind.Dir?))
  }

  /** A plan fresh from the reads: only a displaced directory with entries can stop it. */
  ghost predicate PlanMade(s: Store, src: Key, dst: Key, keepOrphan: bool, p: RenamePlan) {
    && PlanSane(s, p)
    && Names?(s, src, p.fid)
    && (RenameFits(s, src, dst, p) || FullVictim(s, p))
    && (p.victim.Victim? <==> dst in s.dirents)
    && (p.victim.Victim? && !p.victim.kind.Dir? ==>
          p.victim.delete == (Names(s.dirents, p.victim.fid) == {dst} && !(keepOrphan && p.victim.kind.Reg?)))
    && (p.victim.Victim? && p.victim.kind.Dir? ==> Names?(s, dst, p.victim.fid))
  }

  lemma FilePlanMade(s: Store, src: Key, dst: Key, keepOrphan: bool, p: RenamePlan)
    requires Movable(s, src, dst) && dst in s.dirents
    requires s.dirents[src] == Dirent(p.fid, p.kind) && !p.kind.Dir? && p.victim.Victim?
    requires s.dirents[dst] == Dirent(p.victim.fid, p.victim.kind)
    requires KindAgrees(s, p.fid, p.kind) && KindAgrees(s, p.victim.fid, p.victim.kind)
    requires p.victim.fid in s.inodes && s.inodes[p.victim.fid].nlink == |Names(s.dirents, p.victim.fid)|
    requires p.victim.left == var n := s.inodes[p.victim.fid].nlink; if n > 0 then n - 1 else 0
    requires p.victim.delete == (p.victim.left == 0 && !(keepOrphan && p.victim.kind.Reg?))
    ensures PlanMade(s, src, dst, keepOrphan, p)
  {
    LastName(s.dirents, dst);
    assert dst in Names(s.dirents, p.victim.fid);
  }

  lemma FlagOnlyForLastName(s: Store, src: Key, dst: Key, keepOrphan: bool, p: RenamePlan)
    requires Inv(s) && Movable(s, src, dst) && PlanMade(s, src, dst, keepOrphan, p)
    ensures Renamed(s, src, dst, KeepsOrphan(p)) == Renamed(s, src, dst, keepOrphan)
    ensures CanRename(s, src, dst) <==> RenameFits(s, src, dst, p)
    ensures !GoneVictim(s, p)
  {
    SameOrphan(s, src, dst, keepOrphan, p);
    FreshPlanFits(s, src, dst, keepOrphan, p);
  }

  lemma SameOrphan(s: Store, src: Key, dst: Key, keepOrphan: bool, p: RenamePlan)
    requires Inv(s) && Movable(s, src, dst) && PlanMade(s, src, dst, keepOrphan, p)
    ensures Renamed(s, src, dst, KeepsOrphan(p)) == Renamed(s, src, dst, keepOrphan)
  {
    if p.victim.Victim? && !p.victim.kind.Dir? {
      LastName(s.dirents, dst);
      RenamedNames(s.dirents, src, dst, p.victim.fid);
    }
  }

  lemma FreshPlanFits(s: Store, src: Key, dst: Key, keepOrphan: bool, p: RenamePlan)
    requires Inv(s) && Movable(s, src, dst) && PlanMade(s, src, dst, keepOrphan, p)
    ensures CanRename(s, src, dst) <==> RenameFits(s, src, dst, p)
    ensures !GoneVictim(s, p)
  {
    if p.victim.Victim? && !p.victim.kind.Dir? {
      LastName(s.dirents, dst);
    }
  }

  lemma FitIsRenamable(s: Store, src: Key, dst: Key, p: RenamePlan)
    requires NamesResolve(s) && PlanSane(s, p)
    requires src != dst && KindAgrees(s, dst.parent, Dir) && RenameFits(s, src, dst, p)
    ensures CanRename(s, src, dst)
    ensures s.dirents[src] == Dirent(p.fid, p.kind)
    ensures p.victim.Victim? ==> s.dirents[dst] == Dirent(p.victim.fid, p.victim.kind)
    ensures p.fid in s.inodes && src.parent in s.inodes && dst.parent in s.inodes
  {
  }

  // ---------------------------------------------------------------------------
  // Bumping one row is recounting all of them
  // ---------------------------------------------------------------------------

  /** Every row with the share of one more dirent added to its link count. */
  ghost function Credit(rows: Inodes, k: Key, e: Dirent): Inodes {
    map f | f in rows :: rows[f].(nlink := rows[f].nlink + Share(k, e, f, rows[f].kind))
  }

  lemma SettlePut(rows: Inodes, d: Dirents, k: Key, e: Dirent)
    requires k !in d
    ensures Settle(rows, d[k := e]) == Credit(Settle(rows, d), k, e)
  {
    forall f | f in rows ensures Settle(rows, d[k := e])[f] == Credit(Settle(rows, d), k, e)[f] {
      LinkCountPut(d, k, e, f, rows[f].kind);
    }
  }

  lemma SettleDel(rows: Inodes, d: Dirents, k: Key)
    requires k in d
    ensures Settle(rows, d) == Credit(Settle(rows, d - {k}), k, d[k])
  {
    SettlePut(rows, d - {k}, k, d[k]);
    assert d == (d - {k})[k := d[k]];
  }

  /** The one row a dirent counts on: its parent for a directory, else its child. */
  function Charged(k: Key, e: Dirent): Fileid {
    if e.kind.Dir? then k.parent else e.child
  }

  lemma CreditIsBump(rows: Inodes, k: Key, e: Dirent)
    requires k.parent in rows ==> rows[k.parent].kind.Dir?
    requires e.child in rows ==> rows[e.child].kind == e.kind
    ensures Credit(rows, k, e) == if Charged(k, e) in rows then Bump(rows, Charged(k, e), 1) else rows
  {
  }

  lemma SettledIsExact(s: Store)
    requires CountsExact(s)
    ensures Settle(s.inodes, s.dirents) == s.inodes
  {
  }

  /** Recounting commutes with dropping a row. */
  lemma SettleDrop(rows: Inodes, d: Dirents, f: Fileid)
    ensures Settle(rows - {f}, d) == Settle(rows, d) - {f}
  {
  }

  /** A named row exists, has a directory for a parent, and is down to its last link
      exactly when this is its only name. */
  lemma NameLinks(s: Store, k: Key)
    requires NamesResolve(s) && CountsExact(s) && k in s.dirents
    ensures var f := s.dirents[k].child;
      && f in s.inodes && k.parent in s.inodes && s.dirents[k].kind == s.inodes[f].kind
      && s.inodes[k.parent].kind.Dir?
      && (!s.inodes[f].kind.Dir? ==>
            && (s.inodes[f].nlink == 1 <==> Names(s.dirents, f) == {k})
            && (s.inodes[f].nlink == 1 <==> Names(s.dirents - {k}, f) == {}))
  {
    var f := s.dirents[k].child;
    LastName(s.dirents, k);
  }

  lemma LastName(d: Dirents, k: Key)
    requires k in d
    ensures var f := d[k].child;
      && (|Names(d, f)| == 1 <==> Names(d, f) == {k})
      && (|Names(d, f)| == 1 <==> Names(d - {k}, f) == {})
  {
    var f := d[k].child;
    NamesDel(d, k, f);
    assert Names(d, f) == Names(d - {k}, f) + {k};
  }

  /** A fileid no row has yet is named by nothing and holds nothing. */
  lemma FreshSettle(s: Store, fid: Fileid, row: Inode)
    requires NamesResolve(s) && CountsExact(s) && fid !in s.inodes
    ensures Settle(s.inodes[fid := row], s.dirents)
         == s.inodes[fid := row.(nlink := if row.kind.Dir? then 2 else 0)]
  {
    assert Names(s.dirents, fid) == {};
    assert Subdirs(s.dirents, fid) == {};
  }

  lemma CreatedIsBumped(s: Store, k: Key, fid: Fileid, kind: Kind, ds: set<DsId>)
    requires NamesResolve(s) && CountsExact(s) && CanCreate(s, k, fid) && fid !in s.inodes
    ensures
      var rows := s.inodes[fid := Inode(kind, if kind.Dir? then 2 else 1, false, k.parent)];
      Created(s, k, fid, kind, ds).inodes == ParentUpdate(rows, k.parent, if kind.Dir? then 1 else 0)
  {
    var row := Inode(kind, 0, false, k.parent);
    var settled := s.inodes[fid := row.(nlink := if kind.Dir? then 2 else 0)];
    FreshSettle(s, fid, row);
    SettlePut(s.inodes[fid := row], s.dirents, k, Dirent(fid, kind));
    CreditIsBump(settled, k, Dirent(fid, kind));
  }

  lemma LinkedIsBumped(s: Store, k: Key, target: Fileid)
    requires Inv(s) && CanLink(s, k, target)
    ensures Linked(s, k, target).inodes == Bump(s.inodes, target, 1)
  {
    var e := Dirent(target, s.inodes[target].kind);
    SettledIsExact(s);
    SettlePut(s.inodes, s.dirents, k, e);
    CreditIsBump(s.inodes, k, e);
  }

  lemma BumpBack(rows: Inodes, c: Fileid)
    requires c in rows
    ensures Bump(Bump(rows, c, 1), c, -1) == rows
  {
  }

  lemma BumpDrop(rows: Inodes, c: Fileid, f: Fileid)
    requires c in rows && rows[c].nlink >= 1
    ensures Bump(rows, c, -1) - {f} == if c == f then rows - {f} else Bump(rows - {f}, c, -1)
  {
  }

  lemma SettleTwice(rows: Inodes, d: Dirents, d': Dirents)
    ensures Settle(Settle(rows, d), d') == Settle(rows, d')
  {
  }

  /** The rows a dirent counts on are there and of the right type. */
  ghost predicate Grounded(rows: Inodes, k: Key, e: Dirent) {
    && k.parent in rows && rows[k.parent].kind.Dir?
    && e.child in rows && rows[e.child].kind == e.kind
  }

  /** Taking a name away costs the one row it counts on one link. */
  lemma Debited(rows: Inodes, d: Dirents, k: Key)
    requires k in d && Grounded(rows, k, d[k]) && Settle(rows, d) == rows
    ensures var c := Charged(k, d[k]);
      && c in rows && rows[c].nlink >= 1
      && Settle(rows, d - {k}) == Bump(rows, c, -1)
  {
    var settled := Settle(rows, d - {k});
    SettleDel(rows, d, k);
    CreditIsBump(settled, k, d[k]);
    BumpBack(settled, Charged(k, d[k]));
  }

  /** Putting a name back gains the one row it counts on one link. */
  lemma Credited(rows: Inodes, d: Dirents, k: Key, e: Dirent)
    requires k !in d && Grounded(rows, k, e) && Settle(rows, d) == rows
    ensures Settle(rows, d[k := e]) == Bump(rows, Charged(k, e), 1)
  {
    SettlePut(rows, d, k, e);
    CreditIsBump(rows, k, e);
  }

  /** Moving a name to a free key. */
  lemma MovedSettle(rows: Inodes, d: Dirents, src: Key, dst: Key)
    requires src in d && src != dst && dst !in d && Settle(rows, d) == rows
    requires Grounded(rows, src, d[src]) && Grounded(rows, dst, d[src])
    ensures var c := Charged(src, d[src]);
      && c in rows && rows[c].nlink >= 1
      && Settle(rows, (d - {src})[dst := d[src]]) == Bump(Bump(rows, c, -1), Charged(dst, d[src]), 1)
  {
    Debited(rows, d, src);
    var rows0 := Settle(rows, d - {src});
    SettleTwice(rows, d - {src}, d - {src});
    Credited(rows0, d - {src}, dst, d[src]);
    SettleTwice(rows, d - {src}, (d - {src})[dst := d[src]]);
  }

  /** Moving a name over another one of the same type. */
  lemma OverwrittenSettle(rows: Inodes, d: Dirents, src: Key, dst: Key)
    requires src in d && dst in d && src != dst && Settle(rows, d) == rows
    requires Grounded(rows, src, d[src]) && Grounded(rows, dst, d[dst]) && d[src].child != d[dst].child
    requires d[src].kind.Dir? <==> d[dst].kind.Dir?
    ensures var c := if d[src].kind.Dir? then src.parent else d[dst].child;
      && c in rows && rows[c].nlink >= 1
      && Settle(rows, (d - {src})[dst := d[src]]) == Bump(rows, c, -1)
  {
    var a, b, c := Charged(dst, d[dst]), Charged(src, d[src]), Charged(dst, d[src]);
    var d' := (d - {src})[dst := d[src]];
    Debited(rows, d, dst);
    assert Settle(rows, d') == Bump(Bump(Bump(rows, a, -1), b, -1), c, 1) by {
      SettleTwice(rows, d - {dst}, d - {dst});
      MovedSettle(Settle(rows, d - {dst}), d - {dst}, src, dst);
      SettleTwice(rows, d - {dst}, d');
      SwapKeys(d, src, dst);
    }
    BumpThrice(rows, a, b, c);
  }

  lemma SwapKeys(d: Dirents, src: Key, dst: Key)
    requires src in d
    ensures (d - {dst} - {src})[dst := d[src]] == (d - {src})[dst := d[src]]
  {
  }

  lemma BumpThrice(rows: Inodes, a: Fileid, b: Fileid, c: Fileid)
    requires a in rows && b in rows && c in rows && rows[a].nlink >= 1
    requires Bump(rows, a, -1)[b].nlink >= 1
    requires c == a || c == b
    ensures Bump(Bump(Bump(rows, a, -1), b, -1), c, 1) == Bump(rows, if c == a then b else a, -1)
  {
  }

  /** The rows after a rename, before the moved and the displaced row are touched up. */
  ghost function Recounted(rows: Inodes, src: Key, dst: Key, p: RenamePlan): Inodes
    requires src.parent in rows && dst.parent in rows && rows[src.parent].nlink >= 1
    requires p.victim.Victim? ==> p.victim.fid in rows && rows[p.victim.fid].nlink >= 1
  {
    match p.victim
    case NoVictim =>
      if p.kind.Dir? && src.parent != dst.parent then Bump(Bump(rows, src.parent, -1), dst.parent, 1) else rows
    case Victim(v, kind, _, _) => Bump(rows, if kind.Dir? then src.parent else v, -1)
  }

  /** The rows a rename writes are there and can give up a link. */
  ghost predicate Writable(rows: Inodes, src: Key, dst: Key, p: RenamePlan) {
    && p.fid in rows && src.parent in rows && dst.parent in rows && rows[src.parent].nlink >= 1
    && (p.victim.Victim? ==>
          && p.victim.fid in rows && rows[p.victim.fid].nlink >= 1 && p.victim.fid !in {p.fid, src.parent}
          && (p.victim.kind.Dir? <==> p.kind.Dir?) && (p.victim.kind.Dir? ==> p.victim.delete))
  }

  lemma FitsToWrite(s: Store, src: Key, dst: Key, p: RenamePlan)
    requires FitsNow(s, src, dst, p)
    ensures Writable(s.inodes, src, dst, p)
  {
    FitsGround(s, src, dst, p);
  }

  ghost function TouchedUp(t: Inodes, src: Key, dst: Key, p: RenamePlan): Inodes
    requires p.fid in t && (KeepsOrphan(p) ==> p.victim.fid in t)
  {
    var m := Reparented(t, src, dst, p.fid);
    match p.victim
    case NoVictim => m
    case Victim(v, _, left, delete) =>
      if delete then m - {v} else if left == 0 then m[v := m[v].(orphan := true)] else m
  }

  function Reparented(t: Inodes, src: Key, dst: Key, f: Fileid): Inodes
    requires f in t
  {
    if src.parent == dst.parent then t else t[f := t[f].(parent := dst.parent)]
  }

  ghost predicate FitsNow(s: Store, src: Key, dst: Key, p: RenamePlan) {
    && NamesResolve(s) && CountsExact(s) && PlanSane(s, p)
    && src != dst && KindAgrees(s, dst.parent, Dir) && RenameFits(s, src, dst, p)
  }

  lemma FitsGround(s: Store, src: Key, dst: Key, p: RenamePlan)
    requires FitsNow(s, src, dst, p)
    ensures CanRename(s, src, dst)
    ensures s.dirents[src] == Dirent(p.fid, p.kind) && Settle(s.inodes, s.dirents) == s.inodes
    ensures Grounded(s.inodes, src, s.dirents[src]) && Grounded(s.inodes, dst, s.dirents[src])
    ensures s.inodes[src.parent].nlink >= 1
    ensures p.victim.Victim? ==> Grounded(s.inodes, dst, s.dirents[dst])
    ensures p.victim.Victim? ==>
              s.dirents[dst] == Dirent(p.victim.fid, p.victim.kind) && s.inodes[p.victim.fid].nlink >= 1
  {
    FitIsRenamable(s, src, dst, p);
    SettledIsExact(s);
    if p.victim.Victim? {
      LastName(s.dirents, dst);
      NamesDel(s.dirents, dst, p.victim.fid);
    }
  }

  lemma RenamedRecount(s: Store, src: Key, dst: Key, p: RenamePlan)
    requires FitsNow(s, src, dst, p)
    ensures src.parent in s.inodes && dst.parent in s.inodes && s.inodes[src.parent].nlink >= 1
    ensures p.victim.Victim? ==> p.victim.fid in s.inodes && s.inodes[p.victim.fid].nlink >= 1
    ensures Settle(s.inodes, (s.dirents - {src})[dst := Dirent(p.fid, p.kind)]) == Recounted(s.inodes, src, dst, p)
  {
    FitsGround(s, src, dst, p);
    if p.victim.Victim? {
      OverwrittenSettle(s.inodes, s.dirents, src, dst);
    } else {
      MovedSettle(s.inodes, s.dirents, src, dst);
      BumpDownUp(s.inodes, Charged(src, s.dirents[src]));
    }
  }

  lemma BumpDownUp(rows: Inodes, c: Fileid)
    requires c in rows && rows[c].nlink >= 1
    ensures Bump(Bump(rows, c, -1), c, 1) == rows
  {
  }

  lemma RenamedIsBumped(s: Store, src: Key, dst: Key, p: RenamePlan)
    requires FitsNow(s, src, dst, p)
    ensures s.dirents[src] == Dirent(p.fid, p.kind) && p.fid in s.inodes
    ensures src.parent in s.inodes && dst.parent in s.inodes && s.inodes[src.parent].nlink >= 1
    ensures p.victim.Victim? ==> p.victim.fid in s.inodes && s.inodes[p.victim.fid].nlink >= 1
    ensures p.fid in Recounted(s.inodes, src, dst, p)
    ensures Renamed(s, src, dst, KeepsOrphan(p)).inodes == TouchedUp(Recounted(s.inodes, src, dst, p), src, dst, p)
  {
    FitsGround(s, src, dst, p);
    RenamedRecount(s, src, dst, p);
    var d := (s.dirents - {src})[dst := s.dirents[src]];
    SettleParent(s.inodes, d, p.fid, dst.parent);
    var rows := Reparented(s.inodes, src, dst, p.fid);
    if p.victim.Victim? {
      SettleDrop(rows, d, p.victim.fid);
      SettleOrphan(rows, d, p.victim.fid);
      RenamedNames(s.dirents, src, dst, p.victim.fid);
    }
  }

  /** The displaced row is touched last, so its decrement may come last too. */
  lemma VictimLast(rows: Inodes, src: Key, dst: Key, f: Fileid, v: Fileid)
    requires f in rows && v in rows && f != v && rows[v].nlink >= 1
    ensures Reparented(Bump(rows, v, -1), src, dst, f) == Bump(Reparented(rows, src, dst, f), v, -1)
    ensures Reparented(Bump(rows, v, -1), src, dst, f) - {v} == Reparented(rows, src, dst, f) - {v}
  {
  }

  lemma SettleParent(rows: Inodes, d: Dirents, f: Fileid, p: Fileid)
    requires f in rows
    ensures var t := Settle(rows, d); Settle(rows[f := rows[f].(parent := p)], d) == t[f := t[f].(parent := p)]
  {
  }

  lemma SettleOrphan(rows: Inodes, d: Dirents, f: Fileid)
    requires f in rows
    ensures var t := Settle(rows, d); Settle(rows[f := rows[f].(orphan := true)], d) == t[f := t[f].(orphan := true)]
  {
  }

  lemma UnlinkedIsBumped(s: Store, k: Key, rows: seq<GcRow>)
    requires NamesResolve(s) && CountsExact(s) && CanUnlink(s, k)
    ensures var f := s.dirents[k].child;
      && f in s.inodes && k.parent in s.inodes && f != k.parent
      && (if s.dirents[k].kind.Dir? then
            && s.inodes[k.parent].nlink >= 1
            && Unlinked(s, k, rows).inodes == Bump(s.inodes - {f}, k.parent, -1)
          else if Names(s.dirents - {k}, f) == {} then
            Unlinked(s, k, rows).inodes == s.inodes - {f}
          else
            s.inodes[f].nlink >= 1 && Unlinked(s, k, rows).inodes == Bump(s.inodes, f, -1))
  {
    var f := s.dirents[k].child;
    SettledIsExact(s);
    Debited(s.inodes, s.dirents, k);
    SettleDrop(s.inodes, s.dirents - {k}, f);
    BumpDrop(s.inodes, Charged(k, s.dirents[k]), f);
  }

  /** The state a remove leaves, row by row. */
  lemma UnlinkedIsWritten(s: Store, k: Key, p: RemovePlan, final: bool)
    requires NamesResolve(s) && CountsExact(s) && Names?(s, k, p.child) && CanUnlink(s, k)
    requires KindAgrees(s, p.child, p.kind)
    requires final <==> p.kind.Dir? || Names(s.dirents - {k}, p.child) == {}
    ensures p.child in s.inodes && (!final ==> s.inodes[p.child].nlink >= 1)
    ensures var delta := if p.kind.Dir? then -1 else 0;
      var rows := if final then s.inodes - {p.child} else Bump(s.inodes, p.child, -1);
      && k.parent in rows && rows[k.parent].nlink + delta >= 0
      && Unlinked(s, k, p.rows) ==
           Store(ParentUpdate(rows, k.parent, delta), s.dirents - {k},
                 if final then s.stripes - {p.child} else s.stripes, if final then s.gc + p.rows else s.gc, s.used)
  {
    UnlinkedIsBumped(s, k, p.rows);
  }

  /** The state a create leaves, row by row. */
  lemma CreatedIsWritten(s: Store, k: Key, fid: Fileid, kind: Kind, ds: set<DsId>)
    requires NamesResolve(s) && CountsExact(s) && CanCreate(s, k, fid) && fid !in s.inodes
    ensures Created(s, k, fid, kind, ds) == WithNew(s, k, fid, kind, ds)
  {
    CreatedIsBumped(s, k, fid, kind, ds);
  }

  /** The tables with the rows of a new object written. */
  function WithNew(s: Store, k: Key, fid: Fileid, kind: Kind, ds: set<DsId>): Store
    requires k.parent in s.inodes
  {
    var rows := s.inodes[fid := Inode(kind, if kind.Dir? then 2 else 1, false, k.parent)];
    Store(ParentUpdate(rows, k.parent, if kind.Dir? then 1 else 0), s.dirents[k := Dirent(fid, kind)],
          if kind.Reg? && ds != {} then s.stripes[fid := ds] else s.stripes, s.gc, s.used + {fid})
  }
}
