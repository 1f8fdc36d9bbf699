/** The part of a Linux kernel that an atomic artifact output depends on: inodes, directory
    entries and a descriptor table, changed by one system call at a time.

    Other processes run between any two of this process's system calls. What they can do is
    the relation `Others`; every system call below first lets them move and then either fails
    without effect or takes effect at once. */
module Fs {
  import opened Outcomes

  type Ino = int
  type Fd = int
  type Name = string
  type Bytes = seq<int>

  datatype Kind = Regular | Directory | Special

  /** `mode` is the nine permission bits, `acl` the access ACL if there is one, `entries` what
      a directory lists. */
  datatype Inode = Inode(kind: Kind, uid: nat, gid: nat, mode: nat, setgid: bool, acl: Option<Bytes>,
                         nlink: int, data: Bytes, entries: map<Name, Ino>)

  /** `mine` are the inodes this process created. Inode numbers are never reused. */
  datatype World = World(nodes: map<Ino, Inode>, fds: map<Fd, Ino>, mine: set<Ino>, euid: nat)
  {
    predicate IsDir(i: Ino) { i in nodes && nodes[i].kind == Directory }

    /** A directory of this user that grants no permission to anyone else. */
    predicate Private(d: Ino) {
      IsDir(d) && nodes[d].uid == euid && nodes[d].mode % 64 == 0
    }

    predicate Lists(d: Ino, n: Name) {
      IsDir(d) && n in nodes[d].entries && nodes[d].entries[n] in nodes
    }

    function At(d: Ino, n: Name): Ino
      requires Lists(d, n)
    {
      nodes[d].entries[n]
    }

    /** A regular file made by this process whose one link is the entry `n` of `d`. */
    predicate Sole(d: Ino, n: Name) {
      && Lists(d, n) && At(d, n) in mine
      && nodes[At(d, n)].kind == Regular && nodes[At(d, n)].nlink == 1
    }

    function Entries(d: Ino): map<Name, Ino> {
      if d in nodes then nodes[d].entries else map[]
    }

    function WithEntries(d: Ino, entries: map<Name, Ino>): World
      requires d in nodes
    {
      this.(nodes := nodes[d := nodes[d].(entries := entries)])
    }
  }

  /** What all other processes together may do between two system calls of this one. They may
      edit every directory but this user's private ones, and change every inode except
      a private directory, a mode-000 inode made here (its links aside), and a file made here
      whose only link is inside a private directory. */
  predicate Others(w: World, v: World) {
    && v.fds == w.fds && v.mine == w.mine && v.euid == w.euid
    && (forall i | i in w.nodes :: i in v.nodes && v.nodes[i].kind == w.nodes[i].kind)
    && (forall d | d in w.nodes :: w.Private(d) ==> v.nodes[d] == w.nodes[d])
    && (forall i | i in w.mine :: i in w.nodes && w.nodes[i].kind == Regular && w.nodes[i].mode == 0 ==>
          v.nodes[i] == w.nodes[i].(nlink := v.nodes[i].nlink))
    && (forall d | d in w.nodes :: w.Private(d) ==>
          forall n | n in w.nodes[d].entries :: w.Sole(d, n) ==> v.nodes[w.At(d, n)] == w.nodes[w.At(d, n)])
  }

  /** Inodes keep their kind and private directories stay private, whatever happened between. */
  ghost predicate Kept(w: World, v: World) {
    && v.euid == w.euid && w.mine <= v.mine
    && (forall i | i in w.nodes :: i in v.nodes && v.nodes[i].kind == w.nodes[i].kind)
    && (forall d | w.Private(d) :: v.Private(d))
  }

  /** What this process did to directory entries, in order, with what an export did besides. `asked` is the
      mode requested for a new entry, `node` the inode as it was when it was moved. */
  datatype Event =
    | Made(dir: Ino, name: Name, ino: Ino, asked: nat)
    | Moved(from: Ino, fromName: Name, to: Ino, toName: Name, ino: Ino, node: Inode)
    | Removed(dir: Ino, name: Name, ino: Ino)
    | SourceOpened
    | WriterClosed
    | SourceClosed
    | Ingest(content: Bytes, ok: bool)
    | KeyWritten

  lemma OthersTransitive(w: World, v: World, u: World)
    requires Others(w, v) && Others(v, u)
    ensures Others(w, u)
  {
  }

  lemma KeptTransitive(w: World, v: World, u: World)
    requires Kept(w, v) && Kept(v, u)
    ensures Kept(w, u)
  {
  }

  lemma KeptSelf(w: World)
    ensures Kept(w, w)
  {
  }

  // ---- effects of the system calls -------------------------------------------------------

  function Dropped(w: World, i: Ino): World {
    if i in w.nodes && w.nodes[i].kind == Regular
    then w.(nodes := w.nodes[i := w.nodes[i].(nlink := w.nodes[i].nlink - 1)])
    else w
  }

  function MakeEffect(w: World, d: Ino, n: Name, i: Ino, node: Inode): World
    requires d in w.nodes
  {
    var v := w.WithEntries(d, w.nodes[d].entries[n := i]);
    v.(nodes := v.nodes[i := node], mine := w.mine + {i})
  }

  function RemoveEffect(w: World, d: Ino, n: Name): World
    requires w.Lists(d, n)
  {
    Dropped(w.WithEntries(d, w.nodes[d].entries - {n}), w.At(d, n))
  }

  /** renameat: two names of one inode are left alone, any other target entry is replaced. */
  function RenameEffect(w: World, sd: Ino, sn: Name, dd: Ino, dn: Name): World
    requires RenameAllowed(w, sd, sn, dd, dn)
  {
    var i := w.At(sd, sn);
    if w.Lists(dd, dn) && w.At(dd, dn) == i then w
    else
      var v := if w.Lists(dd, dn) then Dropped(w, w.At(dd, dn)) else w;
      var u := v.WithEntries(sd, v.nodes[sd].entries - {sn});
      u.WithEntries(dd, u.nodes[dd].entries[dn := i])
  }

  /** A file cannot replace a directory, nor a directory a file; a directory is replaced only
      when empty. */
  predicate RenameAllowed(w: World, sd: Ino, sn: Name, dd: Ino, dn: Name) {
    && w.Lists(sd, sn) && w.IsDir(dd) && w.At(sd, sn) != dd
    && (w.Lists(dd, dn) ==>
          (w.IsDir(w.At(dd, dn)) <==> w.IsDir(w.At(sd, sn)))
          && (w.IsDir(w.At(dd, dn)) ==> w.nodes[w.At(dd, dn)].entries == map[]))
  }

  datatype Change = Chmod(mode: nat, setgid: bool) | SetAcl(acl: Option<Bytes>) | Chown(uid: nat, gid: nat)

  function Changed(node: Inode, change: Change): Inode {
    match change
    case Chmod(mode, setgid) => node.(mode := mode, setgid := setgid)
    case SetAcl(acl) => node.(acl := acl)
    case Chown(uid, gid) => node.(uid := uid, gid := gid)
  }

  function AttrEffect(w: World, i: Ino, change: Change): World
    requires i in w.nodes
  {
    w.(nodes := w.nodes[i := Changed(w.nodes[i], change)])
  }

  function WriteEffect(w: World, i: Ino, put: Bytes): World {
    if i in w.nodes && !w.IsDir(i)
    then w.(nodes := w.nodes[i := w.nodes[i].(data := w.nodes[i].data + put)])
    else w
  }

  lemma EntriesKept(w: World, d: Ino, entries: map<Name, Ino>)
    requires d in w.nodes
    ensures Kept(w, w.WithEntries(d, entries))
  {
  }

  lemma DroppedKept(w: World, i: Ino)
    ensures Kept(w, Dropped(w, i)) && Dropped(w, i).nodes.Keys == w.nodes.Keys
  {
  }

  lemma RemoveKept(w: World, d: Ino, n: Name)
    requires w.Lists(d, n)
    ensures Kept(w, RemoveEffect(w, d, n))
  {
    EntriesKept(w, d, w.nodes[d].entries - {n});
    DroppedKept(w.WithEntries(d, w.nodes[d].entries - {n}), w.At(d, n));
  }

  lemma RenameKept(w: World, sd: Ino, sn: Name, dd: Ino, dn: Name)
    requires RenameAllowed(w, sd, sn, dd, dn)
    ensures Kept(w, RenameEffect(w, sd, sn, dd, dn))
  {
    var i := w.At(sd, sn);
    if !(w.Lists(dd, dn) && w.At(dd, dn) == i) {
      if w.Lists(dd, dn) { DroppedKept(w, w.At(dd, dn)); }
      var v := if w.Lists(dd, dn) then Dropped(w, w.At(dd, dn)) else w;
      EntriesKept(v, sd, v.nodes[sd].entries - {sn});
      var u := v.WithEntries(sd, v.nodes[sd].entries - {sn});
      EntriesKept(u, dd, u.nodes[dd].entries[dn := i]);
    }
  }

  /** Every permission bit of `mode` is one of `asked`. */
  predicate Within(mode: nat, asked: nat) {
    mode == 0 || ((mode % 2 == 1 ==> asked % 2 == 1) && Within(mode / 2, asked / 2))
  }

  lemma {:induction false} WithinBelow(mode: nat, asked: nat)
    requires Within(mode, asked)
    ensures mode <= asked
  {
    if mode != 0 { WithinBelow(mode / 2, asked / 2); }
  }

  datatype Stat = Found(ino: Ino, node: Inode) | Absent | StatFailed

  /** What this process saw and which attributes it set, in order: the answer of a stat of a name
      or of a descriptor, and a chmod, chown or ACL change that took effect. */
  datatype Note = Looked(dir: Ino, name: Name, answer: Stat) | Sighted(ino: Ino, node: Inode)
                | Granted(ino: Ino, change: Change)

  datatype Creation = Created(ino: Ino) | Exists | CreationFailed

  /** Nobody else runs; or others run, but not between an identity check and the call it
      guards; or others run everywhere. */
  datatype Company = Alone | Polite | Racing

  class Kernel {
    var w: World
    const company: Company
    ghost var log: seq<Event>
    ghost var audit: seq<Note>
    /** some call failed for a reason of its own, or ten random names were all taken */
    ghost var faulted: bool
    /** and it was one that clean-up depends on */
    ghost var unclean: bool

    predicate Quiet() { company == Alone }

    predicate Racy() { company == Racing }

    constructor (w: World, company: Company)
      ensures this.w == w && this.company == company && log == [] && audit == [] && !faulted && !unclean
    {
      this.w, this.company, log, audit, faulted, unclean := w, company, [], [], false, false;
    }

    method Interfere()
      modifies this`w
      ensures Others(old(w), w)
      ensures Quiet() ==> w == old(w)
    {
      if !Quiet() {
        var v: World := *;
        if Others(w, v) { w := v; }
      }
    }

    /** open(path, O_PATH|O_DIRECTORY) of the directory `d`. */
    method Open(d: Ino) returns (fd: Option<Fd>, ghost mid: World)
      modifies this`w, this`faulted
      ensures Kept(old(w), w) && Others(old(w), mid) && (Quiet() ==> mid == old(w))
      ensures fd.Some? ==> fd.value !in mid.fds && mid.IsDir(d) && w == mid.(fds := mid.fds[fd.value := d])
      ensures fd.None? ==> w == mid
      ensures faulted == (old(faulted) || fd.None?)
    {
      Interfere();
      mid := w;
      var f: int, fault: bool := *, *;
      if fault || f in w.fds || !w.IsDir(d) {
        faulted := true;
        return None, mid;
      }
      w := w.(fds := w.fds[f := d]);
      fd := Some(f);
    }

    /** mkdirat(…, 0700): the umask may drop owner bits, and a set-group-ID parent passes on
        the flag. */
    method Mkdirat(dirFd: Fd, name: Name) returns (r: Creation, ghost mid: World)
      requires dirFd in w.fds && w.IsDir(w.fds[dirFd])
      modifies this`w, this`log, this`faulted
      ensures Kept(old(w), w) && Others(old(w), mid) && (Quiet() ==> mid == old(w))
      ensures faulted == (old(faulted) || r.CreationFailed?)
      ensures !r.Created? ==> w == mid && log == old(log)
      ensures r.Created? ==>
                && var d := mid.fds[dirFd];
                && mid.IsDir(d) && name !in mid.nodes[d].entries && r.ino !in mid.nodes
                && w.Private(r.ino) && w.nodes[r.ino].entries == map[]
                && w == MakeEffect(mid, d, name, r.ino, w.nodes[r.ino])
                && log == old(log) + [Made(d, name, r.ino, 448)]
    {
      Interfere();
      mid := w;
      var d := w.fds[dirFd];
      var i: int, gid: nat, owner: nat, setgid: bool, fault: bool := *, *, *, *, *;
      if name in w.nodes[d].entries { return Exists, mid; }
      if fault || i in w.nodes {
        faulted := true;
        return CreationFailed, mid;
      }
      w := MakeEffect(w, d, name, i, Inode(Directory, w.euid, gid, owner % 8 * 64, setgid, None, 1, [], map[]));
      log := log + [Made(d, name, i, 448)];
      r := Created(i);
    }

    /** fstatat without following links. A `guard` is a check whose action comes next, or the
        stat that records what was just made. */
    method Statat(dirFd: Fd, name: Name, guard: bool, ghost vital: bool) returns (r: Stat)
      requires dirFd in w.fds && w.IsDir(w.fds[dirFd])
      modifies this`w, this`faulted, this`unclean, this`audit
      ensures Kept(old(w), w) && Others(old(w), w) && (Quiet() || (guard && !Racy()) ==> w == old(w))
      ensures audit == old(audit) + [Looked(w.fds[dirFd], name, r)]
      ensures faulted == (old(faulted) || r.StatFailed?) && unclean == (old(unclean) || (r.StatFailed? && vital))
      ensures r.Found? ==> w.Lists(w.fds[dirFd], name) && r.ino == w.At(w.fds[dirFd], name)
                           && r.node == w.nodes[r.ino] && r.ino != w.fds[dirFd]
      ensures r.Absent? ==> name !in w.nodes[w.fds[dirFd]].entries
    {
      if !guard || Racy() { Interfere(); }
      var d := w.fds[dirFd];
      var fault: bool := *;
      if name !in w.nodes[d].entries && !fault {
        r := Absent;
      } else if fault || !w.Lists(d, name) || w.At(d, name) == d {
        faulted, unclean := true, unclean || vital;
        r := StatFailed;
      } else {
        r := Found(w.At(d, name), w.nodes[w.At(d, name)]);
      }
      audit := audit + [Looked(d, name, r)];
    }

    method Fstat(fd: Fd, ghost vital: bool) returns (r: Stat)
      requires fd in w.fds
      modifies this`w, this`faulted, this`unclean, this`audit
      ensures Kept(old(w), w) && Others(old(w), w) && (Quiet() ==> w == old(w))
      ensures !r.Absent? && audit == old(audit) + (if r.Found? then [Sighted(r.ino, r.node)] else [])
      ensures faulted == (old(faulted) || r.StatFailed?) && unclean == (old(unclean) || (r.StatFailed? && vital))
      ensures r.Found? ==> r.ino == w.fds[fd] && r.ino in w.nodes && r.node == w.nodes[r.ino]
    {
      Interfere();
      var fault: bool := *;
      if fault || w.fds[fd] !in w.nodes {
        faulted, unclean := true, unclean || vital;
        return StatFailed;
      }
      r := Found(w.fds[fd], w.nodes[w.fds[fd]]);
      audit := audit + [Sighted(r.ino, r.node)];
    }

    /** openat(O_DIRECTORY|O_NOFOLLOW). */
    method OpenDirAt(dirFd: Fd, name: Name) returns (fd: Option<Fd>, ghost mid: World)
      requires dirFd in w.fds && w.IsDir(w.fds[dirFd])
      modifies this`w, this`faulted
      ensures Kept(old(w), w) && Others(old(w), mid) && (Quiet() ==> mid == old(w))
      ensures faulted == (old(faulted) || fd.None?)
      ensures fd.None? ==> w == mid
      ensures fd.Some? ==>
                && var d := mid.fds[dirFd];
                && mid.Lists(d, name) && mid.IsDir(mid.At(d, name)) && fd.value !in mid.fds
                && w == mid.(fds := mid.fds[fd.value := mid.At(d, name)])
    {
      Interfere();
      mid := w;
      var d := w.fds[dirFd];
      var f: int, fault: bool := *, *;
      if fault || f in w.fds || !w.Lists(d, name) || !w.IsDir(w.At(d, name)) {
        faulted := true;
        return None, mid;
      }
      w := w.(fds := w.fds[f := w.At(d, name)]);
      fd := Some(f);
    }

    /** openat(O_CREAT|O_EXCL|O_NOFOLLOW). */
    method Createat(dirFd: Fd, name: Name, mode: nat) returns (r: Creation, fd: Fd, ghost mid: World)
      requires dirFd in w.fds && w.IsDir(w.fds[dirFd])
      modifies this`w, this`log, this`faulted
      ensures Kept(old(w), w) && Others(old(w), mid) && (Quiet() ==> mid == old(w))
      ensures faulted == (old(faulted) || r.CreationFailed?)
      ensures !r.Created? ==> w == mid && log == old(log)
      ensures r.Exists? ==> name in mid.Entries(mid.fds[dirFd])
      ensures r.Created? ==>
                && var d := mid.fds[dirFd];
                && mid.IsDir(d) && name !in mid.nodes[d].entries && r.ino !in mid.nodes && fd !in mid.fds
                && r.ino in w.nodes && var node := w.nodes[r.ino];
                && node.kind == Regular && node.uid == w.euid && node.nlink == 1 && node.data == []
                && Within(node.mode, mode)
                && w == MakeEffect(mid, d, name, r.ino, node).(fds := mid.fds[fd := r.ino])
                && log == old(log) + [Made(d, name, r.ino, mode)]
    {
      Interfere();
      mid := w;
      fd := 0;
      var d := w.fds[dirFd];
      var i: int, f: int, gid: nat, kept: nat, acl: Option<Bytes>, fault: bool := *, *, *, *, *, *;
      if name in w.nodes[d].entries { return Exists, fd, mid; }
      if fault || i in w.nodes || f in w.fds {
        faulted := true;
        return CreationFailed, fd, mid;
      }
      var node := Inode(Regular, w.euid, gid, if Within(kept, mode) then kept else 0, false, acl, 1, [], map[]);
      w := MakeEffect(w, d, name, i, node).(fds := w.fds[f := i]);
      log := log + [Made(d, name, i, mode)];
      r, fd := Created(i), f;
    }

    /** fchmod, fchown, fsetxattr and fremovexattr on an open inode. */
    method Setattr(fd: Fd, change: Change) returns (ok: bool, ghost mid: World)
      requires fd in w.fds && (w.IsDir(w.fds[fd]) ==> change.Chmod? && change.mode % 64 == 0)
      modifies this`w, this`faulted, this`audit
      ensures Kept(old(w), w) && Others(old(w), mid) && (Quiet() ==> mid == old(w))
      ensures faulted == (old(faulted) || !ok)
      ensures !ok ==> w == mid && audit == old(audit)
      ensures ok ==> mid.fds[fd] in mid.nodes && w == AttrEffect(mid, mid.fds[fd], change)
                     && audit == old(audit) + [Granted(mid.fds[fd], change)]
    {
      Interfere();
      mid := w;
      var fault: bool := *;
      if fault || w.fds[fd] !in w.nodes || (w.IsDir(w.fds[fd]) && !change.Chmod?) {
        faulted := true;
        return false, mid;
      }
      audit := audit + [Granted(w.fds[fd], change)];
      w := AttrEffect(w, w.fds[fd], change);
      ok := true;
    }

    method Renameat(srcFd: Fd, sn: Name, dstFd: Fd, dn: Name) returns (ok: bool, ghost mid: World)
      requires srcFd in w.fds && dstFd in w.fds
      modifies this`w, this`log, this`faulted
      ensures Kept(old(w), w) && Others(old(w), mid) && (Quiet() ==> mid == old(w))
      ensures faulted == (old(faulted) || !ok)
      ensures !ok ==> w == mid && log == old(log)
      ensures ok ==>
                && var sd, dd := mid.fds[srcFd], mid.fds[dstFd];
                && RenameAllowed(mid, sd, sn, dd, dn)
                && w == RenameEffect(mid, sd, sn, dd, dn)
                && log == old(log) + [Moved(sd, sn, dd, dn, mid.At(sd, sn), mid.nodes[mid.At(sd, sn)])]
    {
      Interfere();
      mid := w;
      var sd, dd := w.fds[srcFd], w.fds[dstFd];
      var fault: bool := *;
      if fault || !RenameAllowed(w, sd, sn, dd, dn) {
        faulted := true;
        return false, mid;
      }
      log := log + [Moved(sd, sn, dd, dn, w.At(sd, sn), w.nodes[w.At(sd, sn)])];
      RenameKept(w, sd, sn, dd, dn);
      w := RenameEffect(w, sd, sn, dd, dn);
      ok := true;
    }

    /** unlinkat; with `rmdir` it takes empty directories only, without it never a directory. */
    method Unlinkat(dirFd: Fd, name: Name, rmdir: bool, guarded: bool)
      returns (ok: bool, absent: bool, ghost mid: World)
      requires dirFd in w.fds && w.IsDir(w.fds[dirFd])
      modifies this`w, this`log, this`faulted, this`unclean
      ensures Kept(old(w), w) && Others(old(w), mid) && (Quiet() || (guarded && !Racy()) ==> mid == old(w))
      ensures !(ok && absent)
      ensures faulted == (old(faulted) || !(ok || absent)) && (old(unclean) ==> unclean)
      ensures unclean && !old(unclean) ==> faulted && !ok && !absent
      ensures !ok && !absent && !unclean ==>
                && var d := mid.fds[dirFd];
                && name in mid.nodes[d].entries
                && !(mid.Lists(d, name) && (mid.IsDir(mid.At(d, name)) <==> rmdir)
                    && (rmdir ==> mid.nodes[mid.At(d, name)].entries == map[]))
      ensures absent ==> name !in mid.nodes[mid.fds[dirFd]].entries
      ensures !ok ==> w == mid && log == old(log)
      ensures ok ==>
                && var d := mid.fds[dirFd];
                && mid.Lists(d, name) && w == RemoveEffect(mid, d, name)
                && (mid.IsDir(mid.At(d, name)) <==> rmdir) && (rmdir ==> mid.nodes[mid.At(d, name)].entries == map[])
                && log == old(log) + [Removed(d, name, mid.At(d, name))]
    {
      if !guarded || Racy() { Interfere(); }
      mid := w;
      var d := w.fds[dirFd];
      var fault: bool := *;
      ok, absent := false, false;
      if name !in w.nodes[d].entries && !fault {
        absent := true;
        return;
      }
      if fault || !w.Lists(d, name) || w.IsDir(w.At(d, name)) != rmdir
          || (rmdir && w.nodes[w.At(d, name)].entries != map[]) {
        faulted, unclean := true, unclean || fault;
        return;
      }
      log := log + [Removed(d, name, w.At(d, name))];
      RemoveKept(w, d, name);
      w := RemoveEffect(w, d, name);
      ok := true;
    }

    /** close releases the descriptor even when it reports an error. */
    method CloseFd(fd: Fd) returns (ok: bool, ghost mid: World)
      requires fd in w.fds
      modifies this`w, this`faulted
      ensures Kept(old(w), w) && Others(old(w), mid) && (Quiet() ==> mid == old(w))
      ensures w == mid.(fds := mid.fds - {fd})
      ensures faulted == (old(faulted) || !ok)
    {
      Interfere();
      mid := w;
      w := w.(fds := w.fds - {fd});
      var fault: bool := *;
      if fault { faulted := true; }
      ok := !fault;
    }

    /** fcntl(F_DUPFD_CLOEXEC). */
    method Dup(fd: Fd) returns (r: Option<Fd>, ghost mid: World)
      requires fd in w.fds
      modifies this`w, this`faulted
      ensures Kept(old(w), w) && Others(old(w), mid) && (Quiet() ==> mid == old(w))
      ensures faulted == (old(faulted) || r.None?)
      ensures r.None? ==> w == mid
      ensures r.Some? ==> r.value !in mid.fds && w == mid.(fds := mid.fds[r.value := mid.fds[fd]])
    {
      Interfere();
      mid := w;
      var f: int, fault: bool := *, *;
      if fault || f in w.fds {
        faulted := true;
        return None, mid;
      }
      w := w.(fds := w.fds[f := w.fds[fd]]);
      r := Some(f);
    }

    /** write: appends `bytes`, or on a fault only the first of them. */
    method Write(fd: Fd, bytes: Bytes) returns (put: Bytes, ghost mid: World)
      requires fd in w.fds
      modifies this`w, this`faulted
      ensures Kept(old(w), w) && Others(old(w), mid) && (Quiet() ==> mid == old(w))
      ensures put <= bytes && faulted == (old(faulted) || put != bytes)
      ensures w == WriteEffect(mid, mid.fds[fd], put)
    {
      Interfere();
      mid := w;
      var n: int := *;
      put := if 0 <= n <= |bytes| then bytes[..n] else bytes;
      if put != bytes { faulted := true; }
      w := WriteEffect(w, w.fds[fd], put);
    }
  }
}
