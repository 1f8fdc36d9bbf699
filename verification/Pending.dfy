/** cmd/flatten-ctl/pending_linux.go: a file written in a private staging directory, reached
    through retained descriptors, and renamed onto the destination. */
module PendingArtifacts {
  import opened Outcomes
  import opened Fs

  datatype Error = Sys | Exhausted | NotPrivate | StagingReplaced | LostGroup | NotExclusive
                 | ImageReplaced | NotRegular | Refused | Cancelled | WriteFailed | IngestFailed | KeyFailed

  datatype Ident = Ident(ino: Ino, kind: Kind)

  ghost function Held(fd: Option<Fd>): set<Fd> { if fd.Some? then {fd.value} else {} }

  function Join(a: Option<Error>, b: Option<Error>): Option<Error> {
    if a.Some? then a else b
  }

  /** The file `f` is the entry `n` of the private directory `d`, and has no other link. */
  ghost predicate Holds(w: World, d: Ino, n: Name, f: Ino) {
    w.Private(d) && w.Sole(d, n) && w.At(d, n) == f
  }

  lemma OthersKeep(w: World, v: World, d: Ino, n: Name, f: Ino)
    requires Others(w, v) && Holds(w, d, n, f)
    ensures Holds(v, d, n, f) && v.nodes[f] == w.nodes[f] && v.nodes[d] == w.nodes[d]
  {
  }

  lemma OthersKeepAll(w: World, v: World, d: Ino)
    requires Others(w, v) && w.Private(d)
    ensures v.Private(d) && v.Entries(d) == w.Entries(d)
    ensures forall n | w.Lists(d, n) ::
              v.Lists(d, n) && v.At(d, n) == w.At(d, n) && (w.IsDir(w.At(d, n)) <==> v.IsDir(w.At(d, n)))
  {
  }

  /** How the random names of lines 71 and 224 begin. */
  const STAGING: Name := ".flatten-artifact-"
  const RESERVE: Name := ".flatten-reserve-"

  predicate Temporary(n: Name) { STAGING <= n || RESERVE <= n }

  /** The names under which entries of `t` were made after the events `was`. */
  ghost function MadeIn(was: seq<Event>, now: seq<Event>, t: Ino): set<Name> {
    set j | |was| <= j < |now| && now[j].Made? && now[j].dir == t :: now[j].name
  }

  /** What an event may do to the entries of `t`: only temporary names are touched, and of these only
      `names`; one is made only where there was none, one is unlinked only if its inode was made here,
      and none is replaced. */
  ghost predicate Tame(e: Event, t: Ino, mine: set<Ino>, names: set<Name>, company: Company) {
    match e
    case Made(d, n, i, asked) => i in mine && (d == t ==> n in names && Temporary(n))
    case Moved(sd, sn, dd, dn, i, node) => dd != t && (sd == t ==> sn in names && (company == Alone ==> i in mine))
    case Removed(d, n, i) => d == t ==> n in names && (company != Racing ==> i in mine)
    case _ => false
  }

  /** The same entries, but for these names. */
  ghost predicate Outside(before: map<Name, Ino>, after: map<Name, Ino>, names: set<Name>) {
    before - names == after - names
  }

  /** Only names that were free and that were made since have other entries than before. */
  ghost predicate Around(was: seq<Event>, now: seq<Event>, t: Ino, before: map<Name, Ino>, after: map<Name, Ino>) {
    MadeIn(was, now, t) !! before.Keys && Outside(before, after, MadeIn(was, now, t))
  }

  lemma OutsideAt(before: map<Name, Ino>, after: map<Name, Ino>, names: set<Name>, n: Name)
    requires Outside(before, after, names) && n !in names
    ensures (n in before <==> n in after) && (n in before ==> before[n] == after[n])
  {
    assert n in before <==> n in before - names;
    assert n in after <==> n in after - names;
  }

  lemma OutsideTogether(before: map<Name, Ino>, mid: map<Name, Ino>, after: map<Name, Ino>, first: set<Name>,
      second: set<Name>, all: set<Name>)
    requires Outside(before, mid, first) && Outside(mid, after, second) && first <= all && second <= all
    ensures Outside(before, after, all)
  {
    forall n | n !in all ensures (n in before <==> n in after) && (n in before ==> before[n] == after[n]) {
      OutsideAt(before, mid, first, n);
      OutsideAt(mid, after, second, n);
    }
  }

  lemma RemoveOutside(w: World, d: Ino, n: Name)
    requires w.Lists(d, n)
    ensures Outside(w.Entries(d), RemoveEffect(w, d, n).Entries(d), {n})
    ensures forall t | t != d :: RemoveEffect(w, d, n).Entries(t) == w.Entries(t)
  {
    assert RemoveEffect(w, d, n).Entries(d) == w.Entries(d) - {n};
  }

  lemma NoneMade(was: seq<Event>, t: Ino, entries: map<Name, Ino>)
    ensures MadeIn(was, was, t) == {} && Around(was, was, t, entries, entries)
  {
  }

  lemma OneMade(was: seq<Event>, e: Event, t: Ino, before: map<Name, Ino>)
    requires e.Made? && e.dir == t && e.name !in before
    ensures MadeIn(was, was + [e], t) == {e.name}
    ensures Around(was, was + [e], t, before, before[e.name := e.ino])
  {
    MadeOne(was, e, t);
    assert before - {e.name} == before[e.name := e.ino] - {e.name};
  }

  lemma MadeOne(was: seq<Event>, e: Event, t: Ino)
    requires e.Made? && e.dir == t
    ensures MadeIn(was, was + [e], t) == {e.name}
  {
    assert (was + [e])[|was|] == e;
  }

  lemma MadeTogether(was: seq<Event>, mid: seq<Event>, now: seq<Event>, t: Ino)
    requires was <= mid <= now
    ensures MadeIn(was, now, t) == MadeIn(was, mid, t) + MadeIn(mid, now, t)
  {
    forall n | n in MadeIn(was, now, t) ensures n in MadeIn(was, mid, t) + MadeIn(mid, now, t) {
      var j :| |was| <= j < |now| && now[j].Made? && now[j].dir == t && now[j].name == n;
      if j < |mid| { assert mid[j] == now[j]; }
    }
    forall n | n in MadeIn(was, mid, t) ensures n in MadeIn(was, now, t) {
      var j :| |was| <= j < |mid| && mid[j].Made? && mid[j].dir == t && mid[j].name == n;
      assert now[j] == mid[j];
    }
  }

  lemma AroundTogether(was: seq<Event>, mid: seq<Event>, now: seq<Event>, t: Ino, before: map<Name, Ino>,
      between: map<Name, Ino>, after: map<Name, Ino>)
    requires was <= mid <= now
    requires Around(was, mid, t, before, between) && Around(mid, now, t, between, after)
    ensures Around(was, now, t, before, after)
  {
    MadeTogether(was, mid, now, t);
    OutsideTogether(before, between, after, MadeIn(was, mid, t), MadeIn(mid, now, t), MadeIn(was, now, t));
    forall n | n in before ensures n in between && n !in MadeIn(was, now, t) {
      OutsideAt(before, between, MadeIn(was, mid, t), n);
    }
  }

  lemma SwapEffect(w: World, c: Ino, f: Ino)
    requires RenameAllowed(w, c, "inherited", c, "image") && Holds(w, c, "inherited", f)
    requires w.Lists(c, "image") && w.At(c, "image") != f
    ensures var v := RenameEffect(w, c, "inherited", c, "image");
            && Holds(v, c, "image", f) && v.nodes[f] == w.nodes[f]
            && v.Entries(c) == (w.Entries(c) - {"inherited"})["image" := f]
            && forall d | d != c :: v.Entries(d) == w.Entries(d)
  {
  }

  lemma PublishEffect(w: World, c: Ino, t: Ino, output: Name, f: Ino)
    requires RenameAllowed(w, c, "image", t, output) && Holds(w, c, "image", f) && c != t
    ensures var v := RenameEffect(w, c, "image", t, output);
            && v.Lists(t, output) && v.At(t, output) == f && v.nodes[f].data == w.nodes[f].data
            && SameFile(v.nodes[f], w.nodes[f])
            && v.Entries(t) == w.Entries(t)[output := f] && v.fds == w.fds && v.mine == w.mine
            && (forall n | n in v.Entries(c) :: n in w.Entries(c))
            && (w.Lists(t, output) ==> !w.IsDir(w.At(t, output)))
  {
  }

  lemma TakeEffect(w: World, t: Ino, n: Name, c: Ino, f0: Ino, f1: Ino)
    requires RenameAllowed(w, t, n, c, "inherited") && Holds(w, c, "image", f0) && Blank(w, f1) && f1 != f0 && t != c
             && w.IsDir(t)
    ensures var v, x := RenameEffect(w, t, n, c, "inherited"), w.At(t, n);
            && v.Lists(c, "inherited") && v.At(c, "inherited") == x && v.Lists(c, "image") && v.At(c, "image") == f0
            && !v.IsDir(f0)
            && Outside(w.Entries(t), v.Entries(t), {n})
            && v.Private(c) && v.IsDir(t) && Blank(v, f1) && v.fds == w.fds && v.mine == w.mine
            && ("inherited" !in w.Entries(c) ==>
                  v.Entries(t) == w.Entries(t) - {n} && v.Entries(c) == w.Entries(c)["inherited" := x]
                  && v.nodes[f1] == w.nodes[f1])
  {
  }

  ghost predicate AllTame(log: seq<Event>, from: nat, t: Ino, mine: set<Ino>, names: set<Name>, company: Company) {
    forall j | from <= j < |log| :: Tame(log[j], t, mine, names, company)
  }

  lemma TameTogether(was: seq<Event>, mid: seq<Event>, now: seq<Event>, t: Ino, mine: set<Ino>, more: set<Ino>,
      first: set<Name>, second: set<Name>, all: set<Name>, company: Company)
    requires was <= mid <= now && mine <= more && first <= all && second <= all
    requires AllTame(mid, |was|, t, mine, first, company) && AllTame(now, |mid|, t, more, second, company)
    ensures was <= now && AllTame(now, |was|, t, more, all, company)
  {
    forall j | |was| <= j < |now| ensures Tame(now[j], t, more, all, company) {
      if j < |mid| { assert Tame(mid[j], t, mine, first, company); }
    }
  }

  /** The events since `was` are tame, with the names made in them. */
  ghost predicate SelfTame(was: seq<Event>, now: seq<Event>, t: Ino, mine: set<Ino>, company: Company) {
    was <= now && AllTame(now, |was|, t, mine, MadeIn(was, now, t), company)
  }

  lemma SelfTameTogether(was: seq<Event>, mid: seq<Event>, now: seq<Event>, t: Ino, mine: set<Ino>, more: set<Ino>,
      company: Company)
    requires SelfTame(was, mid, t, mine, company) && SelfTame(mid, now, t, more, company) && mine <= more
    ensures SelfTame(was, now, t, more, company)
  {
    MadeTogether(was, mid, now, t);
    TameTogether(was, mid, now, t, mine, more, MadeIn(was, mid, t), MadeIn(mid, now, t), MadeIn(was, now, t), company);
  }

  /** An empty file made by this process that grants no permission yet. */
  ghost predicate Blank(w: World, f: Ino) {
    f in w.mine && f in w.nodes && w.nodes[f].kind == Regular && w.nodes[f].mode == 0 && w.nodes[f].data == []
  }

  lemma BlankThere(w: World, f: Ino)
    ensures Blank(w, f) ==> f in w.nodes
  {
  }

  /** The name denotes something that is no regular file. */
  ghost predicate Irregular(w: World, d: Ino, n: Name) {
    w.Lists(d, n) && w.nodes[w.At(d, n)].kind != Regular
  }

  /** The `i`th note is that the name denoted `ino`. */
  ghost predicate FoundAt(audit: seq<Note>, i: nat, d: Ino, n: Name, ino: Ino) {
    && i < |audit| && audit[i].Looked? && audit[i].dir == d && audit[i].name == n
    && audit[i].answer.Found? && audit[i].answer.ino == ino
  }

  /** The two notes of a verification: staging `c` under its name in `t`, the image `f` in it. */
  ghost predicate VerifiedAt(audit: seq<Note>, i: nat, t: Ino, n: Name, c: Ino, f: Ino) {
    FoundAt(audit, i, t, n, c) && FoundAt(audit, i + 1, c, "image", f)
  }

  /** The `i`th note is that the name was free or denoted a regular file. */
  ghost predicate PlainAt(audit: seq<Note>, i: nat, d: Ino, n: Name) {
    && i < |audit| && audit[i].Looked? && audit[i].dir == d && audit[i].name == n
    && (audit[i].answer.Absent? || (audit[i].answer.Found? && audit[i].answer.node.kind == Regular))
  }

  /** or that it denoted something else. */
  ghost predicate IrregularAt(audit: seq<Note>, i: nat, d: Ino, n: Name) {
    && i < |audit| && audit[i].Looked? && audit[i].dir == d && audit[i].name == n
    && audit[i].answer.Found? && audit[i].answer.node.kind != Regular
  }

  /** Nothing, or a regular file that the output may replace. */
  ghost predicate Replaceable(w: World, d: Ino, n: Name) {
    n !in w.Entries(d) || (w.Lists(d, n) && w.nodes[w.At(d, n)].kind == Regular)
  }

  /** The name denotes that inode. */
  ghost predicate Denotes(w: World, d: Ino, n: Name, i: Ino) {
    w.Lists(d, n) && w.At(d, n) == i
  }

  /** The attributes an output file keeps when it is replaced. */
  ghost predicate LikeOutput(node: Inode, prev: Inode) {
    node.uid == prev.uid && node.gid == prev.gid && node.mode == prev.mode && node.acl == prev.acl
  }

  /** The same, and the same bytes. */
  ghost predicate SameFile(a: Inode, b: Inode) { LikeOutput(a, b) && a.data == b.data }

  ghost predicate SameFiles(w: World, v: World) {
    forall i | i in w.nodes :: i in v.nodes && SameFile(v.nodes[i], w.nodes[i])
  }

  lemma RemoveSame(w: World, d: Ino, n: Name)
    requires w.Lists(d, n)
    ensures SameFiles(w, RemoveEffect(w, d, n))
  {
  }

  /** What a file committed under a name has of the one that was there; a new one is not executable. */
  ghost predicate Dressed(node: Inode, prev: Option<Inode>) {
    if prev.Some? then LikeOutput(node, prev.value)
    else node.mode / 64 % 2 == 0 && node.mode / 8 % 2 == 0 && node.mode % 2 == 0
  }

  /** And one made without a name is nobody else's business. */
  ghost predicate OwnersOnly(node: Inode) { node.mode % 64 == 0 }

  lemma WithinHalf(mode: nat, asked: nat) returns (half: nat)
    requires Within(mode, asked)
    ensures half == mode / 2 && Within(half, asked / 2) && mode == 2 * half + mode % 2
    ensures asked % 2 == 0 ==> mode % 2 == 0
  {
    half := mode / 2;
  }

  /** Three bits at a time. */
  lemma WithinDigit(mode: nat, asked: nat) returns (rest: nat)
    requires Within(mode, asked)
    ensures rest == mode / 8 && Within(rest, asked / 8) && mode == 8 * rest + mode % 8
    ensures asked % 2 == 0 ==> mode % 2 == 0
    ensures asked % 8 == 0 ==> mode % 8 == 0
  {
    var a := WithinHalf(mode, asked);
    var b := WithinHalf(a, asked / 2);
    rest := WithinHalf(b, asked / 2 / 2);
  }

  lemma WithinDigits(mode: nat)
    ensures Within(mode, 6 * 64 + 6 * 8 + 6) ==> mode / 64 % 2 == 0 && mode / 8 % 2 == 0 && mode % 2 == 0
    ensures Within(mode, 6 * 64) ==> mode % 64 == 0
  {
    if Within(mode, 438) {
      var a := WithinDigit(mode, 438);
      var b := WithinDigit(a, 54);
      var c := WithinDigit(b, 6);
    }
    if Within(mode, 384) {
      var a := WithinDigit(mode, 384);
      var b := WithinDigit(a, 48);
    }
  }

  /** An entry of `d` was made since for the inode `f`. */
  ghost predicate MadeAs(was: seq<Event>, now: seq<Event>, d: Ino, f: Ino) {
    exists j :: |was| <= j < |now| && now[j].Made? && now[j].dir == d && now[j].ino == f
  }

  /** An entry `n` of `d` was made since, and asked for with that mode. */
  ghost predicate Asked(was: seq<Event>, now: seq<Event>, d: Ino, n: Name, mode: nat) {
    exists j :: |was| <= j < |now| && now[j].Made? && now[j].dir == d && now[j].name == n && now[j].asked == mode
  }

  lemma MadeLater(was: seq<Event>, mid: seq<Event>, now: seq<Event>, d: Ino, f: Ino, n: Name, mode: nat)
    requires was <= mid <= now
    ensures MadeAs(was, mid, d, f) || MadeAs(mid, now, d, f) ==> MadeAs(was, now, d, f)
    ensures Asked(was, mid, d, n, mode) || Asked(mid, now, d, n, mode) ==> Asked(was, now, d, n, mode)
  {
    if MadeAs(was, mid, d, f) {
      var j :| |was| <= j < |mid| && mid[j].Made? && mid[j].dir == d && mid[j].ino == f;
      assert now[j] == mid[j];
    }
    if Asked(was, mid, d, n, mode) {
      var j :| |was| <= j < |mid| && mid[j].Made? && mid[j].dir == d && mid[j].name == n && mid[j].asked == mode;
      assert now[j] == mid[j];
    }
  }

  lemma JustMade(was: seq<Event>, d: Ino, n: Name, f: Ino, mode: nat)
    ensures MadeAs(was, was + [Made(d, n, f, mode)], d, f) && Asked(was, was + [Made(d, n, f, mode)], d, n, mode)
  {
    assert (was + [Made(d, n, f, mode)])[|was|] == Made(d, n, f, mode);
  }

  /** No entry of `t` was moved elsewhere after the events `was`. */
  ghost predicate NoneTaken(was: seq<Event>, now: seq<Event>, t: Ino) {
    was <= now && forall j | |was| <= j < |now| :: now[j].Moved? ==> now[j].from != t
  }

  lemma NoneTogether(was: seq<Event>, mid: seq<Event>, now: seq<Event>, t: Ino)
    requires NoneTaken(was, mid, t) && NoneTaken(mid, now, t)
    ensures NoneTaken(was, now, t)
  {
    forall j | |was| <= j < |now| && now[j].Moved? ensures now[j].from != t {
      if j < |mid| { assert mid[j] == now[j]; }
    }
  }

  /** What was moved out of `t` since then is what the name `reserved` denoted in the world `at`: it
      is of this process exactly if that was the file `f1`, or one in `before`. */
  ghost predicate OneTaken(was: seq<Event>, now: seq<Event>, t: Ino, reserved: Name, at: World, f1: Ino,
      before: set<Ino>) {
    && was <= now
    && forall j | |was| <= j < |now| && now[j].Moved? && now[j].from == t ::
         && at.mine == before + {f1} && now[j].fromName == reserved && Denotes(at, t, reserved, now[j].ino)
         && (now[j].ino in at.mine <==> Denotes(at, t, reserved, f1) || now[j].ino in before)
  }

  lemma TakenOnce(was: seq<Event>, mid: seq<Event>, now: seq<Event>, t: Ino, reserved: Name, at: World, f1: Ino,
      before: set<Ino>, e: Event)
    requires mid == was + [e] && NoneTaken(mid, now, t) && at.mine == before + {f1}
    requires e.Moved? && e.from == t ==> e.fromName == reserved && Denotes(at, t, reserved, e.ino)
    ensures OneTaken(was, now, t, reserved, at, f1, before)
  {
    forall j | |was| <= j < |now| && now[j].Moved? && now[j].from == t ensures now[j] == e {
      assert j == |was|;
    }
  }

  lemma TakenLater(was: seq<Event>, mid: seq<Event>, now: seq<Event>, t: Ino, reserved: Name, at: World, f1: Ino,
      before: set<Ino>, e: Event)
    requires mid == was + [e] && !e.Moved?
    requires OneTaken(mid, now, t, reserved, at, f1, before + {f1} - {f1})
    ensures OneTaken(was, now, t, reserved, at, f1, before)
  {
    assert before + {f1} - {f1} + {f1} == before + {f1};
    assert now[|was|] == e;
  }

  /** Seen with one link and no permission. */
  ghost predicate Exclusive(node: Inode) { node.nlink == 1 && node.mode == 0 }

  ghost predicate SightedAt(now: seq<Note>, i: nat, f1: Ino, seen: Inode) {
    i < |now| && now[i] == Sighted(f1, seen) && Exclusive(seen)
  }

  /** An ACL the replaced file did not have is dropped before the mode is set, and its own is set after. */
  ghost function AccessNotes(f: Ino, prev: Inode): seq<Note> {
    if prev.acl.None? then [Granted(f, SetAcl(None)), Granted(f, Chmod(prev.mode, false))]
    else [Granted(f, Chmod(prev.mode, false)), Granted(f, SetAcl(prev.acl))]
  }

  /** Every attribute set after the notes `was` was set on `f1`, after a stat, the `n`th of the notes
      since, had shown it with one link and no permission. */
  ghost predicate SeenFirst(was: seq<Note>, now: seq<Note>, n: nat, f1: Ino, seen: Inode) {
    was <= now && forall j | |was| <= j < |now| && now[j].Granted? ::
      j > |was| + n && now[j].ino == f1 && SightedAt(now, |was| + n, f1, seen)
  }

  class PendingArtifact {
    const k: Kernel
    /** the directory the parent descriptor is bound to */
    ghost const target: Ino
    var file: Option<Fd>
    var dir: Option<Fd>
    var parent: Option<Fd>
    var fileInfo: Option<Ident>
    var dirInfo: Option<Ident>
    var name: Name
    var output: Name
    var ownedFile: bool
    var createdDir: Option<Ino>

    /** The descriptors held. */
    ghost function Own(): set<Fd> reads this { Held(file) + Held(dir) + Held(parent) }

    /** The name of the staging directory, if there is one to remove. */
    ghost function StagingName(): set<Name> reads this { if createdDir.Some? then {name} else {} }

    /** Every other descriptor of the process. */
    ghost function Rest(): map<Fd, Ino> reads this, k { k.w.fds - Own() }

    ghost predicate Bound() reads this, k {
      && Own() <= k.w.fds.Keys
      && (file.Some? ==> file != dir && file != parent) && (dir.Some? ==> dir != parent)
      && (parent.Some? ==> k.w.fds[parent.value] == target && k.w.IsDir(target))
      && (dir.Some? ==> parent.Some? && k.w.IsDir(k.w.fds[dir.value]))
      && (createdDir.Some? ==> k.w.Private(createdDir.value) && createdDir.value != target)
      && (createdDir.Some? && !k.Racy() ==> createdDir.value in k.w.mine)
      && (ownedFile ==> createdDir.Some? && (dir.Some? ==> k.w.fds[dir.value] == createdDir.value))
    }

    /** Unless others or failed clean-up interfere, the staging directory holds nothing but the image. */
    ghost predicate Tidy() reads this, k {
      createdDir.Some? && k.Quiet() && !k.unclean ==>
        forall n | n in k.w.Entries(createdDir.value) ::
            n == "image" && ownedFile && k.w.Lists(createdDir.value, n) && !k.w.IsDir(k.w.At(createdDir.value, n))
    }

    ghost predicate Valid() reads this, k { Bound() && Tidy() }

    /** The staging directory is open and verified. */
    ghost predicate Opened() reads this, k {
      && parent.Some? && dir.Some? && createdDir.Some?
      && dir.value in k.w.fds && k.w.fds[dir.value] == createdDir.value
      && dirInfo == Some(Ident(createdDir.value, Directory))
    }

    /** `f` is the staged image. */
    ghost predicate Staged(f: Ino) reads this, k {
      Opened() && ownedFile && Holds(k.w, createdDir.value, "image", f)
    }

    /** and `file` is open on it. */
    ghost predicate StagedOpen(f: Ino) reads this, k {
      Staged(f) && file.Some? && file.value in k.w.fds && k.w.fds[file.value] == f
    }

    /** The staging directory still has its name. */
    ghost predicate Listed() reads this, k {
      createdDir.Some? && Denotes(k.w, target, name, createdDir.value)
    }

    /** `f` was recorded for the final checks. */
    ghost predicate Reserved(f: Ino) reads this, k {
      Staged(f) && fileInfo == Some(Ident(f, Regular))
    }

    lemma OwnsThree()
      requires Bound() && file.Some? && dir.Some? && parent.Some?
      ensures |Own()| == 3
    {
      assert Own() == {file.value, dir.value, parent.value};
    }

    twostate lemma StillValid()
      requires old(Valid()) && Others(old(k.w), k.w) && k.unclean == old(k.unclean) && unchanged(this)
      ensures Valid() && Rest() == old(Rest())
    {
    }

    constructor (k: Kernel, fd: Fd, ghost target: Ino)
      requires k.w.IsDir(target) && fd in k.w.fds && k.w.fds[fd] == target
      ensures this.k == k && this.target == target && Valid()
      ensures parent == Some(fd) && file.None? && dir.None? && createdDir.None? && !ownedFile && name == ""
      ensures fileInfo.None? && dirInfo.None?
    {
      this.k, this.target, parent := k, target, Some(fd);
      file, dir, fileInfo, dirInfo, name, output, ownedFile, createdDir := None, None, None, None, "", "", false, None;
    }

    /** Lines 331-338. */
    method CloseFile() returns (err: Option<Error>, ghost mid: World)
      requires Valid()
      modifies this`file, k`w, k`faulted
      ensures Valid() && file.None? && Rest() == old(Rest())
      ensures Kept(old(k.w), k.w) && Others(old(k.w), mid) && (k.Quiet() ==> mid == old(k.w))
      ensures k.w == mid.(fds := mid.fds - Held(old(file)))
      ensures old(file).None? ==> err.None? && k.w == old(k.w)
      ensures k.faulted == (old(k.faulted) || err.Some?) && err in {None, Some(Sys)}
      ensures k.Quiet() ==> SameFiles(old(k.w), k.w)
    {
      mid := k.w;
      if file.None? { return None, mid; }
      var ok;
      ok, mid := k.CloseFd(file.value);
      file := None;
      err := if ok then None else Some(Sys);
    }

    /** Closing may remove the staged image and the staging directory, and nothing else. */
    ghost predicate CloseEvent(e: Event, image: bool, staging: bool) reads this {
      && e.Removed? && createdDir.Some?
      && (e.dir == target ==> staging && e.name == name && (!k.Racy() ==> e.ino == createdDir.value))
      && (e.dir != target ==> image && ownedFile && e.dir == createdDir.value && e.name == "image")
    }

    /** The log is `was` and then events of closing. */
    ghost predicate Added(was: seq<Event>, image: bool, staging: bool) reads this, k {
      was <= k.log && forall j | |was| <= j < |k.log| :: CloseEvent(k.log[j], image, staging)
    }

    method DropImage() returns (err: Option<Error>)
      requires Valid() && dir.Some? && ownedFile
      modifies k`w, k`log, k`faulted, k`unclean
      ensures Valid() && k.w.fds == old(k.w.fds) && Kept(old(k.w), k.w)
      ensures Added(old(k.log), true, false)
      ensures k.Quiet() ==> k.w.Entries(target) == old(k.w.Entries(target))
      ensures k.Quiet() && !k.unclean ==> k.w.Entries(createdDir.value) == map[]
      ensures (old(k.unclean) ==> k.unclean) && (old(k.faulted) || err.Some? ==> k.faulted)
      ensures k.Quiet() ==> SameFiles(old(k.w), k.w)
      ensures err.None? ==> k.faulted == old(k.faulted)
    {
      var removed, absent;
      ghost var mid;
      removed, absent, mid := k.Unlinkat(dir.value, "image", false, false);
      err := if removed || absent then None else Some(Sys);
      if removed { RemoveSame(mid, k.w.fds[dir.value], "image"); }
      ghost var c := createdDir.value;
      if k.Quiet() && !k.unclean {
        OthersKeepAll(old(k.w), mid, c);
        assert forall n | n in mid.Entries(c) :: n in old(k.w.Entries(c)) && n == "image";
        assert forall n :: n !in k.w.Entries(c);
      }
    }

    method DropDir() returns (err: Option<Error>)
      requires Valid() && file.None? && dir.Some?
      modifies this`dir, k`w, k`log, k`faulted, k`unclean
      ensures Valid() && dir.None? && Rest() == old(Rest())
      ensures Kept(old(k.w), k.w)
      ensures Added(old(k.log), true, false)
      ensures k.Quiet() ==> k.w.Entries(target) == old(k.w.Entries(target))
      ensures createdDir.Some? && k.Quiet() && !k.unclean ==> k.w.Entries(createdDir.value) == map[]
      ensures (old(k.unclean) ==> k.unclean) && (old(k.faulted) || err.Some? ==> k.faulted)
      ensures k.Quiet() ==> SameFiles(old(k.w), k.w)
      ensures err.None? ==> k.faulted == old(k.faulted)
    {
      err := None;
      if ownedFile {
        err := DropImage();
      } else if createdDir.Some? && k.Quiet() && !k.unclean {
        assert forall n :: n !in k.w.Entries(createdDir.value);
      }
      var ok;
      ghost var mid;
      ok, mid := k.CloseFd(dir.value);
      if !ok { err := Join(err, Some(Sys)); }
      dir := None;
    }

    method DropStaging() returns (err: Option<Error>)
      requires Valid() && parent.Some? && createdDir.Some?
      modifies k`w, k`log, k`faulted, k`unclean, k`audit
      ensures old(k.audit) <= k.audit
      ensures Valid() && k.w.fds == old(k.w.fds)
      ensures Kept(old(k.w), k.w)
      ensures Added(old(k.log), false, true)
      ensures k.Quiet() && !k.unclean && old(k.w.Entries(createdDir.value)) == map[]
              && old(k.w.Lists(target, name) && k.w.At(target, name) == createdDir.value)
              ==> k.w.Entries(target) == old(k.w.Entries(target)) - {name}
      ensures (old(k.unclean) ==> k.unclean) && (old(k.faulted) || (k.Quiet() && err.Some?) ==> k.faulted)
      ensures k.Quiet() ==> Outside(old(k.w.Entries(target)), k.w.Entries(target), StagingName())
      ensures k.Quiet() ==> SameFiles(old(k.w), k.w)
      ensures err.None? ==> k.faulted == old(k.faulted)
    {
      hide Others;
      err := None;
      var current := k.Statat(parent.value, name, true, true);
      if current.Found? && current.ino == createdDir.value && current.node.kind == Directory {
        var removed, absent;
        ghost var mid;
        removed, absent, mid := k.Unlinkat(parent.value, name, true, true);
        if removed {
          RemoveOutside(mid, target, name);
          RemoveSame(mid, target, name);
        }
        if !removed { err := Some(Sys); }
      } else if current.StatFailed? {
        err := Some(Sys);
      }
    }

    method DropParent() returns (err: Option<Error>)
      requires Valid() && file.None? && dir.None? && parent.Some?
      modifies this`parent, k`w, k`log, k`faulted, k`unclean, k`audit
      ensures old(k.audit) <= k.audit
      ensures Valid() && parent.None? && Rest() == old(Rest())
      ensures Kept(old(k.w), k.w)
      ensures Added(old(k.log), false, true)
      ensures k.Quiet() && createdDir.None? ==> k.w.Entries(target) == old(k.w.Entries(target))
      ensures k.Quiet() && createdDir.Some? && !k.unclean && old(k.w.Entries(createdDir.value)) == map[]
              && old(k.w.Lists(target, name) && k.w.At(target, name) == createdDir.value)
              ==> k.w.Entries(target) == old(k.w.Entries(target)) - {name}
      ensures (old(k.unclean) ==> k.unclean) && (old(k.faulted) || (k.Quiet() && err.Some?) ==> k.faulted)
      ensures k.Quiet() ==> Outside(old(k.w.Entries(target)), k.w.Entries(target), StagingName())
      ensures k.Quiet() ==> SameFiles(old(k.w), k.w)
      ensures err.None? ==> k.faulted == old(k.faulted)
    {
      err := None;
      if createdDir.Some? { err := DropStaging(); }
      var ok;
      ghost var mid;
      ok, mid := k.CloseFd(parent.value);
      if !ok { err := Join(err, Some(Sys)); }
      parent := None;
    }

    method CloseDirectories() returns (err: Option<Error>)
      requires Valid() && file.None?
      modifies this`dir, this`parent, k`w, k`log, k`faulted, k`unclean, k`audit
      ensures old(k.audit) <= k.audit
      ensures Valid() && dir.None? && parent.None? && k.w.fds == old(Rest())
      ensures old(dir.None? && parent.None?) ==>
                err.None? && k.w == old(k.w) && k.log == old(k.log) && k.faulted == old(k.faulted)
      ensures Kept(old(k.w), k.w)
      ensures Added(old(k.log), old(dir).Some?, true)
      ensures QuietlyClosed(old(k.w), old(dir).Some?, old(parent).Some?)
      ensures (old(k.unclean) ==> k.unclean) && (old(k.faulted) || (k.Quiet() && err.Some?) ==> k.faulted)
      ensures k.Quiet() ==> Outside(old(k.w.Entries(target)), k.w.Entries(target), StagingName())
      ensures k.Quiet() ==> SameFiles(old(k.w), k.w)
      ensures err.None? ==> k.faulted == old(k.faulted)
    {
      hide Bound;
      err := None;
      if dir.Some? { err := DropDir(); }
      if parent.Some? {
        if createdDir.Some? && k.Quiet() && !k.unclean && !ownedFile {
          assert forall n :: n !in k.w.Entries(createdDir.value);
        }
        var e := DropParent();
        err := Join(err, e);
      }
    }

    /** Left alone and with clean-up unhindered, closing takes the staging directory out of the
        destination directory, and nothing else. */
    ghost predicate QuietlyClosed(was: World, hadDir: bool, hadParent: bool) reads this, k {
      k.Quiet() && !k.unclean && hadParent ==>
        && (createdDir.None? ==> k.w.Entries(target) == was.Entries(target))
        && (createdDir.Some? && (hadDir || !ownedFile) && was.Lists(target, name)
            && was.At(target, name) == createdDir.value ==>
              k.w.Entries(target) == was.Entries(target) - {name})
    }

    /** Lines 340-370. Every descriptor is closed once; a second call does nothing. */
    method Close() returns (err: Option<Error>)
      requires Valid()
      modifies this`file, this`dir, this`parent, k`w, k`log, k`faulted, k`unclean, k`audit
      ensures old(k.audit) <= k.audit
      ensures Valid() && file.None? && dir.None? && parent.None?
      ensures k.w.fds == old(Rest())
      ensures old(file.None? && dir.None? && parent.None?) ==>
                err.None? && k.w == old(k.w) && k.log == old(k.log) && k.faulted == old(k.faulted)
      ensures Kept(old(k.w), k.w)
      ensures Added(old(k.log), old(dir).Some?, true)
      ensures QuietlyClosed(old(k.w), old(dir).Some?, old(parent).Some?)
      ensures (old(k.unclean) ==> k.unclean) && (old(k.faulted) || (k.Quiet() && err.Some?) ==> k.faulted)
      ensures k.Quiet() ==> Outside(old(k.w.Entries(target)), k.w.Entries(target), StagingName())
      ensures k.Quiet() ==> SameFiles(old(k.w), k.w)
      ensures err.None? ==> k.faulted == old(k.faulted)
    {
      ghost var mid;
      var fileErr;
      fileErr, mid := CloseFile();
      err := CloseDirectories();
      err := Join(fileErr, err);
    }

    /** The log is `was` and then events that leave other people's entries alone. */
    ghost predicate TameSince(was: seq<Event>, names: set<Name>) reads this, k {
      was <= k.log && AllTame(k.log, |was|, target, k.w.mine, names, k.company)
    }

    /** The same for all names made since `was`; and, left alone, no other entry of the destination
        directory is different from `before`. */
    ghost predicate Tamed(was: seq<Event>, before: map<Name, Ino>) reads this, k {
      && SelfTame(was, k.log, target, k.w.mine, k.company)
      && (k.Quiet() ==> Around(was, k.log, target, before, k.w.Entries(target)))
    }

    lemma TamedTogether(w: World, v: World, u: World, was: seq<Event>, mid: seq<Event>, now: seq<Event>)
      requires SelfTame(was, mid, target, v.mine, k.company) && SelfTame(mid, now, target, u.mine, k.company)
      requires k.Quiet() ==>
                && Around(was, mid, target, w.Entries(target), v.Entries(target))
                && Around(mid, now, target, v.Entries(target), u.Entries(target))
      requires Kept(v, u)
      ensures SelfTame(was, now, target, u.mine, k.company)
      ensures MadeIn(was, mid, target) <= MadeIn(was, now, target)
      ensures k.Quiet() ==> Around(was, now, target, w.Entries(target), u.Entries(target))
    {
      SelfTameTogether(was, mid, now, target, v.mine, u.mine, k.company);
      MadeTogether(was, mid, now, target);
      if k.Quiet() { AroundTogether(was, mid, now, target, w.Entries(target), v.Entries(target), u.Entries(target)); }
    }

    lemma NothingMade(was: seq<Event>, now: seq<Event>, entries: map<Name, Ino>, mine: set<Ino>)
      requires was <= now && AllTame(now, |was|, target, mine, {}, k.company)
      ensures SelfTame(was, now, target, mine, k.company) && Around(was, now, target, entries, entries)
    {
      forall j | |was| <= j < |now| ensures !(now[j].Made? && now[j].dir == target) {
        assert Tame(now[j], target, mine, {}, k.company);
      }
      assert MadeIn(was, now, target) == {};
    }

    lemma ReservedTamed(was: seq<Event>, e: Event, now: seq<Event>, v: World, u: World,
        before: map<Name, Ino>, after: map<Name, Ino>)
      requires e.Made? && e.dir == target && Temporary(e.name) && e.ino in v.mine && Kept(v, u) && was + [e] <= now
      requires AllTame(now, |was| + 1, target, u.mine, {e.name}, k.company)
      ensures SelfTame(was, now, target, u.mine, k.company)
      ensures e.name !in before && Outside(before[e.name := e.ino], after, {e.name}) ==>
                Around(was, now, target, before, after)
    {
      var mid := was + [e];
      MadeOne(was, e, target);
      MadeTogether(was, mid, now, target);
      forall n | n in MadeIn(mid, now, target) ensures n == e.name {
        var j :| |mid| <= j < |now| && now[j].Made? && now[j].dir == target && now[j].name == n;
        assert Tame(now[j], target, u.mine, {e.name}, k.company);
      }
      assert MadeIn(was, now, target) == {e.name};
      TameTogether(was, mid, now, target, v.mine, u.mine, {e.name}, {e.name}, {e.name}, k.company);
      if e.name !in before { assert before - {e.name} == before[e.name := e.ino] - {e.name}; }
    }

    /** A name that is in use when others are made still denotes what it did. */
    lemma StillDenotes(v: World, u: World, was: seq<Event>, now: seq<Event>, n: Name, i: Ino)
      requires Around(was, now, target, v.Entries(target), u.Entries(target)) && Kept(v, u)
      ensures Denotes(v, target, n, i) ==> Denotes(u, target, n, i)
    {
      if Denotes(v, target, n, i) {
        OutsideAt(v.Entries(target), u.Entries(target), MadeIn(was, now, target), n);
      }
    }

    ghost predicate Fresh() reads this, k {
      Valid() && parent.Some? && dir.None? && file.None? && !ownedFile && dirInfo.None? && fileInfo.None?
    }

    /** Lines 79-88: record the directory just made, if it is private. */
    method RecordStaging(made: Name, ghost i: Ino) returns (err: Option<Error>)
      requires Fresh() && createdDir.None? && name == ""
      requires i in k.w.mine && k.w.Entries(i) == map[]
      requires !k.Racy() ==> k.w.Lists(target, made) && k.w.At(target, made) == i
      modifies this`name, this`createdDir, k`w, k`faulted, k`unclean, k`audit
      ensures old(k.audit) <= k.audit
      ensures Fresh() && k.w.fds == old(k.w.fds) && Kept(old(k.w), k.w)
      ensures name == made && (err.None? <==> createdDir.Some?)
      ensures createdDir.Some? && !k.Racy() ==> createdDir.value == i
      ensures k.Quiet() ==> k.w == old(k.w)
      ensures k.Quiet() && old(k.w.Private(i)) && !k.unclean ==> createdDir.Some?
      ensures (old(k.unclean) ==> k.unclean)
              && (old(k.faulted) || (k.Quiet() && old(k.w.Private(i)) && err.Some?) ==> k.faulted)
      ensures err.None? ==> k.faulted == old(k.faulted)
    {
      name := made;
      var created := k.Statat(parent.value, name, true, true);
      if !created.Found? { return Some(Sys); }
      if created.node.kind != Directory || created.node.uid != k.w.euid || created.node.mode % 64 != 0 {
        return Some(NotPrivate);
      }
      if k.Quiet() { assert forall n :: n !in k.w.Entries(created.ino); }
      createdDir := Some(created.ino);
      err := None;
    }

    /** One attempt at a random name; `again` when it is taken. */
    method TryStaging() returns (again: bool, err: Option<Error>)
      requires Fresh() && createdDir.None? && name == ""
      modifies this`name, this`createdDir, k`w, k`log, k`faulted, k`unclean, k`audit
      ensures old(k.audit) <= k.audit
      ensures Fresh() && k.w.fds == old(k.w.fds) && Tamed(old(k.log), old(k.w.Entries(target))) && Kept(old(k.w), k.w)
      ensures again ==> createdDir.None? && name == "" && k.log == old(k.log) && k.unclean == old(k.unclean)
      ensures again ==> (k.Quiet() ==> k.w == old(k.w))
      ensures !again ==> (err.None? <==> createdDir.Some?)
      ensures k.Quiet() && !k.unclean && createdDir.None? ==> k.w.Entries(target) == old(k.w.Entries(target))
      ensures k.Quiet() && createdDir.Some? ==>
                name !in old(k.w.Entries(target)) && k.w.Lists(target, name)
                && k.w.Entries(target) == old(k.w.Entries(target))[name := createdDir.value]
      ensures (old(k.unclean) ==> k.unclean) && (old(k.faulted) ==> k.faulted)
      ensures k.Quiet() && !again && err.Some? ==> k.faulted
      ensures StagingName() <= MadeIn(old(k.log), k.log, target)
      ensures err.None? ==> k.faulted == old(k.faulted)
      ensures again ==> k.faulted == old(k.faulted)
    {
      again, err := false, None;
      NoneMade(k.log, target, k.w.Entries(target));
      var suffix: string := *;
      var made := STAGING + suffix;
      var r;
      ghost var mid;
      r, mid := k.Mkdirat(parent.value, made);
      if r.CreationFailed? {
        err := Some(Sys);
      } else if r.Exists? {
        again := true;
      } else {
        label L:
        MadeOne(old(k.log), k.log[|old(k.log)|], target);
        if k.Quiet() { OneMade(old(k.log), k.log[|old(k.log)|], target, old(k.w.Entries(target))); }
        err := RecordStaging(made, r.ino);
        if createdDir.Some? && k.Quiet() {
          assert k.w == old@L(k.w);
        }
      }
    }

    /** Lines 70-93. */
    method MakeStaging() returns (err: Option<Error>)
      requires Fresh() && createdDir.None? && name == ""
      modifies this`name, this`createdDir, k`w, k`log, k`faulted, k`unclean, k`audit
      ensures old(k.audit) <= k.audit
      ensures Fresh() && k.w.fds == old(k.w.fds) && Tamed(old(k.log), old(k.w.Entries(target))) && Kept(old(k.w), k.w)
      ensures err.None? <==> createdDir.Some?
      ensures k.Quiet() && !k.unclean && createdDir.None? ==> k.w.Entries(target) == old(k.w.Entries(target))
      ensures k.Quiet() && createdDir.Some? ==>
                name !in old(k.w.Entries(target)) && k.w.Lists(target, name)
                && k.w.Entries(target) == old(k.w.Entries(target))[name := createdDir.value]
      ensures (old(k.unclean) ==> k.unclean) && (old(k.faulted) ==> k.faulted)
      ensures k.Quiet() && err.Some? ==> k.faulted
      ensures StagingName() <= MadeIn(old(k.log), k.log, target)
      ensures err.None? ==> k.faulted == old(k.faulted)
    {
      NoneMade(k.log, target, k.w.Entries(target));
      for attempt := 0 to 10
        invariant Fresh() && createdDir.None? && name == "" && k.w.fds == old(k.w.fds) && Kept(old(k.w), k.w)
        invariant k.log == old(k.log) && k.unclean == old(k.unclean) && (old(k.faulted) ==> k.faulted)
        invariant old(k.audit) <= k.audit && (k.Quiet() ==> k.w == old(k.w)) && k.faulted == old(k.faulted)
      {
        var again;
        again, err := TryStaging();
        if !again { return; }
      }
      k.faulted := true;
      err := Some(Exhausted);
    }

    /** Lines 94-112: open what the name now denotes and check that it is the directory made. */
    method OpenStaging() returns (st: Inode, err: Option<Error>)
      requires Fresh() && createdDir.Some?
      modifies this`dir, this`dirInfo, k`w, k`faulted, k`unclean, k`audit
      ensures old(k.audit) <= k.audit
      ensures Kept(old(k.w), k.w)
      ensures Valid() && parent.Some? && file.None? && !ownedFile && fileInfo.None? && Rest() == old(Rest())
      ensures k.unclean == old(k.unclean)
      ensures k.Quiet() ==> k.w.nodes == old(k.w.nodes)
      ensures err.None? ==>
                Opened() && st == k.w.nodes[createdDir.value] && Sighted(createdDir.value, st) in k.audit
      ensures old(k.faulted) ==> k.faulted
      ensures k.Quiet() && old(Listed()) && err.Some? ==> k.faulted
      ensures err.None? ==> k.faulted == old(k.faulted)
    {
      var fd;
      ghost var mid;
      fd, mid := k.OpenDirAt(parent.value, name);
      if fd.Some? {
        dir := fd;
        OthersKeepAll(old(k.w), mid, createdDir.value);
        st, err := InspectStaging();
      } else {
        st, err := Inode(Special, 0, 0, 0, false, None, 0, [], map[]), Some(Sys);
      }
    }

    /** Lines 99-112. */
    method InspectStaging() returns (st: Inode, err: Option<Error>)
      requires Valid() && parent.Some? && file.None? && !ownedFile && fileInfo.None? && dir.Some? && createdDir.Some?
      modifies this`dirInfo, k`w, k`faulted, k`unclean, k`audit
      ensures old(k.audit) <= k.audit
      ensures Kept(old(k.w), k.w) && k.w.fds == old(k.w.fds)
      ensures Valid() && k.unclean == old(k.unclean)
      ensures k.Quiet() ==> k.w == old(k.w)
      ensures err.None? ==>
                Opened() && st == k.w.nodes[createdDir.value] && Sighted(createdDir.value, st) in k.audit
      ensures old(k.faulted) ==> k.faulted
      ensures k.Quiet() && old(k.w.fds[dir.value]) == createdDir.value && err.Some? ==> k.faulted
      ensures err.None? ==> k.faulted == old(k.faulted)
    {
      st := Inode(Special, 0, 0, 0, false, None, 0, [], map[]);
      var r := k.Fstat(dir.value, false);
      OthersKeepAll(old(k.w), k.w, createdDir.value);
      if !r.Found? {
        err := Some(Sys);
      } else if r.node.uid != k.w.euid || r.node.mode % 64 != 0 {
        st, err := r.node, Some(NotPrivate);
      } else {
        st, dirInfo := r.node, Some(Ident(r.ino, r.node.kind));
        err := if r.ino != createdDir.value then Some(StagingReplaced) else None;
      }
    }

    /** What the file system makes of a chmod to 0700 with or without the set-group-ID bit: it may drop
        the bit, and it may drop owner bits, which counts as a fault. */
    method AppliedChange(setgid: bool) returns (change: Change, ghost dropped: bool)
      modifies k`faulted
      ensures change.Chmod? && change.mode % 64 == 0 && change.mode <= 448
      ensures (dropped ==> setgid) && change.setgid == (setgid && !dropped)
      ensures k.faulted == (old(k.faulted) || change.mode != 448)
    {
      var kept: bool, owner: nat := *, *;
      change, dropped := Chmod(owner % 8 * 64, setgid && kept), setgid && !kept;
      if owner % 8 != 7 { k.faulted := true; }
    }

    /** Lines 117-143: give the owner full access again, and notice a lost set-group-ID bit. */
    method RestoreMode(st: Inode) returns (inherit: bool, err: Option<Error>, ghost dropped: bool)
      requires Valid() && Opened() && file.None? && !ownedFile && st == k.w.nodes[createdDir.value]
      modifies k`w, k`faulted, k`unclean, k`audit
      ensures old(k.audit) <= k.audit
      ensures Kept(old(k.w), k.w)
      ensures Valid() && Opened() && k.w.fds == old(k.w.fds) && k.unclean == old(k.unclean)
      ensures k.Quiet() ==> k.w.Entries(target) == old(k.w.Entries(target))
      ensures err.None? ==>
                && var now := k.w.nodes[createdDir.value];
                && now.gid == st.gid && now.mode / 64 % 8 == 7
                && inherit == (st.setgid && !now.setgid)
      ensures st.mode / 64 % 8 == 7 ==>
                err.None? && !inherit && k.w == old(k.w) && k.audit == old(k.audit) && k.faulted == old(k.faulted)
      ensures err.None? ==> (inherit ==> dropped) && (k.w.nodes[createdDir.value].setgid ==> st.setgid)
      ensures old(k.faulted) ==> k.faulted
      ensures k.Quiet() && err.Some? ==> k.faulted
      ensures err.None? ==> k.faulted == old(k.faulted)
    {
      hide Others;
      inherit, err, dropped := false, None, false;
      if st.mode / 64 % 8 == 7 { return; }
      var change;
      change, dropped := AppliedChange(st.setgid);
      var ok := ChangeStaging(change);
      if !ok { return inherit, Some(Sys), dropped; }
      label L:
      var restored := k.Fstat(dir.value, false);
      OthersKeepAll(old@L(k.w), k.w, createdDir.value);
      if !restored.Found? { return inherit, Some(Sys), dropped; }
      if restored.node.gid != st.gid || restored.node.mode % 512 != 448 { return inherit, Some(LostGroup), dropped; }
      inherit := st.setgid && !restored.node.setgid;
    }

    /** fchmod on a descriptor of the staging directory. */
    method ChangeThrough(fd: Fd, change: Change) returns (ok: bool)
      requires Valid() && Opened() && !ownedFile && change.Chmod? && change.mode % 64 == 0
      requires fd in k.w.fds && k.w.fds[fd] == createdDir.value
      modifies k`w, k`faulted, k`audit
      ensures old(k.audit) <= k.audit
      ensures Kept(old(k.w), k.w)
      ensures Valid() && k.w.fds == old(k.w.fds)
      ensures k.Quiet() ==> k.w.Entries(target) == old(k.w.Entries(target))
      ensures ok ==> k.w.nodes[createdDir.value] == Changed(old(k.w.nodes[createdDir.value]), change)
      ensures old(k.faulted) ==> k.faulted
      ensures !ok ==> k.faulted
      ensures ok ==> k.faulted == old(k.faulted)
    {
      ghost var mid;
      ok, mid := k.Setattr(fd, change);
      OthersKeepAll(old(k.w), mid, createdDir.value);
    }

    /** fchmod through a usable descriptor of the directory, or on the retained one. */
    method ChangeStaging(change: Change) returns (ok: bool)
      requires Valid() && Opened() && file.None? && !ownedFile && change.Chmod? && change.mode % 64 == 0
      modifies k`w, k`faulted, k`audit
      ensures old(k.audit) <= k.audit
      ensures Kept(old(k.w), k.w)
      ensures Valid() && Opened() && k.w.fds == old(k.w.fds)
      ensures k.Quiet() ==> k.w.Entries(target) == old(k.w.Entries(target))
      ensures ok ==> k.w.nodes[createdDir.value] == Changed(old(k.w.nodes[createdDir.value]), change)
      ensures old(k.faulted) ==> k.faulted
      ensures !ok ==> k.faulted
      ensures ok ==> k.faulted == old(k.faulted)
    {
      var access;
      ghost var mid;
      access, mid := k.Dup(dir.value);
      OthersKeepAll(old(k.w), mid, createdDir.value);
      if access.None? {
        // made up for: the retained descriptor serves as well
        k.faulted := old(k.faulted);
        ok := ChangeThrough(dir.value, change);
        return;
      }
      ok := ChangeThrough(access.value, change);
      label M:
      var closed;
      closed, mid := k.CloseFd(access.value);
      OthersKeepAll(old@M(k.w), mid, createdDir.value);
      ok := ok && closed;
    }

    /** Lines 144-149. */
    method CreateImage(mode: nat) returns (err: Option<Error>, ghost f: Ino)
      requires Valid() && Opened() && file.None? && !ownedFile
      modifies this`file, this`ownedFile, k`w, k`log, k`faulted
      ensures Valid() && Opened() && Rest() == old(Rest()) && TameSince(old(k.log), {}) && Kept(old(k.w), k.w)
      ensures k.Quiet() ==> k.w.Entries(target) == old(k.w.Entries(target))
      ensures err.None? ==> StagedOpen(f) && k.w.nodes[f].data == []
      ensures err.Some? ==> file.None? && !ownedFile
      ensures old(k.faulted) ==> k.faulted
      ensures k.Quiet() && !k.unclean && err.Some? ==> k.faulted
      ensures err.None? ==>
                k.log == old(k.log) + [Made(createdDir.value, "image", f, mode)] && Within(k.w.nodes[f].mode, mode)
      ensures err.None? ==> k.faulted == old(k.faulted)
    {
      f := 0;
      var r, fd;
      ghost var mid;
      r, fd, mid := k.Createat(dir.value, "image", mode);
      OthersKeepAll(old(k.w), mid, createdDir.value);
      if !r.Created? { return Some(Sys), f; }
      ownedFile, file := true, Some(fd);
      err, f := None, r.ino;
      if k.Quiet() && !k.unclean {
        assert forall n | n in k.w.Entries(createdDir.value) :: n == "image";
      }
    }

    method ChangeFile(change: Change, ghost f: Ino) returns (ok: bool)
      requires Valid() && StagedOpen(f)
      modifies k`w, k`faulted, k`audit
      ensures old(k.audit) <= k.audit
      ensures Kept(old(k.w), k.w)
      ensures Valid() && StagedOpen(f) && k.w.fds == old(k.w.fds)
      ensures k.Quiet() ==> k.w.Entries(target) == old(k.w.Entries(target))
      ensures k.w.nodes[f] == if ok then Changed(old(k.w.nodes[f]), change) else old(k.w.nodes[f])
      ensures old(k.faulted) ==> k.faulted
      ensures !ok ==> k.faulted
      ensures ok ==> k.faulted == old(k.faulted)
      ensures k.audit == old(k.audit) + (if ok then [Granted(f, change)] else [])
    {
      ghost var mid;
      ok, mid := k.Setattr(file.value, change);
      OthersKeep(old(k.w), mid, createdDir.value, "image", f);
      OthersKeepAll(old(k.w), mid, createdDir.value);
    }

    method StatFile(ghost f: Ino) returns (r: Stat)
      requires Valid() && StagedOpen(f)
      modifies k`w, k`faulted, k`unclean, k`audit
      ensures old(k.audit) <= k.audit
      ensures Kept(old(k.w), k.w)
      ensures Valid() && StagedOpen(f) && k.w.fds == old(k.w.fds) && k.unclean == old(k.unclean)
      ensures k.Quiet() ==> k.w == old(k.w)
      ensures k.w.nodes[f] == old(k.w.nodes[f]) && !r.Absent? && (r.Found? ==> r == Found(f, k.w.nodes[f]))
      ensures k.w.mine == old(k.w.mine)
              && k.audit == old(k.audit) + (if r.Found? then [Sighted(f, k.w.nodes[f])] else [])
      ensures old(k.faulted) ==> k.faulted
      ensures !r.Found? ==> k.faulted
      ensures k.w.Entries(createdDir.value) == old(k.w.Entries(createdDir.value))
      ensures r.Found? ==> k.faulted == old(k.faulted)
    {
      r := k.Fstat(file.value, false);
      OthersKeep(old(k.w), k.w, createdDir.value, "image", f);
      StillValid();
    }

    /** Lines 156-182: give the image the owner, mode and ACL of the file it will replace. */
    method TransferAttributes(prev: Inode, ghost f: Ino) returns (err: Option<Error>)
      requires Valid() && StagedOpen(f)
      modifies k`w, k`faulted, k`unclean, k`audit
      ensures old(k.audit) <= k.audit
      ensures Kept(old(k.w), k.w)
      ensures Valid() && StagedOpen(f) && k.w.fds == old(k.w.fds) && k.unclean == old(k.unclean)
      ensures k.Quiet() ==> k.w.Entries(target) == old(k.w.Entries(target))
      ensures k.w.nodes[f].data == old(k.w.nodes[f].data)
      ensures err.None? ==> LikeOutput(k.w.nodes[f], prev)
      ensures old(k.faulted) ==> k.faulted
      ensures err.Some? ==> k.faulted
      ensures err.None? ==> k.faulted == old(k.faulted)
      ensures err.None? ==>
                var was := old(k.w.nodes[f]);
                k.audit == old(k.audit) + [Sighted(f, was)] + AccessNotes(f, prev)
                           + (if was.uid == prev.uid && was.gid == prev.gid then []
                              else [Granted(f, Chown(prev.uid, prev.gid))])
    {
      var st := StatFile(f);
      if !st.Found? { return Some(Sys); }
      var ok := TransferAccess(prev, f);
      if ok && (st.node.uid != prev.uid || st.node.gid != prev.gid) { ok := ChangeFile(Chown(prev.uid, prev.gid), f); }
      err := if ok then None else Some(Sys);
    }

    /** Lines 164-176. */
    method TransferAccess(prev: Inode, ghost f: Ino) returns (ok: bool)
      requires Valid() && StagedOpen(f)
      modifies k`w, k`faulted, k`audit
      ensures old(k.audit) <= k.audit
      ensures Kept(old(k.w), k.w)
      ensures Valid() && StagedOpen(f) && k.w.fds == old(k.w.fds)
      ensures k.Quiet() ==> k.w.Entries(target) == old(k.w.Entries(target))
      ensures var was := old(k.w.nodes[f]);
              && k.w.nodes[f].data == was.data && k.w.nodes[f].uid == was.uid && k.w.nodes[f].gid == was.gid
              && (ok ==> k.w.nodes[f].mode == prev.mode && k.w.nodes[f].acl == prev.acl)
      ensures old(k.faulted) ==> k.faulted
      ensures !ok ==> k.faulted
      ensures ok ==> k.faulted == old(k.faulted)
      ensures ok ==> k.audit == old(k.audit) + AccessNotes(f, prev)
    {
      ok := true;
      if prev.acl.None? { ok := ChangeFile(SetAcl(None), f); }
      if ok { ok := ChangeFile(Chmod(prev.mode, false), f); }
      if ok && prev.acl.Some? { ok := ChangeFile(SetAcl(prev.acl), f); }
    }

    /** Lines 183-186. */
    method RecordFile(ghost f: Ino) returns (err: Option<Error>)
      requires Valid() && StagedOpen(f)
      modifies this`fileInfo, k`w, k`faulted, k`unclean, k`audit
      ensures old(k.audit) <= k.audit
      ensures Kept(old(k.w), k.w)
      ensures Valid() && StagedOpen(f) && k.w.fds == old(k.w.fds) && k.unclean == old(k.unclean)
      ensures k.Quiet() ==> k.w.Entries(target) == old(k.w.Entries(target))
      ensures k.w.nodes[f] == old(k.w.nodes[f])
      ensures err.None? ==> Reserved(f)
      ensures old(k.faulted) ==> k.faulted
      ensures err.Some? ==> k.faulted
      ensures err.None? ==> k.faulted == old(k.faulted)
    {
      var st := StatFile(f);
      if !st.Found? { return Some(Sys); }
      fileInfo := Some(Ident(st.ino, st.node.kind));
      err := None;
    }

    /** Lines 305-310 with 295-303. `seen` is the world in which the staging name was looked up,
        and the image is looked up in the world at the end. */
    method Verify(ghost f: Ino) returns (err: Option<Error>, ghost seen: World)
      requires Valid() && Reserved(f)
      modifies k`w, k`faulted, k`unclean, k`audit
      ensures old(k.audit) <= k.audit
      ensures Valid() && Reserved(f) && k.w.fds == old(k.w.fds) && k.unclean == old(k.unclean)
      ensures Others(old(k.w), seen) && Others(seen, k.w) && Kept(old(k.w), k.w)
      ensures k.w.nodes[f] == old(k.w.nodes[f])
      ensures k.Quiet() ==> k.w == seen == old(k.w)
      ensures err.None? ==>
                && Denotes(seen, target, name, createdDir.value) && |k.audit| == |old(k.audit)| + 2
                && VerifiedAt(k.audit, |old(k.audit)|, target, name, createdDir.value, f)
      ensures !Denotes(seen, target, name, createdDir.value) ==> err.Some?
      ensures err.Some? ==> err == Some(ImageReplaced) && (k.faulted || !Denotes(seen, target, name, createdDir.value))
      ensures old(k.faulted) ==> k.faulted
      ensures f in k.w.nodes
      ensures err.None? ==> k.faulted == old(k.faulted)
    {
      hide Tidy;
      ghost var c := createdDir.value;
      var r := k.Statat(parent.value, name, false, false);
      seen := k.w;
      OthersKeep(old(k.w), k.w, c, "image", f);
      StillValid();
      if !r.Found? || Ident(r.ino, r.node.kind) != dirInfo.value { return Some(ImageReplaced), seen; }
      label L:
      r := k.Statat(dir.value, "image", false, false);
      OthersKeep(old@L(k.w), k.w, c, "image", f);
      StillValid@L();
      if !r.Found? || Ident(r.ino, r.node.kind) != fileInfo.value { return Some(ImageReplaced), seen; }
      err := None;
    }

    /** Line 328, the only call that can change the entry named `output`. */
    method Publish(ghost f: Ino) returns (err: Option<Error>)
      requires Valid() && Reserved(f)
      modifies k`w, k`log, k`faulted
      ensures k.Quiet() && old(Listed()) ==> Listed() && (err.None? ==> output != name)
      ensures Valid() && k.w.fds == old(k.w.fds) && Kept(old(k.w), k.w)
      ensures err.None? ==>
                && k.w.Lists(target, output) && k.w.At(target, output) == f
                && k.w.nodes[f].data == old(k.w.nodes[f].data)
                && k.log == old(k.log) + [Moved(createdDir.value, "image", target, output, f, old(k.w.nodes[f]))]
      ensures err.Some? ==> k.log == old(k.log) && Reserved(f) && k.w.nodes[f] == old(k.w.nodes[f])
      ensures k.Quiet() ==>
                k.w.Entries(target) == if err.None? then old(k.w.Entries(target))[output := f]
                    else old(k.w.Entries(target))
      ensures k.faulted == (old(k.faulted) || err.Some?) && (err.Some? ==> err == Some(Sys))
      ensures f in k.w.nodes && SameFile(k.w.nodes[f], old(k.w.nodes[f]))
    {
      ghost var mid;
      var ok;
      ok, mid := k.Renameat(dir.value, "image", parent.value, output);
      OthersKeep(old(k.w), mid, createdDir.value, "image", f);
      OthersKeepAll(old(k.w), mid, createdDir.value);
      if ok { PublishEffect(mid, createdDir.value, target, output, f); }
      err := if ok then None else Some(Sys);
    }

    /** Line 317: what the output name denotes just before the commit. */
    method LookAtOutput(ghost f: Ino) returns (r: Stat)
      requires Valid() && Reserved(f)
      modifies k`w, k`faulted, k`unclean, k`audit
      ensures old(k.audit) <= k.audit
      ensures Valid() && Reserved(f) && k.w.fds == old(k.w.fds) && k.unclean == old(k.unclean)
      ensures Others(old(k.w), k.w) && Kept(old(k.w), k.w)
      ensures k.w.nodes[f] == old(k.w.nodes[f]) && (k.Quiet() ==> k.w == old(k.w))
      ensures k.audit == old(k.audit) + [Looked(target, output, r)]
      ensures r.Found? ==> Denotes(k.w, target, output, r.ino) && r.node == k.w.nodes[r.ino]
      ensures r.Absent? ==> output !in k.w.Entries(target)
      ensures k.faulted == (old(k.faulted) || r.StatFailed?)
    {
      r := k.Statat(parent.value, output, false, false);
      OthersKeep(old(k.w), k.w, createdDir.value, "image", f);
      StillValid();
    }

    /** The notes of a commit: a verification, then the output name. */
    ghost predicate Vetted(was: seq<Note>, now: seq<Note>, f: Ino) reads this {
      && createdDir.Some? && was <= now && |now| == |was| + 3
      && VerifiedAt(now, |was|, target, name, createdDir.value, f)
    }

    /** Lines 313-323: everything that is looked up before a commit. `seen` is the world in which
        the staging name was looked up, `dest` the one in which the output name was. */
    method Vet(ghost f: Ino) returns (err: Option<Error>, ghost seen: World, ghost dest: World)
      requires Valid() && Reserved(f)
      modifies k`w, k`faulted, k`unclean, k`audit
      ensures old(k.audit) <= k.audit
      ensures Valid() && Reserved(f) && k.w.fds == old(k.w.fds) && k.unclean == old(k.unclean)
      ensures Others(old(k.w), seen) && Others(seen, dest) && dest == k.w && Kept(old(k.w), k.w)
      ensures k.w.nodes[f] == old(k.w.nodes[f]) && (k.Quiet() ==> seen == dest == old(k.w))
      ensures err.None? ==>
                && Denotes(seen, target, name, createdDir.value) && Replaceable(dest, target, output)
                && Vetted(old(k.audit), k.audit, f) && PlainAt(k.audit, |old(k.audit)| + 2, target, output)
      ensures !Denotes(seen, target, name, createdDir.value) ==> err == Some(ImageReplaced)
      ensures err == Some(NotRegular) ==>
                && Irregular(dest, target, output)
                && Vetted(old(k.audit), k.audit, f) && IrregularAt(k.audit, |old(k.audit)| + 2, target, output)
      ensures old(k.faulted) ==> k.faulted
      ensures err.Some? ==> err in {Some(Sys), Some(ImageReplaced), Some(NotRegular)}
      ensures err.Some? ==>
                || k.faulted || !Denotes(seen, target, name, createdDir.value)
                || (err == Some(NotRegular) && Irregular(dest, target, output))
      ensures err.None? ==> k.faulted == old(k.faulted)
    {
      err, seen := Verify(f);
      dest := k.w;
      if err.Some? { return; }
      var current := LookAtOutput(f);
      OthersTransitive(seen, dest, k.w);
      dest := k.w;
      if current.StatFailed? { err := Some(Sys); }
      if current.Found? && current.node.kind != Regular { err := Some(NotRegular); }
    }

    /** Lines 312-329. */
    method Commit(cancelled: bool, ghost f: Ino) returns (err: Option<Error>, ghost seen: World, ghost dest: World)
      requires Valid() && Reserved(f)
      modifies k`w, k`log, k`faulted, k`unclean, k`audit
      ensures old(k.audit) <= k.audit
      ensures Others(old(k.w), seen) && Others(seen, dest) && Kept(old(k.w), dest) && Kept(dest, k.w)
      ensures k.Quiet() ==> seen == dest == old(k.w)
      ensures err.None? ==>
                && Denotes(seen, target, name, createdDir.value) && Replaceable(dest, target, output)
                && Vetted(old(k.audit), k.audit, f) && PlainAt(k.audit, |old(k.audit)| + 2, target, output)
      ensures !Denotes(seen, target, name, createdDir.value) ==> err == Some(ImageReplaced)
      ensures err == Some(NotRegular) ==>
                && Irregular(dest, target, output)
                && Vetted(old(k.audit), k.audit, f) && IrregularAt(k.audit, |old(k.audit)| + 2, target, output)
      ensures k.Quiet() && old(Listed()) ==> Listed() && (err.None? ==> output != name)
      ensures Valid() && k.w.fds == old(k.w.fds) && k.unclean == old(k.unclean)
      ensures err.None? ==>
                && !cancelled && k.w.Lists(target, output) && k.w.At(target, output) == f
                && k.w.nodes[f].data == old(k.w.nodes[f].data)
                && k.log == old(k.log) + [Moved(createdDir.value, "image", target, output, f, old(k.w.nodes[f]))]
      ensures err.Some? ==> k.log == old(k.log) && Reserved(f) && k.w.nodes[f] == old(k.w.nodes[f])
      ensures k.Quiet() ==>
                k.w.Entries(target) == if err.None? then old(k.w.Entries(target))[output := f]
                    else old(k.w.Entries(target))
      ensures old(k.faulted) ==> k.faulted
      ensures err.Some? ==>
                || k.faulted || cancelled || !Denotes(seen, target, name, createdDir.value)
                || (err == Some(NotRegular) && Irregular(dest, target, output))
      ensures f in k.w.nodes && SameFile(k.w.nodes[f], old(k.w.nodes[f]))
      ensures err.None? ==> k.faulted == old(k.faulted)
    {
      err, seen, dest := Vet(f);
      if err.Some? { return; }
      if cancelled { return Some(Cancelled), seen, dest; }
      err := Publish(f);
    }

    // ---- inheritFileGroup, lines 207-293 ---------------------------------------------------

    /** `fd` is an open descriptor on `i` that belongs to none of the fields. */
    ghost predicate Loose(fd: Fd, i: Ino) reads this, k {
      fd in k.w.fds && fd !in Own() && k.w.fds[fd] == i
    }

    /** One attempt at a random name; `again` when it is taken. */
    method TryReserve(ghost f0: Ino) returns (again: bool, fd: Option<Fd>, reserved: Name, ghost f1: Ino)
      requires Valid() && StagedOpen(f0)
      modifies k`w, k`log, k`faulted
      ensures Valid() && StagedOpen(f0) && k.w.nodes[f0] == old(k.w.nodes[f0])
      ensures k.w.Entries(createdDir.value) == old(k.w.Entries(createdDir.value)) && Kept(old(k.w), k.w)
      ensures fd.None? ==>
                k.w.fds == old(k.w.fds) && k.w.mine == old(k.w.mine) && k.log == old(k.log)
                && (k.Quiet() ==> k.w == old(k.w))
      ensures fd.Some? ==>
                && fd.value !in old(k.w.fds) && k.w.fds == old(k.w.fds)[fd.value := f1]
                && k.w.mine == old(k.w.mine) + {f1}
                && Blank(k.w, f1) && f1 !in old(k.w.nodes) && Temporary(reserved)
                && k.log == old(k.log) + [Made(target, reserved, f1, 0)]
                && (k.Quiet() ==>
                     reserved !in old(k.w.Entries(target))
                     && k.w.Entries(target) == old(k.w.Entries(target))[reserved := f1])
      ensures old(k.faulted) ==> k.faulted
      ensures (!again && fd.None? ==> k.faulted) && (fd.Some? ==> k.w.nodes[f1].nlink == 1)
      ensures fd.Some? ==>
                f1 != f0 && Rest() - {fd.value} == old(Rest()) && (k.Quiet() ==> Denotes(k.w, target, reserved, f1))
      ensures again || fd.Some? ==> k.faulted == old(k.faulted)
    {
      again, fd, f1 := false, None, 0;
      var suffix: string := *;
      reserved := RESERVE + suffix;
      var r, newFd;
      ghost var mid;
      r, newFd, mid := k.Createat(parent.value, reserved, 0);
      OthersKeep(old(k.w), mid, createdDir.value, "image", f0);
      OthersKeepAll(old(k.w), mid, createdDir.value);
      again := r.Exists?;
      if r.Created? {
        fd, f1 := Some(newFd), r.ino;
        WithinBelow(k.w.nodes[f1].mode, 0);
      }
    }

    /** Lines 223-237: an empty mode-000 file under a new name in the destination directory. */
    method ReserveInParent(ghost f0: Ino) returns (fd: Option<Fd>, reserved: Name, ghost f1: Ino)
      requires Valid() && StagedOpen(f0)
      modifies k`w, k`log, k`faulted
      ensures Kept(old(k.w), k.w)
      ensures Valid() && StagedOpen(f0) && k.w.nodes[f0] == old(k.w.nodes[f0])
      ensures k.w.Entries(createdDir.value) == old(k.w.Entries(createdDir.value))
      ensures fd.None? ==>
                k.w.fds == old(k.w.fds) && k.w.mine == old(k.w.mine) && k.log == old(k.log)
                && (k.Quiet() ==> k.w == old(k.w))
      ensures fd.Some? ==>
                && fd.value !in old(k.w.fds) && k.w.fds == old(k.w.fds)[fd.value := f1] && Loose(fd.value, f1)
                && k.w.mine == old(k.w.mine) + {f1}
                && Blank(k.w, f1) && f1 !in old(k.w.nodes) && Temporary(reserved)
                && k.log == old(k.log) + [Made(target, reserved, f1, 0)]
                && (k.Quiet() ==>
                     reserved !in old(k.w.Entries(target))
                     && k.w.Entries(target) == old(k.w.Entries(target))[reserved := f1])
      ensures old(k.faulted) ==> k.faulted
      ensures (fd.None? ==> k.faulted) && (fd.Some? ==> k.w.nodes[f1].nlink == 1)
      ensures fd.Some? ==>
                f1 != f0 && Rest() - {fd.value} == old(Rest()) && (k.Quiet() ==> Denotes(k.w, target, reserved, f1))
      ensures fd.None? ==> Rest() == old(Rest())
      ensures Opened()
      ensures fd.Some? ==> k.faulted == old(k.faulted)
    {
      fd, reserved, f1 := None, "", 0;
      for attempt := 0 to 10
        invariant Valid() && StagedOpen(f0) && k.w.nodes[f0] == old(k.w.nodes[f0])
        invariant k.w.Entries(createdDir.value) == old(k.w.Entries(createdDir.value)) && Kept(old(k.w), k.w)
        invariant k.w.fds == old(k.w.fds) && k.w.mine == old(k.w.mine) && k.log == old(k.log)
                  && (k.Quiet() ==> k.w == old(k.w))
        invariant old(k.faulted) ==> k.faulted
        invariant fd.None? && k.faulted == old(k.faulted)
      {
        var again;
        again, fd, reserved, f1 := TryReserve(f0);
        if !again || fd.Some? { return; }
      }
      k.faulted := true;
    }

    /** `x` has been moved into the staging directory as "inherited", next to the template `f0`. */
    ghost predicate Taken(x: Ino, f0: Ino) reads this, k {
      && Bound() && Opened() && ownedFile
      && k.w.Lists(createdDir.value, "inherited") && k.w.At(createdDir.value, "inherited") == x
      && k.w.Lists(createdDir.value, "image") && k.w.At(createdDir.value, "image") == f0
      && !k.w.IsDir(f0)
    }

    /** The move of line 254. The world it takes effect in is `at`. */
    method Take(fd: Fd, reserved: Name, ghost f0: Ino, ghost f1: Ino)
      returns (moved: bool, ghost x: Ino, ghost at: World)
      requires Valid() && StagedOpen(f0) && Loose(fd, f1) && Blank(k.w, f1) && f1 != f0
      modifies k`w, k`log, k`faulted
      ensures k.w.fds == old(k.w.fds) && Kept(old(k.w), k.w) && (moved ==> Taken(x, f0)) && Blank(k.w, f1)
      ensures !moved ==> Valid() && StagedOpen(f0) && k.log == old(k.log) && (k.Quiet() ==> k.w == old(k.w))
      ensures Kept(old(k.w), at) && (k.Quiet() ==> at == old(k.w)) && k.w.mine == at.mine == old(k.w.mine)
      ensures moved ==>
                && Denotes(at, target, reserved, x)
                && k.log == old(k.log) + [Moved(target, reserved, createdDir.value, "inherited", x, at.nodes[x])]
      ensures moved && k.Quiet() ==>
                reserved in old(k.w.Entries(target)) && x == old(k.w.Entries(target))[reserved]
      ensures moved && k.Quiet() && "inherited" !in old(k.w.Entries(createdDir.value)) ==>
                && k.w.Entries(target) == old(k.w.Entries(target)) - {reserved}
                && k.w.Entries(createdDir.value) == old(k.w.Entries(createdDir.value))["inherited" := x]
                && k.w.nodes[f1] == old(k.w.nodes[f1])
      ensures old(k.faulted) ==> k.faulted
      ensures !moved ==> k.faulted
      ensures k.Quiet() ==> Outside(old(k.w.Entries(target)), k.w.Entries(target), {reserved})
      ensures moved ==> k.faulted == old(k.faulted)
    {
      moved, at := k.Renameat(parent.value, reserved, dir.value, "inherited");
      OthersKeep(old(k.w), at, createdDir.value, "image", f0);
      OthersKeepAll(old(k.w), at, createdDir.value);
      x := if moved then at.At(target, reserved) else 0;
      if moved { TakeEffect(at, target, reserved, createdDir.value, f0, f1); }
    }

    /** Lines 258-269: only an entry with our inode, one link and no permission is accepted. */
    method CheckTaken(fd: Fd, info: Ident, ghost x: Ino, ghost f0: Ino, ghost f1: Ino)
      returns (err: Option<Error>, ghost seen: Inode)
      requires Taken(x, f0) && Loose(fd, f1) && Blank(k.w, f1) && info == Ident(f1, Regular)
      modifies k`w, k`faulted, k`unclean, k`audit
      ensures old(k.audit) <= k.audit
      ensures Kept(old(k.w), k.w)
      ensures Taken(x, f0) && k.w.fds == old(k.w.fds) && k.unclean == old(k.unclean) && Blank(k.w, f1)
      ensures k.w.Entries(createdDir.value) == old(k.w.Entries(createdDir.value))
      ensures k.Quiet() ==> k.w == old(k.w)
      ensures err.None? ==> x == f1 && Holds(k.w, createdDir.value, "inherited", f1)
                            && seen == k.w.nodes[f1] && SightedAt(k.audit, |old(k.audit)| + 1, f1, seen)
      ensures SeenFirst(old(k.audit), k.audit, 1, f1, seen) && (err.None? ==> |k.audit| == |old(k.audit)| + 2)
      ensures k.Quiet() && x == f1 && old(k.w.nodes[f1].nlink) == 1 && err.Some? ==> k.faulted
      ensures old(k.faulted) ==> k.faulted
      ensures err.None? ==> k.faulted == old(k.faulted)
    {
      seen := k.w.nodes[f1];
      var r := k.Statat(dir.value, "inherited", false, false);
      OthersKeepAll(old(k.w), k.w, createdDir.value);
      if !r.Found? || Ident(r.ino, r.node.kind) != info { return Some(ImageReplaced), seen; }
      label L:
      r := k.Fstat(fd, false);
      OthersKeepAll(old@L(k.w), k.w, createdDir.value);
      if !r.Found? { return Some(Sys), seen; }
      if r.node.nlink != 1 || r.node.mode % 512 != 0 { return Some(NotExclusive), seen; }
      err, seen := None, r.node;
    }

    /** Everything about the moved file that later steps rely on. */
    ghost predicate Dressing(fd: Fd, f0: Ino, f1: Ino) reads this, k {
      Taken(f1, f0) && f0 != f1 && Loose(fd, f1) && Holds(k.w, createdDir.value, "inherited", f1)
      && k.w.nodes[f1].data == []
    }

    method DressStep(fd: Fd, change: Change, ghost f0: Ino, ghost f1: Ino) returns (ok: bool)
      requires Dressing(fd, f0, f1)
      modifies k`w, k`faulted, k`audit
      ensures old(k.audit) <= k.audit
      ensures Kept(old(k.w), k.w)
      ensures Dressing(fd, f0, f1) && k.w.fds == old(k.w.fds)
      ensures k.w.Entries(createdDir.value) == old(k.w.Entries(createdDir.value))
      ensures k.Quiet() ==> k.w.Entries(target) == old(k.w.Entries(target))
      ensures k.w.nodes[f1] == if ok then Changed(old(k.w.nodes[f1]), change) else old(k.w.nodes[f1])
      ensures k.audit == old(k.audit) + (if ok then [Granted(f1, change)] else [])
      ensures old(k.faulted) || !ok ==> k.faulted
      ensures ok ==> k.faulted == old(k.faulted)
    {
      ghost var mid;
      ok, mid := k.Setattr(fd, change);
      OthersKeep(old(k.w), mid, createdDir.value, "inherited", f1);
      OthersKeepAll(old(k.w), mid, createdDir.value);
    }

    /** Nothing but attributes of `f1` was noted since `was`. */
    ghost predicate OnlyGrants(was: seq<Note>, f1: Ino) reads k {
      was <= k.audit && forall j | |was| <= j < |k.audit| :: k.audit[j].Granted? && k.audit[j].ino == f1
    }

    /** Lines 270-283: the template's mode and ACL. */
    method Dress(fd: Fd, template: Inode, ghost f0: Ino, ghost f1: Ino) returns (err: Option<Error>)
      requires Dressing(fd, f0, f1) && template.mode < 512
      modifies k`w, k`faulted, k`audit
      ensures old(k.audit) <= k.audit
      ensures Kept(old(k.w), k.w)
      ensures Dressing(fd, f0, f1) && k.w.fds == old(k.w.fds)
      ensures k.w.Entries(createdDir.value) == old(k.w.Entries(createdDir.value))
      ensures k.Quiet() ==> k.w.Entries(target) == old(k.w.Entries(target))
      ensures err.None? ==> k.w.nodes[f1].mode == template.mode && k.w.nodes[f1].acl == template.acl
      ensures OnlyGrants(old(k.audit), f1)
      ensures err.None? ==>
                k.audit == old(k.audit) + [Granted(f1, Chmod(template.mode, false))] + [Granted(f1,
                    SetAcl(template.acl))]
      ensures old(k.faulted) || err.Some? ==> k.faulted
      ensures Taken(f1, f0) && Loose(fd, f1) && Bound() && k.w.nodes[f1].data == [] && !k.w.IsDir(f1)
      ensures err.None? ==> k.faulted == old(k.faulted)
    {
      var ok := DressStep(fd, Chmod(template.mode, false), f0, f1);
      if !ok { return Some(Sys); }
      ok := DressStep(fd, SetAcl(template.acl), f0, f1);
      err := if ok then None else Some(Sys);
    }

    method SwapIn(fd: Fd, ghost f0: Ino, ghost f1: Ino) returns (err: Option<Error>)
      requires Dressing(fd, f0, f1) && file.None?
      modifies k`w, k`log, k`faulted
      ensures Kept(old(k.w), k.w)
      ensures Bound() && Opened() && ownedFile && k.w.fds == old(k.w.fds)
      ensures err.None? ==> Staged(f1) && k.w.nodes[f1] == old(k.w.nodes[f1])
      ensures err.None? ==>
                k.log == old(k.log) + [Moved(createdDir.value, "inherited", createdDir.value, "image", f1,
                    old(k.w.nodes[f1]))]
      ensures err.None? ==>
                k.w.Entries(createdDir.value) == (old(k.w.Entries(createdDir.value)) - {"inherited"})["image" := f1]
      ensures err.Some? ==>
                Dressing(fd, f0, f1) && k.log == old(k.log)
                && k.w.Entries(createdDir.value) == old(k.w.Entries(createdDir.value))
      ensures k.Quiet() ==> k.w.Entries(target) == old(k.w.Entries(target))
      ensures old(k.faulted) || err.Some? ==> k.faulted
      ensures err.Some? ==> Taken(f1, f0)
      ensures TameSince(old(k.log), {}) && NoneTaken(old(k.log), k.log, target)
      ensures err.None? ==> k.faulted == old(k.faulted)
    {
      ghost var mid;
      var ok;
      ok, mid := k.Renameat(dir.value, "inherited", dir.value, "image");
      OthersKeep(old(k.w), mid, createdDir.value, "inherited", f1);
      OthersKeepAll(old(k.w), mid, createdDir.value);
      if ok { SwapEffect(mid, createdDir.value, f1); }
      err := if ok then None else Some(Sys);
    }

    /** The staging directory holds at most the template and the moved file. */
    ghost predicate Pair(x: Ino) reads this, k {
      k.Quiet() && !k.unclean && createdDir.Some? ==>
        && !k.w.IsDir(x)
        && forall n | n in k.w.Entries(createdDir.value) ::
             n in {"image", "inherited"} && k.w.Lists(createdDir.value, n)
                                                           && !k.w.IsDir(k.w.At(createdDir.value, n))
    }

    /** Lines 249-251: unlink the moved entry. */
    method UndoTaken(ghost x: Ino, ghost f0: Ino) returns (err: Option<Error>)
      requires Taken(x, f0) && Pair(x)
      modifies k`w, k`log, k`faulted, k`unclean
      ensures Valid() && k.w.fds == old(k.w.fds) && TameSince(old(k.log), {}) && NoneTaken(old(k.log), k.log, target)
              && Kept(old(k.w), k.w)
      ensures k.Quiet() && !old(k.unclean) ==>
                (!k.unclean <==>
                   && k.w.Entries(target) == old(k.w.Entries(target))
                   && k.w.Entries(createdDir.value) == old(k.w.Entries(createdDir.value)) - {"inherited"})
      ensures (old(k.unclean) ==> k.unclean) && (old(k.faulted) ==> k.faulted)
      ensures k.Quiet() ==> k.w.Entries(target) == old(k.w.Entries(target))
      ensures err.None? ==> k.faulted == old(k.faulted)
    {
      var removed, absent;
      ghost var mid;
      removed, absent, mid := k.Unlinkat(dir.value, "inherited", false, false);
      OthersKeepAll(old(k.w), mid, createdDir.value);
      if removed { RemoveOutside(mid, createdDir.value, "inherited"); }
      err := if removed then None else Some(Sys);
    }

    /** Lines 247-248: unlink the reserved entry if it still is ours. */
    method UndoReserved(reserved: Name, info: Ident, ghost f0: Ino) returns (err: Option<Error>)
      requires Valid() && StagedOpen(f0) && info.ino in k.w.mine && info.kind == Regular
      modifies k`w, k`log, k`faulted, k`unclean, k`audit
      ensures old(k.audit) <= k.audit
      ensures Valid() && k.w.fds == old(k.w.fds) && TameSince(old(k.log), {reserved})
              && NoneTaken(old(k.log), k.log, target)
              && OneLook(old(k.audit)) && Kept(old(k.w), k.w)
      ensures k.Quiet() && !old(k.unclean)
              && old(Denotes(k.w, target, reserved, info.ino) && k.w.nodes[info.ino].kind == Regular) ==>
                (!k.unclean <==>
                   && k.w.Entries(target) == old(k.w.Entries(target)) - {reserved}
                   && k.w.Entries(createdDir.value) == old(k.w.Entries(createdDir.value)))
      ensures (old(k.unclean) ==> k.unclean) && (old(k.faulted) ==> k.faulted)
      ensures k.Quiet() ==> Outside(old(k.w.Entries(target)), k.w.Entries(target), {reserved})
    {
      err := None;
      var current := k.Statat(parent.value, reserved, true, true);
      OthersKeepAll(old(k.w), k.w, createdDir.value);
      if !current.Found? || Ident(current.ino, current.node.kind) != info { return; }
      err := UnlinkReserved(reserved, info.ino);
    }

    ghost predicate OneLook(was: seq<Note>) reads k {
      was <= k.audit && |k.audit| == |was| + 1 && k.audit[|was|].Looked?
    }

    method UnlinkReserved(reserved: Name, ghost i: Ino) returns (err: Option<Error>)
      requires Valid() && parent.Some? && createdDir.Some? && i in k.w.mine
      requires !k.Racy() ==>
                k.w.Lists(target, reserved) && k.w.At(target, reserved) == i && k.w.nodes[i].kind == Regular
      modifies k`w, k`log, k`faulted, k`unclean
      ensures Valid() && k.w.fds == old(k.w.fds) && TameSince(old(k.log), {reserved})
              && NoneTaken(old(k.log), k.log, target)
              && Kept(old(k.w), k.w)
      ensures k.Quiet() && !old(k.unclean) ==>
                (!k.unclean <==>
                   && k.w.Entries(target) == old(k.w.Entries(target)) - {reserved}
                   && k.w.Entries(createdDir.value) == old(k.w.Entries(createdDir.value)))
      ensures (old(k.unclean) ==> k.unclean) && (old(k.faulted) ==> k.faulted)
      ensures k.Quiet() ==> Outside(old(k.w.Entries(target)), k.w.Entries(target), {reserved})
      ensures err.None? ==> k.faulted == old(k.faulted)
    {
      var removed, absent;
      ghost var mid;
      removed, absent, mid := k.Unlinkat(parent.value, reserved, false, true);
      OthersKeepAll(old(k.w), mid, createdDir.value);
      if removed { RemoveOutside(mid, target, reserved); }
      err := if removed then None else Some(Sys);
    }

    /** What the directories look like, without interference, once "inherited" is in place. */
    ghost predicate MovedQuietly(parentWas: map<Name, Ino>, stagingWas: map<Name, Ino>, reserved: Name,
        x: Ino) reads this, k {
      k.Quiet() && !k.unclean ==>
        && createdDir.Some? && "inherited" !in stagingWas
        && k.w.Entries(target) == parentWas - {reserved}
        && k.w.Entries(createdDir.value) == stagingWas["inherited" := x] && !k.w.IsDir(x)
    }

    lemma Paired(parentWas: map<Name, Ino>, stagingWas: map<Name, Ino>, reserved: Name, x: Ino, f0: Ino)
      requires Taken(x, f0) && MovedQuietly(parentWas, stagingWas, reserved, x)
      requires k.Quiet() && !k.unclean ==> forall n | n in stagingWas :: n == "image"
      ensures Pair(x)
    {
    }

    /** Lines 258-289, after the move. */
    method Finish(fd: Fd, info: Ident, template: Inode, ghost reserved: Name, ghost parentWas: map<Name, Ino>,
                  ghost stagingWas: map<Name, Ino>, ghost x: Ino, ghost f0: Ino, ghost f1: Ino)
      returns (err: Option<Error>, ghost seen: Inode)
      requires Taken(x, f0) && Loose(fd, f1) && Blank(k.w, f1) && f0 != f1 && info == Ident(f1, Regular)
      requires file.Some? && template.mode < 512 && MovedQuietly(parentWas, stagingWas, reserved, x)
      modifies this`file, k`w, k`log, k`faulted, k`unclean, k`audit
      ensures old(k.audit) <= k.audit
      ensures Bound() && Loose(fd, f1) && k.unclean == old(k.unclean) && TameSince(old(k.log), {})
              && NoneTaken(old(k.log), k.log, target)
              && Kept(old(k.w), k.w)
      ensures k.w.fds == old(k.w.fds) - (if file.None? then Held(old(file)) else {})
      ensures file == old(file) || file.None?
      ensures err.Some? ==> Taken(x, f0) && MovedQuietly(parentWas, stagingWas, reserved, x)
      ensures err.None? ==>
                && x == f1 && Staged(f1) && file.None? && k.w.nodes[f1].data == []
                && k.w.nodes[f1].mode == template.mode && k.w.nodes[f1].acl == template.acl
                && SightedAt(k.audit, |old(k.audit)| + 1, f1, seen)
                && (k.Quiet() && !k.unclean ==>
                      && k.w.Entries(target) == parentWas - {reserved}
                      && k.w.Entries(createdDir.value) ==
                           (stagingWas["inherited" := f1] - {"inherited"})["image" := f1])
      ensures SeenFirst(old(k.audit), k.audit, 1, f1, seen)
      ensures old(k.faulted) ==> k.faulted
      ensures k.Quiet() && x == f1 && old(k.w.nodes[f1].nlink) == 1 && err.Some? ==> k.faulted
      ensures k.Quiet() ==> k.w.Entries(target) == old(k.w.Entries(target))
      ensures Rest() == old(Rest())
      ensures err.None? ==> k.faulted == old(k.faulted)
    {
      err, seen := CheckTaken(fd, info, x, f0, f1);
      if err.None? { err := DressAndInstall(fd, template, reserved, parentWas, stagingWas, f0, f1); }
    }

    /** Lines 270-289. */
    method DressAndInstall(fd: Fd, template: Inode, ghost reserved: Name, ghost parentWas: map<Name, Ino>,
                           ghost stagingWas: map<Name, Ino>, ghost f0: Ino, ghost f1: Ino)
      returns (err: Option<Error>)
      requires Dressing(fd, f0, f1) && file.Some? && template.mode < 512
               && MovedQuietly(parentWas, stagingWas, reserved, f1)
      modifies this`file, k`w, k`log, k`faulted, k`audit
      ensures old(k.audit) <= k.audit
      ensures Bound() && Loose(fd, f1) && TameSince(old(k.log), {}) && NoneTaken(old(k.log), k.log, target)
              && OnlyGrants(old(k.audit), f1) && Kept(old(k.w), k.w)
      ensures k.w.fds == old(k.w.fds) - (if file.None? then Held(old(file)) else {})
      ensures file == old(file) || file.None?
      ensures err.Some? ==> Taken(f1, f0) && MovedQuietly(parentWas, stagingWas, reserved, f1)
      ensures err.None? ==>
                && Staged(f1) && file.None? && k.w.nodes[f1].data == []
                && k.w.nodes[f1].mode == template.mode && k.w.nodes[f1].acl == template.acl
                && (k.Quiet() && !k.unclean ==>
                      && k.w.Entries(target) == parentWas - {reserved}
                      && k.w.Entries(createdDir.value) ==
                           (stagingWas["inherited" := f1] - {"inherited"})["image" := f1])
      ensures old(k.faulted) || err.Some? ==> k.faulted
      ensures k.Quiet() ==> k.w.Entries(target) == old(k.w.Entries(target))
      ensures Rest() == old(Rest())
      ensures err.None? ==> k.faulted == old(k.faulted)
    {
      hide Bound, Taken, Dressing, Opened, Loose, Holds, Staged, Kept;
      err := Dress(fd, template, f0, f1);
      if err.None? {
        ghost var v := k.w;
        err := Install(fd, f0, f1);
        KeptTransitive(old(k.w), v, k.w);
      }
    }

    /** Lines 284-289. */
    method Install(fd: Fd, ghost f0: Ino, ghost f1: Ino) returns (err: Option<Error>)
      requires Dressing(fd, f0, f1) && file.Some?
      modifies this`file, k`w, k`log, k`faulted
      ensures Bound() && Loose(fd, f1) && file.None? && k.w.fds == old(k.w.fds) - Held(old(file)) && Kept(old(k.w), k.w)
      ensures err.None? ==> Staged(f1) && k.w.nodes[f1] == old(k.w.nodes[f1])
      ensures err.None? ==>
                k.log == old(k.log) + [Moved(createdDir.value, "inherited", createdDir.value, "image", f1,
                    old(k.w.nodes[f1]))]
      ensures err.None? ==>
                k.w.Entries(createdDir.value) == (old(k.w.Entries(createdDir.value)) - {"inherited"})["image" := f1]
      ensures err.Some? ==>
                Dressing(fd, f0, f1) && k.log == old(k.log)
                && k.w.Entries(createdDir.value) == old(k.w.Entries(createdDir.value))
      ensures k.Quiet() ==> k.w.Entries(target) == old(k.w.Entries(target))
      ensures old(k.faulted) || err.Some? ==> k.faulted
      ensures Rest() == old(Rest()) && TameSince(old(k.log), {}) && NoneTaken(old(k.log), k.log, target)
      ensures err.Some? ==> Taken(f1, f0) && !k.w.IsDir(f1)
      ensures err.None? ==> k.faulted == old(k.faulted)
    {
      err := CloseTemplate(fd, f0, f1);
      if err.None? { err := SwapIn(fd, f0, f1); }
    }

    method CloseTemplate(fd: Fd, ghost f0: Ino, ghost f1: Ino) returns (err: Option<Error>)
      requires Dressing(fd, f0, f1) && file.Some?
      modifies this`file, k`w, k`faulted
      ensures Kept(old(k.w), k.w)
      ensures Dressing(fd, f0, f1) && file.None? && k.w.fds == old(k.w.fds) - Held(old(file))
      ensures k.w.nodes[f1] == old(k.w.nodes[f1])
      ensures k.w.Entries(createdDir.value) == old(k.w.Entries(createdDir.value))
      ensures k.Quiet() ==> k.w.Entries(target) == old(k.w.Entries(target))
      ensures old(k.faulted) || err.Some? ==> k.faulted
      ensures Rest() == old(Rest()) && Taken(f1, f0)
      ensures err.None? ==> k.faulted == old(k.faulted)
    {
      ghost var mid;
      var ok;
      ok, mid := k.CloseFd(file.value);
      OthersKeep(old(k.w), mid, createdDir.value, "inherited", f1);
      OthersKeepAll(old(k.w), mid, createdDir.value);
      file := None;
      err := if ok then None else Some(Sys);
    }

    /** close of the descriptor held by no field. */
    method CloseLoose(fd: Fd, ghost i: Ino) returns (err: Option<Error>)
      requires Valid() && Loose(fd, i)
      modifies k`w, k`faulted
      ensures Valid() && Kept(old(k.w), k.w) && k.w.fds == old(k.w.fds) - {fd}
      ensures k.Quiet() ==> k.w.nodes == old(k.w.nodes)
      ensures createdDir.Some? ==> k.w.Entries(createdDir.value) == old(k.w.Entries(createdDir.value))
      ensures old(k.faulted) ==> k.faulted
      ensures Rest() == old(Rest()) - {fd} && (old(Opened()) ==> Opened())
      ensures err.None? ==> k.faulted == old(k.faulted)
    {
      ghost var mid;
      var ok;
      ok, mid := k.CloseFd(fd);
      if createdDir.Some? { OthersKeepAll(old(k.w), mid, createdDir.value); }
      err := if ok then None else Some(Sys);
    }

    /** Lines 243-253: clean-up when the reserved file could not be moved. */
    method AbandonReserved(fd: Fd, reserved: Name, info: Ident, ghost f0: Ino)
      requires Valid() && StagedOpen(f0) && Loose(fd, info.ino) && info.ino in k.w.mine && info.kind == Regular
      requires k.Quiet() ==>
                k.w.Lists(target, reserved) && k.w.At(target, reserved) == info.ino
                && k.w.nodes[info.ino].kind == Regular
      modifies k`w, k`log, k`faulted, k`unclean, k`audit
      ensures old(k.audit) <= k.audit
      ensures Valid() && Opened() && TameSince(old(k.log), {reserved}) && NoneTaken(old(k.log), k.log, target)
              && OneLook(old(k.audit)) && Kept(old(k.w), k.w)
              && k.w.fds == old(k.w.fds) - {fd}
      ensures k.Quiet() && !old(k.unclean) ==>
                (!k.unclean <==>
                   && k.w.Entries(target) == old(k.w.Entries(target)) - {reserved}
                   && k.w.Entries(createdDir.value) == old(k.w.Entries(createdDir.value)))
      ensures (old(k.unclean) ==> k.unclean) && (old(k.faulted) ==> k.faulted)
      ensures k.Quiet() ==> Outside(old(k.w.Entries(target)), k.w.Entries(target), {reserved})
      ensures Rest() == old(Rest()) - {fd}
    {
      var e := UndoReserved(reserved, info, f0);
      e := CloseLoose(fd, info.ino);
    }

    /** and when a later step failed. */
    method AbandonTaken(fd: Fd, ghost x: Ino, ghost f0: Ino, ghost f1: Ino)
      requires Taken(x, f0) && Pair(x) && Loose(fd, f1)
      modifies k`w, k`log, k`faulted, k`unclean
      ensures Valid() && Opened() && TameSince(old(k.log), {}) && NoneTaken(old(k.log), k.log, target)
              && Kept(old(k.w), k.w)
              && k.w.fds == old(k.w.fds) - {fd}
      ensures k.Quiet() && !old(k.unclean) ==>
                (!k.unclean <==>
                   && k.w.Entries(target) == old(k.w.Entries(target))
                   && k.w.Entries(createdDir.value) == old(k.w.Entries(createdDir.value)) - {"inherited"})
      ensures (old(k.unclean) ==> k.unclean) && (old(k.faulted) ==> k.faulted)
      ensures k.Quiet() ==> k.w.Entries(target) == old(k.w.Entries(target))
      ensures Rest() == old(Rest()) - {fd}
    {
      var e := UndoTaken(x, f0);
      e := CloseLoose(fd, f1);
    }

    /** Undo the move: the entries of staging are what they were before it. */
    method PutBack(fd: Fd, ghost reserved: Name, ghost parentWas: map<Name, Ino>, ghost stagingWas: map<Name, Ino>,
        ghost x: Ino, ghost f0: Ino, ghost f1: Ino)
      requires Taken(x, f0) && Loose(fd, f1) && MovedQuietly(parentWas, stagingWas, reserved, x)
      requires k.Quiet() && !k.unclean ==> forall n | n in stagingWas :: n == "image"
      modifies k`w, k`log, k`faulted, k`unclean
      ensures Valid() && Opened() && TameSince(old(k.log), {}) && NoneTaken(old(k.log), k.log, target)
              && Kept(old(k.w), k.w)
              && k.w.fds == old(k.w.fds) - {fd}
      ensures k.Quiet() && !old(k.unclean) ==>
                (!k.unclean <==>
                   && k.w.Entries(target) == parentWas - {reserved}
                   && k.w.Entries(createdDir.value) == stagingWas["inherited" := x] - {"inherited"})
      ensures (old(k.unclean) ==> k.unclean) && (old(k.faulted) ==> k.faulted)
      ensures k.Quiet() ==> k.w.Entries(target) == old(k.w.Entries(target))
      ensures Rest() == old(Rest()) - {fd}
    {
      Paired(parentWas, stagingWas, reserved, x, f0);
      AbandonTaken(fd, x, f0, f1);
    }

    /** Line 290: the artifact's descriptor is the new one. */
    method Adopt(fd: Fd, template: Inode, ghost f1: Ino)
      requires Bound() && Loose(fd, f1) && Staged(f1) && file.None? && k.w.nodes[f1].data == []
      requires k.w.nodes[f1].mode == template.mode && k.w.nodes[f1].acl == template.acl
      requires k.Quiet() && !k.unclean ==> forall n | n in k.w.Entries(createdDir.value) :: n == "image"
      modifies this`file
      ensures Valid() && Opened() && Exchanged(fd, template, f1) && Rest() == old(Rest()) - {fd}
    {
      file := Some(fd);
    }

    lemma SettledTame(w: World, v: World, u: World, was: seq<Event>, mid: seq<Event>, now: seq<Event>)
      requires was <= mid <= now && AllTame(mid, |was|, target, v.mine, {}, k.company)
      requires AllTame(now, |mid|, target, u.mine, {}, k.company)
      requires NoneTaken(was, mid, target) && NoneTaken(mid, now, target) && Kept(w, v) && Kept(v, u)
      ensures AllTame(now, |was|, target, u.mine, {}, k.company) && NoneTaken(was, now, target) && Kept(w, u)
    {
      TameTogether(was, mid, now, target, v.mine, u.mine, {}, {}, {}, k.company);
      NoneTogether(was, mid, now, target);
    }

    /** Finish, or undo the move. */
    method Settle(fd: Fd, info: Ident, template: Inode, ghost reserved: Name, ghost parentWas: map<Name, Ino>,
                  ghost stagingWas: map<Name, Ino>, ghost x: Ino, ghost f0: Ino, ghost f1: Ino)
      returns (err: Option<Error>, ghost seen: Inode)
      requires Taken(x, f0) && Loose(fd, f1) && Blank(k.w, f1) && f0 != f1 && info == Ident(f1, Regular)
      requires file.Some? && template.mode < 512 && MovedQuietly(parentWas, stagingWas, reserved, x)
      requires k.Quiet() && !k.unclean ==> forall n | n in stagingWas :: n == "image"
      modifies this`file, k`w, k`log, k`faulted, k`unclean, k`audit
      ensures old(k.audit) <= k.audit
      ensures Valid() && Opened() && Rest() == old(Rest()) - {fd}
      ensures TameSince(old(k.log), {}) && NoneTaken(old(k.log), k.log, target) && Kept(old(k.w), k.w)
      ensures err.None? ==> x == f1 && Exchanged(fd, template, f1) && SightedAt(k.audit, |old(k.audit)| + 1, f1, seen)
      ensures SeenFirst(old(k.audit), k.audit, 1, f1, seen)
      ensures k.Quiet() && !old(k.unclean) ==>
                (!k.unclean <==>
                   && k.w.Entries(target) == parentWas - {reserved}
                   && k.w.Entries(createdDir.value) == Swapped(stagingWas, err, f1))
      ensures (old(k.unclean) ==> k.unclean) && (old(k.faulted) ==> k.faulted)
      ensures k.Quiet() && x == f1 && old(k.w.nodes[f1].nlink) == 1 && err.Some? ==> k.faulted
      ensures k.Quiet() ==> k.w.Entries(target) == old(k.w.Entries(target))
      ensures err.None? ==> k.faulted == old(k.faulted)
    {
      hide Bound, Valid, Opened, Staged, Taken, Loose, Blank, MovedQuietly, Exchanged, AllTame, NoneTaken, SeenFirst,
        SightedAt, Kept, Rest;
      err, seen := Finish(fd, info, template, reserved, parentWas, stagingWas, x, f0, f1);
      if err.None? {
        Adopt(fd, template, f1);
      } else {
        ghost var mid, mine, v := k.log, k.w.mine, k.w;
        PutBack(fd, reserved, parentWas, stagingWas, x, f0, f1);
        SettledTame(old(k.w), v, k.w, old(k.log), mid, k.log);
      }
      MovedAway(stagingWas, x, f1);
    }

    lemma MadeAndGone(was: map<Name, Ino>, n: Name, i: Ino)
      ensures n !in was ==> was[n := i] - {n} == was
    {
    }

    lemma MovedAway(stagingWas: map<Name, Ino>, x: Ino, f1: Ino)
      ensures "inherited" !in stagingWas ==>
                && (stagingWas["inherited" := f1] - {"inherited"})["image" := f1] == stagingWas["image" := f1]
                && stagingWas["inherited" := x] - {"inherited"} == stagingWas
    {
    }

    /** The image is now the inherited file, empty, with the template's mode and ACL. */
    ghost predicate Exchanged(fd: Fd, template: Inode, f1: Ino) reads this, k {
      && StagedOpen(f1) && k.w.nodes[f1].data == [] && file == Some(fd)
      && k.w.nodes[f1].mode == template.mode && k.w.nodes[f1].acl == template.acl
    }

    /** The entries of staging after an exchange: the new file has the image's name, or nothing
        has changed. */
    ghost function Swapped(was: map<Name, Ino>, err: Option<Error>, f1: Ino): map<Name, Ino> {
      if err.None? then was["image" := f1] else was
    }

    /** Settle, with the move made just before taken into account. */
    method SettleMove(fd: Fd, info: Ident, template: Inode, ghost reserved: Name, ghost was: seq<Event>,
        ghost at: World,
                      ghost parentWas: map<Name, Ino>, ghost stagingWas: map<Name, Ino>, ghost x: Ino, ghost f0: Ino,
                      ghost f1: Ino)
      returns (err: Option<Error>, ghost seen: Inode)
      requires Taken(x, f0) && Loose(fd, f1) && Blank(k.w, f1) && f0 != f1 && info == Ident(f1, Regular)
      requires file.Some? && template.mode < 512 && MovedQuietly(parentWas, stagingWas, reserved, x)
      requires k.Quiet() && !k.unclean ==> forall n | n in stagingWas :: n == "image"
      requires Denotes(at, target, reserved, x) && at.mine == k.w.mine && (k.Quiet() ==> x == f1)
      requires k.log == was + [Moved(target, reserved, createdDir.value, "inherited", x, at.nodes[x])]
      modifies this`file, k`w, k`log, k`faulted, k`unclean, k`audit
      ensures old(k.audit) <= k.audit
      ensures Valid() && Opened() && Rest() == old(Rest()) - {fd}
      ensures TameSince(was, {reserved}) && Kept(old(k.w), k.w)
      ensures OneTaken(was, k.log, target, reserved, at, f1, at.mine - {f1})
      ensures err.None? ==> x == f1 && Exchanged(fd, template, f1) && SightedAt(k.audit, |old(k.audit)| + 1, f1, seen)
      ensures SeenFirst(old(k.audit), k.audit, 1, f1, seen)
      ensures k.Quiet() && !old(k.unclean) ==>
                (!k.unclean <==>
                   && k.w.Entries(target) == parentWas - {reserved}
                   && k.w.Entries(createdDir.value) == Swapped(stagingWas, err, f1))
      ensures (old(k.unclean) ==> k.unclean) && (old(k.faulted) ==> k.faulted)
      ensures k.Quiet() && x == f1 && old(k.w.nodes[f1].nlink) == 1 && err.Some? ==> k.faulted
      ensures k.Quiet() ==> k.w.Entries(target) == old(k.w.Entries(target))
      ensures err.None? ==> k.faulted == old(k.faulted)
    {
      ghost var mid, mine := k.log, k.w.mine;
      err, seen := Settle(fd, info, template, reserved, parentWas, stagingWas, x, f0, f1);
      TakenOnce(was, mid, k.log, target, reserved, at, f1, at.mine - {f1}, mid[|mid| - 1]);
      TameTogether(was, mid, k.log, target, mine, k.w.mine, {reserved}, {}, {reserved}, k.company);
    }

    /** Lines 242-292: the move, the checks, the attributes, and the clean-up of any failure. */
    method Exchange(fd: Fd, reserved: Name, info: Ident, template: Inode, ghost f0: Ino, ghost f1: Ino)
      returns (err: Option<Error>, ghost seen: Inode, ghost at: World)
      requires Valid() && StagedOpen(f0) && Loose(fd, f1) && Blank(k.w, f1) && f1 != f0
      requires info == Ident(f1, Regular) && template.mode < 512
      requires k.Quiet() ==> k.w.Lists(target, reserved) && k.w.At(target, reserved) == f1
      modifies this`file, k`w, k`log, k`faulted, k`unclean, k`audit
      ensures old(k.audit) <= k.audit
      ensures Valid() && Opened() && Rest() == old(Rest()) - {fd}
      ensures TameSince(old(k.log), {reserved}) && Kept(old(k.w), k.w) && Kept(old(k.w), at)
      ensures at.mine == old(k.w.mine) && OneTaken(old(k.log), k.log, target, reserved, at, f1, old(k.w.mine) - {f1})
      ensures err.None? ==>
                Exchanged(fd, template, f1) && Denotes(at, target, reserved, f1)
                && SightedAt(k.audit, |old(k.audit)| + 1, f1, seen)
      ensures SeenFirst(old(k.audit), k.audit, 1, f1, seen)
      ensures k.Quiet() && !old(k.unclean) ==>
                (!k.unclean <==>
                   && k.w.Entries(target) == old(k.w.Entries(target)) - {reserved}
                   && k.w.Entries(createdDir.value) == Swapped(old(k.w.Entries(createdDir.value)), err, f1))
      ensures (old(k.unclean) ==> k.unclean) && (old(k.faulted) ==> k.faulted)
      ensures k.Quiet() && !k.unclean && old(k.w.nodes[f1].nlink) == 1 && err.Some? ==> k.faulted
      ensures k.Quiet() ==> Outside(old(k.w.Entries(target)), k.w.Entries(target), {reserved})
      ensures err.None? ==> k.faulted == old(k.faulted)
    {
      hide Bound;
      seen := k.w.nodes[f1];
      ghost var parentWas, stagingWas := k.w.Entries(target), k.w.Entries(createdDir.value);
      var moved;
      ghost var x;
      moved, x, at := Take(fd, reserved, f0, f1);
      if moved {
        err, seen := SettleMove(fd, info, template, reserved, old(k.log), at, parentWas, stagingWas, x, f0, f1);
      } else {
        AbandonReserved(fd, reserved, info, f0);
        err := Some(Sys);
      }
    }

    /** Lines 208-220: the mode and the ACL to pass on. */
    method ReadTemplate(ghost f0: Ino) returns (template: Option<Inode>)
      requires Valid() && StagedOpen(f0)
      modifies k`w, k`faulted, k`unclean, k`audit
      ensures Valid() && StagedOpen(f0) && Opened() && Rest() == old(Rest()) && Kept(old(k.w), k.w)
      ensures k.unclean == old(k.unclean) && k.w.mine == old(k.w.mine) && (k.Quiet() ==> k.w == old(k.w))
      ensures k.w.Entries(createdDir.value) == old(k.w.Entries(createdDir.value))
      ensures old(k.audit) <= k.audit && |k.audit| <= |old(k.audit)| + 1
      ensures |k.audit| > |old(k.audit)| ==> k.audit[|old(k.audit)|].Sighted?
      ensures template.Some? ==>
                && template.value == old(k.w.nodes[f0]).(mode := old(k.w.nodes[f0].mode) % 512)
                && |k.audit| == |old(k.audit)| + 1
      ensures old(k.faulted) || template.None? ==> k.faulted
      ensures template.Some? ==> k.faulted == old(k.faulted)
    {
      var st := StatFile(f0);
      var unreadable: bool := *;
      if unreadable { k.faulted := true; }
      template := if st.Found? && !unreadable then Some(st.node.(mode := st.node.mode % 512)) else None;
    }

    /** Lines 207-293. All or nothing: a failure leaves every entry as it was (given that nobody
        interferes and clean-up is not hindered), success replaces the template. */
    method InheritFileGroup(ghost f0: Ino)
      returns (err: Option<Error>, ghost template: Inode, ghost seen: Inode, ghost f1: Ino, ghost reserved: Name,
               ghost at: World)
      requires Valid() && StagedOpen(f0)
      modifies this`file, k`w, k`log, k`faulted, k`unclean, k`audit
      ensures old(k.audit) <= k.audit
      ensures Valid() && Opened() && Rest() == old(Rest())
      ensures Tamed(old(k.log), old(k.w.Entries(target))) && Kept(old(k.w), k.w)
      ensures err.None? ==>
                && f1 !in old(k.w.nodes) && file.Some? && Exchanged(file.value, template, f1)
                && Denotes(at, target, reserved, f1) && SightedAt(k.audit, |old(k.audit)| + 3, f1, seen)
                && template == old(k.w.nodes[f0]).(mode := old(k.w.nodes[f0].mode) % 512)
      ensures Kept(old(k.w), at) && OneTaken(old(k.log), k.log, target, reserved, at, f1, old(k.w.mine))
      ensures SeenFirst(old(k.audit), k.audit, 3, f1, seen)
      ensures k.Quiet() && !old(k.unclean) ==>
                (!k.unclean <==>
                   && k.w.Entries(target) == old(k.w.Entries(target))
                   && k.w.Entries(createdDir.value) == Swapped(old(k.w.Entries(createdDir.value)), err, f1))
      ensures (old(k.unclean) ==> k.unclean) && (old(k.faulted) ==> k.faulted)
      ensures k.Quiet() && !k.unclean && err.Some? ==> k.faulted
      ensures err.None? ==> MadeAs(old(k.log), k.log, target, f1)
      ensures err.None? ==> k.faulted == old(k.faulted)
    {
      hide Bound, Valid, Tidy, Opened, StagedOpen, Staged, Loose, Blank, Holds, Exchanged, AllTame, SelfTame, Around,
        OneTaken, SeenFirst, Kept, Rest;
      StagedThere(f0);
      template, seen, f1, reserved := k.w.nodes[f0].(mode := k.w.nodes[f0].mode % 512), k.w.nodes[f0], 0, "";
      var read := ReadTemplate(f0);
      at := k.w;
      ghost var v, audit := k.w, k.audit;
      if read.None? {
        err := Some(Sys);
        NothingDone(v, audit, reserved, f1, old(k.w.mine), 2, seen);
      } else {
        err, seen, f1, reserved, at := ReserveAndExchange(read.value, f0);
      }
      SeenAfter(old(k.audit), audit, k.audit, 2, f1, seen);
      KeptTransitive(old(k.w), v, k.w);
      KeptTransitive(old(k.w), v, at);
    }

    /** Lines 221-237, then the rest. */
    method ReserveAndExchange(template: Inode, ghost f0: Ino)
      returns (err: Option<Error>, ghost seen: Inode, ghost f1: Ino, ghost reserved: Name, ghost at: World)
      requires Valid() && StagedOpen(f0) && template.mode < 512
      modifies this`file, k`w, k`log, k`faulted, k`unclean, k`audit
      ensures old(k.audit) <= k.audit
      ensures Valid() && Opened() && Rest() == old(Rest())
      ensures Tamed(old(k.log), old(k.w.Entries(target))) && Kept(old(k.w), k.w)
      ensures Kept(old(k.w), at) && OneTaken(old(k.log), k.log, target, reserved, at, f1, old(k.w.mine))
      ensures err.None? ==>
                && f1 !in old(k.w.nodes) && file.Some? && Exchanged(file.value, template, f1)
                && Denotes(at, target, reserved, f1) && SightedAt(k.audit, |old(k.audit)| + 2, f1, seen)
      ensures SeenFirst(old(k.audit), k.audit, 2, f1, seen)
      ensures k.Quiet() && !old(k.unclean) ==>
                (!k.unclean <==>
                   && k.w.Entries(target) == old(k.w.Entries(target))
                   && k.w.Entries(createdDir.value) == Swapped(old(k.w.Entries(createdDir.value)), err, f1))
      ensures (old(k.unclean) ==> k.unclean) && (old(k.faulted) ==> k.faulted)
      ensures k.Quiet() && !k.unclean && err.Some? ==> k.faulted
      ensures err.None? ==> MadeAs(old(k.log), k.log, target, f1)
      ensures err.None? ==> k.faulted == old(k.faulted)
    {
      hide Bound, Valid, Tidy, Opened, StagedOpen, Staged, Loose, Blank, Holds, AllTame, SelfTame, Around,
        OneTaken, SeenFirst, Kept, Rest;
      StagedThere(f0);
      seen, at := k.w.nodes[f0], k.w;
      var fd, made;
      fd, made, f1 := ReserveInParent(f0);
      reserved := made;
      ghost var mid, v, audit := k.log, k.w, k.audit;
      if fd.Some? {
        JustMade(old(k.log), target, reserved, f1, 0);
        MadeAndGone(old(k.w.Entries(target)), reserved, f1);
        err, seen, at := InspectAndExchange(fd.value, made, template, f0, f1);
        ReservedTamed(old(k.log), mid[|mid| - 1], k.log, v, k.w, old(k.w.Entries(target)), k.w.Entries(target));
        MadeLater(old(k.log), mid, k.log, target, f1, reserved, 0);
        TakenLater(old(k.log), mid, k.log, target, reserved, at, f1, old(k.w.mine), mid[|mid| - 1]);
        KeptTransitive(old(k.w), v, at);
      } else {
        err := Some(Sys);
        NothingDone(old(k.w), audit, reserved, f1, old(k.w.mine), 2, seen);
      }
      KeptTransitive(old(k.w), v, k.w);
    }

    /** Lines 238-241. */
    method StatReserved(fd: Fd, ghost reserved: Name, ghost f0: Ino, ghost f1: Ino) returns (info: Stat)
      requires Valid() && StagedOpen(f0) && Loose(fd, f1) && Blank(k.w, f1)
      modifies k`w, k`faulted, k`unclean, k`audit
      ensures Valid() && StagedOpen(f0) && Loose(fd, f1) && Blank(k.w, f1) && Opened() && Kept(old(k.w), k.w)
      ensures k.w.fds == old(k.w.fds) && k.w.mine == old(k.w.mine) && (k.Quiet() ==> k.w == old(k.w))
      ensures k.w.Entries(createdDir.value) == old(k.w.Entries(createdDir.value))
      ensures !info.Absent? && (info.Found? ==> info.ino == f1 && info.node.kind == Regular)
      ensures info.Found? ==> k.audit == old(k.audit) + [Sighted(info.ino, info.node)]
      ensures !info.Found? ==> k.audit == old(k.audit)
      ensures k.faulted == (old(k.faulted) || info.StatFailed?) && k.unclean == (old(k.unclean) || info.StatFailed?)
    {
      info := k.Fstat(fd, true);
      OthersKeep(old(k.w), k.w, createdDir.value, "image", f0);
      OthersKeepAll(old(k.w), k.w, createdDir.value);
    }

    lemma StagedThere(f: Ino)
      requires StagedOpen(f)
      ensures f in k.w.nodes
    {
    }

    lemma NothingDone(w: World, audit: seq<Note>, reserved: Name, f1: Ino, before: set<Ino>, n: nat, seen: Inode)
      ensures SelfTame(k.log, k.log, target, k.w.mine, k.company) && Kept(w, w)
      ensures Around(k.log, k.log, target, w.Entries(target), w.Entries(target))
      ensures OneTaken(k.log, k.log, target, reserved, w, f1, before) && SeenFirst(audit, audit, n, f1, seen)
    {
      NoneMade(k.log, target, w.Entries(target));
    }

    lemma NothingTaken(log: seq<Event>, reserved: Name, at: World, f1: Ino, before: set<Ino>, audit: seq<Note>, n: nat,
        seen: Inode)
      ensures AllTame(log, |log|, target, k.w.mine, {reserved}, k.company)
      ensures OneTaken(log, log, target, reserved, at, f1, before)
      ensures SeenFirst(audit, audit, n, f1, seen)
    {
    }

    lemma SeenAfter(was: seq<Note>, mid: seq<Note>, now: seq<Note>, n: nat, f1: Ino, seen: Inode)
      requires was <= mid && |mid| <= |was| + 1 && (|mid| > |was| ==> mid[|was|].Sighted?)
      requires |mid| == |was| ==> now == was
      requires SeenFirst(mid, now, n, f1, seen)
      ensures SeenFirst(was, now, n + 1, f1, seen)
    {
      if |mid| > |was| { SeenLater(was, mid, now, n, f1, seen, mid[|was|]); }
    }

    lemma SeenLater(was: seq<Note>, mid: seq<Note>, now: seq<Note>, n: nat, f1: Ino, seen: Inode, e: Note)
      requires mid == was + [e] && !e.Granted? && SeenFirst(mid, now, n, f1, seen)
      ensures SeenFirst(was, now, n + 1, f1, seen)
    {
      assert now[|was|] == e;
    }

    /** Lines 238-241, then the exchange. A failed stat is the only one that leaves no note. */
    method InspectAndExchange(fd: Fd, reserved: Name, template: Inode, ghost f0: Ino, ghost f1: Ino)
      returns (err: Option<Error>, ghost seen: Inode, ghost at: World)
      requires Valid() && StagedOpen(f0) && Loose(fd, f1) && Blank(k.w, f1) && f1 != f0 && template.mode < 512
      requires k.Quiet() ==> k.w.Lists(target, reserved) && k.w.At(target, reserved) == f1
      modifies this`file, k`w, k`log, k`faulted, k`unclean, k`audit
      ensures old(k.audit) <= k.audit
      ensures Valid() && Opened() && Rest() == old(Rest()) - {fd}
      ensures TameSince(old(k.log), {reserved}) && Kept(old(k.w), k.w)
      ensures Kept(old(k.w), at) && at.mine == old(k.w.mine)
      ensures OneTaken(old(k.log), k.log, target, reserved, at, f1, old(k.w.mine) - {f1})
      ensures err.None? ==>
                Exchanged(fd, template, f1) && Denotes(at, target, reserved, f1)
                && SightedAt(k.audit, |old(k.audit)| + 2, f1, seen)
      ensures SeenFirst(old(k.audit), k.audit, 2, f1, seen)
      ensures k.Quiet() && !old(k.unclean) ==>
                (!k.unclean <==>
                   && k.w.Entries(target) == old(k.w.Entries(target)) - {reserved}
                   && k.w.Entries(createdDir.value) == Swapped(old(k.w.Entries(createdDir.value)), err, f1))
      ensures (old(k.unclean) ==> k.unclean) && (old(k.faulted) ==> k.faulted)
      ensures k.Quiet() && !k.unclean && old(k.w.nodes[f1].nlink) == 1 && err.Some? ==> k.faulted
      ensures k.Quiet() ==> Outside(old(k.w.Entries(target)), k.w.Entries(target), {reserved})
      ensures k.audit == old(k.audit) ==>
                && err.Some? && k.log == old(k.log) && k.w.fds == old(k.w.fds) - {fd}
                && (k.Quiet() ==> k.w.nodes == old(k.w.nodes))
      ensures err.None? ==> k.faulted == old(k.faulted)
    {
      hide Bound, Valid, Tidy, Opened, StagedOpen, Staged, Loose, Blank, Holds, Exchanged, AllTame, OneTaken,
        SeenFirst, Kept;
      BlankThere(k.w, f1);
      seen, at := k.w.nodes[f1], k.w;
      var info := StatReserved(fd, reserved, f0, f1);
      if info.Found? {
        ghost var v, audit := k.w, k.audit;
        err, seen, at := Exchange(fd, reserved, Ident(info.ino, info.node.kind), template, f0, f1);
        KeptTransitive(old(k.w), v, k.w);
        KeptTransitive(old(k.w), v, at);
        SeenLater(old(k.audit), audit, k.audit, 1, f1, seen, audit[|old(k.audit)|]);
      } else {
        ghost var v := k.w;
        err := CloseLoose(fd, f1);
        err := Some(Sys);
        NothingTaken(k.log, reserved, at, f1, old(k.w.mine) - {f1}, k.audit, 2, seen);
        KeptTransitive(old(k.w), v, k.w);
        KeptSelf(old(k.w));
      }
    }

    // ---- reserveArtifact, lines 28-191 -----------------------------------------------------

    /** Left alone, the only new entry of the destination directory is the staging directory. */
    ghost predicate QuietlyMade(was: map<Name, Ino>) reads this, k {
      k.Quiet() && !k.unclean ==>
        if createdDir.Some?
        then name !in was && k.w.Entries(target) == was[name := createdDir.value] && k.w.Lists(target, name)
        else k.w.Entries(target) == was
    }

    /** Lines 70-143. `st` is the staging directory as it was found, and `inherit` that it has lost its
        set-group-ID bit since. */
    method AcquireStaging() returns (inherit: bool, err: Option<Error>, ghost st: Inode)
      requires Fresh() && createdDir.None? && name == ""
      modifies this`name, this`createdDir, this`dir, this`dirInfo, k`w, k`log, k`faulted, k`unclean, k`audit
      ensures old(k.audit) <= k.audit
      ensures Valid() && parent.Some? && file.None? && !ownedFile && fileInfo.None? && Rest() == old(Rest())
      ensures dir.Some? ==> createdDir.Some?
      ensures Tamed(old(k.log), old(k.w.Entries(target))) && Kept(old(k.w), k.w)
              && QuietlyMade(old(k.w.Entries(target)))
      ensures err.None? ==>
                && Opened() && Sighted(createdDir.value, st) in k.audit
                && k.w.nodes[createdDir.value].mode / 64 % 8 == 7
                && inherit == (st.setgid && !k.w.nodes[createdDir.value].setgid)
      ensures (old(k.unclean) ==> k.unclean) && (old(k.faulted) ==> k.faulted)
      ensures k.Quiet() && err.Some? ==> k.faulted
      ensures StagingName() <= MadeIn(old(k.log), k.log, target)
      ensures k.Quiet() && createdDir.Some? ==> Listed()
      ensures err.None? ==> k.faulted == old(k.faulted)
    {
      hide Others, Tidy;
      inherit, st := false, Inode(Special, 0, 0, 0, false, None, 0, [], map[]);
      err := MakeStaging();
      if err.Some? { return; }
      var seen;
      seen, err := OpenStaging();
      st := seen;
      if err.Some? { return; }
      ghost var dropped;
      inherit, err, dropped := RestoreMode(seen);
    }

    method AcquireImage(inherit: bool, mode: nat) returns (err: Option<Error>, ghost f: Ino)
      requires Valid() && Opened() && file.None? && !ownedFile && fileInfo.None?
      modifies this`file, this`ownedFile, k`w, k`log, k`faulted, k`unclean, k`audit
      ensures old(k.audit) <= k.audit
      ensures Valid() && Opened() && Rest() == old(Rest())
      ensures Tamed(old(k.log), old(k.w.Entries(target))) && Kept(old(k.w), k.w)
      ensures k.Quiet() && !k.unclean ==> k.w.Entries(target) == old(k.w.Entries(target))
      ensures err.None? ==> StagedOpen(f) && k.w.nodes[f].data == []
      ensures (old(k.unclean) ==> k.unclean) && (old(k.faulted) ==> k.faulted)
      ensures k.Quiet() && !k.unclean && err.Some? ==> k.faulted
      ensures err.None? ==>
                && Asked(old(k.log), k.log, createdDir.value, "image", mode)
                && MadeAs(old(k.log), k.log, if inherit then target else createdDir.value, f)
      ensures err.None? && mode < 512 ==> Within(k.w.nodes[f].mode, mode)
      ensures err.None? ==> k.faulted == old(k.faulted)
    {
      hide Asked, MadeAs, Within, SelfTame, Around, Valid, Denotes;
      err, f := CreateImage(mode);
      NothingMade(old(k.log), k.log, k.w.Entries(target), k.w.mine);
      if err.None? {
        JustMade(old(k.log), createdDir.value, "image", f, mode);
        WithinBelow(k.w.nodes[f].mode, mode);
      }
      if err.Some? || !inherit { return; }
      ghost var mid := k.w;
      ghost var log := k.log;
      ghost var template, seen, reserved, at;
      err, template, seen, f, reserved, at := InheritFileGroup(f);
      MadeLater(old(k.log), log, k.log, createdDir.value, f, "image", mode);
      MadeLater(old(k.log), log, k.log, target, f, "image", mode);
      TamedTogether(old(k.w), mid, k.w, old(k.log), log, k.log);
    }

    method AcquireAttributes(prev: Option<Inode>, ghost f: Ino) returns (err: Option<Error>)
      requires Valid() && StagedOpen(f) && k.w.nodes[f].data == []
      modifies this`fileInfo, k`w, k`faulted, k`unclean, k`audit
      ensures old(k.audit) <= k.audit
      ensures Valid() && StagedOpen(f) && k.w.fds == old(k.w.fds) && k.unclean == old(k.unclean) && Kept(old(k.w), k.w)
      ensures k.Quiet() ==> k.w.Entries(target) == old(k.w.Entries(target))
      ensures err.None? ==>
                Reserved(f) && k.w.nodes[f].data == [] && (prev.Some? ==> LikeOutput(k.w.nodes[f], prev.value))
      ensures old(k.faulted) ==> k.faulted
      ensures err.Some? ==> k.faulted
      ensures prev.None? ==> k.w.nodes[f] == old(k.w.nodes[f])
      ensures err.None? ==> k.faulted == old(k.faulted)
    {
      if prev.Some? {
        err := TransferAttributes(prev.value, f);
        if err.Some? { return; }
      }
      err := RecordFile(f);
    }

    method AcquireFile(inherit: bool, prev: Option<Inode>, mode: nat) returns (err: Option<Error>, ghost f: Ino)
      requires Valid() && Opened() && file.None? && !ownedFile && fileInfo.None?
      modifies this`file, this`ownedFile, this`fileInfo, k`w, k`log, k`faulted, k`unclean, k`audit
      ensures old(k.audit) <= k.audit
      ensures Valid() && Opened() && Rest() == old(Rest())
      ensures Tamed(old(k.log), old(k.w.Entries(target))) && Kept(old(k.w), k.w)
      ensures k.Quiet() && !k.unclean ==> k.w.Entries(target) == old(k.w.Entries(target))
      ensures err.None? ==> StagedOpen(f) && Reserved(f) && k.w.nodes[f].data == []
      ensures err.None? && prev.Some? ==> LikeOutput(k.w.nodes[f], prev.value)
      ensures (old(k.unclean) ==> k.unclean) && (old(k.faulted) ==> k.faulted)
      ensures k.Quiet() && !k.unclean && err.Some? ==> k.faulted
      ensures err.None? ==>
                && Asked(old(k.log), k.log, createdDir.value, "image", mode)
                && MadeAs(old(k.log), k.log, if inherit then target else createdDir.value, f)
      ensures err.None? && prev.None? && mode < 512 ==> Within(k.w.nodes[f].mode, mode)
      ensures err.None? ==> k.faulted == old(k.faulted)
    {
      err, f := AcquireImage(inherit, mode);
      if err.Some? { return; }
      err := AcquireAttributes(prev, f);
    }

    /** Lines 70-186. `at` is the world in which the staging directory was ready: if it had lost its
        set-group-ID bit by then, the image is an inode made in the destination directory. */
    method Acquire(prev: Option<Inode>, mode: nat)
      returns (err: Option<Error>, ghost f: Ino, ghost st: Inode, ghost at: World)
      requires Fresh() && createdDir.None? && name == ""
      modifies this`name, this`createdDir, this`dir, this`dirInfo, this`file, this`ownedFile, this`fileInfo
      modifies k`w, k`log, k`faulted, k`unclean, k`audit
      ensures old(k.audit) <= k.audit
      ensures Valid() && parent.Some? && Rest() == old(Rest()) && (dir.Some? || !ownedFile)
      ensures Tamed(old(k.log), old(k.w.Entries(target))) && Kept(old(k.w), k.w)
              && QuietlyMade(old(k.w.Entries(target)))
      ensures err.None? ==> StagedOpen(f) && Reserved(f) && k.w.nodes[f].data == []
      ensures err.None? && prev.Some? ==> LikeOutput(k.w.nodes[f], prev.value)
      ensures (old(k.unclean) ==> k.unclean) && (old(k.faulted) ==> k.faulted)
      ensures k.Quiet() && !k.unclean && err.Some? ==> k.faulted
      ensures StagingName() <= MadeIn(old(k.log), k.log, target)
      ensures k.Quiet() && createdDir.Some? ==> Listed()
      ensures err.None? ==>
                && Asked(old(k.log), k.log, createdDir.value, "image", mode) && createdDir.value in at.nodes
                && Kept(at, k.w) && Sighted(createdDir.value, st) in k.audit
                && MadeAs(old(k.log), k.log,
                     if st.setgid && !at.nodes[createdDir.value].setgid then target else createdDir.value, f)
      ensures err.None? && prev.None? && mode < 512 ==> Within(k.w.nodes[f].mode, mode)
      ensures err.None? ==> k.faulted == old(k.faulted)
    {
      hide Asked, MadeAs, Within, AllTame, Holds;
      f := 0;
      var inherit;
      inherit, err, st := AcquireStaging();
      at := k.w;
      if err.Some? { return; }
      ghost var mid := k.w;
      ghost var log := k.log;
      err, f := AcquireFile(inherit, prev, mode);
      if err.None? {
        MadeLater(old(k.log), log, k.log, createdDir.value, f, "image", mode);
        MadeLater(old(k.log), log, k.log, target, f, "image", mode);
      }
      TamedTogether(old(k.w), mid, k.w, old(k.log), log, k.log);
      if k.Quiet() { StillDenotes(mid, k.w, log, k.log, name, createdDir.value); }
    }
  }

  const OWNER_ONLY: nat := 384
  const EVERYONE: nat := 438

  /** Lines 28-191. `prev` is what was found at the output path before. A failure leaves no
      descriptor open; success leaves exactly the three of the result. */
  method Reserve(k: Kernel, target: Ino, output: Option<Name>, prev: Option<Inode>)
    returns (p: PendingArtifact?, err: Option<Error>, ghost f: Ino)
    modifies k`w, k`log, k`faulted, k`unclean, k`audit
    ensures old(k.audit) <= k.audit
    ensures (p == null <==> err.Some?) && Kept(old(k.w), k.w)
    ensures SelfTame(old(k.log), k.log, target, k.w.mine, k.company)
    ensures k.Quiet() ==> Around(old(k.log), k.log, target, old(k.w.Entries(target)), k.w.Entries(target))
    ensures p == null ==> k.w.fds == old(k.w.fds)
    ensures p == null && k.Quiet() && !k.unclean ==> k.w.Entries(target) == old(k.w.Entries(target))
    ensures p != null ==>
              && fresh(p) && p.k == k && p.target == target && p.Valid()
              && p.StagedOpen(f) && p.Reserved(f) && k.w.nodes[f].data == []
              && p.Rest() == old(k.w.fds) && |p.Own()| == 3
              && p.QuietlyMade(old(k.w.Entries(target)))
              && p.StagingName() <= MadeIn(old(k.log), k.log, target) && (k.Quiet() ==> p.Listed())
              && (output.Some? ==> p.output == output.value)
              && (output.Some? ==> Dressed(k.w.nodes[f], prev)) && (output.None? ==> OwnersOnly(k.w.nodes[f]))
              && Asked(old(k.log), k.log, p.createdDir.value, "image",
                   if output.None? then 6 * 64 else if prev.Some? then prev.value.mode else 6 * 64 + 6 * 8 + 6)
    ensures (old(k.unclean) ==> k.unclean) && (old(k.faulted) ==> k.faulted)
    ensures k.Quiet() && !k.unclean && err.Some? ==> k.faulted
    ensures err.None? ==> k.faulted == old(k.faulted)
  {
    p, f := null, 0;
    NoneMade(k.log, target, k.w.Entries(target));
    var fd;
    ghost var mid;
    fd, mid := k.Open(target);
    err := Some(Sys);
    if fd.Some? {
      var a := new PendingArtifact(k, fd.value, target);
      assert a.Rest() == old(k.w.fds);
      err, f := Secure(a, output, prev);
      if err.None? {
        p := a;
        a.OwnsThree();
      }
    }
  }

  /** Lines 62-190: refusals, and the mode to ask for. */
  method AcquireFor(a: PendingArtifact, output: Option<Name>, prev: Option<Inode>)
    returns (err: Option<Error>, ghost f: Ino)
    requires a.Fresh() && a.createdDir.None? && a.name == ""
    modifies a`name, a`createdDir, a`dir, a`dirInfo, a`file, a`ownedFile, a`fileInfo
    modifies a.k`w, a.k`log, a.k`faulted, a.k`unclean, a.k`audit
    ensures old(a.k.audit) <= a.k.audit
    ensures a.Valid() && a.parent.Some? && a.Rest() == old(a.Rest()) && (a.dir.Some? || !a.ownedFile)
    ensures a.Tamed(old(a.k.log), old(a.k.w.Entries(a.target))) && Kept(old(a.k.w), a.k.w)
            && a.QuietlyMade(old(a.k.w.Entries(a.target)))
    ensures a.StagingName() <= MadeIn(old(a.k.log), a.k.log, a.target)
    ensures a.k.Quiet() && a.createdDir.Some? ==> a.Listed()
    ensures err.None? ==>
              && a.StagedOpen(f) && a.Reserved(f) && a.createdDir.Some? && f in a.k.w.nodes && a.k.w.nodes[f].data == []
              && (output.Some? ==> Dressed(a.k.w.nodes[f], prev)) && (output.None? ==> OwnersOnly(a.k.w.nodes[f]))
              && Asked(old(a.k.log), a.k.log, a.createdDir.value, "image",
                   if output.None? then 6 * 64 else if prev.Some? then prev.value.mode else 6 * 64 + 6 * 8 + 6)
    ensures (old(a.k.unclean) ==> a.k.unclean) && (old(a.k.faulted) ==> a.k.faulted)
    ensures a.k.Quiet() && !a.k.unclean && err.Some? ==> a.k.faulted
    ensures err.None? ==> a.k.faulted == old(a.k.faulted)
  {
    hide Asked, Within, MadeAs;
    f := 0;
    NoneMade(a.k.log, a.target, a.k.w.Entries(a.target));
    err := Some(Refused);
    var denied: bool := *;
    if output.Some? && prev.Some? && denied {
      a.k.faulted := true;
    } else {
      var before := if output.Some? then prev else None;
      var mode := if output.None? then OWNER_ONLY else if prev.Some? then prev.value.mode else EVERYONE;
      ghost var st, at;
      err, f, st, at := a.Acquire(before, mode);
      if err.None? { WithinDigits(a.k.w.nodes[f].mode); }
    }
  }

  /** Lines 62-190, with the deferred Close when they fail. */
  method Secure(a: PendingArtifact, output: Option<Name>, prev: Option<Inode>)
    returns (err: Option<Error>, ghost f: Ino)
    requires a.Fresh() && a.createdDir.None? && a.name == ""
    modifies a, a.k`w, a.k`log, a.k`faulted, a.k`unclean, a.k`audit
    ensures old(a.k.audit) <= a.k.audit
    ensures a.Valid() && a.Tamed(old(a.k.log), old(a.k.w.Entries(a.target))) && a.Rest() == old(a.Rest())
            && Kept(old(a.k.w), a.k.w)
    ensures err.Some? ==> a.Own() == {} && a.k.w.fds == old(a.Rest())
    ensures err.Some? && a.k.Quiet() && !a.k.unclean ==> a.k.w.Entries(a.target) == old(a.k.w.Entries(a.target))
    ensures err.None? ==>
              && a.StagedOpen(f) && a.Reserved(f) && a.k.w.nodes[f].data == []
              && a.QuietlyMade(old(a.k.w.Entries(a.target)))
              && a.StagingName() <= MadeIn(old(a.k.log), a.k.log, a.target) && (a.k.Quiet() ==> a.Listed())
              && (output.Some? ==> a.output == output.value)
              && (output.Some? ==> Dressed(a.k.w.nodes[f], prev)) && (output.None? ==> OwnersOnly(a.k.w.nodes[f]))
              && Asked(old(a.k.log), a.k.log, a.createdDir.value, "image",
                   if output.None? then 6 * 64 else if prev.Some? then prev.value.mode else 6 * 64 + 6 * 8 + 6)
    ensures (old(a.k.unclean) ==> a.k.unclean) && (old(a.k.faulted) ==> a.k.faulted)
    ensures a.k.Quiet() && !a.k.unclean && err.Some? ==> a.k.faulted
    ensures err.None? ==> a.k.faulted == old(a.k.faulted)
  {
    hide Dressed, OwnersOnly, Asked, Around, SelfTame;
    err, f := AcquireFor(a, output, prev);
    if err.Some? {
      CloseFailed(a, old(a.k.log), old(a.Rest()), old(a.k.w.Entries(a.target)));
    } else if output.Some? {
      a.output := output.value;
    }
  }

  lemma ClosedTame(a: PendingArtifact, was: seq<Event>, names: set<Name>)
    requires a.Valid() && a.Added(was, true, true) && a.StagingName() <= names
    ensures AllTame(a.k.log, |was|, a.target, a.k.w.mine, names, a.k.company)
    ensures MadeIn(was, a.k.log, a.target) == {}
  {
    forall j | |was| <= j < |a.k.log| ensures Tame(a.k.log[j], a.target, a.k.w.mine, names, a.k.company) {
      assert a.CloseEvent(a.k.log[j], true, true);
    }
    assert forall j | |was| <= j < |a.k.log| :: a.CloseEvent(a.k.log[j], true, true);
  }

  /** The deferred Close of a failed reservation. */
  method CloseFailed(a: PendingArtifact, ghost log: seq<Event>, ghost fds: map<Fd, Ino>, ghost entries: map<Name, Ino>)
    requires a.Valid() && a.parent.Some? && (a.dir.Some? || !a.ownedFile)
    requires a.Tamed(log, entries) && a.Rest() == fds && a.QuietlyMade(entries)
    requires a.StagingName() <= MadeIn(log, a.k.log, a.target)
    modifies a`file, a`dir, a`parent, a.k`w, a.k`log, a.k`faulted, a.k`unclean, a.k`audit
    ensures old(a.k.audit) <= a.k.audit
    ensures a.Valid() && a.Tamed(log, entries) && a.k.w.fds == fds && a.Own() == {} && Kept(old(a.k.w), a.k.w)
    ensures a.k.Quiet() && !a.k.unclean ==> a.k.w.Entries(a.target) == entries
    ensures (old(a.k.unclean) ==> a.k.unclean) && (old(a.k.faulted) ==> a.k.faulted)
  {
    ghost var was, mid, mine := a.k.w.Entries(a.target), a.k.log, a.k.w.mine;
    var closeErr := a.Close();
    ClosedTame(a, mid, a.StagingName());
    TameTogether(log, mid, a.k.log, a.target, mine, a.k.w.mine, MadeIn(log, mid, a.target), a.StagingName(),
        MadeIn(log, mid, a.target), a.k.company);
    MadeTogether(log, mid, a.k.log, a.target);
    assert MadeIn(log, a.k.log, a.target) == MadeIn(log, mid, a.target);
    if a.k.Quiet() {
      OutsideTogether(entries, was, a.k.w.Entries(a.target), MadeIn(log, mid, a.target), a.StagingName(),
          MadeIn(log, mid, a.target));
    }
  }

  // ---- what the checks do not cover ------------------------------------------------------

  function Plain(kind: Kind, uid: nat, mode: nat, entries: map<Name, Ino>): Inode {
    Inode(kind, uid, 0, mode, false, None, 1, [], entries)
  }

  const OTHER: Inode := Plain(Regular, 8, 420, map[])
  const OWN_DIR: Inode := Plain(Directory, 7, 448, map[])

  /** A destination directory 1 that anybody may edit. */
  function Shared(entries: map<Name, Ino>): Inode { Plain(Directory, 0, 511, entries) }

  /** The staging directory 2 of user 7 is open and holds the image 4, which is open too. */
  function StagedWorld(): World {
    World(map[1 := Shared(map["s" := 2]), 2 := OWN_DIR.(entries := map["image" := 4]),
        4 := Plain(Regular, 7, 384, map[])],
          map[10 := 1, 11 := 2, 12 := 4], {2, 4}, 7)
  }

  /** and the file 3 has just been reserved under "r", open as descriptor 13. */
  function ReservedWorld(): World {
    World(map[1 := Shared(map["s" := 2, "r" := 3]), 2 := OWN_DIR.(entries := map["image" := 4]),
        3 := Plain(Regular, 7, 0, map[]),
              4 := Plain(Regular, 7, 384, map[])], map[10 := 1, 11 := 2, 12 := 4, 13 := 3], {2, 3, 4}, 7)
  }

  ghost predicate Ready(w: World) {
    && Holds(w, 2, "image", 4) && Blank(w, 3) && Denotes(w, 1, "r", 3) && Denotes(w, 1, "s", 2) && w.IsDir(1)
    && w.fds == map[10 := 1, 11 := 2, 12 := 4, 13 := 3] && w.mine == {2, 3, 4}
    && w.Entries(2) == map["image" := 4]
  }

  lemma ReservedIsReady()
    ensures Ready(ReservedWorld())
  {
  }

  /** An artifact reaches the move of line 254 in that world, whatever the company: what Take asks
      for holds. */
  method ReadyToMove(w: World, company: Company) returns (p: PendingArtifact)
    requires Ready(w)
    ensures fresh(p) && fresh(p.k) && p.k.company == company && p.k.w == w && !p.k.unclean && p.target == 1
    ensures p.k.log == [] && p.k.audit == []
    ensures p.Valid() && p.StagedOpen(4) && p.Loose(13, 3) && Blank(p.k.w, 3) && p.Listed()
    ensures Denotes(p.k.w, p.target, "r", 3)
  {
    var k := new Kernel(w, company);
    p := new PendingArtifact(k, 10, 1);
    p.dir, p.file, p.name, p.createdDir, p.ownedFile := Some(11), Some(12), "s", Some(2), true;
    p.dirInfo := Some(Ident(2, Directory));
  }

  function TamperedWorld(): World {
    var w := ReservedWorld();
    w.(nodes := w.nodes[1 := Shared(map["s" := 2, "r" := 5])][5 := OTHER])
  }

  lemma TamperingAllowed()
    ensures Others(ReservedWorld(), TamperedWorld())
  {
  }

  /** There is no identity check before that move: if another process has put its own file under
      the reserved name, that file leaves the destination directory. */
  lemma ForeignFileCanBeMoved()
    ensures Ready(ReservedWorld()) && Others(ReservedWorld(), TamperedWorld())
    ensures var v := TamperedWorld();
            && Denotes(v, 1, "r", 5) && 5 !in v.mine && RenameAllowed(v, 1, "r", 2, "inherited")
            && var u := RenameEffect(v, 1, "r", 2, "inherited");
            && "r" !in u.Entries(1) && Denotes(u, 2, "inherited", 5) && Denotes(u, 2, "image", 4)
  {
    ReservedIsReady();
    TamperingAllowed();
    assert RenameEffect(TamperedWorld(), 1, "r", 2, "inherited").Entries(1) == map["s" := 2];
  }

  lemma ReservedIsMade()
    ensures var w := StagedWorld();
            && 1 in w.nodes && w.nodes[1].entries == map["s" := 2] && w.fds == map[10 := 1, 11 := 2, 12 := 4]
            && MakeEffect(w, 1, "r", 3, Plain(Regular, 7, 0, map[])).(fds := w.fds[13 := 3]) == ReservedWorld()
  {
    var w := StagedWorld();
    var v := MakeEffect(w, 1, "r", 3, Plain(Regular, 7, 0, map[]));
    assert v.nodes[1].entries == map["s" := 2, "r" := 3];
    assert v.nodes == ReservedWorld().nodes;
    assert v.mine == {2, 3, 4};
    assert v.fds[13 := 3] == ReservedWorld().fds;
  }

  /** A run with nobody else that goes on from there: if the stat of line 238 fails, which is when nothing
      has been noted, the clean-up does not run, the descriptor is closed, and the reserved name, which was
      not there before the file was made, stays in the destination directory. */
  method FailedStatLeavesName() returns (p: PendingArtifact, err: Option<Error>)
    ensures fresh(p) && fresh(p.k) && p.k.company == Alone
    ensures p.k.audit == [] ==>
              && err.Some? && p.k.unclean && p.k.w.fds == StagedWorld().fds
              && p.k.w.Entries(2) == StagedWorld().Entries(2)
              && "r" !in StagedWorld().Entries(1) && p.k.w.Entries(1) == StagedWorld().Entries(1)["r" := 3]
  {
    hide PendingArtifact.Valid, PendingArtifact.Bound, PendingArtifact.Tidy, PendingArtifact.Staged,
        PendingArtifact.StagedOpen, PendingArtifact.Opened, OneTaken, SeenFirst, AllTame, PendingArtifact.Exchanged,
        Kept, Outside, Others, PendingArtifact.TameSince, Holds;
    ReservedIsReady();
    ReservedIsMade();
    p := ReadyToMove(ReservedWorld(), Alone);
    ghost var seen, at;
    err, seen, at := p.InspectAndExchange(13, "r", Plain(Regular, 7, 384, map[]), 4, 3);
    assert p.k.audit == [] ==> p.k.w.Entries(1) == ReservedWorld().Entries(1);
  }

  /** Everything but the parent is closed and the image is gone; the staging directory is next. */
  function EmptiedWorld(): World {
    World(map[1 := Shared(map["s" := 2]), 2 := OWN_DIR], map[10 := 1], {2}, 7)
  }

  method ReadyToRemove(company: Company) returns (p: PendingArtifact)
    ensures fresh(p) && fresh(p.k) && p.k.company == company && p.k.w == EmptiedWorld() && p.target == 1
    ensures p.Valid() && p.parent.Some? && p.dir.None? && p.file.None? && p.createdDir == Some(2) && p.name == "s"
  {
    var k := new Kernel(EmptiedWorld(), company);
    p := new PendingArtifact(k, 10, 1);
    p.name, p.createdDir := "s", Some(2);
  }

  /** Between the check at line 359, which passes in that world, and the removal at line 360 another
      process can put its own empty directory under the staging name, and lose it. */
  lemma ForeignDirectoryCanBeRemoved() returns (v: World, u: World)
    ensures Denotes(EmptiedWorld(), 1, "s", 2) && EmptiedWorld().IsDir(2)
    ensures Others(EmptiedWorld(), v) && Denotes(v, 1, "s", 5) && v.IsDir(5) && v.Entries(5) == map[] && 5 !in v.mine
    ensures u == RemoveEffect(v, 1, "s") && "s" !in u.Entries(1)
  {
    v := World(map[1 := Shared(map["s" := 5]), 2 := OWN_DIR, 5 := Plain(Directory, 8, 493, map[])], map[10 := 1], {2},
        7);
    u := RemoveEffect(v, 1, "s");
    assert u.Entries(1) == map[];
  }
}
