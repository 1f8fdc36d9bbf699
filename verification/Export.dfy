/** cmd/flatten-ctl/export.go: prepare an image, write it through a reserved artifact or to
    standard output, upload it, and commit it. */
module Exports {
  import opened Outcomes
  import opened Fs
  import opened PendingArtifacts

  /** The value of --output: a file name, "-" for standard output, or nothing. */
  datatype Output = ToFile(name: Name) | Dash | Unset

  /** The file was moved to the name with these bytes, and with the attributes of `like`. */
  ghost predicate Installed(was: seq<Event>, now: seq<Event>, t: Ino, name: Name, f: Ino, image: Bytes, like: Inode) {
    exists j :: |was| <= j < |now| && InstallsAt(now[j], t, name, f, image, like)
  }

  ghost predicate InstallsAt(e: Event, t: Ino, name: Name, f: Ino, image: Bytes, like: Inode) {
    && e.Moved? && e.to == t && e.toName == name && e.ino == f
    && e.node.data == image && LikeOutput(e.node, like)
  }

  lemma InstalledBetween(was: seq<Event>, mid: seq<Event>, end: seq<Event>, now: seq<Event>, t: Ino, name: Name,
      f: Ino, image: Bytes, some: Inode, like: Inode)
    requires was <= mid <= end <= now && Installed(mid, end, t, name, f, image, some) && LikeOutput(some, like)
    ensures Installed(was, now, t, name, f, image, like)
  {
    var j :| |mid| <= j < |end| && InstallsAt(end[j], t, name, f, image, some);
    assert now[j] == end[j];
  }

  lemma JustInstalled(was: seq<Event>, e: Event, t: Ino, name: Name, f: Ino, image: Bytes, like: Inode)
    requires InstallsAt(e, t, name, f, image, like)
    ensures Installed(was, was + [e], t, name, f, image, like)
  {
    assert (was + [e])[|was|] == e;
  }

  /** The file was moved to the name with these bytes; what it has of the file that was there before are
      its owner, group, mode and ACL, and a new one is executable for nobody. */
  ghost predicate Replaces(was: seq<Event>, now: seq<Event>, t: Ino, name: Name, f: Ino, image: Bytes,
      prev: Option<Inode>) {
    exists j :: |was| <= j < |now| && ReplacesAt(now[j], t, name, f, image, prev)
  }

  ghost predicate ReplacesAt(e: Event, t: Ino, name: Name, f: Ino, image: Bytes, prev: Option<Inode>) {
    e.Moved? && e.to == t && e.toName == name && e.ino == f && e.node.data == image && Dressed(e.node, prev)
  }

  lemma InstalledReplaces(was: seq<Event>, mid: seq<Event>, now: seq<Event>, t: Ino, name: Name, f: Ino, image: Bytes,
      like: Inode, prev: Option<Inode>)
    requires was <= mid && Installed(mid, now, t, name, f, image, like) && Dressed(like, prev)
    ensures Replaces(was, now, t, name, f, image, prev)
  {
    var j :| |mid| <= j < |now| && InstallsAt(now[j], t, name, f, image, like);
    assert ReplacesAt(now[j], t, name, f, image, prev);
  }

  lemma DressedAlike(a: Inode, b: Inode, prev: Option<Inode>)
    requires LikeOutput(a, b) && Dressed(b, prev)
    ensures Dressed(a, prev)
  {
  }

  lemma ImageIsThere(a: PendingArtifact, f: Ino)
    requires a.Reserved(f)
    ensures f in a.k.w.nodes
  {
  }

  /** The steps of an export whose order matters, and a change of a directory entry that is none of them. */
  datatype Phase = OpenSource | CloseWriter | CloseSource | Ingesting(content: Bytes, ok: bool)
                 | Renamed(name: Name, content: Bytes) | PrintedKey | Touched

  /** What an event is to one who watches the directory `t` and its entry `n`: every move into `t`, and
      every other change of the entry. */
  ghost function PhaseOf(e: Event, t: Ino, n: Name): seq<Phase> {
    match e
    case SourceOpened => [OpenSource]
    case WriterClosed => [CloseWriter]
    case SourceClosed => [CloseSource]
    case Ingest(content, ok) => [Ingesting(content, ok)]
    case KeyWritten => [PrintedKey]
    case Made(d, m, _, _) => if d == t && m == n then [Touched] else []
    case Removed(d, m, _) => if d == t && m == n then [Touched] else []
    case Moved(from, m, to, name, _, node) =>
      (if from == t && m == n then [Touched] else []) + (if to == t then [Renamed(name, node.data)] else [])
  }

  /** The phases of a log. */
  ghost function Phases(log: seq<Event>, t: Ino, n: Name): seq<Phase> {
    if log == [] then [] else Phases(log[..|log| - 1], t, n) + PhaseOf(log[|log| - 1], t, n)
  }

  /** Whichever entry of `t` one watches, unless it is one of `names`, the phases since `was` are `tr`. */
  ghost predicate Adds(was: seq<Event>, now: seq<Event>, t: Ino, names: set<Name>, tr: seq<Phase>) {
    was <= now && forall n | n !in names :: Phases(now, t, n) == Phases(was, t, n) + tr
  }

  lemma {:induction false} NoPhase(log: seq<Event>, more: seq<Event>, t: Ino, mine: set<Ino>, names: set<Name>,
      company: Company, n: Name)
    requires log <= more && AllTame(more, |log|, t, mine, names, company) && n !in names
    ensures Phases(more, t, n) == Phases(log, t, n)
  {
    if more != log {
      NoPhase(log, more[..|more| - 1], t, mine, names, company, n);
      assert Tame(more[|more| - 1], t, mine, names, company);
    }
  }

  /** Reserving and cleaning up contain no phase: no entry but those named is made, moved or removed. */
  lemma TameHasNoPhase(log: seq<Event>, more: seq<Event>, t: Ino, mine: set<Ino>, names: set<Name>, company: Company)
    requires log <= more && AllTame(more, |log|, t, mine, names, company)
    ensures Adds(log, more, t, names, [])
  {
    forall n | n !in names ensures Phases(more, t, n) == Phases(log, t, n) + [] {
      NoPhase(log, more, t, mine, names, company, n);
    }
  }

  /** What an event of a run may do to the entries of `t`: none is made or taken away but under `names`;
      with each check and the call it guards as one step nothing is unlinked, and alone nothing is moved
      away, but inodes of this process. */
  ghost predicate Careful(e: Event, t: Ino, mine: set<Ino>, names: set<Name>, company: Company) {
    match e
    case Made(d, n, _, _) => d == t ==> n in names
    case Removed(d, n, i) => d == t ==> n in names && (company != Racing ==> i in mine)
    case Moved(from, n, _, _, i, _) => from == t ==> n in names && (company == Alone ==> i in mine)
    case _ => true
  }

  ghost predicate AllCareful(was: seq<Event>, now: seq<Event>, t: Ino, mine: set<Ino>, names: set<Name>,
      company: Company) {
    was <= now && forall j | |was| <= j < |now| :: Careful(now[j], t, mine, names, company)
  }

  lemma TameIsCareful(was: seq<Event>, now: seq<Event>, t: Ino, mine: set<Ino>, names: set<Name>, company: Company)
    requires was <= now && AllTame(now, |was|, t, mine, names, company)
    ensures AllCareful(was, now, t, mine, names, company)
  {
    forall j | |was| <= j < |now| ensures Careful(now[j], t, mine, names, company) {
      assert Tame(now[j], t, mine, names, company);
    }
  }

  lemma CarefulTogether(was: seq<Event>, mid: seq<Event>, now: seq<Event>, t: Ino, mine: set<Ino>, more: set<Ino>,
      some: set<Name>, names: set<Name>, all: set<Name>, company: Company)
    requires AllCareful(was, mid, t, mine, some, company) && AllCareful(mid, now, t, more, names, company)
    requires mine <= more && some <= all && names <= all
    ensures AllCareful(was, now, t, more, all, company)
  {
    forall j | |was| <= j < |now| ensures Careful(now[j], t, more, all, company) {
      if j < |mid| { assert Careful(mid[j], t, mine, some, company) && mid[j] == now[j]; }
    }
  }

  /** The entry an event touches. */
  ghost function Watched(e: Event): Name {
    match e
    case Made(_, n, _, _) => n
    case Removed(_, n, _) => n
    case Moved(_, n, _, _, _, _) => n
    case _ => ""
  }

  lemma {:induction false} TouchShows(log: seq<Event>, k: nat, j: nat, t: Ino, n: Name) returns (rest: seq<Phase>)
    requires k <= j < |log| && Touched in PhaseOf(log[j], t, n)
    ensures Phases(log, t, n) == Phases(log[..k], t, n) + rest && Touched in rest
    decreases |log|
  {
    var init, last := log[..|log| - 1], log[|log| - 1];
    if j == |log| - 1 {
      rest := PhasesGrow(init, k, t, n);
      Associative(Phases(log[..k], t, n), rest, PhaseOf(last, t, n));
      rest := rest + PhaseOf(last, t, n);
    } else {
      rest := TouchShows(init, k, j, t, n);
      Associative(Phases(log[..k], t, n), rest, PhaseOf(last, t, n));
      rest := rest + PhaseOf(last, t, n);
    }
    assert init[..k] == log[..k];
  }

  lemma {:induction false} PhasesGrow(log: seq<Event>, k: nat, t: Ino, n: Name) returns (rest: seq<Phase>)
    requires k <= |log|
    ensures Phases(log, t, n) == Phases(log[..k], t, n) + rest
    decreases |log|
  {
    if k == |log| {
      assert log[..k] == log;
      rest := [];
    } else {
      var init, last := log[..|log| - 1], log[|log| - 1];
      rest := PhasesGrow(init, k, t, n);
      assert init[..k] == log[..k];
      Associative(Phases(log[..k], t, n), rest, PhaseOf(last, t, n));
      rest := rest + PhaseOf(last, t, n);
    }
  }

  /** Where nothing is touched, all events are careful. */
  lemma UntouchedIsCareful(was: seq<Event>, now: seq<Event>, t: Ino, tr: seq<Phase>, mine: set<Ino>, company: Company)
    requires Adds(was, now, t, {}, tr) && Touched !in tr
    ensures AllCareful(was, now, t, mine, {}, company)
  {
    forall j | |was| <= j < |now| ensures Careful(now[j], t, mine, {}, company) {
      if !Careful(now[j], t, mine, {}, company) {
        var n := Watched(now[j]);
        var rest := TouchShows(now, |was|, j, t, n);
        assert now[..|was|] == was;
        SameRest(Phases(was, t, n), tr, rest);
      }
    }
  }

  lemma SameRest(a: seq<Phase>, b: seq<Phase>, c: seq<Phase>)
    requires a + b == a + c
    ensures b == c
  {
    assert (a + b)[|a|..] == b;
    assert (a + c)[|a|..] == c;
  }

  /** The event is the same to everyone. */
  ghost predicate Steady(e: Event, t: Ino) {
    !(e.Made? && e.dir == t) && !(e.Removed? && e.dir == t) && !(e.Moved? && e.from == t)
  }

  lemma OnePhase(log: seq<Event>, e: Event, t: Ino)
    requires Steady(e, t)
    ensures Adds(log, log + [e], t, {}, PhaseOf(e, t, ""))
  {
    assert (log + [e])[..|log|] == log;
  }

  lemma NoEvent(log: seq<Event>, t: Ino)
    ensures Adds(log, log, t, {}, [])
  {
  }

  lemma Associative(was: seq<Phase>, first: seq<Phase>, second: seq<Phase>)
    ensures was + first + second == was + (first + second)
  {
  }

  lemma Joined(was: seq<Event>, mid: seq<Event>, now: seq<Event>, t: Ino, some: set<Name>, more: set<Name>,
      all: set<Name>, first: seq<Phase>, second: seq<Phase>)
    requires Adds(was, mid, t, some, first) && Adds(mid, now, t, more, second) && some <= all && more <= all
    ensures Adds(was, now, t, all, first + second)
  {
    hide Phases;
    forall n | n !in all ensures Phases(now, t, n) == Phases(was, t, n) + (first + second) {
      Associative(Phases(was, t, n), first, second);
    }
  }

  ghost const PRODUCED: seq<Phase> := [OpenSource, CloseWriter, CloseSource]

  /** All the phases of an export through an artifact, in order. */
  ghost function FullTrace(output: Output, upload: bool, image: Bytes): seq<Phase> {
    PRODUCED + Delivery(output, upload, image)
  }

  ghost function Delivery(output: Output, upload: bool, image: Bytes): seq<Phase> {
    (if upload then [Ingesting(image, true)] else [])
    + (if output.ToFile? then [Renamed(output.name, image)] else [])
    + (if upload then [PrintedKey] else [])
  }

  /** Something was appended, and it is `all` or a first part of it. */
  ghost predicate Printed(was: Bytes, now: Bytes, all: Bytes) { was <= now <= was + all }

  /** What standard output gets: the image if nothing else takes it or "-" asks for it, and the key. */
  ghost function Said(output: Output, upload: bool, image: Bytes, key: Bytes): Bytes {
    (if output.Dash? || (output.Unset? && !upload) then image else []) + (if upload then key else [])
  }

  lemma PrintedNothing(was: Bytes, all: Bytes)
    ensures Printed(was, was, all)
  {
  }

  lemma PrintedMore(was: Bytes, mid: Bytes, now: Bytes, first: Bytes, second: Bytes)
    requires mid == was + first && Printed(mid, now, second)
    ensures Printed(was, now, first + second)
  {
    assert was + first + second == was + (first + second);
  }

  lemma PrintedPart(was: Bytes, now: Bytes, first: Bytes, second: Bytes)
    requires Printed(was, now, first)
    ensures Printed(was, now, first + second)
  {
    assert was + first + second == was + (first + second);
  }

  class Export {
    const k: Kernel
    /** what the prepared source writes as its "image" member */
    const image: Bytes
    const key: Bytes
    var stdout: Bytes
    /** the context was seen cancelled, and stays so */
    var cancelled: bool

    constructor (k: Kernel, image: Bytes, key: Bytes)
      ensures this.k == k && this.image == image && this.key == key
    {
      this.k, this.image, this.key, stdout, cancelled := k, image, key, [], false;
    }

    /** Preparing the source, outside this model, opens it or fails. */
    method Prepare() returns (ok: bool)
      modifies k`log, k`faulted
      ensures k.log == (if ok then old(k.log) + [SourceOpened] else old(k.log)) && k.faulted == (old(k.faulted) || !ok)
    {
      ok := *;
      if ok { k.log := k.log + [SourceOpened]; } else { k.faulted := true; }
    }

    /** The one Close of the source, lines 97-101 and 121. */
    method CloseSourceOnce() returns (ok: bool)
      modifies k`log, k`faulted
      ensures k.log == old(k.log) + [SourceClosed] && k.faulted == (old(k.faulted) || !ok)
    {
      k.log := k.log + [SourceClosed];
      ok := *;
      if !ok { k.faulted := true; }
    }

    /** fmt.Println and io.Copy on standard output: all of `bytes`, or a fault and some prefix. */
    method Print(bytes: Bytes) returns (ok: bool)
      modifies this`stdout, k`faulted
      ensures Printed(old(stdout), stdout, bytes) && (ok ==> stdout == old(stdout) + bytes)
      ensures k.faulted == (old(k.faulted) || !ok)
    {
      var n: int := *;
      ok := *;
      var put := if !ok && 0 <= n <= |bytes| then bytes[..n] else bytes;
      stdout := stdout + put;
      if !ok { k.faulted := true; }
    }

    /** ctx.Err() and what stands behind it: anybody may cancel the context at any time. */
    method Consult() returns (stop: bool)
      modifies this`cancelled, k`faulted
      ensures stop == cancelled && (old(cancelled) ==> cancelled)
      ensures k.faulted == (old(k.faulted) || stop)
    {
      var now: bool := *;
      if now { cancelled := true; }
      stop := cancelled;
      if stop { k.faulted := true; }
    }

    /** ops.ingestArtifact reads the artifact through its descriptor. */
    method IngestArtifact(content: Bytes) returns (ok: bool)
      modifies k`log, k`faulted
      ensures k.log == old(k.log) + [Ingest(content, ok)] && k.faulted == (old(k.faulted) || !ok)
    {
      ok := *;
      k.log := k.log + [Ingest(content, ok)];
      if !ok { k.faulted := true; }
    }
  }

  /** ops.createArtifact, WriteArtifact and owned.Close, lines 104-120. */
  method WriteImage(x: Export, a: PendingArtifact, ghost f: Ino) returns (created: bool, err: Option<Error>)
    requires a.k == x.k && a.Valid() && a.StagedOpen(f) && a.Reserved(f) && x.k.w.nodes[f].data == []
    modifies x.k`w, x.k`log, x.k`faulted
    ensures Kept(old(x.k.w), x.k.w)
    ensures a.Valid() && a.StagedOpen(f) && a.Reserved(f) && a.Rest() == old(a.Rest())
    ensures x.k.Quiet() ==> x.k.w.Entries(a.target) == old(x.k.w.Entries(a.target))
    ensures x.k.log == if created then old(x.k.log) + [WriterClosed] else old(x.k.log)
    ensures err.None? ==> created && x.k.w.nodes[f].data == x.image
    ensures err in {None, Some(Sys), Some(WriteFailed)}
    ensures old(x.k.faulted) || err.Some? ==> x.k.faulted
    ensures f in x.k.w.nodes && LikeOutput(x.k.w.nodes[f], old(x.k.w.nodes[f]))
    ensures err.None? ==> x.k.faulted == old(x.k.faulted)
  {
    var w;
    ghost var mid;
    w, mid := x.k.Dup(a.file.value);
    OthersKeep(old(x.k.w), mid, a.createdDir.value, "image", f);
    OthersKeepAll(old(x.k.w), mid, a.createdDir.value);
    if w.None? { return false, Some(Sys); }
    var ok := WriteAndClose(x, a, w.value, f);
    created, err := true, if ok then None else Some(WriteFailed);
  }

  method WriteAndClose(x: Export, a: PendingArtifact, w: Fd, ghost f: Ino) returns (ok: bool)
    requires a.k == x.k && a.Valid() && a.StagedOpen(f) && a.Reserved(f) && x.k.w.nodes[f].data == [] && a.Loose(w, f)
    modifies x.k`w, x.k`log, x.k`faulted
    ensures Kept(old(x.k.w), x.k.w)
    ensures a.Valid() && a.StagedOpen(f) && a.Reserved(f) && a.Rest() == old(a.Rest()) - {w}
    ensures x.k.Quiet() ==> x.k.w.Entries(a.target) == old(x.k.w.Entries(a.target))
    ensures x.k.log == old(x.k.log) + [WriterClosed]
    ensures ok ==> x.k.w.nodes[f].data == x.image
    ensures old(x.k.faulted) || !ok ==> x.k.faulted
    ensures f in x.k.w.nodes && LikeOutput(x.k.w.nodes[f], old(x.k.w.nodes[f]))
    ensures ok ==> x.k.faulted == old(x.k.faulted)
  {
    var put;
    ghost var mid;
    put, mid := x.k.Write(w, x.image);
    WriteKeeps(old(x.k.w), mid, a.createdDir.value, f, put);
    ok := CloseWriterOf(x, a, w, f);
    ok := ok && put == x.image;
  }

  lemma WriteKeeps(w: World, v: World, c: Ino, f: Ino, put: Bytes)
    requires Others(w, v) && Holds(w, c, "image", f) && w.nodes[f].data == []
    ensures var u := WriteEffect(v, f, put);
            && Holds(u, c, "image", f) && u.nodes[f] == w.nodes[f].(data := put)
            && (forall d :: u.Entries(d) == v.Entries(d)) && u.nodes[c] == w.nodes[c]
            && (forall i :: u.IsDir(i) == v.IsDir(i))
  {
    OthersKeep(w, v, c, "image", f);
    assert v.nodes[f].data + put == put;
  }

  method CloseWriterOf(x: Export, a: PendingArtifact, w: Fd, ghost f: Ino) returns (ok: bool)
    requires a.k == x.k && a.Valid() && a.StagedOpen(f) && a.Reserved(f) && a.Loose(w, f)
    modifies x.k`w, x.k`log, x.k`faulted
    ensures Kept(old(x.k.w), x.k.w)
    ensures a.Valid() && a.StagedOpen(f) && a.Reserved(f) && a.Rest() == old(a.Rest()) - {w}
    ensures x.k.Quiet() ==> x.k.w.Entries(a.target) == old(x.k.w.Entries(a.target))
    ensures x.k.log == old(x.k.log) + [WriterClosed]
    ensures x.k.w.nodes[f] == old(x.k.w.nodes[f])
    ensures old(x.k.faulted) || !ok ==> x.k.faulted
    ensures f in x.k.w.nodes && LikeOutput(x.k.w.nodes[f], old(x.k.w.nodes[f]))
    ensures ok ==> x.k.faulted == old(x.k.faulted)
  {
    ghost var mid;
    ok, mid := x.k.CloseFd(w);
    OthersKeep(old(x.k.w), mid, a.createdDir.value, "image", f);
    OthersKeepAll(old(x.k.w), mid, a.createdDir.value);
    x.k.log := x.k.log + [WriterClosed];
  }

  /** What producing the image logs: nothing if the source was not prepared, and otherwise its
      opening, the writer's closing if there was a writer, and the source's closing. */
  ghost predicate Production(was: seq<Event>, now: seq<Event>, prepared: bool, created: bool) {
    now == if created then was + [SourceOpened] + [WriterClosed] + [SourceClosed]
           else if prepared then was + [SourceOpened] + [SourceClosed]
           else was
  }

  /** Lines 93-127: everything that holds the prepared source open. */
  method Produce(x: Export, a: PendingArtifact, ghost f: Ino)
    returns (err: Option<Error>, prepared: bool, created: bool)
    requires a.k == x.k && a.Valid() && a.StagedOpen(f) && a.Reserved(f) && x.k.w.nodes[f].data == []
    modifies x.k`w, x.k`log, x.k`faulted
    ensures x.k.Quiet() && old(a.Listed()) ==> a.Listed()
    ensures a.Valid() && a.StagedOpen(f) && a.Reserved(f) && a.Rest() == old(a.Rest()) && Kept(old(x.k.w), x.k.w)
    ensures x.k.Quiet() ==> x.k.w.Entries(a.target) == old(x.k.w.Entries(a.target))
    ensures Production(old(x.k.log), x.k.log, prepared, created) && (created ==> prepared)
    ensures err.None? ==> created && x.k.w.nodes[f].data == x.image
    ensures err in {None, Some(Sys), Some(WriteFailed)}
    ensures old(x.k.faulted) || err.Some? ==> x.k.faulted
    ensures f in x.k.w.nodes && LikeOutput(x.k.w.nodes[f], old(x.k.w.nodes[f]))
    ensures err.None? ==> x.k.faulted == old(x.k.faulted)
  {
    created := false;
    prepared := x.Prepare();
    if !prepared { return Some(Sys), prepared, created; }
    created, err := WriteImage(x, a, f);
    var closed := x.CloseSourceOnce();
    if !closed { err := Join(err, Some(Sys)); }
  }

  /** Lines 128-152: what reads the finished artifact back. `seen` is the world in which the staging
      name was looked up. */
  method ReadBack(x: Export, a: PendingArtifact, output: Output, upload: bool, ghost f: Ino)
    returns (err: Option<Error>, ghost seen: World)
    requires a.k == x.k && a.Valid() && a.StagedOpen(f) && a.Reserved(f) && x.k.w.nodes[f].data == x.image
    modifies x`stdout, x`cancelled, x.k`w, x.k`log, x.k`faulted, x.k`unclean, x.k`audit
    ensures a.Valid() && a.StagedOpen(f) && a.Reserved(f) && a.Rest() == old(a.Rest()) && x.k.w.nodes[f].data == x.image
    ensures x.k.unclean == old(x.k.unclean) && old(x.k.audit) <= x.k.audit
    ensures Others(old(x.k.w), seen) && (x.k.Quiet() ==> x.k.w == seen == old(x.k.w))
    ensures x.k.log == old(x.k.log) || (upload && exists ok :: x.k.log == old(x.k.log) + [Ingest(x.image, ok)])
    ensures x.k.log != old(x.k.log) || x.stdout != old(x.stdout) || err.None? ==>
              && Denotes(seen, a.target, a.name, a.createdDir.value)
              && VerifiedAt(x.k.audit, |old(x.k.audit)|, a.target, a.name, a.createdDir.value, f)
    ensures err.None? ==>
              && x.k.log == old(x.k.log) + (if upload then [Ingest(x.image, true)] else [])
              && x.stdout == old(x.stdout) + (if output.Dash? then x.image else [])
              && |x.k.audit| == |old(x.k.audit)| + (if output.Dash? then 3 else 2)
    ensures !Denotes(seen, a.target, a.name, a.createdDir.value) ==> err == Some(ImageReplaced)
    ensures err.Some? ==> err != Some(KeyFailed) && err != Some(NotRegular)
    ensures old(x.k.faulted) ==> x.k.faulted
    ensures err.Some? ==> x.k.faulted || !Denotes(seen, a.target, a.name, a.createdDir.value)
    ensures old(x.k.w.mine) <= x.k.w.mine
    ensures Printed(old(x.stdout), x.stdout, if output.Dash? then x.image else [])
    ensures f in x.k.w.nodes && SameFile(x.k.w.nodes[f], old(x.k.w.nodes[f]))
    ensures (old(x.cancelled) ==> x.cancelled) && (err.None? ==> !x.cancelled)
    ensures err.None? ==> x.k.faulted == old(x.k.faulted)
  {
    hide Holds, Others;
    ImageIsThere(a, f);
    PrintedNothing(x.stdout, if output.Dash? then x.image else []);
    err, seen := a.Verify(f);
    if err.Some? { return; }
    if output.Dash? { err := CopyOut(x, a, f); }
    if err.None? { err := Upload(x, a, upload, f); }
  }

  /** Lines 133-142. */
  method CopyOut(x: Export, a: PendingArtifact, ghost f: Ino) returns (err: Option<Error>)
    requires a.k == x.k && a.Valid() && a.StagedOpen(f) && a.Reserved(f) && x.k.w.nodes[f].data == x.image
    modifies x`stdout, x.k`w, x.k`faulted, x.k`unclean, x.k`audit
    ensures a.Valid() && a.StagedOpen(f) && a.Reserved(f) && a.Rest() == old(a.Rest()) && x.k.w.nodes[f].data == x.image
    ensures x.k.unclean == old(x.k.unclean) && old(x.k.audit) <= x.k.audit && (x.k.Quiet() ==> x.k.w == old(x.k.w))
    ensures err.None? ==> x.stdout == old(x.stdout) + x.image && |x.k.audit| == |old(x.k.audit)| + 1
    ensures err in {None, Some(Sys), Some(WriteFailed)}
    ensures old(x.k.faulted) || err.Some? ==> x.k.faulted
    ensures old(x.k.w.mine) <= x.k.w.mine
    ensures Printed(old(x.stdout), x.stdout, x.image)
    ensures f in x.k.w.nodes && SameFile(x.k.w.nodes[f], old(x.k.w.nodes[f]))
    ensures err.None? ==> x.k.faulted == old(x.k.faulted)
  {
    PrintedNothing(x.stdout, x.image);
    var st := a.StatFile(f);
    if !st.Found? { return Some(Sys); }
    var ok := x.Print(st.node.data);
    err := if ok then None else Some(WriteFailed);
  }

  /** Lines 143-152. */
  method Upload(x: Export, a: PendingArtifact, upload: bool, ghost f: Ino) returns (err: Option<Error>)
    requires a.k == x.k && a.StagedOpen(f) && x.k.w.nodes[f].data == x.image
    modifies x`cancelled, x.k`log, x.k`faulted
    ensures x.k.log == old(x.k.log) || (upload && exists ok :: x.k.log == old(x.k.log) + [Ingest(x.image, ok)])
    ensures err.None? ==> x.k.log == old(x.k.log) + (if upload then [Ingest(x.image, true)] else [])
    ensures err in {None, Some(IngestFailed), Some(Cancelled)}
    ensures old(x.k.faulted) || err.Some? ==> x.k.faulted
    ensures (old(x.cancelled) ==> x.cancelled) && (err.None? ==> !x.cancelled)
    ensures err.None? ==> x.k.faulted == old(x.k.faulted)
  {
    if upload {
      var ok := x.IngestArtifact(x.k.w.nodes[x.k.w.fds[a.file.value]].data);
      if !ok { return Some(IngestFailed); }
    }
    var cancelled := x.Consult();
    err := if cancelled then Some(Cancelled) else None;
  }

  /** Lines 153-163: the artifact's descriptor is closed and both names are checked again. */
  method Seal(x: Export, a: PendingArtifact, ghost f: Ino) returns (err: Option<Error>, ghost seen: World)
    requires a.k == x.k && a.Valid() && a.StagedOpen(f) && a.Reserved(f) && x.k.w.nodes[f].data == x.image
    modifies x`cancelled, a`file, x.k`w, x.k`faulted, x.k`unclean, x.k`audit
    ensures a.Valid() && a.Reserved(f) && a.Rest() == old(a.Rest()) && x.k.w.nodes[f].data == x.image
    ensures a.file.None? && old(a.file.value) !in x.k.w.fds
    ensures x.k.unclean == old(x.k.unclean) && old(x.k.audit) <= x.k.audit
    ensures Kept(old(x.k.w), seen) && (x.k.Quiet() ==> x.k.w.nodes == seen.nodes == old(x.k.w.nodes))
    ensures err.None? ==>
              && Denotes(seen, a.target, a.name, a.createdDir.value) && |x.k.audit| == |old(x.k.audit)| + 2
              && VerifiedAt(x.k.audit, |old(x.k.audit)|, a.target, a.name, a.createdDir.value, f)
    ensures !Denotes(seen, a.target, a.name, a.createdDir.value) ==> err.Some?
    ensures err in {None, Some(Sys), Some(ImageReplaced), Some(Cancelled)}
    ensures old(x.k.faulted) ==> x.k.faulted
    ensures err.Some? ==> x.k.faulted || !Denotes(seen, a.target, a.name, a.createdDir.value)
    ensures old(x.k.w.mine) <= x.k.w.mine
    ensures f in x.k.w.nodes && SameFile(x.k.w.nodes[f], old(x.k.w.nodes[f]))
    ensures (old(x.cancelled) ==> x.cancelled) && (err.None? ==> !x.cancelled)
    ensures err.None? ==> x.k.faulted == old(x.k.faulted)
  {
    err, seen := a.CloseFile();
    OthersKeep(old(x.k.w), seen, a.createdDir.value, "image", f);
    if err.Some? { return; }
    ghost var closed := x.k.w;
    err, seen := CheckAgain(x, a, f);
    KeptTransitive(old(x.k.w), closed, seen);
  }

  /** Lines 157-163. */
  method CheckAgain(x: Export, a: PendingArtifact, ghost f: Ino) returns (err: Option<Error>, ghost seen: World)
    requires a.k == x.k && a.Valid() && a.Reserved(f) && x.k.w.nodes[f].data == x.image
    modifies x`cancelled, x.k`w, x.k`faulted, x.k`unclean, x.k`audit
    ensures a.Valid() && a.Reserved(f) && x.k.w.fds == old(x.k.w.fds) && x.k.w.nodes[f].data == x.image
    ensures x.k.unclean == old(x.k.unclean) && old(x.k.audit) <= x.k.audit
    ensures Kept(old(x.k.w), seen) && (x.k.Quiet() ==> x.k.w == seen == old(x.k.w))
    ensures err.None? ==>
              && Denotes(seen, a.target, a.name, a.createdDir.value) && |x.k.audit| == |old(x.k.audit)| + 2
              && VerifiedAt(x.k.audit, |old(x.k.audit)|, a.target, a.name, a.createdDir.value, f)
    ensures !Denotes(seen, a.target, a.name, a.createdDir.value) ==> err.Some?
    ensures err in {None, Some(ImageReplaced), Some(Cancelled)}
    ensures old(x.k.faulted) ==> x.k.faulted
    ensures err.Some? ==> x.k.faulted || !Denotes(seen, a.target, a.name, a.createdDir.value)
    ensures old(x.k.w.mine) <= x.k.w.mine
    ensures f in x.k.w.nodes && SameFile(x.k.w.nodes[f], old(x.k.w.nodes[f]))
    ensures (old(x.cancelled) ==> x.cancelled) && (err.None? ==> !x.cancelled)
    ensures err.None? ==> x.k.faulted == old(x.k.faulted)
  {
    err, seen := a.Verify(f);
    OthersKept(old(x.k.w), seen);
    if err.None? {
      var cancelled := x.Consult();
      err := if cancelled then Some(Cancelled) else None;
    }
  }

  lemma OthersKept(w: World, v: World)
    requires Others(w, v)
    ensures Kept(w, v)
  {
  }

  ghost function Ending(output: Output, upload: bool, image: Bytes): seq<Phase> {
    (if output.ToFile? then [Renamed(output.name, image)] else []) + (if upload then [PrintedKey] else [])
  }

  /** The phases `tr` of a delivery that failed: it stopped early, or the ingest failed. */
  ghost predicate Stopped(tr: seq<Phase>, output: Output, upload: bool, image: Bytes) {
    tr < Delivery(output, upload, image) || (upload && tr == [Ingesting(image, false)])
  }

  /** What the checks before a delivery compare with: staging under its name, and the image in it. */
  datatype Subject = Subject(dir: Ino, name: Name, file: Ino)

  ghost function SubjectOf(a: PendingArtifact, f: Ino): Subject
    requires a.createdDir.Some?
    reads a
  {
    Subject(a.createdDir.value, a.name, f)
  }

  ghost predicate Checked(audit: seq<Note>, i: nat, t: Ino, s: Subject) {
    VerifiedAt(audit, i, t, s.name, s.dir, s.file)
  }

  /** From the `i`th note on: a file is committed only after a check of the subject and after its
      name was seen free or regular, and refused as irregular only if it was seen to be. */
  ghost predicate CommitChecked(audit: seq<Note>, i: nat, t: Ino, s: Subject, output: Output, err: Option<Error>,
      committed: bool) {
    && (output.ToFile? && committed ==> Checked(audit, i, t, s) && PlainAt(audit, i + 2, t, output.name))
    && (err == Some(NotRegular) ==>
          output.ToFile? && Checked(audit, i, t, s) && IrregularAt(audit, i + 2, t, output.name))
  }

  /** Lines 164-167: the context is asked once more, then the artifact commits. */
  method TryCommit(x: Export, a: PendingArtifact, output: Name, ghost f: Ino) returns (err: Option<Error>)
    requires a.k == x.k && a.Valid() && a.Reserved(f) && x.k.w.nodes[f].data == x.image && a.output == output
    modifies x`cancelled, x.k`w, x.k`log, x.k`faulted, x.k`unclean, x.k`audit
    ensures a.Valid() && x.k.w.fds == old(x.k.w.fds) && x.k.unclean == old(x.k.unclean)
    ensures x.k.Quiet() && old(a.Listed()) ==> a.Listed() && (err.None? ==> a.output != a.name)
    ensures x.k.log == if err.None?
              then old(x.k.log) + [Moved(a.createdDir.value, "image", a.target, output, f, old(x.k.w.nodes[f]))]
                       else old(x.k.log)
    ensures x.k.Quiet() ==>
              x.k.w.Entries(a.target) == if err.None? then old(x.k.w.Entries(a.target))[output := f]
                  else old(x.k.w.Entries(a.target))
    ensures old(x.k.audit) <= x.k.audit
    ensures CommitChecked(x.k.audit, |old(x.k.audit)|, a.target, SubjectOf(a, f), ToFile(output), err, err.None?)
    ensures x.k.Quiet() && err == Some(NotRegular) ==> !Replaceable(old(x.k.w), a.target, output)
    ensures old(x.k.faulted) ==> x.k.faulted
    ensures x.k.Quiet() && old(a.Listed()) && err.Some? ==> x.k.faulted || err == Some(NotRegular)
    ensures old(x.k.w.mine) <= x.k.w.mine
    ensures f in x.k.w.nodes && SameFile(x.k.w.nodes[f], old(x.k.w.nodes[f]))
    ensures (old(x.cancelled) ==> x.cancelled) && (err.None? ==> !x.cancelled)
    ensures err.None? ==> x.k.faulted == old(x.k.faulted)
  {
    hide Holds;
    var cancelled := x.Consult();
    ghost var seen, dest;
    err, seen, dest := a.Commit(cancelled, f);
    CommitNotes(x.k.audit, |old(x.k.audit)|, a.target, SubjectOf(a, f), output, err);
  }

  lemma CommitNotes(audit: seq<Note>, i: nat, t: Ino, s: Subject, output: Name, err: Option<Error>)
    requires err.None? ==> VerifiedAt(audit, i, t, s.name, s.dir, s.file) && PlainAt(audit, i + 2, t, output)
    requires err == Some(NotRegular) ==>
               VerifiedAt(audit, i, t, s.name, s.dir, s.file) && IrregularAt(audit, i + 2, t, output)
    ensures CommitChecked(audit, i, t, s, ToFile(output), err, err.None?)
  {
  }

  method CommitTraced(x: Export, a: PendingArtifact, output: Name, ghost f: Ino) returns (err: Option<Error>)
    requires a.k == x.k && a.Valid() && a.Reserved(f) && x.k.w.nodes[f].data == x.image && a.output == output
    modifies x`cancelled, x.k`w, x.k`log, x.k`faulted, x.k`unclean, x.k`audit
    ensures a.Valid() && x.k.w.fds == old(x.k.w.fds) && x.k.unclean == old(x.k.unclean)
    ensures x.k.Quiet() && old(a.Listed()) ==> a.Listed() && (err.None? ==> a.output != a.name)
    ensures Adds(old(x.k.log), x.k.log, a.target, {}, if err.None? then [Renamed(output, x.image)] else [])
    ensures x.k.Quiet() ==>
              x.k.w.Entries(a.target) == if err.None? then old(x.k.w.Entries(a.target))[output := f]
                  else old(x.k.w.Entries(a.target))
    ensures old(x.k.audit) <= x.k.audit
    ensures CommitChecked(x.k.audit, |old(x.k.audit)|, a.target, SubjectOf(a, f), ToFile(output), err, err.None?)
    ensures x.k.Quiet() && err == Some(NotRegular) ==> !Replaceable(old(x.k.w), a.target, output)
    ensures old(x.k.faulted) ==> x.k.faulted
    ensures x.k.Quiet() && old(a.Listed()) && err.Some? ==> x.k.faulted || err == Some(NotRegular)
    ensures old(x.k.w.mine) <= x.k.w.mine
    ensures f in x.k.w.nodes && SameFile(x.k.w.nodes[f], old(x.k.w.nodes[f]))
    ensures err.None? ==>
              Installed(old(x.k.log), x.k.log, a.target, output, f, x.image, old(x.k.w.nodes[f]))
    ensures (old(x.cancelled) ==> x.cancelled) && (err.None? ==> !x.cancelled)
    ensures err.None? ==> x.k.faulted == old(x.k.faulted)
  {
    ghost var e := Moved(a.createdDir.value, "image", a.target, output, f, x.k.w.nodes[f]);
    JustInstalled(x.k.log, e, a.target, output, f, x.image, x.k.w.nodes[f]);
    err := TryCommit(x, a, output, f);
    NoEvent(old(x.k.log), a.target);
    OnePhase(old(x.k.log), Moved(a.createdDir.value, "image", a.target, output, f, old(x.k.w.nodes[f])), a.target);
  }

  /** Lines 164-176. */
  method Complete(x: Export, a: PendingArtifact, output: Output, upload: bool, ghost f: Ino)
    returns (err: Option<Error>, committed: bool, ghost tr: seq<Phase>)
    requires a.k == x.k && a.Valid() && a.Reserved(f) && x.k.w.nodes[f].data == x.image
    requires (output.ToFile? || upload) && (output.ToFile? ==> a.output == output.name)
    modifies x`stdout, x`cancelled, x.k`w, x.k`log, x.k`faulted, x.k`unclean, x.k`audit
    ensures x.k.Quiet() && old(a.Listed()) ==> a.Listed() && (output.ToFile? && committed ==> a.output != a.name)
    ensures a.Valid() && x.k.w.fds == old(x.k.w.fds) && x.k.unclean == old(x.k.unclean)
    ensures Adds(old(x.k.log), x.k.log, a.target, {}, tr)
    ensures tr <= Ending(output, upload, x.image) && (err.None? <==> tr == Ending(output, upload, x.image))
    ensures (committed <==> tr != []) && (committed && err.Some? ==> err == Some(KeyFailed))
    ensures err.None? ==> x.stdout == old(x.stdout) + (if upload then x.key else [])
    ensures x.k.Quiet() ==>
              x.k.w.Entries(a.target) ==
              if output.ToFile? && tr != [] then old(x.k.w.Entries(a.target))[output.name := f]
              else old(x.k.w.Entries(a.target))
    ensures old(x.k.audit) <= x.k.audit
    ensures CommitChecked(x.k.audit, |old(x.k.audit)|, a.target, SubjectOf(a, f), output, err, committed)
    ensures x.k.Quiet() && err == Some(NotRegular) ==> !Replaceable(old(x.k.w), a.target, output.name)
    ensures old(x.k.faulted) ==> x.k.faulted
    ensures x.k.Quiet() && old(a.Listed()) && err.Some? ==> x.k.faulted || err == Some(NotRegular)
    ensures old(x.k.w.mine) <= x.k.w.mine
    ensures Printed(old(x.stdout), x.stdout, if upload then x.key else [])
    ensures f in x.k.w.nodes && SameFile(x.k.w.nodes[f], old(x.k.w.nodes[f]))
    ensures output.ToFile? && committed ==>
              Installed(old(x.k.log), x.k.log, a.target, output.name, f, x.image, old(x.k.w.nodes[f]))
    ensures old(x.k.log) <= x.k.log
    ensures (old(x.cancelled) ==> x.cancelled) && (!old(x.cancelled) && committed ==> !x.cancelled)
    ensures output.ToFile? && committed ==> !x.cancelled
    ensures err.None? ==> x.k.faulted == old(x.k.faulted)
  {
    hide Adds, Holds;
    ImageIsThere(a, f);
    PrintedNothing(x.stdout, if upload then x.key else []);
    committed, tr, err := false, [], None;
    NoEvent(old(x.k.log), a.target);
    if output.ToFile? {
      err := CommitTraced(x, a, output.name, f);
      if err.Some? { return; }
      committed, tr := true, [Renamed(output.name, x.image)];
    }
    if upload {
      ghost var mid := x.k.log;
      var printed := PrintKey(x, a.target);
      if output.ToFile? {
        InstalledBetween(old(x.k.log), old(x.k.log), mid, x.k.log, a.target, output.name, f, x.image,
          old(x.k.w.nodes[f]), old(x.k.w.nodes[f]));
      }
      Joined(old(x.k.log), mid, x.k.log, a.target, {}, {}, {}, tr, printed);
      if printed == [] {
        assert tr + printed == tr;
        err := Some(KeyFailed);
      } else {
        committed, tr := true, tr + printed;
      }
    }
  }

  /** Lines 170-175. */
  method PrintKey(x: Export, ghost t: Ino) returns (printed: seq<Phase>)
    modifies x`stdout, x.k`log, x.k`faulted
    ensures Adds(old(x.k.log), x.k.log, t, {}, printed)
    ensures printed == [] || (printed == [PrintedKey] && x.stdout == old(x.stdout) + x.key)
    ensures old(x.k.faulted) || printed == [] ==> x.k.faulted
    ensures Printed(old(x.stdout), x.stdout, x.key)
    ensures printed != [] ==> x.k.faulted == old(x.k.faulted)
  {
    var ok := x.Print(x.key);
    printed := [];
    NoEvent(x.k.log, t);
    if ok {
      OnePhase(x.k.log, KeyWritten, t);
      x.k.log := x.k.log + [KeyWritten];
      printed := [PrintedKey];
    }
  }

  ghost predicate Replaced(tr: seq<Phase>) { exists p | p in tr :: p.Renamed? }

  lemma ReadBackStopped(output: Output, upload: bool, image: Bytes, tr: seq<Phase>)
    requires output.ToFile? || upload
    requires tr == [] || (upload && (tr == [Ingesting(image, true)] || tr == [Ingesting(image, false)]))
    ensures Stopped(tr, output, upload, image) && !Replaced(tr)
  {
    var all := Delivery(output, upload, image);
    assert |all| >= 1 && (upload ==> |all| >= 2 && all[0] == Ingesting(image, true));
  }

  lemma Concluded(output: Output, upload: bool, image: Bytes, more: seq<Phase>)
    requires more <= Ending(output, upload, image)
    ensures var tr := (if upload then [Ingesting(image, true)] else []) + more;
            && (more == Ending(output, upload, image) ==> tr == Delivery(output, upload, image))
            && (more < Ending(output, upload, image) ==> Stopped(tr, output, upload, image))
            && (Replaced(tr) <==> output.ToFile? && more != [])
  {
    var head := if upload then [Ingesting(image, true)] else [];
    assert Delivery(output, upload, image) == head + Ending(output, upload, image);
    if output.ToFile? && more != [] {
      assert more[0] == Renamed(output.name, image);
      assert more[0] in head + more;
    }
  }

  /** and anything is committed only after a check of its own before that. */
  ghost predicate SealChecked(audit: seq<Note>, i: nat, t: Ino, s: Subject, output: Output, err: Option<Error>,
      committed: bool) {
    && (committed || err == Some(NotRegular) ==> Checked(audit, i, t, s))
    && CommitChecked(audit, i + 2, t, s, output, err, committed)
  }

  /** and nothing is delivered at all before a first check. */
  ghost predicate DeliveryChecked(audit: seq<Note>, i: nat, t: Ino, s: Subject, output: Output, err: Option<Error>,
      committed: bool, tr: seq<Phase>, printed: bool) {
    && (tr != [] || printed || err == Some(NotRegular) ==> Checked(audit, i, t, s))
    && SealChecked(audit, i + (if output.Dash? then 3 else 2), t, s, output, err, committed)
  }

  /** Lines 153-176. */
  method Conclude(x: Export, a: PendingArtifact, output: Output, upload: bool, ghost f: Ino)
    returns (err: Option<Error>, committed: bool, ghost tr: seq<Phase>)
    requires a.k == x.k && a.Valid() && a.StagedOpen(f) && a.Reserved(f) && x.k.w.nodes[f].data == x.image
    requires (output.ToFile? || upload) && (output.ToFile? ==> a.output == output.name)
    modifies x`stdout, x`cancelled, a`file, x.k`w, x.k`log, x.k`faulted, x.k`unclean, x.k`audit
    ensures x.k.Quiet() && old(a.Listed()) ==> a.Listed() && (output.ToFile? && committed ==> a.output != a.name)
    ensures a.Valid() && a.Rest() == old(a.Rest()) && x.k.unclean == old(x.k.unclean)
    ensures Adds(old(x.k.log), x.k.log, a.target, {}, tr)
    ensures tr <= Ending(output, upload, x.image) && (err.None? <==> tr == Ending(output, upload, x.image))
    ensures committed <==> tr != []
    ensures committed && err.Some? ==> err == Some(KeyFailed)
    ensures err.None? ==> x.stdout == old(x.stdout) + (if upload then x.key else [])
    ensures x.k.Quiet() ==>
              x.k.w.Entries(a.target) ==
              if output.ToFile? && committed then old(x.k.w.Entries(a.target))[output.name := f]
              else old(x.k.w.Entries(a.target))
    ensures a.file.None? && old(x.k.audit) <= x.k.audit
    ensures SealChecked(x.k.audit, |old(x.k.audit)|, a.target, SubjectOf(a, f), output, err, committed)
    ensures x.k.Quiet() && err == Some(NotRegular) ==> !Replaceable(old(x.k.w), a.target, output.name)
    ensures old(x.k.faulted) ==> x.k.faulted
    ensures x.k.Quiet() && old(a.Listed()) && err.Some? ==> x.k.faulted || err == Some(NotRegular)
    ensures old(x.k.w.mine) <= x.k.w.mine
    ensures Printed(old(x.stdout), x.stdout, if upload then x.key else [])
    ensures f in x.k.w.nodes && SameFile(x.k.w.nodes[f], old(x.k.w.nodes[f]))
    ensures output.ToFile? && committed ==>
              Installed(old(x.k.log), x.k.log, a.target, output.name, f, x.image, old(x.k.w.nodes[f]))
    ensures old(x.k.log) <= x.k.log
    ensures (old(x.cancelled) ==> x.cancelled) && (committed ==> !x.cancelled)
    ensures err.None? ==> x.k.faulted == old(x.k.faulted)
  {
    hide Holds, PendingArtifact.Valid, Printed, PendingArtifact.Staged, Adds;
    ImageIsThere(a, f);
    PrintedNothing(x.stdout, if upload then x.key else []);
    committed, tr := false, [];
    NoEvent(x.k.log, a.target);
    ghost var seen;
    err, seen := Seal(x, a, f);
    if err.Some? {
      assert Ending(output, upload, x.image) != [];
      return;
    }
    ghost var sealed, log := x.k.w.nodes[f], x.k.log;
    err, committed, tr := Complete(x, a, output, upload, f);
    if output.ToFile? && committed {
      InstalledBetween(old(x.k.log), log, x.k.log, x.k.log, a.target, output.name, f, x.image, sealed,
        old(x.k.w.nodes[f]));
    }
  }

  method ReadBackTraced(x: Export, a: PendingArtifact, output: Output, upload: bool, ghost f: Ino)
    returns (err: Option<Error>, ghost tr: seq<Phase>)
    requires a.k == x.k && a.Valid() && a.StagedOpen(f) && a.Reserved(f) && x.k.w.nodes[f].data == x.image
    modifies x`stdout, x`cancelled, x.k`w, x.k`log, x.k`faulted, x.k`unclean, x.k`audit
    ensures a.Valid() && a.StagedOpen(f) && a.Reserved(f) && a.Rest() == old(a.Rest()) && x.k.w.nodes[f].data == x.image
    ensures x.k.unclean == old(x.k.unclean) && (x.k.Quiet() ==> x.k.w == old(x.k.w))
    ensures old(x.k.audit) <= x.k.audit && (err.Some? ==> err != Some(NotRegular))
    ensures tr != [] || x.stdout != old(x.stdout) || err.None? ==>
              Checked(x.k.audit, |old(x.k.audit)|, a.target, SubjectOf(a, f))
    ensures err.None? ==> |x.k.audit| == |old(x.k.audit)| + (if output.Dash? then 3 else 2)
    ensures Adds(old(x.k.log), x.k.log, a.target, {}, tr)
    ensures tr == [] || (upload && (tr == [Ingesting(x.image, true)] || tr == [Ingesting(x.image, false)]))
    ensures err.None? ==>
              && tr == (if upload then [Ingesting(x.image, true)] else [])
              && x.stdout == old(x.stdout) + (if output.Dash? then x.image else [])
    ensures old(x.k.faulted) ==> x.k.faulted
    ensures x.k.Quiet() && old(a.Listed()) && err.Some? ==> x.k.faulted
    ensures old(x.k.w.mine) <= x.k.w.mine
    ensures Printed(old(x.stdout), x.stdout, if output.Dash? then x.image else [])
    ensures f in x.k.w.nodes && SameFile(x.k.w.nodes[f], old(x.k.w.nodes[f]))
    ensures old(x.k.log) <= x.k.log
    ensures (old(x.cancelled) ==> x.cancelled) && (err.None? ==> !x.cancelled)
    ensures err.None? ==> x.k.faulted == old(x.k.faulted)
  {
    hide Adds, Holds, PendingArtifact.Valid, Printed;
    ghost var seen;
    err, seen := ReadBack(x, a, output, upload, f);
    tr := [];
    NoEvent(old(x.k.log), a.target);
    if x.k.log != old(x.k.log) {
      OnePhase(old(x.k.log), x.k.log[|x.k.log| - 1], a.target);
      tr := PhaseOf(x.k.log[|x.k.log| - 1], a.target, "");
    }
  }

  lemma DeliveryNotes(mid: seq<Note>, now: seq<Note>, i: nat, t: Ino, s: Subject, output: Output, err: Option<Error>,
      committed: bool, tr: seq<Phase>, printed: bool)
    requires mid <= now && Checked(mid, i, t, s) && |mid| == i + (if output.Dash? then 3 else 2)
    requires SealChecked(now, |mid|, t, s, output, err, committed)
    ensures DeliveryChecked(now, i, t, s, output, err, committed, tr, printed)
  {
  }

  lemma StoppedNotes(now: seq<Note>, i: nat, t: Ino, s: Subject, output: Output, err: Option<Error>, tr: seq<Phase>,
      printed: bool)
    requires (tr != [] || printed ==> Checked(now, i, t, s)) && err != Some(NotRegular)
    ensures DeliveryChecked(now, i, t, s, output, err, false, tr, printed)
  {
  }

  /** Lines 128-176. */
  method Deliver(x: Export, a: PendingArtifact, output: Output, upload: bool, ghost f: Ino)
    returns (err: Option<Error>, committed: bool, ghost tr: seq<Phase>)
    requires a.k == x.k && a.Valid() && a.StagedOpen(f) && a.Reserved(f) && x.k.w.nodes[f].data == x.image
    requires (output.ToFile? || upload) && (output.ToFile? ==> a.output == output.name)
    modifies x`stdout, x`cancelled, a`file, x.k`w, x.k`log, x.k`faulted, x.k`unclean, x.k`audit
    ensures x.k.Quiet() && old(a.Listed()) ==> a.Listed() && (output.ToFile? && committed ==> a.output != a.name)
    ensures a.Valid() && a.Rest() == old(a.Rest()) && x.k.unclean == old(x.k.unclean)
    ensures Adds(old(x.k.log), x.k.log, a.target, {}, tr)
    ensures err.None? ==> tr == Delivery(output, upload, x.image) && committed
    ensures err.Some? ==> Stopped(tr, output, upload, x.image)
    ensures Replaced(tr) <==> output.ToFile? && committed
    ensures committed && err.Some? ==> err == Some(KeyFailed)
    ensures err.None? ==>
              x.stdout == old(x.stdout) + (if output.Dash? then x.image else []) + (if upload then x.key else [])
    ensures x.k.Quiet() ==>
              x.k.w.Entries(a.target) ==
              if output.ToFile? && committed then old(x.k.w.Entries(a.target))[output.name := f]
              else old(x.k.w.Entries(a.target))
    ensures old(x.k.audit) <= x.k.audit
    ensures DeliveryChecked(x.k.audit, |old(x.k.audit)|, a.target, SubjectOf(a, f), output, err, committed, tr,
              x.stdout != old(x.stdout))
    ensures x.k.Quiet() && err == Some(NotRegular) ==> !Replaceable(old(x.k.w), a.target, output.name)
    ensures old(x.k.faulted) ==> x.k.faulted
    ensures x.k.Quiet() && old(a.Listed()) && err.Some? ==> x.k.faulted || err == Some(NotRegular)
    ensures old(x.k.w.mine) <= x.k.w.mine
    ensures Printed(old(x.stdout), x.stdout, Said(output, upload, x.image, x.key))
    ensures f in x.k.w.nodes && SameFile(x.k.w.nodes[f], old(x.k.w.nodes[f]))
    ensures output.ToFile? && committed ==>
              Installed(old(x.k.log), x.k.log, a.target, output.name, f, x.image, old(x.k.w.nodes[f]))
    ensures old(x.k.log) <= x.k.log
    ensures (old(x.cancelled) ==> x.cancelled) && (committed ==> !x.cancelled)
    ensures err.None? ==> x.k.faulted == old(x.k.faulted)
  {
    hide Adds, Printed, DeliveryChecked, SealChecked, Checked, Stopped, Replaced, Holds, PendingArtifact.Tidy;
    ImageIsThere(a, f);
    committed := false;
    err, tr := ReadBackTraced(x, a, output, upload, f);
    ghost var stdout, copied := x.stdout, if output.Dash? then x.image else [];
    if err.Some? {
      PrintedPart(old(x.stdout), stdout, copied, if upload then x.key else []);
      ReadBackStopped(output, upload, x.image, tr);
      StoppedNotes(x.k.audit, |old(x.k.audit)|, a.target, SubjectOf(a, f), output, err, tr, x.stdout != old(x.stdout));
      return;
    }
    ghost var audit, mid, ready := x.k.audit, x.k.log, x.k.w.nodes[f];
    ghost var more;
    err, committed, more := Conclude(x, a, output, upload, f);
    PrintedMore(old(x.stdout), stdout, x.stdout, copied, if upload then x.key else []);
    Concluded(output, upload, x.image, more);
    if output.ToFile? && committed {
      InstalledBetween(old(x.k.log), mid, x.k.log, x.k.log, a.target, output.name, f, x.image, ready,
        old(x.k.w.nodes[f]));
    }
    Joined(old(x.k.log), mid, x.k.log, a.target, {}, {}, {}, tr, more);
    tr := tr + more;
    DeliveryNotes(audit, x.k.audit, |old(x.k.audit)|, a.target, SubjectOf(a, f), output, err, committed, tr,
        x.stdout != old(x.stdout));
  }

  /** Lines 181-187: what was committed stays reported as done. */
  method FinishArtifactOutput(a: PendingArtifact, committed: bool) returns (err: Option<Error>)
    requires a.Valid()
    modifies a`file, a`dir, a`parent, a.k`w, a.k`log, a.k`faulted, a.k`unclean, a.k`audit
    ensures a.k.w.fds == old(a.Rest()) && (committed ==> err.None?) && old(a.k.audit) <= a.k.audit
    ensures Adds(old(a.k.log), a.k.log, a.target, a.StagingName(), [])
    ensures a.QuietlyClosed(old(a.k.w), old(a.dir).Some?, old(a.parent).Some?)
    ensures (old(a.k.unclean) ==> a.k.unclean) && (old(a.k.faulted) || (a.k.Quiet() && err.Some?) ==> a.k.faulted)
    ensures a.k.Quiet() ==> Outside(old(a.k.w.Entries(a.target)), a.k.w.Entries(a.target), a.StagingName())
    ensures old(a.k.w.mine) <= a.k.w.mine && AllCareful(old(a.k.log), a.k.log, a.target, a.k.w.mine, a.StagingName(),
              a.k.company)
    ensures a.k.Quiet() ==> SameFiles(old(a.k.w), a.k.w)
    ensures old(a.k.log) <= a.k.log
    ensures err.None? && !committed ==> a.k.faulted == old(a.k.faulted)
  {
    err := a.Close();
    ClosedTame(a, old(a.k.log), a.StagingName());
    TameIsCareful(old(a.k.log), a.k.log, a.target, a.k.w.mine, a.StagingName(), a.k.company);
    TameHasNoPhase(old(a.k.log), a.k.log, a.target, a.k.w.mine, a.StagingName(), a.k.company);
    if committed { err := None; }
  }

  /** The parent holds what it held, with the staging directory and with the output if there is
      one. */
  ghost predicate QuietlyDelivered(a: PendingArtifact, was: map<Name, Ino>, out: Option<Name>, f: Ino)
    reads a, a.k
  {
    a.k.Quiet() && !a.k.unclean ==>
      if a.createdDir.Some?
      then a.name !in was && out != Some(a.name) && a.Listed()
          && a.k.w.Entries(a.target) == WithOutput(was[a.name := a.createdDir.value], out, f)
      else a.k.w.Entries(a.target) == WithOutput(was, out, f)
  }

  ghost function WithOutput(entries: map<Name, Ino>, out: Option<Name>, f: Ino): map<Name, Ino> {
    if out.Some? then entries[out.value := f] else entries
  }

  method CloseDelivered(a: PendingArtifact, committed: bool, ghost was: map<Name, Ino>, ghost out: Option<Name>,
      ghost f: Ino) returns (err: Option<Error>)
    requires a.Valid() && a.dir.Some? && a.parent.Some? && QuietlyDelivered(a, was, out, f)
    modifies a`file, a`dir, a`parent, a.k`w, a.k`log, a.k`faulted, a.k`unclean, a.k`audit
    ensures a.k.w.fds == old(a.Rest()) && (committed ==> err.None?) && old(a.k.audit) <= a.k.audit
    ensures Adds(old(a.k.log), a.k.log, a.target, a.StagingName(), [])
    ensures a.k.Quiet() && !a.k.unclean ==> a.k.w.Entries(a.target) == WithOutput(was, out, f)
    ensures (old(a.k.unclean) ==> a.k.unclean) && (old(a.k.faulted) || (a.k.Quiet() && err.Some?) ==> a.k.faulted)
    ensures a.k.Quiet() ==> Outside(old(a.k.w.Entries(a.target)), a.k.w.Entries(a.target), a.StagingName())
    ensures old(a.k.w.mine) <= a.k.w.mine && AllCareful(old(a.k.log), a.k.log, a.target, a.k.w.mine, a.StagingName(),
              a.k.company)
    ensures a.k.Quiet() ==> SameFiles(old(a.k.w), a.k.w)
    ensures old(a.k.log) <= a.k.log
    ensures err.None? && !committed ==> a.k.faulted == old(a.k.faulted)
  {
    if a.createdDir.Some? { Swept(was, a.name, a.createdDir.value, out, f); }
    err := FinishArtifactOutput(a, committed);
  }

  lemma Swept(was: map<Name, Ino>, name: Name, d: Ino, out: Option<Name>, f: Ino)
    ensures name !in was && out != Some(name) ==> WithOutput(was[name := d], out, f) - {name} == WithOutput(was, out, f)
  {
  }

  /** Phases, and then clean-up. */
  lemma Cleaned(was: seq<Event>, mid: seq<Event>, now: seq<Event>, t: Ino, mine: set<Ino>, names: set<Name>,
      company: Company, err: Option<Error>, tr: seq<Phase>, output: Output, upload: bool, image: Bytes)
    requires Outcome(err, tr, output, upload, image)
    requires Adds(was, mid, t, {}, tr) && Adds(mid, now, t, names, []) && AllCareful(mid, now, t, mine, names, company)
    ensures Adds(was, now, t, names, tr) && AllCareful(was, now, t, mine, names, company)
  {
    Joined(was, mid, now, t, {}, names, names, tr, []);
    assert tr + [] == tr;
    OutcomeTouchesNothing(err, tr, output, upload, image);
    UntouchedIsCareful(was, mid, t, tr, mine, company);
    CarefulTogether(was, mid, now, t, mine, mine, {}, names, names, company);
  }

  lemma StagingIsOpen(a: PendingArtifact, f: Ino)
    requires a.StagedOpen(f)
    ensures a.file.Some? && a.dir.Some? && a.parent.Some? && a.createdDir.Some?
  {
  }

  /** Lines 93-187 when an artifact was reserved. */
  method ThroughArtifact(x: Export, a: PendingArtifact, output: Output, upload: bool, ghost was: map<Name, Ino>,
      ghost f: Ino)
    returns (err: Option<Error>, committed: bool, ghost tr: seq<Phase>)
    requires a.k == x.k && a.Valid() && a.StagedOpen(f) && a.Reserved(f) && x.k.w.nodes[f].data == []
    requires x.k.Quiet() ==> a.Listed()
    requires (output.ToFile? || upload) && (output.ToFile? ==> a.output == output.name) && a.QuietlyMade(was)
    modifies x`stdout, x`cancelled, a`file, a`dir, a`parent, x.k`w, x.k`log, x.k`faulted, x.k`unclean, x.k`audit
    ensures x.k.w.fds == old(a.Rest())
    ensures Adds(old(x.k.log), x.k.log, a.target, a.StagingName(), tr)
    ensures Outcome(err, tr, output, upload, x.image)
    ensures (Replaced(tr) <==> output.ToFile? && committed) && (err.None? ==> committed)
    ensures err.None? ==>
              x.stdout == old(x.stdout) + (if output.Dash? then x.image else []) + (if upload then x.key else [])
    ensures x.k.Quiet() && !x.k.unclean ==>
              x.k.w.Entries(a.target) == if Replaced(tr) && output.ToFile? then was[output.name := f] else was
    ensures old(x.k.audit) <= x.k.audit
    ensures DeliveryChecked(x.k.audit, |old(x.k.audit)|, a.target, old(SubjectOf(a, f)), output, err, committed,
              Delivered(tr), x.stdout != old(x.stdout))
    ensures x.k.Quiet() && err == Some(NotRegular) ==> !Replaceable(old(x.k.w), a.target, output.name)
    ensures (old(x.k.unclean) ==> x.k.unclean) && (old(x.k.faulted) ==> x.k.faulted)
    ensures x.k.Quiet() && !x.k.unclean && err.Some? ==> x.k.faulted || err == Some(NotRegular)
    ensures x.k.Quiet() ==>
              && var out := if output.ToFile? && committed then Some(output.name) else None;
              && Outside(WithOutput(old(x.k.w.Entries(a.target)), out, f), x.k.w.Entries(a.target), a.StagingName())
              && (out.Some? ==> out.value !in a.StagingName())
    ensures old(x.k.w.mine) <= x.k.w.mine
    ensures AllCareful(old(x.k.log), x.k.log, a.target, x.k.w.mine, a.StagingName(), x.k.company)
    ensures Printed(old(x.stdout), x.stdout, Said(output, upload, x.image, x.key))
    ensures output.ToFile? && committed ==>
              Installed(old(x.k.log), x.k.log, a.target, output.name, f, x.image, old(x.k.w.nodes[f]))
    ensures old(x.k.log) <= x.k.log
    ensures x.k.Quiet() && committed ==>
              && f in x.k.w.nodes && x.k.w.nodes[f].data == x.image
              && LikeOutput(x.k.w.nodes[f], old(x.k.w.nodes[f]))
    ensures (old(x.cancelled) ==> x.cancelled) && (committed ==> !x.cancelled)
  {
    hide Adds, Outcome, DeliveryChecked, Outside, PendingArtifact.Valid, PendingArtifact.StagedOpen,
        PendingArtifact.Reserved, Kept, PendingArtifact.Rest, PendingArtifact.Bound, AllCareful, Printed, Said,
        Replaced, IrregularAt, Installed, Denotes, VerifiedAt, PlainAt;
    ImageIsThere(a, f);
    StagingIsOpen(a, f);
    err, committed, tr := ProduceAndDeliver(x, a, output, upload, f);
    ghost var audit, mid := x.k.audit, x.k.log;
    ghost var out := if output.ToFile? && committed then Some(output.name) else None;
    var closeErr := CloseDelivered(a, committed, was, out, f);
    NotesStay(audit, x.k.audit, |old(x.k.audit)|, a.target, old(SubjectOf(a, f)), output, err, committed,
        Delivered(tr), x.stdout != old(x.stdout));
    if output.ToFile? && committed {
      InstalledBetween(old(x.k.log), old(x.k.log), mid, x.k.log, a.target, output.name, f, x.image,
        old(x.k.w.nodes[f]), old(x.k.w.nodes[f]));
    }
    Cleaned(old(x.k.log), mid, x.k.log, a.target, x.k.w.mine, a.StagingName(), x.k.company, err, tr, output, upload,
        x.image);
    err := Join(err, closeErr);
  }

  /** The phases after production. */
  ghost function Delivered(tr: seq<Phase>): seq<Phase> { if |tr| < 3 then [] else tr[3..] }

  lemma NotesStay(was: seq<Note>, now: seq<Note>, i: nat, t: Ino, s: Subject, output: Output, err: Option<Error>,
      committed: bool, tr: seq<Phase>, printed: bool)
    requires was <= now && DeliveryChecked(was, i, t, s, output, err, committed, tr, printed)
    ensures DeliveryChecked(now, i, t, s, output, err, committed, tr, printed)
  {
  }

  /** How a run through an artifact may end: with all phases and no error, or with an error. A
      source that was opened was closed, and before any delivery so was the writer; after the
      destination changed the only error left is the key's. */
  ghost predicate Outcome(err: Option<Error>, tr: seq<Phase>, output: Output, upload: bool, image: Bytes) {
    && (err.None? <==> tr == FullTrace(output, upload, image))
    && (err.Some? ==>
          || tr == [] || tr == [OpenSource, CloseSource]
          || (PRODUCED <= tr && Stopped(tr[3..], output, upload, image)))
    && (err.Some? && Replaced(tr) ==> err == Some(KeyFailed))
  }

  lemma OutcomeTouchesNothing(err: Option<Error>, tr: seq<Phase>, output: Output, upload: bool, image: Bytes)
    requires Outcome(err, tr, output, upload, image)
    ensures Touched !in tr
  {
    assert Touched !in FullTrace(output, upload, image);
    if PRODUCED <= tr {
      assert tr == PRODUCED + tr[3..];
      assert tr[3..] < Delivery(output, upload, image) ==> Touched !in tr[3..];
    }
  }

  /** So the source is closed as often as it is opened, once at most, and before any ingest. */
  lemma ClosedOnce(err: Option<Error>, tr: seq<Phase>, output: Output, upload: bool, image: Bytes)
    requires Outcome(err, tr, output, upload, image)
    ensures multiset(tr)[OpenSource] == multiset(tr)[CloseSource] <= 1
    ensures forall j | 0 <= j < |tr| && tr[j].Ingesting? :: CloseSource in tr[..j]
  {
    if tr == [OpenSource, CloseSource] {
      assert multiset(tr) == multiset{OpenSource, CloseSource};
    } else if tr != [] {
      var more := ProducedFirst(err, tr, output, upload, image);
      NoSource(more, output, upload, image);
      SourceOnce(more);
    }
  }

  lemma ProducedFirst(err: Option<Error>, tr: seq<Phase>, output: Output, upload: bool, image: Bytes)
    returns (more: seq<Phase>)
    requires Outcome(err, tr, output, upload, image) && tr != [] && tr != [OpenSource, CloseSource]
    ensures tr == PRODUCED + more
    ensures more <= Delivery(output, upload, image) || more == [Ingesting(image, false)]
  {
    more := tr[3..];
  }

  lemma SourceOnce(more: seq<Phase>)
    requires OpenSource !in more && CloseSource !in more
    ensures multiset(PRODUCED + more)[OpenSource] == multiset(PRODUCED + more)[CloseSource] == 1
    ensures forall j | 0 <= j < |PRODUCED + more| && (PRODUCED + more)[j].Ingesting? ::
              CloseSource in (PRODUCED + more)[..j]
  {
    var tr := PRODUCED + more;
    assert multiset(tr) == multiset(PRODUCED) + multiset(more);
    assert multiset(PRODUCED) == multiset{OpenSource, CloseWriter, CloseSource};
    forall j | 0 <= j < |tr| && tr[j].Ingesting? ensures CloseSource in tr[..j] {
      assert j >= 3 && tr[..j][2] == CloseSource;
    }
  }

  lemma NoSource(more: seq<Phase>, output: Output, upload: bool, image: Bytes)
    requires more <= Delivery(output, upload, image) || more == [Ingesting(image, false)]
    ensures OpenSource !in more && CloseSource !in more
  {
    assert forall p | p in more :: p in Delivery(output, upload, image) || p == Ingesting(image, false);
  }

  method ProduceTraced(x: Export, a: PendingArtifact, ghost f: Ino) returns (err: Option<Error>, ghost tr: seq<Phase>)
    requires a.k == x.k && a.Valid() && a.StagedOpen(f) && a.Reserved(f) && x.k.w.nodes[f].data == []
    modifies x.k`w, x.k`log, x.k`faulted
    ensures a.Valid() && a.StagedOpen(f) && a.Reserved(f) && a.Rest() == old(a.Rest()) && Kept(old(x.k.w), x.k.w)
    ensures x.k.Quiet() ==> x.k.w.Entries(a.target) == old(x.k.w.Entries(a.target)) && (old(a.Listed()) ==> a.Listed())
    ensures Adds(old(x.k.log), x.k.log, a.target, {}, tr)
    ensures tr == [] || tr == [OpenSource, CloseSource] || tr == PRODUCED
    ensures err.None? ==> tr == PRODUCED && x.k.w.nodes[f].data == x.image
    ensures err in {None, Some(Sys), Some(WriteFailed)}
    ensures old(x.k.faulted) || err.Some? ==> x.k.faulted
    ensures f in x.k.w.nodes && LikeOutput(x.k.w.nodes[f], old(x.k.w.nodes[f]))
    ensures old(x.k.log) <= x.k.log
    ensures err.None? ==> x.k.faulted == old(x.k.faulted)
  {
    var prepared, created;
    err, prepared, created := Produce(x, a, f);
    tr := ProductionTrace(old(x.k.log), x.k.log, a.target, prepared, created);
  }

  lemma ProductionOutcome(err: Option<Error>, tr: seq<Phase>, output: Output, upload: bool, image: Bytes)
    requires (output.ToFile? || upload) && err.Some?
    requires tr == [] || tr == [OpenSource, CloseSource] || tr == PRODUCED
    ensures Outcome(err, tr, output, upload, image) && !Replaced(tr) && Delivered(tr) == []
  {
    assert |FullTrace(output, upload, image)| >= 4;
    ReadBackStopped(output, upload, image, []);
  }

  /** Lines 93-176. */
  method ProduceAndDeliver(x: Export, a: PendingArtifact, output: Output, upload: bool, ghost f: Ino)
    returns (err: Option<Error>, committed: bool, ghost tr: seq<Phase>)
    requires a.k == x.k && a.Valid() && a.StagedOpen(f) && a.Reserved(f) && x.k.w.nodes[f].data == []
    requires (output.ToFile? || upload) && (output.ToFile? ==> a.output == output.name)
    modifies x`stdout, x`cancelled, a`file, x.k`w, x.k`log, x.k`faulted, x.k`unclean, x.k`audit
    ensures a.Valid() && a.Rest() == old(a.Rest()) && x.k.unclean == old(x.k.unclean)
    ensures Adds(old(x.k.log), x.k.log, a.target, {}, tr)
    ensures Outcome(err, tr, output, upload, x.image) && (err.None? ==> committed)
    ensures Replaced(tr) <==> output.ToFile? && committed
    ensures err.None? ==>
              x.stdout == old(x.stdout) + (if output.Dash? then x.image else []) + (if upload then x.key else [])
    ensures x.k.Quiet() && old(a.Listed()) ==>
              && a.Listed() && (Replaced(tr) ==> a.output != a.name)
              && x.k.w.Entries(a.target) ==
                 if output.ToFile? && committed then old(x.k.w.Entries(a.target))[output.name := f]
                 else old(x.k.w.Entries(a.target))
    ensures old(x.k.audit) <= x.k.audit
    ensures DeliveryChecked(x.k.audit, |old(x.k.audit)|, a.target, SubjectOf(a, f), output, err, committed,
              Delivered(tr), x.stdout != old(x.stdout))
    ensures x.k.Quiet() && err == Some(NotRegular) ==> !Replaceable(old(x.k.w), a.target, output.name)
    ensures old(x.k.faulted) ==> x.k.faulted
    ensures x.k.Quiet() && old(a.Listed()) && err.Some? ==> x.k.faulted || err == Some(NotRegular)
    ensures old(x.k.w.mine) <= x.k.w.mine
    ensures Printed(old(x.stdout), x.stdout, Said(output, upload, x.image, x.key))
    ensures f in x.k.w.nodes && LikeOutput(x.k.w.nodes[f], old(x.k.w.nodes[f]))
            && (committed ==> x.k.w.nodes[f].data == x.image)
    ensures output.ToFile? && committed ==>
              Installed(old(x.k.log), x.k.log, a.target, output.name, f, x.image, old(x.k.w.nodes[f]))
    ensures old(x.k.log) <= x.k.log
    ensures (old(x.cancelled) ==> x.cancelled) && (committed ==> !x.cancelled)
    ensures err.None? ==> x.k.faulted == old(x.k.faulted)
  {
    hide Adds, Printed, Outcome, DeliveryChecked, Stopped, Replaced, Holds, PendingArtifact.Tidy, Said;
    ImageIsThere(a, f);
    committed := false;
    PrintedNothing(x.stdout, Said(output, upload, x.image, x.key));
    err, tr := ProduceTraced(x, a, f);
    if err.Some? {
      ProductionOutcome(err, tr, output, upload, x.image);
      StoppedNotes(x.k.audit, |old(x.k.audit)|, a.target, SubjectOf(a, f), output, err, [], false);
      return;
    }
    ghost var mid, log, ready := x.k.w, x.k.log, x.k.w.nodes[f];
    ghost var more;
    err, committed, more := Deliver(x, a, output, upload, f);
    DeliveryOutcome(err, more, output, upload, x.image);
    if output.ToFile? && committed {
      InstalledBetween(old(x.k.log), log, x.k.log, x.k.log, a.target, output.name, f, x.image, ready,
        old(x.k.w.nodes[f]));
    }
    Joined(old(x.k.log), log, x.k.log, a.target, {}, {}, {}, tr, more);
    if x.k.Quiet() && output.ToFile? { StillReplaceable(old(x.k.w), mid, a.target, output.name, None); }
    tr := tr + more;
  }

  /** A name that could be replaced still can be, unless a new entry took it. */
  lemma StillReplaceable(w: World, v: World, t: Ino, n: Name, made: Option<(Name, Ino)>)
    requires Kept(w, v) && (made.Some? ==> made.value.0 != n)
    requires v.Entries(t) == if made.Some? then w.Entries(t)[made.value.0 := made.value.1] else w.Entries(t)
    ensures Replaceable(w, t, n) ==> Replaceable(v, t, n)
  {
  }

  lemma ProductionTrace(was: seq<Event>, now: seq<Event>, t: Ino, prepared: bool, created: bool)
    returns (tr: seq<Phase>)
    requires Production(was, now, prepared, created) && (created ==> prepared)
    ensures Adds(was, now, t, {}, tr)
    ensures tr == if created then PRODUCED else if prepared then [OpenSource, CloseSource] else []
    ensures was <= now
  {
    NoEvent(was, t);
    if prepared {
      OnePhase(was, SourceOpened, t);
      var mid, some := was + [SourceOpened], [OpenSource];
      if created {
        OnePhase(mid, WriterClosed, t);
        Joined(was, mid, mid + [WriterClosed], t, {}, {}, {}, some, [CloseWriter]);
        mid, some := mid + [WriterClosed], some + [CloseWriter];
      }
      OnePhase(mid, SourceClosed, t);
      Joined(was, mid, now, t, {}, {}, {}, some, [CloseSource]);
    }
    tr := if created then PRODUCED else if prepared then [OpenSource, CloseSource] else [];
  }

  lemma DeliveryOutcome(err: Option<Error>, more: seq<Phase>, output: Output, upload: bool, image: Bytes)
    requires output.ToFile? || upload
    requires err.None? ==> more == Delivery(output, upload, image)
    requires err.Some? ==> Stopped(more, output, upload, image) && (Replaced(more) ==> err == Some(KeyFailed))
    ensures Outcome(err, PRODUCED + more, output, upload, image) && Delivered(PRODUCED + more) == more
    ensures Replaced(PRODUCED + more) <==> Replaced(more)
  {
    var tr := PRODUCED + more;
    assert tr[3..] == more;
    assert FullTrace(output, upload, image)[3..] == Delivery(output, upload, image);
    if Replaced(more) {
      var p :| p in more && p.Renamed?;
      assert p in tr;
    }
  }

  /** Lines 93-127 when the image goes straight to standard output. */
  method ToStdout(x: Export, ghost t: Ino) returns (err: Option<Error>, ghost tr: seq<Phase>)
    modifies x`stdout, x.k`log, x.k`faulted
    ensures Adds(old(x.k.log), x.k.log, t, {}, tr)
    ensures tr == [] || tr == [OpenSource, CloseSource]
    ensures tr == [] ==> x.stdout == old(x.stdout)
    ensures err.None? ==> tr == [OpenSource, CloseSource] && x.stdout == old(x.stdout) + x.image
    ensures err in {None, Some(Sys), Some(WriteFailed)}
    ensures old(x.k.faulted) || err.Some? ==> x.k.faulted
    ensures Printed(old(x.stdout), x.stdout, x.image)
    ensures err.None? ==> x.k.faulted == old(x.k.faulted)
  {
    PrintedNothing(x.stdout, x.image);
    var prepared := x.Prepare();
    err := Some(Sys);
    if prepared {
      var written := x.Print(x.image);
      err := if written then None else Some(WriteFailed);
      var closed := x.CloseSourceOnce();
      if !closed { err := Join(err, Some(Sys)); }
    }
    tr := ProductionTrace(old(x.k.log), x.k.log, t, prepared, false);
  }

  /** Where the notes of a run's delivery begin, what its checks compared with, and the names it made in the
      destination directory. */
  datatype Examined = Examined(start: nat, subject: Subject, made: set<Name>)

  /** No image is written to a terminal, and none to a name whose permissions were refused. */
  ghost predicate Barred(output: Output, terminal: bool, permitted: bool) {
    (output.Dash? && terminal) || (output.ToFile? && !permitted)
  }

  /** Lines 62-177. `prev` is what the output path held before, `terminal` whether standard
      output is one, `permitted` what `outputPermissions` says of the path. Every descriptor opened
      is closed again, whatever fails. */
  method WritePreparedExport(x: Export, target: Ino, output: Output, upload: bool, prev: Option<Inode>, terminal: bool,
      permitted: bool)
    returns (err: Option<Error>, ghost tr: seq<Phase>, ghost committed: bool, ghost e: Examined)
    modifies x`stdout, x`cancelled, x.k`w, x.k`log, x.k`faulted, x.k`unclean, x.k`audit
    ensures x.k.w.fds == old(x.k.w.fds)
    ensures Adds(old(x.k.log), x.k.log, target, e.made, tr)
    ensures output.ToFile? || upload ==>
              && Outcome(err, tr, output, upload, x.image) && (err.None? ==> committed)
              && (Replaced(tr) <==> output.ToFile? && committed)
    ensures !output.ToFile? && !upload ==>
              tr in {[], [OpenSource, CloseSource]} && (err.None? ==> tr == [OpenSource, CloseSource])
    ensures err.None? ==>
              x.stdout == old(x.stdout) + (if output.Dash? || (output.Unset? && !upload) then x.image else [])
                                        + (if upload then x.key else [])
    ensures x.k.Quiet() && !x.k.unclean && (output.ToFile? || upload) ==>
              x.k.w.Entries(target) ==
              if Replaced(tr) && output.ToFile? then old(x.k.w.Entries(target))[output.name := e.subject.file]
              else old(x.k.w.Entries(target))
    ensures OwnNames(old(x.k.log), x.k.log, target, e.made, x.k.w.mine, x.k.company)
    ensures x.k.Quiet() && (output.ToFile? || upload) ==>
              Replacing(old(x.k.w.Entries(target)), x.k.w.Entries(target), e.made,
                if output.ToFile? && committed then Some(output.name) else None, e.subject.file)
    ensures !output.ToFile? && !upload ==> x.k.w == old(x.k.w)
    ensures old(x.k.audit) <= x.k.audit && |old(x.k.audit)| <= e.start
    ensures output.ToFile? || upload ==>
              DeliveryChecked(x.k.audit, e.start, target, e.subject, output, err, committed, Delivered(tr),
                x.stdout != old(x.stdout))
    ensures err == Some(NotRegular) ==> output.ToFile?
    ensures x.k.Quiet() && !x.k.unclean && err == Some(NotRegular) ==>
              !Replaceable(old(x.k.w), target, output.name) || output.name == e.subject.name
    ensures (old(x.k.unclean) ==> x.k.unclean) && (old(x.k.faulted) ==> x.k.faulted)
    ensures x.k.Quiet() && !x.k.unclean && err.Some? ==>
              x.k.faulted || err == Some(NotRegular) || Barred(output, terminal, permitted)
    ensures Printed(old(x.stdout), x.stdout, Said(output, upload, x.image, x.key))
    ensures output.ToFile? && committed ==>
              && Replaces(old(x.k.log), x.k.log, target, output.name, e.subject.file, x.image, prev)
              && Asked(old(x.k.log), x.k.log, e.subject.dir, "image",
                   if prev.Some? then prev.value.mode else 6 * 64 + 6 * 8 + 6)
    ensures x.k.Quiet() && output.ToFile? && committed ==>
              && e.subject.file in x.k.w.nodes && x.k.w.nodes[e.subject.file].data == x.image
              && Dressed(x.k.w.nodes[e.subject.file], prev)
    ensures (old(x.cancelled) ==> x.cancelled) && (committed ==> !x.cancelled)
    ensures Barred(output, terminal, permitted) ==>
              && err == Some(Refused) && tr == [] && !committed
              && x.k.w == old(x.k.w) && x.k.log == old(x.k.log) && x.stdout == old(x.stdout)
    ensures err.None? && !output.ToFile? && !upload ==> x.k.faulted == old(x.k.faulted)
  {
    tr, committed, e := [], false, Examined(|x.k.audit|, Subject(target, "", target), {});
    EarlyOutcome(output, upload, x.image);
    PrintedNothing(x.stdout, Said(output, upload, x.image, x.key));
    NoEvent(x.k.log, target);
    NoNames(x.k.log, x.k.log, target, [], x.k.w.mine, x.k.company);
    if output.Dash? && terminal { return Some(Refused), tr, committed, e; }
    if output.ToFile? {
      if !permitted { return Some(Refused), tr, committed, e; }
    }
    if output.ToFile? || upload {
      err, tr, committed, e := ReserveAndExport(x, target, output, upload, prev);
    } else {
      err, tr := ToStdout(x, target);
      PrintedPart(old(x.stdout), x.stdout, x.image, []);
      NoNames(old(x.k.log), x.k.log, target, tr, x.k.w.mine, x.k.company);
    }
  }

  /** The names are temporary ones under which the run made entries, and no other names were touched. */
  ghost predicate OwnNames(was: seq<Event>, now: seq<Event>, t: Ino, made: set<Name>, mine: set<Ino>,
      company: Company) {
    && made <= MadeIn(was, now, t) && (forall n | n in made :: Temporary(n))
    && AllCareful(was, now, t, mine, made, company)
  }

  lemma NoNames(was: seq<Event>, now: seq<Event>, t: Ino, tr: seq<Phase>, mine: set<Ino>, company: Company)
    requires Adds(was, now, t, {}, tr) && Touched !in tr
    ensures OwnNames(was, now, t, {}, mine, company)
  {
    UntouchedIsCareful(was, now, t, tr, mine, company);
  }

  lemma NamesOwn(was: seq<Event>, mid: seq<Event>, now: seq<Event>, t: Ino, mine: set<Ino>, company: Company)
    requires SelfTame(was, mid, t, mine, company) && mid <= now
    ensures MadeIn(was, mid, t) <= MadeIn(was, now, t) && forall n | n in MadeIn(was, mid, t) :: Temporary(n)
  {
    MadeTogether(was, mid, now, t);
    forall n | n in MadeIn(was, mid, t) ensures Temporary(n) {
      var j :| |was| <= j < |mid| && mid[j].Made? && mid[j].dir == t && mid[j].name == n;
      assert Tame(mid[j], t, mine, MadeIn(was, mid, t), company);
    }
  }

  /** A reservation, and then phases. */
  lemma WholeRun(was: seq<Event>, mid: seq<Event>, now: seq<Event>, t: Ino, mine: set<Ino>, more: set<Ino>,
      company: Company, names: set<Name>, tr: seq<Phase>)
    requires SelfTame(was, mid, t, mine, company) && names <= MadeIn(was, mid, t) && Adds(mid, now, t, names, tr)
    requires AllCareful(mid, now, t, more, names, company) && mine <= more
    ensures OwnNames(was, now, t, MadeIn(was, mid, t), more, company) && Adds(was, now, t, MadeIn(was, mid, t), tr)
  {
    TameIsCareful(was, mid, t, mine, MadeIn(was, mid, t), company);
    CarefulTogether(was, mid, now, t, mine, more, MadeIn(was, mid, t), names, MadeIn(was, mid, t), company);
    TameHasNoPhase(was, mid, t, mine, MadeIn(was, mid, t), company);
    Joined(was, mid, now, t, MadeIn(was, mid, t), names, MadeIn(was, mid, t), [], tr);
    assert [] + tr == tr;
    NamesOwn(was, mid, now, t, mine, company);
  }

  /** A committed output names the file, and every entry there was before is there still, but for the
      output's. What is new are names that the run made. */
  ghost predicate Replacing(before: map<Name, Ino>, after: map<Name, Ino>, made: set<Name>, out: Option<Name>, f: Ino) {
    && made !! before.Keys && Outside(WithOutput(before, out, f), after, made)
    && (out.Some? ==> out.value in after && after[out.value] == f)
  }

  lemma Settled(was: seq<Event>, now: seq<Event>, t: Ino, before: map<Name, Ino>, between: map<Name, Ino>,
      after: map<Name, Ino>, names: set<Name>, out: Option<Name>, f: Ino)
    requires Around(was, now, t, before, between) && names <= MadeIn(was, now, t)
    requires Outside(WithOutput(between, out, f), after, names) && (out.Some? ==> out.value !in names)
    ensures Replacing(before, after, MadeIn(was, now, t), out, f)
  {
    var made, mid := MadeIn(was, now, t), WithOutput(between, out, f);
    forall n | n !in made
      ensures (n in WithOutput(before, out, f) <==> n in mid)
              && (n in mid ==> WithOutput(before, out, f)[n] == mid[n])
    {
      OutsideAt(before, between, made, n);
    }
    OutsideTogether(WithOutput(before, out, f), mid, after, made, names, made);
    if out.Some? { OutsideAt(mid, after, names, out.value); }
  }

  lemma NoneDelivered(was: seq<Event>, now: seq<Event>, t: Ino, before: map<Name, Ino>, after: map<Name, Ino>, f: Ino)
    ensures Around(was, now, t, before, after) ==> Replacing(before, after, MadeIn(was, now, t), None, f)
  {
  }

  /** Lines 93-187, when the reservation, since the events `was` and the world `start`, succeeded. */
  method ExportReserved(x: Export, a: PendingArtifact, target: Ino, output: Output, upload: bool,
      ghost prev: Option<Inode>, ghost was: seq<Event>, ghost start: World, ghost f: Ino)
    returns (err: Option<Error>, ghost tr: seq<Phase>, ghost committed: bool, ghost e: Examined)
    requires output.ToFile? || upload
    requires a.k == x.k && a.target == target && a.Valid() && a.StagedOpen(f) && a.Reserved(f)
    requires x.k.w.nodes[f].data == [] && a.Rest() == start.fds && Kept(start, x.k.w)
    requires SelfTame(was, x.k.log, target, x.k.w.mine, x.k.company) && a.StagingName() <= MadeIn(was, x.k.log, target)
    requires x.k.Quiet() ==> a.Listed() && Around(was, x.k.log, target, start.Entries(target), x.k.w.Entries(target))
    requires a.QuietlyMade(start.Entries(target)) && (output.ToFile? ==> a.output == output.name)
    requires output.ToFile? ==>
               && Dressed(x.k.w.nodes[f], prev)
               && Asked(was, x.k.log, a.createdDir.value, "image",
                    if prev.Some? then prev.value.mode else 6 * 64 + 6 * 8 + 6)
    modifies x`stdout, x`cancelled, a`file, a`dir, a`parent, x.k`w, x.k`log, x.k`faulted, x.k`unclean, x.k`audit
    ensures x.k.w.fds == start.fds
    ensures Adds(was, x.k.log, target, e.made, tr)
    ensures Outcome(err, tr, output, upload, x.image) && (err.None? ==> committed)
    ensures Replaced(tr) <==> output.ToFile? && committed
    ensures err.None? ==>
              x.stdout == old(x.stdout) + (if output.Dash? then x.image else []) + (if upload then x.key else [])
    ensures x.k.Quiet() && !x.k.unclean ==>
              x.k.w.Entries(target) ==
              if Replaced(tr) && output.ToFile? then start.Entries(target)[output.name := e.subject.file]
              else start.Entries(target)
    ensures OwnNames(was, x.k.log, target, e.made, x.k.w.mine, x.k.company)
    ensures x.k.Quiet() ==>
              Replacing(start.Entries(target), x.k.w.Entries(target), e.made,
                if output.ToFile? && committed then Some(output.name) else None, e.subject.file)
    ensures old(x.k.audit) <= x.k.audit && |old(x.k.audit)| <= e.start
    ensures DeliveryChecked(x.k.audit, e.start, target, e.subject, output, err, committed, Delivered(tr),
                x.stdout != old(x.stdout))
    ensures x.k.Quiet() && !x.k.unclean && err == Some(NotRegular) ==>
              output.ToFile? && (!Replaceable(start, target, output.name) || output.name == e.subject.name)
    ensures (old(x.k.unclean) ==> x.k.unclean) && (old(x.k.faulted) ==> x.k.faulted)
    ensures x.k.Quiet() && !x.k.unclean && err.Some? ==> x.k.faulted || err == Some(NotRegular)
    ensures Printed(old(x.stdout), x.stdout, Said(output, upload, x.image, x.key))
    ensures output.ToFile? && committed ==>
              && Replaces(was, x.k.log, target, output.name, e.subject.file, x.image, prev)
              && Asked(was, x.k.log, e.subject.dir, "image",
                   if prev.Some? then prev.value.mode else 6 * 64 + 6 * 8 + 6)
    ensures x.k.Quiet() && output.ToFile? && committed ==>
              && e.subject.file in x.k.w.nodes && x.k.w.nodes[e.subject.file].data == x.image
              && Dressed(x.k.w.nodes[e.subject.file], prev)
    ensures (old(x.cancelled) ==> x.cancelled) && (committed ==> !x.cancelled)
  {
    hide Outside, Around, Holds, Adds, Replacing, AllTame, SelfTame, OwnNames, Outcome, Dressed, Asked, Installed,
        Replaces;
    ghost var made, log, v := MadeIn(was, x.k.log, target), x.k.log, x.k.w;
    StagingIsOpen(a, f);
    ImageIsThere(a, f);
    e := Examined(|x.k.audit|, SubjectOf(a, f), made);
    if x.k.Quiet() && !x.k.unclean && output.ToFile? && output.name != a.name {
      StillReplaceable(start, x.k.w, target, output.name, Some((a.name, a.createdDir.value)));
    }
    ghost var ready := x.k.w.nodes[f];
    err, committed, tr := ThroughArtifact(x, a, output, upload, start.Entries(target), f);
    WholeRun(was, log, x.k.log, target, v.mine, x.k.w.mine, x.k.company, a.StagingName(), tr);
    if output.ToFile? && committed {
      InstalledReplaces(was, log, x.k.log, target, output.name, f, x.image, ready, prev);
      MadeLater(was, log, x.k.log, e.subject.dir, f, "image",
        if prev.Some? then prev.value.mode else 6 * 64 + 6 * 8 + 6);
      if x.k.Quiet() { DressedAlike(x.k.w.nodes[f], ready, prev); }
    }
    ghost var out := if output.ToFile? && committed then Some(output.name) else None;
    if x.k.Quiet() {
      Settled(was, log, target, start.Entries(target), v.Entries(target), x.k.w.Entries(target), a.StagingName(),
          out, f);
    }
  }

  /** Lines 80-187 when an artifact is needed. */
  method ReserveAndExport(x: Export, target: Ino, output: Output, upload: bool, prev: Option<Inode>)
    returns (err: Option<Error>, ghost tr: seq<Phase>, ghost committed: bool, ghost e: Examined)
    requires output.ToFile? || upload
    modifies x`stdout, x`cancelled, x.k`w, x.k`log, x.k`faulted, x.k`unclean, x.k`audit
    ensures x.k.w.fds == old(x.k.w.fds)
    ensures Adds(old(x.k.log), x.k.log, target, e.made, tr)
    ensures Outcome(err, tr, output, upload, x.image) && (err.None? ==> committed)
    ensures Replaced(tr) <==> output.ToFile? && committed
    ensures err.None? ==>
              x.stdout == old(x.stdout) + (if output.Dash? then x.image else []) + (if upload then x.key else [])
    ensures x.k.Quiet() && !x.k.unclean ==>
              x.k.w.Entries(target) ==
              if Replaced(tr) && output.ToFile? then old(x.k.w.Entries(target))[output.name := e.subject.file]
              else old(x.k.w.Entries(target))
    ensures OwnNames(old(x.k.log), x.k.log, target, e.made, x.k.w.mine, x.k.company)
    ensures x.k.Quiet() ==>
              Replacing(old(x.k.w.Entries(target)), x.k.w.Entries(target), e.made,
                if output.ToFile? && committed then Some(output.name) else None, e.subject.file)
    ensures old(x.k.audit) <= x.k.audit && |old(x.k.audit)| <= e.start
    ensures DeliveryChecked(x.k.audit, e.start, target, e.subject, output, err, committed, Delivered(tr),
                x.stdout != old(x.stdout))
    ensures x.k.Quiet() && !x.k.unclean && err == Some(NotRegular) ==>
              output.ToFile? && (!Replaceable(old(x.k.w), target, output.name) || output.name == e.subject.name)
    ensures (old(x.k.unclean) ==> x.k.unclean) && (old(x.k.faulted) ==> x.k.faulted)
    ensures x.k.Quiet() && !x.k.unclean && err.Some? ==> x.k.faulted || err == Some(NotRegular)
    ensures Printed(old(x.stdout), x.stdout, Said(output, upload, x.image, x.key))
    ensures output.ToFile? && committed ==>
              && Replaces(old(x.k.log), x.k.log, target, output.name, e.subject.file, x.image, prev)
              && Asked(old(x.k.log), x.k.log, e.subject.dir, "image",
                   if prev.Some? then prev.value.mode else 6 * 64 + 6 * 8 + 6)
    ensures x.k.Quiet() && output.ToFile? && committed ==>
              && e.subject.file in x.k.w.nodes && x.k.w.nodes[e.subject.file].data == x.image
              && Dressed(x.k.w.nodes[e.subject.file], prev)
    ensures (old(x.cancelled) ==> x.cancelled) && (committed ==> !x.cancelled)
  {
    hide Outside, Around, Holds, Adds, Replacing, AllTame, SelfTame, OwnNames, Outcome, Dressed, Asked, Installed,
        Replaces;
    tr, committed, e := [], false, Examined(|x.k.audit|, Subject(target, "", target), {});
    EarlyOutcome(output, upload, x.image);
    PrintedNothing(x.stdout, Said(output, upload, x.image, x.key));
    var name := if output.ToFile? then Some(output.name) else None;
    var a;
    ghost var f;
    a, err, f := Reserve(x.k, target, name, prev);
    ghost var made, log, v := MadeIn(old(x.k.log), x.k.log, target), x.k.log, x.k.w;
    NoEvent(log, target);
    TameIsCareful(log, log, target, v.mine, {}, x.k.company);
    if a == null {
      e := Examined(|x.k.audit|, e.subject, made);
      WholeRun(old(x.k.log), log, log, target, v.mine, v.mine, x.k.company, {}, []);
      NoneDelivered(old(x.k.log), log, target, old(x.k.w.Entries(target)), v.Entries(target), e.subject.file);
      return Some(Refused), tr, committed, e;
    }
    err, tr, committed, e := ExportReserved(x, a, target, output, upload, prev, old(x.k.log), old(x.k.w), f);
  }

  lemma EarlyOutcome(output: Output, upload: bool, image: Bytes)
    ensures output.ToFile? || upload ==> forall e: Error :: Outcome(Some(e), [], output, upload, image)
    ensures !Replaced([])
  {
    assert |FullTrace(output, upload, image)| >= 3;
  }
}
