/** test/e2e/lib/process.py: the supervisor at work while its tree forks and exits. */
module Supervisor {
  import opened Outcomes
  import opened ProcessTree

  /** A signal sent: whether the number was in use, and whether by a descendant. */
  datatype Sent = Sent(pid: Pid, signal: int, hit: bool, below: bool)

  /** One look at the command: when, the process table that was read, and the stop signal received
      by then, or 0. */
  datatype Look = Look(at: int, seen: Sys, stopped: int)

  /** One scan for descendants, what it read, when it was over, and the signals sent for what it listed. */
  datatype Scan = Scan(root: Node, end: Sys, sent: seq<Sent>)

  /** When a round of signals was over, and the table its reaping left. */
  datatype Mark = Mark(at: int, left: Sys)

  /** The scans of the two stages of a clean-up and the ends of their rounds, when it began, and the table and
      the time between the stages and in the end. */
  datatype Cleaning = Cleaning(since: int, terms: seq<Scan>, termMarks: seq<Mark>, mid: Sys, midNow: int,
                               kills: seq<Scan>, killMarks: seq<Mark>, done: Sys, doneNow: int)

  const INTERRUPT: int := 2
  const KILL: int := 9
  const TERMINATE: int := 15

  class Host {
    const me: Pid
    var sys: Sys
    var now: int
    /** the first stop signal received, or 0 */
    var stopped: int
    /** how many more sleeps until somebody stops a run that has no deadline of its own */
    var patience: nat
    /** how many more processes others will ever start */
    var room: nat
    ghost var sent: seq<Sent>
    ghost var looks: seq<Look>
    /** the command could not be started */
    ghost var unstarted: bool

    ghost predicate Valid()
      reads this
    {
      ProcessTree.Valid(sys, me) && (stopped == 0 || stopped == 2 || stopped == 15)
    }

    /** Anything the others can do, in any order and number. Numbers in `taken` are not reused. */
    method Others(taken: set<Pid>)
      requires Valid()
      modifies this`sys, this`now, this`stopped, this`room
      ensures Valid() && Evolves(old(sys), sys, me) && Ages(old(sys), sys) && now >= old(now)
      ensures |sys.t| + room <= old(|sys.t| + room) && sys.clock + room == old(sys.clock + room)
      ensures (old(stopped) != 0 ==> stopped == old(stopped)) && NotReused(old(sys), sys, taken)
    {
      hide Evolves, Ages, NotReused, Keeps, Run, ProcessTree.Valid;
      var events: seq<Event>, time: nat, signal: int := *, *, *;
      var next := Run(sys, me, events, taken);
      RunDoes(sys, me, events, taken);
      RunDoes(sys, me, [], taken);
      if next.clock <= sys.clock + room {
        room := sys.clock + room - next.clock;
        sys := next;
      }
      if time > 0 { now := now + time; }
      if stopped == 0 && (signal == INTERRUPT || signal == TERMINATE) { stopped := signal; }
    }

    method Sleep()
      requires Valid()
      modifies this`sys, this`now, this`stopped, this`room, this`patience
      ensures Valid() && Evolves(old(sys), sys, me) && now > old(now)
      ensures |sys.t| + room <= old(|sys.t| + room) && (old(stopped) != 0 ==> stopped == old(stopped))
      ensures stopped != 0 || patience < old(patience)
    {
      Others({});
      now := now + 1;
      if patience > 0 {
        patience := patience - 1;
      } else if stopped == 0 {
        stopped := TERMINATE;
      }
    }

    /** waitpid(pid, WNOHANG) on a child: its status when it had exited, and then it is gone. */
    method Poll(pid: Pid) returns (status: Option<int>, ghost seen: Sys)
      requires Valid() && pid in sys.t && sys.t[pid].parent == me
      modifies this`sys, this`now, this`stopped, this`room, this`looks
      ensures Valid() && Keeps(old(sys), sys, me) && now >= old(now)
      ensures (old(stopped) != 0 ==> stopped == old(stopped)) && looks == old(looks) + [Look(now, seen, stopped)]
      ensures ProcessTree.Valid(seen, me) && Evolves(old(sys), seen, me) && Keeps(seen, sys, me) && pid in seen.t
      ensures if status.None? then sys == seen && seen.t[pid].state.Running?
              else seen.t[pid].state == Zombie(status.value)
    {
      Others({});
      seen := sys;
      status := None;
      EvolvesItself(seen, me);
      if sys.t[pid].state.Zombie? {
        status := Some(sys.t[pid].state.code);
        TakeKeeps(old(sys), sys, me, pid);
        TakeKeeps(seen, sys, me, pid);
        Take(pid);
      }
      looks := looks + [Look(now, seen, stopped)];
    }

    /** The same on a number that may no longer be a child. */
    method PollAgain(pid: Pid)
      requires Valid()
      modifies this`sys, this`now, this`stopped, this`room
      ensures Valid() && Keeps(old(sys), sys, me) && now >= old(now)
      ensures old(stopped) != 0 ==> stopped == old(stopped)
    {
      Others({});
      if pid in sys.t && sys.t[pid].parent == me && sys.t[pid].state.Zombie? {
        TakeKeeps(old(sys), sys, me, pid);
        Take(pid);
      }
    }

    /** Popen: one new child, or an error. */
    method Spawn() returns (child: Option<Pid>)
      requires Valid()
      modifies this`sys, this`now, this`stopped, this`room, this`unstarted
      ensures Valid() && Keeps(old(sys), sys, me) && now >= old(now)
      ensures child.Some? ==>
                && child.value in sys.t && sys.t[child.value].parent == me && sys.t[child.value].ours
                && sys.t[child.value].birth >= old(sys.clock)
      ensures child.None? <==> unstarted
      ensures old(stopped) != 0 ==> stopped == old(stopped)
    {
      Others({});
      var c: nat, ok: bool := *, *;
      unstarted := !ok || c <= 0 || c in sys.t;
      if !ok || c <= 0 || c in sys.t { return None; }
      SpawnKeeps(sys, me, c);
      KeepsTransitive(old(sys), sys, Spawned(sys, me, c), me);
      sys := Spawned(sys, me, c);
      child := Some(c);
    }

    /** A zombie child leaves the table. */
    method Take(pid: Pid)
      requires Valid() && pid in sys.t && sys.t[pid].parent == me && sys.t[pid].state.Zombie?
      modifies this`sys
      ensures Valid() && sys == old(sys).(t := old(sys.t) - {pid}) && |sys.t| == old(|sys.t|) - 1
    {
      TakeKeeps(sys, sys, me, pid);
      sys := sys.(t := sys.t - {pid});
      assert old(sys.t).Keys == sys.t.Keys + {pid};
    }

    /** waitpid(-1, WNOHANG): Err when there is no child, Ok(false) when none has exited. */
    method WaitAny() returns (taken: Result<bool, ()>)
      requires Valid()
      modifies this`sys, this`now, this`stopped, this`room
      ensures Valid() && Keeps(old(sys), sys, me) && now >= old(now)
      ensures |sys.t| + room + (if taken == Ok(true) then 1 else 0) <= old(|sys.t| + room)
      ensures taken.Err? ==> NoDescendants(sys, me)
      ensures taken == Ok(false) ==> exists c :: c in sys.t && sys.t[c].parent == me
      ensures old(stopped) != 0 ==> stopped == old(stopped)
    {
      Others({});
      ghost var s := sys;
      var children := Children(sys.t, me);
      if children == {} {
        NoChildNoDescendant(sys, me);
        return Err(());
      }
      if c :| c in children && sys.t[c].state.Zombie? {
        TakeKeeps(old(sys), s, me, c);
        Take(c);
        taken := Ok(true);
      } else {
        ghost var c :| c in children;
        taken := Ok(false);
      }
    }

    /** Lines 33-39. False means that the whole tree is gone. */
    method Reap() returns (more: bool)
      requires Valid()
      modifies this`sys, this`now, this`stopped, this`room
      ensures Valid() && Keeps(old(sys), sys, me) && now >= old(now)
      ensures !more <==> NoDescendants(sys, me)
      ensures old(stopped) != 0 ==> stopped == old(stopped)
    {
      ghost var start := sys;
      while true
        invariant Valid() && Keeps(start, sys, me) && now >= old(now) && (old(stopped) != 0 ==> stopped == old(stopped))
        decreases |sys.t| + room
      {
        ghost var s := sys;
        var taken := WaitAny();
        KeepsTransitive(start, s, sys, me);
        if taken.Err? { return false; }
        if !taken.value {
          ghost var c :| c in sys.t && sys.t[c].parent == me;
          assert Below(sys.t, me, c);
          return true;
        }
      }
    }

    /** Lines 14-22, while others go on: the children of `p` at one moment, and then what is below each of
        them. Numbers that were read are in `taken` and then in `more`. */
    method Descendants(p: Pid, taken: set<Pid>, ghost age: nat) returns (r: seq<Pid>, more: set<Pid>, ghost n: Node)
      requires Valid() && p != 0 && p in taken && (p in sys.t ==> sys.t[p].birth >= age) && age <= sys.clock + room
      modifies this`sys, this`now, this`stopped, this`room
      ensures Valid() && now >= old(now) && (old(stopped) != 0 ==> stopped == old(stopped))
      ensures n.pid == p && ReadBy(n, me, sys) && r == Listing(n.kids) && (r == [] ==> sys == n.at)
      ensures taken <= more && forall q | q in r :: q in more
      ensures NotReused(old(sys), n.at, taken) && NotReused(old(sys), sys, taken)
      ensures Evolves(old(sys), n.at, me) && Ages(old(sys), n.at) && Evolves(n.at, sys, me)
      ensures sys.clock + room == old(sys.clock + room)
      decreases sys.clock + room - age
    {
      hide ProcessTree.Valid, Evolves, Keeps, Ages, NotReused, ReadBy, Pids, Distinct, Listing, AllRead, Later,
          Children;
      ghost var start := sys;
      Others(taken);
      ghost var at := sys;
      EvolvesItself(at, me);
      SelfKept(at, me);
      var children := Children(sys.t, p);
      var todo := children;
      ghost var kids: seq<Node> := [];
      NoneRead(at, me, taken + children);
      r, more := [], taken + children;
      while todo != {}
        invariant Valid() && now >= old(now) && (old(stopped) != 0 ==> stopped == old(stopped))
        invariant sys.clock + room == old(sys.clock + room)
        invariant Evolves(at, sys, me) && Ages(at, sys) && NotReused(at, sys, taken + children)
        invariant taken + children <= more && (forall q | q in r :: q in more)
        invariant todo <= children && Pids(kids) == children - todo && Distinct(kids) && r == Listing(kids)
        invariant AllRead(at, kids, me, sys) && (r == [] ==> sys == at)
      {
        var c :| c in todo;
        ChildIsYounger(start, at, sys, me, p, taken, children, age, c);
        ghost var s, known := sys, more;
        var nested;
        ghost var kid;
        nested, more, kid := Descendants(c, more, at.t[c].birth);
        OneMoreKid(at, s, sys, kids, kid, me, taken, children, known);
        r, kids, todo := r + (nested + [c]), kids + [kid], todo - {c};
      }
      n := Node(p, at, kids);
      AllKidsRead(start, n, me, sys, taken, children);
    }

    method SendTo(pid: Pid, signal: int)
      requires Valid()
      modifies this`sent
      ensures sent == old(sent) + [Sent(pid, signal, pid in sys.t, Below(sys.t, me, pid))]
    {
      sent := sent + [Sent(pid, signal, pid in sys.t, Below(sys.t, me, pid))];
    }

    /** Lines 25-30. Every number the scan listed is signalled, in its order, and nobody else: a number that
        is still in use is still a descendant. */
    method SignalChildren(signal: int) returns (ghost scan: Scan)
      requires Valid()
      modifies this`sys, this`now, this`stopped, this`room, this`sent
      ensures Valid() && Keeps(old(sys), sys, me) && now >= old(now)
      ensures Swept(scan, me, signal) && Keeps(old(sys), scan.root.at, me) && Keeps(scan.end, sys, me)
      ensures sent == old(sent) + scan.sent
      ensures old(stopped) != 0 ==> stopped == old(stopped)
    {
      hide Evolves, Ages, NotReused, ReadBy, Listing, Signals;
      ghost var start := sys;
      SupervisorIsThere(sys, me);
      var pids, read;
      ghost var root;
      pids, read, root := Descendants(me, {me}, 0);
      ghost var end := sys;
      ScannedAreBelow(root, me, start, end);
      ghost var batch := SignalAll(pids, signal);
      KeepsTransitive(start, end, sys, me);
      scan := Scan(root, end, batch);
    }

    method SignalAll(scan: seq<Pid>, signal: int) returns (ghost batch: seq<Sent>)
      requires Valid() && forall q | q in scan && q in sys.t :: Below(sys.t, me, q)
      modifies this`sys, this`now, this`stopped, this`room, this`sent
      ensures Valid() && Keeps(old(sys), sys, me) && now >= old(now)
      ensures sent == old(sent) + batch && Signals(batch, scan, signal)
      ensures old(stopped) != 0 ==> stopped == old(stopped)
    {
      ghost var start := sys;
      var taken := set p | p in scan;
      EvolvesItself(sys, me);
      batch := [];
      for k := 0 to |scan|
        invariant Valid() && Keeps(start, sys, me) && now >= old(now) && (old(stopped) != 0 ==> stopped == old(stopped))
        invariant NotReused(start, sys, taken)
        invariant sent == old(sent) + batch && Signals(batch, scan[..k], signal)
      {
        var pid := scan[k];
        assert pid in scan;
        var one := SignalOne(start, pid, taken, signal);
        ExtendSignals(batch, scan, k, signal, one);
        batch := batch + [one];
      }
      assert scan[..|scan|] == scan;
    }

    method SignalOne(ghost start: Sys, pid: Pid, taken: set<Pid>, signal: int) returns (ghost one: Sent)
      requires Valid() && ProcessTree.Valid(start, me) && Keeps(start, sys, me) && NotReused(start, sys, taken)
      requires pid in taken && (pid in start.t ==> Below(start.t, me, pid))
      modifies this`sys, this`now, this`stopped, this`room, this`sent
      ensures Valid() && Keeps(start, sys, me) && NotReused(start, sys, taken) && now >= old(now)
      ensures sent == old(sent) + [one] && one.pid == pid && one.signal == signal && (one.hit ==> one.below)
      ensures old(stopped) != 0 ==> stopped == old(stopped)
    {
      ghost var s := sys;
      Others(taken);
      KeepsTransitive(start, s, sys, me);
      NotReusedTransitive(start, s, sys, taken);
      one := Sent(pid, signal, pid in sys.t, Below(sys.t, me, pid));
      SendTo(pid, signal);
    }

    /** Lines 66-75: follow the command until it exits, a stop signal arrives or time is up. */
    method Watch(pid: Pid, timeout: int) returns (end: End, ghost run: seq<Look>)
      requires Valid() && pid in sys.t && sys.t[pid].parent == me && sys.t[pid].ours
      modifies this`sys, this`now, this`stopped, this`room, this`looks, this`patience
      ensures Valid() && Keeps(old(sys), sys, me) && now >= old(now) && looks == old(looks) + run
      ensures FollowedBy(run, me, pid, old(sys.t[pid].birth), old(now), timeout, end)
      ensures Keeps(old(sys), Last(run).seen, me) && Keeps(Last(run).seen, sys, me)
      ensures ProcessTree.Valid(Last(run).seen, me) && Last(run).stopped == stopped
    {
      hide Forest;
      ghost var start, birth := sys, sys.t[pid].birth;
      ghost var since := now;
      var deadline := if timeout != 0 then Some(now + timeout) else None;
      var status;
      ghost var seen;
      status, seen := Poll(pid);
      run := [Look(now, seen, stopped)];
      while status.None? && stopped == 0 && (deadline.None? || now < deadline.value)
        invariant Valid() && Keeps(start, sys, me) && Evolves(start, seen, me) && Keeps(seen, sys, me)
        invariant ProcessTree.Valid(seen, me) && pid in seen.t
        invariant if status.None? then sys == seen && seen.t[pid].state.Running?
                  else seen.t[pid].state == Zombie(status.value)
        invariant looks == old(looks) + run && |run| > 0 && Last(run) == Look(now, seen, stopped)
        invariant Timed(run, old(now)) && AllWaiting(run[..|run| - 1], me, pid, birth, Deadline(since, timeout))
        decreases if stopped == 0 then patience + 1 else 0
      {
        ghost var before := run;
        status, seen := Again(start, pid);
        run := before + [Look(now, seen, stopped)];
        OneMoreLook(before, me, pid, birth, Deadline(since, timeout), Last(run), old(now));
      }
      end := if stopped != 0 then Stopped(stopped) else if status.None? then TimedOut else Exited(status.value);
    }

    method Again(ghost start: Sys, pid: Pid) returns (status: Option<int>, ghost seen: Sys)
      requires Valid() && ProcessTree.Valid(start, me) && pid in start.t && start.t[pid].parent == me
               && Evolves(start, sys, me)
      modifies this`sys, this`now, this`stopped, this`room, this`looks, this`patience
      ensures Valid() && Keeps(start, sys, me) && Evolves(start, seen, me) && Keeps(seen, sys, me) && pid in seen.t
      ensures ProcessTree.Valid(seen, me)
      ensures if status.None? then sys == seen && seen.t[pid].state.Running?
              else seen.t[pid].state == Zombie(status.value)
      ensures looks == old(looks) + [Look(now, seen, stopped)] && now > old(now)
      ensures stopped != 0 || (old(stopped) == 0 && patience < old(patience))
    {
      ghost var s0 := sys;
      Sleep();
      ghost var s1 := sys;
      EvolvesTransitive(start, s0, s1, me);
      status, seen := Poll(pid);
      EvolvesTransitive(start, s1, seen, me);
      KeepsTransitive(start, s1, sys, me);
    }

    /** Lines 80-90. Each stage signals exactly the descendants of each of its scans, and there is
        a KILL stage whatever the TERM stage achieved. */
    method Finish(child: Option<Pid>, grace: int) returns (ghost c: Cleaning)
      requires Valid()
      modifies this`sys, this`now, this`stopped, this`room, this`patience, this`sent
      ensures Valid() && Keeps(old(sys), sys, me) && old(now) <= c.midNow <= now
      ensures Cleaned(c, me, old(sys), sys) && sent == old(sent) + Total(c.terms) + Total(c.kills)
      ensures Patient(c, me, grace) && c.since == old(now) && c.done == sys && c.doneNow == now
      ensures old(stopped) != 0 ==> stopped == old(stopped)
    {
      ghost var s0 := sys;
      ghost var terms, termMarks := Rounds(child, TERMINATE, grace);
      ghost var s1, midNow := sys, now;
      ghost var kills, killMarks := Rounds(child, KILL, grace);
      KeepsTransitive(s0, s1, sys, me);
      c := Cleaning(old(now), terms, termMarks, s1, midNow, kills, killMarks, sys, now);
    }

    /** Lines 81-90 for one signal. */
    method Rounds(child: Option<Pid>, signal: int, grace: int) returns (ghost scans: seq<Scan>, ghost marks: seq<Mark>)
      requires Valid()
      modifies this`sys, this`now, this`stopped, this`room, this`patience, this`sent
      ensures Valid() && Keeps(old(sys), sys, me) && now >= old(now)
      ensures |scans| > 0 && AllSwept(scans, me, signal) && Between(scans, me, old(sys), sys)
      ensures sent == old(sent) + Total(scans)
      ensures |marks| == |scans| && Staged(marks, me, old(now), grace, sys, now)
      ensures old(stopped) != 0 ==> stopped == old(stopped)
    {
      hide Swept, Between, AllSwept, Total, Keeps, Evolves, NoDescendants, Going;
      NoMarks(me, now + grace);
      ghost var start := sys;
      NoScans(me, signal, sys);
      var deadline := now + grace;
      scans, marks := [], [];
      while true
        invariant Valid() && Keeps(start, sys, me) && (old(stopped) != 0 ==> stopped == old(stopped))
        invariant AllSwept(scans, me, signal) && Between(scans, me, start, sys) && sent == old(sent) + Total(scans)
        invariant now >= old(now) && |marks| == |scans| && Going(marks, me, deadline) && deadline == old(now) + grace
        decreases deadline - now
      {
        ghost var s, before, log := sys, scans, sent;
        ghost var scan;
        var more;
        more, scan := Round(child, signal);
        scans := before + [scan];
        OneMoreScan(before, scan, me, signal, start, s, sys);
        TotalGrows(old(sent), before, scan);
        KeepsTransitive(start, s, sys, me);
        ghost var earlier := marks;
        marks := earlier + [Mark(now, sys)];
        OneMoreMark(earlier, Mark(now, sys), me, deadline);
        if !more || now >= deadline { break; }
        s := sys;
        Sleep();
        KeepsTransitive(start, s, sys, me);
        BetweenLater(scans, me, signal, start, s, sys);
      }
    }

    method Round(child: Option<Pid>, signal: int) returns (more: bool, ghost scan: Scan)
      requires Valid()
      modifies this`sys, this`now, this`stopped, this`room, this`sent
      ensures Valid() && Keeps(old(sys), sys, me) && now >= old(now)
      ensures Swept(scan, me, signal) && Keeps(old(sys), scan.root.at, me) && Keeps(scan.end, sys, me)
      ensures sent == old(sent) + scan.sent
      ensures !more <==> NoDescendants(sys, me)
      ensures old(stopped) != 0 ==> stopped == old(stopped)
    {
      ghost var s0 := sys;
      scan := SignalChildren(signal);
      ghost var s1 := sys;
      more := PollAndReap(child);
      KeepsTransitive(s0, s1, sys, me);
      KeepsTransitive(scan.end, s1, sys, me);
    }

    /** Lines 84-86. */
    method PollAndReap(child: Option<Pid>) returns (more: bool)
      requires Valid()
      modifies this`sys, this`now, this`stopped, this`room
      ensures Valid() && Keeps(old(sys), sys, me) && now >= old(now)
      ensures !more <==> NoDescendants(sys, me)
      ensures old(stopped) != 0 ==> stopped == old(stopped)
    {
      ghost var s1 := sys;
      EvolvesItself(s1, me);
      if child.Some? { PollAgain(child.value); }
      ghost var s2 := sys;
      more := Reap();
      KeepsTransitive(s1, s2, sys, me);
    }

    /** Lines 42-94, from the moment the subreaper is set. */
    method Supervise(parent: Option<Pid>, timeout: int, grace: int)
      returns (result: Result<int, ()>, ghost course: Course, ghost clean: Option<Cleaning>)
      requires Valid() && looks == []
      modifies this
      ensures Valid() && Keeps(old(sys), sys, me)
      ensures match clean
              case None => course.Orphaned? && sent == old(sent)
              case Some(c) =>
                && Cleaned(c, me, old(sys), sys) && Patient(c, me, grace) && Keeps(c.done, sys, me)
                && sent == old(sent) + Total(c.terms) + Total(c.kills)
      ensures match course
              case Orphaned => result == Ok(143) && parent.Some? && sys.t[me].parent != parent.value
              case StoppedEarly(signal) => signal == stopped != 0 && result == Ok(128 + signal)
              case NotStarted => result.Err? && unstarted
              case Followed(since, pid, birth, end) =>
                && since >= old(now) && birth >= old(sys.clock)
                && FollowedBy(looks, me, pid, birth, since, timeout, end)
                && Keeps(old(sys), Last(looks).seen, me) && Keeps(Last(looks).seen, sys, me)
                && Reports(end, NoDescendants(sys, me), result)
      ensures !course.Followed? ==> looks == []
      ensures old(stopped) != 0 ==> course.Orphaned? || course == StoppedEarly(old(stopped))
      ensures result == Ok(0) <==> course.Followed? && course.end == Exited(0) && NoDescendants(sys, me)
      ensures result == Ok(0) ==> forall p | p in sys.t :: !sys.t[p].ours
    {
      ghost var s0 := sys;
      Others({});
      if parent.Some? && sys.t[me].parent != parent.value {
        result, course, clean := Ok(143), Orphaned, None;
      } else {
        ghost var s1 := sys;
        ghost var c;
        result, course, c := RunCommand(timeout, grace);
        KeepsTransitive(s0, s1, sys, me);
        CleanedEarlier(c, me, s0, s1, sys);
        if course.Followed? { KeepsTransitive(s0, s1, Last(looks).seen, me); }
        clean := Some(c);
      }
    }

    /** Lines 60-94. */
    method RunCommand(timeout: int, grace: int)
      returns (result: Result<int, ()>, ghost course: Course, ghost c: Cleaning)
      requires Valid() && looks == []
      modifies this
      ensures Valid() && Keeps(old(sys), sys, me)
      ensures Cleaned(c, me, old(sys), sys) && sent == old(sent) + Total(c.terms) + Total(c.kills)
      ensures Patient(c, me, grace) && Keeps(c.done, sys, me)
      ensures old(stopped) != 0 ==> course == StoppedEarly(old(stopped))
      ensures match course
              case Orphaned => false
              case StoppedEarly(signal) => signal == stopped != 0 && result == Ok(128 + signal)
              case NotStarted => result.Err? && unstarted
              case Followed(since, pid, birth, end) =>
                && since >= old(now) && birth >= old(sys.clock)
                && FollowedBy(looks, me, pid, birth, since, timeout, end)
                && Keeps(old(sys), Last(looks).seen, me) && Keeps(Last(looks).seen, sys, me)
                && Reports(end, NoDescendants(sys, me), result)
      ensures !course.Followed? ==> looks == []
      ensures result == Ok(0) <==> course.Followed? && course.end == Exited(0) && NoDescendants(sys, me)
      ensures result == Ok(0) ==> forall p | p in sys.t :: !sys.t[p].ours
    {
      hide Keeps, Cleaned, NoDescendants, Forest;
      ghost var s1 := sys;
      var child, code;
      child, code, course := Follow(timeout);
      ghost var s2 := sys;
      var left;
      left, c := Cleanup(child, grace);
      KeepsTransitive(s1, s2, sys, me);
      CleanedEarlier(c, me, s1, s2, sys);
      if course.Followed? { KeepsTransitive(Last(looks).seen, s2, sys, me); }
      if !left { TreeGone(sys, me); }
      result := if code.None? then Err(()) else Ok(if left && child.Some? && code.value == 0 then 1 else code.value);
    }

    /** Lines 60-75: start the command and follow it, or not. */
    method Follow(timeout: int) returns (child: Option<Pid>, code: Option<int>, ghost course: Course)
      requires Valid() && looks == []
      modifies this`sys, this`now, this`stopped, this`room, this`looks, this`patience, this`unstarted
      ensures Valid() && Keeps(old(sys), sys, me) && now >= old(now)
      ensures code == Some(0) ==> course.Followed? && course.end == Exited(0)
      ensures old(stopped) != 0 ==> course == StoppedEarly(old(stopped))
      ensures match course
              case Orphaned => false
              case StoppedEarly(signal) => signal == stopped != 0 && code == Some(128 + signal) && child.None?
              case NotStarted => code.None? && child.None? && unstarted
              case Followed(since, pid, birth, end) =>
                && since >= old(now) && birth >= old(sys.clock) && child.Some? && code.Some?
                && Reports(end, true, Ok(code.value))
                && FollowedBy(looks, me, pid, birth, since, timeout, end)
                && ProcessTree.Valid(Last(looks).seen, me)
                && Keeps(old(sys), Last(looks).seen, me) && Keeps(Last(looks).seen, sys, me)
      ensures !course.Followed? ==> looks == []
    {
      if stopped != 0 { return None, Some(128 + stopped), StoppedEarly(stopped); }
      ghost var s1 := sys;
      child := Spawn();
      if child.None? { return None, None, NotStarted; }
      ghost var s2, since, birth := sys, now, sys.t[child.value].birth;
      var end;
      ghost var run;
      end, run := Watch(child.value, timeout);
      KeepsTransitive(s1, s2, sys, me);
      KeepsTransitive(s1, s2, Last(run).seen, me);
      code, course := Some(Status(end)), Followed(since, child.value, birth, end);
      assert looks == run;
    }

    /** Lines 80-91: stop what is left, and see whether anything is. */
    method Cleanup(child: Option<Pid>, grace: int) returns (left: bool, ghost c: Cleaning)
      requires Valid()
      modifies this`sys, this`now, this`stopped, this`room, this`patience, this`sent
      ensures Valid() && Keeps(old(sys), sys, me) && now >= old(now)
      ensures Cleaned(c, me, old(sys), sys) && sent == old(sent) + Total(c.terms) + Total(c.kills)
      ensures Patient(c, me, grace) && c.since == old(now) && c.doneNow <= now && Keeps(c.done, sys, me)
      ensures !left <==> NoDescendants(sys, me)
      ensures old(stopped) != 0 ==> stopped == old(stopped)
    {
      hide Patient, Evolves, Ages, NotReused, ReadBy, Listing, Cleaned, NoDescendants, Keeps;
      ghost var s0 := sys;
      c := Finish(child, grace);
      ghost var s1 := sys;
      SupervisorIsThere(sys, me);
      var listed, read;
      ghost var root;
      listed, read, root := Descendants(me, {me}, 0);
      ScannedAreBelow(root, me, s1, sys);
      KeepsTransitive(s0, s1, sys, me);
      CleanedLater(c, me, s0, s1, sys);
      left := listed != [];
      LastScan(root, me, sys);
    }
  }

  ghost function Last<T>(s: seq<T>): T
    requires s != []
  {
    s[|s| - 1]
  }

  ghost function Deadline(since: int, timeout: int): Option<int> {
    if timeout != 0 then Some(since + timeout) else None
  }

  /** The look shows the command that was started. */
  ghost predicate Shows(look: Look, me: Pid, pid: Pid, birth: nat) {
    pid in look.seen.t && look.seen.t[pid].parent == me && look.seen.t[pid].birth == birth && look.seen.t[pid].ours
  }

  /** and it was running, no stop signal had come, and there was time. */
  ghost predicate Waiting(look: Look, me: Pid, pid: Pid, birth: nat, deadline: Option<int>) {
    && Shows(look, me, pid, birth) && look.seen.t[pid].state.Running? && look.stopped == 0
    && (deadline.Some? ==> look.at < deadline.value)
  }

  /** or one of them no longer held, a stop signal before an exit and an exit before the deadline. */
  ghost predicate Decided(look: Look, me: Pid, pid: Pid, birth: nat, deadline: Option<int>, end: End) {
    && Shows(look, me, pid, birth)
    && match end
       case Stopped(signal) => signal == look.stopped != 0
       case Exited(code) => look.stopped == 0 && look.seen.t[pid].state == Zombie(code)
       case TimedOut =>
           look.stopped == 0 && look.seen.t[pid].state.Running? && deadline.Some? && look.at >= deadline.value
  }

  ghost predicate AllWaiting(run: seq<Look>, me: Pid, pid: Pid, birth: nat, deadline: Option<int>) {
    forall k | 0 <= k < |run| :: Waiting(run[k], me, pid, birth, deadline)
  }

  /** The looks come one after the other. */
  ghost predicate Timed(run: seq<Look>, since: int) {
    && (forall k | 0 <= k < |run| :: run[k].at >= since)
    && (forall j, k | 0 <= j < k < |run| :: run[j].at < run[k].at)
  }

  /** The last look decided, and none before it. */
  ghost predicate FollowedBy(run: seq<Look>, me: Pid, pid: Pid, birth: nat, since: int, timeout: int, end: End) {
    && run != [] && Timed(run, since)
    && AllWaiting(run[..|run| - 1], me, pid, birth, Deadline(since, timeout))
    && Decided(Last(run), me, pid, birth, Deadline(since, timeout), end)
  }

  lemma OneMoreLook(before: seq<Look>, me: Pid, pid: Pid, birth: nat, deadline: Option<int>, look: Look, since: int)
    requires before != [] && Timed(before, since) && AllWaiting(before[..|before| - 1], me, pid, birth, deadline)
    requires Waiting(Last(before), me, pid, birth, deadline) && look.at > Last(before).at
    ensures var run := before + [look]; Timed(run, since) && AllWaiting(run[..|run| - 1], me, pid, birth, deadline)
  {
    assert (before + [look])[..|before|] == before;
    assert before == before[..|before| - 1] + [Last(before)];
  }

  // ---- what the loop concludes, by time --------------------------------------------------

  /** When the command exits and when a stop signal comes, if they do. */
  datatype Fate = Fate(exitAt: Option<int>, code: int, stopAt: Option<int>, signal: int)

  ghost predicate By(when: Option<int>, at: int) { when.Some? && when.value <= at }

  /** The end and the time of the first look that decides, given the times of the looks. */
  ghost function Verdict(fate: Fate, deadline: Option<int>, times: seq<int>): Option<(End, int)> {
    if times == [] then None
    else if By(fate.stopAt, times[0]) then Some((Stopped(fate.signal), times[0]))
    else if By(fate.exitAt, times[0]) then Some((Exited(fate.code), times[0]))
    else if By(deadline, times[0]) then Some((TimedOut, times[0]))
    else Verdict(fate, deadline, times[1..])
  }

  ghost function Times(run: seq<Look>): (r: seq<int>)
    ensures |r| == |run|
  {
    seq(|run|, k requires 0 <= k < |run| => run[k].at)
  }

  /** The looks showed what had happened by then. */
  ghost predicate Agrees(run: seq<Look>, pid: Pid, fate: Fate) {
    forall k | 0 <= k < |run| :: Reflects(run[k], pid, fate)
  }

  ghost predicate Reflects(look: Look, pid: Pid, fate: Fate) {
    && pid in look.seen.t && look.stopped == (if By(fate.stopAt, look.at) then fate.signal else 0)
    && look.seen.t[pid].state == (if By(fate.exitAt, look.at) then Zombie(fate.code) else Running)
  }

  lemma {:induction false} FirstDecides(fate: Fate, deadline: Option<int>, times: seq<int>)
    requires times != []
    requires forall k | 0 <= k < |times| - 1 ::
              !By(fate.stopAt, times[k]) && !By(fate.exitAt, times[k]) && !By(deadline, times[k])
    ensures Verdict(fate, deadline, times) == Verdict(fate, deadline, [Last(times)])
  {
    if |times| == 1 {
      assert times == [Last(times)];
    } else {
      FirstDecides(fate, deadline, times[1..]);
    }
  }

  /** A run that was followed ends as its looks and the fate of the command say. */
  lemma FollowedIsVerdict(run: seq<Look>, me: Pid, pid: Pid, birth: nat, since: int, timeout: int, end: End, fate: Fate)
    requires FollowedBy(run, me, pid, birth, since, timeout, end) && Agrees(run, pid, fate) && fate.signal != 0
    ensures Verdict(fate, Deadline(since, timeout), Times(run)) == Some((end, Last(run).at))
  {
    var times := Times(run);
    forall k | 0 <= k < |times| - 1
      ensures !By(fate.stopAt, times[k]) && !By(fate.exitAt, times[k]) && !By(Deadline(since, timeout), times[k])
    {
      assert run[..|run| - 1][k] == run[k] && Waiting(run[k], me, pid, birth, Deadline(since, timeout));
      assert Reflects(run[k], pid, fate);
    }
    FirstDecides(fate, Deadline(since, timeout), times);
    assert Reflects(Last(run), pid, fate);
  }

  /** The look `k` is the first one at or after the deadline, and the first one at or after the
      exit. */
  ghost predicate LateAt(fate: Fate, deadline: int, times: seq<int>, k: nat)
    requires k < |times|
  {
    && deadline <= times[k] && By(fate.exitAt, times[k]) && !By(fate.stopAt, times[k])
    && (k > 0 ==> times[k - 1] < deadline && !By(fate.exitAt, times[k - 1]))
  }

  ghost predicate Increasing(times: seq<int>) {
    forall j, k | 0 <= j < k < |times| :: times[j] < times[k]
  }

  ghost predicate LateExit(fate: Fate, deadline: int, times: seq<int>) {
    var v := Verdict(fate, Some(deadline), times);
    v.Some? && v.value.0.Exited? && v.value.1 >= deadline
  }

  /** An exit is reported at or after the deadline exactly when, before any stop signal was seen, some
      look came after both and none between the earlier and the later of the two. */
  lemma {:induction false} LateExitIff(fate: Fate, deadline: int, times: seq<int>)
    requires Increasing(times)
    ensures LateExit(fate, deadline, times) <==> exists k :: 0 <= k < |times| && LateAt(fate, deadline, times, k)
  {
    if times != [] {
      LateExitIff(fate, deadline, times[1..]);
      if By(fate.stopAt, times[0]) || By(fate.exitAt, times[0]) || deadline <= times[0] {
        if LateExit(fate, deadline, times) { assert LateAt(fate, deadline, times, 0); }
      } else {
        LateLater(fate, deadline, times);
      }
    }
  }

  lemma LateLater(fate: Fate, deadline: int, times: seq<int>)
    requires times != [] && Increasing(times) && !By(fate.exitAt, times[0]) && times[0] < deadline
    ensures (exists k :: 0 <= k < |times[1..]| && LateAt(fate, deadline, times[1..], k)) <==>
            exists k :: 0 <= k < |times| && LateAt(fate, deadline, times, k)
  {
    forall k | 0 <= k < |times[1..]|
      ensures LateAt(fate, deadline, times[1..], k) <==> LateAt(fate, deadline, times, k + 1)
    {
      assert k > 0 ==> times[1..][k - 1] == times[k];
    }
    if k :| 0 <= k < |times| && LateAt(fate, deadline, times, k) {
      assert LateAt(fate, deadline, times[1..], k - 1);
    }
  }

  /** Such a run: a look at 0, then, later than asked for, one at 30. The command exited with 0 at
      25, and had 20. */
  lemma LateRun() returns (run: seq<Look>)
    ensures |run| == 2 && Valid(run[0].seen, 1) && Enabled(run[0].seen, 1, Event.Exit(2, 0), {})
    ensures run[1].seen == Apply(run[0].seen, Event.Exit(2, 0)) && Agrees(run, 2, Fate(Some(25), 0, None, 15))
    ensures FollowedBy(run, 1, 2, 1, 0, 20, Exited(0)) && Last(run).at >= 0 + 20 && Status(Exited(0)) == 0
  {
    var s := Sys(map[1 := Proc(0, 0, Running, true, false), 2 := Proc(1, 1, Running, false, true)], 2);
    assert Forest(s.t) && Below(s.t, 1, 2);
    var u := Apply(s, Event.Exit(2, 0));
    run := [Look(0, s, 0), Look(30, u, 0)];
    assert run[..|run| - 1] == [run[0]];
  }

  // ---- the scans of a clean-up -----------------------------------------------------------

  /** Exactly what the scan listed was sent the signal, in its order, and nobody else was hit. */
  ghost predicate Swept(scan: Scan, me: Pid, signal: int) {
    && scan.root.pid == me && ReadBy(scan.root, me, scan.end) && Evolves(scan.root.at, scan.end, me)
    && Valid(scan.end, me) && Signals(scan.sent, Listing(scan.root.kids), signal)
  }

  ghost predicate AllSwept(scans: seq<Scan>, me: Pid, signal: int) {
    forall k | 0 <= k < |scans| :: Swept(scans[k], me, signal)
  }

  /** The scans were made between these two moments. */
  ghost predicate Between(scans: seq<Scan>, me: Pid, s: Sys, u: Sys) {
    forall k | 0 <= k < |scans| :: Keeps(s, scans[k].root.at, me) && Keeps(scans[k].end, u, me)
  }

  ghost function Total(scans: seq<Scan>): seq<Sent> {
    if scans == [] then [] else Total(scans[..|scans| - 1]) + Last(scans).sent
  }

  lemma TotalGrows(was: seq<Sent>, before: seq<Scan>, scan: Scan)
    ensures was + Total(before + [scan]) == was + Total(before) + scan.sent
  {
    assert (before + [scan])[..|before|] == before;
  }

  lemma NoScans(me: Pid, signal: int, s: Sys)
    requires Valid(s, me)
    ensures AllSwept([], me, signal) && Between([], me, s, s) && Total([]) == [] && Keeps(s, s, me)
  {
  }

  ghost predicate NoneLeft(s: Sys, me: Pid) { Valid(s, me) && NoDescendants(s, me) }

  ghost predicate SomeLeft(s: Sys, me: Pid) { Valid(s, me) && !NoDescendants(s, me) }

  /** The rounds of a stage go on while something is left and the grace time is not over, and no longer. */
  ghost predicate Staged(marks: seq<Mark>, me: Pid, since: int, grace: int, u: Sys, end: int) {
    && marks != [] && Last(marks) == Mark(end, u) && Going(marks[..|marks| - 1], me, since + grace)
    && (NoneLeft(u, me) || end >= since + grace)
  }

  ghost predicate Going(marks: seq<Mark>, me: Pid, deadline: int) {
    forall k | 0 <= k < |marks| :: marks[k].at < deadline && SomeLeft(marks[k].left, me)
  }

  lemma NoMarks(me: Pid, deadline: int)
    ensures Going([], me, deadline)
  {
  }

  lemma OneMoreMark(before: seq<Mark>, mark: Mark, me: Pid, deadline: int)
    requires Going(before, me, deadline)
    ensures (before + [mark])[..|before|] == before
    ensures mark.at < deadline && SomeLeft(mark.left, me) ==> Going(before + [mark], me, deadline)
  {
  }

  /** Both stages take the grace time they are given, the second from the end of the first. */
  ghost predicate Patient(c: Cleaning, me: Pid, grace: int) {
    && |c.termMarks| == |c.terms| && Staged(c.termMarks, me, c.since, grace, c.mid, c.midNow)
    && |c.killMarks| == |c.kills| && Staged(c.killMarks, me, c.midNow, grace, c.done, c.doneNow)
  }

  ghost predicate Cleaned(c: Cleaning, me: Pid, s: Sys, u: Sys) {
    && c.terms != [] && c.kills != [] && AllSwept(c.terms, me, 15) && AllSwept(c.kills, me, 9)
    && Valid(c.mid, me) && Between(c.terms, me, s, c.mid) && Between(c.kills, me, c.mid, u)
  }

  lemma BetweenLater(scans: seq<Scan>, me: Pid, signal: int, s: Sys, m: Sys, u: Sys)
    requires AllSwept(scans, me, signal) && Between(scans, me, s, m) && Keeps(m, u, me)
    ensures Between(scans, me, s, u)
  {
    forall k | 0 <= k < |scans| ensures Keeps(scans[k].end, u, me) {
      assert Swept(scans[k], me, signal);
      KeepsTransitive(scans[k].end, m, u, me);
    }
  }

  lemma OneMoreScan(before: seq<Scan>, scan: Scan, me: Pid, signal: int, s: Sys, m: Sys, u: Sys)
    requires Valid(s, me) && AllSwept(before, me, signal) && Between(before, me, s, m) && Swept(scan, me, signal)
    requires Keeps(s, m, me) && Keeps(m, scan.root.at, me) && Keeps(scan.end, u, me) && Keeps(m, u, me)
    ensures AllSwept(before + [scan], me, signal) && Between(before + [scan], me, s, u)
  {
    hide Swept, Keeps, ProcessTree.Valid;
    BetweenLater(before, me, signal, s, m, u);
    KeepsTransitive(s, m, scan.root.at, me);
  }

  lemma CleanedLater(c: Cleaning, me: Pid, s: Sys, m: Sys, u: Sys)
    requires Cleaned(c, me, s, m) && Keeps(m, u, me)
    ensures Cleaned(c, me, s, u)
  {
    BetweenLater(c.kills, me, KILL, c.mid, m, u);
  }

  lemma CleanedEarlier(c: Cleaning, me: Pid, s: Sys, m: Sys, u: Sys)
    requires Valid(s, me) && Keeps(s, m, me) && Cleaned(c, me, m, u)
    ensures Cleaned(c, me, s, u)
  {
    forall k | 0 <= k < |c.terms| ensures Keeps(s, c.terms[k].root.at, me) {
      KeepsTransitive(s, m, c.terms[k].root.at, me);
    }
  }

  ghost predicate WasSent(sent: seq<Sent>, q: Pid, signal: int) {
    exists k :: 0 <= k < |sent| && sent[k].pid == q && sent[k].signal == signal
  }

  lemma ListedWereSent(scan: Scan, me: Pid, signal: int, q: Pid)
    requires Swept(scan, me, signal)
    ensures WasSent(scan.sent, q, signal) <==> q in Listing(scan.root.kids)
  {
    if q in Listing(scan.root.kids) {
      var k :| 0 <= k < |Listing(scan.root.kids)| && Listing(scan.root.kids)[k] == q;
      assert scan.sent[k].pid == q;
    }
  }

  /** Whoever was below the supervisor after the TERM stage and is still there in the end was below it in
      every scan of the KILL stage, and was sent KILL by each that began when it was a child of the supervisor
      or during which neither it nor an ancestor of it got another parent. */
  lemma LeftAreKilled(c: Cleaning, me: Pid, s: Sys, u: Sys, q: Pid, k: nat)
    requires Cleaned(c, me, s, u) && Below(c.mid.t, me, q) && k < |c.kills|
    requires Forest(u.t) && q in u.t && u.t[q].birth == c.mid.t[q].birth
    ensures var scan := c.kills[k];
            && Forest(scan.root.at.t) && Below(scan.root.at.t, me, q)
            && (WasSent(scan.sent, q, 9) <==> q in Listing(scan.root.kids))
            && (Unmoved(scan.root.at, scan.end, me, q) || scan.root.at.t[q].parent == me ==>
                 WasSent(scan.sent, q, 9))
  {
    var scan := c.kills[k];
    var at, end := scan.root.at, scan.end;
    assert Swept(scan, me, 9) && Keeps(c.mid, at, me) && Keeps(end, u, me);
    KeepsTransitive(at, end, u, me);
    SameBetween(c.mid, at, u, me, q);
    SameBetween(at, end, u, me, q);
    if at.t[q].parent == me { assert Unmoved(at, end, me, q); }
    if Unmoved(at, end, me, q) { UnmovedAreListed(scan.root, me, end, q); }
    ListedWereSent(scan, me, 9, q);
  }

  lemma TwoKeeps(s: Sys, u: Sys, me: Pid)
    requires Valid(s, me) && Valid(u, me) && Evolves(s, u, me)
    ensures Keeps(s, s, me) && Keeps(u, u, me) && Keeps(s, u, me)
  {
    SelfKept(s, me);
    SelfKept(u, me);
  }

  lemma ThirdStays()
    ensures 3 in ThreeInLine().t && 3 in MiddleGone().t && MiddleGone().t[3].state.Running?
    ensures MiddleGone().t[3].birth == ThreeInLine().t[3].birth
  {
  }

  /** Without that it can be left without: a KILL stage of one scan, in which the parent of 3 exits. */
  lemma MissedByKill() returns (c: Cleaning, s: Sys, u: Sys)
    ensures Cleaned(c, 1, s, u) && Below(c.mid.t, 1, 3) && |c.kills| == 1
    ensures 3 in u.t && u.t[3].birth == c.mid.t[3].birth && u.t[3].state.Running? && !WasSent(c.kills[0].sent, 3, 9)
  {
    hide ThreeInLine, MiddleGone, ReadBy, Evolves, Listing, Keeps, ProcessTree.Valid, Below, Forest;
    var still := ReadInLine();
    var missed := MissedByScan();
    s, u := ThreeInLine(), MiddleGone();
    LineValid();
    MiddleKept();
    ThirdStays();
    EvolvesItself(s, 1);
    TwoKeeps(s, u, 1);
    c := Cleaning(0, [Scan(still, s, [Sent(3, 15, true, true), Sent(2, 15, true, true)])], [Mark(0, s)], s, 0,
                  [Scan(missed, u, [Sent(2, 9, true, true)])], [Mark(0, u)], u, 0);
  }

  /** All signals of the clean-up: TERM before KILL, and only descendants hit. */
  lemma CleaningOrder(c: Cleaning, me: Pid, s: Sys, u: Sys)
    requires Cleaned(c, me, s, u)
    ensures TermThenKill(Total(c.terms) + Total(c.kills)) && OnlyBelow(Total(c.terms) + Total(c.kills))
  {
    TotalOf(c.terms, me, 15);
    TotalOf(c.kills, me, 9);
    Ordered(Total(c.terms), Total(c.kills));
  }

  lemma Ordered(first: seq<Sent>, second: seq<Sent>)
    requires forall x | x in first :: x.signal == 15 && (x.hit ==> x.below)
    requires forall x | x in second :: x.signal == 9 && (x.hit ==> x.below)
    ensures TermThenKill(first + second) && OnlyBelow(first + second)
  {
    assert forall k | 0 <= k < |first + second| :: (first + second)[k] in if k < |first| then first else second;
  }

  lemma {:induction false} TotalOf(scans: seq<Scan>, me: Pid, signal: int)
    requires AllSwept(scans, me, signal)
    ensures forall x | x in Total(scans) :: x.signal == signal && (x.hit ==> x.below)
  {
    if scans != [] {
      TotalOf(scans[..|scans| - 1], me, signal);
      assert Swept(Last(scans), me, signal);
    }
  }

  /** Without descendants of the supervisor nothing started under the command is left. */
  lemma TreeGone(s: Sys, me: Pid)
    requires Valid(s, me) && NoDescendants(s, me)
    ensures forall p | p in s.t :: !s.t[p].ours
  {
  }

  datatype End = Exited(code: int) | Stopped(signal: int) | TimedOut

  /** How a run went; `since` is when the command had been started, as `pid`. */
  datatype Course = Orphaned | StoppedEarly(signal: int) | NotStarted
                  | Followed(since: int, pid: Pid, birth: nat, end: End)

  /** What a run that was followed reports: the exit status of the command, or 128 and the signal that killed
      it, which Popen gives as a negative code, or 128 and the stop signal, or 124; and 1 for a success that
      left something behind. */
  ghost predicate Reports(end: End, gone: bool, result: Result<int, ()>) {
    match end
    case Exited(code) =>
      && (code > 0 ==> result == Ok(code))
      && (code == 0 ==> result == Ok(if gone then 0 else 1))
      && (code < 0 ==> result == Ok(128 + -code))
    case Stopped(signal) => result == Ok(128 + signal) && (signal == 2 || signal == 15)
    case TimedOut => result == Ok(124)
  }

  /** Lines 69-75. */
  function Status(end: End): int {
    match end
    case Exited(code) => if code >= 0 then code else 128 - code
    case Stopped(signal) => 128 + signal
    case TimedOut => 124
  }

  ghost predicate TermThenKill(batch: seq<Sent>) {
    && (forall k | 0 <= k < |batch| :: batch[k].signal == 15 || batch[k].signal == 9)
    && (forall j, k | 0 <= j < k < |batch| :: batch[j].signal == 9 ==> batch[k].signal == 9)
  }

  ghost predicate OnlyBelow(batch: seq<Sent>) {
    forall k | 0 <= k < |batch| :: batch[k].hit ==> batch[k].below
  }

  function Spawned(s: Sys, me: Pid, c: Pid): Sys {
    Sys(s.t[c := Proc(me, s.clock, Running, false, true)], s.clock + 1)
  }

  lemma SpawnKeeps(s: Sys, me: Pid, c: Pid)
    requires Valid(s, me) && c != 0 && c !in s.t
    ensures Valid(Spawned(s, me, c), me) && Keeps(s, Spawned(s, me, c), me)
  {
    var u := Spawned(s, me, c);
    assert Forest(u.t);
    forall q | Below(s.t, me, q)
      ensures Below(u.t, me, q)
    {
      SpawnBelow(s, me, c, q);
    }
  }

  lemma {:induction false} SpawnBelow(s: Sys, me: Pid, c: Pid, q: Pid)
    requires Valid(s, me) && c != 0 && c !in s.t && Forest(Spawned(s, me, c).t) && Below(s.t, me, q)
    ensures Below(Spawned(s, me, c).t, me, q)
    decreases s.t[q].birth
  {
    if s.t[q].parent != me { SpawnBelow(s, me, c, s.t[q].parent); }
  }

  /** A scan decides whether anything is left: its first reading alone does, and a child of the supervisor
      stays one until it is reaped. */
  lemma LastScan(root: Node, me: Pid, end: Sys)
    requires ReadBy(root, me, end) && root.pid == me && Evolves(root.at, end, me) && Valid(end, me)
    requires Listing(root.kids) == [] ==> end == root.at
    ensures Listing(root.kids) == [] <==> NoDescendants(end, me)
  {
    EmptyScan(root, me, end);
    if Listing(root.kids) != [] {
      NoChildNoDescendant(root.at, me);
      var c :| c in Children(root.at.t, me);
      assert StaysChild(root.at.t[c], end, me, c);
      assert Below(end.t, me, c);
    }
  }

  lemma RunDoes(s: Sys, me: Pid, events: seq<Event>, taken: set<Pid>)
    requires Valid(s, me)
    ensures var u := Run(s, me, events, taken);
            && Evolves(s, u, me) && Ages(s, u) && NotReused(s, u, taken) && (events == [] ==> u == s)
            && u.clock >= s.clock && |u.t| + s.clock <= |s.t| + u.clock
  {
    RunEvolves(s, me, events, taken);
    RunAges(s, me, events, taken);
    RunGrows(s, me, events, taken);
  }

  lemma SupervisorIsThere(s: Sys, me: Pid)
    requires Valid(s, me)
    ensures me != 0 && me in s.t
  {
  }

  lemma ScannedAreBelow(root: Node, me: Pid, start: Sys, end: Sys)
    requires ReadBy(root, me, end) && root.pid == me != 0 && Valid(start, me) && Valid(end, me)
    requires Evolves(start, root.at, me) && Evolves(root.at, end, me)
    ensures Keeps(start, end, me) && Keeps(start, root.at, me)
    ensures forall q | q in Listing(root.kids) && q in end.t :: Below(end.t, me, q)
  {
    EvolvesTransitive(start, root.at, end, me);
    forall q | q in Listing(root.kids) && q in end.t ensures Below(end.t, me, q) {
      ListedAreBelow(root, me, end, q);
    }
  }

  ghost predicate AllRead(at: Sys, kids: seq<Node>, me: Pid, end: Sys) {
    forall i | 0 <= i < |kids| :: Later(at, kids[i], me) && ReadBy(kids[i], me, end)
  }

  lemma NoneRead(at: Sys, me: Pid, taken: set<Pid>)
    ensures Pids([]) == {} && Distinct([]) && Listing([]) == [] && AllRead(at, [], me, at) && NotReused(at, at, taken)
  {
  }

  lemma ChildIsYounger(s: Sys, at: Sys, u: Sys, me: Pid, p: Pid, taken: set<Pid>, children: set<Pid>, age: nat, c: Pid)
    requires Valid(at, me) && Evolves(at, u, me) && p != 0 && p in taken && (p in s.t ==> s.t[p].birth >= age)
    requires NotReused(s, at, taken) && NotReused(at, u, taken + children)
    requires children == Children(at.t, p) && c in children
    ensures c != 0 && c in at.t && age < at.t[c].birth < at.clock <= u.clock
    ensures c in u.t ==> u.t[c].birth >= at.t[c].birth
  {
  }

  lemma AllKidsRead(s: Sys, n: Node, me: Pid, end: Sys, taken: set<Pid>, children: set<Pid>)
    requires Valid(n.at, me) && Evolves(n.at, end, me) && Ages(n.at, end) && NotReused(s, n.at, taken)
    requires NotReused(n.at, end, taken + children) && children == Children(n.at.t, n.pid)
    requires Pids(n.kids) == children && Distinct(n.kids) && AllRead(n.at, n.kids, me, end)
    ensures ReadBy(n, me, end) && NotReused(s, end, taken)
  {
  }

  /** One more child was read, from the moment `s` to the moment `u`. */
  lemma OneMoreKid(at: Sys, s: Sys, u: Sys, kids: seq<Node>, kid: Node, me: Pid, taken: set<Pid>, children: set<Pid>,
      known: set<Pid>)
    requires Valid(at, me) && Valid(s, me) && Valid(u, me) && Evolves(at, s, me) && Ages(at, s)
    requires NotReused(at, s, taken + children) && taken + children <= known && kid.pid in children
    requires kid.pid !in Pids(kids) && Distinct(kids) && AllRead(at, kids, me, s)
    requires forall q | q in Listing(kids) :: q in known
    requires Evolves(s, kid.at, me) && Ages(s, kid.at) && Evolves(kid.at, u, me) && ReadBy(kid, me, u)
    requires NotReused(s, kid.at, known) && NotReused(s, u, known)
    ensures Evolves(at, u, me) && Ages(at, u) && NotReused(at, u, taken + children)
    ensures AllRead(at, kids + [kid], me, u) && Distinct(kids + [kid]) && Pids(kids + [kid]) == Pids(kids) + {kid.pid}
    ensures Listing(kids + [kid]) == Listing(kids) + (Listing(kid.kids) + [kid.pid])
  {
    EvolvesTransitive(s, kid.at, u, me);
    AgesTransitive(s, kid.at, u, me);
    EvolvesTransitive(at, s, u, me);
    AgesTransitive(at, s, u, me);
    KeepsTransitive(at, s, kid.at, me);
    AgesTransitive(at, s, kid.at, me);
    assert Later(at, kid, me);
    forall i | 0 <= i < |kids| ensures ReadBy(kids[i], me, u) {
      ListingHas(kids, i);
      ReadByLater(kids[i], me, s, u, known);
    }
    KidAdded(kids, kid);
  }

  lemma KidAdded(kids: seq<Node>, kid: Node)
    ensures Listing(kids + [kid]) == Listing(kids) + (Listing(kid.kids) + [kid.pid])
    ensures Pids(kids + [kid]) == Pids(kids) + {kid.pid}
    ensures Distinct(kids) && kid.pid !in Pids(kids) ==> Distinct(kids + [kid])
  {
    var all := kids + [kid];
    assert all[..|all| - 1] == kids;
    assert forall i | 0 <= i < |kids| :: kids[i].pid in Pids(kids);
    assert forall i | 0 <= i < |kids| :: all[i] == kids[i];
    assert all[|kids|] == kid;
  }

  lemma ExtendSignals(batch: seq<Sent>, scan: seq<Pid>, k: nat, signal: int, one: Sent)
    requires k < |scan| && Signals(batch, scan[..k], signal) && one.pid == scan[k] && one.signal == signal
             && (one.hit ==> one.below)
    ensures Signals(batch + [one], scan[..k + 1], signal)
  {
    assert scan[..k + 1] == scan[..k] + [scan[k]];
  }

  /** One signal for each number of the scan, in its order; where the number was in use it was
      a descendant's. */
  ghost predicate Signals(batch: seq<Sent>, scan: seq<Pid>, signal: int) {
    |batch| == |scan| && forall k | 0 <= k < |scan| ::
        batch[k].pid == scan[k] && batch[k].signal == signal && (batch[k].hit ==> batch[k].below)
  }

  lemma EvolvesItself(s: Sys, me: Pid)
    requires Valid(s, me)
    ensures Evolves(s, s, me)
  {
  }

  lemma TakeKeeps(s: Sys, m: Sys, me: Pid, c: Pid)
    requires Valid(s, me) && Valid(m, me) && c in m.t && m.t[c].state.Zombie? && m.t[c].parent == me
    ensures Valid(m.(t := m.t - {c}), me) && (Keeps(s, m, me) ==> Keeps(s, m.(t := m.t - {c}), me))
  {
    ZombieForest(m.t, c);
    forall q | q in m.t - {c}
      ensures (m.t - {c})[q] == m.t[q] && (Below(m.t, me, q) ==> Below(m.t - {c}, me, q))
    {
      if Below(m.t, me, q) { WaitBelow(m, me, c, q); }
    }
  }
}
