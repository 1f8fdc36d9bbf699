/** test/e2e/lib/process.py: the process table around a subreaper, and what forks, exits and
    waits anywhere in it can and cannot do. */
module ProcessTree {
  type Pid = nat

  datatype State = Running | Zombie(code: int)

  /** `birth` tells two processes apart that had the same number one after the other; `ours`
      marks what was started under the command. A parent of 0 lies outside the table. */
  datatype Proc = Proc(parent: Pid, birth: nat, state: State, subreaper: bool, ours: bool)

  datatype Sys = Sys(t: map<Pid, Proc>, clock: nat)

  /** Every parent is alive and older than its child. */
  ghost predicate Forest(t: map<Pid, Proc>) {
    && 0 !in t
    && forall p {:trigger t[p].parent} | p in t && t[p].parent != 0 ::
         t[p].parent in t && t[t[p].parent].birth < t[p].birth && t[t[p].parent].state.Running?
  }

  /** `p` is a proper descendant of `top`. */
  ghost predicate Below(t: map<Pid, Proc>, top: Pid, p: Pid)
    requires Forest(t)
    decreases if p in t then t[p].birth else 0
  {
    p in t && t[p].parent != 0 && (t[p].parent == top || Below(t, top, t[p].parent))
  }

  ghost predicate Valid(s: Sys, me: Pid) {
    && Forest(s.t) && me in s.t && s.t[me].state.Running? && s.t[me].subreaper
    && (forall p {:trigger s.t[p].birth} | p in s.t :: s.t[p].birth < s.clock)
    && (forall p {:trigger s.t[p].ours} | p in s.t && s.t[p].ours :: Below(s.t, me, p))
  }

  /** Who adopts the children of `p`: its nearest ancestor that is a subreaper. */
  function Adopter(t: map<Pid, Proc>, p: Pid): Pid
    requires Forest(t) && p in t
    decreases t[p].birth
  {
    var q := t[p].parent;
    if q == 0 || t[q].subreaper then q else Adopter(t, q)
  }

  datatype Event =
    | Fork(parent: Pid, child: Pid)
    | Exit(pid: Pid, code: int)
    | Wait(parent: Pid, child: Pid)
    | Subreaper(pid: Pid, on: bool)

  /** What processes other than `me` may do next; numbers in `taken` are not given out. */
  predicate Enabled(s: Sys, me: Pid, e: Event, taken: set<Pid>) {
    match e
    case Fork(p, c) => p in s.t && p != me && s.t[p].state.Running? && c !in s.t && c != 0 && c !in taken
    case Exit(p, _) => p in s.t && p != me && s.t[p].state.Running?
    case Wait(p, c) => p != me && c in s.t && c != me && s.t[c].state.Zombie? && s.t[c].parent == p
    case Subreaper(p, _) => p in s.t && p != me
  }

  function Adopted(t: map<Pid, Proc>, p: Pid): map<Pid, Proc>
    requires Forest(t) && p in t
  {
    map q | q in t :: if t[q].parent == p then t[q].(parent := Adopter(t, p)) else t[q]
  }

  function Apply(s: Sys, e: Event): Sys
    requires Forest(s.t)
    requires e.Fork? ==> e.parent in s.t
    requires e.Exit? || e.Subreaper? ==> e.pid in s.t
  {
    match e
    case Fork(p, c) => Sys(s.t[c := Proc(p, s.clock, Running, false, s.t[p].ours)], s.clock + 1)
    case Exit(p, code) => s.(t := Adopted(s.t, p)[p := s.t[p].(state := Zombie(code))])
    case Wait(_, c) => s.(t := s.t - {c})
    case Subreaper(p, on) => s.(t := s.t[p := s.t[p].(subreaper := on)])
  }

  /** Between two moments an old process keeps its birth while it is there, and whatever is
      below `me` stays below `me`. */
  ghost predicate Keeps(s: Sys, u: Sys, me: Pid) {
    && Forest(s.t) && Forest(u.t) && s.clock <= u.clock
    && (forall p {:trigger u.t[p].birth} | p in u.t && u.t[p].birth < s.clock ::
         p in s.t && s.t[p].birth == u.t[p].birth)
    && (forall p {:trigger Below(u.t, me, p)} | p in u.t && p in s.t && u.t[p].birth == s.t[p].birth
        && Below(s.t, me, p) :: Below(u.t, me, p))
  }

  /** What others may have done: besides, a child of `me` stays its child, and a zombie one waits
      as it is. */
  ghost predicate Evolves(s: Sys, u: Sys, me: Pid) {
    && Keeps(s, u, me)
    && (forall p {:trigger s.t[p].parent} | p in s.t && s.t[p].parent == me :: StaysChild(s.t[p], u, me, p))
  }

  ghost predicate StaysChild(proc: Proc, u: Sys, me: Pid, p: Pid) {
    && p in u.t && u.t[p].parent == me && u.t[p].birth == proc.birth && u.t[p].ours == proc.ours
    && (proc.state.Zombie? ==> u.t[p].state == proc.state)
  }

  lemma {:induction false} AdopterBelow(t: map<Pid, Proc>, me: Pid, p: Pid)
    requires Forest(t) && me in t && t[me].subreaper && Below(t, me, p)
    ensures var a := Adopter(t, p);
              a in t && t[a].birth < t[p].birth && t[a].state.Running? && (a == me || Below(t, me, a))
    decreases t[p].birth
  {
    var q := t[p].parent;
    if !t[q].subreaper { AdopterBelow(t, me, q); }
  }

  lemma {:induction false} AdopterOlder(t: map<Pid, Proc>, p: Pid)
    requires Forest(t) && p in t
    ensures var a := Adopter(t, p); a != 0 ==> a in t && t[a].birth < t[p].birth && t[a].state.Running?
    decreases t[p].birth
  {
    var q := t[p].parent;
    if q != 0 && !t[q].subreaper { AdopterOlder(t, q); }
  }

  lemma ExitForest(s: Sys, me: Pid, e: Event)
    requires Valid(s, me) && Enabled(s, me, e, {}) && e.Exit?
    ensures Forest(Apply(s, e).t)
  {
    AdopterOlder(s.t, e.pid);
  }

  /** The descendants of the supervisor survive an exit as descendants. */
  lemma {:induction false} ExitBelow(s: Sys, me: Pid, e: Event, q: Pid)
    requires Valid(s, me) && Enabled(s, me, e, {}) && e.Exit? && Forest(Apply(s, e).t) && Below(s.t, me, q)
    ensures Below(Apply(s, e).t, me, q)
    decreases s.t[q].birth
  {
    var u, q' := Apply(s, e), s.t[q].parent;
    assert u.t[q].birth == s.t[q].birth;
    if q' == e.pid {
      AdopterBelow(s.t, me, e.pid);
      var a := Adopter(s.t, e.pid);
      assert u.t[q].parent == a;
      if a != me { ExitBelow(s, me, e, a); }
    } else {
      assert u.t[q].parent == q';
      if q' != me { ExitBelow(s, me, e, q'); }
    }
  }

  lemma {:induction false} ForkBelow(s: Sys, me: Pid, e: Event, q: Pid)
    requires Valid(s, me) && e.Fork? && e.parent in s.t && e.child !in s.t && Forest(Apply(s, e).t) && Below(s.t, me, q)
    ensures Below(Apply(s, e).t, me, q)
    decreases s.t[q].birth
  {
    if s.t[q].parent != me { ForkBelow(s, me, e, s.t[q].parent); }
  }

  lemma {:induction false} FlagBelow(s: Sys, me: Pid, e: Event, q: Pid)
    requires Valid(s, me) && Enabled(s, me, e, {}) && e.Subreaper? && Forest(Apply(s, e).t) && Below(s.t, me, q)
    ensures Below(Apply(s, e).t, me, q)
    decreases s.t[q].birth
  {
    if s.t[q].parent != me { FlagBelow(s, me, e, s.t[q].parent); }
  }

  /** A zombie has no children, so taking it away cuts nobody off. */
  lemma {:induction false} WaitBelow(s: Sys, me: Pid, c: Pid, q: Pid)
    requires Valid(s, me) && c in s.t && s.t[c].state.Zombie? && q != c && Forest(s.t - {c}) && Below(s.t, me, q)
    ensures Below(s.t - {c}, me, q)
    decreases s.t[q].birth
  {
    assert (s.t - {c})[q] == s.t[q];
    if s.t[q].parent != me { WaitBelow(s, me, c, s.t[q].parent); }
  }

  lemma ZombieForest(t: map<Pid, Proc>, c: Pid)
    requires Forest(t) && c in t && t[c].state.Zombie?
    ensures Forest(t - {c})
  {
    forall p | p in t - {c} && t[p].parent != 0
      ensures t[p].parent in t - {c}
    {
      assert (t - {c})[p] == t[p];
    }
  }

  /** One step of anybody else keeps everything started under the command below the supervisor. */
  lemma StepEvolves(s: Sys, me: Pid, e: Event, taken: set<Pid>)
    requires Valid(s, me) && Enabled(s, me, e, taken)
    ensures Valid(Apply(s, e), me) && Evolves(s, Apply(s, e), me)
    ensures forall p | p in Apply(s, e).t && p in taken :: p in s.t && s.t[p].birth == Apply(s, e).t[p].birth
  {
    match e
    case Fork(p, c) => ForkEvolves(s, me, e);
    case Exit(p, code) => ExitEvolves(s, me, e);
    case Wait(p, c) => WaitEvolves(s, me, e);
    case Subreaper(p, on) => FlagEvolves(s, me, e);
  }

  lemma ForkEvolves(s: Sys, me: Pid, e: Event)
    requires Valid(s, me) && Enabled(s, me, e, {}) && e.Fork?
    ensures Valid(Apply(s, e), me) && Evolves(s, Apply(s, e), me)
  {
    var u := Apply(s, e);
    assert Forest(u.t);
    forall q | Below(s.t, me, q)
      ensures Below(u.t, me, q)
    {
      ForkBelow(s, me, e, q);
    }
  }

  lemma ExitEvolves(s: Sys, me: Pid, e: Event)
    requires Valid(s, me) && Enabled(s, me, e, {}) && e.Exit?
    ensures Valid(Apply(s, e), me) && Evolves(s, Apply(s, e), me)
  {
    ExitForest(s, me, e);
    var u := Apply(s, e);
    ExitKeeps(s, me, e, u);
    forall p {:trigger s.t[p].parent} | p in s.t && s.t[p].parent == me ensures StaysChild(s.t[p], u, me, p) {
      ExitOne(s, me, e, u, p);
    }
  }

  /** An exit changes nobody's age and origin, and only the state of who exits. */
  lemma ExitOne(s: Sys, me: Pid, e: Event, u: Sys, q: Pid)
    requires Valid(s, me) && Enabled(s, me, e, {}) && e.Exit? && u == Apply(s, e) && q in s.t
    ensures q in u.t && u.t[q].birth == s.t[q].birth && u.t[q].ours == s.t[q].ours
            && u.t[q].subreaper == s.t[q].subreaper
    ensures q != e.pid ==> u.t[q].state == s.t[q].state
    ensures s.t[q].parent != e.pid ==> u.t[q].parent == s.t[q].parent
  {
  }

  lemma ExitKeeps(s: Sys, me: Pid, e: Event, u: Sys)
    requires Valid(s, me) && Enabled(s, me, e, {}) && e.Exit? && u == Apply(s, e) && Forest(u.t)
    ensures Valid(u, me) && Keeps(s, u, me)
  {
    assert u.t.Keys == s.t.Keys && u.clock == s.clock;
    forall q | q in s.t ensures u.t[q].birth == s.t[q].birth && u.t[q].ours == s.t[q].ours {
      ExitOne(s, me, e, u, q);
    }
    forall q | Below(s.t, me, q) ensures Below(u.t, me, q) {
      ExitBelow(s, me, e, q);
    }
    ExitOne(s, me, e, u, me);
  }

  lemma WaitEvolves(s: Sys, me: Pid, e: Event)
    requires Valid(s, me) && Enabled(s, me, e, {}) && e.Wait?
    ensures Valid(Apply(s, e), me) && Evolves(s, Apply(s, e), me)
  {
    var u := Apply(s, e);
    ZombieForest(s.t, e.child);
    forall q | q in u.t
      ensures u.t[q] == s.t[q] && (Below(s.t, me, q) ==> Below(u.t, me, q))
    {
      if Below(s.t, me, q) { WaitBelow(s, me, e.child, q); }
    }
    assert forall q | q in s.t && q != e.child :: q in u.t;
  }

  lemma FlagEvolves(s: Sys, me: Pid, e: Event)
    requires Valid(s, me) && Enabled(s, me, e, {}) && e.Subreaper?
    ensures Valid(Apply(s, e), me) && Evolves(s, Apply(s, e), me)
  {
    forall q | Below(s.t, me, q)
      ensures Below(Apply(s, e).t, me, q)
    {
      FlagBelow(s, me, e, q);
    }
  }

  lemma KeepsTransitive(s: Sys, t: Sys, u: Sys, me: Pid)
    requires Valid(s, me) && Keeps(s, t, me) && Keeps(t, u, me)
    ensures Keeps(s, u, me)
  {
    forall p | p in u.t && p in s.t && u.t[p].birth == s.t[p].birth
      ensures p in t.t && t.t[p].birth == s.t[p].birth
    {
    }
  }

  lemma EvolvesTransitive(s: Sys, t: Sys, u: Sys, me: Pid)
    requires Valid(s, me) && Evolves(s, t, me) && Evolves(t, u, me)
    ensures Evolves(s, u, me)
  {
    KeepsTransitive(s, t, u, me);
  }

  /** Any sequence of events; those that cannot happen are passed over. */
  function Run(s: Sys, me: Pid, events: seq<Event>, taken: set<Pid>): (u: Sys)
    requires Valid(s, me)
    ensures Valid(u, me)
    decreases |events|
  {
    if events == [] then s
    else if Enabled(s, me, events[0], taken) then
      StepEvolves(s, me, events[0], taken);
      Run(Apply(s, events[0]), me, events[1..], taken)
    else Run(s, me, events[1..], taken)
  }

  /** In every interleaving, whatever was started under the command stays below the supervisor
      until it is reaped. */
  lemma {:induction false} RunEvolves(s: Sys, me: Pid, events: seq<Event>, taken: set<Pid>)
    requires Valid(s, me)
    ensures Evolves(s, Run(s, me, events, taken), me)
    ensures forall p | p in Run(s, me, events, taken).t && p in taken ::
              p in s.t && s.t[p].birth == Run(s, me, events, taken).t[p].birth
    decreases |events|
  {
    if events != [] {
      if Enabled(s, me, events[0], taken) {
        StepEvolves(s, me, events[0], taken);
        RunEvolves(Apply(s, events[0]), me, events[1..], taken);
        EvolvesTransitive(s, Apply(s, events[0]), Run(s, me, events, taken), me);
      } else {
        RunEvolves(s, me, events[1..], taken);
      }
    }
  }

  function Children(t: map<Pid, Proc>, top: Pid): set<Pid> {
    set c | c in t && t[c].parent == top
  }

  /** A descendant hangs under some child, so without children there are no descendants. */
  lemma {:induction false} BelowSomeChild(t: map<Pid, Proc>, top: Pid, p: Pid)
    requires Forest(t) && Below(t, top, p)
    ensures Children(t, top) != {}
    decreases t[p].birth
  {
    if t[p].parent == top {
      assert p in Children(t, top);
    } else {
      BelowSomeChild(t, top, t[p].parent);
    }
  }

  // The tree as `descendants` walks it.

  lemma {:induction false} BelowIsYounger(t: map<Pid, Proc>, a: Pid, q: Pid)
    requires Forest(t) && Below(t, a, q)
    ensures a in t && t[a].birth < t[q].birth
    decreases t[q].birth
  {
    if t[q].parent != a { BelowIsYounger(t, a, t[q].parent); }
  }

  lemma {:induction false} BelowTransitive(t: map<Pid, Proc>, a: Pid, b: Pid, q: Pid)
    requires Forest(t) && Below(t, a, b) && Below(t, b, q)
    ensures Below(t, a, q)
    decreases t[q].birth
  {
    if t[q].parent != b { BelowTransitive(t, a, b, t[q].parent); }
  }

  /** Two ancestors of one process lie on one line. */
  lemma {:induction false} AncestorsComparable(t: map<Pid, Proc>, a: Pid, b: Pid, q: Pid)
    requires Forest(t) && Below(t, a, q) && Below(t, b, q)
    ensures a == b || Below(t, a, b) || Below(t, b, a)
    decreases t[q].birth
  {
    var p := t[q].parent;
    if p != a && p != b { AncestorsComparable(t, a, b, p); }
  }

  /** The subtrees of two children of one process are disjoint. */
  lemma SiblingsApart(t: map<Pid, Proc>, p: Pid, a: Pid, b: Pid, q: Pid)
    requires Forest(t) && p in t && a in t && b in t && a != b && t[a].parent == p && t[b].parent == p
    ensures !((q == a || Below(t, a, q)) && (q == b || Below(t, b, q)))
  {
    if (q == a || Below(t, a, q)) && (q == b || Below(t, b, q)) {
      if q != a && q != b { AncestorsComparable(t, a, b, q); }
      NotBelowSibling(t, p, a, b);
      NotBelowSibling(t, p, b, a);
    }
  }

  lemma NotBelowSibling(t: map<Pid, Proc>, p: Pid, a: Pid, b: Pid)
    requires Forest(t) && p in t && a in t && b in t && t[a].parent == p && t[b].parent == p
    ensures !Below(t, a, b)
  {
    if Below(t, a, b) && p != a { BelowIsYounger(t, a, p); }
  }

  /** Every proper descendant is a child, or below a child. */
  lemma {:induction false} BelowByChild(t: map<Pid, Proc>, p: Pid, q: Pid)
    requires Forest(t) && Below(t, p, q)
    ensures exists c :: c in t && t[c].parent == p && (q == c || Below(t, c, q))
    decreases t[q].birth
  {
    if t[q].parent != p {
      BelowByChild(t, p, t[q].parent);
      var c :| c in t && t[c].parent == p && (t[q].parent == c || Below(t, c, t[q].parent));
      assert Below(t, c, q);
    }
  }

  /** Each element once, and nothing after one of its ancestors. */
  ghost predicate BottomUp(t: map<Pid, Proc>, r: seq<Pid>)
    requires Forest(t)
  {
    forall i, j | 0 <= i < j < |r| :: r[i] != r[j] && !Below(t, r[i], r[j])
  }

  ghost predicate Subtree(t: map<Pid, Proc>, c: Pid, q: Pid)
    requires Forest(t)
  {
    q == c || Below(t, c, q)
  }

  lemma Joined(t: map<Pid, Proc>, p: Pid, c: Pid, done: set<Pid>, was: seq<Pid>, nested: seq<Pid>)
    requires Forest(t) && p in t && c in t && t[c].parent == p && c !in done && BottomUp(t, was) && BottomUp(t, nested)
    requires forall d | d in done :: d in t && t[d].parent == p
    requires forall q :: q in was <==> exists d :: d in done && Subtree(t, d, q)
    requires forall q :: q in nested <==> Below(t, c, q)
    ensures BottomUp(t, was + (nested + [c]))
    ensures forall q :: q in was + (nested + [c]) <==> exists d :: d in done + {c} && Subtree(t, d, q)
  {
    var r := was + (nested + [c]);
    forall i, j | 0 <= i < j < |r|
      ensures r[i] != r[j] && !Below(t, r[i], r[j])
    {
      if i < |was| <= j {
        assert r[i] in was && Subtree(t, c, r[j]) by { assert j < |was| + |nested| ==> r[j] in nested; }
        var d :| d in done && Subtree(t, d, r[i]);
        if Below(t, r[i], r[j]) && r[i] != d { BelowTransitive(t, d, r[i], r[j]); }
        SiblingsApart(t, p, d, c, r[j]);
      } else if |was| <= i && j == |r| - 1 {
        assert r[i] in nested;
        BelowIsYounger(t, c, r[i]);
        if Below(t, r[i], c) { BelowIsYounger(t, r[i], c); }
      } else if |was| <= i {
        assert r[i] == nested[i - |was|] && r[j] == nested[j - |was|];
      }
    }
    forall q
      ensures q in r <==> exists d :: d in done + {c} && Subtree(t, d, q)
    {
      if q in r {
        if q in was {
          var d :| d in done && Subtree(t, d, q);
          assert d in done + {c};
        } else {
          assert c in done + {c} && Subtree(t, c, q);
        }
      }
    }
  }

  // ---- the scan, which reads one process after the other ----------------------------------

  /** Numbers that are still in use still name the same process. */
  ghost predicate NotReused(s: Sys, u: Sys, taken: set<Pid>) {
    forall p | p in u.t && p in taken :: p in s.t && s.t[p].birth == u.t[p].birth
  }

  lemma NotReusedTransitive(s: Sys, t: Sys, u: Sys, taken: set<Pid>)
    requires NotReused(s, t, taken) && NotReused(t, u, taken)
    ensures NotReused(s, u, taken)
  {
  }

  /** One process at two moments. */
  ghost predicate Same(s: Sys, u: Sys, p: Pid) {
    p in s.t && p in u.t && s.t[p].birth == u.t[p].birth
  }

  /** Who has exited does not run again, and only the exit of its parent gives a process another one. */
  ghost predicate Ages(s: Sys, u: Sys) {
    && (forall p | Same(s, u, p) :: s.t[p].state.Zombie? ==> u.t[p].state.Zombie?)
    && (forall p | Same(s, u, p) && u.t[p].parent != s.t[p].parent :: !RunsOn(s, u, s.t[p].parent))
  }

  ghost predicate RunsOn(s: Sys, u: Sys, a: Pid) {
    Same(s, u, a) && u.t[a].state.Running?
  }

  lemma StepAges(s: Sys, me: Pid, e: Event, taken: set<Pid>)
    requires Valid(s, me) && Enabled(s, me, e, taken)
    ensures Ages(s, Apply(s, e))
  {
  }

  lemma AgesTransitive(s: Sys, t: Sys, u: Sys, me: Pid)
    requires Valid(s, me) && Keeps(s, t, me) && Keeps(t, u, me) && Ages(s, t) && Ages(t, u)
    ensures Ages(s, u)
  {
    forall p | Same(s, u, p) ensures Same(s, t, p) && Same(t, u, p) {
      SameBetween(s, t, u, me, p);
    }
    forall p | Same(s, u, p) && u.t[p].parent != s.t[p].parent ensures !RunsOn(s, u, s.t[p].parent) {
      if RunsOn(s, u, s.t[p].parent) { SameBetween(s, t, u, me, s.t[p].parent); }
    }
  }

  lemma SameBetween(s: Sys, t: Sys, u: Sys, me: Pid, p: Pid)
    requires Valid(s, me) && Keeps(s, t, me) && Keeps(t, u, me) && Same(s, u, p)
    ensures Same(s, t, p) && Same(t, u, p)
  {
    assert u.t[p].birth < s.clock <= t.clock;
  }

  lemma SelfKept(s: Sys, me: Pid)
    requires Valid(s, me)
    ensures Keeps(s, s, me) && Ages(s, s)
  {
  }

  lemma {:induction false} RunAges(s: Sys, me: Pid, events: seq<Event>, taken: set<Pid>)
    requires Valid(s, me)
    ensures Ages(s, Run(s, me, events, taken))
    decreases |events|
  {
    if events == [] {
      SelfKept(s, me);
    } else if Enabled(s, me, events[0], taken) {
      var t := Apply(s, events[0]);
      StepEvolves(s, me, events[0], taken);
      StepAges(s, me, events[0], taken);
      RunEvolves(t, me, events[1..], taken);
      RunAges(t, me, events[1..], taken);
      AgesTransitive(s, t, Run(t, me, events[1..], taken), me);
    } else {
      RunAges(s, me, events[1..], taken);
    }
  }

  /** The table grows by a fork at a time. */
  lemma {:induction false} RunGrows(s: Sys, me: Pid, events: seq<Event>, taken: set<Pid>)
    requires Valid(s, me)
    ensures var u := Run(s, me, events, taken); u.clock >= s.clock && |u.t| + s.clock <= |s.t| + u.clock
    decreases |events|
  {
    if events != [] {
      if Enabled(s, me, events[0], taken) {
        StepEvolves(s, me, events[0], taken);
        StepGrows(s, me, events[0], taken);
        RunGrows(Apply(s, events[0]), me, events[1..], taken);
      } else {
        RunGrows(s, me, events[1..], taken);
      }
    }
  }

  lemma StepGrows(s: Sys, me: Pid, e: Event, taken: set<Pid>)
    requires Valid(s, me) && Enabled(s, me, e, taken)
    ensures var u := Apply(s, e); u.clock >= s.clock && |u.t| + s.clock <= |s.t| + u.clock
  {
    var u := Apply(s, e);
    match e
    case Fork(p, c) => assert u.t.Keys == s.t.Keys + {c};
    case Exit(p, code) => assert u.t.Keys == s.t.Keys;
    case Wait(p, c) => assert s.t.Keys == u.t.Keys + {c};
    case Subreaper(p, on) => assert u.t.Keys == s.t.Keys;
  }

  /** What a scan read: the children of `pid` at the moment `at`, and, later, theirs. */
  datatype Node = Node(pid: Pid, at: Sys, kids: seq<Node>)

  /** What it lists: of every child first what it read below it, and then the child. */
  function Listing(kids: seq<Node>): seq<Pid> {
    if kids == [] then []
    else Listing(kids[..|kids| - 1]) + (Listing(kids[|kids| - 1].kids) + [kids[|kids| - 1].pid])
  }

  ghost function Pids(kids: seq<Node>): set<Pid> { set i | 0 <= i < |kids| :: kids[i].pid }

  ghost predicate Distinct(kids: seq<Node>) {
    forall i, j | 0 <= i < j < |kids| :: kids[i].pid != kids[j].pid
  }

  /** A child was read later than its parent, and if its number was in use then, by the same process. */
  ghost predicate Later(at: Sys, kid: Node, me: Pid) {
    Keeps(at, kid.at, me) && Ages(at, kid.at) && NotReused(at, kid.at, {kid.pid})
  }

  /** A scan up to `end`: every reading shows exactly the children there were at its moment. */
  ghost predicate ReadBy(n: Node, me: Pid, end: Sys) {
    && Valid(n.at, me) && Keeps(n.at, end, me) && Ages(n.at, end)
    && Pids(n.kids) == Children(n.at.t, n.pid) && Distinct(n.kids) && NotReused(n.at, end, Pids(n.kids))
    && forall i | 0 <= i < |n.kids| :: Later(n.at, n.kids[i], me) && ReadBy(n.kids[i], me, end)
  }

  lemma {:induction false} ReadByLater(n: Node, me: Pid, end: Sys, later: Sys, taken: set<Pid>)
    requires ReadBy(n, me, end) && Valid(end, me) && Keeps(end, later, me) && Ages(end, later)
    requires NotReused(end, later, taken) && (forall q | q in Listing(n.kids) :: q in taken)
    ensures ReadBy(n, me, later)
  {
    KeepsTransitive(n.at, end, later, me);
    AgesTransitive(n.at, end, later, me);
    forall i | 0 <= i < |n.kids| ensures n.kids[i].pid in taken && ReadBy(n.kids[i], me, later) {
      ListingHas(n.kids, i);
      ReadByLater(n.kids[i], me, end, later, taken);
    }
  }

  /** Each child is listed, and what was read below it. */
  lemma {:induction false} ListingHas(kids: seq<Node>, i: nat)
    requires i < |kids|
    ensures kids[i].pid in Listing(kids) && forall q | q in Listing(kids[i].kids) :: q in Listing(kids)
    decreases |kids|
  {
    if i < |kids| - 1 {
      assert kids[..|kids| - 1][i] == kids[i];
      ListingHas(kids[..|kids| - 1], i);
    }
  }

  /** and nothing else. */
  lemma {:induction false} ListingFrom(kids: seq<Node>, q: Pid) returns (i: nat)
    requires q in Listing(kids)
    ensures i < |kids| && (q == kids[i].pid || q in Listing(kids[i].kids))
    decreases |kids|
  {
    if q in Listing(kids[..|kids| - 1]) {
      i := ListingFrom(kids[..|kids| - 1], q);
    } else {
      i := |kids| - 1;
    }
  }

  /** Whatever a scan lists and is still there in the end is a descendant then. */
  lemma {:induction false} ListedAreBelow(n: Node, me: Pid, end: Sys, q: Pid)
    requires ReadBy(n, me, end) && n.pid != 0
    requires n.pid == me || n.pid !in n.at.t || Below(n.at.t, me, n.pid)
    requires q in Listing(n.kids) && q in end.t
    ensures Below(end.t, me, q)
    decreases n
  {
    var i := ListingFrom(n.kids, q);
    var kid := n.kids[i];
    assert kid.pid in Children(n.at.t, n.pid) && Below(n.at.t, me, kid.pid);
    if q != kid.pid {
      assert kid.pid in {kid.pid} && Later(n.at, kid, me);
      ListedAreBelow(kid, me, end, q);
    }
  }

  ghost predicate NoDescendants(s: Sys, me: Pid)
    requires Forest(s.t)
  {
    forall p :: !Below(s.t, me, p)
  }

  lemma NoChildNoDescendant(s: Sys, me: Pid)
    requires Forest(s.t) && me != 0
    ensures Children(s.t, me) == {} <==> NoDescendants(s, me)
  {
    if Children(s.t, me) == {} {
      forall p ensures !Below(s.t, me, p) {
        if Below(s.t, me, p) { BelowSomeChild(s.t, me, p); }
      }
    } else {
      var c :| c in Children(s.t, me);
      assert Below(s.t, me, c);
    }
  }

  /** A scan is empty exactly when there were no descendants when it began. */
  lemma EmptyScan(n: Node, me: Pid, end: Sys)
    requires ReadBy(n, me, end) && n.pid == me
    ensures Listing(n.kids) == [] <==> NoDescendants(n.at, me)
  {
    NoChildNoDescendant(n.at, me);
    if n.kids == [] {
      assert Pids(n.kids) == {};
    } else {
      ListingHas(n.kids, 0);
      assert n.kids[0].pid in Pids(n.kids);
    }
  }

  /** `q` is below `top` at both moments, on one line of the same processes. */
  ghost predicate Unmoved(s: Sys, u: Sys, top: Pid, q: Pid)
    requires Forest(s.t)
    decreases if q in s.t then s.t[q].birth else 0
  {
    && Same(s, u, q) && s.t[q].parent != 0 && u.t[q].parent == s.t[q].parent
    && (s.t[q].parent == top || Unmoved(s, u, top, s.t[q].parent))
  }

  /** The parent at both moments is the parent in between. */
  lemma ParentBetween(s: Sys, t: Sys, u: Sys, me: Pid, q: Pid)
    requires Valid(s, me) && Keeps(s, t, me) && Keeps(t, u, me) && Ages(s, t) && Ages(t, u)
    requires Same(s, u, q) && u.t[q].parent == s.t[q].parent != 0
    ensures Same(s, t, q) && Same(t, u, q) && t.t[q].parent == s.t[q].parent
  {
    var a := s.t[q].parent;
    SameBetween(s, t, u, me, q);
    assert a in u.t && u.t[a].birth < u.t[q].birth < s.clock;
    assert RunsOn(s, u, a);
    SameBetween(s, t, u, me, a);
    assert t.t[a].state.Running?;
    assert RunsOn(s, t, a);
  }

  lemma {:induction false} UnmovedLater(s: Sys, t: Sys, u: Sys, me: Pid, top: Pid, q: Pid)
    requires Valid(s, me) && Keeps(s, t, me) && Keeps(t, u, me) && Ages(s, t) && Ages(t, u) && Unmoved(s, u, top, q)
    ensures Unmoved(t, u, top, q)
    decreases s.t[q].birth
  {
    ParentBetween(s, t, u, me, q);
    if s.t[q].parent != top { UnmovedLater(s, t, u, me, top, s.t[q].parent); }
  }

  lemma {:induction false} UnmovedByChild(s: Sys, u: Sys, top: Pid, q: Pid) returns (c: Pid)
    requires Forest(s.t) && Unmoved(s, u, top, q)
    ensures c in Children(s.t, top) && (q == c || Unmoved(s, u, c, q))
    decreases s.t[q].birth
  {
    if s.t[q].parent == top {
      c := q;
    } else {
      c := UnmovedByChild(s, u, top, s.t[q].parent);
    }
  }

  /** A scan lists every descendant that stays where it is while the scan goes on. */
  lemma {:induction false} UnmovedAreListed(n: Node, me: Pid, end: Sys, q: Pid)
    requires ReadBy(n, me, end) && Unmoved(n.at, end, n.pid, q)
    ensures q in Listing(n.kids)
    decreases n
  {
    var c := UnmovedByChild(n.at, end, n.pid, q);
    assert c in Pids(n.kids);
    var i :| 0 <= i < |n.kids| && n.kids[i].pid == c;
    ListingHas(n.kids, i);
    if q != c {
      assert Later(n.at, n.kids[i], me) && ReadBy(n.kids[i], me, end);
      UnmovedLater(n.at, n.kids[i].at, end, me, c, q);
      UnmovedAreListed(n.kids[i], me, end, q);
    }
  }

  /** All readings show the table `t`. */
  ghost predicate Still(n: Node, t: map<Pid, Proc>) {
    n.at.t == t && forall i | 0 <= i < |n.kids| :: Still(n.kids[i], t)
  }

  /** If nothing happens meanwhile a scan lists exactly the proper descendants, once each, children
      before their parents. */
  lemma {:induction false} StillScan(n: Node, me: Pid, end: Sys, t: map<Pid, Proc>)
    requires ReadBy(n, me, end) && Still(n, t) && n.pid in t
    ensures Forest(t) && (forall q :: q in Listing(n.kids) <==> Below(t, n.pid, q)) && BottomUp(t, Listing(n.kids))
    decreases n, 1, 0
  {
    StillPart(n, me, end, t, |n.kids|);
    assert n.kids[..|n.kids|] == n.kids;
    assert Covers(t, Listing(n.kids), Pids(n.kids));
    forall q ensures q in Listing(n.kids) <==> Below(t, n.pid, q) {
      if Below(t, n.pid, q) {
        BelowByChild(t, n.pid, q);
        var c :| c in t && t[c].parent == n.pid && (q == c || Below(t, c, q));
        assert c in Pids(n.kids) && Subtree(t, c, q);
      }
      if q in Listing(n.kids) {
        var c :| c in Pids(n.kids) && Subtree(t, c, q);
        assert c in Children(t, n.pid) && Below(t, n.pid, c);
        if q != c { BelowTransitive(t, n.pid, c, q); }
      }
    }
  }

  /** Exactly the subtrees of these processes. */
  ghost predicate Covers(t: map<Pid, Proc>, r: seq<Pid>, tops: set<Pid>)
    requires Forest(t)
  {
    forall q :: q in r <==> exists c :: c in tops && Subtree(t, c, q)
  }

  lemma {:induction false} StillPart(n: Node, me: Pid, end: Sys, t: map<Pid, Proc>, k: nat)
    requires ReadBy(n, me, end) && Still(n, t) && n.pid in t && k <= |n.kids|
    ensures Forest(t) && BottomUp(t, Listing(n.kids[..k])) && Covers(t, Listing(n.kids[..k]), Pids(n.kids[..k]))
    decreases n, 0, k
  {
    if k > 0 {
      var kid := n.kids[k - 1];
      Prefix(n.kids, k);
      ChildOf(n, me, end, t, kid.pid);
      StillPart(n, me, end, t, k - 1);
      StillScan(kid, me, end, t);
      StillMore(n, me, end, t, k, n.kids[..k - 1], kid);
    }
  }

  lemma StillMore(n: Node, me: Pid, end: Sys, t: map<Pid, Proc>, k: nat, before: seq<Node>, kid: Node)
    requires ReadBy(n, me, end) && Still(n, t) && n.pid in t && 0 < k <= |n.kids|
    requires before == n.kids[..k - 1] && kid == n.kids[k - 1] && Forest(t)
    requires BottomUp(t, Listing(before)) && Covers(t, Listing(before), Pids(before))
    requires BottomUp(t, Listing(kid.kids)) && forall q :: q in Listing(kid.kids) <==> Below(t, kid.pid, q)
    ensures BottomUp(t, Listing(n.kids[..k])) && Covers(t, Listing(n.kids[..k]), Pids(n.kids[..k]))
  {
    hide BottomUp, Subtree, Listing;
    Prefix(n.kids, k);
    ChildOf(n, me, end, t, kid.pid);
    forall d | d in Pids(before) ensures d in t && t[d].parent == n.pid {
      ChildOf(n, me, end, t, d);
    }
    Joined(t, n.pid, kid.pid, Pids(before), Listing(before), Listing(kid.kids));
  }

  lemma ChildOf(n: Node, me: Pid, end: Sys, t: map<Pid, Proc>, c: Pid)
    requires ReadBy(n, me, end) && Still(n, t) && c in Pids(n.kids)
    ensures c in t && t[c].parent == n.pid
  {
    assert c in Children(t, n.pid);
  }

  lemma Prefix(kids: seq<Node>, k: nat)
    requires 0 < k <= |kids| && Distinct(kids)
    ensures var before := kids[..k - 1];
            && Listing(kids[..k]) == Listing(before) + (Listing(kids[k - 1].kids) + [kids[k - 1].pid])
            && Pids(kids[..k]) == Pids(before) + {kids[k - 1].pid} && kids[k - 1].pid !in Pids(before)
            && Pids(before) <= Pids(kids) && kids[k - 1].pid in Pids(kids)
  {
    assert kids[..k][..k - 1] == kids[..k - 1];
  }

  /** The supervisor 1, its child 2, and 3, the child of 2; and the same after the exit of 2. */
  function ThreeInLine(): Sys {
    Sys(map[1 := Proc(0, 0, Running, true, false), 2 := Proc(1, 1, Running, false, true),
            3 := Proc(2, 2, Running, false, true)], 3)
  }

  function MiddleGone(): Sys {
    Sys(map[1 := Proc(0, 0, Running, true, false), 2 := Proc(1, 1, Zombie(0), false, true),
            3 := Proc(1, 2, Running, false, true)], 3)
  }

  lemma LineValid()
    ensures Valid(ThreeInLine(), 1) && Below(ThreeInLine().t, 1, 3) && Children(ThreeInLine().t, 1) == {2}
    ensures Children(ThreeInLine().t, 2) == {3} && Children(ThreeInLine().t, 3) == {}
    ensures 2 in ThreeInLine().t && 3 in ThreeInLine().t
  {
    var t := ThreeInLine().t;
    assert Forest(t) && Below(t, 1, 2);
  }

  lemma MiddleExits()
    ensures Valid(ThreeInLine(), 1) && Enabled(ThreeInLine(), 1, Exit(2, 0), {1, 2})
    ensures Apply(ThreeInLine(), Exit(2, 0)) == MiddleGone() && Children(MiddleGone().t, 2) == {}
  {
    LineValid();
    assert Adopter(ThreeInLine().t, 2) == 1;
    assert Apply(ThreeInLine(), Exit(2, 0)).t == MiddleGone().t;
  }

  lemma MiddleKept()
    ensures Valid(ThreeInLine(), 1) && Evolves(ThreeInLine(), MiddleGone(), 1) && Ages(ThreeInLine(), MiddleGone())
    ensures Valid(MiddleGone(), 1)
  {
    hide ThreeInLine, MiddleGone;
    MiddleExits();
    StepEvolves(ThreeInLine(), 1, Exit(2, 0), {1, 2});
    StepAges(ThreeInLine(), 1, Exit(2, 0), {1, 2});
  }

  lemma NoKids(p: Pid, at: Sys, me: Pid)
    requires Valid(at, me) && Children(at.t, p) == {}
    ensures ReadBy(Node(p, at, []), me, at) && Listing([]) == []
  {
    SelfKept(at, me);
    assert Pids([]) == {};
  }

  lemma OnlyKid(p: Pid, at: Sys, kid: Node, me: Pid, end: Sys)
    requires Valid(at, me) && Keeps(at, end, me) && Ages(at, end) && ReadBy(kid, me, end)
    requires Children(at.t, p) == {kid.pid} && Same(at, end, kid.pid) && Later(at, kid, me)
    ensures ReadBy(Node(p, at, [kid]), me, end) && Listing([kid]) == Listing(kid.kids) + [kid.pid]
  {
    OnePid([kid]);
    assert [kid][..0] == [];
  }

  lemma OnePid(kids: seq<Node>)
    requires |kids| == 1
    ensures Pids(kids) == {kids[0].pid} && Distinct(kids)
  {
    assert kids[0].pid in Pids(kids);
    forall p | p in Pids(kids) ensures p == kids[0].pid {
      var i :| 0 <= i < |kids| && kids[i].pid == p;
    }
  }

  lemma SelfLater(kid: Node, me: Pid)
    requires Valid(kid.at, me)
    ensures Later(kid.at, kid, me) && Keeps(kid.at, kid.at, me) && Ages(kid.at, kid.at)
    ensures kid.pid in kid.at.t ==> Same(kid.at, kid.at, kid.pid)
  {
    SelfKept(kid.at, me);
  }

  /** A scan of the first table, when nothing happens. */
  lemma ReadInLine() returns (n: Node)
    ensures n.pid == 1 && n.at == ThreeInLine() && ReadBy(n, 1, ThreeInLine()) && Listing(n.kids) == [3, 2]
  {
    hide ThreeInLine, ReadBy, Valid, Forest, Below, Listing, Later, Keeps, Ages, Same;
    LineValid();
    var last := Node(3, ThreeInLine(), []);
    var middle := Node(2, ThreeInLine(), [last]);
    NoKids(3, ThreeInLine(), 1);
    SelfLater(last, 1);
    OnlyKid(2, ThreeInLine(), last, 1, ThreeInLine());
    n := Node(1, ThreeInLine(), [middle]);
    SelfLater(middle, 1);
    OnlyKid(1, ThreeInLine(), middle, 1, ThreeInLine());
  }

  /** While a scan goes on it can miss a descendant: after the children of 1 have been read 2 exits, 3 is
      adopted by 1, and 2 is read without children. */
  lemma MissedByScan() returns (n: Node)
    ensures n.pid == 1 && n.at == ThreeInLine() && ReadBy(n, 1, MiddleGone()) && Listing(n.kids) == [2]
    ensures Enabled(ThreeInLine(), 1, Exit(2, 0), {1, 2}) && Apply(ThreeInLine(), Exit(2, 0)) == MiddleGone()
    ensures Below(ThreeInLine().t, 1, 3) && Below(MiddleGone().t, 1, 3) && MiddleGone().t[3].state.Running?
  {
    LineValid();
    MiddleExits();
    MiddleKept();
    NoKids(2, MiddleGone(), 1);
    n := Node(1, ThreeInLine(), [Node(2, MiddleGone(), [])]);
    OnlyKid(1, ThreeInLine(), n.kids[0], 1, MiddleGone());
  }
}
