/** scripts/prepare-sandbox-init.py lines 27-28 and 39-57: which archives are accepted, and why
    their members form one tree. */
module Archive {
  import opened Outcomes

  type Path = seq<string>

  datatype Kind = Folder | File | Special

  datatype Member = Member(name: string, kind: Kind, mode: nat, uid: int, gid: int, content: string)

  /** `_archive_name`: one leading "./" is dropped. */
  function ArchiveName(m: Member): string {
    if "./" <= m.name then m.name[2..] else m.name
  }

  function Split(s: string): (parts: Path)
    ensures |parts| > 0
  {
    if s == "" then [""]
    else if s[0] == '/' then [""] + Split(s[1..])
    else var rest := Split(s[1..]); [[s[0]] + rest[0]] + rest[1..]
  }

  function Join(parts: Path): string
    requires |parts| > 0
  {
    if |parts| == 1 then parts[0] else parts[0] + ['/'] + Join(parts[1..])
  }

  predicate Control(c: char) { c as int < 32 || c as int == 127 }

  ghost predicate PlainPart(p: string) { p != "" && p != "." && p != ".." && '/' !in p }

  ghost predicate Plain(parts: Path) { |parts| > 0 && forall i | 0 <= i < |parts| :: PlainPart(parts[i]) }

  /** Lines 45-48. */
  predicate SafeName(name: string) {
    && name != "" && name[0] != '/' && (forall i | 0 <= i < |name| :: name[i] != '\\' && !Control(name[i]))
    && (forall i | 0 <= i < |Split(name)| :: Split(name)[i] != "" && Split(name)[i] != "." && Split(name)[i] != "..")
  }

  /** No set-id, sticky or foreign write bit: mode & 07022 is 0. */
  predicate SafeMode(mode: nat) { mode / 512 % 8 == 0 && mode / 16 % 2 == 0 && mode / 2 % 2 == 0 }

  predicate SafeMember(m: Member) {
    SafeName(ArchiveName(m)) && !m.kind.Special? && SafeMode(m.mode) && m.uid == 0 && m.gid == 0
  }

  predicate RootEntry(m: Member) { ArchiveName(m) == "." && m.kind.Folder? }

  /** Some proper ancestor of the name is a member, and not a directory. */
  predicate Conflict(members: map<string, Member>, name: string) {
    var parts := Split(name);
    exists k | 0 < k < |parts| :: Join(parts[..k]) in members && !members[Join(parts[..k])].kind.Folder?
  }

  ghost predicate AllSafe(ms: seq<Member>) {
    forall i | 0 <= i < |ms| :: RootEntry(ms[i]) || SafeMember(ms[i])
  }

  ghost predicate DistinctNames(ms: seq<Member>) {
    forall i, j | 0 <= i < j < |ms| :: RootEntry(ms[i]) || RootEntry(ms[j]) || ArchiveName(ms[i]) != ArchiveName(ms[j])
  }

  /** Whatever is a proper ancestor of a member is a directory. */
  ghost predicate AncestorsAreFolders(ms: seq<Member>) {
    forall i, j, k | 0 <= i < |ms| && 0 <= j < |ms| && !RootEntry(ms[i]) && !RootEntry(ms[j])
    && 0 < k < |Split(ArchiveName(ms[i]))| ::
      Join(Split(ArchiveName(ms[i]))[..k]) == ArchiveName(ms[j]) ==> ms[j].kind.Folder?
  }

  /** What is accepted, said of the whole list at once. */
  ghost predicate Accepted(ms: seq<Member>) { AllSafe(ms) && DistinctNames(ms) && AncestorsAreFolders(ms) }

  ghost predicate Holds(members: map<string, Member>, ms: seq<Member>) {
    && (forall i | 0 <= i < |ms| && !RootEntry(ms[i]) ::
         ArchiveName(ms[i]) in members && members[ArchiveName(ms[i])] == ms[i])
    && (forall n | n in members ::
         SafeMember(members[n]) && ArchiveName(members[n]) == n && members[n] in ms && !RootEntry(members[n]))
  }

  lemma OneMore(members: map<string, Member>, ms: seq<Member>, m: Member)
    requires Holds(members, ms) && AllSafe(ms) && DistinctNames(ms)
    requires RootEntry(m) || (SafeMember(m) && ArchiveName(m) !in members)
    ensures Holds(if RootEntry(m) then members else members[ArchiveName(m) := m], ms + [m]) && AllSafe(ms + [m])
            && DistinctNames(ms + [m])
  {
  }

  lemma Spoiled(members: map<string, Member>, ms: seq<Member>, i: nat)
    requires i < |ms| && Holds(members, ms[..i]) && !RootEntry(ms[i])
             && (!SafeMember(ms[i]) || ArchiveName(ms[i]) in members)
    ensures !AllSafe(ms) || !DistinctNames(ms)
  {
    if SafeMember(ms[i]) {
      var j :| 0 <= j < i && ms[j] == members[ArchiveName(ms[i])];
    }
  }

  /** Lines 39-53. */
  method CollectMembers(ms: seq<Member>) returns (r: Result<map<string, Member>, ()>)
    ensures r.Ok? ==> Holds(r.value, ms)
    ensures r.Ok? <==> AllSafe(ms) && DistinctNames(ms)
  {
    var members: map<string, Member> := map[];
    for i := 0 to |ms|
      invariant Holds(members, ms[..i]) && AllSafe(ms[..i]) && DistinctNames(ms[..i])
    {
      var m := ms[i];
      if !RootEntry(m) && (!SafeMember(m) || ArchiveName(m) in members) {
        Spoiled(members, ms, i);
        return Err(());
      }
      OneMore(members, ms[..i], m);
      assert ms[..i + 1] == ms[..i] + [m];
      if !RootEntry(m) { members := members[ArchiveName(m) := m]; }
    }
    assert ms[..|ms|] == ms;
    r := Ok(members);
  }

  /** Lines 39-57. */
  method SafeMembers(ms: seq<Member>) returns (r: Result<map<string, Member>, ()>)
    ensures r.Ok? ==> Holds(r.value, ms) && forall n | n in r.value :: !Conflict(r.value, n)
    ensures r.Ok? <==> Accepted(ms)
  {
    r := CollectMembers(ms);
    if r.Err? { return; }
    var members := r.value;
    var todo := members.Keys;
    while todo != {}
      invariant todo <= members.Keys
      invariant forall n | n in members && n !in todo :: !Conflict(members, n)
    {
      var name :| name in todo;
      if Conflict(members, name) {
        ConflictRefutes(members, ms, name);
        return Err(());
      }
      todo := todo - {name};
    }
    NoConflictAccepts(members, ms);
  }

  lemma ConflictRefutes(members: map<string, Member>, ms: seq<Member>, name: string)
    requires Holds(members, ms) && name in members && Conflict(members, name)
    ensures !AncestorsAreFolders(ms)
  {
    var parts := Split(name);
    var k :| 0 < k < |parts| && Join(parts[..k]) in members && !members[Join(parts[..k])].kind.Folder?;
    var i :| 0 <= i < |ms| && ms[i] == members[name];
    var j :| 0 <= j < |ms| && ms[j] == members[Join(parts[..k])];
  }

  lemma NoConflictAccepts(members: map<string, Member>, ms: seq<Member>)
    requires Holds(members, ms) && forall n | n in members :: !Conflict(members, n)
    ensures AncestorsAreFolders(ms)
  {
    forall i, j, k | 0 <= i < |ms| && 0 <= j < |ms| && !RootEntry(ms[i]) && !RootEntry(ms[j])
    && 0 < k < |Split(ArchiveName(ms[i]))|
                     && Join(Split(ArchiveName(ms[i]))[..k]) == ArchiveName(ms[j])
      ensures ms[j].kind.Folder?
    {
      var n := ArchiveName(ms[i]);
      assert n in members && !Conflict(members, n);
      assert members[ArchiveName(ms[j])] == ms[j];
    }
  }

  // Names and paths.

  lemma {:induction false} SplitJoined(s: string)
    ensures Join(Split(s)) == s && forall i | 0 <= i < |Split(s)| :: '/' !in Split(s)[i]
  {
    if s != "" {
      SplitJoined(s[1..]);
      assert s == [s[0]] + s[1..];
    }
  }

  lemma {:induction false} JoinSplit(parts: Path)
    requires |parts| > 0 && forall i | 0 <= i < |parts| :: '/' !in parts[i]
    ensures Split(Join(parts)) == parts
    decreases |parts|, |parts[0]|
  {
    var p := parts[0];
    if p == "" {
      if |parts| == 1 {
        assert Join(parts) == "";
      } else {
        JoinSplit(parts[1..]);
        assert Join(parts)[1..] == Join(parts[1..]);
        assert parts == [""] + parts[1..];
      }
    } else {
      var shorter := [p[1..]] + parts[1..];
      assert shorter[1..] == parts[1..];
      assert forall i | 0 < i < |parts| :: shorter[i] == parts[i];
      JoinSplit(shorter);
      assert Join(parts) == [p[0]] + Join(shorter);
      assert Join(parts)[1..] == Join(shorter) && Join(parts)[0] == p[0];
      assert [p[0]] + p[1..] == p;
    }
  }

  lemma SafePath(name: string)
    requires SafeName(name)
    ensures Plain(Split(name)) && Join(Split(name)) == name
  {
    SplitJoined(name);
  }

  // What is accepted, stated without the code.

  /** The mode as octal digits: none of set-user-ID, set-group-ID and sticky, and no write bit for
      the group or for others. */
  ghost predicate Unshared(mode: nat) {
    mode / 512 % 8 == 0 && mode / 8 % 8 in {0, 1, 4, 5} && mode % 8 in {0, 1, 4, 5}
  }

  lemma WriteBit(digit: nat)
    requires digit < 8
    ensures digit / 2 % 2 == 0 <==> digit in {0, 1, 4, 5}
  {
  }

  lemma HalfOdd(a: nat, b: nat)
    ensures (2 * a + b) % 2 == b % 2
  {
  }

  lemma SafeModeIff(mode: nat)
    ensures SafeMode(mode) <==> Unshared(mode)
  {
    var high, group, other := mode / 64, mode / 8 % 8, mode % 8;
    assert mode == 64 * high + 8 * group + other;
    assert mode / 16 == 4 * high + group / 2;
    assert mode / 2 == 32 * high + 4 * group + other / 2;
    HalfOdd(2 * high, group / 2);
    HalfOdd(16 * high + 2 * group, other / 2);
    WriteBit(group);
    WriteBit(other);
  }

  ghost predicate Printable(s: string) {
    forall i | 0 <= i < |s| :: ' ' <= s[i] && s[i] as int != 127 && s[i] != '\\'
  }

  /** The entry of the root, which is passed over. */
  ghost predicate IsRoot(m: Member) { (m.name == "." || m.name == "./.") && m.kind.Folder? }

  /** A directory or a regular file of root at the path, which has plain printable parts. */
  ghost predicate StandsFor(m: Member, path: Path) {
    && Plain(path) && (m.name == Join(path) || m.name == "./" + Join(path))
    && Printable(m.name)
    && (m.kind.Folder? || m.kind.File?) && Unshared(m.mode) && m.uid == 0 && m.gid == 0
  }

  lemma JoinStart(path: Path)
    requires Plain(path)
    ensures Join(path) != "" && Join(path) != "." && !("./" <= Join(path)) && Join(path)[0] != '/'
  {
    var p := path[0];
    assert PlainPart(p) && p[0] in p;
    var rest := if |path| > 1 then ['/'] + Join(path[1..]) else "";
    assert Join(path) == p + rest;
    assert Join(path)[0] == p[0];
    if |p| > 1 { assert Join(path)[1] == p[1] && p[1] in p; } else { assert p == [p[0]]; }
  }

  lemma RootIff(m: Member)
    ensures RootEntry(m) <==> IsRoot(m)
  {
    if "./" <= m.name { assert m.name == "./" + m.name[2..]; }
  }

  lemma SafeMemberIff(m: Member, path: Path)
    ensures StandsFor(m, path) <==> SafeMember(m) && path == Split(ArchiveName(m))
  {
    SafeModeIff(m.mode);
    var name := ArchiveName(m);
    if SafeMember(m) && path == Split(name) {
      SafePath(name);
      if "./" <= m.name { assert m.name == "./" + name; }
      PrintableName(m);
    }
    if StandsFor(m, path) {
      JoinStart(path);
      JoinSplit(path);
      assert name == Join(path);
      PrintableName(m);
      assert forall i | 0 <= i < |path| :: PlainPart(path[i]);
    }
  }

  lemma PrintableName(m: Member)
    ensures Printable(m.name) <==>
              forall i | 0 <= i < |ArchiveName(m)| :: ArchiveName(m)[i] != '\\' && !Control(ArchiveName(m)[i])
  {
    var name := ArchiveName(m);
    if "./" <= m.name {
      assert m.name == "./" + name;
      assert Printable(m.name) <==> Printable(name) by {
        assert forall i | 0 <= i < |name| :: name[i] == m.name[i + 2];
        if Printable(name) {
          forall i | 0 <= i < |m.name|
            ensures ' ' <= m.name[i] && m.name[i] as int != 127 && m.name[i] != '\\'
          {
            if i >= 2 { assert m.name[i] == name[i - 2]; }
          }
        }
      }
    }
    assert forall c: char :: Control(c) <==> !(' ' <= c) || c as int == 127;
  }

  /** The members other than the root stand for different paths, and a member above another is a
      directory. */
  ghost predicate OneTree(ms: seq<Member>, paths: seq<Path>) {
    && |paths| == |ms| && (forall i | 0 <= i < |ms| :: IsRoot(ms[i]) || StandsFor(ms[i], paths[i]))
    && forall i, j | 0 <= i < |ms| && 0 <= j < |ms| && i != j && !IsRoot(ms[i]) && !IsRoot(ms[j]) ::
         paths[i] != paths[j] && (paths[j] < paths[i] ==> ms[j].kind.Folder?)
  }

  lemma PathsAre(ms: seq<Member>, paths: seq<Path>)
    requires |paths| == |ms| && forall i | 0 <= i < |ms| && !RootEntry(ms[i]) :: paths[i] == Split(ArchiveName(ms[i]))
    ensures OneTree(ms, paths) <==> Accepted(ms)
  {
    forall i | 0 <= i < |ms|
      ensures RootEntry(ms[i]) <==> IsRoot(ms[i])
      ensures !RootEntry(ms[i]) ==> (StandsFor(ms[i], paths[i]) <==> SafeMember(ms[i]))
    {
      RootIff(ms[i]);
      SafeMemberIff(ms[i], paths[i]);
    }
    forall i, j | 0 <= i < |ms| && 0 <= j < |ms| && !RootEntry(ms[i]) && !RootEntry(ms[j])
      ensures paths[i] == paths[j] <==> ArchiveName(ms[i]) == ArchiveName(ms[j])
      ensures Above(ms, i, j) <==> paths[j] < paths[i]
    {
      AboveIff(ms, i, j);
    }
    TreeIff(ms, paths);
  }

  /** `j` is the name of a proper ancestor of `i`. */
  ghost predicate Above(ms: seq<Member>, i: nat, j: nat)
    requires i < |ms| && j < |ms|
  {
    exists k | 0 < k < |Split(ArchiveName(ms[i]))| :: Join(Split(ArchiveName(ms[i]))[..k]) == ArchiveName(ms[j])
  }

  lemma AboveIff(ms: seq<Member>, i: nat, j: nat)
    requires i < |ms| && j < |ms|
    ensures Split(ArchiveName(ms[i])) == Split(ArchiveName(ms[j])) <==> ArchiveName(ms[i]) == ArchiveName(ms[j])
    ensures Above(ms, i, j) <==> Split(ArchiveName(ms[j])) < Split(ArchiveName(ms[i]))
  {
    var p, q := Split(ArchiveName(ms[i])), Split(ArchiveName(ms[j]));
    SplitJoined(ArchiveName(ms[i]));
    SplitJoined(ArchiveName(ms[j]));
    if k :| 0 < k < |p| && Join(p[..k]) == ArchiveName(ms[j]) {
      JoinSplit(p[..k]);
      assert q == p[..k];
    }
    if q < p { assert p[..|q|] == q && Join(p[..|q|]) == ArchiveName(ms[j]); }
  }

  ghost predicate FoldersAbove(ms: seq<Member>) {
    forall i, j | 0 <= i < |ms| && 0 <= j < |ms| && !RootEntry(ms[i]) && !RootEntry(ms[j]) && Above(ms, i, j) ::
      ms[j].kind.Folder?
  }

  lemma AncestorsIff(ms: seq<Member>)
    ensures AncestorsAreFolders(ms) <==> FoldersAbove(ms)
  {
    if FoldersAbove(ms) {
      forall i, j, k | 0 <= i < |ms| && 0 <= j < |ms| && !RootEntry(ms[i]) && !RootEntry(ms[j])
                       && 0 < k < |Split(ArchiveName(ms[i]))|
                       && Join(Split(ArchiveName(ms[i]))[..k]) == ArchiveName(ms[j])
        ensures ms[j].kind.Folder?
      {
        assert Above(ms, i, j);
      }
    }
  }

  lemma TreeIff(ms: seq<Member>, paths: seq<Path>)
    requires |paths| == |ms|
    requires forall i | 0 <= i < |ms| ::
              && (RootEntry(ms[i]) <==> IsRoot(ms[i]))
              && (!RootEntry(ms[i]) ==> (StandsFor(ms[i], paths[i]) <==> SafeMember(ms[i])))
    requires forall i, j | 0 <= i < |ms| && 0 <= j < |ms| && !RootEntry(ms[i]) && !RootEntry(ms[j]) ::
              && (paths[i] == paths[j] <==> ArchiveName(ms[i]) == ArchiveName(ms[j]))
              && (Above(ms, i, j) <==> paths[j] < paths[i])
    ensures OneTree(ms, paths) <==> Accepted(ms)
  {
    hide RootEntry, IsRoot, StandsFor, SafeMember, ArchiveName, Above;
    AncestorsIff(ms);
  }

  /** On every list of members: accepted exactly when they stand for one tree. */
  lemma AcceptedIff(ms: seq<Member>)
    ensures Accepted(ms) <==> exists paths :: OneTree(ms, paths)
  {
    var paths := seq(|ms|, i requires 0 <= i < |ms| => Split(ArchiveName(ms[i])));
    PathsAre(ms, paths);
    forall other | OneTree(ms, other)
      ensures Accepted(ms)
    {
      forall i | 0 <= i < |ms| && !RootEntry(ms[i])
        ensures other[i] == Split(ArchiveName(ms[i]))
      {
        RootIff(ms[i]);
        SafeMemberIff(ms[i], other[i]);
      }
      PathsAre(ms, other);
    }
  }

  // The tree the members make.

  datatype Node = Directory(mode: int) | Regular(content: string)

  /** A directory that exists only because something lies below it. */
  ghost const IMPLIED: Node := Directory(-1)

  ghost function NodeOf(m: Member): Node { if m.kind.Folder? then Directory(m.mode) else Regular(m.content) }

  type Tree = imap<Path, Node>

  ghost function Bare(): Tree { imap[[] := IMPLIED] }

  ghost predicate Fits(t: Tree, p: Path, n: Node) {
    && (forall k | 0 <= k < |p| :: p[..k] in t ==> t[p[..k]].Directory?)
    && (p in t ==> t[p].Directory? && n.Directory?)
  }

  /** Putting one member in place, with the directories above it. */
  ghost function Placed(t: Tree, p: Path, n: Node): Tree {
    imap q: Path | q in t || q <= p :: if q == p then n else if q in t then t[q] else IMPLIED
  }

  /** The members as nodes under their paths. */
  ghost function Nodes(members: map<string, Member>): map<Path, Node>
    requires forall n | n in members :: SafeName(n)
  {
    map p | p in (set n | n in members :: Split(n)) :: NodeOf(members[Named(members, p)])
  }

  ghost function Named(members: map<string, Member>, p: Path): (n: string)
    requires (forall n | n in members :: SafeName(n)) && p in (set n | n in members :: Split(n))
    ensures n in members && Split(n) == p && |p| > 0 && n == Join(p)
  {
    var n :| n in members && Split(n) == p;
    SplitJoined(n);
    n
  }

  /** Every node in its place, and every path above one. */
  ghost function Canonical(s: map<Path, Node>): Tree {
    imap q: Path | q == [] || exists p :: p in s && q <= p :: if q in s then s[q] else IMPLIED
  }

  ghost predicate WellFormed(s: map<Path, Node>) {
    [] !in s && forall p, q | p in s && q in s && p < q :: s[p].Directory?
  }

  /** The order of the members does not matter for one step: the next node always fits, and the
      tree stays the canonical one. */
  lemma PlacedCanonical(s: map<Path, Node>, p: Path, n: Node)
    requires p !in s && WellFormed(s[p := n])
    ensures Fits(Canonical(s), p, n) && Placed(Canonical(s), p, n) == Canonical(s[p := n])
  {
    var t, u := Canonical(s), s[p := n];
    forall k | 0 <= k < |p| && p[..k] in t
      ensures t[p[..k]].Directory?
    {
      if p[..k] in s { assert p[..k] in u && p in u && p[..k] < p; }
    }
    assert p in u && p != [];
    if p in t {
      var q :| q in s && p <= q;
      assert q in u && p in u && p != q && p < q;
    }
    forall q: Path
      ensures q in Placed(t, p, n) <==> q in Canonical(u)
    {
      if q in t && q != [] {
        var r :| r in s && q <= r;
        assert r in u;
      }
      if q <= p { assert p in u; }
      if q in Canonical(u) && q != [] {
        var r :| r in u && q <= r;
        assert r == p || r in s;
      }
    }
  }

  ghost function Extract(t: Tree, order: seq<Path>, nodes: map<Path, Node>): Option<Tree>
    requires forall i | 0 <= i < |order| :: order[i] in nodes
    decreases |order|
  {
    if order == [] then Some(t)
    else
      var init, p := order[..|order| - 1], order[|order| - 1];
      var u := Extract(t, init, nodes);
      if u.None? || !Fits(u.value, p, nodes[p]) then None else Some(Placed(u.value, p, nodes[p]))
  }

  /** Extraction in any order succeeds and gives the one canonical tree. */
  lemma {:induction false} AnyOrder(nodes: map<Path, Node>, order: seq<Path>)
    requires WellFormed(nodes) && (forall i | 0 <= i < |order| :: order[i] in nodes)
    requires forall i, j | 0 <= i < j < |order| :: order[i] != order[j]
    ensures Extract(Bare(), order, nodes) == Some(Canonical(Among(nodes, order)))
    decreases |order|
  {
    if order == [] {
      assert Among(nodes, order) == map[];
      assert Bare() == Canonical(map[]);
    } else {
      var init, p := order[..|order| - 1], order[|order| - 1];
      AnyOrder(nodes, init);
      OneMoreAmong(nodes, order, init, p);
      PlacedCanonical(Among(nodes, init), p, nodes[p]);
    }
  }

  /** The nodes at these paths. */
  ghost function Among(nodes: map<Path, Node>, order: seq<Path>): map<Path, Node> {
    map p | p in nodes && p in order :: nodes[p]
  }

  lemma OneMoreAmong(nodes: map<Path, Node>, order: seq<Path>, init: seq<Path>, p: Path)
    requires order == init + [p] && p in nodes && forall i, j | 0 <= i < j < |order| :: order[i] != order[j]
    ensures p !in init && Among(nodes, order) == Among(nodes, init)[p := nodes[p]]
  {
    assert forall i | 0 <= i < |init| :: init[i] == order[i];
    assert order[|init|] == p;
  }

  lemma NodesAre(members: map<string, Member>, p: Path)
    requires forall n | n in members :: SafeName(n)
    ensures p in Nodes(members) <==> |p| > 0 && Split(Join(p)) == p && Join(p) in members
    ensures p in Nodes(members) ==> Nodes(members)[p] == NodeOf(members[Join(p)])
  {
    if |p| > 0 && Split(Join(p)) == p && Join(p) in members {
      assert p in (set n | n in members :: Split(n));
    }
    if p in Nodes(members) {
      var n := Named(members, p);
      assert Join(p) == n;
    }
  }

  lemma PrefixConflict(members: map<string, Member>, p: Path, q: Path)
    requires (forall n | n in members :: SafeName(n) && !Conflict(members, n)) && p in Nodes(members)
             && q in Nodes(members) && p < q
    ensures Nodes(members)[p].Directory?
  {
    NodesAre(members, p);
    NodesAre(members, q);
    assert !Conflict(members, Join(q));
    assert q[..|p|] == p;
  }

  /** What is accepted has unique safe names, and its members make one tree. */
  lemma AcceptedIsTree(members: map<string, Member>, ms: seq<Member>)
    requires Holds(members, ms) && forall n | n in members :: !Conflict(members, n)
    ensures forall n | n in members :: SafeName(n)
    ensures WellFormed(Nodes(members)) && forall p | p in Nodes(members) :: Plain(p)
  {
    assert forall n | n in members :: SafeName(n);
    forall p, q | p in Nodes(members) && q in Nodes(members) && p < q
      ensures Nodes(members)[p].Directory?
    {
      PrefixConflict(members, p, q);
    }
    forall p | p in Nodes(members)
      ensures Plain(p) && p != []
    {
      NodesAre(members, p);
      SafePath(Join(p));
    }
  }

  /** Following a path from a directory, with ".." leading up; None above the root. */
  ghost function Resolve(at: Path, parts: Path): Option<Path>
    decreases |parts|
  {
    if parts == [] then Some(at)
    else if parts[0] == "" || parts[0] == "." then Resolve(at, parts[1..])
    else if parts[0] == ".." then if at == [] then None else Resolve(at[..|at| - 1], parts[1..])
    else Resolve(at + [parts[0]], parts[1..])
  }

  /** No member leaves the root: following its path leads exactly to its place. */
  lemma {:induction false} StaysInside(at: Path, parts: Path)
    requires forall i | 0 <= i < |parts| :: PlainPart(parts[i])
    ensures Resolve(at, parts) == Some(at + parts)
    decreases |parts|
  {
    if parts == [] {
      assert at + parts == at;
    } else {
      StaysInside(at + [parts[0]], parts[1..]);
      assert at + [parts[0]] + parts[1..] == at + parts;
    }
  }

  /** The whole: an accepted archive, extracted in any order of its members, gives one tree. */
  lemma AcceptedExtracts(members: map<string, Member>, ms: seq<Member>, order: seq<Path>)
    requires Holds(members, ms) && forall n | n in members :: !Conflict(members, n)
    requires forall n | n in members :: SafeName(n)
    requires (forall i | 0 <= i < |order| :: order[i] in Nodes(members))
             && (forall p | p in Nodes(members) :: p in order)
    requires forall i, j | 0 <= i < j < |order| :: order[i] != order[j]
    ensures Extract(Bare(), order, Nodes(members)) == Some(Canonical(Nodes(members)))
  {
    AcceptedIsTree(members, ms);
    WholeOrder(Nodes(members), order);
  }

  lemma WholeOrder(nodes: map<Path, Node>, order: seq<Path>)
    requires WellFormed(nodes)
    requires (forall i | 0 <= i < |order| :: order[i] in nodes) && (forall p | p in nodes :: p in order)
    requires forall i, j | 0 <= i < j < |order| :: order[i] != order[j]
    ensures Extract(Bare(), order, nodes) == Some(Canonical(nodes))
  {
    AnyOrder(nodes, order);
    assert Among(nodes, order) == nodes;
  }
}
