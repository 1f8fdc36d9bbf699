/** scripts/delete-preview.py lines 51-89: what a Preview holds, and how two listings of it are
    compared. */
module Previews {
  import opened Outcomes
  import opened GitHub

  // Lines 51-56 and 75: the package names.

  datatype Packages = Packages(x86: string, arm: string)

  function Around(before: string, arch: string, after: string): string { before + arch + after }

  function Before(unit: string, tag: string): string {
    if unit == "runtime" then "sandbox-runtime-" else if unit == "vmlinux" then "vmlinux-"
        else unit + "-" + tag + "-linux-"
  }

  function After(unit: string, tag: string): string {
    if unit == "runtime" || unit == "vmlinux" then
      "-" + (if unit + "-" <= tag then tag[|unit| + 1..] else tag) + ".tar.gz"
    else ".tar.gz"
  }

  function PackageNames(unit: string, tag: string): Packages {
    Packages(Around(Before(unit, tag), "x86_64", After(unit, tag)),
        Around(Before(unit, tag), "aarch64", After(unit, tag)))
  }

  /** What the packages of the units are called. */
  lemma RuntimePackages(version: string)
    ensures PackageNames("runtime", "runtime-" + version) == Packages(
              "sandbox-runtime-" + "x86_64" + "-" + version + ".tar.gz",
              "sandbox-runtime-" + "aarch64" + "-" + version + ".tar.gz")
  {
    assert "runtime" + "-" == "runtime-" && ("runtime-" + version)[8..] == version;
    Reassociated("sandbox-runtime-", "x86_64", "-", version, ".tar.gz");
    Reassociated("sandbox-runtime-", "aarch64", "-", version, ".tar.gz");
  }

  lemma KernelPackages(version: string)
    ensures PackageNames("vmlinux", "vmlinux-" + version) == Packages(
              "vmlinux-" + "x86_64" + "-" + version + ".tar.gz", "vmlinux-" + "aarch64" + "-" + version + ".tar.gz")
  {
    assert "vmlinux" + "-" == "vmlinux-" && ("vmlinux-" + version)[8..] == version;
    Reassociated("vmlinux-", "x86_64", "-", version, ".tar.gz");
    Reassociated("vmlinux-", "aarch64", "-", version, ".tar.gz");
  }

  lemma ComponentPackages(unit: string, tag: string)
    requires unit != "runtime" && unit != "vmlinux"
    ensures PackageNames(unit, tag) == Packages(
              unit + "-" + tag + "-linux-" + "x86_64" + ".tar.gz", unit + "-" + tag + "-linux-" + "aarch64" + ".tar.gz")
  {
  }

  lemma Reassociated(a: string, b: string, c: string, d: string, e: string)
    ensures Around(a, b, c + d + e) == a + b + c + d + e
  {
  }

  ghost predicate Contains(s: string, part: string) {
    exists a, b :: s == Around(a, part, b)
  }

  lemma OnlyX86Contains(before: string, after: string)
    requires '_' !in before && '_' !in after
    ensures Contains(Around(before, "x86_64", after), "x86_64") && !Contains(Around(before, "aarch64", after), "x86_64")
  {
    var arm := Around(before, "aarch64", after);
    assert '_' !in arm;
    forall a, b
      ensures arm != Around(a, "x86_64", b)
    {
      assert Around(a, "x86_64", b)[|a| + 3] == '_';
    }
  }

  /** Filtering the names by architecture leaves exactly the x86_64 package. */
  lemma FilteredName(unit: string, tag: string)
    requires '_' !in unit && '_' !in tag
    ensures Contains(PackageNames(unit, tag).x86, "x86_64") && !Contains(PackageNames(unit, tag).arm, "x86_64")
  {
    assert '_' !in Before(unit, tag) && '_' !in After(unit, tag);
    OnlyX86Contains(Before(unit, tag), After(unit, tag));
  }

  // Lines 59-76: the verdict.

  predicate Hex(s: string) { forall c | c in s :: '0' <= c <= '9' || 'a' <= c <= 'f' }

  predicate IsDigest(s: string) { |s| == 71 && s[..7] == "sha256:" && Hex(s[7..]) }

  predicate KnownRow(row: Row, p: Packages) {
    && row.name.Some? && (row.name.value == p.x86 || row.name.value == p.arm)
    && row.id.Some? && row.id.value > 0 && row.size.Some? && row.size.value > 0
    && row.digest.Some? && IsDigest(row.digest.value)
    && (row.state == Some("uploaded") || row.state == Some("starter"))
  }

  /** A row of one of the two packages that says where its upload stands. */
  ghost predicate IsPackage(row: Row, p: Packages) {
    && (row.name == Some(p.x86) || row.name == Some(p.arm))
    && (row.state == Some("uploaded") || row.state == Some("starter"))
    && row.id.Some? && row.id.value > 0 && row.size.Some? && row.size.value > 0
    && exists hash :: row.digest == Some("sha256:" + hash) && |hash| == 64 && OnlyIn(hash, "0123456789abcdef")
  }

  ghost predicate OnlyIn(s: string, allowed: string) { forall k | 0 <= k < |s| :: s[k] in allowed }

  lemma KnownIsPackage(row: Row, p: Packages)
    ensures KnownRow(row, p) <==> IsPackage(row, p)
  {
    HexDigits();
    if KnownRow(row, p) {
      var d := row.digest.value;
      assert d == "sha256:" + d[7..];
      assert forall k | 0 <= k < |d[7..]| :: d[7..][k] in d[7..];
      assert |d[7..]| == 64 && OnlyIn(d[7..], "0123456789abcdef");
    }
    if IsPackage(row, p) {
      var hash :| row.digest == Some("sha256:" + hash) && |hash| == 64 && OnlyIn(hash, "0123456789abcdef");
      assert ("sha256:" + hash)[7..] == hash && ("sha256:" + hash)[..7] == "sha256:";
    }
  }

  /** Rows that the scripts make no use of. */
  ghost predicate Sums(row: Row) { row.name == Some("SHA256SUMS") }

  /** The rows can be judged: every one stands for a package, under a name and a number that no
      other has, apart from lists of checksums. */
  ghost predicate Judgeable(rows: seq<Row>, p: Packages) {
    && (forall k | 0 <= k < |rows| && !Sums(rows[k]) :: IsPackage(rows[k], p))
    && forall j, k | 0 <= j < k < |rows| && !Sums(rows[j]) && !Sums(rows[k]) ::
         rows[j].name != rows[k].name && rows[j].id != rows[k].id
  }

  lemma {:induction false} RelevantIn(rows: seq<Row>, x: Row)
    ensures x in Relevant(rows) <==> x in rows && !Sums(x)
  {
    if rows != [] {
      RelevantIn(rows[1..], x);
      assert x in rows <==> x == rows[0] || x in rows[1..];
    }
  }

  lemma {:induction false} KnownIff(rows: seq<Row>, p: Packages)
    ensures Known(Relevant(rows), p) <==> Judgeable(rows, p)
  {
    if rows != [] {
      KnownIff(rows[1..], p);
      KnownIsPackage(rows[0], p);
      if Sums(rows[0]) {
        SkipFirst(rows, p);
        assert Relevant(rows) == Relevant(rows[1..]);
      } else { TakeFirst(rows, p); }
    }
  }

  lemma SkipFirst(rows: seq<Row>, p: Packages)
    requires rows != [] && Sums(rows[0])
    ensures Judgeable(rows, p) <==> Judgeable(rows[1..], p)
  {
    var rest := rows[1..];
    assert forall k | 0 < k < |rows| :: rows[k] == rest[k - 1];
    if Judgeable(rest, p) {
      forall j, k | 0 <= j < k < |rows| && !Sums(rows[j]) && !Sums(rows[k])
        ensures rows[j].name != rows[k].name && rows[j].id != rows[k].id
      {
        assert rows[j] == rest[j - 1];
      }
    }
    if Judgeable(rows, p) {
      forall j, k | 0 <= j < k < |rest| && !Sums(rest[j]) && !Sums(rest[k])
        ensures rest[j].name != rest[k].name && rest[j].id != rest[k].id
      {
        assert rest[j] == rows[j + 1] && rest[k] == rows[k + 1];
      }
    }
  }

  ghost predicate Unlike(row: Row, rows: seq<Row>) {
    forall r | r in rows :: r.name != row.name && r.id != row.id
  }

  lemma TakeFirst(rows: seq<Row>, p: Packages)
    requires rows != [] && !Sums(rows[0]) && (KnownRow(rows[0], p) <==> IsPackage(rows[0], p))
    requires Known(Relevant(rows[1..]), p) <==> Judgeable(rows[1..], p)
    ensures Known(Relevant(rows), p) <==> Judgeable(rows, p)
  {
    var rest := rows[1..];
    forall x ensures x in Relevant(rest) <==> x in rest && !Sums(x) { RelevantIn(rest, x); }
    KnownFirst(rows[0], Relevant(rest), p);
    JudgeableFirst(rows, p);
    assert Relevant(rows) == [rows[0]] + Relevant(rest);
  }

  lemma KnownFirst(row: Row, rows: seq<Row>, p: Packages)
    ensures Known([row] + rows, p) <==> KnownRow(row, p) && Known(rows, p) && Unlike(row, rows)
  {
    var all := [row] + rows;
    assert forall k | 0 < k < |all| :: all[k] == rows[k - 1];
    if Known(all, p) {
      forall k | 0 <= k < |rows|
        ensures KnownRow(rows[k], p) && rows[k].name != row.name && rows[k].id != row.id
      {
        assert all[0] == row && all[k + 1] == rows[k];
      }
      forall j, k | 0 <= j < k < |rows|
        ensures rows[j].name != rows[k].name && rows[j].id != rows[k].id
      {
        assert all[j + 1] == rows[j] && all[k + 1] == rows[k];
      }
    }
    if Known(all, p) {
      assert all[0] == row;
      forall r | r in rows
        ensures r.name != row.name && r.id != row.id
      {
        var k :| 0 <= k < |rows| && rows[k] == r;
        assert all[k + 1] == r;
      }
    }
    if KnownRow(row, p) && Known(rows, p) && Unlike(row, rows) {
      forall k | 0 <= k < |all|
        ensures KnownRow(all[k], p)
      {
        if k > 0 { assert all[k] == rows[k - 1]; }
      }
      forall j, k | 0 <= j < k < |all|
        ensures all[j].name != all[k].name && all[j].id != all[k].id
      {
        assert all[k] == rows[k - 1] && all[k] in rows;
        if j > 0 { assert all[j] == rows[j - 1]; }
      }
    }
  }

  lemma JudgeableFirst(rows: seq<Row>, p: Packages)
    requires rows != [] && !Sums(rows[0])
    ensures Judgeable(rows, p) <==>
              IsPackage(rows[0], p) && Judgeable(rows[1..], p) && forall r | r in rows[1..] && !Sums(r) ::
                r.name != rows[0].name && r.id != rows[0].id
  {
    var rest := rows[1..];
    assert forall k | 0 < k < |rows| :: rows[k] == rest[k - 1];
    if Judgeable(rows, p) {
      forall k | 0 <= k < |rest| && !Sums(rest[k])
        ensures IsPackage(rest[k], p) && rest[k].name != rows[0].name && rest[k].id != rows[0].id
      {
        assert rest[k] == rows[k + 1];
      }
      forall j, k | 0 <= j < k < |rest| && !Sums(rest[j]) && !Sums(rest[k])
        ensures rest[j].name != rest[k].name && rest[j].id != rest[k].id
      {
        assert rest[j] == rows[j + 1] && rest[k] == rows[k + 1];
      }
    }
    if IsPackage(rows[0], p) && Judgeable(rest, p)
       && forall r | r in rest && !Sums(r) :: r.name != rows[0].name && r.id != rows[0].id {
      forall j, k | 0 <= j < k < |rows| && !Sums(rows[j]) && !Sums(rows[k])
        ensures rows[j].name != rows[k].name && rows[j].id != rows[k].id
      {
        assert rows[k] == rest[k - 1] && rows[k] in rest;
        if j > 0 { assert rows[j] == rest[j - 1]; }
      }
    }
  }

  function Relevant(rows: seq<Row>): seq<Row> {
    if rows == [] then []
    else (if rows[0].name != Some("SHA256SUMS") then [rows[0]] else []) + Relevant(rows[1..])
  }

  /** The rows can be judged at all. */
  ghost predicate Known(rows: seq<Row>, p: Packages) {
    && (forall i | 0 <= i < |rows| :: KnownRow(rows[i], p))
    && (forall i, j | 0 <= i < j < |rows| :: rows[i].name != rows[j].name && rows[i].id != rows[j].id)
  }

  ghost predicate Whole(release: Release, p: Packages) {
    && !release.draft && release.prerelease
    && (exists r | r in release.assets && !Sums(r) :: r.name == Some(p.x86))
    && (forall r | r in release.assets && !Sums(r) :: r.state == Some("uploaded"))
  }

  ghost function NamesOf(rows: seq<Row>): set<string> {
    set r | r in rows && r.name.Some? :: r.name.value
  }

  ghost function IdsOf(rows: seq<Row>): set<int> {
    set r | r in rows && r.id.Some? :: r.id.value
  }

  ghost predicate AllUploaded(rows: seq<Row>) {
    forall r | r in rows :: r.state == Some("uploaded")
  }

  /** An unknown row, a repeated name or a repeated number spoils the list. */
  lemma Spoiled(rows: seq<Row>, i: nat, p: Packages)
    requires i < |rows|
    requires !KnownRow(rows[i], p) || rows[i].name.value in NamesOf(rows[..i]) || rows[i].id.value in IdsOf(rows[..i])
    ensures !Known(rows, p)
  {
    if KnownRow(rows[i], p) {
      var r :| r in rows[..i] && (r.name == rows[i].name || r.id == rows[i].id);
      var j :| 0 <= j < i && rows[j] == r;
    }
  }

  lemma OneMoreRow(rows: seq<Row>, i: nat, p: Packages)
    requires i < |rows| && Known(rows[..i], p) && KnownRow(rows[i], p)
    requires rows[i].name.value !in NamesOf(rows[..i]) && rows[i].id.value !in IdsOf(rows[..i])
    ensures Known(rows[..i + 1], p)
    ensures NamesOf(rows[..i + 1]) == NamesOf(rows[..i]) + {rows[i].name.value}
    ensures IdsOf(rows[..i + 1]) == IdsOf(rows[..i]) + {rows[i].id.value}
    ensures AllUploaded(rows[..i + 1]) <==> AllUploaded(rows[..i]) && rows[i].state == Some("uploaded")
  {
    assert rows[..i + 1] == rows[..i] + [rows[i]];
    assert forall r :: r in rows[..i + 1] <==> r in rows[..i] || r == rows[i];
    forall j | 0 <= j < i
      ensures rows[j].name != rows[i].name && rows[j].id != rows[i].id
    {
      assert rows[..i][j] in rows[..i];
    }
  }

  lemma NamesAreWhole(rows: seq<Row>, observed: set<string>, p: Packages)
    requires Known(rows, p) && observed == NamesOf(rows)
    ensures observed == {p.x86} || observed == {p.x86, p.arm} <==> exists r :: r in rows && r.name == Some(p.x86)
  {
    forall n | n in observed
      ensures n == p.x86 || n == p.arm
    {
      var r :| r in rows && r.name == Some(n);
      var i :| 0 <= i < |rows| && rows[i] == r;
    }
    if exists r :: r in rows && r.name == Some(p.x86) {
      assert p.x86 in observed;
      if p.arm in observed { assert observed == {p.x86, p.arm}; } else { assert observed == {p.x86}; }
    }
    if p.x86 in observed {
      var r :| r in rows && r.name == Some(p.x86);
    }
  }

  /** `complete`: Err for the refusals, then whether the Preview is complete. */
  method Complete(release: Release, p: Packages) returns (verdict: Result<bool, ()>)
    ensures verdict.Ok? <==> Judgeable(release.assets, p)
    ensures verdict.Ok? ==> (verdict.value <==> Whole(release, p))
  {
    var rows := Relevant(release.assets);
    KnownIff(release.assets, p);
    forall x ensures x in rows <==> x in release.assets && !Sums(x) { RelevantIn(release.assets, x); }
    var observed: set<string>, ids: set<int>, uploaded := {}, {}, true;
    for i := 0 to |rows|
      invariant Known(rows[..i], p) && observed == NamesOf(rows[..i]) && ids == IdsOf(rows[..i])
      invariant uploaded <==> AllUploaded(rows[..i])
    {
      if !KnownRow(rows[i], p) || rows[i].name.value in observed || rows[i].id.value in ids {
        Spoiled(rows, i, p);
        return Err(());
      }
      OneMoreRow(rows, i, p);
      observed, ids := observed + {rows[i].name.value}, ids + {rows[i].id.value};
      uploaded := uploaded && rows[i].state == Some("uploaded");
    }
    assert rows[..|rows|] == rows;
    NamesAreWhole(rows, observed, p);
    verdict := Ok(!release.draft && release.prerelease && (observed == {p.x86} || observed == {p.x86, p.arm})
        && uploaded);
  }

  // The verdict depends on the multiset of rows only.

  lemma {:induction false} RelevantCount(rows: seq<Row>, x: Row)
    ensures multiset(Relevant(rows))[x] == if x.name != Some("SHA256SUMS") then multiset(rows)[x] else 0
  {
    if rows != [] {
      RelevantCount(rows[1..], x);
      assert rows == [rows[0]] + rows[1..];
    }
  }

  lemma SameRelevant(a: seq<Row>, b: seq<Row>)
    requires multiset(a) == multiset(b)
    ensures multiset(Relevant(a)) == multiset(Relevant(b))
  {
    forall x
      ensures multiset(Relevant(a))[x] == multiset(Relevant(b))[x]
    {
      RelevantCount(a, x);
      RelevantCount(b, x);
    }
  }

  lemma SameMembers(a: seq<Row>, b: seq<Row>, x: Row)
    requires multiset(a) == multiset(b)
    ensures x in a <==> x in b
  {
    assert x in a <==> x in multiset(a);
    assert x in b <==> x in multiset(b);
  }

  /** `Known`, of a multiset of rows. */
  ghost predicate KnownRows(m: multiset<Row>, p: Packages) {
    && (forall x | x in m :: KnownRow(x, p) && m[x] == 1)
    && (forall x, y | x in m && y in m && x != y :: x.name != y.name && x.id != y.id)
  }

  lemma {:induction false} OnceOnly(rows: seq<Row>, x: Row)
    requires forall i, j | 0 <= i < j < |rows| :: rows[i] != rows[j]
    ensures multiset(rows)[x] <= 1
  {
    if rows != [] {
      var init, last := rows[..|rows| - 1], rows[|rows| - 1];
      assert rows == init + [last];
      OnceOnly(init, x);
      if x == last { assert x !in init; }
    }
  }

  lemma TwiceAtLeast(rows: seq<Row>, i: nat, j: nat)
    requires i < j < |rows| && rows[i] == rows[j]
    ensures multiset(rows)[rows[i]] >= 2
  {
    var head, tail := rows[..j], rows[j..];
    assert rows == head + tail;
    assert head[i] == rows[i] && tail[0] == rows[i];
    assert multiset(head)[rows[i]] >= 1 && multiset(tail)[rows[i]] >= 1;
  }

  lemma KnownToMultiset(rows: seq<Row>, p: Packages)
    requires Known(rows, p)
    ensures KnownRows(multiset(rows), p)
  {
    var m := multiset(rows);
    forall x | x in m
      ensures KnownRow(x, p) && m[x] == 1
    {
      assert x in rows;
      OnceOnly(rows, x);
    }
    forall x, y | x in m && y in m && x != y
      ensures x.name != y.name && x.id != y.id
    {
      assert x in rows && y in rows;
      var i :| 0 <= i < |rows| && rows[i] == x;
      var j :| 0 <= j < |rows| && rows[j] == y;
    }
  }

  lemma KnownFromMultiset(rows: seq<Row>, p: Packages)
    requires KnownRows(multiset(rows), p)
    ensures Known(rows, p)
  {
    forall i | 0 <= i < |rows|
      ensures KnownRow(rows[i], p) && multiset(rows)[rows[i]] == 1
    {
      assert rows[i] in multiset(rows);
    }
    forall i, j | 0 <= i < j < |rows|
      ensures rows[i].name != rows[j].name && rows[i].id != rows[j].id
    {
      assert rows[i] in multiset(rows) && rows[j] in multiset(rows);
      if rows[i] == rows[j] { TwiceAtLeast(rows, i, j); }
    }
  }

  /** Two listings with the same state flags and the same rows in any order get one verdict,
      refusals included. */
  lemma SameVerdict(a: Release, b: Release, p: Packages)
    requires a.draft == b.draft && a.prerelease == b.prerelease && multiset(a.assets) == multiset(b.assets)
    ensures Judgeable(a.assets, p) <==> Judgeable(b.assets, p)
    ensures Whole(a, p) <==> Whole(b, p)
  {
    KnownIff(a.assets, p);
    KnownIff(b.assets, p);
    SameRelevant(a.assets, b.assets);
    if Known(Relevant(a.assets), p) {
      KnownToMultiset(Relevant(a.assets), p);
      KnownFromMultiset(Relevant(b.assets), p);
    }
    if Known(Relevant(b.assets), p) {
      KnownToMultiset(Relevant(b.assets), p);
      KnownFromMultiset(Relevant(a.assets), p);
    }
    forall x
      ensures x in a.assets <==> x in b.assets
    {
      SameMembers(a.assets, b.assets, x);
    }
  }

  // Lines 86-89: the identity of a list of assets is the sorted list of their encodings.

  predicate AtMost(a: string, b: string) {
    a == [] || (b != [] && (a[0] < b[0] || (a[0] == b[0] && AtMost(a[1..], b[1..]))))
  }

  /** The order of the sorted lists: by the first character that differs. */
  lemma {:induction false} AtMostIff(a: string, b: string)
    ensures AtMost(a, b) <==>
              a <= b || exists k | 0 <= k < |a| && k < |b| :: a[..k] == b[..k] && a[k] < b[k]
  {
    if a != [] && b != [] && a[0] == b[0] {
      var c, d := a[1..], b[1..];
      AtMostIff(c, d);
      assert a == [a[0]] + c && b == [b[0]] + d;
      assert a <= b <==> c <= d;
      if k :| 0 <= k < |c| && k < |d| && c[..k] == d[..k] && c[k] < d[k] {
        assert a[..k + 1] == [a[0]] + c[..k] && b[..k + 1] == [b[0]] + d[..k];
      }
      if k :| 0 <= k < |a| && k < |b| && a[..k] == b[..k] && a[k] < b[k] {
        assert k > 0 && c[..k - 1] == a[..k][1..] && d[..k - 1] == b[..k][1..];
        assert c[k - 1] < d[k - 1];
      }
    } else if a != [] && b != [] && a[0] < b[0] {
      assert a[..0] == b[..0];
    }
  }

  lemma {:induction false} AtMostTotal(a: string, b: string)
    ensures AtMost(a, b) || AtMost(b, a)
    ensures AtMost(a, b) && AtMost(b, a) ==> a == b
  {
    if a != [] && b != [] {
      AtMostTotal(a[1..], b[1..]);
      assert a == [a[0]] + a[1..] && b == [b[0]] + b[1..];
    }
  }

  lemma {:induction false} AtMostTransitive(a: string, b: string, c: string)
    requires AtMost(a, b) && AtMost(b, c)
    ensures AtMost(a, c)
  {
    if a != [] && a[0] == b[0] == c[0] { AtMostTransitive(a[1..], b[1..], c[1..]); }
  }

  ghost predicate Ordered(s: seq<string>) {
    forall i, j | 0 <= i < j < |s| :: AtMost(s[i], s[j])
  }

  function Insert(x: string, s: seq<string>): seq<string> {
    if s == [] || AtMost(x, s[0]) then [x] + s else [s[0]] + Insert(x, s[1..])
  }

  function Sorted(s: seq<string>): seq<string> {
    if s == [] then [] else Insert(s[0], Sorted(s[1..]))
  }

  lemma {:induction false} InsertKeeps(x: string, s: seq<string>)
    ensures multiset(Insert(x, s)) == multiset(s) + multiset{x}
  {
    if s != [] && !AtMost(x, s[0]) {
      InsertKeeps(x, s[1..]);
      assert s == [s[0]] + s[1..];
    }
  }

  lemma PushOrdered(x: string, s: seq<string>)
    requires Ordered(s) && forall y | y in s :: AtMost(x, y)
    ensures Ordered([x] + s)
  {
    assert forall i | 0 <= i < |s| :: s[i] in s;
  }

  lemma {:induction false} InsertOrdered(x: string, s: seq<string>)
    requires Ordered(s)
    ensures Ordered(Insert(x, s))
  {
    if s != [] && !AtMost(x, s[0]) {
      var rest := Insert(x, s[1..]);
      InsertOrdered(x, s[1..]);
      InsertKeeps(x, s[1..]);
      AtMostTotal(x, s[0]);
      forall y | y in rest
        ensures AtMost(s[0], y)
      {
        assert y in multiset(rest);
        if y != x {
          assert y in s[1..];
          FirstIsLeast(s, y);
        }
      }
      PushOrdered(s[0], rest);
    } else {
      forall y | y in s
        ensures AtMost(x, y)
      {
        FirstIsLeast(s, y);
        AtMostTransitive(x, s[0], y);
      }
      PushOrdered(x, s);
    }
  }

  lemma {:induction false} SortedIsOrdered(s: seq<string>)
    ensures Ordered(Sorted(s)) && multiset(Sorted(s)) == multiset(s)
  {
    if s != [] {
      SortedIsOrdered(s[1..]);
      InsertOrdered(s[0], Sorted(s[1..]));
      InsertKeeps(s[0], Sorted(s[1..]));
      assert s == [s[0]] + s[1..];
    }
  }

  lemma FirstIsLeast(s: seq<string>, x: string)
    requires Ordered(s) && x in s
    ensures AtMost(s[0], x)
  {
    var i :| 0 <= i < |s| && s[i] == x;
    AtMostTotal(x, x);
  }

  lemma SameFirst(s: seq<string>, t: seq<string>)
    requires Ordered(s) && Ordered(t) && s != [] && t != [] && multiset(s) == multiset(t)
    ensures s[0] == t[0]
  {
    assert s[0] in multiset(t) && t[0] in multiset(s);
    FirstIsLeast(s, t[0]);
    FirstIsLeast(t, s[0]);
    AtMostTotal(s[0], t[0]);
  }

  lemma WithoutFirst(s: seq<string>)
    requires s != []
    ensures multiset(s[1..]) == multiset(s) - multiset{s[0]}
  {
    assert s == [s[0]] + s[1..];
  }

  /** A multiset has one ordered listing. */
  lemma {:induction false} OrderedUnique(s: seq<string>, t: seq<string>)
    requires Ordered(s) && Ordered(t) && multiset(s) == multiset(t)
    ensures s == t
  {
    assert |multiset(s)| == |s| && |multiset(t)| == |t|;
    if s != [] {
      SameFirst(s, t);
      WithoutFirst(s);
      WithoutFirst(t);
      OrderedUnique(s[1..], t[1..]);
      assert s == [s[0]] + s[1..] && t == [t[0]] + t[1..];
    }
  }

  function Encoded(rows: seq<Row>, dumps: Row -> string): seq<string> {
    seq(|rows|, i requires 0 <= i < |rows| => dumps(rows[i]))
  }

  ghost predicate Injective(dumps: Row -> string) {
    forall x, y :: dumps(x) == dumps(y) ==> x == y
  }

  function AssetIdentity(rows: seq<Row>, dumps: Row -> string): seq<string> {
    Sorted(Encoded(rows, dumps))
  }

  lemma {:induction false} EncodedCount(rows: seq<Row>, dumps: Row -> string, x: Row)
    requires Injective(dumps)
    ensures multiset(Encoded(rows, dumps))[dumps(x)] == multiset(rows)[x]
  {
    if rows != [] {
      EncodedCount(rows[1..], dumps, x);
      assert rows == [rows[0]] + rows[1..];
      assert Encoded(rows, dumps) == [dumps(rows[0])] + Encoded(rows[1..], dumps);
    }
  }

  lemma EncodedMultiset(a: seq<Row>, b: seq<Row>, dumps: Row -> string)
    requires Injective(dumps) && multiset(a) == multiset(b)
    ensures multiset(Encoded(a, dumps)) == multiset(Encoded(b, dumps))
  {
    forall e
      ensures multiset(Encoded(a, dumps))[e] == multiset(Encoded(b, dumps))[e]
    {
      if x :| dumps(x) == e {
        EncodedCount(a, dumps, x);
        EncodedCount(b, dumps, x);
      } else {
        NotEncoded(a, dumps, e);
        NotEncoded(b, dumps, e);
      }
    }
  }

  lemma NotEncoded(rows: seq<Row>, dumps: Row -> string, e: string)
    requires forall x :: dumps(x) != e
    ensures multiset(Encoded(rows, dumps))[e] == 0
  {
    assert forall i | 0 <= i < |rows| :: Encoded(rows, dumps)[i] == dumps(rows[i]);
  }

  /** Two identities are equal exactly when the two lists hold the same rows equally often. */
  lemma IdentityIsMultiset(a: seq<Row>, b: seq<Row>, dumps: Row -> string)
    requires Injective(dumps)
    ensures AssetIdentity(a, dumps) == AssetIdentity(b, dumps) <==> multiset(a) == multiset(b)
  {
    SortedIsOrdered(Encoded(a, dumps));
    SortedIsOrdered(Encoded(b, dumps));
    if AssetIdentity(a, dumps) == AssetIdentity(b, dumps) {
      forall x
        ensures multiset(a)[x] == multiset(b)[x]
      {
        EncodedCount(a, dumps, x);
        EncodedCount(b, dumps, x);
      }
    }
    if multiset(a) == multiset(b) {
      EncodedMultiset(a, b, dumps);
      OrderedUnique(AssetIdentity(a, dumps), AssetIdentity(b, dumps));
    }
  }
}
