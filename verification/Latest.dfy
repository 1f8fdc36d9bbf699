/** scripts/release-publisher.py lines 175-218: which release the Latest pointer names. */
module LatestPointer {
  import opened Outcomes
  import opened GitHub
  import opened Requests
  import opened Versions

  ghost predicate PublicStable(r: Release) {
    !r.draft && !r.prerelease && StableVersion(r.tagName).Some?
  }

  ghost predicate Outranks(r: Release, v: Version) {
    PublicStable(r) && StableVersion(r.tagName).value.unit == v.unit && Above(StableVersion(r.tagName).value, v)
  }

  /** No published Stable of the same unit is higher. */
  ghost predicate Best(releases: map<int, Release>, v: Version) {
    forall i | i in releases :: !Outranks(releases[i], v)
  }

  /** What the current Latest must look like for the update to go on. */
  ghost predicate Readable(latest: Release, release: Release, guestRuntime: bool) {
    && PublicStable(latest)
    && (StableVersion(latest.tagName).value.unit != "" <==> guestRuntime)
    && (latest.id == release.id ==> latest.tagName == release.tagName)
    && (latest.id != release.id && StableVersion(latest.tagName).value.unit != UnitOf(release.tagName)
        ==> latest.published.Some? && release.published.Some?)
  }

  /** Latest gives way: to a higher version in its own unit, or to a strictly later
      publication of another unit. */
  ghost predicate GivesWay(latest: Release, release: Release) {
    && PublicStable(latest) && PublicStable(release) && latest.id != release.id
    && var v, w := StableVersion(latest.tagName).value, StableVersion(release.tagName).value;
       if v.unit == w.unit then Above(w, v)
       else latest.published.Some? && release.published.Some? && latest.published.value < release.published.value
  }

  ghost predicate MayMove(s: Store, release: Release) {
    && PublicStable(release) && Best(s.releases, StableVersion(release.tagName).value)
    && (s.latest.Some? && s.latest.value in s.releases ==> GivesWay(s.releases[s.latest.value], release))
  }

  /** The update raises no complaint. */
  ghost predicate Sound(s: Store, release: Release, commit: Sha, onMain: bool, guestRuntime: bool) {
    && PublicStable(release) && TagIs(s, release.tagName, commit) && onMain
    && (Best(s.releases, StableVersion(release.tagName).value) && s.latest.Some? && s.latest.value in s.releases
        ==> Readable(s.releases[s.latest.value], release, guestRuntime))
  }

  method HigherExists(rows: map<int, Release>, v: Version) returns (found: bool)
    ensures found <==> !Best(rows, v)
  {
    var todo := rows.Keys;
    while todo != {}
      invariant todo <= rows.Keys
      invariant forall i | i in rows && i !in todo :: !Outranks(rows[i], v)
    {
      Occupied(todo);
      var i :| i in todo;
      var version := StableVersion(rows[i].tagName);
      if version.Some? { HigherIsAbove(version.value, v); }
      if !rows[i].draft && !rows[i].prerelease && version.Some? && version.value.unit == v.unit
         && Higher(version.value, v) { return true; }
      todo := todo - {i};
    }
    found := false;
  }

  /** The comparison with the current Latest, lines 202-215: Ok(true) to move the pointer. */
  function Compare(latest: Option<Release>, release: Release, guestRuntime: bool): Result<bool, ()>
    requires StableVersion(release.tagName).Some?
  {
    if latest.None? then Ok(true)
    else
      var row, w := latest.value, StableVersion(release.tagName).value;
      if StableVersion(row.tagName).None? || row.draft || row.prerelease
         || (StableVersion(row.tagName).value.unit != "") != guestRuntime then Err(())
      else
        var v := StableVersion(row.tagName).value;
        if row.id == release.id then if row.tagName == release.tagName then Ok(false) else Err(())
        else if v.unit == w.unit then Ok(!(v == w || Higher(v, w)))
        else if row.published.None? || release.published.None? then Err(())
        else Ok(!(row.published.value >= release.published.value))
  }

  lemma CompareDecides(latest: Option<Release>, release: Release, guestRuntime: bool)
    requires PublicStable(release)
    ensures Compare(latest, release, guestRuntime).Ok? <==>
              (latest.Some? ==> Readable(latest.value, release, guestRuntime))
    ensures Compare(latest, release, guestRuntime) == Ok(true) ==> (latest.Some? ==> GivesWay(latest.value, release))
    ensures Compare(latest, release, guestRuntime) == Ok(false) ==> latest.Some? && !GivesWay(latest.value, release)
  {
    UnitKept(release.tagName);
    if latest.Some? && PublicStable(latest.value) {
      HigherIsAbove(StableVersion(latest.value.tagName).value, StableVersion(release.tagName).value);
      VersionsOrdered(StableVersion(latest.value.tagName).value, StableVersion(release.tagName).value,
          StableVersion(release.tagName).value);
    }
  }

  lemma UnitKept(tag: string)
    requires StableVersion(tag).Some?
    ensures StableVersion(tag).value.unit == UnitOf(tag)
  {
    var rest := tag[|Prefix(UnitOf(tag))|..];
    TripleParsed(UnitOf(tag), rest[1..]);
  }

  /** References were read and main compared, and right after that Latest was moved. */
  ghost predicate Advances(was: seq<Event>, now: seq<Event>, id: int) {
    was <= now && forall k | |was| <= k < |now| ::
      || now[k].RefRead? || now[k] == Checked(OnMain) || (now[k] == Refused && k == |now| - 1)
      || (now[k] == MadeLatest(id) && k > 0 && now[k - 1] == Checked(OnMain))
  }

  ghost predicate Compares(was: seq<Event>, now: seq<Event>) {
    was <= now && forall k | |was| <= k < |now| :: now[k].RefRead? || now[k] == Checked(OnMain)
  }

  lemma ComparedOnly(was: seq<Event>, now: seq<Event>, id: int)
    ensures Advances(was, was, id) && (Compares(was, now) ==> Advances(was, now, id))
  {
  }

  lemma MovedAfterCheck(was: seq<Event>, log: seq<Event>, id: int)
    requires Compares(was, log) && log != [] && log[|log| - 1] == Checked(OnMain)
    ensures Advances(was, log + [MadeLatest(id)], id) && Advances(was, log + [MadeLatest(id)] + [Refused], id)
  {
    var now := log + [MadeLatest(id)] + [Refused];
    forall k | |was| <= k < |now|
      ensures now[k].RefRead? || now[k] == Checked(OnMain) || k == |now| - 1
              || (now[k] == MadeLatest(id) && k > 0 && now[k - 1] == Checked(OnMain))
    {
      if k < |log| { assert now[k] == log[k] && (k > 0 ==> now[k - 1] == log[k - 1]); }
    }
  }

  /** Lines 187-218, for a release read from the store just before. */
  method UpdateLatest(r: Remote, release: Release, commit: Sha, main: bool, onMain: bool, guestRuntime: bool)
    returns (ok: bool)
    requires r.alone ==> release.id in r.s.releases && r.s.releases[release.id] == release
    modifies r
    ensures r.alone ==> r.s == old(r.s)
                        || (main && MayMove(old(r.s), release) && r.s == old(r.s).(latest := Some(release.id)))
    ensures r.alone && (ok || !r.faulted) && main && StableVersion(release.tagName).Some? ==>
              (ok <==> Sound(old(r.s), release, commit, onMain, guestRuntime))
    ensures r.alone && (!main || StableVersion(release.tagName).None?) ==> ok && r.s == old(r.s)
    ensures r.alone && ok && main && MayMove(old(r.s), release) ==> r.s.latest == Some(release.id)
    ensures Advances(old(r.log), r.log, release.id) && Keeps(old(r.s.objects), r.s.objects)
    ensures (old(r.faulted) ==> r.faulted) && r.broken == old(r.broken)
  {
    hide Advances, Compares, Best, Readable, GivesWay, Resolves;
    ComparedOnly(r.log, r.log, release.id);
    if !main || StableVersion(release.tagName).None? { return true; }
    var checked := Check(r, release, commit, onMain);
    ComparedOnly(old(r.log), r.log, release.id);
    if !checked { return false; }
    var move := Decide(r, release, guestRuntime);
    if move.Err? { return false; }
    ok := true;
    if move.value {
      MovedAfterCheck(old(r.log), r.log, release.id);
      ok := Move(r, release);
    }
  }

  /** Lines 190-195. */
  method Check(r: Remote, release: Release, commit: Sha, onMain: bool) returns (ok: bool)
    requires StableVersion(release.tagName).Some?
    modifies r
    ensures r.alone ==> r.s == old(r.s)
    ensures r.alone && (ok || !r.faulted) ==>
              (ok <==> PublicStable(release) && TagIs(r.s, release.tagName, commit) && onMain)
    ensures ok ==> PublicStable(release)
    ensures Keeps(old(r.s.objects), r.s.objects)
    ensures Compares(old(r.log), r.log)
    ensures ok ==> |r.log| > |old(r.log)| && r.log[|r.log| - 1] == Checked(OnMain) && onMain
    ensures (old(r.faulted) ==> r.faulted) && r.broken == old(r.broken)
  {
    hide Resolves, StableVersion;
    ok := !release.draft && !release.prerelease;
    if ok { ok := r.TagStillIs(release.tagName, commit); }
    if ok { ok := r.LocalCheck(OnMain); }
    ok := ok && onMain;
  }

  /** Lines 197-215: Ok(true) to move the pointer. */
  method Decide(r: Remote, release: Release, guestRuntime: bool) returns (move: Result<bool, ()>)
    requires PublicStable(release)
    modifies r
    ensures r.alone ==> r.s == old(r.s)
    ensures r.alone && move.Ok? ==> (move.value <==> MayMove(r.s, release))
    ensures r.alone && (move.Ok? || !r.faulted) ==>
              (move.Ok? <==>
                 (Best(r.s.releases, StableVersion(release.tagName).value)
                  && r.s.latest.Some? && r.s.latest.value in r.s.releases
                  ==> Readable(r.s.releases[r.s.latest.value], release, guestRuntime)))
    ensures r.log == old(r.log) && Keeps(old(r.s.objects), r.s.objects)
    ensures (old(r.faulted) ==> r.faulted) && r.broken == old(r.broken)
  {
    var rows := r.ListAll();
    if rows.Err? { return Err(()); }
    var higher := HigherExists(rows.value, StableVersion(release.tagName).value);
    if higher { return Ok(false); }
    var latest := r.ReadLatest();
    if latest.Err? { return Err(()); }
    CompareDecides(latest.value, release, guestRuntime);
    move := Compare(latest.value, release, guestRuntime);
  }

  /** Lines 216-218. */
  method Move(r: Remote, release: Release) returns (ok: bool)
    requires r.alone ==> release.id in r.s.releases && r.s.releases[release.id] == release
    modifies r
    ensures r.alone ==> r.s == old(r.s) || r.s == old(r.s).(latest := Some(release.id))
    ensures r.alone && ok ==> r.s.latest == Some(release.id)
    ensures r.alone && !r.faulted ==> ok
    ensures r.log == old(r.log) + [MadeLatest(release.id)]
            || (r.log == old(r.log) + [MadeLatest(release.id)] + [Refused] && !ok)
    ensures Keeps(old(r.s.objects), r.s.objects)
    ensures (old(r.faulted) ==> r.faulted) && r.broken == old(r.broken)
  {
    ok := r.MakeLatest(release.id);
    if !ok { return; }
    var current := r.ReadLatest();
    ok := current.Ok? && current.value.Some? && current.value.value.id == release.id
        && current.value.value.tagName == release.tagName;
  }

  /** Asking again for the same release changes nothing. */
  lemma SecondUpdateKeeps(s: Store, release: Release)
    requires MayMove(s, release) && release.id in s.releases && s.releases[release.id] == release
    ensures !MayMove(s.(latest := Some(release.id)), release)
  {
    assert LatestRelease(s.(latest := Some(release.id))) == Some(release);
  }

  // Successive values of the pointer.

  /** Public Stable releases stay as they are. */
  ghost predicate KeepsPublic(s: Store, u: Store) {
    forall i | i in s.releases && PublicStable(s.releases[i]) ::
      i in u.releases && u.releases[i].tagName == s.releases[i].tagName && PublicStable(u.releases[i])
  }

  ghost predicate Names(s: Store, i: int) {
    s.latest == Some(i) && i in s.releases && PublicStable(s.releases[i])
  }

  /** One serialized publication: other things may be published or drafted, and Latest stays or
      moves to a release that no published Stable of its unit outranks. */
  ghost predicate Publishes(s: Store, u: Store) {
    && KeepsPublic(s, u)
    && (u.latest == s.latest
        || exists i :: Names(u, i) && Best(u.releases, StableVersion(u.releases[i].tagName).value))
  }

  ghost predicate Trace(t: seq<Store>) { forall k | 0 < k < |t| :: Publishes(t[k - 1], t[k]) }

  lemma TraceGrows(t: seq<Store>, u: Store)
    requires Trace(t) && |t| > 0 && Publishes(t[|t| - 1], u)
    ensures Trace(t + [u])
  {
    forall k | 0 < k < |t + [u]| ensures Publishes((t + [u])[k - 1], (t + [u])[k]) {
      if k < |t| { assert Publishes(t[k - 1], t[k]); }
    }
  }

  /** `i` is public with version `v`, and Latest names a public Stable that, when it is of the
      same unit, is not below `v`. */
  ghost predicate NotBelow(s: Store, i: int, v: Version) {
    && i in s.releases && PublicStable(s.releases[i]) && StableVersion(s.releases[i].tagName) == Some(v)
    && s.latest.Some? && Names(s, s.latest.value)
    && var w := StableVersion(s.releases[s.latest.value].tagName).value;
       w.unit == v.unit ==> !Above(v, w)
  }

  lemma BestIsNotOutranked(u: Store, i: int, v: Version, w: Version)
    requires i in u.releases && PublicStable(u.releases[i]) && Best(u.releases, w)
    requires StableVersion(u.releases[i].tagName) == Some(v) && v.unit == w.unit
    ensures !Above(v, w)
  {
    assert !Outranks(u.releases[i], w);
  }

  lemma NotBelowStep(s: Store, u: Store, i: int, v: Version)
    requires NotBelow(s, i, v) && Publishes(s, u)
    ensures NotBelow(u, i, v)
  {
    if u.latest != s.latest {
      var j :| Names(u, j) && Best(u.releases, StableVersion(u.releases[j].tagName).value);
      var w := StableVersion(u.releases[j].tagName).value;
      if w.unit == v.unit { BestIsNotOutranked(u, i, v, w); }
    }
  }

  lemma NotBelowItself(s: Store, i: int)
    requires Names(s, i)
    ensures NotBelow(s, i, StableVersion(s.releases[i].tagName).value)
  {
    var v := StableVersion(s.releases[i].tagName).value;
    VersionsOrdered(v, v, v);
  }

  /** What holds at one moment and survives every step holds ever after. */
  lemma {:induction false} Along<S(!new)>(t: seq<S>, step: (S, S) -> bool, holds: S -> bool, a: nat, b: nat)
    requires a <= b < |t| && holds(t[a])
    requires forall k | 0 < k < |t| :: step(t[k - 1], t[k])
    requires forall s, u | holds(s) && step(s, u) :: holds(u)
    ensures holds(t[b])
  {
    if a < b { Along(t, step, holds, a, b - 1); }
  }

  /** Once Latest has named `i`, no later Latest of the same unit is below it, whatever other
      units were named in between. */
  lemma LatestNeverDecreases(t: seq<Store>, a: nat, b: nat, i: int)
    requires Trace(t) && a <= b < |t| && Names(t[a], i)
    ensures NotBelow(t[b], i, StableVersion(t[a].releases[i].tagName).value)
  {
    NotBelowItself(t[a], i);
    var v := StableVersion(t[a].releases[i].tagName).value;
    forall s, u | NotBelow(s, i, v) && Publishes(s, u)
      ensures NotBelow(u, i, v)
    {
      NotBelowStep(s, u, i, v);
    }
    Along(t, (s, u) => Publishes(s, u), s => NotBelow(s, i, v), a, b);
  }
}
