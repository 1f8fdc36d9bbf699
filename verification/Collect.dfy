/** scripts/delete-preview.py lines 79-136: delete a confirmed Preview, keep anything ambiguous. */
module Collecting {
  import opened Outcomes
  import opened GitHub
  import opened Requests
  import opened Previews

  /** What a call is asked to delete; `dumps` is the JSON encoding of an asset row. */
  datatype Order = Order(unit: string, tag: Tag, sha: Sha, incomplete: bool, dumps: Row -> string)
  {
    function Packages(): Packages { PackageNames(unit, tag) }
  }

  datatype Deleted = ReleaseGone | TagGone

  /** Lines 112-118: the release may be deleted. */
  ghost predicate Eligible(o: Order, release: Release) {
    && (release.draft || release.prerelease) && !release.immutable && release.id > 0
    && Judgeable(release.assets, o.Packages())
    && (o.incomplete ==> !Whole(release, o.Packages()))
  }

  /** What has to stay: a release that is no Preview or cannot change, and where only unfinished
      ones may go, a finished one, that shows the x86_64 package and nothing half uploaded. */
  ghost predicate Protected(o: Order, release: Release) {
    || (!release.draft && !release.prerelease) || release.immutable
    || (o.incomplete && !release.draft
        && (exists r | r in release.assets && r.name != Some("SHA256SUMS") :: r.name == Some(o.Packages().x86))
        && forall r | r in release.assets :: r.name == Some("SHA256SUMS") || r.state == Some("uploaded"))
  }

  lemma ProtectedStays(o: Order, release: Release)
    requires Protected(o, release)
    ensures !Eligible(o, release)
  {
  }

  /** The second listing may differ in what the script does not compare. */
  ghost predicate SameRelease(a: Release, b: Release) {
    b == a.(body := b.body, published := b.published, assets := b.assets) && multiset(a.assets) == multiset(b.assets)
  }

  predicate SameFields(a: Release, b: Release) {
    && a.id == b.id && a.tagName == b.tagName && a.draft == b.draft && a.prerelease == b.prerelease
    && a.immutable == b.immutable && a.target == b.target
  }

  /** Where the tag, or without one the release, says the Preview was built from. */
  ghost predicate BuiltFrom(o: Order, objects: map<Sha, Object>, ref: Option<Object>, release: Option<Release>) {
    match ref
    case Some(obj) => Resolves(objects, obj, o.sha)
    case None => release.Some? ==> release.value.target == o.sha
  }

  /** Two listings and two readings of the tag that agree, the release being one that may go. */
  ghost predicate Confirmed(o: Order, objects: map<Sha, Object>, e: seq<Event>, ref: Option<Object>,
      release: Option<Release>) {
    && |e| == 4 && e[0] == RefRead(o.tag, ref) && e[3] == RefRead(o.tag, ref)
    && BuiltFrom(o, objects, ref, release)
    && match release
       case None => e[1] == Listed(o.tag, map[]) && e[2] == Listed(o.tag, map[])
       case Some(a) =>
         && Eligible(o, a)
         && exists i, j, b :: e[1] == Listed(o.tag, map[i := a]) && e[2] == Listed(o.tag, map[j := b])
              && SameRelease(a, b) && Eligible(o, b)
  }

  ghost predicate Reading(e: Event) { e.RefRead? || e.Listed? || e.Missing? }

  /** The requests of one call: a release is deleted only after the four confirming readings, a
      tag only after a listing without a release and a reading of the very tag confirmed. */
  ghost predicate Guarded(o: Order, objects: map<Sha, Object>, e: seq<Event>) {
    forall k | 0 <= k < |e| && !Reading(e[k]) ::
      ReleaseGoes(o, objects, e, k) || TagGoes(o, objects, e, k) || (e[k] == Refused && k == |e| - 1)
  }

  /** What was deleted was seen to be gone right after. */
  ghost predicate SeenGone(o: Order, e: seq<Event>) {
    forall k | 0 <= k < |e| && !Reading(e[k]) ::
      && k + 1 < |e|
      && (e[k].ReleaseDeleted? ==> e[k + 1] == Missing(e[k].id))
      && (!e[k].ReleaseDeleted? ==> e[k] == RefDeleted(o.tag) && e[k + 1] == RefRead(o.tag, None))
  }

  ghost predicate ReleaseGoes(o: Order, objects: map<Sha, Object>, e: seq<Event>, k: int) {
    k == 4 < |e| && exists ref, a: Release ::
      Confirmed(o, objects, e[..4], ref, Some(a)) && e[4] == ReleaseDeleted(a.id)
  }

  ghost predicate TagGoes(o: Order, objects: map<Sha, Object>, e: seq<Event>, k: int) {
    && 6 <= k < |e| && e[k] == RefDeleted(o.tag) && e[k - 2] == Listed(o.tag, map[])
    && exists obj, a :: Confirmed(o, objects, e[..4], Some(obj), a) && e[k - 1] == RefRead(o.tag, Some(obj))
  }

  /** Whatever release a call deletes was listed by it, and was none of the protected ones. */
  ghost predicate Spares(o: Order, e: seq<Event>) {
    forall k | 0 <= k < |e| && e[k].ReleaseDeleted? ::
      |e| > 1 && exists i, a :: e[1] == Listed(o.tag, map[i := a]) && e[k] == ReleaseDeleted(a.id) && !Protected(o, a)
  }

  lemma GuardedSpares(o: Order, objects: map<Sha, Object>, e: seq<Event>)
    requires Guarded(o, objects, e)
    ensures Spares(o, e)
  {
    forall k | 0 <= k < |e| && e[k].ReleaseDeleted?
      ensures |e| > 1 && exists i, a ::
                e[1] == Listed(o.tag, map[i := a]) && e[k] == ReleaseDeleted(a.id) && !Protected(o, a)
    {
      assert !Reading(e[k]) && ReleaseGoes(o, objects, e, k);
      var ref, a :| Confirmed(o, objects, e[..4], ref, Some(a)) && e[4] == ReleaseDeleted(a.id);
      assert e[..4][1] == e[1];
      if Protected(o, a) { ProtectedStays(o, a); }
    }
  }

  /** The states from which an undisturbed call deletes everything. */
  ghost predicate Deletable(o: Order, s: Store) {
    && IsSha(o.sha)
    && (forall i, j | i in Tagged(s, o.tag) && j in Tagged(s, o.tag) :: i == j)
    && (o.tag in s.refs ==> Resolves(s.objects, s.refs[o.tag], o.sha))
    && (forall i | i in Tagged(s, o.tag) ::
         Eligible(o, s.releases[i]) && (o.tag !in s.refs ==> s.releases[i].target == o.sha))
  }

  /** Nothing but the release and then the tag of the Preview may go. */
  ghost predicate Shrunk(o: Order, s: Store, u: Store) {
    && u.objects == s.objects && u.latest == s.latest
    && (u.releases == s.releases || u.releases == s.releases - Tagged(s, o.tag))
    && (u.refs == s.refs || (u.refs == s.refs - {o.tag} && Tagged(u, o.tag) == {}))
  }

  ghost predicate Absent(o: Order, s: Store) { Tagged(s, o.tag) == {} && o.tag !in s.refs }

  lemma SameEligible(o: Order, a: Release, b: Release)
    requires SameRelease(a, b)
    ensures Eligible(o, a) <==> Eligible(o, b)
  {
    SameVerdict(a, b, o.Packages());
  }

  /** Runs add up, and no run leaves a deletable Preview in a state that is not. */
  lemma ShrunkTransitive(o: Order, s: Store, t: Store, u: Store)
    requires Shrunk(o, s, t) && Shrunk(o, t, u)
    ensures Shrunk(o, s, u)
  {
    if t.releases != s.releases {
      assert Tagged(t, o.tag) == {};
      assert u.releases == t.releases;
    }
    if t.refs != s.refs {
      assert u.refs == t.refs;
      assert Tagged(u, o.tag) == {};
    }
  }

  lemma StaysDeletable(o: Order, s: Store, u: Store)
    requires Deletable(o, s) && Shrunk(o, s, u)
    ensures Deletable(o, u)
  {
    assert Tagged(u, o.tag) == Tagged(s, o.tag) || Tagged(u, o.tag) == {};
  }

  /** A finished deletion touched nothing else. */
  lemma OthersUntouched(o: Order, s: Store, u: Store)
    requires Shrunk(o, s, u) && Absent(o, u)
    ensures u.releases == s.releases - Tagged(s, o.tag) && u.refs == s.refs - {o.tag} && u.objects == s.objects
    ensures forall i | i in s.releases && s.releases[i].tagName != o.tag ::
              i in u.releases && u.releases[i] == s.releases[i]
  {
    if u.releases == s.releases { assert Tagged(s, o.tag) == Tagged(u, o.tag) == {}; }
  }

  /** Lines 28-33 and 104: at most one release uses the tag. */
  method ReleaseFor(r: Remote, tag: Tag) returns (found: Result<Option<Release>, ()>, ghost i: int)
    modifies r
    ensures r.alone ==> r.s == old(r.s)
    ensures Keeps(old(r.s.objects), r.s.objects)
    ensures found.Ok? ==>
              r.log == old(r.log) + [Listed(tag, if found.value.Some? then map[i := found.value.value] else map[])]
    ensures found.Err? ==> r.log == old(r.log) || exists rows :: r.log == old(r.log) + [Listed(tag, rows)]
    ensures r.alone && found.Ok? ==> match found.value
              case None => Tagged(r.s, tag) == {}
              case Some(x) => Tagged(r.s, tag) == {i} && r.s.releases[i] == x
    ensures r.alone && found.Err? && !r.faulted ==>
              exists i, j :: i in Tagged(r.s, tag) && j in Tagged(r.s, tag) && i != j
    ensures old(r.faulted) ==> r.faulted
  {
    i := 0;
    var rows := r.List(tag);
    if rows.Err? {
      found := Err(());
    } else if rows.value.Keys == {} {
      assert rows.value == map[];
      found := Ok(None);
    } else {
      Occupied(rows.value.Keys);
      var k :| k in rows.value.Keys;
      i := k;
      if rows.value.Keys == {k} {
        assert rows.value == map[k := rows.value[k]];
        assert r.alone ==> Tagged(r.s, tag) == {k};
        found := Ok(Some(rows.value[k]));
      } else {
        Occupied(rows.value.Keys - {k});
        ghost var j :| j in rows.value.Keys - {k};
        assert r.alone ==> k in Tagged(r.s, tag) && j in Tagged(r.s, tag);
        found := Err(());
      }
    }
  }

  method MayGo(o: Order, release: Release) returns (ok: bool)
    ensures ok <==> Eligible(o, release)
  {
    if !(release.draft || (!release.draft && release.prerelease)) || release.immutable
        || release.id <= 0 { return false; }
    var complete := Complete(release, o.Packages());
    ok := complete.Ok? && (!o.incomplete || !complete.value);
  }

  /** Lines 103-110: the first readings, and where the Preview was built from. */
  method FirstLook(r: Remote, o: Order)
    returns (seen: Result<(Option<Object>, Option<Release>), ()>, ghost i: int, ghost e: seq<Event>)
    modifies r
    ensures r.alone ==> r.s == old(r.s)
    ensures Keeps(old(r.s.objects), r.s.objects) && (old(r.faulted) ==> r.faulted)
    ensures r.log == old(r.log) + e && forall x | x in e :: Reading(x)
    ensures seen.Ok? ==>
              && e == [RefRead(o.tag, seen.value.0), Listed(o.tag, if seen.value.1.Some?
                   then map[i := seen.value.1.value] else map[])]
                         && BuiltFrom(o, r.s.objects, seen.value.0, seen.value.1)
    ensures r.alone && seen.Ok? ==> Sees(o, r.s, seen.value.0, seen.value.1, i)
    ensures r.alone && seen.Err? && !r.faulted ==> !Deletable(o, r.s)
  {
    i, e := 0, [];
    var ref := r.ReadRef(o.tag);
    if ref.Err? { return Err(()), i, e; }
    e := [RefRead(o.tag, ref.value)];
    var release;
    ghost var was := r.log;
    release, i := ReleaseFor(r, o.tag);
    if release.Err? {
      if r.log != was {
        ghost var rows :| r.log == was + [Listed(o.tag, rows)];
        e := e + [Listed(o.tag, rows)];
      }
      return Err(()), i, e;
    }
    e := e + [Listed(o.tag, if release.value.Some? then map[i := release.value.value] else map[])];
    if ref.value.Some? {
      var sha := r.Peel(ref.value.value);
      if sha.Err? || sha.value != o.sha {
        if r.alone && sha.Ok? && Resolves(r.s.objects, ref.value.value, o.sha) {
          ResolvesUnique(r.s.objects, ref.value.value, o.sha, sha.value);
        }
        return Err(()), i, e;
      }
    } else if release.value.Some? && release.value.value.target != o.sha {
      return Err(()), i, e;
    }
    seen := Ok((ref.value, release.value));
  }

  /** What was read is what is there. */
  ghost predicate Sees(o: Order, s: Store, ref: Option<Object>, release: Option<Release>, i: int) {
    && ref == (if o.tag in s.refs then Some(s.refs[o.tag]) else None)
    && match release
       case None => Tagged(s, o.tag) == {}
       case Some(x) => Tagged(s, o.tag) == {i} && s.releases[i] == x
  }

  /** Lines 120-124: the second readings agree with the first. */
  method SecondLook(r: Remote, o: Order, ref: Option<Object>, release: Option<Release>, ghost i: int)
    returns (same: bool, ghost e: seq<Event>)
    requires Injective(o.dumps)
    requires r.alone ==> Sees(o, r.s, ref, release, i)
    modifies r
    ensures r.alone ==> r.s == old(r.s) && (!r.faulted ==> same)
    ensures Keeps(old(r.s.objects), r.s.objects) && (old(r.faulted) ==> r.faulted)
    ensures r.log == old(r.log) + e && forall x | x in e :: Reading(x)
    ensures same ==> |e| == 2 && e[1] == RefRead(o.tag, ref) && match release
              case None => e[0] == Listed(o.tag, map[])
              case Some(a) =>
                  exists j, b ::
                      e[0] == Listed(o.tag, map[j := b]) && SameRelease(a, b)
  {
    e := [];
    ghost var was := r.log;
    var current, j := ReleaseFor(r, o.tag);
    if current.Err? {
      if r.log != was {
        ghost var rows :| r.log == was + [Listed(o.tag, rows)];
        e := [Listed(o.tag, rows)];
      }
      return false, e;
    }
    e := [Listed(o.tag, if current.value.Some? then map[j := current.value.value] else map[])];
    if release.Some? && current.value.Some? {
      IdentityIsMultiset(current.value.value.assets, release.value.assets, o.dumps);
    }
    if release.Some? != current.value.Some? { return false, e; }
    if release.Some?
       && !(SameFields(release.value, current.value.value)
            && AssetIdentity(current.value.value.assets, o.dumps) == AssetIdentity(release.value.assets, o.dumps)) {
      return false, e;
    }
    var again := r.ReadRef(o.tag);
    if again.Ok? { e := e + [RefRead(o.tag, again.value)]; }
    same := again == Ok(ref);
  }

  lemma SeesDeletable(o: Order, s: Store, ref: Option<Object>, release: Option<Release>, i: int)
    requires IsSha(o.sha) && Sees(o, s, ref, release, i) && BuiltFrom(o, s.objects, ref, release)
             && (release.Some? ==> Eligible(o, release.value))
    ensures Deletable(o, s)
  {
  }

  lemma Agreed(o: Order, before: map<Sha, Object>, after: map<Sha, Object>, e1: seq<Event>, e2: seq<Event>,
      ref: Option<Object>, release: Option<Release>)
    requires Keeps(before, after) && BuiltFrom(o, before, ref, release)
             && (release.Some? ==> Eligible(o, release.value))
    requires |e1| == 2 && |e2| == 2 && e1[0] == RefRead(o.tag, ref) && e2[1] == RefRead(o.tag, ref)
    requires release.None? ==> e1[1] == Listed(o.tag, map[]) && e2[0] == Listed(o.tag, map[])
    requires release.Some? ==>
              exists i, j, b :: e1[1] == Listed(o.tag, map[i := release.value]) && e2[0] == Listed(o.tag, map[j := b])
                                 && SameRelease(release.value, b)
    ensures Confirmed(o, after, e1 + e2, ref, release)
  {
    if ref.Some? { ResolvesLater(before, after, ref.value, o.sha); }
    if release.Some? {
      var i, j, b :| e1[1] == Listed(o.tag, map[i := release.value]) && e2[0] == Listed(o.tag, map[j := b])
        && SameRelease(release.value, b);
      SameEligible(o, release.value, b);
    }
  }

  /** Lines 103-124. Ok((None, None)) where there is nothing to delete. */
  method Look(r: Remote, o: Order)
    returns (seen: Result<(Option<Object>, Option<Release>), ()>, ghost i: int, ghost e: seq<Event>)
    requires Injective(o.dumps) && IsSha(o.sha)
    modifies r
    ensures r.alone ==> r.s == old(r.s)
    ensures Keeps(old(r.s.objects), r.s.objects) && (old(r.faulted) ==> r.faulted)
    ensures r.log == old(r.log) + e && forall x | x in e :: Reading(x)
    ensures seen.Ok? && (seen.value.0.Some? || seen.value.1.Some?) ==>
              Confirmed(o, r.s.objects, e, seen.value.0, seen.value.1)
    ensures seen.Ok? && seen.value.0.None? && seen.value.1.None? ==> |e| == 2
    ensures r.alone && seen.Ok? ==> Sees(o, r.s, seen.value.0, seen.value.1, i)
    ensures r.alone && (seen.Ok? || !r.faulted) ==> (seen.Ok? <==> Deletable(o, r.s))
  {
    seen, i, e := FirstLook(r, o);
    if seen.Err? { return; }
    var ref, release := seen.value.0, seen.value.1;
    if ref.None? && release.None? { return; }
    ghost var first := e;
    var ok, more := Confirm(r, o, ref, release, i, first);
    e := first + more;
    if !ok { seen := Err(()); }
  }

  /** Lines 111-124. */
  method Confirm(r: Remote, o: Order, ref: Option<Object>, release: Option<Release>, ghost i: int,
      ghost first: seq<Event>) returns (ok: bool, ghost more: seq<Event>)
    requires Injective(o.dumps) && IsSha(o.sha) && BuiltFrom(o, r.s.objects, ref, release)
    requires first == [RefRead(o.tag, ref), Listed(o.tag, if release.Some? then map[i := release.value] else map[])]
    requires r.alone ==> Sees(o, r.s, ref, release, i)
    modifies r
    ensures r.alone ==> r.s == old(r.s)
    ensures Keeps(old(r.s.objects), r.s.objects) && (old(r.faulted) ==> r.faulted)
    ensures r.log == old(r.log) + more && forall x | x in more :: Reading(x)
    ensures ok ==> Confirmed(o, r.s.objects, first + more, ref, release)
    ensures r.alone && (ok || !r.faulted) ==> (ok <==> Deletable(o, r.s))
  {
    more := [];
    if release.Some? {
      var mayGo := MayGo(o, release.value);
      if !mayGo {
        if r.alone { assert i in Tagged(r.s, o.tag); }
        return false, [];
      }
    }
    if r.alone { SeesDeletable(o, r.s, ref, release, i); }
    ghost var objects := r.s.objects;
    ok, more := SecondLook(r, o, ref, release, i);
    if ok { Agreed(o, objects, r.s.objects, first, more, ref, release); }
  }

  /** The events of the deletion of a release: one request, and when that succeeded a reading. */
  ghost predicate Deletion(release: Option<Release>, d: seq<Event>, ok: bool) {
    if release.None? then d == [] && ok
    else
      var id := release.value.id;
      if ok then d == [ReleaseDeleted(id), Missing(id)]
      else d == [ReleaseDeleted(id)] || d == [ReleaseDeleted(id), Refused]
  }

  /** `delete` on the release, lines 79-83 and 127. */
  method RemoveRelease(r: Remote, o: Order, release: Release, ghost i: int) returns (ok: bool, ghost d: seq<Event>)
    requires r.alone ==> Tagged(r.s, o.tag) == {i} && release.id == i
    modifies r
    ensures r.alone ==>
              || r.s == old(r.s)
              || (r.s == old(r.s).(releases := old(r.s.releases) - Tagged(old(r.s), o.tag)) && Tagged(r.s, o.tag) == {})
    ensures r.alone && ok ==> Tagged(r.s, o.tag) == {}
    ensures r.alone && !r.faulted ==> ok
    ensures Keeps(old(r.s.objects), r.s.objects) && (old(r.faulted) ==> r.faulted)
    ensures r.log == old(r.log) + d && Deletion(Some(release), d, ok)
  {
    ok := r.DeleteRelease(release.id);
    d := [ReleaseDeleted(release.id)] + Answer(ok);
    if ok {
      ok := r.ReleaseGone(release.id);
      if ok { d := d + [Missing(release.id)]; }
    }
  }

  /** `delete` on the tag, lines 79-83 and 134. */
  method DeleteTag(r: Remote, o: Order) returns (ok: bool, ghost e: seq<Event>)
    modifies r
    ensures r.alone ==> r.s == old(r.s) || r.s == old(r.s).(refs := old(r.s.refs) - {o.tag})
    ensures r.alone && ok ==> o.tag !in r.s.refs
    ensures !r.faulted ==> ok || !r.alone
    ensures Keeps(old(r.s.objects), r.s.objects) && (old(r.faulted) ==> r.faulted)
    ensures r.log == old(r.log) + e
    ensures if ok then e == [RefDeleted(o.tag), RefRead(o.tag, None)]
            else |e| > 0 && e[0] == RefDeleted(o.tag) && (|e| == 1 || (|e| == 2 && (e[1] == Refused || Reading(e[1]))))
  {
    ok := r.DeleteRef(o.tag);
    e := [RefDeleted(o.tag)] + Answer(ok);
    if ok {
      var visible := r.ReadRef(o.tag);
      if visible.Ok? { e := e + [RefRead(o.tag, visible.value)]; }
      ok := visible == Ok(None);
    }
  }

  /** Lines 129-135. The requests are those of `TagRequests`. */
  method RemoveTag(r: Remote, o: Order, ref: Object) returns (ok: bool, ghost e: seq<Event>)
    requires r.alone ==> Tagged(r.s, o.tag) == {} && o.tag in r.s.refs && r.s.refs[o.tag] == ref
    modifies r
    ensures r.alone ==> r.s == old(r.s) || r.s == old(r.s).(refs := old(r.s.refs) - {o.tag})
    ensures r.alone && ok ==> o.tag !in r.s.refs
    ensures r.alone && !r.faulted ==> ok
    ensures Keeps(old(r.s.objects), r.s.objects) && (old(r.faulted) ==> r.faulted)
    ensures r.log == old(r.log) + e && TagRequests(o.tag, ref, e) && (ok ==> TagSeenGone(o.tag, e))
  {
    e := [];
    ghost var was := r.log;
    var release, i := ReleaseFor(r, o.tag);
    if release.Err? {
      if r.log != was {
        ghost var rows :| r.log == was + [Listed(o.tag, rows)];
        e := [Listed(o.tag, rows)];
      }
      return false, e;
    }
    e := [Listed(o.tag, if release.value.Some? then map[i := release.value.value] else map[])];
    if release.value.Some? { return false, e; }
    var current := r.ReadRef(o.tag);
    if current.Err? { return false, e; }
    e := e + [RefRead(o.tag, current.value)];
    if current.value.None? { return true, e; }
    if current.value.value != ref { return false, e; }
    ghost var more;
    ok, more := DeleteTag(r, o);
    e := e + more;
  }

  ghost predicate TagRequests(tag: Tag, ref: Object, e: seq<Event>) {
    forall k | 0 <= k < |e| && !Reading(e[k]) ::
      || (k == 2 && e[0] == Listed(tag, map[]) && e[1] == RefRead(tag, Some(ref)) && e[2] == RefDeleted(tag))
      || (k == 3 == |e| - 1 && e[3] == Refused)
  }

  ghost predicate TagSeenGone(tag: Tag, e: seq<Event>) {
    forall k | 0 <= k < |e| && !Reading(e[k]) ::
      k + 1 < |e| && e[k] == RefDeleted(tag) && e[k + 1] == RefRead(tag, None)
  }

  ghost function Made(e: seq<Event>, d: seq<Event>, t: seq<Event>): seq<Event> { e + d + t }

  lemma FourReadings(o: Order, objects: map<Sha, Object>, e: seq<Event>, ref: Option<Object>, release: Option<Release>)
    requires Confirmed(o, objects, e, ref, release) && (forall x | x in e :: Reading(x))
    ensures |e| == 4 && forall k | 0 <= k < 4 :: Reading(e[k])
  {
  }

  lemma TagRequest(tag: Tag, ref: Object, t: seq<Event>, k: nat)
    requires TagRequests(tag, ref, t) && k < |t| && !Reading(t[k])
    ensures || (k == 3 == |t| - 1 && t[3] == Refused)
            || (k == 2 && t[0] == Listed(tag, map[]) && t[1] == RefRead(tag, Some(ref)) && t[2] == RefDeleted(tag))
  {
  }

  lemma GuardedWhole(o: Order, objects: map<Sha, Object>, e: seq<Event>, ref: Option<Object>, release: Option<Release>,
      d: seq<Event>, t: seq<Event>, ok: bool)
    requires Confirmed(o, objects, e, ref, release) && (forall x | x in e :: Reading(x))
    requires Deletion(release, d, ok) && (if ref.Some? then TagRequests(o.tag, ref.value, t) else t == [])
    requires !ok ==> t == []
    ensures Guarded(o, objects, Made(e, d, t))
  {
    hide Confirmed, TagRequests;
    FourReadings(o, objects, e, ref, release);
    var n, all := 4 + |d|, Made(e, d, t);
    assert all == e + d + t;
    assert all[..4] == e;
    assert forall k | 0 <= k < 4 :: all[k] == e[k];
    forall k | 0 <= k < |all| && !Reading(all[k])
      ensures ReleaseGoes(o, objects, all, k) || TagGoes(o, objects, all, k) || (all[k] == Refused && k == |all| - 1)
    {
      if 4 <= k < n {
        assert all[k] == d[k - 4] && Confirmed(o, objects, all[..4], ref, Some(release.value));
      } else if n <= k {
        assert all[k] == t[k - n];
        TagRequest(o.tag, ref.value, t, k - n);
        if k - n == 2 {
          assert all[k - 1] == t[1] && all[k - 2] == t[0];
          assert Confirmed(o, objects, all[..4], Some(ref.value), release);
        }
      }
    }
  }

  lemma GoneWhole(o: Order, e: seq<Event>, ref: Option<Object>, release: Option<Release>, d: seq<Event>, t: seq<Event>)
    requires (forall x | x in e :: Reading(x)) && Deletion(release, d, true) && TagSeenGone(o.tag, t)
    ensures SeenGone(o, Made(e, d, t))
  {
    var all := Made(e, d, t);
    assert forall k | 0 <= k < |e| :: all[k] == e[k] && e[k] in e;
    forall k | 0 <= k < |all| && !Reading(all[k])
      ensures k + 1 < |all| && (all[k].ReleaseDeleted? ==> all[k + 1] == Missing(all[k].id))
      ensures !all[k].ReleaseDeleted? ==> all[k] == RefDeleted(o.tag) && all[k + 1] == RefRead(o.tag, None)
    {
      if |e| <= k < |e| + |d| {
        assert all[k] == d[k - |e|] && (k == |e| ==> all[k + 1] == d[1]);
      } else if |e| + |d| <= k {
        var n := |e| + |d|;
        assert all[k] == t[k - n] && (k + 1 < |all| ==> all[k + 1] == t[k + 1 - n]);
      }
    }
  }

  lemma ConfirmedLater(o: Order, a: map<Sha, Object>, b: map<Sha, Object>, e: seq<Event>, ref: Option<Object>,
      release: Option<Release>)
    requires Keeps(a, b) && Confirmed(o, a, e, ref, release)
    ensures Confirmed(o, b, e, ref, release)
  {
    if ref.Some? { ResolvesLater(a, b, ref.value, o.sha); }
  }

  lemma ReadingIsGuarded(o: Order, objects: map<Sha, Object>, e: seq<Event>)
    requires forall x | x in e :: Reading(x)
    ensures Guarded(o, objects, e)
  {
    assert forall k | 0 <= k < |e| :: e[k] in e;
  }

  ghost predicate Keeping(o: Order, s: Store) {
    exists i | i in Tagged(s, o.tag) :: Protected(o, s.releases[i])
  }

  lemma ProtectedIsKept(o: Order, s: Store)
    ensures Keeping(o, s) ==> !Deletable(o, s)
  {
    if Keeping(o, s) {
      var i :| i in Tagged(s, o.tag) && Protected(o, s.releases[i]);
      ProtectedStays(o, s.releases[i]);
    }
  }

  /** Lines 92-136, for arguments of the right form. With other writers, every deletion is
      guarded; alone, a call deletes the Preview or part of it and nothing else, refuses without
      a change exactly the states that are not deletable, and reports what was there. */
  method Collect(r: Remote, o: Order) returns (deleted: Result<seq<Deleted>, ()>, ghost e: seq<Event>)
    requires Injective(o.dumps) && (r.alone ==> Consistent(r.s))
    modifies r
    ensures r.log == old(r.log) + e && Guarded(o, r.s.objects, e) && Spares(o, e)
    ensures r.alone ==> Shrunk(o, old(r.s), r.s) && Consistent(r.s)
    ensures r.alone && !Deletable(o, old(r.s)) ==> r.s == old(r.s) && deleted.Err?
    ensures r.alone && Keeping(o, old(r.s)) ==> r.s == old(r.s) && deleted.Err?
    ensures r.alone && !r.faulted ==> (deleted.Ok? <==> Deletable(o, old(r.s)))
    ensures r.alone && deleted.Ok? ==> Absent(o, r.s)
    ensures r.alone && deleted.Ok? ==>
              deleted.value == (if Tagged(old(r.s), o.tag) != {} then [ReleaseGone] else [])
                               + (if o.tag in old(r.s.refs) then [TagGone] else [])
    ensures (old(r.faulted) ==> r.faulted) && (deleted.Ok? ==> SeenGone(o, e))
  {
    hide Confirmed, Protected, Guarded, Spares;
    ProtectedIsKept(o, r.s);
    if !IsSha(o.sha) {
      ReadingIsGuarded(o, r.s.objects, []);
      GuardedSpares(o, r.s.objects, []);
      return Err(()), [];
    }
    var seen, i, looked := Look(r, o);
    if seen.Err? || (seen.value.0.None? && seen.value.1.None?) {
      ReadingIsGuarded(o, r.s.objects, looked);
      GuardedSpares(o, r.s.objects, looked);
      assert forall k | 0 <= k < |looked| :: looked[k] in looked;
      deleted, e := if seen.Err? then Err(()) else Ok([]), looked;
      return;
    }
    var ref, release := seen.value.0, seen.value.1;
    ghost var before := r.s.objects;
    var ok, d, gone, t := Remove(r, o, ref, release, i, old(r.log), looked);
    e := Made(looked, d, t);
    ConfirmedLater(o, before, r.s.objects, looked, ref, release);
    GuardedWhole(o, r.s.objects, looked, ref, release, d, t, gone);
    if ok { GoneWhole(o, looked, ref, release, d, t); }
    GuardedSpares(o, r.s.objects, e);
    deleted := if ok then Ok((if release.Some? then [ReleaseGone] else []) + (if ref.Some? then [TagGone] else []))
        else Err(());
  }

  /** Lines 125-136. */
  method Remove(r: Remote, o: Order, ref: Option<Object>, release: Option<Release>, ghost i: int, ghost was: seq<Event>,
      ghost looked: seq<Event>) returns (ok: bool, ghost d: seq<Event>, ghost gone: bool, ghost t: seq<Event>)
    requires r.alone ==> Consistent(r.s) && Sees(o, r.s, ref, release, i)
    requires r.log == was + looked
    modifies r
    ensures r.log == was + Made(looked, d, t) && Deletion(release, d, gone) && (!gone ==> t == [])
    ensures if ref.Some? then TagRequests(o.tag, ref.value, t) else t == []
    ensures ok ==> gone && TagSeenGone(o.tag, t)
    ensures r.alone ==> Shrunk(o, old(r.s), r.s) && Consistent(r.s) && (ok ==> Absent(o, r.s)) && (!r.faulted ==> ok)
    ensures Keeps(old(r.s.objects), r.s.objects) && (old(r.faulted) ==> r.faulted)
  {
    t, d := [], [];
    ok := true;
    if release.Some? { ok, d := RemoveRelease(r, o, release.value, i); }
    gone := ok;
    if !ok || ref.None? { return; }
    ok, t := RemoveTag(r, o, ref.value);
  }

  /** Any number of calls, each cut anywhere: nothing but the Preview ever goes, and a Preview
      that could be deleted still can be. */
  method Calls(r: Remote, o: Order, calls: nat)
    requires Injective(o.dumps) && r.alone && Consistent(r.s)
    modifies r
    ensures Shrunk(o, old(r.s), r.s) && Consistent(r.s)
    ensures Deletable(o, old(r.s)) ==> Deletable(o, r.s)
    ensures !Deletable(o, old(r.s)) ==> r.s == old(r.s)
  {
    for k := 0 to calls
      invariant Shrunk(o, old(r.s), r.s) && Consistent(r.s)
      invariant !Deletable(o, old(r.s)) ==> r.s == old(r.s)
    {
      ghost var was := r.s;
      if Deletable(o, old(r.s)) { StaysDeletable(o, old(r.s), r.s); }
      var deleted, e := Collect(r, o);
      ShrunkTransitive(o, old(r.s), was, r.s);
    }
    if Deletable(o, old(r.s)) { StaysDeletable(o, old(r.s), r.s); }
  }
}
