/** scripts/release-publisher.py lines 221-274: one run of `publish`, and any number of them. */
module Publications {
  import opened Outcomes
  import opened GitHub
  import opened Requests
  import opened Publisher
  import opened Progress
  import opened Versions
  import LatestPointer

  /** Lines 155-161. */
  predicate IdentityOk(plan: Plan, release: Release, public: bool) {
    release.id > 0 && release.tagName == plan.tag && release.prerelease == plan.prerelease
    && (public ==> !release.draft)
  }

  ghost predicate OfPlan(plan: Plan, release: Release) {
    release.id > 0 && release.tagName == plan.tag && release.prerelease == plan.prerelease
  }

  /** The draft of the plan is the one release of its tag, and `known` is exactly what it holds. */
  ghost predicate Filling(plan: Plan, s: Store, id: int, known: map<string, Identity>) {
    && Resumable(plan, s) && Tagged(s, plan.tag) == {id} && s.releases[id].draft && plan.tag in s.refs
    && Records(known, s.releases[id].assets, plan.expected)
  }

  /** The draft holds the names, and agrees with what was known of them. */
  ghost predicate Received(plan: Plan, s: Store, id: int, names: set<string>, known: map<string, Identity>) {
    && Resumable(plan, s) && Tagged(s, plan.tag) == {id} && s.releases[id].draft && plan.tag in s.refs
    && Names(s.releases[id].assets) == names && AllAgree(s.releases[id].assets, plan.expected, known)
  }

  /** The release just made public. */
  ghost predicate Shown(plan: Plan, s: Store, id: int, known: map<string, Identity>) {
    && id in s.releases && s.releases[id].id == id && OfPlan(plan, s.releases[id])
    && !s.releases[id].draft
    && s.releases[id].body == plan.notes
    && Exactly(s.releases[id].assets, plan.expected) && Records(known, s.releases[id].assets, plan.expected)
  }

  ghost predicate Grows(a: map<string, Identity>, b: map<string, Identity>) {
    forall n | n in a :: n in b && b[n] == a[n]
  }

  /** The recorded identities are the expected names under pairwise distinct numbers. */
  ghost predicate Recorded(plan: Plan, m: map<string, Identity>) {
    m.Keys == plan.expected.Keys && DistinctIds(m)
  }

  lemma OnlyRelease(s: Store, tag: Tag, rows: map<int, Release>)
    requires rows == map i | i in Tagged(s, tag) :: s.releases[i]
    ensures |rows| <= 1 <==> forall i, j | i in Tagged(s, tag) && j in Tagged(s, tag) :: i == j
    ensures rows.Keys == Tagged(s, tag)
    ensures |rows| <= 1 ==> forall i | i in rows :: Tagged(s, tag) == {i}
  {
    if |rows| <= 1 {
      forall i, j | i in Tagged(s, tag) && j in Tagged(s, tag)
        ensures i == j
      {
        if i != j {
          assert {i, j} <= rows.Keys && |{i, j}| == 2;
          SubsetSize({i, j}, rows.Keys);
        }
      }
    }
    if rows.Keys != {} && forall i, j | i in Tagged(s, tag) && j in Tagged(s, tag) :: i == j {
      Occupied(rows.Keys);
      var i :| i in rows.Keys;
      assert rows.Keys <= {i};
      SubsetSize(rows.Keys, {i});
    }
  }

  lemma {:induction false} SubsetSize(a: set<int>, b: set<int>)
    requires a <= b
    ensures |a| <= |b|
  {
    if a != {} {
      Occupied(a);
      var x :| x in a;
      SubsetSize(a - {x}, b - {x});
    }
  }

  lemma StaysConsistent(plan: Plan, s: Store, u: Store)
    requires Consistent(s) && Moved(plan, s, u)
    ensures Consistent(u)
  {
  }

  lemma NothingMoved(plan: Plan, s: Store)
    ensures Moved(plan, s, s)
  {
  }

  /** What was read before a release was made public, but for the check of a preview's line: the release
      itself, a draft with the notes and exactly the validated assets, and then the tag, which led to the
      commit. */
  ghost predicate Cleared(plan: Plan, objects: map<Sha, Object>, id: int, look: Event, tagged: Event) {
    && look.ReleaseRead? && look.id == id == look.release.id && OfPlan(plan, look.release)
    && look.release.draft && look.release.body == plan.notes
    && Carries(look.release.assets, plan.expected) && Numbered(look.release.assets)
    && Shows(objects, tagged, plan.tag, plan.commit)
  }

  /** A public release of the plan with exactly the validated assets. */
  ghost predicate Released(plan: Plan, release: Release) {
    OfPlan(plan, release) && !release.draft && Carries(release.assets, plan.expected) && Numbered(release.assets)
  }

  /** The last that was read is the release under its number, finished and with the notes. */
  ghost predicate Confirmed(plan: Plan, was: seq<Event>, log: seq<Event>, release: Release) {
    && was < log && |log| >= |was| + 2
    && log[|log| - 2] == ReleaseRead(release.id, release) && log[|log| - 1] == Checked(Bytes)
    && Released(plan, release) && release.body == plan.notes
  }

  /** The release is the answer to some reading after the requests `was`. */
  ghost predicate WasRead(was: seq<Event>, now: seq<Event>, release: Release) {
    was <= now && exists k | |was| <= k < |now| :: Answers(now[k], release)
  }

  ghost predicate Answers(e: Event, release: Release) {
    || (e.ReleaseRead? && e.id == release.id && e.release == release)
    || (e.Listed? && exists i | i in e.rows :: e.rows[i] == release)
  }

  lemma ListedIsRead(was: seq<Event>, now: seq<Event>, rows: map<int, Release>, tag: Tag, i: int)
    requires now == was + [Listed(tag, rows)] && i in rows
    ensures WasRead(was, now, rows[i])
  {
    assert Answers(now[|was|], rows[i]);
  }

  lemma ConfirmedIsRead(plan: Plan, was: seq<Event>, now: seq<Event>, release: Release)
    requires Confirmed(plan, was, now, release)
    ensures WasRead(was, now, release)
  {
    assert Answers(now[|now| - 2], release);
  }

  lemma ReadLater(a: seq<Event>, was: seq<Event>, mid: seq<Event>, now: seq<Event>, release: Release)
    requires a <= was && WasRead(was, mid, release) && mid <= now
    ensures WasRead(a, now, release)
  {
    var k :| |was| <= k < |mid| && Answers(mid[k], release);
    assert now[k] == mid[k];
  }

  /** Whoever else writes, nothing is made public but right after these two readings. */
  ghost predicate Guarded(plan: Plan, objects: map<Sha, Object>, was: seq<Event>, now: seq<Event>) {
    && was <= now
    && forall k | |was| <= k < |now| && now[k].Undrafted? ::
         && k >= |was| + 3 && Cleared(plan, objects, now[k].id, now[k - 3], now[k - 2])
         && now[k - 1] == Checked(Line)
  }

  lemma GuardedLater(plan: Plan, a: map<Sha, Object>, b: map<Sha, Object>, was: seq<Event>, mid: seq<Event>,
      now: seq<Event>)
    requires Keeps(a, b) && Guarded(plan, a, was, mid) && NoUndraft(mid, now)
    ensures Guarded(plan, b, was, now)
  {
    forall k | |was| <= k < |now| && now[k].Undrafted?
      ensures k >= |was| + 3 && Cleared(plan, b, now[k].id, now[k - 3], now[k - 2]) && now[k - 1] == Checked(Line)
    {
      assert k < |mid| && now[k] == mid[k];
      assert k >= |was| + 3 && Cleared(plan, a, mid[k].id, mid[k - 3], mid[k - 2]);
      assert now[k - 1] == mid[k - 1] && now[k - 2] == mid[k - 2] && now[k - 3] == mid[k - 3];
      ResolvesLater(a, b, mid[k - 2].ref.value, plan.commit);
    }
  }

  lemma GuardedAfter(plan: Plan, objects: map<Sha, Object>, was: seq<Event>, mid: seq<Event>, now: seq<Event>)
    requires NoUndraft(was, mid) && Guarded(plan, objects, mid, now)
    ensures Guarded(plan, objects, was, now)
  {
    forall k | |was| <= k < |mid|
      ensures !now[k].Undrafted?
    {
      assert now[k] == mid[k];
    }
  }

  lemma UndraftGuarded(plan: Plan, objects: map<Sha, Object>, was: seq<Event>, mid: seq<Event>, id: int)
    requires |mid| == |was| + 3 && was <= mid && Cleared(plan, objects, id, mid[|was|], mid[|was| + 1])
             && mid[|was| + 2] == Checked(Line)
    ensures Guarded(plan, objects, was, mid + [Undrafted(id, plan.prerelease)])
  {
  }

  /** The release was read back with its number, and has the name and else only what is known. */
  ghost predicate Arriving(plan: Plan, look: Event, id: int, name: string, known: map<string, Identity>) {
    && look.ReleaseRead? && look.id == id == look.release.id && OfPlan(plan, look.release)
    && name in Names(look.release.assets) && Records(known, look.release.assets, plan.expected)
  }

  /** What a publication may ask of the remote, and right after what: the tag at the commit after both
      checks, the draft with the notes after the tag was read, the validated files under their names
      each after a comparison of the bytes, and the last steps. */
  ghost predicate Asked(plan: Plan, log: seq<Event>, k: nat)
    requires k < |log|
  {
    match log[k]
    case Checked(_) | Refused | RefRead(_, _) | Listed(_, _) | ReleaseRead(_, _) => true
    case MadeLatest(_) => k > 0 && log[k - 1] == Checked(OnMain)
    case RefCreated(tag, sha) =>
      tag == plan.tag && sha == plan.commit && k > 1 && log[k - 2] == Checked(Line) && log[k - 1] == Checked(Bytes)
    case ReleaseCreated(tag, sha, prerelease, body) =>
      && tag == plan.tag && sha == plan.commit && prerelease == plan.prerelease && body == plan.notes
      && k > 0 && log[k - 1].RefRead? && log[k - 1].tag == plan.tag && log[k - 1].ref.Some?
    case Uploaded(tag, name, size, digest) =>
      && tag == plan.tag && name in plan.expected && plan.expected[name] == Asset(size, digest)
      && k > 0 && log[k - 1] == Checked(Bytes)
    case Undrafted(_, prerelease) => prerelease == plan.prerelease
    case ReleaseDeleted(_) | RefDeleted(_) | Missing(_) => false
  }

  /** And nothing is asked after a request that did not succeed. */
  ghost predicate Asks(plan: Plan, was: seq<Event>, now: seq<Event>) {
    && was <= now && (forall k | |was| <= k < |now| :: Asked(plan, now, k))
    && forall k | |was| <= k < |now| - 1 :: now[k] != Refused
  }

  lemma AskedEarlier(plan: Plan, mid: seq<Event>, now: seq<Event>, k: nat)
    requires mid <= now && k < |mid| && Asked(plan, mid, k)
    ensures Asked(plan, now, k)
  {
    assert now[k] == mid[k] && (k > 0 ==> now[k - 1] == mid[k - 1]) && (k > 1 ==> now[k - 2] == mid[k - 2]);
  }

  ghost predicate GoesOn(was: seq<Event>, now: seq<Event>) {
    |now| > |was| ==> now[|now| - 1] != Refused
  }

  lemma AsksTogether(plan: Plan, was: seq<Event>, mid: seq<Event>, now: seq<Event>)
    requires Asks(plan, was, mid) && Asks(plan, mid, now) && (now == mid || GoesOn(was, mid))
    ensures Asks(plan, was, now)
  {
    forall k | |was| <= k < |now| - 1 ensures now[k] != Refused {
      if k < |mid| { assert now[k] == mid[k]; }
    }
    forall k | |was| <= k < |now| ensures Asked(plan, now, k) {
      if k < |mid| { AskedEarlier(plan, mid, now, k); }
    }
  }

  lemma AdvancesAsks(plan: Plan, was: seq<Event>, now: seq<Event>, id: int)
    requires LatestPointer.Advances(was, now, id)
    ensures Asks(plan, was, now) && NoUndraft(was, now)
  {
  }

  lemma OnlyRefsAsks(plan: Plan, was: seq<Event>, now: seq<Event>)
    requires OnlyRefs(was, now)
    ensures Asks(plan, was, now)
  {
  }

  /** Different names out of a set. */
  ghost predicate Once(sent: seq<string>, names: set<string>) {
    (forall n | n in sent :: n in names) && forall j, k | 0 <= j < k < |sent| :: sent[j] != sent[k]
  }

  lemma WentOn(plan: Plan, was: seq<Event>, mid: seq<Event>, now: seq<Event>)
    requires Asks(plan, mid, now) && GoesOn(was, mid) && GoesOn(mid, now)
    ensures GoesOn(was, now)
  {
    if |now| == |mid| { assert now == mid; }
  }

  lemma CheckedBytes(plan: Plan, log: seq<Event>)
    ensures Uploads(log + [Checked(Bytes)]) == Uploads(log) && OnlyUploads(log, log + [Checked(Bytes)], plan.tag)
    ensures Asks(plan, log, log + [Checked(Bytes)]) && Asks(plan, log, log) && GoesOn(log, log + [Checked(Bytes)])
  {
    OneMore(log, Checked(Bytes));
  }

  lemma FillingIsResumable(plan: Plan, s: Store, id: int, known: map<string, Identity>)
    requires Filling(plan, s, id, known)
    ensures Resumable(plan, s)
  {
  }

  lemma NothingSent(log: seq<Event>, tag: Tag, names: set<string>, known: map<string, Identity>)
    ensures Uploads(log) == Uploads(log) + [] && Once([], names) && OnlyUploads(log, log, tag) && Grows(known, known)
  {
  }

  lemma GrowsTogether(a: map<string, Identity>, b: map<string, Identity>, c: map<string, Identity>)
    requires Grows(a, b) && Grows(b, c)
    ensures Grows(a, c)
  {
  }

  lemma SendMore(first: seq<string>, was: seq<string>, now: seq<string>, sent: seq<string>, more: seq<string>,
      name: string, names: set<string>)
    requires was == first + sent && now == was + more && (more == [] || more == [name])
    requires Once(sent, names) && name in names && name !in sent
    ensures now == first + (sent + more) && Once(sent + more, names)
  {
  }

  class Publication {
    const r: Remote
    const plan: Plan
    var identities: map<string, Identity>

    constructor (r: Remote, plan: Plan)
      ensures this.r == r && this.plan == plan && identities == map[]
    {
      this.r, this.plan, identities := r, plan, map[];
    }

    /** `remote_assets` on a release just read, with `identities` updated. */
    method Observe(release: Release, complete: bool) returns (ok: bool)
      modifies this`identities
      ensures ok <==>
                && Acceptable(release.assets, plan.expected) && AllAgree(release.assets, plan.expected, old(identities))
                && (complete ==> Names(release.assets) == plan.expected.Keys)
                && old(identities.Keys) <= Names(release.assets)
      ensures ok ==> Records(identities, release.assets, plan.expected) && DistinctIds(identities)
      ensures ok && complete ==> Exactly(release.assets, plan.expected)
      ensures !ok ==> identities == old(identities)
      ensures Grows(old(identities), identities)
    {
      var observed := RemoteAssets(release.assets, plan.expected, complete, identities);
      ok := observed.Ok?;
      if ok { identities := identities + observed.value; }
      if ok && complete { AcceptableCarries(release.assets, plan.expected); }
      if ok { assert identities == observed.value; }
    }

    /** Lines 227-236: what is there is either resumable or refused before anything changes. */
    method Inspect() returns (found: Result<(Option<Release>, bool), ()>)
      requires identities == map[] && plan.Valid() && (r.alone ==> Consistent(r.s))
      modifies r, this
      ensures r.alone ==> r.s == old(r.s)
      ensures r.alone && (found.Ok? || !r.faulted) ==> (found.Ok? <==> Resumable(plan, r.s))
      ensures r.alone && found.Ok? ==> (found.value.1 <==> plan.tag in r.s.refs)
      ensures r.alone && found.Ok? ==> match found.value.0
                case None => Tagged(r.s, plan.tag) == {} && identities == map[]
                case Some(release) => Tagged(r.s, plan.tag) == {release.id} && r.s.releases[release.id] == release
                                      && Records(identities, release.assets, plan.expected)
      ensures found.Ok? && found.value.0.Some? && !found.value.0.value.draft ==> Recorded(plan, identities)
      ensures found.Ok? && found.value.0.None? ==> identities == map[]
      ensures (old(r.faulted) ==> r.faulted) && r.broken == old(r.broken)
      ensures NoUndraft(old(r.log), r.log) && forall e | e in r.log && e !in old(r.log) :: e.RefRead? || e.Listed?
      ensures found.Ok? && found.value.0.Some? && !found.value.0.value.draft ==>
                Released(plan, found.value.0.value) && WasRead(old(r.log), r.log, found.value.0.value)
      ensures Asks(plan, old(r.log), r.log)
      ensures found.Ok? ==> GoesOn(old(r.log), r.log)
    {
      hide Records, Recorded, Released, WasRead, Resolves, IdentityOk, DistinctIds, Carries;
      var release := Existing();
      if release.Err? { return Err(()); }
      ghost var log := r.log;
      var target := r.TagTarget(plan.tag);
      OnlyRefsAsks(plan, log, r.log);
      AsksTogether(plan, old(r.log), log, r.log);
      if release.value.Some? && !release.value.value.draft {
        ReadLater(old(r.log), old(r.log), log, r.log, release.value.value);
      }
      if target.Err? || !(target.value.None? || target.value.value == plan.commit) {
        if r.alone && target.Ok? && TagIs(r.s, plan.tag, plan.commit) {
          ResolvesUnique(r.s.objects, r.s.refs[plan.tag], plan.commit, target.value.value);
        }
        return Err(());
      }
      if release.value.Some? && !release.value.value.draft && target.value.None? { return Err(()); }
      found := Ok((release.value, target.value.Some?));
    }

    /** The one release of the tag that can be taken up. */
    ghost predicate Takable(s: Store) {
      && (forall i, j | i in Tagged(s, plan.tag) && j in Tagged(s, plan.tag) :: i == j)
      && forall i | i in Tagged(s, plan.tag) :: Takes(plan, s.releases[i])
    }

    /** Lines 227-232: at most one release has the tag, and it is vetted. */
    method Existing() returns (found: Result<Option<Release>, ()>)
      requires identities == map[] && (r.alone ==> Consistent(r.s))
      modifies r, this
      ensures r.alone ==> r.s == old(r.s)
      ensures r.alone && (found.Ok? || !r.faulted) ==> (found.Ok? <==> Takable(r.s))
      ensures r.alone && found.Ok? ==> match found.value
                case None => Tagged(r.s, plan.tag) == {} && identities == map[]
                case Some(release) => Tagged(r.s, plan.tag) == {release.id} && r.s.releases[release.id] == release
                                      && Records(identities, release.assets, plan.expected)
      ensures found.Ok? && found.value.Some? && !found.value.value.draft ==>
                && Recorded(plan, identities) && Released(plan, found.value.value)
                && WasRead(old(r.log), r.log, found.value.value)
      ensures found.Ok? && found.value.None? ==> identities == map[]
      ensures (old(r.faulted) ==> r.faulted) && r.broken == old(r.broken)
      ensures NoUndraft(old(r.log), r.log) && forall e | e in r.log && e !in old(r.log) :: e.Listed?
      ensures Asks(plan, old(r.log), r.log)
      ensures GoesOn(old(r.log), r.log)
    {
      hide Records, Recorded, Released, WasRead, IdentityOk, DistinctIds, Carries;
      var rows := r.List(plan.tag);
      if rows.Err? { return Err(()); }
      if r.alone { OnlyRelease(r.s, plan.tag, rows.value); }
      if |rows.value| > 1 { return Err(()); }
      found := Ok(None);
      if rows.value.Keys != {} {
        Occupied(rows.value.Keys);
        var i :| i in rows.value.Keys;
        ListedIsRead(old(r.log), r.log, rows.value, plan.tag, i);
        if r.alone { assert Tagged(r.s, plan.tag) == {i}; }
        var fine := InspectRelease(rows.value[i]);
        found := if fine then Ok(Some(rows.value[i])) else Err(());
      }
    }

    method InspectRelease(release: Release) returns (ok: bool)
      requires identities == map[]
      modifies this`identities
      ensures ok <==> release.tagName == plan.tag && Takes(plan, release)
      ensures ok ==>
                Records(identities, release.assets, plan.expected) && (!release.draft ==> Recorded(plan, identities))
      ensures ok && !release.draft ==> Released(plan, release)
    {
      if !IdentityOk(plan, release, false) { return false; }
      ok := Observe(release, !release.draft);
      if ok && release.draft && release.body != plan.notes { ok := false; }
    }

    /** Lines 242-244. */
    method PlaceTag(present: bool) returns (ok: bool)
      requires plan.Valid() && (r.alone ==> Resumable(plan, r.s) && (present <==> plan.tag in r.s.refs))
      requires |r.log| > 1 && r.log[|r.log| - 2] == Checked(Line) && r.log[|r.log| - 1] == Checked(Bytes)
      modifies r
      ensures r.alone ==>
                Moved(plan, old(r.s), r.s) && Resumable(plan, r.s) && r.s.releases == old(r.s.releases)
                && r.s.latest == old(r.s.latest)
      ensures r.alone && ok ==> plan.tag in r.s.refs
      ensures r.alone && !r.faulted ==> ok
      ensures (old(r.faulted) ==> r.faulted) && r.broken == old(r.broken)
      ensures NoUndraft(old(r.log), r.log)
      ensures forall e | e in r.log && e !in old(r.log) :: e.RefRead? || e.RefCreated? || e.Refused?
      ensures ok ==> r.log != [] && Shows(r.s.objects, r.log[|r.log| - 1], plan.tag, plan.commit)
      ensures Asks(plan, old(r.log), r.log)
      ensures ok ==> GoesOn(old(r.log), r.log)
    {
      hide Resolves;
      NothingMoved(plan, r.s);
      if !present {
        var created := r.CreateRef(plan.tag, plan.commit);
        if r.alone && r.s != old(r.s) { RefStep(plan, old(r.s), r.s); }
        if !created { return false; }
      }
      ok := r.TagStillIs(plan.tag, plan.commit);
    }

    /** Lines 240-244. */
    method EnsureTag(present: bool) returns (ok: bool)
      requires plan.Valid() && (r.alone ==> Resumable(plan, r.s) && (present <==> plan.tag in r.s.refs))
      modifies r
      ensures r.alone ==>
                Moved(plan, old(r.s), r.s) && Resumable(plan, r.s) && r.s.releases == old(r.s.releases)
                && r.s.latest == old(r.s.latest)
      ensures r.alone && ok ==> plan.tag in r.s.refs
      ensures r.alone && !r.faulted ==> ok
      ensures (old(r.faulted) ==> r.faulted) && r.broken == old(r.broken)
      ensures NoUndraft(old(r.log), r.log) && forall e | e in r.log && e !in old(r.log) ::
                e.RefRead? || e.RefCreated? || e.Checked? || e.Refused?
      ensures ok ==> r.log != [] && Shows(r.s.objects, r.log[|r.log| - 1], plan.tag, plan.commit)
      ensures Asks(plan, old(r.log), r.log)
      ensures ok ==> GoesOn(old(r.log), r.log)
    {
      hide Resumable, Moved, Resolves;
      NothingMoved(plan, r.s);
      ok := r.LocalCheck(Line);
      if ok { ok := r.LocalCheck(Bytes); }
      if ok {
        ghost var log := r.log;
        ok := PlaceTag(present);
        AsksTogether(plan, old(r.log), log, r.log);
        NoneUndrafted(old(r.log), log, r.log);
      }
    }

    /** Lines 245-250. */
    method EnsureDraft(release: Option<Release>) returns (draft: Result<Release, ()>)
      requires plan.Valid() && (release.None? ==> identities == map[])
      requires r.alone ==>
                Consistent(r.s) && Resumable(plan, r.s) && plan.tag in r.s.refs
                && (release.None? ==> Tagged(r.s, plan.tag) == {})
      requires r.alone && release.Some? ==>
                Filling(plan, r.s, release.value.id, identities) && r.s.releases[release.value.id] == release.value
      requires release.None? ==> r.log != [] && Shows(r.s.objects, r.log[|r.log| - 1], plan.tag, plan.commit)
      modifies r, this
      ensures r.alone ==> Moved(plan, old(r.s), r.s) && Resumable(plan, r.s) && r.s.latest == old(r.s.latest)
      ensures r.alone && draft.Ok? ==> Filling(plan, r.s, draft.value.id, identities)
      ensures r.alone && !r.faulted ==> draft.Ok?
      ensures (old(r.faulted) ==> r.faulted) && r.broken == old(r.broken) && Grows(old(identities), identities)
      ensures draft.Ok? ==> DistinctIds(identities) && identities.Keys <= plan.expected.Keys
      ensures NoUndraft(old(r.log), r.log)
      ensures forall e | e in r.log && e !in old(r.log) :: e.ReleaseCreated? || e.Refused?
      ensures Asks(plan, old(r.log), r.log)
      ensures draft.Ok? ==> GoesOn(old(r.log), r.log)
    {
      hide Resolves;
      if release.Some? {
        draft := Ok(release.value);
      } else {
        draft := r.CreateDraft(plan.tag, plan.commit, plan.prerelease, plan.notes);
        if r.alone && r.s != old(r.s) {
          var i :| i > 0 && i !in old(r.s.releases)
              && r.s == old(r.s).(releases := old(r.s.releases)[i := Draft(i, plan.tag, plan.commit, plan.prerelease,
                   plan.notes)]);
          DraftStep(plan, old(r.s), i, r.s);
        }
        if draft.Err? { return; }
      }
      if !IdentityOk(plan, draft.value, false) { return Err(()); }
      var observed := Observe(draft.value, false);
      if !observed { return Err(()); }
    }

    /** Line 253. */
    method Send(id: int, name: string) returns (ok: bool)
      requires plan.Valid() && name in plan.expected && r.log != [] && r.log[|r.log| - 1] == Checked(Bytes)
      requires r.alone ==> Filling(plan, r.s, id, identities) && name !in identities
      modifies r
      ensures r.alone ==> Moved(plan, old(r.s), r.s) && r.s.latest == old(r.s.latest)
      ensures r.alone && !old(r.broken) ==> (Resumable(plan, r.s) <==> !r.broken)
      ensures r.alone && ok ==>
                Received(plan, r.s, id, identities.Keys + {name}, identities) && r.broken == old(r.broken)
      ensures r.alone && !r.faulted ==> ok
      ensures (old(r.faulted) ==> r.faulted) && (old(r.broken) ==> r.broken)
      ensures Uploads(r.log) == Uploads(old(r.log)) + [name] && OnlyUploads(old(r.log), r.log, plan.tag)
      ensures Asks(plan, old(r.log), r.log) && (ok ==> GoesOn(old(r.log), r.log))
    {
      hide Resolves, Uploads, Acceptable, Moved;
      NothingMoved(plan, r.s);
      ghost var asked := Uploaded(plan.tag, name, plan.expected[name].size, plan.expected[name].digest);
      OneMore(r.log, asked);
      OneMore(r.log + [asked], Refused);
      ok := r.Upload(plan.tag, name, plan.expected[name].size, plan.expected[name].digest);
      assert r.log == if ok then old(r.log) + [asked] else old(r.log) + [asked] + [Refused];
      ghost var whole := Arrived(old(r.s), r.s, plan.tag, name, plan.expected[name].size, plan.expected[name].digest,
          true);
      if r.alone && r.s != old(r.s) { Receive(old(r.s), r.s, id, name, identities, whole); }
    }

    /** Lines 252-259 for one name. */
    method UploadOne(id: int, name: string) returns (ok: bool, ghost sent: seq<string>)
      requires plan.Valid() && name in plan.expected
      requires r.alone ==> Filling(plan, r.s, id, identities) && name !in identities
      modifies r, this
      ensures r.alone ==> Moved(plan, old(r.s), r.s) && r.s.latest == old(r.s.latest)
      ensures r.alone && !old(r.broken) ==> (Resumable(plan, r.s) <==> !r.broken)
      ensures r.alone && ok ==> Filling(plan, r.s, id, identities) && r.broken == old(r.broken)
      ensures r.alone && ok ==> identities.Keys == old(identities.Keys) + {name}
      ensures ok ==> name in identities && DistinctIds(identities) && identities.Keys <= plan.expected.Keys
      ensures r.alone && !r.faulted ==> ok
      ensures (old(r.faulted) ==> r.faulted) && (old(r.broken) ==> r.broken) && Grows(old(identities), identities)
      ensures Uploads(r.log) == Uploads(old(r.log)) + sent && (sent == [] || sent == [name]) && (ok ==> sent == [name])
      ensures OnlyUploads(old(r.log), r.log, plan.tag)
      ensures ok ==> r.log != [] && Arriving(plan, r.log[|r.log| - 1], id, name, identities)
      ensures Asks(plan, old(r.log), r.log)
      ensures ok ==> GoesOn(old(r.log), r.log)
    {
      hide Resolves, Uploads, Acceptable, Moved, Asks, Resumable, Filling, Received, OnlyUploads, Arriving, Grows;
      NothingMoved(plan, r.s);
      NothingSent(r.log, plan.tag, {name}, identities);
      if r.alone { FillingIsResumable(plan, r.s, id, identities); }
      CheckedBytes(plan, r.log);
      sent := [];
      ok := r.LocalCheck(Bytes);
      ghost var checked := r.log;
      if ok {
        ok := Send(id, name);
        sent := [name];
        ghost var log := r.log;
        AsksTogether(plan, old(r.log), checked, log);
        UploadsTogether(old(r.log), checked, log, plan.tag);
        if ok {
          WentOn(plan, old(r.log), checked, log);
          ok := CheckUploaded(id, name);
          AsksTogether(plan, old(r.log), log, r.log);
          UploadsTogether(old(r.log), log, r.log, plan.tag);
        }
      }
    }

    /** Lines 255-259. */
    method CheckUploaded(id: int, name: string) returns (ok: bool)
      requires plan.Valid() && name in plan.expected
      requires r.alone ==> Received(plan, r.s, id, identities.Keys + {name}, identities)
      modifies r, this
      ensures r.alone ==> r.s == old(r.s)
      ensures r.alone && ok ==> Filling(plan, r.s, id, identities) && identities.Keys == old(identities.Keys) + {name}
      ensures ok ==> name in identities && DistinctIds(identities) && identities.Keys <= plan.expected.Keys
      ensures r.alone && !r.faulted ==> ok
      ensures (old(r.faulted) ==> r.faulted) && r.broken == old(r.broken) && Grows(old(identities), identities)
      ensures Uploads(r.log) == Uploads(old(r.log)) && OnlyUploads(old(r.log), r.log, plan.tag)
      ensures ok ==>
                |r.log| == |old(r.log)| + 1 && Arriving(plan, r.log[|old(r.log)|], id, name, identities)
      ensures Asks(plan, old(r.log), r.log)
    {
      var uploaded := r.ReadRelease(id);
      if uploaded.Err? { return false; }
      OneMore(old(r.log), ReleaseRead(id, uploaded.value));
      ok := uploaded.value.id == id && IdentityOk(plan, uploaded.value, false);
      if ok { ok := Observe(uploaded.value, false); }
      if ok && name !in identities { ok := false; }
    }

    /** What an upload that reached the store did to it. */
    lemma Receive(s: Store, u: Store, id: int, name: string, known: map<string, Identity>, whole: bool)
      requires plan.Valid() && name in plan.expected && name !in known && Filling(plan, s, id, known)
      requires Arrived(s, u, plan.tag, name, plan.expected[name].size, plan.expected[name].digest, whole)
      ensures Moved(plan, s, u) && u.latest == s.latest && (Resumable(plan, u) <==> whole)
      ensures whole ==> Received(plan, u, id, known.Keys + {name}, known)
    {
      var i, row :| Added(s, u, plan.tag, i, row)
        && if whole then
             && row == Finished(row.id, name, plan.expected[name].size, plan.expected[name].digest)
             && NewId(s.releases[i].assets, row)
           else row.name == Some(name) && row.state != Some("uploaded");
      assert i == id;
      UploadStep(plan, s, id, row, u);
    }

    /** Lines 251-259: one upload for every missing name, in any order. */
    method UploadMissing(id: int) returns (ok: bool, ghost sent: seq<string>)
      requires plan.Valid() && DistinctIds(identities) && identities.Keys <= plan.expected.Keys
      requires r.alone ==> Filling(plan, r.s, id, identities)
      modifies r, this
      ensures r.alone ==> Moved(plan, old(r.s), r.s) && r.s.latest == old(r.s.latest)
      ensures r.alone && !old(r.broken) ==> (Resumable(plan, r.s) <==> !r.broken)
      ensures r.alone && ok ==> Filling(plan, r.s, id, identities) && r.broken == old(r.broken)
      ensures r.alone && ok ==> identities.Keys == plan.expected.Keys
      ensures ok ==> DistinctIds(identities) && identities.Keys <= plan.expected.Keys
      ensures r.alone && !r.faulted ==> ok
      ensures (old(r.faulted) ==> r.faulted) && (old(r.broken) ==> r.broken) && Grows(old(identities), identities)
      ensures Uploads(r.log) == Uploads(old(r.log)) + sent && Once(sent, plan.expected.Keys - old(identities.Keys))
      ensures ok ==> forall n | n in plan.expected && n !in old(identities) :: n in sent
      ensures OnlyUploads(old(r.log), r.log, plan.tag)
      ensures Asks(plan, old(r.log), r.log)
      ensures ok ==> GoesOn(old(r.log), r.log)
    {
      hide Filling, Moved, Resumable, OnlyUploads, Once, DistinctIds, Uploads, Grows, Resolves;
      var missing := plan.expected.Keys - identities.Keys;
      sent, ok := [], true;
      NothingMoved(plan, r.s);
      NothingSent(r.log, plan.tag, missing, identities);
      if r.alone { FillingIsResumable(plan, r.s, id, identities); }
      while ok && missing != {}
        invariant missing <= plan.expected.Keys - old(identities.Keys)
        invariant ok ==> DistinctIds(identities) && identities.Keys <= plan.expected.Keys
        invariant r.alone && ok ==> forall n | n in plan.expected :: n in missing <==> n !in identities
        invariant r.alone && ok ==> Filling(plan, r.s, id, identities) && r.broken == old(r.broken)
        invariant r.alone ==> Moved(plan, old(r.s), r.s) && r.s.latest == old(r.s.latest)
        invariant r.alone && !old(r.broken) ==> (Resumable(plan, r.s) <==> !r.broken)
        invariant r.alone && !r.faulted ==> ok
        invariant (old(r.faulted) ==> r.faulted) && (old(r.broken) ==> r.broken) && Grows(old(identities), identities)
        invariant ok ==> forall n | n in plan.expected && n !in old(identities) :: n in missing <==> n !in sent
        invariant Uploads(r.log) == Uploads(old(r.log)) + sent && Once(sent, plan.expected.Keys - old(identities.Keys))
        invariant OnlyUploads(old(r.log), r.log, plan.tag) && Asks(plan, old(r.log), r.log)
        invariant ok ==> GoesOn(old(r.log), r.log)
        decreases ok, missing
      {
        var name :| name in missing;
        ghost var was, log, known, more := r.s, r.log, identities, [];
        ok, more := UploadOne(id, name);
        GrowsTogether(old(identities), known, identities);
        UploadsTogether(old(r.log), log, r.log, plan.tag);
        AsksTogether(plan, old(r.log), log, r.log);
        if r.alone { MovedTransitive(plan, old(r.s), was, r.s); }
        SendMore(Uploads(old(r.log)), Uploads(log), Uploads(r.log), sent, more, name,
          plan.expected.Keys - old(identities.Keys));
        sent := sent + more;
        missing := missing - {name};
      }
    }

    /** Lines 266-267. */
    method Unveil(id: int) returns (ok: bool)
      requires plan.Valid()
      requires r.alone ==> Filling(plan, r.s, id, identities) && identities.Keys == plan.expected.Keys
      modifies r
      ensures r.alone ==> Moved(plan, old(r.s), r.s) && Resumable(plan, r.s) && r.s.latest == old(r.s.latest)
      ensures r.alone && ok ==> Done(plan, r.s, id) && Shown(plan, r.s, id, identities)
      ensures r.alone && !r.faulted ==> ok
      ensures (old(r.faulted) ==> r.faulted) && r.broken == old(r.broken)
      ensures r.log == old(r.log) + [Undrafted(id, plan.prerelease)] + Answer(ok)
      ensures Keeps(old(r.s.objects), r.s.objects)
      ensures Asks(plan, old(r.log), r.log)
      ensures ok ==> GoesOn(old(r.log), r.log)
    {
      NothingMoved(plan, r.s);
      ok := r.Undraft(id, plan.prerelease);
      if r.alone && r.s != old(r.s) {
        ghost var time :| r.s ==
            old(r.s).(releases := old(r.s.releases)[id := old(r.s.releases[id]).(draft := false,
                prerelease := plan.prerelease, published := time)]);
        ExactlyIff(old(r.s.releases[id].assets), plan.expected);
        PublicStep(plan, old(r.s), id, time, r.s);
      }
    }

    /** Lines 260-272, up to the Latest update. */
    method GoPublic(id: int) returns (published: Result<Release, ()>)
      requires plan.Valid()
      requires r.alone ==> Filling(plan, r.s, id, identities) && identities.Keys == plan.expected.Keys
      modifies r, this
      ensures r.alone ==> Moved(plan, old(r.s), r.s) && Resumable(plan, r.s) && r.s.latest == old(r.s.latest)
      ensures r.alone && published.Ok? ==>
                Done(plan, r.s, id) && published.value == r.s.releases[id] && published.value.id == id
      ensures r.alone && !r.faulted ==> published.Ok?
      ensures (old(r.faulted) ==> r.faulted) && r.broken == old(r.broken) && Grows(old(identities), identities)
      ensures Guarded(plan, r.s.objects, old(r.log), r.log)
      ensures forall e | e in r.log && e !in old(r.log) ::
                e.RefRead? || e.ReleaseRead? || e.Checked? || e.Refused?
                || (e == Undrafted(id, plan.prerelease) && Recorded(plan, identities))
      ensures published.Ok? ==>
                Recorded(plan, identities) && published.value.id == id
                && Confirmed(plan, old(r.log), r.log, published.value)
      ensures Asks(plan, old(r.log), r.log)
    {
      hide Cleared, Resolves, Carries, Moved;
      NothingMoved(plan, r.s);
      var ready := Ready(id);
      if !ready { return Err(()); }
      ghost var cleared, objects := r.log, r.s.objects;
      UndraftGuarded(plan, objects, old(r.log), cleared, id);
      var patched := Unveil(id);
      GuardedLater(plan, objects, r.s.objects, old(r.log), r.log, r.log);
      ghost var log, after := r.log, r.s.objects;
      AsksTogether(plan, old(r.log), cleared, log);
      if !patched { return Err(()); }
      published := Confirm(id);
      AsksTogether(plan, old(r.log), log, r.log);
      GuardedLater(plan, after, r.s.objects, old(r.log), log, r.log);
    }

    /** Lines 268-272. */
    method Confirm(id: int) returns (published: Result<Release, ()>)
      requires plan.Valid() && Recorded(plan, identities)
      requires r.alone ==> Shown(plan, r.s, id, identities)
      modifies r, this
      ensures r.alone ==> r.s == old(r.s)
      ensures r.alone && published.Ok? ==> published.value == r.s.releases[id] && published.value.id == id
      ensures r.alone && !r.faulted ==> published.Ok?
      ensures (old(r.faulted) ==> r.faulted) && r.broken == old(r.broken) && Grows(old(identities), identities)
      ensures NoUndraft(old(r.log), r.log) && Keeps(old(r.s.objects), r.s.objects)
      ensures (forall e | e in r.log && e !in old(r.log) :: e.ReleaseRead? || e == Checked(Bytes))
              && Recorded(plan, identities)
      ensures published.Ok? ==>
                && r.log == old(r.log) + [ReleaseRead(id, published.value), Checked(Bytes)] && published.value.id == id
                && Confirmed(plan, old(r.log), r.log, published.value)
      ensures Asks(plan, old(r.log), r.log)
    {
      hide Carries;
      var after := r.ReadRelease(id);
      if after.Err? || after.value.id != id || !IdentityOk(plan, after.value, true) { return Err(()); }
      var whole := Observe(after.value, true);
      if !whole || after.value.body != plan.notes { return Err(()); }
      var local := r.LocalCheck(Bytes);
      if !local { return Err(()); }
      published := after;
    }

    /** Lines 260-265: the last look before the release goes public. */
    method Ready(id: int) returns (ok: bool)
      requires plan.Valid()
      requires r.alone ==> Filling(plan, r.s, id, identities) && identities.Keys == plan.expected.Keys
      modifies r, this
      ensures r.alone ==> r.s == old(r.s) && Filling(plan, r.s, id, identities)
      ensures r.alone && !r.faulted ==> ok
      ensures ok ==> Recorded(plan, identities)
      ensures (old(r.faulted) ==> r.faulted) && r.broken == old(r.broken) && Grows(old(identities), identities)
      ensures NoUndraft(old(r.log), r.log) && forall e | e in r.log && e !in old(r.log) ::
                e.RefRead? || e.ReleaseRead? || e == Checked(Line)
      ensures ok ==> |r.log| == |old(r.log)| + 3
                     && Cleared(plan, r.s.objects, id, r.log[|old(r.log)|], r.log[|old(r.log)| + 1])
                     && r.log[|old(r.log)| + 2] == Checked(Line)
      ensures Asks(plan, old(r.log), r.log)
      ensures ok ==> GoesOn(old(r.log), r.log)
    {
      hide Resolves, DistinctIds;
      var draft := r.ReadRelease(id);
      if draft.Err? || draft.value.id != id || !IdentityOk(plan, draft.value, false) { return false; }
      var whole := Observe(draft.value, true);
      if !whole || draft.value.body != plan.notes || !draft.value.draft { return false; }
      var same := r.TagStillIs(plan.tag, plan.commit);
      if !same { return false; }
      ok := r.LocalCheck(Line);
    }

    /** Lines 240-272: from a resumable start to a public release. */
    method Advance(release: Option<Release>, present: bool) returns (published: Result<Release, ()>)
      requires plan.Valid() && (release.None? ==> identities == map[])
      requires r.alone ==> Consistent(r.s) && Resumable(plan, r.s) && (present <==> plan.tag in r.s.refs)
      requires r.alone ==> match release
                 case None => Tagged(r.s, plan.tag) == {}
                 case Some(x) =>
                     Tagged(r.s, plan.tag) == {x.id} && r.s.releases[x.id] == x && x.draft
                     && Records(identities, x.assets, plan.expected)
      modifies r, this
      ensures r.alone ==> Moved(plan, old(r.s), r.s) && r.s.latest == old(r.s.latest)
      ensures r.alone && !old(r.broken) ==> (Resumable(plan, r.s) <==> !r.broken)
      ensures r.alone && published.Ok? ==>
                Done(plan, r.s, published.value.id) && published.value == r.s.releases[published.value.id]
                && Resumable(plan, r.s)
      ensures r.alone && !r.faulted ==> published.Ok?
      ensures published.Ok? ==> Recorded(plan, identities)
      ensures (old(r.faulted) ==> r.faulted) && (old(r.broken) ==> r.broken) && Grows(old(identities), identities)
      ensures forall e | e in r.log && e !in old(r.log) && e.Undrafted? :: Recorded(plan, identities)
      ensures Guarded(plan, r.s.objects, old(r.log), r.log)
      ensures forall e | e in r.log && e !in old(r.log) ::
                e.RefRead? || e.ReleaseRead? || e.RefCreated? || e.ReleaseCreated? || e.Uploaded? || e.Undrafted?
                || e.Checked? || e.Refused?
      ensures published.Ok? ==> Confirmed(plan, old(r.log), r.log, published.value)
      ensures Asks(plan, old(r.log), r.log)
    {
      NothingMoved(plan, r.s);
      var ready := EnsureTag(present);
      published := Err(());
      if ready {
        ghost var s1, log := r.s, r.log;
        if r.alone {
          StaysConsistent(plan, old(r.s), s1);
          assert Tagged(s1, plan.tag) == Tagged(old(r.s), plan.tag);
        }
        published := Fill(release);
        AsksTogether(plan, old(r.log), log, r.log);
        GuardedAfter(plan, r.s.objects, old(r.log), log, r.log);
        if r.alone { MovedTransitive(plan, old(r.s), s1, r.s); }
      }
    }

    /** Lines 245-272: the draft, its assets, and the step to a public release. */
    method Fill(release: Option<Release>) returns (published: Result<Release, ()>)
      requires plan.Valid() && (release.None? ==> identities == map[])
      requires r.alone ==> Consistent(r.s) && Resumable(plan, r.s) && plan.tag in r.s.refs
      requires r.alone ==> match release
                 case None => Tagged(r.s, plan.tag) == {}
                 case Some(x) =>
                     Tagged(r.s, plan.tag) == {x.id} && r.s.releases[x.id] == x && x.draft
                     && Records(identities, x.assets, plan.expected)
      requires release.None? ==> r.log != [] && Shows(r.s.objects, r.log[|r.log| - 1], plan.tag, plan.commit)
      modifies r, this
      ensures r.alone ==> Moved(plan, old(r.s), r.s) && r.s.latest == old(r.s.latest)
      ensures r.alone && !old(r.broken) ==> (Resumable(plan, r.s) <==> !r.broken)
      ensures r.alone && published.Ok? ==>
                Done(plan, r.s, published.value.id) && published.value == r.s.releases[published.value.id]
                && Resumable(plan, r.s)
      ensures r.alone && !r.faulted ==> published.Ok?
      ensures published.Ok? ==> Recorded(plan, identities)
      ensures (old(r.faulted) ==> r.faulted) && (old(r.broken) ==> r.broken) && Grows(old(identities), identities)
      ensures forall e | e in r.log && e !in old(r.log) && e.Undrafted? :: Recorded(plan, identities)
      ensures Guarded(plan, r.s.objects, old(r.log), r.log)
      ensures forall e | e in r.log && e !in old(r.log) ::
                e.RefRead? || e.ReleaseRead? || e.RefCreated? || e.ReleaseCreated? || e.Uploaded? || e.Undrafted?
                || e.Checked? || e.Refused?
      ensures published.Ok? ==> Confirmed(plan, old(r.log), r.log, published.value)
      ensures Asks(plan, old(r.log), r.log)
    {
      hide Moved, Asked;
      var draft := EnsureDraft(release);
      published := Err(());
      if draft.Ok? {
        ghost var s2, log := r.s, r.log;
        var filled;
        ghost var sent;
        filled, sent := UploadMissing(draft.value.id);
        NoneUndrafted(old(r.log), log, r.log);
        AsksTogether(plan, old(r.log), log, r.log);
        ghost var s3 := r.s;
        log := r.log;
        if r.alone { MovedTransitive(plan, old(r.s), s2, s3); }
        if filled {
          published := GoPublic(draft.value.id);
          AsksTogether(plan, old(r.log), log, r.log);
          GuardedAfter(plan, r.s.objects, old(r.log), log, r.log);
          if r.alone { MovedTransitive(plan, old(r.s), s3, r.s); }
        }
      }
    }

    /** Lines 221-236: the local check of the bundle, and then the reading. */
    method Begin() returns (found: Result<(Option<Release>, bool), ()>)
      requires identities == map[] && (r.alone ==> Consistent(r.s))
      modifies r, this
      ensures r.alone ==> r.s == old(r.s)
      ensures r.alone && (found.Ok? || !r.faulted) ==> (found.Ok? <==> Resumable(plan, r.s))
      ensures r.alone && found.Ok? ==> (found.value.1 <==> plan.tag in r.s.refs)
      ensures r.alone && found.Ok? ==> match found.value.0
                case None => Tagged(r.s, plan.tag) == {} && identities == map[]
                case Some(release) => Tagged(r.s, plan.tag) == {release.id} && r.s.releases[release.id] == release
                                      && Records(identities, release.assets, plan.expected)
      ensures found.Ok? && found.value.0.Some? && !found.value.0.value.draft ==> Recorded(plan, identities)
      ensures found.Ok? ==> plan.Valid() && (found.value.0.None? ==> identities == map[])
      ensures (old(r.faulted) ==> r.faulted) && r.broken == old(r.broken)
      ensures NoUndraft(old(r.log), r.log)
      ensures forall e | e in r.log && e !in old(r.log) :: e.RefRead? || e.Listed? || e.Checked? || e.Refused?
      ensures found.Ok? && found.value.0.Some? && !found.value.0.value.draft ==>
                Released(plan, found.value.0.value) && WasRead(old(r.log), r.log, found.value.0.value)
      ensures Asks(plan, old(r.log), r.log) && (r.log != old(r.log) ==> r.log[|old(r.log)|] == Checked(Bundle))
      ensures found.Ok? ==> GoesOn(old(r.log), r.log) && r.log != old(r.log)
    {
      hide Records, Recorded, Released, Resolves, IdentityOk, DistinctIds, Carries;
      if !plan.Valid() { return Err(()); }
      var valid := r.LocalCheck(Bundle);
      if !valid { return Err(()); }
      found := Inspect();
    }

    /** Lines 221-272. */
    method MakePublic() returns (published: Result<Release, ()>)
      requires identities == map[] && (r.alone ==> Consistent(r.s))
      modifies r, this
      ensures r.alone ==> Moved(plan, old(r.s), r.s) && r.s.latest == old(r.s.latest)
      ensures r.alone && !Resumable(plan, old(r.s)) ==> r.s == old(r.s) && published.Err?
      ensures r.alone && !old(r.broken) && Resumable(plan, old(r.s)) ==> (Resumable(plan, r.s) <==> !r.broken)
      ensures r.alone && published.Ok? ==>
                Done(plan, r.s, published.value.id) && published.value == r.s.releases[published.value.id]
                && Resumable(plan, r.s)
      ensures r.alone && !r.faulted ==> (published.Ok? <==> Resumable(plan, old(r.s)))
      ensures published.Ok? ==> Recorded(plan, identities)
      ensures (old(r.faulted) ==> r.faulted) && (old(r.broken) ==> r.broken)
      ensures forall e | e in r.log && e !in old(r.log) && e.Undrafted? :: Recorded(plan, identities)
      ensures Guarded(plan, r.s.objects, old(r.log), r.log)
      ensures forall e | e in r.log && e !in old(r.log) :: !e.MadeLatest? && !e.ReleaseDeleted? && !e.RefDeleted?
      ensures published.Ok? ==> Released(plan, published.value) && WasRead(old(r.log), r.log, published.value)
      ensures Asks(plan, old(r.log), r.log) && (r.log != old(r.log) ==> r.log[|old(r.log)|] == Checked(Bundle))
      ensures published.Ok? ==> GoesOn(old(r.log), r.log)
    {
      hide NewNames, Carries;
      NothingMoved(plan, r.s);
      var found := Begin();
      if found.Err? { return Err(()); }
      if found.value.0.Some? && !found.value.0.value.draft {
        published := Ok(found.value.0.value);
      } else {
        ghost var log := r.log;
        published := Advance(found.value.0, found.value.1);
        AsksTogether(plan, old(r.log), log, r.log);
        GuardedAfter(plan, r.s.objects, old(r.log), log, r.log);
        if published.Ok? { ConfirmedIsRead(plan, old(r.log), r.log, published.value); }
      }
    }

    /** Lines 221-274. `public` says that the release was found or made public, `ok` that the
        script ends without an error, the Latest update included. */
    method Publish(main: bool, onMain: bool, guestRuntime: bool)
      returns (public: bool, ok: bool, ghost mid: Store, ghost shown: Release)
      requires identities == map[] && (r.alone ==> Consistent(r.s))
      modifies r, this
      ensures r.alone ==> Moved(plan, old(r.s), r.s) && LatestPointer.Publishes(old(r.s), r.s) && Consistent(r.s)
      ensures r.alone && !Resumable(plan, old(r.s)) ==> r.s == old(r.s) && !public && !ok
      ensures r.alone && !old(r.broken) && Resumable(plan, old(r.s)) ==> (Resumable(plan, r.s) <==> !r.broken)
      ensures public ==> Released(plan, shown) && WasRead(old(r.log), r.log, shown)
      ensures r.alone && Stuck(plan, old(r.s)) ==> r.s == old(r.s) && !public && !ok
      ensures r.alone && public ==>
                && Done(plan, r.s, shown.id) && Done(plan, mid, shown.id) && mid == r.s.(latest := old(r.s.latest))
                && mid.releases[shown.id] == shown
      ensures r.alone && public && (ok || !r.faulted) ==>
                Settled(mid, shown, plan.commit, main, onMain, guestRuntime, ok, r.s)
      ensures r.alone && !r.faulted ==> (public <==> Resumable(plan, old(r.s)))
      ensures (old(r.faulted) ==> r.faulted) && (old(r.broken) ==> r.broken) && (ok ==> public)
      ensures forall e | e in r.log && e !in old(r.log) && e.Undrafted? :: Recorded(plan, identities)
      ensures Guarded(plan, r.s.objects, old(r.log), r.log)
      ensures Asks(plan, old(r.log), r.log) && (r.log != old(r.log) ==> r.log[|old(r.log)|] == Checked(Bundle))
    {
      var published := MakePublic();
      mid := r.s;
      ghost var log := r.log;
      if r.alone { StaysConsistent(plan, old(r.s), mid); }
      if r.alone && Stuck(plan, old(r.s)) { StuckIsRefused(plan, old(r.s)); }
      if published.Err? {
        if r.alone { StayIsPublishing(plan, old(r.s), mid); }
        shown := Draft(0, plan.tag, plan.commit, plan.prerelease, plan.notes);
        public, ok := false, false;
        return;
      }
      shown := published.value;
      ok := LatestPointer.UpdateLatest(r, published.value, plan.commit, main, onMain, guestRuntime);
      AdvancesAsks(plan, log, r.log, shown.id);
      AsksTogether(plan, old(r.log), log, r.log);
      ReadLater(old(r.log), old(r.log), log, r.log, shown);
      GuardedLater(plan, mid.objects, r.s.objects, old(r.log), log, r.log);
      public := true;
      if r.alone { Concluded(plan, old(r.s), mid, published.value, r.s); }
    }
  }

  /** How the run left Latest, the release being public at `mid`. */
  ghost predicate Settled(mid: Store, release: Release, commit: Sha, main: bool, onMain: bool, guestRuntime: bool,
      ok: bool, u: Store) {
    if !main || StableVersion(release.tagName).None? then ok && u == mid
    else
      && (ok <==> LatestPointer.Sound(mid, release, commit, onMain, guestRuntime))
      && (ok && LatestPointer.MayMove(mid, release) ==> u.latest == Some(release.id))
      && (u.latest != mid.latest ==> LatestPointer.MayMove(mid, release))
  }

  lemma StayIsPublishing(plan: Plan, s: Store, u: Store)
    requires Moved(plan, s, u) && u.latest == s.latest
    ensures LatestPointer.Publishes(s, u)
  {
  }

  lemma MoveIsPublishing(plan: Plan, s: Store, m: Store, release: Release, u: Store)
    requires Moved(plan, s, m) && m.latest == s.latest && Consistent(m) && Resumable(plan, m)
    requires release.id in m.releases && m.releases[release.id] == release && release.tagName == plan.tag
    requires LatestPointer.MayMove(m, release) && u == m.(latest := Some(release.id))
    ensures Moved(plan, s, u) && LatestPointer.Publishes(s, u) && Consistent(u) && Resumable(plan, u)
    ensures Done(plan, m, release.id) ==> Done(plan, u, release.id)
  {
    hide StableVersion;
    LatestStep(plan, m, release.id, u);
    MovedTransitive(plan, s, m, u);
    assert LatestPointer.Names(u, release.id);
    assert Tagged(u, plan.tag) == Tagged(m, plan.tag);
  }

  lemma Concluded(plan: Plan, s: Store, m: Store, release: Release, u: Store)
    requires Moved(plan, s, m) && m.latest == s.latest && Consistent(m) && Resumable(plan, m)
    requires release.id in m.releases && m.releases[release.id] == release && release.tagName == plan.tag
    requires u == m || (LatestPointer.MayMove(m, release) && u == m.(latest := Some(release.id)))
    ensures Moved(plan, s, u) && LatestPointer.Publishes(s, u) && Consistent(u) && Resumable(plan, u)
    ensures (Done(plan, m, release.id) ==> Done(plan, u, release.id)) && m == u.(latest := s.latest)
  {
    if u == m {
      StayIsPublishing(plan, s, m);
    } else {
      MoveIsPublishing(plan, s, m, release, u);
    }
  }

  /** Any number of runs of one publication, each of which may be cut anywhere. */
  method Runs(r: Remote, plan: Plan, runs: nat, main: bool, onMain: bool, guestRuntime: bool)
    requires r.alone && Consistent(r.s) && !r.broken
    modifies r
    ensures Moved(plan, old(r.s), r.s) && Consistent(r.s)
    ensures !Resumable(plan, old(r.s)) ==> r.s == old(r.s)
    ensures Stuck(plan, old(r.s)) ==> r.s == old(r.s)
    ensures Resumable(plan, old(r.s)) ==> (Resumable(plan, r.s) <==> !r.broken)
  {
    NothingMoved(plan, r.s);
    if Stuck(plan, r.s) { StuckIsRefused(plan, r.s); }
    for i := 0 to runs
      invariant Moved(plan, old(r.s), r.s) && Consistent(r.s)
      invariant !Resumable(plan, old(r.s)) ==> r.s == old(r.s)
      invariant Resumable(plan, old(r.s)) ==> (Resumable(plan, r.s) <==> !r.broken)
    {
      ghost var was := r.s;
      var p := new Publication(r, plan);
      var public, ok, _, _ := p.Publish(main, onMain, guestRuntime);
      MovedTransitive(plan, old(r.s), was, r.s);
    }
  }

  /** Serialized publications of any plans, cut anywhere, leave a trace of the kind along which
      the Latest of a unit never decreases. */
  method Serialized(r: Remote, plans: seq<Plan>, main: bool, onMain: bool, guestRuntime: bool)
    returns (ghost trace: seq<Store>)
    requires r.alone && Consistent(r.s)
    modifies r
    ensures LatestPointer.Trace(trace) && |trace| == |plans| + 1 && trace[0] == old(r.s) && trace[|plans|] == r.s
  {
    trace := [r.s];
    for i := 0 to |plans|
      invariant Consistent(r.s) && LatestPointer.Trace(trace) && |trace| == i + 1 && trace[0] == old(r.s)
                && trace[i] == r.s
    {
      var p := new Publication(r, plans[i]);
      var public, ok, _, _ := p.Publish(main, onMain, guestRuntime);
      LatestPointer.TraceGrows(trace, r.s);
      trace := trace + [r.s];
    }
  }
}
