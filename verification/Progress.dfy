/** What a publication may do to the store, and from where it can be finished. */
module Progress {
  import opened Outcomes
  import opened GitHub
  import opened Requests
  import opened Publisher

  ghost predicate NewNames(a: seq<Row>, b: seq<Row>, expected: map<string, Asset>) {
    && a <= b
    && forall k | |a| <= k < |b| :: b[k].name.Some? && b[k].name.value in expected && forall j | 0 <= j < k ::
         b[j].name != b[k].name
  }

  /** How one release may change: a public one not at all; a draft only gains expected assets
      it did not hold, and goes public only with exactly the expected assets. */
  ghost predicate Evolved(plan: Plan, a: Release, b: Release) {
    && b == a.(assets := b.assets, draft := b.draft, published := b.published)
    && (!a.draft ==> b == a)
    && NewNames(a.assets, b.assets, plan.expected)
    && (a.draft && !b.draft ==> Exactly(b.assets, plan.expected) && b.prerelease == plan.prerelease)
  }

  ghost predicate RefProgress(plan: Plan, s: Store, u: Store) {
    && (forall t | t != plan.tag :: (t in s.refs <==> t in u.refs) && (t in s.refs ==> u.refs[t] == s.refs[t]))
    && (plan.tag in s.refs ==> plan.tag in u.refs && u.refs[plan.tag] == s.refs[plan.tag])
    && (plan.tag in u.refs && plan.tag !in s.refs ==> u.refs[plan.tag] == Object(plan.commit, Commit))
  }

  ghost predicate ReleaseProgress(plan: Plan, s: Store, u: Store) {
    && (forall i | i in s.releases ::
         i in u.releases && if s.releases[i].tagName == plan.tag then Evolved(plan, s.releases[i], u.releases[i])
                                                           else u.releases[i] == s.releases[i])
    && (forall i | i in u.releases && i !in s.releases ::
          && i > 0 && Tagged(s, plan.tag) == {}
          && Evolved(plan,
                     Release(i, plan.tag, plan.commit, true, plan.prerelease, false, plan.notes, [], None),
                     u.releases[i]))
    && (forall i, j | i in u.releases && j in u.releases && i !in s.releases && j !in s.releases :: i == j)
  }

  /** Latest moves only to a public release of the plan. */
  ghost predicate LatestProgress(plan: Plan, s: Store, u: Store) {
    u.latest == s.latest
    || exists i :: u.latest == Some(i) && i in Tagged(u, plan.tag) && !u.releases[i].draft && !u.releases[i].prerelease
  }

  /** All that one run or many may have done between two states. */
  ghost predicate Moved(plan: Plan, s: Store, u: Store) {
    u.objects == s.objects && RefProgress(plan, s, u) && ReleaseProgress(plan, s, u) && LatestProgress(plan, s, u)
  }

  lemma NamesTransitive(a: seq<Row>, b: seq<Row>, c: seq<Row>, expected: map<string, Asset>)
    requires NewNames(a, b, expected) && NewNames(b, c, expected)
    ensures NewNames(a, c, expected)
  {
    forall k | |a| <= k < |c|
      ensures c[k].name.Some? && c[k].name.value in expected && forall j | 0 <= j < k :: c[j].name != c[k].name
    {
      if k < |b| {
        assert c[k] == b[k];
        forall j | 0 <= j < k
          ensures c[j].name != c[k].name
        {
          assert c[j] == b[j];
        }
      }
    }
  }

  lemma EvolvedTransitive(plan: Plan, a: Release, b: Release, c: Release)
    requires Evolved(plan, a, b) && Evolved(plan, b, c)
    ensures Evolved(plan, a, c)
  {
    NamesTransitive(a.assets, b.assets, c.assets, plan.expected);
  }

  lemma TaggedKept(plan: Plan, s: Store, t: Store)
    requires ReleaseProgress(plan, s, t)
    ensures Tagged(s, plan.tag) <= Tagged(t, plan.tag)
  {
    forall i | i in Tagged(s, plan.tag)
      ensures i in Tagged(t, plan.tag)
    {
      assert Evolved(plan, s.releases[i], t.releases[i]);
    }
  }

  lemma ReleaseTransitive(plan: Plan, s: Store, t: Store, u: Store)
    requires ReleaseProgress(plan, s, t) && ReleaseProgress(plan, t, u)
    ensures ReleaseProgress(plan, s, u)
  {
    TaggedKept(plan, s, t);
    forall i | i in s.releases && s.releases[i].tagName == plan.tag
      ensures Evolved(plan, s.releases[i], u.releases[i])
    {
      EvolvedTransitive(plan, s.releases[i], t.releases[i], u.releases[i]);
    }
    forall i | i in u.releases && i !in s.releases
      ensures i > 0 && Tagged(s, plan.tag) == {}
      ensures Evolved(plan, Draft(i, plan.tag, plan.commit, plan.prerelease, plan.notes), u.releases[i])
    {
      if i in t.releases {
        EvolvedTransitive(plan, Draft(i, plan.tag, plan.commit, plan.prerelease, plan.notes), t.releases[i],
            u.releases[i]);
      } else {
        assert Tagged(t, plan.tag) == {};
      }
    }
    forall i, j | i in u.releases && j in u.releases && i !in s.releases && j !in s.releases
      ensures i == j
    {
      if i in t.releases { assert i in Tagged(t, plan.tag); }
      if j in t.releases { assert j in Tagged(t, plan.tag); }
    }
  }

  /** Runs add up. */
  lemma MovedTransitive(plan: Plan, s: Store, t: Store, u: Store)
    requires Moved(plan, s, t) && Moved(plan, t, u)
    ensures Moved(plan, s, u)
  {
    ReleaseTransitive(plan, s, t, u);
    if t.latest != s.latest && u.latest == t.latest {
      var i :| t.latest == Some(i) && i in Tagged(t, plan.tag) && !t.releases[i].draft && !t.releases[i].prerelease;
      assert i in Tagged(u, plan.tag);
    }
  }

  /** The draft or public release of the plan can be taken up by a run. */
  ghost predicate Takes(plan: Plan, release: Release) {
    && release.id > 0 && release.prerelease == plan.prerelease
    && Acceptable(release.assets, plan.expected)
    && (release.draft ==> release.body == plan.notes)
    && (!release.draft ==> Names(release.assets) == plan.expected.Keys)
  }

  /** Exactly the states from which a run without faults ends public. */
  ghost predicate Resumable(plan: Plan, s: Store) {
    && IsSha(plan.commit) && (forall n | n in plan.expected :: plan.expected[n].size > 0)
    && (forall i, j | i in Tagged(s, plan.tag) && j in Tagged(s, plan.tag) :: i == j)
    && (plan.tag in s.refs ==> TagIs(s, plan.tag, plan.commit))
    && forall i | i in Tagged(s, plan.tag) ::
         && s.releases[i].id == i && Takes(plan, s.releases[i])
         && (!s.releases[i].draft ==> plan.tag in s.refs)
  }

  /** The release is public with exactly the expected assets, under a tag that names the commit. */
  ghost predicate Done(plan: Plan, s: Store, id: int) {
    && Tagged(s, plan.tag) == {id} && !s.releases[id].draft && s.releases[id].prerelease == plan.prerelease
    && Exactly(s.releases[id].assets, plan.expected) && TagIs(s, plan.tag, plan.commit)
  }

  // The requests of a run, each as a move from a resumable state to a resumable one.

  lemma RefStep(plan: Plan, s: Store, u: Store)
    requires Resumable(plan, s) && plan.tag !in s.refs
             && u == s.(refs := s.refs[plan.tag := Object(plan.commit, Commit)])
    ensures Moved(plan, s, u) && Resumable(plan, u)
  {
    DirectTag(u, plan.tag, plan.commit);
    assert Tagged(u, plan.tag) == Tagged(s, plan.tag);
  }

  lemma DraftStep(plan: Plan, s: Store, i: int, u: Store)
    requires Resumable(plan, s) && Tagged(s, plan.tag) == {} && i > 0 && i !in s.releases
    requires u == s.(releases := s.releases[i := Draft(i, plan.tag, plan.commit, plan.prerelease, plan.notes)])
    ensures Moved(plan, s, u) && Resumable(plan, u) && Tagged(u, plan.tag) == {i}
  {
    assert Tagged(u, plan.tag) - {i} <= Tagged(s, plan.tag) && i in Tagged(u, plan.tag);
    assert Tagged(u, plan.tag) == {i};
    assert Names([]) == {};
  }

  /** A row for an expected name the draft does not hold keeps the state resumable exactly when
      the upload was finished. */
  lemma UploadStep(plan: Plan, s: Store, i: int, row: Row, u: Store)
    requires Resumable(plan, s) && Tagged(s, plan.tag) == {i} && s.releases[i].draft
    requires row.name.Some? && row.name.value in plan.expected && row.name.value !in Names(s.releases[i].assets)
    requires u == s.(releases := s.releases[i := WithRow(s.releases[i], row)])
    requires Genuine(row, plan.expected) ==> NewId(s.releases[i].assets, row)
    ensures Moved(plan, s, u) && Tagged(u, plan.tag) == {i}
    ensures Resumable(plan, u) <==> Genuine(row, plan.expected)
    ensures Names(u.releases[i].assets) == Names(s.releases[i].assets) + {row.name.value}
  {
    var a, b := s.releases[i].assets, u.releases[i].assets;
    forall k | 0 <= k < |a|
      ensures a[k].name != row.name
    {
      assert a[k] in a;
    }
    assert NewNames(a, b, plan.expected);
    assert Tagged(u, plan.tag) == Tagged(s, plan.tag);
    assert b[|a|] == row;
    NamesAppend(a, row);
    if Genuine(row, plan.expected) {
      assert Acceptable(b, plan.expected);
    } else {
      assert i in Tagged(u, plan.tag);
    }
  }

  lemma NamesAppend(a: seq<Row>, row: Row)
    requires row.name.Some?
    ensures Names(a + [row]) == Names(a) + {row.name.value}
  {
    var b := a + [row];
    assert forall r :: r in b <==> r in a || r == row;
  }

  lemma PublicStep(plan: Plan, s: Store, i: int, time: Option<int>, u: Store)
    requires Resumable(plan, s) && Tagged(s, plan.tag) == {i} && s.releases[i].draft && plan.tag in s.refs
    requires Exactly(s.releases[i].assets, plan.expected)
    requires u == s.(releases := s.releases[i := s.releases[i].(draft := false, prerelease := plan.prerelease,
              published := time)])
    ensures Moved(plan, s, u) && Resumable(plan, u) && Done(plan, u, i)
  {
    ExactlyIff(s.releases[i].assets, plan.expected);
    assert Tagged(u, plan.tag) == Tagged(s, plan.tag);
    assert i in Tagged(s, plan.tag);
  }

  lemma LatestStep(plan: Plan, s: Store, i: int, u: Store)
    requires Resumable(plan, s) && i in Tagged(s, plan.tag) && !s.releases[i].draft && !s.releases[i].prerelease
    requires u == s.(latest := Some(i))
    ensures Moved(plan, s, u) && Resumable(plan, u)
  {
    assert Tagged(u, plan.tag) == Tagged(s, plan.tag);
  }

  // What the relation means for a reader.

  /** Whatever cut runs did before: the tag is absent or names the commit, a release that became
      public has exactly the expected assets, no row was replaced and no name came twice. */
  lemma SafeAfter(plan: Plan, s: Store, u: Store)
    requires plan.Valid() && Moved(plan, s, u) && (plan.tag in s.refs ==> TagIs(s, plan.tag, plan.commit))
    ensures plan.tag in u.refs ==> TagIs(u, plan.tag, plan.commit)
    ensures forall i | i in Tagged(u, plan.tag) && !u.releases[i].draft ::
              (i in s.releases && s.releases[i] == u.releases[i]) || Exactly(u.releases[i].assets, plan.expected)
    ensures forall i | i in s.releases :: i in u.releases && s.releases[i].assets <= u.releases[i].assets
    ensures forall i | i in u.releases && (i in s.releases ==> Distinct(s.releases[i].assets))
            && i in Tagged(u, plan.tag) ::
              forall j, k | 0 <= j < k < |u.releases[i].assets| ::
                  u.releases[i].assets[j].name != u.releases[i].assets[k].name
    ensures forall t | t != plan.tag :: t in s.refs ==> t in u.refs && u.refs[t] == s.refs[t]
    ensures forall i | i in s.releases && s.releases[i].tagName != plan.tag :: u.releases[i] == s.releases[i]
  {
    if plan.tag in u.refs && plan.tag !in s.refs { DirectTag(u, plan.tag, plan.commit); }
    forall i | i in Tagged(u, plan.tag) && (i in s.releases ==> Distinct(s.releases[i].assets))
      ensures forall j, k | 0 <= j < k < |u.releases[i].assets| ::
                u.releases[i].assets[j].name != u.releases[i].assets[k].name
    {
      var a := if i in s.releases then s.releases[i].assets else [];
      assert NewNames(a, u.releases[i].assets, plan.expected);
      forall j, k | 0 <= j < k < |u.releases[i].assets|
        ensures u.releases[i].assets[j].name != u.releases[i].assets[k].name
      {
        if k < |a| { assert u.releases[i].assets[j] == a[j] && u.releases[i].assets[k] == a[k]; }
      }
    }
  }

  /** Some release of the tag holds a row that no publication of the plan puts there. */
  ghost predicate Stuck(plan: Plan, s: Store) {
    exists i :: i in Tagged(s, plan.tag) && Spoiled(s.releases[i].assets, plan.expected)
  }

  lemma StuckIsRefused(plan: Plan, s: Store)
    requires Stuck(plan, s)
    ensures !Resumable(plan, s)
  {
    var i :| i in Tagged(s, plan.tag) && Spoiled(s.releases[i].assets, plan.expected);
    if plan.Sized() { SpoiledIff(s.releases[i].assets, plan.expected); }
  }

  /** A state no run can finish is never repaired by any number of further runs. */
  lemma StuckStays(plan: Plan, s: Store, u: Store)
    requires Moved(plan, s, u) && Stuck(plan, s)
    ensures Stuck(plan, u) && !Resumable(plan, u)
  {
    var i :| i in Tagged(s, plan.tag) && Spoiled(s.releases[i].assets, plan.expected);
    assert i in Tagged(u, plan.tag);
    var a, b := s.releases[i].assets, u.releases[i].assets;
    var k: nat :| k < |a| && Odd(a, k, plan.expected);
    assert forall j | 0 <= j < |a| :: b[j] == a[j];
    assert Odd(b, k, plan.expected);
    StuckIsRefused(plan, u);
  }
}
